/**
 * The additive migration of the memories table: every declared column the
 * live schema lacks is appended, one ALTER at a time, and the changes are
 * committed once at the end.
 */
module Migration {
  import opened Store

  /** A declared column: its name and its SQL definition. */
  datatype ColumnSpec = ColumnSpec(name: string, definition: string)

  /** The columns the application expects on memories, in declared order. */
  const ColumnsToAdd: seq<ColumnSpec> :=
    [ColumnSpec("storage_type", "TEXT DEFAULT 'cloudinary'"), ColumnSpec("file_size", "INTEGER")]

  function Names(declared: seq<ColumnSpec>): (r: seq<string>)
    ensures |r| == |declared|
    ensures forall i :: 0 <= i < |declared| ==> r[i] == declared[i].name
  {
    if declared == [] then [] else Names(declared[..|declared| - 1]) + [declared[|declared| - 1].name]
  }

  /** The migration plan: names of the declared columns the live schema
      lacks, in declared order. */
  function Plan(declared: seq<ColumnSpec>, existing: seq<string>): (r: seq<string>)
    ensures |r| <= |declared|
  {
    if declared == [] then []
    else
      var last := declared[|declared| - 1];
      Plan(declared[..|declared| - 1], existing) + (if last.name !in existing then [last.name] else [])
  }

  /** The plan holds exactly the declared names the live schema lacks. */
  lemma {:induction false} PlanMembers(declared: seq<ColumnSpec>, existing: seq<string>)
    ensures forall n :: n in Plan(declared, existing) <==> n in Names(declared) && n !in existing
  {
    if declared != [] {
      var last := declared[|declared| - 1];
      assert Names(declared) == Names(declared[..|declared| - 1]) + [last.name];
      PlanMembers(declared[..|declared| - 1], existing);
    }
  }

  /** The names in `names` outside `rejected`, in order. */
  function Keep(names: seq<string>, rejected: set<string>): (r: seq<string>)
    ensures |r| <= |names|
  {
    if names == [] then []
    else
      var last := names[|names| - 1];
      Keep(names[..|names| - 1], rejected) + (if last !in rejected then [last] else [])
  }

  lemma {:induction false} KeepMembers(names: seq<string>, rejected: set<string>)
    ensures forall n :: n in Keep(names, rejected) <==> n in names && n !in rejected
  {
    if names != [] {
      assert names == names[..|names| - 1] + [names[|names| - 1]];
      KeepMembers(names[..|names| - 1], rejected);
    }
  }

  /** The names in `names` inside `rejected`, in order. */
  function Drop(names: seq<string>, rejected: set<string>): (r: seq<string>)
    ensures |r| <= |names|
  {
    if names == [] then []
    else
      var last := names[|names| - 1];
      Drop(names[..|names| - 1], rejected) + (if last in rejected then [last] else [])
  }

  /** The columns a run adds: the plan, less the ALTERs the store rejects. */
  function Added(declared: seq<ColumnSpec>, existing: seq<string>, rejected: set<string>): seq<string>
  {
    Keep(Plan(declared, existing), rejected)
  }

  /** The column list of memories after a run. */
  function Migrated(existing: seq<string>, declared: seq<ColumnSpec>, rejected: set<string>): seq<string>
  {
    existing + Added(declared, existing, rejected)
  }

  /** The table after appending each of `names` in turn. */
  function WithColumns(t: Table, names: seq<string>): (r: Table)
    ensures r.columns == t.columns + names && |r.rows| == |t.rows|
  {
    if names == [] then t
    else WithColumn(WithColumns(t, names[..|names| - 1]), names[|names| - 1])
  }

  /** A rejected ALTER costs only its own column: every other planned column
      is still added. */
  lemma RejectionIsLocal(declared: seq<ColumnSpec>, existing: seq<string>, rejected: set<string>)
    ensures forall n :: n in Added(declared, existing, rejected) <==>
      n in Added(declared, existing, {}) && n !in rejected
  {
    KeepMembers(Plan(declared, existing), rejected);
    KeepMembers(Plan(declared, existing), {});
  }

  /** Without rejections every declared column is present after the run. */
  lemma AllDeclaredPresent(declared: seq<ColumnSpec>, existing: seq<string>)
    ensures forall n :: n in Names(declared) ==> n in Migrated(existing, declared, {})
  {
    PlanMembers(declared, existing);
    KeepMembers(Plan(declared, existing), {});
  }

  lemma {:induction false} KeepNothing(names: seq<string>, rejected: set<string>)
    requires forall n :: n in names ==> n in rejected
    ensures Keep(names, rejected) == []
  {
    if names != [] {
      assert names[|names| - 1] in names;
      forall n | n in names[..|names| - 1] ensures n in rejected {
        assert n in names;
      }
      KeepNothing(names[..|names| - 1], rejected);
    }
  }

  /** Idempotence: a second run, with the same rejections, adds nothing and
      leaves the column list as the first run left it. */
  lemma MigrationIdempotent(declared: seq<ColumnSpec>, existing: seq<string>, rejected: set<string>)
    ensures Added(declared, Migrated(existing, declared, rejected), rejected) == []
    ensures Migrated(Migrated(existing, declared, rejected), declared, rejected) == Migrated(existing, declared, rejected)
  {
    var once := Migrated(existing, declared, rejected);
    var plan2 := Plan(declared, once);
    PlanMembers(declared, once);
    PlanMembers(declared, existing);
    KeepMembers(Plan(declared, existing), rejected);
    forall n | n in plan2 ensures n in rejected {
      assert n !in existing && n !in Added(declared, existing, rejected);
    }
    KeepNothing(plan2, rejected);
    assert once + [] == once;
  }

  lemma PlanSnoc(declared: seq<ColumnSpec>, existing: seq<string>, i: nat)
    requires i < |declared|
    ensures Plan(declared[..i + 1], existing) ==
      Plan(declared[..i], existing) + (if declared[i].name !in existing then [declared[i].name] else [])
  {
    assert declared[..i + 1][..i] == declared[..i];
  }

  lemma KeepDropSnoc(names: seq<string>, n: string, rejected: set<string>)
    ensures Keep(names + [n], rejected) == Keep(names, rejected) + (if n !in rejected then [n] else [])
    ensures Drop(names + [n], rejected) == Drop(names, rejected) + (if n in rejected then [n] else [])
  {
    assert (names + [n])[..|names|] == names;
  }

  /** What the migration has produced so far: the columns added, the
      columns whose ALTER failed, and the connection's tables. */
  datatype Progress = Progress(added: seq<string>, failed: seq<string>, tables: Tables)

  /** The progress after the first i declared columns. */
  function Expected(t0: Tables, existing: seq<string>, rejected: set<string>, i: nat): Progress
    requires i <= |ColumnsToAdd|
  {
    var plan := Plan(ColumnsToAdd[..i], existing);
    if Memories in t0 then
      var added := Keep(plan, rejected);
      Progress(added, Drop(plan, rejected), t0[Memories := WithColumns(t0[Memories], added)])
    else
      Progress([], plan, t0)
  }

  /** Where the migration loop stands after the first i declared columns. */
  ghost predicate LoopState(t0: Tables, existing: seq<string>, rejected: set<string>, i: nat,
                            added: seq<string>, failed: seq<string>, tables: Tables)
    requires i <= |ColumnsToAdd|
  {
    Progress(added, failed, tables) == Expected(t0, existing, rejected, i)
  }

  /** Before the first declared column nothing is added or failed. */
  lemma LoopStart(t0: Tables, existing: seq<string>, rejected: set<string>)
    ensures LoopState(t0, existing, rejected, 0, [], [], t0)
  {
    assert ColumnsToAdd[..0] == [];
    if Memories in t0 {
      assert t0[Memories := t0[Memories]] == t0;
    }
  }

  /** The declared column at position i is not among the first i. */
  lemma FreshName(i: nat)
    requires i < |ColumnsToAdd|
    ensures ColumnsToAdd[i].name !in Names(ColumnsToAdd[..i])
  {
    if i == 1 {
      assert Names(ColumnsToAdd[..1]) == ["storage_type"];
      assert ColumnsToAdd[1].name[0] == 'f' && "storage_type"[0] == 's';
    }
  }

  /** A column the live schema already has is skipped. */
  lemma LoopSkip(t0: Tables, existing: seq<string>, rejected: set<string>, i: nat,
                 added: seq<string>, failed: seq<string>, tables: Tables)
    requires i < |ColumnsToAdd| && ColumnsToAdd[i].name in existing
    requires LoopState(t0, existing, rejected, i, added, failed, tables)
    ensures LoopState(t0, existing, rejected, i + 1, added, failed, tables)
  {
    PlanSnoc(ColumnsToAdd, existing, i);
    assert Plan(ColumnsToAdd[..i + 1], existing) == Plan(ColumnsToAdd[..i], existing) + [];
    assert Plan(ColumnsToAdd[..i + 1], existing) == Plan(ColumnsToAdd[..i], existing);
  }

  /** Without a memories table every ALTER fails and is reported. */
  lemma LoopNoTable(t0: Tables, existing: seq<string>, rejected: set<string>, i: nat,
                    added: seq<string>, failed: seq<string>, tables: Tables)
    requires i < |ColumnsToAdd| && ColumnsToAdd[i].name !in existing && Memories !in t0
    requires LoopState(t0, existing, rejected, i, added, failed, tables)
    ensures Memories !in tables
    ensures LoopState(t0, existing, rejected, i + 1, added, failed + [ColumnsToAdd[i].name], tables)
  {
    PlanSnoc(ColumnsToAdd, existing, i);
  }

  /** A missing column on an existing table: not yet among its columns. */
  lemma LoopFresh(t0: Tables, existing: seq<string>, rejected: set<string>, i: nat,
                  added: seq<string>, failed: seq<string>, tables: Tables)
    requires i < |ColumnsToAdd| && existing == Columns(t0, Memories)
    requires ColumnsToAdd[i].name !in existing && Memories in t0
    requires LoopState(t0, existing, rejected, i, added, failed, tables)
    ensures Memories in tables && ColumnsToAdd[i].name !in tables[Memories].columns
  {
    var plan := Plan(ColumnsToAdd[..i], existing);
    FreshName(i);
    PlanMembers(ColumnsToAdd[..i], existing);
    KeepMembers(plan, rejected);
    assert tables[Memories].columns == existing + added;
  }

  /** A rejected ALTER is reported as failed; the schema is unchanged. */
  lemma LoopRejected(t0: Tables, existing: seq<string>, rejected: set<string>, i: nat,
                     added: seq<string>, failed: seq<string>, tables: Tables)
    requires i < |ColumnsToAdd| && ColumnsToAdd[i].name !in existing && Memories in t0
    requires ColumnsToAdd[i].name in rejected
    requires LoopState(t0, existing, rejected, i, added, failed, tables)
    ensures LoopState(t0, existing, rejected, i + 1, added, failed + [ColumnsToAdd[i].name], tables)
  {
    var name := ColumnsToAdd[i].name;
    var plan := Plan(ColumnsToAdd[..i], existing);
    PlanSnoc(ColumnsToAdd, existing, i);
    KeepDropSnoc(plan, name, rejected);
  }

  /** Appending one more column to the migrated table extends the fold. */
  lemma WithColumnsSnoc(t0: Tables, added: seq<string>, name: string)
    requires Memories in t0
    ensures var tables := t0[Memories := WithColumns(t0[Memories], added)];
      tables[Memories := WithColumn(tables[Memories], name)] ==
      t0[Memories := WithColumns(t0[Memories], added + [name])]
  {
    assert (added + [name])[..|added|] == added;
  }

  /** An accepted ALTER appends the column. */
  lemma LoopAdded(t0: Tables, existing: seq<string>, rejected: set<string>, i: nat,
                  added: seq<string>, failed: seq<string>, tables: Tables)
    requires i < |ColumnsToAdd| && ColumnsToAdd[i].name !in existing && Memories in t0
    requires ColumnsToAdd[i].name !in rejected
    requires LoopState(t0, existing, rejected, i, added, failed, tables)
    ensures var name := ColumnsToAdd[i].name;
      LoopState(t0, existing, rejected, i + 1, added + [name], failed,
                tables[Memories := WithColumn(tables[Memories], name)])
  {
    var name := ColumnsToAdd[i].name;
    var plan := Plan(ColumnsToAdd[..i], existing);
    PlanSnoc(ColumnsToAdd, existing, i);
    KeepDropSnoc(plan, name, rejected);
    WithColumnsSnoc(t0, added, name);
  }

  /** One ALTER of the loop, whatever the store answered, keeps the loop state. */
  lemma LoopAlter(t0: Tables, existing: seq<string>, rejected: set<string>, i: nat,
                  added: seq<string>, failed: seq<string>, before: Tables, ok: bool, after: Tables)
    requires i < |ColumnsToAdd| && existing == Columns(t0, Memories)
    requires ColumnsToAdd[i].name !in existing
    requires LoopState(t0, existing, rejected, i, added, failed, before)
    requires var name := ColumnsToAdd[i].name;
      ok <==> name !in rejected && Memories in before && name !in before[Memories].columns
    requires ok ==> (Memories in before &&
      after == before[Memories := WithColumn(before[Memories], ColumnsToAdd[i].name)])
    requires !ok ==> after == before
    ensures ok ==> LoopState(t0, existing, rejected, i + 1, added + [ColumnsToAdd[i].name], failed, after)
    ensures !ok ==> LoopState(t0, existing, rejected, i + 1, added, failed + [ColumnsToAdd[i].name], after)
  {
    if Memories in t0 {
      LoopFresh(t0, existing, rejected, i, added, failed, before);
      if ColumnsToAdd[i].name in rejected {
        LoopRejected(t0, existing, rejected, i, added, failed, before);
      } else {
        LoopAdded(t0, existing, rejected, i, added, failed, before);
      }
    } else {
      LoopNoTable(t0, existing, rejected, i, added, failed, before);
    }
  }

  /** What a run of the migration leaves behind, given the tables it started
      from: with a memories table, exactly the planned columns the store
      accepts are appended in declared order and the others are reported as
      failed; without one, every declared column is reported as failed and
      nothing changes. */
  function Outcome(t0: Tables, rejected: set<string>): Progress
  {
    if Memories in t0 then
      var existing := t0[Memories].columns;
      var added := Added(ColumnsToAdd, existing, rejected);
      Progress(added, Drop(Plan(ColumnsToAdd, existing), rejected), t0[Memories := WithColumns(t0[Memories], added)])
    else
      Progress([], Plan(ColumnsToAdd, []), t0)
  }

  /** After a run, memories carries the migrated column list. */
  lemma OutcomeColumns(t0: Tables, rejected: set<string>)
    requires Memories in t0
    ensures Memories in Outcome(t0, rejected).tables
    ensures Outcome(t0, rejected).tables[Memories].columns == Migrated(t0[Memories].columns, ColumnsToAdd, rejected)
  {
  }

  /** After the last declared column the loop state is the migration's result. */
  lemma LoopDone(t0: Tables, existing: seq<string>, rejected: set<string>,
                 added: seq<string>, failed: seq<string>, tables: Tables)
    requires existing == Columns(t0, Memories)
    requires LoopState(t0, existing, rejected, |ColumnsToAdd|, added, failed, tables)
    ensures Progress(added, failed, tables) == Outcome(t0, rejected)
  {
    assert ColumnsToAdd[..|ColumnsToAdd|] == ColumnsToAdd;
  }

  /** One turn of the migration loop: the declared column at position i is
      added when the live schema lacks it; a failed ALTER is reported. */
  method MigrateColumn(db: Database, ghost t0: Tables, existing: seq<string>, rejected: set<string>,
                       i: nat, added: seq<string>, failed: seq<string>)
    returns (added': seq<string>, failed': seq<string>)
    requires i < |ColumnsToAdd| && existing == Columns(t0, Memories)
    requires db.Valid() && LoopState(t0, existing, rejected, i, added, failed, db.tables)
    modifies db
    ensures db.Valid() && db.commits == old(db.commits) && db.committed == old(db.committed)
    ensures LoopState(t0, existing, rejected, i + 1, added', failed', db.tables)
  {
    var name := ColumnsToAdd[i].name;
    added', failed' := added, failed;
    if name !in existing {
      ghost var before := db.tables;
      var ok := db.AddColumn(Memories, name, name in rejected);
      LoopAlter(t0, existing, rejected, i, added, failed, before, ok, db.tables);
      if ok {
        added' := added + [name];
      } else {
        failed' := failed + [name];
      }
    } else {
      LoopSkip(t0, existing, rejected, i, added, failed, db.tables);
    }
  }

  /** migrate_database: reads the live columns of memories, tries to add each
      declared column it lacks (a failed ALTER is reported and the loop goes
      on), then commits once. `rejected` names the ALTERs the store refuses
      for reasons outside this model. */
  method MigrateDatabase(db: Database, rejected: set<string>) returns (added: seq<string>, failed: seq<string>)
    requires db.Valid()
    modifies db
    ensures db.Valid()
    ensures Progress(added, failed, db.tables) == Outcome(old(db.tables), rejected)
    ensures db.committed == db.tables && db.commits == old(db.commits) + 1
  {
    var existing := db.TableInfo(Memories);
    ghost var t0 := db.tables;
    added := [];
    failed := [];
    var i := 0;
    LoopStart(t0, existing, rejected);
    while i < |ColumnsToAdd|
      invariant 0 <= i <= |ColumnsToAdd|
      invariant db.Valid() && db.commits == old(db.commits) && db.committed == old(db.committed)
      invariant LoopState(t0, existing, rejected, i, added, failed, db.tables)
    {
      added, failed := MigrateColumn(db, t0, existing, rejected, i, added, failed);
      i := i + 1;
    }
    LoopDone(t0, existing, rejected, added, failed, db.tables);
    db.Commit();
    db.Close();
  }
}
