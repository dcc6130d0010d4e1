/**
 * The relational store the core talks to, kept abstract: a map from table
 * name to its column list and row sequence, the statements a dump holds, and
 * a connection object whose changes become durable only at a commit.
 */
module Store {
  import opened Wrappers
  import opened SqlLiteral

  /** The two content tables. */
  const Messages: string := "messages"
  const Memories: string := "memories"

  type Row = seq<Value>

  /** A table: its columns in table_info order and its rows, each holding one
      value per column. */
  datatype Table = Table(columns: seq<string>, rows: seq<Row>)

  type Tables = map<string, Table>

  predicate Distinct(s: seq<string>)
  {
    forall i, j :: 0 <= i < j < |s| ==> s[i] != s[j]
  }

  predicate WellFormed(t: Table)
  {
    Distinct(t.columns) && forall r :: r in t.rows ==> |r| == |t.columns|
  }

  predicate AllWellFormed(ts: Tables)
  {
    forall name :: name in ts ==> WellFormed(ts[name])
  }

  /** PRAGMA table_info(name): the column names, none for a missing table. */
  function Columns(ts: Tables, name: string): (r: seq<string>)
    ensures name !in ts ==> r == []
  {
    if name in ts then ts[name].columns else []
  }

  /** SELECT COUNT(*) FROM name: fails (None) when the table does not exist. */
  function Count(ts: Tables, name: string): (r: Option<nat>)
    ensures r.Some? <==> name in ts
  {
    if name in ts then Some(|ts[name].rows|) else None
  }

  /** A statement of a dump script. */
  datatype Statement =
    | Begin
    | Insert(table: string, columns: seq<string>, values: seq<Value>)
    | Commit

  /** Position of the first occurrence of x in s. */
  function IndexOf(s: seq<string>, x: string): (i: nat)
    requires x in s
    ensures i < |s| && s[i] == x && x !in s[..i]
  {
    if s[0] == x then 0
    else
      var k := IndexOf(s[1..], x);
      assert s[..k + 1] == [s[0]] + s[1..][..k];
      k + 1
  }

  /** The row an INSERT stores: each table column takes the value listed for
      it, or NULL when the statement does not list it. */
  function RowFor(tableColumns: seq<string>, columns: seq<string>, values: seq<Value>): (row: Row)
    requires |columns| == |values|
    ensures |row| == |tableColumns|
  {
    seq(|tableColumns|, i requires 0 <= i < |tableColumns| =>
      if tableColumns[i] in columns then values[IndexOf(columns, tableColumns[i])] else Null)
  }

  /** An INSERT the table accepts: as many values as columns, every column
      one the table has. */
  predicate InsertAccepted(t: Table, columns: seq<string>, values: seq<Value>)
  {
    |columns| == |values| && forall c :: c in columns ==> c in t.columns
  }

  /** Listing every column of a table, in its own order, stores the row as given. */
  lemma RowForAllColumns(t: Table, row: Row)
    requires Distinct(t.columns) && |row| == |t.columns|
    ensures RowFor(t.columns, t.columns, row) == row
  {
    var r := RowFor(t.columns, t.columns, row);
    forall i | 0 <= i < |row|
      ensures r[i] == row[i]
    {
      var k := IndexOf(t.columns, t.columns[i]);
    }
  }

  /** The state of a connection: what it sees, what has been committed, and
      how many commits it has made. */
  datatype Snapshot = Snapshot(tables: Tables, committed: Tables, commits: nat)

  /** Executes one statement; None is the error SQLite raises for an INSERT
      into a missing table or an unknown column. */
  function Step(s: Snapshot, stmt: Statement): (r: Option<Snapshot>)
    ensures r.None? <==> stmt.Insert? && !(stmt.table in s.tables && InsertAccepted(s.tables[stmt.table], stmt.columns, stmt.values))
    ensures r.Some? && !stmt.Commit? ==> r.value.committed == s.committed && r.value.commits == s.commits
    ensures r.Some? && stmt.Insert? ==> r.value.tables.Keys == s.tables.Keys
  {
    match stmt
    case Begin => Some(s)
    case Commit => Some(s.(committed := s.tables, commits := s.commits + 1))
    case Insert(name, cols, vals) =>
      if name in s.tables && InsertAccepted(s.tables[name], cols, vals) then
        var t := s.tables[name];
        Some(s.(tables := s.tables[name := Table(t.columns, t.rows + [RowFor(t.columns, cols, vals)])]))
      else None
  }

  /** Outcome of executing a script: every statement ran, or execution stopped
      at statement `at`, with the earlier statements' effects kept (nothing is
      rolled back). */
  datatype RunResult = Completed(state: Snapshot) | Stopped(state: Snapshot, at: nat)

  function Run(s: Snapshot, script: seq<Statement>): RunResult
    decreases |script|
  {
    if script == [] then Completed(s)
    else match Step(s, script[0])
      case None => Stopped(s, 0)
      case Some(next) =>
        match Run(next, script[1..])
        case Completed(z) => Completed(z)
        case Stopped(z, k) => Stopped(z, k + 1)
  }

  /** A stopped run names a statement of the script, and that statement
      fails in the state the run reached. */
  lemma {:induction false} RunStopsAtFailure(s: Snapshot, script: seq<Statement>)
    ensures var r := Run(s, script);
      r.Stopped? ==> r.at < |script| && Step(r.state, script[r.at]).None?
    decreases |script|
  {
    if script != [] {
      match Step(s, script[0])
      case None =>
      case Some(next) =>
        RunStopsAtFailure(next, script[1..]);
    }
  }

  /** A run that stops before reaching any COMMIT has made nothing durable. */
  lemma {:induction false} StoppedBeforeCommit(s: Snapshot, script: seq<Statement>)
    requires Run(s, script).Stopped?
    requires forall k :: 0 <= k < |script| && k < Run(s, script).at ==> !script[k].Commit?
    ensures Run(s, script).state.committed == s.committed
    ensures Run(s, script).state.commits == s.commits
    decreases |script|
  {
    match Step(s, script[0])
    case None =>
    case Some(next) =>
      var rest := script[1..];
      assert Run(next, rest).Stopped? && Run(s, script).at == Run(next, rest).at + 1;
      assert !script[0].Commit?;
      forall k | 0 <= k < |rest| && k < Run(next, rest).at ensures !rest[k].Commit? {
        assert rest[k] == script[k + 1];
      }
      StoppedBeforeCommit(next, rest);
  }

  lemma UpdateSame(ts: Tables, name: string)
    requires name in ts
    ensures ts[name := ts[name]] == ts
  {
  }

  lemma UpdateTwice(ts: Tables, name: string, t: Table, u: Table)
    ensures ts[name := t][name := u] == ts[name := u]
  {
  }

  lemma AppendFirst(prefix: seq<Row>, rows: seq<Row>)
    requires rows != []
    ensures prefix + [rows[0]] + rows[1..] == prefix + rows
  {
    assert rows == [rows[0]] + rows[1..];
  }

  lemma EmptyPrefix(rows: seq<Row>)
    ensures [] + rows == rows
  {
  }

  lemma RunBegin(s: Snapshot)
    ensures Run(s, [Begin]) == Completed(s)
  {
    assert [Begin][1..] == [];
  }

  lemma RunCommit(s: Snapshot)
    ensures Run(s, [Commit]) == Completed(s.(committed := s.tables, commits := s.commits + 1))
  {
    assert [Commit][1..] == [];
  }

  /** Two scripts that each complete, run back to back, complete. */
  lemma RunThen(s: Snapshot, a: seq<Statement>, b: seq<Statement>, mid: Snapshot, z: Snapshot)
    requires Run(s, a) == Completed(mid) && Run(mid, b) == Completed(z)
    ensures Run(s, a + b) == Completed(z)
  {
    RunConcat(s, a, b);
  }

  /** A transaction script — BEGIN, two batches, COMMIT — completes when each
      batch does. */
  lemma RunTransaction(s: Snapshot, a: seq<Statement>, b: seq<Statement>, s1: Snapshot, s2: Snapshot)
    requires Run(s, a) == Completed(s1) && Run(s1, b) == Completed(s2)
    ensures Run(s, [Begin] + a + b + [Commit]) == Completed(Snapshot(s2.tables, s2.tables, s2.commits + 1))
  {
    RunBegin(s);
    RunCommit(s2);
    RunThen(s, [Begin], a, s, s1);
    RunThen(s, [Begin] + a, b, s1, s2);
    RunThen(s, [Begin] + a + b, [Commit], s2, Snapshot(s2.tables, s2.tables, s2.commits + 1));
  }

  /** A script whose first statement succeeds completes when its rest does. */
  lemma RunCons(s: Snapshot, stmt: Statement, rest: seq<Statement>, next: Snapshot, z: Snapshot)
    requires Step(s, stmt) == Some(next) && Run(next, rest) == Completed(z)
    ensures Run(s, [stmt] + rest) == Completed(z)
  {
    assert ([stmt] + rest)[0] == stmt;
    assert ([stmt] + rest)[1..] == rest;
  }

  /** Running a + b is running a, then b from where a left off. */
  lemma {:induction false} RunConcat(s: Snapshot, a: seq<Statement>, b: seq<Statement>)
    ensures Run(s, a + b) ==
      match Run(s, a)
      case Stopped(z, k) => Stopped(z, k)
      case Completed(z) =>
        match Run(z, b)
        case Completed(y) => Completed(y)
        case Stopped(y, k) => Stopped(y, |a| + k)
    decreases |a|
  {
    if a == [] {
      assert a + b == b;
    } else {
      assert (a + b)[0] == a[0];
      assert (a + b)[1..] == a[1..] + b;
      match Step(s, a[0])
      case None =>
      case Some(next) => RunConcat(next, a[1..], b);
    }
  }

  /** A successful statement keeps every table well formed. */
  lemma StepPreservesWellFormed(s: Snapshot, stmt: Statement)
    requires AllWellFormed(s.tables) && AllWellFormed(s.committed)
    requires Step(s, stmt).Some?
    ensures AllWellFormed(Step(s, stmt).value.tables) && AllWellFormed(Step(s, stmt).value.committed)
  {
    if stmt.Insert? {
      var t := s.tables[stmt.table];
      var row := RowFor(t.columns, stmt.columns, stmt.values);
      assert WellFormed(t);
      assert WellFormed(Table(t.columns, t.rows + [row]));
    }
  }

  /** Running a script, completed or stopped, keeps every table well formed. */
  lemma {:induction false} RunPreservesWellFormed(s: Snapshot, script: seq<Statement>)
    requires AllWellFormed(s.tables) && AllWellFormed(s.committed)
    ensures AllWellFormed(Run(s, script).state.tables) && AllWellFormed(Run(s, script).state.committed)
    decreases |script|
  {
    if script != [] {
      match Step(s, script[0])
      case None =>
      case Some(next) =>
        StepPreservesWellFormed(s, script[0]);
        RunPreservesWellFormed(next, script[1..]);
    }
  }

  /** The table after ALTER TABLE ADD COLUMN: the new column last, existing
      rows reading NULL in it (declared defaults are not modelled). */
  function WithColumn(t: Table, column: string): (r: Table)
    ensures r.columns == t.columns + [column] && |r.rows| == |t.rows|
    ensures forall i :: 0 <= i < |t.rows| ==> r.rows[i] == t.rows[i] + [Null]
  {
    Table(t.columns + [column], seq(|t.rows|, i requires 0 <= i < |t.rows| => t.rows[i] + [Null]))
  }

  lemma WithColumnWellFormed(t: Table, column: string)
    requires WellFormed(t) && column !in t.columns
    ensures WellFormed(WithColumn(t, column))
  {
    var r := WithColumn(t, column);
    forall i, j | 0 <= i < j < |r.columns|
      ensures r.columns[i] != r.columns[j]
    {
      if j == |t.columns| { assert r.columns[i] in t.columns; }
    }
    forall row | row in r.rows
      ensures |row| == |r.columns|
    {
      var k :| 0 <= k < |r.rows| && r.rows[k] == row;
      assert t.rows[k] in t.rows;
    }
  }

  /** A connection to the store. */
  class Database {
    var tables: Tables
    var committed: Tables
    var commits: nat

    function State(): Snapshot
      reads this
    {
      Snapshot(tables, committed, commits)
    }

    ghost predicate Valid()
      reads this
    {
      AllWellFormed(tables) && AllWellFormed(committed)
    }

    constructor (initial: Tables)
      requires AllWellFormed(initial)
      ensures Valid() && tables == initial && committed == initial && commits == 0
    {
      tables := initial;
      committed := initial;
      commits := 0;
    }

    /** SELECT COUNT(*) FROM name */
    method CountRows(name: string) returns (n: Option<nat>)
      ensures n == Count(tables, name)
    {
      if name in tables {
        n := Some(|tables[name].rows|);
      } else {
        n := None;
      }
    }

    /** PRAGMA table_info(name): the column names, none for a missing table. */
    method TableInfo(name: string) returns (columns: seq<string>)
      ensures columns == Columns(tables, name)
    {
      if name in tables {
        columns := tables[name].columns;
      } else {
        columns := [];
      }
    }

    /** SELECT * FROM name, with PRAGMA table_info(name): None when the table
        does not exist. */
    method Select(name: string) returns (t: Option<Table>)
      ensures t.Some? <==> name in tables
      ensures t.Some? ==> t.value == tables[name]
    {
      if name in tables {
        t := Some(tables[name]);
      } else {
        t := None;
      }
    }

    /** conn.commit(): makes the current view durable. */
    method Commit()
      modifies this
      ensures tables == old(tables) && committed == tables && commits == old(commits) + 1
    {
      committed := tables;
      commits := commits + 1;
    }

    /** conn.close(): changes not yet committed are discarded. */
    method Close()
      modifies this
      ensures tables == old(committed) && committed == old(committed) && commits == old(commits)
    {
      tables := committed;
    }

    /** Executes one statement of a script. */
    method Execute(stmt: Statement) returns (ok: bool)
      requires Valid()
      modifies this
      ensures Valid()
      ensures ok == Step(old(State()), stmt).Some?
      ensures State() == if ok then Step(old(State()), stmt).value else old(State())
    {
      match stmt {
        case Begin =>
          ok := true;
        case Commit =>
          committed := tables;
          commits := commits + 1;
          ok := true;
        case Insert(name, cols, vals) =>
          if name in tables && InsertAccepted(tables[name], cols, vals) {
            var t := tables[name];
            StepPreservesWellFormed(State(), stmt);
            tables := tables[name := Table(t.columns, t.rows + [RowFor(t.columns, cols, vals)])];
            ok := true;
          } else {
            ok := false;
          }
      }
    }

    /** cursor.executescript(script): statements run one after another until
        one fails; what ran before the failure is kept. */
    method ExecuteScript(script: seq<Statement>) returns (failedAt: Option<nat>)
      requires Valid()
      modifies this
      ensures Valid()
      ensures Run(old(State()), script).Completed? ==> failedAt.None? && State() == Run(old(State()), script).state
      ensures Run(old(State()), script).Stopped? ==>
        failedAt == Some(Run(old(State()), script).at) && State() == Run(old(State()), script).state
    {
      ghost var start := State();
      var i := 0;
      failedAt := None;
      while i < |script|
        invariant 0 <= i <= |script|
        invariant Run(start, script[..i]) == Completed(State())
        invariant Valid()
      {
        ghost var before := State();
        var ok := Execute(script[i]);
        RunConcat(start, script[..i], script[i..]);
        assert script[..i] + script[i..] == script;
        assert script[i..][0] == script[i];
        if !ok {
          assert Run(before, script[i..]) == Stopped(before, 0);
          failedAt := Some(i);
          return;
        }
        RunConcat(start, script[..i], [script[i]]);
        assert script[..i + 1] == script[..i] + [script[i]];
        i := i + 1;
      }
      assert script[..i] == script;
    }

    /** ALTER TABLE name ADD COLUMN column; it fails for a missing table, a
        column the table already has, or a change the store rejects for a
        reason outside this model (`rejected`). */
    method AddColumn(name: string, column: string, rejected: bool) returns (ok: bool)
      requires Valid()
      modifies this
      ensures Valid()
      ensures ok <==> !rejected && name in old(tables) && column !in old(tables)[name].columns
      ensures ok ==> tables == old(tables)[name := WithColumn(old(tables)[name], column)]
      ensures !ok ==> tables == old(tables)
      ensures committed == old(committed) && commits == old(commits)
    {
      if rejected || name !in tables || column in tables[name].columns {
        ok := false;
      } else {
        WithColumnWellFormed(tables[name], column);
        tables := tables[name := WithColumn(tables[name], column)];
        ok := true;
      }
    }
  }
}
