/**
 * Startup restoration of the store from a dump, and creation of a dump from
 * the current contents of the two content tables, messages and memories.
 */
module BackupRestoration {
  import opened Wrappers
  import opened SqlLiteral
  import opened Store

  // ---------------------------------------------------------------------
  // The restore decision

  /** Restore exactly when a backup file exists and both content tables can
      be counted and are empty. A count that fails (None) means "do not
      restore". */
  function ShouldRestoreRule(backupExists: bool, messagesCount: Option<nat>, memoriesCount: Option<nat>): (r: bool)
    ensures r <==> backupExists && messagesCount == Some(0) && memoriesCount == Some(0)
  {
    if !backupExists then false
    else match messagesCount
      case None => false
      case Some(m) =>
        match memoriesCount
        case None => false
        case Some(n) => if m > 0 || n > 0 then false else true
  }

  /** Without a backup file the answer is no, whatever the store holds. */
  lemma NoBackupNoRestore(messagesCount: Option<nat>, memoriesCount: Option<nat>)
    ensures !ShouldRestoreRule(false, messagesCount, memoriesCount)
  {
  }

  /** A populated table always vetoes restoration; it never merges into data. */
  lemma PopulatedNeverRestored(backupExists: bool, ts: Tables)
    requires (Messages in ts && |ts[Messages].rows| > 0) || (Memories in ts && |ts[Memories].rows| > 0)
    ensures !ShouldRestoreRule(backupExists, Count(ts, Messages), Count(ts, Memories))
  {
  }

  // ---------------------------------------------------------------------
  // The dump

  /** One INSERT per row, listing the table's columns in table_info order. */
  function InsertsFor(name: string, columns: seq<string>, rows: seq<Row>): (r: seq<Statement>)
    ensures |r| == |rows|
    ensures forall i :: 0 <= i < |rows| ==> r[i] == Insert(name, columns, rows[i])
  {
    if rows == [] then [] else [Insert(name, columns, rows[0])] + InsertsFor(name, columns, rows[1..])
  }

  /** The statements of a dump: a transaction holding every messages row, then
      every memories row. */
  function DumpScript(messages: Table, memories: Table): seq<Statement>
  {
    [Begin] + InsertsFor(Messages, messages.columns, messages.rows)
      + InsertsFor(Memories, memories.columns, memories.rows) + [Commit]
  }

  /** The text line of a statement; values go through the literal encoder. */
  function Render(stmt: Statement): string
  {
    match stmt
    case Begin => "BEGIN TRANSACTION;"
    case Insert(table, columns, values) => InsertText(table, columns, EncodeAll(values))
    case Commit => "COMMIT;"
  }

  function RenderAll(stmts: seq<Statement>): (r: seq<string>)
  {
    seq(|stmts|, i requires 0 <= i < |stmts| => Render(stmts[i]))
  }

  /** The INSERT lines written for one table. */
  function InsertLines(name: string, columns: seq<string>, rows: seq<Row>): seq<string>
  {
    seq(|rows|, i requires 0 <= i < |rows| => Render(Insert(name, columns, rows[i])))
  }

  lemma InsertLinesAt(name: string, columns: seq<string>, rows: seq<Row>, i: nat)
    requires i < |rows|
    ensures InsertLines(name, columns, rows)[i] == Render(Insert(name, columns, rows[i]))
  {
  }

  lemma InsertLinesSnoc(name: string, columns: seq<string>, rows: seq<Row>, i: nat)
    requires i < |rows|
    ensures InsertLines(name, columns, rows[..i + 1])
      == InsertLines(name, columns, rows[..i]) + [InsertText(name, columns, EncodeAll(rows[i]))]
  {
    var longer := InsertLines(name, columns, rows[..i + 1]);
    var shorter := InsertLines(name, columns, rows[..i]);
    assert |longer| == |shorter| + 1;
    forall k | 0 <= k < i ensures longer[k] == shorter[k] {
      assert rows[..i + 1][k] == rows[..i][k];
    }
    assert longer[i] == Render(Insert(name, columns, rows[i]));
  }

  /** Header comments, then the transaction start. */
  function DumpHead(generatedAt: string): seq<string>
  {
    ["-- Database Backup", "-- Generated: " + generatedAt, "", "BEGIN TRANSACTION;", ""]
  }

  /** The lines of the dump file (each ends with a newline in the file). */
  function DumpLines(generatedAt: string, messages: Table, memories: Table): seq<string>
  {
    DumpHead(generatedAt)
      + InsertLines(Messages, messages.columns, messages.rows) + [""]
      + InsertLines(Memories, memories.columns, memories.rows) + ["", "COMMIT;"]
  }

  /** The dump's layout: BEGIN after the header, one INSERT INTO messages per
      messages row, then one INSERT INTO memories per memories row, and COMMIT
      last; 8 lines besides the inserts. */
  lemma DumpLayout(generatedAt: string, messages: Table, memories: Table)
    ensures var d := DumpLines(generatedAt, messages, memories);
      && |d| == 8 + |messages.rows| + |memories.rows|
      && d[3] == "BEGIN TRANSACTION;"
      && (forall i :: 0 <= i < |messages.rows| ==> d[5 + i] == Render(Insert(Messages, messages.columns, messages.rows[i])))
      && (forall j :: 0 <= j < |memories.rows| ==>
            d[6 + |messages.rows| + j] == Render(Insert(Memories, memories.columns, memories.rows[j])))
      && d[|d| - 1] == "COMMIT;"
  {
    var head := DumpHead(generatedAt);
    var a := InsertLines(Messages, messages.columns, messages.rows);
    var b := InsertLines(Memories, memories.columns, memories.rows);
    var d := DumpLines(generatedAt, messages, memories);
    assert d == head + a + [""] + b + ["", "COMMIT;"];
    assert |head| == 5 && head[3] == "BEGIN TRANSACTION;";
    ScriptLayout(head, a, b);
    forall i | 0 <= i < |messages.rows|
      ensures d[5 + i] == Render(Insert(Messages, messages.columns, messages.rows[i]))
    {
      assert d[5 + i] == a[i];
      InsertLinesAt(Messages, messages.columns, messages.rows, i);
    }
    forall j | 0 <= j < |memories.rows|
      ensures d[6 + |messages.rows| + j] == Render(Insert(Memories, memories.columns, memories.rows[j]))
    {
      assert d[6 + |a| + j] == b[j];
      InsertLinesAt(Memories, memories.columns, memories.rows, j);
    }
  }

  /** A line SQLite executes: neither blank nor a "--" comment. */
  predicate IsStatementLine(line: string)
  {
    |line| > 0 && !(|line| >= 2 && line[0] == '-' && line[1] == '-')
  }

  function StatementLines(lines: seq<string>): (r: seq<string>)
    ensures |r| <= |lines|
  {
    if lines == [] then []
    else (if IsStatementLine(lines[0]) then [lines[0]] else []) + StatementLines(lines[1..])
  }

  lemma {:induction false} StatementLinesConcat(a: seq<string>, b: seq<string>)
    ensures StatementLines(a + b) == StatementLines(a) + StatementLines(b)
  {
    if a != [] {
      assert (a + b)[0] == a[0];
      assert (a + b)[1..] == a[1..] + b;
      StatementLinesConcat(a[1..], b);
    } else {
      assert a + b == b;
    }
  }

  lemma {:induction false} StatementLinesKeep(lines: seq<string>)
    requires forall i :: 0 <= i < |lines| ==> IsStatementLine(lines[i])
    ensures StatementLines(lines) == lines
  {
    if lines != [] {
      StatementLinesKeep(lines[1..]);
    }
  }

  lemma InsertTextStart(table: string, columns: seq<string>, literals: seq<string>)
    ensures |InsertText(table, columns, literals)| > 0 && InsertText(table, columns, literals)[0] == 'I'
  {
    var rest := table + " (" + Join(columns, ", ") + ") VALUES (" + Join(literals, ", ") + ");";
    var keyword := "INSERT INTO ";
    assert InsertText(table, columns, literals) == keyword + rest;
    assert (keyword + rest)[0] == keyword[0];
  }

  lemma RenderIsStatementLine(stmt: Statement)
    ensures IsStatementLine(Render(stmt))
  {
    if stmt.Insert? {
      InsertTextStart(stmt.table, stmt.columns, EncodeAll(stmt.values));
    }
  }

  lemma InsertLinesKept(name: string, columns: seq<string>, rows: seq<Row>)
    ensures StatementLines(InsertLines(name, columns, rows)) == InsertLines(name, columns, rows)
  {
    var a := InsertLines(name, columns, rows);
    forall i | 0 <= i < |a| ensures IsStatementLine(a[i]) {
      RenderIsStatementLine(Insert(name, columns, rows[i]));
    }
    StatementLinesKeep(a);
  }

  lemma HeadStatementLines(generatedAt: string)
    ensures StatementLines(DumpHead(generatedAt)) == ["BEGIN TRANSACTION;"]
  {
    var head := DumpHead(generatedAt);
    var generated := "-- Generated: " + generatedAt;
    var begin := "BEGIN TRANSACTION;";
    assert generated[0] == '-' && generated[1] == '-';
    assert !IsStatementLine(generated) && !IsStatementLine("");
    assert IsStatementLine(begin) by { assert begin[0] == 'B'; }
    assert StatementLines([""]) == [];
    assert StatementLines([begin, ""]) == [begin] by { assert [begin, ""][1..] == [""]; }
    assert StatementLines(["", begin, ""]) == [begin] by { assert ["", begin, ""][1..] == [begin, ""]; }
    assert StatementLines([generated, "", begin, ""]) == [begin] by {
      assert [generated, "", begin, ""][1..] == ["", begin, ""];
    }
    assert head[1..] == [generated, "", begin, ""];
  }

  lemma TailStatementLines()
    ensures StatementLines([""]) == []
    ensures StatementLines(["", "COMMIT;"]) == ["COMMIT;"]
  {
    assert ["", "COMMIT;"][1..] == ["COMMIT;"];
  }

  lemma RenderDumpScript(messages: Table, memories: Table)
    ensures RenderAll(DumpScript(messages, memories)) ==
      ["BEGIN TRANSACTION;"] + InsertLines(Messages, messages.columns, messages.rows)
        + InsertLines(Memories, memories.columns, memories.rows) + ["COMMIT;"]
  {
  }

  /** Stripped of blank and comment lines, the dump file holds exactly the
      dump script's statements, in order. */
  lemma DumpLinesHoldScript(generatedAt: string, messages: Table, memories: Table)
    ensures StatementLines(DumpLines(generatedAt, messages, memories)) == RenderAll(DumpScript(messages, memories))
  {
    var head := DumpHead(generatedAt);
    var a := InsertLines(Messages, messages.columns, messages.rows);
    var b := InsertLines(Memories, memories.columns, memories.rows);
    InsertLinesKept(Messages, messages.columns, messages.rows);
    InsertLinesKept(Memories, memories.columns, memories.rows);
    HeadStatementLines(generatedAt);
    TailStatementLines();
    var x1 := head + a;
    StatementLinesConcat(head, a);
    assert StatementLines(x1) == ["BEGIN TRANSACTION;"] + a;
    var x2 := x1 + [""];
    StatementLinesConcat(x1, [""]);
    assert StatementLines(x2) == ["BEGIN TRANSACTION;"] + a;
    var x3 := x2 + b;
    StatementLinesConcat(x2, b);
    assert StatementLines(x3) == ["BEGIN TRANSACTION;"] + a + b;
    var x4 := x3 + ["", "COMMIT;"];
    StatementLinesConcat(x3, ["", "COMMIT;"]);
    assert StatementLines(x4) == ["BEGIN TRANSACTION;"] + a + b + ["COMMIT;"];
    assert DumpLines(generatedAt, messages, memories) == x4;
    RenderDumpScript(messages, memories);
  }

  /** One INSERT of a full row lands as that row at the end of the table. */
  lemma InsertStep(s: Snapshot, name: string, columns: seq<string>, prefix: seq<Row>, row: Row)
    requires Distinct(columns) && |row| == |columns|
    requires name in s.tables && s.tables[name] == Table(columns, prefix)
    ensures Step(s, Insert(name, columns, row)) ==
      Some(s.(tables := s.tables[name := Table(columns, prefix + [row])]))
  {
    RowForAllColumns(Table(columns, prefix), row);
  }

  /** Replaying the INSERTs of a table's rows onto the same table holding
      `prefix` appends exactly those rows. */
  lemma {:induction false} InsertsRun(s: Snapshot, name: string, columns: seq<string>, prefix: seq<Row>, rows: seq<Row>)
    requires Distinct(columns) && forall r :: r in rows ==> |r| == |columns|
    requires name in s.tables && s.tables[name] == Table(columns, prefix)
    ensures Run(s, InsertsFor(name, columns, rows)) ==
      Completed(s.(tables := s.tables[name := Table(columns, prefix + rows)]))
    decreases |rows|
  {
    if rows == [] {
      assert prefix + rows == prefix;
      UpdateSame(s.tables, name);
    } else {
      var row, rest := rows[0], rows[1..];
      assert row in rows;
      InsertStep(s, name, columns, prefix, row);
      var next := s.(tables := s.tables[name := Table(columns, prefix + [row])]);
      forall r | r in rest ensures |r| == |columns| { assert r in rows; }
      InsertsRun(next, name, columns, prefix + [row], rest);
      var final := Table(columns, prefix + [row] + rest);
      AppendFirst(prefix, rows);
      UpdateTwice(s.tables, name, Table(columns, prefix + [row]), final);
      RunCons(s, Insert(name, columns, row), InsertsFor(name, columns, rest), next,
        s.(tables := s.tables[name := Table(columns, prefix + rows)]));
    }
  }

  /** Restore round trip: replaying a dump into a store whose two content
      tables have the same columns and no rows completes, reproduces both
      tables row for row, and commits them. */
  lemma DumpRoundTrip(s: Snapshot, messages: Table, memories: Table)
    requires WellFormed(messages) && WellFormed(memories)
    requires Messages in s.tables && s.tables[Messages] == Table(messages.columns, [])
    requires Memories in s.tables && s.tables[Memories] == Table(memories.columns, [])
    ensures Run(s, DumpScript(messages, memories)).Completed?
    ensures var z := Run(s, DumpScript(messages, memories)).state;
      z.tables == s.tables[Messages := messages][Memories := memories] && z.committed == z.tables
  {
    assert Messages[2] != Memories[2];
    TwoTablesRun(s, Messages, messages, Memories, memories);
  }

  /** The dump shape for any two distinct tables: BEGIN, the first table's
      rows, the second table's rows, COMMIT. */
  lemma TwoTablesRun(s: Snapshot, n1: string, t1: Table, n2: string, t2: Table)
    requires n1 != n2 && WellFormed(t1) && WellFormed(t2)
    requires n1 in s.tables && s.tables[n1] == Table(t1.columns, [])
    requires n2 in s.tables && s.tables[n2] == Table(t2.columns, [])
    ensures var script := [Begin] + InsertsFor(n1, t1.columns, t1.rows) + InsertsFor(n2, t2.columns, t2.rows) + [Commit];
      var ts := s.tables[n1 := t1][n2 := t2];
      Run(s, script) == Completed(Snapshot(ts, ts, s.commits + 1))
  {
    var a := InsertsFor(n1, t1.columns, t1.rows);
    var b := InsertsFor(n2, t2.columns, t2.rows);
    var s1 := s.(tables := s.tables[n1 := t1]);
    var ts := s.tables[n1 := t1][n2 := t2];
    var s2 := Snapshot(ts, s.committed, s.commits);
    assert Run(s, a) == Completed(s1) by {
      InsertsRun(s, n1, t1.columns, [], t1.rows);
      EmptyPrefix(t1.rows);
    }
    assert Run(s1, b) == Completed(s2) by {
      InsertsRun(s1, n2, t2.columns, [], t2.rows);
      EmptyPrefix(t2.rows);
    }
    RunTransaction(s, a, b, s1, s2);
  }

  // ---------------------------------------------------------------------
  // Restore

  /** The connection state after restore(): unchanged without a backup or
      when the file cannot be read; otherwise the script's effect, followed by
      conn.commit() when the whole script ran. */
  function AfterRestore(backupExists: bool, s: Snapshot, script: Option<seq<Statement>>): Snapshot
  {
    if !backupExists || script.None? then s
    else match Run(s, script.value)
      case Stopped(z, _) => z
      case Completed(z) => z.(committed := z.tables, commits := z.commits + 1)
  }

  /** restore() returns True: the file was there and read, the whole script
      ran, and both content tables could be counted afterwards. */
  predicate RestoreSucceeds(backupExists: bool, s: Snapshot, script: Option<seq<Statement>>)
  {
    && backupExists && script.Some? && Run(s, script.value).Completed?
    && Messages in Run(s, script.value).state.tables
    && Memories in Run(s, script.value).state.tables
  }

  /** A restore whose script fails part-way through a script that commits only
      at its end leaves the durable store as it was: the inserts that ran stay
      uncommitted, and closing the connection discards them. */
  lemma FailedRestoreDiscarded(s: Snapshot, script: seq<Statement>)
    requires forall k :: 0 <= k < |script| - 1 ==> !script[k].Commit?
    requires Run(s, script).Stopped?
    ensures AfterRestore(true, s, Some(script)).committed == s.committed
    ensures AfterRestore(true, s, Some(script)).commits == s.commits
  {
    RunStopsAtFailure(s, script);
    var r := Run(s, script);
    assert !script[r.at].Commit?;
    StoppedBeforeCommit(s, script);
  }

  /** A dump cut off after any number k of whole INSERT lines, so with no
      COMMIT line, does not fail: the script completes, and restore's own
      commit makes durable exactly the rows that were read, the first k of
      messages and then of memories. */
  lemma TruncatedDumpCommitted(s: Snapshot, messages: Table, memories: Table, k: nat)
    requires WellFormed(messages) && WellFormed(memories)
    requires Messages in s.tables && s.tables[Messages] == Table(messages.columns, [])
    requires Memories in s.tables && s.tables[Memories] == Table(memories.columns, [])
    requires k <= |messages.rows| + |memories.rows|
    ensures Run(s, DumpScript(messages, memories)[..k + 1]).Completed?
    ensures var i := if k <= |messages.rows| then k else |messages.rows|;
      var ts := s.tables[Messages := Table(messages.columns, messages.rows[..i])]
                        [Memories := Table(memories.columns, memories.rows[..k - i])];
      AfterRestore(true, s, Some(DumpScript(messages, memories)[..k + 1])) == Snapshot(ts, ts, s.commits + 1)
  {
    assert Messages[2] != Memories[2];
    var i := if k <= |messages.rows| then k else |messages.rows|;
    var m := Table(messages.columns, messages.rows[..i]);
    var n := Table(memories.columns, memories.rows[..k - i]);
    var a := InsertsFor(Messages, m.columns, m.rows);
    var b := InsertsFor(Memories, n.columns, n.rows);
    TruncatedScript(messages, memories, k, i);
    var s1 := s.(tables := s.tables[Messages := m]);
    var s2 := s1.(tables := s1.tables[Memories := n]);
    assert Run(s, a) == Completed(s1) by {
      forall r | r in m.rows ensures |r| == |m.columns| { assert r in messages.rows; }
      InsertsRun(s, Messages, m.columns, [], m.rows);
      EmptyPrefix(m.rows);
    }
    assert Run(s1, b) == Completed(s2) by {
      forall r | r in n.rows ensures |r| == |n.columns| { assert r in memories.rows; }
      InsertsRun(s1, Memories, n.columns, [], n.rows);
      EmptyPrefix(n.rows);
    }
    RunBegin(s);
    RunThen(s, [Begin], a, s, s1);
    RunThen(s, [Begin] + a, b, s1, s2);
    var script := DumpScript(messages, memories)[..k + 1];
    assert Run(s, script) == Completed(s2);
    assert s2.tables == s.tables[Messages := m][Memories := n];
    assert s2.committed == s.committed && s2.commits == s.commits;
    assert AfterRestore(true, s, Some(script)) == s2.(committed := s2.tables, commits := s2.commits + 1);
  }

  lemma InsertsPrefix(name: string, columns: seq<string>, rows: seq<Row>, j: nat)
    requires j <= |rows|
    ensures InsertsFor(name, columns, rows)[..j] == InsertsFor(name, columns, rows[..j])
  {
  }

  /** The first k + 1 statements of a dump: BEGIN, then the INSERTs of the
      first i messages rows and of the first k - i memories rows. */
  lemma TruncatedScript(messages: Table, memories: Table, k: nat, i: nat)
    requires k <= |messages.rows| + |memories.rows|
    requires i == if k <= |messages.rows| then k else |messages.rows|
    ensures DumpScript(messages, memories)[..k + 1] ==
      [Begin] + InsertsFor(Messages, messages.columns, messages.rows[..i])
        + InsertsFor(Memories, memories.columns, memories.rows[..k - i])
  {
    var a := InsertsFor(Messages, messages.columns, messages.rows);
    var b := InsertsFor(Memories, memories.columns, memories.rows);
    var script := [Begin] + a + b + [Commit];
    InsertsPrefix(Messages, messages.columns, messages.rows, i);
    InsertsPrefix(Memories, memories.columns, memories.rows, k - i);
    if k <= |messages.rows| {
      assert script[..k + 1] == [Begin] + a[..k];
      assert b[..0] == [];
    } else {
      assert messages.rows[..i] == messages.rows;
      assert script[..k + 1] == [Begin] + a + b[..k - i];
    }
  }

  /** The dump's only COMMIT is its last statement. */
  lemma DumpCommitsOnlyAtEnd(messages: Table, memories: Table)
    ensures var script := DumpScript(messages, memories);
      && script[|script| - 1] == Commit
      && forall k :: 0 <= k < |script| - 1 ==> !script[k].Commit?
  {
    TransactionShape(InsertsFor(Messages, messages.columns, messages.rows),
                     InsertsFor(Memories, memories.columns, memories.rows));
  }

  lemma TransactionShape(a: seq<Statement>, b: seq<Statement>)
    requires forall k :: 0 <= k < |a| ==> a[k].Insert?
    requires forall k :: 0 <= k < |b| ==> b[k].Insert?
    ensures var script := [Begin] + a + b + [Commit];
      && script[|script| - 1] == Commit
      && forall k :: 0 <= k < |script| - 1 ==> !script[k].Commit?
  {
    var script := [Begin] + a + b + [Commit];
    forall k | 0 <= k < |script| - 1 ensures !script[k].Commit? {
      if k == 0 {
      } else if k <= |a| {
        assert script[k] == a[k - 1];
      } else {
        assert script[k] == b[k - 1 - |a|];
      }
    }
  }

  /** Rows in the two content tables together. */
  function ContentRows(ts: Tables): nat
  {
    (if Messages in ts then |ts[Messages].rows| else 0) + (if Memories in ts then |ts[Memories].rows| else 0)
  }

  /** Restoring a dump into an empty store with the same columns succeeds and
      counts exactly the dumped rows. */
  lemma RestoreOfDump(s: Snapshot, messages: Table, memories: Table)
    requires WellFormed(messages) && WellFormed(memories)
    requires Messages in s.tables && s.tables[Messages] == Table(messages.columns, [])
    requires Memories in s.tables && s.tables[Memories] == Table(memories.columns, [])
    ensures RestoreSucceeds(true, s, Some(DumpScript(messages, memories)))
    ensures var after := AfterRestore(true, s, Some(DumpScript(messages, memories)));
      && ContentRows(after.tables) == |messages.rows| + |memories.rows|
      && after.committed[Messages] == messages && after.committed[Memories] == memories
  {
    DumpRoundTrip(s, messages, memories);
  }

  /** The status report of a restoration object. */
  datatype Status = Status(backupFileExists: bool, backupPath: string, recordsRestored: nat, databasePath: string)

  class BackupRestorer {
    const dbPath: string
    const backupPath: string
    /** Whether the backup file existed when the object was made. */
    const backupExists: bool
    var restoredCount: nat

    constructor (dbPath: string, backupPath: string, fileExists: bool)
      ensures this.dbPath == dbPath && this.backupPath == backupPath
      ensures backupExists == fileExists && restoredCount == 0
    {
      this.dbPath := dbPath;
      this.backupPath := backupPath;
      this.backupExists := fileExists;
      this.restoredCount := 0;
    }

    /** should_restore: the store is consulted only when the backup exists. */
    method ShouldRestore(db: Database) returns (r: bool)
      ensures r == ShouldRestoreRule(backupExists, Count(db.tables, Messages), Count(db.tables, Memories))
    {
      if !backupExists {
        return false;
      }
      var messagesCount := db.CountRows(Messages);
      if messagesCount.None? {
        return false;
      }
      var memoriesCount := db.CountRows(Memories);
      if memoriesCount.None? {
        return false;
      }
      if messagesCount.value > 0 || memoriesCount.value > 0 {
        return false;
      }
      return true;
    }

    /** restore: runs the dump (None when the file cannot be read), commits,
        and records how many content rows the store then holds. */
    method Restore(db: Database, script: Option<seq<Statement>>) returns (ok: bool)
      requires db.Valid()
      modifies this`restoredCount, db
      ensures db.Valid()
      ensures ok == RestoreSucceeds(backupExists, old(db.State()), script)
      ensures db.State() == AfterRestore(backupExists, old(db.State()), script)
      ensures ok ==> restoredCount == ContentRows(db.tables)
      ensures !ok ==> restoredCount == old(restoredCount)
    {
      if !backupExists {
        return false;
      }
      if script.None? {
        return false;
      }
      var failedAt := db.ExecuteScript(script.value);
      if failedAt.Some? {
        return false;
      }
      db.Commit();
      var messagesCount := db.CountRows(Messages);
      if messagesCount.None? {
        return false;
      }
      var memoriesCount := db.CountRows(Memories);
      if memoriesCount.None? {
        return false;
      }
      restoredCount := messagesCount.value + memoriesCount.value;
      return true;
    }

    /** get_status */
    function GetStatus(): (s: Status)
      reads this
      ensures s.backupFileExists == backupExists && s.recordsRestored == restoredCount
      ensures s.backupPath == backupPath && s.databasePath == dbPath
    {
      Status(backupExists, backupPath, restoredCount, dbPath)
    }

    /** create_backup: writes the dump of the current store line by line.
        `writable` says whether the output file could be opened; a query on a
        missing table aborts the dump, leaving what was written so far. */
    method CreateBackup(db: Database, writable: bool, generatedAt: string) returns (ok: bool, written: seq<string>)
      ensures ok <==> writable && Messages in db.tables && Memories in db.tables
      ensures ok ==> written == DumpLines(generatedAt, db.tables[Messages], db.tables[Memories])
      ensures !writable ==> written == []
      ensures writable && Messages !in db.tables ==> written == DumpHead(generatedAt)
      ensures writable && Messages in db.tables && Memories !in db.tables ==>
        written == DumpHead(generatedAt) + InsertLines(Messages, db.tables[Messages].columns, db.tables[Messages].rows) + [""]
    {
      written := [];
      if !writable {
        return false, written;
      }
      written := written + ["-- Database Backup"];
      written := written + ["-- Generated: " + generatedAt, ""];
      written := written + ["BEGIN TRANSACTION;", ""];
      assert written == DumpHead(generatedAt);

      var messages := db.Select(Messages);
      if messages.None? {
        return false, written;
      }
      var columns := messages.value.columns;
      var rows := messages.value.rows;
      var i := 0;
      while i < |rows|
        invariant 0 <= i <= |rows|
        invariant written == DumpHead(generatedAt) + InsertLines(Messages, columns, rows[..i])
      {
        InsertLinesSnoc(Messages, columns, rows, i);
        written := written + [InsertText(Messages, columns, EncodeAll(rows[i]))];
        i := i + 1;
      }
      assert rows[..i] == rows;
      written := written + [""];

      var memories := db.Select(Memories);
      if memories.None? {
        return false, written;
      }
      ghost var soFar := written;
      columns := memories.value.columns;
      rows := memories.value.rows;
      i := 0;
      while i < |rows|
        invariant 0 <= i <= |rows|
        invariant written == soFar + InsertLines(Memories, columns, rows[..i])
      {
        InsertLinesSnoc(Memories, columns, rows, i);
        written := written + [InsertText(Memories, columns, EncodeAll(rows[i]))];
        i := i + 1;
      }
      assert rows[..i] == rows;
      written := written + ["", "COMMIT;"];
      return true, written;
    }
  }

  /** auto_restore_backup_on_init: never fails; `db` is null when the store
      could not be opened. Restore runs only when the decision says so, and
      closing the connection keeps only what was committed. */
  method AutoRestoreBackupOnInit(dbPath: string, backupPath: string, fileExists: bool,
                                 db: Database?, script: Option<seq<Statement>>)
    returns (restoration: BackupRestorer)
    requires db != null ==> db.Valid()
    modifies db
    ensures fresh(restoration)
    ensures restoration.dbPath == dbPath && restoration.backupPath == backupPath
    ensures restoration.backupExists == fileExists
    ensures db == null ==> restoration.restoredCount == 0
    ensures db != null ==>
      var s0 := old(db.State());
      var decide := ShouldRestoreRule(fileExists, Count(s0.tables, Messages), Count(s0.tables, Memories));
      var s1 := if decide then AfterRestore(fileExists, s0, script) else s0;
      && db.tables == s1.committed && db.committed == s1.committed && db.commits == s1.commits
      && restoration.restoredCount ==
           (if decide && RestoreSucceeds(fileExists, s0, script)
            then ContentRows(AfterRestore(fileExists, s0, script).tables) else 0)
  {
    restoration := new BackupRestorer(dbPath, backupPath, fileExists);
    if db != null {
      var decide := restoration.ShouldRestore(db);
      if decide {
        var success := restoration.Restore(db, script);
      }
      db.Close();
    }
  }
}
