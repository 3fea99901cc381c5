/**
 * What the rows of paper_events say, in every run of the journal ETL
 * (backend/app/workers/journal_etl.py:79-126, 167-242): what the lines of the
 * journal say.
 */
module JournalContent {
  import opened Prelude
  import opened JournalLine
  import opened JournalTable
  import opened JournalSession
  import opened JournalRun
  import opened JournalInvariant
  import opened JournalSplit
  import opened JournalTheorems

  /** The row says what some complete line of the journal says, under that line's number or a higher one. */
  ghost predicate FromLine(row: Row, log: seq<Entry>) {
    exists k :: 0 <= k < |log| && Carries(row, log[k].line)
      && row.sourceFile == log[k].file && row.sourceLine >= log[k].lineno
  }

  ghost predicate AllFromLines(t: Table, log: seq<Entry>) {
    forall id :: id in t ==> FromLine(t[id], log)
  }

  lemma FromLongerLog(t: Table, log: seq<Entry>, log': seq<Entry>)
    requires AllFromLines(t, log) && log <= log'
    ensures AllFromLines(t, log')
  {
    forall id | id in t ensures FromLine(t[id], log') {
      assert FromLine(t[id], log);
      var k :| 0 <= k < |log| && Carries(t[id], log[k].line)
        && t[id].sourceFile == log[k].file && t[id].sourceLine >= log[k].lineno;
      assert log'[k] == log[k];
    }
  }

  /** The row of a line the iteration yielded. */
  lemma GotFromLine(files: seq<File>, i: nat, c: Cursor, n: nat)
    requires i < |files| && CursorOk(c, files[i].lines) && n < |RowsOf(Tag(files[i].name, c.got))|
    ensures FromLine(RowsOf(Tag(files[i].name, c.got))[n], Log(files))
  {
    var k := RowsOfSource(Tag(files[i].name, c.got), n);
    ParseLineMeaning(c.got[k], files[i].name, k + 1);
    if k < c.straight {
      LogAt(files, i, k);
    } else {
      assert Shifted(c.got, files[i].lines, c.straight, k);
      var j :| c.straight <= j < k && j < |files[i].lines| && c.got[k] == files[i].lines[j];
      LogAt(files, i, j);
    }
  }

  lemma {:induction false} InsertedFromLines(t: Table, rows: seq<Row>, log: seq<Entry>)
    requires AllFromLines(t, log) && forall n :: 0 <= n < |rows| ==> FromLine(rows[n], log)
    ensures AllFromLines(InsertAll(t, rows), log)
  {
    if rows != [] {
      InsertedFromLines(t, rows[..|rows| - 1], log);
    }
  }

  lemma CommitFromLines(s: State, m: nat)
    requires Enabled(s, Commit) && Inv(s, m) && AllFromLines(s.db.events, Log(s.files))
    ensures AllFromLines(Apply(s, Commit).db.events, Log(s.files))
  {
    CommitFacts(s, m);
    var rows := RowsOf(Tag(s.files[s.worker.file].name, s.worker.cursor.got));
    forall n | 0 <= n < |rows| ensures FromLine(rows[n], Log(s.files)) {
      GotFromLine(s.files, s.worker.file, s.worker.cursor, n);
    }
    InsertedFromLines(s.db.events, rows, Log(s.files));
  }

  lemma {:induction false} RunFromLines(s: State, steps: seq<Step>, m: nat)
    requires ValidRun(s, steps) && Inv(s, m) && AllFromLines(s.db.events, Log(s.files))
    ensures AllFromLines(Exec(s, steps).db.events, Log(Exec(s, steps).files))
    decreases steps
  {
    if steps != [] {
      var s1 := Apply(s, steps[0]);
      if steps[0].Commit? {
        CommitFromLines(s, m);
      }
      OnlyCommitStores(s, steps[0]);
      LogChange(s, steps[0]);
      FromLongerLog(if steps[0].Commit? then s1.db.events else s.db.events, Log(s.files), Log(s1.files));
      StepKeepsInv(s, steps[0], m);
      RunFromLines(s1, steps[1..], NextPrefix(s, steps[0], m));
    }
  }

  /**
   * In every run, split reads included, every row of the table has the instant,
   * instrument, payload and type of some complete line of the file it names.
   */
  lemma RowsComeFromLines(steps: seq<Step>)
    requires ValidRun(INIT, steps)
    ensures AllFromLines(Exec(INIT, steps).db.events, Log(Exec(INIT, steps).files))
  {
    InitExact();
    RunFromLines(INIT, steps, 0);
  }

  /**
   * After clean commits, the row of an event id is that of the first loaded
   * line with this id: its own content, under its own position.
   */
  lemma RowsAreFirstLines(steps: seq<Step>, id: EventId) returns (k: nat)
    requires ValidRun(INIT, steps) && CleanRun(INIT, steps) && id in Exec(INIT, steps).db.events
    ensures var log, row := Log(Exec(INIT, steps).files), Exec(INIT, steps).db.events[id];
      && k < |log| && Carries(row, log[k].line) && row.sourceFile == log[k].file && row.sourceLine == log[k].lineno
      && RowOf(log[k]).Some? && RowOf(log[k]).value.eventId == id
      && forall j :: 0 <= j < k && RowOf(log[j]).Some? ==> RowOf(log[j]).value.eventId != id
  {
    InitExact();
    var m := RunStaysExact(INIT, steps, 0);
    var log := Log(Exec(INIT, steps).files);
    k := LoadedRow(log[..m], id);
    forall j | 0 <= j < k && RowOf(log[j]).Some? ensures RowOf(log[j]).value.eventId != id {
      assert log[..m][j] == log[j];
    }
  }
}
