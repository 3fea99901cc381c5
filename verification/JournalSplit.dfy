/**
 * When the commit of a file keeps the table equal to that of a prefix of the
 * journal (backend/app/workers/journal_etl.py:175-202). A line met in pieces
 * takes more than one line number, so the rows after it are counted too far.
 */
module JournalSplit {
  import opened Prelude
  import opened JournalLine
  import opened JournalTable
  import opened JournalSession
  import opened JournalRun
  import opened JournalInvariant

  /** paper_events is the first-occurrence table of the first m journal lines. */
  ghost predicate HoldsPrefix(s: State, m: nat) {
    s.covered <= m && Loaded(s.db.events, s.files, m)
  }

  /** The rows read under their own line numbers, before the first piece of a line. */
  function StraightRows(name: string, c: Cursor): seq<Row>
    requires c.straight <= |c.got|
  {
    RowsOf(Tag(name, c.got)[..c.straight])
  }

  function RowsFrom(name: string, got: seq<Line>, from: nat): seq<Row>
    requires from <= |got|
  {
    RowsOf(Tag(name, got)[from..])
  }

  /** The rows read past a line that was met in pieces. */
  function ShiftedRows(name: string, c: Cursor): seq<Row>
    requires c.straight <= |c.got|
  {
    RowsFrom(name, c.got, c.straight)
  }

  ghost predicate AllIn(rows: seq<Row>, t: Table) {
    forall i :: 0 <= i < |rows| ==> rows[i].eventId in t
  }

  /** No row read past a line met in pieces is new to the table. */
  ghost predicate NothingNew(name: string, c: Cursor, events: Table)
    requires c.straight <= |c.got|
  {
    AllIn(ShiftedRows(name, c), InsertAll(events, StraightRows(name, c)))
  }

  ghost predicate Clean(s: State) {
    && s.worker.Reading? && s.worker.file < |s.files| && s.worker.cursor.straight <= |s.worker.cursor.got|
    && NothingNew(s.files[s.worker.file].name, s.worker.cursor, s.db.events)
  }

  lemma InParts(name: string, c: Cursor, events: Table)
    requires c.straight <= |c.got|
    ensures InsertAll(events, RowsOf(Tag(name, c.got))) ==
      InsertAll(InsertAll(events, StraightRows(name, c)), ShiftedRows(name, c))
  {
    var all := Tag(name, c.got);
    assert all == all[..c.straight] + all[c.straight..];
    RowsOfAppend(all[..c.straight], all[c.straight..]);
    InsertAllAppend(events, StraightRows(name, c), ShiftedRows(name, c));
  }

  /** The straight part is a stretch of the journal. */
  lemma StraightStretch(files: seq<File>, i: nat, c: Cursor)
    requires i < |files| && CursorOk(c, files[i].lines)
    ensures var off, end := Offset(files, i), Offset(files, i) + c.straight;
      end <= |Log(files)| && Tag(files[i].name, c.got)[..c.straight] == Log(files)[off..end]
  {
    var off, got := Offset(files, i), Tag(files[i].name, c.got);
    LastOffset(files, i);
    forall k | 0 <= k < c.straight ensures got[k] == Log(files)[off + k] {
      LogAt(files, i, k);
    }
  }

  /** The straight rows alone bring the table to a longer prefix. */
  lemma StraightLoads(files: seq<File>, i: nat, c: Cursor, m: nat)
    requires i < |files| && CursorOk(c, files[i].lines) && Offset(files, i) <= m <= |Log(files)|
    ensures var m' := Max(m, Offset(files, i) + c.straight);
      && m' <= |Log(files)|
      && InsertAll(Load(Log(files)[..m]), StraightRows(files[i].name, c)) == Load(Log(files)[..m'])
  {
    var off := Offset(files, i);
    StraightStretch(files, i, c);
    Absorb(Log(files), m, off, off + c.straight, StraightRows(files[i].name, c));
  }

  /** What the commit of a file that is being written makes of the table of a prefix. */
  lemma FileCommits(files: seq<File>, i: nat, c: Cursor, m: nat, events: Table)
    requires i < |files| && CursorOk(c, files[i].lines)
    requires Offset(files, i) <= m <= |Log(files)| && events == Load(Log(files)[..m])
    ensures var m' := Max(m, Offset(files, i) + c.straight);
      && m' <= |Log(files)|
      && InsertAll(events, StraightRows(files[i].name, c)) == Load(Log(files)[..m'])
      && InsertAll(events, RowsOf(Tag(files[i].name, c.got))) ==
        InsertAll(Load(Log(files)[..m']), ShiftedRows(files[i].name, c))
  {
    StraightLoads(files, i, c, m);
    InParts(files[i].name, c, events);
  }

  lemma FileCommitsCleanly(files: seq<File>, i: nat, c: Cursor, m: nat, db: Db)
    requires i < |files| && CursorOk(c, files[i].lines) && NothingNew(files[i].name, c, db.events)
    requires Offset(files, i) <= m && Loaded(db.events, files, m)
    ensures Loaded(FileEffect(db, files[i].name, c.got).events, files, Max(m, Offset(files, i) + c.straight))
  {
    FileCommits(files, i, c, m, db.events);
    InsertAllKnown(InsertAll(db.events, StraightRows(files[i].name, c)), ShiftedRows(files[i].name, c));
  }

  lemma CommitShape(s: State, m: nat)
    requires Enabled(s, Commit)
    requires Loaded(FileEffect(s.db, s.files[s.worker.file].name, s.worker.cursor.got).events, s.files, m)
    ensures Loaded(Apply(s, Commit).db.events, Apply(s, Commit).files, m)
  {
  }

  /** A clean commit leaves the table of a prefix. */
  lemma CleanCommit(s: State, m: nat)
    requires Enabled(s, Commit) && Exact(s, m) && Clean(s)
    ensures Exact(Apply(s, Commit), Reach(s, m))
  {
    CommitFacts(s, m);
    CleanLoads(s, m);
    CommitShape(s, Reach(s, m));
    CommitKeepsInv(s, m);
  }

  lemma CleanLoads(s: State, m: nat)
    requires s.worker.Reading? && s.worker.file < |s.files| && Clean(s)
    requires CursorOk(s.worker.cursor, s.files[s.worker.file].lines)
    requires Offset(s.files, s.worker.file) <= m && Loaded(s.db.events, s.files, m)
    ensures Loaded(FileEffect(s.db, s.files[s.worker.file].name, s.worker.cursor.got).events, s.files, Reach(s, m))
  {
    FileCommitsCleanly(s.files, s.worker.file, s.worker.cursor, m, s.db);
  }

  lemma CommitFacts(s: State, m: nat)
    requires Enabled(s, Commit) && Inv(s, m)
    ensures Ascending(FileNames(s.files)) && Offset(s.files, s.worker.file) <= m <= |Log(s.files)|
    ensures CursorOk(s.worker.cursor, s.files[s.worker.file].lines)
  {
  }

  /** Reading whole lines only is always clean, however many are appended meanwhile. */
  lemma WholeLinesAreClean(s: State, m: nat)
    requires Inv(s, m) && s.worker.Reading? && s.worker.cursor.straight == |s.worker.cursor.got|
    ensures Clean(s)
  {
  }

  // ---- a new row past a line met in pieces -----------------------------------

  /** A row of the table is that of the first line with its event id. */
  lemma {:induction false} LoadFirst(log: seq<Entry>, id: EventId) returns (k: nat)
    requires id in Load(log)
    ensures k < |log| && RowOf(log[k]) == Some(Load(log)[id]) && Load(log)[id].eventId == id
    ensures forall j :: 0 <= j < k && RowOf(log[j]).Some? ==> RowOf(log[j]).value.eventId != id
  {
    if log == [] {
      assert false;
    } else {
      var front, last := log[..|log| - 1], log[|log| - 1];
      LoadNext(front, last);
      assert front + [last] == log;
      if id in Load(front) {
        k := LoadFirst(front, id);
      } else {
        k := |front|;
        KnownByLoad(front);
      }
    }
  }

  /**
   * The row a loaded table holds for an event id is that of the first line with
   * this id: its own instant, instrument, payload and type, at its position.
   */
  lemma LoadedRow(log: seq<Entry>, id: EventId) returns (k: nat)
    requires id in Load(log)
    ensures k < |log| && Carries(Load(log)[id], log[k].line)
    ensures Load(log)[id].sourceFile == log[k].file && Load(log)[id].sourceLine == log[k].lineno
    ensures RowOf(log[k]).Some? && RowOf(log[k]).value.eventId == id
    ensures forall j :: 0 <= j < k && RowOf(log[j]).Some? ==> RowOf(log[j]).value.eventId != id
  {
    k := LoadFirst(log, id);
    ParseLineMeaning(log[k].line, log[k].file, log[k].lineno);
  }

  lemma LoadNext(front: seq<Entry>, last: Entry)
    ensures Load(front + [last]) ==
      if RowOf(last).None? then Load(front) else InsertIfAbsent(Load(front), RowOf(last).value)
  {
    assert (front + [last])[..|front|] == front;
    if RowOf(last).Some? {
      var rows, row := RowsOf(front), RowOf(last).value;
      assert (rows + [row])[..|rows|] == rows;
    } else {
      assert RowsOf(front) + [] == RowsOf(front);
    }
  }

  lemma KnownByLoad(log: seq<Entry>)
    ensures Known(Load(log), log)
  {
    InsertAllKeeps(map[], RowsOf(log));
    forall k | 0 <= k < |log| && RowOf(log[k]).Some? ensures RowOf(log[k]).value.eventId in Load(log) {
      RowsOfMember(log, k);
    }
  }

  /**
   * The commit of a file met in pieces, on plain sequences: the file's lines
   * start at off in the log, and the rows from "straight" on are inserted into
   * the table of everything before them.
   */
  ghost predicate Skew(log: seq<Entry>, name: string, off: nat, c: Cursor, lines: seq<Line>, post: Table) {
    && LinesAt(log, name, off, lines) && CursorOk(c, lines)
    && (forall k :: 0 <= k < |log| ==> IsJournalName(log[k].file))
    && (forall k :: 0 <= k < |log| && log[k].file == name ==> off <= k < off + |lines|)
    && IsJournalName(name) && c.straight <= |c.got| && off + c.straight <= |log|
    && post == InsertAll(Load(log[..off + c.straight]), RowsFrom(name, c.got, c.straight))
  }

  ghost predicate LinesAt(log: seq<Entry>, name: string, off: nat, lines: seq<Line>) {
    && off + |lines| <= |log|
    && forall j :: 0 <= j < |lines| ==> log[off + j] == Entry(name, j + 1, lines[j])
  }

  /** The row of the iteration's line i, under the number it was counted with. */
  function RowAt(name: string, got: seq<Line>, i: nat): Option<Row>
    requires i < |got|
  {
    ParseLine(got[i], name, i + 1)
  }

  lemma {:induction false} FirstOf(rows: seq<Row>, n: int) returns (first: int)
    requires 0 <= n < |rows|
    ensures IsFirst(rows, first) && rows[first].eventId == rows[n].eventId
    decreases n
  {
    if j :| 0 <= j < n && rows[j].eventId == rows[n].eventId {
      first := FirstOf(rows, j);
    } else {
      first := n;
    }
  }

  lemma AddedRow(base: Table, rows: seq<Row>, id: EventId) returns (n: int)
    requires id !in base && id in InsertAll(base, rows)
    ensures 0 <= n < |rows| && rows[n].eventId == id && InsertAll(base, rows)[id] == rows[n]
  {
    InsertAllKeeps(base, rows);
    n :| 0 <= n < |rows| && rows[n].eventId == id;
    n := FirstOf(rows, n);
    FirstRowStays(base, rows, n);
  }

  /** What the commit added to the table comes from a line of the iteration. */
  lemma AddedBy(base: Table, name: string, got: seq<Line>, from: nat, id: EventId) returns (i: nat)
    requires from <= |got| && id !in base && id in InsertAll(base, RowsFrom(name, got, from))
    ensures from <= i < |got| && RowAt(name, got, i) == Some(InsertAll(base, RowsFrom(name, got, from))[id])
    ensures RowAt(name, got, i).value.eventId == id
  {
    var n := AddedRow(base, RowsFrom(name, got, from), id);
    var k := RowsOfSource(Tag(name, got)[from..], n);
    i := from + k;
  }

  lemma Added(base: Table, name: string, got: seq<Line>, from: nat, i: nat)
    requires from <= i < |got| && RowAt(name, got, i).Some?
    ensures RowAt(name, got, i).value.eventId in InsertAll(base, RowsFrom(name, got, from))
  {
    var entries := Tag(name, got)[from..];
    RowsOfMember(entries, i - from);
    InsertAllKeeps(base, RowsOf(entries));
  }

  /** The line a shifted row came from stands earlier in the log. */
  lemma Origin(log: seq<Entry>, name: string, off: nat, c: Cursor, lines: seq<Line>, i: nat) returns (j: nat)
    requires CursorOk(c, lines) && LinesAt(log, name, off, lines)
    requires c.straight <= i < |c.got| && RowAt(name, c.got, i).Some?
    ensures c.straight <= j < i && j < |lines| && RowOf(log[off + j]) == RowAt(name, lines, j)
    ensures RowOf(log[off + j]).Some?
    ensures RowOf(log[off + j]).value.synthetic == RowAt(name, c.got, i).value.synthetic
    ensures !RowAt(name, c.got, i).value.synthetic ==>
      RowOf(log[off + j]).value.eventId == RowAt(name, c.got, i).value.eventId
  {
    assert Shifted(c.got, lines, c.straight, i);
    j :| c.straight <= j < i && j < |lines| && c.got[i] == lines[j];
  }

  /** A synthetic id of a later line of the file is not in the table of what comes before it. */
  lemma SyntheticIsNew(log: seq<Entry>, name: string, off: nat, c: Cursor, lines: seq<Line>, post: Table,
                       line: Line, n: nat)
    requires Skew(log, name, off, c, lines, post) && n >= c.straight
    requires ParseLine(line, name, n + 1).Some? && ParseLine(line, name, n + 1).value.synthetic
    ensures ParseLine(line, name, n + 1).value.eventId !in Load(log[..off + c.straight])
  {
    var id := ParseLine(line, name, n + 1).value.eventId;
    if id in Load(log[..off + c.straight]) {
      var k := LoadFirst(log[..off + c.straight], id);
      if log[k].file == name {
        FileIndex(log, name, off, lines, k);
      }
      SyntheticIdsNeverCollide(line, name, n + 1, log[k].line, log[k].file, log[k].lineno);
    }
  }

  /** Where a synthetic id of the file is in the table of a prefix, its line is in the prefix. */
  lemma SyntheticIndex(log: seq<Entry>, name: string, off: nat, c: Cursor, lines: seq<Line>, post: Table,
                       line: Line, n: nat, q: nat)
    requires Skew(log, name, off, c, lines, post) && q <= |log|
    requires ParseLine(line, name, n + 1).Some? && ParseLine(line, name, n + 1).value.synthetic
    requires ParseLine(line, name, n + 1).value.eventId in Load(log[..q])
    ensures off + n < q
  {
    var id := ParseLine(line, name, n + 1).value.eventId;
    var k := LoadFirst(log[..q], id);
    if (log[k].file, log[k].lineno) != (name, n + 1) {
      SyntheticIdsNeverCollide(line, name, n + 1, log[k].line, log[k].file, log[k].lineno);
    } else {
      FileIndex(log, name, off, lines, k);
    }
  }

  /** If the outcome is the table of a prefix, no shifted row has a synthetic id. */
  lemma {:induction false} NoSyntheticShift(log: seq<Entry>, name: string, off: nat, c: Cursor, lines: seq<Line>,
                                            post: Table, q: nat, i: nat)
    requires Skew(log, name, off, c, lines, post) && q <= |log| && post == Load(log[..q])
    requires c.straight <= i < |c.got| && RowAt(name, c.got, i).Some?
    ensures !RowAt(name, c.got, i).value.synthetic
    decreases i
  {
    if RowAt(name, c.got, i).value.synthetic {
      var base := Load(log[..off + c.straight]);
      Added(base, name, c.got, c.straight, i);
      SyntheticIndex(log, name, off, c, lines, post, c.got[i], i, q);
      var j := Origin(log, name, off, c, lines, i);
      var id := RowOf(log[off + j]).value.eventId;
      KnownByLoad(log[..q]);
      assert id in post by { assert log[..q][off + j] == log[off + j]; }
      SyntheticIsNew(log, name, off, c, lines, post, lines[j], j);
      var i' := AddedBy(base, name, c.got, c.straight, id);
      SameNumber(name, lines[j], j, c.got[i'], i');
      NoSyntheticShift(log, name, off, c, lines, post, q, i');
    }
  }

  lemma SameNumber(name: string, a: Line, m: nat, b: Line, n: nat)
    requires IsJournalName(name) && ParseLine(a, name, m + 1).Some? && ParseLine(b, name, n + 1).Some?
    requires ParseLine(a, name, m + 1).value.synthetic
    requires ParseLine(a, name, m + 1).value.eventId == ParseLine(b, name, n + 1).value.eventId
    ensures m == n && ParseLine(b, name, n + 1).value.synthetic
  {
    if m != n {
      SyntheticIdsNeverCollide(a, name, m + 1, b, name, n + 1);
    }
  }

  /** If the outcome is the table of a prefix, every shifted row of the runner's own id was known before. */
  lemma NativeShiftKnown(log: seq<Entry>, name: string, off: nat, c: Cursor, lines: seq<Line>,
                         post: Table, q: nat, i: nat)
    requires Skew(log, name, off, c, lines, post) && q <= |log| && post == Load(log[..q])
    requires c.straight <= i < |c.got| && RowAt(name, c.got, i).Some? && !RowAt(name, c.got, i).value.synthetic
    ensures RowAt(name, c.got, i).value.eventId in Load(log[..off + c.straight])
  {
    var id := RowAt(name, c.got, i).value.eventId;
    var base := Load(log[..off + c.straight]);
    if id !in base {
      Added(base, name, c.got, c.straight, i);
      var first := AddedBy(base, name, c.got, c.straight, id);
      var j := Origin(log, name, off, c, lines, first);
      var k := LoadFirst(log[..q], id);
      FileIndex(log, name, off, lines, k);
    }
  }

  lemma FileIndex(log: seq<Entry>, name: string, off: nat, lines: seq<Line>, k: nat)
    requires LinesAt(log, name, off, lines) && k < |log| && log[k].file == name
    requires forall k :: 0 <= k < |log| && log[k].file == name ==> off <= k < off + |lines|
    ensures k + 1 == off + log[k].lineno
  {
    assert log[off + (k - off)] == Entry(name, k - off + 1, lines[k - off]);
  }

  // ---- the exact law ---------------------------------------------------------

  /** The file that stands at an index of the log. */
  lemma {:induction false} LogOwner(files: seq<File>, k: nat) returns (x: nat)
    requires k < |Log(files)|
    ensures x < |files| && Log(files)[k].file == files[x].name
    ensures Offset(files, x) <= k < Offset(files, x) + |files[x].lines|
  {
    if files == [] {
      assert false;
    } else {
      var front := files[..|files| - 1];
      if k < |Log(front)| {
        x := LogOwner(front, k);
        assert front[..x] == files[..x];
      } else {
        x := |files| - 1;
      }
    }
  }

  lemma LogNames(files: seq<File>, i: nat)
    requires Ascending(FileNames(files)) && i < |files|
    ensures forall k :: 0 <= k < |Log(files)| ==> IsJournalName(Log(files)[k].file)
    ensures forall k :: 0 <= k < |Log(files)| && Log(files)[k].file == files[i].name ==>
      Offset(files, i) <= k < Offset(files, i) + |files[i].lines|
  {
    forall k | 0 <= k < |Log(files)|
      ensures IsJournalName(Log(files)[k].file)
      ensures Log(files)[k].file == files[i].name ==> Offset(files, i) <= k < Offset(files, i) + |files[i].lines|
    {
      var x := LogOwner(files, k);
      assert FileNames(files)[x] == files[x].name && FileNames(files)[i] == files[i].name;
      assert x < i ==> Lexicographic.LexLess(FileNames(files)[x], FileNames(files)[i]);
      assert i < x ==> Lexicographic.LexLess(FileNames(files)[i], FileNames(files)[x]);
    }
  }

  lemma FileSkew(files: seq<File>, i: nat, c: Cursor)
    requires Ascending(FileNames(files)) && i < |files| && CursorOk(c, files[i].lines)
    ensures var off := Offset(files, i);
      && off + c.straight <= |Log(files)|
      && Skew(Log(files), files[i].name, off, c, files[i].lines,
              InsertAll(Load(Log(files)[..off + c.straight]), RowsFrom(files[i].name, c.got, c.straight)))
  {
    LogNames(files, i);
    LastOffset(files, i);
    assert FileNames(files)[i] == files[i].name;
    forall j | 0 <= j < |files[i].lines|
      ensures Log(files)[Offset(files, i) + j] == Entry(files[i].name, j + 1, files[i].lines[j])
    {
      LogAt(files, i, j);
    }
  }

  /** Every shifted row is known if the outcome is the table of a prefix. */
  lemma ShiftKnown(log: seq<Entry>, name: string, off: nat, c: Cursor, lines: seq<Line>, post: Table, q: nat)
    requires Skew(log, name, off, c, lines, post) && q <= |log| && post == Load(log[..q])
    ensures AllIn(RowsFrom(name, c.got, c.straight), Load(log[..off + c.straight]))
  {
    var rows, entries := RowsFrom(name, c.got, c.straight), Tag(name, c.got)[c.straight..];
    forall n | 0 <= n < |rows| ensures rows[n].eventId in Load(log[..off + c.straight]) {
      var k := RowsOfSource(entries, n);
      assert RowAt(name, c.got, c.straight + k) == RowOf(entries[k]);
      NoSyntheticShift(log, name, off, c, lines, post, q, c.straight + k);
      NativeShiftKnown(log, name, off, c, lines, post, q, c.straight + k);
    }
  }

  lemma FileShiftKnown(files: seq<File>, i: nat, c: Cursor, post: Table, q: nat)
    requires Ascending(FileNames(files)) && i < |files| && CursorOk(c, files[i].lines)
    requires Offset(files, i) + c.straight <= |Log(files)|
    requires var base := Load(Log(files)[..Offset(files, i) + c.straight]);
      post == InsertAll(base, RowsFrom(files[i].name, c.got, c.straight))
    requires q <= |Log(files)| && post == Load(Log(files)[..q])
    ensures AllIn(RowsFrom(files[i].name, c.got, c.straight), Load(Log(files)[..Offset(files, i) + c.straight]))
  {
    FileSkew(files, i, c);
    ShiftKnown(Log(files), files[i].name, Offset(files, i), c, files[i].lines, post, q);
  }

  /** If the outcome of a file met in pieces is the table of a prefix, nothing was new. */
  lemma PartedNothingNew(files: seq<File>, i: nat, c: Cursor, m: nat, events: Table, q: nat)
    requires Ascending(FileNames(files)) && i < |files| && CursorOk(c, files[i].lines)
    requires Offset(files, i) <= m <= Offset(files, i) + c.straight && m <= |Log(files)|
    requires Loaded(events, files, m) && Loaded(InsertAll(events, RowsOf(Tag(files[i].name, c.got))), files, q)
    ensures NothingNew(files[i].name, c, events)
  {
    FileCommits(files, i, c, m, events);
    FileShiftKnown(files, i, c, Load(Log(files)[..q]), q);
  }

  lemma KnownShiftIsNative(log: seq<Entry>, name: string, off: nat, c: Cursor, lines: seq<Line>, post: Table, n: nat)
    requires Skew(log, name, off, c, lines, post) && n < |RowsFrom(name, c.got, c.straight)|
    requires AllIn(RowsFrom(name, c.got, c.straight), Load(log[..off + c.straight]))
    ensures !RowsFrom(name, c.got, c.straight)[n].synthetic
  {
    var k := RowsOfSource(Tag(name, c.got)[c.straight..], n);
    if RowsFrom(name, c.got, c.straight)[n].synthetic {
      SyntheticIsNew(log, name, off, c, lines, post, c.got[c.straight + k], c.straight + k);
    }
  }

  lemma KnownInFileIsNative(files: seq<File>, i: nat, c: Cursor, n: nat)
    requires Ascending(FileNames(files)) && i < |files| && CursorOk(c, files[i].lines)
    requires Offset(files, i) + c.straight <= |Log(files)| && n < |RowsFrom(files[i].name, c.got, c.straight)|
    requires AllIn(RowsFrom(files[i].name, c.got, c.straight), Load(Log(files)[..Offset(files, i) + c.straight]))
    ensures !RowsFrom(files[i].name, c.got, c.straight)[n].synthetic
  {
    var base := Load(Log(files)[..Offset(files, i) + c.straight]);
    FileSkew(files, i, c);
    KnownShiftIsNative(Log(files), files[i].name, Offset(files, i), c, files[i].lines,
                       InsertAll(base, RowsFrom(files[i].name, c.got, c.straight)), n);
  }

  lemma NothingNewIn(files: seq<File>, i: nat, c: Cursor, m: nat, events: Table)
    requires i < |files| && CursorOk(c, files[i].lines) && Offset(files, i) + c.straight <= |Log(files)|
    requires Offset(files, i) <= m <= Offset(files, i) + c.straight && Loaded(events, files, m)
    requires NothingNew(files[i].name, c, events)
    ensures AllIn(RowsFrom(files[i].name, c.got, c.straight), Load(Log(files)[..Offset(files, i) + c.straight]))
  {
    StraightLoads(files, i, c, m);
  }

  /** Where nothing was new, every row read past a line met in pieces bears the runner's own id. */
  lemma NothingNewIsNative(files: seq<File>, i: nat, c: Cursor, m: nat, events: Table, n: nat)
    requires Ascending(FileNames(files)) && i < |files| && CursorOk(c, files[i].lines)
    requires Offset(files, i) <= m <= Offset(files, i) + c.straight && Loaded(events, files, m)
    requires NothingNew(files[i].name, c, events) && n < |RowsFrom(files[i].name, c.got, c.straight)|
    ensures !RowsFrom(files[i].name, c.got, c.straight)[n].synthetic
  {
    LastOffset(files, i);
    NothingNewIn(files, i, c, m, events);
    KnownInFileIsNative(files, i, c, n);
  }

  /** A clean commit shifts only lines with an id of their own that the table knows already. */
  lemma CleanShiftsNoSynthetic(s: State, m: nat, n: nat)
    requires Enabled(s, Commit) && Exact(s, m) && Clean(s)
    requires n < |ShiftedRows(s.files[s.worker.file].name, s.worker.cursor)|
    ensures !ShiftedRows(s.files[s.worker.file].name, s.worker.cursor)[n].synthetic
  {
    CommitFacts(s, m);
    NothingNewIsNative(s.files, s.worker.file, s.worker.cursor, m, s.db.events, n);
  }

  /** A commit that leaves the table of a prefix was clean. */
  lemma PrefixWasClean(s: State, m: nat, q: nat)
    requires Enabled(s, Commit) && Exact(s, m) && HoldsPrefix(Apply(s, Commit), q)
    ensures Clean(s)
  {
    if s.worker.cursor.straight < |s.worker.cursor.got| {
      PartedNothingNew(s.files, s.worker.file, s.worker.cursor, m, s.db.events, q);
    } else {
      WholeLinesAreClean(s, m);
    }
  }

  /**
   * From the table of a prefix, a commit leads to the table of a prefix if and
   * only if no row read past a line met in pieces is new to the table.
   */
  lemma CommitIffClean(s: State, m: nat)
    requires Enabled(s, Commit) && Exact(s, m)
    ensures (exists q :: HoldsPrefix(Apply(s, Commit), q)) <==> Clean(s)
  {
    if q :| HoldsPrefix(Apply(s, Commit), q) {
      PrefixWasClean(s, m, q);
    }
    if Clean(s) {
      CleanCommit(s, m);
      assert HoldsPrefix(Apply(s, Commit), Reach(s, m));
    }
  }
}
