/**
 * What every step of the journal's writer and of the ETL worker keeps
 * (backend/app/workers/journal_etl.py:167-242), however the two interleave.
 */
module JournalInvariant {
  import opened Prelude
  import opened Lexicographic
  import opened JournalLine
  import opened JournalTable
  import opened JournalSession
  import opened JournalRun

  function Offset(files: seq<File>, i: nat): nat
    requires i <= |files|
  {
    |Log(files[..i])|
  }

  /** A line of a file that can be turned into a row, whatever its number. */
  predicate Parseable(line: Line) {
    ParseLine(line, "", 0).Some?
  }

  ghost predicate BearsRow(lines: seq<Line>) {
    exists i :: 0 <= i < |lines| && Parseable(lines[i])
  }

  lemma RowsOfFile(name: string, lines: seq<Line>)
    ensures RowsOf(Tag(name, lines)) != [] <==> BearsRow(lines)
  {
    var entries := Tag(name, lines);
    if i :| 0 <= i < |lines| && Parseable(lines[i]) {
      RowsOfMember(entries, i);
    }
    if RowsOf(entries) != [] {
      var k := RowsOfSource(entries, 0);
      assert Parseable(lines[k]);
    }
  }

  /**
   * Every line in files before the checkpointed one is among the first m, and
   * the checkpointed file has a row.
   */
  ghost predicate CheckpointCovered(s: State, m: nat) {
    s.db.checkpoint.Some? ==>
      var name := s.db.checkpoint.value.file;
      && name in FileNames(s.files)
      && Offset(s.files, FirstIndex(FileNames(s.files), name)) <= m
      && BearsRow(s.files[FirstIndex(FileNames(s.files), name)].lines)
  }

  ghost predicate ListingOk(s: State, names: seq<string>, next: nat, listed: nat, m: nat) {
    && |names| <= |s.files|
    && next <= |names|
    && names == FileNames(s.files)[..|names|]
    && listed <= |Log(s.files)|
    && (next < |names| ==> Offset(s.files, next) <= m && listed <= Offset(s.files, |names|))
    && (next == |names| ==> listed <= m)
    && (s.db.checkpoint.Some? ==>
          && s.db.checkpoint.value.file in FileNames(s.files)
          && FirstIndex(FileNames(s.files), s.db.checkpoint.value.file) <= next)
  }

  /** A line that was yielded under a number higher than its own. */
  ghost predicate Shifted(got: seq<Line>, lines: seq<Line>, straight: nat, i: nat)
    requires i < |got|
  {
    exists j :: straight <= j < i && j < |lines| && got[i] == lines[j]
  }

  /**
   * The iteration has yielded the first lines whole and under their numbers;
   * after the first piece come pieces, which bear no row, and shifted lines.
   */
  ghost predicate CursorOk(c: Cursor, lines: seq<Line>) {
    && c.straight <= |c.got| && c.straight <= c.pos <= |lines|
    && (forall i :: 0 <= i < c.straight ==> c.got[i] == lines[i])
    && (c.straight == |c.got| ==> c.pos == c.straight && c.seen == 0)
    && (c.straight < |c.got| ==> c.pos < |c.got|)
    && (forall i {:trigger Shifted(c.got, lines, c.straight, i)} :: c.straight <= i < |c.got| && Parseable(c.got[i]) ==>
          Shifted(c.got, lines, c.straight, i))
  }

  /** The iteration has met, or is about to meet, a line in pieces. */
  predicate Parted(c: Cursor) {
    c.glued || c.straight < |c.got|
  }

  /**
   * A line can only be met in pieces where the journal ended at the time, so
   * everything loaded or listed before lies before it.
   */
  ghost predicate ReadingOk(s: State, w: Worker, m: nat)
    requires w.Reading?
  {
    && w.file == w.next < |w.names| <= |s.files|
    && CursorOk(w.cursor, s.files[w.next].lines)
    && (Parted(w.cursor) ==>
          && m <= Offset(s.files, w.next) + w.cursor.straight
          && w.listed <= Offset(s.files, w.next) + w.cursor.straight)
    && (w.next + 1 < |w.names| ==> !Parted(w.cursor))
    && (w.atEnd ==> AllRead(s, w))
  }

  /** What the iteration has yielded whole covers what the listing had seen of the file. */
  ghost predicate AllRead(s: State, w: Worker)
    requires w.Reading? && w.next < |s.files|
  {
    if w.next + 1 < |w.names| then w.cursor.straight == |s.files[w.next].lines|
    else w.listed <= Offset(s.files, w.next) + w.cursor.straight
  }

  /** Only the last file is still being written. */
  ghost predicate FilesOk(files: seq<File>) {
    && Ascending(FileNames(files))
    && (forall i :: 0 <= i < |files| - 1 ==> Finished(files[i]))
    && (forall i :: 0 <= i < |files| && !files[i].ended ==> files[i].torn == 0 && files[i].lines != [])
  }

  /** The table knows the event id of every row of the log. */
  ghost predicate Known(t: Table, log: seq<Entry>) {
    forall k :: 0 <= k < |log| && RowOf(log[k]).Some? ==> RowOf(log[k]).value.eventId in t
  }

  /** No event of the first m lines of the journal is missing, and the next pass will find the others. */
  ghost predicate Inv(s: State, m: nat) {
    && FilesOk(s.files)
    && s.covered <= m <= |Log(s.files)|
    && Known(s.db.events, Log(s.files)[..m])
    && CheckpointCovered(s, m)
    && (!s.worker.Idle? ==> ListingOk(s, s.worker.names, s.worker.next, s.worker.listed, m))
    && (s.worker.Reading? ==> ReadingOk(s, s.worker, m))
  }

  /** The table is exactly that of the first m lines of the journal. */
  ghost predicate Loaded(t: Table, files: seq<File>, m: nat) {
    m <= |Log(files)| && t == Load(Log(files)[..m])
  }

  ghost predicate Exact(s: State, m: nat) {
    Inv(s, m) && Loaded(s.db.events, s.files, m)
  }

  // ---- the writer's steps ----------------------------------------------------

  lemma FirstIndexExtends(names: seq<string>, more: seq<string>, name: string)
    requires name in names
    ensures FirstIndex(names + more, name) == FirstIndex(names, name)
  {
    var i, j := FirstIndex(names, name), FirstIndex(names + more, name);
    assert (names + more)[i] == name;
    assert j <= i;
    assert (names + more)[j] == names[j];
  }

  /** What the writer may do to the file list. */
  ghost predicate Grown(files: seq<File>, files': seq<File>) {
    && |files| <= |files'|
    && (forall i :: 0 <= i < |files| ==> files'[i].name == files[i].name && files[i].lines <= files'[i].lines)
    && (forall i :: 0 <= i < |files| - 1 ==> files'[i] == files[i])
    && (|files'| > |files| > 0 ==> files'[|files| - 1] == files[|files| - 1])
  }

  lemma AppendedAscends(names: seq<string>, name: string)
    requires Ascending(names) && IsJournalName(name)
    requires names != [] ==> LexLess(names[|names| - 1], name)
    ensures Ascending(names + [name])
  {
    forall i | 0 <= i < |names| ensures LexLess(names[i], name) {
      if i < |names| - 1 {
        LexLessTransitive(names[i], names[|names| - 1], name);
      }
    }
  }

  lemma WriterGrows(s: State, step: Step)
    requires Enabled(s, step) && WriterStep(step)
    ensures Grown(s.files, Apply(s, step).files)
    ensures Ascending(FileNames(s.files)) ==> Ascending(FileNames(Apply(s, step).files))
  {
    var names, names' := FileNames(s.files), FileNames(Apply(s, step).files);
    if step.NewFile? {
      assert names' == names + [step.name];
      if Ascending(names) {
        AppendedAscends(names, step.name);
      }
    } else {
      assert names' == names;
    }
  }

  lemma GrownEarlier(files: seq<File>, files': seq<File>, i: nat)
    requires Grown(files, files') && i < |files|
    ensures Offset(files', i) == Offset(files, i)
  {
    assert files'[..i] == files[..i];
  }

  lemma GrownLast(files: seq<File>, files': seq<File>)
    requires Grown(files, files')
    ensures Offset(files, |files|) <= Offset(files', |files|)
  {
    var n := |files|;
    if n > 0 {
      LogParts(files, n - 1);
      LogParts(files', n - 1);
      assert files'[..n - 1] == files[..n - 1];
    }
  }

  lemma GrownNames(files: seq<File>, files': seq<File>)
    requires Grown(files, files')
    ensures FileNames(files) <= FileNames(files')
  {
  }

  lemma NamesExtend(files: seq<File>, files': seq<File>, name: string)
    requires FileNames(files) <= FileNames(files') && name in FileNames(files)
    ensures name in FileNames(files')
    ensures FirstIndex(FileNames(files'), name) == FirstIndex(FileNames(files), name)
  {
    var a, b := FileNames(files), FileNames(files');
    assert b == a + b[|a|..];
    FirstIndexExtends(a, b[|a|..], name);
  }

  lemma WriterKeepsCheckpoint(s: State, s': State, m: nat)
    requires Grown(s.files, s'.files) && s'.db == s.db && CheckpointCovered(s, m)
    ensures CheckpointCovered(s', m)
  {
    if s.db.checkpoint.Some? {
      var name := s.db.checkpoint.value.file;
      GrownNames(s.files, s'.files);
      NamesExtend(s.files, s'.files, name);
      var i := FirstIndex(FileNames(s.files), name);
      GrownEarlier(s.files, s'.files, i);
      BearsMore(s.files[i].lines, s'.files[i].lines);
    }
  }

  lemma BearsMore(a: seq<Line>, b: seq<Line>)
    requires a <= b && BearsRow(a)
    ensures BearsRow(b)
  {
    var i :| 0 <= i < |a| && Parseable(a[i]);
    assert b[i] == a[i];
  }

  lemma WriterKeepsListing(s: State, s': State, names: seq<string>, next: nat, listed: nat, m: nat)
    requires Grown(s.files, s'.files) && s'.db == s.db && |Log(s.files)| <= |Log(s'.files)|
    requires ListingOk(s, names, next, listed, m)
    ensures ListingOk(s', names, next, listed, m)
  {
    GrownNames(s.files, s'.files);
    assert FileNames(s'.files)[..|names|] == FileNames(s.files)[..|names|];
    if s.db.checkpoint.Some? {
      NamesExtend(s.files, s'.files, s.db.checkpoint.value.file);
    }
    if next < |names| {
      GrownEarlier(s.files, s'.files, next);
      if |names| < |s.files| {
        GrownEarlier(s.files, s'.files, |names|);
      } else {
        GrownLast(s.files, s'.files);
      }
    }
  }

  lemma CursorKept(c: Cursor, lines: seq<Line>, lines': seq<Line>)
    requires CursorOk(c, lines) && lines <= lines'
    ensures CursorOk(c, lines')
  {
    forall i | c.straight <= i < |c.got| && Parseable(c.got[i]) ensures Shifted(c.got, lines', c.straight, i) {
      assert Shifted(c.got, lines, c.straight, i);
      var j :| c.straight <= j < i && j < |lines| && c.got[i] == lines[j];
      assert lines'[j] == lines[j];
    }
  }

  lemma WriterKeepsReading(s: State, s': State, m: nat)
    requires Grown(s.files, s'.files) && s.worker.Reading? && s'.worker == s.worker
    requires ReadingOk(s, s.worker, m)
    ensures ReadingOk(s', s'.worker, m)
  {
    GrownEarlier(s.files, s'.files, s.worker.next);
    CursorKept(s.worker.cursor, s.files[s.worker.next].lines, s'.files[s.worker.next].lines);
  }

  lemma WriterKeepsFiles(s: State, step: Step)
    requires Enabled(s, step) && WriterStep(step) && FilesOk(s.files)
    ensures FilesOk(Apply(s, step).files)
  {
    WriterGrows(s, step);
  }

  lemma WriterKeepsWorker(s: State, s': State, m: nat)
    requires Grown(s.files, s'.files) && |Log(s.files)| <= |Log(s'.files)|
    requires s'.db == s.db && s'.worker == s.worker && Inv(s, m)
    ensures CheckpointCovered(s', m)
    ensures !s.worker.Idle? ==> ListingOk(s', s.worker.names, s.worker.next, s.worker.listed, m)
    ensures s.worker.Reading? ==> ReadingOk(s', s.worker, m)
  {
    WriterKeepsCheckpoint(s, s', m);
    if !s.worker.Idle? {
      WriterKeepsListing(s, s', s.worker.names, s.worker.next, s.worker.listed, m);
    }
    if s.worker.Reading? {
      WriterKeepsReading(s, s', m);
    }
  }

  lemma WriterKeepsPrefix(s: State, step: Step, m: nat)
    requires Enabled(s, step) && WriterStep(step) && m <= |Log(s.files)|
    ensures m <= |Log(Apply(s, step).files)| && Log(Apply(s, step).files)[..m] == Log(s.files)[..m]
  {
    LogChange(s, step);
  }

  lemma WriterKeepsInv(s: State, step: Step, m: nat)
    requires Enabled(s, step) && WriterStep(step) && Inv(s, m)
    ensures Inv(Apply(s, step), m)
  {
    LogChange(s, step);
    WriterKeepsPrefix(s, step, m);
    WriterGrows(s, step);
    WriterKeepsFiles(s, step);
    WriterKeepsWorker(s, Apply(s, step), m);
  }

  // ---- the worker's steps ----------------------------------------------------

  lemma ListKeepsInv(s: State, step: Step, m: nat)
    requires Enabled(s, step) && step.List? && Inv(s, m)
    ensures Inv(Apply(s, step), m)
    ensures Apply(s, step).worker.names == FileNames(s.files)
    ensures Apply(s, step).worker.listed == |Log(s.files)|
  {
    var names := FileNames(s.files);
    ListingInOrder(step.dir, names);
    assert names[..|names|] == names;
    assert s.files[..|s.files|] == s.files;
    if s.db.checkpoint.Some? {
      var name := s.db.checkpoint.value.file;
      FirstIndexIs(names, StartIndex(s.db.checkpoint, names));
    }
  }

  lemma Opens(s: State)
    requires Enabled(s, Open) && Ascending(FileNames(s.files))
    requires |s.worker.names| <= |s.files| && s.worker.names == FileNames(s.files)[..|s.worker.names|]
    ensures var w := s.worker;
      Apply(s, Open) == s.(worker := Reading(w.names, w.next, w.listed, w.next, Cursor([], 0, 0, false, 0), false))
  {
    FirstIndexIs(FileNames(s.files), s.worker.next);
    assert s.worker.names[s.worker.next] == FileNames(s.files)[s.worker.next];
  }

  lemma OpenKeepsInv(s: State, m: nat)
    requires Enabled(s, Open) && Inv(s, m)
    ensures Inv(Apply(s, Open), m)
  {
    Opens(s);
  }

  lemma NextKeepsCursor(c: Cursor, f: File)
    requires CursorOk(c, f.lines) && Next(c, f).Some?
    ensures CursorOk(Next(c, f).value, f.lines)
  {
    var c' := Next(c, f).value;
    forall i | c'.straight <= i < |c'.got| && Parseable(c'.got[i])
      ensures Shifted(c'.got, f.lines, c'.straight, i)
    {
      if i < |c.got| {
        assert Shifted(c.got, f.lines, c.straight, i);
        var j :| c.straight <= j < i && j < |f.lines| && c.got[i] == f.lines[j];
        assert c'.got[i] == f.lines[j];
      } else {
        assert c'.got[i] == f.lines[c.pos];
      }
    }
  }

  /** A line met in pieces is the last of its file. */
  lemma NextParts(c: Cursor, f: File)
    requires CursorOk(c, f.lines) && Next(c, f).Some? && !Parted(c)
    ensures var c' := Next(c, f).value; Parted(c') ==> !Finished(f) && c'.straight == |f.lines|
  {
  }

  /** The journal ends with its last file. */
  lemma LastOffset(files: seq<File>, i: nat)
    requires i < |files|
    ensures Offset(files, i) + |files[i].lines| <= |Log(files)|
    ensures i + 1 == |files| ==> Offset(files, i) + |files[i].lines| == |Log(files)|
  {
    LogParts(files, i);
    assert files[..|files|] == files;
  }

  lemma ReadLineKeepsReading(s: State, m: nat)
    requires Enabled(s, ReadLine) && FilesOk(s.files) && m <= |Log(s.files)|
    requires ListingOk(s, s.worker.names, s.worker.next, s.worker.listed, m) && ReadingOk(s, s.worker, m)
    ensures ReadingOk(s, Apply(s, ReadLine).worker, m)
  {
    var w, f := s.worker, s.files[s.worker.file];
    NextKeepsCursor(w.cursor, f);
    if !Parted(w.cursor) {
      NextParts(w.cursor, f);
      LastOffset(s.files, w.next);
    }
  }

  lemma ReadLineKeepsInv(s: State, m: nat)
    requires Enabled(s, ReadLine) && Inv(s, m)
    ensures Inv(Apply(s, ReadLine), m)
  {
    ReadLineKeepsReading(s, m);
  }

  lemma EndReadsAll(c: Cursor, f: File)
    requires CursorOk(c, f.lines) && Next(c, f).None? && !Parted(c)
    ensures c.straight == |f.lines|
  {
  }

  lemma EndKeepsReading(s: State, m: nat)
    requires Enabled(s, EndOfFile)
    requires ListingOk(s, s.worker.names, s.worker.next, s.worker.listed, m) && ReadingOk(s, s.worker, m)
    ensures ReadingOk(s, Apply(s, EndOfFile).worker, m)
  {
    var w := s.worker;
    if !Parted(w.cursor) {
      EndReadsAll(w.cursor, s.files[w.next]);
      OffsetNext(s.files, w.next);
    }
  }

  lemma EndKeepsInv(s: State, m: nat)
    requires Enabled(s, EndOfFile) && Inv(s, m)
    ensures Inv(Apply(s, EndOfFile), m)
  {
    EndKeepsReading(s, m);
  }

  // ---- commits ---------------------------------------------------------------

  lemma OffsetNext(files: seq<File>, i: nat)
    requires i < |files|
    ensures Offset(files, i + 1) == Offset(files, i) + |files[i].lines| <= |Log(files)|
  {
    LogParts(files, i);
  }

  lemma LogAt(files: seq<File>, i: nat, j: nat)
    requires i < |files| && j < |files[i].lines|
    ensures Offset(files, i) + j < |Log(files)|
    ensures Log(files)[Offset(files, i) + j] == Entry(files[i].name, j + 1, files[i].lines[j])
  {
    LogParts(files, i);
    var upTo := Log(files[..i]) + Tag(files[i].name, files[i].lines);
    assert upTo <= Log(files);
    assert Log(files)[Offset(files, i) + j] == upTo[Offset(files, i) + j];
  }

  /** How much of the journal is loaded after the commit of the file being read. */
  function Reach(s: State, m: nat): nat
    requires s.worker.Reading? && s.worker.file <= |s.files|
  {
    Max(m, Offset(s.files, s.worker.file) + s.worker.cursor.straight)
  }

  lemma InsertKeepsKnown(t: Table, rows: seq<Row>, log: seq<Entry>)
    requires Known(t, log)
    ensures Known(InsertAll(t, rows), log)
  {
    InsertAllKeeps(t, rows);
  }

  lemma KnownAfter(files: seq<File>, i: nat, c: Cursor, t: Table, m: nat)
    requires i < |files| && CursorOk(c, files[i].lines)
    requires Offset(files, i) <= m <= |Log(files)| && Known(t, Log(files)[..m])
    ensures var m' := Max(m, Offset(files, i) + c.straight);
      m' <= |Log(files)| && Known(InsertAll(t, RowsOf(Tag(files[i].name, c.got))), Log(files)[..m'])
  {
    var off, entries := Offset(files, i), Tag(files[i].name, c.got);
    var t', m' := InsertAll(t, RowsOf(entries)), Max(m, Offset(files, i) + c.straight);
    LastOffset(files, i);
    InsertKeepsKnown(t, RowsOf(entries), Log(files)[..m]);
    InsertAllKeeps(t, RowsOf(entries));
    forall k | 0 <= k < m' && RowOf(Log(files)[k]).Some? ensures RowOf(Log(files)[k]).value.eventId in t' {
      if k < m {
        assert Log(files)[k] == Log(files)[..m][k];
      } else {
        LogAt(files, i, k - off);
        RowsOfMember(entries, k - off);
      }
    }
  }

  lemma GotBears(c: Cursor, lines: seq<Line>)
    requires CursorOk(c, lines) && BearsRow(c.got)
    ensures BearsRow(lines)
  {
    var i :| 0 <= i < |c.got| && Parseable(c.got[i]);
    if i < c.straight {
      assert Parseable(lines[i]);
    } else {
      assert Shifted(c.got, lines, c.straight, i);
      var j :| c.straight <= j < i && j < |lines| && c.got[i] == lines[j];
      assert Parseable(lines[j]);
    }
  }

  lemma CommitKeepsCheckpoint(s: State, m: nat)
    requires Enabled(s, Commit) && Inv(s, m)
    ensures CheckpointCovered(Apply(s, Commit), Reach(s, m))
    ensures var cp := Apply(s, Commit).db.checkpoint;
      cp.Some? ==> cp.value.file in FileNames(s.files) && FirstIndex(FileNames(s.files), cp.value.file) <= s.worker.next
  {
    var w := s.worker;
    var f := s.files[w.next];
    RowsOfFile(f.name, w.cursor.got);
    if BearsRow(w.cursor.got) {
      GotBears(w.cursor, f.lines);
      FirstIndexIs(FileNames(s.files), w.next);
    }
  }

  lemma CommitKeepsListing(s: State, m: nat)
    requires Enabled(s, Commit) && Inv(s, m)
    ensures var t := Apply(s, Commit);
      ListingOk(t, t.worker.names, t.worker.next, t.worker.listed, Reach(s, m))
  {
    CommitKeepsCheckpoint(s, m);
    OffsetNext(s.files, s.worker.next);
  }

  lemma CommitKeepsKnown(s: State, m: nat)
    requires Enabled(s, Commit) && CursorOk(s.worker.cursor, s.files[s.worker.file].lines)
    requires Offset(s.files, s.worker.file) <= m <= |Log(s.files)| && Known(s.db.events, Log(s.files)[..m])
    ensures Reach(s, m) <= |Log(s.files)|
    ensures Known(Apply(s, Commit).db.events, Log(s.files)[..Reach(s, m)])
  {
    KnownAfter(s.files, s.worker.file, s.worker.cursor, s.db.events, m);
  }

  lemma CommitKeepsInv(s: State, m: nat)
    requires Enabled(s, Commit) && Inv(s, m)
    ensures Inv(Apply(s, Commit), Reach(s, m))
  {
    CommitKeepsKnown(s, m);
    CommitKeepsCheckpoint(s, m);
    CommitKeepsListing(s, m);
  }

  // ---- every step ------------------------------------------------------------

  function NextPrefix(s: State, step: Step, m: nat): nat
    requires Enabled(s, step)
  {
    if step.Commit? then Reach(s, m) else m
  }

  lemma PauseKeepsInv(s: State, step: Step, m: nat)
    requires Enabled(s, step) && Inv(s, m) && (step.Fail? || step.Finish? || step.Restart?)
    ensures Inv(Apply(s, step), m)
  {
  }

  /** Whatever the worker reads while the writer goes on, no event is lost. */
  lemma StepKeepsInv(s: State, step: Step, m: nat)
    requires Enabled(s, step) && Inv(s, m)
    ensures Inv(Apply(s, step), NextPrefix(s, step, m))
  {
    if WriterStep(step) {
      WriterKeepsInv(s, step, m);
    } else {
      match step {
        case List(_) => ListKeepsInv(s, step, m);
        case Open => OpenKeepsInv(s, m);
        case ReadLine => ReadLineKeepsInv(s, m);
        case EndOfFile => EndKeepsInv(s, m);
        case Commit => CommitKeepsInv(s, m);
        case _ => PauseKeepsInv(s, step, m);
      }
    }
  }

  /** Between commits, the table stays that of the same prefix. */
  lemma StepKeepsExact(s: State, step: Step, m: nat)
    requires Enabled(s, step) && Exact(s, m) && !step.Commit?
    ensures Exact(Apply(s, step), m)
  {
    StepKeepsInv(s, step, m);
    if WriterStep(step) {
      WriterKeepsPrefix(s, step, m);
    }
  }
}
