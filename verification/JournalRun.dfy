/**
 * Runs of the journal writer and the ETL worker, interleaved freely
 * (backend/app/workers/journal_etl.py:167-284). The writer appends text and
 * starts new files; the worker lists the directory, reads a file line by line
 * while the writer goes on, commits it or fails, and may be restarted at any
 * point.
 */
module JournalRun {
  import opened Prelude
  import opened Lexicographic
  import opened Sorting
  import opened JournalLine
  import opened JournalTable
  import opened JournalSession

  /**
   * A journal file: the lines whose text is complete, whether the last of them
   * has its newline, and how much text of one more line is there already.
   */
  datatype File = File(name: string, lines: seq<Line>, ended: bool, torn: nat)

  /**
   * Where the iteration over an open file stands: the lines it has yielded, how
   * many lines of the file it is past, how much it has yielded of the next one,
   * and whether it has yielded a line that had no newline yet. "straight" is
   * how many lines came whole before the first piece of one.
   */
  datatype Cursor = Cursor(got: seq<Line>, pos: nat, seen: nat, glued: bool, straight: nat)

  /**
   * Between files the worker walks the listing. "listed" remembers how long the
   * journal was when the directory was listed, "file" which file is open.
   */
  datatype Worker =
    | Idle
    | Walking(names: seq<string>, next: nat, listed: nat)
    | Reading(names: seq<string>, next: nat, listed: nat, file: nat, cursor: Cursor, atEnd: bool)

  /** "covered" remembers the length of the journal at the listing of the last finished pass. */
  datatype State = State(files: seq<File>, db: Db, worker: Worker, covered: nat)

  datatype Step =
    | MoreText
    | CompleteLine(line: Line)
    | EndLine
    | NewFile(name: string)
    | List(dir: seq<string>)
    | Open
    | ReadLine
    | EndOfFile
    | Commit
    | Fail
    | Finish
    | Restart

  const INIT := State([], Db(map[], None), Idle, 0)

  /** What an iteration yields while nothing is written: a piece of an object has no closing brace. */
  function Visible(f: File): seq<Line> {
    f.lines + if f.torn > 0 then [Malformed] else []
  }

  /**
   * The next line of the iteration, None at the end of the file. Where it stood
   * inside a line, it yields the rest of that line as a line of its own, were it
   * only the newline.
   */
  function Next(c: Cursor, f: File): Option<Cursor> {
    if c.glued then
      if f.ended || c.pos < |f.lines| then Some(c.(got := c.got + [Blank], glued := false)) else None
    else if c.pos < |f.lines| then
      var glued := c.pos + 1 == |f.lines| && !f.ended;
      if c.seen > 0 then
        Some(c.(got := c.got + [Malformed], pos := c.pos + 1, seen := 0, glued := glued))
      else
        Some(c.(got := c.got + [f.lines[c.pos]], pos := c.pos + 1, glued := glued,
                straight := if c.straight == |c.got| then c.straight + 1 else c.straight))
    else if c.seen < f.torn then Some(c.(got := c.got + [Malformed], seen := f.torn))
    else None
  }

  function FileNames(files: seq<File>): (names: seq<string>)
    ensures |names| == |files|
    ensures forall i :: 0 <= i < |files| ==> names[i] == files[i].name
  {
    seq(|files|, i requires 0 <= i < |files| => files[i].name)
  }

  /** All complete lines of the journal: files in name order, lines in order. */
  function Log(files: seq<File>): seq<Entry> {
    if files == [] then []
    else Log(files[..|files| - 1]) + Tag(files[|files| - 1].name, files[|files| - 1].lines)
  }

  function JournalEntriesOf(dir: seq<string>): seq<string> {
    if dir == [] then []
    else
      var last := dir[|dir| - 1];
      JournalEntriesOf(dir[..|dir| - 1]) + if IsJournalName(last) then [last] else []
  }

  /** Directory entries come in no particular order; the worker keeps the journal files, sorted. */
  function ListJournalFiles(dir: seq<string>): seq<string> {
    Sort(LexLeq, JournalEntriesOf(dir))
  }

  /** The writer's discipline and the worker's program order. */
  predicate Enabled(s: State, step: Step) {
    match step
    case MoreText => s.files != [] && s.files[|s.files| - 1].ended
    case CompleteLine(_) => s.files != [] && s.files[|s.files| - 1].ended
    case EndLine => s.files != [] && !s.files[|s.files| - 1].ended
    case NewFile(name) =>
      && IsJournalName(name)
      && (s.files != [] ==> Finished(s.files[|s.files| - 1]) && LexLess(s.files[|s.files| - 1].name, name))
    case List(dir) =>
      && s.worker.Idle?
      && multiset(JournalEntriesOf(dir)) == multiset(FileNames(s.files))
    case Open =>
      && s.worker.Walking? && s.worker.next < |s.worker.names|
      && s.worker.names[s.worker.next] in FileNames(s.files)
    case ReadLine =>
      && s.worker.Reading? && !s.worker.atEnd && s.worker.file < |s.files|
      && Next(s.worker.cursor, s.files[s.worker.file]).Some?
    case EndOfFile =>
      && s.worker.Reading? && !s.worker.atEnd && s.worker.file < |s.files|
      && Next(s.worker.cursor, s.files[s.worker.file]).None?
    case Commit => s.worker.Reading? && s.worker.atEnd && s.worker.file < |s.files|
    case Fail => s.worker.Reading?
    case Finish => s.worker.Walking? && s.worker.next >= |s.worker.names|
    case Restart => true
  }

  /** Every line has its newline. */
  predicate Finished(f: File) {
    f.ended && f.torn == 0
  }

  function Write(s: State, f: File): State
    requires s.files != []
  {
    s.(files := s.files[|s.files| - 1 := f])
  }

  function Apply(s: State, step: Step): State
    requires Enabled(s, step)
  {
    match step
    case MoreText =>
      var f := s.files[|s.files| - 1];
      Write(s, f.(torn := f.torn + 1))
    case CompleteLine(line) =>
      var f := s.files[|s.files| - 1];
      Write(s, File(f.name, f.lines + [line], false, 0))
    case EndLine => Write(s, s.files[|s.files| - 1].(ended := true))
    case NewFile(name) => s.(files := s.files + [File(name, [], true, 0)])
    case List(dir) =>
      var names := ListJournalFiles(dir);
      s.(worker := Walking(names, StartIndex(s.db.checkpoint, names), |Log(s.files)|))
    case Open =>
      var w := s.worker;
      var file := FirstIndex(FileNames(s.files), w.names[w.next]);
      s.(worker := Reading(w.names, w.next, w.listed, file, Cursor([], 0, 0, false, 0), false))
    case ReadLine => s.(worker := s.worker.(cursor := Next(s.worker.cursor, s.files[s.worker.file]).value))
    case EndOfFile => s.(worker := s.worker.(atEnd := true))
    case Commit =>
      var w := s.worker;
      s.(db := FileEffect(s.db, s.files[w.file].name, w.cursor.got), worker := Walking(w.names, w.next + 1, w.listed))
    case Fail => s.(worker := Idle)
    case Finish => s.(worker := Idle, covered := s.worker.listed)
    case Restart => s.(worker := Idle)
  }

  predicate ValidRun(s: State, steps: seq<Step>)
    decreases steps
  {
    steps == [] || (Enabled(s, steps[0]) && ValidRun(Apply(s, steps[0]), steps[1..]))
  }

  function Exec(s: State, steps: seq<Step>): State
    requires ValidRun(s, steps)
    decreases steps
  {
    if steps == [] then s else Exec(Apply(s, steps[0]), steps[1..])
  }

  // ---- the journal as one append-only log ------------------------------------

  lemma {:induction false} LogParts(files: seq<File>, i: nat)
    requires i < |files|
    ensures Log(files[..i]) + Tag(files[i].name, files[i].lines) == Log(files[..i + 1])
    ensures Log(files[..i + 1]) <= Log(files)
  {
    assert files[..i + 1][..i] == files[..i];
    if i + 1 == |files| {
      assert files[..i + 1] == files;
    } else {
      var front := files[..|files| - 1];
      LogParts(front, i);
      assert front[..i] == files[..i] && front[..i + 1] == files[..i + 1];
    }
  }

  lemma TagPrefix(name: string, a: seq<Line>, b: seq<Line>)
    requires a <= b
    ensures Tag(name, a) <= Tag(name, b)
  {
  }

  lemma LogChange(s: State, step: Step)
    requires Enabled(s, step)
    ensures Log(s.files) <= Log(Apply(s, step).files)
    ensures !WriterStep(step) ==> Apply(s, step).files == s.files
  {
    var files, files' := s.files, Apply(s, step).files;
    if step.MoreText? || step.CompleteLine? || step.EndLine? {
      var k := |files| - 1;
      assert files'[..k] == files[..k];
      TagPrefix(files[k].name, files[k].lines, files'[k].lines);
    } else if step.NewFile? {
      assert files'[..|files|] == files;
    }
  }

  predicate WriterStep(step: Step) {
    step.MoreText? || step.CompleteLine? || step.EndLine? || step.NewFile?
  }

  lemma LastFileLog(files: seq<File>, f: File)
    requires files != []
    ensures Log(files[|files| - 1 := f]) == Log(files[..|files| - 1]) + Tag(f.name, f.lines)
  {
    assert files[|files| - 1 := f][..|files| - 1] == files[..|files| - 1];
  }

  lemma TagNext(name: string, lines: seq<Line>, line: Line)
    ensures Tag(name, lines + [line]) == Tag(name, lines) + [Entry(name, |lines| + 1, line)]
  {
  }

  /** What the writer's steps make of the journal: a line is there from when its text is complete. */
  lemma WriterWrites(s: State, step: Step)
    requires Enabled(s, step) && WriterStep(step)
    ensures Log(Apply(s, step).files) ==
      if step.CompleteLine? then
        Log(s.files) + [Entry(s.files[|s.files| - 1].name, |s.files[|s.files| - 1].lines| + 1, step.line)]
      else Log(s.files)
  {
    var files := s.files;
    if step.NewFile? {
      assert (files + [File(step.name, [], true, 0)])[..|files|] == files;
    } else {
      var f := files[|files| - 1];
      LastFileLog(files, Apply(s, step).files[|files| - 1]);
      TagNext(f.name, f.lines, if step.CompleteLine? then step.line else Blank);
    }
  }

  /** Only a commit stores anything; a failure or a restart leaves what was committed. */
  lemma OnlyCommitStores(s: State, step: Step)
    requires Enabled(s, step)
    ensures !step.Commit? ==> Apply(s, step).db == s.db
    ensures step.Fail? || step.Restart? || step.Finish? ==> Apply(s, step).worker.Idle?
  {
  }

  /** A piece at the end, even without its line, bears no row. */
  lemma TornAddsNothing(name: string, f: File)
    ensures RowsOf(Tag(name, Visible(f))) == RowsOf(Tag(name, f.lines))
  {
    if f.torn > 0 {
      var all := Tag(name, Visible(f));
      assert all[..|all| - 1] == Tag(name, f.lines);
    } else {
      assert Visible(f) == f.lines;
    }
  }

  /** Inserting any stretch of the log that starts inside the loaded prefix. */
  lemma Absorb(log: seq<Entry>, m: nat, off: nat, end: nat, rows: seq<Row>)
    requires off <= m <= |log| && off <= end <= |log|
    requires rows == RowsOf(log[off..end])
    ensures InsertAll(Load(log[..m]), rows) == Load(log[..Max(m, end)])
  {
    if end <= m {
      assert log[..off] + log[off..end] + log[end..m] == log[..m];
      ReplayOnly(log[..off], log[off..end], log[end..m]);
    } else {
      assert log[..off] + log[off..m] == log[..m];
      assert log[off..m] + log[m..end] == log[off..end];
      assert log[..m] + log[m..end] == log[..end];
      ReplayThenNew(log[..off], log[off..m], log[m..end]);
    }
  }

  // ---- listing ---------------------------------------------------------------

  ghost predicate Ascending(names: seq<string>) {
    && (forall i :: 0 <= i < |names| ==> IsJournalName(names[i]))
    && (forall i, j :: 0 <= i < j < |names| ==> LexLess(names[i], names[j]))
  }

  lemma LexPreorder()
    ensures TotalPreorder(LexLeq)
    ensures forall x, y :: Tied(LexLeq, x, y) ==> x == y
  {
    forall x, y ensures LexLeq(x, y) || LexLeq(y, x) { LexTotal(x, y); }
    forall x, y, z | LexLeq(x, y) && LexLeq(y, z) ensures LexLeq(x, z) { LexTransitive(x, y, z); }
    forall x, y | Tied(LexLeq, x, y) ensures x == y { LexAntisymmetric(x, y); }
  }

  /** Of all the names in the directory, those of journal files. */
  lemma {:induction false} JournalEntriesAre(dir: seq<string>, name: string)
    ensures multiset(JournalEntriesOf(dir))[name] == if IsJournalName(name) then multiset(dir)[name] else 0
  {
    if dir != [] {
      JournalEntriesAre(dir[..|dir| - 1], name);
      assert dir == dir[..|dir| - 1] + [dir[|dir| - 1]];
    }
  }

  /** The listing of any directory: its journal files, none else, in the order of their names. */
  lemma ListingMeaning(dir: seq<string>, name: string)
    ensures multiset(ListJournalFiles(dir))[name] == if IsJournalName(name) then multiset(dir)[name] else 0
    ensures var names := ListJournalFiles(dir);
      forall i, j :: 0 <= i < j < |names| ==> names[i] == names[j] || LexLess(names[i], names[j])
  {
    LexPreorder();
    JournalEntriesAre(dir, name);
    SortPermutes(LexLeq, JournalEntriesOf(dir));
    SortIsStable(LexLeq, JournalEntriesOf(dir));
  }

  /** Whatever order the directory yields, the listing is the files in name order. */
  lemma ListingInOrder(dir: seq<string>, names: seq<string>)
    requires Ascending(names)
    requires multiset(JournalEntriesOf(dir)) == multiset(names)
    ensures ListJournalFiles(dir) == names
  {
    var entries := JournalEntriesOf(dir);
    LexPreorder();
    AscendingSorted(names);
    SortIsStable(LexLeq, entries);
    SortPermutes(LexLeq, entries);
    assert TieFree(LexLeq, names);
    StrictUnique(LexLeq, names, Sort(LexLeq, entries));
  }

  lemma AscendingSorted(names: seq<string>)
    requires Ascending(names)
    ensures Sorted(LexLeq, names)
  {
    forall i, j | 0 <= i < j < |names| ensures LexLeq(names[i], names[j]) {
      assert LexLess(names[i], names[j]);
    }
  }

  lemma FirstIndexIs(names: seq<string>, i: nat)
    requires Ascending(names) && i < |names|
    ensures FirstIndex(names, names[i]) == i
  {
    var k := FirstIndex(names, names[i]);
    assert k < i ==> LexLess(names[k], names[i]);
  }
}
