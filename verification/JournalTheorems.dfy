/**
 * What every run of the journal ETL guarantees
 * (backend/app/workers/journal_etl.py:3-28, 167-242).
 */
module JournalTheorems {
  import opened Prelude
  import opened Lexicographic
  import opened JournalLine
  import opened JournalTable
  import opened JournalSession
  import opened JournalRun
  import opened JournalInvariant
  import opened JournalSplit

  // ---- prefix consistency ----------------------------------------------------

  lemma {:induction false} RunKeepsInv(s: State, steps: seq<Step>, m: nat) returns (m': nat)
    requires ValidRun(s, steps) && Inv(s, m)
    ensures m <= m' && Inv(Exec(s, steps), m')
    decreases steps
  {
    m' := m;
    if steps != [] {
      StepKeepsInv(s, steps[0], m);
      m' := RunKeepsInv(Apply(s, steps[0]), steps[1..], NextPrefix(s, steps[0], m));
    }
  }

  lemma InitExact()
    ensures Exact(INIT, 0)
  {
    assert Log(INIT.files)[..0] == [];
  }

  /** No commit of the run stores a new row under a shifted line number. */
  ghost predicate CleanRun(s: State, steps: seq<Step>)
    requires ValidRun(s, steps)
    decreases steps
  {
    steps == [] || ((steps[0].Commit? ==> Clean(s)) && CleanRun(Apply(s, steps[0]), steps[1..]))
  }

  /** At every point of the run the table is that of some prefix of the journal. */
  ghost predicate HoldsThroughout(s: State, steps: seq<Step>)
    requires ValidRun(s, steps)
    decreases steps
  {
    && (exists m :: HoldsPrefix(s, m))
    && (steps == [] || HoldsThroughout(Apply(s, steps[0]), steps[1..]))
  }

  lemma StepStaysExact(s: State, step: Step, m: nat)
    requires Enabled(s, step) && Exact(s, m) && (step.Commit? ==> Clean(s))
    ensures Exact(Apply(s, step), NextPrefix(s, step, m))
  {
    if step.Commit? {
      CleanCommit(s, m);
    } else {
      StepKeepsExact(s, step, m);
    }
  }

  lemma {:induction false} RunStaysExact(s: State, steps: seq<Step>, m: nat) returns (m': nat)
    requires ValidRun(s, steps) && Exact(s, m) && CleanRun(s, steps)
    ensures m <= m' && Exact(Exec(s, steps), m')
    decreases steps
  {
    m' := m;
    if steps != [] {
      StepStaysExact(s, steps[0], m);
      m' := RunStaysExact(Apply(s, steps[0]), steps[1..], NextPrefix(s, steps[0], m));
    }
  }

  lemma {:induction false} ThroughoutIffClean(s: State, steps: seq<Step>, m: nat)
    requires ValidRun(s, steps) && Exact(s, m)
    ensures HoldsThroughout(s, steps) <==> CleanRun(s, steps)
    decreases steps
  {
    assert HoldsPrefix(s, m);
    if steps != [] {
      if steps[0].Commit? {
        CommitIffClean(s, m);
      }
      if steps[0].Commit? ==> Clean(s) {
        StepStaysExact(s, steps[0], m);
        ThroughoutIffClean(Apply(s, steps[0]), steps[1..], NextPrefix(s, steps[0], m));
      }
    }
  }

  /**
   * In every run, the table is at every point that of a prefix of the journal,
   * which includes all the last finished pass had listed, if and only if no
   * commit of the run stores a new row read past a line met in pieces.
   */
  lemma PrefixConsistency(steps: seq<Step>)
    requires ValidRun(INIT, steps)
    ensures HoldsThroughout(INIT, steps) <==> CleanRun(INIT, steps)
    ensures CleanRun(INIT, steps) ==> exists m :: HoldsPrefix(Exec(INIT, steps), m)
  {
    InitExact();
    ThroughoutIffClean(INIT, steps, 0);
    if CleanRun(INIT, steps) {
      var m := RunStaysExact(INIT, steps, 0);
      assert HoldsPrefix(Exec(INIT, steps), m);
    }
  }

  // ---- a line met in pieces --------------------------------------------------

  /** The worker meets line b in two pieces, then reads line c, which is counted third although it is second. */
  function SplitRead(name: string, b: Line, c: Line): seq<Step> {
    [NewFile(name)] + ([MoreText] + ([List([name])] + ([Open] + WhileWriting(b, c))))
  }

  /** Both lines are completed in the course of the iteration. */
  function WhileWriting(b: Line, c: Line): seq<Step> {
    [ReadLine] + ([CompleteLine(b), EndLine] +
    ([ReadLine] + ([CompleteLine(c), EndLine] + ([ReadLine] + [EndOfFile]))))
  }

  /** Where the worker stands after that. */
  function SplitState(name: string, b: Line, c: Line): State {
    State([File(name, [b, c], true, 0)], Db(map[], None),
          Reading([name], 0, 0, 0, Cursor([Malformed, Malformed, c], 2, 0, false, 0), true), 0)
  }

  lemma SplitListing(name: string)
    requires IsJournalName(name)
    ensures JournalEntriesOf([name]) == [name] && ListJournalFiles([name]) == [name]
  {
    assert [name][..0] == [];
    assert JournalEntriesOf([name]) == [] + [name];
    ListingInOrder([name], [name]);
  }

  lemma ListsOne(f: File)
    requires IsJournalName(f.name) && f.lines == []
    ensures var s := INIT.(files := [f]);
      && Enabled(s, List([f.name]))
      && Apply(s, List([f.name])) == s.(worker := Walking([f.name], 0, 0))
  {
    SplitListing(f.name);
    assert Log([f]) == [];
    assert FileNames([f]) == [f.name];
  }

  lemma OpensOne(f: File)
    ensures var s := INIT.(files := [f], worker := Walking([f.name], 0, 0));
      && Enabled(s, Open)
      && Apply(s, Open) == Midway(f, Cursor([], 0, 0, false, 0))
  {
    assert FileNames([f])[0] == f.name;
    assert FirstIndex(FileNames([f]), f.name) == 0;
  }

  /** Listing and opening a file of which a first piece is written. */
  lemma SplitOpens(name: string, rest: seq<Step>, t: State)
    requires IsJournalName(name)
    requires Leads(Midway(File(name, [], true, 1), Cursor([], 0, 0, false, 0)), rest, t)
    ensures Leads(INIT.(files := [File(name, [], true, 1)]), [List([name])] + ([Open] + rest), t)
  {
    var f := File(name, [], true, 1);
    OpensOne(f);
    LeadsFirst(INIT.(files := [f], worker := Walking([name], 0, 0)), Open, rest, t);
    ListsOne(f);
    LeadsFirst(INIT.(files := [f]), List([name]), [Open] + rest, t);
  }

  lemma SplitBegins(name: string, rest: seq<Step>, t: State)
    requires IsJournalName(name) && Leads(INIT.(files := [File(name, [], true, 1)]), rest, t)
    ensures Leads(INIT, [NewFile(name)] + ([MoreText] + rest), t)
  {
    var f := File(name, [], true, 0);
    assert INIT.files + [f] == [f] && [f][0 := f.(torn := 1)] == [f.(torn := 1)];
    LeadsFirst(INIT.(files := [f]), MoreText, rest, t);
    LeadsFirst(INIT, NewFile(name), [MoreText] + rest, t);
  }

  lemma SplitReadLeads(name: string, b: Line, c: Line)
    requires IsJournalName(name)
    ensures Leads(INIT, SplitRead(name, b, c), SplitState(name, b, c))
  {
    var t := SplitState(name, b, c);
    SplitLate(name, b, c);
    SplitOpens(name, WhileWriting(b, c), t);
    SplitBegins(name, [List([name])] + ([Open] + WhileWriting(b, c)), t);
  }

  /** Reading a file that stands as given, after the lines already yielded. */
  function Midway(f: File, c: Cursor): State {
    State([f], Db(map[], None), Reading([f.name], 0, 0, 0, c, false), 0)
  }

  /** One line yielded. */
  lemma Yields(f: File, c: Cursor, c': Cursor, rest: seq<Step>, t: State)
    requires Next(c, f) == Some(c') && Leads(Midway(f, c'), rest, t)
    ensures Leads(Midway(f, c), [ReadLine] + rest, t)
  {
    LeadsFirst(Midway(f, c), ReadLine, rest, t);
  }

  /** One line written, its newline after its text. */
  lemma Writes(f: File, line: Line, c: Cursor, rest: seq<Step>, t: State)
    requires f.ended && Leads(Midway(File(f.name, f.lines + [line], true, 0), c), rest, t)
    ensures Leads(Midway(f, c), [CompleteLine(line), EndLine] + rest, t)
  {
    var half := File(f.name, f.lines + [line], false, 0);
    assert [f][0 := half] == [half] && [half][0 := half.(ended := true)] == [half.(ended := true)];
    LeadsFirst(Midway(half, c), EndLine, rest, t);
    LeadsFirst(Midway(f, c), CompleteLine(line), [EndLine] + rest, t);
    assert [CompleteLine(line)] + ([EndLine] + rest) == [CompleteLine(line), EndLine] + rest;
  }

  lemma Ends(f: File, c: Cursor)
    requires Next(c, f).None?
    ensures var s := Midway(f, c); Leads(s, [EndOfFile], s.(worker := s.worker.(atEnd := true)))
  {
    var s := Midway(f, c);
    var t := s.(worker := s.worker.(atEnd := true));
    assert Leads(t, [], t);
    LeadsFirst(s, EndOfFile, [], t);
    assert [EndOfFile] + [] == [EndOfFile];
  }

  /** From the opening of the file on. */
  lemma SplitLate(name: string, b: Line, c: Line)
    ensures var s := Midway(File(name, [], true, 1), Cursor([], 0, 0, false, 0));
      Leads(s, WhileWriting(b, c), SplitState(name, b, c))
  {
    var t := SplitState(name, b, c);
    var f1, f2, f3 := File(name, [], true, 1), File(name, [b], true, 0), File(name, [b, c], true, 0);
    var c1, c2 := Cursor([Malformed], 0, 1, false, 0), Cursor([Malformed, Malformed], 1, 0, false, 0);
    var c3 := Cursor([Malformed, Malformed, c], 2, 0, false, 0);
    assert f1.lines + [b] == f2.lines && f2.lines + [c] == f3.lines;
    var none: seq<Line> := [];
    assert none + [Malformed] == c1.got && c1.got + [Malformed] == c2.got && c2.got + [c] == c3.got;
    Ends(f3, c3);
    Yields(f3, c2, c3, [EndOfFile], t);
    Writes(f2, c, c2, [ReadLine] + [EndOfFile], t);
    var steps := [CompleteLine(c), EndLine] + ([ReadLine] + [EndOfFile]);
    Yields(f2, c1, c2, steps, t);
    Writes(f1, b, c1, [ReadLine] + steps, t);
    Yields(f1, Cursor(none, 0, 0, false, 0), c1, [CompleteLine(b), EndLine] + ([ReadLine] + steps), t);
  }

  lemma {:induction false} NoCommitIsClean(s: State, steps: seq<Step>)
    requires ValidRun(s, steps) && forall i :: 0 <= i < |steps| ==> !steps[i].Commit?
    ensures CleanRun(s, steps)
    decreases steps
  {
    if steps != [] {
      NoCommitIsClean(Apply(s, steps[0]), steps[1..]);
    }
  }

  /** The row of the third line yielded is new to the empty table. */
  lemma SplitNotClean(name: string, b: Line, c: Line)
    requires Parseable(c)
    ensures !Clean(SplitState(name, b, c))
  {
    var got := [Malformed, Malformed, c];
    var entries := Tag(name, got)[0..];
    assert entries[2] == Entry(name, 3, c);
    RowsOfMember(entries, 2);
    assert Tag(name, got)[..0] == [];
  }

  /**
   * A run, allowed by the writer's discipline, whose commit leaves the table
   * of no prefix of the journal: a line is completed while the worker stands
   * inside it, and the next one is read.
   */
  lemma SplitReadBreaks(name: string, b: Line, c: Line)
    requires IsJournalName(name) && Parseable(c)
    ensures Leads(INIT, SplitRead(name, b, c), SplitState(name, b, c))
    ensures Enabled(SplitState(name, b, c), Commit)
    ensures forall m :: !HoldsPrefix(Apply(SplitState(name, b, c), Commit), m)
  {
    var s := SplitState(name, b, c);
    SplitReadLeads(name, b, c);
    NoCommitIsClean(INIT, SplitRead(name, b, c));
    InitExact();
    var m := RunStaysExact(INIT, SplitRead(name, b, c), 0);
    CommitIffClean(s, m);
    SplitNotClean(name, b, c);
  }

  /**
   * The newline of a line that was read without it comes as a line of its own:
   * line b is read whole, its newline is written only then, and line c, the
   * second of the file, is counted third.
   */
  lemma LateNewlineShifts(name: string, b: Line, c: Line)
    ensures var f := File(name, [b], false, 0);
      var got := Cursor([b, Blank, c], 2, 0, false, 1);
      Leads(Midway(f, Cursor([b], 1, 0, true, 1)), [EndLine] + ([ReadLine] + ([CompleteLine(c), EndLine] + [ReadLine])),
            Midway(File(name, [b, c], true, 0), got))
    ensures Next(Cursor([], 0, 0, false, 0), File(name, [b], false, 0)) == Some(Cursor([b], 1, 0, true, 1))
  {
    var f1, f2, f3 := File(name, [b], false, 0), File(name, [b], true, 0), File(name, [b, c], true, 0);
    var c1, c2 := Cursor([b], 1, 0, true, 1), Cursor([b, Blank], 1, 0, false, 1);
    var c3 := Cursor([b, Blank, c], 2, 0, false, 1);
    var t := Midway(f3, c3);
    var none: seq<Line> := [];
    assert none + [b] == [b] && c1.got + [Blank] == c2.got && c2.got + [c] == c3.got && f2.lines + [c] == f3.lines;
    assert Leads(t, [], t);
    Yields(f3, c2, c3, [], t);
    assert [ReadLine] + [] == [ReadLine];
    Writes(f2, c, c2, [ReadLine], t);
    var steps := [CompleteLine(c), EndLine] + [ReadLine];
    Yields(f2, c1, c2, steps, t);
    assert [f1][0 := f2] == [f2];
    LeadsFirst(Midway(f1, c1), EndLine, [ReadLine] + steps, t);
  }

  // ---- passes the writer leaves alone ----------------------------------------

  /** The iteration over a file that nobody writes, after k lines. */
  function CursorAt(f: File, k: nat): Cursor
    requires k <= |Visible(f)|
  {
    if k <= |f.lines| then Cursor(f.lines[..k], k, 0, k == |f.lines| && !f.ended, k)
    else Cursor(f.lines + [Malformed], |f.lines|, f.torn, false, |f.lines|)
  }

  lemma NextAt(f: File, k: nat)
    requires k <= |Visible(f)| && (!f.ended ==> f.torn == 0 && f.lines != [])
    ensures Next(CursorAt(f, k), f) == if k < |Visible(f)| then Some(CursorAt(f, k + 1)) else None
  {
    if k < |f.lines| {
      assert f.lines[..k] + [f.lines[k]] == f.lines[..k + 1];
    } else {
      assert f.lines[..|f.lines|] == f.lines;
    }
  }

  ghost predicate QuietReading(s: State) {
    s.worker.Reading? ==>
      && s.worker.file < |s.files|
      && |s.worker.cursor.got| <= |Visible(s.files[s.worker.file])|
      && s.worker.cursor == CursorAt(s.files[s.worker.file], |s.worker.cursor.got|)
  }

  lemma QuietNext(s: State)
    requires Enabled(s, ReadLine) && QuietReading(s) && FilesOk(s.files)
    ensures QuietReading(Apply(s, ReadLine))
  {
    NextAt(s.files[s.worker.file], |s.worker.cursor.got|);
  }

  lemma QuietCommit(s: State)
    requires Enabled(s, Commit) && QuietReading(s)
    ensures Clean(s)
  {
    var f, c := s.files[s.worker.file], s.worker.cursor;
    var shifted := Tag(f.name, c.got)[c.straight..];
    assert shifted != [] ==> shifted == [Entry(f.name, |c.got|, Malformed)] && shifted[..0] == [];
    assert RowsOf(shifted) == [];
  }

  lemma QuietStep(s: State, step: Step, m: nat)
    requires Inv(s, m) && Enabled(s, step) && !WriterStep(step) && QuietReading(s)
    ensures QuietReading(Apply(s, step)) && (step.Commit? ==> Clean(s))
  {
    if step.Commit? {
      QuietCommit(s);
    } else if step.ReadLine? {
      QuietNext(s);
    } else if step.Open? {
      Opens(s);
    }
  }

  predicate Quiet(steps: seq<Step>) {
    forall i :: 0 <= i < |steps| ==> !WriterStep(steps[i]) && !steps[i].List?
  }

  /** While nothing is written, no line is met in pieces. */
  lemma {:induction false} QuietIsClean(s: State, steps: seq<Step>, m: nat)
    requires Inv(s, m) && QuietReading(s) && ValidRun(s, steps) && Quiet(steps)
    ensures CleanRun(s, steps)
    decreases steps
  {
    if steps != [] {
      QuietStep(s, steps[0], m);
      StepKeepsInv(s, steps[0], m);
      QuietIsClean(Apply(s, steps[0]), steps[1..], NextPrefix(s, steps[0], m));
    }
  }

  lemma {:induction false} QuietKeepsListing(s: State, steps: seq<Step>)
    requires ValidRun(s, steps) && Quiet(steps)
    requires s.worker.Idle? || s.worker.listed == |Log(s.files)|
    ensures var t := Exec(s, steps); t.worker.Idle? || t.worker.listed == |Log(t.files)|
    decreases steps
  {
    if steps != [] {
      LogChange(s, steps[0]);
      QuietKeepsListing(Apply(s, steps[0]), steps[1..]);
    }
  }

  lemma CaughtUp(s: State, m: nat)
    requires Inv(s, m) && Enabled(s, Finish) && s.worker.listed == |Log(s.files)|
    ensures m == |Log(s.files)| && Log(s.files)[..m] == Log(s.files)
  {
  }

  /** From the listing on: nothing is missing, and if the table was exact before, it is again. */
  lemma PassEnds(s: State, dir: seq<string>, m: nat, during: seq<Step>)
    requires Inv(s, m) && Enabled(s, List(dir)) && Quiet(during)
    requires ValidRun(Apply(s, List(dir)), during) && Enabled(Exec(Apply(s, List(dir)), during), Finish)
    ensures var t := Exec(Apply(s, List(dir)), during);
      && Known(t.db.events, Log(t.files))
      && (Exact(s, m) ==> t.db.events == Load(Log(t.files)))
  {
    var s1 := Apply(s, List(dir));
    StepKeepsInv(s, List(dir), m);
    QuietKeepsListing(s1, during);
    if Exact(s, m) {
      StepKeepsExact(s, List(dir), m);
      QuietIsClean(s1, during, m);
      var m1 := RunStaysExact(s1, during, m);
      CaughtUp(Exec(s1, during), m1);
    } else {
      var m1 := RunKeepsInv(s1, during, m);
      CaughtUp(Exec(s1, during), m1);
    }
  }

  lemma {:induction false} RunAppend(s: State, a: seq<Step>, b: seq<Step>)
    requires ValidRun(s, a + b)
    ensures ValidRun(s, a) && ValidRun(Exec(s, a), b)
    ensures Exec(s, a + b) == Exec(Exec(s, a), b)
    decreases a
  {
    if a == [] {
      assert a + b == b;
    } else {
      assert (a + b)[0] == a[0] && (a + b)[1..] == a[1..] + b;
      RunAppend(Apply(s, a[0]), a[1..], b);
    }
  }

  lemma ValidFirst(s: State, a: Step, rest: seq<Step>)
    requires ValidRun(s, [a] + rest)
    ensures Enabled(s, a) && ValidRun(Apply(s, a), rest) && Exec(s, [a] + rest) == Exec(Apply(s, a), rest)
  {
    assert ([a] + rest)[0] == a && ([a] + rest)[1..] == rest;
  }

  lemma ValidOne(s: State, a: Step)
    requires ValidRun(s, [a])
    ensures Enabled(s, a) && Exec(s, [a]) == Apply(s, a)
  {
    assert [a] == [a] + [];
    ValidFirst(s, a, []);
  }

  /** A run that ends with a pass during which the writer does not move. */
  ghost predicate EndsQuietly(before: seq<Step>, dir: seq<string>, during: seq<Step>) {
    ValidRun(INIT, before + ([List(dir)] + (during + [Finish]))) && Quiet(during)
  }

  lemma PassParts(before: seq<Step>, dir: seq<string>, during: seq<Step>)
    requires EndsQuietly(before, dir, during)
    ensures ValidRun(INIT, before) && Enabled(Exec(INIT, before), List(dir))
    ensures var s1 := Apply(Exec(INIT, before), List(dir));
      && ValidRun(s1, during) && Enabled(Exec(s1, during), Finish)
      && Exec(INIT, before + ([List(dir)] + (during + [Finish]))) == Apply(Exec(s1, during), Finish)
  {
    PassRunParts(before, dir, during);
  }

  lemma PassRunParts(before: seq<Step>, dir: seq<string>, during: seq<Step>)
    requires ValidRun(INIT, before + ([List(dir)] + (during + [Finish])))
    ensures ValidRun(INIT, before) && Enabled(Exec(INIT, before), List(dir))
    ensures var s1 := Apply(Exec(INIT, before), List(dir));
      && ValidRun(s1, during) && Enabled(Exec(s1, during), Finish)
      && Exec(INIT, before + ([List(dir)] + (during + [Finish]))) == Apply(Exec(s1, during), Finish)
  {
    RunAppend(INIT, before, [List(dir)] + (during + [Finish]));
    var s0 := Exec(INIT, before);
    ValidFirst(s0, List(dir), during + [Finish]);
    RunAppend(Apply(s0, List(dir)), during, [Finish]);
    ValidOne(Exec(Apply(s0, List(dir)), during), Finish);
  }

  /**
   * Whatever was met in pieces, failed or restarted before: once a pass
   * finishes without the writer having moved since its listing, no event of
   * the journal is missing from the table.
   */
  lemma NothingIsLost(before: seq<Step>, dir: seq<string>, during: seq<Step>)
    requires EndsQuietly(before, dir, during)
    ensures var s := Exec(INIT, before + ([List(dir)] + (during + [Finish]))); Known(s.db.events, Log(s.files))
  {
    PassParts(before, dir, during);
    InitExact();
    var m := RunKeepsInv(INIT, before, 0);
    PassEnds(Exec(INIT, before), dir, m, during);
  }

  /** And if every commit before was clean, the table is that of the whole journal. */
  lemma PassCatchesUp(before: seq<Step>, dir: seq<string>, during: seq<Step>)
    requires EndsQuietly(before, dir, during)
    requires ValidRun(INIT, before) && CleanRun(INIT, before)
    ensures var s := Exec(INIT, before + ([List(dir)] + (during + [Finish]))); s.db.events == Load(Log(s.files))
  {
    PassParts(before, dir, during);
    InitExact();
    var m := RunStaysExact(INIT, before, 0);
    PassEnds(Exec(INIT, before), dir, m, during);
  }

  lemma {:induction false} NoListKeepsListed(s: State, steps: seq<Step>, n: nat)
    requires ValidRun(s, steps) && (s.worker.Idle? || s.worker.listed == n)
    requires forall i :: 0 <= i < |steps| ==> !steps[i].List?
    ensures var t := Exec(s, steps); t.worker.Idle? || t.worker.listed == n
    decreases steps
  {
    if steps != [] {
      NoListKeepsListed(Apply(s, steps[0]), steps[1..], n);
    }
  }

  /**
   * A pass that finishes while the writer goes on covers at least what was
   * there when it listed the directory; with clean commits, exactly a prefix
   * that includes it.
   */
  lemma FinishCoversListed(before: seq<Step>, dir: seq<string>, during: seq<Step>) returns (m: nat)
    requires ValidRun(INIT, before + ([List(dir)] + (during + [Finish])))
    requires forall i :: 0 <= i < |during| ==> !during[i].List?
    ensures ValidRun(INIT, before)
    ensures var all := before + ([List(dir)] + (during + [Finish]));
      var t := Exec(INIT, all);
      && t.covered == |Log(Exec(INIT, before).files)| <= m <= |Log(t.files)|
      && Known(t.db.events, Log(t.files)[..m])
      && (CleanRun(INIT, all) ==> HoldsPrefix(t, m))
  {
    var all := before + ([List(dir)] + (during + [Finish]));
    PassRunParts(before, dir, during);
    InitExact();
    NoListKeepsListed(Apply(Exec(INIT, before), List(dir)), during, |Log(Exec(INIT, before).files)|);
    if CleanRun(INIT, all) {
      m := RunStaysExact(INIT, all, 0);
    } else {
      m := RunKeepsInv(INIT, all, 0);
    }
  }

  // ---- what never changes ----------------------------------------------------

  /** No run ever changes or drops a row of the table. */
  lemma {:induction false} RowsAreForever(s: State, steps: seq<Step>, id: EventId)
    requires ValidRun(s, steps) && id in s.db.events
    ensures id in Exec(s, steps).db.events && Exec(s, steps).db.events[id] == s.db.events[id]
    decreases steps
  {
    if steps != [] {
      if steps[0].Commit? {
        InsertAllKeeps(s.db.events, RowsOf(Tag(s.files[s.worker.file].name, s.worker.cursor.got)));
      }
      RowsAreForever(Apply(s, steps[0]), steps[1..], id);
    }
  }

  ghost predicate NotBefore(cp: Option<Checkpoint>, cp': Option<Checkpoint>) {
    cp.Some? ==> cp'.Some? && (cp'.value.file == cp.value.file || LexLess(cp.value.file, cp'.value.file))
  }

  lemma AtOrBefore(names: seq<string>, name: string, next: nat)
    requires Ascending(names) && name in names && FirstIndex(names, name) <= next < |names|
    ensures name == names[next] || LexLess(name, names[next])
  {
    var i := FirstIndex(names, name);
    assert i < next ==> LexLess(names[i], names[next]);
  }

  lemma StepAdvancesCheckpoint(s: State, step: Step, m: nat)
    requires Enabled(s, step) && Inv(s, m)
    ensures NotBefore(s.db.checkpoint, Apply(s, step).db.checkpoint)
  {
    if step.Commit? && s.db.checkpoint.Some? {
      AtOrBefore(FileNames(s.files), s.db.checkpoint.value.file, s.worker.next);
    }
  }

  lemma NotBeforeOn(a: Option<Checkpoint>, b: Option<Checkpoint>, c: Option<Checkpoint>)
    requires NotBefore(a, b) && NotBefore(b, c)
    ensures NotBefore(a, c)
  {
    if a.Some? && LexLess(a.value.file, b.value.file) && LexLess(b.value.file, c.value.file) {
      LexLessTransitive(a.value.file, b.value.file, c.value.file);
    }
  }

  lemma {:induction false} RunAdvancesCheckpoint(s: State, steps: seq<Step>, m: nat)
    requires ValidRun(s, steps) && Inv(s, m)
    ensures NotBefore(s.db.checkpoint, Exec(s, steps).db.checkpoint)
    decreases steps
  {
    if steps != [] {
      var s1 := Apply(s, steps[0]);
      StepAdvancesCheckpoint(s, steps[0], m);
      StepKeepsInv(s, steps[0], m);
      RunAdvancesCheckpoint(s1, steps[1..], NextPrefix(s, steps[0], m));
      NotBeforeOn(s.db.checkpoint, s1.db.checkpoint, Exec(s, steps).db.checkpoint);
    }
  }

  /** In every run, the checkpointed file name never moves backwards. */
  lemma CheckpointNeverMovesBack(before: seq<Step>, after: seq<Step>)
    requires ValidRun(INIT, before + after)
    ensures ValidRun(INIT, before)
    ensures NotBefore(Exec(INIT, before).db.checkpoint, Exec(INIT, before + after).db.checkpoint)
  {
    RunAppend(INIT, before, after);
    InitExact();
    var m := RunKeepsInv(INIT, before, 0);
    RunAdvancesCheckpoint(Exec(INIT, before), after, m);
  }

  // ---- resuming equals rescanning --------------------------------------------

  function Snapshots(files: seq<File>): (r: seq<Snapshot>)
    ensures |r| == |files|
    ensures forall i :: 0 <= i < |files| ==> r[i] == Snapshot(files[i].name, Visible(files[i]))
  {
    seq(|files|, i requires 0 <= i < |files| => Snapshot(files[i].name, Visible(files[i])))
  }

  lemma {:induction false} PassEffectAppend(db: Db, a: seq<Snapshot>, b: seq<Snapshot>)
    ensures PassEffect(db, a + b) == PassEffect(PassEffect(db, a), b)
  {
    if b == [] {
      assert a + b == a;
    } else {
      PassEffectAppend(db, a, b[..|b| - 1]);
      assert (a + b)[..|a + b| - 1] == a + b[..|b| - 1];
    }
  }

  lemma PassEffectFirst(db: Db, todo: seq<Snapshot>)
    requires todo != []
    ensures PassEffect(db, todo) == PassEffect(FileEffect(db, todo[0].name, todo[0].lines), todo[1..])
  {
    assert todo == [todo[0]] + todo[1..];
    PassEffectAppend(db, [todo[0]], todo[1..]);
    assert [todo[0]][..0] == [];
  }

  lemma VisibleLoads(files: seq<File>, i: nat, t: Table, m: nat)
    requires i < |files| && Offset(files, i) <= m && Loaded(t, files, m)
    ensures Loaded(InsertAll(t, RowsOf(Tag(files[i].name, Visible(files[i])))), files, Max(m, Offset(files, i + 1)))
  {
    var f := files[i];
    var whole := Cursor(f.lines, |f.lines|, 0, false, |f.lines|);
    TornAddsNothing(f.name, f);
    OffsetNext(files, i);
    assert Tag(f.name, f.lines)[..|f.lines|] == Tag(f.name, f.lines);
    StraightLoads(files, i, whole, m);
  }

  /** A walk from file i to the last, over a table that covers everything before file i. */
  lemma {:induction false} WalkLoads(files: seq<File>, i: nat, todo: seq<Snapshot>, db: Db, m: nat)
    requires i <= |files| && todo == Snapshots(files)[i..]
    requires Offset(files, i) <= m && Loaded(db.events, files, m)
    ensures Loaded(PassEffect(db, todo).events, files, |Log(files)|)
    decreases |todo|
  {
    if i == |files| {
      assert files[..i] == files;
    } else {
      var f := files[i];
      var db1 := FileEffect(db, f.name, Visible(f));
      VisibleLoads(files, i, db.events, m);
      OffsetNext(files, i);
      PassEffectFirst(db, todo);
      WalkLoads(files, i + 1, todo[1..], db1, Max(m, Offset(files, i + 1)));
    }
  }

  /** Files whose lines are all known leave the table as it is. */
  lemma VisibleKnown(files: seq<File>, i: nat, t: Table, m: nat)
    requires i < |files| && Offset(files, i + 1) <= m <= |Log(files)| && Known(t, Log(files)[..m])
    ensures InsertAll(t, RowsOf(Tag(files[i].name, Visible(files[i])))) == t
  {
    var f := files[i];
    var rows := RowsOf(Tag(f.name, f.lines));
    TornAddsNothing(f.name, f);
    OffsetNext(files, i);
    forall n | 0 <= n < |rows| ensures rows[n].eventId in t {
      var k := RowsOfSource(Tag(f.name, f.lines), n);
      LogAt(files, i, k);
      assert Log(files)[..m][Offset(files, i) + k] == Entry(f.name, k + 1, f.lines[k]);
    }
    InsertAllKnown(t, rows);
  }

  lemma {:induction false} WalkKnown(files: seq<File>, i: nat, db: Db, m: nat)
    requires i <= |files| && Offset(files, i) <= m <= |Log(files)| && Known(db.events, Log(files)[..m])
    ensures PassEffect(db, Snapshots(files)[..i]).events == db.events
    decreases i
  {
    if i > 0 {
      OffsetNext(files, i - 1);
      assert Snapshots(files)[..i][..i - 1] == Snapshots(files)[..i - 1];
      WalkKnown(files, i - 1, db, m);
      VisibleKnown(files, i - 1, db.events, m);
    }
  }

  lemma {:induction false} WalkEvents(db: Db, db': Db, todo: seq<Snapshot>)
    requires db.events == db'.events
    ensures PassEffect(db, todo).events == PassEffect(db', todo).events
  {
    if todo != [] {
      WalkEvents(db, db', todo[..|todo| - 1]);
    }
  }

  /** Where a row-bearing file comes first, the checkpoint a walk leaves forgets what came before. */
  lemma {:induction false} WalkCheckpoint(db: Db, db': Db, todo: seq<Snapshot>)
    requires todo != [] && RowsOf(Tag(todo[0].name, todo[0].lines)) != []
    ensures PassEffect(db, todo).checkpoint == PassEffect(db', todo).checkpoint
  {
    var front := todo[..|todo| - 1];
    if front != [] {
      WalkCheckpoint(db, db', front);
    }
  }

  /**
   * In every reachable state, starting at the checkpointed file leaves the
   * same table and checkpoint as starting at the first file; where every
   * commit was clean, the table of the whole journal.
   */
  lemma ResumeEqualsRescan(steps: seq<Step>)
    requires ValidRun(INIT, steps)
    ensures var s := Exec(INIT, steps);
      var all := Snapshots(s.files);
      && PassEffect(s.db, Todo(s.db, all)) == PassEffect(s.db, all)
      && (CleanRun(INIT, steps) ==> PassEffect(s.db, all).events == Load(Log(s.files)))
  {
    InitExact();
    var s := Exec(INIT, steps);
    var m := RunKeepsInv(INIT, steps, 0);
    ResumeFromInv(s, m);
    if CleanRun(INIT, steps) {
      var n := RunStaysExact(INIT, steps, 0);
      RescanLoads(s, n);
    }
  }

  lemma RescanLoads(s: State, m: nat)
    requires Exact(s, m)
    ensures PassEffect(s.db, Snapshots(s.files)).events == Load(Log(s.files))
  {
    assert s.files[..0] == [];
    WalkLoads(s.files, 0, Snapshots(s.files), s.db, m);
    assert Log(s.files)[..|Log(s.files)|] == Log(s.files);
  }

  lemma ResumeFromInv(s: State, m: nat)
    requires Inv(s, m)
    ensures PassEffect(s.db, Todo(s.db, Snapshots(s.files))) == PassEffect(s.db, Snapshots(s.files))
  {
    if s.files != [] && s.db.checkpoint.Some? {
      var i := ResumePoint(s, m);
      RescanFrom(s, i, m);
    }
  }

  lemma RescanFrom(s: State, i: nat, m: nat)
    requires i < |s.files| && Offset(s.files, i) <= m <= |Log(s.files)| && Known(s.db.events, Log(s.files)[..m])
    requires BearsRow(s.files[i].lines)
    ensures var all := Snapshots(s.files); PassEffect(s.db, all[i..]) == PassEffect(s.db, all)
  {
    var all := Snapshots(s.files);
    var db := PassEffect(s.db, all[..i]);
    assert all == all[..i] + all[i..];
    PassEffectAppend(s.db, all[..i], all[i..]);
    WalkKnown(s.files, i, s.db, m);
    WalkEvents(s.db, db, all[i..]);
    RowsOfFile(all[i].name, s.files[i].lines);
    TornAddsNothing(all[i].name, s.files[i]);
    WalkCheckpoint(s.db, db, all[i..]);
  }

  /** The checkpoint names a file that has a row, and everything before it is known. */
  lemma ResumePoint(s: State, m: nat) returns (i: nat)
    requires Inv(s, m) && s.db.checkpoint.Some?
    ensures i < |s.files| && Offset(s.files, i) <= m && BearsRow(s.files[i].lines)
    ensures i == StartIndex(s.db.checkpoint, Names(Snapshots(s.files)))
  {
    var name := s.db.checkpoint.value.file;
    i := FirstIndex(FileNames(s.files), name);
    assert Names(Snapshots(s.files)) == FileNames(s.files);
    assert FileNames(s.files)[i] == name;
  }

  // ---- the machine and the code agree ----------------------------------------

  /** Some run of the given steps leads from s to t. */
  ghost predicate Leads(s: State, steps: seq<Step>, t: State) {
    ValidRun(s, steps) && Exec(s, steps) == t
  }

  lemma LeadsFirst(s: State, a: Step, rest: seq<Step>, t: State)
    requires Enabled(s, a) && Leads(Apply(s, a), rest, t)
    ensures Leads(s, [a] + rest, t)
  {
    assert ([a] + rest)[0] == a && ([a] + rest)[1..] == rest;
  }

  lemma {:induction false} LeadsOn(s: State, a: seq<Step>, t: State, b: seq<Step>, u: State)
    requires Leads(s, a, t) && Leads(t, b, u)
    ensures Leads(s, a + b, u)
    decreases a
  {
    if a == [] {
      assert a + b == b;
    } else {
      LeadsOn(Apply(s, a[0]), a[1..], t, b, u);
      LeadsFirst(s, a[0], a[1..] + b, u);
      assert [a[0]] + (a[1..] + b) == a + b;
    }
  }

  function Reads(n: nat): seq<Step> {
    if n == 0 then [] else [ReadLine] + Reads(n - 1)
  }

  /** Opening a file of n lines, reading it to its end and committing it. */
  function FileSteps(n: nat): seq<Step> {
    [Open] + (Reads(n) + [EndOfFile, Commit])
  }

  /** Reading and committing the given files in turn, then finishing. */
  function QuietWalk(todo: seq<Snapshot>): seq<Step> {
    if todo == [] then [Finish] else FileSteps(|todo[0].lines|) + QuietWalk(todo[1..])
  }

  ghost predicate Walks(s: State) {
    && FilesOk(s.files)
    && s.worker.Walking? && s.worker.names == FileNames(s.files) && s.worker.next <= |s.files|
  }

  /** The file of a state that is reading it, and the state at another point of the iteration. */
  function At(s: State, k: nat): State
    requires s.worker.Reading? && s.worker.file < |s.files| && k <= |Visible(s.files[s.worker.file])|
  {
    s.(worker := s.worker.(cursor := CursorAt(s.files[s.worker.file], k)))
  }

  lemma {:induction false} ReadsOn(s: State, k: nat)
    requires s.worker.Reading? && !s.worker.atEnd && s.worker.file < |s.files| && FilesOk(s.files)
    requires k <= |Visible(s.files[s.worker.file])|
    ensures var n := |Visible(s.files[s.worker.file])|; Leads(At(s, k), Reads(n - k), At(s, n))
    decreases |Visible(s.files[s.worker.file])| - k
  {
    var n := |Visible(s.files[s.worker.file])|;
    if k < n {
      NextAt(s.files[s.worker.file], k);
      ReadsOn(s, k + 1);
      LeadsFirst(At(s, k), ReadLine, Reads(n - k - 1), At(s, n));
    }
  }

  lemma EndAndCommit(s: State) returns (t: State)
    requires s.worker.Reading? && !s.worker.atEnd && s.worker.file < |s.files| && FilesOk(s.files)
    ensures var f := s.files[s.worker.file];
      && Leads(At(s, |Visible(f)|), [EndOfFile, Commit], t)
      && t == s.(db := FileEffect(s.db, f.name, Visible(f)),
                 worker := Walking(s.worker.names, s.worker.next + 1, s.worker.listed))
  {
    var f := s.files[s.worker.file];
    var s1 := At(s, |Visible(f)|);
    NextAt(f, |Visible(f)|);
    var s2 := Apply(s1, EndOfFile);
    assert CursorAt(f, |Visible(f)|).got == Visible(f);
    t := Apply(s2, Commit);
    assert Leads(t, [], t);
    LeadsFirst(s2, Commit, [], t);
    LeadsFirst(s1, EndOfFile, [Commit] + [], t);
    assert [EndOfFile] + ([Commit] + []) == [EndOfFile, Commit];
  }

  /** One file read and committed without interruption. */
  lemma ReadCommit(s: State) returns (t: State)
    requires Walks(s) && s.worker.next < |s.files|
    ensures var f := s.files[s.worker.next];
      && Leads(s, FileSteps(|Visible(f)|), t)
      && t == s.(db := FileEffect(s.db, f.name, Visible(f)),
                 worker := Walking(s.worker.names, s.worker.next + 1, s.worker.listed))
  {
    var f := s.files[s.worker.next];
    var n := |Visible(f)|;
    assert s.worker.names == FileNames(s.files)[..|s.worker.names|];
    Opens(s);
    var s1 := Apply(s, Open);
    assert At(s1, 0) == s1;
    ReadsOn(s1, 0);
    t := EndAndCommit(s1);
    LeadsOn(s1, Reads(n), At(s1, n), [EndOfFile, Commit], t);
    LeadsFirst(s, Open, Reads(n) + [EndOfFile, Commit], t);
  }

  lemma QuietEnd(s: State) returns (t: State)
    requires Walks(s) && s.worker.next == |s.files|
    ensures Leads(s, QuietWalk([]), t) && t.db == s.db && t.worker.Idle? && t.files == s.files
  {
    t := Apply(s, Finish);
    LeadsFirst(s, Finish, [], t);
    assert [Finish] + [] == QuietWalk([]);
  }

  lemma {:induction false} QuietWalkIsPass(s: State, todo: seq<Snapshot>) returns (t: State)
    requires Walks(s) && todo == Snapshots(s.files)[s.worker.next..]
    ensures Leads(s, QuietWalk(todo), t)
    ensures t.db == PassEffect(s.db, todo) && t.worker.Idle? && t.files == s.files
    decreases |todo|
  {
    if todo == [] {
      t := QuietEnd(s);
    } else {
      var s1 := ReadCommit(s);
      t := QuietWalkIsPass(s1, todo[1..]);
      LeadsOn(s, FileSteps(|todo[0].lines|), s1, QuietWalk(todo[1..]), t);
      PassEffectFirst(s.db, todo);
    }
  }

  lemma ListedTodo(s: State, dir: seq<string>, m: nat)
    requires Inv(s, m) && Enabled(s, List(dir))
    ensures var t := Apply(s, List(dir));
      Walks(t) && Todo(s.db, Snapshots(s.files)) == Snapshots(s.files)[t.worker.next..]
  {
    ListKeepsInv(s, List(dir), m);
    assert Names(Snapshots(s.files)) == FileNames(s.files);
    assert s.files == [] ==> Snapshots(s.files)[0..] == [];
  }

  /**
   * From every reachable state, an undisturbed pass of the machine has the
   * outcome Session.RunOnce promises.
   */
  lemma QuietPassIsRunOnce(steps: seq<Step>, dir: seq<string>) returns (t: State)
    requires ValidRun(INIT, steps) && Enabled(Exec(INIT, steps), List(dir))
    ensures var s := Exec(INIT, steps);
      var todo := Todo(s.db, Snapshots(s.files));
      && Leads(s, [List(dir)] + QuietWalk(todo), t)
      && t.db == PassEffect(s.db, todo) && t.worker.Idle? && t.files == s.files
  {
    InitExact();
    var s := Exec(INIT, steps);
    var m := RunKeepsInv(INIT, steps, 0);
    var s1, todo := Apply(s, List(dir)), Todo(s.db, Snapshots(s.files));
    ListedTodo(s, dir, m);
    t := QuietWalkIsPass(s1, todo);
    LeadsFirst(s, List(dir), QuietWalk(todo), t);
  }

  // ---- lines without an id of their own are never lost -----------------------

  /** A position occurs once in the journal. */
  lemma SamePosition(files: seq<File>, j: nat, k: nat)
    requires Ascending(FileNames(files)) && j < |Log(files)| && k < |Log(files)|
    requires Log(files)[j].file == Log(files)[k].file && Log(files)[j].lineno == Log(files)[k].lineno
    ensures j == k
  {
    var x := LogOwner(files, j);
    LogNames(files, x);
    LogAt(files, x, j - Offset(files, x));
    LogAt(files, x, k - Offset(files, x));
  }

  /** The row of line k is in the table of the first m lines. */
  ghost predicate RowHeld(log: seq<Entry>, k: nat, t: Table)
    requires k < |log| && RowOf(log[k]).Some?
  {
    var row := RowOf(log[k]).value;
    row.eventId in t && t[row.eventId] == row
  }

  lemma SyntheticRowHeld(files: seq<File>, m: nat, k: nat)
    requires Ascending(FileNames(files)) && k < m <= |Log(files)|
    requires RowOf(Log(files)[k]).Some? && RowOf(Log(files)[k]).value.synthetic
    ensures RowHeld(Log(files), k, Load(Log(files)[..m]))
  {
    var log, id := Log(files), RowOf(Log(files)[k]).value.eventId;
    KnownByLoad(log[..m]);
    assert log[..m][k] == log[k];
    var j := LoadFirst(log[..m], id);
    if (log[j].file, log[j].lineno) == (log[k].file, log[k].lineno) {
      SamePosition(files, j, k);
    } else {
      var x := LogOwner(files, k);
      LogNames(files, x);
      SyntheticIdsNeverCollide(log[k].line, log[k].file, log[k].lineno, log[j].line, log[j].file, log[j].lineno);
    }
  }

  /**
   * After every run whose commits were clean, each loaded line without an
   * event id of its own has its own row, with its file and line number.
   */
  lemma SyntheticLinesAreNeverLost(steps: seq<Step>) returns (m: nat)
    requires ValidRun(INIT, steps) && CleanRun(INIT, steps)
    ensures var s := Exec(INIT, steps);
      && HoldsPrefix(s, m)
      && forall k :: 0 <= k < m && RowOf(Log(s.files)[k]).Some? && RowOf(Log(s.files)[k]).value.synthetic ==>
           RowHeld(Log(s.files), k, s.db.events)
  {
    InitExact();
    var s := Exec(INIT, steps);
    m := RunStaysExact(INIT, steps, 0);
    forall k | 0 <= k < m && RowOf(Log(s.files)[k]).Some? && RowOf(Log(s.files)[k]).value.synthetic
      ensures RowHeld(Log(s.files), k, s.db.events)
    {
      SyntheticRowHeld(s.files, m, k);
    }
  }
}
