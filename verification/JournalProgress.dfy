/**
 * Which steps the journal's writer and the ETL worker can always take
 * (backend/app/workers/journal_etl.py:167-284).
 */
module JournalProgress {
  import opened Lexicographic
  import opened JournalLine
  import opened JournalRun
  import opened JournalInvariant
  import opened JournalTheorems

  lemma CanWalk(s: State)
    requires s.worker.Walking? && |s.worker.names| <= |s.files|
    requires s.worker.names == FileNames(s.files)[..|s.worker.names|]
    ensures Enabled(s, Open) || Enabled(s, Finish)
  {
    if s.worker.next < |s.worker.names| {
      assert s.worker.names[s.worker.next] == FileNames(s.files)[s.worker.next];
    }
  }

  lemma CanRead(s: State)
    requires s.worker.Reading? && s.worker.file < |s.files|
    ensures Enabled(s, Fail)
    ensures !s.worker.atEnd ==> Enabled(s, ReadLine) || Enabled(s, EndOfFile)
    ensures s.worker.atEnd ==> Enabled(s, Commit)
  {
  }

  /** In every reachable state the worker can go on, fail while it reads, and be restarted. */
  lemma WorkerIsNeverStuck(steps: seq<Step>)
    requires ValidRun(INIT, steps)
    ensures var s := Exec(INIT, steps);
      && Enabled(s, Restart) && (s.worker.Reading? ==> Enabled(s, Fail))
      && (s.worker.Walking? ==> Enabled(s, Open) || Enabled(s, Finish))
      && (s.worker.Reading? && !s.worker.atEnd ==> Enabled(s, ReadLine) || Enabled(s, EndOfFile))
      && (s.worker.Reading? && s.worker.atEnd ==> Enabled(s, Commit))
  {
    InitExact();
    var m := RunKeepsInv(INIT, steps, 0);
    var s := Exec(INIT, steps);
    if s.worker.Walking? {
      CanWalk(s);
    } else if s.worker.Reading? {
      CanRead(s);
    }
  }

  /** In every reachable state an idle worker can list any directory that holds the journal and other files. */
  lemma DirectoryIsListed(steps: seq<Step>, dir: seq<string>)
    requires ValidRun(INIT, steps) && Exec(INIT, steps).worker.Idle?
    requires forall name :: IsJournalName(name) ==>
      multiset(dir)[name] == multiset(FileNames(Exec(INIT, steps).files))[name]
    ensures Enabled(Exec(INIT, steps), List(dir))
  {
    InitExact();
    var m := RunKeepsInv(INIT, steps, 0);
    JournalOnly(FileNames(Exec(INIT, steps).files), dir);
  }

  lemma JournalOnly(names: seq<string>, dir: seq<string>)
    requires Ascending(names)
    requires forall name :: IsJournalName(name) ==> multiset(dir)[name] == multiset(names)[name]
    ensures multiset(JournalEntriesOf(dir)) == multiset(names)
  {
    forall name ensures multiset(JournalEntriesOf(dir))[name] == multiset(names)[name] {
      JournalEntriesAre(dir, name);
      if name in multiset(names) {
        assert name in names;
      }
    }
  }

  /**
   * The writer can always go on: with more text or a whole line where the last
   * line has its newline, with the newline where it has not, and with a new
   * file under any later name where no line is open.
   */
  lemma WriterIsFree(s: State, line: Line, name: string)
    ensures s.files != [] && s.files[|s.files| - 1].ended ==> Enabled(s, MoreText) && Enabled(s, CompleteLine(line))
    ensures s.files != [] && !s.files[|s.files| - 1].ended ==> Enabled(s, EndLine)
    ensures IsJournalName(name) && s.files == [] ==> Enabled(s, NewFile(name))
    ensures (IsJournalName(name) && s.files != [] && LexLess(s.files[|s.files| - 1].name, name) &&
             s.files[|s.files| - 1].ended && s.files[|s.files| - 1].torn == 0) ==>
      Enabled(s, NewFile(name))
  {
  }
}
