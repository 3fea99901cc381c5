/**
 * What the flag files say of the requests that came before
 * (backend/app/aurum/control.py:41-53, 103-172): at every point of every run
 * each flag holds what the last flag step left there.
 */
module ControlHistory {
  import opened Prelude
  import opened ControlFlags

  /** The content of a file, if it is there. */
  function ContentOf(files: map<string, string>, name: string): Option<string> {
    if name in files then Some(files[name]) else None
  }

  /** The action whose flag step this is: a rename over the flag, or its removal. */
  function FlagStep(s: State, step: Step): Option<Action>
    requires Enabled(s, step)
  {
    if step.Advance? && (s.procs[step.pid].pc.Replacing? || s.procs[step.pid].pc.Unlinking?)
    then Some(s.procs[step.pid].request.action) else None
  }

  /** The payload the last stop wrote, if there was one. */
  function LastStop(s: State, steps: seq<Step>, was: Option<string>): Option<string>
    requires ValidRun(s, steps)
    decreases steps
  {
    if steps == [] then was
    else
      LastStop(Apply(s, steps[0]), steps[1..],
               if FlagStep(s, steps[0]) == Some(Stop) then Some(s.procs[steps[0].pid].request.body) else was)
  }

  /** The payload the last pause wrote, unless a resume came after it. */
  function LastPause(s: State, steps: seq<Step>, was: Option<string>): Option<string>
    requires ValidRun(s, steps)
    decreases steps
  {
    if steps == [] then was
    else
      var done := FlagStep(s, steps[0]);
      LastPause(Apply(s, steps[0]), steps[1..],
                if done == Some(Pause) then Some(s.procs[steps[0].pid].request.body)
                else if done == Some(Resume) then None else was)
  }

  lemma StepWrites(s: State, step: Step)
    requires Inv(s) && Enabled(s, step)
    ensures ContentOf(Apply(s, step).files, "stop.flag") ==
      if FlagStep(s, step) == Some(Stop) then Some(s.procs[step.pid].request.body)
      else ContentOf(s.files, "stop.flag")
    ensures ContentOf(Apply(s, step).files, "pause.flag") ==
      if FlagStep(s, step) == Some(Pause) then Some(s.procs[step.pid].request.body)
      else if FlagStep(s, step) == Some(Resume) then None
      else ContentOf(s.files, "pause.flag")
  {
    if step.Advance? {
      assert ProcOk(s, step.pid);
      TmpIsNoFlag(s.procs[step.pid].request);
      assert "pause.flag"[0] != "stop.flag"[0];
    }
  }

  lemma {:induction false} RunWrites(s: State, steps: seq<Step>)
    requires Inv(s) && ValidRun(s, steps)
    ensures ContentOf(Exec(s, steps).files, "stop.flag") == LastStop(s, steps, ContentOf(s.files, "stop.flag"))
    ensures ContentOf(Exec(s, steps).files, "pause.flag") == LastPause(s, steps, ContentOf(s.files, "pause.flag"))
    decreases steps
  {
    if steps != [] {
      StepWrites(s, steps[0]);
      StepKeepsInv(s, steps[0]);
      RunWrites(Apply(s, steps[0]), steps[1..]);
    }
  }

  /** In every run each flag holds the payload of the last request that wrote it, and nothing after a resume. */
  lemma FlagIsLastWritten(steps: seq<Step>)
    requires ValidRun(START, steps)
    ensures ContentOf(Exec(START, steps).files, "stop.flag") == LastStop(START, steps, None)
    ensures ContentOf(Exec(START, steps).files, "pause.flag") == LastPause(START, steps, None)
  {
    RunWrites(START, steps);
  }

  /**
   * What a view says is what the history up to each of its looks says: stop
   * requested if a stop was written by the fourth, paused if by the third a
   * pause was written that no resume has undone, and the payload of the pause
   * that stood at the second, if one stood at the first.
   */
  lemma ViewTellsHistory(first: seq<Step>, second: seq<Step>, third: seq<Step>, fourth: seq<Step>)
    requires ValidRun(START, first) && ValidRun(START, second) && ValidRun(START, third) && ValidRun(START, fourth)
    ensures var v := ReadControlState(Exec(START, first), Exec(START, second), Exec(START, third), Exec(START, fourth));
      && (v.stopRequested <==> LastStop(START, fourth, None).Some?)
      && (v.paused <==> LastPause(START, third, None).Some?)
      && v.pauseMeta ==
        (if LastPause(START, first, None).None? then None
         else match LastPause(START, second, None)
              case None => Some(Unreadable)
              case Some(content) => Some(Payload(content)))
  {
    RunWrites(START, first);
    RunWrites(START, second);
    RunWrites(START, third);
    RunWrites(START, fourth);
  }

  /**
   * What may happen next: a request of a new id begins, and a live one goes on,
   * raises, fails in the database or dies.
   */
  lemma AnythingMayHappen(s: State, pid: nat, r: Request, count: nat)
    ensures (pid !in s.procs && (forall q :: q in s.admitted ==> q.id != r.id) &&
             forall p :: p in s.procs ==> TmpName(s.procs[p].request) != TmpName(r)) ==>
      Enabled(s, Begin(pid, r))
    ensures pid in s.procs && count > 0 ==> Enabled(s, Advance(pid, count))
    ensures pid in s.procs ==> Enabled(s, Raise(pid)) && Enabled(s, Die(pid))
    ensures pid in s.procs && s.procs[pid].pc in {RecordingAudit, RecordingControl, Committing} ==>
      Enabled(s, FailFlush(pid))
  {
  }

  // ---- stops, once and for all -----------------------------------------------

  ghost predicate StopFlagged(s: State) {
    exists e :: e in s.flagged && e.action == Stop
  }

  lemma StepStops(s: State, step: Step)
    requires Inv(s) && Enabled(s, step)
    ensures StopFlagged(Apply(s, step)) <==> StopFlagged(s) || FlagStep(s, step) == Some(Stop)
  {
    var s' := Apply(s, step);
    if step.Advance? {
      assert ProcOk(s, step.pid);
      if FlagStep(s, step) == Some(Stop) {
        assert Entry(Stop, s.procs[step.pid].request.id) in s'.flagged;
      }
    }
    if StopFlagged(s) {
      var e :| e in s.flagged && e.action == Stop;
      assert e in s'.flagged;
    }
    if StopFlagged(s') {
      var e :| e in s'.flagged && e.action == Stop;
      assert e in s.flagged || e.action == s.procs[step.pid].request.action;
    }
  }

  lemma {:induction false} RunStops(s: State, steps: seq<Step>)
    requires Inv(s) && ValidRun(s, steps) && (StopFlagged(s) <==> "stop.flag" in s.files)
    ensures StopFlagged(Exec(s, steps)) <==> "stop.flag" in Exec(s, steps).files
    decreases steps
  {
    if steps != [] {
      StepWrites(s, steps[0]);
      StepStops(s, steps[0]);
      StepKeepsInv(s, steps[0]);
      RunStops(Apply(s, steps[0]), steps[1..]);
    }
  }

  /** In every run the stop flag is there if and only if an admitted stop of the owner has done its flag step. */
  lemma StopIffRequested(steps: seq<Step>)
    requires ValidRun(START, steps)
    ensures "stop.flag" in Exec(START, steps).files <==> StopFlagged(Exec(START, steps))
    ensures StopFlagged(Exec(START, steps)) ==>
      exists r :: r in Exec(START, steps).admitted && r.isOwner && r.action == Stop
  {
    RunStops(START, steps);
    RunKeepsInv(START, steps);
    var t := Exec(START, steps);
    if StopFlagged(t) {
      var e :| e in t.flagged && e.action == Stop;
      assert Admitted(t, e);
    }
  }
}
