/**
 * The pause and stop flags of the runner (backend/app/aurum/control.py:41-172):
 * requests that write a temporary file and rename it over the flag, or unlink
 * the flag, and then record what they did in a session that is committed even
 * when the request raises (backend/app/db/session.py:34-47). Requests interleave
 * step by step; any of them may raise, fail in the database or die.
 */
module ControlFlags {
  import opened Prelude

  const PAUSE_FLAG := "pause.flag"
  const STOP_FLAG := "stop.flag"

  datatype Action = Pause | Resume | Stop

  /** body is the encoded payload, suffix the random part of the temporary name. */
  datatype Request = Request(id: nat, isOwner: bool, action: Action, body: string, suffix: string)

  /** What audit_log and control_actions both say about a request. */
  datatype Entry = Entry(action: Action, requestId: nat)

  function FlagOf(action: Action): string {
    if action == Stop then STOP_FLAG else PAUSE_FLAG
  }

  function TmpName(r: Request): string {
    FlagOf(r.action) + ".tmp." + r.suffix
  }

  function EntryOf(r: Request): Entry {
    Entry(r.action, r.id)
  }

  /** The next thing a request will do. */
  datatype Pc = Opening | Writing(done: nat) | Replacing | Unlinking | RecordingAudit | RecordingControl | Committing

  /** The rows a request's session has flushed but not committed. */
  datatype Tx = Tx(audit: seq<Entry>, control: seq<Entry>)

  const NOTHING := Tx([], [])

  datatype Proc = Proc(request: Request, pc: Pc, tx: Tx)

  /**
   * Files, live requests and committed rows; and the history: which owner
   * requests were admitted, and whose flag step has happened.
   */
  datatype State = State(files: map<string, string>, procs: map<nat, Proc>, audit: seq<Entry>, control: seq<Entry>,
                         admitted: set<Request>, flagged: set<Entry>)

  datatype Step =
    | Begin(pid: nat, request: Request)
    | Advance(pid: nat, count: nat)
    | Raise(pid: nat)
    | FailFlush(pid: nat)
    | Die(pid: nat)

  const START := State(map[], map[], [], [], {}, {})

  predicate Enabled(s: State, step: Step) {
    match step
    case Begin(pid, request) =>
      && pid !in s.procs
      && (forall p :: p in s.procs ==> TmpName(s.procs[p].request) != TmpName(request))
      && (forall r :: r in s.admitted ==> r.id != request.id)
    case Advance(pid, count) => pid in s.procs && count > 0
    case Raise(pid) => pid in s.procs
    case FailFlush(pid) => pid in s.procs && IsRecording(s.procs[pid].pc)
    case Die(pid) => pid in s.procs
  }

  /** The flag step is done, the rows are not committed. */
  predicate IsRecording(pc: Pc) {
    pc.RecordingAudit? || pc.RecordingControl? || pc.Committing?
  }

  function Put(s: State, pid: nat, pc: Pc): State
    requires pid in s.procs
  {
    s.(procs := s.procs[pid := s.procs[pid].(pc := pc)])
  }

  function Flush(s: State, pid: nat, tx: Tx, pc: Pc): State
    requires pid in s.procs
  {
    s.(procs := s.procs[pid := s.procs[pid].(tx := tx, pc := pc)])
  }

  /** The request ends and its session is committed, as it is also after an exception. */
  function Commit(s: State, pid: nat): State
    requires pid in s.procs
  {
    var tx := s.procs[pid].tx;
    s.(audit := s.audit + tx.audit, control := s.control + tx.control, procs := s.procs - {pid})
  }

  /** One step of a request; a write may take any number of further bytes. */
  function AdvanceProc(s: State, pid: nat, count: nat): State
    requires pid in s.procs
  {
    var r, tx := s.procs[pid].request, s.procs[pid].tx;
    match s.procs[pid].pc
    case Opening => Put(s.(files := s.files[TmpName(r) := ""]), pid, Writing(0))
    case Writing(done) =>
      if done < |r.body| then
        var upTo := Min(done + count, |r.body|);
        Put(s.(files := s.files[TmpName(r) := r.body[..upTo]]), pid, Writing(upTo))
      else Put(s, pid, Replacing)
    case Replacing =>
      if TmpName(r) in s.files then
        Put(s.(files := (s.files - {TmpName(r)})[FlagOf(r.action) := s.files[TmpName(r)]],
               flagged := s.flagged + {EntryOf(r)}), pid, RecordingAudit)
      else Commit(s, pid)
    case Unlinking =>
      Put(s.(files := s.files - {PAUSE_FLAG}, flagged := s.flagged + {EntryOf(r)}), pid, RecordingAudit)
    case RecordingAudit => Flush(s, pid, tx.(audit := tx.audit + [EntryOf(r)]), RecordingControl)
    case RecordingControl => Flush(s, pid, tx.(control := tx.control + [EntryOf(r)]), Committing)
    case Committing => Commit(s, pid)
  }

  function Apply(s: State, step: Step): State
    requires Enabled(s, step)
  {
    match step
    case Begin(pid, r) =>
      if !r.isOwner then s
      else s.(procs := s.procs[pid := Proc(r, if r.action == Resume then Unlinking else Opening, NOTHING)],
              admitted := s.admitted + {r})
    case Advance(pid, count) => AdvanceProc(s, pid, count)
    case Raise(pid) => Commit(s, pid)
    case FailFlush(pid) => s.(procs := s.procs - {pid})
    case Die(pid) => s.(procs := s.procs - {pid})
  }

  predicate ValidRun(s: State, steps: seq<Step>)
    decreases steps
  {
    steps == [] || (Enabled(s, steps[0]) && ValidRun(Apply(s, steps[0]), steps[1..]))
  }

  function Exec(s: State, steps: seq<Step>): State
    requires ValidRun(s, steps)
    decreases steps
  {
    if steps == [] then s else Exec(Apply(s, steps[0]), steps[1..])
  }

  // ---- temporary names -------------------------------------------------------

  /** A temporary name is longer than any flag name. */
  lemma TmpIsNoFlag(r: Request)
    ensures TmpName(r) != PAUSE_FLAG && TmpName(r) != STOP_FLAG
  {
    assert |TmpName(r)| >= 14;
  }

  // ---- the invariant ---------------------------------------------------------

  predicate WritesTmp(p: Proc) {
    p.pc.Opening? || p.pc.Writing? || p.pc.Replacing?
  }

  /** What a request's session holds when it is about to take its next step. */
  function Pending(p: Proc): Tx {
    match p.pc
    case RecordingControl => Tx([EntryOf(p.request)], [])
    case Committing => Tx([EntryOf(p.request)], [EntryOf(p.request)])
    case _ => NOTHING
  }

  ghost predicate ProcOk(s: State, pid: nat)
    requires pid in s.procs
  {
    var p, r := s.procs[pid], s.procs[pid].request;
    && r in s.admitted && r.isOwner && p.tx == Pending(p)
    && (WritesTmp(p) ==> r.action != Resume)
    && (p.pc.Unlinking? ==> r.action == Resume)
    && (p.pc.Writing? ==> p.pc.done <= |r.body| && TmpName(r) in s.files && s.files[TmpName(r)] == r.body[..p.pc.done])
    && (p.pc.Replacing? ==> TmpName(r) in s.files && s.files[TmpName(r)] == r.body)
    && (IsRecording(p.pc) <==> EntryOf(r) in s.flagged)
    && EntryOf(r) !in s.audit && EntryOf(r) !in s.control
  }

  ghost predicate Apart(s: State, p: nat, q: nat)
    requires p in s.procs && q in s.procs
  {
    p != q ==>
      && TmpName(s.procs[p].request) != TmpName(s.procs[q].request)
      && s.procs[p].request.id != s.procs[q].request.id
  }

  ghost predicate WholeFlag(s: State, action: Action, content: string) {
    exists r :: r in s.admitted && r.isOwner && r.action == action && r.body == content
  }

  ghost predicate FlagsWhole(s: State) {
    && (PAUSE_FLAG in s.files ==> WholeFlag(s, Pause, s.files[PAUSE_FLAG]))
    && (STOP_FLAG in s.files ==> WholeFlag(s, Stop, s.files[STOP_FLAG]))
  }

  ghost predicate Admitted(s: State, e: Entry) {
    exists r :: r in s.admitted && r.isOwner && r.id == e.requestId && r.action == e.action
  }

  /** Every flag step is that of an admitted request, and every row follows its flag step. */
  ghost predicate HistoryOk(s: State) {
    && (forall e {:trigger Admitted(s, e)} :: e in s.flagged ==> Admitted(s, e))
    && (forall e :: e in s.audit ==> e in s.flagged)
    && (forall e :: e in s.control ==> e in s.audit)
  }

  ghost predicate Inv(s: State) {
    && (forall p {:trigger ProcOk(s, p)} :: p in s.procs ==> ProcOk(s, p))
    && (forall p, q {:trigger Apart(s, p, q)} :: p in s.procs && q in s.procs ==> Apart(s, p, q))
    && FlagsWhole(s) && HistoryOk(s)
  }

  lemma AdmittedKept(s: State, s': State)
    requires s.admitted <= s'.admitted
    ensures forall e {:trigger Admitted(s', e)} :: Admitted(s, e) ==> Admitted(s', e)
    ensures forall a, c {:trigger WholeFlag(s', a, c)} :: WholeFlag(s, a, c) ==> WholeFlag(s', a, c)
  {
    forall e | Admitted(s, e) ensures Admitted(s', e) {
      var r :| r in s.admitted && r.isOwner && r.id == e.requestId && r.action == e.action;
      assert r in s'.admitted;
    }
    forall action, content | WholeFlag(s, action, content) ensures WholeFlag(s', action, content) {
      var r :| r in s.admitted && r.isOwner && r.action == action && r.body == content;
      assert r in s'.admitted;
    }
  }

  /** A fresh request has no flag step and no row yet. */
  lemma FreshEntry(s: State, r: Request)
    requires HistoryOk(s) && forall q :: q in s.admitted ==> q.id != r.id
    ensures EntryOf(r) !in s.flagged && EntryOf(r) !in s.audit && EntryOf(r) !in s.control
  {
    assert EntryOf(r) in s.flagged ==> Admitted(s, EntryOf(r));
  }

  lemma BeginKeepsInv(s: State, step: Step)
    requires Inv(s) && Enabled(s, step) && step.Begin?
    ensures Inv(Apply(s, step))
  {
    var s' := Apply(s, step);
    if step.request.isOwner {
      FreshEntry(s, step.request);
      AdmittedKept(s, s');
      forall p | p in s'.procs ensures ProcOk(s', p) {
        assert p != step.pid ==> ProcOk(s, p);
      }
      forall p, q | p in s'.procs && q in s'.procs ensures Apart(s', p, q) {
        assert p != step.pid ==> ProcOk(s, p);
        assert q != step.pid ==> ProcOk(s, q);
        assert p in s.procs && q in s.procs ==> Apart(s, p, q);
      }
    }
  }

  /** A request that ends with what its session holds, or with nothing, added to the rows. */
  lemma EndKeepsInv(s: State, pid: nat, tx: Tx)
    requires Inv(s) && pid in s.procs && (tx == s.procs[pid].tx || tx == NOTHING)
    ensures Inv(s.(audit := s.audit + tx.audit, control := s.control + tx.control, procs := s.procs - {pid}))
  {
    var s' := s.(audit := s.audit + tx.audit, control := s.control + tx.control, procs := s.procs - {pid});
    AdmittedKept(s, s');
    assert ProcOk(s, pid);
    forall p | p in s'.procs ensures ProcOk(s', p) {
      assert ProcOk(s, p) && Apart(s, p, pid);
    }
    forall p, q | p in s'.procs && q in s'.procs ensures Apart(s', p, q) {
      assert Apart(s, p, q);
    }
  }

  lemma CommitKeepsInv(s: State, pid: nat)
    requires Inv(s) && pid in s.procs
    ensures Inv(Commit(s, pid))
  {
    EndKeepsInv(s, pid, s.procs[pid].tx);
  }

  lemma DropKeepsInv(s: State, pid: nat)
    requires Inv(s) && pid in s.procs
    ensures Inv(s.(procs := s.procs - {pid}))
  {
    EndKeepsInv(s, pid, NOTHING);
    assert s.audit + [] == s.audit && s.control + [] == s.control;
  }

  /** What a step of a request that goes on may do to the others. */
  ghost predicate Harmless(s: State, s': State, pid: nat)
    requires pid in s.procs
  {
    && s'.admitted == s.admitted && s'.audit == s.audit && s'.control == s.control
    && s'.procs.Keys == s.procs.Keys && s'.procs[pid].request == s.procs[pid].request
    && (s'.flagged == s.flagged || s'.flagged == s.flagged + {EntryOf(s.procs[pid].request)})
    && (forall p :: p in s.procs && p != pid ==> s'.procs[p] == s.procs[p])
    && (forall n :: n in s.files && n != TmpName(s.procs[pid].request) && n != PAUSE_FLAG && n != STOP_FLAG ==>
          n in s'.files && s'.files[n] == s.files[n])
  }

  lemma AdvanceHarmless(s: State, pid: nat, count: nat)
    requires pid in s.procs && count > 0 && pid in AdvanceProc(s, pid, count).procs
    ensures Harmless(s, AdvanceProc(s, pid, count), pid)
  {
  }

  lemma OthersKept(s: State, s': State, pid: nat, p: nat)
    requires Inv(s) && pid in s.procs && Harmless(s, s', pid)
    requires p in s'.procs && p != pid
    ensures ProcOk(s', p)
  {
    assert ProcOk(s, p) && Apart(s, p, pid);
    TmpIsNoFlag(s.procs[p].request);
  }

  lemma OwnKept(s: State, pid: nat, count: nat)
    requires Inv(s) && pid in s.procs && count > 0 && pid in AdvanceProc(s, pid, count).procs
    ensures ProcOk(AdvanceProc(s, pid, count), pid)
  {
    assert ProcOk(s, pid);
  }

  lemma FlagsKept(s: State, pid: nat, count: nat)
    requires Inv(s) && pid in s.procs && count > 0
    ensures FlagsWhole(AdvanceProc(s, pid, count))
  {
    var s', r := AdvanceProc(s, pid, count), s.procs[pid].request;
    assert ProcOk(s, pid);
    TmpIsNoFlag(r);
    AdmittedKept(s, s');
    if s.procs[pid].pc.Replacing? {
      assert r in s'.admitted && r.isOwner && r.body == s.files[TmpName(r)];
      assert WholeFlag(s', r.action, s.files[TmpName(r)]);
    }
  }

  lemma HistoryKept(s: State, s': State, pid: nat)
    requires Inv(s) && pid in s.procs && Harmless(s, s', pid)
    ensures HistoryOk(s')
  {
    AdmittedKept(s, s');
    assert ProcOk(s, pid);
    assert s.procs[pid].request in s'.admitted;
    assert Admitted(s', EntryOf(s.procs[pid].request));
  }

  lemma AdvanceKeepsInv(s: State, pid: nat, count: nat)
    requires Inv(s) && pid in s.procs && count > 0
    ensures Inv(AdvanceProc(s, pid, count))
  {
    var s' := AdvanceProc(s, pid, count);
    if pid !in s'.procs {
      CommitKeepsInv(s, pid);
    } else {
      AdvanceHarmless(s, pid, count);
      FlagsKept(s, pid, count);
      HistoryKept(s, s', pid);
      OwnKept(s, pid, count);
      forall p | p in s'.procs ensures ProcOk(s', p) {
        if p != pid {
          OthersKept(s, s', pid, p);
        }
      }
      forall p, q | p in s'.procs && q in s'.procs ensures Apart(s', p, q) {
        assert Apart(s, p, q);
      }
    }
  }

  lemma StepKeepsInv(s: State, step: Step)
    requires Inv(s) && Enabled(s, step)
    ensures Inv(Apply(s, step))
  {
    match step {
      case Begin(_, _) => BeginKeepsInv(s, step);
      case Advance(pid, count) => AdvanceKeepsInv(s, pid, count);
      case Raise(pid) => CommitKeepsInv(s, pid);
      case FailFlush(pid) => DropKeepsInv(s, pid);
      case Die(pid) => DropKeepsInv(s, pid);
    }
  }

  lemma {:induction false} RunKeepsInv(s: State, steps: seq<Step>)
    requires Inv(s) && ValidRun(s, steps)
    ensures Inv(Exec(s, steps))
    decreases steps
  {
    if steps != [] {
      StepKeepsInv(s, steps[0]);
      RunKeepsInv(Apply(s, steps[0]), steps[1..]);
    }
  }

  // ---- what readers and the record can rely on --------------------------------

  /** At every moment a flag is absent or holds one complete payload of an owner's request for it. */
  lemma FlagsAreNeverTorn(steps: seq<Step>)
    requires ValidRun(START, steps)
    ensures FlagsWhole(Exec(START, steps))
  {
    RunKeepsInv(START, steps);
  }

  lemma StepKeepsStop(s: State, step: Step)
    requires Enabled(s, step) && STOP_FLAG in s.files
    ensures STOP_FLAG in Apply(s, step).files
  {
    if step.Advance? {
      TmpIsNoFlag(s.procs[step.pid].request);
      assert PAUSE_FLAG[0] != STOP_FLAG[0];
    }
  }

  /** Once there, the stop flag is never removed by the platform. */
  lemma {:induction false} StopIsLatched(s: State, steps: seq<Step>)
    requires ValidRun(s, steps) && STOP_FLAG in s.files
    ensures STOP_FLAG in Exec(s, steps).files
    decreases steps
  {
    if steps != [] {
      StepKeepsStop(s, steps[0]);
      StopIsLatched(Apply(s, steps[0]), steps[1..]);
    }
  }

  /** An exception between the two flushes, after which the audit row is committed alone. */
  predicate IsTear(s: State, step: Step)
    requires Enabled(s, step)
  {
    step.Raise? && s.procs[step.pid].pc.RecordingControl?
  }

  function Tears(s: State, steps: seq<Step>): nat
    requires ValidRun(s, steps)
    decreases steps
  {
    if steps == [] then 0
    else (if IsTear(s, steps[0]) then 1 else 0) + Tears(Apply(s, steps[0]), steps[1..])
  }

  lemma StepPairs(s: State, step: Step)
    requires Inv(s) && Enabled(s, step)
    ensures var s' := Apply(s, step);
      && |s'.audit| - |s'.control| == |s.audit| - |s.control| + (if IsTear(s, step) then 1 else 0)
      && (s.audit == s.control && !IsTear(s, step) ==> s'.audit == s'.control)
  {
    var s' := Apply(s, step);
    if !step.Begin? {
      assert ProcOk(s, step.pid);
    }
  }

  lemma {:induction false} RunPairs(s: State, steps: seq<Step>)
    requires Inv(s) && ValidRun(s, steps)
    ensures var t := Exec(s, steps);
      && |t.audit| - |t.control| == |s.audit| - |s.control| + Tears(s, steps)
      && (s.audit == s.control && Tears(s, steps) == 0 ==> t.audit == t.control)
    decreases steps
  {
    if steps != [] {
      StepPairs(s, steps[0]);
      StepKeepsInv(s, steps[0]);
      RunPairs(Apply(s, steps[0]), steps[1..]);
    }
  }

  /**
   * Every control row has its audit row, and each follows the flag step of its
   * request, an admitted one of the owner with that id and action; the two
   * tables agree row by row if and only if no request raised between its two
   * flushes.
   */
  lemma RecordsArePaired(steps: seq<Step>)
    requires ValidRun(START, steps)
    ensures var t := Exec(START, steps);
      && (forall e :: e in t.control ==> e in t.audit)
      && (forall e :: e in t.audit ==> e in t.flagged && Admitted(t, e))
      && (t.audit == t.control <==> Tears(START, steps) == 0)
  {
    RunKeepsInv(START, steps);
    RunPairs(START, steps);
  }

  /** The step ends a request whose flag step is done and whose control row is not committed. */
  predicate Loses(s: State, step: Step, e: Entry)
    requires Enabled(s, step)
  {
    && (step.Die? || step.FailFlush? || (step.Raise? && !s.procs[step.pid].pc.Committing?))
    && IsRecording(s.procs[step.pid].pc)
    && EntryOf(s.procs[step.pid].request) == e
  }

  predicate LostIn(s: State, steps: seq<Step>, e: Entry)
    requires ValidRun(s, steps)
    decreases steps
  {
    steps != [] && (Loses(s, steps[0], e) || LostIn(Apply(s, steps[0]), steps[1..], e))
  }

  ghost predicate BeingRecorded(s: State, e: Entry) {
    exists p :: p in s.procs && IsRecording(s.procs[p].pc) && EntryOf(s.procs[p].request) == e
  }

  /** The flag step is done and no control row is there or will come. */
  ghost predicate Unrecorded(s: State, e: Entry) {
    e in s.flagged && e !in s.control && !BeingRecorded(s, e)
  }

  /** A request with that entry is the only one. */
  lemma OneRequest(s: State, p: nat, q: nat)
    requires Inv(s) && p in s.procs && q in s.procs && EntryOf(s.procs[p].request) == EntryOf(s.procs[q].request)
    ensures p == q
  {
    assert Apart(s, p, q);
  }

  /** A step that leaves entry e and the requests for it as they were. */
  lemma UnrecordedSame(s: State, s': State, e: Entry)
    requires e in s.flagged <==> e in s'.flagged
    requires e in s.control <==> e in s'.control
    requires BeingRecorded(s, e) <==> BeingRecorded(s', e)
    ensures Unrecorded(s, e) <==> Unrecorded(s', e)
  {
  }

  lemma RecordedElsewhere(s: State, s': State, pid: nat, e: Entry)
    requires forall p :: p != pid ==> (p in s.procs <==> p in s'.procs) && (p in s.procs ==> s'.procs[p] == s.procs[p])
    requires pid in s.procs ==> EntryOf(s.procs[pid].request) != e
    requires pid in s'.procs ==> EntryOf(s'.procs[pid].request) != e
    ensures BeingRecorded(s, e) <==> BeingRecorded(s', e)
  {
    if BeingRecorded(s, e) {
      var p :| p in s.procs && IsRecording(s.procs[p].pc) && EntryOf(s.procs[p].request) == e;
      assert p in s'.procs;
    }
    if BeingRecorded(s', e) {
      var p :| p in s'.procs && IsRecording(s'.procs[p].pc) && EntryOf(s'.procs[p].request) == e;
      assert p in s.procs;
    }
  }

  lemma BeginRecords(s: State, step: Step, e: Entry)
    requires Inv(s) && Enabled(s, step) && step.Begin?
    ensures Unrecorded(Apply(s, step), e) <==> Unrecorded(s, e)
  {
    var s' := Apply(s, step);
    if step.request.isOwner {
      FreshEntry(s, step.request);
      if e != EntryOf(step.request) {
        RecordedElsewhere(s, s', step.pid, e);
      }
    }
  }

  /** The step is one of another request. */
  lemma OtherRecords(s: State, step: Step, e: Entry)
    requires Inv(s) && Enabled(s, step) && !step.Begin? && EntryOf(s.procs[step.pid].request) != e
    ensures Unrecorded(Apply(s, step), e) <==> Unrecorded(s, e)
  {
    var s' := Apply(s, step);
    assert ProcOk(s, step.pid);
    RecordedElsewhere(s, s', step.pid, e);
    UnrecordedSame(s, s', e);
  }

  /** The step is one of the request itself. */
  lemma OwnRecords(s: State, step: Step)
    requires Inv(s) && Enabled(s, step) && !step.Begin?
    ensures var e := EntryOf(s.procs[step.pid].request);
      !Unrecorded(s, e) && (Unrecorded(Apply(s, step), e) <==> Loses(s, step, e))
  {
    var s', pid := Apply(s, step), step.pid;
    var e := EntryOf(s.procs[pid].request);
    assert ProcOk(s, pid);
    if pid in s'.procs {
      assert IsRecording(s'.procs[pid].pc) <==> e in s'.flagged;
    } else if BeingRecorded(s', e) {
      var p :| p in s'.procs && IsRecording(s'.procs[p].pc) && EntryOf(s'.procs[p].request) == e;
      OneRequest(s, p, pid);
    }
  }

  lemma StepRecords(s: State, step: Step, e: Entry)
    requires Inv(s) && Enabled(s, step)
    ensures Unrecorded(Apply(s, step), e) <==> Unrecorded(s, e) || Loses(s, step, e)
  {
    if step.Begin? {
      BeginRecords(s, step, e);
    } else if EntryOf(s.procs[step.pid].request) != e {
      OtherRecords(s, step, e);
    } else {
      OwnRecords(s, step);
    }
  }

  lemma {:induction false} RunRecords(s: State, steps: seq<Step>, e: Entry)
    requires Inv(s) && ValidRun(s, steps)
    ensures Unrecorded(Exec(s, steps), e) <==> Unrecorded(s, e) || LostIn(s, steps, e)
    decreases steps
  {
    if steps != [] {
      StepRecords(s, steps[0], e);
      StepKeepsInv(s, steps[0]);
      RunRecords(Apply(s, steps[0]), steps[1..], e);
    }
  }

  /**
   * When all requests have ended, a flag step is without its control row if
   * and only if its request died, failed in the database or raised after the
   * flag step and before that row was flushed and committed.
   */
  lemma RecordedUnlessLost(steps: seq<Step>, e: Entry)
    requires ValidRun(START, steps)
    ensures Unrecorded(Exec(START, steps), e) <==> LostIn(START, steps, e)
    ensures Exec(START, steps).procs == map[] ==>
      (e in Exec(START, steps).flagged && e !in Exec(START, steps).control <==> LostIn(START, steps, e))
  {
    RunRecords(START, steps, e);
  }

  // ---- reading both flags ----------------------------------------------------

  datatype Meta = Payload(content: string) | Unreadable

  datatype View = View(paused: bool, stopRequested: bool, pauseMeta: Option<Meta>)

  /**
   * read_control_state looks four times: whether the pause flag exists, what
   * it holds, whether it (still) exists, and whether the stop flag exists.
   */
  function ReadControlState(first: State, second: State, third: State, fourth: State): View {
    View(PAUSE_FLAG in third.files, STOP_FLAG in fourth.files,
         if PAUSE_FLAG !in first.files then None
         else if PAUSE_FLAG in second.files then Some(Payload(second.files[PAUSE_FLAG]))
         else Some(Unreadable))
  }

  /**
   * A view never shows part of a payload, and is unreadable only if a resume
   * came between the first two looks; it says paused and stop requested as the
   * last two looks found it, so without a change between the first three it
   * shows a payload exactly when it says paused.
   */
  lemma ViewMeaning(before: seq<Step>, a: seq<Step>, b: seq<Step>, c: seq<Step>)
    requires ValidRun(START, before) && ValidRun(Exec(START, before), a)
    requires ValidRun(Exec(Exec(START, before), a), b) && ValidRun(Exec(Exec(Exec(START, before), a), b), c)
    ensures var s1 := Exec(START, before);
      var s2 := Exec(s1, a);
      var s3 := Exec(s2, b);
      var v := ReadControlState(s1, s2, s3, Exec(s3, c));
      && (v.pauseMeta.Some? && v.pauseMeta.value.Payload? ==> WholeFlag(s2, Pause, v.pauseMeta.value.content))
      && (v.pauseMeta == Some(Unreadable) <==> PAUSE_FLAG in s1.files && PAUSE_FLAG !in s2.files)
      && (v.stopRequested <==> STOP_FLAG in Exec(s3, c).files)
      && (v.paused <==> PAUSE_FLAG in s3.files)
      && (STOP_FLAG in s1.files ==> v.stopRequested)
      && (a == b == [] ==> (v.paused <==> v.pauseMeta.Some?) && v.pauseMeta != Some(Unreadable))
  {
    var s1 := Exec(START, before);
    var s2 := Exec(s1, a);
    var s3 := Exec(s2, b);
    RunKeepsInv(START, before);
    RunKeepsInv(s1, a);
    if STOP_FLAG in s1.files {
      StopIsLatched(s1, a);
      StopIsLatched(s2, b);
      StopIsLatched(s3, c);
    }
  }

  // ---- the request handlers --------------------------------------------------

  datatype Forbidden = Forbidden

  class ControlApi {
    var files: map<string, string>
    var audit: seq<Entry>
    var control: seq<Entry>
    var tx: Tx

    method AtomicWriteJson(flag: string, tmp: string, body: string)
      requires tmp != flag
      modifies this`files
      ensures files == (old(files) - {tmp})[flag := body]
    {
      files := files[tmp := ""];
      files := files[tmp := body];
      files := (files - {tmp})[flag := files[tmp]];
    }

    /** One audit row and one control row, flushed one after the other. */
    method Record(e: Entry)
      modifies this`tx
      ensures tx == Tx(old(tx).audit + [e], old(tx).control + [e])
    {
      tx := tx.(audit := tx.audit + [e]);
      tx := tx.(control := tx.control + [e]);
    }

    /** One request; its session is committed whether it returns or raises. */
    method Handle(r: Request) returns (result: Result<Entry, Forbidden>)
      requires tx == NOTHING
      modifies this
      ensures tx == NOTHING
      ensures r.isOwner <==> result.Success?
      ensures !r.isOwner ==> files == old(files) && audit == old(audit) && control == old(control)
      ensures r.isOwner ==>
        && result.value == EntryOf(r)
        && audit == old(audit) + [EntryOf(r)] && control == old(control) + [EntryOf(r)]
        && files == FilesAfter(old(files), r)
    {
      if r.isOwner {
        match r.action {
          case Pause =>
            TmpIsNoFlag(r);
            AtomicWriteJson(PAUSE_FLAG, TmpName(r), r.body);
          case Stop =>
            TmpIsNoFlag(r);
            AtomicWriteJson(STOP_FLAG, TmpName(r), r.body);
          case Resume =>
            files := files - {PAUSE_FLAG};
        }
        Record(EntryOf(r));
        result := Success(EntryOf(r));
      } else {
        result := Failure(Forbidden);
      }
      audit, control, tx := audit + tx.audit, control + tx.control, NOTHING;
    }
  }

  /** What the flag step of a request leaves in the directory. */
  function FilesAfter(files: map<string, string>, r: Request): map<string, string> {
    if r.action == Resume then files - {PAUSE_FLAG} else (files - {TmpName(r)})[FlagOf(r.action) := r.body]
  }

  // ---- runs of one request ---------------------------------------------------

  /** n steps of one request in a row. */
  function Advances(pid: nat, n: nat, count: nat): seq<Step> {
    if n == 0 then [] else [Advance(pid, count)] + Advances(pid, n - 1, count)
  }

  /** The steps up to and including the flag step, the body in a single write. */
  function FlagSteps(pid: nat, r: Request): seq<Step> {
    [Begin(pid, r)] +
    Advances(pid, if r.action == Resume then 1 else if r.body == [] then 3 else 4, |r.body| + 1)
  }

  ghost predicate Leads(s: State, steps: seq<Step>, t: State) {
    ValidRun(s, steps) && Exec(s, steps) == t
  }

  lemma LeadsFirst(s: State, step: Step, rest: seq<Step>, t: State)
    requires Enabled(s, step) && Leads(Apply(s, step), rest, t)
    ensures Leads(s, [step] + rest, t)
  {
    assert ([step] + rest)[0] == step && ([step] + rest)[1..] == rest;
  }

  lemma {:induction false} LeadsOn(s: State, a: seq<Step>, t: State, b: seq<Step>, u: State)
    requires Leads(s, a, t) && Leads(t, b, u)
    ensures Leads(s, a + b, u)
    decreases a
  {
    if a == [] {
      assert a + b == b;
    } else {
      LeadsOn(Apply(s, a[0]), a[1..], t, b, u);
      LeadsFirst(s, a[0], a[1..] + b, u);
      assert [a[0]] + (a[1..] + b) == a + b;
    }
  }

  lemma LeadsAdvance(s: State, pid: nat, n: nat, count: nat, t: State)
    requires pid in s.procs && count > 0 && Leads(AdvanceProc(s, pid, count), Advances(pid, n, count), t)
    ensures Leads(s, Advances(pid, n + 1, count), t)
  {
    LeadsFirst(s, Advance(pid, count), Advances(pid, n, count), t);
  }

  /** From its flag step on, a request records itself and is done. */
  lemma RecordsItself(s: State, pid: nat, count: nat) returns (t: State)
    requires pid in s.procs && s.procs[pid].pc.RecordingAudit? && s.procs[pid].tx == NOTHING && count > 0
    ensures Leads(s, Advances(pid, 3, count), t)
    ensures var e := EntryOf(s.procs[pid].request);
      t == s.(audit := s.audit + [e], control := s.control + [e], procs := s.procs - {pid})
  {
    var s1 := AdvanceProc(s, pid, count);
    var s2 := AdvanceProc(s1, pid, count);
    t := AdvanceProc(s2, pid, count);
    assert t.procs == s.procs - {pid};
    assert Leads(t, Advances(pid, 0, count), t);
    LeadsAdvance(s2, pid, 0, count, t);
    LeadsAdvance(s1, pid, 1, count, t);
    LeadsAdvance(s, pid, 2, count, t);
  }

  /** A request has done its flag step, and nothing else has changed. */
  ghost predicate FlagDone(s: State, pid: nat, t: State)
    requires pid in s.procs
  {
    var r := s.procs[pid].request;
    t == s.(files := FilesAfter(s.files, r), procs := s.procs[pid := Proc(r, RecordingAudit, s.procs[pid].tx)],
            flagged := s.flagged + {EntryOf(r)})
  }

  /** Once its temporary file is whole, or when it has none, the flag step is one step. */
  lemma FlagsItself(s: State, pid: nat, count: nat) returns (t: State)
    requires pid in s.procs && count > 0
    requires var r := s.procs[pid].request;
      if r.action == Resume then s.procs[pid].pc.Unlinking?
      else s.procs[pid].pc.Replacing? && TmpName(r) in s.files && s.files[TmpName(r)] == r.body
    ensures FlagDone(s, pid, t) && Leads(s, Advances(pid, 1, count), t)
  {
    t := AdvanceProc(s, pid, count);
    assert Leads(t, Advances(pid, 0, count), t);
    LeadsAdvance(s, pid, 0, count, t);
  }

  /** A request that has begun writes its temporary file and raises the flag. */
  lemma WritesItself(s: State, pid: nat, r: Request) returns (t: State)
    requires pid in s.procs && s.procs[pid] == Proc(r, Opening, NOTHING) && r.action != Resume
    ensures FlagDone(s, pid, t)
    ensures Leads(s, Advances(pid, if r.body == [] then 3 else 4, |r.body| + 1), t)
  {
    var count := |r.body| + 1;
    var s1 := AdvanceProc(s, pid, count);
    var s2 := AdvanceProc(s1, pid, count);
    if r.body == [] {
      t := FlagsItself(s2, pid, count);
      WrittenThenFlagged(s, s2, pid, t);
      LeadsAdvance(s1, pid, 1, count, t);
      LeadsAdvance(s, pid, 2, count, t);
    } else {
      var s3 := AdvanceProc(s2, pid, count);
      t := FlagsItself(s3, pid, count);
      WrittenThenFlagged(s, s3, pid, t);
      LeadsAdvance(s2, pid, 1, count, t);
      LeadsAdvance(s1, pid, 2, count, t);
      LeadsAdvance(s, pid, 3, count, t);
    }
  }

  lemma WrittenThenFlagged(s: State, s': State, pid: nat, t: State)
    requires pid in s.procs && pid in s'.procs && s.procs[pid].request.action != Resume
    requires var p := s.procs[pid];
      s' == s.(files := s.files[TmpName(p.request) := p.request.body], procs := s.procs[pid := p.(pc := Replacing)])
    requires FlagDone(s', pid, t)
    ensures FlagDone(s, pid, t)
  {
    var r := s.procs[pid].request;
    assert FilesAfter(s'.files, r) == FilesAfter(s.files, r);
    assert t.procs == s.procs[pid := Proc(r, RecordingAudit, s.procs[pid].tx)];
  }

  /** From its beginning, a request of the owner comes to have done its flag step. */
  lemma RaisesFlag(s: State, pid: nat, r: Request) returns (t: State)
    requires r.isOwner && Enabled(s, Begin(pid, r))
    ensures Leads(s, FlagSteps(pid, r), t)
    ensures t == s.(files := FilesAfter(s.files, r), procs := s.procs[pid := Proc(r, RecordingAudit, NOTHING)],
                    admitted := s.admitted + {r}, flagged := s.flagged + {EntryOf(r)})
  {
    var s1 := Apply(s, Begin(pid, r));
    if r.action == Resume {
      t := FlagsItself(s1, pid, |r.body| + 1);
    } else {
      t := WritesItself(s1, pid, r);
    }
    LeadsFirst(s, Begin(pid, r), FlagSteps(pid, r)[1..], t);
    assert [Begin(pid, r)] + FlagSteps(pid, r)[1..] == FlagSteps(pid, r);
    assert t.procs == s.procs[pid := Proc(r, RecordingAudit, NOTHING)];
  }

  /** A request that runs alone has the outcome ControlApi.Handle promises. */
  lemma AloneIsHandle(s: State, pid: nat, r: Request) returns (t: State)
    requires r.isOwner && Enabled(s, Begin(pid, r))
    ensures Leads(s, FlagSteps(pid, r) + Advances(pid, 3, 1), t)
    ensures t.files == FilesAfter(s.files, r) && t.procs == s.procs
    ensures t.audit == s.audit + [EntryOf(r)] && t.control == s.control + [EntryOf(r)]
  {
    var s1 := RaisesFlag(s, pid, r);
    t := RecordsItself(s1, pid, 1);
    LeadsOn(s, FlagSteps(pid, r), s1, Advances(pid, 3, 1), t);
    assert t.procs == s.procs;
  }

  /** The run in which a request of the owner dies right after its flag step: no row tells of it. */
  lemma KilledUnrecorded(pid: nat, r: Request) returns (t: State)
    requires r.isOwner
    ensures Leads(START, FlagSteps(pid, r) + [Die(pid)], t)
    ensures t.files == FilesAfter(map[], r) && t.procs == map[]
    ensures EntryOf(r) in t.flagged && t.audit == t.control == []
  {
    var s1 := RaisesFlag(START, pid, r);
    t := Apply(s1, Die(pid));
    assert t.procs == map[];
    assert Leads(t, [], t);
    LeadsFirst(s1, Die(pid), [], t);
    assert [Die(pid)] + [] == [Die(pid)];
    LeadsOn(START, FlagSteps(pid, r), s1, [Die(pid)], t);
  }

  /** The run in which a request raises between its two flushes: an audit row without a control row. */
  lemma TornRecord(pid: nat, r: Request) returns (t: State)
    requires r.isOwner
    ensures Leads(START, FlagSteps(pid, r) + [Advance(pid, 1), Raise(pid)], t)
    ensures t.audit == [EntryOf(r)] && t.control == []
  {
    var s1 := RaisesFlag(START, pid, r);
    var s2 := AdvanceProc(s1, pid, 1);
    t := Apply(s2, Raise(pid));
    assert Leads(t, [], t);
    LeadsFirst(s2, Raise(pid), [], t);
    LeadsFirst(s1, Advance(pid, 1), [Raise(pid)] + [], t);
    assert [Advance(pid, 1)] + ([Raise(pid)] + []) == [Advance(pid, 1), Raise(pid)];
    LeadsOn(START, FlagSteps(pid, r), s1, [Advance(pid, 1), Raise(pid)], t);
  }
}
