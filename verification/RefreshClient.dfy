/**
 * One browser tab whose refreshes all go through refreshOnce, composed with
 * the token endpoints (frontend/src/lib/api/client.ts:47-114 against
 * backend/app/api/auth.py:515-559). Calls, messages and timers interleave freely.
 */
module RefreshClient {
  import opened Prelude
  import opened TokenServer

  type CallId = nat
  type FlightId = nat

  /** Where one doFetch stands. */
  datatype Phase = AwaitingReply | AwaitingRefresh(flight: FlightId) | AwaitingRetry | Done(unauthorized: bool)

  datatype Call = Call(phase: Phase, withRetry: bool, sends: nat)

  datatype Message =
    | RefreshRequest(flight: FlightId, cookie: Option<Token>)
    | RefreshReply(flight: FlightId, reply: Reply)

  /**
   * refreshInFlight, the promises resolved so far, messages under way, armed
   * timers with the flight that armed them, and the browser's refresh cookie.
   */
  datatype TabState = TabState(
    inFlight: Option<FlightId>, settled: map<FlightId, bool>, started: FlightId,
    wire: seq<Message>, timers: seq<FlightId>, jar: Option<Token>, calls: map<CallId, Call>)

  function Without<T>(s: seq<T>, i: nat): seq<T>
    requires i < |s|
  {
    s[..i] + s[i + 1..]
  }

  // ---- what each browser event does to the tab -------------------------------

  function StartCall(t: TabState, id: CallId, withRetry: bool): TabState {
    t.(calls := t.calls[id := Call(AwaitingReply, withRetry, 1)])
  }

  function Coalesced(t: TabState): (TabState, FlightId) {
    if t.inFlight.Some? then (t, t.inFlight.value)
    else
      (t.(inFlight := Some(t.started), started := t.started + 1,
          wire := t.wire + [RefreshRequest(t.started, t.jar)]),
       t.started)
  }

  function ReplyArrives(t: TabState, id: CallId, unauthorized: bool): TabState
    requires id in t.calls
  {
    var c := t.calls[id];
    if c.phase.AwaitingReply? && unauthorized && c.withRetry then
      var (t', flight) := Coalesced(t);
      t'.(calls := t'.calls[id := c.(phase := AwaitingRefresh(flight))])
    else if c.phase.AwaitingReply? || c.phase.AwaitingRetry? then
      t.(calls := t.calls[id := c.(phase := Done(unauthorized))])
    else t
  }

  /** The refresh promise resolves, and its finally block arms the timer. */
  function Settle(t: TabState, i: nat, ok: bool): TabState
    requires i < |t.wire|
  {
    var flight := t.wire[i].flight;
    t.(settled := t.settled[flight := ok], timers := t.timers + [flight], wire := Without(t.wire, i))
  }

  /**
   * The browser takes the cookie of a successful reply before the script looks
   * at the body, which may turn out unreadable; errors are rebuilt without one.
   */
  function RefreshArrives(t: TabState, i: nat, readable: bool): TabState
    requires i < |t.wire| && t.wire[i].RefreshReply?
  {
    var reply := t.wire[i].reply;
    Settle(if reply.Issued? then t.(jar := Some(reply.token)) else t, i, reply.Issued? && readable)
  }

  /** The timer's callback clears refreshInFlight, whichever flight that is. */
  function TimerFires(t: TabState, j: nat): TabState
    requires j < |t.timers|
  {
    t.(inFlight := None, timers := Without(t.timers, j))
  }

  function Resume(t: TabState, id: CallId): TabState
    requires id in t.calls && t.calls[id].phase.AwaitingRefresh? && t.calls[id].phase.flight in t.settled
  {
    var c := t.calls[id];
    if t.settled[c.phase.flight] then
      t.(calls := t.calls[id := Call(AwaitingRetry, false, c.sends + 1)])
    else t.(calls := t.calls[id := c.(phase := Done(true))])
  }

  /** The module's variables and callbacks. */
  class Tab {
    var inFlight: Option<FlightId>
    var settled: map<FlightId, bool>
    var started: FlightId
    var wire: seq<Message>
    var timers: seq<FlightId>
    var jar: Option<Token>
    var calls: map<CallId, Call>

    function State(): TabState
      reads this
    {
      TabState(inFlight, settled, started, wire, timers, jar, calls)
    }

    constructor (jar: Option<Token>)
      ensures State() == TabState(None, map[], 0, [], [], jar, map[])
    {
      inFlight, settled, started, wire, timers, calls := None, map[], 0, [], [], map[];
      this.jar := jar;
    }

    method RefreshOnce() returns (flight: FlightId)
      modifies this
      ensures (State(), flight) == Coalesced(old(State()))
    {
      if inFlight.Some? {
        return inFlight.value;
      }
      flight := started;
      inFlight := Some(flight);
      wire := wire + [RefreshRequest(flight, jar)];
      started := started + 1;
    }

    method OnReply(id: CallId, unauthorized: bool)
      requires id in calls
      modifies this
      ensures State() == ReplyArrives(old(State()), id, unauthorized)
    {
      var c := calls[id];
      match c.phase {
        case AwaitingReply =>
          if !unauthorized || !c.withRetry {
            calls := calls[id := c.(phase := Done(unauthorized))];
          } else {
            var flight := RefreshOnce();
            calls := calls[id := c.(phase := AwaitingRefresh(flight))];
          }
        case AwaitingRetry => calls := calls[id := c.(phase := Done(unauthorized))];
        case _ =>
      }
    }

    method OnRefreshReply(i: nat, readable: bool)
      requires i < |wire| && wire[i].RefreshReply?
      modifies this
      ensures State() == RefreshArrives(old(State()), i, readable)
    {
      var flight, reply := wire[i].flight, wire[i].reply;
      wire := Without(wire, i);
      if reply.Issued? {
        jar := Some(reply.token);
      }
      settled := settled[flight := reply.Issued? && readable];
      timers := timers + [flight];
    }

    method OnTimer(j: nat)
      requires j < |timers|
      modifies this
      ensures State() == TimerFires(old(State()), j)
    {
      timers := Without(timers, j);
      inFlight := None;
    }

    method OnRefreshed(id: CallId)
      requires id in calls && calls[id].phase.AwaitingRefresh? && calls[id].phase.flight in settled
      modifies this
      ensures State() == Resume(old(State()), id)
    {
      var c := calls[id];
      if !settled[c.phase.flight] {
        calls := calls[id := c.(phase := Done(true))];
      } else {
        calls := calls[id := Call(AwaitingRetry, false, c.sends + 1)];
      }
    }
  }

  // ---- the tab and the server together ---------------------------------------

  datatype System = System(tab: TabState, store: Store)

  datatype Step =
    | Start(id: CallId, withRetry: bool)
    | Answer(id: CallId, unauthorized: bool)
    | Serves(i: nat, draw: Draw)
    | Deliver(i: nat, readable: bool)
    | Lose(i: nat)
    | Tick(j: nat)
    | Wake(id: CallId)
    | Other(req: Request, draw: Draw)

  predicate Enabled(s: System, step: Step) {
    var t := s.tab;
    match step
    case Start(id, _) => id !in t.calls
    case Answer(id, _) => id in t.calls && (t.calls[id].phase.AwaitingReply? || t.calls[id].phase.AwaitingRetry?)
    case Serves(i, draw) => i < |t.wire| && t.wire[i].RefreshRequest? && draw.minted !in s.store.rows
    case Deliver(i, _) => i < |t.wire| && t.wire[i].RefreshReply?
    case Lose(i) => i < |t.wire|
    case Tick(j) => j < |t.timers|
    case Wake(id) => id in t.calls && t.calls[id].phase.AwaitingRefresh? && t.calls[id].phase.flight in t.settled
    case Other(_, draw) => draw.minted !in s.store.rows
  }

  function Apply(s: System, step: Step): System
    requires Enabled(s, step)
  {
    match step
    case Start(id, withRetry) => s.(tab := StartCall(s.tab, id, withRetry))
    case Answer(id, unauthorized) => s.(tab := ReplyArrives(s.tab, id, unauthorized))
    case Serves(i, draw) =>
      var m := s.tab.wire[i];
      var (store, reply) := Serve(s.store, Refresh(m.cookie), draw);
      System(s.tab.(wire := s.tab.wire[i := RefreshReply(m.flight, reply)]), store)
    case Deliver(i, readable) => s.(tab := RefreshArrives(s.tab, i, readable))
    case Lose(i) => s.(tab := Settle(s.tab, i, false))
    case Tick(j) => s.(tab := TimerFires(s.tab, j))
    case Wake(id) => s.(tab := Resume(s.tab, id))
    case Other(req, draw) => s.(store := Serve(s.store, req, draw).0)
  }

  predicate ValidRun(s: System, steps: seq<Step>)
    decreases steps
  {
    steps == [] || (Enabled(s, steps[0]) && ValidRun(Apply(s, steps[0]), steps[1..]))
  }

  function Exec(s: System, steps: seq<Step>): System
    requires ValidRun(s, steps)
    decreases steps
  {
    if steps == [] then s else Exec(Apply(s, steps[0]), steps[1..])
  }

  // ---- single flight ---------------------------------------------------------

  ghost predicate CallOk(t: TabState, id: CallId)
    requires id in t.calls
  {
    var c := t.calls[id];
    match c.phase
    case AwaitingReply => c.sends == 1
    case AwaitingRefresh(f) => c.sends == 1 && (f in t.settled || t.inFlight == Some(f))
    case AwaitingRetry => c.sends == 2
    case Done(_) => c.sends <= 2
  }

  /**
   * A flight is over the network or waiting for its own timer, never both;
   * without a flight there is neither.
   */
  ghost predicate FlightOk(t: TabState) {
    match t.inFlight
    case None => t.wire == [] && t.timers == []
    case Some(f) =>
      || (|t.wire| == 1 && t.timers == [] && t.wire[0].flight == f)
      || (t.wire == [] && t.timers == [f] && f in t.settled)
  }

  ghost predicate TabOk(t: TabState) {
    && FlightOk(t)
    && forall id {:trigger CallOk(t, id)} :: id in t.calls ==> CallOk(t, id)
  }

  lemma CallsKept(t: TabState, t': TabState)
    requires TabOk(t) && t'.calls == t.calls
    requires forall f :: f in t.settled ==> f in t'.settled
    requires t.inFlight.Some? ==> t'.inFlight == t.inFlight || t.inFlight.value in t'.settled
    ensures forall id {:trigger CallOk(t', id)} :: id in t'.calls ==> CallOk(t', id)
  {
    forall id | id in t'.calls ensures CallOk(t', id) {
      assert CallOk(t, id);
    }
  }

  lemma CallUpdated(t: TabState, t': TabState, id: CallId, c: Call)
    requires TabOk(t) && t'.calls == t.calls[id := c] && CallOk(t', id)
    requires t'.settled == t.settled && (t.inFlight.Some? ==> t'.inFlight == t.inFlight)
    ensures forall k {:trigger CallOk(t', k)} :: k in t'.calls ==> CallOk(t', k)
  {
    forall k | k in t'.calls ensures CallOk(t', k) {
      if k != id {
        assert CallOk(t, k);
      }
    }
  }

  lemma StartKeepsTab(t: TabState, id: CallId, withRetry: bool)
    requires TabOk(t) && id !in t.calls
    ensures TabOk(StartCall(t, id, withRetry))
  {
    CallUpdated(t, StartCall(t, id, withRetry), id, Call(AwaitingReply, withRetry, 1));
  }

  lemma AnswerKeepsTab(t: TabState, id: CallId, unauthorized: bool)
    requires TabOk(t) && id in t.calls
    ensures TabOk(ReplyArrives(t, id, unauthorized))
  {
    var t' := ReplyArrives(t, id, unauthorized);
    assert CallOk(t, id);
    CallUpdated(t, t', id, t'.calls[id]);
  }

  lemma WakeKeepsTab(t: TabState, id: CallId)
    requires TabOk(t) && id in t.calls && t.calls[id].phase.AwaitingRefresh? && t.calls[id].phase.flight in t.settled
    ensures TabOk(Resume(t, id))
  {
    assert CallOk(t, id);
    CallUpdated(t, Resume(t, id), id, Resume(t, id).calls[id]);
  }

  lemma SettleKeepsTab(t: TabState, i: nat, ok: bool)
    requires TabOk(t) && i < |t.wire|
    ensures TabOk(Settle(t, i, ok))
  {
    CallsKept(t, Settle(t, i, ok));
  }

  lemma StepKeepsTab(s: System, step: Step)
    requires Enabled(s, step) && TabOk(s.tab)
    ensures TabOk(Apply(s, step).tab)
  {
    var t, t' := s.tab, Apply(s, step).tab;
    match step {
      case Start(id, withRetry) => StartKeepsTab(t, id, withRetry);
      case Answer(id, unauthorized) => AnswerKeepsTab(t, id, unauthorized);
      case Wake(id) => WakeKeepsTab(t, id);
      case Lose(i) => SettleKeepsTab(t, i, false);
      case _ => CallsKept(t, t');
    }
  }

  lemma {:induction false} RunKeepsTab(s: System, steps: seq<Step>)
    requires ValidRun(s, steps) && TabOk(s.tab)
    ensures TabOk(Exec(s, steps).tab)
    decreases steps
  {
    if steps != [] {
      StepKeepsTab(s, steps[0]);
      RunKeepsTab(Apply(s, steps[0]), steps[1..]);
    }
  }

  function NewTab(jar: Option<Token>): TabState {
    TabState(None, map[], 0, [], [], jar, map[])
  }

  /**
   * Whatever is delivered, lost or delayed: at most one refresh is under way,
   * at most one timer is armed, a timer only ever clears the flight that armed
   * it, no request is sent more than twice, and no call waits for a flight
   * that neither resolved nor is current.
   */
  lemma SingleFlight(jar: Option<Token>, store: Store, steps: seq<Step>)
    requires ValidRun(System(NewTab(jar), store), steps)
    ensures var t := Exec(System(NewTab(jar), store), steps).tab;
      && |t.wire| + |t.timers| <= 1
      && (forall j :: 0 <= j < |t.timers| ==> t.inFlight == Some(t.timers[j]))
      && (forall id :: id in t.calls ==> t.calls[id].sends <= 2)
      && (forall id :: id in t.calls && t.calls[id].phase.AwaitingRefresh? ==>
            t.calls[id].phase.flight in t.settled || t.inFlight == Some(t.calls[id].phase.flight))
  {
    RunKeepsTab(System(NewTab(jar), store), steps);
    var t := Exec(System(NewTab(jar), store), steps).tab;
    forall id | id in t.calls
      ensures t.calls[id].sends <= 2
      ensures t.calls[id].phase.AwaitingRefresh? ==>
        t.calls[id].phase.flight in t.settled || t.inFlight == Some(t.calls[id].phase.flight)
    {
      assert CallOk(t, id);
    }
  }

  // ---- the reuse branch ------------------------------------------------------

  /** The refresh token the tab holds or is about to receive. */
  function Current(t: TabState): Option<Token> {
    if |t.wire| == 1 && t.wire[0].RefreshReply? && t.wire[0].reply.Issued? then Some(t.wire[0].reply.token)
    else t.jar
  }

  predicate Revoked(s: Store, c: Option<Token>) {
    c.Some? && c.value in s.rows && s.rows[c.value].revokedAt.Some?
  }

  /** Requests carry the cookie the jar still holds; a minted token replaces a consumed one. */
  ghost predicate CookieOk(s: System) {
    |s.tab.wire| == 1 ==>
      match s.tab.wire[0]
      case RefreshRequest(_, cookie) => cookie == s.tab.jar
      case RefreshReply(_, reply) =>
        reply.Issued? ==> reply.token in s.store.rows && Revoked(s.store, s.tab.jar)
  }

  predicate LiveRow(s: Store, c: Option<Token>) {
    c.Some? && c.value in s.rows && s.rows[c.value].revokedAt.None?
  }

  /** Whether a request of someone else is about to revoke the live token c. */
  predicate Revokes(s: Store, req: Request, now: int, c: Option<Token>)
    requires LiveRow(s, c)
  {
    var row := s.rows[c.value];
    match req
    case Login(_) => false
    case Logout(cookie) => cookie == c
    case LogoutAll(user) => user == row.user && IsActive(s, user)
    case Refresh(cookie) =>
      || (cookie == c && (row.expiresAt <= now || IsActive(s, row.user)))
      || (Revoked(s, cookie) && s.rows[cookie.value].user == row.user)
  }

  /**
   * The three mishaps the client cannot see: a successful refresh whose reply
   * is lost, a token that has expired when the server looks at it, a request
   * of someone else that revokes it.
   */
  predicate Mishap(s: System, step: Step)
    requires Enabled(s, step)
  {
    match step
    case Lose(i) => s.tab.wire[i].RefreshReply? && s.tab.wire[i].reply.Issued?
    case Serves(i, draw) =>
      var c := s.tab.wire[i].cookie;
      LiveRow(s.store, c) && s.store.rows[c.value].expiresAt <= draw.now
    case Other(req, draw) =>
      LiveRow(s.store, Current(s.tab)) && Revokes(s.store, req, draw.now, Current(s.tab))
    case _ => false
  }

  ghost predicate SystemOk(s: System) {
    TabOk(s.tab) && CookieOk(s)
  }

  lemma StepKeepsSystem(s: System, step: Step)
    requires Enabled(s, step) && SystemOk(s)
    ensures SystemOk(Apply(s, step))
  {
    StepKeepsTab(s, step);
  }

  /** The server takes the reuse branch exactly when the tab's token is revoked. */
  lemma ReuseIffRevoked(s: System, i: nat, draw: Draw)
    requires SystemOk(s) && Enabled(s, Serves(i, draw))
    ensures Serve(s.store, Refresh(s.tab.wire[i].cookie), draw).1 == ReuseDetected <==> Revoked(s.store, Current(s.tab))
  {
  }

  /** The server consumes the tab's token and mints its successor, or leaves it as it is. */
  lemma ServedRevoked(s: System, i: nat, draw: Draw)
    requires SystemOk(s) && Enabled(s, Serves(i, draw))
    ensures var t := Apply(s, Serves(i, draw));
      Revoked(t.store, Current(t.tab)) <==> Revoked(s.store, Current(s.tab)) || Mishap(s, Serves(i, draw))
  {
  }

  /** A message that arrives or is lost. */
  lemma SettledRevoked(s: System, step: Step)
    requires SystemOk(s) && Enabled(s, step) && (step.Deliver? || step.Lose?)
    ensures var t := Apply(s, step);
      Revoked(t.store, Current(t.tab)) <==> Revoked(s.store, Current(s.tab)) || Mishap(s, step)
  {
  }

  lemma OthersRevoked(s: System, req: Request, draw: Draw)
    requires Enabled(s, Other(req, draw))
    ensures Revoked(Serve(s.store, req, draw).0, Current(s.tab)) <==>
      Revoked(s.store, Current(s.tab)) || Mishap(s, Other(req, draw))
  {
  }

  /** The tab's token is revoked after a step exactly when it was, or the step is a mishap. */
  lemma RevokedByMishap(s: System, step: Step)
    requires SystemOk(s) && Enabled(s, step)
    ensures Revoked(Apply(s, step).store, Current(Apply(s, step).tab)) <==>
      Revoked(s.store, Current(s.tab)) || Mishap(s, step)
  {
    match step {
      case Serves(i, draw) => ServedRevoked(s, i, draw);
      case Deliver(_, _) => SettledRevoked(s, step);
      case Lose(_) => SettledRevoked(s, step);
      case Other(req, draw) => OthersRevoked(s, req, draw);
      case _ => assert Current(Apply(s, step).tab) == Current(s.tab);
    }
  }

  predicate HasMishap(s: System, steps: seq<Step>)
    requires ValidRun(s, steps)
    decreases steps
  {
    steps != [] && (Mishap(s, steps[0]) || HasMishap(Apply(s, steps[0]), steps[1..]))
  }

  lemma {:induction false} RevokedIffMishap(s: System, steps: seq<Step>)
    requires SystemOk(s) && ValidRun(s, steps)
    ensures SystemOk(Exec(s, steps))
    ensures Revoked(Exec(s, steps).store, Current(Exec(s, steps).tab)) <==>
      Revoked(s.store, Current(s.tab)) || HasMishap(s, steps)
    decreases steps
  {
    if steps != [] {
      StepKeepsSystem(s, steps[0]);
      RevokedByMishap(s, steps[0]);
      RevokedIffMishap(Apply(s, steps[0]), steps[1..]);
    }
  }

  /**
   * A tab that starts with an unrevoked cookie drives the server into its
   * reuse branch if and only if a mishap came first; any number of concurrent
   * 401s alone never does.
   */
  lemma ReuseIffMishap(jar: Option<Token>, store: Store, steps: seq<Step>, i: nat, draw: Draw)
    requires !Revoked(store, jar)
    requires ValidRun(System(NewTab(jar), store), steps)
    requires Enabled(Exec(System(NewTab(jar), store), steps), Serves(i, draw))
    ensures var s := Exec(System(NewTab(jar), store), steps);
      Serve(s.store, Refresh(s.tab.wire[i].cookie), draw).1 == ReuseDetected
      <==> HasMishap(System(NewTab(jar), store), steps)
  {
    var s0 := System(NewTab(jar), store);
    RevokedIffMishap(s0, steps);
    ReuseIffRevoked(Exec(s0, steps), i, draw);
  }
}
