/**
 * How every doFetch of a tab comes out
 * (frontend/src/lib/api/client.ts:89-114), told by what the network did: the
 * answers each call got, the refresh each 401 waited for, and how that ended.
 */
module RefreshCalls {
  import opened Prelude
  import opened TokenServer
  import opened RefreshClient

  /**
   * The network's side of a run: per call its answers so far, whether it was
   * allowed a retry, and the flight its 401 waited for; the flights that have
   * ended, and those of them that brought a readable success.
   */
  datatype History = History(answers: map<CallId, seq<bool>>, allowed: map<CallId, bool>,
                             joined: map<CallId, FlightId>, ended: set<FlightId>, won: set<FlightId>)

  const NOTHING_YET := History(map[], map[], map[], {}, {})

  /** A first 401 of a call that may retry waits for the flight in progress, or for the next one. */
  predicate Joins(h: History, id: CallId, unauthorized: bool) {
    unauthorized && id in h.answers && h.answers[id] == [] && id in h.allowed && h.allowed[id]
  }

  function Record(h: History, s: System, step: Step): History
    requires Enabled(s, step)
  {
    match step
    case Start(id, withRetry) => h.(answers := h.answers[id := []], allowed := h.allowed[id := withRetry])
    case Answer(id, unauthorized) =>
      var joined := if Joins(h, id, unauthorized)
                    then h.joined[id := if s.tab.inFlight.Some? then s.tab.inFlight.value else s.tab.started]
                    else h.joined;
      var before := if id in h.answers then h.answers[id] else [];
      h.(answers := h.answers[id := before + [unauthorized]], joined := joined)
    case Deliver(i, readable) =>
      var m := s.tab.wire[i];
      h.(ended := h.ended + {m.flight}, won := h.won + if m.reply.Issued? && readable then {m.flight} else {})
    case Lose(i) => h.(ended := h.ended + {s.tab.wire[i].flight})
    case _ => h
  }

  function HistoryOf(h: History, s: System, steps: seq<Step>): History
    requires ValidRun(s, steps)
    decreases steps
  {
    if steps == [] then h else HistoryOf(Record(h, s, steps[0]), Apply(s, steps[0]), steps[1..])
  }

  /** What the tab knows of its flights is what happened to them. */
  ghost predicate FlightsFit(t: TabState, h: History) {
    && t.settled.Keys == h.ended && h.won <= h.ended
    && (forall f :: f in h.ended ==> f < t.started && (t.settled[f] <==> f in h.won))
    && (t.inFlight.Some? ==> t.inFlight.value < t.started)
    && (|t.wire| == 1 ==> t.wire[0].flight !in h.ended)
  }

  /** Where a call stands, told by its history. */
  ghost predicate CallFits(t: TabState, h: History, id: CallId)
    requires id in t.calls
  {
    var c := t.calls[id];
    && id in h.answers && id in h.allowed
    && (id in h.joined <==> h.allowed[id] && h.answers[id] != [] && h.answers[id][0])
    && (match c.phase
        case AwaitingReply => h.answers[id] == [] && c.sends == 1 && c.withRetry == h.allowed[id]
        case AwaitingRefresh(f) => h.answers[id] == [true] && c.sends == 1 && id in h.joined && f == h.joined[id]
        case AwaitingRetry =>
          && !c.withRetry && c.sends == 2
          && h.answers[id] == [true] && id in h.joined && h.joined[id] in h.won
        case Done(unauthorized) =>
          && |h.answers[id]| == c.sends && 1 <= c.sends <= 2
          && unauthorized == h.answers[id][c.sends - 1]
          && (id in h.joined ==> h.joined[id] in h.ended)
          && (c.sends == 2 <==> id in h.joined && h.joined[id] in h.won))
  }

  ghost predicate Fits(s: System, h: History) {
    && TabOk(s.tab) && FlightsFit(s.tab, h) && h.joined.Keys <= s.tab.calls.Keys
    && forall id {:trigger CallFits(s.tab, h, id)} :: id in s.tab.calls ==> CallFits(s.tab, h, id)
  }

  lemma StepFlights(s: System, h: History, step: Step)
    requires Enabled(s, step) && Fits(s, h)
    ensures FlightsFit(Apply(s, step).tab, Record(h, s, step))
  {
  }

  lemma CallsUntouched(t: TabState, h: History, t': TabState, h': History)
    requires t'.calls == t.calls
    requires h'.answers == h.answers && h'.allowed == h.allowed && h'.joined == h.joined
    requires h.ended <= h'.ended && h.won <= h'.won && (forall f :: f in h.ended && f in h'.won ==> f in h.won)
    requires forall id {:trigger CallFits(t, h, id)} :: id in t.calls ==> CallFits(t, h, id)
    ensures forall id {:trigger CallFits(t', h', id)} :: id in t'.calls ==> CallFits(t', h', id)
  {
    forall id | id in t'.calls ensures CallFits(t', h', id) {
      assert CallFits(t, h, id);
    }
  }

  /** The maps differ at one key at most. */
  ghost predicate SameBut<T>(m: map<CallId, T>, m': map<CallId, T>, id: CallId) {
    m' == m || (id in m' && m' == m[id := m'[id]])
  }

  lemma SameElsewhere<T>(m: map<CallId, T>, m': map<CallId, T>, id: CallId, k: CallId)
    requires SameBut(m, m', id) && k != id
    ensures k in m' <==> k in m
    ensures k in m ==> m'[k] == m[k]
  {
  }

  lemma OneCall(t: TabState, h: History, t': TabState, h': History, id: CallId)
    requires id in t'.calls && CallFits(t', h', id)
    requires SameBut(t.calls, t'.calls, id) && SameBut(h.answers, h'.answers, id)
    requires SameBut(h.allowed, h'.allowed, id) && SameBut(h.joined, h'.joined, id)
    requires h'.ended == h.ended && h'.won == h.won
    requires forall k {:trigger CallFits(t, h, k)} :: k in t.calls ==> CallFits(t, h, k)
    ensures forall k {:trigger CallFits(t', h', k)} :: k in t'.calls ==> CallFits(t', h', k)
  {
    forall k | k in t'.calls ensures CallFits(t', h', k) {
      if k != id {
        SameElsewhere(t.calls, t'.calls, id, k);
        SameElsewhere(h.answers, h'.answers, id, k);
        SameElsewhere(h.allowed, h'.allowed, id, k);
        SameElsewhere(h.joined, h'.joined, id, k);
        assert CallFits(t, h, k);
      }
    }
  }

  lemma StartFits(s: System, h: History, id: CallId, withRetry: bool)
    requires Enabled(s, Start(id, withRetry)) && Fits(s, h)
    ensures CallFits(Apply(s, Start(id, withRetry)).tab, Record(h, s, Start(id, withRetry)), id)
  {
  }

  lemma AnswerFits(s: System, h: History, id: CallId, unauthorized: bool)
    requires Enabled(s, Answer(id, unauthorized)) && Fits(s, h)
    ensures CallFits(Apply(s, Answer(id, unauthorized)).tab, Record(h, s, Answer(id, unauthorized)), id)
  {
    assert CallFits(s.tab, h, id);
  }

  lemma WakeFits(s: System, h: History, id: CallId)
    requires Enabled(s, Wake(id)) && Fits(s, h)
    ensures CallFits(Apply(s, Wake(id)).tab, h, id)
  {
    assert CallFits(s.tab, h, id);
  }

  lemma OnlyThatCall(s: System, h: History, step: Step, id: CallId)
    requires Enabled(s, step)
    requires (step.Start? && step.id == id) || (step.Answer? && step.id == id) || (step.Wake? && step.id == id)
    ensures var t, t', h' := s.tab, Apply(s, step).tab, Record(h, s, step);
      && SameBut(t.calls, t'.calls, id) && SameBut(h.answers, h'.answers, id)
      && SameBut(h.allowed, h'.allowed, id) && SameBut(h.joined, h'.joined, id)
      && h'.ended == h.ended && h'.won == h.won && id in t'.calls
  {
    var t', h' := Apply(s, step).tab, Record(h, s, step);
    assert t'.calls == s.tab.calls[id := t'.calls[id]];
    assert step.Start? || step.Answer? ==> h'.answers == h.answers[id := h'.answers[id]];
    assert step.Start? ==> h'.allowed == h.allowed[id := step.withRetry];
    assert step.Answer? && h'.joined != h.joined ==> h'.joined == h.joined[id := h'.joined[id]];
  }

  lemma CallStepFits(s: System, h: History, step: Step)
    requires Enabled(s, step) && Fits(s, h) && (step.Start? || step.Answer? || step.Wake?)
    ensures forall id {:trigger CallFits(Apply(s, step).tab, Record(h, s, step), id)} ::
      id in Apply(s, step).tab.calls ==> CallFits(Apply(s, step).tab, Record(h, s, step), id)
  {
    match step {
      case Start(id, withRetry) => StartFits(s, h, id, withRetry);
      case Answer(id, unauthorized) => AnswerFits(s, h, id, unauthorized);
      case Wake(id) => WakeFits(s, h, id);
    }
    OnlyThatCall(s, h, step, step.id);
    OneCall(s.tab, h, Apply(s, step).tab, Record(h, s, step), step.id);
  }

  lemma OtherStepFits(s: System, h: History, step: Step)
    requires Enabled(s, step) && Fits(s, h) && !(step.Start? || step.Answer? || step.Wake?)
    ensures forall id {:trigger CallFits(Apply(s, step).tab, Record(h, s, step), id)} ::
      id in Apply(s, step).tab.calls ==> CallFits(Apply(s, step).tab, Record(h, s, step), id)
  {
    CallsUntouched(s.tab, h, Apply(s, step).tab, Record(h, s, step));
  }

  lemma StepFits(s: System, h: History, step: Step)
    requires Enabled(s, step) && Fits(s, h)
    ensures Fits(Apply(s, step), Record(h, s, step))
  {
    StepKeepsTab(s, step);
    StepFlights(s, h, step);
    if step.Start? || step.Answer? || step.Wake? {
      CallStepFits(s, h, step);
    } else {
      OtherStepFits(s, h, step);
    }
  }

  lemma {:induction false} RunFits(s: System, h: History, steps: seq<Step>)
    requires ValidRun(s, steps) && Fits(s, h)
    ensures Fits(Exec(s, steps), HistoryOf(h, s, steps))
    decreases steps
  {
    if steps != [] {
      StepFits(s, h, steps[0]);
      RunFits(Apply(s, steps[0]), Record(h, s, steps[0]), steps[1..]);
    }
  }

  /**
   * In every run of a new tab, a call's second send happens if and only if the
   * flight its 401 waited for ended in a delivered, readable success, and the
   * call has noticed. A call that finished reports the answer to its last
   * request; one whose 401 waited for a flight that ended otherwise gave up
   * with that 401, after one send.
   */
  lemma CallOutcomes(jar: Option<Token>, store: Store, steps: seq<Step>, id: CallId)
    requires ValidRun(System(NewTab(jar), store), steps)
    requires id in Exec(System(NewTab(jar), store), steps).tab.calls
    ensures var t := Exec(System(NewTab(jar), store), steps).tab;
      var h := HistoryOf(NOTHING_YET, System(NewTab(jar), store), steps);
      var c := t.calls[id];
      && id in h.answers && id in h.allowed
      && (id in h.joined <==> h.allowed[id] && h.answers[id] != [] && h.answers[id][0])
      && (c.phase.AwaitingRefresh? ==> c.sends == 1 && id in h.joined && c.phase.flight == h.joined[id])
      && (c.phase.AwaitingRetry? ==> !c.withRetry)
      && (!c.phase.AwaitingRefresh? ==> (c.sends == 2 <==> id in h.joined && h.joined[id] in h.won))
      && (c.phase.Done? ==> |h.answers[id]| == c.sends > 0 && c.phase.unauthorized == h.answers[id][c.sends - 1])
      && (!c.phase.AwaitingRefresh? && id in h.joined && h.joined[id] !in h.won ==>
            c.phase == Done(true) && c.sends == 1 && h.joined[id] in h.ended)
  {
    var s := System(NewTab(jar), store);
    RunFits(s, NOTHING_YET, steps);
    assert CallFits(Exec(s, steps).tab, HistoryOf(NOTHING_YET, s, steps), id);
  }

  /** A waiting call whose flight has ended can go on, and then sends again exactly if the flight was won. */
  lemma WaitingCallGoesOn(jar: Option<Token>, store: Store, steps: seq<Step>, id: CallId)
    requires ValidRun(System(NewTab(jar), store), steps)
    requires var t := Exec(System(NewTab(jar), store), steps).tab; id in t.calls && t.calls[id].phase.AwaitingRefresh?
    ensures var s := Exec(System(NewTab(jar), store), steps);
      var h := HistoryOf(NOTHING_YET, System(NewTab(jar), store), steps);
      && id in h.joined && (h.joined[id] in h.ended <==> Enabled(s, Wake(id)))
      && (Enabled(s, Wake(id)) ==>
            var c := Apply(s, Wake(id)).tab.calls[id];
            if h.joined[id] in h.won then c.phase == AwaitingRetry && c.sends == 2
            else c.phase == Done(true) && c.sends == 1)
  {
    var s := System(NewTab(jar), store);
    RunFits(s, NOTHING_YET, steps);
    assert CallFits(Exec(s, steps).tab, HistoryOf(NOTHING_YET, s, steps), id);
  }

  /**
   * What may happen next: any new call starts, a call that waits for an answer
   * gets either, a request under way is served or lost, a reply is delivered,
   * readable or not, or lost, a timer fires, anyone else is served.
   */
  lemma AnythingMayHappen(s: System, id: CallId, b: bool, i: nat, draw: Draw, req: Request)
    ensures id !in s.tab.calls ==> Enabled(s, Start(id, b))
    ensures id in s.tab.calls && (s.tab.calls[id].phase.AwaitingReply? || s.tab.calls[id].phase.AwaitingRetry?) ==>
      Enabled(s, Answer(id, b))
    ensures i < |s.tab.wire| ==> Enabled(s, Lose(i))
    ensures i < |s.tab.wire| && s.tab.wire[i].RefreshReply? ==> Enabled(s, Deliver(i, b))
    ensures i < |s.tab.wire| && s.tab.wire[i].RefreshRequest? && draw.minted !in s.store.rows ==>
      Enabled(s, Serves(i, draw))
    ensures i < |s.tab.timers| ==> Enabled(s, Tick(i))
    ensures draw.minted !in s.store.rows ==> Enabled(s, Other(req, draw))
  {
  }

  /** Exactly a first 401 that may retry, met while no refresh is in progress, sends one, with the jar's cookie. */
  lemma RefreshIsSent(s: System, id: CallId, unauthorized: bool)
    requires Enabled(s, Answer(id, unauthorized))
    ensures var t, t' := s.tab, Apply(s, Answer(id, unauthorized)).tab;
      t'.wire ==
        if unauthorized && t.calls[id].phase.AwaitingReply? && t.calls[id].withRetry && t.inFlight.None?
        then t.wire + [RefreshRequest(t.started, t.jar)] else t.wire
  {
  }
}
