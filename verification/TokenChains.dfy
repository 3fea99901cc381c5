/**
 * Every serial run of the token endpoints: each login starts a chain, each
 * accepted refresh adds to the chain of the token it consumed
 * (backend/app/api/auth.py:1-11, 515-559).
 */
module TokenChains {
  import opened Prelude
  import opened TokenServer

  /**
   * The store, and the history of issuing: the login each token descends
   * from, counted from 0, and the last token issued in each login's chain.
   */
  datatype World = World(store: Store, origin: map<Token, nat>, newest: seq<Token>)

  datatype Event =
    | Call(req: Request, draw: Draw)
    | SetActive(user: UserId, on: bool)

  const START := World(Store(map[], map[]), map[], [])

  function ReplyTo(w: World, e: Event): Option<Reply> {
    if e.Call? then Some(Serve(w.store, e.req, e.draw).1) else None
  }

  function Apply(w: World, e: Event): World {
    match e
    case SetActive(user, on) => w.(store := w.store.(active := w.store.active[user := on]))
    case Call(req, draw) =>
      var (store, reply) := Serve(w.store, req, draw);
      if !reply.Issued? then w.(store := store)
      // The consumed token always has an origin; see TokenOk.
      else if req.Refresh? && req.cookie.Some? && req.cookie.value in w.origin
              && w.origin[req.cookie.value] < |w.newest| then
        var login := w.origin[req.cookie.value];
        World(store, w.origin[reply.token := login], w.newest[login := reply.token])
      else World(store, w.origin[reply.token := |w.newest|], w.newest + [reply.token])
  }

  /** Freshly drawn tokens are distinct from all earlier ones. */
  predicate Fresh(w: World, e: Event) {
    e.Call? ==> e.draw.minted !in w.store.rows
  }

  predicate ValidRun(w: World, es: seq<Event>)
    decreases es
  {
    es == [] || (Fresh(w, es[0]) && ValidRun(Apply(w, es[0]), es[1..]))
  }

  function Exec(w: World, es: seq<Event>): World
    decreases es
  {
    if es == [] then w else Exec(Apply(w, es[0]), es[1..])
  }

  predicate Live(s: Store, t: Token) {
    t in s.rows && s.rows[t].revokedAt.None?
  }

  predicate Accepts(w: World, e: Event, t: Token) {
    e.Call? && e.req == Refresh(Some(t)) && ReplyTo(w, e) == Some(Issued(e.draw.minted))
  }

  // ---- chains ----------------------------------------------------------------

  ghost predicate TokenOk(w: World, t: Token)
    requires t in w.store.rows
  {
    && t in w.origin && w.origin[t] < |w.newest|
    && w.newest[w.origin[t]] in w.store.rows
    && w.store.rows[w.newest[w.origin[t]]].user == w.store.rows[t].user
    && (Live(w.store, t) ==> t == w.newest[w.origin[t]])
  }

  /**
   * Every token descends from a login of its owner, and only the last token
   * of a chain may be live.
   */
  ghost predicate ChainsOk(w: World) {
    forall t {:trigger TokenOk(w, t)} :: t in w.store.rows ==> TokenOk(w, t)
  }

  /** Rows are never dropped, and what is revoked stays as it was revoked. */
  ghost predicate Ages(s: Store, s': Store) {
    forall t :: t in s.rows ==>
      && t in s'.rows
      && s'.rows[t].user == s.rows[t].user
      && s'.rows[t].expiresAt == s.rows[t].expiresAt
      && (s.rows[t].revokedAt.Some? ==> s'.rows[t] == s.rows[t])
  }

  lemma RevokedAge(s: Store, user: UserId, now: int)
    ensures Ages(s, s.(rows := RevokeAll(s.rows, user, now)))
  {
  }

  lemma RefreshAges(s: Store, t: Token, d: Draw)
    requires d.minted !in s.rows && t in s.rows
    ensures Ages(s, Serve(s, Refresh(Some(t)), d).0)
  {
    RevokedAge(s, s.rows[t].user, d.now);
  }

  lemma ServingAges(s: Store, req: Request, d: Draw)
    requires d.minted !in s.rows
    ensures Ages(s, Serve(s, req, d).0)
  {
    match req {
      case LogoutAll(user) => RevokedAge(s, user, d.now);
      case Refresh(Some(t)) =>
        if t in s.rows {
          RefreshAges(s, t, d);
        }
      case _ =>
    }
  }

  lemma StepAges(w: World, e: Event)
    requires Fresh(w, e)
    ensures Ages(w.store, Apply(w, e).store)
  {
    if e.Call? {
      ServingAges(w.store, e.req, e.draw);
    }
  }

  /** No token issued. */
  lemma AgingKeepsChains(w: World, w': World)
    requires ChainsOk(w) && Ages(w.store, w'.store) && w'.store.rows.Keys == w.store.rows.Keys
    requires w'.origin == w.origin && w'.newest == w.newest
    ensures ChainsOk(w')
  {
    forall t | t in w'.store.rows ensures TokenOk(w', t) {
      assert TokenOk(w, t);
    }
  }

  /** A login issued m as the first token of a new chain. */
  lemma LoginKeepsChains(w: World, w': World, m: Token)
    requires ChainsOk(w) && Ages(w.store, w'.store) && m !in w.store.rows
    requires w'.store.rows.Keys == w.store.rows.Keys + {m}
    requires w'.origin == w.origin[m := |w.newest|] && w'.newest == w.newest + [m]
    ensures ChainsOk(w')
  {
    forall t | t in w'.store.rows ensures TokenOk(w', t) {
      if t != m {
        assert TokenOk(w, t);
      }
    }
  }

  /** A refresh consumed a live token and issued m in the same chain. */
  lemma RefreshKeepsChains(w: World, w': World, used: Token, m: Token)
    requires ChainsOk(w) && Ages(w.store, w'.store) && m !in w.store.rows
    requires Live(w.store, used) && used in w'.store.rows && !Live(w'.store, used)
    requires w'.store.rows.Keys == w.store.rows.Keys + {m}
    requires w'.store.rows[m].user == w.store.rows[used].user
    requires used in w.origin && w.origin[used] < |w.newest|
    requires w'.origin == w.origin[m := w.origin[used]] && w'.newest == w.newest[w.origin[used] := m]
    ensures ChainsOk(w')
  {
    assert TokenOk(w, used);
    forall t | t in w'.store.rows ensures TokenOk(w', t) {
      if t != m {
        assert TokenOk(w, t);
      }
    }
  }

  lemma StepKeepsChains(w: World, e: Event)
    requires ChainsOk(w) && Fresh(w, e)
    ensures ChainsOk(Apply(w, e))
  {
    var w' := Apply(w, e);
    StepAges(w, e);
    StepKeys(w, e);
    if e.SetActive? || !ReplyTo(w, e).value.Issued? {
      AgingKeepsChains(w, w');
    } else if e.req.Refresh? {
      assert TokenOk(w, e.req.cookie.value);
      RefreshKeepsChains(w, w', e.req.cookie.value, e.draw.minted);
    } else {
      LoginKeepsChains(w, w', e.draw.minted);
    }
  }

  lemma StepKeys(w: World, e: Event)
    requires Fresh(w, e)
    ensures Apply(w, e).store.rows.Keys ==
      if e.Call? && ReplyTo(w, e).value.Issued? then w.store.rows.Keys + {e.draw.minted} else w.store.rows.Keys
  {
  }

  lemma {:induction false} RunKeepsChains(w: World, es: seq<Event>)
    requires ChainsOk(w) && ValidRun(w, es)
    ensures ChainsOk(Exec(w, es))
    decreases es
  {
    if es != [] {
      StepKeepsChains(w, es[0]);
      RunKeepsChains(Apply(w, es[0]), es[1..]);
    }
  }

  /**
   * In every run, of the tokens that descend from one login at most one is
   * unrevoked, and it is the one issued last.
   */
  lemma OnlyTheNewestIsLive(es: seq<Event>, t: Token, u: Token)
    requires ValidRun(START, es)
    requires var w := Exec(START, es); t in w.store.rows && Live(w.store, t) && u in w.store.rows
    ensures var w := Exec(START, es);
      && t in w.origin && u in w.origin && w.origin[t] < |w.newest|
      && t == w.newest[w.origin[t]]
      && (w.origin[u] == w.origin[t] ==>
            && w.store.rows[u].user == w.store.rows[t].user
            && (Live(w.store, u) ==> u == t))
  {
    RunKeepsChains(START, es);
    var w := Exec(START, es);
    assert TokenOk(w, t) && TokenOk(w, u);
  }

  // ---- revocation ------------------------------------------------------------

  lemma {:induction false} RunAges(w: World, es: seq<Event>)
    requires ValidRun(w, es)
    ensures Ages(w.store, Exec(w, es).store)
    decreases es
  {
    if es != [] {
      StepAges(w, es[0]);
      RunAges(Apply(w, es[0]), es[1..]);
    }
  }

  /** revoked_at is written once: no later request changes it or revives the token. */
  lemma RevokedAtIsWriteOnce(w: World, es: seq<Event>, t: Token)
    requires ValidRun(w, es) && t in w.store.rows && w.store.rows[t].revokedAt.Some?
    ensures t in Exec(w, es).store.rows && Exec(w, es).store.rows[t].revokedAt == w.store.rows[t].revokedAt
  {
    RunAges(w, es);
  }

  lemma {:induction false} RunAppend(w: World, a: seq<Event>, b: seq<Event>)
    requires ValidRun(w, a + b)
    ensures ValidRun(w, a) && ValidRun(Exec(w, a), b)
    ensures Exec(w, a + b) == Exec(Exec(w, a), b)
    decreases a
  {
    if a == [] {
      assert a + b == b;
    } else {
      assert (a + b)[0] == a[0] && (a + b)[1..] == a[1..] + b;
      RunAppend(Apply(w, a[0]), a[1..], b);
    }
  }

  /** A refresh token is accepted at most once in a whole run. */
  lemma AcceptedAtMostOnce(before: seq<Event>, first: Event, between: seq<Event>, second: Event, t: Token)
    requires ValidRun(START, before + ([first] + (between + [second])))
    requires Accepts(Exec(START, before), first, t)
    ensures !Accepts(Exec(START, before + ([first] + between)), second, t)
  {
    var tail := between + [second];
    RunAppend(START, before, [first] + tail);
    var w0 := Exec(START, before);
    assert ([first] + tail)[0] == first && ([first] + tail)[1..] == tail;
    var w1 := Apply(w0, first);
    RunAppend(w1, between, [second]);
    assert w1.store.rows[t].revokedAt.Some?;
    RevokedAtIsWriteOnce(w1, between, t);
    assert before + ([first] + tail) == (before + ([first] + between)) + [second];
    RunAppend(START, before + ([first] + between), [second]);
    RunAppend(START, before, [first] + between);
    assert ([first] + between)[0] == first && ([first] + between)[1..] == between;
  }

  /** Exactly the live, unexpired tokens of active users are accepted. */
  lemma AcceptedIffUsable(w: World, e: Event, t: Token)
    requires e.Call? && e.req == Refresh(Some(t))
    ensures Accepts(w, e, t) <==>
      Live(w.store, t) && e.draw.now < w.store.rows[t].expiresAt && IsActive(w.store, w.store.rows[t].user)
    ensures Accepts(w, e, t) ==>
      var after := Apply(w, e).store.rows;
      && Live(Apply(w, e).store, e.draw.minted)
      && after[e.draw.minted].user == w.store.rows[t].user
      && (t != e.draw.minted ==> after[t].revokedAt == after[t].lastUsedAt == Some(e.draw.now))
  {
  }

  /** A token presented to logout is never accepted again. */
  lemma LogoutIsFinal(w: World, out: Event, es: seq<Event>, e: Event, t: Token)
    requires out.Call? && out.req == Logout(Some(t)) && t in w.store.rows
    requires ValidRun(Apply(w, out), es)
    ensures !Accepts(Exec(Apply(w, out), es), e, t)
  {
    RevokedAtIsWriteOnce(Apply(w, out), es, t);
  }

  /** Signing out everywhere leaves the user without a live token until the next login. */
  lemma LogoutAllIsFinal(w: World, out: Event, es: seq<Event>, user: UserId)
    requires out.Call? && out.req == LogoutAll(user) && IsActive(w.store, user)
    requires ValidRun(Apply(w, out), es) && NoLogin(es, user)
    ensures AllDead(Exec(Apply(w, out), es).store, user)
  {
    RunKeepsDead(Apply(w, out), es, user);
  }

  /** The user a request acts for: named by the login, or the owner of the presented token. */
  function Subject(s: Store, req: Request): Option<UserId> {
    match req
    case Login(user) => Some(user)
    case LogoutAll(user) => Some(user)
    case Refresh(cookie) =>
      if cookie.Some? && cookie.value in s.rows then Some(s.rows[cookie.value].user) else None
    case Logout(cookie) =>
      if cookie.Some? && cookie.value in s.rows then Some(s.rows[cookie.value].user) else None
  }

  /** A request touches no row of a user it does not act for, and adds none. */
  lemma UsersAreIsolated(w: World, e: Event, t: Token)
    requires Fresh(w, e) && e.Call?
    requires t in Apply(w, e).store.rows && Subject(w.store, e.req) != Some(Apply(w, e).store.rows[t].user)
    ensures t in w.store.rows && Apply(w, e).store.rows[t] == w.store.rows[t]
  {
  }

  // ---- reuse kill ------------------------------------------------------------

  ghost predicate AllDead(s: Store, user: UserId) {
    forall t :: t in s.rows && s.rows[t].user == user ==> s.rows[t].revokedAt.Some?
  }

  /** Presenting a revoked token leaves its user without a live one, although the request fails. */
  lemma ReuseKills(w: World, e: Event, t: Token)
    requires e.Call? && e.req == Refresh(Some(t)) && t in w.store.rows && w.store.rows[t].revokedAt.Some?
    ensures ReplyTo(w, e) == Some(ReuseDetected)
    ensures AllDead(Apply(w, e).store, w.store.rows[t].user)
  {
  }

  predicate NoLogin(es: seq<Event>, user: UserId) {
    forall i :: 0 <= i < |es| && es[i].Call? ==> es[i].req != Login(user)
  }

  lemma StepKeepsDead(w: World, e: Event, user: UserId)
    requires AllDead(w.store, user) && Fresh(w, e) && (e.Call? ==> e.req != Login(user))
    ensures AllDead(Apply(w, e).store, user)
    ensures e.Call? && e.req.Refresh? && Subject(w.store, e.req) == Some(user) ==> ReplyTo(w, e) == Some(ReuseDetected)
  {
  }

  lemma {:induction false} RunKeepsDead(w: World, es: seq<Event>, user: UserId)
    requires AllDead(w.store, user) && ValidRun(w, es) && NoLogin(es, user)
    ensures AllDead(Exec(w, es).store, user)
    decreases es
  {
    if es != [] {
      StepKeepsDead(w, es[0], user);
      RunKeepsDead(Apply(w, es[0]), es[1..], user);
    }
  }

  /**
   * After a replay the user has no live token, and every refresh with one of
   * the user's tokens is refused as another replay, until the user logs in.
   */
  lemma ReuseKillLasts(w: World, replay: Event, t: Token, es: seq<Event>, next: Event)
    requires replay.Call? && replay.req == Refresh(Some(t)) && t in w.store.rows && w.store.rows[t].revokedAt.Some?
    requires var user := w.store.rows[t].user;
      && ValidRun(w, [replay] + (es + [next])) && NoLogin(es, user)
      && next.Call? && next.req.Refresh?
      && Subject(Exec(Apply(w, replay), es).store, next.req) == Some(user)
    ensures AllDead(Exec(Apply(w, replay), es).store, w.store.rows[t].user)
    ensures ReplyTo(Exec(Apply(w, replay), es), next) == Some(ReuseDetected)
  {
    var user, tail := w.store.rows[t].user, es + [next];
    ReuseKills(w, replay, t);
    assert ([replay] + tail)[0] == replay && ([replay] + tail)[1..] == tail;
    RunAppend(Apply(w, replay), es, [next]);
    RunKeepsDead(Apply(w, replay), es, user);
    StepKeepsDead(Exec(Apply(w, replay), es), next, user);
  }

  // ---- the life of one token -------------------------------------------------

  /** The user a token is issued to: who logs in, or the owner of the token that is used up. */
  function Recipient(w: World, e: Event): Option<UserId> {
    if e.Call? then Subject(w.store, e.req) else None
  }

  /** A token is issued unrevoked and unused, to the right user, until the drawn instant. */
  lemma IssuedRow(w: World, e: Event)
    requires Fresh(w, e) && ReplyTo(w, e).Some? && ReplyTo(w, e).value.Issued?
    ensures ReplyTo(w, e).value.token == e.draw.minted && Recipient(w, e).Some?
    ensures e.draw.minted in Apply(w, e).store.rows
    ensures var row := Apply(w, e).store.rows[e.draw.minted];
      && row.user == Recipient(w, e).value && row.expiresAt == e.draw.mintedExpiry
      && row.revokedAt == None && row.lastUsedAt == None
  {
  }

  /**
   * What a later refresh with an issued token is answered, in every run: if it
   * was revoked, as a replay; from the instant drawn at its issue on, as
   * expired; before that it is accepted if and only if its user is active.
   */
  lemma IssuedTokenLifetime(w: World, issue: Event, es: seq<Event>, next: Event)
    requires Fresh(w, issue) && ReplyTo(w, issue).Some? && ReplyTo(w, issue).value.Issued?
    requires ValidRun(Apply(w, issue), es)
    requires next.Call? && next.req == Refresh(Some(issue.draw.minted))
    ensures Recipient(w, issue).Some?
    ensures var t, v := issue.draw.minted, Exec(Apply(w, issue), es);
      && t in v.store.rows && v.store.rows[t].user == Recipient(w, issue).value
      && ReplyTo(v, next) == Some(
           if v.store.rows[t].revokedAt.Some? then ReuseDetected
           else if issue.draw.mintedExpiry <= next.draw.now then Expired
           else if !IsActive(v.store, Recipient(w, issue).value) then Inactive
           else Issued(next.draw.minted))
      && (v.store.rows[t].revokedAt.None? ==>
            (Accepts(v, next, t) <==>
              next.draw.now < issue.draw.mintedExpiry && IsActive(v.store, Recipient(w, issue).value)))
  {
    IssuedRow(w, issue);
    RunAges(Apply(w, issue), es);
  }

  /** Revoking a user's tokens stamps those that were live with the instant of the request, and no others. */
  lemma SweepStamps(w: World, e: Event, t: Token)
    requires e.Call? && t in w.store.rows
    requires (e.req.LogoutAll? && IsActive(w.store, e.req.user))
      || (e.req.Refresh? && e.req.cookie.Some? && e.req.cookie.value in w.store.rows
          && w.store.rows[e.req.cookie.value].revokedAt.Some?)
    ensures t in Apply(w, e).store.rows && Apply(w, e).store.rows.Keys == w.store.rows.Keys
    ensures var row, row' := w.store.rows[t], Apply(w, e).store.rows[t];
      var hit := Subject(w.store, e.req) == Some(row.user) && row.revokedAt.None?;
      row' == Row(row.user, row.expiresAt, if hit then Some(e.draw.now) else row.revokedAt, row.lastUsedAt)
  {
  }

  /** A refresh that does not rotate and is no replay, or a logout, stamps at most the presented token. */
  lemma OneStamped(w: World, e: Event, t: Token)
    requires e.Call? && t in w.store.rows && e.req.Refresh? && !ReplyTo(w, e).value.Issued?
    requires !ReplyTo(w, e).value.ReuseDetected?
    ensures Apply(w, e).store.rows.Keys == w.store.rows.Keys
    ensures var row, row' := w.store.rows[t], Apply(w, e).store.rows[t];
      var hit := e.req.cookie == Some(t) && row.revokedAt.None? && row.expiresAt <= e.draw.now;
      row' == Row(row.user, row.expiresAt, if hit then Some(e.draw.now) else row.revokedAt, row.lastUsedAt)
  {
  }

  /** A rotation stamps the token it uses up, as revoked and as used, and no other. */
  lemma RotationStamps(w: World, e: Event, used: Token, t: Token)
    requires Fresh(w, e) && Accepts(w, e, used) && t in w.store.rows
    ensures Apply(w, e).store.rows.Keys == w.store.rows.Keys + {e.draw.minted}
    ensures var row, row' := w.store.rows[t], Apply(w, e).store.rows[t];
      row' == if t == used then Row(row.user, row.expiresAt, Some(e.draw.now), Some(e.draw.now)) else row
  {
  }

  /** A logout stamps the presented token if it was live, says whether it did, and changes nothing else. */
  lemma LogoutStamps(w: World, e: Event, t: Token)
    requires e.Call? && e.req.Logout? && t in w.store.rows
    ensures Apply(w, e).store.rows.Keys == w.store.rows.Keys
    ensures var row, row' := w.store.rows[t], Apply(w, e).store.rows[t];
      var hit := e.req.cookie == Some(t) && row.revokedAt.None?;
      && row' == Row(row.user, row.expiresAt, if hit then Some(e.draw.now) else row.revokedAt, row.lastUsedAt)
      && (e.req.cookie == Some(t) ==> ReplyTo(w, e) == Some(LoggedOut(row.revokedAt.None?)))
  {
  }

  /** Cookies that name no token, and users who are not active. */
  lemma RefusedWithoutEffect(w: World, e: Event)
    requires e.Call?
    ensures e.req == Refresh(None) ==> ReplyTo(w, e) == Some(MissingToken) && Apply(w, e) == w
    ensures e.req.Refresh? && e.req.cookie.Some? && e.req.cookie.value !in w.store.rows ==>
      ReplyTo(w, e) == Some(UnknownToken) && Apply(w, e) == w
    ensures e.req.Logout? && (e.req.cookie.None? || e.req.cookie.value !in w.store.rows) ==>
      ReplyTo(w, e) == Some(LoggedOut(false)) && Apply(w, e) == w
    ensures e.req.Login? || e.req.LogoutAll? ==>
      (ReplyTo(w, e) == Some(Inactive) <==> !(e.req.user in w.store.active && w.store.active[e.req.user]))
      && (ReplyTo(w, e) == Some(Inactive) ==> Apply(w, e) == w)
  {
  }

  /** Whether a user is active, told by what was set last; requests do not change it. */
  function LastSet(es: seq<Event>, user: UserId, was: bool): bool {
    if es == [] then was
    else LastSet(es[1..], user, if es[0].SetActive? && es[0].user == user then es[0].on else was)
  }

  lemma {:induction false} ActiveIsLastSet(w: World, es: seq<Event>, user: UserId)
    ensures IsActive(Exec(w, es).store, user) <==> LastSet(es, user, user in w.store.active && w.store.active[user])
    decreases es
  {
    if es != [] {
      ActiveIsLastSet(Apply(w, es[0]), es[1..], user);
    }
  }

  /** Switching a user on or off leaves the tokens as they are. */
  lemma SwitchKeepsTokens(w: World, user: UserId, on: bool)
    ensures Apply(w, SetActive(user, on)).store.rows == w.store.rows
    ensures Apply(w, SetActive(user, on)).origin == w.origin && Apply(w, SetActive(user, on)).newest == w.newest
  {
  }

  /** In every run, a login starts a chain, and a rotation continues the chain of the token it uses up. */
  lemma ChainsGrow(es: seq<Event>, e: Event)
    requires ValidRun(START, es) && Fresh(Exec(START, es), e)
    requires ReplyTo(Exec(START, es), e).Some? && ReplyTo(Exec(START, es), e).value.Issued?
    ensures var w, w' := Exec(START, es), Apply(Exec(START, es), e);
      && e.draw.minted in w'.origin && w'.origin[e.draw.minted] < |w'.newest|
      && w'.newest[w'.origin[e.draw.minted]] == e.draw.minted
      && (e.req.Login? ==> w'.origin[e.draw.minted] == |w.newest| && |w'.newest| == |w.newest| + 1)
      && (e.req.Refresh? ==>
            && e.req.cookie.Some? && e.req.cookie.value in w.origin
            && w'.origin[e.draw.minted] == w.origin[e.req.cookie.value] && |w'.newest| == |w.newest|)
      && (forall t :: t in w.origin && t != e.draw.minted ==> t in w'.origin && w'.origin[t] == w.origin[t])
  {
    RunKeepsChains(START, es);
    var w := Exec(START, es);
    if e.req.Refresh? {
      assert TokenOk(w, e.req.cookie.value);
    }
  }
}
