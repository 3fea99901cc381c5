/**
 * Refresh-token rotation with reuse detection (backend/app/api/auth.py:122-148,
 * 489-491, 515-559, 584-594, 624-630). Requests are served one at a time; SHA-256 of a
 * token is taken as injective, so rows are keyed by the token itself.
 */
module TokenServer {
  import opened Prelude

  type UserId = nat
  type Token = nat

  datatype Row = Row(user: UserId, expiresAt: int, revokedAt: Option<int>, lastUsedAt: Option<int>)

  /** refresh_tokens, and users.is_active of the users that exist. */
  datatype Store = Store(rows: map<Token, Row>, active: map<UserId, bool>)

  datatype Request =
    | Login(user: UserId)
    | Refresh(cookie: Option<Token>)
    | Logout(cookie: Option<Token>)
    | LogoutAll(user: UserId)

  datatype Reply =
    | Issued(token: Token)
    | MissingToken
    | UnknownToken
    | ReuseDetected
    | Expired
    | Inactive
    | LoggedOut(revoked: bool)
    | AllRevoked

  /** What a request draws from the clock and the random generator. */
  datatype Draw = Draw(now: int, minted: Token, mintedExpiry: int)

  predicate IsActive(s: Store, user: UserId) {
    user in s.active && s.active[user]
  }

  function RevokeAll(rows: map<Token, Row>, user: UserId, now: int): map<Token, Row> {
    map t | t in rows ::
      if rows[t].user == user && rows[t].revokedAt.None? then rows[t].(revokedAt := Some(now)) else rows[t]
  }

  function Issue(rows: map<Token, Row>, user: UserId, d: Draw): map<Token, Row> {
    rows[d.minted := Row(user, d.mintedExpiry, None, None)]
  }

  /** The store a request leaves and the reply it gets. */
  function Serve(s: Store, req: Request, d: Draw): (Store, Reply) {
    match req
    case Login(user) =>
      if IsActive(s, user) then (s.(rows := Issue(s.rows, user, d)), Issued(d.minted)) else (s, Inactive)
    case Refresh(cookie) =>
      if cookie.None? then (s, MissingToken)
      else if cookie.value !in s.rows then (s, UnknownToken)
      else
        var t, row := cookie.value, s.rows[cookie.value];
        if row.revokedAt.Some? then (s.(rows := RevokeAll(s.rows, row.user, d.now)), ReuseDetected)
        else if row.expiresAt <= d.now then
          (s.(rows := s.rows[t := row.(revokedAt := Some(d.now))]), Expired)
        else if !IsActive(s, row.user) then (s, Inactive)
        else
          var used := s.rows[t := row.(revokedAt := Some(d.now), lastUsedAt := Some(d.now))];
          (s.(rows := Issue(used, row.user, d)), Issued(d.minted))
    case Logout(cookie) =>
      if cookie.Some? && cookie.value in s.rows && s.rows[cookie.value].revokedAt.None? then
        (s.(rows := s.rows[cookie.value := s.rows[cookie.value].(revokedAt := Some(d.now))]), LoggedOut(true))
      else (s, LoggedOut(false))
    case LogoutAll(user) =>
      if IsActive(s, user) then (s.(rows := RevokeAll(s.rows, user, d.now)), AllRevoked) else (s, Inactive)
  }

  /** The endpoints over one request-scoped session, which get_session commits even when they raise. */
  class AuthApi {
    var committed: Store
    var working: Store

    constructor (s: Store)
      ensures committed == working == s
    {
      committed, working := s, s;
    }

    method IssueTokens(user: UserId, d: Draw) returns (token: Token)
      modifies this`working
      ensures working == old(working).(rows := Issue(old(working).rows, user, d)) && token == d.minted
    {
      working := working.(rows := working.rows[d.minted := Row(user, d.mintedExpiry, None, None)]);
      token := d.minted;
    }

    method RefreshHandler(cookie: Option<Token>, d: Draw) returns (reply: Reply)
      modifies this`working
      ensures (working, reply) == Serve(old(working), Refresh(cookie), d)
    {
      if cookie.None? {
        return MissingToken;
      }
      var t := cookie.value;
      if t !in working.rows {
        return UnknownToken;
      }
      var row := working.rows[t];
      if row.revokedAt.Some? {
        working := working.(rows := RevokeAll(working.rows, row.user, d.now));
        return ReuseDetected;
      }
      if row.expiresAt <= d.now {
        working := working.(rows := working.rows[t := row.(revokedAt := Some(d.now))]);
        return Expired;
      }
      if !IsActive(working, row.user) {
        return Inactive;
      }
      working := working.(rows := working.rows[t := row.(revokedAt := Some(d.now), lastUsedAt := Some(d.now))]);
      var token := IssueTokens(row.user, d);
      reply := Issued(token);
    }

    method LogoutHandler(cookie: Option<Token>, d: Draw) returns (reply: Reply)
      modifies this`working
      ensures (working, reply) == Serve(old(working), Logout(cookie), d)
    {
      var revoked := false;
      if cookie.Some? && cookie.value in working.rows {
        var row := working.rows[cookie.value];
        if row.revokedAt.None? {
          working := working.(rows := working.rows[cookie.value := row.(revokedAt := Some(d.now))]);
          revoked := true;
        }
      }
      reply := LoggedOut(revoked);
    }

    /** One request: its writes are committed whether it returns or raises. */
    method Handle(req: Request, d: Draw) returns (reply: Reply)
      modifies this
      ensures (committed, reply) == Serve(old(committed), req, d)
    {
      working := committed;
      match req {
        case Login(user) =>
          if IsActive(working, user) {
            var token := IssueTokens(user, d);
            reply := Issued(token);
          } else {
            reply := Inactive;
          }
        case Refresh(cookie) => reply := RefreshHandler(cookie, d);
        case Logout(cookie) => reply := LogoutHandler(cookie, d);
        case LogoutAll(user) =>
          if IsActive(working, user) {
            working := working.(rows := RevokeAll(working.rows, user, d.now));
            reply := AllRevoked;
          } else {
            reply := Inactive;
          }
      }
      committed := working;
    }
  }
}
