/** The request handlers over sessions and lockout, statement by statement. */
module Handlers {
  import opened Wrappers
  import opened KeyStore
  import opened Durations
  import Forwarded
  import Lockout
  import Sessions
  import SessionRuns

  /** A user row; matching a password against its hash is modelled as equality. */
  datatype User = User(identity: Sessions.Identity, password: string)

  datatype Response =
    | Status(code: int)
    | TooManyFailures(retryAfter: int)
    | Opened(session: Sessions.Session)

  /** What goes wrong outside the key store: reading the user or the token, or hashing and storing a password. */
  datatype Failure = NoFailure | LookupFails | UpdateFails

  /** `lockout` may be absent; `parses` says which user ids the response can carry. */
  class Server {
    const cache: Cache
    const sessions: Sessions.Manager
    const lockout: Lockout.Lockout?
    const parses: string -> bool
    var users: map<string, User>
    const ids: map<string, string>

    constructor (cache: Cache, sessions: Sessions.Manager, lockout: Lockout.Lockout?, parses: string -> bool,
                 users: map<string, User>, ids: map<string, string>)
      requires sessions.cache == cache && (lockout != null ==> lockout.cache == cache)
      requires forall id | id in users :: users[id].identity.userId == id
      ensures this.sessions == sessions && this.lockout == lockout && this.cache == cache && this.parses == parses
      ensures this.users == users && this.ids == ids && Valid()
    {
      this.cache, this.sessions, this.lockout, this.parses := cache, sessions, lockout, parses;
      this.users, this.ids := users, ids;
    }

    /** One store for all parts, and every user row under its own id. */
    predicate Valid()
      reads this
    {
      && sessions.cache == cache && (lockout != null ==> lockout.cache == cache)
      && forall id | id in users :: users[id].identity.userId == id
    }

    function UserByUsername(username: string): Option<User>
      reads this
    {
      if username in ids && ids[username] in users then Some(users[ids[username]]) else None
    }

    function UserByID(id: string): Option<User>
      reads this
    {
      if id in users then Some(users[id]) else None
    }

    /** The response to an id that does not parse is an error, after the session was created. */
    method StartSession(who: Sessions.Identity, cookie: string, id: string, csrf: string)
      returns (r: Sessions.Reply<Sessions.Session>)
      requires Valid()
      modifies cache`data, cache`ops
      ensures Valid()
      ensures var (kv, started) := SessionRuns.Started(old(cache.Contents()), sessions.policy, who, cookie, id, csrf);
              cache.Contents() == kv && r == if parses(who.userId) then started else Err(Sessions.StoreFailed)
    {
      if cookie != "" {
        var _ := sessions.DeleteSession(cookie);
      }
      r := sessions.CreateSession(who, id, csrf);
      if r.Err? { return; }
      if !parses(who.userId) { return Err(Sessions.StoreFailed); }
    }

    /** The middleware for session-protected operations. */
    method Authenticate(request: SessionRuns.Request) returns (r: Result<Sessions.Session, int>)
      requires Valid()
      modifies cache`data, cache`ops
      ensures Valid()
      ensures (cache.Contents(), r) ==
              SessionRuns.Authenticated(old(cache.Contents()), sessions.policy, request)
    {
      if request.cookie == "" { return Err(401); }
      var loaded := sessions.GetSession(request.cookie);
      if loaded.Err? { return Err(401); }
      if request.unsafe {
        if !SessionRuns.ValidCSRFToken(loaded.value.record.csrf, request.token) { return Err(403); }
      }
      if request.role.Some? && loaded.value.record.role != request.role.value { return Err(403); }
      var touched := sessions.TouchSession(loaded.value);
      if touched.Err? { return Err(401); }
      r := Ok(loaded.value);
    }

    method PostAuthLogin(name: string, password: string, ip: string, cookie: string, id: string, csrf: string,
                         failure: Failure) returns (response: Response)
      requires Valid()
      modifies cache`data, cache`ops
      ensures Valid()
      ensures var username := Forwarded.TrimSpace(name);
              var kv := old(cache.Contents());
              var (kv1, locked, wait) :=
                if lockout == null then (kv, false, 0) else Lockout.LockedSpec(kv, lockout.policy, username, ip);
              var user := UserByUsername(username);
              if username == "" || password == "" then response == Status(400) && cache.Contents() == kv
              else if locked then response == TooManyFailures(SecondsOf(wait)) && cache.Contents() == kv1
              else if failure == LookupFails then response == Status(500) && cache.Contents() == kv1
              else if user.None? || user.value.password != password then
                response == Status(401)
                && cache.Contents() ==
                   if lockout == null then kv1 else Lockout.FailureRecorded(kv1, lockout.policy, username, ip)
              else
                var kv2 := if lockout == null then kv1 else Lockout.Deleted(kv1, Lockout.ResetKeys(username, ip));
                var who := user.value.identity;
                var (kv3, started) := SessionRuns.Started(kv2, sessions.policy, who, cookie, id, csrf);
                cache.Contents() == kv3
                && response == if started.Ok? && parses(who.userId) then Opened(started.value) else Status(500)
    {
      var username := Forwarded.TrimSpace(name);
      if username == "" || password == "" { return Status(400); }
      if lockout != null {
        var locked, wait := lockout.Locked(username, ip);
        if locked { return TooManyFailures(SecondsOf(wait)); }
      }
      if failure == LookupFails { return Status(500); }
      var user := UserByUsername(username);
      if user.None? || user.value.password != password {
        if lockout != null {
          lockout.RecordFailure(username, ip);
        }
        return Status(401);
      }
      if lockout != null {
        lockout.Reset(username, ip);
      }
      var session := StartSession(user.value.identity, cookie, id, csrf);
      if session.Err? { return Status(500); }
      response := Opened(session.value);
    }

    /**
      What a password change by the holder of `session` answers and leaves, from the users `before` and
      the store `kv`.
    */
    ghost predicate ChangeAnswer(before: map<string, User>, kv: Kv, session: Sessions.Session, passwords: (string, string),
                                 cookie: string, id: string, csrf: string, failure: Failure, response: Response)
      reads this, cache
    {
      var key, after := session.record.userId, cache.Contents();
      if passwords.0 == "" || passwords.1 == "" then response == Status(400) && users == before && after == kv
      else if failure == LookupFails then response == Status(500) && users == before && after == kv
      else if key !in before then response == Status(401) && users == before && after == kv
      else if before[key].password != passwords.0 then response == Status(403) && users == before && after == kv
      else if failure == UpdateFails then response == Status(500) && users == before && after == kv
      else
        var who := before[key].identity;
        var (kv1, started) := SessionRuns.Started(kv, sessions.policy, who, cookie, id, csrf);
        && users == before[key := before[key].(password := passwords.1)]
        && if started.Err? || !parses(who.userId) then response == Status(500) && after == kv1
           else
             && response in {Status(500), Opened(started.value)}
             && (kv.faults == {} ==> response.Opened?)
             && Sessions.RevokeOutcome(kv1, who.userId, id, Sessions.Revocation(after, response.Opened?))
    }

    /** Runs after `Authenticate` has handed on `session`; the cookie is the one that named it. */
    method PostAuthPasswordChange(session: Sessions.Session, currentPassword: string, newPassword: string, cookie: string,
                                  id: string, csrf: string, failure: Failure) returns (response: Response)
      requires Valid()
      modifies this`users, cache`data, cache`ops
      ensures Valid()
      ensures ChangeAnswer(old(users), old(cache.Contents()), session, (currentPassword, newPassword),
                           cookie, id, csrf, failure, response)
    {
      if currentPassword == "" || newPassword == "" { return Status(400); }
      if failure == LookupFails { return Status(500); }
      var user := UserByID(session.record.userId);
      if user.None? { return Status(401); }
      if user.value.password != currentPassword { return Status(403); }
      if failure == UpdateFails { return Status(500); }
      users := users[session.record.userId := user.value.(password := newPassword)];
      var started := StartSession(user.value.identity, cookie, id, csrf);
      if started.Err? { return Status(500); }
      var revoked := sessions.RevokeUserSessions(user.value.identity.userId, started.value.id);
      if revoked.Err? { return Status(500); }
      response := Opened(started.value);
    }

    function AsServed(response: Response): SessionRuns.Response
      requires !response.TooManyFailures?
    {
      match response
      case Status(code) => SessionRuns.Status(code)
      case Opened(session) => SessionRuns.Opened(session)
    }

    /**
      The protected operation as a whole: the middleware, then the handler on the session it hands on.
      A success is the specified request, for the user whose session the cookie names.
    */
    method ServePasswordChange(cookie: string, token: string, currentPassword: string, newPassword: string,
                               id: string, csrf: string, failure: Failure) returns (response: Response)
      requires Valid()
      modifies this`users, cache`data, cache`ops
      ensures Valid()
      ensures var prefix := SessionRuns.Request(cookie, true, token, None, SessionRuns.Read);
              var (kv, who) := SessionRuns.Authenticated(old(cache.Contents()), sessions.policy, prefix);
              if who.Err? then response == Status(who.error) && cache.Contents() == kv && users == old(users)
              else ChangeAnswer(old(users), kv, who.value, (currentPassword, newPassword), cookie, id, csrf, failure, response)
      ensures response.Opened? ==>
                var prefix := SessionRuns.Request(cookie, true, token, None, SessionRuns.Read);
                var (kv, who) := SessionRuns.Authenticated(old(cache.Contents()), sessions.policy, prefix);
                && who.Ok? && old(UserByID(who.value.record.userId)).Some?
                && var identity := old(UserByID(who.value.record.userId)).value.identity;
                   var revoked := Sessions.Revocation(cache.Contents(), true);
                   var request := prefix.(op := SessionRuns.ChangePassword(Some(identity), true, id, csrf, revoked));
                   && SessionRuns.Fits(kv, sessions.policy, who.value, request)
                   && SessionRuns.Served(old(cache.Contents()), sessions.policy, request) ==
                      (cache.Contents(), SessionRuns.Opened(response.session))
      ensures !response.TooManyFailures?
      ensures var prefix := SessionRuns.Request(cookie, true, token, None, SessionRuns.Read);
              var (kv, who) := SessionRuns.Authenticated(old(cache.Contents()), sessions.policy, prefix);
              var user := if who.Ok? then old(UserByID(who.value.record.userId)) else None;
              var known := if user.Some? then Some(user.value.identity) else None;
              var matches := user.Some? && user.value.password == currentPassword;
              var revoked := Sessions.Revocation(cache.Contents(), response.Opened?);
              var request := prefix.(op := SessionRuns.ChangePassword(known, matches, id, csrf, revoked));
              currentPassword != "" && newPassword != "" && failure.NoFailure?
              && (user.Some? ==> parses(user.value.identity.userId)) ==>
                && (who.Ok? ==> SessionRuns.Fits(kv, sessions.policy, who.value, request))
                && SessionRuns.Served(old(cache.Contents()), sessions.policy, request) ==
                   (cache.Contents(), AsServed(response))
    {
      var authenticated := Authenticate(SessionRuns.Request(cookie, true, token, None, SessionRuns.Read));
      if authenticated.Err? { return Status(authenticated.error); }
      response := PostAuthPasswordChange(authenticated.value, currentPassword, newPassword, cookie, id, csrf, failure);
    }

    /** Runs after `Authenticate` has handed on `session`. */
    method PostAuthLogout(session: Sessions.Session) returns (response: Response)
      requires Valid()
      modifies cache`data, cache`ops
      ensures Valid()
      ensures response == Status(if old(cache.Contents()).Fails() then 500 else 204)
      ensures cache.data == if response == Status(204) then old(cache.data) - {Sessions.SessionKey(session.id)} else old(cache.data)
    {
      var deleted := sessions.DeleteSession(session.id);
      response := Status(if deleted.Err? then 500 else 204);
    }

    /** `userId` is what consuming the reset token gave, if it was valid. */
    method PostAuthPasswordReset(token: string, userId: Option<string>, newPassword: string, failure: Failure)
      returns (response: Response)
      requires Valid()
      modifies this`users, cache`data, cache`ops
      ensures Valid()
      ensures if token == "" || newPassword == "" then response == Status(400) && unchanged(this) && unchanged(cache)
              else if failure == LookupFails then response == Status(500) && unchanged(this) && unchanged(cache)
              else if userId.None? then response == Status(410) && unchanged(this) && unchanged(cache)
              else if failure == UpdateFails then response == Status(500) && unchanged(this) && unchanged(cache)
              else if userId.value !in old(users) then response == Status(410) && unchanged(this) && unchanged(cache)
              else
                && users == old(users)[userId.value := old(users)[userId.value].(password := newPassword)]
                && response in {Status(200), Status(500)}
                && (cache.faults == {} && Sessions.Readable(old(cache.Contents()), Sessions.UserSessionsKey(userId.value)) ==>
                      response == Status(200))
                && Sessions.RevokeOutcome(old(cache.Contents()), userId.value, "",
                                          Sessions.Revocation(cache.Contents(), response == Status(200)))
    {
      if token == "" || newPassword == "" { return Status(400); }
      if failure == LookupFails { return Status(500); }
      if userId.None? { return Status(410); }
      if failure == UpdateFails { return Status(500); }
      if userId.value !in users { return Status(410); }
      users := users[userId.value := users[userId.value].(password := newPassword)];
      var revoked := sessions.RevokeUserSessions(userId.value, "");
      if revoked.Err? { return Status(500); }
      response := Status(200);
    }
  }
}
