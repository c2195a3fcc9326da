/** Sessions over whole runs: how long one is accepted, and what the per-user index is good for. */
module SessionRuns {
  import opened Wrappers
  import opened KeyStore
  import opened Sessions
  import Keys

  predicate Configured(p: Policy) {
    0 < p.idleTTL <= p.absoluteTTL
  }

  predicate IsSessionKey(key: string) {
    Keys.SESSION <= key || Keys.USER_SESSIONS <= key
  }

  ghost predicate SameSessionKeys(data: map<string, Entry>, data': map<string, Entry>) {
    forall key: string | IsSessionKey(key) ::
      (key in data <==> key in data') && (key in data ==> data[key] == data'[key])
  }

  // ---------- Single operations, in any order and with store errors ----------

  /** `Foreign` leaves session keys alone. */
  datatype Operation =
    | Tick(d: nat)
    | Create(who: Identity, id: string, csrf: string)
    | Get(id: string)
    | Touch(session: Session)
    | Delete(id: string)
    | Foreign(data: map<string, Entry>)

  /**
    The store, and what happened: the record each id was born with, when it was last touched, and the
    sessions handed out so far, stale copies included.
  */
  datatype History = History(kv: Kv, born: map<string, Record>, touched: map<string, int>, handed: set<Session>)

  /** Ids are fresh, and a touch takes a session that was handed out, however long ago. */
  ghost predicate Possible(h: History, op: Operation) {
    match op
    case Create(_, id, _) => id !in h.born
    case Touch(s) => s in h.handed
    case Foreign(data) => SameSessionKeys(h.kv.data, data)
    case _ => true
  }

  function Handed(r: Reply<Session>): set<Session> {
    if r.Ok? then {r.value} else {}
  }

  function Applied(h: History, p: Policy, op: Operation): History {
    match op
    case Tick(d) => h.(kv := h.kv.(now := h.kv.now + d))
    case Create(who, id, csrf) =>
      var (kv, r) := Created(h.kv, p, who, id, csrf);
      History(kv, h.born[id := Record(who.userId, who.username, who.role, csrf, h.kv.now, h.kv.now)],
              h.touched[id := h.kv.now], h.handed + Handed(r))
    case Get(id) =>
      var (kv, r) := Loaded(h.kv, p, id);
      h.(kv := kv, handed := h.handed + Handed(r))
    case Touch(s) =>
      var (kv, r) := Touched(h.kv, p, s);
      h.(kv := kv, touched := if r.Ok? then h.touched[s.id := h.kv.now] else h.touched)
    case Delete(id) => h.(kv := DeletedSession(h.kv, id).0)
    case Foreign(data) => h.(kv := h.kv.(data := data))
  }

  ghost function AllApplied(h: History, p: Policy, ops: seq<Operation>): Option<History> {
    if ops == [] then Some(h)
    else
      match AllApplied(h, p, ops[..|ops| - 1])
      case None => None
      case Some(mid) => if Possible(mid, ops[|ops| - 1]) then Some(Applied(mid, p, ops[|ops| - 1])) else None
  }

  /** No id drawn and no session stored yet. */
  ghost predicate Beginning(h: History) {
    && h.born == map[] && h.touched == map[] && h.handed == {}
    && forall key: string | IsSessionKey(key) :: key !in h.kv.data
  }

  /** The nearer limit of a session, idle or absolute, as the store keeps it. */
  function EndOf(p: Policy, createdAt: int, touchedAt: int): int {
    touchedAt + Millis(RemainingTTL(p, createdAt, touchedAt))
  }

  /** A session anybody holds is the one created under its id, but for the time it was last seen. */
  predicate Genuine(h: History, s: Session) {
    s.id in h.born && s.record == h.born[s.id].(lastSeenAt := s.record.lastSeenAt)
  }

  /** What a session key holds: the record as created, with its last touch, until the nearer limit. */
  predicate Faithful(h: History, p: Policy, id: string) {
    SessionKey(id) in h.kv.data ==>
      && id in h.born && id in h.touched
      && RemainingTTL(p, h.born[id].createdAt, h.touched[id]) > 0
      && h.kv.data[SessionKey(id)] ==
         Entry(Json(h.born[id].(lastSeenAt := h.touched[id])), Some(EndOf(p, h.born[id].createdAt, h.touched[id])))
  }

  ghost predicate Remembered(h: History, p: Policy) {
    && h.born.Keys == h.touched.Keys
    && (forall id | id in h.born :: h.born[id].createdAt <= h.touched[id] <= h.kv.now)
    && (forall s | s in h.handed :: Genuine(h, s))
    && (forall id :: Faithful(h, p, id))
  }

  /** A touch, with however stale a copy, moves the end of the session it names and nothing else. */
  lemma {:induction false} TouchIsFaithful(h: History, p: Policy, s: Session, id: string)
    requires Configured(p) && Remembered(h, p) && s in h.handed
    ensures Faithful(Applied(h, p, Touch(s)), p, id)
  {
    assert Faithful(h, p, id) && Genuine(h, s);
    SessionKeysAreDistinct(id, s.id, "");
  }

  /** What each operation leaves under a session key, and hands out. */
  lemma {:induction false} OperationIsFaithful(h: History, p: Policy, op: Operation, id: string)
    requires Configured(p) && Remembered(h, p) && Possible(h, op)
    ensures Faithful(Applied(h, p, op), p, id)
  {
    assert Faithful(h, p, id);
    match op
    case Create(who, new_, _) =>
      SessionKeysAreDistinct(id, new_, who.userId);
    case Get(other) => SessionKeysAreDistinct(id, other, "");
    case Touch(s) => TouchIsFaithful(h, p, s, id);
    case Foreign(data) => assert IsSessionKey(SessionKey(id));
    case _ =>
  }

  lemma LoadedIsGenuine(h: History, p: Policy, id: string)
    requires Remembered(h, p) && Loaded(h.kv, p, id).1.Ok?
    ensures Genuine(h, Loaded(h.kv, p, id).1.value)
  {
    assert Faithful(h, p, id);
  }

  lemma {:induction false} OperationKeepsHistory(h: History, p: Policy, op: Operation)
    requires Configured(p) && Remembered(h, p) && Possible(h, op)
    ensures Remembered(Applied(h, p, op), p)
  {
    var t := Applied(h, p, op);
    forall id
      ensures Faithful(t, p, id)
    {
      OperationIsFaithful(h, p, op, id);
    }
    forall s | s in t.handed
      ensures Genuine(t, s)
    {
      if s in h.handed {
        assert Genuine(h, s);
      } else if op.Get? {
        LoadedIsGenuine(h, p, op.id);
      }
    }
  }

  lemma {:induction false} OperationsKeepHistory(h0: History, p: Policy, ops: seq<Operation>, h: History)
    requires Configured(p) && Beginning(h0) && AllApplied(h0, p, ops) == Some(h)
    ensures Remembered(h, p)
    decreases |ops|
  {
    if ops == [] {
      KeyFacts();
    } else {
      OperationsKeepHistory(h0, p, ops[..|ops| - 1], AllApplied(h0, p, ops[..|ops| - 1]).value);
      OperationKeepsHistory(AllApplied(h0, p, ops[..|ops| - 1]).value, p, ops[|ops| - 1]);
    }
  }

  /**
    Whatever was done before, and whichever store operations failed: a session is accepted exactly
    when it is stored, the store answers, its cap is not over, and the time it was given when last
    touched, or created, is not over. What is then handed out is the record it was created with and the
    time of that touch.
  */
  lemma {:induction false} AcceptedOnlyInTime(h0: History, p: Policy, ops: seq<Operation>, h: History, id: string)
    requires Configured(p) && Beginning(h0) && AllApplied(h0, p, ops) == Some(h)
    ensures Loaded(h.kv, p, id).1.Ok? <==>
              && SessionKey(id) in h.kv.data && !h.kv.Fails()
              && id in h.born && id in h.touched
              && h.kv.now <= h.born[id].createdAt + p.absoluteTTL
              && h.kv.now < h.touched[id] + Millis(Min(p.idleTTL, h.born[id].createdAt + p.absoluteTTL - h.touched[id]))
    ensures Loaded(h.kv, p, id).1.Ok? ==>
              Loaded(h.kv, p, id).1.value == Session(id, h.born[id].(lastSeenAt := h.touched[id]))
  {
    OperationsKeepHistory(h0, p, ops, h);
    assert Faithful(h, p, id);
  }

  /**
    So it is accepted only strictly before its last touch plus the idle window, unless that is below
    the store's millisecond, and only strictly before its creation plus the absolute cap, unless it was
    touched within the last millisecond before that; then up to and including the cap itself.
  */
  lemma {:induction false} AcceptedOnlyBeforeLimits(
    h0: History, p: Policy, ops: seq<Operation>, h: History, id: string)
    requires Configured(p) && Beginning(h0) && AllApplied(h0, p, ops) == Some(h) && Loaded(h.kv, p, id).1.Ok?
    ensures id in h.born && id in h.touched && h.kv.now <= h.born[id].createdAt + p.absoluteTTL
    ensures p.idleTTL >= MILLISECOND ==> h.kv.now < h.touched[id] + p.idleTTL
    ensures h.born[id].createdAt + p.absoluteTTL - h.touched[id] >= MILLISECOND ==>
              h.kv.now < h.born[id].createdAt + p.absoluteTTL
  {
    AcceptedOnlyInTime(h0, p, ops, h, id);
  }

  function Min(a: int, b: int): int {
    if a <= b then a else b
  }

  /** How a session that is not accepted is refused; one past its cap is dropped, if the store lets it. */
  lemma {:induction false} RefusalsOfLoad(h0: History, p: Policy, ops: seq<Operation>, h: History, id: string)
    requires Configured(p) && Beginning(h0) && AllApplied(h0, p, ops) == Some(h) && Loaded(h.kv, p, id).1.Err?
    ensures Loaded(h.kv, p, id).1.error ==
            if h.kv.Fails() then StoreFailed else if !h.kv.Live(SessionKey(id)) then NotFound else Expired
    ensures Loaded(h.kv, p, id).1.error == Expired && h.kv.ops + 1 !in h.kv.faults ==>
              SessionKey(id) !in Loaded(h.kv, p, id).0.data
  {
    OperationsKeepHistory(h0, p, ops, h);
    assert Faithful(h, p, id);
  }

  /** Before its cap a session stays stored. */
  ghost predicate Kept(h: History, p: Policy, id: string) {
    id in h.born && (h.kv.now < h.born[id].createdAt + p.absoluteTTL ==> SessionKey(id) in h.kv.data)
  }

  lemma {:induction false} OperationKeepsStored(h: History, p: Policy, op: Operation, id: string)
    requires Configured(p) && Remembered(h, p) && Possible(h, op) && Kept(h, p, id) && op != Delete(id)
    ensures Kept(Applied(h, p, op), p, id) && Applied(h, p, op).born[id] == h.born[id]
  {
    assert Faithful(h, p, id);
    match op
    case Create(who, other, _) => SessionKeysAreDistinct(id, other, who.userId);
    case Get(other) => SessionKeysAreDistinct(id, other, "");
    case Touch(s) =>
      SessionKeysAreDistinct(id, s.id, "");
      assert Genuine(h, s);
    case Delete(other) => SessionKeysAreDistinct(id, other, "");
    case Foreign(data) => assert IsSessionKey(SessionKey(id));
    case Tick(_) =>
  }

  lemma {:induction false} OperationsKeepStored(h1: History, p: Policy, ops: seq<Operation>, h: History, id: string)
    requires Configured(p) && Remembered(h1, p) && AllApplied(h1, p, ops) == Some(h) && Kept(h1, p, id)
    requires Delete(id) !in ops
    ensures Remembered(h, p) && Kept(h, p, id) && h.born[id] == h1.born[id]
    decreases |ops|
  {
    if ops != [] {
      var mid := AllApplied(h1, p, ops[..|ops| - 1]).value;
      OperationsKeepStored(h1, p, ops[..|ops| - 1], mid, id);
      OperationKeepsHistory(mid, p, ops[|ops| - 1]);
      OperationKeepsStored(mid, p, ops[|ops| - 1], id);
    }
  }

  /**
    A session whose creation reached the store and that nobody deletes is accepted, until its cap,
    exactly while the store answers and the time given at its last touch is not over.
  */
  lemma {:induction false} AcceptedWhileItLasts(h0: History, p: Policy, before: seq<Operation>, mid: History,
      who: Identity, id: string, csrf: string, after: seq<Operation>, h: History)
    requires Configured(p) && Beginning(h0) && AllApplied(h0, p, before) == Some(mid)
    requires id !in mid.born && !mid.kv.Fails()
    requires AllApplied(Applied(mid, p, Create(who, id, csrf)), p, after) == Some(h) && Delete(id) !in after
    requires h.kv.now < mid.kv.now + p.absoluteTTL
    ensures id in h.born && id in h.touched
    ensures h.born[id] == Record(who.userId, who.username, who.role, csrf, mid.kv.now, mid.kv.now)
    ensures Loaded(h.kv, p, id).1.Ok? <==>
              && !h.kv.Fails()
              && h.kv.now < h.touched[id] + Millis(Min(p.idleTTL, mid.kv.now + p.absoluteTTL - h.touched[id]))
  {
    OperationsKeepHistory(h0, p, before, mid);
    OperationKeepsHistory(mid, p, Create(who, id, csrf));
    SessionKeysAreDistinct(id, id, who.userId);
    OperationsKeepStored(Applied(mid, p, Create(who, id, csrf)), p, after, h, id);
    assert Faithful(h, p, id);
  }

  /**
    The middleware's decision, from the history alone. 401: no cookie, a session that is not accepted or
    at its very cap, or a store that does not answer. 403: an unsafe request without the session's CSRF
    token, or a role that the session does not have. Everything else is let through as the session that
    the cookie names, and is a read and a touch of it.
  */
  lemma {:induction false} RequestsAreLetThrough(h0: History, p: Policy, ops: seq<Operation>, h: History, r: Request)
    requires Configured(p) && Beginning(h0) && AllApplied(h0, p, ops) == Some(h)
    ensures var id, kv := r.cookie, h.kv;
            var accepted :=
              && id != "" && id in h.born && id in h.touched && SessionKey(id) in kv.data && kv.ops !in kv.faults
              && kv.now <= h.born[id].createdAt + p.absoluteTTL
              && kv.now < h.touched[id] + Millis(Min(p.idleTTL, h.born[id].createdAt + p.absoluteTTL - h.touched[id]));
            var (after, answer) := Authenticated(kv, p, r);
            if !accepted then answer == Err(401)
            else if r.unsafe && (r.token == "" || r.token != h.born[id].csrf) then answer == Err(403)
            else if r.role.Some? && r.role.value != h.born[id].role then answer == Err(403)
            else if kv.now == h.born[id].createdAt + p.absoluteTTL || kv.ops + 1 in kv.faults then answer == Err(401)
            else
              var session := Session(id, h.born[id].(lastSeenAt := h.touched[id]));
              && answer == Ok(session)
              && after == Applied(Applied(h, p, Get(id)), p, Touch(session)).kv
  {
    if r.cookie != "" {
      AcceptedOnlyInTime(h0, p, ops, h, r.cookie);
    }
  }

  lemma OneMoreApplied(h0: History, p: Policy, ops: seq<Operation>, h: History, op: Operation)
    requires AllApplied(h0, p, ops) == Some(h) && Possible(h, op)
    ensures AllApplied(h0, p, ops + [op]) == Some(Applied(h, p, op))
  {
    assert (ops + [op])[..|ops|] == ops;
  }

  /**
    The cap itself is reached: a touch a nanosecond before it is given a whole millisecond. The user's
    index is gone by then.
  */
  lemma {:induction false} AcceptedAtTheCap(p: Policy, start: int, who: Identity, id: string, csrf: string)
    returns (h0: History, ops: seq<Operation>, h: History)
    requires p.idleTTL == p.absoluteTTL >= MILLISECOND && p.absoluteTTL % MILLISECOND == 0
    ensures Beginning(h0) && h0.kv.now == start && AllApplied(h0, p, ops) == Some(h)
    ensures id in h.born && h.kv.now == h.born[id].createdAt + p.absoluteTTL && Loaded(h.kv, p, id).1.Ok?
    ensures !h.kv.Live(UserSessionsKey(who.userId))
  {
    h0 := History(Kv(map[], start, 0, {}), map[], map[], {});
    var session := Session(id, Record(who.userId, who.username, who.role, csrf, start, start));
    SessionKeysAreDistinct(id, id, who.userId);
    var created := Applied(h0, p, Create(who, id, csrf));
    assert Created(h0.kv, p, who, id, csrf).1 == Ok(session);
    var late := Applied(created, p, Tick(p.absoluteTTL - 1));
    var touched := Applied(late, p, Touch(session));
    h := Applied(touched, p, Tick(1));
    OneMoreApplied(h0, p, [], h0, Create(who, id, csrf));
    OneMoreApplied(h0, p, [] + [Create(who, id, csrf)], created, Tick(p.absoluteTTL - 1));
    OneMoreApplied(h0, p, [] + [Create(who, id, csrf)] + [Tick(p.absoluteTTL - 1)], late, Touch(session));
    ops := [] + [Create(who, id, csrf)] + [Tick(p.absoluteTTL - 1)] + [Touch(session)];
    OneMoreApplied(h0, p, ops, touched, Tick(1));
    ops := ops + [Tick(1)];
  }

  // ---------- Whole requests ----------

  /** `revoked` is how the revocation of the other sessions goes, if it comes to that. */
  datatype Op =
    | Read
    | Logout
    | ChangePassword(user: Option<Identity>, passwordOk: bool, id: string, csrf: string, revoked: Revocation)

  /** A request to a session-protected operation. */
  datatype Request = Request(cookie: string, unsafe: bool, token: string, role: Option<string>, op: Op)

  datatype Step =
    | Elapse(d: nat)
    | Other(data: map<string, Entry>)
    | LogIn(who: Identity, cookie: string, id: string, csrf: string)
    | Protected(request: Request)
    | ResetPassword(userId: string, revoked: Revocation)

  /** `issued` are the session ids drawn so far, `created` those whose creation succeeded. */
  datatype State = State(kv: Kv, issued: set<string>, created: set<string>)

  datatype Response = Status(code: int) | Opened(session: Session)

  predicate ValidCSRFToken(expected: string, provided: string) {
    expected != "" && provided != "" && expected == provided
  }

  /** Rotate: drop the session the cookie names, if any, and open a new one. */
  function Started(kv: Kv, p: Policy, who: Identity, cookie: string, id: string, csrf: string): (Kv, Reply<Session>) {
    Created(if cookie == "" then kv else DeletedSession(kv, cookie).0, p, who, id, csrf)
  }

  /** The middleware: load the session, check token and role, slide the idle window. */
  function Authenticated(kv: Kv, p: Policy, r: Request): (Kv, Result<Session, int>) {
    if r.cookie == "" then (kv, Err(401))
    else
      var (kv1, loaded) := Loaded(kv, p, r.cookie);
      if loaded.Err? then (kv1, Err(401))
      else if r.unsafe && !ValidCSRFToken(loaded.value.record.csrf, r.token) then (kv1, Err(403))
      else if r.role.Some? && loaded.value.record.role != r.role.value then (kv1, Err(403))
      else
        var (kv2, touched) := Touched(kv1, p, loaded.value);
        (kv2, if touched.Ok? then Ok(loaded.value) else Err(401))
  }

  /** A password change that gets as far as opening a session. */
  predicate Opens(kv: Kv, p: Policy, r: Request) {
    && r.op.ChangePassword? && r.op.user.Some? && r.op.passwordOk
    && Started(kv, p, r.op.user.value, r.cookie, r.op.id, r.op.csrf).1.Ok?
  }

  function Handled(kv: Kv, p: Policy, s: Session, r: Request): (Kv, Response) {
    match r.op
    case Read => (kv, Status(200))
    case Logout =>
      var (after, deleted) := DeletedSession(kv, s.id);
      (after, Status(if deleted.Ok? then 204 else 500))
    case ChangePassword(user, passwordOk, id, csrf, revoked) =>
      if user.None? then (kv, Status(401))
      else if !passwordOk then (kv, Status(403))
      else
        var (kv1, started) := Started(kv, p, user.value, r.cookie, id, csrf);
        if started.Err? then (kv1, Status(500))
        else (revoked.kv, if revoked.ok then Opened(started.value) else Status(500))
  }

  function Served(kv: Kv, p: Policy, r: Request): (Kv, Response) {
    var (kv1, authenticated) := Authenticated(kv, p, r);
    if authenticated.Err? then (kv1, Status(authenticated.error)) else Handled(kv1, p, authenticated.value, r)
  }

  /** The user row is the one with the session's user id, and the revocation is one of the manager's. */
  ghost predicate Fits(kv: Kv, p: Policy, s: Session, r: Request) {
    r.op.ChangePassword? && r.op.user.Some? ==>
      && r.op.user.value.userId == s.record.userId
      && (Opens(kv, p, r) ==>
            var kv1 := Started(kv, p, r.op.user.value, r.cookie, r.op.id, r.op.csrf).0;
            RevokeOutcome(kv1, r.op.user.value.userId, r.op.id, r.op.revoked))
  }

  /** Session ids are fresh. */
  ghost predicate Enabled(s: State, p: Policy, step: Step) {
    match step
    case Elapse(_) => true
    case Other(data) => SameSessionKeys(s.kv.data, data)
    case LogIn(_, _, id, _) => id != "" && id !in s.issued
    case Protected(r) =>
      && (r.op.ChangePassword? ==> r.op.id != "" && r.op.id !in s.issued)
      && var (kv, who) := Authenticated(s.kv, p, r);
         who.Ok? ==> Fits(kv, p, who.value, r)
    case ResetPassword(userId, revoked) => RevokeOutcome(s.kv, userId, "", revoked)
  }

  function Exec(s: State, p: Policy, step: Step): State {
    match step
    case Elapse(d) => s.(kv := s.kv.(now := s.kv.now + d))
    case Other(data) => s.(kv := s.kv.(data := data))
    case LogIn(who, cookie, id, csrf) =>
      var (kv, started) := Started(s.kv, p, who, cookie, id, csrf);
      State(kv, s.issued + {id}, s.created + if started.Ok? then {id} else {})
    case Protected(r) =>
      var (kv, who) := Authenticated(s.kv, p, r);
      State(Served(s.kv, p, r).0,
            s.issued + (if r.op.ChangePassword? then {r.op.id} else {}),
            s.created + if who.Ok? && Opens(kv, p, r) then {r.op.id} else {})
    case ResetPassword(userId, revoked) => s.(kv := revoked.kv)
  }

  ghost function Run(s: State, p: Policy, steps: seq<Step>): Option<State> {
    if steps == [] then Some(s)
    else
      match Run(s, p, steps[..|steps| - 1])
      case None => None
      case Some(t) => if Enabled(t, p, steps[|steps| - 1]) then Some(Exec(t, p, steps[|steps| - 1])) else None
  }

  ghost predicate Init(s: State) {
    s.issued == {} && s.created == {} && forall key: string | IsSessionKey(key) :: key !in s.kv.data
  }

  // ---------- The invariant ----------

  /** Stored, and before its absolute cap in whole milliseconds. */
  predicate LiveSession(kv: Kv, p: Policy, id: string, userId: string) {
    var key := SessionKey(id);
    && kv.Live(key) && kv.data[key].value.Json? && kv.data[key].value.record.userId == userId
    && kv.now < kv.data[key].value.record.createdAt + Millis(p.absoluteTTL)
  }

  /** A session is stored under a drawn id only. */
  predicate Drawn(s: State, id: string) {
    var key := SessionKey(id);
    key in s.kv.data ==>
      id in s.issued && s.kv.data[key].value.Json? && s.kv.data[key].value.record.createdAt <= s.kv.now
  }

  /** A live session whose creation succeeded is listed in its user's index, which lasts until the cap. */
  predicate Covered(s: State, p: Policy, id: string) {
    var key := SessionKey(id);
    id in s.created && key in s.kv.data && s.kv.data[key].value.Json? ==>
      var r := s.kv.data[key].value.record;
      LiveSession(s.kv, p, id, r.userId) ==>
        var index := UserSessionsKey(r.userId);
        && s.kv.Live(index) && s.kv.data[index].value.Members? && s.kv.data[index].expiry.Some?
        && id in s.kv.data[index].value.members
        && r.createdAt + Millis(p.absoluteTTL) <= s.kv.data[index].expiry.value
  }

  /** An index lists only ids whose creation succeeded, and no session of anybody else. */
  ghost predicate OwnIndex(s: State, userId: string) {
    var index := UserSessionsKey(userId);
    index in s.kv.data ==>
      && s.kv.data[index].value.Members? && s.kv.data[index].expiry.Some?
      && forall id | id in s.kv.data[index].value.members ::
           && id in s.created
           && (SessionKey(id) in s.kv.data && s.kv.data[SessionKey(id)].value.Json? ==>
                 s.kv.data[SessionKey(id)].value.record.userId == userId)
  }

  ghost predicate Inv(s: State, p: Policy) {
    && s.created <= s.issued && "" !in s.issued
    && (forall id :: Drawn(s, id) && Covered(s, p, id))
    && (forall userId :: OwnIndex(s, userId))
  }

  /** Deleting session keys, or changing nothing, keeps the invariant. */
  lemma DroppingSessionsKeeps(s: State, t: State, p: Policy)
    requires Inv(s, p) && t.kv.now >= s.kv.now
    requires s.issued <= t.issued && "" !in t.issued && t.created == s.created
    requires forall id | SessionKey(id) in t.kv.data ::
               SessionKey(id) in s.kv.data && t.kv.data[SessionKey(id)] == s.kv.data[SessionKey(id)]
    requires forall u: string ::
               && (UserSessionsKey(u) in t.kv.data <==> UserSessionsKey(u) in s.kv.data)
               && (UserSessionsKey(u) in t.kv.data ==> t.kv.data[UserSessionsKey(u)] == s.kv.data[UserSessionsKey(u)])
    ensures Inv(t, p)
  {
    forall id
      ensures Drawn(t, id) && Covered(t, p, id)
    {
      assert Drawn(s, id) && Covered(s, p, id);
    }
    forall userId
      ensures OwnIndex(t, userId)
    {
      assert OwnIndex(s, userId);
    }
  }

  lemma KeyFacts()
    ensures forall id: string, u: string :: SessionKey(id) != UserSessionsKey(u)
    ensures forall id: string, other: string :: SessionKey(id) == SessionKey(other) ==> id == other
    ensures forall u: string, v: string :: UserSessionsKey(u) == UserSessionsKey(v) ==> u == v
    ensures forall id: string :: IsSessionKey(SessionKey(id)) && IsSessionKey(UserSessionsKey(id))
  {
    forall id: string, u: string
      ensures SessionKey(id) != UserSessionsKey(u)
      ensures SessionKey(id) == SessionKey(u) ==> id == u
      ensures UserSessionsKey(id) == UserSessionsKey(u) ==> id == u
    {
      SessionKeysAreDistinct(id, u, u);
    }
  }

  lemma {:induction false} DeleteKeeps(s: State, p: Policy, id: string)
    requires Inv(s, p)
    ensures Inv(s.(kv := DeletedSession(s.kv, id).0), p)
    ensures forall other, u | other != id ::
              LiveSession(DeletedSession(s.kv, id).0, p, other, u) <==> LiveSession(s.kv, p, other, u)
  {
    KeyFacts();
    DroppingSessionsKeeps(s, s.(kv := DeletedSession(s.kv, id).0), p);
  }

  lemma {:induction false} LoadKeeps(s: State, p: Policy, id: string)
    requires Inv(s, p)
    ensures Inv(s.(kv := Loaded(s.kv, p, id).0), p)
    ensures Loaded(s.kv, p, id).1.Ok? ==>
              var (kv, loaded) := Loaded(s.kv, p, id);
              && kv.data == s.kv.data && kv.now == s.kv.now && loaded.value.id == id
              && kv.Live(SessionKey(id)) && kv.data[SessionKey(id)].value == Json(loaded.value.record)
  {
    KeyFacts();
    DroppingSessionsKeeps(s, s.(kv := Loaded(s.kv, p, id).0), p);
  }

  /** Touching a session that was just loaded only moves its expiry. */
  lemma {:induction false} TouchKeeps(s: State, p: Policy, session: Session)
    requires Inv(s, p)
    requires s.kv.Live(SessionKey(session.id)) && s.kv.data[SessionKey(session.id)].value == Json(session.record)
    ensures Inv(s.(kv := Touched(s.kv, p, session).0), p)
    ensures Touched(s.kv, p, session).1.Ok? ==>
              forall id, u ::
                LiveSession(Touched(s.kv, p, session).0, p, id, u) <==> LiveSession(s.kv, p, id, u)
  {
    KeyFacts();
    var t := s.(kv := Touched(s.kv, p, session).0);
    if RemainingTTL(p, session.record.createdAt, s.kv.now) <= 0 {
      DeleteKeeps(s, p, session.id);
    } else {
      forall id
        ensures Drawn(t, id) && Covered(t, p, id)
      {
        TouchKeepsSession(s, p, session, id);
      }
      forall userId
        ensures OwnIndex(t, userId)
      {
        assert OwnIndex(s, userId);
      }
    }
  }

  lemma {:induction false} TouchKeepsSession(s: State, p: Policy, session: Session, id: string)
    requires Inv(s, p) && RemainingTTL(p, session.record.createdAt, s.kv.now) > 0
    requires s.kv.Live(SessionKey(session.id)) && s.kv.data[SessionKey(session.id)].value == Json(session.record)
    ensures var t := s.(kv := Touched(s.kv, p, session).0); Drawn(t, id) && Covered(t, p, id)
  {
    assert Drawn(s, id) && Covered(s, p, id);
    SessionKeysAreDistinct(id, session.id, session.record.userId);
    if id != session.id && SessionKey(id) in s.kv.data {
      SessionKeysAreDistinct(session.id, id, s.kv.data[SessionKey(id)].value.record.userId);
    }
  }

  /** A creation writes the session and then its index entry, as far as the store lets it. */
  lemma CreateWrites(s: State, p: Policy, who: Identity, id: string, csrf: string)
    requires Configured(p) && Inv(s, p)
    ensures var (kv, r) := Created(s.kv, p, who, id, csrf);
            var index := UserSessionsKey(who.userId);
            var record := Record(who.userId, who.username, who.role, csrf, s.kv.now, s.kv.now);
            var listed := if s.kv.Live(index) && s.kv.data[index].value.Members?
                          then s.kv.data[index].value.members else {};
            var saved := s.kv.data[SessionKey(id) := Entry(Json(record), Some(s.kv.now + Millis(p.idleTTL)))];
            && kv.now == s.kv.now && kv.faults == s.kv.faults && kv.ops > s.kv.ops
            && (s.kv.faults == {} ==> r.Ok?)
            && (r.Ok? ==>
                  && r.value == Session(id, record)
                  && kv.data == saved[index := Entry(Members(listed + {id}), Some(s.kv.now + Millis(p.absoluteTTL)))])
            && (r.Err? ==> kv.data == s.kv.data || kv.data == saved)
  {
    assert OwnIndex(s, who.userId);
    SessionKeysAreDistinct(id, id, who.userId);
  }

  /** The state after a creation, answered or not. */
  function AfterCreate(s: State, p: Policy, who: Identity, id: string, csrf: string): State {
    var (kv, r) := Created(s.kv, p, who, id, csrf);
    State(kv, s.issued + {id}, s.created + if r.Ok? then {id} else {})
  }

  /** A created session is listed at once, in an index that now lasts until the cap of every session in it. */
  lemma {:induction false} CreateKeeps(s: State, p: Policy, who: Identity, id: string, csrf: string)
    requires Configured(p) && Inv(s, p) && id !in s.issued && id != ""
    ensures Inv(AfterCreate(s, p, who, id, csrf), p)
    ensures s.kv.faults == {} ==> Created(s.kv, p, who, id, csrf).1.Ok?
    ensures var (kv, r) := Created(s.kv, p, who, id, csrf);
            && kv.now == s.kv.now && kv.faults == s.kv.faults
            && (r.Ok? ==> r.value.id == id && LiveSession(kv, p, id, who.userId))
            && forall other, u | other != id :: LiveSession(kv, p, other, u) <==> LiveSession(s.kv, p, other, u)
  {
    KeyFacts();
    CreateWrites(s, p, who, id, csrf);
    var t := AfterCreate(s, p, who, id, csrf);
    forall other
      ensures Drawn(t, other) && Covered(t, p, other)
    {
      CreateKeepsSession(s, p, who, id, csrf, other);
    }
    forall userId
      ensures OwnIndex(t, userId)
    {
      CreateKeepsIndex(s, p, who, id, csrf, userId);
    }
  }

  lemma {:induction false} CreateKeepsSession(s: State, p: Policy, who: Identity, id: string, csrf: string, other: string)
    requires Configured(p) && Inv(s, p) && id !in s.issued
    ensures Drawn(AfterCreate(s, p, who, id, csrf), other) && Covered(AfterCreate(s, p, who, id, csrf), p, other)
  {
    KeyFacts();
    CreateWrites(s, p, who, id, csrf);
    assert Drawn(s, other) && Covered(s, p, other);
  }

  lemma {:induction false} CreateKeepsIndex(s: State, p: Policy, who: Identity, id: string, csrf: string, userId: string)
    requires Configured(p) && Inv(s, p) && id !in s.issued
    ensures OwnIndex(AfterCreate(s, p, who, id, csrf), userId)
  {
    KeyFacts();
    CreateWrites(s, p, who, id, csrf);
    assert OwnIndex(s, userId) && Drawn(s, id);
    var t, index := AfterCreate(s, p, who, id, csrf), UserSessionsKey(userId);
    if index in t.kv.data {
      forall other | other in t.kv.data[index].value.members
        ensures other in t.created
        ensures SessionKey(other) in t.kv.data && t.kv.data[SessionKey(other)].value.Json? ==>
                  t.kv.data[SessionKey(other)].value.record.userId == userId
      {
        if other != id {
          assert other in s.kv.data[index].value.members;
        }
      }
    }
  }

  /** Which keys a revocation may delete. */
  lemma RevokeDeletes(s: State, p: Policy, userId: string, exceptId: string, r: Revocation, id: string)
    requires Inv(s, p) && RevokeOutcome(s.kv, userId, exceptId, r)
    ensures var key := SessionKey(id);
            && (key in r.kv.data ==> key in s.kv.data && r.kv.data[key] == s.kv.data[key])
            && (key in s.kv.data && key !in r.kv.data ==>
                  && id != exceptId && id in s.created
                  && s.kv.data[key].value.Json? && s.kv.data[key].value.record.userId == userId)
            && (r.ok && key in r.kv.data && id in s.created && LiveSession(s.kv, p, id, userId) ==> id == exceptId)
  {
    KeyFacts();
    assert OwnIndex(s, userId) && Covered(s, p, id) && Drawn(s, id);
  }

  lemma RevokeKeepsIndexes(kv: Kv, userId: string, exceptId: string, r: Revocation, u: string)
    requires RevokeOutcome(kv, userId, exceptId, r)
    ensures var index := UserSessionsKey(u);
            if r.ok && u == userId && exceptId == "" then index !in r.kv.data
            else (index in r.kv.data <==> index in kv.data) && (index in r.kv.data ==> r.kv.data[index] == kv.data[index])
  {
    KeyFacts();
  }

  /**
    Bulk revocation that succeeds reaches every live session of the user whose creation succeeded but
    the spared one; successful or not, it changes nobody else's.
  */
  lemma {:induction false} RevokeKeeps(s: State, p: Policy, userId: string, exceptId: string, r: Revocation)
    requires Inv(s, p) && RevokeOutcome(s.kv, userId, exceptId, r)
    ensures Inv(s.(kv := r.kv), p)
    ensures forall id, u | u != userId || id !in s.created || id == exceptId ::
              LiveSession(r.kv, p, id, u) <==> LiveSession(s.kv, p, id, u)
    ensures r.ok ==> forall id | id in s.created && id != exceptId :: !LiveSession(r.kv, p, id, userId)
  {
    KeyFacts();
    var t := s.(kv := r.kv);
    forall id
      ensures Drawn(t, id) && Covered(t, p, id)
    {
      RevokeKeepsSession(s, p, userId, exceptId, r, id);
    }
    forall u
      ensures OwnIndex(t, u)
    {
      assert OwnIndex(s, u);
      RevokeKeepsIndexes(s.kv, userId, exceptId, r, u);
      forall id
        ensures SessionKey(id) in r.kv.data ==> SessionKey(id) in s.kv.data && r.kv.data[SessionKey(id)] == s.kv.data[SessionKey(id)]
      {
        RevokeDeletes(s, p, userId, exceptId, r, id);
      }
    }
    forall id, u | u != userId || id !in s.created || id == exceptId
      ensures LiveSession(r.kv, p, id, u) <==> LiveSession(s.kv, p, id, u)
    {
      RevokeDeletes(s, p, userId, exceptId, r, id);
    }
    if r.ok {
      forall id | id in s.created && id != exceptId
        ensures !LiveSession(r.kv, p, id, userId)
      {
        RevokeDeletes(s, p, userId, exceptId, r, id);
      }
    }
  }

  lemma {:induction false} RevokeKeepsSession(
    s: State, p: Policy, userId: string, exceptId: string, r: Revocation, id: string)
    requires Inv(s, p) && RevokeOutcome(s.kv, userId, exceptId, r)
    ensures Drawn(s.(kv := r.kv), id) && Covered(s.(kv := r.kv), p, id)
  {
    assert Drawn(s, id) && Covered(s, p, id);
    RevokeDeletes(s, p, userId, exceptId, r, id);
    if SessionKey(id) in r.kv.data {
      RevokeKeepsIndexes(s.kv, userId, exceptId, r, s.kv.data[SessionKey(id)].value.record.userId);
    }
  }

  // ---------- Requests ----------

  function AfterStart(s: State, p: Policy, who: Identity, cookie: string, id: string, csrf: string): State {
    AfterCreate(if cookie == "" then s else s.(kv := DeletedSession(s.kv, cookie).0), p, who, id, csrf)
  }

  lemma {:induction false} StartKeeps(s: State, p: Policy, who: Identity, cookie: string, id: string, csrf: string)
    requires Configured(p) && Inv(s, p) && id !in s.issued && id != ""
    ensures Inv(AfterStart(s, p, who, cookie, id, csrf), p)
    ensures var (kv, r) := Started(s.kv, p, who, cookie, id, csrf);
            && kv == AfterStart(s, p, who, cookie, id, csrf).kv
            && (r.Ok? ==> r.value.id == id && LiveSession(kv, p, id, who.userId))
            && (s.kv.faults == {} ==> r.Ok?)
            && forall other, u | other != id && other != cookie ::
                 LiveSession(kv, p, other, u) <==> LiveSession(s.kv, p, other, u)
    ensures forall u ::
              LiveSession(Started(s.kv, p, who, cookie, id, csrf).0, p, cookie, u) ==> cookie == id || LiveSession(s.kv, p, cookie, u)
  {
    KeyFacts();
    if cookie != "" {
      DeleteKeeps(s, p, cookie);
      CreateKeeps(s.(kv := DeletedSession(s.kv, cookie).0), p, who, id, csrf);
    } else {
      CreateKeeps(s, p, who, id, csrf);
    }
  }

  /** The session stored under an id is this user's. */
  predicate BelongsTo(kv: Kv, id: string, userId: string) {
    var key := SessionKey(id);
    key in kv.data && kv.data[key].value.Json? && kv.data[key].value.record.userId == userId
  }

  /** The middleware prefix, taken as one step, keeps the invariant and hands on the stored session. */
  lemma {:induction false} AuthenticateKeeps(s: State, p: Policy, r: Request)
    requires Inv(s, p)
    ensures Inv(s.(kv := Authenticated(s.kv, p, r).0), p)
    ensures Authenticated(s.kv, p, r).1.Ok? ==>
              var session, key := Authenticated(s.kv, p, r).1.value, SessionKey(r.cookie);
              && session.id == r.cookie != "" && r.cookie in s.issued
              && s.kv.Live(key) && s.kv.data[key].value == Json(session.record)
              && BelongsTo(Authenticated(s.kv, p, r).0, r.cookie, session.record.userId)
              && forall id, u ::
                   LiveSession(Authenticated(s.kv, p, r).0, p, id, u) <==> LiveSession(s.kv, p, id, u)
  {
    KeyFacts();
    if r.cookie != "" {
      LoadKeeps(s, p, r.cookie);
      assert Drawn(s, r.cookie);
      var loaded := Loaded(s.kv, p, r.cookie);
      if loaded.1.Ok? {
        TouchKeeps(s.(kv := loaded.0), p, loaded.1.value);
      }
    }
  }

  lemma IssueKeeps(s: State, p: Policy, id: string)
    requires Inv(s, p) && id != ""
    ensures Inv(s.(issued := s.issued + {id}), p)
  {
    DroppingSessionsKeeps(s, s.(issued := s.issued + {id}), p);
  }

  lemma FreshIsNotLive(s: State, p: Policy, id: string, u: string)
    requires Inv(s, p) && id !in s.issued
    ensures !LiveSession(s.kv, p, id, u)
  {
    assert Drawn(s, id);
  }

  /** The state after the handler of a password change. */
  function AfterChange(s: State, p: Policy, session: Session, r: Request): State
    requires r.op.ChangePassword?
  {
    State(Handled(s.kv, p, session, r).0, s.issued + {r.op.id}, s.created + if Opens(s.kv, p, r) then {r.op.id} else {})
  }

  lemma {:induction false} ChangeKeepsInv(s: State, p: Policy, session: Session, r: Request)
    requires Configured(p) && Inv(s, p) && Fits(s.kv, p, session, r)
    requires r.op.ChangePassword? && r.op.id != "" && r.op.id !in s.issued
    ensures Inv(AfterChange(s, p, session, r), p)
  {
    if r.op.user.Some? && r.op.passwordOk {
      var who := r.op.user.value;
      StartKeeps(s, p, who, r.cookie, r.op.id, r.op.csrf);
      var mid := AfterStart(s, p, who, r.cookie, r.op.id, r.op.csrf);
      if Opens(s.kv, p, r) {
        RevokeKeeps(mid, p, who.userId, r.op.id, r.op.revoked);
      }
    } else {
      IssueKeeps(s, p, r.op.id);
      assert s.created + {} == s.created;
    }
  }

  /** A change that is answered with a session leaves the user that one, among those whose creation succeeded. */
  lemma {:induction false} ChangeLeavesOne(s: State, p: Policy, session: Session, r: Request, id: string, u: string)
    requires Configured(p) && Inv(s, p) && Fits(s.kv, p, session, r)
    requires r.op.ChangePassword? && r.op.id != "" && r.op.id !in s.issued
    requires BelongsTo(s.kv, r.cookie, session.record.userId)
    requires r.cookie in s.issued && Handled(s.kv, p, session, r).1.Opened?
    ensures Handled(s.kv, p, session, r).1.session.id == r.op.id
    ensures u != session.record.userId ==>
              (LiveSession(Handled(s.kv, p, session, r).0, p, id, u) <==> LiveSession(s.kv, p, id, u))
    ensures id in AfterChange(s, p, session, r).created ==>
              (LiveSession(Handled(s.kv, p, session, r).0, p, id, session.record.userId) <==> id == r.op.id)
  {
    var who := r.op.user.value;
    StartKeeps(s, p, who, r.cookie, r.op.id, r.op.csrf);
    var mid := AfterStart(s, p, who, r.cookie, r.op.id, r.op.csrf);
    RevokeKeeps(mid, p, who.userId, r.op.id, r.op.revoked);
    FreshIsNotLive(s, p, r.op.id, u);
    OnlyFor(mid, p, r.op.id, who.userId, u);
    CookieIsOwn(s, p, session, r, mid.kv, u);
  }

  lemma OnlyFor(s: State, p: Policy, id: string, userId: string, u: string)
    requires LiveSession(s.kv, p, id, userId)
    ensures LiveSession(s.kv, p, id, u) <==> u == userId
  {
  }

  /** The session the cookie names is the user's own, before and after it may have been dropped. */
  lemma CookieIsOwn(s: State, p: Policy, session: Session, r: Request, kv: Kv, u: string)
    requires BelongsTo(s.kv, r.cookie, session.record.userId)
    requires LiveSession(kv, p, r.cookie, u) ==> LiveSession(s.kv, p, r.cookie, u)
    ensures u != session.record.userId ==> !LiveSession(s.kv, p, r.cookie, u) && !LiveSession(kv, p, r.cookie, u)
  {
  }

  lemma {:induction false} ServedKeeps(s: State, p: Policy, r: Request)
    requires Configured(p) && Inv(s, p) && Enabled(s, p, Protected(r))
    ensures Inv(Exec(s, p, Protected(r)), p)
  {
    AuthenticateKeeps(s, p, r);
    var (kv, who) := Authenticated(s.kv, p, r);
    var mid := s.(kv := kv);
    if r.op.ChangePassword? {
      if who.Ok? {
        ChangeKeepsInv(mid, p, who.value, r);
      } else {
        IssueKeeps(mid, p, r.op.id);
        assert s.created + {} == s.created;
      }
    } else {
      assert s.issued + {} == s.issued && s.created + {} == s.created;
      if who.Ok? && r.op.Logout? {
        DeleteKeeps(mid, p, who.value.id);
      }
    }
  }

  lemma {:induction false} StepKeepsInv(s: State, p: Policy, step: Step)
    requires Configured(p) && Inv(s, p) && Enabled(s, p, step)
    ensures Inv(Exec(s, p, step), p)
  {
    match step
    case Elapse(_) => DroppingSessionsKeeps(s, Exec(s, p, step), p);
    case Other(_) =>
      KeyFacts();
      DroppingSessionsKeeps(s, Exec(s, p, step), p);
    case LogIn(who, cookie, id, csrf) =>
      StartKeeps(s, p, who, cookie, id, csrf);
      assert Exec(s, p, step) == AfterStart(s, p, who, cookie, id, csrf);
    case Protected(r) => ServedKeeps(s, p, r);
    case ResetPassword(userId, revoked) => RevokeKeeps(s, p, userId, "", revoked);
  }

  lemma {:induction false} RunKeepsInv(s0: State, p: Policy, steps: seq<Step>, s: State)
    requires Configured(p) && Init(s0) && Run(s0, p, steps) == Some(s)
    ensures Inv(s, p)
    decreases |steps|
  {
    if steps == [] {
      KeyFacts();
    } else {
      RunKeepsInv(s0, p, steps[..|steps| - 1], Run(s0, p, steps[..|steps| - 1]).value);
      StepKeepsInv(Run(s0, p, steps[..|steps| - 1]).value, p, steps[|steps| - 1]);
    }
  }

  // ---------- Main results ----------

  /**
    In every reachable state, whatever store operations failed, each live session whose creation
    succeeded is in its user's live index, which lasts at least until the session's cap.
  */
  lemma IndexCoversLiveSessions(s0: State, p: Policy, steps: seq<Step>, s: State, id: string, userId: string)
    requires Configured(p) && Init(s0) && Run(s0, p, steps) == Some(s)
    requires id in s.created && LiveSession(s.kv, p, id, userId)
    ensures var index := UserSessionsKey(userId);
            && s.kv.Live(index) && s.kv.data[index].value.Members? && id in s.kv.data[index].value.members
            && s.kv.data[index].expiry.Some?
            && s.kv.data[SessionKey(id)].value.record.createdAt + Millis(p.absoluteTTL) <= s.kv.data[index].expiry.value
  {
    RunKeepsInv(s0, p, steps, s);
    assert Covered(s, p, id);
  }

  /** Without store errors a revocation succeeds in every reachable state, whether or not the user has an index. */
  lemma RevocationsSucceed(
    s0: State, p: Policy, steps: seq<Step>, s: State, userId: string, exceptId: string, revoked: Revocation)
    requires Configured(p) && Init(s0) && Run(s0, p, steps) == Some(s) && s.kv.faults == {}
    requires RevokeOutcome(s.kv, userId, exceptId, revoked)
    ensures revoked.ok
  {
    RunKeepsInv(s0, p, steps, s);
    assert OwnIndex(s, userId);
  }

  /** Without store errors a login opens its session, drops the one its cookie named, and changes no other. */
  lemma {:induction false} LoginRotates(
    s0: State, p: Policy, steps: seq<Step>, s: State, who: Identity, cookie: string, id: string, csrf: string)
    requires Configured(p) && Init(s0) && Run(s0, p, steps) == Some(s) && s.kv.faults == {}
    requires Enabled(s, p, LogIn(who, cookie, id, csrf)) && cookie != id
    ensures var t := Exec(s, p, LogIn(who, cookie, id, csrf));
            && Started(s.kv, p, who, cookie, id, csrf).1.Ok?
            && id in t.created && LiveSession(t.kv, p, id, who.userId)
            && (cookie != "" ==> SessionKey(cookie) !in t.kv.data)
            && forall other, u | other != id && other != cookie ::
                 LiveSession(t.kv, p, other, u) <==> LiveSession(s.kv, p, other, u)
  {
    RunKeepsInv(s0, p, steps, s);
    StartKeeps(s, p, who, cookie, id, csrf);
    if cookie != "" {
      DroppedStaysGone(s.kv, p, who, cookie, id, csrf);
    }
  }

  lemma DroppedStaysGone(kv: Kv, p: Policy, who: Identity, cookie: string, id: string, csrf: string)
    requires kv.faults == {} && cookie != "" && cookie != id
    ensures SessionKey(cookie) !in Started(kv, p, who, cookie, id, csrf).0.data
  {
    SessionKeysAreDistinct(cookie, id, who.userId);
  }

  /** A logout deletes the session its cookie names and no other, and says so exactly when the store did it. */
  lemma {:induction false} LogoutEndsSession(s0: State, p: Policy, steps: seq<Step>, s: State, r: Request)
    requires Configured(p) && Init(s0) && Run(s0, p, steps) == Some(s)
    requires r.op == Logout && Authenticated(s.kv, p, r).1.Ok?
    ensures var (kv, _) := Authenticated(s.kv, p, r);
            var (after, response) := Served(s.kv, p, r);
            && response == Status(if kv.ops in kv.faults then 500 else 204)
            && (response == Status(204) ==> SessionKey(r.cookie) !in after.data)
            && forall other, u | other != r.cookie || response == Status(500) ::
                 LiveSession(after, p, other, u) <==> LiveSession(s.kv, p, other, u)
  {
    RunKeepsInv(s0, p, steps, s);
    AuthenticateKeeps(s, p, r);
    DeleteKeeps(s.(kv := Authenticated(s.kv, p, r).0), p, r.cookie);
  }

  /**
    After a password change that is answered with a session, whatever store operations failed before
    or in it, that session is the user's only live one of those whose creation succeeded, and nobody
    else's live sessions have changed.
  */
  lemma {:induction false} PasswordChangeLeavesOneSession(s0: State, p: Policy, steps: seq<Step>, s: State, r: Request)
    requires Configured(p) && Init(s0) && Run(s0, p, steps) == Some(s)
    requires r.op.ChangePassword? && Enabled(s, p, Protected(r)) && Served(s.kv, p, r).1.Opened?
    ensures var userId, t := Authenticated(s.kv, p, r).1.value.record.userId, Exec(s, p, Protected(r));
            && Served(s.kv, p, r).1.session.id == r.op.id
            && (forall id, u | u != userId :: LiveSession(t.kv, p, id, u) <==> LiveSession(s.kv, p, id, u))
            && (forall id | id in t.created :: LiveSession(t.kv, p, id, userId) <==> id == r.op.id)
  {
    RunKeepsInv(s0, p, steps, s);
    AuthenticateKeeps(s, p, r);
    var (kv, who) := Authenticated(s.kv, p, r);
    var t := Exec(s, p, Protected(r));
    forall id, u | u != who.value.record.userId
      ensures LiveSession(t.kv, p, id, u) <==> LiveSession(s.kv, p, id, u)
    {
      ChangeLeavesOne(s.(kv := kv), p, who.value, r, id, u);
    }
    forall id | id in t.created
      ensures LiveSession(t.kv, p, id, who.value.record.userId) <==> id == r.op.id
    {
      ChangeLeavesOne(s.(kv := kv), p, who.value, r, id, who.value.record.userId);
    }
    ChangeLeavesOne(s.(kv := kv), p, who.value, r, "", "");
  }

  /** After a password reset that succeeds the user has none of these left; nobody else's change. */
  lemma {:induction false} PasswordResetLeavesNone(
    s0: State, p: Policy, steps: seq<Step>, s: State, userId: string, revoked: Revocation)
    requires Configured(p) && Init(s0) && Run(s0, p, steps) == Some(s)
    requires Enabled(s, p, ResetPassword(userId, revoked)) && revoked.ok
    ensures var t := Exec(s, p, ResetPassword(userId, revoked));
            && (forall id | id in t.created :: !LiveSession(t.kv, p, id, userId))
            && (forall id, u | u != userId :: LiveSession(t.kv, p, id, u) <==> LiveSession(s.kv, p, id, u))
  {
    RunKeepsInv(s0, p, steps, s);
    RevokeKeeps(s, p, userId, "", revoked);
  }
}
