/** The lockout over whole runs: what its counters and locks say about past failures, and the waits it reports. */
module LockoutRuns {
  import opened Integers
  import opened Wrappers
  import opened KeyStore
  import opened Lockout
  import opened Durations
  import Keys

  /** `Foreign` is any change that leaves lockout keys alone. */
  datatype Step =
    | Tick(d: nat)
    | Login(username: string, ip: string, valid: bool)
    | UnlockUser(username: string)
    | Foreign(data: map<string, Entry>)

  /** A password check that was made, or an administrator's unlock. */
  datatype Event = Check(username: string, ip: string, at: int, ok: bool) | Unlocked(username: string)

  datatype State = State(kv: Kv, trace: seq<Event>)

  predicate IsLockoutKey(key: string) {
    Keys.FAIL_USER <= key || Keys.FAIL_IP <= key || Keys.LOCK_USER <= key || Keys.LOCK_IP <= key
  }

  ghost predicate SameLockoutKeys(data: map<string, Entry>, data': map<string, Entry>) {
    forall key: string | IsLockoutKey(key) ::
      (key in data <==> key in data') && (key in data ==> data[key] == data'[key])
  }

  ghost predicate Enabled(s: State, step: Step) {
    match step
    case Login(username, _, _) => username != ""
    case Foreign(data) => SameLockoutKeys(s.kv.data, data)
    case _ => true
  }

  /** A login request: refused while locked, else checked; a failure is recorded, a success resets. */
  function LoggedIn(s: State, p: Policy, username: string, ip: string, valid: bool): State {
    var (kv, locked, _) := LockedSpec(s.kv, p, username, ip);
    if locked then s.(kv := kv)
    else
      State(if valid then Deleted(kv, ResetKeys(username, ip)) else FailureRecorded(kv, p, username, ip),
            s.trace + [Check(username, ip, s.kv.now, valid)])
  }

  function Exec(s: State, p: Policy, step: Step): State {
    match step
    case Tick(d) => s.(kv := s.kv.(now := s.kv.now + d))
    case Login(username, ip, valid) => LoggedIn(s, p, username, ip, valid)
    case UnlockUser(username) => State(UnlockSpec(s.kv, username).0, s.trace + [Unlocked(username)])
    case Foreign(data) => s.(kv := s.kv.(data := data))
  }

  ghost function Run(p: Policy, s: State, steps: seq<Step>): Option<State> {
    if steps == [] then Some(s)
    else
      match Run(p, s, steps[..|steps| - 1])
      case None => None
      case Some(t) => if Enabled(t, steps[|steps| - 1]) then Some(Exec(t, p, steps[|steps| - 1])) else None
  }

  ghost predicate Init(s: State) {
    s.trace == [] && s.kv.faults == {} && forall key: string | IsLockoutKey(key) :: key !in s.kv.data
  }

  predicate Configured(p: Policy) {
    p.maxAttempts >= 1 && p.window > 0 && p.lockTTL > 0
  }

  /** The window as the store keeps it, in whole milliseconds. */
  function Window(p: Policy): int {
    p.window / MILLISECOND * MILLISECOND
  }

  /** The lock time as the store keeps it. */
  function LockTime(p: Policy): (d: int)
    ensures d >= MILLISECOND
  {
    Millis(p.lockTTL)
  }

  // ---------- The failures of one subject ----------

  /** A failure, the value its counter reached, and when that counter's window started. */
  datatype Hit = Hit(at: int, n: int, start: int)

  predicate Concerns(e: Event, x: Subject)
    requires e.Check?
  {
    match x
    case User(name) => e.username == name
    case Ip(addr) => e.ip == addr
  }

  /** A successful login clears its username and its address, an unlock the username. */
  predicate Restarts(e: Event, x: Subject) {
    match e
    case Check(_, _, _, ok) => ok && Concerns(e, x)
    case Unlocked(username) => x == User(username)
  }

  /** The hit a failure at `at` makes: the next of the window, or the first of a new one. */
  function Guessed(p: Policy, hits: seq<Hit>, at: int): Hit {
    if hits == [] || at >= hits[|hits| - 1].start + Window(p) then Hit(at, 1, at)
    else Hit(at, hits[|hits| - 1].n + 1, hits[|hits| - 1].start)
  }

  /** The failed checks of a subject since it was last cleared, in order, counted by their times alone. */
  function HitsOf(p: Policy, trace: seq<Event>, x: Subject): seq<Hit> {
    if trace == [] then []
    else
      var last, earlier := trace[|trace| - 1], HitsOf(p, trace[..|trace| - 1], x);
      if Restarts(last, x) then []
      else if last.Check? && Concerns(last, x) then earlier + [Guessed(p, earlier, last.at)]
      else earlier
  }

  /**
    Counter values count up while the window lasts, past the maximum too; a new window starts only
    after the old one is over; and from the maximum on, every failure is followed by a whole lock time.
  */
  predicate Follows(p: Policy, a: Hit, b: Hit) {
    && a.at <= b.at
    && (a.n >= p.maxAttempts ==> b.at >= a.at + LockTime(p))
    && if b.n == 1 then b.start >= a.start + Window(p)
       else b.start == a.start && b.n == a.n + 1 && b.at < a.start + Window(p)
  }

  ghost predicate Anchored(p: Policy, hits: seq<Hit>) {
    && (forall i | 0 <= i < |hits| :: hits[i].n >= 1 && hits[i].start <= hits[i].at)
    && (forall i | 0 <= i < |hits| && hits[i].n == 1 :: hits[i].start == hits[i].at)
    && (forall i | 0 <= i < |hits| - 1 :: Follows(p, hits[i], hits[i + 1]))
  }

  /** The subject is locked by its last failure. */
  predicate LockedOut(p: Policy, hits: seq<Hit>, now: int) {
    hits != [] && hits[|hits| - 1].n >= p.maxAttempts && now < hits[|hits| - 1].at + LockTime(p)
  }

  ghost predicate SubjectInv(p: Policy, kv: Kv, hits: seq<Hit>, x: Subject) {
    && Anchored(p, hits)
    && (hits == [] ==> CounterKey(x) !in kv.data && LockKey(x) !in kv.data)
    && (hits != [] ==>
          var last := hits[|hits| - 1];
          var over := last.start + Window(p);
          && last.at <= kv.now
          && (if kv.Live(CounterKey(x))
              then kv.data[CounterKey(x)] == Entry(Number(last.n), Some(over))
              else kv.now >= over)
          && (kv.Live(LockKey(x)) <==> LockedOut(p, hits, kv.now))
          && (kv.Live(LockKey(x)) ==> kv.data[LockKey(x)] == Entry(Text("1"), Some(last.at + LockTime(p)))))
  }

  predicate IsLock(p: Policy, now: int, e: Entry) {
    e.value == Text("1") && e.expiry.Some? && e.expiry.value <= now + LockTime(p)
  }

  /** Whatever lies under a lock key is a lock that ends within the lock time; no store operation fails. */
  ghost predicate LocksFit(p: Policy, kv: Kv) {
    && kv.faults == {}
    && forall y: Subject | LockKey(y) in kv.data :: IsLock(p, kv.now, kv.data[LockKey(y)])
  }

  ghost predicate Inv(p: Policy, s: State, x: Subject) {
    LocksFit(p, s.kv) && SubjectInv(p, s.kv, HitsOf(p, s.trace, x), x)
  }

  predicate SameAt(kv: Kv, kv': Kv, key: string) {
    (key in kv.data <==> key in kv'.data) && (key in kv.data ==> kv.data[key] == kv'.data[key])
  }

  predicate SameSubject(kv: Kv, kv': Kv, x: Subject) {
    SameAt(kv, kv', CounterKey(x)) && SameAt(kv, kv', LockKey(x))
  }

  lemma FrameSubject(p: Policy, kv: Kv, kv': Kv, hits: seq<Hit>, x: Subject)
    requires SubjectInv(p, kv, hits, x) && SameSubject(kv, kv', x) && kv.now <= kv'.now
    ensures SubjectInv(p, kv', hits, x)
  {
  }

  // ---------- Waits ----------

  function Max(a: int, b: int): int {
    if a >= b then a else b
  }

  /** The longest time left on the locks under some keys, and zero when none is live. */
  function LongestOf(data: map<string, Entry>, now: int, keys: seq<string>): (d: int)
    ensures d >= 0
    decreases |keys|
  {
    if keys == [] then 0
    else
      var rest := LongestOf(data, now, keys[1..]);
      if keys[0] in data && data[keys[0]].expiry.Some? then Max(data[keys[0]].expiry.value - now, rest) else rest
  }

  function Longest(kv: Kv, username: string, ip: string): int {
    LongestOf(kv.data, kv.now, LockKeys(username, ip))
  }

  /** A lock whose reported time is zero is told the whole lock time. */
  function Told(p: Policy, locked: bool, wait: int): int {
    if locked && wait <= 0 then p.lockTTL else wait
  }

  lemma {:induction false} LongestIsLive(kv: Kv, p: Policy, keys: seq<string>)
    requires forall k | 0 <= k < |keys| && keys[k] in kv.data :: IsLock(p, kv.now, kv.data[keys[k]])
    ensures LongestOf(kv.data, kv.now, keys) > 0 <==> exists k | 0 <= k < |keys| :: kv.Live(keys[k])
    decreases |keys|
  {
    if keys != [] {
      var rest := keys[1..];
      assert forall k | 0 <= k < |rest| :: rest[k] == keys[k + 1];
      assert forall k | 0 < k < |keys| :: keys[k] == rest[k - 1];
      LongestIsLive(kv, p, rest);
    }
  }

  lemma NearestIsMonotone(a: int, b: int)
    requires 0 <= a && 0 <= b
    ensures Max(Nearest(a), Nearest(b)) == Nearest(Max(a, b)) >= 0
  {
  }

  lemma LongestWithLive(kv: Kv, keys: seq<string>, retryAfter: int)
    requires keys != [] && kv.Live(keys[0]) && kv.data[keys[0]].expiry.Some? && retryAfter >= 0
    ensures LongestOf(kv.data, kv.now, keys) > 0
    ensures var left := kv.data[keys[0]].expiry.value - kv.now;
            Max(Max(Nearest(left), retryAfter), Nearest(LongestOf(kv.data, kv.now, keys[1..]))) ==
            Max(retryAfter, Nearest(LongestOf(kv.data, kv.now, keys)))
  {
    NearestIsMonotone(kv.data[keys[0]].expiry.value - kv.now, LongestOf(kv.data, kv.now, keys[1..]));
  }

  lemma LongestWithoutLive(kv: Kv, keys: seq<string>)
    requires keys != [] && !kv.Live(keys[0])
    ensures LongestOf(kv.data, kv.now, keys) == LongestOf(kv.data, kv.now, keys[1..])
  {
  }

  lemma ScanStep(kv: Kv, p: Policy, keys: seq<string>, locked: bool, retryAfter: int)
    requires keys != [] && kv.faults == {} && retryAfter >= 0
    requires keys[0] in kv.data ==> IsLock(p, kv.now, kv.data[keys[0]])
    ensures Scan(kv, p, keys, locked, retryAfter) ==
            if kv.Live(keys[0])
            then Scan(kv.(ops := kv.ops + 2), p, keys[1..], true, Max(Nearest(kv.data[keys[0]].expiry.value - kv.now), retryAfter))
            else Scan(kv.(ops := kv.ops + 1), p, keys[1..], locked, retryAfter)
  {
  }

  /** The scan reports the longest lock, rounded as the store rounds. */
  lemma {:induction false} ScanReadsLocks(kv: Kv, p: Policy, keys: seq<string>, locked: bool, retryAfter: int)
    requires kv.faults == {} && retryAfter >= 0
    requires forall k | 0 <= k < |keys| && keys[k] in kv.data :: IsLock(p, kv.now, kv.data[keys[k]])
    ensures var (kv', l, wait) := Scan(kv, p, keys, locked, retryAfter);
            && kv' == kv.(ops := kv'.ops)
            && (l <==> locked || LongestOf(kv.data, kv.now, keys) > 0)
            && wait == Told(p, l, Max(retryAfter, Nearest(LongestOf(kv.data, kv.now, keys))))
    decreases |keys|
  {
    if keys != [] {
      var rest := keys[1..];
      assert forall k | 0 <= k < |rest| :: rest[k] == keys[k + 1];
      ScanStep(kv, p, keys, locked, retryAfter);
      if kv.Live(keys[0]) {
        var left := kv.data[keys[0]].expiry.value - kv.now;
        ScanReadsLocks(kv.(ops := kv.ops + 2), p, rest, true, Max(Nearest(left), retryAfter));
        LongestWithLive(kv, keys, retryAfter);
      } else {
        ScanReadsLocks(kv.(ops := kv.ops + 1), p, rest, locked, retryAfter);
        LongestWithoutLive(kv, keys);
      }
    }
  }

  // ---------- Single operations, without store errors ----------

  /** Which keys a bump may write, and what it writes as a lock. */
  lemma BumpTouches(kv: Kv, p: Policy, y: Subject, key: string)
    requires kv.faults == {} && p.lockTTL > 0
    ensures var after := Bumped(kv, p, y);
            && after.faults == {} && after.now == kv.now
            && (key != CounterKey(y) && key != LockKey(y) ==> SameAt(kv, after, key))
            && (key == LockKey(y) != CounterKey(y) ==>
                  SameAt(kv, after, key) || (key in after.data && IsLock(p, kv.now, after.data[key])))
  {
  }

  lemma BumpLeavesOthers(kv: Kv, p: Policy, y: Subject, x: Subject)
    requires LocksFit(p, kv) && p.lockTTL > 0
    ensures LocksFit(p, Bumped(kv, p, y)) && Bumped(kv, p, y).now == kv.now
    ensures x != y ==> SameSubject(kv, Bumped(kv, p, y), x)
  {
    SubjectKeysAreDistinct(x, y);
    SubjectKeysAreDistinct(y, x);
    BumpTouches(kv, p, y, CounterKey(x));
    BumpTouches(kv, p, y, LockKey(x));
    forall z: Subject | LockKey(z) in Bumped(kv, p, y).data
      ensures IsLock(p, kv.now, Bumped(kv, p, y).data[LockKey(z)])
    {
      SubjectKeysAreDistinct(y, z);
      BumpTouches(kv, p, y, LockKey(z));
    }
  }

  lemma {:induction false} DeleteLeavesOthers(p: Policy, kv: Kv, keys: seq<string>, x: Subject)
    requires LocksFit(p, kv)
    ensures LocksFit(p, Deleted(kv, keys)) && Deleted(kv, keys).now == kv.now
    ensures CounterKey(x) !in keys && LockKey(x) !in keys ==> SameSubject(kv, Deleted(kv, keys), x)
    decreases |keys|
  {
    if keys != [] {
      DeleteLeavesOthers(p, kv.Del(keys[0]).0, keys[1..], x);
    }
  }

  /** A failure recorded while the subject is not locked extends its history as `Anchored` says. */
  lemma {:induction false} BumpAddsHit(kv: Kv, p: Policy, hits: seq<Hit>, x: Subject)
    requires Configured(p) && kv.faults == {} && SubjectInv(p, kv, hits, x) && !kv.Live(LockKey(x))
    ensures SubjectInv(p, Bumped(kv, p, x), hits + [Guessed(p, hits, kv.now)], x)
  {
    NextIsGuessed(kv, p, hits, x);
    AnchoredGrows(p, hits, Guessed(p, hits, kv.now));
    BumpWritesHit(kv, p, hits, x);
  }

  lemma NextIsGuessed(kv: Kv, p: Policy, hits: seq<Hit>, x: Subject)
    requires Configured(p) && SubjectInv(p, kv, hits, x) && !kv.Live(LockKey(x))
    ensures kv.Incremented(CounterKey(x)) == Some(Guessed(p, hits, kv.now).n)
    ensures hits != [] ==> Follows(p, hits[|hits| - 1], Guessed(p, hits, kv.now))
  {
  }

  lemma AnchoredGrows(p: Policy, hits: seq<Hit>, h: Hit)
    requires Anchored(p, hits) && h.n >= 1 && h.start <= h.at && (h.n == 1 ==> h.start == h.at)
    requires hits != [] ==> Follows(p, hits[|hits| - 1], h)
    ensures Anchored(p, hits + [h])
  {
  }

  /** What a bump leaves under the subject's two keys. */
  lemma BumpWritesHit(kv: Kv, p: Policy, hits: seq<Hit>, x: Subject)
    requires Configured(p) && kv.faults == {} && SubjectInv(p, kv, hits, x) && !kv.Live(LockKey(x))
    requires kv.Incremented(CounterKey(x)) == Some(Guessed(p, hits, kv.now).n)
    ensures var h, after := Guessed(p, hits, kv.now), Bumped(kv, p, x);
            && after.now == kv.now
            && (if after.Live(CounterKey(x))
                then after.data[CounterKey(x)] == Entry(Number(h.n), Some(h.start + Window(p)))
                else kv.now >= h.start + Window(p))
            && (after.Live(LockKey(x)) <==> h.n >= p.maxAttempts)
            && (after.Live(LockKey(x)) ==> after.data[LockKey(x)] == Entry(Text("1"), Some(kv.now + LockTime(p))))
  {
    SubjectKeysAreDistinct(x, x);
  }

  // ---------- Steps ----------

  predicate Named(x: Subject) {
    if x.User? then x.name != "" else x.addr != ""
  }

  /** A request gets through exactly when neither of its subjects is locked. */
  lemma LockedMeansHeld(kv: Kv, p: Policy, username: string, ip: string)
    requires LocksFit(p, kv)
    ensures var (kv', locked, wait) := LockedSpec(kv, p, username, ip);
            && kv' == kv.(ops := kv'.ops)
            && (locked <==> (username != "" && kv.Live(LockKey(User(username)))) || (ip != "" && kv.Live(LockKey(Ip(ip)))))
            && (locked <==> Longest(kv, username, ip) > 0)
            && wait == Told(p, locked, Nearest(Longest(kv, username, ip)))
  {
    var keys := LockKeys(username, ip);
    LocksOfRequestFit(p, kv, username, ip);
    ScanReadsLocks(kv, p, keys, false, 0);
    LongestIsLive(kv, p, keys);
    assert username != "" ==> keys[0] == LockKey(User(username));
    assert ip != "" ==> keys[|keys| - 1] == LockKey(Ip(ip));
  }

  lemma {:induction false} FailedLoginKeepsInv(p: Policy, s: State, username: string, ip: string, x: Subject)
    requires Configured(p) && Inv(p, s, x) && Named(x) && username != ""
    requires !LockedSpec(s.kv, p, username, ip).1
    ensures var t := LoggedIn(s, p, username, ip, false);
            && Inv(p, t, x) && t.kv.now == s.kv.now
            && HitsOf(p, t.trace, x) == HitsOf(p, s.trace, x) +
                 if x == User(username) || x == Ip(ip) then [Guessed(p, HitsOf(p, s.trace, x), s.kv.now)] else []
  {
    var kv := LockedSpec(s.kv, p, username, ip).0;
    LockedMeansHeld(s.kv, p, username, ip);
    FrameSubject(p, s.kv, kv, HitsOf(p, s.trace, x), x);
    FailureAddsCheck(s, p, username, ip, x);
    FailureKeepsSubject(p, kv, username, ip, HitsOf(p, s.trace, x), x);
  }

  lemma FailureAddsCheck(s: State, p: Policy, username: string, ip: string, x: Subject)
    requires !LockedSpec(s.kv, p, username, ip).1
    ensures var t, kv, hits := LoggedIn(s, p, username, ip, false), LockedSpec(s.kv, p, username, ip).0, HitsOf(p, s.trace, x);
            && t.kv == FailureRecorded(kv, p, username, ip)
            && HitsOf(p, t.trace, x) ==
               hits + if x == User(username) || x == Ip(ip) then [Guessed(p, hits, s.kv.now)] else []
  {
    assert LoggedIn(s, p, username, ip, false).trace[..|s.trace|] == s.trace;
  }

  lemma {:induction false} FailureKeepsSubject(
    p: Policy, kv: Kv, username: string, ip: string, hits: seq<Hit>, x: Subject)
    requires Configured(p) && LocksFit(p, kv) && SubjectInv(p, kv, hits, x)
    requires x == User(username) || x == Ip(ip) ==> !kv.Live(LockKey(x))
    ensures var after, h := FailureRecorded(kv, p, username, ip), Guessed(p, hits, kv.now);
            && LocksFit(p, after) && after.now == kv.now
            && SubjectInv(p, after, if x == User(username) || x == Ip(ip) then hits + [h] else hits, x)
  {
    var kv1 := Bumped(kv, p, User(username));
    BumpLeavesOthers(kv, p, User(username), x);
    BumpLeavesOthers(kv1, p, Ip(ip), x);
    if x == User(username) {
      BumpAddsHit(kv, p, hits, x);
      FrameSubject(p, kv1, Bumped(kv1, p, Ip(ip)), hits + [Guessed(p, hits, kv.now)], x);
    } else {
      FrameSubject(p, kv, kv1, hits, x);
      if x == Ip(ip) {
        BumpAddsHit(kv1, p, hits, x);
      } else {
        FrameSubject(p, kv1, Bumped(kv1, p, Ip(ip)), hits, x);
      }
    }
  }

  lemma {:induction false} SuccessfulLoginKeepsInv(p: Policy, s: State, username: string, ip: string, x: Subject)
    requires Configured(p) && Inv(p, s, x) && !LockedSpec(s.kv, p, username, ip).1
    ensures Inv(p, LoggedIn(s, p, username, ip, true), x)
  {
    LockedMeansHeld(s.kv, p, username, ip);
    var kv, hits := LockedSpec(s.kv, p, username, ip).0, HitsOf(p, s.trace, x);
    FrameSubject(p, s.kv, kv, hits, x);
    SuccessClears(p, kv, username, ip, hits, x);
    SuccessIsLogged(s, p, username, ip, x);
  }

  lemma SuccessIsLogged(s: State, p: Policy, username: string, ip: string, x: Subject)
    requires !LockedSpec(s.kv, p, username, ip).1
    ensures var t, kv := LoggedIn(s, p, username, ip, true), LockedSpec(s.kv, p, username, ip).0;
            && t.kv == Deleted(kv, ResetKeys(username, ip))
            && HitsOf(p, t.trace, x) == if x == User(username) || x == Ip(ip) then [] else HitsOf(p, s.trace, x)
  {
    assert LoggedIn(s, p, username, ip, true).trace[..|s.trace|] == s.trace;
  }

  lemma {:induction false} LoginKeepsInv(p: Policy, s: State, username: string, ip: string, valid: bool, x: Subject)
    requires Configured(p) && Inv(p, s, x) && Named(x) && username != ""
    ensures Inv(p, LoggedIn(s, p, username, ip, valid), x)
  {
    if LockedSpec(s.kv, p, username, ip).1 {
      LockedMeansHeld(s.kv, p, username, ip);
      FrameSubject(p, s.kv, LockedSpec(s.kv, p, username, ip).0, HitsOf(p, s.trace, x), x);
    } else if valid {
      SuccessfulLoginKeepsInv(p, s, username, ip, x);
    } else {
      FailedLoginKeepsInv(p, s, username, ip, x);
    }
  }

  /** What is deleted is gone, and stays gone for the rest of the list. */
  lemma {:induction false} DeletedAreGone(kv: Kv, keys: seq<string>, key: string)
    requires kv.faults == {} && (key in keys || key !in kv.data)
    ensures key !in Deleted(kv, keys).data
    decreases |keys|
  {
    if keys != [] {
      assert key in keys ==> key == keys[0] || key in keys[1..];
      DeletedAreGone(kv.Del(keys[0]).0, keys[1..], key);
    }
  }

  /** A successful login clears the counters and the locks of its username and address, and no others. */
  lemma {:induction false} SuccessClears(
    p: Policy, kv: Kv, username: string, ip: string, hits: seq<Hit>, x: Subject)
    requires LocksFit(p, kv) && SubjectInv(p, kv, hits, x)
    ensures var after := Deleted(kv, ResetKeys(username, ip));
            && LocksFit(p, after) && after.now == kv.now
            && SubjectInv(p, after, if x == User(username) || x == Ip(ip) then [] else hits, x)
  {
    var keys := ResetKeys(username, ip);
    DeleteLeavesOthers(p, kv, keys, x);
    if x == User(username) || x == Ip(ip) {
      DeletedAreGone(kv, keys, CounterKey(x));
      DeletedAreGone(kv, keys, LockKey(x));
    } else {
      SubjectKeysAreDistinct(x, User(username));
      SubjectKeysAreDistinct(User(username), x);
      SubjectKeysAreDistinct(x, Ip(ip));
      SubjectKeysAreDistinct(Ip(ip), x);
      FrameSubject(p, kv, Deleted(kv, keys), hits, x);
    }
  }

  lemma {:induction false} UnlockClears(p: Policy, s: State, username: string, x: Subject)
    requires Inv(p, s, x) && Named(x)
    ensures SubjectInv(p, UnlockSpec(s.kv, username).0, if x == User(username) then [] else HitsOf(p, s.trace, x), x)
  {
    SubjectKeysAreDistinct(x, User(username));
    SubjectKeysAreDistinct(User(username), x);
    if x != User(username) {
      FrameSubject(p, s.kv, UnlockSpec(s.kv, username).0, HitsOf(p, s.trace, x), x);
    }
  }

  lemma LockoutKeys()
    ensures forall y: Subject :: IsLockoutKey(CounterKey(y)) && IsLockoutKey(LockKey(y))
  {
  }

  /** No step, a reset or an unlock included, writes anything but a lock under a lock key. */
  lemma {:induction false} StepKeepsLocks(p: Policy, s: State, step: Step)
    requires Configured(p) && LocksFit(p, s.kv) && Enabled(s, step)
    ensures LocksFit(p, Exec(s, p, step).kv)
  {
    match step
    case Login(username, ip, valid) =>
      LockedMeansHeld(s.kv, p, username, ip);
      var (kv, locked, _) := LockedSpec(s.kv, p, username, ip);
      if !locked && valid {
        DeleteLeavesOthers(p, kv, ResetKeys(username, ip), Ip(ip));
      } else if !locked {
        BumpLeavesOthers(kv, p, User(username), Ip(ip));
        BumpLeavesOthers(Bumped(kv, p, User(username)), p, Ip(ip), Ip(ip));
      }
    case Foreign(_) => LockoutKeys();
    case _ =>
  }

  lemma {:induction false} RunKeepsLocks(p: Policy, s0: State, steps: seq<Step>, s: State)
    requires Configured(p) && Init(s0) && Run(p, s0, steps) == Some(s)
    ensures LocksFit(p, s.kv)
    decreases |steps|
  {
    if steps == [] {
      LockoutKeys();
    } else {
      RunKeepsLocks(p, s0, steps[..|steps| - 1], Run(p, s0, steps[..|steps| - 1]).value);
      StepKeepsLocks(p, Run(p, s0, steps[..|steps| - 1]).value, steps[|steps| - 1]);
    }
  }

  lemma {:induction false} StepKeepsInv(p: Policy, s: State, step: Step, x: Subject)
    requires Configured(p) && Inv(p, s, x) && Named(x) && Enabled(s, step)
    ensures Inv(p, Exec(s, p, step), x)
  {
    var t := Exec(s, p, step);
    StepKeepsLocks(p, s, step);
    match step
    case Login(username, ip, valid) => LoginKeepsInv(p, s, username, ip, valid, x);
    case Tick(_) => FrameSubject(p, s.kv, t.kv, HitsOf(p, s.trace, x), x);
    case UnlockUser(username) =>
      assert t.trace[..|s.trace|] == s.trace;
      UnlockClears(p, s, username, x);
    case Foreign(_) =>
      LockoutKeys();
      FrameSubject(p, s.kv, t.kv, HitsOf(p, s.trace, x), x);
  }

  lemma {:induction false} RunKeepsInv(p: Policy, s0: State, steps: seq<Step>, s: State, x: Subject)
    requires Configured(p) && Init(s0) && Run(p, s0, steps) == Some(s) && Named(x)
    ensures Inv(p, s, x)
    decreases |steps|
  {
    if steps == [] {
      LockoutKeys();
    } else {
      var mid := Run(p, s0, steps[..|steps| - 1]).value;
      RunKeepsInv(p, s0, steps[..|steps| - 1], mid, x);
      StepKeepsInv(p, mid, steps[|steps| - 1], x);
    }
  }

  // ---------- Store errors ----------

  /** A lock that cannot be read counts for nothing: the request is let through, whatever the other key says. */
  lemma LockedFailsOpen(kv: Kv, p: Policy, username: string, ip: string)
    ensures var (_, locked, wait) := LockedSpec(kv, p, username, ip);
            var second := kv.ops + if kv.Live(LockKey(User(username))) then 2 else 1;
            && ((username != "" || ip != "") && kv.ops in kv.faults ==> !locked && wait == 0)
            && (username != "" && ip != "" && second in kv.faults ==> !locked && wait == 0)
  {
    var keys := LockKeys(username, ip);
    if username != "" && ip != "" && kv.ops + (if kv.Live(LockKey(User(username))) then 2 else 1) in kv.faults {
      assert keys == [LockKey(User(username)), LockKey(Ip(ip))];
      var (kv1, held) := kv.Get(keys[0]);
      if held.Ok? {
        var (kv2, ttl) := kv1.TTL(keys[0]);
        ScanFailsOpen(kv2, p, keys[1..], true, if ttl.Ok? && ttl.value > 0 then ttl.value else 0);
      } else if held.error == Miss {
        ScanFailsOpen(kv1, p, keys[1..], false, 0);
      }
    }
  }

  lemma ScanFailsOpen(kv: Kv, p: Policy, keys: seq<string>, locked: bool, retryAfter: int)
    requires keys != [] && kv.ops in kv.faults
    ensures !Scan(kv, p, keys, locked, retryAfter).1 && Scan(kv, p, keys, locked, retryAfter).2 == 0
  {
  }

  /** A lock whose remaining time cannot be read is told the whole lock time. */
  lemma UnreadableWaitIsTheLockTime(kv: Kv, p: Policy, username: string)
    requires username != "" && kv.ops !in kv.faults && kv.ops + 1 in kv.faults
    requires kv.Live(LockKey(User(username))) && kv.data[LockKey(User(username))].value.Text?
    ensures LockedSpec(kv, p, username, "").1 && LockedSpec(kv, p, username, "").2 == p.lockTTL
  {
    var keys := LockKeys(username, "");
    assert keys == [LockKey(User(username))] && keys[1..] == [];
    var kv2 := kv.Get(keys[0]).0.TTL(keys[0]).0;
    assert Scan(kv, p, keys, false, 0) == Scan(kv2, p, [], true, 0);
  }

  /** A failure that cannot be counted changes nothing. */
  lemma UncountedFailureIsIgnored(kv: Kv, p: Policy, x: Subject)
    requires kv.ops in kv.faults
    ensures Bumped(kv, p, x) == kv.(ops := kv.ops + 1)
  {
  }

  lemma {:induction false} DeletedShrinks(kv: Kv, keys: seq<string>)
    ensures Deleted(kv, keys).data.Keys <= kv.data.Keys
    decreases |keys|
  {
    if keys != [] {
      DeletedShrinks(kv.Del(keys[0]).0, keys[1..]);
    }
  }

  /** A reset goes on after an error: every key whose own deletion works is gone. */
  lemma {:induction false} ResetGoesOn(kv: Kv, keys: seq<string>, k: nat)
    requires k < |keys| && kv.ops + k !in kv.faults
    ensures keys[k] !in Deleted(kv, keys).data
    decreases k
  {
    var next := kv.Del(keys[0]).0;
    if k == 0 {
      DeletedShrinks(next, keys[1..]);
    } else {
      ResetGoesOn(next, keys[1..], k - 1);
    }
  }

  /** An unlock stops at its first error, and reports it. */
  lemma UnlockStops(kv: Kv, username: string)
    ensures var (after, r) := UnlockSpec(kv, username);
            && (r.Ok? <==> kv.ops !in kv.faults && kv.ops + 1 !in kv.faults)
            && (kv.ops in kv.faults ==> after.data == kv.data)
            && (r.Ok? ==> CounterKey(User(username)) !in after.data && LockKey(User(username)) !in after.data)
            && forall key | key !in [CounterKey(User(username)), LockKey(User(username))] :: SameAt(kv, after, key)
  {
  }

  // ---------- Main results ----------

  /**
    A request is refused exactly when the last failure of its username or of its address, since that
    was last cleared by a successful login or an unlock, brought a counter to the maximum or beyond,
    less than the lock time ago.
  */
  lemma LocksFollowFailures(p: Policy, s0: State, steps: seq<Step>, s: State, username: string, ip: string)
    requires Configured(p) && Init(s0) && Run(p, s0, steps) == Some(s)
    requires username != ""
    ensures LockedSpec(s.kv, p, username, ip).1 <==>
              LockedOut(p, HitsOf(p, s.trace, User(username)), s.kv.now)
              || (ip != "" && LockedOut(p, HitsOf(p, s.trace, Ip(ip)), s.kv.now))
  {
    RunKeepsInv(p, s0, steps, s, User(username));
    if ip != "" {
      RunKeepsInv(p, s0, steps, s, Ip(ip));
    }
    LockedMeansHeld(s.kv, p, username, ip);
  }

  /** The rounding that a reported wait survives: up, or exact, or to zero, which is told the whole lock time. */
  predicate RoundsUp(left: int) {
    left % SECOND == 0 || left % SECOND >= SECOND / 2 || left < SECOND / 2
  }

  lemma LongestFits(p: Policy, kv: Kv, keys: seq<string>)
    requires forall k | 0 <= k < |keys| && keys[k] in kv.data :: IsLock(p, kv.now, kv.data[keys[k]])
    ensures LongestOf(kv.data, kv.now, keys) <= LockTime(p)
    decreases |keys|
  {
    if keys != [] {
      assert forall k | 0 <= k < |keys[1..]| :: keys[1..][k] == keys[k + 1];
      LongestFits(p, kv, keys[1..]);
    }
  }

  lemma NearestFacts(d: int)
    requires d > 0
    ensures Nearest(d) >= 0 && d - SECOND / 2 < Nearest(d) <= d + SECOND / 2 && Nearest(d) % SECOND == 0
    ensures Nearest(d) == 0 <==> d < SECOND / 2
    ensures Nearest(d) >= d <==> d % SECOND == 0 || d % SECOND >= SECOND / 2
  {
  }

  /**
    The wait that a refused request is told falls short of its longest lock by less than half a
    second, and covers it exactly when the store's rounding was not downward to a positive number; so
    do the whole seconds of its Retry-After header.
  */
  lemma {:induction false} WaitCoversUnlessRoundedDown(
    p: Policy, s0: State, steps: seq<Step>, s: State, username: string, ip: string)
    requires Configured(p) && Init(s0) && Run(p, s0, steps) == Some(s)
    requires LockedSpec(s.kv, p, username, ip).1
    ensures var wait, left := LockedSpec(s.kv, p, username, ip).2, Longest(s.kv, username, ip);
            && 0 < left <= LockTime(p) && wait > left - SECOND / 2
            && (p.lockTTL >= MILLISECOND ==> (wait >= left <==> RoundsUp(left)))
            && (p.lockTTL <= MAX_INT64 - 2 * SECOND ==> (SecondsOf(wait) * SECOND >= left <==> RoundsUp(left)))
  {
    RunKeepsLocks(p, s0, steps, s);
    LockedMeansHeld(s.kv, p, username, ip);
    var wait, left := LockedSpec(s.kv, p, username, ip).2, Longest(s.kv, username, ip);
    LocksOfRequestFit(p, s.kv, username, ip);
    LongestFits(p, s.kv, LockKeys(username, ip));
    NearestFacts(left);
    if p.lockTTL <= MAX_INT64 - 2 * SECOND {
      SecondsRoundUp(wait);
      if wait % SECOND == 0 {
        WholeSeconds(wait);
      }
    }
  }

  lemma WholeSeconds(d: int)
    requires 0 < d <= MAX_INT64 - (SECOND - 1) && d % SECOND == 0
    ensures SecondsOf(d) * SECOND == d
  {
    SecondsRoundUp(d);
    assert d / SECOND * SECOND == d;
  }

  lemma LocksOfRequestFit(p: Policy, kv: Kv, username: string, ip: string)
    requires LocksFit(p, kv)
    ensures forall k | 0 <= k < |LockKeys(username, ip)| && LockKeys(username, ip)[k] in kv.data ::
              IsLock(p, kv.now, kv.data[LockKeys(username, ip)[k]])
  {
    var keys := LockKeys(username, ip);
    forall k | 0 <= k < |keys| && keys[k] in kv.data
      ensures IsLock(p, kv.now, kv.data[keys[k]])
    {
      assert keys[k] == LockKey(User(username)) || keys[k] == LockKey(Ip(ip));
    }
  }
}
