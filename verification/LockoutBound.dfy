/**
  How many failed password checks one window can hold, exactly: a bound for every policy and a run
  that attains it.
*/
module LockoutBound {
  import opened Wrappers
  import opened KeyStore
  import opened Lockout
  import opened Durations
  import opened LockoutRuns

  /** How many whole lock times fit strictly inside a window. */
  function Relocks(p: Policy): nat
    requires Configured(p) && Window(p) > 0
  {
    (Window(p) - 1) / LockTime(p)
  }

  /**
    The most failures that any half-open interval of one window holds. Two anchored windows meet in
    it; the first failure of the earlier one lies outside, and every failure from the maximum on costs
    a lock time.
  */
  function Worst(p: Policy): nat
    requires Configured(p)
  {
    if Window(p) == 0 then 0
    else (if p.maxAttempts == 1 then 1 else 2 * p.maxAttempts - 2) + Relocks(p)
  }

  // ---------- The bound ----------

  lemma {:induction false} Monotone(p: Policy, hits: seq<Hit>, i: int, j: int)
    requires Configured(p) && Anchored(p, hits) && 0 <= i <= j < |hits|
    ensures hits[i].at <= hits[j].at && hits[i].start <= hits[j].start
    decreases j - i
  {
    if i < j {
      Monotone(p, hits, i, j - 1);
      assert Follows(p, hits[j - 1], hits[j]);
    }
  }

  /** A failure that starts a window comes a whole window after the start of any earlier one. */
  lemma {:induction false} WindowsAreApart(p: Policy, hits: seq<Hit>, i: int, b: int)
    requires Configured(p) && Anchored(p, hits) && 0 <= i < b < |hits| && hits[b].n == 1
    ensures hits[b].at == hits[b].start >= hits[i].start + Window(p)
  {
    Monotone(p, hits, i, b - 1);
    assert Follows(p, hits[b - 1], hits[b]);
  }

  /** How many failures from counter value `n` up to but excluding `m` set a lock. */
  function LocksSet(p: Policy, n: int, m: int): int {
    if m <= p.maxAttempts then 0 else m - Max(n, p.maxAttempts)
  }

  /** Within one window the counter goes up by one, and every lock takes its time. */
  lemma {:induction false} LocksTakeTime(p: Policy, hits: seq<Hit>, i: int, j: int)
    requires Configured(p) && Anchored(p, hits) && 0 <= i <= j < |hits|
    requires forall k | i < k <= j :: hits[k].n != 1
    ensures hits[j].n == hits[i].n + j - i
    ensures hits[j].at >= hits[i].at + LockTime(p) * LocksSet(p, hits[i].n, hits[j].n)
    decreases j - i
  {
    if i < j {
      LocksTakeTime(p, hits, i, j - 1);
      assert Follows(p, hits[j - 1], hits[j]);
      OneMore(LockTime(p), LocksSet(p, hits[i].n, hits[j - 1].n));
    }
  }

  lemma OneMore(m: int, k: int)
    ensures m * (k + 1) == m * k + m && m * 0 == 0
  {
  }

  /** The same across the start of a new window: the last failure before it may have locked as well. */
  lemma {:induction false} LocksTakeTimeAcross(p: Policy, hits: seq<Hit>, i: int, b: int, j: int) returns (locks: nat)
    requires Configured(p) && Anchored(p, hits) && 0 <= i < b <= j < |hits| && hits[b].n == 1 && hits[i].n != 1
    requires forall k | i < k <= j && k != b :: hits[k].n != 1
    ensures hits[j].at >= hits[i].at + LockTime(p) * locks
    ensures j - i + 1 <= (if p.maxAttempts == 1 then 1 else 2 * p.maxAttempts - 2) + locks
  {
    LocksTakeTime(p, hits, i, b - 1);
    LocksTakeTime(p, hits, b, j);
    assert Follows(p, hits[b - 1], hits[b]);
    assert hits[i].n >= 1;
    var before, after := LocksSet(p, hits[i].n, hits[b - 1].n), LocksSet(p, 1, hits[j].n);
    var between := if hits[b - 1].n >= p.maxAttempts then 1 else 0;
    locks := before + between + after;
    Distribute(LockTime(p), before, between, after);
  }

  lemma Distribute(m: int, a: int, b: int, c: int)
    ensures m * (a + b + c) == m * a + m * b + m * c
  {
  }

  lemma {:induction false} FewLocksFit(p: Policy, locks: nat)
    requires Configured(p) && LockTime(p) * locks < Window(p)
    ensures locks <= Relocks(p)
  {
    MulMonotone(LockTime(p), 0, locks);
    var q := Relocks(p);
    assert Window(p) - 1 == LockTime(p) * q + (Window(p) - 1) % LockTime(p);
    OneMore(LockTime(p), q);
    if locks > q {
      MulMonotone(LockTime(p), q + 1, locks);
    }
  }

  lemma MulMonotone(m: int, i: int, j: int)
    requires m > 0 && i <= j
    ensures m * i <= m * j
  {
  }

  /** More than `Worst` failures in a row take at least a window. */
  lemma {:induction false} FailuresAreSpread(p: Policy, hits: seq<Hit>, i: int, j: int)
    requires Configured(p) && Anchored(p, hits) && 0 <= i <= j < |hits|
    requires hits[j].at < hits[i].at + Window(p)
    ensures j - i + 1 <= Worst(p)
  {
    Monotone(p, hits, i, j);
    if b :| i < b <= j && hits[b].n == 1 {
      WindowsAreApart(p, hits, i, b);
      Monotone(p, hits, b, j);
      forall c | i < c <= j && c != b
        ensures hits[c].n != 1
      {
        if hits[c].n == 1 {
          WindowsAreApart(p, hits, i, c);
          WindowsAreApart(p, hits, if c < b then c else b, if c < b then b else c);
          Monotone(p, hits, i, if c < b then c else b);
          Monotone(p, hits, c, j);
        }
      }
      var locks := LocksTakeTimeAcross(p, hits, i, b, j);
      FewLocksFit(p, locks);
    } else {
      LocksTakeTime(p, hits, i, j);
      assert hits[i].n >= 1;
      FewLocksFit(p, LocksSet(p, hits[i].n, hits[j].n));
    }
  }

  function CountBetween(hits: seq<Hit>, from: int, to: int): nat {
    if hits == [] then 0
    else CountBetween(hits[..|hits| - 1], from, to) + if from <= hits[|hits| - 1].at < to then 1 else 0
  }

  lemma {:induction false} CountTail(hits: seq<Hit>, from: int, to: int, m: nat)
    requires m <= |hits| && forall k | 0 <= k < m :: hits[k].at < from
    ensures CountBetween(hits, from, to) <= |hits| - m
    decreases |hits|
  {
    if |hits| > m {
      CountTail(hits[..|hits| - 1], from, to, m);
    } else if hits != [] {
      CountTail(hits[..|hits| - 1], from, to, |hits| - 1);
    }
  }

  lemma {:induction false} SpreadBoundsCount(p: Policy, hits: seq<Hit>, from: int)
    requires Configured(p) && Anchored(p, hits)
    ensures CountBetween(hits, from, from + Window(p)) <= Worst(p)
    decreases |hits|
  {
    if hits != [] {
      var n := |hits| - 1;
      if hits[n].at < from + Window(p) {
        var m := if |hits| <= Worst(p) then 0 else |hits| - Worst(p);
        forall k | 0 <= k < m
          ensures hits[k].at < from
        {
          Monotone(p, hits, k, n);
          if hits[k].at >= from {
            FailuresAreSpread(p, hits, k, n);
          }
        }
        CountTail(hits, from, from + Window(p), m);
      } else {
        SpreadBoundsCount(p, hits[..n], from);
      }
    }
  }

  /** Failed checks of a subject since it was last cleared, within one window from an instant on. */
  function FailuresFrom(p: Policy, trace: seq<Event>, x: Subject, from: int): nat {
    CountBetween(HitsOf(p, trace, x), from, from + Window(p))
  }

  lemma HistoryIsAnchored(p: Policy, s0: State, steps: seq<Step>, s: State, x: Subject)
    requires Configured(p) && Init(s0) && Run(p, s0, steps) == Some(s)
    requires Named(x)
    ensures Anchored(p, HitsOf(p, s.trace, x))
  {
    RunKeepsInv(p, s0, steps, s, x);
  }

  /** Since a username or an address was last cleared, however the attempts are timed and mixed. */
  lemma FailedChecksAreBounded(p: Policy, s0: State, steps: seq<Step>, s: State, x: Subject, from: int)
    requires Configured(p) && Init(s0) && Run(p, s0, steps) == Some(s)
    requires Named(x)
    ensures FailuresFrom(p, s.trace, x, from) <= Worst(p)
  {
    HistoryIsAnchored(p, s0, steps, s, x);
    SpreadBoundsCount(p, HitsOf(p, s.trace, x), from);
  }

  // ---------- Playing a schedule of failures ----------

  /** Nothing but failures of one client for one username. */
  ghost predicate OnlyFailures(trace: seq<Event>, user: string, ip: string) {
    forall k | 0 <= k < |trace| :: trace[k].Check? && trace[k].username == user && trace[k].ip == ip && !trace[k].ok
  }

  /** A run of such failures; `hits` is what both counters have seen. */
  datatype Play = Play(p: Policy, user: string, ip: string, s0: State, steps: seq<Step>, s: State, hits: seq<Hit>) {

    ghost predicate Valid() {
      && Configured(p) && user != "" && ip != ""
      && Init(s0) && Run(p, s0, steps) == Some(s)
      && HitsOf(p, s.trace, User(user)) == hits == HitsOf(p, s.trace, Ip(ip))
      && OnlyFailures(s.trace, user, ip)
    }

    /** Same client, same start. */
    predicate Continues(that: Play) {
      p == that.p && user == that.user && ip == that.ip && s0 == that.s0
    }
  }

  lemma Opening(p: Policy, start: int, user: string, ip: string) returns (play: Play)
    requires Configured(p) && user != "" && ip != ""
    ensures play.Valid() && play.p == p && play.user == user && play.ip == ip
    ensures play.hits == [] && play.s0.kv.now == start == play.s.kv.now
  {
    var s0 := State(Kv(map[], start, 0, {}), []);
    play := Play(p, user, ip, s0, [], s0, []);
  }

  lemma PlayKeepsInv(play: Play)
    requires play.Valid()
    ensures Inv(play.p, play.s, User(play.user)) && Inv(play.p, play.s, Ip(play.ip))
  {
    RunKeepsInv(play.p, play.s0, play.steps, play.s, User(play.user));
    RunKeepsInv(play.p, play.s0, play.steps, play.s, Ip(play.ip));
  }

  lemma Wait(play: Play, at: int) returns (next: Play)
    requires play.Valid() && at >= play.s.kv.now
    ensures next.Valid() && next.Continues(play)
    ensures next.s.kv.now == at && next.hits == play.hits && next.s.trace == play.s.trace
  {
    var tick := Tick(at - play.s.kv.now);
    next := play.(steps := play.steps + [tick], s := Exec(play.s, play.p, tick));
    RunOneMore(play.p, play.s0, play.steps, play.s, tick);
  }

  lemma Unlocked(play: Play)
    requires play.Valid() && !LockedOut(play.p, play.hits, play.s.kv.now)
    ensures !LockedSpec(play.s.kv, play.p, play.user, play.ip).1
  {
    PlayKeepsInv(play);
    LockedMeansHeld(play.s.kv, play.p, play.user, play.ip);
  }

  lemma FailureIsCounted(play: Play, x: Subject)
    requires play.Valid() && !LockedSpec(play.s.kv, play.p, play.user, play.ip).1
    requires x == User(play.user) || x == Ip(play.ip)
    ensures var t := LoggedIn(play.s, play.p, play.user, play.ip, false);
            t.kv.now == play.s.kv.now && HitsOf(play.p, t.trace, x) == play.hits + [Guessed(play.p, play.hits, play.s.kv.now)]
  {
    PlayKeepsInv(play);
    FailedLoginKeepsInv(play.p, play.s, play.user, play.ip, x);
  }

  lemma FailureIsLogged(s: State, p: Policy, user: string, ip: string)
    requires OnlyFailures(s.trace, user, ip) && !LockedSpec(s.kv, p, user, ip).1
    ensures OnlyFailures(LoggedIn(s, p, user, ip, false).trace, user, ip)
  {
  }

  lemma RunOneMore(p: Policy, s0: State, steps: seq<Step>, s: State, step: Step)
    requires Run(p, s0, steps) == Some(s) && Enabled(s, step)
    ensures Run(p, s0, steps + [step]) == Some(Exec(s, p, step))
  {
    assert (steps + [step])[..|steps|] == steps;
  }

  /** An unlocked client fails once more. */
  lemma Fail(play: Play, at: int) returns (next: Play)
    requires play.Valid() && at >= play.s.kv.now && !LockedOut(play.p, play.hits, at)
    ensures next.Valid() && next.Continues(play)
    ensures next.s.kv.now == at && next.hits == play.hits + [Guessed(play.p, play.hits, at)]
  {
    var mid := Wait(play, at);
    Unlocked(mid);
    FailureIsCounted(mid, User(mid.user));
    FailureIsCounted(mid, Ip(mid.ip));
    FailureIsLogged(mid.s, mid.p, mid.user, mid.ip);
    RunOneMore(mid.p, mid.s0, mid.steps, mid.s, Login(mid.user, mid.ip, false));
    next := mid.(steps := mid.steps + [Login(mid.user, mid.ip, false)],
                 s := LoggedIn(mid.s, mid.p, mid.user, mid.ip, false),
                 hits := mid.hits + [Guessed(mid.p, mid.hits, at)]);
  }

  /** A history that starts a window no earlier than `start`. */
  ghost predicate Feasible(p: Policy, start: int, hits: seq<Hit>) {
    Anchored(p, hits) && (hits != [] ==> hits[0].n == 1 && hits[0].at >= start)
  }

  lemma {:induction false} LastIsGuessed(p: Policy, start: int, hits: seq<Hit>)
    requires Configured(p) && Feasible(p, start, hits) && hits != []
    ensures var earlier, h := hits[..|hits| - 1], hits[|hits| - 1];
            && Feasible(p, start, earlier) && hits == earlier + [h]
            && h == Guessed(p, earlier, h.at) && !LockedOut(p, earlier, h.at)
            && h.at >= if earlier == [] then start else earlier[|earlier| - 1].at
  {
    var n := |hits| - 1;
    if n > 0 {
      assert Follows(p, hits[n - 1], hits[n]);
    }
  }

  /** Every anchored history happens: the invariant of the runs leaves nothing out. */
  lemma {:induction false} EveryHistoryHappens(p: Policy, start: int, user: string, ip: string, hits: seq<Hit>)
    returns (play: Play)
    requires Configured(p) && user != "" && ip != "" && Feasible(p, start, hits)
    ensures play.Valid() && play.p == p && play.user == user && play.ip == ip
    ensures play.s0.kv.now == start && play.hits == hits
    ensures play.s.kv.now == if hits == [] then start else hits[|hits| - 1].at
    decreases |hits|
  {
    if hits == [] {
      play := Opening(p, start, user, ip);
    } else {
      LastIsGuessed(p, start, hits);
      var earlier := EveryHistoryHappens(p, start, user, ip, hits[..|hits| - 1]);
      play := Fail(earlier, hits[|hits| - 1].at);
    }
  }

  // ---------- The bound is attained ----------

  function Last(hits: seq<Hit>): Hit
    requires hits != []
  {
    hits[|hits| - 1]
  }

  function CountFrom(p: Policy, hits: seq<Hit>, from: int): nat {
    CountBetween(hits, from, from + Window(p))
  }

  /** One failure more. */
  lemma {:induction false} Grown(p: Policy, start: int, hits: seq<Hit>, at: int, from: int) returns (next: seq<Hit>)
    requires Configured(p) && Feasible(p, start, hits) && !LockedOut(p, hits, at)
    requires if hits == [] then at >= start else at >= Last(hits).at
    ensures Feasible(p, start, next) && next == hits + [Guessed(p, hits, at)]
    ensures CountFrom(p, next, from) == CountFrom(p, hits, from) + if from <= at < from + Window(p) then 1 else 0
  {
    next := hits + [Guessed(p, hits, at)];
    AnchoredGrows(p, hits, Guessed(p, hits, at));
    assert next[..|hits|] == hits;
  }

  /** `k` failures at one instant, none of them past the maximum. */
  lemma {:induction false} Burst(p: Policy, start: int, hits: seq<Hit>, at: int, k: nat, from: int)
    returns (next: seq<Hit>)
    requires Configured(p) && Feasible(p, start, hits) && hits != []
    requires Window(p) > 0 && at >= Last(hits).at && !LockedOut(p, hits, at)
    requires Guessed(p, hits, at).n + k - 1 <= p.maxAttempts
    requires from <= at < from + Window(p)
    ensures Feasible(p, start, next) && next != []
    ensures CountFrom(p, next, from) == CountFrom(p, hits, from) + k
    ensures Last(next) == if k == 0 then Last(hits)
                          else Hit(at, Guessed(p, hits, at).n + k - 1, Guessed(p, hits, at).start)
    decreases k
  {
    if k == 0 {
      next := hits;
    } else {
      var most := Burst(p, start, hits, at, k - 1, from);
      next := Grown(p, start, most, at, from);
    }
  }

  /** `k` failures more in a full window, each as soon as the last one's lock is over. */
  lemma {:induction false} Drip(p: Policy, start: int, hits: seq<Hit>, k: nat, from: int) returns (next: seq<Hit>)
    requires Configured(p) && Feasible(p, start, hits) && hits != [] && Last(hits).n >= p.maxAttempts
    requires Last(hits).at + LockTime(p) * k < Last(hits).start + Window(p)
    requires from <= Last(hits).at && Last(hits).at + LockTime(p) * k < from + Window(p)
    ensures Feasible(p, start, next) && next != []
    ensures Last(next) == Hit(Last(hits).at + LockTime(p) * k, Last(hits).n + k, Last(hits).start)
    ensures CountFrom(p, next, from) == CountFrom(p, hits, from) + k
    decreases k
  {
    if k == 0 {
      next := hits;
    } else {
      OneMore(LockTime(p), k - 1);
      MulMonotone(LockTime(p), 0, k - 1);
      var most := Drip(p, start, hits, k - 1, from);
      next := Grown(p, start, most, Last(most).at + LockTime(p), from);
    }
  }

  lemma RelocksFit(p: Policy)
    requires Configured(p) && Window(p) > 0
    ensures LockTime(p) * Relocks(p) <= Window(p) - 1
    ensures Relocks(p) > 0 ==> LockTime(p) <= Window(p) - 1
    ensures Relocks(p) > 0 ==> LockTime(p) * (Relocks(p) - 1) == LockTime(p) * Relocks(p) - LockTime(p)
  {
    assert Window(p) - 1 == LockTime(p) * Relocks(p) + (Window(p) - 1) % LockTime(p);
    if Relocks(p) > 0 {
      OneMore(LockTime(p), Relocks(p) - 1);
      MulMonotone(LockTime(p), 1, Relocks(p));
    }
  }

  /** With a maximum of one every failure locks: one at the start, then one after every lock. */
  lemma {:induction false} WorstOfOne(p: Policy, start: int) returns (hits: seq<Hit>)
    requires Configured(p) && Window(p) > 0 && p.maxAttempts == 1
    ensures Feasible(p, start, hits) && CountFrom(p, hits, start) == Worst(p)
  {
    RelocksFit(p);
    hits := Grown(p, start, [], start, start);
    hits := Drip(p, start, hits, Relocks(p), start);
  }

  /**
    Otherwise: a first failure, then as late in its window as possible the others up to the maximum
    (or, if no lock fits into a window, one fewer), then a full count at the start of the next window,
    and after that one for every lock that still fits.
  */
  lemma {:induction false} WorstOfMany(p: Policy, start: int) returns (hits: seq<Hit>, from: int)
    requires Configured(p) && Window(p) > 0 && p.maxAttempts > 1
    ensures Feasible(p, start, hits) && CountFrom(p, hits, from) == Worst(p)
  {
    RelocksFit(p);
    var q, end := Relocks(p), start + Window(p);
    from := end - if q > 0 then LockTime(p) else 1;
    hits := Grown(p, start, [], start, from);
    hits := Burst(p, start, hits, from, if q > 0 then p.maxAttempts - 1 else p.maxAttempts - 2, from);
    hits := Burst(p, start, hits, end, p.maxAttempts, from);
    if q > 0 {
      hits := Drip(p, start, hits, q - 1, from);
    }
  }

  /** At most `n` failed checks of any subject in any window since it was last cleared, in every run. */
  ghost predicate Admits(p: Policy, n: int) {
    forall s0, steps, s, x, from |
      Init(s0) && Run(p, s0, steps) == Some(s) && Named(x) ::
      FailuresFrom(p, s.trace, x, from) <= n
  }

  /** A run with the most failures, starting at any time, for any username from any address. */
  lemma {:induction false} WorstIsAttained(p: Policy, start: int, user: string, ip: string)
    returns (s0: State, steps: seq<Step>, s: State, from: int)
    requires Configured(p) && user != "" && ip != ""
    ensures Init(s0) && s0.kv.now == start && Run(p, s0, steps) == Some(s)
    ensures OnlyFailures(s.trace, user, ip)
    ensures FailuresFrom(p, s.trace, User(user), from) == Worst(p)
  {
    var hits: seq<Hit> := [];
    from := start;
    if Window(p) > 0 {
      if p.maxAttempts == 1 {
        hits := WorstOfOne(p, start);
      } else {
        hits, from := WorstOfMany(p, start);
      }
    }
    var play := EveryHistoryHappens(p, start, user, ip, hits);
    s0, steps, s := play.s0, play.steps, play.s;
  }

  // ---------- Main results ----------

  /** `Worst` is exact: every smaller bound fails in some run. */
  lemma {:induction false} WorstIsExact(p: Policy, n: int)
    requires Configured(p)
    ensures Admits(p, n) <==> n >= Worst(p)
  {
    if n >= Worst(p) {
      forall s0, steps, s, x, from |
        Init(s0) && Run(p, s0, steps) == Some(s) && Named(x)
        ensures FailuresFrom(p, s.trace, x, from) <= n
      {
        FailedChecksAreBounded(p, s0, steps, s, x, from);
      }
    } else {
      var s0, steps, s, from := WorstIsAttained(p, 0, "u", "i");
      assert Named(User("u"));
    }
  }

  lemma {:induction false} RelocksAtMost(p: Policy, k: nat)
    requires Configured(p) && Window(p) > 0
    ensures Relocks(p) <= k <==> LockTime(p) * (k + 1) >= Window(p)
  {
    RelocksFit(p);
    if Relocks(p) > k {
      MulMonotone(LockTime(p), k + 1, Relocks(p));
    } else if LockTime(p) * (k + 1) < Window(p) {
      FewLocksFit(p, k + 1);
    }
  }

  /** The bound `2 * maxAttempts - 1` holds exactly for lock times that are not too short. */
  lemma {:induction false} TwiceTheMaximumLessOne(p: Policy)
    requires Configured(p)
    ensures Admits(p, 2 * p.maxAttempts - 1) <==>
              Window(p) == 0 || (if p.maxAttempts == 1 then LockTime(p) else 2 * LockTime(p)) >= Window(p)
  {
    WorstIsExact(p, 2 * p.maxAttempts - 1);
    if Window(p) > 0 {
      RelocksAtMost(p, 0);
      RelocksAtMost(p, 1);
    }
  }

  /**
    As a rolling window, the documented reading, the maximum holds exactly for one or two attempts and
    locks of at least a window.
  */
  lemma {:induction false} RollingWindow(p: Policy)
    requires Configured(p)
    ensures Admits(p, p.maxAttempts) <==> Window(p) == 0 || (p.maxAttempts <= 2 && LockTime(p) >= Window(p))
  {
    WorstIsExact(p, p.maxAttempts);
    if Window(p) > 0 {
      RelocksAtMost(p, 0);
    }
  }

  /** With locks of at least a window: a single failure, or two less than twice the maximum. */
  lemma {:induction false} WorstUnderLongLocks(p: Policy)
    requires Configured(p) && 0 < Window(p) <= LockTime(p)
    ensures Worst(p) == if p.maxAttempts == 1 then 1 else 2 * p.maxAttempts - 2
  {
    RelocksAtMost(p, 0);
  }

  /** A window below a millisecond keeps no count: with a maximum above one, failures never lock. */
  lemma {:induction false} TinyWindowNeverLocks(p: Policy, start: int, user: string, ip: string, k: nat)
    returns (play: Play)
    requires Configured(p) && p.window < MILLISECOND && p.maxAttempts > 1 && user != "" && ip != ""
    ensures play.Valid() && play.p == p && play.user == user && play.ip == ip
    ensures |play.hits| == k && play.s0.kv.now == start == play.s.kv.now
    ensures play.hits != [] ==> Last(play.hits) == Hit(start, 1, start)
    ensures !LockedSpec(play.s.kv, p, user, ip).1
    decreases k
  {
    if k == 0 {
      play := Opening(p, start, user, ip);
    } else {
      var most := TinyWindowNeverLocks(p, start, user, ip, k - 1);
      play := Fail(most, start);
    }
    Unlocked(play);
  }

  lemma LongestOfTwo(kv: Kv, user: string, ip: string, expiry: int)
    requires user != "" && ip != "" && expiry > kv.now
    requires LockKey(User(user)) in kv.data && kv.data[LockKey(User(user))].expiry == Some(expiry)
    requires LockKey(Ip(ip)) in kv.data && kv.data[LockKey(Ip(ip))].expiry == Some(expiry)
    ensures Longest(kv, user, ip) == expiry - kv.now
  {
    var keys := LockKeys(user, ip);
    assert keys == [LockKey(User(user)), LockKey(Ip(ip))] && keys[1..] == [LockKey(Ip(ip))] && keys[1..][1..] == [];
    assert LongestOf(kv.data, kv.now, keys[1..]) == expiry - kv.now;
  }

  lemma PlayKeepsSubject(play: Play, x: Subject)
    requires play.Valid() && (x == User(play.user) || x == Ip(play.ip))
    ensures SubjectInv(play.p, play.s.kv, play.hits, x)
  {
    assert Named(x) && HitsOf(play.p, play.s.trace, x) == play.hits;
    RunKeepsInv(play.p, play.s0, play.steps, play.s, x);
  }

  lemma LocksAreHeld(play: Play, x: Subject)
    requires play.Valid() && LockedOut(play.p, play.hits, play.s.kv.now) && (x == User(play.user) || x == Ip(play.ip))
    ensures LockKey(x) in play.s.kv.data
    ensures play.s.kv.data[LockKey(x)].expiry == Some(Last(play.hits).at + LockTime(play.p))
  {
    PlayKeepsSubject(play, x);
    HeldLock(play.p, play.s.kv, play.hits, x);
  }

  lemma HeldLock(p: Policy, kv: Kv, hits: seq<Hit>, x: Subject)
    requires SubjectInv(p, kv, hits, x) && LockedOut(p, hits, kv.now)
    ensures LockKey(x) in kv.data && kv.data[LockKey(x)].expiry == Some(Last(hits).at + LockTime(p))
  {
  }

  lemma LongestIsTheLock(play: Play)
    requires play.Valid() && LockedOut(play.p, play.hits, play.s.kv.now)
    ensures Longest(play.s.kv, play.user, play.ip) == Last(play.hits).at + LockTime(play.p) - play.s.kv.now
  {
    LocksAreHeld(play, User(play.user));
    LocksAreHeld(play, Ip(play.ip));
    LongestOfTwo(play.s.kv, play.user, play.ip, Last(play.hits).at + LockTime(play.p));
  }

  /** A locked client is told the rounded rest of its lock. */
  lemma LockIsReported(play: Play)
    requires play.Valid() && LockedOut(play.p, play.hits, play.s.kv.now)
    ensures var left := Last(play.hits).at + LockTime(play.p) - play.s.kv.now;
            && Longest(play.s.kv, play.user, play.ip) == left
            && LockedSpec(play.s.kv, play.p, play.user, play.ip).1
            && LockedSpec(play.s.kv, play.p, play.user, play.ip).2 == Told(play.p, true, Nearest(left))
  {
    LongestIsTheLock(play);
    RunKeepsLocks(play.p, play.s0, play.steps, play.s);
    LockedMeansHeld(play.s.kv, play.p, play.user, play.ip);
  }

  lemma {:induction false} FullCount(p: Policy, start: int) returns (hits: seq<Hit>)
    requires Configured(p) && (p.maxAttempts == 1 || Window(p) > 0)
    ensures Feasible(p, start, hits) && hits != [] && Last(hits).at == start && Last(hits).n == p.maxAttempts
  {
    hits := Grown(p, start, [], start, start);
    if p.maxAttempts > 1 {
      hits := Burst(p, start, hits, start, p.maxAttempts - 1, start);
    }
  }

  lemma RoundedDown()
    ensures Nearest(SECOND + 1) == SECOND
  {
  }

  /** For every lock longer than a second some refused request is told a wait that ends before its lock. */
  lemma {:induction false} WaitEndsBeforeLock(p: Policy, start: int, user: string, ip: string) returns (play: Play)
    requires Configured(p) && LockTime(p) > SECOND && (p.maxAttempts == 1 || Window(p) > 0) && user != "" && ip != ""
    ensures play.Valid() && play.p == p && play.s0.kv.now == start
    ensures LockedSpec(play.s.kv, p, user, ip).1
    ensures LockedSpec(play.s.kv, p, user, ip).2 == SECOND < Longest(play.s.kv, user, ip)
  {
    var hits := FullCount(p, start);
    var full := EveryHistoryHappens(p, start, user, ip, hits);
    play := Wait(full, start + LockTime(p) - SECOND - 1);
    assert Last(play.hits).at + LockTime(p) - play.s.kv.now == SECOND + 1;
    RoundedDown();
    LockIsReported(play);
  }

  // ---------- Which policies tell waits that cover their locks ----------

  ghost predicate NothingKept(kv: Kv) {
    forall y: Subject :: CounterKey(y) !in kv.data && LockKey(y) !in kv.data
  }

  lemma BumpKeepsNothing(p: Policy, kv: Kv, y: Subject)
    requires Configured(p) && Window(p) == 0 && p.maxAttempts > 1 && NothingKept(kv)
    ensures NothingKept(Bumped(kv, p, y))
  {
  }

  lemma {:induction false} DeleteKeepsNothing(kv: Kv, keys: seq<string>)
    requires NothingKept(kv)
    ensures NothingKept(Deleted(kv, keys))
    decreases |keys|
  {
    if keys != [] {
      DeleteKeepsNothing(kv.Del(keys[0]).0, keys[1..]);
    }
  }

  lemma {:induction false} StepKeepsNothing(p: Policy, s: State, step: Step)
    requires Configured(p) && Window(p) == 0 && p.maxAttempts > 1 && Enabled(s, step)
    requires LocksFit(p, s.kv) && NothingKept(s.kv)
    ensures NothingKept(Exec(s, p, step).kv)
  {
    match step
    case Login(username, ip, valid) =>
      LockedMeansHeld(s.kv, p, username, ip);
      var (kv, locked, _) := LockedSpec(s.kv, p, username, ip);
      if !locked && valid {
        DeleteKeepsNothing(kv, ResetKeys(username, ip));
      } else if !locked {
        BumpKeepsNothing(p, kv, User(username));
        BumpKeepsNothing(p, Bumped(kv, p, User(username)), Ip(ip));
      }
    case Foreign(_) => LockoutKeys();
    case _ =>
  }

  /** With a window below a millisecond and a maximum above one, no counter or lock is ever kept. */
  lemma {:induction false} TinyWindowKeepsNothing(p: Policy, s0: State, steps: seq<Step>, s: State)
    requires Configured(p) && Window(p) == 0 && p.maxAttempts > 1 && Init(s0) && Run(p, s0, steps) == Some(s)
    ensures NothingKept(s.kv)
    decreases |steps|
  {
    if steps == [] {
      LockoutKeys();
    } else {
      var mid := Run(p, s0, steps[..|steps| - 1]).value;
      TinyWindowKeepsNothing(p, s0, steps[..|steps| - 1], mid);
      RunKeepsLocks(p, s0, steps[..|steps| - 1], mid);
      StepKeepsNothing(p, mid, steps[|steps| - 1]);
    }
  }

  /** In every run, every refused request is told a Retry-After that covers its longest lock. */
  ghost predicate WaitsCover(p: Policy) {
    forall s0, steps, s, username, ip |
      Init(s0) && Run(p, s0, steps) == Some(s) && LockedSpec(s.kv, p, username, ip).1 ::
      SecondsOf(LockedSpec(s.kv, p, username, ip).2) * SECOND >= Longest(s.kv, username, ip)
  }

  lemma {:induction false} ShortLocksAreCovered(
    p: Policy, s0: State, steps: seq<Step>, s: State, username: string, ip: string)
    requires Configured(p) && (LockTime(p) <= SECOND || (p.maxAttempts > 1 && Window(p) == 0))
    requires Init(s0) && Run(p, s0, steps) == Some(s) && LockedSpec(s.kv, p, username, ip).1
    ensures SecondsOf(LockedSpec(s.kv, p, username, ip).2) * SECOND >= Longest(s.kv, username, ip)
  {
    if LockTime(p) <= SECOND {
      WaitCoversUnlessRoundedDown(p, s0, steps, s, username, ip);
    } else {
      TinyWindowKeepsNothing(p, s0, steps, s);
      RunKeepsLocks(p, s0, steps, s);
      LockedMeansHeld(s.kv, p, username, ip);
      assert false;
    }
  }

  /** That is so exactly for lock times of at most a second, or where failures can set no lock at all. */
  lemma {:induction false} WaitsCoverExactly(p: Policy)
    requires Configured(p)
    ensures WaitsCover(p) <==> LockTime(p) <= SECOND || (p.maxAttempts > 1 && Window(p) == 0)
  {
    if LockTime(p) <= SECOND || (p.maxAttempts > 1 && Window(p) == 0) {
      forall s0, steps, s, username, ip |
        Init(s0) && Run(p, s0, steps) == Some(s) && LockedSpec(s.kv, p, username, ip).1
        ensures SecondsOf(LockedSpec(s.kv, p, username, ip).2) * SECOND >= Longest(s.kv, username, ip)
      {
        ShortLocksAreCovered(p, s0, steps, s, username, ip);
      }
    } else {
      var play := WaitEndsBeforeLock(p, 0, "u", "i");
      assert SecondsOf(SECOND) == 1;
    }
  }
}
