/**
  The limiter over whole runs: any number of replicas and scopes, calls interleaved between their
  clock read and their increment, outages, and other users of the store.
*/
module RateLimitRuns {
  import opened Integers
  import opened Wrappers
  import opened KeyStore
  import opened RateLimit
  import opened Durations
  import Keys

  /** Some replica reads the clock for a call, and later sends its increment; `Foreign` leaves limiter keys alone. */
  datatype Step = Tick(d: nat) | Read(scope: string) | Increment(call: nat) | Foreign(data: map<string, Entry>)

  /** A call on its way: when its replica read the clock. */
  datatype Pending = Pending(scope: string, at: int)

  /** An answered call: `counted` unless the store was unavailable when its increment arrived, at `landed`. */
  datatype Served = Served(scope: string, at: int, landed: int, counted: bool, outcome: Outcome)

  datatype State = State(kv: Kv, pending: seq<Pending>, trace: seq<Served>)

  ghost predicate SameLimiterKeys(data: map<string, Entry>, data': map<string, Entry>) {
    forall key: string | Keys.RATE_LIMIT <= key ::
      (key in data <==> key in data') && (key in data ==> data[key] == data'[key])
  }

  ghost predicate Enabled(s: State, step: Step) {
    && (step.Increment? ==> step.call < |s.pending|)
    && (step.Foreign? ==> SameLimiterKeys(s.kv.data, step.data))
  }

  function Exec(p: Policy, s: State, step: Step): State
    requires p.window > 0
    requires step.Increment? ==> step.call < |s.pending|
  {
    match step
    case Tick(d) => s.(kv := s.kv.(now := s.kv.now + d))
    case Read(scope) => s.(pending := s.pending + [Pending(scope, s.kv.now)])
    case Increment(i) =>
      var call := s.pending[i];
      var (kv, outcome) := AllowAt(s.kv, p, call.scope, call.at);
      State(kv, s.pending[..i] + s.pending[i + 1..],
            s.trace + [Served(call.scope, call.at, s.kv.now, !s.kv.Fails(), outcome)])
    case Foreign(data) => s.(kv := s.kv.(data := data))
  }

  ghost function Run(p: Policy, s: State, steps: seq<Step>): Option<State>
    requires p.window > 0
  {
    if steps == [] then Some(s)
    else
      match Run(p, s, steps[..|steps| - 1])
      case None => None
      case Some(t) => if Enabled(t, steps[|steps| - 1]) then Some(Exec(p, t, steps[|steps| - 1])) else None
  }

  ghost predicate Init(s: State) {
    s.trace == [] && s.pending == [] && s.kv.now >= 0 && forall key: string | Keys.RATE_LIMIT <= key :: key !in s.kv.data
  }

  /** The increment arrived before the window of its call was over. */
  predicate Punctual(p: Policy, r: Served)
    requires p.window > 0
  {
    r.landed < WindowStart(r.at, p.window) + p.window
  }

  ghost predicate AllPunctual(p: Policy, trace: seq<Served>)
    requires p.window > 0
  {
    forall k | 0 <= k < |trace| :: Punctual(p, trace[k])
  }

  // ---------- The specification: count the calls of this window ----------

  predicate InWindow(p: Policy, r: Served, scope: string, start: int)
    requires p.window > 0
  {
    r.counted && r.scope == scope && WindowStart(r.at, p.window) == start
  }

  function CallsIn(p: Policy, trace: seq<Served>, scope: string, start: int): nat
    requires p.window > 0
  {
    if trace == [] then 0
    else
      CallsIn(p, trace[..|trace| - 1], scope, start) +
      if InWindow(p, trace[|trace| - 1], scope, start) then 1 else 0
  }

  /** What the calls before it entitle a call to. */
  predicate Agrees(p: Policy, before: seq<Served>, r: Served)
    requires p.window > 0
  {
    var start := WindowStart(r.at, p.window);
    var k := CallsIn(p, before, r.scope, start) + 1;
    && r.outcome.limit == p.limit
    && r.outcome.reset == start + p.window - r.at
    && r.outcome.allowed == (!r.counted || k <= p.limit)
    && r.outcome.remaining == (if !r.counted then p.limit else if k <= p.limit then p.limit - k else 0)
    && r.outcome.retryAfter == if r.outcome.allowed then 0 else r.outcome.reset
  }

  ghost predicate AllAgree(p: Policy, trace: seq<Served>)
    requires p.window > 0
  {
    forall k | 0 <= k < |trace| :: Agrees(p, trace[..k], trace[k])
  }

  /** When the increment of the first counted call of a window arrived. */
  function FirstLanded(p: Policy, trace: seq<Served>, scope: string, start: int): Option<int>
    requires p.window > 0
  {
    if trace == [] then None
    else
      var earlier, last := FirstLanded(p, trace[..|trace| - 1], scope, start), trace[|trace| - 1];
      if earlier.Some? then earlier
      else if InWindow(p, last, scope, start) then Some(last.landed)
      else None
  }

  /** The first of its window to be counted, or less than a window's length behind it. */
  predicate Prompt(p: Policy, before: seq<Served>, r: Served)
    requires p.window > 0
  {
    var first := FirstLanded(p, before, r.scope, WindowStart(r.at, p.window));
    r.counted && first.Some? ==> r.landed < first.value + p.window
  }

  ghost predicate AllPrompt(p: Policy, trace: seq<Served>)
    requires p.window > 0
  {
    forall k | 0 <= k < |trace| :: Prompt(p, trace[..k], trace[k])
  }

  // ---------- The invariant ----------

  /** The counter of a window holds the number of its calls, for a window's length from the first of them on. */
  ghost predicate CounterFits(p: Policy, s: State, scope: string, start: int)
    requires p.window > 0
  {
    var key := KeyAt(p, scope, start);
    match FirstLanded(p, s.trace, scope, start)
    case None => key !in s.kv.data
    case Some(t) =>
      key in s.kv.data && s.kv.data[key] == Entry(Number(CallsIn(p, s.trace, scope, start)), Some(t + p.window))
  }

  ghost predicate AllFit(p: Policy, s: State)
    requires p.window > 0
  {
    forall scope, start | start % p.window == 0 :: CounterFits(p, s, scope, start)
  }

  ghost predicate Inv(p: Policy, s: State)
    requires p.window > 0
  {
    && (AllAgree(p, s.trace) <==> AllPrompt(p, s.trace))
    && (AllPrompt(p, s.trace) ==> AllFit(p, s))
  }

  lemma LogAppend(p: Policy, trace: seq<Served>, r: Served, scope: string, start: int)
    requires p.window > 0
    ensures CallsIn(p, trace + [r], scope, start) ==
            CallsIn(p, trace, scope, start) + if InWindow(p, r, scope, start) then 1 else 0
    ensures FirstLanded(p, trace + [r], scope, start) ==
            var first := FirstLanded(p, trace, scope, start);
            if first.None? && InWindow(p, r, scope, start) then Some(r.landed) else first
  {
    assert (trace + [r])[..|trace|] == trace;
  }

  lemma {:induction false} FirstIsCounted(p: Policy, trace: seq<Served>, scope: string, start: int)
    requires p.window > 0
    ensures FirstLanded(p, trace, scope, start).None? <==> CallsIn(p, trace, scope, start) == 0
    decreases |trace|
  {
    if trace != [] {
      FirstIsCounted(p, trace[..|trace| - 1], scope, start);
    }
  }

  lemma {:induction false} VerdictsAppend(p: Policy, trace: seq<Served>, r: Served)
    requires p.window > 0
    ensures AllAgree(p, trace + [r]) <==> AllAgree(p, trace) && Agrees(p, trace, r)
    ensures AllPrompt(p, trace + [r]) <==> AllPrompt(p, trace) && Prompt(p, trace, r)
  {
    var all := trace + [r];
    assert all[..|trace|] == trace && all[|trace|] == r;
    forall k | 0 <= k < |trace|
      ensures all[..k] == trace[..k] && all[k] == trace[k]
    {
    }
    if AllAgree(p, all) {
      forall k | 0 <= k < |trace|
        ensures Agrees(p, trace[..k], trace[k])
      {
        assert Agrees(p, all[..k], all[k]);
      }
    }
    if AllPrompt(p, all) {
      forall k | 0 <= k < |trace|
        ensures Prompt(p, trace[..k], trace[k])
      {
        assert Prompt(p, all[..k], all[k]);
      }
    }
  }

  lemma KeyHasPrefix(p: Policy, scope: string, start: int)
    ensures Keys.RATE_LIMIT <= KeyAt(p, scope, start)
  {
  }

  lemma IncrementLogs(p: Policy, s: State, i: nat)
    requires p.window > 0 && i < |s.pending|
    ensures var t, call := Exec(p, s, Increment(i)), s.pending[i];
            && t.kv == s.kv.Incr(KeyAt(p, call.scope, WindowStart(call.at, p.window)), p.window).0
            && |t.trace| == |s.trace| + 1 && t.trace == s.trace + [t.trace[|s.trace|]]
            && t.trace[|s.trace|].landed == s.kv.now
            && forall scope, start ::
                 InWindow(p, t.trace[|s.trace|], scope, start) <==>
                 !s.kv.Fails() && scope == call.scope && start == WindowStart(call.at, p.window)
  {
  }

  /** A prompt increment moves the counter of its own window only. */
  lemma {:induction false} IncrementKeepsCounter(p: Policy, s: State, i: nat, scope': string, start': int)
    requires Exact(p) && start' % p.window == 0 && i < |s.pending|
    requires CounterFits(p, s, s.pending[i].scope, WindowStart(s.pending[i].at, p.window))
    requires Prompt(p, s.trace, Exec(p, s, Increment(i)).trace[|s.trace|])
    requires CounterFits(p, s, scope', start')
    ensures CounterFits(p, Exec(p, s, Increment(i)), scope', start')
  {
    var t, call := Exec(p, s, Increment(i)), s.pending[i];
    var start := WindowStart(call.at, p.window);
    WindowFacts(call.at, p.window);
    IncrementLogs(p, s, i);
    LogAppend(p, s.trace, t.trace[|s.trace|], scope', start');
    if KeyAt(p, scope', start') == KeyAt(p, call.scope, start) {
      KeyTellsWindowsApart(p, scope', start', call.scope, start);
      IncrementMovesCounter(p, s, t, scope', start');
    } else {
      OtherCounterStays(p, s, t, KeyAt(p, call.scope, start), scope', start');
    }
  }

  lemma OtherCounterStays(p: Policy, s: State, t: State, key: string, scope: string, start: int)
    requires Exact(p) && CounterFits(p, s, scope, start) && key != KeyAt(p, scope, start)
    requires t.kv == s.kv.Incr(key, p.window).0
    requires CallsIn(p, t.trace, scope, start) == CallsIn(p, s.trace, scope, start)
    requires FirstLanded(p, t.trace, scope, start) == FirstLanded(p, s.trace, scope, start)
    ensures CounterFits(p, t, scope, start)
  {
    IncrementsOneKey(s.kv, key, p.window, KeyAt(p, scope, start));
  }

  lemma {:induction false} IncrementMovesCounter(p: Policy, s: State, t: State, scope: string, start: int)
    requires Exact(p) && CounterFits(p, s, scope, start)
    requires t.kv == s.kv.Incr(KeyAt(p, scope, start), p.window).0
    requires CallsIn(p, t.trace, scope, start) == CallsIn(p, s.trace, scope, start) + if s.kv.Fails() then 0 else 1
    requires FirstLanded(p, t.trace, scope, start) ==
             var first := FirstLanded(p, s.trace, scope, start);
             if first.None? && !s.kv.Fails() then Some(s.kv.now) else first
    requires var first := FirstLanded(p, s.trace, scope, start);
             !s.kv.Fails() && first.Some? ==> s.kv.now < first.value + p.window
    ensures CounterFits(p, t, scope, start)
  {
    FirstIsCounted(p, s.trace, scope, start);
    IncrementsOneKey(s.kv, KeyAt(p, scope, start), p.window, KeyAt(p, scope, start));
  }

  /** An increment by a whole number of milliseconds starts a counter with that lifetime, or adds one. */
  lemma IncrementsOneKey(kv: Kv, key: string, ttl: int, other: string)
    requires ttl >= MILLISECOND && ttl % MILLISECOND == 0
    ensures var after := kv.Incr(key, ttl).0;
            && after.now == kv.now
            && (other != key || kv.Fails() ==>
                  (other in kv.data <==> other in after.data) &&
                  (other in kv.data ==> kv.data[other] == after.data[other]))
            && (!kv.Fails() && key !in kv.data ==>
                  key in after.data && after.data[key] == Entry(Number(1), Some(kv.now + ttl)))
            && (!kv.Fails() && kv.Live(key) && kv.data[key].value.Number? && kv.data[key].value.number >= 1 ==>
                  key in after.data &&
                  after.data[key] == Entry(Number(kv.data[key].value.number + 1), kv.data[key].expiry))
  {
    assert ttl / MILLISECOND * MILLISECOND == ttl;
  }

  /** What the counter says to a call: its number in the window, unless it finds the counter expired. */
  lemma CounterSays(p: Policy, s: State, scope: string, start: int)
    requires p.window > 0 && CounterFits(p, s, scope, start)
    ensures var first, k := FirstLanded(p, s.trace, scope, start), CallsIn(p, s.trace, scope, start) + 1;
            && (first.None? ==> k == 1) && (first.Some? ==> k >= 2)
            && s.kv.Incremented(KeyAt(p, scope, start)) ==
               Some(if first.Some? && s.kv.now >= first.value + p.window then 1 else k)
  {
    FirstIsCounted(p, s.trace, scope, start);
  }

  lemma AnswerSays(p: Policy, s: State, i: nat, n: int)
    requires p.window > 0 && i < |s.pending|
    requires s.kv.Incremented(KeyAt(p, s.pending[i].scope, WindowStart(s.pending[i].at, p.window))) == Some(n)
    ensures var r := Exec(p, s, Increment(i)).trace[|s.trace|];
            && r.scope == s.pending[i].scope && r.at == s.pending[i].at && r.landed == s.kv.now
            && r.counted == !s.kv.Fails()
            && r.outcome == if !r.counted then Outcome(true, p.limit, p.limit, Rest(p, r.at), 0)
                            else if n > p.limit then Outcome(false, p.limit, 0, Rest(p, r.at), Rest(p, r.at))
                            else Outcome(true, p.limit, p.limit - n, Rest(p, r.at), 0)
  {
  }

  /** The time left of a call's window when it read the clock. */
  function Rest(p: Policy, at: int): int
    requires p.window > 0
  {
    WindowStart(at, p.window) + p.window - at
  }

  /** So a call is answered as counting entitles it to exactly when its increment is prompt. */
  lemma {:induction false} PromptnessDecides(p: Policy, s: State, i: nat)
    requires p.window > 0 && p.limit >= 1 && i < |s.pending|
    requires CounterFits(p, s, s.pending[i].scope, WindowStart(s.pending[i].at, p.window))
    ensures var r := Exec(p, s, Increment(i)).trace[|s.trace|];
            Agrees(p, s.trace, r) <==> Prompt(p, s.trace, r)
  {
    var call := s.pending[i];
    var start := WindowStart(call.at, p.window);
    CounterSays(p, s, call.scope, start);
    AnswerSays(p, s, i, s.kv.Incremented(KeyAt(p, call.scope, start)).value);
  }

  lemma {:induction false} IncrementKeepsInv(p: Policy, s: State, i: nat)
    requires Exact(p) && Inv(p, s) && i < |s.pending|
    ensures Inv(p, Exec(p, s, Increment(i)))
  {
    var t := Exec(p, s, Increment(i));
    var r := t.trace[|s.trace|];
    IncrementLogs(p, s, i);
    VerdictsAppend(p, s.trace, r);
    if AllPrompt(p, s.trace) {
      WindowFacts(s.pending[i].at, p.window);
      PromptnessDecides(p, s, i);
      if Prompt(p, s.trace, r) {
        forall scope, start | start % p.window == 0
          ensures CounterFits(p, t, scope, start)
        {
          IncrementKeepsCounter(p, s, i, scope, start);
        }
      }
    }
  }

  lemma {:induction false} StepKeepsInv(p: Policy, s: State, step: Step)
    requires Exact(p) && Inv(p, s) && Enabled(s, step)
    ensures Inv(p, Exec(p, s, step))
  {
    var t := Exec(p, s, step);
    if step.Increment? {
      IncrementKeepsInv(p, s, step.call);
    } else if AllPrompt(p, s.trace) {
      forall scope, start | start % p.window == 0
        ensures CounterFits(p, t, scope, start)
      {
        KeyHasPrefix(p, scope, start);
        assert CounterFits(p, s, scope, start);
      }
    }
  }

  lemma {:induction false} RunKeepsInv(p: Policy, s0: State, steps: seq<Step>, s: State)
    requires Exact(p) && Init(s0) && Run(p, s0, steps) == Some(s)
    ensures Inv(p, s)
    decreases |steps|
  {
    if steps == [] {
      forall scope, start | start % p.window == 0
        ensures CounterFits(p, s, scope, start)
      {
        KeyHasPrefix(p, scope, start);
      }
    } else {
      var mid := Run(p, s0, steps[..|steps| - 1]).value;
      RunKeepsInv(p, s0, steps[..|steps| - 1], mid);
      StepKeepsInv(p, mid, steps[|steps| - 1]);
    }
  }

  // ---------- Main results ----------

  /**
    Every answer, header values included, is the one that counting the window's calls gives, in the
    order their increments arrived, exactly when every counted increment but the first of its window
    arrived less than a window's length after that first one.
  */
  lemma AnswersMatchCounting(p: Policy, s0: State, steps: seq<Step>, s: State)
    requires Exact(p) && Init(s0) && Run(p, s0, steps) == Some(s)
    ensures AllAgree(p, s.trace) <==> AllPrompt(p, s.trace)
  {
    RunKeepsInv(p, s0, steps, s);
  }

  /** Increments arrive after the clock reads of their calls, and rejections name the rest of the window. */
  ghost predicate Sensible(p: Policy, s: State)
    requires p.window > 0
  {
    && (forall k | 0 <= k < |s.pending| :: s.pending[k].at <= s.kv.now)
    && forall k | 0 <= k < |s.trace| ::
         var r := s.trace[k];
         r.at <= r.landed && (!r.outcome.allowed ==> r.outcome.retryAfter == Rest(p, r.at))
  }

  lemma {:induction false} RunIsSensible(p: Policy, s0: State, steps: seq<Step>, s: State)
    requires p.window > 0 && Init(s0) && Run(p, s0, steps) == Some(s)
    ensures Sensible(p, s)
    decreases |steps|
  {
    if steps != [] {
      var mid := Run(p, s0, steps[..|steps| - 1]).value;
      RunIsSensible(p, s0, steps[..|steps| - 1], mid);
      StepIsSensible(p, mid, steps[|steps| - 1]);
    }
  }

  lemma StepIsSensible(p: Policy, s: State, step: Step)
    requires p.window > 0 && Sensible(p, s) && Enabled(s, step)
    ensures Sensible(p, Exec(p, s, step))
  {
  }

  lemma {:induction false} FirstLandedInTime(p: Policy, trace: seq<Served>, scope: string, start: int)
    requires p.window > 0 && forall k | 0 <= k < |trace| :: trace[k].at <= trace[k].landed
    ensures FirstLanded(p, trace, scope, start).Some? ==> FirstLanded(p, trace, scope, start).value >= start
    decreases |trace|
  {
    if trace != [] {
      FirstLandedInTime(p, trace[..|trace| - 1], scope, start);
      WindowFacts(trace[|trace| - 1].at, p.window);
    }
  }

  /** In particular when no increment arrives after its window. */
  lemma {:induction false} PunctualAnswersMatch(p: Policy, s0: State, steps: seq<Step>, s: State)
    requires Exact(p) && Init(s0) && Run(p, s0, steps) == Some(s) && AllPunctual(p, s.trace)
    ensures AllAgree(p, s.trace)
  {
    AnswersMatchCounting(p, s0, steps, s);
    RunIsSensible(p, s0, steps, s);
    forall k | 0 <= k < |s.trace|
      ensures Prompt(p, s.trace[..k], s.trace[k])
    {
      assert Punctual(p, s.trace[k]);
      FirstLandedInTime(p, s.trace[..k], s.trace[k].scope, WindowStart(s.trace[k].at, p.window));
    }
  }

  /** The counted calls of one window that were let through. */
  function AllowedIn(p: Policy, trace: seq<Served>, scope: string, start: int): nat
    requires p.window > 0
  {
    if trace == [] then 0
    else
      var last := trace[|trace| - 1];
      AllowedIn(p, trace[..|trace| - 1], scope, start) +
      if InWindow(p, last, scope, start) && last.outcome.allowed then 1 else 0
  }

  /** Of `k` counted calls in a window exactly the first `limit` are allowed. */
  lemma {:induction false} WindowAllowsTheFirstLimit(p: Policy, trace: seq<Served>, scope: string, start: int)
    requires p.window > 0 && p.limit >= 1 && AllAgree(p, trace)
    ensures AllowedIn(p, trace, scope, start) ==
            if CallsIn(p, trace, scope, start) <= p.limit then CallsIn(p, trace, scope, start) else p.limit
    decreases |trace|
  {
    if trace != [] {
      var n := |trace| - 1;
      forall k | 0 <= k < n
        ensures Agrees(p, trace[..n][..k], trace[..n][k])
      {
        assert trace[..n][..k] == trace[..k];
      }
      WindowAllowsTheFirstLimit(p, trace[..n], scope, start);
      assert Agrees(p, trace[..n], trace[n]);
    }
  }

  /** Counted calls of a scope that read the clock between two instants, both included, and were let through. */
  function AllowedBetween(trace: seq<Served>, scope: string, from: int, to: int): nat {
    if trace == [] then 0
    else
      var last := trace[|trace| - 1];
      AllowedBetween(trace[..|trace| - 1], scope, from, to) +
      if last.counted && last.scope == scope && from <= last.at <= to && last.outcome.allowed then 1 else 0
  }

  lemma {:induction false} IntervalMeetsTwoWindows(p: Policy, trace: seq<Served>, scope: string, from: int)
    requires p.window > 0
    ensures var start := WindowStart(from, p.window);
            AllowedBetween(trace, scope, from, from + p.window) <=
            AllowedIn(p, trace, scope, start) + AllowedIn(p, trace, scope, start + p.window)
    decreases |trace|
  {
    if trace != [] {
      var n := |trace| - 1;
      var start, own := WindowStart(from, p.window), WindowStart(trace[n].at, p.window);
      IntervalMeetsTwoWindows(p, trace[..n], scope, from);
      WindowFacts(from, p.window);
      WindowFacts(trace[n].at, p.window);
      if from <= trace[n].at <= from + p.window {
        if own < start {
          StartsAreApart(own, start, p.window);
        } else if start < own {
          StartsAreApart(start, own, p.window);
          NextIsAligned(start, p.window);
          if start + p.window < own {
            StartsAreApart(start + p.window, own, p.window);
          }
        }
      }
    }
  }

  lemma NextIsAligned(start: int, window: int)
    requires window > 0 && start % window == 0
    ensures (start + window) % window == 0
  {
    var q := start / window;
    assert start + window == window * (q + 1);
    MultipleHasNoRemainder(q + 1, window);
  }

  /** Then any interval one window long, aligned or not, lets at most twice the limit of counted calls through. */
  lemma AtMostTwiceTheLimit(p: Policy, s0: State, steps: seq<Step>, s: State, scope: string, from: int)
    requires Exact(p) && Init(s0) && Run(p, s0, steps) == Some(s) && AllPrompt(p, s.trace)
    ensures AllowedBetween(s.trace, scope, from, from + p.window) <= 2 * p.limit
  {
    AnswersMatchCounting(p, s0, steps, s);
    var start := WindowStart(from, p.window);
    IntervalMeetsTwoWindows(p, s.trace, scope, from);
    WindowAllowsTheFirstLimit(p, s.trace, scope, start);
    WindowAllowsTheFirstLimit(p, s.trace, scope, start + p.window);
  }

  lemma RunOneMore(p: Policy, s0: State, steps: seq<Step>, s: State, step: Step)
    requires p.window > 0 && Run(p, s0, steps) == Some(s) && Enabled(s, step)
    ensures Run(p, s0, steps + [step]) == Some(Exec(p, s, step))
  {
    assert (steps + [step])[..|steps|] == steps;
  }

  /** A call whose increment arrives `late` after its clock read. */
  function CallSteps(late: nat): seq<Step> {
    [Read(""), Tick(late), Increment(0)]
  }

  lemma {:induction false} RunConcat(p: Policy, s0: State, steps: seq<Step>, s: State, more: seq<Step>, t: State)
    requires p.window > 0 && Run(p, s0, steps) == Some(s) && Run(p, s, more) == Some(t)
    ensures Run(p, s0, steps + more) == Some(t)
    decreases |more|
  {
    if more == [] {
      assert steps + more == steps;
    } else {
      var n := |more| - 1;
      RunConcat(p, s0, steps, s, more[..n], Run(p, s, more[..n]).value);
      RunOneMore(p, s0, steps + more[..n], Run(p, s, more[..n]).value, more[n]);
      assert steps + more[..n] + [more[n]] == steps + more;
    }
  }

  /** The state when the increment arrives, and the one after it. */
  function Waiting(s: State, late: nat): State {
    s.(kv := s.kv.(now := s.kv.now + late), pending := [Pending("", s.kv.now)])
  }

  lemma {:induction false} OneCall(p: Policy, s: State, late: nat)
    requires p.window > 0 && s.pending == []
    ensures Run(p, s, CallSteps(late)) == Some(Exec(p, Waiting(s, late), Increment(0)))
  {
    var read := s.(pending := [Pending("", s.kv.now)]);
    assert Run(p, s, []) == Some(s) && Exec(p, s, Read("")) == read && Exec(p, read, Tick(late)) == Waiting(s, late);
    RunOneMore(p, s, [], s, Read(""));
    RunOneMore(p, s, [] + [Read("")], read, Tick(late));
    RunOneMore(p, s, [] + [Read("")] + [Tick(late)], Waiting(s, late), Increment(0));
    assert CallSteps(late) == [] + [Read("")] + [Tick(late)] + [Increment(0)];
  }

  lemma {:induction false} TwoCalls(p: Policy, s0: State, s1: State, d: nat, s2: State, late: nat)
    requires p.window > 0 && Run(p, s0, CallSteps(0)) == Some(s1)
    requires Run(p, s1.(kv := s1.kv.(now := s1.kv.now + d)), CallSteps(late)) == Some(s2)
    ensures Run(p, s0, CallSteps(0) + [Tick(d)] + CallSteps(late)) == Some(s2)
  {
    var later := s1.(kv := s1.kv.(now := s1.kv.now + d));
    assert Exec(p, s1, Tick(d)) == later;
    RunOneMore(p, s0, CallSteps(0), s1, Tick(d));
    RunConcat(p, s0, CallSteps(0) + [Tick(d)], later, CallSteps(late), s2);
  }

  /** What one increment does to a state with nothing else on its way. */
  lemma IncrementOfOne(p: Policy, s: State, at: int)
    requires p.window > 0 && s.pending == [Pending("", at)]
    ensures var t := Exec(p, s, Increment(0));
            && t.pending == []
            && t.kv == s.kv.Incr(KeyAt(p, "", WindowStart(at, p.window)), p.window).0
            && t.trace == s.trace + [Served("", at, s.kv.now, !s.kv.Fails(), AllowAt(s.kv, p, "", at).1)]
  {
  }

  lemma IncrKeeps(kv: Kv, key: string, ttl: int)
    ensures kv.Incr(key, ttl).0.now == kv.now && kv.Incr(key, ttl).0.faults == kv.faults
  {
  }

  /** Two calls of one scope, `d` apart, the second with a late increment. */
  lemma {:induction false} MisfitMiscounts(p: Policy, first: nat, d: nat, late: nat)
    returns (s0: State, steps: seq<Step>, s: State)
    requires p.limit >= 1 && p.window > 0 && Misfit(p, first, d, late)
    ensures Init(s0) && s0.kv.now == first && Run(p, s0, steps) == Some(s) && !AllAgree(p, s.trace)
    ensures |s.trace| == 2 && s.trace[0].at == s.trace[0].landed == first
    ensures s.trace[1].at == first + d && s.trace[1].landed == first + d + late
  {
    s0 := State(Kv(map[], first, 0, {}), [], []);
    steps := CallSteps(0) + [Tick(d)] + CallSteps(late);
    var s1 := FirstAnswered(p, s0, first, d + late);
    MisfitSharesKey(p, first, d, late);
    s := SecondAnswered(p, first, s1, d, late);
    TwoCalls(p, s0, s1, d, s, late);
  }

  /** A call that finds its counter at `n` when its increment arrives. */
  predicate AnswersNumber(p: Policy, r: Served, n: int) {
    && r.scope == "" && r.counted && r.outcome.allowed == (n <= p.limit)
    && r.outcome.remaining == if n <= p.limit then p.limit - n else 0
  }

  lemma Answered(p: Policy, s: State, late: nat, n: int) returns (t: State, r: Served)
    requires p.window > 0 && s.pending == [] && s.kv.faults == {}
    requires s.kv.(now := s.kv.now + late).Incremented(KeyAt(p, "", WindowStart(s.kv.now, p.window))) == Some(n)
    ensures Run(p, s, CallSteps(late)) == Some(t) && t.pending == []
    ensures t.kv == s.kv.(now := s.kv.now + late).Incr(KeyAt(p, "", WindowStart(s.kv.now, p.window)), p.window).0
    ensures t.trace == s.trace + [r] && AnswersNumber(p, r, n) && r.at == s.kv.now && r.landed == s.kv.now + late
  {
    OneCall(p, s, late);
    var w := Waiting(s, late);
    t := Exec(p, w, Increment(0));
    IncrementOfOne(p, w, s.kv.now);
    NumberIsAnswered(p, w.kv, s.kv.now, n);
    r := t.trace[|s.trace|];
  }

  /** The counter `d` after the first call, as the second will find it. */
  function SecondNumber(p: Policy, d: nat): int {
    if d < p.window / MILLISECOND * MILLISECOND then 2 else 1
  }

  lemma FirstAnswered(p: Policy, s0: State, first: int, d: nat) returns (s1: State)
    requires p.window > 0 && s0 == State(Kv(map[], first, 0, {}), [], [])
    ensures Run(p, s0, CallSteps(0)) == Some(s1)
    ensures s1.pending == [] && s1.kv.now == first && s1.kv.faults == {}
    ensures s1.kv.(now := first + d).Incremented(KeyAt(p, "", WindowStart(first, p.window))) == Some(SecondNumber(p, d))
    ensures |s1.trace| == 1 && s1.trace[0] == Served("", first, first, true, s1.trace[0].outcome)
  {
    var key := KeyAt(p, "", WindowStart(first, p.window));
    var r;
    s1, r := Answered(p, s0, 0, 1);
    IncrKeeps(s0.kv, key, p.window);
    IncrementTwice(first, key, p.window, d);
  }

  lemma SecondAnswered(p: Policy, first: nat, s1: State, d: nat, late: nat) returns (s: State)
    requires p.limit >= 1 && p.window > 0 && Misfit(p, first, d, late)
    requires s1.pending == [] && s1.kv.now == first && s1.kv.faults == {}
    requires s1.kv.(now := first + d + late).Incremented(KeyAt(p, "", WindowStart(first + d, p.window))) ==
             Some(SecondNumber(p, d + late))
    requires |s1.trace| == 1 && s1.trace[0] == Served("", first, first, true, s1.trace[0].outcome)
    ensures Run(p, s1.(kv := s1.kv.(now := s1.kv.now + d)), CallSteps(late)) == Some(s)
    ensures |s.trace| == 2 && s.trace[0] == s1.trace[0] && !AllAgree(p, s.trace)
    ensures s.trace[1].at == first + d && s.trace[1].landed == first + d + late
  {
    var r;
    var later := s1.(kv := s1.kv.(now := s1.kv.now + d));
    s, r := Answered(p, later, late, SecondNumber(p, d + late));
    SecondCallIsWrong(p, first, d, late, s.trace);
  }

  /**
    `Exact` is needed: configuration admits any positive window, and for each one outside it, at some
    time after any given one, two calls of one scope get an answer that counting does not give, though
    no increment is late. A window with a part of a millisecond outlives its counter; a window below a
    second can share its key with the next.
  */
  lemma {:induction false} InexactWindowsMiscount(p: Policy, from: nat) returns (s0: State, steps: seq<Step>, s: State)
    requires p.limit >= 1 && p.window > 0 && !Exact(p)
    ensures Init(s0) && s0.kv.now >= from && Run(p, s0, steps) == Some(s)
    ensures AllPunctual(p, s.trace) && !AllAgree(p, s.trace)
  {
    if p.window % MILLISECOND == 0 {
      ShortWindow(p, from);
      s0, steps, s := MisfitMiscounts(p, Aligned(p, from) + p.window - 1, 1, 0);
    } else {
      BrokenWindow(p, from);
      s0, steps, s := MisfitMiscounts(p, Aligned(p, from), p.window / MILLISECOND * MILLISECOND, 0);
    }
    ImmediateIsPunctual(p, s.trace[0]);
    ImmediateIsPunctual(p, s.trace[1]);
  }

  lemma ImmediateIsPunctual(p: Policy, r: Served)
    requires p.window > 0 && r.landed == r.at
    ensures Punctual(p, r)
  {
    WindowFacts(r.at, p.window);
  }

  /**
    Runs that are not prompt exist for every exact window, at some time after any given one: an
    increment that arrives a window after the first of its window finds the counter gone.
  */
  lemma {:induction false} LateIncrementsMiscount(p: Policy, from: nat) returns (s0: State, steps: seq<Step>, s: State)
    requires Exact(p)
    ensures Init(s0) && s0.kv.now >= from && Run(p, s0, steps) == Some(s)
    ensures !AllPrompt(p, s.trace) && !AllAgree(p, s.trace)
  {
    AlignedFacts(p, from);
    Aligns(Aligned(p, from), p.window, 0);
    assert p.window / MILLISECOND * MILLISECOND == p.window;
    s0, steps, s := MisfitMiscounts(p, Aligned(p, from), 0, p.window);
    AnswersMatchCounting(p, s0, steps, s);
  }

  /** The second call goes on counting where it should start afresh, or the other way round. */
  lemma {:induction false} SecondCallIsWrong(p: Policy, first: nat, d: nat, late: nat, trace: seq<Served>)
    requires p.limit >= 1 && p.window > 0 && Misfit(p, first, d, late)
    requires |trace| == 2 && trace[0].counted && trace[0].scope == ""
    requires trace[0].at == first && trace[1].at == first + d && AnswersNumber(p, trace[1], SecondNumber(p, d + late))
    ensures !AllAgree(p, trace)
  {
    SecondCallMiscounts(p, trace[0], trace[1], SecondNumber(p, d + late));
    assert trace[..1] == [trace[0]];
    assert !Agrees(p, trace[..1], trace[1]);
  }

  /** Two increments of a fresh key, `d` apart. */
  lemma IncrementTwice(now: int, key: string, ttl: int, d: nat)
    requires ttl > 0
    ensures var kv := Kv(map[], now, 0, {}).Incr(key, ttl).0;
            kv.(now := now + d).Incremented(key) == Some(if d < ttl / MILLISECOND * MILLISECOND then 2 else 1)
  {
    var kv := Kv(map[], now, 0, {}).Incr(key, ttl).0;
    if ttl / MILLISECOND != 0 {
      assert kv.data[key] == Entry(Number(1), Some(now + ttl / MILLISECOND * MILLISECOND));
    }
  }

  lemma NumberIsAnswered(p: Policy, kv: Kv, at: int, n: int)
    requires p.window > 0 && !kv.Fails()
    requires kv.Incremented(KeyAt(p, "", WindowStart(at, p.window))) == Some(n)
    ensures AllowAt(kv, p, "", at).1.remaining == if n <= p.limit then p.limit - n else 0
    ensures AllowAt(kv, p, "", at).1.allowed == (n <= p.limit)
  {
  }

  lemma SecondCallMiscounts(p: Policy, r0: Served, r1: Served, n: int)
    requires p.limit >= 1 && p.window > 0
    requires r0.counted && r0.scope == "" && AnswersNumber(p, r1, n)
    requires n == if WindowStart(r0.at, p.window) == WindowStart(r1.at, p.window) then 1 else 2
    ensures !Agrees(p, [r0], r1)
  {
    LogAppend(p, [], r0, "", WindowStart(r1.at, p.window));
    assert [] + [r0] == [r0];
  }

  /** The counter is still there for a call of the next window that shares its key, or gone for one of the same. */
  predicate Misfit(p: Policy, first: int, d: nat, late: nat)
    requires p.window > 0
  {
    var start, start' := WindowStart(first, p.window), WindowStart(first + d, p.window);
    && UnixSeconds(start) == UnixSeconds(start')
    && (d + late < p.window / MILLISECOND * MILLISECOND <==> start != start')
  }

  lemma MisfitSharesKey(p: Policy, first: int, d: nat, late: nat)
    requires p.window > 0 && Misfit(p, first, d, late)
    ensures KeyAt(p, "", WindowStart(first, p.window)) == KeyAt(p, "", WindowStart(first + d, p.window))
  {
  }

  /** An instant no earlier than `from` at which a window and a second start. */
  function Aligned(p: Policy, from: nat): nat
    requires p.window > 0
  {
    p.window * (SECOND * from)
  }

  lemma {:induction false} AlignedFacts(p: Policy, from: nat)
    requires p.window > 0
    ensures Aligned(p, from) >= from
    ensures Aligned(p, from) % p.window == 0 && Aligned(p, from) % SECOND == 0
  {
    var product := p.window * from;
    assert Aligned(p, from) == SECOND * product;
    MultipleHasNoRemainder(SECOND * from, p.window);
    MultipleHasNoRemainder(product, SECOND);
    MulMonotone(from, 1, p.window);
  }

  /** Within the window that starts at `start`. */
  lemma {:induction false} Aligns(start: int, window: int, t: int)
    requires window > 0 && start % window == 0 && 0 <= t < window
    ensures WindowStart(start + t, window) == start
  {
    WindowFacts(start + t, window);
    var other := WindowStart(start + t, window);
    if other < start {
      StartsAreApart(other, start, window);
    } else if start < other {
      StartsAreApart(start, other, window);
    }
  }

  lemma {:induction false} ShortWindow(p: Policy, from: nat)
    requires 0 < p.window < SECOND && p.window % MILLISECOND == 0
    ensures Aligned(p, from) >= from
    ensures Misfit(p, Aligned(p, from) + p.window - 1, 1, 0)
  {
    var start := Aligned(p, from);
    AlignedFacts(p, from);
    Aligns(start, p.window, p.window - 1);
    NextIsAligned(start, p.window);
    Aligns(start + p.window, p.window, 0);
  }

  lemma {:induction false} BrokenWindow(p: Policy, from: nat)
    requires p.window > 0 && p.window % MILLISECOND != 0
    ensures Aligned(p, from) >= from
    ensures Misfit(p, Aligned(p, from), p.window / MILLISECOND * MILLISECOND, 0)
  {
    AlignedFacts(p, from);
    Aligns(Aligned(p, from), p.window, 0);
    Aligns(Aligned(p, from), p.window, p.window / MILLISECOND * MILLISECOND);
  }

  // ---------- Retry-After ----------

  /**
    After a rejection, waiting the reported Retry-After seconds always lands in a later window: for
    every window whose length can be rounded up to seconds without wrapping, however late the
    increments, and whatever the counter held.
  */
  lemma {:induction false} RetryAfterReachesALaterWindow(
    p: Policy, s0: State, steps: seq<Step>, s: State, k: nat, wait: int)
    requires 0 < p.window <= MAX_INT64 - (SECOND - 1)
    requires Init(s0) && Run(p, s0, steps) == Some(s)
    requires k < |s.trace| && !s.trace[k].outcome.allowed
    requires wait >= SecondsOf(s.trace[k].outcome.retryAfter) * SECOND
    ensures WindowStart(s.trace[k].at + wait, p.window) > WindowStart(s.trace[k].at, p.window)
  {
    RunIsSensible(p, s0, steps, s);
    var r := s.trace[k];
    WindowFacts(r.at, p.window);
    WindowFacts(r.at + wait, p.window);
    SecondsRoundUp(r.outcome.retryAfter);
  }
}
