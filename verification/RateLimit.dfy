/**
  The fixed-window rate limiter: many replicas share one counter per scope and window, and the
  answers agree with counting the calls of that window.
*/
module RateLimit {
  import opened Wrappers
  import opened KeyStore
  import Keys

  /** Seconds from the zero time of `Time.Truncate` (year 1) to the Unix epoch. */
  const UNIX_EPOCH := 62_135_596_800

  datatype Policy = Policy(name: string, limit: int, window: int)

  datatype Outcome = Outcome(allowed: bool, limit: int, remaining: int, reset: int, retryAfter: int)

  function Digits(n: nat): (s: string)
    ensures ':' !in s
  {
    if n < 10 then ["0123456789"[n]] else Digits(n / 10) + ["0123456789"[n % 10]]
  }

  function Itoa(n: int): (s: string)
    ensures ':' !in s
  {
    if n < 0 then "-" + Digits(-n) else Digits(n)
  }

  function WindowStart(t: int, window: int): int
    requires window > 0
  {
    t - t % window
  }

  function UnixSeconds(t: int): int {
    t / SECOND - UNIX_EPOCH
  }

  function Key(name: string, scope: string, seconds: int): string {
    Keys.RATE_LIMIT + name + ":" + scope + ":" + Itoa(seconds)
  }

  function KeyAt(p: Policy, scope: string, start: int): string {
    Key(p.name, scope, UnixSeconds(start))
  }

  /** A call that read the clock at `at` and increments now. */
  function AllowAt(kv: Kv, p: Policy, scope: string, at: int): (Kv, Outcome)
    requires p.window > 0
  {
    var start := WindowStart(at, p.window);
    var reset := start + p.window - at;
    var (after, r) := kv.Incr(KeyAt(p, scope, start), p.window);
    (after,
     match r
     case Err(_) => Outcome(true, p.limit, p.limit, reset, 0)
     case Ok(n) =>
       if n > p.limit then Outcome(false, p.limit, 0, reset, reset)
       else Outcome(true, p.limit, p.limit - n, reset, 0))
  }

  /** A call with nothing between its clock read and its increment. */
  function AllowSpec(kv: Kv, p: Policy, scope: string): (Kv, Outcome)
    requires p.window > 0
  {
    AllowAt(kv, p, scope, kv.now)
  }

  /** One replica; all replicas hold the same cache. */
  class Limiter {
    const cache: Cache
    const policy: Policy

    constructor (cache: Cache, policy: Policy)
      requires policy.limit >= 1 && policy.window > 0
      ensures this.cache == cache && this.policy == policy
    {
      this.cache, this.policy := cache, policy;
    }

    method Allow(scope: string) returns (r: Outcome)
      requires policy.window > 0
      modifies cache`data, cache`ops
      ensures (cache.Contents(), r) == AllowSpec(old(cache.Contents()), policy, scope)
    {
      var now := cache.now;
      var windowStart := WindowStart(now, policy.window);
      var reset := windowStart + policy.window - now;
      var n := cache.Incr(KeyAt(policy, scope, windowStart), policy.window);
      if n.Err? { return Outcome(true, policy.limit, policy.limit, reset, 0); }
      var remaining := policy.limit - n.value;
      if remaining < 0 {
        remaining := 0;
      }
      if n.value > policy.limit { return Outcome(false, policy.limit, 0, reset, reset); }
      r := Outcome(true, policy.limit, remaining, reset, 0);
    }
  }

  // ---------- Keys ----------

  lemma {:induction false} DigitsInjective(m: nat, n: nat)
    requires Digits(m) == Digits(n)
    ensures m == n
    decreases m
  {
    var digits := "0123456789";
    assert forall i, j | 0 <= i < j < 10 :: digits[i] != digits[j];
    assert Digits(m)[|Digits(m)| - 1] == digits[m % 10] && Digits(n)[|Digits(n)| - 1] == digits[n % 10];
    assert m % 10 == n % 10;
    NonEmpty(m / 10);
    NonEmpty(n / 10);
    if m >= 10 && n >= 10 {
      assert Digits(m)[..|Digits(m)| - 1] == Digits(m / 10) && Digits(n)[..|Digits(n)| - 1] == Digits(n / 10);
      DigitsInjective(m / 10, n / 10);
    }
  }

  lemma NonEmpty(n: nat)
    ensures |Digits(n)| >= 1 && Digits(n)[0] != '-'
  {
  }

  lemma {:induction false} ItoaInjective(m: int, n: int)
    requires Itoa(m) == Itoa(n)
    ensures m == n
  {
    NonEmpty(if m < 0 then -m else m);
    NonEmpty(if n < 0 then -n else n);
    assert m < 0 ==> Itoa(m)[0] == '-' && Itoa(m)[1..] == Digits(-m);
    assert n < 0 ==> Itoa(n)[0] == '-' && Itoa(n)[1..] == Digits(-n);
    DigitsInjective(if m < 0 then -m else m, if n < 0 then -n else n);
  }

  /** The number that a string of decimal digits stands for. */
  function DecimalValue(s: string): int {
    if s == "" then 0 else 10 * DecimalValue(s[..|s| - 1]) + (s[|s| - 1] as int - '0' as int)
  }

  /** Digits are decimal, most significant first, and without leading zeros. */
  lemma {:induction false} DigitsAreDecimal(n: nat)
    ensures DecimalValue(Digits(n)) == n
    ensures forall k | 0 <= k < |Digits(n)| :: '0' <= Digits(n)[k] <= '9'
    ensures n > 0 ==> Digits(n)[0] != '0'
  {
    DigitValue(n % 10);
    if n >= 10 {
      DigitsAreDecimal(n / 10);
      NonEmpty(n / 10);
      assert Digits(n)[..|Digits(n)| - 1] == Digits(n / 10);
    } else {
      assert Digits(n)[..0] == "";
    }
  }

  lemma DigitValue(d: nat)
    requires d < 10
    ensures "0123456789"[d] as int == '0' as int + d
  {
    var digits := "0123456789";
    assert digits[0..5] == "01234";
  }

  /** The last colon splits a key, so scopes may contain colons, as IPv6 addresses do. */
  lemma {:induction false} LastColonSplits(a: string, x: string, b: string, y: string)
    requires a + ":" + x == b + ":" + y && ':' !in x && ':' !in y
    ensures a == b && x == y
  {
    var s := a + ":" + x;
    assert s[|a|] == ':' && s[|b|] == ':';
    assert |a| == |b|;
    assert a == s[..|a|] && b == (b + ":" + y)[..|b|];
    assert x == s[|a| + 1..] && y == (b + ":" + y)[|b| + 1..];
  }

  lemma {:induction false} KeyInjective(name: string, scope: string, seconds: int, scope': string, seconds': int)
    requires Key(name, scope, seconds) == Key(name, scope', seconds')
    ensures scope == scope' && seconds == seconds'
  {
    var prefix := Keys.RATE_LIMIT + name + ":";
    assert prefix + scope + ":" + Itoa(seconds) == prefix + scope' + ":" + Itoa(seconds');
    LastColonSplits(prefix + scope, Itoa(seconds), prefix + scope', Itoa(seconds'));
    Keys.SuffixIsRecovered(prefix, scope, scope');
    ItoaInjective(seconds, seconds');
  }

  /** Some calls of limiters with these names share a key. */
  ghost predicate NamesCollide(name: string, name': string) {
    exists scope, seconds, scope', seconds' :: Key(name, scope, seconds) == Key(name', scope', seconds')
  }

  lemma {:induction false} CollidingNamesExtend(
    name: string, scope: string, seconds: int, name': string, scope': string, seconds': int)
    requires Key(name, scope, seconds) == Key(name', scope', seconds') && |name| <= |name'|
    ensures name == name' || name + ":" <= name'
  {
    var a, b := name + ":" + scope, name' + ":" + scope';
    KeyEndsInSeconds(name, scope, seconds);
    KeyEndsInSeconds(name', scope', seconds');
    LastColonSplits(Keys.RATE_LIMIT + a, Itoa(seconds), Keys.RATE_LIMIT + b, Itoa(seconds'));
    Keys.SuffixIsRecovered(Keys.RATE_LIMIT, a, b);
    ShorterExtends(name, scope, name', scope');
  }

  lemma KeyEndsInSeconds(name: string, scope: string, seconds: int)
    ensures Key(name, scope, seconds) == Keys.RATE_LIMIT + (name + ":" + scope) + ":" + Itoa(seconds)
  {
    assert Keys.RATE_LIMIT + name + ":" + scope == Keys.RATE_LIMIT + (name + ":" + scope);
  }

  lemma ShorterExtends(a: string, x: string, b: string, y: string)
    requires a + ":" + x == b + ":" + y && |a| <= |b|
    ensures a == b || a + ":" <= b
  {
    var s := a + ":" + x;
    assert a == s[..|a|] && b == (b + ":" + y)[..|b|];
    if |a| < |b| {
      assert b[|a|] == s[|a|] == ':';
    }
  }

  /** Keys of two limiters can meet exactly when one name is the other, or continues it after a colon. */
  lemma {:induction false} NamesCollideExactly(name: string, name': string)
    ensures NamesCollide(name, name') <==> name == name' || name + ":" <= name' || name' + ":" <= name
  {
    if scope, seconds, scope', seconds' :| Key(name, scope, seconds) == Key(name', scope', seconds') {
      if |name| <= |name'| {
        CollidingNamesExtend(name, scope, seconds, name', scope', seconds');
      } else {
        CollidingNamesExtend(name', scope', seconds', name, scope, seconds);
      }
    }
    if name == name' || name + ":" <= name' {
      ExtendingNamesCollide(name, name');
    } else if name' + ":" <= name {
      ExtendingNamesCollide(name', name);
    }
  }

  lemma ExtendingNamesCollide(name: string, name': string)
    requires name == name' || name + ":" <= name'
    ensures NamesCollide(name, name') && NamesCollide(name', name)
  {
    if name == name' {
      assert Key(name, "", 0) == Key(name', "", 0);
    } else {
      var rest := name'[|name| + 1..];
      assert name' == name + ":" + rest;
      ExtendedNameCollides(name, rest, "", 0);
      assert Key(name', "", 0) == Key(name, rest + ":" + "", 0);
    }
  }

  /** The scope of one call takes over the rest of the other's name. */
  lemma ExtendedNameCollides(name: string, rest: string, scope: string, seconds: int)
    ensures Key(name + ":" + rest, scope, seconds) == Key(name, rest + ":" + scope, seconds)
  {
    assert name + ":" + rest + ":" + scope == name + ":" + (rest + ":" + scope);
    assert Keys.RATE_LIMIT + (name + ":" + rest) + ":" + scope == Keys.RATE_LIMIT + (name + ":" + rest + ":" + scope);
    assert Keys.RATE_LIMIT + name + ":" + (rest + ":" + scope) == Keys.RATE_LIMIT + (name + ":" + (rest + ":" + scope));
  }

  // ---------- Windows ----------

  /** What the exact results need: windows of at least a second, in whole milliseconds. */
  predicate Exact(p: Policy) {
    p.limit >= 1 && p.window >= SECOND && p.window % MILLISECOND == 0
  }

  lemma WindowFacts(t: int, window: int)
    requires window > 0
    ensures WindowStart(t, window) <= t < WindowStart(t, window) + window
    ensures WindowStart(t, window) % window == 0
  {
    var q := t / window;
    assert t == window * q + t % window;
    MultipleHasNoRemainder(q, window);
  }

  lemma {:induction false} MultipleHasNoRemainder(q: int, m: int)
    requires m > 0
    ensures (m * q) % m == 0
  {
    var r := (m * q) % m;
    var d := (m * q) / m;
    assert m * q == m * d + r;
    assert m * (q - d) == r;
    if q - d >= 1 {
      MulAtLeast(m, q - d);
    } else if q - d <= -1 {
      MulAtLeast(m, d - q);
    }
  }

  lemma MulAtLeast(m: int, k: int)
    requires m > 0 && k >= 1
    ensures m * k >= m
  {
  }

  /** Aligned starts of different windows lie at least a window apart. */
  lemma {:induction false} StartsAreApart(a: int, b: int, window: int)
    requires window > 0 && a % window == 0 && b % window == 0 && a < b
    ensures a + window <= b
  {
    var i, j := a / window, b / window;
    assert a == window * i && b == window * j;
    if j <= i {
      MulMonotone(window, j, i);
    } else {
      MulAtLeast(window, j - i);
      assert window * (j - i) == b - a;
    }
  }

  lemma MulMonotone(m: int, i: int, j: int)
    requires m >= 0 && i <= j
    ensures m * i <= m * j
  {
  }

  /** Distinct aligned windows have distinct start seconds, so the key tells windows apart. */
  lemma {:induction false} KeyTellsWindowsApart(p: Policy, scope: string, start: int, scope': string, start': int)
    requires Exact(p) && start % p.window == 0 && start' % p.window == 0
    requires KeyAt(p, scope, start) == KeyAt(p, scope', start')
    ensures scope == scope' && start == start'
  {
    KeyInjective(p.name, scope, UnixSeconds(start), scope', UnixSeconds(start'));
    if start < start' {
      StartsAreApart(start, start', p.window);
    } else if start' < start {
      StartsAreApart(start', start, p.window);
    }
  }
}
