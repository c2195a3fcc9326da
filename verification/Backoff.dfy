/** The retry delays of `retryBackoff`, in nanoseconds, with Go's wrapping int64 shift. */
module Backoff {
  import opened Integers

  const BASE_BACKOFF := 1_000_000
  const MAX_BACKOFF := 50_000_000

  function Pow2(k: nat): (p: nat)
    ensures p >= 1
  {
    if k == 0 then 1 else 2 * Pow2(k - 1)
  }

  /** Go's `x << k` on int64: bits past the 64th are lost, whatever the count. */
  function Shl64(x: int, k: nat): int {
    Wrap64(x * Pow2(k))
  }

  function MaxDelay(attempt: int): (d: int)
    requires attempt >= 1
  {
    var d := Shl64(BASE_BACKOFF, attempt - 1);
    if d <= 0 || d > MAX_BACKOFF then MAX_BACKOFF else d
  }

  function Min(a: int, b: int): int {
    if a <= b then a else b
  }

  lemma {:induction false} Pow2Adds(j: nat, k: nat)
    ensures Pow2(j + k) == Pow2(j) * Pow2(k)
  {
    if j > 0 {
      Pow2Adds(j - 1, k);
      assert Pow2(j - 1 + k) == Pow2(j - 1) * Pow2(k);
      assert Pow2(j) * Pow2(k) == 2 * (Pow2(j - 1) * Pow2(k)) by { Rearrange(Pow2(j - 1), Pow2(k)); }
    }
  }

  lemma Rearrange(a: int, b: int)
    ensures (2 * a) * b == 2 * (a * b)
  {
  }

  lemma {:induction false} Pow2Monotone(j: nat, k: nat)
    requires j <= k
    ensures Pow2(j) <= Pow2(k)
  {
    if j < k {
      Pow2Monotone(j, k - 1);
    }
  }

  lemma Pow2Values()
    ensures Pow2(5) == 32 && Pow2(6) == 64
    ensures Pow2(40) == 0x100_0000_0000 && Pow2(44) == 0x1000_0000_0000
  {
    assert Pow2(4) == 16 && Pow2(10) == 1024;
    Pow2Adds(10, 10);
    Pow2Adds(20, 20);
    Pow2Adds(40, 4);
  }

  /** A multiple of `2^50` wraps to a multiple of `2^50`: to nothing positive, or to something large. */
  lemma WrappedMultiple(q: int)
    ensures Wrap64(q * 0x4_0000_0000_0000) <= 0 || Wrap64(q * 0x4_0000_0000_0000) >= 0x4_0000_0000_0000
  {
    var n := (q * 0x4_0000_0000_0000 + TWO_63) / TWO_64;
    assert Wrap64(q * 0x4_0000_0000_0000) == (q - n * 0x4000) * 0x4_0000_0000_0000;
  }

  lemma LargeShift(k: nat)
    requires k >= 44
    ensures Shl64(BASE_BACKOFF, k) <= 0 || Shl64(BASE_BACKOFF, k) > MAX_BACKOFF
  {
    Pow2Values();
    Pow2Adds(44, k - 44);
    var p := Pow2(k - 44);
    assert Pow2(k) == 0x1000_0000_0000 * p;
    assert BASE_BACKOFF * Pow2(k) == (15625 * p) * 0x4_0000_0000_0000;
    WrappedMultiple(15625 * p);
  }

  /**
    For every attempt, also once the shift wraps or runs past 64 bits, the bound on the delay is the
    capped doubling that the comments promise. So the draw's argument is always positive.
  */
  lemma {:induction false} MaxDelayIsCappedDoubling(attempt: int)
    requires attempt >= 1
    ensures MaxDelay(attempt) == Min(MAX_BACKOFF, BASE_BACKOFF * Pow2(attempt - 1))
    ensures MaxDelay(attempt) > 0
  {
    var k := attempt - 1;
    Pow2Values();
    if k <= 5 {
      Pow2Monotone(k, 5);
    } else {
      Pow2Monotone(6, k);
      if k < 44 {
        Pow2Monotone(k, 43);
      } else {
        LargeShift(k);
      }
    }
  }

  /** Go's `rand.Int64N`, which panics unless `n > 0`; every value in range is drawn by some seed. */
  method Int64N(n: int, seed: nat) returns (r: int)
    requires n > 0
    ensures 0 <= r < n
    ensures seed < n ==> r == seed
  {
    r := if seed < n then seed else seed % n;
  }

  method RetryBackoff(attempt: int, seed: nat) returns (delay: int)
    requires attempt >= 1
    ensures 0 <= delay < Min(MAX_BACKOFF, BASE_BACKOFF * Pow2(attempt - 1))
    ensures seed < Min(MAX_BACKOFF, BASE_BACKOFF * Pow2(attempt - 1)) ==> delay == seed
  {
    var maxDelay := Shl64(BASE_BACKOFF, attempt - 1);
    if maxDelay <= 0 || maxDelay > MAX_BACKOFF {
      maxDelay := MAX_BACKOFF;
    }
    assert maxDelay == MaxDelay(attempt);
    MaxDelayIsCappedDoubling(attempt);
    delay := Int64N(maxDelay, seed);
  }
}
