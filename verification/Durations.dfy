/** Whole seconds for Retry-After and reset headers, from int64 nanoseconds. */
module Durations {
  import opened Integers
  import opened KeyStore

  method Seconds(d: int) returns (secs: int)
    requires d <= MAX_INT64
    ensures secs == SecondsOf(d)
  {
    if d <= 0 { return 1; }
    secs := Quotient(Wrap64(d + SECOND - 1), SECOND);
    if secs < 1 {
      secs := 1;
    }
  }

  function SecondsOf(d: int): int {
    if d <= 0 then 1
    else
      var secs := Quotient(Wrap64(d + SECOND - 1), SECOND);
      if secs < 1 then 1 else secs
  }

  /**
    The header rounds up, to the least positive number of seconds that covers the duration, exactly
    as long as adding the rounding term does not wrap; past that it reports one second.
  */
  lemma {:induction false} SecondsRoundUp(d: int)
    requires d <= MAX_INT64
    ensures SecondsOf(d) >= 1
    ensures SecondsOf(d) * SECOND >= d <==> d <= MAX_INT64 - (SECOND - 1)
    ensures d <= MAX_INT64 - (SECOND - 1) ==> forall n | n >= 1 && n * SECOND >= d :: SecondsOf(d) <= n
  {
  }
}
