/** What one operation of the key store says about the next: the laws its callers rely on. */
module KeyStoreLaws {
  import opened Wrappers
  import opened KeyStore

  /** The rounding of a positive ttl loses less than a millisecond, and never leaves nothing. */
  lemma MillisRounds(ttl: int)
    requires ttl > 0
    ensures Millis(ttl) % MILLISECOND == 0 && Millis(ttl) > 0
    ensures ttl >= MILLISECOND ==> ttl - MILLISECOND < Millis(ttl) <= ttl
    ensures ttl < MILLISECOND ==> Millis(ttl) == MILLISECOND
  {
  }

  /** A value is read back until its ttl is over, or forever without one; no other key changes. */
  lemma SetThenGet(kv: Kv, key: string, value: Value, ttl: int, d: nat)
    requires !value.Members? && kv.ops !in kv.faults && kv.ops + 1 !in kv.faults
    ensures var after := kv.Set(key, value, ttl).0;
            && kv.Set(key, value, ttl).1 == Ok(())
            && after.(now := kv.now + d).Get(key).1 == (if ttl <= 0 || d < Millis(ttl) then Ok(value) else Err(Miss))
            && after.now == kv.now && after.data - {key} == kv.data - {key}
  {
  }

  lemma DelThenGet(kv: Kv, key: string)
    requires kv.ops !in kv.faults && kv.ops + 1 !in kv.faults
    ensures kv.Del(key).1 == Ok(()) && kv.Del(key).0.Get(key).1 == Err(Miss)
    ensures kv.Del(key).0.now == kv.now && kv.Del(key).0.data - {key} == kv.data - {key}
  {
  }

  /** The members listed are those added while the set lasted, and none when there is no set. */
  lemma SAddThenSMembers(kv: Kv, key: string, member: string, ttl: int, d: nat)
    requires kv.faults == {} && ttl > 0 && (kv.Live(key) ==> kv.data[key].value.Members?)
    ensures kv.SMembers(key).1.Ok? && (!kv.Live(key) ==> kv.SMembers(key).1.value == {})
    ensures var after := kv.SAdd(key, member, ttl).0;
            && kv.SAdd(key, member, ttl).1 == Ok(())
            && after.(now := kv.now + d).SMembers(key).1 ==
               Ok(if d < Millis(ttl) then kv.SMembers(key).1.value + {member} else {})
            && after.now == kv.now && after.data - {key} == kv.data - {key}
  {
  }

  /**
    A counter starts at one, goes up by one while it lasts, and lasts for the whole milliseconds of the
    ttl of its first increment, whatever later increments ask for.
  */
  lemma IncrThenIncr(kv: Kv, key: string, ttl: int, ttl': int, d: nat, e: nat)
    requires kv.faults == {} && !kv.Live(key) && ttl > 0
    ensures var whole := ttl / MILLISECOND * MILLISECOND;
            var (kv1, first) := kv.Incr(key, ttl);
            var (kv2, second) := kv1.(now := kv.now + d).Incr(key, ttl');
            && first == Ok(1)
            && second == Ok(if d < whole then 2 else 1)
            && (d < whole ==> kv2.(now := kv.now + d + e).Incr(key, ttl').1 == Ok(if d + e < whole then 3 else 1))
  {
    var kv1 := kv.Incr(key, ttl).0;
    assert ttl / MILLISECOND != 0 ==> kv1.data[key] == Entry(Number(1), Some(kv.now + ttl / MILLISECOND * MILLISECOND));
  }

  /** An operation that the store does not answer changes nothing. */
  lemma FailuresChangeNothing(kv: Kv, key: string, value: Value, member: string, ttl: int)
    requires kv.ops in kv.faults
    ensures kv.Set(key, value, ttl) == (kv.(ops := kv.ops + 1), Err(Unavailable))
    ensures kv.Get(key) == (kv.(ops := kv.ops + 1), Err(Unavailable))
    ensures kv.Del(key) == (kv.(ops := kv.ops + 1), Err(Unavailable))
    ensures kv.Incr(key, ttl) == (kv.(ops := kv.ops + 1), Err(Unavailable))
    ensures kv.TTL(key) == (kv.(ops := kv.ops + 1), Err(Unavailable))
    ensures kv.SAdd(key, member, ttl) == (kv.(ops := kv.ops + 1), Err(Unavailable))
    ensures kv.SMembers(key) == (kv.(ops := kv.ops + 1), Err(Unavailable))
  {
  }

  /** The remaining time of a fresh value is its ttl to the nearest second, and zero for one without. */
  lemma SetThenTTL(kv: Kv, key: string, value: Value, ttl: int, d: nat)
    requires kv.ops !in kv.faults && kv.ops + 1 !in kv.faults && (ttl > 0 ==> d < Millis(ttl))
    ensures var left := kv.Set(key, value, ttl).0.(now := kv.now + d).TTL(key).1;
            && left.Ok? && left.value % SECOND == 0
            && (ttl <= 0 ==> left.value == 0)
            && (ttl > 0 ==> Millis(ttl) - d - SECOND / 2 < left.value <= Millis(ttl) - d + SECOND / 2)
  {
  }
}
