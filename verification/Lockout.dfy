/** The login lockout: failure counters with a window anchored at the first failure, and separate locks. */
module Lockout {
  import opened Wrappers
  import opened KeyStore
  import Keys

  datatype Policy = Policy(maxAttempts: int, window: int, lockTTL: int)

  /** Failures are counted per username and per client address. */
  datatype Subject = User(name: string) | Ip(addr: string)

  function CounterKey(x: Subject): string {
    match x
    case User(name) => Keys.FAIL_USER + name
    case Ip(addr) => Keys.FAIL_IP + addr
  }

  function LockKey(x: Subject): string {
    match x
    case User(name) => Keys.LOCK_USER + name
    case Ip(addr) => Keys.LOCK_IP + addr
  }

  function LockKeys(username: string, ip: string): seq<string> {
    (if username != "" then [LockKey(User(username))] else []) + (if ip != "" then [LockKey(Ip(ip))] else [])
  }

  /** The scan of the lock keys: any real store error fails open, otherwise the longest remaining lock counts. */
  function Scan(kv: Kv, p: Policy, keys: seq<string>, locked: bool, retryAfter: int): (Kv, bool, int)
    decreases |keys|
  {
    if keys == [] then (kv, locked, if locked && retryAfter <= 0 then p.lockTTL else retryAfter)
    else
      var (kv1, held) := kv.Get(keys[0]);
      match held
      case Err(error) =>
        if error == Miss then Scan(kv1, p, keys[1..], locked, retryAfter) else (kv1, false, 0)
      case Ok(_) =>
        var (kv2, ttl) := kv1.TTL(keys[0]);
        Scan(kv2, p, keys[1..], true, if ttl.Ok? && ttl.value > retryAfter then ttl.value else retryAfter)
  }

  function LockedSpec(kv: Kv, p: Policy, username: string, ip: string): (Kv, bool, int) {
    Scan(kv, p, LockKeys(username, ip), false, 0)
  }

  function Bumped(kv: Kv, p: Policy, x: Subject): Kv {
    var (kv1, n) := kv.Incr(CounterKey(x), p.window);
    if n.Ok? && n.value >= p.maxAttempts then kv1.Set(LockKey(x), Text("1"), p.lockTTL).0 else kv1
  }

  function FailureRecorded(kv: Kv, p: Policy, username: string, ip: string): Kv {
    Bumped(Bumped(kv, p, User(username)), p, Ip(ip))
  }

  function Deleted(kv: Kv, keys: seq<string>): Kv
    decreases |keys|
  {
    if keys == [] then kv else Deleted(kv.Del(keys[0]).0, keys[1..])
  }

  function ResetKeys(username: string, ip: string): seq<string> {
    [CounterKey(User(username)), CounterKey(Ip(ip)), LockKey(User(username)), LockKey(Ip(ip))]
  }

  /** The administrator's unlock stops at the first store error. */
  function UnlockSpec(kv: Kv, username: string): (Kv, Answer<()>) {
    var (kv1, r1) := kv.Del(CounterKey(User(username)));
    if r1.Err? then (kv1, r1) else kv1.Del(LockKey(User(username)))
  }

  class Lockout {
    const cache: Cache
    const policy: Policy

    constructor (cache: Cache, policy: Policy)
      ensures this.cache == cache && this.policy == policy
    {
      this.cache, this.policy := cache, policy;
    }

    method Locked(username: string, ip: string) returns (locked: bool, retryAfter: int)
      modifies cache`ops
      ensures (cache.Contents(), locked, retryAfter) == LockedSpec(old(cache.Contents()), policy, username, ip)
    {
      locked, retryAfter := false, 0;
      var keys := LockKeys(username, ip);
      for i := 0 to |keys|
        invariant Scan(cache.Contents(), policy, keys[i..], locked, retryAfter) ==
                  LockedSpec(old(cache.Contents()), policy, username, ip)
      {
        assert keys[i..][1..] == keys[i + 1..];
        var held := cache.Get(keys[i]);
        if held.Err? {
          if held.error == Miss { continue; }
          return false, 0;
        }
        locked := true;
        var ttl := cache.TTL(keys[i]);
        if ttl.Ok? && ttl.value > retryAfter {
          retryAfter := ttl.value;
        }
      }
      if locked && retryAfter <= 0 {
        retryAfter := policy.lockTTL;
      }
    }

    method Bump(x: Subject)
      modifies cache`data, cache`ops
      ensures cache.Contents() == Bumped(old(cache.Contents()), policy, x)
    {
      var n := cache.Incr(CounterKey(x), policy.window);
      if n.Err? { return; }
      if n.value >= policy.maxAttempts {
        var _ := cache.Set(LockKey(x), Text("1"), policy.lockTTL);
      }
    }

    method RecordFailure(username: string, ip: string)
      modifies cache`data, cache`ops
      ensures cache.Contents() == FailureRecorded(old(cache.Contents()), policy, username, ip)
    {
      Bump(User(username));
      Bump(Ip(ip));
    }

    method Reset(username: string, ip: string)
      modifies cache`data, cache`ops
      ensures cache.Contents() == Deleted(old(cache.Contents()), ResetKeys(username, ip))
    {
      var keys := ResetKeys(username, ip);
      for i := 0 to |keys|
        invariant Deleted(cache.Contents(), keys[i..]) == Deleted(old(cache.Contents()), keys)
      {
        assert keys[i..][1..] == keys[i + 1..];
        var _ := cache.Del(keys[i]);
      }
    }

    method Unlock(username: string) returns (r: Answer<()>)
      modifies cache`data, cache`ops
      ensures (cache.Contents(), r) == UnlockSpec(old(cache.Contents()), username)
    {
      r := cache.Del(CounterKey(User(username)));
      if r.Err? { return; }
      r := cache.Del(LockKey(User(username)));
    }
  }

  // ---------- Keys ----------

  lemma {:induction false} SubjectKeysAreDistinct(x: Subject, y: Subject)
    ensures CounterKey(x) != LockKey(y)
    ensures x != y ==> CounterKey(x) != CounterKey(y) && LockKey(x) != LockKey(y)
  {
    var a := if x.User? then x.name else x.addr;
    var b := if y.User? then y.name else y.addr;
    Keys.FamiliesAreDisjoint(if x.User? then 2 else 3, if y.User? then 4 else 5, a, b);
    if x.User? != y.User? {
      Keys.FamiliesAreDisjoint(if x.User? then 2 else 3, if y.User? then 2 else 3, a, b);
      Keys.FamiliesAreDisjoint(if x.User? then 4 else 5, if y.User? then 4 else 5, a, b);
    } else if CounterKey(x) == CounterKey(y) {
      Keys.SuffixIsRecovered(if x.User? then Keys.FAIL_USER else Keys.FAIL_IP, a, b);
    } else if LockKey(x) == LockKey(y) {
      Keys.SuffixIsRecovered(if x.User? then Keys.LOCK_USER else Keys.LOCK_IP, a, b);
    }
  }
}
