/** Server-side sessions: a sliding idle window under an absolute cap, and the per-user index. */
module Sessions {
  import opened Wrappers
  import opened KeyStore
  import Keys

  datatype Policy = Policy(idleTTL: int, absoluteTTL: int)

  datatype Identity = Identity(userId: string, username: string, role: string)

  /** A session as the handlers see it: the stored record with its id put back. */
  datatype Session = Session(id: string, record: Record)

  datatype SessionError = NotFound | Expired | StoreFailed

  type Reply<T> = Result<T, SessionError>

  function SessionKey(id: string): string {
    Keys.SESSION + id
  }

  function UserSessionsKey(userId: string): string {
    Keys.USER_SESSIONS + userId
  }

  function FromStore(r: Answer<()>): Reply<()> {
    if r.Ok? then Ok(()) else Err(StoreFailed)
  }

  /** The smaller of the idle window and what is left of the absolute lifetime. */
  function RemainingTTL(p: Policy, createdAt: int, now: int): int {
    var absRemaining := p.absoluteTTL - (now - createdAt);
    if absRemaining < p.idleTTL then absRemaining else p.idleTTL
  }

  function Saved(kv: Kv, s: Session, ttl: int): (Kv, Reply<()>) {
    var (after, r) := kv.Set(SessionKey(s.id), Json(s.record), ttl);
    (after, FromStore(r))
  }

  /** `id` and `csrf` are the random tokens drawn. */
  function Created(kv: Kv, p: Policy, who: Identity, id: string, csrf: string): (Kv, Reply<Session>) {
    var s := Session(id, Record(who.userId, who.username, who.role, csrf, kv.now, kv.now));
    var (kv1, saved) := Saved(kv, s, p.idleTTL);
    if saved.Err? then (kv1, Err(StoreFailed))
    else
      var (kv2, indexed) := kv1.SAdd(UserSessionsKey(who.userId), id, p.absoluteTTL);
      (kv2, if indexed.Ok? then Ok(s) else Err(StoreFailed))
  }

  function DeletedSession(kv: Kv, id: string): (Kv, Reply<()>) {
    var (after, r) := kv.Del(SessionKey(id));
    (after, FromStore(r))
  }

  function Loaded(kv: Kv, p: Policy, id: string): (Kv, Reply<Session>) {
    var (kv1, raw) := kv.Get(SessionKey(id));
    match raw
    case Err(error) => (kv1, Err(if error == Miss then NotFound else StoreFailed))
    case Ok(value) =>
      if !value.Json? then (kv1, Err(StoreFailed))
      else if kv.now - value.record.createdAt > p.absoluteTTL then (DeletedSession(kv1, id).0, Err(Expired))
      else (kv1, Ok(Session(id, value.record)))
  }

  function Touched(kv: Kv, p: Policy, s: Session): (Kv, Reply<()>) {
    var ttl := RemainingTTL(p, s.record.createdAt, kv.now);
    if ttl <= 0 then (DeletedSession(kv, s.id).0, Err(Expired))
    else Saved(kv, s.(record := s.record.(lastSeenAt := kv.now)), ttl)
  }

  /** The data left when the listed sessions, except one, and maybe the index are deleted. */
  function RevokedData(kv: Kv, userId: string, exceptId: string): map<string, Entry> {
    var listed := kv.SMembers(UserSessionsKey(userId)).1;
    var ids := if listed.Ok? then listed.value else {};
    var sessions := kv.data - set id | id in ids && id != exceptId :: SessionKey(id);
    if exceptId == "" then sessions - {UserSessionsKey(userId)} else sessions
  }

  /** What a bulk revocation left, and whether it succeeded. */
  datatype Revocation = Revocation(kv: Kv, ok: bool)

  /** No index yet, or no more, or a set. */
  predicate Readable(kv: Kv, index: string) {
    kv.Live(index) ==> kv.data[index].value.Members?
  }

  /**
    On success exactly the listed sessions but the spared one, and the index if none is spared, are
    gone. On failure only some of them are, in the order the store happens to list them; the index goes
    last. Without store errors it succeeds, unless something else than a set lies under the index key.
  */
  ghost predicate RevokeOutcome(kv: Kv, userId: string, exceptId: string, r: Revocation) {
    var data, index := RevokedData(kv, userId, exceptId), UserSessionsKey(userId);
    && r.kv.now == kv.now && r.kv.faults == kv.faults && r.kv.ops > kv.ops
    && (r.ok ==> kv.SMembers(index).1.Ok? && r.kv.data == data)
    && (!r.ok ==>
          && data.Keys <= r.kv.data.Keys
          && (forall k | k in r.kv.data :: k in kv.data && r.kv.data[k] == kv.data[k])
          && (index in kv.data ==> index in r.kv.data))
    && (kv.faults == {} && Readable(kv, index) ==> r.ok)
  }

  class Manager {
    const cache: Cache
    const policy: Policy

    constructor (cache: Cache, policy: Policy)
      ensures this.cache == cache && this.policy == policy
    {
      this.cache, this.policy := cache, policy;
    }

    method Save(s: Session, ttl: int) returns (r: Reply<()>)
      modifies cache`data, cache`ops
      ensures (cache.Contents(), r) == Saved(old(cache.Contents()), s, ttl)
    {
      var stored := cache.Set(SessionKey(s.id), Json(s.record), ttl);
      r := FromStore(stored);
    }

    method CreateSession(who: Identity, id: string, csrf: string) returns (r: Reply<Session>)
      modifies cache`data, cache`ops
      ensures (cache.Contents(), r) == Created(old(cache.Contents()), policy, who, id, csrf)
    {
      var now := cache.now;
      var s := Session(id, Record(who.userId, who.username, who.role, csrf, now, now));
      var saved := Save(s, policy.idleTTL);
      if saved.Err? { return Err(StoreFailed); }
      var indexed := cache.SAdd(UserSessionsKey(who.userId), id, policy.absoluteTTL);
      if indexed.Err? { return Err(StoreFailed); }
      r := Ok(s);
    }

    method DeleteSession(id: string) returns (r: Reply<()>)
      modifies cache`data, cache`ops
      ensures (cache.Contents(), r) == DeletedSession(old(cache.Contents()), id)
    {
      var deleted := cache.Del(SessionKey(id));
      r := FromStore(deleted);
    }

    method GetSession(id: string) returns (r: Reply<Session>)
      modifies cache`data, cache`ops
      ensures (cache.Contents(), r) == Loaded(old(cache.Contents()), policy, id)
    {
      var raw := cache.Get(SessionKey(id));
      if raw.Err? { return Err(if raw.error == Miss then NotFound else StoreFailed); }
      if !raw.value.Json? { return Err(StoreFailed); }
      var record := raw.value.record;
      if cache.now - record.createdAt > policy.absoluteTTL {
        var _ := DeleteSession(id);
        return Err(Expired);
      }
      r := Ok(Session(id, record));
    }

    method TouchSession(s: Session) returns (r: Reply<()>)
      modifies cache`data, cache`ops
      ensures (cache.Contents(), r) == Touched(old(cache.Contents()), policy, s)
    {
      var now := cache.now;
      var ttl := RemainingTTL(policy, s.record.createdAt, now);
      if ttl <= 0 {
        var _ := DeleteSession(s.id);
        return Err(Expired);
      }
      r := Save(s.(record := s.record.(lastSeenAt := now)), ttl);
    }

    /** The ids are deleted in the order the store happens to list them; the first error ends the loop. */
    method RevokeUserSessions(userId: string, exceptId: string) returns (r: Reply<()>)
      modifies cache`data, cache`ops
      ensures RevokeOutcome(old(cache.Contents()), userId, exceptId, Revocation(cache.Contents(), r.Ok?))
    {
      var key := UserSessionsKey(userId);
      IndexIsNoSession(userId);
      var listed := cache.SMembers(key);
      if listed.Err? { return Err(StoreFailed); }
      var ids, left := listed.value, listed.value;
      while left != {}
        invariant left <= ids && cache.ops > old(cache.ops)
        invariant cache.data == old(cache.data) - set id | id in ids - left && id != exceptId :: SessionKey(id)
        decreases left
      {
        var id :| id in left;
        ghost var gone := set i | i in ids - left && i != exceptId :: SessionKey(i);
        left := left - {id};
        ghost var gone' := set i | i in ids - left && i != exceptId :: SessionKey(i);
        if id == exceptId {
          assert gone' == gone;
          continue;
        }
        assert gone' == gone + {SessionKey(id)};
        var deleted := DeleteSession(id);
        if deleted.Err? { return Err(StoreFailed); }
      }
      if exceptId == "" {
        var cleared := cache.Del(key);
        if cleared.Err? { return Err(StoreFailed); }
      }
      r := Ok(());
    }
  }

  // ---------- Keys ----------

  lemma IndexIsNoSession(userId: string)
    ensures forall id: string :: SessionKey(id) != UserSessionsKey(userId)
  {
    forall id: string
      ensures SessionKey(id) != UserSessionsKey(userId)
    {
      SessionKeysAreDistinct(id, id, userId);
    }
  }

  lemma {:induction false} SessionKeysAreDistinct(id: string, other: string, userId: string)
    ensures SessionKey(id) != UserSessionsKey(userId)
    ensures SessionKey(id) == SessionKey(other) ==> id == other
    ensures UserSessionsKey(id) == UserSessionsKey(other) ==> id == other
  {
    Keys.FamiliesAreDisjoint(0, 1, id, userId);
    if SessionKey(id) == SessionKey(other) {
      Keys.SuffixIsRecovered(Keys.SESSION, id, other);
    }
    if UserSessionsKey(id) == UserSessionsKey(other) {
      Keys.SuffixIsRecovered(Keys.USER_SESSIONS, id, other);
    }
  }
}
