/**
  The expiring key store behind sessions, lockout and rate limiting: values with optional deadlines
  and a clock in nanoseconds. Operation number `n` fails when `n` is in `faults`, and then changes
  nothing; that is how an unreachable store appears to its callers.
*/
module KeyStore {
  import opened Wrappers

  const MILLISECOND := 1_000_000
  const SECOND := 1_000_000_000

  /** The stored part of a session. JSON encoding is taken to be the identity. */
  datatype Record = Record(
    userId: string, username: string, role: string, csrf: string, createdAt: int, lastSeenAt: int)

  datatype Value =
    | Text(text: string)
    | Number(number: int)
    | Json(record: Record)
    | Members(members: set<string>)

  datatype Entry = Entry(value: Value, expiry: Option<int>)

  datatype StoreError = Miss | WrongType | Unavailable

  type Answer<T> = Result<T, StoreError>

  /** A positive ttl as the client library sends it: in whole milliseconds, cut off, but at least one. */
  function Millis(ttl: int): (d: int)
    ensures d >= MILLISECOND
  {
    if ttl < MILLISECOND then MILLISECOND else ttl / MILLISECOND * MILLISECOND
  }

  /** A remaining time as the store reports it: in whole seconds, rounded to the nearest. */
  function Nearest(d: int): int {
    (d + SECOND / 2) / SECOND * SECOND
  }

  datatype Kv = Kv(data: map<string, Entry>, now: int, ops: nat, faults: set<nat>) {

    /** A key is gone once the clock reaches its expiry. */
    predicate Live(key: string) {
      key in data && (data[key].expiry.Some? ==> now < data[key].expiry.value)
    }

    predicate Fails() {
      ops in faults
    }

    function Next(data: map<string, Entry>): Kv {
      this.(data := data, ops := ops + 1)
    }

    /** A non-positive ttl stores the key forever. */
    function Deadline(ttl: int): Option<int> {
      if ttl > 0 then Some(now + Millis(ttl)) else None
    }

    function Set(key: string, value: Value, ttl: int): (Kv, Answer<()>) {
      if Fails() then (Next(data), Err(Unavailable))
      else (Next(data[key := Entry(value, Deadline(ttl))]), Ok(()))
    }

    function Get(key: string): (Kv, Answer<Value>) {
      (Next(data),
       if Fails() then Err(Unavailable)
       else if !Live(key) then Err(Miss)
       else if data[key].value.Members? then Err(WrongType)
       else Ok(data[key].value))
    }

    function Del(key: string): (Kv, Answer<()>) {
      if Fails() then (Next(data), Err(Unavailable)) else (Next(data - {key}), Ok(()))
    }

    /** The counter's value after an increment, if the key can be incremented. */
    function Incremented(key: string): Option<int> {
      if !Live(key) then Some(1)
      else if data[key].value.Number? then Some(data[key].value.number + 1)
      else None
    }

    /**
      Increment, and on the first increment only set the expiry, in whole milliseconds; an expiry of
      zero milliseconds deletes the key.
    */
    function Incr(key: string, ttl: int): (Kv, Answer<int>) {
      if Fails() then (Next(data), Err(Unavailable))
      else
        match Incremented(key)
        case None => (Next(data), Err(WrongType))
        case Some(n) =>
          if ttl <= 0 || n != 1 then
            (Next(data[key := Entry(Number(n), if Live(key) then data[key].expiry else None)]), Ok(n))
          else if ttl / MILLISECOND == 0 then (Next(data - {key}), Ok(n))
          else (Next(data[key := Entry(Number(n), Some(now + ttl / MILLISECOND * MILLISECOND))]), Ok(n))
    }

    function TTL(key: string): (Kv, Answer<int>) {
      (Next(data),
       if Fails() then Err(Unavailable)
       else if Live(key) && data[key].expiry.Some? then Ok(Nearest(data[key].expiry.value - now))
       else Ok(0))
    }

    function SAdd(key: string, member: string, ttl: int): (Kv, Answer<()>) {
      if Fails() then (Next(data), Err(Unavailable))
      else if Live(key) && !data[key].value.Members? then (Next(data), Err(WrongType))
      else
        var members := (if Live(key) then data[key].value.members else {}) + {member};
        var kept := if Live(key) then data[key].expiry else None;
        (Next(data[key := Entry(Members(members), if ttl > 0 then Deadline(ttl) else kept)]), Ok(()))
    }

    function SMembers(key: string): (Kv, Answer<set<string>>) {
      (Next(data),
       if Fails() then Err(Unavailable)
       else if !Live(key) then Ok({})
       else if data[key].value.Members? then Ok(data[key].value.members)
       else Err(WrongType))
    }
  }

  /** The shared store, updated in place by every replica. */
  class Cache {
    var data: map<string, Entry>
    var now: int
    var ops: nat
    const faults: set<nat>

    ghost function Contents(): Kv
      reads this
    {
      Kv(data, now, ops, faults)
    }

    constructor (now: int, faults: set<nat>)
      ensures Contents() == Kv(map[], now, 0, faults)
    {
      this.data, this.now, this.ops, this.faults := map[], now, 0, faults;
    }

    predicate Live(key: string)
      reads this
      ensures Live(key) == Contents().Live(key)
    {
      key in data && match data[key].expiry case None => true case Some(e) => now < e
    }

    method Attempt() returns (ok: bool)
      modifies this`ops
      ensures ops == old(ops) + 1 && ok == !old(Contents()).Fails()
    {
      ok := ops !in faults;
      ops := ops + 1;
    }

    method Set(key: string, value: Value, ttl: int) returns (r: Answer<()>)
      modifies this`data, this`ops
      ensures (Contents(), r) == old(Contents()).Set(key, value, ttl)
    {
      var ok := Attempt();
      if !ok { return Err(Unavailable); }
      data := data[key := Entry(value, if ttl > 0 then Some(now + Millis(ttl)) else None)];
      r := Ok(());
    }

    method Get(key: string) returns (r: Answer<Value>)
      modifies this`ops
      ensures (Contents(), r) == old(Contents()).Get(key)
    {
      var ok := Attempt();
      if !ok { return Err(Unavailable); }
      if !Live(key) { return Err(Miss); }
      if data[key].value.Members? { return Err(WrongType); }
      r := Ok(data[key].value);
    }

    method Del(key: string) returns (r: Answer<()>)
      modifies this`data, this`ops
      ensures (Contents(), r) == old(Contents()).Del(key)
    {
      var ok := Attempt();
      if !ok { return Err(Unavailable); }
      data := data - {key};
      r := Ok(());
    }

    method Incr(key: string, ttl: int) returns (r: Answer<int>)
      modifies this`data, this`ops
      ensures (Contents(), r) == old(Contents()).Incr(key, ttl)
    {
      var ok := Attempt();
      if !ok { return Err(Unavailable); }
      var n := 1;
      var expiry := None;
      if Live(key) {
        if !data[key].value.Number? { return Err(WrongType); }
        n, expiry := data[key].value.number + 1, data[key].expiry;
      }
      data := data[key := Entry(Number(n), expiry)];
      if ttl > 0 && n == 1 {
        var ms := ttl / MILLISECOND;
        if ms == 0 {
          data := data - {key};
          assert data == old(data) - {key};
        } else {
          data := data[key := Entry(Number(n), Some(now + ms * MILLISECOND))];
          assert data == old(data)[key := Entry(Number(n), Some(now + ms * MILLISECOND))];
        }
      }
      r := Ok(n);
    }

    method TTL(key: string) returns (r: Answer<int>)
      modifies this`ops
      ensures (Contents(), r) == old(Contents()).TTL(key)
    {
      var ok := Attempt();
      if !ok { return Err(Unavailable); }
      if !Live(key) || data[key].expiry.None? { return Ok(0); }
      r := Ok(Nearest(data[key].expiry.value - now));
    }

    method SAdd(key: string, member: string, ttl: int) returns (r: Answer<()>)
      modifies this`data, this`ops
      ensures (Contents(), r) == old(Contents()).SAdd(key, member, ttl)
    {
      var ok := Attempt();
      if !ok { return Err(Unavailable); }
      var members, expiry := {}, None;
      if Live(key) {
        if !data[key].value.Members? { return Err(WrongType); }
        members, expiry := data[key].value.members, data[key].expiry;
      }
      if ttl > 0 {
        expiry := Some(now + Millis(ttl));
      }
      data := data[key := Entry(Members(members + {member}), expiry)];
      r := Ok(());
    }

    method SMembers(key: string) returns (r: Answer<set<string>>)
      modifies this`ops
      ensures (Contents(), r) == old(Contents()).SMembers(key)
    {
      var ok := Attempt();
      if !ok { return Err(Unavailable); }
      if !Live(key) { return Ok({}); }
      if !data[key].value.Members? { return Err(WrongType); }
      r := Ok(data[key].value.members);
    }
  }
}
