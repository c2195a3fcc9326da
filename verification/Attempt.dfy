/**
  The pieces of a transfer attempt that the interleaved machine and the imperative store share:
  validation, lock order, the maps filled from the locked rows, and the verdict read off them.
*/
module Attempt {
  import opened Wrappers
  import opened Uuids
  import opened Serial

  const DEFAULT_MAX_RETRIES := 5

  datatype Isolation = Serializable | RepeatableRead | ReadCommitted

  function IsolationLevel(name: string): Isolation {
    if name == "repeatable-read" then RepeatableRead
    else if name == "read-committed" then ReadCommitted
    else Serializable
  }

  function MaxRetries(p: Params): (n: nat)
    ensures n >= 1
  {
    if p.maxRetries <= 0 then DEFAULT_MAX_RETRIES else p.maxRetries
  }

  /** The checks made before any transaction starts. */
  function Validate(p: Params, parse: string -> Option<Uuid>): (r: Result<Call, Error>)
    ensures r.Ok? <==> p.amount > 0 && p.from != p.to
                       && parse(p.from).Some? && parse(p.to).Some? && parse(p.sessionUser).Some?
    ensures r.Ok? ==> r.value.params == p && Validated(r.value, parse)
    ensures r == Err(InvalidTransfer) <==> p.amount <= 0 || p.from == p.to
    ensures r == Err(AccountNotFound) <==>
              p.amount > 0 && p.from != p.to && (parse(p.from).None? || parse(p.to).None?)
    ensures r == Err(NotAccountOwner) <==>
              && p.amount > 0 && p.from != p.to
              && parse(p.from).Some? && parse(p.to).Some? && parse(p.sessionUser).None?
  {
    if p.amount <= 0 then Err(InvalidTransfer)
    else if p.from == p.to then Err(InvalidTransfer)
    else if parse(p.from).None? then Err(AccountNotFound)
    else if parse(p.to).None? then Err(AccountNotFound)
    else if parse(p.sessionUser).None? then Err(NotAccountOwner)
    else Ok(Call(p, parse(p.from).value, parse(p.to).value))
  }

  /** A row as `GetAccountsForUpdate` returns it. */
  datatype Item = Item(id: Uuid, owner: Uuid, balance: int)

  /** The existing rows among the two requested ids, ascending. */
  function LockOrder(a: Uuid, b: Uuid, rows: map<Uuid, Row>): (ids: seq<Uuid>)
    ensures |ids| <= 2
    ensures forall id :: id in ids <==> id in rows && (id == a || id == b)
    ensures forall i, j | 0 <= i < j < |ids| :: Rank(ids[i]) < Rank(ids[j])
  {
    var (lo, hi) := if Rank(a) <= Rank(b) then (a, b) else (b, a);
    assert lo != hi ==> Rank(lo) < Rank(hi) by { if Rank(lo) == Rank(hi) { RankInjective(lo, hi); } }
    (if lo in rows then [lo] else []) + (if hi in rows && hi != lo then [hi] else [])
  }

  function BalancesOf(items: seq<Item>): map<string, int> {
    if items == [] then map[]
    else
      var last := items[|items| - 1];
      BalancesOf(items[..|items| - 1])[UuidString(last.id) := last.balance]
  }

  function OwnersOf(items: seq<Item>): map<string, string> {
    if items == [] then map[]
    else
      var last := items[|items| - 1];
      OwnersOf(items[..|items| - 1])[UuidString(last.id) := UuidString(last.owner)]
  }

  /** The error the locked rows call for, if any. */
  function Verdict(p: Params, items: seq<Item>): Option<Error> {
    var balances, owners := BalancesOf(items), OwnersOf(items);
    if p.from !in balances then Some(AccountNotFound)
    else if p.to !in balances then Some(AccountNotFound)
    else if p.from !in owners || owners[p.from] != p.sessionUser then Some(NotAccountOwner)
    else if balances[p.from] < p.amount then Some(InsufficientFunds)
    else None
  }

  /** `items` are the current contents of exactly the rows `ids`, in that order. */
  predicate Current(items: seq<Item>, ids: seq<Uuid>, rows: map<Uuid, Row>) {
    && |items| == |ids|
    && forall k | 0 <= k < |ids| ::
         ids[k] in rows && items[k] == Item(ids[k], rows[ids[k]].owner, rows[ids[k]].balance)
  }

  /** The maps are keyed by exactly the names of the locked rows. */
  lemma {:induction false} LockedNames(items: seq<Item>, name: string)
    ensures name in BalancesOf(items) <==> exists k | 0 <= k < |items| :: UuidString(items[k].id) == name
    ensures name in BalancesOf(items) <==> name in OwnersOf(items)
  {
    if items != [] {
      LockedNames(items[..|items| - 1], name);
    }
  }

  /** Under a row's name the maps hold that row's balance and owner. */
  lemma {:induction false} LockedRowByName(items: seq<Item>, ids: seq<Uuid>, rows: map<Uuid, Row>, k: nat)
    requires Current(items, ids, rows) && k < |ids|
    ensures var name := UuidString(ids[k]);
            && name in BalancesOf(items) && BalancesOf(items)[name] == rows[ids[k]].balance
            && name in OwnersOf(items) && OwnersOf(items)[name] == UuidString(rows[ids[k]].owner)
    decreases |items|
  {
    var n := |items| - 1;
    if k < n {
      LockedRowByName(items[..n], ids[..n], rows, k);
      if UuidString(ids[n]) == UuidString(ids[k]) {
        UuidStringInjective(ids[n], ids[k]);
      }
    }
  }

  /**
    The verdict read off string-keyed maps is the one the serial bank gives: a missing account was
    missing when the statement started, and any other answer is right for the rows as they are now.
    A verdict of `None` names two distinct rows, the very ones whose owner and balance were read.
  */
  lemma VerdictIsSerial(db: Db, snap: map<Uuid, Row>, call: Call, items: seq<Item>, parse: string -> Option<Uuid>)
    requires InvertsPrinting(parse) && Validated(call, parse)
    requires snap.Keys <= db.rows.Keys && Current(items, LockOrder(call.fromID, call.toID, snap), db.rows)
    ensures Verdict(call.params, items) == Some(AccountNotFound) <==>
              SerialTransfer(db.(rows := snap), call) == Err(AccountNotFound)
    ensures Verdict(call.params, items) != Some(AccountNotFound) ==>
              && call.fromID != call.toID
              && Named(db.rows, call.params.from, call.fromID) && Named(db.rows, call.params.to, call.toID)
              && match Verdict(call.params, items)
                 case Some(e) => SerialTransfer(db, call) == Err(e)
                 case None => SerialTransfer(db, call).Ok? || SerialTransfer(db, call) == Err(Pg(NUMERIC_OUT_OF_RANGE))
  {
    var p := call.params;
    LockedRowOf(db, snap, call, items, p.from, call.fromID, parse);
    LockedRowOf(db, snap, call, items, p.to, call.toID, parse);
    assert Verdict(p, items) == VerdictOf(db.rows, call, Named(snap, p.from, call.fromID) && Named(snap, p.to, call.toID));
    VerdictOfIsSerial(db, snap, call);
  }

  /** The verdict in terms of the rows themselves; `found` says whether both accounts were seen. */
  function VerdictOf(rows: map<Uuid, Row>, call: Call, found: bool): Option<Error>
    requires found ==> call.fromID in rows
  {
    if !found then Some(AccountNotFound)
    else if UuidString(rows[call.fromID].owner) != call.params.sessionUser then Some(NotAccountOwner)
    else if rows[call.fromID].balance < call.params.amount then Some(InsufficientFunds)
    else None
  }

  lemma VerdictOfIsSerial(db: Db, snap: map<Uuid, Row>, call: Call)
    requires snap.Keys <= db.rows.Keys && call.params.from != call.params.to
    ensures var found := Named(snap, call.params.from, call.fromID) && Named(snap, call.params.to, call.toID);
            && (!found <==> SerialTransfer(db.(rows := snap), call) == Err(AccountNotFound))
            && (found ==>
                  && call.fromID != call.toID
                  && Named(db.rows, call.params.from, call.fromID) && Named(db.rows, call.params.to, call.toID)
                  && match VerdictOf(db.rows, call, found)
                     case Some(e) => e != AccountNotFound && SerialTransfer(db, call) == Err(e)
                     case None =>
                       SerialTransfer(db, call).Ok? || SerialTransfer(db, call) == Err(Pg(NUMERIC_OUT_OF_RANGE)))
  {
  }

  lemma LockedRowOf(db: Db, snap: map<Uuid, Row>, call: Call, items: seq<Item>, name: string, id: Uuid,
                    parse: string -> Option<Uuid>)
    requires InvertsPrinting(parse) && parse(name) == Some(id) && (id == call.fromID || id == call.toID)
    requires snap.Keys <= db.rows.Keys && Current(items, LockOrder(call.fromID, call.toID, snap), db.rows)
    ensures name in BalancesOf(items) <==> Named(snap, name, id)
    ensures name in BalancesOf(items) <==> name in OwnersOf(items)
    ensures Named(snap, name, id) ==> id in db.rows && BalancesOf(items)[name] == db.rows[id].balance
                                      && OwnersOf(items)[name] == UuidString(db.rows[id].owner)
  {
    var ids := LockOrder(call.fromID, call.toID, snap);
    LockedNames(items, name);
    if k :| 0 <= k < |items| && UuidString(items[k].id) == name {
      assert parse(UuidString(ids[k])) == Some(ids[k]);
      LockedRowByName(items, ids, db.rows, k);
    }
    if Named(snap, name, id) {
      assert id in ids;
      var k :| 0 <= k < |ids| && ids[k] == id;
      assert UuidString(items[k].id) == name;
    }
  }
}
