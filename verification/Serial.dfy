/**
  The bank as a sequential object: what one transfer and one registration do when they run alone,
  and what every serial history of them keeps. The interleaved machine and the imperative store
  are both proved against these functions.
*/
module Serial {
  import opened Integers
  import opened Wrappers
  import opened Uuids

  const STARTER_BALANCE: int := 100000

  const SERIALIZATION_FAILURE := "40001"
  const DEADLOCK_DETECTED := "40P01"
  const NUMERIC_OUT_OF_RANGE := "22003"

  /** A row of `accounts`. `version` stands for the row version that snapshot isolation compares. */
  datatype Row = Row(owner: Uuid, balance: int, version: nat)

  datatype LedgerRow = LedgerRow(from: Uuid, to: Uuid, amount: int)

  datatype Db = Db(users: map<string, Uuid>, rows: map<Uuid, Row>, ledger: seq<LedgerRow>)

  datatype Error =
    | InvalidTransfer
    | AccountNotFound
    | NotAccountOwner
    | InsufficientFunds
    | RetriesExhausted
    | UsernameTaken
    | Canceled
    | NoRows
    | Pg(code: string)
    | Unavailable

  predicate IsRetryableConflict(e: Error) {
    e.Pg? && (e.code == SERIALIZATION_FAILURE || e.code == DEADLOCK_DETECTED)
  }

  datatype Params = Params(
    sessionUser: string, from: string, to: string, amount: Int64, isolation: string, holdMs: int, maxRetries: int)

  /** A request whose ids have been parsed. */
  datatype Call = Call(params: Params, fromID: Uuid, toID: Uuid)

  datatype TransferResult = TransferResult(
    from: string, to: string, fromBalance: int, toBalance: int, amount: int, attempts: nat)

  /** What the checks ahead of the retry loop establish about a call. */
  ghost predicate Validated(call: Call, parse: string -> Option<Uuid>) {
    && 0 < call.params.amount
    && call.params.from != call.params.to
    && parse(call.params.from) == Some(call.fromID)
    && parse(call.params.to) == Some(call.toID)
  }

  function Adjusted(rows: map<Uuid, Row>, id: Uuid, delta: int): map<Uuid, Row>
    requires id in rows
  {
    rows[id := Row(rows[id].owner, rows[id].balance + delta, rows[id].version + 1)]
  }

  /** One transfer that runs alone. An account is named by its canonical id and by nothing else. */
  function SerialTransfer(db: Db, call: Call): Result<(Db, TransferResult), Error> {
    var p := call.params;
    var amount: int := p.amount;
    if !Named(db.rows, p.from, call.fromID) || !Named(db.rows, p.to, call.toID) || call.fromID == call.toID then
      Err(AccountNotFound)
    else if UuidString(db.rows[call.fromID].owner) != p.sessionUser then
      Err(NotAccountOwner)
    else if db.rows[call.fromID].balance < p.amount then
      Err(InsufficientFunds)
    else if db.rows[call.toID].balance + p.amount > MAX_INT64 then
      Err(Pg(NUMERIC_OUT_OF_RANGE))
    else
      var rows := Adjusted(Adjusted(db.rows, call.fromID, -amount), call.toID, amount);
      Ok((Db(db.users, rows, db.ledger + [LedgerRow(call.fromID, call.toID, p.amount)]),
          TransferResult(p.from, p.to, rows[call.fromID].balance, rows[call.toID].balance, p.amount, 0)))
  }

  predicate Named(rows: map<Uuid, Row>, name: string, id: Uuid) {
    id in rows && name == UuidString(id)
  }

  /** One registration that runs alone. The database draws `uid` and `aid`, which are unique keys. */
  function SerialRegister(db: Db, username: string, uid: Uuid, aid: Uuid): Result<Db, Error>
  {
    if username in db.users then Err(UsernameTaken)
    else Ok(Db(db.users[username := uid], db.rows[aid := Row(uid, STARTER_BALANCE, 0)], db.ledger))
  }

  /** A committed unit of work, with what it answered. */
  datatype Event =
    | Transferred(client: nat, call: Call, result: TransferResult)
    | Registered(username: string, uid: Uuid, aid: Uuid)

  /** The state a serial execution of `log` reaches; `None` if some event could not have answered as recorded. */
  function Replay(db: Db, log: seq<Event>): Option<Db> {
    if log == [] then Some(db)
    else
      match Replay(db, log[..|log| - 1])
      case None => None
      case Some(before) => ReplayEvent(before, log[|log| - 1])
  }

  function ReplayEvent(db: Db, event: Event): Option<Db> {
    match event
    case Transferred(_, call, result) =>
      (match SerialTransfer(db, call)
       case Err(_) => None
       case Ok((after, answer)) =>
         if answer == result.(attempts := 0) && call.params.amount > 0 then Some(after) else None)
    case Registered(username, uid, aid) =>
      if aid in db.rows || uid in db.users.Values then None
      else
        match SerialRegister(db, username, uid, aid)
        case Err(_) => None
        case Ok(after) => Some(after)
  }

  function LedgerOf(log: seq<Event>): seq<LedgerRow> {
    if log == [] then [] else LedgerOf(log[..|log| - 1]) + EntriesOf(log[|log| - 1])
  }

  function EntriesOf(event: Event): seq<LedgerRow> {
    match event
    case Transferred(_, call, _) => [LedgerRow(call.fromID, call.toID, call.params.amount)]
    case Registered(_, _, _) => []
  }

  function Registrations(log: seq<Event>): nat {
    if log == [] then 0
    else Registrations(log[..|log| - 1]) + if log[|log| - 1].Registered? then 1 else 0
  }

  function Credits(ledger: seq<LedgerRow>, a: Uuid): int {
    if ledger == [] then 0
    else
      var last := ledger[|ledger| - 1];
      Credits(ledger[..|ledger| - 1], a) + if last.to == a then last.amount else 0
  }

  function Debits(ledger: seq<LedgerRow>, a: Uuid): int {
    if ledger == [] then 0
    else
      var last := ledger[|ledger| - 1];
      Debits(ledger[..|ledger| - 1], a) + if last.from == a then last.amount else 0
  }

  /** Credits minus debits. */
  function Net(ledger: seq<LedgerRow>, a: Uuid): int {
    Credits(ledger, a) - Debits(ledger, a)
  }

  /** What an account started with: its seeded balance, or the starter balance if it was registered later. */
  function Opening(db: Db, a: Uuid): int {
    if a in db.rows then db.rows[a].balance else STARTER_BALANCE
  }

  // ---------- Total money ----------

  ghost function Pick(rows: map<Uuid, Row>): (k: Uuid)
    requires rows != map[]
    ensures k in rows
  {
    assert rows.Keys != {};
    var k :| k in rows;
    k
  }

  ghost function Total(rows: map<Uuid, Row>): int {
    if rows == map[] then 0 else rows[Pick(rows)].balance + Total(rows - {Pick(rows)})
  }

  lemma {:induction false} TotalWithout(rows: map<Uuid, Row>, k: Uuid)
    requires k in rows
    ensures Total(rows) == rows[k].balance + Total(rows - {k})
    decreases rows
  {
    var p := Pick(rows);
    if p != k {
      TotalWithout(rows - {p}, k);
      TotalWithout(rows - {k}, p);
      assert rows - {p} - {k} == rows - {k} - {p};
    }
  }

  lemma TotalUpdate(rows: map<Uuid, Row>, k: Uuid, row: Row)
    ensures Total(rows[k := row]) == Total(rows) + row.balance - if k in rows then rows[k].balance else 0
  {
    TotalWithout(rows[k := row], k);
    if k in rows {
      TotalWithout(rows, k);
      assert rows[k := row] - {k} == rows - {k};
    } else {
      assert rows[k := row] - {k} == rows;
    }
  }

  ghost predicate Solvent(rows: map<Uuid, Row>) {
    forall a | a in rows :: 0 <= rows[a].balance <= MAX_INT64
  }

  lemma {:induction false} TotalBoundsEach(rows: map<Uuid, Row>)
    requires Solvent(rows)
    ensures Total(rows) >= 0
    ensures forall a | a in rows :: rows[a].balance <= Total(rows)
    decreases rows
  {
    forall a | a in rows
      ensures rows[a].balance <= Total(rows)
    {
      TotalWithout(rows, a);
      TotalBoundsEach(rows - {a});
    }
    if rows != map[] {
      assert Pick(rows) in rows;
    }
  }

  // ---------- What every serial history keeps ----------

  lemma {:induction false} ReplayPrefix(db0: Db, log: seq<Event>, event: Event)
    ensures Replay(db0, log + [event])
         == match Replay(db0, log) case None => None case Some(db) => ReplayEvent(db, event)
  {
    assert (log + [event])[..|log|] == log;
  }

  lemma EventMovesItsEntries(before: Db, event: Event, after: Db, a: Uuid)
    requires ReplayEvent(before, event) == Some(after)
    ensures after.ledger == before.ledger + EntriesOf(event) && before.rows.Keys <= after.rows.Keys
    ensures a in before.rows ==>
              after.rows[a].balance == before.rows[a].balance + Net(EntriesOf(event), a)
    ensures a !in before.rows ==> Net(EntriesOf(event), a) == 0
    ensures a !in before.rows && a in after.rows ==> after.rows[a].balance == STARTER_BALANCE
  {
    if event.Transferred? {
      var entry := LedgerRow(event.call.fromID, event.call.toID, event.call.params.amount);
      assert [entry][..0] == [];
      assert Credits([entry], a) == if entry.to == a then entry.amount else 0;
      assert Debits([entry], a) == if entry.from == a then entry.amount else 0;
    }
  }

  lemma NetOfAppend(ledger: seq<LedgerRow>, event: Event, a: Uuid)
    ensures Net(ledger + EntriesOf(event), a) == Net(ledger, a) + Net(EntriesOf(event), a)
  {
    if event.Transferred? {
      var entry := LedgerRow(event.call.fromID, event.call.toID, event.call.params.amount);
      assert (ledger + [entry])[..|ledger|] == ledger && [entry][..0] == [];
      assert (ledger + [entry])[|ledger|] == entry;
      assert Credits([entry], a) == if entry.to == a then entry.amount else 0;
      assert Debits([entry], a) == if entry.from == a then entry.amount else 0;
    } else {
      assert ledger + [] == ledger;
    }
  }

  /** The ledger holds exactly the committed transfers, in commit order. */
  lemma {:induction false} LedgerIsTheLog(db0: Db, log: seq<Event>, db: Db)
    requires Replay(db0, log) == Some(db)
    ensures db.ledger == db0.ledger + LedgerOf(log)
    decreases |log|
  {
    if log != [] {
      var before := Replay(db0, log[..|log| - 1]).value;
      LedgerIsTheLog(db0, log[..|log| - 1], before);
      EventMovesItsEntries(before, log[|log| - 1], db, Uuid(seq(16, _ => 0)));
    }
  }

  /** The ledger alone replays every balance from what the account opened with. */
  lemma {:induction false} LedgerReplaysBalance(db0: Db, log: seq<Event>, db: Db, a: Uuid)
    requires Replay(db0, log) == Some(db)
    ensures a in db.rows ==> db.rows[a].balance == Opening(db0, a) + Net(LedgerOf(log), a)
    ensures a !in db.rows ==> a !in db0.rows && Net(LedgerOf(log), a) == 0
    decreases |log|
  {
    if log != [] {
      var init, event := log[..|log| - 1], log[|log| - 1];
      var before := Replay(db0, init).value;
      LedgerReplaysBalance(db0, init, before, a);
      EventMovesItsEntries(before, event, db, a);
      NetOfAppend(LedgerOf(init), event, a);
    }
  }

  lemma MoveKeepsTotal(rows: map<Uuid, Row>, from: Uuid, to: Uuid, amount: int)
    requires from in rows && to in rows && from != to
    ensures Total(Adjusted(Adjusted(rows, from, -amount), to, amount)) == Total(rows)
  {
    var debited := Adjusted(rows, from, -amount);
    TotalUpdate(rows, from, debited[from]);
    TotalUpdate(debited, to, Adjusted(debited, to, amount)[to]);
  }

  lemma EventKeepsMoney(before: Db, event: Event, after: Db)
    requires ReplayEvent(before, event) == Some(after)
    ensures Total(after.rows) == Total(before.rows) + if event.Registered? then STARTER_BALANCE else 0
  {
    match event
    case Transferred(_, call, _) => MoveKeepsTotal(before.rows, call.fromID, call.toID, call.params.amount);
    case Registered(_, uid, aid) => TotalUpdate(before.rows, aid, Row(uid, STARTER_BALANCE, 0));
  }

  lemma {:induction false} MoneyIsConserved(db0: Db, log: seq<Event>, db: Db)
    requires Replay(db0, log) == Some(db)
    ensures Total(db.rows) == Total(db0.rows) + STARTER_BALANCE * Registrations(log)
    decreases |log|
  {
    if log != [] {
      var before := Replay(db0, log[..|log| - 1]).value;
      MoneyIsConserved(db0, log[..|log| - 1], before);
      EventKeepsMoney(before, log[|log| - 1], db);
    }
  }

  lemma {:induction false} BalancesStayInRange(db0: Db, log: seq<Event>, db: Db)
    requires Solvent(db0.rows) && Replay(db0, log) == Some(db)
    ensures Solvent(db.rows)
    decreases |log|
  {
    if log != [] {
      BalancesStayInRange(db0, log[..|log| - 1], Replay(db0, log[..|log| - 1]).value);
    }
  }

  /** While all the money fits in an int64, crediting an account cannot overflow it. */
  lemma {:induction false} NoOverflowWhileTotalFits(db: Db, call: Call)
    requires Solvent(db.rows) && Total(db.rows) <= MAX_INT64
    ensures SerialTransfer(db, call) != Err(Pg(NUMERIC_OUT_OF_RANGE))
  {
    if call.fromID in db.rows && call.toID in db.rows && call.fromID != call.toID {
      TotalWithout(db.rows, call.fromID);
      TotalBoundsEach(db.rows - {call.fromID});
      assert call.toID in db.rows - {call.fromID};
    }
  }

  // ---------- What the two operations do ----------

  /** Both accounts exist, are two, and are named by their canonical ids. */
  predicate BothNamed(db: Db, call: Call) {
    && call.fromID in db.rows && call.toID in db.rows && call.fromID != call.toID
    && call.params.from == UuidString(call.fromID) && call.params.to == UuidString(call.toID)
  }

  /** Which transfers are refused, and with which error: the checks in the order the source makes them. */
  lemma TransferIsRefused(db: Db, call: Call)
    requires call.params.amount > 0
    ensures var p, r := call.params, SerialTransfer(db, call);
            && (r == Err(AccountNotFound) <==> !BothNamed(db, call))
            && (BothNamed(db, call) ==>
                  var from, to := db.rows[call.fromID], db.rows[call.toID];
                  var owned, paid, fits :=
                    UuidString(from.owner) == p.sessionUser, from.balance >= p.amount, to.balance + p.amount <= MAX_INT64;
                  && (r == Err(NotAccountOwner) <==> !owned)
                  && (r == Err(InsufficientFunds) <==> owned && !paid)
                  && (r == Err(Pg("22003")) <==> owned && paid && !fits)
                  && (r.Ok? <==> owned && paid && fits))
  {
  }

  /** A transfer that is not refused moves the amount between the two rows and appends one ledger row. */
  lemma TransferMovesTheAmount(db: Db, call: Call)
    requires SerialTransfer(db, call).Ok?
    ensures var (after, r) := SerialTransfer(db, call).value;
            var p, amount := call.params, call.params.amount;
            && after.users == db.users && after.rows.Keys == db.rows.Keys
            && after.ledger == db.ledger + [LedgerRow(call.fromID, call.toID, amount)]
            && (forall a | a in db.rows ::
                  && after.rows[a].owner == db.rows[a].owner
                  && after.rows[a].balance ==
                     db.rows[a].balance - (if a == call.fromID then amount else 0) + (if a == call.toID then amount else 0)
                  && (a != call.fromID && a != call.toID ==> after.rows[a] == db.rows[a]))
            && r == TransferResult(p.from, p.to, after.rows[call.fromID].balance, after.rows[call.toID].balance, amount, 0)
  {
  }

  lemma EventKeepsOwners(before: Db, event: Event, after: Db)
    requires ReplayEvent(before, event) == Some(after)
    ensures forall name | name in before.users :: name in after.users && after.users[name] == before.users[name]
    ensures forall a | a in before.rows :: a in after.rows && after.rows[a].owner == before.rows[a].owner
    ensures event.Registered? ==>
              && event.username !in before.users && event.aid !in before.rows
              && event.username in after.users && after.users[event.username] == event.uid
              && event.aid in after.rows && after.rows[event.aid].owner == event.uid
  {
  }

  /**
    In every serial history a registered account belongs to the user stored under its username, and has
    held 100000 and what the ledger moved since; the username was free, and no other registration took it.
  */
  lemma {:induction false} RegisteredOwnsItsAccount(db0: Db, log: seq<Event>, db: Db, k: nat)
    requires Replay(db0, log) == Some(db) && k < |log| && log[k].Registered?
    ensures var username, uid, aid := log[k].username, log[k].uid, log[k].aid;
            && username in db.users && db.users[username] == uid
            && aid in db.rows && db.rows[aid].owner == uid
            && db.rows[aid].balance == 100000 + Net(LedgerOf(log), aid)
            && username !in db0.users && aid !in db0.rows
            && forall l: nat | l < |log| && l != k && log[l].Registered? :: log[l].username != username
  {
    RegistrationStays(db0, log, db, k);
    LedgerReplaysBalance(db0, log, db, log[k].aid);
    forall l: nat | l < |log| && l != k && log[l].Registered?
      ensures log[l].username != log[k].username
    {
      RegistrationsDiffer(db0, log, db, if l < k then l else k, if l < k then k else l);
    }
  }

  lemma {:induction false} NothingIsForgotten(db0: Db, log: seq<Event>, db: Db)
    requires Replay(db0, log) == Some(db)
    ensures db0.users.Keys <= db.users.Keys && db0.rows.Keys <= db.rows.Keys
    decreases |log|
  {
    if log != [] {
      var before := Replay(db0, log[..|log| - 1]).value;
      NothingIsForgotten(db0, log[..|log| - 1], before);
      EventKeepsOwners(before, log[|log| - 1], db);
    }
  }

  lemma LastEvent(db0: Db, log: seq<Event>, db: Db) returns (before: Db)
    requires Replay(db0, log) == Some(db) && log != []
    ensures Replay(db0, log[..|log| - 1]) == Some(before) && ReplayEvent(before, log[|log| - 1]) == Some(db)
  {
    before := Replay(db0, log[..|log| - 1]).value;
  }

  /** The registration at `k` as the state shows it later. */
  predicate ShowsRegistration(db0: Db, db: Db, event: Event)
    requires event.Registered?
  {
    && event.username in db.users && db.users[event.username] == event.uid
    && event.aid in db.rows && db.rows[event.aid].owner == event.uid
    && event.username !in db0.users && event.aid !in db0.rows
  }

  lemma ShownAtOnce(db0: Db, before: Db, event: Event, after: Db)
    requires ReplayEvent(before, event) == Some(after) && event.Registered?
    requires db0.users.Keys <= before.users.Keys && db0.rows.Keys <= before.rows.Keys
    ensures ShowsRegistration(db0, after, event)
  {
  }

  lemma ShownLater(db0: Db, before: Db, event: Event, after: Db, shown: Event)
    requires ReplayEvent(before, event) == Some(after) && shown.Registered? && ShowsRegistration(db0, before, shown)
    ensures ShowsRegistration(db0, after, shown)
    ensures event.Registered? ==> event.username != shown.username
  {
    EventKeepsOwners(before, event, after);
  }

  lemma {:induction false} RegistrationStays(db0: Db, log: seq<Event>, db: Db, k: nat)
    requires Replay(db0, log) == Some(db) && k < |log| && log[k].Registered?
    ensures ShowsRegistration(db0, db, log[k])
    decreases |log|
  {
    var init, last := log[..|log| - 1], log[|log| - 1];
    var before := LastEvent(db0, log, db);
    if k < |init| {
      assert init[k] == log[k];
      RegistrationStays(db0, init, before, k);
      ShownLater(db0, before, last, db, log[k]);
    } else {
      NothingIsForgotten(db0, init, before);
      ShownAtOnce(db0, before, last, db);
      assert log[k] == last;
    }
  }

  lemma {:induction false} EveryEventReplays(db0: Db, log: seq<Event>, db: Db, l: nat) returns (before: Db, after: Db)
    requires Replay(db0, log) == Some(db) && l < |log|
    ensures Replay(db0, log[..l]) == Some(before) && ReplayEvent(before, log[l]) == Some(after)
    decreases |log|
  {
    var last := LastEvent(db0, log, db);
    if l < |log| - 1 {
      var init := log[..|log| - 1];
      assert init[..l] == log[..l] && init[l] == log[l];
      before, after := EveryEventReplays(db0, init, last, l);
    } else {
      before, after := last, db;
    }
  }

  lemma {:induction false} RegistrationsDiffer(db0: Db, log: seq<Event>, db: Db, k: nat, l: nat)
    requires Replay(db0, log) == Some(db) && k < l < |log| && log[k].Registered? && log[l].Registered?
    ensures log[k].username != log[l].username
  {
    var before, after := EveryEventReplays(db0, log, db, l);
    assert log[..l][k] == log[k];
    RegistrationStays(db0, log[..l], before, k);
    ShownLater(db0, before, log[l], after, log[k]);
  }
}
