/**
  The store as the source writes it: a transaction that mutates tables in place and rolls back on
  error, and the retry loop around it. Each method is proved against a function of the old state.
  The other transactions are the business of the interleaved machine; here they appear as faults.
*/
module Store {
  import opened Integers
  import opened Wrappers
  import opened Uuids
  import opened Serial
  import opened Attempt
  import opened Backoff

  datatype Stage = BeginTx | CreateUser | CreateAccount | LockRows | Hold | DebitSource | CreditDestination | RecordTransfer | CommitTx

  /** At most one stage of an attempt reports an error of the database. */
  datatype Fault = NoFault | At(stage: Stage, error: Error)

  predicate Hits(fault: Fault, stage: Stage) {
    fault.At? && fault.stage == stage
  }

  /** What one attempt answers when nothing else runs: the serial transfer, unless a fault comes first. */
  function OnceSpec(db: Db, call: Call, fault: Fault): Result<(Db, TransferResult), Error> {
    if Hits(fault, BeginTx) || Hits(fault, LockRows) then Err(fault.error)
    else
      match SerialTransfer(db, call)
      case Err(error) =>
        if error == Pg(NUMERIC_OUT_OF_RANGE)
           && (HoldFails(call, fault) || Hits(fault, DebitSource) || Hits(fault, CreditDestination))
        then Err(fault.error) else Err(error)
      case Ok(answer) =>
        if HoldFails(call, fault) || Hits(fault, DebitSource) || Hits(fault, CreditDestination)
           || Hits(fault, RecordTransfer) || Hits(fault, CommitTx)
        then Err(fault.error) else Ok(answer)
  }

  /** The part of `OnceSpec` past the checks: two distinct rows, the caller able to pay. */
  function MoveSpec(db: Db, call: Call, fault: Fault): Result<(Db, TransferResult), Error>
    requires call.fromID in db.rows && call.toID in db.rows
  {
    var p, from, to := call.params, call.fromID, call.toID;
    var amount: int := p.amount;
    if HoldFails(call, fault) || Hits(fault, DebitSource) || Hits(fault, CreditDestination) then Err(fault.error)
    else if db.rows[to].balance + amount > MAX_INT64 then Err(Pg(NUMERIC_OUT_OF_RANGE))
    else if Hits(fault, RecordTransfer) || Hits(fault, CommitTx) then Err(fault.error)
    else
      Ok((Db(db.users, Adjusted(Adjusted(db.rows, from, -amount), to, amount), db.ledger + [LedgerRow(from, to, amount)]),
          TransferResult(p.from, p.to, db.rows[from].balance - amount, db.rows[to].balance + amount, amount, 0)))
  }

  lemma MoveSpecIsOnceSpec(db: Db, call: Call, fault: Fault)
    requires call.fromID in db.rows && call.toID in db.rows && call.fromID != call.toID
    requires SerialTransfer(db, call).Ok? || SerialTransfer(db, call) == Err(Pg(NUMERIC_OUT_OF_RANGE))
    requires !Hits(fault, BeginTx) && !Hits(fault, LockRows)
    ensures OnceSpec(db, call, fault) == MoveSpec(db, call, fault)
  {
  }

  predicate HoldFails(call: Call, fault: Fault) {
    call.params.holdMs > 0 && Hits(fault, Hold)
  }

  /** The retry loop from attempt `attempt` on. */
  function RetrySpec(db: Db, call: Call, attempt: nat, faults: nat -> Fault, cancels: nat -> bool)
    : (Db, Result<TransferResult, Error>)
    requires attempt <= MaxRetries(call.params)
    decreases MaxRetries(call.params) - attempt
  {
    match OnceSpec(db, call, faults(attempt))
    case Ok((after, result)) => (after, Ok(result.(attempts := attempt)))
    case Err(error) =>
      if !IsRetryableConflict(error) then (db, Err(error))
      else if attempt == MaxRetries(call.params) then (db, Err(RetriesExhausted))
      else if cancels(attempt) then (db, Err(Canceled))
      else RetrySpec(db, call, attempt + 1, faults, cancels)
  }

  ghost predicate Conflicts(db: Db, call: Call, attempt: nat, faults: nat -> Fault) {
    var once := OnceSpec(db, call, faults(attempt));
    once == Err(Pg("40001")) || once == Err(Pg("40P01"))
  }

  /**
    Success is one serial transfer, reported with the number of the first attempt that did not
    conflict; anything else leaves the tables as they were.
  */
  lemma {:induction false} RetryCommitsAtMostOnce(
    db: Db, call: Call, attempt: nat, faults: nat -> Fault, cancels: nat -> bool)
    requires 1 <= attempt <= MaxRetries(call.params)
    ensures var (after, r) := RetrySpec(db, call, attempt, faults, cancels);
            match r
            case Ok(result) =>
              && attempt <= result.attempts <= MaxRetries(call.params)
              && SerialTransfer(db, call) == Ok((after, result.(attempts := 0)))
              && forall k: nat | attempt <= k < result.attempts :: Conflicts(db, call, k, faults) && !cancels(k)
            case Err(error) => after == db
    decreases MaxRetries(call.params) - attempt
  {
    if Conflicts(db, call, attempt, faults) && attempt < MaxRetries(call.params) && !cancels(attempt) {
      RetryCommitsAtMostOnce(db, call, attempt + 1, faults, cancels);
    }
  }

  /** The budget is exhausted exactly when every attempt conflicts and nobody cancels. */
  lemma {:induction false} ExhaustedExactlyWhenAllConflict(
    db: Db, call: Call, attempt: nat, faults: nat -> Fault, cancels: nat -> bool)
    requires 1 <= attempt <= MaxRetries(call.params)
    requires forall k: nat :: faults(k).At? ==> faults(k).error.Pg? || faults(k).error.Unavailable?
    ensures RetrySpec(db, call, attempt, faults, cancels).1 == Err(RetriesExhausted) <==>
              && (forall k: nat | attempt <= k <= MaxRetries(call.params) :: Conflicts(db, call, k, faults))
              && (forall k: nat | attempt <= k < MaxRetries(call.params) :: !cancels(k))
    decreases MaxRetries(call.params) - attempt
  {
    if Conflicts(db, call, attempt, faults) && attempt < MaxRetries(call.params) && !cancels(attempt) {
      ExhaustedExactlyWhenAllConflict(db, call, attempt + 1, faults, cancels);
    } else {
      assert faults(attempt).At? ==> faults(attempt).error.Pg? || faults(attempt).error.Unavailable?;
    }
  }

  /** Every attempt before `k` conflicts, and the caller stays. */
  ghost predicate GetsTo(db: Db, call: Call, attempt: nat, k: nat, faults: nat -> Fault, cancels: nat -> bool) {
    attempt <= k && forall j: nat | attempt <= j < k :: Conflicts(db, call, j, faults) && !cancels(j)
  }

  /** What ends the loop at attempt `k`. */
  ghost predicate EndsAt(
    db: Db, call: Call, k: nat, faults: nat -> Fault, cancels: nat -> bool, r: Result<TransferResult, Error>)
  {
    if !Conflicts(db, call, k, faults) then
      match OnceSpec(db, call, faults(k))
      case Ok((_, result)) => r == Ok(result.(attempts := k))
      case Err(error) => r == Err(error)
    else if k == MaxRetries(call.params) then r == Err(RetriesExhausted)
    else cancels(k) && r == Err(Canceled)
  }

  /**
    The loop ends at the first attempt that does not conflict, with that attempt's answer, whatever it
    is; or with the last of the budget; or at the first conflict after which the caller is gone.
  */
  lemma {:induction false} RetryEndsOnce(
    db: Db, call: Call, attempt: nat, faults: nat -> Fault, cancels: nat -> bool) returns (k: nat)
    requires 1 <= attempt <= MaxRetries(call.params)
    ensures k <= MaxRetries(call.params) && GetsTo(db, call, attempt, k, faults, cancels)
    ensures EndsAt(db, call, k, faults, cancels, RetrySpec(db, call, attempt, faults, cancels).1)
    decreases MaxRetries(call.params) - attempt
  {
    if Conflicts(db, call, attempt, faults) && attempt < MaxRetries(call.params) && !cancels(attempt) {
      k := RetryEndsOnce(db, call, attempt + 1, faults, cancels);
    } else {
      k := attempt;
    }
  }

  /**
    One attempt without a fault is the serial transfer. A fault of a statement that is reached is the
    answer; one that no transfer makes, or a hold that is not asked for, changes nothing; and a refusal
    by the checks comes before any fault of a later statement.
  */
  lemma OnceAnswers(db: Db, call: Call, fault: Fault)
    requires call.params.amount > 0
    ensures var once, alone := OnceSpec(db, call, fault), SerialTransfer(db, call);
            if fault.NoFault? || fault.stage.CreateUser? || fault.stage.CreateAccount?
               || (fault.stage.Hold? && call.params.holdMs <= 0) then once == alone
            else if fault.stage.BeginTx? || fault.stage.LockRows? then once == Err(fault.error)
            else
              && (alone.Ok? ==> once == Err(fault.error))
              && (alone.Err? && alone.error in {AccountNotFound, NotAccountOwner, InsufficientFunds} ==> once == alone)
              && (alone == Err(Pg("22003")) ==>
                    once == if fault.stage.RecordTransfer? || fault.stage.CommitTx? then alone else Err(fault.error))
  {
  }

  class Store {
    var users: map<string, Uuid>
    var rows: map<Uuid, Row>
    var ledger: seq<LedgerRow>

    /** Balances are bigint columns. */
    ghost predicate Valid()
      reads this
    {
      forall a | a in rows :: -MAX_INT64 - 1 <= rows[a].balance <= MAX_INT64
    }

    ghost function Contents(): Db
      reads this
    {
      Db(users, rows, ledger)
    }

    constructor (users: map<string, Uuid>, rows: map<Uuid, Row>)
      requires Solvent(rows)
      ensures Valid()
      ensures Contents() == Db(users, rows, [])
    {
      this.users, this.rows, this.ledger := users, rows, [];
    }

    method Rollback(saved: Db)
      modifies this
      ensures Contents() == saved
    {
      users, rows, ledger := saved.users, saved.rows, saved.ledger;
    }

    method GetAccountsForUpdate(a: Uuid, b: Uuid) returns (items: seq<Item>)
      ensures Current(items, LockOrder(a, b, rows), rows)
    {
      var ids := LockOrder(a, b, rows);
      items := [];
      for k := 0 to |ids|
        invariant |items| == k
        invariant forall j | 0 <= j < k :: ids[j] in rows && items[j] == ItemOf(rows, ids[j])
      {
        assert ids[k] in ids;
        items := items + [ItemOf(rows, ids[k])];
      }
    }

    static function ItemOf(rows: map<Uuid, Row>, id: Uuid): Item
      requires id in rows
    {
      Item(id, rows[id].owner, rows[id].balance)
    }

    method AdjustBalance(id: Uuid, delta: int) returns (r: Result<int, Error>)
      modifies this`rows
      ensures id !in old(rows) ==> r == Err(NoRows)
      ensures id in old(rows) ==>
                r == if -MAX_INT64 - 1 <= old(rows[id].balance) + delta <= MAX_INT64
                     then Ok(old(rows[id].balance) + delta) else Err(Pg(NUMERIC_OUT_OF_RANGE))
      ensures r.Ok? ==> rows == Adjusted(old(rows), id, delta)
      ensures r.Err? ==> rows == old(rows)
    {
      if id !in rows { return Err(NoRows); }
      var balance := rows[id].balance + delta;
      if balance < -MAX_INT64 - 1 || balance > MAX_INT64 { return Err(Pg(NUMERIC_OUT_OF_RANGE)); }
      rows := rows[id := Row(rows[id].owner, balance, rows[id].version + 1)];
      r := Ok(balance);
    }

    /** The two maps filled from the locked rows. */
    static method Index(items: seq<Item>) returns (balances: map<string, int>, owners: map<string, string>)
      ensures balances == BalancesOf(items) && owners == OwnersOf(items)
    {
      balances, owners := map[], map[];
      for k := 0 to |items|
        invariant balances == BalancesOf(items[..k]) && owners == OwnersOf(items[..k])
      {
        assert items[..k + 1][..k] == items[..k];
        balances := balances[UuidString(items[k].id) := items[k].balance];
        owners := owners[UuidString(items[k].id) := UuidString(items[k].owner)];
      }
      assert items[..|items|] == items;
    }

    /** The first half of an attempt: lock the rows, fill the maps, read off the verdict. */
    method LockAndCheck(call: Call, fault: Fault, ghost parse: string -> Option<Uuid>) returns (error: Option<Error>)
      requires InvertsPrinting(parse) && Validated(call, parse)
      ensures error.Some? ==> OnceSpec(Contents(), call, fault) == Err(error.value)
      ensures error.None? ==>
                && !Hits(fault, BeginTx) && !Hits(fault, LockRows)
                && call.fromID in rows && call.toID in rows && call.fromID != call.toID
                && rows[call.fromID].balance >= call.params.amount
                && (SerialTransfer(Contents(), call).Ok? ||
                    SerialTransfer(Contents(), call) == Err(Pg(NUMERIC_OUT_OF_RANGE)))
    {
      if Hits(fault, BeginTx) { return Some(fault.error); }
      if Hits(fault, LockRows) { return Some(fault.error); }
      var locked := GetAccountsForUpdate(call.fromID, call.toID);
      var balances, owners := Index(locked);
      VerdictIsSerial(Contents(), rows, call, locked, parse);

      var p := call.params;
      if p.from !in balances { return Some(AccountNotFound); }
      var fromBalance := balances[p.from];
      if p.to !in balances { return Some(AccountNotFound); }
      if p.from !in owners || owners[p.from] != p.sessionUser { return Some(NotAccountOwner); }
      if fromBalance < p.amount { return Some(InsufficientFunds); }
      error := None;
    }

    /** The second half: move the money in place and append the ledger row, up to the first error. */
    method MoveMoney(call: Call, fault: Fault) returns (r: Result<TransferResult, Error>)
      requires call.fromID in rows && call.toID in rows && call.fromID != call.toID
      requires Valid() && 0 < call.params.amount <= rows[call.fromID].balance
      modifies this
      ensures r.Ok? ==> Valid()
      ensures match MoveSpec(old(Contents()), call, fault)
              case Ok((after, result)) => r == Ok(result) && Contents() == after
              case Err(error) => r == Err(error)
    {
      var p := call.params;
      if p.holdMs > 0 {
        if Hits(fault, Hold) { return Err(fault.error); }
      }
      var amount: int := p.amount;
      if Hits(fault, DebitSource) { return Err(fault.error); }
      var newFrom := AdjustBalance(call.fromID, -amount);
      if newFrom.Err? { assert false; }  // the funds check rules it out
      if Hits(fault, CreditDestination) { return Err(fault.error); }
      var newTo := AdjustBalance(call.toID, amount);
      if newTo.Err? { return Err(newTo.error); }
      if Hits(fault, RecordTransfer) { return Err(fault.error); }
      ledger := ledger + [LedgerRow(call.fromID, call.toID, amount)];
      if Hits(fault, CommitTx) { return Err(fault.error); }
      r := Ok(TransferResult(p.from, p.to, newFrom.value, newTo.value, amount, 0));
    }

    /** One attempt: commit everything or leave no trace. */
    method TransferOnce(call: Call, fault: Fault, ghost parse: string -> Option<Uuid>)
      returns (r: Result<TransferResult, Error>)
      requires Valid() && InvertsPrinting(parse) && Validated(call, parse)
      modifies this
      ensures Valid()
      ensures match OnceSpec(old(Contents()), call, fault)
              case Ok((after, result)) => r == Ok(result) && Contents() == after
              case Err(error) => r == Err(error) && Contents() == old(Contents())
    {
      var saved := Db(users, rows, ledger);
      var refused := LockAndCheck(call, fault, parse);
      if refused.Some? {
        r := Err(refused.value);
      } else {
        MoveSpecIsOnceSpec(Contents(), call, fault);
        r := MoveMoney(call, fault);
      }
      if r.Err? {
        Rollback(saved);
      }
    }

    /**
      The public call. `faults` and `cancels` say what goes wrong in each attempt, `seeds` feeds the
      random draws, and `slept` is the time spent backing off.
    */
    method Transfer(params: Params, parse: string -> Option<Uuid>, faults: nat -> Fault, cancels: nat -> bool,
                    seeds: nat -> nat)
      returns (r: Result<TransferResult, Error>, slept: int)
      requires Valid() && InvertsPrinting(parse)
      modifies this
      ensures Valid()
      ensures match Validate(params, parse)
              case Err(error) => r == Err(error) && Contents() == old(Contents())
              case Ok(call) => (Contents(), r) == RetrySpec(old(Contents()), call, 1, faults, cancels)
      ensures 0 <= slept <= (MAX_BACKOFF - 1) * (MaxRetries(params) - 1)
      ensures MaxRetries(params) > 1 ==> slept < MAX_BACKOFF * (MaxRetries(params) - 1)
    {
      slept := 0;
      var valid := Validate(params, parse);
      if valid.Err? { return Err(valid.error), slept; }
      var call := valid.value;
      var maxRetries := MaxRetries(params);
      ghost var db := Contents();
      var attempt: nat := 1;
      while attempt <= maxRetries
        invariant 1 <= attempt <= maxRetries
        invariant Contents() == db && Valid()
        invariant RetrySpec(db, call, attempt, faults, cancels) == RetrySpec(db, call, 1, faults, cancels)
        invariant 0 <= slept <= (MAX_BACKOFF - 1) * (attempt - 1)
      {
        var result := TransferOnce(call, faults(attempt), parse);
        if result.Ok? { return Ok(result.value.(attempts := attempt)), slept; }
        if !IsRetryableConflict(result.error) { return Err(result.error), slept; }
        if attempt == maxRetries { break; }
        if cancels(attempt) { return Err(Canceled), slept; }
        var delay := RetryBackoff(attempt, seeds(attempt));
        slept := slept + delay;
        attempt := attempt + 1;
      }
      r := Err(RetriesExhausted);
    }

    /** A user and a starter account, created together or not at all. */
    method RegisterUser(username: string, uid: Uuid, aid: Uuid, fault: Fault) returns (r: Result<Uuid, Error>)
      requires Valid() && aid !in rows && uid !in users.Values
      modifies this
      ensures Valid()
      ensures if Hits(fault, BeginTx) || Hits(fault, CreateUser) then r == Err(fault.error) && Contents() == old(Contents())
              else match SerialRegister(old(Contents()), username, uid, aid)
                   case Err(error) => r == Err(error) && Contents() == old(Contents())
                   case Ok(after) =>
                     if Hits(fault, CreateAccount) || Hits(fault, CommitTx) then r == Err(fault.error) && Contents() == old(Contents())
                     else r == Ok(uid) && Contents() == after
    {
      if Hits(fault, BeginTx) { return Err(fault.error); }
      var saved := Db(users, rows, ledger);
      if Hits(fault, CreateUser) { return Err(fault.error); }
      if username in users { return Err(UsernameTaken); }
      users := users[username := uid];
      if Hits(fault, CreateAccount) { Rollback(saved); return Err(fault.error); }
      rows := rows[aid := Row(uid, STARTER_BALANCE, 0)];
      if Hits(fault, CommitTx) { Rollback(saved); return Err(fault.error); }
      r := Ok(uid);
    }
  }
}
