/**
  Any number of transfers and registrations, interleaved step by step.

  A client is one accepted call of `Transfer`. Its steps are those of the retry loop and of one
  transaction attempt; row locks are the rows an attempt has read so far and live until it ends.
  Faults are steps too: at any point of an attempt the database may report any error.
*/
module Machine {
  import opened Integers
  import opened Wrappers
  import opened Uuids
  import opened Serial
  import opened Attempt

  datatype Pc = Lock | Debit | Credit | Record | Commit

  /**
    An open transaction: the rows visible when its first statement started, the ids still to lock,
    the rows locked and read, and its uncommitted balances. `begun` is history: how much of the
    log was committed when the snapshot was taken.
  */
  datatype Tx = Tx(
    snap: map<Uuid, Row>, todo: seq<Uuid>, items: seq<Item>, pc: Pc,
    writes: map<Uuid, int>, newFrom: int, newTo: int, begun: nat)

  datatype Phase =
    | Ready
    | InTx(tx: Tx)
    | Backoff
    | Done(outcome: Result<TransferResult, Error>)

  /** `failures` are the errors of the attempts so far that were to be retried. */
  datatype Client = Client(call: Call, attempt: nat, failures: seq<Error>, phase: Phase)

  datatype Action =
    | Begin
    | LockNext
    | Check
    | Adjust(debit: bool)
    | InsertLedger
    | CommitTx
    | Fault(error: Error)
    | Wake
    | Cancel

  datatype Step =
    | Start(params: Params)
    | Register(username: string, uid: Uuid, aid: Uuid)
    | Act(client: nat, action: Action)

  /** `log` is history: the committed work in commit order. `parse` is the driver's UUID scanner. */
  datatype State = State(db: Db, clients: seq<Client>, log: seq<Event>, parse: string -> Option<Uuid>)

  function Held(c: Client): set<Uuid> {
    if c.phase.InTx? then set it | it in c.phase.tx.items :: it.id else {}
  }

  predicate InPc(c: Client, pc: Pc) {
    c.phase.InTx? && c.phase.tx.pc == pc
  }

  /** The row a client is about to lock, if it is in its lock phase. */
  function Wanted(c: Client): Option<Uuid> {
    if InPc(c, Lock) && c.phase.tx.todo != [] then Some(c.phase.tx.todo[0]) else None
  }

  predicate WaitsFor(s: State, i: nat, j: nat) {
    && i < |s.clients| && j < |s.clients| && i != j
    && Wanted(s.clients[i]).Some? && Wanted(s.clients[i]).value in Held(s.clients[j])
  }

  predicate CanAct(s: State, i: nat, action: Action) {
    && i < |s.clients|
    && var c := s.clients[i];
       match action
       case Begin => c.phase.Ready?
       case LockNext =>
         && Wanted(c).Some?
         && Wanted(c).value in c.phase.tx.snap && Wanted(c).value in s.db.rows
         && forall j | 0 <= j < |s.clients| :: !WaitsFor(s, i, j)
       case Check => InPc(c, Lock) && c.phase.tx.todo == []
       case Adjust(debit) =>
         && InPc(c, if debit then Debit else Credit)
         && var id := if debit then c.call.fromID else c.call.toID;
            id in s.db.rows && id in c.phase.tx.snap
       case InsertLedger => InPc(c, Record)
       case CommitTx => InPc(c, Commit)
       case Fault(error) => (c.phase.Ready? || c.phase.InTx?) && (error.Pg? || error.Unavailable?)
       case Wake => c.phase.Backoff?
       case Cancel => c.phase.Backoff?
  }

  predicate Enabled(s: State, step: Step) {
    match step
    case Start(params) => Validate(params, s.parse).Ok?
    case Register(_, uid, aid) => aid !in s.db.rows && uid !in s.db.users.Values
    case Act(i, action) => CanAct(s, i, action)
  }

  /** The loop's reaction to a failed attempt. */
  function Failed(c: Client, error: Error): Client {
    if !IsRetryableConflict(error) then c.(phase := Done(Err(error)))
    else
      var failures := c.failures + [error];
      if c.attempt < MaxRetries(c.call.params) then c.(failures := failures, phase := Backoff)
      else c.(failures := failures, phase := Done(Err(RetriesExhausted)))
  }

  /** Under the two snapshot levels a row changed since the snapshot cannot be locked or updated. */
  predicate Stale(c: Client, tx: Tx, rows: map<Uuid, Row>, id: Uuid)
    requires id in tx.snap && id in rows
  {
    IsolationLevel(c.call.params.isolation) != ReadCommitted && rows[id].version != tx.snap[id].version
  }

  function LockedNext(c: Client, rows: map<Uuid, Row>): Client
    requires Wanted(c).Some? && Wanted(c).value in c.phase.tx.snap && Wanted(c).value in rows
  {
    var tx, id := c.phase.tx, Wanted(c).value;
    if Stale(c, tx, rows, id) then Failed(c, Pg(SERIALIZATION_FAILURE))
    else
      var row := if IsolationLevel(c.call.params.isolation) == ReadCommitted then rows[id] else tx.snap[id];
      c.(phase := InTx(tx.(todo := tx.todo[1..], items := tx.items + [Item(id, row.owner, row.balance)])))
  }

  function Checked(c: Client): Client
    requires c.phase.InTx?
  {
    match Verdict(c.call.params, c.phase.tx.items)
    case Some(error) => Failed(c, error)
    case None => c.(phase := InTx(c.phase.tx.(pc := Debit)))
  }

  /** `AdjustBalance`: the transaction sees its own earlier update, otherwise the committed row. */
  function AdjustedBy(c: Client, rows: map<Uuid, Row>, debit: bool): Client
    requires c.phase.InTx?
    requires var id := if debit then c.call.fromID else c.call.toID; id in rows && id in c.phase.tx.snap
  {
    var tx := c.phase.tx;
    var id := if debit then c.call.fromID else c.call.toID;
    var amount: int := c.call.params.amount;
    var base := if id in tx.writes then tx.writes[id] else rows[id].balance;
    var balance := base + if debit then -amount else amount;
    if Stale(c, tx, rows, id) then Failed(c, Pg(SERIALIZATION_FAILURE))
    else if balance < -MAX_INT64 - 1 || balance > MAX_INT64 then Failed(c, Pg(NUMERIC_OUT_OF_RANGE))
    else
      c.(phase := InTx(
           if debit then tx.(writes := tx.writes[id := balance], newFrom := balance, pc := Credit)
           else tx.(writes := tx.writes[id := balance], newTo := balance, pc := Record)))
  }

  function Receipt(c: Client): TransferResult
    requires c.phase.InTx?
  {
    var p := c.call.params;
    TransferResult(p.from, p.to, c.phase.tx.newFrom, c.phase.tx.newTo, p.amount, c.attempt)
  }

  /** The client after an action; only a commit touches anything else. */
  function Acted(s: State, i: nat, action: Action): Client
    requires CanAct(s, i, action)
  {
    var c := s.clients[i];
    match action
    case Begin =>
      c.(phase := InTx(Tx(s.db.rows, LockOrder(c.call.fromID, c.call.toID, s.db.rows), [], Lock, map[], 0, 0, |s.log|)))
    case LockNext => LockedNext(c, s.db.rows)
    case Check => Checked(c)
    case Adjust(debit) => AdjustedBy(c, s.db.rows, debit)
    case InsertLedger => c.(phase := InTx(c.phase.tx.(pc := Commit)))
    case CommitTx => c.(phase := Done(Ok(Receipt(c))))
    case Fault(error) => Failed(c, error)
    case Wake => c.(attempt := c.attempt + 1, phase := Ready)
    case Cancel => c.(phase := Done(Err(Canceled)))
  }

  /** A commit installs the new row versions and the ledger row together. */
  function Installed(rows: map<Uuid, Row>, writes: map<Uuid, int>): map<Uuid, Row> {
    map a | a in rows :: if a in writes then Row(rows[a].owner, writes[a], rows[a].version + 1) else rows[a]
  }

  function Exec(s: State, step: Step): State
    requires Enabled(s, step)
  {
    match step
    case Start(params) => s.(clients := s.clients + [Client(Validate(params, s.parse).value, 1, [], Ready)])
    case Register(username, uid, aid) =>
      (match SerialRegister(s.db, username, uid, aid)
       case Err(_) => s
       case Ok(db) => s.(db := db, log := s.log + [Registered(username, uid, aid)]))
    case Act(i, action) =>
      var c := s.clients[i];
      var clients := s.clients[i := Acted(s, i, action)];
      if action != CommitTx then s.(clients := clients)
      else
        var entry := LedgerRow(c.call.fromID, c.call.toID, c.call.params.amount);
        s.(clients := clients,
           db := Db(s.db.users, Installed(s.db.rows, c.phase.tx.writes), s.db.ledger + [entry]),
           log := s.log + [Transferred(i, c.call, Receipt(c))])
  }

  /** The state after a run, or `None` if some step of it was not enabled. */
  function Run(s: State, steps: seq<Step>): Option<State> {
    if steps == [] then Some(s)
    else
      match Run(s, steps[..|steps| - 1])
      case None => None
      case Some(t) => if Enabled(t, steps[|steps| - 1]) then Some(Exec(t, steps[|steps| - 1])) else None
  }

  ghost predicate Init(s: State) {
    s.clients == [] && s.log == [] && InvertsPrinting(s.parse)
  }

  // ---------- The invariant ----------

  /** Rows only appear and only change by growing their version. */
  ghost predicate Evolves(rows: map<Uuid, Row>, rows': map<Uuid, Row>) {
    forall a | a in rows :: a in rows' && rows[a].owner == rows'[a].owner
                            && rows[a].version <= rows'[a].version
                            && (rows[a].version == rows'[a].version ==> rows[a] == rows'[a])
  }

  function Ids(items: seq<Item>): seq<Uuid> {
    seq(|items|, k requires 0 <= k < |items| => items[k].id)
  }

  /** What was read under lock is still what is committed, in lock order, and not newer than the snapshot allows. */
  ghost predicate ReadsInv(rows: map<Uuid, Row>, call: Call, snap: map<Uuid, Row>, todo: seq<Uuid>, items: seq<Item>) {
    && Evolves(snap, rows)
    && Ids(items) + todo == LockOrder(call.fromID, call.toID, snap)
    && Current(items, Ids(items), rows)
    && (IsolationLevel(call.params.isolation) != ReadCommitted ==>
          forall id | id in Ids(items) && id in snap :: rows[id].version == snap[id].version)
  }

  /** Past the checks, both rows are locked and their balances sufficed. */
  ghost predicate PassedChecks(call: Call, todo: seq<Uuid>, items: seq<Item>) {
    && todo == [] && Verdict(call.params, items) == None
    && call.fromID in Ids(items) && call.toID in Ids(items) && call.fromID != call.toID
  }

  /** The uncommitted balances are the committed ones moved by the amount. */
  ghost predicate WritesInv(rows: map<Uuid, Row>, call: Call, tx: Tx)
    requires !tx.pc.Lock? ==> call.fromID in rows && call.toID in rows
  {
    var amount: int := call.params.amount;
    match tx.pc
    case Lock => tx.writes.Keys == {}
    case Debit => tx.writes.Keys == {}
    case Credit =>
      && tx.newFrom == rows[call.fromID].balance - amount
      && tx.writes.Keys == {call.fromID} && tx.writes[call.fromID] == tx.newFrom
    case _ =>
      && tx.newFrom == rows[call.fromID].balance - amount
      && tx.newTo == rows[call.toID].balance + amount <= MAX_INT64
      && tx.writes.Keys == {call.fromID, call.toID}
      && tx.writes[call.fromID] == tx.newFrom && tx.writes[call.toID] == tx.newTo
  }

  ghost predicate TxInv(rows: map<Uuid, Row>, c: Client, tx: Tx) {
    && ReadsInv(rows, c.call, tx.snap, tx.todo, tx.items)
    && (!tx.pc.Lock? ==> PassedChecks(c.call, tx.todo, tx.items))
    && WritesInv(rows, c.call, tx)
  }

  /** The retry loop: how far it got, and why every earlier attempt failed. */
  ghost predicate LoopInv(c: Client) {
    var max := MaxRetries(c.call.params);
    && 1 <= c.attempt <= max
    && (forall k | 0 <= k < |c.failures| :: IsRetryableConflict(c.failures[k]))
    && match c.phase
       case Ready => |c.failures| == c.attempt - 1
       case InTx(_) => |c.failures| == c.attempt - 1
       case Backoff => |c.failures| == c.attempt < max
       case Done(Ok(r)) => |c.failures| == c.attempt - 1 && r.attempts == c.attempt
       case Done(Err(RetriesExhausted)) => |c.failures| == c.attempt == max
       case Done(Err(Canceled)) => |c.failures| == c.attempt < max
       case Done(Err(e)) => |c.failures| == c.attempt - 1 && !IsRetryableConflict(e)
  }

  ghost predicate ClientInv(rows: map<Uuid, Row>, parse: string -> Option<Uuid>, c: Client) {
    && Validated(c.call, parse)
    && LoopInv(c)
    && (c.phase.InTx? ==> TxInv(rows, c, c.phase.tx))
  }

  /** The commits of one client, as their recorded answers. */
  function CommitsOf(log: seq<Event>, i: nat): seq<TransferResult> {
    if log == [] then []
    else
      var last := log[|log| - 1];
      CommitsOf(log[..|log| - 1], i) + if last.Transferred? && last.client == i then [last.result] else []
  }

  function Answered(s: State, i: nat): seq<TransferResult> {
    if i < |s.clients| && s.clients[i].phase.Done? && s.clients[i].phase.outcome.Ok?
    then [s.clients[i].phase.outcome.value] else []
  }

  ghost predicate Exclusive(clients: seq<Client>) {
    forall i, j | 0 <= i < |clients| && 0 <= j < |clients| && i != j :: Held(clients[i]) !! Held(clients[j])
  }

  /** A snapshot is the state that the log as it was then replays to. */
  ghost predicate SnapshotIsPast(db0: Db, log: seq<Event>, c: Client) {
    c.phase.InTx? ==>
      && c.phase.tx.begun <= |log|
      && var past := Replay(db0, log[..c.phase.tx.begun]);
         past.Some? && past.value.rows == c.phase.tx.snap
  }

  ghost predicate ClientsInv(db0: Db, s: State) {
    && InvertsPrinting(s.parse)
    && Exclusive(s.clients)
    && (forall i | 0 <= i < |s.clients| :: SnapshotIsPast(db0, s.log, s.clients[i]))
    && (forall i | 0 <= i < |s.clients| :: ClientInv(s.db.rows, s.parse, s.clients[i]))
  }

  ghost predicate LogInv(db0: Db, s: State) {
    && Replay(db0, s.log) == Some(s.db)
    && (forall i: nat :: CommitsOf(s.log, i) == Answered(s, i))
  }

  ghost predicate Inv(db0: Db, s: State) {
    ClientsInv(db0, s) && LogInv(db0, s)
  }

  // ---------- Every step keeps the invariant ----------

  lemma FailedKeepsLoop(c: Client, error: Error)
    requires LoopInv(c) && (c.phase.Ready? || c.phase.InTx?)
    requires !error.RetriesExhausted? && !error.Canceled?
    ensures LoopInv(Failed(c, error)) && !Failed(c, error).phase.InTx? && Failed(c, error).call == c.call
    ensures Failed(c, error).phase.Done? ==> Failed(c, error).phase.outcome.Err?
  {
  }

  lemma ReadsAreStable(rows: map<Uuid, Row>, rows': map<Uuid, Row>, call: Call, tx: Tx)
    requires ReadsInv(rows, call, tx.snap, tx.todo, tx.items) && Evolves(rows, rows')
    requires forall a | a in Ids(tx.items) :: a in rows ==> rows'[a] == rows[a]
    ensures ReadsInv(rows', call, tx.snap, tx.todo, tx.items)
  {
  }

  /** Nobody else's commit can touch a row this client has locked, so what it read stays current. */
  lemma OthersAreStable(rows: map<Uuid, Row>, rows': map<Uuid, Row>, parse: string -> Option<Uuid>, c: Client)
    requires ClientInv(rows, parse, c) && Evolves(rows, rows')
    requires forall a | a in Held(c) && a in rows :: rows'[a] == rows[a]
    ensures ClientInv(rows', parse, c)
  {
    if c.phase.InTx? {
      var tx := c.phase.tx;
      forall a | a in Ids(tx.items)
        ensures a in Held(c)
      {
        var k :| 0 <= k < |tx.items| && Ids(tx.items)[k] == a;
        assert tx.items[k] in tx.items;
      }
      ReadsAreStable(rows, rows', c.call, tx);
    }
  }

  lemma GrantAppends(items: seq<Item>, rows: map<Uuid, Row>, id: Uuid)
    requires Current(items, Ids(items), rows) && id in rows
    ensures var all := items + [Item(id, rows[id].owner, rows[id].balance)];
            Ids(all) == Ids(items) + [id] && Current(all, Ids(all), rows)
  {
  }

  lemma GrantKeepsTx(c: Client, rows: map<Uuid, Row>, tx: Tx, row: Row)
    requires TxInv(rows, c, tx) && tx.pc.Lock? && tx.todo != []
    requires tx.todo[0] in rows && row == rows[tx.todo[0]]
    requires tx.todo[0] in tx.snap && !Stale(c, tx, rows, tx.todo[0])
    ensures TxInv(rows, c, tx.(todo := tx.todo[1..], items := tx.items + [Item(tx.todo[0], row.owner, row.balance)]))
  {
    GrantAppends(tx.items, rows, tx.todo[0]);
    assert (Ids(tx.items) + [tx.todo[0]]) + tx.todo[1..] == Ids(tx.items) + tx.todo;
  }

  lemma LockedNextKeeps(c: Client, rows: map<Uuid, Row>, parse: string -> Option<Uuid>)
    requires ClientInv(rows, parse, c) && Wanted(c).Some?
    requires Wanted(c).value in c.phase.tx.snap && Wanted(c).value in rows
    ensures ClientInv(rows, parse, LockedNext(c, rows))
    ensures Held(LockedNext(c, rows)) <= Held(c) + {Wanted(c).value}
    ensures LockedNext(c, rows).phase.Done? ==> LockedNext(c, rows).phase.outcome.Err?
  {
    var tx, id := c.phase.tx, Wanted(c).value;
    if Stale(c, tx, rows, id) {
      FailedKeepsLoop(c, Pg(SERIALIZATION_FAILURE));
    } else {
      GrantKeepsTx(c, rows, tx, rows[id]);
    }
  }

  lemma CheckedKeeps(c: Client, rows: map<Uuid, Row>, parse: string -> Option<Uuid>)
    requires InvertsPrinting(parse) && ClientInv(rows, parse, c) && InPc(c, Lock) && c.phase.tx.todo == []
    ensures ClientInv(rows, parse, Checked(c)) && Held(Checked(c)) <= Held(c)
    ensures Checked(c).phase.Done? ==> Checked(c).phase.outcome.Err?
  {
    var tx := c.phase.tx;
    match Verdict(c.call.params, tx.items)
    case Some(error) => FailedKeepsLoop(c, error);
    case None =>
      LocksAreComplete(rows, c, tx);
      VerdictIsSerial(Db(map[], rows, []), tx.snap, c.call, tx.items, parse);
  }

  lemma DebitKeepsTx(c: Client, rows: map<Uuid, Row>, tx: Tx, balance: int)
    requires TxInv(rows, c, tx) && tx.pc.Debit?
    requires c.call.fromID in rows && balance == rows[c.call.fromID].balance - c.call.params.amount
    ensures TxInv(rows, c, tx.(writes := tx.writes[c.call.fromID := balance], newFrom := balance, pc := Credit))
  {
  }

  lemma CreditKeepsTx(c: Client, rows: map<Uuid, Row>, tx: Tx, balance: int)
    requires TxInv(rows, c, tx) && tx.pc.Credit?
    requires c.call.toID in rows && balance == rows[c.call.toID].balance + c.call.params.amount <= MAX_INT64
    ensures TxInv(rows, c, tx.(writes := tx.writes[c.call.toID := balance], newTo := balance, pc := Record))
  {
  }

  lemma AdjustedKeeps(c: Client, rows: map<Uuid, Row>, parse: string -> Option<Uuid>, debit: bool)
    requires ClientInv(rows, parse, c) && InPc(c, if debit then Debit else Credit)
    requires var id := if debit then c.call.fromID else c.call.toID; id in rows && id in c.phase.tx.snap
    ensures ClientInv(rows, parse, AdjustedBy(c, rows, debit)) && Held(AdjustedBy(c, rows, debit)) <= Held(c)
    ensures AdjustedBy(c, rows, debit).phase.Done? ==> AdjustedBy(c, rows, debit).phase.outcome.Err?
  {
    var tx, amount: int := c.phase.tx, c.call.params.amount;
    var id := if debit then c.call.fromID else c.call.toID;
    var balance := rows[id].balance + if debit then -amount else amount;
    assert id !in tx.writes;
    if Stale(c, tx, rows, id) {
      FailedKeepsLoop(c, Pg(SERIALIZATION_FAILURE));
    } else if balance < -MAX_INT64 - 1 || balance > MAX_INT64 {
      FailedKeepsLoop(c, Pg(NUMERIC_OUT_OF_RANGE));
    } else if debit {
      DebitKeepsTx(c, rows, tx, balance);
    } else {
      CreditKeepsTx(c, rows, tx, balance);
    }
  }

  /** Once nothing is left to lock, the locked rows are the existing ones of the two requested. */
  lemma LocksAreComplete(rows: map<Uuid, Row>, c: Client, tx: Tx)
    requires ReadsInv(rows, c.call, tx.snap, tx.todo, tx.items) && tx.todo == []
    ensures Current(tx.items, LockOrder(c.call.fromID, c.call.toID, tx.snap), rows) && tx.snap.Keys <= rows.Keys
  {
    assert Ids(tx.items) + tx.todo == Ids(tx.items);
  }

  lemma BothAreHeld(c: Client)
    requires c.phase.InTx? && PassedChecks(c.call, c.phase.tx.todo, c.phase.tx.items)
    ensures {c.call.fromID, c.call.toID} <= Held(c)
  {
    var items := c.phase.tx.items;
    forall k | 0 <= k < |items|
      ensures Ids(items)[k] in Held(c)
    {
      assert items[k] in items;
    }
  }

  lemma FundsSufficed(db: Db, call: Call)
    requires SerialTransfer(db, call).Ok? || SerialTransfer(db, call) == Err(Pg(NUMERIC_OUT_OF_RANGE))
    ensures call.fromID in db.rows && db.rows[call.fromID].balance >= call.params.amount
  {
  }

  lemma VerdictStillStands(db: Db, parse: string -> Option<Uuid>, c: Client)
    requires InvertsPrinting(parse) && Validated(c.call, parse)
    requires c.phase.InTx? && !c.phase.tx.pc.Lock? && TxInv(db.rows, c, c.phase.tx)
    ensures SerialTransfer(db, c.call).Ok? || SerialTransfer(db, c.call) == Err(Pg(NUMERIC_OUT_OF_RANGE))
    ensures c.call.fromID in db.rows && c.call.toID in db.rows && c.call.fromID != c.call.toID
    ensures db.rows[c.call.fromID].balance >= c.call.params.amount
    ensures {c.call.fromID, c.call.toID} <= Held(c)
  {
    LocksAreComplete(db.rows, c, c.phase.tx);
    BothAreHeld(c);
    VerdictIsSerial(db, c.phase.tx.snap, c.call, c.phase.tx.items, parse);
    FundsSufficed(db, c.call);
  }

  /** A commit is exactly the serial transfer, run on the state it commits into. */
  lemma CommitIsSerial(db: Db, parse: string -> Option<Uuid>, c: Client)
    requires InvertsPrinting(parse) && Validated(c.call, parse)
    requires InPc(c, Commit) && TxInv(db.rows, c, c.phase.tx)
    ensures SerialTransfer(db, c.call) ==
            Ok((Db(db.users, Installed(db.rows, c.phase.tx.writes),
                   db.ledger + [LedgerRow(c.call.fromID, c.call.toID, c.call.params.amount)]),
                Receipt(c).(attempts := 0)))
    ensures c.phase.tx.writes.Keys <= Held(c)
  {
    VerdictStillStands(db, parse, c);
    SerialAnswer(db, c.call, c.phase.tx.writes, Receipt(c).(attempts := 0));
  }

  lemma SerialAnswer(db: Db, call: Call, writes: map<Uuid, int>, result: TransferResult)
    requires SerialTransfer(db, call).Ok? || SerialTransfer(db, call) == Err(Pg(NUMERIC_OUT_OF_RANGE))
    requires call.fromID in db.rows && call.toID in db.rows && call.fromID != call.toID
    requires writes.Keys == {call.fromID, call.toID}
    requires writes[call.fromID] == db.rows[call.fromID].balance - call.params.amount
    requires writes[call.toID] == db.rows[call.toID].balance + call.params.amount <= MAX_INT64
    requires var p := call.params;
             result == TransferResult(p.from, p.to, writes[call.fromID], writes[call.toID], p.amount, 0)
    ensures SerialTransfer(db, call) ==
            Ok((Db(db.users, Installed(db.rows, writes),
                   db.ledger + [LedgerRow(call.fromID, call.toID, call.params.amount)]), result))
  {
    InstalledIsMove(db.rows, writes, call.fromID, call.toID, call.params.amount);
  }

  lemma InstalledIsMove(rows: map<Uuid, Row>, writes: map<Uuid, int>, from: Uuid, to: Uuid, amount: int)
    requires from in rows && to in rows && from != to && writes.Keys == {from, to}
    requires writes[from] == rows[from].balance - amount && writes[to] == rows[to].balance + amount
    ensures Adjusted(Adjusted(rows, from, -amount), to, amount) == Installed(rows, writes)
  {
  }

  lemma InstalledEvolves(rows: map<Uuid, Row>, writes: map<Uuid, int>)
    ensures Evolves(rows, Installed(rows, writes))
  {
  }

  lemma ActedKeepsSnap(s: State, i: nat, action: Action)
    requires CanAct(s, i, action) && action != Begin && Acted(s, i, action).phase.InTx?
    ensures s.clients[i].phase.InTx?
    ensures Acted(s, i, action).phase.tx.snap == s.clients[i].phase.tx.snap
    ensures Acted(s, i, action).phase.tx.begun == s.clients[i].phase.tx.begun
  {
  }

  lemma ActionKeepsSnapshot(db0: Db, s: State, i: nat, action: Action)
    requires CanAct(s, i, action) && SnapshotIsPast(db0, s.log, s.clients[i]) && Replay(db0, s.log) == Some(s.db)
    ensures SnapshotIsPast(db0, s.log, Acted(s, i, action))
  {
    if action == Begin {
      assert s.log[..|s.log|] == s.log;
    } else if Acted(s, i, action).phase.InTx? {
      ActedKeepsSnap(s, i, action);
    }
  }

  lemma SnapshotsStayPast(db0: Db, log: seq<Event>, event: Event, clients: seq<Client>)
    requires forall i | 0 <= i < |clients| :: SnapshotIsPast(db0, log, clients[i])
    ensures forall i | 0 <= i < |clients| :: SnapshotIsPast(db0, log + [event], clients[i])
  {
    forall i | 0 <= i < |clients| && clients[i].phase.InTx?
      ensures SnapshotIsPast(db0, log + [event], clients[i])
    {
      assert SnapshotIsPast(db0, log, clients[i]);
      var n := clients[i].phase.tx.begun;
      assert (log + [event])[..n] == log[..n];
    }
  }

  lemma BegunKeeps(s: State, i: nat)
    requires CanAct(s, i, Begin) && ClientInv(s.db.rows, s.parse, s.clients[i])
    ensures ClientInv(s.db.rows, s.parse, Acted(s, i, Begin)) && Held(Acted(s, i, Begin)) == {}
  {
    var c, tx := s.clients[i], Acted(s, i, Begin).phase.tx;
    assert Ids(tx.items) + tx.todo == LockOrder(c.call.fromID, c.call.toID, s.db.rows);
  }

  /** What one action does to its own client. */
  lemma ActionKeepsClient(db0: Db, s: State, i: nat, action: Action)
    requires Inv(db0, s) && CanAct(s, i, action)
    ensures ClientInv(s.db.rows, s.parse, Acted(s, i, action))
    ensures action != LockNext ==> Held(Acted(s, i, action)) <= Held(s.clients[i])
    ensures action == LockNext ==> Held(Acted(s, i, action)) <= Held(s.clients[i]) + {Wanted(s.clients[i]).value}
    ensures Acted(s, i, action).phase.Done? && Acted(s, i, action).phase.outcome.Ok? <==> action == CommitTx
    ensures !s.clients[i].phase.Done?
  {
    var c, rows, parse := s.clients[i], s.db.rows, s.parse;
    assert ClientInv(rows, parse, c);
    match action
    case Begin => BegunKeeps(s, i);
    case LockNext => LockedNextKeeps(c, rows, parse);
    case Check => CheckedKeeps(c, rows, parse);
    case Adjust(debit) => AdjustedKeeps(c, rows, parse, debit);
    case InsertLedger => RecordKeepsTx(c, rows, c.phase.tx);
    case Fault(error) => FailedKeepsLoop(c, error);
    case CommitTx =>
    case Wake =>
    case Cancel =>
  }

  lemma RecordKeepsTx(c: Client, rows: map<Uuid, Row>, tx: Tx)
    requires TxInv(rows, c, tx) && tx.pc.Record?
    ensures TxInv(rows, c, tx.(pc := Commit))
  {
  }

  lemma LocksStayExclusive(s: State, i: nat, action: Action)
    requires Exclusive(s.clients) && CanAct(s, i, action)
    requires action != LockNext ==> Held(Acted(s, i, action)) <= Held(s.clients[i])
    requires action == LockNext ==> Held(Acted(s, i, action)) <= Held(s.clients[i]) + {Wanted(s.clients[i]).value}
    ensures Exclusive(s.clients[i := Acted(s, i, action)])
  {
    forall j | 0 <= j < |s.clients| && j != i
      ensures Held(Acted(s, i, action)) !! Held(s.clients[j])
    {
      assert action == LockNext ==> !WaitsFor(s, i, j);
    }
  }

  lemma ActKeepsClients(db0: Db, s: State, i: nat, action: Action)
    requires Inv(db0, s) && CanAct(s, i, action) && action != CommitTx
    ensures ClientsInv(db0, Exec(s, Act(i, action)))
  {
    ActionKeepsClient(db0, s, i, action);
    ActionKeepsSnapshot(db0, s, i, action);
    LocksStayExclusive(s, i, action);
    OneClientChanges(db0, s, i, Acted(s, i, action));
  }

  lemma OneClientChanges(db0: Db, s: State, i: nat, c: Client)
    requires ClientsInv(db0, s) && i < |s.clients| && Exclusive(s.clients[i := c])
    requires ClientInv(s.db.rows, s.parse, c) && SnapshotIsPast(db0, s.log, c)
    ensures ClientsInv(db0, s.(clients := s.clients[i := c]))
  {
  }

  lemma ActKeepsLog(db0: Db, s: State, i: nat, action: Action)
    requires LogInv(db0, s) && CanAct(s, i, action) && action != CommitTx && !s.clients[i].phase.Done?
    requires Acted(s, i, action).phase.Done? ==> Acted(s, i, action).phase.outcome.Err?
    ensures LogInv(db0, Exec(s, Act(i, action)))
  {
    var t := Exec(s, Act(i, action));
    forall k: nat
      ensures CommitsOf(t.log, k) == Answered(t, k)
    {
      assert CommitsOf(s.log, k) == Answered(s, k);
    }
  }

  lemma CommitsOfAppend(log: seq<Event>, event: Event, i: nat)
    ensures CommitsOf(log + [event], i) ==
            CommitsOf(log, i) + if event.Transferred? && event.client == i then [event.result] else []
  {
    assert (log + [event])[..|log|] == log;
  }

  lemma CommitKeepsClients(db0: Db, s: State, i: nat)
    requires Inv(db0, s) && CanAct(s, i, CommitTx)
    ensures ClientsInv(db0, Exec(s, Act(i, CommitTx)))
  {
    var t := Exec(s, Act(i, CommitTx));
    ActionKeepsClient(db0, s, i, CommitTx);
    LocksStayExclusive(s, i, CommitTx);
    CommitLeavesOthers(db0, s, i);
    ActionKeepsSnapshot(db0, s, i, CommitTx);
    SnapshotsStayPast(db0, s.log, t.log[|s.log|], t.clients);
  }

  lemma CommitReplays(db0: Db, s: State, i: nat)
    requires Replay(db0, s.log) == Some(s.db) && CanAct(s, i, CommitTx)
    requires InvertsPrinting(s.parse) && ClientInv(s.db.rows, s.parse, s.clients[i])
    ensures Replay(db0, Exec(s, Act(i, CommitTx)).log) == Some(Exec(s, Act(i, CommitTx)).db)
  {
    CommitIsSerial(s.db, s.parse, s.clients[i]);
    ReplayPrefix(db0, s.log, Transferred(i, s.clients[i].call, Receipt(s.clients[i])));
  }

  lemma CommitIsAnswered(s: State, i: nat, k: nat)
    requires CanAct(s, i, CommitTx) && CommitsOf(s.log, k) == Answered(s, k)
    ensures var t := Exec(s, Act(i, CommitTx)); CommitsOf(t.log, k) == Answered(t, k)
  {
    CommitsOfAppend(s.log, Transferred(i, s.clients[i].call, Receipt(s.clients[i])), k);
  }

  lemma CommitKeepsLog(db0: Db, s: State, i: nat)
    requires LogInv(db0, s) && CanAct(s, i, CommitTx)
    requires Replay(db0, Exec(s, Act(i, CommitTx)).log) == Some(Exec(s, Act(i, CommitTx)).db)
    ensures LogInv(db0, Exec(s, Act(i, CommitTx)))
  {
    var t := Exec(s, Act(i, CommitTx));
    forall k: nat
      ensures CommitsOf(t.log, k) == Answered(t, k)
    {
      CommitIsAnswered(s, i, k);
    }
  }

  lemma CommitLeavesOthers(db0: Db, s: State, i: nat)
    requires Inv(db0, s) && CanAct(s, i, CommitTx)
    ensures forall j | 0 <= j < |s.clients| && j != i ::
              ClientInv(Installed(s.db.rows, s.clients[i].phase.tx.writes), s.parse, s.clients[j])
  {
    var writes := s.clients[i].phase.tx.writes;
    assert ClientInv(s.db.rows, s.parse, s.clients[i]);
    CommitIsSerial(s.db, s.parse, s.clients[i]);
    InstalledEvolves(s.db.rows, writes);
    forall j | 0 <= j < |s.clients| && j != i
      ensures ClientInv(Installed(s.db.rows, writes), s.parse, s.clients[j])
    {
      OthersAreStable(s.db.rows, Installed(s.db.rows, writes), s.parse, s.clients[j]);
    }
  }

  lemma RegisterKeepsClients(db0: Db, s: State, username: string, uid: Uuid, aid: Uuid)
    requires Inv(db0, s) && Enabled(s, Register(username, uid, aid)) && username !in s.db.users
    ensures ClientsInv(db0, Exec(s, Register(username, uid, aid)))
  {
    var t := Exec(s, Register(username, uid, aid));
    SnapshotsStayPast(db0, s.log, Registered(username, uid, aid), s.clients);
    forall j | 0 <= j < |t.clients|
      ensures ClientInv(t.db.rows, t.parse, t.clients[j])
    {
      OthersAreStable(s.db.rows, t.db.rows, s.parse, s.clients[j]);
    }
  }

  lemma RegisterKeepsLog(db0: Db, s: State, username: string, uid: Uuid, aid: Uuid)
    requires LogInv(db0, s) && Enabled(s, Register(username, uid, aid)) && username !in s.db.users
    ensures LogInv(db0, Exec(s, Register(username, uid, aid)))
  {
    var t := Exec(s, Register(username, uid, aid));
    ReplayPrefix(db0, s.log, Registered(username, uid, aid));
    forall k: nat
      ensures CommitsOf(t.log, k) == Answered(t, k)
    {
      assert CommitsOf(s.log, k) == Answered(s, k);
      CommitsOfAppend(s.log, Registered(username, uid, aid), k);
    }
  }

  lemma StartKeepsClients(db0: Db, s: State, params: Params)
    requires ClientsInv(db0, s) && Enabled(s, Start(params))
    ensures ClientsInv(db0, Exec(s, Start(params)))
  {
    var t := Exec(s, Start(params));
    assert ClientInv(s.db.rows, s.parse, t.clients[|s.clients|]);
    assert forall j | 0 <= j < |s.clients| :: t.clients[j] == s.clients[j];
  }

  lemma StartKeepsLog(db0: Db, s: State, params: Params)
    requires LogInv(db0, s) && Enabled(s, Start(params))
    ensures LogInv(db0, Exec(s, Start(params)))
  {
    var t := Exec(s, Start(params));
    forall k: nat
      ensures CommitsOf(t.log, k) == Answered(t, k)
    {
      assert CommitsOf(s.log, k) == Answered(s, k);
    }
  }

  lemma {:induction false} StepKeepsInv(db0: Db, s: State, step: Step)
    requires Inv(db0, s) && Enabled(s, step)
    ensures Inv(db0, Exec(s, step))
  {
    match step
    case Start(params) =>
      StartKeepsClients(db0, s, params);
      StartKeepsLog(db0, s, params);
    case Register(username, uid, aid) =>
      if username !in s.db.users {
        RegisterKeepsClients(db0, s, username, uid, aid);
        RegisterKeepsLog(db0, s, username, uid, aid);
      }
    case Act(i, action) =>
      ActionKeepsClient(db0, s, i, action);
      if action == CommitTx {
        CommitKeepsClients(db0, s, i);
        CommitReplays(db0, s, i);
        CommitKeepsLog(db0, s, i);
      } else {
        ActKeepsClients(db0, s, i, action);
        ActKeepsLog(db0, s, i, action);
      }
  }

  lemma {:induction false} RunPreserves(db0: Db, s: State, steps: seq<Step>, t: State)
    requires Inv(db0, s) && Run(s, steps) == Some(t)
    ensures Inv(db0, t)
    decreases |steps|
  {
    if steps != [] {
      var mid := Run(s, steps[..|steps| - 1]).value;
      RunPreserves(db0, s, steps[..|steps| - 1], mid);
      StepKeepsInv(db0, mid, steps[|steps| - 1]);
    }
  }

  lemma RunKeepsInv(s0: State, steps: seq<Step>, s: State)
    requires Init(s0) && Run(s0, steps) == Some(s)
    ensures Inv(s0.db, s)
  {
    RunPreserves(s0.db, s0, steps, s);
  }
}
