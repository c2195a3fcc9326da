/** The main theorems about interleaved transfers, each over every run from any initial state. */
module Transfers {
  import opened Integers
  import opened Wrappers
  import opened Uuids
  import opened Serial
  import opened Attempt
  import opened Machine

  /**
    Whatever the interleaving, the isolation levels and the faults, the state is the one reached by
    running the committed work alone, one unit at a time, in commit order; and each call answered
    success exactly when it has one commit, with exactly the balances the serial run gives it.
  */
  lemma EveryRunIsSerializable(s0: State, steps: seq<Step>, s: State)
    requires Init(s0) && Run(s0, steps) == Some(s)
    ensures Replay(s0.db, s.log) == Some(s.db)
    ensures forall i: nat :: CommitsOf(s.log, i) == Answered(s, i)
  {
    RunKeepsInv(s0, steps, s);
  }

  /** The ledger rows added since the start and the opening balances alone determine every committed balance. */
  lemma LedgerDeterminesBalances(s0: State, steps: seq<Step>, s: State)
    requires Init(s0) && Run(s0, steps) == Some(s)
    ensures s.db.ledger == s0.db.ledger + LedgerOf(s.log)
    ensures forall a | a in s.db.rows ::
              s.db.rows[a].balance == Opening(s0.db, a) + Net(s.db.ledger[|s0.db.ledger|..], a)
  {
    RunKeepsInv(s0, steps, s);
    LedgerIsTheLog(s0.db, s.log, s.db);
    assert s.db.ledger[|s0.db.ledger|..] == LedgerOf(s.log);
    forall a | a in s.db.rows
      ensures s.db.rows[a].balance == Opening(s0.db, a) + Net(LedgerOf(s.log), a)
    {
      LedgerReplaysBalance(s0.db, s.log, s.db, a);
    }
  }

  /** Committed or not, no balance is ever negative, and money only enters by registration. */
  lemma NoBalanceIsNegative(s0: State, steps: seq<Step>, s: State)
    requires Init(s0) && Run(s0, steps) == Some(s) && Solvent(s0.db.rows)
    ensures Solvent(s.db.rows)
    ensures Total(s.db.rows) == Total(s0.db.rows) + STARTER_BALANCE * Registrations(s.log)
    ensures forall i, a | 0 <= i < |s.clients| && s.clients[i].phase.InTx? && a in s.clients[i].phase.tx.writes ::
              0 <= s.clients[i].phase.tx.writes[a] <= MAX_INT64
  {
    RunKeepsInv(s0, steps, s);
    BalancesStayInRange(s0.db, s.log, s.db);
    MoneyIsConserved(s0.db, s.log, s.db);
    forall i, a | 0 <= i < |s.clients| && s.clients[i].phase.InTx? && a in s.clients[i].phase.tx.writes
      ensures 0 <= s.clients[i].phase.tx.writes[a] <= MAX_INT64
    {
      PendingInRange(s.db, s.parse, s.clients[i], a);
    }
  }

  lemma PendingInRange(db: Db, parse: string -> Option<Uuid>, c: Client, a: Uuid)
    requires InvertsPrinting(parse) && ClientInv(db.rows, parse, c) && Solvent(db.rows)
    requires c.phase.InTx? && a in c.phase.tx.writes
    ensures 0 <= c.phase.tx.writes[a] <= MAX_INT64
  {
    var tx := c.phase.tx;
    if !tx.pc.Lock? {
      VerdictStillStands(db, parse, c);
      WritesInRange(db.rows, c.call, tx, a);
    }
  }

  lemma WritesInRange(rows: map<Uuid, Row>, call: Call, tx: Tx, a: Uuid)
    requires call.fromID in rows && call.toID in rows && call.fromID != call.toID
    requires rows[call.fromID].balance >= call.params.amount > 0
    requires WritesInv(rows, call, tx) && Solvent(rows) && a in tx.writes
    ensures 0 <= tx.writes[a] <= MAX_INT64
  {
  }

  /**
    Between the checks and the commit the two locked rows are distinct, are the rows the request
    names, and still are what was checked: the caller's, and able to pay.
  */
  lemma ChecksHoldUntilCommit(s0: State, steps: seq<Step>, s: State, i: nat)
    requires Init(s0) && Run(s0, steps) == Some(s)
    requires i < |s.clients| && s.clients[i].phase.InTx? && !s.clients[i].phase.tx.pc.Lock?
    ensures var c, call := s.clients[i], s.clients[i].call;
            && {call.fromID, call.toID} <= Held(c) && call.fromID != call.toID
            && Named(s.db.rows, call.params.from, call.fromID) && Named(s.db.rows, call.params.to, call.toID)
            && UuidString(s.db.rows[call.fromID].owner) == call.params.sessionUser
            && s.db.rows[call.fromID].balance >= call.params.amount
  {
    RunKeepsInv(s0, steps, s);
    assert ClientInv(s.db.rows, s.parse, s.clients[i]);
    VerdictStillStands(s.db, s.parse, s.clients[i]);
  }

  /** So neither update can conflict, and while all the money fits in an int64 neither can overflow. */
  lemma UpdatesCannotFail(s0: State, steps: seq<Step>, s: State, i: nat, debit: bool)
    requires Init(s0) && Run(s0, steps) == Some(s) && CanAct(s, i, Adjust(debit))
    requires Solvent(s0.db.rows) && Total(s0.db.rows) + STARTER_BALANCE * Registrations(s.log) <= MAX_INT64
    ensures Acted(s, i, Adjust(debit)).phase.InTx?
  {
    RunKeepsInv(s0, steps, s);
    BalancesStayInRange(s0.db, s.log, s.db);
    MoneyIsConserved(s0.db, s.log, s.db);
    VerdictStillStands(s.db, s.parse, s.clients[i]);
    NoOverflowWhileTotalFits(s.db, s.clients[i].call);
    CreditFits(s.db, s.clients[i].call);
    HeldRowsAreFresh(s.db.rows, s.parse, s.clients[i]);
  }

  lemma CreditFits(db: Db, call: Call)
    requires SerialTransfer(db, call).Ok?
    ensures db.rows[call.toID].balance + call.params.amount <= MAX_INT64
  {
  }

  lemma HeldRowsAreFresh(rows: map<Uuid, Row>, parse: string -> Option<Uuid>, c: Client)
    requires ClientInv(rows, parse, c) && c.phase.InTx? && Solvent(rows)
    requires c.call.fromID in rows && c.call.toID in rows && rows[c.call.fromID].balance >= c.call.params.amount
    requires rows[c.call.toID].balance + c.call.params.amount <= MAX_INT64
    ensures forall debit | InPc(c, if debit then Debit else Credit) &&
                           (if debit then c.call.fromID else c.call.toID) in c.phase.tx.snap ::
              AdjustedBy(c, rows, debit).phase.InTx?
  {
  }

  /**
    A refused transfer is refused for a serial reason too: an account reported missing was missing
    from the state committed when the attempt began; any other refusal is the serial answer now.
  */
  lemma RefusalsAreSerial(s0: State, steps: seq<Step>, s: State, i: nat, error: Error)
    requires Init(s0) && Run(s0, steps) == Some(s)
    requires CanAct(s, i, Check) && Verdict(s.clients[i].call.params, s.clients[i].phase.tx.items) == Some(error)
    ensures Acted(s, i, Check).phase == Done(Err(error))
    ensures error == AccountNotFound ==>
              var begun := s.clients[i].phase.tx.begun;
              && begun <= |s.log| && Replay(s0.db, s.log[..begun]).Some?
              && SerialTransfer(Replay(s0.db, s.log[..begun]).value, s.clients[i].call) == Err(error)
    ensures error != AccountNotFound ==> SerialTransfer(s.db, s.clients[i].call) == Err(error)
  {
    RunKeepsInv(s0, steps, s);
    RefusalIsSerial(s0.db, s.db, s.log, s.parse, s.clients[i], error);
  }

  lemma RefusalIsSerial(db0: Db, db: Db, log: seq<Event>, parse: string -> Option<Uuid>, c: Client, error: Error)
    requires InvertsPrinting(parse) && ClientInv(db.rows, parse, c) && SnapshotIsPast(db0, log, c)
    requires InPc(c, Lock) && c.phase.tx.todo == [] && Verdict(c.call.params, c.phase.tx.items) == Some(error)
    ensures error == AccountNotFound ==>
              SerialTransfer(Replay(db0, log[..c.phase.tx.begun]).value, c.call) == Err(error)
    ensures error != AccountNotFound ==> SerialTransfer(db, c.call) == Err(error)
  {
    var tx := c.phase.tx;
    LocksAreComplete(db.rows, c, tx);
    VerdictIsSerial(db, tx.snap, c.call, tx.items, parse);
  }

  /**
    One call commits at most once. On success it reports the attempt that committed; every earlier
    attempt failed with a retryable conflict. It gives up exactly when the whole budget failed so.
  */
  lemma OneCallCommitsAtMostOnce(s0: State, steps: seq<Step>, s: State, i: nat)
    requires Init(s0) && Run(s0, steps) == Some(s) && i < |s.clients|
    ensures |CommitsOf(s.log, i)| <= 1
    ensures var c, asked := s.clients[i], s.clients[i].call.params.maxRetries;
            var max := if asked <= 0 then 5 else asked;
            && (forall k | 0 <= k < |c.failures| :: c.failures[k] == Pg("40001") || c.failures[k] == Pg("40P01"))
            && (c.phase.Done? ==>
                  match c.phase.outcome
                  case Ok(r) =>
                    CommitsOf(s.log, i) == [r] && 1 <= r.attempts <= max && |c.failures| == r.attempts - 1
                  case Err(error) =>
                    && CommitsOf(s.log, i) == [] && error != Pg("40001") && error != Pg("40P01")
                    && (error == RetriesExhausted <==> |c.failures| == max))
  {
    RunKeepsInv(s0, steps, s);
    assert ClientInv(s.db.rows, s.parse, s.clients[i]);
  }
}
