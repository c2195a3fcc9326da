/**
  What an interleaved call gets when nobody is in its way: every lock it asks for, and the answer of the
  serial bank. And what the retry loop makes of every fault.
*/
module Alone {
  import opened Integers
  import opened Wrappers
  import opened Uuids
  import opened Serial
  import opened Attempt
  import opened Machine
  import opened Progress

  // ---------- Single steps ----------

  /**
    A row that nobody else holds is granted, as it is committed now, at the level "read-committed"
    always, and at any other exactly when its version is still the snapshot's; otherwise the attempt
    fails with a serialization failure.
  */
  lemma {:induction false} LocksAreGranted(s0: State, steps: seq<Step>, s: State, i: nat)
    requires Init(s0) && Run(s0, steps) == Some(s) && CanAct(s, i, LockNext)
    ensures var c, tx := s.clients[i], s.clients[i].phase.tx;
            var id, row := tx.todo[0], s.db.rows[tx.todo[0]];
            Acted(s, i, LockNext) ==
            if c.call.params.isolation == "read-committed" || row.version == tx.snap[id].version
            then c.(phase := InTx(tx.(todo := tx.todo[1..], items := tx.items + [Item(id, row.owner, row.balance)])))
            else Failed(c, Pg("40001"))
  {
    RunKeepsInv(s0, steps, s);
    assert ClientInv(s.db.rows, s.parse, s.clients[i]);
  }

  /** The retry budget: what the request asks for, or five. */
  lemma BudgetIsFiveByDefault(p: Params)
    ensures p.maxRetries > 0 ==> MaxRetries(p) == p.maxRetries
    ensures p.maxRetries <= 0 ==> MaxRetries(p) == 5
  {
  }

  /**
    An attempt that fails with SQLSTATE 40001 or 40P01 is retried while the budget lasts; any other
    error is the answer at once.
  */
  lemma FaultsAreAnswered(s: State, i: nat, error: Error)
    requires CanAct(s, i, Fault(error))
    ensures var c, budget := s.clients[i], s.clients[i].call.params.maxRetries;
            var after := Acted(s, i, Fault(error));
            && after.call == c.call && after.attempt == c.attempt
            && if error == Pg("40001") || error == Pg("40P01")
               then
                 && after.failures == c.failures + [error]
                 && after.phase == if c.attempt < (if budget <= 0 then 5 else budget) then Backoff
                                   else Done(Err(RetriesExhausted))
               else after.failures == c.failures && after.phase == Done(Err(error))
  {
  }

  /** After the backoff the next attempt starts afresh, or the caller has gone. */
  lemma BackoffIsAnswered(s: State, i: nat)
    requires i < |s.clients| && s.clients[i].phase.Backoff?
    ensures CanAct(s, i, Wake) && CanAct(s, i, Cancel)
    ensures Acted(s, i, Wake) == s.clients[i].(attempt := s.clients[i].attempt + 1, phase := Ready)
    ensures Acted(s, i, Cancel) == s.clients[i].(phase := Done(Err(Canceled)))
  {
  }

  /** Without faults and cancellation there is at most one action a client can take. */
  lemma FaultFreeActionIsUnique(s: State, i: nat, action: Action)
    requires CanAct(s, i, action) && !action.Fault? && !action.Cancel?
    ensures !s.clients[i].phase.Done? && action == NextAction(s.clients[i])
  {
  }

  // ---------- A call on its own ----------

  /** Nobody else holds a row of client `i`. */
  ghost predicate Unhindered(s: State, i: nat)
    requires i < |s.clients|
  {
    forall j | 0 <= j < |s.clients| && j != i ::
      s.clients[i].call.fromID !in Held(s.clients[j]) && s.clients[i].call.toID !in Held(s.clients[j])
  }

  /** At the start of an attempt, or in one that has seen every commit so far. */
  ghost predicate UpToDate(s: State, c: Client) {
    c.phase.Ready? || (c.phase.InTx? && c.phase.tx.snap == s.db.rows)
  }

  /** What the serial bank answers to a call, reported with the number of its attempt. */
  function SerialAnswer(db: Db, c: Client): Result<TransferResult, Error> {
    match SerialTransfer(db, c.call)
    case Ok((_, result)) => Ok(result.(attempts := c.attempt))
    case Err(error) => Err(error)
  }

  function SerialState(db: Db, c: Client): Db {
    match SerialTransfer(db, c.call)
    case Ok((after, _)) => after
    case Err(_) => db
  }

  lemma {:induction false} UnhinderedCanAct(db0: Db, s: State, i: nat)
    requires Inv(db0, s) && i < |s.clients| && Unhindered(s, i) && !s.clients[i].phase.Done?
    ensures CanAct(s, i, NextAction(s.clients[i]))
  {
    var c := s.clients[i];
    assert ClientInv(s.db.rows, s.parse, c);
    forall j | 0 <= j < |s.clients|
      ensures !WaitsFor(s, i, j)
    {
      if WaitsFor(s, i, j) {
        WantedIsRequested(s.db.rows, s.parse, c);
      }
    }
    UnblockedCanAct(db0, s, i);
  }

  lemma WantedIsRequested(rows: map<Uuid, Row>, parse: string -> Option<Uuid>, c: Client)
    requires ClientInv(rows, parse, c) && Wanted(c).Some?
    ensures Wanted(c).value == c.call.fromID || Wanted(c).value == c.call.toID
  {
    var tx := c.phase.tx;
    assert (Ids(tx.items) + tx.todo)[|tx.items|] == tx.todo[0];
  }

  /** One step of such a client: on to the next statement, or to the serial answer. */
  predicate GoesOn(db: Db, c: Client, after: Client) {
    && after.call == c.call && after.attempt == c.attempt
    && if after.phase.Done? then after.phase.outcome == SerialAnswer(db, c)
       else after.phase.InTx? && after.phase.tx.snap == db.rows
  }

  lemma {:induction false} CheckGoesOn(db: Db, parse: string -> Option<Uuid>, c: Client)
    requires InvertsPrinting(parse) && ClientInv(db.rows, parse, c)
    requires InPc(c, Lock) && c.phase.tx.todo == [] && c.phase.tx.snap == db.rows
    ensures GoesOn(db, c, Checked(c))
    ensures Checked(c).phase.Done? ==> SerialAnswer(db, c).Err?
  {
    LocksAreComplete(db.rows, c, c.phase.tx);
    VerdictIsSerial(db, c.phase.tx.snap, c.call, c.phase.tx.items, parse);
    assert db.(rows := db.rows) == db;
  }

  lemma {:induction false} AdjustGoesOn(db: Db, parse: string -> Option<Uuid>, c: Client, debit: bool)
    requires InvertsPrinting(parse) && ClientInv(db.rows, parse, c) && Solvent(db.rows)
    requires InPc(c, if debit then Debit else Credit) && c.phase.tx.snap == db.rows
    requires c.call.fromID in db.rows && c.call.toID in db.rows
    ensures GoesOn(db, c, AdjustedBy(c, db.rows, debit))
    ensures AdjustedBy(c, db.rows, debit).phase.Done? ==> SerialAnswer(db, c).Err?
  {
    VerdictStillStands(db, parse, c);
    OverflowIsSerial(db, c.call);
  }

  lemma OverflowIsSerial(db: Db, call: Call)
    requires SerialTransfer(db, call).Ok? || SerialTransfer(db, call) == Err(Pg(NUMERIC_OUT_OF_RANGE))
    ensures call.toID in db.rows
    ensures db.rows[call.toID].balance + call.params.amount > MAX_INT64 <==> SerialTransfer(db, call).Err?
  {
  }

  lemma LockGoesOn(db: Db, c: Client)
    requires Wanted(c).Some? && c.phase.tx.snap == db.rows && Wanted(c).value in db.rows
    ensures GoesOn(db, c, LockedNext(c, db.rows)) && LockedNext(c, db.rows).phase.InTx?
  {
  }

  lemma {:induction false} CommitGoesOn(s: State, i: nat)
    requires CanAct(s, i, CommitTx) && InvertsPrinting(s.parse) && ClientInv(s.db.rows, s.parse, s.clients[i])
    ensures GoesOn(s.db, s.clients[i], Acted(s, i, CommitTx)) && Acted(s, i, CommitTx).phase.Done?
    ensures Exec(s, Act(i, CommitTx)).db == SerialState(s.db, s.clients[i])
  {
    CommitAnswers(s.db, s.parse, s.clients[i]);
  }

  lemma {:induction false} CommitAnswers(db: Db, parse: string -> Option<Uuid>, c: Client)
    requires InvertsPrinting(parse) && Validated(c.call, parse) && InPc(c, Commit) && TxInv(db.rows, c, c.phase.tx)
    ensures SerialAnswer(db, c) == Ok(Receipt(c))
    ensures SerialState(db, c) ==
            Db(db.users, Installed(db.rows, c.phase.tx.writes),
               db.ledger + [LedgerRow(c.call.fromID, c.call.toID, c.call.params.amount)])
  {
    CommitIsSerial(db, parse, c);
  }

  lemma SimpleStepGoesOn(s: State, i: nat, action: Action)
    requires CanAct(s, i, action) && UpToDate(s, s.clients[i]) && (action == Begin || action == InsertLedger)
    ensures GoesOn(s.db, s.clients[i], Acted(s, i, action)) && Acted(s, i, action).phase.InTx?
  {
  }

  lemma {:induction false} StepGoesOn(db0: Db, s: State, i: nat, action: Action)
    requires Inv(db0, s) && Solvent(s.db.rows) && i < |s.clients| && UpToDate(s, s.clients[i])
    requires CanAct(s, i, action) && action == NextAction(s.clients[i])
    ensures GoesOn(s.db, s.clients[i], Acted(s, i, action))
    ensures Acted(s, i, action).phase.Done? ==> Exec(s, Act(i, action)).db == SerialState(s.db, s.clients[i])
  {
    var c := s.clients[i];
    assert ClientInv(s.db.rows, s.parse, c);
    match action
    case LockNext => LockGoesOn(s.db, c);
    case Check => CheckGoesOn(s.db, s.parse, c);
    case Adjust(debit) =>
      VerdictStillStands(s.db, s.parse, c);
      AdjustGoesOn(s.db, s.parse, c, debit);
    case CommitTx => CommitGoesOn(s, i);
    case _ => SimpleStepGoesOn(s, i, action);
  }

  lemma {:induction false} RunStepFirst(s: State, step: Step, mid: State, more: seq<Step>, t: State)
    requires Enabled(s, step) && Exec(s, step) == mid && Run(mid, more) == Some(t)
    ensures Run(s, [step] + more) == Some(t)
    decreases |more|
  {
    var all := [step] + more;
    if more == [] {
      assert all == [step] && all[..0] == [];
    } else {
      var n := |more| - 1;
      RunStepFirst(s, step, mid, more[..n], Run(mid, more[..n]).value);
      assert all[..|all| - 1] == [step] + more[..n] && all[|all| - 1] == more[n];
    }
  }

  /** Only fault-free steps of client `i`. */
  predicate OnlyActs(steps: seq<Step>, i: nat) {
    forall k | 0 <= k < |steps| ::
      steps[k].Act? && steps[k].client == i && !steps[k].action.Fault? && !steps[k].action.Cancel?
  }

  lemma {:induction false} StepShrinksWork(db0: Db, s: State, i: nat, action: Action)
    requires Inv(db0, s) && CanAct(s, i, action)
    ensures Work(Acted(s, i, action)) < Work(s.clients[i])
  {
    assert ClientInv(s.db.rows, s.parse, s.clients[i]);
    TodoIsShort(s.db.rows, s.parse, s.clients[i]);
    ActionWorks(s, i, action);
  }

  /** The state after the next step of client `i`. */
  lemma {:induction false} AloneSteps(db0: Db, s: State, i: nat) returns (action: Action, mid: State)
    requires Inv(db0, s) && Solvent(s.db.rows) && i < |s.clients|
    requires Unhindered(s, i) && UpToDate(s, s.clients[i])
    ensures !action.Fault? && !action.Cancel?
    ensures CanAct(s, i, action) && mid == Exec(s, Act(i, action)) && Inv(db0, mid)
    ensures |mid.clients| == |s.clients| && mid.clients[i] == Acted(s, i, action)
    ensures GoesOn(s.db, s.clients[i], mid.clients[i]) && Work(mid.clients[i]) < Work(s.clients[i])
    ensures mid.clients[i].phase.Done? ==> mid.db == SerialState(s.db, s.clients[i])
    ensures !mid.clients[i].phase.Done? ==> mid.db == s.db && Unhindered(mid, i) && UpToDate(mid, mid.clients[i])
  {
    UnhinderedCanAct(db0, s, i);
    action := NextAction(s.clients[i]);
    mid := Exec(s, Act(i, action));
    StepGoesOn(db0, s, i, action);
    StepKeepsInv(db0, s, Act(i, action));
    StepShrinksWork(db0, s, i, action);
    OnlyCommitsMoveMoney(s, i, action);
  }

  lemma OnlyCommitsMoveMoney(s: State, i: nat, action: Action)
    requires CanAct(s, i, action)
    ensures var mid := Exec(s, Act(i, action));
            && |mid.clients| == |s.clients| && mid.clients[i] == Acted(s, i, action)
            && (forall j | 0 <= j < |s.clients| && j != i :: mid.clients[j] == s.clients[j])
            && (!Acted(s, i, action).phase.Done? ==> mid.db == s.db)
  {
  }

  lemma {:induction false} AloneFinishes(db0: Db, s: State, i: nat) returns (more: seq<Step>, t: State)
    requires Inv(db0, s) && Solvent(s.db.rows) && i < |s.clients|
    requires Unhindered(s, i) && UpToDate(s, s.clients[i])
    ensures OnlyActs(more, i) && Run(s, more) == Some(t) && i < |t.clients|
    ensures t.clients[i].phase == Done(SerialAnswer(s.db, s.clients[i])) && t.db == SerialState(s.db, s.clients[i])
    decreases Work(s.clients[i])
  {
    var action, mid := AloneSteps(db0, s, i);
    more, t := [], mid;
    if !mid.clients[i].phase.Done? {
      more, t := AloneFinishes(db0, mid, i);
      SameAnswer(s.db, s.clients[i], mid.clients[i]);
    }
    RunStepFirst(s, Act(i, action), mid, more, t);
    OneMoreAct(more, i, action);
    more := [Act(i, action)] + more;
  }

  lemma OneMoreAct(steps: seq<Step>, i: nat, action: Action)
    requires OnlyActs(steps, i) && !action.Fault? && !action.Cancel?
    ensures OnlyActs([Act(i, action)] + steps, i)
  {
  }

  lemma SameAnswer(db: Db, c: Client, d: Client)
    requires c.call == d.call && c.attempt == d.attempt
    ensures SerialAnswer(db, c) == SerialAnswer(db, d) && SerialState(db, c) == SerialState(db, d)
  {
  }

  /**
    From every reachable state: a call that is about to start an attempt and whose rows nobody else
    holds is answered, by its own fault-free steps alone, exactly as the serial bank answers it on the
    state committed now. On success the money has moved and the result carries this attempt's number; on
    any error nothing has changed. (`FaultFreeActionIsUnique`: there are no other such steps.)
  */
  lemma {:induction false} AloneIsAnsweredSerially(s0: State, steps: seq<Step>, s: State, i: nat)
    returns (more: seq<Step>, t: State)
    requires Init(s0) && Run(s0, steps) == Some(s) && Solvent(s0.db.rows)
    requires i < |s.clients| && s.clients[i].phase.Ready? && Unhindered(s, i)
    ensures OnlyActs(more, i) && Run(s, more) == Some(t) && i < |t.clients|
    ensures match SerialTransfer(s.db, s.clients[i].call)
            case Ok((after, result)) =>
              t.db == after && t.clients[i].phase == Done(Ok(result.(attempts := s.clients[i].attempt)))
            case Err(error) => t.db == s.db && t.clients[i].phase == Done(Err(error))
  {
    RunKeepsInv(s0, steps, s);
    BalancesStayInRange(s0.db, s.log, s.db);
    more, t := AloneFinishes(s0.db, s, i);
  }
}
