/** Deadlock freedom and termination of the interleaved machine. */
module Progress {
  import opened Wrappers
  import opened Uuids
  import opened Serial
  import opened Attempt
  import opened Machine

  /** A client holds only rows that rank below the one it waits for. */
  lemma HeldRanksBelowWanted(rows: map<Uuid, Row>, parse: string -> Option<Uuid>, c: Client, id: Uuid)
    requires ClientInv(rows, parse, c) && id in Held(c) && Wanted(c).Some?
    ensures Rank(id) < Rank(Wanted(c).value)
  {
    var tx := c.phase.tx;
    var k :| 0 <= k < |tx.items| && tx.items[k].id == id;
    var order := LockOrder(c.call.fromID, c.call.toID, tx.snap);
    assert order == Ids(tx.items) + tx.todo;
    assert order[k] == id && order[|tx.items|] == Wanted(c).value;
  }

  ghost predicate WaitPath(s: State, path: seq<nat>) {
    forall k | 0 <= k < |path| - 1 :: WaitsFor(s, path[k], path[k + 1])
  }

  lemma {:induction false} RanksClimbAlongWaits(db0: Db, s: State, path: seq<nat>)
    requires Inv(db0, s) && |path| >= 2 && WaitPath(s, path) && path[|path| - 1] < |s.clients|
    requires Wanted(s.clients[path[|path| - 1]]).Some?
    ensures path[0] < |s.clients| && Wanted(s.clients[path[0]]).Some?
    ensures Rank(Wanted(s.clients[path[0]]).value) < Rank(Wanted(s.clients[path[|path| - 1]]).value)
    decreases |path|
  {
    assert WaitsFor(s, path[0], path[1]);
    if |path| > 2 {
      var rest := path[1..];
      forall k | 0 <= k < |rest| - 1
        ensures WaitsFor(s, rest[k], rest[k + 1])
      {
        assert WaitsFor(s, path[k + 1], path[k + 2]);
      }
      RanksClimbAlongWaits(db0, s, rest);
    }
    assert ClientInv(s.db.rows, s.parse, s.clients[path[1]]);
    HeldRanksBelowWanted(s.db.rows, s.parse, s.clients[path[1]], Wanted(s.clients[path[0]]).value);
  }

  /** The waits-for graph has no cycle. */
  lemma {:induction false} NoWaitCycle(s0: State, steps: seq<Step>, s: State, path: seq<nat>)
    requires Init(s0) && Run(s0, steps) == Some(s)
    requires |path| >= 2 && WaitPath(s, path)
    ensures path[0] != path[|path| - 1]
  {
    RunKeepsInv(s0, steps, s);
    if path[0] == path[|path| - 1] {
      assert WaitsFor(s, path[0], path[1]);
      RanksClimbAlongWaits(s0.db, s, path);
    }
  }

  /** The next step of a client that meets no fault. */
  function NextAction(c: Client): (action: Action)
    requires !c.phase.Done?
    ensures !action.Fault? && !action.Cancel?
  {
    match c.phase
    case Ready => Begin
    case Backoff => Wake
    case InTx(tx) =>
      match tx.pc
      case Lock => if tx.todo == [] then Check else LockNext
      case Debit => Adjust(true)
      case Credit => Adjust(false)
      case Record => InsertLedger
      case Commit => CommitTx
  }

  lemma UnblockedCanAct(db0: Db, s: State, i: nat)
    requires Inv(db0, s) && i < |s.clients| && !s.clients[i].phase.Done?
    requires forall j | 0 <= j < |s.clients| :: !WaitsFor(s, i, j)
    ensures CanAct(s, i, NextAction(s.clients[i]))
  {
    var c := s.clients[i];
    assert ClientInv(s.db.rows, s.parse, c);
    if c.phase.InTx? {
      var tx := c.phase.tx;
      assert Ids(tx.items) + tx.todo == LockOrder(c.call.fromID, c.call.toID, tx.snap);
      if tx.todo != [] {
        assert tx.todo[0] in Ids(tx.items) + tx.todo;
      }
      if !tx.pc.Lock? {
        assert c.call.fromID in Ids(tx.items) + tx.todo && c.call.toID in Ids(tx.items) + tx.todo;
      }
    }
  }

  /** From any unfinished client, following the holders of wanted rows leads to one that can step. */
  lemma {:induction false} FollowHolders(db0: Db, s: State, i: nat) returns (runner: nat)
    requires Inv(db0, s) && i < |s.clients| && !s.clients[i].phase.Done?
    ensures runner < |s.clients| && !s.clients[runner].phase.Done?
    ensures CanAct(s, runner, NextAction(s.clients[runner]))
    decreases Pow256(16) - if Wanted(s.clients[i]).Some? then Rank(Wanted(s.clients[i]).value) else Pow256(16)
  {
    if j :| 0 <= j < |s.clients| && WaitsFor(s, i, j) {
      RankBound(Wanted(s.clients[i]).value);
      if Wanted(s.clients[j]).Some? {
        assert ClientInv(s.db.rows, s.parse, s.clients[j]);
        HeldRanksBelowWanted(s.db.rows, s.parse, s.clients[j], Wanted(s.clients[i]).value);
        RankBound(Wanted(s.clients[j]).value);
      }
      runner := FollowHolders(db0, s, j);
    } else {
      runner := i;
      UnblockedCanAct(db0, s, i);
    }
  }

  /** No reachable state is stuck: while some call is unfinished, some unfinished call can step without a fault. */
  lemma {:induction false} SomeTransferCanStep(s0: State, steps: seq<Step>, s: State)
    requires Init(s0) && Run(s0, steps) == Some(s)
    requires exists i | 0 <= i < |s.clients| :: !s.clients[i].phase.Done?
    ensures exists i: nat | i < |s.clients| ::
              !s.clients[i].phase.Done? && CanAct(s, i, NextAction(s.clients[i]))
  {
    RunKeepsInv(s0, steps, s);
    var i :| 0 <= i < |s.clients| && !s.clients[i].phase.Done?;
    var runner := FollowHolders(s0.db, s, i);
  }

  // ---------- Termination ----------

  /** An upper bound on the steps a client can still take. */
  function Work(c: Client): nat {
    var later := if c.attempt < MaxRetries(c.call.params) then MaxRetries(c.call.params) - c.attempt else 0;
    match c.phase
    case Done(_) => 0
    case Backoff => 10 * later + 1
    case Ready => 10 * later + 9
    case InTx(tx) =>
      10 * later +
      match tx.pc
      case Lock => 6 + if |tx.todo| <= 2 then |tx.todo| else 2
      case Debit => 5
      case Credit => 4
      case Record => 3
      case Commit => 2
  }

  function TotalWork(clients: seq<Client>): nat {
    if clients == [] then 0 else TotalWork(clients[..|clients| - 1]) + Work(clients[|clients| - 1])
  }

  lemma FailedWorks(c: Client, error: Error)
    requires c.phase.Ready? || c.phase.InTx?
    ensures Work(Failed(c, error)) < Work(c)
  {
  }

  /** Any transaction step either advances the transaction or fails the attempt. */
  lemma TxStepWorks(c: Client, rows: map<Uuid, Row>)
    requires c.phase.InTx? && |c.phase.tx.todo| <= 2
    ensures Wanted(c).Some? && Wanted(c).value in c.phase.tx.snap && Wanted(c).value in rows ==>
              Work(LockedNext(c, rows)) < Work(c)
    ensures InPc(c, Lock) ==> Work(Checked(c)) < Work(c)
  {
    FailedWorks(c, Pg(SERIALIZATION_FAILURE));
    if Verdict(c.call.params, c.phase.tx.items).Some? {
      FailedWorks(c, Verdict(c.call.params, c.phase.tx.items).value);
    }
  }

  lemma AdjustWorks(c: Client, rows: map<Uuid, Row>, debit: bool)
    requires InPc(c, if debit then Debit else Credit)
    requires var id := if debit then c.call.fromID else c.call.toID; id in rows && id in c.phase.tx.snap
    ensures Work(AdjustedBy(c, rows, debit)) < Work(c)
  {
    FailedWorks(c, Pg(SERIALIZATION_FAILURE));
    FailedWorks(c, Pg(NUMERIC_OUT_OF_RANGE));
  }

  lemma ActionWorks(s: State, i: nat, action: Action)
    requires CanAct(s, i, action)
    requires s.clients[i].phase.InTx? ==> |s.clients[i].phase.tx.todo| <= 2
    requires s.clients[i].phase.Backoff? ==> s.clients[i].attempt < MaxRetries(s.clients[i].call.params)
    ensures Work(Acted(s, i, action)) < Work(s.clients[i])
  {
    var c := s.clients[i];
    match action
    case LockNext => TxStepWorks(c, s.db.rows);
    case Check => TxStepWorks(c, s.db.rows);
    case Adjust(debit) => AdjustWorks(c, s.db.rows, debit);
    case Fault(error) => FailedWorks(c, error);
    case Begin =>
    case InsertLedger =>
    case CommitTx =>
    case Wake =>
    case Cancel =>
  }

  lemma TodoIsShort(rows: map<Uuid, Row>, parse: string -> Option<Uuid>, c: Client)
    requires ClientInv(rows, parse, c)
    ensures c.phase.InTx? ==> |c.phase.tx.todo| <= 2
    ensures c.phase.Backoff? ==> c.attempt < MaxRetries(c.call.params)
  {
    if c.phase.InTx? {
      assert |Ids(c.phase.tx.items) + c.phase.tx.todo| <= 2;
    }
  }

  lemma {:induction false} TotalWorkUpdate(clients: seq<Client>, i: nat, c: Client)
    requires i < |clients|
    ensures TotalWork(clients[i := c]) == TotalWork(clients) - Work(clients[i]) + Work(c)
    decreases |clients|
  {
    var n := |clients| - 1;
    if i < n {
      assert clients[i := c][..n] == clients[..n][i := c];
      TotalWorkUpdate(clients[..n], i, c);
    } else {
      assert clients[i := c][..n] == clients[..n];
    }
  }

  function ActsIn(steps: seq<Step>): nat {
    if steps == [] then 0 else ActsIn(steps[..|steps| - 1]) + if steps[|steps| - 1].Act? then 1 else 0
  }

  /** A client's step brings the whole system closer to the end; a registration changes nothing. */
  lemma StepWorks(db0: Db, s: State, step: Step)
    requires Inv(db0, s) && Enabled(s, step) && !step.Start?
    ensures TotalWork(Exec(s, step).clients) + (if step.Act? then 1 else 0) <= TotalWork(s.clients)
  {
    if step.Act? {
      var c := s.clients[step.client];
      assert ClientInv(s.db.rows, s.parse, c);
      TodoIsShort(s.db.rows, s.parse, c);
      ActionWorks(s, step.client, step.action);
      TotalWorkUpdate(s.clients, step.client, Acted(s, step.client, step.action));
    }
  }

  /**
    Every schedule finishes: without new calls, the clients of a reachable state take at most
    `TotalWork` further steps, whatever faults strike. With `SomeTransferCanStep`, a run that cannot
    be extended has answered every call.
  */
  lemma {:induction false} RunsAreBounded(db0: Db, s: State, steps: seq<Step>, t: State)
    requires Inv(db0, s) && Run(s, steps) == Some(t)
    requires forall k | 0 <= k < |steps| :: !steps[k].Start?
    ensures ActsIn(steps) + TotalWork(t.clients) <= TotalWork(s.clients)
    decreases |steps|
  {
    if steps != [] {
      var init, step := steps[..|steps| - 1], steps[|steps| - 1];
      var mid := Run(s, init).value;
      RunsAreBounded(db0, s, init, mid);
      RunPreserves(db0, s, init, mid);
      StepWorks(db0, mid, step);
    }
  }
}
