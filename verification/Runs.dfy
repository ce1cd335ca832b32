/**
 The exchange as a running system: the shared tables, any number of broadcast
 workers caught between their transactions, and every interleaving of the
 transactions of all components. Models the competing workers of
 internal/exchange/worker.go and ProcessApprovedWithdraw of
 internal/exchange/service.go.
 */
module Runs {
  import opened Outcomes
  import opened Ledger
  import opened Decimal
  import opened Exchange
  import C = Chain
  import D = Deposits
  import P = Payments
  import W = Withdraws

  /**
   Where a worker is between two transactions: it has claimed a request and not yet
   sent, it must still record a failure, or it must still record the hash it got.
   */
  datatype Job = Holding(id: nat) | Failing(id: nat) | Sent(id: nat, hash: string)

  /** A settlement callback between its read and its transaction: which request, and which outcome. */
  datatype Callback = Callback(id: nat, confirm: bool)

  /** `sends` lists the requests handed to the sender, in order. */
  datatype System = System(x: Tables, jobs: map<nat, Job>, sends: seq<nat>, callbacks: map<nat, Callback>)

  const START := System(EMPTY, map[], [], map[])

  datatype Step =
    | Sync(blk: BlockData, head: nat, depth: nat, trs: seq<ChainTransfer>, bindings: map<string, seq<string>>)
    | Reorg(n: nat, parentHash: string, rows: seq<nat>)
    | Pay(found: Option<P.Merchant>, payment: P.Params)
    | Create(request: W.Params, autoApprove: bool)
    | Approve(id: nat)
    | Reject(id: nat)
    | Claim(worker: nat, id: nat)
    | GiveUp(worker: nat)
    | SendOk(worker: nat, hash: string)
    | SendError(worker: nat)
    | Fail(worker: nat)
    | Record(worker: nat)
    | Crash(worker: nat)
    | ReadConfirmed(cb: nat, hash: string)
    | ReadFailed(cb: nat, hash: string)
    | Settle(cb: nat)
    | Forget(cb: nat)

  function Commit(s: System, r: Result<Tables, Error>): System
  {
    if r.Ok? then s.(x := r.value) else s
  }

  function CommitW(s: System, r: Result<W.Desk, Error>): System
  {
    if r.Ok? then s.(x := PutWithdraws(s.x, r.value)) else s
  }

  predicate AtJob(s: System, worker: nat, holding: bool, failing: bool, sent: bool)
  {
    worker in s.jobs &&
    match s.jobs[worker]
    case Holding(_) => holding
    case Failing(_) => failing
    case Sent(_, _) => sent
  }

  /** The read of a confirmation finds a request by hash and takes it if it is broadcasting or approved. */
  predicate ToConfirm(ws: seq<W.Withdraw>, hash: string)
  {
    && W.FindHash(ws, hash).Some?
    && (ws[W.FindHash(ws, hash).value].status == W.Broadcasting || ws[W.FindHash(ws, hash).value].status == W.Approved)
  }

  /** The read of a failure takes it unless it is failed or confirmed already. */
  predicate ToFail(ws: seq<W.Withdraw>, hash: string)
  {
    && W.FindHash(ws, hash).Some?
    && ws[W.FindHash(ws, hash).value].status != W.Failed && ws[W.FindHash(ws, hash).value].status != W.Confirmed
  }

  /** The transaction of a callback, on the request as it is by then. */
  function SettleResult(s: System, guard: RefType, c: Callback): Result<W.Desk, Error>
    requires c.id < |s.x.withdraws|
  {
    if c.confirm then W.SettleConfirmed(WithdrawDesk(s.x), guard, c.id)
    else W.FailAndUnfreeze(WithdrawDesk(s.x), guard, c.id)
  }

  ghost function Next(s: System, guard: RefType, step: Step): System
  {
    var t := WithdrawDesk(s.x);
    match step
    case Sync(blk, head, depth, trs, bindings) => Commit(s, SyncBlock(s.x, blk, head, depth, trs, bindings))
    case Reorg(n, parentHash, rows) =>
      if n > 0 && D.Enumerates(rows, s.x.deposits, n - 1, |s.x.deposits|)
      then Commit(s, HandleReorg(s.x, n, parentHash, rows)) else s
    case Pay(found, payment) => Commit(s, CreatePayment(s.x, found, payment))
    case Create(request, auto) => CommitW(s, W.Create(t, guard, request, auto))
    case Approve(id) => CommitW(s, W.Approve(t, id))
    case Reject(id) => CommitW(s, W.Reject(t, id))
    case Claim(worker, id) =>
      if worker !in s.jobs && W.ClaimBroadcast(t, id).Ok?
      then CommitW(s, W.ClaimBroadcast(t, id)).(jobs := s.jobs[worker := Holding(id)]) else s
    case GiveUp(worker) =>
      if AtJob(s, worker, true, false, false) then s.(jobs := s.jobs[worker := Failing(s.jobs[worker].id)]) else s
    case SendOk(worker, hash) =>
      if AtJob(s, worker, true, false, false)
      then s.(jobs := s.jobs[worker := Sent(s.jobs[worker].id, hash)], sends := s.sends + [s.jobs[worker].id]) else s
    case SendError(worker) =>
      if AtJob(s, worker, true, false, false)
      then s.(jobs := s.jobs[worker := Failing(s.jobs[worker].id)], sends := s.sends + [s.jobs[worker].id]) else s
    case Fail(worker) =>
      if AtJob(s, worker, false, true, false) && s.jobs[worker].id < |t.withdraws|
      then CommitW(s, W.FailAndUnfreeze(t, guard, s.jobs[worker].id)).(jobs := s.jobs - {worker}) else s
    case Record(worker) =>
      if AtJob(s, worker, false, false, true) && s.jobs[worker].id < |t.withdraws|
      then CommitW(s, Ok(W.RecordBroadcast(t, s.jobs[worker].id, s.jobs[worker].hash))).(jobs := s.jobs - {worker})
      else s
    case Crash(worker) => s.(jobs := s.jobs - {worker})
    case ReadConfirmed(cb, hash) =>
      if cb !in s.callbacks && ToConfirm(t.withdraws, hash)
      then s.(callbacks := s.callbacks[cb := Callback(W.FindHash(t.withdraws, hash).value, true)]) else s
    case ReadFailed(cb, hash) =>
      if cb !in s.callbacks && ToFail(t.withdraws, hash)
      then s.(callbacks := s.callbacks[cb := Callback(W.FindHash(t.withdraws, hash).value, false)]) else s
    case Settle(cb) =>
      if cb in s.callbacks && s.callbacks[cb].id < |t.withdraws|
      then CommitW(s, SettleResult(s, guard, s.callbacks[cb])).(callbacks := s.callbacks - {cb}) else s
    case Forget(cb) => s.(callbacks := s.callbacks - {cb})
  }

  /** The state after a whole run. */
  ghost function Run(guard: RefType, steps: seq<Step>): System
  {
    if |steps| == 0 then START else Next(Run(guard, steps[..|steps| - 1]), guard, steps[|steps| - 1])
  }

  // ---------------------------------------------------------------------
  // Broadcast ownership.
  // ---------------------------------------------------------------------

  /** A claimed request is broadcasting, carries no hash yet, and belongs to one worker. */
  ghost predicate Owned(s: System)
  {
    && (forall w :: w in s.jobs ==>
          && s.jobs[w].id < |s.x.withdraws|
          && s.x.withdraws[s.jobs[w].id].status == W.Broadcasting
          && s.x.withdraws[s.jobs[w].id].txHash == None)
    && (forall v, w :: v in s.jobs && w in s.jobs && v != w ==> s.jobs[v].id != s.jobs[w].id)
  }

  /** No request is handed to the sender twice, nor will be. */
  ghost predicate SentOnce(s: System)
  {
    && (forall i, j :: 0 <= i < j < |s.sends| ==> s.sends[i] != s.sends[j])
    && (forall i :: 0 <= i < |s.sends| ==>
          && s.sends[i] < |s.x.withdraws|
          && W.Rank(s.x.withdraws[s.sends[i]].status) >= 2
          && (forall w :: w in s.jobs && s.jobs[w].Holding? ==> s.jobs[w].id != s.sends[i]))
  }

  /** A callback is about a request that carries a hash, whatever has become of it since the read. */
  ghost predicate CallbacksOk(s: System)
  {
    forall c :: c in s.callbacks ==>
      s.callbacks[c].id < |s.x.withdraws| && s.x.withdraws[s.callbacks[c].id].txHash.Some?
  }

  ghost predicate SysInv(s: System)
  {
    Inv(s.x) && Owned(s) && SentOnce(s) && CallbacksOk(s)
  }

  /** What any step does to the rows of the withdraw table. */
  ghost predicate RowsAdvance(ws: seq<W.Withdraw>, ws': seq<W.Withdraw>)
  {
    && |ws'| >= |ws|
    && (forall i :: 0 <= i < |ws| ==>
          && ws'[i].account == ws[i].account && ws'[i].amount == ws[i].amount
          && W.Rank(ws'[i].status) >= W.Rank(ws[i].status)
          && (ws[i].txHash.Some? ==> ws'[i].txHash == ws[i].txHash))
  }

  /** The step commits the settlement of a request that has been closed since its callback read it. */
  predicate SettlesLate(s: System, guard: RefType, step: Step, id: nat)
  {
    && step.Settle? && step.cb in s.callbacks && s.callbacks[step.cb].id == id && id < |s.x.withdraws|
    && !W.Open(s.x.withdraws[id].status) && SettleResult(s, guard, s.callbacks[step.cb]).Ok?
  }

  /** A late settlement whose guard finds no earlier line of its own kind and whose account has the money frozen. */
  predicate Harmful(s: System, guard: RefType, step: Step)
  {
    && step.Settle? && step.cb in s.callbacks && s.callbacks[step.cb].id < |s.x.withdraws|
    && var c := s.callbacks[step.cb];
       var w := s.x.withdraws[c.id];
       && !W.Open(w.status) && Frozen(s.x.book, w.account) >= w.amount
       && (if c.confirm then !HasEntry(s.x.book.entries, guard, c.id, WithdrawDebit)
           else W.Releases(s.x.book.entries, guard, c.id))
  }

  /** Frozen money the step takes for a request that no longer holds any. */
  function Draw(s: System, guard: RefType, step: Step, a: Account): nat
  {
    if Harmful(s, guard, step) then W.AmountOn(s.x.withdraws[s.callbacks[step.cb].id], a) else 0
  }

  /** Funds the step leaves frozen beyond what open requests hold. */
  function Leak(s: System, guard: RefType, step: Step, a: Account): nat
  {
    var t := WithdrawDesk(s.x);
    match step
    case Create(request, auto) => W.CreateLeak(t, guard, request, auto, a)
    case Fail(worker) =>
      if AtJob(s, worker, false, true, false) && s.jobs[worker].id < |t.withdraws|
      then W.FailLeak(t, guard, s.jobs[worker].id, a) else 0
    case Settle(cb) =>
      if cb !in s.callbacks || s.callbacks[cb].id >= |t.withdraws| then 0
      else if s.callbacks[cb].confirm then W.ConfirmLeak(t, guard, s.callbacks[cb].id, a)
      else W.FailLeak(t, guard, s.callbacks[cb].id, a)
    case _ => 0
  }

  function ExcessOf(s: System, a: Account): int { W.Excess(WithdrawDesk(s.x), a) }

  ghost predicate WithdrawsTold(s: System) { W.AllTold(s.x.book.entries, s.x.withdraws) }

  /** A request with an outcome keeps it, unless the step settles it late. */
  ghost predicate OutcomesKept(s: System, s': System, guard: RefType, step: Step)
    requires |s'.x.withdraws| >= |s.x.withdraws|
  {
    forall i :: 0 <= i < |s.x.withdraws| && W.Rank(s.x.withdraws[i].status) == 3 ==>
      s'.x.withdraws[i] == s.x.withdraws[i] || SettlesLate(s, guard, step, i)
  }

  /** The tables part of one step: invariants kept, rows advance, excess moves by leak and draw and nothing else. */
  ghost predicate StepFacts(s: System, s': System, guard: RefType, step: Step)
  {
    && Inv(s'.x)
    && RowsAdvance(s.x.withdraws, s'.x.withdraws)
    && OutcomesKept(s, s', guard, step)
    && (forall a :: ExcessOf(s', a) == ExcessOf(s, a) + Leak(s, guard, step, a) - Draw(s, guard, step, a))
    && (guard == WithdrawRef && WithdrawsTold(s) && !Harmful(s, guard, step) ==> WithdrawsTold(s'))
  }

  /** A step that leaves the withdraw side as it was. */
  lemma ElsewhereFacts(s: System, s': System, guard: RefType, step: Step)
    requires Inv(s'.x) && SameWithdraws(s.x, s'.x)
    requires !Harmful(s, guard, step) && forall a :: Leak(s, guard, step, a) == 0
    ensures StepFacts(s, s', guard, step) && s'.x.withdraws == s.x.withdraws
  {
    hide Inv, W.OpenSum, Leak, Harmful, SettlesLate;
    NoDraw(s, guard, step);
    hide Draw;
  }

  lemma NoLeak(s: System, guard: RefType, step: Step)
    requires !step.Create? && !step.Fail? && !step.Settle?
    ensures !Harmful(s, guard, step) && forall a :: Leak(s, guard, step, a) == 0
  {
  }

  /** A step that leaves all tables as they were. */
  lemma IdleFacts(s: System, s': System, guard: RefType, step: Step)
    requires Inv(s.x) && s'.x == s.x
    requires !Harmful(s, guard, step) && forall a :: Leak(s, guard, step, a) == 0
    ensures StepFacts(s, s', guard, step)
  {
    hide Inv, StepFacts, SameWithdraws, Leak, Harmful;
    Unmoved(s.x);
    ElsewhereFacts(s, s', guard, step);
  }

  lemma ChainStepFacts(s: System, guard: RefType, step: Step)
    requires SysInv(s) && (step.Sync? || step.Reorg? || step.Pay?)
    ensures StepFacts(s, Next(s, guard, step), guard, step)
    ensures Next(s, guard, step).x.withdraws == s.x.withdraws
  {
    hide Inv, Owned, SentOnce, StepFacts, SameWithdraws, SyncBlock, CreatePayment, HandleReorg;
    Unmoved(s.x);
    NoLeak(s, guard, step);
    hide Leak, Harmful;
    match step
    case Sync(blk, head, depth, trs, bindings) =>
      SyncKeepsInv(s.x, blk, head, depth, trs, bindings);
      ElsewhereFacts(s, Next(s, guard, step), guard, step);
    case Reorg(n, parentHash, rows) =>
      if n > 0 && D.Enumerates(rows, s.x.deposits, n - 1, |s.x.deposits|) {
        if ParentReplaced(s.x, n, parentHash) {
          ReorgCommitsIff(s.x, n, parentHash, rows);
        } else {
          NoReorg(s.x, n, parentHash, rows);
        }
      }
      ElsewhereFacts(s, Next(s, guard, step), guard, step);
    case Pay(found, payment) =>
      if CreatePayment(s.x, found, payment).Ok? {
        PaymentKeepsInv(s.x, found, payment);
      }
      ElsewhereFacts(s, Next(s, guard, step), guard, step);
  }

  lemma Unmoved(x: Tables)
    ensures SameWithdraws(x, x)
  {
  }

  lemma NoHashBeforeBroadcast(x: Tables, id: nat)
    requires Inv(x) && id < |x.withdraws| && W.Rank(x.withdraws[id].status) < 2
    ensures x.withdraws[id].txHash == None
  {
    assert W.RowsOk(x.withdraws);
  }

  lemma HashedRows(x: Tables, id: nat)
    requires Inv(x) && id < |x.withdraws| && x.withdraws[id].txHash.Some?
    ensures var s := x.withdraws[id].status; s == W.Broadcasting || s == W.Confirmed || s == W.Failed
  {
    assert W.RowsOk(x.withdraws);
  }

  lemma DeskReady(x: Tables)
    requires Inv(x)
    ensures Sound(WithdrawDesk(x).book) && W.RowsOk(WithdrawDesk(x).withdraws)
  {
  }

  /** A committed withdraw transaction carries its local facts over to the whole system. */
  lemma CommitFacts(s: System, s': System, guard: RefType, step: Step, t': W.Desk)
    requires Inv(s.x) && W.Kept(WithdrawDesk(s.x), t') && s'.x == PutWithdraws(s.x, t')
    requires forall a :: W.Excess(t', a) ==
                         W.Excess(WithdrawDesk(s.x), a) + Leak(s, guard, step, a) - Draw(s, guard, step, a)
    requires guard == WithdrawRef && WithdrawsTold(s) && !Harmful(s, guard, step) ==>
               W.AllTold(t'.book.entries, t'.withdraws)
    requires forall i :: 0 <= i < |s.x.withdraws| && W.Rank(s.x.withdraws[i].status) == 3 ==>
               t'.withdraws[i] == s.x.withdraws[i] || SettlesLate(s, guard, step, i)
    ensures StepFacts(s, s', guard, step)
  {
    hide Inv, Leak, Draw, Harmful, SettlesLate, Sound, W.AllTold, W.RowsOk, W.WithdrawFrame;
    WithdrawKeepsInv(s.x, t');
    assert WithdrawDesk(s'.x) == t';
    forall a ensures ExcessOf(s', a) == ExcessOf(s, a) + Leak(s, guard, step, a) - Draw(s, guard, step, a) {
      assert W.Excess(t', a) ==
             W.Excess(WithdrawDesk(s.x), a) + Leak(s, guard, step, a) - Draw(s, guard, step, a);
    }
  }

  lemma CreateFacts(s: System, guard: RefType, step: Step)
    requires SysInv(s) && step.Create?
    ensures StepFacts(s, Next(s, guard, step), guard, step)
    ensures forall i :: 0 <= i < |s.x.withdraws| ==> Next(s, guard, step).x.withdraws[i] == s.x.withdraws[i]
  {
    hide Inv, Sound, W.AllTold, W.RowsOk, W.Create, W.CreateLeak;
    var t := WithdrawDesk(s.x);
    DeskReady(s.x);
    NotHarmful(s, guard, step);
    NoDraw(s, guard, step);
    hide Harmful, Draw, SettlesLate;
    if W.Create(t, guard, step.request, step.autoApprove).Ok? {
      W.CreateStep(t, guard, step.request, step.autoApprove);
      CommitFacts(s, Next(s, guard, step), guard, step, W.Create(t, guard, step.request, step.autoApprove).value);
    } else {
      NoLeakOnError(t, guard, step.request, step.autoApprove);
    }
  }

  lemma NoLeakOnError(t: W.Desk, guard: RefType, request: W.Params, autoApprove: bool)
    requires W.Create(t, guard, request, autoApprove).Err?
    ensures forall a :: W.CreateLeak(t, guard, request, autoApprove, a) == 0
  {
  }

  lemma ReviewFacts(s: System, guard: RefType, step: Step)
    requires SysInv(s) && (step.Approve? || step.Reject?)
    ensures StepFacts(s, Next(s, guard, step), guard, step)
    ensures |Next(s, guard, step).x.withdraws| == |s.x.withdraws|
    ensures forall i :: 0 <= i < |s.x.withdraws| && W.Rank(s.x.withdraws[i].status) >= 2 ==>
              Next(s, guard, step).x.withdraws[i] == s.x.withdraws[i]
  {
    hide Inv, Sound, W.AllTold, W.RowsOk;
    var t := WithdrawDesk(s.x);
    DeskReady(s.x);
    NotHarmful(s, guard, step);
    NoDraw(s, guard, step);
    hide Harmful, Draw, SettlesLate;
    if step.Approve? && W.Approve(t, step.id).Ok? {
      NoHashBeforeBroadcast(s.x, step.id);
      W.StatusStep(t, step.id, t.withdraws[step.id].(status := W.Approved));
      CommitFacts(s, Next(s, guard, step), guard, step, W.Approve(t, step.id).value);
    } else if step.Reject? && W.Reject(t, step.id).Ok? {
      W.RejectStep(t, step.id);
      CommitFacts(s, Next(s, guard, step), guard, step, W.Reject(t, step.id).value);
    }
  }

  lemma ClaimFacts(s: System, guard: RefType, step: Step)
    requires SysInv(s) && step.Claim?
    ensures StepFacts(s, Next(s, guard, step), guard, step)
    ensures |Next(s, guard, step).x.withdraws| == |s.x.withdraws|
    ensures forall i :: 0 <= i < |s.x.withdraws| && step.id != i ==>
              Next(s, guard, step).x.withdraws[i] == s.x.withdraws[i]
  {
    hide Inv, Sound, W.AllTold, W.RowsOk;
    var t := WithdrawDesk(s.x);
    DeskReady(s.x);
    NotHarmful(s, guard, step);
    NoDraw(s, guard, step);
    hide Harmful, Draw, SettlesLate;
    if step.worker !in s.jobs && W.ClaimBroadcast(t, step.id).Ok? {
      NoHashBeforeBroadcast(s.x, step.id);
      W.StatusStep(t, step.id, t.withdraws[step.id].(status := W.Broadcasting));
      CommitFacts(s, Next(s, guard, step), guard, step, W.ClaimBroadcast(t, step.id).value);
    }
  }

  lemma FailFacts(s: System, guard: RefType, step: Step)
    requires SysInv(s) && step.Fail?
    ensures StepFacts(s, Next(s, guard, step), guard, step)
    ensures |Next(s, guard, step).x.withdraws| == |s.x.withdraws|
    ensures forall i :: 0 <= i < |s.x.withdraws| && (step.worker in s.jobs ==> s.jobs[step.worker].id != i) ==>
              Next(s, guard, step).x.withdraws[i] == s.x.withdraws[i]
  {
    hide Inv, SentOnce, Sound, W.AllTold, W.RowsOk, HasEntry, W.FailDraw, W.FailLeak, StepFacts, W.Excess;
    var t, s' := WithdrawDesk(s.x), Next(s, guard, step);
    DeskReady(s.x);
    NotHarmful(s, guard, step);
    NoDraw(s, guard, step);
    hide Harmful, Draw, SettlesLate;
    if AtJob(s, step.worker, false, true, false) {
      var id := s.jobs[step.worker].id;
      if W.FailAndUnfreeze(t, guard, id).Ok? {
        W.FailStep(t, guard, id);
        OwnFunds(t, guard, id);
        FailedRow(t, guard, id);
        hide W.FailAndUnfreeze;
        CommitFacts(s, s', guard, step, W.FailAndUnfreeze(t, guard, id).value);
      } else {
        NothingLeft(t, guard, id);
        IdleFacts(s, s', guard, step);
      }
    } else {
      IdleFacts(s, s', guard, step);
    }
  }

  lemma FailedRow(t: W.Desk, guard: RefType, id: nat)
    requires id < |t.withdraws| && W.FailAndUnfreeze(t, guard, id).Ok?
    ensures W.FailAndUnfreeze(t, guard, id).value.withdraws == W.SetStatus(t.withdraws, id, W.Failed)
  {
    hide HasEntry, Apply;
  }

  lemma NothingLeft(t: W.Desk, guard: RefType, id: nat)
    requires id < |t.withdraws| && W.FailAndUnfreeze(t, guard, id).Err?
    ensures forall a :: W.FailLeak(t, guard, id, a) == 0
  {
    hide HasEntry;
  }

  /** Failing an open request takes no more than it holds. */
  lemma OwnFunds(t: W.Desk, guard: RefType, id: nat)
    requires id < |t.withdraws| && W.Open(t.withdraws[id].status)
    ensures forall a :: W.FailDraw(t, guard, id, a) == 0
  {
    hide HasEntry;
  }

  lemma RecordFacts(s: System, guard: RefType, step: Step)
    requires SysInv(s) && step.Record?
    ensures StepFacts(s, Next(s, guard, step), guard, step)
    ensures |Next(s, guard, step).x.withdraws| == |s.x.withdraws|
    ensures forall i :: 0 <= i < |s.x.withdraws| && (step.worker in s.jobs ==> s.jobs[step.worker].id != i) ==>
              Next(s, guard, step).x.withdraws[i] == s.x.withdraws[i]
  {
    hide Inv, Sound, W.AllTold, W.RowsOk;
    var t := WithdrawDesk(s.x);
    DeskReady(s.x);
    NotHarmful(s, guard, step);
    NoDraw(s, guard, step);
    hide Harmful, Draw, SettlesLate;
    if AtJob(s, step.worker, false, false, true) {
      var id, hash := s.jobs[step.worker].id, s.jobs[step.worker].hash;
      W.StatusStep(t, id, t.withdraws[id].(status := W.Broadcasting, txHash := Some(hash)));
      CommitFacts(s, Next(s, guard, step), guard, step, W.RecordBroadcast(t, id, hash));
    }
  }

  /** What a settlement takes and leaves, by whether its request is still open. */
  lemma SettleAmounts(s: System, guard: RefType, step: Step, a: Account)
    requires step.Settle? && step.cb in s.callbacks && s.callbacks[step.cb].id < |s.x.withdraws|
    requires SettleResult(s, guard, s.callbacks[step.cb]).Ok?
    ensures var c := s.callbacks[step.cb];
            Draw(s, guard, step, a) == if c.confirm then W.ConfirmDraw(WithdrawDesk(s.x), guard, c.id, a)
                                       else W.FailDraw(WithdrawDesk(s.x), guard, c.id, a)
  {
    hide HasEntry;
    var c := s.callbacks[step.cb];
    var w := s.x.withdraws[c.id];
    ApplyMoves(s.x.book, w.account, DebitWithdraw(w.amount, c.id));
    ApplyMoves(s.x.book, w.account, UnfreezeWithdraw(w.amount, c.id));
  }

  /** A settlement that does not commit neither takes nor leaves anything. */
  lemma FailedSettlement(s: System, guard: RefType, step: Step)
    requires step.Settle? && step.cb in s.callbacks && s.callbacks[step.cb].id < |s.x.withdraws|
    requires SettleResult(s, guard, s.callbacks[step.cb]).Err?
    ensures !Harmful(s, guard, step) && forall a :: Leak(s, guard, step, a) == 0
  {
    hide HasEntry;
    var c := s.callbacks[step.cb];
    var w := s.x.withdraws[c.id];
    ApplyMoves(s.x.book, w.account, DebitWithdraw(w.amount, c.id));
    ApplyMoves(s.x.book, w.account, UnfreezeWithdraw(w.amount, c.id));
  }

  /** With the journal in order, a settlement does harm exactly when the opposite outcome got in first. */
  lemma HarmfulIff(s: System, step: Step)
    requires SysInv(s) && WithdrawsTold(s) && step.Settle? && step.cb in s.callbacks
    ensures var c := s.callbacks[step.cb];
            var w := s.x.withdraws[c.id];
            Harmful(s, WithdrawRef, step) <==>
            w.status == (if c.confirm then W.Failed else W.Confirmed) && Frozen(s.x.book, w.account) >= w.amount
  {
    hide Inv, Owned, SentOnce, HasEntry;
    var c := s.callbacks[step.cb];
    HashedRows(s.x, c.id);
    W.MeantGuardSees(s.x.book.entries, s.x.withdraws, c.id);
  }

  lemma SettleFacts(s: System, guard: RefType, step: Step)
    requires SysInv(s) && step.Settle?
    ensures StepFacts(s, Next(s, guard, step), guard, step)
    ensures |Next(s, guard, step).x.withdraws| == |s.x.withdraws|
    ensures forall i :: 0 <= i < |s.x.withdraws| && s.x.withdraws[i].txHash == None ==>
              Next(s, guard, step).x.withdraws[i] == s.x.withdraws[i]
  {
    hide Inv, Owned, SentOnce, StepFacts, SettleResult, HasEntry;
    var s' := Next(s, guard, step);
    if step.cb in s.callbacks {
      var c := s.callbacks[step.cb];
      if SettleResult(s, guard, c).Ok? {
        SettledRow(s, guard, c);
        SettleCommits(s, s', guard, step);
      } else {
        FailedSettlement(s, guard, step);
        hide Harmful, Leak;
        IdleFacts(s, s', guard, step);
      }
    } else {
      NotHarmful(s, guard, step);
      IdleFacts(s, s', guard, step);
    }
  }

  lemma SettleCommits(s: System, s': System, guard: RefType, step: Step)
    requires SysInv(s) && step.Settle? && step.cb in s.callbacks && SettleResult(s, guard, s.callbacks[step.cb]).Ok?
    requires s'.x == PutWithdraws(s.x, SettleResult(s, guard, s.callbacks[step.cb]).value)
    ensures StepFacts(s, s', guard, step)
  {
    hide Inv, Owned, SentOnce, Sound, W.AllTold, W.RowsOk, Harmful, HasEntry, W.FailLeak, W.ConfirmLeak;
    hide W.FailDraw, W.ConfirmDraw, Draw, W.Excess, StepFacts, W.SettleConfirmed, W.FailAndUnfreeze, W.Kept;
    var t, c := WithdrawDesk(s.x), s.callbacks[step.cb];
    var t' := SettleResult(s, guard, c).value;
    DeskReady(s.x);
    if c.confirm { W.ConfirmStep(t, guard, c.id); } else { W.FailStep(t, guard, c.id); }
    forall a ensures W.Excess(t', a) == W.Excess(t, a) + Leak(s, guard, step, a) - Draw(s, guard, step, a) {
      SettleAmounts(s, guard, step, a);
    }
    if guard == WithdrawRef && WithdrawsTold(s) && !Harmful(s, guard, step) {
      ToldAfterSettle(s, step);
    }
    SettledRow(s, guard, c);
    CommitFacts(s, s', guard, step, t');
  }

  lemma NotHarmful(s: System, guard: RefType, step: Step)
    requires !step.Settle? || step.cb !in s.callbacks
    ensures !Harmful(s, guard, step)
  {
  }

  lemma NoDraw(s: System, guard: RefType, step: Step)
    requires !Harmful(s, guard, step)
    ensures forall a :: Draw(s, guard, step, a) == 0
  {
  }

  /** A settlement writes the one row of its request. */
  lemma SettledRow(s: System, guard: RefType, c: Callback)
    requires c.id < |s.x.withdraws| && SettleResult(s, guard, c).Ok?
    ensures SettleResult(s, guard, c).value.withdraws ==
            W.SetStatus(s.x.withdraws, c.id, if c.confirm then W.Confirmed else W.Failed)
  {
    hide HasEntry, Apply;
  }

  lemma ToldAfterSettle(s: System, step: Step)
    requires SysInv(s) && WithdrawsTold(s) && step.Settle? && step.cb in s.callbacks
    requires SettleResult(s, WithdrawRef, s.callbacks[step.cb]).Ok? && !Harmful(s, WithdrawRef, step)
    ensures var t' := SettleResult(s, WithdrawRef, s.callbacks[step.cb]).value;
            W.AllTold(t'.book.entries, t'.withdraws)
  {
    hide Inv, Owned, SentOnce, Sound, W.AllTold, W.RowsOk, HasEntry;
    var c := s.callbacks[step.cb];
    var w := s.x.withdraws[c.id];
    DeskReady(s.x);
    HashedRows(s.x, c.id);
    HarmfulIff(s, step);
    W.MeantGuardSees(s.x.book.entries, s.x.withdraws, c.id);
    ApplyMoves(s.x.book, w.account, DebitWithdraw(w.amount, c.id));
    ApplyMoves(s.x.book, w.account, UnfreezeWithdraw(w.amount, c.id));
    if c.confirm {
      W.ConfirmStep(WithdrawDesk(s.x), WithdrawRef, c.id);
    } else {
      W.FailStep(WithdrawDesk(s.x), WithdrawRef, c.id);
    }
  }

  /** Every step, of every component, under either guard. */
  lemma StepKeepsTables(s: System, guard: RefType, step: Step)
    requires SysInv(s)
    ensures StepFacts(s, Next(s, guard, step), guard, step)
  {
    hide Inv, Owned, SentOnce, StepFacts, SyncBlock, HandleReorg, CreatePayment, W.Create, W.Approve, W.Reject;
    hide W.SettleConfirmed, W.FailAndUnfreeze, W.RecordBroadcast, SettleResult;
    match step
    case Sync(_, _, _, _, _) => ChainStepFacts(s, guard, step);
    case Reorg(_, _, _) => ChainStepFacts(s, guard, step);
    case Pay(_, _) => ChainStepFacts(s, guard, step);
    case Create(_, _) => CreateFacts(s, guard, step);
    case Approve(_) => ReviewFacts(s, guard, step);
    case Reject(_) => ReviewFacts(s, guard, step);
    case Claim(_, _) => ClaimFacts(s, guard, step);
    case Fail(_) => FailFacts(s, guard, step);
    case Record(_) => RecordFacts(s, guard, step);
    case Settle(_) => SettleFacts(s, guard, step);
    case _ =>
      NoLeak(s, guard, step);
      IdleFacts(s, Next(s, guard, step), guard, step);
  }

  /**
   A broadcasting request without a hash moves only by the hand of the worker that
   claimed it, so the unconditional writes after a send never overwrite another outcome.
   */
  lemma OnlyTheOwnerMoves(s: System, guard: RefType, step: Step, id: nat)
    requires SysInv(s) && id < |s.x.withdraws|
    requires s.x.withdraws[id].status == W.Broadcasting && s.x.withdraws[id].txHash == None
    ensures id < |Next(s, guard, step).x.withdraws|
    ensures Next(s, guard, step).x.withdraws[id] != s.x.withdraws[id] ==>
              && (step.Fail? || step.Record?)
              && step.worker in s.jobs && s.jobs[step.worker].id == id
  {
    hide Inv, StepFacts;
    match step
    case Sync(_, _, _, _, _) => ChainStepFacts(s, guard, step);
    case Reorg(_, _, _) => ChainStepFacts(s, guard, step);
    case Pay(_, _) => ChainStepFacts(s, guard, step);
    case Create(_, _) => CreateFacts(s, guard, step); CreateGrows(s, guard, step);
    case Approve(_) => ReviewFacts(s, guard, step);
    case Reject(_) => ReviewFacts(s, guard, step);
    case Claim(_, claimed) => ClaimFacts(s, guard, step);
    case Fail(_) => FailFacts(s, guard, step);
    case Record(_) => RecordFacts(s, guard, step);
    case Settle(_) => SettleFacts(s, guard, step);
    case _ =>
  }

  lemma CreateGrows(s: System, guard: RefType, step: Step)
    requires step.Create?
    ensures |Next(s, guard, step).x.withdraws| >= |s.x.withdraws|
  {
  }

  /** A worker's job after a step: the one it had, or a request it has just claimed. */
  lemma JobAfter(s: System, guard: RefType, step: Step, w: nat)
    requires w in Next(s, guard, step).jobs
    ensures var s' := Next(s, guard, step);
            if w in s.jobs
            then
              && s'.jobs[w].id == s.jobs[w].id && (s'.jobs[w].Holding? ==> s.jobs[w].Holding?)
              && ((step.Fail? || step.Record?) && step.worker == w ==> s' == s)
            else
              && step == Claim(w, s'.jobs[w].id)
              && step.id < |s.x.withdraws| && s.x.withdraws[step.id].status == W.Approved
              && s'.x.withdraws == s.x.withdraws[step.id := s.x.withdraws[step.id].(status := W.Broadcasting)]
  {
    hide SyncBlock, HandleReorg, CreatePayment, W.Create, W.Approve, W.Reject;
    hide W.SettleConfirmed, W.FailAndUnfreeze, W.RecordBroadcast;
  }

  lemma StepKeepsOwned(s: System, guard: RefType, step: Step)
    requires SysInv(s)
    ensures Owned(Next(s, guard, step))
  {
    hide Inv, SentOnce, Next;
    var s' := Next(s, guard, step);
    forall w | w in s'.jobs
      ensures s'.jobs[w].id < |s'.x.withdraws|
      ensures s'.x.withdraws[s'.jobs[w].id].status == W.Broadcasting
      ensures s'.x.withdraws[s'.jobs[w].id].txHash == None
    {
      JobAfter(s, guard, step, w);
      if w in s.jobs {
        OnlyTheOwnerMoves(s, guard, step, s.jobs[w].id);
      } else {
        NoHashBeforeBroadcast(s.x, step.id);
      }
    }
    forall v, w | v in s'.jobs && w in s'.jobs && v != w ensures s'.jobs[v].id != s'.jobs[w].id {
      JobAfter(s, guard, step, v);
      JobAfter(s, guard, step, w);
    }
  }

  /** A step hands at most one request to the sender: one its worker held and holds no longer. */
  lemma SendAfter(s: System, guard: RefType, step: Step)
    ensures var s' := Next(s, guard, step);
            || s'.sends == s.sends
            || (&& (step.SendOk? || step.SendError?) && step.worker in s.jobs && s.jobs[step.worker].Holding?
                && s'.sends == s.sends + [s.jobs[step.worker].id] && s'.x == s.x
                && step.worker in s'.jobs && !s'.jobs[step.worker].Holding?)
  {
    hide SyncBlock, HandleReorg, CreatePayment, W.Create, W.Approve, W.Reject;
    hide W.SettleConfirmed, W.FailAndUnfreeze, W.RecordBroadcast, W.ClaimBroadcast;
  }

  /** A request once sent keeps a rank of at least broadcasting and is held by nobody. */
  ghost predicate SentAndGone(s: System, id: nat)
  {
    && id < |s.x.withdraws| && W.Rank(s.x.withdraws[id].status) >= 2
    && (forall w :: w in s.jobs && s.jobs[w].Holding? ==> s.jobs[w].id != id)
  }

  lemma StaysGone(s: System, guard: RefType, step: Step, id: nat)
    requires SysInv(s) && SentAndGone(s, id)
    ensures SentAndGone(Next(s, guard, step), id)
  {
    hide Next, Inv, Owned, SentOnce, Leak, WithdrawsTold, ExcessOf;
    StepKeepsTables(s, guard, step);
    var s' := Next(s, guard, step);
    forall w | w in s'.jobs && s'.jobs[w].Holding? ensures s'.jobs[w].id != id {
      JobAfter(s, guard, step, w);
    }
  }

  lemma StepKeepsSentOnce(s: System, guard: RefType, step: Step)
    requires SysInv(s)
    ensures SentOnce(Next(s, guard, step))
  {
    hide Next, Inv;
    var s' := Next(s, guard, step);
    SendAfter(s, guard, step);
    forall i | 0 <= i < |s.sends| ensures SentAndGone(s', s.sends[i]) {
      assert SentAndGone(s, s.sends[i]);
      StaysGone(s, guard, step, s.sends[i]);
    }
    if s'.sends != s.sends {
      var id := s.jobs[step.worker].id;
      assert SentAndGone(s', id) by {
        forall w | w in s'.jobs && s'.jobs[w].Holding? ensures s'.jobs[w].id != id {
          JobAfter(s, guard, step, w);
        }
      }
      assert forall i :: 0 <= i < |s.sends| ==> s.sends[i] != id;
    }
    forall i | 0 <= i < |s'.sends| ensures SentAndGone(s', s'.sends[i]) {
    }
  }

  lemma StepKeepsCallbacks(s: System, guard: RefType, step: Step)
    requires SysInv(s)
    ensures CallbacksOk(Next(s, guard, step))
  {
    hide Inv, Owned, SentOnce, Leak, Draw, Harmful, SettlesLate, WithdrawsTold, ExcessOf;
    hide SyncBlock, HandleReorg, CreatePayment, W.Create, W.Approve, W.Reject, W.ClaimBroadcast;
    hide W.SettleConfirmed, W.FailAndUnfreeze, W.RecordBroadcast;
    StepKeepsTables(s, guard, step);
  }

  lemma StepKeepsSysInv(s: System, guard: RefType, step: Step)
    requires SysInv(s)
    ensures SysInv(Next(s, guard, step))
  {
    hide Inv;
    StepKeepsTables(s, guard, step);
    StepKeepsOwned(s, guard, step);
    StepKeepsSentOnce(s, guard, step);
    StepKeepsCallbacks(s, guard, step);
  }

  // ---------------------------------------------------------------------
  // Which step may change what of a request.
  // ---------------------------------------------------------------------

  /** The only ways in which a step gives a request another status or hash. */
  ghost predicate Licensed(s: System, step: Step, i: nat, w: W.Withdraw, w': W.Withdraw)
  {
    && w'.account == w.account && w'.amount == w.amount && w'.key == w.key
    && (w'.txHash != w.txHash ==>
          && step.Record? && step.worker in s.jobs && s.jobs[step.worker].Sent? && s.jobs[step.worker].id == i
          && w'.txHash == Some(s.jobs[step.worker].hash))
    && (w'.status != w.status ==>
          match w'.status
          case PendingReview => false
          case Approved => step == Approve(i) && w.status == W.PendingReview
          case Rejected => step == Reject(i) && w.status == W.PendingReview
          case Broadcasting => step.Claim? && step.id == i && w.status == W.Approved
          case Confirmed => step.Settle? && step.cb in s.callbacks && s.callbacks[step.cb] == Callback(i, true)
          case Failed =>
            || (step.Fail? && step.worker in s.jobs && s.jobs[step.worker] == Failing(i))
            || (step.Settle? && step.cb in s.callbacks && s.callbacks[step.cb] == Callback(i, false)))
  }

  /** The rows change as licensed, and a new one comes from a creation, approved exactly when that is automatic. */
  ghost predicate LicensedRows(s: System, step: Step, ws': seq<W.Withdraw>)
  {
    var ws := s.x.withdraws;
    && |ws'| >= |ws|
    && (forall i :: 0 <= i < |ws| ==> Licensed(s, step, i, ws[i], ws'[i]))
    && (forall i :: |ws| <= i < |ws'| ==>
          && step.Create? && ws'[i].status == (if step.autoApprove then W.Approved else W.PendingReview)
          && ws'[i].txHash == None)
  }

  /** One row changed, as licensed. */
  lemma OneLicensed(s: System, step: Step, id: nat, w: W.Withdraw)
    requires id < |s.x.withdraws| && Licensed(s, step, id, s.x.withdraws[id], w)
    ensures LicensedRows(s, step, s.x.withdraws[id := w])
  {
  }

  lemma NoneLicensed(s: System, step: Step)
    ensures LicensedRows(s, step, s.x.withdraws)
  {
  }

  lemma ReviewLicensed(s: System, guard: RefType, step: Step)
    requires SysInv(s) && (step.Create? || step.Approve? || step.Reject? || step.Claim?)
    ensures LicensedRows(s, step, Next(s, guard, step).x.withdraws)
  {
    hide Inv, Owned, SentOnce, CallbacksOk, HasEntry, Apply, LicensedRows;
    hide W.Create, W.Approve, W.Reject, W.ClaimBroadcast;
    var t := WithdrawDesk(s.x);
    NoneLicensed(s, step);
    match step
    case Create(request, auto) =>
      W.CreateIff(t, guard, request, auto);
      if W.Create(t, guard, request, auto).Ok? && !W.KeyTaken(t.withdraws, request.key) {
        var status := if auto then W.Approved else W.PendingReview;
        var amount := ParseWei(request.amountText).value;
        OneMoreLicensed(s, step, W.Withdraw(request.account, amount, status, None, request.key));
      }
    case Approve(id) =>
      W.ApproveIff(t, id);
      if W.Approve(t, id).Ok? { OneLicensed(s, step, id, t.withdraws[id].(status := W.Approved)); }
    case Reject(id) =>
      W.RejectIff(t, id);
      if W.Reject(t, id).Ok? { OneLicensed(s, step, id, t.withdraws[id].(status := W.Rejected)); }
    case Claim(_, id) =>
      W.ClaimIff(t, id);
      if W.ClaimBroadcast(t, id).Ok? { OneLicensed(s, step, id, t.withdraws[id].(status := W.Broadcasting)); }
  }

  lemma OneMoreLicensed(s: System, step: Step, w: W.Withdraw)
    requires step.Create? && w.status == (if step.autoApprove then W.Approved else W.PendingReview) && w.txHash == None
    ensures LicensedRows(s, step, s.x.withdraws + [w])
  {
  }

  lemma OutcomeLicensed(s: System, guard: RefType, step: Step)
    requires SysInv(s) && (step.Fail? || step.Record? || step.Settle?)
    ensures LicensedRows(s, step, Next(s, guard, step).x.withdraws)
  {
    hide Inv, SentOnce, HasEntry, Apply, LicensedRows, W.FailAndUnfreeze, W.SettleConfirmed;
    var t := WithdrawDesk(s.x);
    NoneLicensed(s, step);
    match step
    case Fail(worker) =>
      if AtJob(s, worker, false, true, false) {
        var id := s.jobs[worker].id;
        W.FailIff(t, guard, id);
        OneLicensed(s, step, id, t.withdraws[id].(status := W.Failed));
      }
    case Record(worker) =>
      if AtJob(s, worker, false, false, true) {
        var id := s.jobs[worker].id;
        OneLicensed(s, step, id, t.withdraws[id].(status := W.Broadcasting, txHash := Some(s.jobs[worker].hash)));
      }
    case Settle(cb) =>
      if cb in s.callbacks {
        var c := s.callbacks[cb];
        W.FailIff(t, guard, c.id);
        W.ConfirmIff(t, guard, c.id);
        OneLicensed(s, step, c.id, t.withdraws[c.id].(status := if c.confirm then W.Confirmed else W.Failed));
      }
  }

  /**
   In any run a request changes status only as licensed: approved and rejected by a review of
   a pending one, broadcasting by a claim of an approved one, confirmed by a confirming
   callback, failed by its worker or a failing callback; and it gets a hash from its worker
   alone. A new request comes from a creation, approved exactly when that is automatic.
   */
  lemma StatusChanges(guard: RefType, steps: seq<Step>, n: nat)
    requires n < |steps|
    ensures LicensedRows(Run(guard, steps[..n]), steps[n], Run(guard, steps[..n + 1]).x.withdraws)
  {
    hide Run, SysInv, LicensedRows, SyncBlock, HandleReorg, CreatePayment, StepFacts, AtJob;
    hide W.Create, W.Approve, W.Reject, W.ClaimBroadcast, W.FailAndUnfreeze, W.SettleConfirmed, W.RecordBroadcast;
    var s, step := Run(guard, steps[..n]), steps[n];
    assert steps[..n + 1][..n] == steps[..n];
    RunSplit(guard, steps[..n + 1]);
    RunKeepsSysInv(guard, steps[..n]);
    NoneLicensed(s, step);
    if step.Sync? || step.Reorg? || step.Pay? {
      ChainStepFacts(s, guard, step);
    } else if step.Create? || step.Approve? || step.Reject? || step.Claim? {
      ReviewLicensed(s, guard, step);
    } else if step.Fail? || step.Record? || step.Settle? {
      OutcomeLicensed(s, guard, step);
    }
  }

  /** The read of a callback takes up a request exactly when one with that hash is still broadcasting. */
  lemma ReadsIff(s: System, guard: RefType, step: Step)
    requires SysInv(s) && (step.ReadConfirmed? || step.ReadFailed?) && step.cb !in s.callbacks
    ensures var s', found := Next(s, guard, step), W.FindHash(s.x.withdraws, step.hash);
            && s'.x == s.x && s'.jobs == s.jobs && s'.sends == s.sends
            && s'.callbacks == if found.Some? && s.x.withdraws[found.value].status == W.Broadcasting
                               then s.callbacks[step.cb := Callback(found.value, step.ReadConfirmed?)] else s.callbacks
  {
    hide Inv, Owned, SentOnce;
    var found := W.FindHash(s.x.withdraws, step.hash);
    if found.Some? {
      HashedRows(s.x, found.value);
    }
  }

  // ---------------------------------------------------------------------
  // Whole runs.
  // ---------------------------------------------------------------------

  lemma RunSplit(guard: RefType, steps: seq<Step>)
    requires |steps| > 0
    ensures Run(guard, steps) == Next(Run(guard, steps[..|steps| - 1]), guard, steps[|steps| - 1])
  {
  }

  lemma StartSysInv()
    ensures SysInv(START)
    ensures WithdrawsTold(START) && forall a :: ExcessOf(START, a) == 0
  {
    hide Inv;
    EmptyInv();
  }

  /** In every reachable state of every run, under either guard, all invariants hold. */
  lemma {:induction false} RunKeepsSysInv(guard: RefType, steps: seq<Step>)
    ensures SysInv(Run(guard, steps))
  {
    hide SysInv, Next;
    if |steps| == 0 {
      StartSysInv();
    } else {
      RunKeepsSysInv(guard, steps[..|steps| - 1]);
      StepKeepsSysInv(Run(guard, steps[..|steps| - 1]), guard, steps[|steps| - 1]);
    }
  }

  // ---------------------------------------------------------------------
  // What a reader gets from the invariants, stated over runs.
  // ---------------------------------------------------------------------

  lemma AdvanceTransitive(a: seq<W.Withdraw>, b: seq<W.Withdraw>, c: seq<W.Withdraw>)
    requires RowsAdvance(a, b) && RowsAdvance(b, c)
    ensures RowsAdvance(a, c)
  {
  }

  /** Over any continuation of a run no request is lost, falls back in rank, or loses its hash. */
  lemma {:induction false} RunAdvances(guard: RefType, steps: seq<Step>, n: nat)
    requires n <= |steps|
    ensures RowsAdvance(Run(guard, steps[..n]).x.withdraws, Run(guard, steps).x.withdraws)
    decreases |steps| - n
  {
    hide Next, Inv, RowsAdvance;
    if n == |steps| {
      assert steps[..n] == steps;
      Still(Run(guard, steps).x.withdraws);
    } else {
      RunAdvances(guard, steps, n + 1);
      assert steps[..n + 1][..n] == steps[..n];
      RunSplit(guard, steps[..n + 1]);
      RunKeepsSysInv(guard, steps[..n]);
      StepKeepsTables(Run(guard, steps[..n]), guard, steps[n]);
      AdvanceTransitive(Run(guard, steps[..n]).x.withdraws, Run(guard, steps[..n + 1]).x.withdraws,
                        Run(guard, steps).x.withdraws);
    }
  }

  lemma Still(ws: seq<W.Withdraw>)
    ensures RowsAdvance(ws, ws)
  {
  }

  /** Step `k` of the run commits a late settlement of the request. */
  ghost predicate LateAt(guard: RefType, steps: seq<Step>, k: nat, id: nat)
    requires k < |steps|
  {
    SettlesLate(Run(guard, steps[..k]), guard, steps[k], id)
  }

  /** Over any continuation an outcome is final, unless a late settlement of that request commits. */
  lemma {:induction false} OutcomeFinalUnlessLate(guard: RefType, steps: seq<Step>, n: nat, id: nat)
    requires n <= |steps| && id < |Run(guard, steps[..n]).x.withdraws|
    requires W.Rank(Run(guard, steps[..n]).x.withdraws[id].status) == 3
    ensures id < |Run(guard, steps).x.withdraws|
    ensures Run(guard, steps).x.withdraws[id] == Run(guard, steps[..n]).x.withdraws[id]
            || exists k :: n <= k < |steps| && LateAt(guard, steps, k, id)
    decreases |steps| - n
  {
    hide Next, Inv, SettlesLate, Leak, Draw, Harmful;
    if n == |steps| {
      assert steps[..n] == steps;
    } else {
      assert steps[..n + 1][..n] == steps[..n];
      RunSplit(guard, steps[..n + 1]);
      RunKeepsSysInv(guard, steps[..n]);
      StepKeepsTables(Run(guard, steps[..n]), guard, steps[n]);
      OutcomeFinalUnlessLate(guard, steps, n + 1, id);
      if Run(guard, steps[..n + 1]).x.withdraws[id] != Run(guard, steps[..n]).x.withdraws[id] {
        assert LateAt(guard, steps, n, id);
      }
    }
  }

  /** Each request is handed to the sender at most once in any run, however the workers interleave. */
  lemma SentAtMostOnce(guard: RefType, steps: seq<Step>)
    ensures var sends := Run(guard, steps).sends;
            forall i, j :: 0 <= i < j < |sends| ==> sends[i] != sends[j]
  {
    RunKeepsSysInv(guard, steps);
  }

  /** What has a hash, or is about to get one, has been handed to the sender. */
  ghost predicate HashMeansSent(s: System)
  {
    && (forall w :: w in s.jobs && s.jobs[w].Sent? ==> s.jobs[w].id in s.sends)
    && (forall i :: 0 <= i < |s.x.withdraws| && s.x.withdraws[i].txHash.Some? ==> i in s.sends)
  }

  /** The jobs and sends of one step: a worker that has sent is one that was sending, and the send is listed. */
  lemma SentJobs(s: System, guard: RefType, step: Step)
    ensures var s' := Next(s, guard, step);
            && s.sends <= s'.sends
            && (forall w :: w in s'.jobs && s'.jobs[w].Sent? ==>
                  (w in s.jobs && s.jobs[w] == s'.jobs[w]) || s'.jobs[w].id in s'.sends)
  {
    hide SyncBlock, HandleReorg, CreatePayment, W.Create, W.Approve, W.Reject, SettleResult;
    hide W.FailAndUnfreeze, W.RecordBroadcast, W.ClaimBroadcast;
  }

  /** In every run a request that carries a hash has been handed to the sender, and so exactly once. */
  lemma {:induction false} HashedWereSent(guard: RefType, steps: seq<Step>)
    ensures HashMeansSent(Run(guard, steps))
  {
    hide Next;
    if |steps| > 0 {
      var n := |steps| - 1;
      var s, s' := Run(guard, steps[..n]), Run(guard, steps);
      HashedWereSent(guard, steps[..n]);
      SentJobs(s, guard, steps[n]);
      assert steps[..n + 1] == steps;
      StatusChanges(guard, steps, n);
      forall i | 0 <= i < |s'.x.withdraws| && s'.x.withdraws[i].txHash.Some? ensures i in s'.sends {
        if i < |s.x.withdraws| {
          assert Licensed(s, steps[n], i, s.x.withdraws[i], s'.x.withdraws[i]);
        }
      }
    }
  }

  /** What the platform owes in a token is what came in minus what was taken back or paid out. */
  lemma RunConserves(guard: RefType, steps: seq<Step>, token: string)
    ensures var b := Run(guard, steps).x.book;
            Liabilities(b.accounts, token) ==
            Volume(b.entries, token, DepositCredit) - Volume(b.entries, token, DepositReverse)
            - Volume(b.entries, token, WithdrawDebit)
  {
    hide Next, Liabilities, Volume;
    RunKeepsSysInv(guard, steps);
    var b := Run(guard, steps).x.book;
    assert Conserved(b) && PaymentsBalance(b);
  }

  /** The journal of any run explains all balances, line by line, and never dipped below zero. */
  lemma RunIsExplained(guard: RefType, steps: seq<Step>, n: nat, a: Account)
    requires n <= |Run(guard, steps).x.book.entries|
    ensures Explained(Run(guard, steps).x.book)
    ensures var past := Run(guard, steps).x.book.entries[..n];
            Replay(past, a).available >= 0 && Replay(past, a).frozen >= 0
  {
    hide Next, Replay;
    RunKeepsSysInv(guard, steps);
    NoPrefixNegative(Run(guard, steps).x.book, n, a);
  }

  /** In every run: deposits credited once, reversed at most once, net zero when orphaned, live when credited. */
  lemma RunDeposits(guard: RefType, steps: seq<Step>, id: nat)
    ensures var x := Run(guard, steps).x;
            var story := Story(x.book.entries, DepositRef, id);
            id < |x.deposits| ==>
            && D.Told(x.book.entries, x.deposits[id], id)
            && D.Times(story, DepositCredit) == 1 && D.Times(story, DepositReverse) <= 1
            && (x.deposits[id].status == D.Orphaned ==> D.NetEffect(story) == 0)
            && D.NetEffect(story) ==
               (if HasEntry(x.book.entries, DepositRef, id, DepositReverse) then 0 else x.deposits[id].amount)
            && (x.deposits[id].status == D.Credited ==> C.Live(x.view, x.deposits[id].block))
            && (x.deposits[id].status == D.Credited ==> x.deposits[id].block <= C.Load(x.view).last)
  {
    hide Next;
    RunKeepsSysInv(guard, steps);
    var x := Run(guard, steps).x;
    assert DepositsLive(x.deposits, x.view) && C.Bounded(x.view);
    if id < |x.deposits| {
      D.DepositAccounting(x.book.entries, x.deposits, id);
    }
  }

  /** In every run: payments are unique per order and per key, and each moved its money exactly once. */
  lemma RunPayments(guard: RefType, steps: seq<Step>)
    ensures var x := Run(guard, steps).x;
            && P.UniqueRows(x.payments) && P.AllTold(x.book.entries, x.payments)
            && P.AllNoticed(x.payments, x.outbox, |x.deposits|)
  {
    RunKeepsSysInv(guard, steps);
  }
}
