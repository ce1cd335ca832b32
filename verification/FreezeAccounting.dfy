/**
 The freeze accounting of withdraws over whole runs: how far frozen balances can drift from
 what open requests hold, under the guard query as meant and as written, with settlement
 callbacks that read a request before the transaction that settles it. Spans
 internal/exchange/service.go and internal/exchange/store.go.
 */
module FreezeAccounting {
  import opened Outcomes
  import opened Ledger
  import opened Decimal
  import opened Exchange
  import opened Runs
  import D = Deposits
  import C = Chain
  import P = Payments
  import W = Withdraws

  // ---------------------------------------------------------------------
  // The drift, for either guard.
  // ---------------------------------------------------------------------

  /** All that the steps of a run leave frozen beyond what open requests hold. */
  ghost function TotalLeak(guard: RefType, steps: seq<Step>, a: Account): nat
  {
    if |steps| == 0 then 0
    else
      var n := |steps| - 1;
      TotalLeak(guard, steps[..n], a) + Leak(Run(guard, steps[..n]), guard, steps[n], a)
  }

  /** All that late settlements of a run take out of frozen balances. */
  ghost function TotalDraw(guard: RefType, steps: seq<Step>, a: Account): nat
  {
    if |steps| == 0 then 0
    else
      var n := |steps| - 1;
      TotalDraw(guard, steps[..n], a) + Draw(Run(guard, steps[..n]), guard, steps[n], a)
  }

  /**
   In every run, under either guard and for every account, frozen money is what the open
   requests hold, plus all leaks, minus all late withdrawals.
   */
  lemma {:induction false} RunExcess(guard: RefType, steps: seq<Step>, a: Account)
    ensures Frozen(Run(guard, steps).x.book, a) ==
            W.OpenSum(Run(guard, steps).x.withdraws, a) + TotalLeak(guard, steps, a) - TotalDraw(guard, steps, a)
  {
    hide Next, Leak, Draw, Inv, W.OpenSum;
    if |steps| == 0 {
      StartSysInv();
      assert ExcessOf(START, a) == 0;
    } else {
      var n := |steps| - 1;
      RunExcess(guard, steps[..n], a);
      StepExcess(Run(guard, steps[..n]), guard, steps, a);
    }
  }

  lemma StepExcess(s: System, guard: RefType, steps: seq<Step>, a: Account)
    requires |steps| > 0 && s == Run(guard, steps[..|steps| - 1])
    ensures var step := steps[|steps| - 1];
            ExcessOf(Run(guard, steps), a) == ExcessOf(s, a) + Leak(s, guard, step, a) - Draw(s, guard, step, a)
  {
    hide Next, Leak, Draw, Harmful, SettlesLate, Inv;
    RunKeepsSysInv(guard, steps[..|steps| - 1]);
    StepKeepsTables(s, guard, steps[|steps| - 1]);
  }

  /** No late settlement of the run takes money it should not. */
  ghost predicate HarmFree(guard: RefType, steps: seq<Step>)
  {
    |steps| > 0 ==>
      var n := |steps| - 1;
      HarmFree(guard, steps[..n]) && !Harmful(Run(guard, steps[..n]), guard, steps[n])
  }

  /** Without settlements there is nothing to be late. */
  lemma {:induction false} NoSettlementNoHarm(guard: RefType, steps: seq<Step>)
    requires forall i :: 0 <= i < |steps| ==> !steps[i].Settle?
    ensures HarmFree(guard, steps)
  {
    hide Run, Harmful;
    if |steps| > 0 {
      var n := |steps| - 1;
      NoSettlementNoHarm(guard, steps[..n]);
      NotHarmful(Run(guard, steps[..n]), guard, steps[n]);
    }
  }

  ghost predicate NothingDrawn(guard: RefType, steps: seq<Step>) { forall a :: TotalDraw(guard, steps, a) == 0 }

  lemma {:induction false} HarmFreeIff(guard: RefType, steps: seq<Step>)
    ensures HarmFree(guard, steps) <==> NothingDrawn(guard, steps)
  {
    hide Next, Harmful, Draw, Inv;
    if |steps| > 0 {
      var n := |steps| - 1;
      var s := Run(guard, steps[..n]);
      HarmFreeIff(guard, steps[..n]);
      RunKeepsSysInv(guard, steps[..n]);
      DrawIff(s, guard, steps[n]);
      forall a ensures TotalDraw(guard, steps, a) == TotalDraw(guard, steps[..n], a) + Draw(s, guard, steps[n], a) {
      }
      assert HarmFree(guard, steps) <==> HarmFree(guard, steps[..n]) && !Harmful(s, guard, steps[n]);
      hide TotalDraw, HarmFree;
      if NothingDrawn(guard, steps) {
        forall a ensures TotalDraw(guard, steps[..n], a) == 0 && Draw(s, guard, steps[n], a) == 0 {
          assert TotalDraw(guard, steps, a) == 0;
        }
        assert NothingDrawn(guard, steps[..n]);
      }
      if HarmFree(guard, steps) {
        forall a ensures TotalDraw(guard, steps, a) == 0 {
          assert TotalDraw(guard, steps[..n], a) == 0;
        }
        assert NothingDrawn(guard, steps);
      }
    }
  }

  lemma DrawIff(s: System, guard: RefType, step: Step)
    requires SysInv(s)
    ensures Harmful(s, guard, step) <==> exists a :: Draw(s, guard, step, a) > 0
  {
    hide Inv, Owned, SentOnce, HasEntry;
    if Harmful(s, guard, step) {
      var w := s.x.withdraws[s.callbacks[step.cb].id];
      AmountsPositive(s.x, s.callbacks[step.cb].id);
      assert Draw(s, guard, step, w.account) > 0;
    }
  }

  lemma AmountsPositive(x: Tables, id: nat)
    requires Inv(x) && id < |x.withdraws|
    ensures x.withdraws[id].amount > 0
  {
    assert W.RowsOk(x.withdraws);
  }

  /**
   The open requests of an account are covered by its frozen balance exactly when late
   settlements have taken no more from it than leaks have left. Then none of them can fail
   to settle for lack of frozen funds.
   */
  lemma OpenCoveredIff(guard: RefType, steps: seq<Step>, a: Account)
    ensures var s := Run(guard, steps);
            W.OpenSum(s.x.withdraws, a) <= Frozen(s.x.book, a) <==>
            TotalDraw(guard, steps, a) <= TotalLeak(guard, steps, a)
  {
    RunExcess(guard, steps, a);
  }

  /** In a run without harmful late settlements an open request can always be settled. */
  lemma SettlementsCovered(guard: RefType, steps: seq<Step>, id: nat)
    ensures var t := WithdrawDesk(Run(guard, steps).x);
            id < |t.withdraws| && W.Open(t.withdraws[id].status)
            && TotalDraw(guard, steps, t.withdraws[id].account) <= TotalLeak(guard, steps, t.withdraws[id].account) ==>
              && (t.withdraws[id].status == W.PendingReview ==> W.Reject(t, id).Ok?)
              && W.FailAndUnfreeze(t, guard, id).Ok? && W.SettleConfirmed(t, guard, id).Ok?
  {
    hide Run, TotalDraw, TotalLeak, W.OpenSum;
    var t := WithdrawDesk(Run(guard, steps).x);
    if id < |t.withdraws| && W.Open(t.withdraws[id].status)
       && TotalDraw(guard, steps, t.withdraws[id].account) <= TotalLeak(guard, steps, t.withdraws[id].account) {
      RunExcess(guard, steps, t.withdraws[id].account);
      W.SettlingNeverFails(t, guard, id);
    }
  }

  // ---------------------------------------------------------------------
  // The guard query as meant.
  // ---------------------------------------------------------------------

  ghost predicate Fresh(s: System) { W.OpenIsFresh(s.x.book.entries, s.x.withdraws) }

  lemma ElsewhereFresh(x: Tables, x': Tables)
    requires SameWithdraws(x, x') && W.OpenIsFresh(x.book.entries, x.withdraws)
    ensures W.OpenIsFresh(x'.book.entries, x'.withdraws)
  {
    hide W.OpenIsFresh;
    W.FreshElsewhere(x.book.entries, x'.book.entries, x.withdraws);
  }

  lemma ChainStepFresh(s: System, step: Step)
    requires SysInv(s) && Fresh(s) && (step.Sync? || step.Reorg? || step.Pay?)
    ensures Fresh(Next(s, WithdrawRef, step))
  {
    hide Inv, Owned, SentOnce, W.OpenIsFresh, SameWithdraws, SyncBlock, CreatePayment, HandleReorg;
    match step
    case Sync(blk, head, depth, trs, bindings) =>
      SyncKeepsInv(s.x, blk, head, depth, trs, bindings);
      ElsewhereFresh(s.x, Next(s, WithdrawRef, step).x);
    case Reorg(n, parentHash, rows) =>
      if n > 0 && D.Enumerates(rows, s.x.deposits, n - 1, |s.x.deposits|)
         && HandleReorg(s.x, n, parentHash, rows).Ok? {
        if ParentReplaced(s.x, n, parentHash) {
          ReorgCommitsIff(s.x, n, parentHash, rows);
          ElsewhereFresh(s.x, Next(s, WithdrawRef, step).x);
        } else {
          NoReorg(s.x, n, parentHash, rows);
        }
      }
    case Pay(found, payment) =>
      if CreatePayment(s.x, found, payment).Ok? {
        PaymentKeepsInv(s.x, found, payment);
        ElsewhereFresh(s.x, Next(s, WithdrawRef, step).x);
      }
  }

  lemma StatusStepFresh(s: System, step: Step)
    requires SysInv(s) && Fresh(s) && (step.Approve? || step.Claim? || step.Record? || step.Reject?)
    ensures Fresh(Next(s, WithdrawRef, step))
  {
    hide Inv, SentOnce, W.OpenIsFresh, HasEntry, Apply;
    var t := WithdrawDesk(s.x);
    match step
    case Approve(id) =>
      if W.Approve(t, id).Ok? {
        W.FreshAfterStatus(t.book.entries, t.withdraws, id, t.withdraws[id].(status := W.Approved));
      }
    case Claim(worker, id) =>
      if W.ClaimBroadcast(t, id).Ok? {
        W.FreshAfterStatus(t.book.entries, t.withdraws, id, t.withdraws[id].(status := W.Broadcasting));
      }
    case Record(worker) =>
      if AtJob(s, worker, false, false, true) {
        var id, hash := s.jobs[worker].id, s.jobs[worker].hash;
        W.FreshAfterStatus(t.book.entries, t.withdraws, id,
                           t.withdraws[id].(status := W.Broadcasting, txHash := Some(hash)));
      }
    case Reject(id) =>
      if W.Reject(t, id).Ok? {
        W.FreshAfterClose(t, id, W.Rejected, UnfreezeWithdraw(t.withdraws[id].amount, id));
      }
  }

  /** Under the meant guard the journal keeps saying what the guards rely on, and nothing leaks. */
  lemma MeantStep(s: System, step: Step)
    requires SysInv(s) && Fresh(s)
    ensures Fresh(Next(s, WithdrawRef, step))
    ensures forall a :: Leak(s, WithdrawRef, step, a) == 0
  {
    hide Inv, Owned, SentOnce, W.OpenIsFresh, HasEntry, W.CreateLeak, W.FailLeak, W.ConfirmLeak;
    hide SyncBlock, CreatePayment, HandleReorg, W.Create, W.Approve, W.Reject, W.ClaimBroadcast, W.RecordBroadcast;
    hide W.FailAndUnfreeze, W.SettleConfirmed;
    var t := WithdrawDesk(s.x);
    match step
    case Sync(_, _, _, _, _) => ChainStepFresh(s, step);
    case Reorg(_, _, _) => ChainStepFresh(s, step);
    case Pay(_, _) => ChainStepFresh(s, step);
    case Approve(_) => StatusStepFresh(s, step);
    case Claim(_, _) => StatusStepFresh(s, step);
    case Record(_) => StatusStepFresh(s, step);
    case Reject(_) => StatusStepFresh(s, step);
    case Create(request, auto) =>
      if W.Create(t, WithdrawRef, request, auto).Ok? {
        W.FreshAfterCreate(t, request, auto);
      } else {
        NoLeakOnError(t, WithdrawRef, request, auto);
      }
    case Fail(worker) =>
      if AtJob(s, worker, false, true, false) && s.jobs[worker].id < |t.withdraws| {
        MeantFail(t, s.jobs[worker].id);
      }
    case Settle(cb) =>
      if cb in s.callbacks && s.callbacks[cb].id < |t.withdraws| {
        MeantFail(t, s.callbacks[cb].id);
        MeantConfirm(t, s.callbacks[cb].id);
      }
    case _ =>
  }

  lemma MeantFail(t: W.Desk, id: nat)
    requires W.OpenIsFresh(t.book.entries, t.withdraws) && id < |t.withdraws|
    ensures var r := W.FailAndUnfreeze(t, WithdrawRef, id);
            r.Ok? ==> W.OpenIsFresh(r.value.book.entries, r.value.withdraws)
    ensures forall a :: W.FailLeak(t, WithdrawRef, id, a) == 0
  {
    hide HasEntry, W.OpenIsFresh;
    if W.FailAndUnfreeze(t, WithdrawRef, id).Ok? {
      W.FreshAfterFail(t, id);
    } else {
      NothingLeft(t, WithdrawRef, id);
    }
  }

  lemma MeantConfirm(t: W.Desk, id: nat)
    requires W.OpenIsFresh(t.book.entries, t.withdraws) && id < |t.withdraws|
    ensures var r := W.SettleConfirmed(t, WithdrawRef, id);
            r.Ok? ==> W.OpenIsFresh(r.value.book.entries, r.value.withdraws)
    ensures forall a :: W.ConfirmLeak(t, WithdrawRef, id, a) == 0
  {
    hide HasEntry, W.OpenIsFresh;
    if W.SettleConfirmed(t, WithdrawRef, id).Ok? {
      W.FreshAfterConfirm(t, id);
    }
  }

  /** In every run of the meant guard, damaged or not, nothing leaks. */
  lemma {:induction false} MeantRunLeaksNothing(steps: seq<Step>)
    ensures Fresh(Run(WithdrawRef, steps))
    ensures forall a :: TotalLeak(WithdrawRef, steps, a) == 0
  {
    hide Next, Leak, Inv, W.OpenIsFresh;
    if |steps| == 0 {
      StartFresh();
    } else {
      var n := |steps| - 1;
      MeantRunLeaksNothing(steps[..n]);
      RunKeepsSysInv(WithdrawRef, steps[..n]);
      MeantStep(Run(WithdrawRef, steps[..n]), steps[n]);
      forall a ensures TotalLeak(WithdrawRef, steps, a) == 0 {
        assert TotalLeak(WithdrawRef, steps[..n], a) == 0;
      }
    }
  }

  lemma StartFresh()
    ensures Fresh(START)
  {
  }

  /**
   With guards that look under the withdraw's own reference: at the end of any run every
   account's frozen balance is exactly the sum of its open requests if and only if no
   harmful late settlement committed on the way. Without one, every request has one freeze,
   closed by one release or one payout that matches its status.
   */
  lemma MeantRunFrozenIsOpenIff(steps: seq<Step>)
    ensures W.NoExcess(WithdrawDesk(Run(WithdrawRef, steps).x)) <==> HarmFree(WithdrawRef, steps)
    ensures HarmFree(WithdrawRef, steps) ==> WithdrawsTold(Run(WithdrawRef, steps))
  {
    hide Run, TotalLeak, TotalDraw, HarmFree, WithdrawsTold, W.OpenSum;
    HarmFreeIff(WithdrawRef, steps);
    MeantRunLeaksNothing(steps);
    var t := WithdrawDesk(Run(WithdrawRef, steps).x);
    forall a ensures Frozen(t.book, a) == W.OpenSum(t.withdraws, a) - TotalDraw(WithdrawRef, steps, a) {
      RunExcess(WithdrawRef, steps, a);
      assert TotalLeak(WithdrawRef, steps, a) == 0;
    }
    NoExcessIffNoDraw(t, steps);
    if HarmFree(WithdrawRef, steps) {
      HarmFreeIsTold(steps);
    }
  }

  lemma NoExcessIffNoDraw(t: W.Desk, steps: seq<Step>)
    requires forall a :: Frozen(t.book, a) == W.OpenSum(t.withdraws, a) - TotalDraw(WithdrawRef, steps, a)
    ensures W.NoExcess(t) <==> NothingDrawn(WithdrawRef, steps)
  {
    hide TotalDraw, W.OpenSum, Frozen;
    if NothingDrawn(WithdrawRef, steps) {
      forall a ensures Frozen(t.book, a) == W.OpenSum(t.withdraws, a) {
        assert TotalDraw(WithdrawRef, steps, a) == 0;
      }
      assert W.NoExcess(t);
    }
    if W.NoExcess(t) {
      forall a ensures TotalDraw(WithdrawRef, steps, a) == 0 {
        assert Frozen(t.book, a) == W.OpenSum(t.withdraws, a);
      }
      assert NothingDrawn(WithdrawRef, steps);
    }
  }

  lemma {:induction false} HarmFreeIsTold(steps: seq<Step>)
    requires HarmFree(WithdrawRef, steps)
    ensures WithdrawsTold(Run(WithdrawRef, steps))
  {
    hide Next, Inv, Harmful, Leak, Draw, WithdrawsTold, SettlesLate;
    if |steps| == 0 {
      StartSysInv();
    } else {
      var n := |steps| - 1;
      HarmFreeIsTold(steps[..n]);
      RunKeepsSysInv(WithdrawRef, steps[..n]);
      StepKeepsTables(Run(WithdrawRef, steps[..n]), WithdrawRef, steps[n]);
    }
  }

  // ---------------------------------------------------------------------
  // The guard query as written.
  // ---------------------------------------------------------------------

  /**
   The calls on which the query as written goes wrong, in terms a caller can check
   beforehand: repeating a creation whose key is taken while the balance covers it,
   and failing a broadcasting request.
   */
  predicate LeakyCall(s: System, step: Step)
  {
    match step
    case Create(request, _) =>
      && W.ValidParams(request) && W.Existing(s.x.withdraws, request).Some?
      && Available(s.x.book, request.account) >= ParseWei(request.amountText).value
    case Fail(worker) => AtJob(s, worker, false, true, false)
    case Settle(cb) =>
      && cb in s.callbacks && !s.callbacks[cb].confirm && s.callbacks[cb].id < |s.x.withdraws|
      && s.x.withdraws[s.callbacks[cb].id].status == W.Broadcasting
    case _ => false
  }

  lemma Blind(x: Tables, id: nat, t: EntryType)
    requires Inv(x) && RefTypeOf(t) == WithdrawRef
    ensures !HasEntry(x.book.entries, DepositRef, id, t)
  {
    assert Explained(x.book);
    forall i | 0 <= i < |x.book.entries|
      ensures x.book.entries[i].refType == RefTypeOf(x.book.entries[i].entryType)
    {
      assert Recorded(x.book.entries, i);
    }
    W.LiteralGuardIsBlind(x.book.entries, DepositRef, id, t);
  }

  /** Under the query as written a call leaks exactly when it is one of the leaky calls. */
  lemma LiteralLeakIff(s: System, step: Step)
    requires SysInv(s)
    ensures (exists a :: Leak(s, DepositRef, step, a) > 0) <==> LeakyCall(s, step)
  {
    hide Inv, Sound, W.FindHash, W.FindKey, SentOnce, HasEntry;
    var t := WithdrawDesk(s.x);
    match step
    case Create(request, auto) =>
      var existing := W.Existing(t.withdraws, request);
      if existing.Some? {
        Blind(s.x, existing.value, WithdrawFreeze);
      }
      if LeakyCall(s, step) {
        ApplyMoves(t.book, request.account, FreezeWithdraw(ParseWei(request.amountText).value, existing.value));
        assert Leak(s, DepositRef, step, request.account) > 0;
      }
    case Fail(worker) =>
      if LeakyCall(s, step) {
        var id := s.jobs[worker].id;
        Blind(s.x, id, WithdrawFreeze);
        AmountsPositive(s.x, id);
        assert Leak(s, DepositRef, step, t.withdraws[id].account) > 0;
      }
    case Settle(cb) =>
      if cb in s.callbacks {
        var id := s.callbacks[cb].id;
        Blind(s.x, id, WithdrawFreeze);
        Blind(s.x, id, WithdrawDebit);
        HashedRows(s.x, id);
        AmountsPositive(s.x, id);
        if LeakyCall(s, step) {
          assert Leak(s, DepositRef, step, t.withdraws[id].account) > 0;
        }
      }
    case _ =>
  }

  /** No step of the run is a leaky call in the state it meets. */
  ghost predicate LeakFree(steps: seq<Step>)
  {
    |steps| > 0 ==>
      LeakFree(steps[..|steps| - 1]) && !LeakyCall(Run(DepositRef, steps[..|steps| - 1]), steps[|steps| - 1])
  }

  ghost predicate NothingLeaked(steps: seq<Step>) { forall a :: TotalLeak(DepositRef, steps, a) == 0 }

  lemma {:induction false} LeakFreeIff(steps: seq<Step>)
    ensures LeakFree(steps) <==> NothingLeaked(steps)
  {
    hide Next, LeakyCall, Leak, Inv;
    if |steps| > 0 {
      var n := |steps| - 1;
      var s := Run(DepositRef, steps[..n]);
      LeakFreeIff(steps[..n]);
      RunKeepsSysInv(DepositRef, steps[..n]);
      LiteralLeakIff(s, steps[n]);
      forall a
        ensures TotalLeak(DepositRef, steps, a) == TotalLeak(DepositRef, steps[..n], a)
            + Leak(s, DepositRef, steps[n], a)
      {
      }
      assert LeakFree(steps) <==> LeakFree(steps[..n]) && !LeakyCall(s, steps[n]);
      hide TotalLeak, LeakFree;
      if NothingLeaked(steps) {
        forall a ensures TotalLeak(DepositRef, steps[..n], a) == 0 && Leak(s, DepositRef, steps[n], a) == 0 {
          assert TotalLeak(DepositRef, steps, a) == 0;
        }
        assert NothingLeaked(steps[..n]);
      }
      if LeakFree(steps) {
        forall a ensures TotalLeak(DepositRef, steps, a) == 0 {
          assert TotalLeak(DepositRef, steps[..n], a) == 0 && !(Leak(s, DepositRef, steps[n], a) > 0);
        }
        assert NothingLeaked(steps);
      }
    }
  }

  /** On every account late withdrawals have taken exactly what leaks had left. */
  ghost predicate Cancelled(steps: seq<Step>)
  {
    forall a :: TotalLeak(DepositRef, steps, a) == TotalDraw(DepositRef, steps, a)
  }

  /**
   With the guard query as written, a run ends with every frozen balance equal to the sum
   of the open requests exactly when on every account leaks and late withdrawals cancel;
   without harmful late settlements, exactly when it contained no leaky call.
   */
  lemma LiteralRunFrozenIsOpenIff(steps: seq<Step>)
    ensures W.NoExcess(WithdrawDesk(Run(DepositRef, steps).x)) <==> Cancelled(steps)
    ensures HarmFree(DepositRef, steps) ==>
              (W.NoExcess(WithdrawDesk(Run(DepositRef, steps).x)) <==> LeakFree(steps))
  {
    hide Run, TotalLeak, TotalDraw, HarmFree, LeakFree;
    NoExcessIffCancelled(steps);
    HarmFreeIff(DepositRef, steps);
    LeakFreeIff(steps);
    if HarmFree(DepositRef, steps) {
      CancelledIff(steps);
    }
  }

  lemma NoExcessIffCancelled(steps: seq<Step>)
    ensures W.NoExcess(WithdrawDesk(Run(DepositRef, steps).x)) <==> Cancelled(steps)
  {
    hide Run, TotalLeak, TotalDraw, W.OpenSum, Frozen;
    var t := WithdrawDesk(Run(DepositRef, steps).x);
    if Cancelled(steps) {
      forall a ensures Frozen(t.book, a) == W.OpenSum(t.withdraws, a) {
        RunExcess(DepositRef, steps, a);
        assert TotalLeak(DepositRef, steps, a) == TotalDraw(DepositRef, steps, a);
      }
      assert W.NoExcess(t);
    }
    if W.NoExcess(t) {
      forall a ensures TotalLeak(DepositRef, steps, a) == TotalDraw(DepositRef, steps, a) {
        RunExcess(DepositRef, steps, a);
        assert Frozen(t.book, a) == W.OpenSum(t.withdraws, a);
      }
      assert Cancelled(steps);
    }
  }

  lemma CancelledIff(steps: seq<Step>)
    requires NothingDrawn(DepositRef, steps)
    ensures Cancelled(steps) <==> NothingLeaked(steps)
  {
    hide TotalLeak, TotalDraw;
    if Cancelled(steps) {
      forall a ensures TotalLeak(DepositRef, steps, a) == 0 {
        assert TotalLeak(DepositRef, steps, a) == TotalDraw(DepositRef, steps, a)
            && TotalDraw(DepositRef, steps, a) == 0;
      }
      assert NothingLeaked(steps);
    }
    if NothingLeaked(steps) {
      forall a ensures TotalLeak(DepositRef, steps, a) == TotalDraw(DepositRef, steps, a) {
        assert TotalLeak(DepositRef, steps, a) == 0 && TotalDraw(DepositRef, steps, a) == 0;
      }
      assert Cancelled(steps);
    }
  }
}
