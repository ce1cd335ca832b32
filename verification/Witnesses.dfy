/**
 A concrete run on which the guard query as written breaks the freeze accounting:
 one deposit, one withdraw request, and the same request sent again.
 */
module Witnesses {
  import opened Outcomes
  import opened Ledger
  import opened Decimal
  import opened Exchange
  import opened Runs
  import opened FreezeAccounting
  import C = Chain
  import D = Deposits
  import E = SyncEffect
  import H = DepositHistory
  import W = Withdraws

  const ALICE := Account("alice", "")

  const DEPOSIT := ChainTransfer(true, true, "tx", 0, "", false, Some(Wallet(true, true, "alice")), "9")

  const REQUEST := W.Params(ALICE, "4", true, "key")

  const FIRST := Sync(BlockData(1, "h1", "h0"), 1, 1, [DEPOSIT], map[])

  const REPEATED_REQUEST := [FIRST, Create(REQUEST, false), Create(REQUEST, false)]

  lemma Amounts()
    ensures ParseWei("9") == Some(9) && ParseWei("4") == Some(4)
  {
    assert "9"[..0] == "" && "4"[..0] == "";
    assert Value("9") == 9 && Value("4") == 4;
  }

  lemma AfterDeposit()
    ensures var s := Next(START, DepositRef, FIRST);
            Available(s.x.book, ALICE) == 9 && Frozen(s.x.book, ALICE) == 0 && s.x.withdraws == []
  {
    Amounts();
    var capture := D.Capture(D.Key("tx", 0), ALICE, 9, 1);
    assert CaptureOf(DEPOSIT, 1) == Some(capture);
    var desk := DepositDesk(EMPTY);
    assert D.Find(desk.deposits, capture.key) == None;
    EmptyInv();
    D.CaptureKeepsTold(desk, capture, []);
    var t := D.CaptureAndCredit(desk, capture, []).value;
    assert [DEPOSIT][1..] == [];
    assert CaptureAll(desk, [DEPOSIT], 1, map[]) == CaptureAll(t, [], 1, map[]) == Ok(t);
    assert D.DepositFrame(EMPTY.book, t.book);
  }

  lemma AfterRequest()
    ensures var s := Next(Next(START, DepositRef, FIRST), DepositRef, Create(REQUEST, false));
            Available(s.x.book, ALICE) == 5 && |s.x.withdraws| == 1 && s.x.withdraws[0].key == "key"
  {
    Amounts();
    AfterDeposit();
    var s := Next(START, DepositRef, FIRST);
    ApplyMoves(s.x.book, ALICE, FreezeWithdraw(4, 0));
  }

  lemma TwoSteps(a: Step, b: Step, c: Step)
    ensures Run(DepositRef, [a, b, c][..2]) == Next(Next(START, DepositRef, a), DepositRef, b)
  {
    hide Next;
    var steps := [a, b, c];
    assert steps[..2][..1] == [a] && [a][..0] == [];
    RunSplit(DepositRef, steps[..2]);
    RunSplit(DepositRef, [a]);
  }

  lemma ThirdIsLeaky(s: System)
    requires Available(s.x.book, ALICE) == 5 && |s.x.withdraws| == 1 && s.x.withdraws[0].key == "key"
    ensures LeakyCall(s, Create(REQUEST, false))
  {
    Amounts();
  }

  /** Repeating one request leaves 8 frozen where one open request holds 4. */
  lemma RepeatedRequestLeaks()
    ensures !W.NoExcess(WithdrawDesk(Run(DepositRef, REPEATED_REQUEST).x))
  {
    hide Run, Next, LeakyCall;
    var steps := REPEATED_REQUEST;
    AfterRequest();
    TwoSteps(FIRST, Create(REQUEST, false), Create(REQUEST, false));
    ThirdIsLeaky(Run(DepositRef, steps[..2]));
    NoSettlementNoHarm(DepositRef, steps);
    LiteralRunFrozenIsOpenIff(steps);
  }

  // A native transfer and the token transfer logged first by the same transaction.
  const TOKEN_LOG := ChainTransfer(false, true, "tx", 0, "token", true, Some(Wallet(true, true, "alice")), "4")

  const ONE_KEY := [DEPOSIT, TOKEN_LOG]

  /** Both pass the filters, the first is paid, the second never is. */
  lemma SecondTransferOfKeyUnpaid()
    ensures E.Eligible(DEPOSIT) && E.Eligible(TOKEN_LOG)
    ensures SyncBlock(EMPTY, BlockData(1, "h1", "h0"), 1, 1, ONE_KEY, map[]).Ok?
    ensures var x := SyncBlock(EMPTY, BlockData(1, "h1", "h0"), 1, 1, ONE_KEY, map[]).value;
            && Available(x.book, ALICE) == 9 && Available(x.book, Account("alice", "token")) == 0
            && |x.deposits| == 1
  {
    hide SyncBlock, Inv;
    Amounts();
    EmptyInv();
    E.SyncPaysExactly(EMPTY, BlockData(1, "h1", "h0"), 1, 1, ONE_KEY, map[]);
    var none: seq<D.Deposit> := [];
    assert E.PaysNow(none, ONE_KEY, 0);
    assert E.KeyOf(ONE_KEY[0]) == E.KeyOf(ONE_KEY[1]) && E.Eligible(ONE_KEY[0]);
    assert E.SeenBefore(ONE_KEY, 1, D.Key("tx", 0));
    assert !E.PaysNow(none, ONE_KEY, 1);
    forall a ensures E.PaidTo(none, ONE_KEY, a, 2) == if a == ALICE then 9 else 0 {
      assert E.PaidTo(none, ONE_KEY, a, 1) == if a == ALICE then 9 else 0;
    }
    assert |E.NewRows(none, ONE_KEY, 1, 1)| == 1;
    assert |E.NewRows(none, ONE_KEY, 1, 2)| == 1;
  }

  // ---------------------------------------------------------------------
  // A deposit that is orphaned and captured again.
  // ---------------------------------------------------------------------

  const AGAIN := Sync(BlockData(1, "other", "h0"), 1, 1, [DEPOSIT], map[])

  const RECAPTURE := [FIRST, Reorg(2, "other", [0]), AGAIN]

  const KEY := D.Key("tx", 0)

  lemma Captured()
    ensures E.Eligible(DEPOSIT) && E.KeyOf(DEPOSIT) == KEY && E.OwnerOf(DEPOSIT) == ALICE && E.WorthOf(DEPOSIT) == 9
  {
    Amounts();
    assert DEPOSIT.wallet == Some(Wallet(true, true, "alice"));
  }

  lemma FirstCapture()
    ensures var x := Run(WithdrawRef, RECAPTURE[..1]).x;
            && x.deposits == [D.Deposit(KEY, ALICE, 9, 1, D.Credited)] && Available(x.book, ALICE) == 9
            && 1 in x.view.blocks && x.view.blocks[1].hash == "h1" && C.Live(x.view, 1)
  {
    hide SyncBlock, Inv;
    assert RECAPTURE[..1] == [FIRST] && [FIRST][..0] == [];
    RunSplit(WithdrawRef, [FIRST]);
    EmptyInv();
    Captured();
    E.SyncPaysExactly(EMPTY, BlockData(1, "h1", "h0"), 1, 1, [DEPOSIT], map[]);
    SyncView(EMPTY, "h1");
    var none: seq<D.Deposit> := [];
    assert E.PaysNow(none, [DEPOSIT], 0);
    assert E.PaidTo(none, [DEPOSIT], ALICE, 0) == 0;
    assert E.PaidTo(none, [DEPOSIT], ALICE, 1) == 9;
    assert E.NewRows(none, [DEPOSIT], 1, 0) == [];
    assert E.NewRows(none, [DEPOSIT], 1, 1) == [D.Deposit(KEY, ALICE, 9, 1, D.Credited)];
    var x := Run(WithdrawRef, RECAPTURE[..1]).x;
    assert x.deposits[0..] == x.deposits;
  }

  lemma SyncView(x: Tables, hash: string)
    requires Inv(x)
    ensures var r := SyncBlock(x, BlockData(1, hash, "h0"), 1, 1, [DEPOSIT], map[]);
            r.Ok? ==> 1 in r.value.view.blocks && r.value.view.blocks[1].hash == hash && C.Live(r.value.view, 1)
  {
    hide CaptureAll;
    assert C.Bounded(x.view);
    C.SyncKeepsBounded(x.view, 1, hash, "h0", 1);
  }

  lemma ThenOrphaned()
    ensures var x := Run(WithdrawRef, RECAPTURE[..2]).x;
            x.deposits == [D.Deposit(KEY, ALICE, 9, 1, D.Orphaned)] && Available(x.book, ALICE) == 0
  {
    hide HandleReorg, Inv, Sound;
    FirstCapture();
    RunKeepsSysInv(WithdrawRef, RECAPTURE[..1]);
    var x := Run(WithdrawRef, RECAPTURE[..1]).x;
    assert RECAPTURE[..2][..1] == RECAPTURE[..1];
    RunSplit(WithdrawRef, RECAPTURE[..2]);
    assert D.Enumerates([0], x.deposits, 1, 1);
    ReorgCommitsIff(x, 2, "other", [0]);
    NotReversedYet();
    OwedByAlice(x);
    assert forall a :: OwedBack(x, 1, a) <= Available(x.book, a);
    OrphanedRow(x);
  }

  /** What the one credited deposit owes back, and to whom. */
  lemma OwedByAlice(x: Tables)
    requires Inv(x) && x.deposits == [D.Deposit(KEY, ALICE, 9, 1, D.Credited)]
    requires !HasEntry(x.book.entries, DepositRef, 0, DepositReverse)
    ensures forall a :: OwedBack(x, 1, a) == if a == ALICE then 9 else 0
  {
    hide Sound, HasEntry;
    var d, es := x.deposits[0], x.book.entries;
    D.CreditedOnce(es, x.deposits, 0);
    forall a ensures OwedBack(x, 1, a) == if a == ALICE then 9 else 0 {
      assert D.Due(es, x.deposits, 1, a, 0) == 0;
      assert D.Due(es, x.deposits, 1, a, 1) == D.Claim(es, d, 0, a);
    }
  }

  lemma NotReversedYet()
    ensures !H.Reversed(Run(WithdrawRef, RECAPTURE[..1]).x, 0)
  {
    hide Run;
    var steps := RECAPTURE[..1];
    FirstCapture();
    H.NetEffectTellsHistory(WithdrawRef, steps, 0);
    assert steps[..1] == steps && steps[..0] == [];
    assert Run(WithdrawRef, []).x.deposits == [] by { NothingYet(); }
    forall n | 0 <= n <= |steps| ensures !H.OrphanedNow(Run(WithdrawRef, steps[..n]).x, 0) {
      assert n == 0 || n == 1;
    }
  }

  lemma NothingYet()
    ensures Run(WithdrawRef, []) == START
  {
  }

  lemma OrphanedRow(x: Tables)
    requires D.ValidRows([0], x.deposits) && HandleReorg(x, 2, "other", [0]).Ok?
    requires C.DetectsReorg(x.view, 2, "other") && x.deposits == [D.Deposit(KEY, ALICE, 9, 1, D.Credited)]
    ensures HandleReorg(x, 2, "other", [0]).value.deposits == [D.Deposit(KEY, ALICE, 9, 1, D.Orphaned)]
  {
    hide D.ReverseAll;
  }

  lemma RunOfThree(a: Step, b: Step, c: Step)
    ensures Run(WithdrawRef, [a, b, c]) == Next(Run(WithdrawRef, [a, b, c][..2]), WithdrawRef, c)
  {
    hide Next;
    RunSplit(WithdrawRef, [a, b, c]);
  }

  /** At the end the deposit counts as credited, and the money it brought is gone. */
  lemma RecapturedDepositUnpaid()
    ensures var x := Run(WithdrawRef, RECAPTURE).x;
            && x.deposits == [D.Deposit(KEY, ALICE, 9, 1, D.Credited)]
            && Available(x.book, ALICE) == 0 && D.NetEffect(Story(x.book.entries, DepositRef, 0)) == 0
  {
    hide SyncBlock, Inv, D.NetEffect, Run;
    ThenOrphaned();
    RunKeepsSysInv(WithdrawRef, RECAPTURE[..2]);
    var x := Run(WithdrawRef, RECAPTURE[..2]).x;
    RunOfThree(FIRST, Reorg(2, "other", [0]), AGAIN);
    Captured();
    E.SyncPaysExactly(x, BlockData(1, "other", "h0"), 1, 1, [DEPOSIT], map[]);
    assert D.Find(x.deposits, KEY).Some?;
    assert !E.PaysNow(x.deposits, [DEPOSIT], 0);
    assert E.PaidTo(x.deposits, [DEPOSIT], ALICE, 0) == 0;
    assert E.PaidTo(x.deposits, [DEPOSIT], ALICE, 1) == 0;
    assert E.NewRows(x.deposits, [DEPOSIT], 1, 0) == [] && E.NewRows(x.deposits, [DEPOSIT], 1, 1) == [];
    assert E.KeyOf([DEPOSIT][0]) == KEY && E.Eligible([DEPOSIT][0]);
    assert E.SeenBefore([DEPOSIT], 1, KEY);
    var x' := Run(WithdrawRef, RECAPTURE).x;
    assert x'.deposits == x'.deposits[..1] + x'.deposits[1..];
    H.NetEffectTellsHistory(WithdrawRef, RECAPTURE, 0);
    assert H.OrphanedNow(x, 0);
  }

  // ---------------------------------------------------------------------
  // Two callbacks on one transaction.
  // ---------------------------------------------------------------------

  const TWO_REQUESTS := [FIRST, Create(W.Params(ALICE, "4", true, "k1"), true),
                         Create(W.Params(ALICE, "4", true, "k2"), true),
                         Claim(0, 0), SendOk(0, "t1"), Record(0), Claim(0, 1), SendOk(0, "t2"), Record(0)]

  // A failure and a confirmation of the first request both read it before either settles it.
  const CROSSED := TWO_REQUESTS + [ReadConfirmed(0, "t1"), ReadFailed(1, "t1"), Settle(1), Settle(0)]

  function Request(key: string, hash: Option<string>): W.Withdraw
  {
    W.Withdraw(ALICE, 4, if hash.None? then W.Approved else W.Broadcasting, hash, key)
  }

  lemma StepOf(steps: seq<Step>, n: nat)
    requires n < |steps|
    ensures Run(WithdrawRef, steps[..n + 1]) == Next(Run(WithdrawRef, steps[..n]), WithdrawRef, steps[n])
  {
    assert steps[..n + 1][..n] == steps[..n];
    RunSplit(WithdrawRef, steps[..n + 1]);
  }

  lemma DepositLeavesNoRequests()
    ensures var s := Run(WithdrawRef, CROSSED[..1]);
            && Available(s.x.book, ALICE) == 9 && s.x.withdraws == []
            && s.jobs == map[] && s.callbacks == map[]
  {
    hide SyncBlock;
    FirstCapture();
    assert CROSSED[..1] == RECAPTURE[..1] == [FIRST] && [FIRST][..0] == [];
    RunSplit(WithdrawRef, [FIRST]);
    EmptyInv();
    SyncKeepsInv(EMPTY, BlockData(1, "h1", "h0"), 1, 1, [DEPOSIT], map[]);
  }

  lemma BothRequested()
    ensures var s := Run(WithdrawRef, CROSSED[..3]);
            && s.x.withdraws == [Request("k1", None), Request("k2", None)]
            && s.jobs == map[] && s.callbacks == map[]
  {
    hide Run, W.Create;
    DepositLeavesNoRequests();
    Amounts();
    var s := Run(WithdrawRef, CROSSED[..1]);
    StepOf(CROSSED, 1);
    OneMore(WithdrawDesk(s.x), "k1");
    StepOf(CROSSED, 2);
    OneMore(WithdrawDesk(Run(WithdrawRef, CROSSED[..2]).x), "k2");
  }

  lemma OneMore(t: W.Desk, key: string)
    requires Available(t.book, ALICE) >= 4 && key != "" && W.FindKey(t.withdraws, key).None?
    ensures var r := W.Create(t, WithdrawRef, W.Params(ALICE, "4", true, key), true);
            && r.Ok? && r.value.withdraws == t.withdraws + [Request(key, None)]
            && Available(r.value.book, ALICE) == Available(t.book, ALICE) - 4
  {
    Amounts();
    W.CreateIff(t, WithdrawRef, W.Params(ALICE, "4", true, key), true);
  }

  lemma FirstSent()
    ensures var s := Run(WithdrawRef, CROSSED[..6]);
            && s.x.withdraws == [Request("k1", Some("t1")), Request("k2", None)]
            && s.jobs == map[] && s.callbacks == map[]
  {
    hide Run;
    BothRequested();
    StepOf(CROSSED, 3);
    StepOf(CROSSED, 4);
    StepOf(CROSSED, 5);
  }

  lemma BothSent()
    ensures var s := Run(WithdrawRef, CROSSED[..9]);
            && s.x.withdraws == [Request("k1", Some("t1")), Request("k2", Some("t2"))]
            && s.jobs == map[] && s.callbacks == map[]
  {
    hide Run;
    FirstSent();
    StepOf(CROSSED, 6);
    StepOf(CROSSED, 7);
    StepOf(CROSSED, 8);
  }

  lemma BothRead()
    ensures var s := Run(WithdrawRef, CROSSED[..11]);
            && s.x.withdraws == [Request("k1", Some("t1")), Request("k2", Some("t2"))]
            && s.callbacks == map[0 := Callback(0, true), 1 := Callback(0, false)]
  {
    hide Run;
    BothSent();
    var ws := [Request("k1", Some("t1")), Request("k2", Some("t2"))];
    assert W.FindHash(ws, "t1") == Some(0) by { assert ws[..1] == [Request("k1", Some("t1"))]; }
    StepOf(CROSSED, 9);
    StepOf(CROSSED, 10);
  }

  /** Up to the failure nothing is late. */
  lemma UndamagedSoFar()
    ensures HarmFree(WithdrawRef, CROSSED[..12])
  {
    hide Run;
    BothRead();
    var front := CROSSED[..11];
    NoSettlementNoHarm(WithdrawRef, front);
    assert CROSSED[..12][..11] == front;
  }

  lemma FailedFirst()
    ensures var s := Run(WithdrawRef, CROSSED[..12]);
            && s.x.withdraws == [Request("k1", Some("t1")).(status := W.Failed), Request("k2", Some("t2"))]
            && s.callbacks == map[0 := Callback(0, true)]
            && Frozen(s.x.book, ALICE) == 4
  {
    hide Run, W.FailAndUnfreeze, HarmFree;
    BothRead();
    var s := Run(WithdrawRef, CROSSED[..11]);
    NoSettlementNoHarm(WithdrawRef, CROSSED[..11]);
    HarmFreeIff(WithdrawRef, CROSSED[..11]);
    SettlementsCovered(WithdrawRef, CROSSED[..11], 0);
    StepOf(CROSSED, 11);
    SettledRow(s, WithdrawRef, Callback(0, false));
    UndamagedSoFar();
    MeantRunFrozenIsOpenIff(CROSSED[..12]);
    var s' := Run(WithdrawRef, CROSSED[..12]);
    assert s'.x.withdraws == [Request("k1", Some("t1")).(status := W.Failed), Request("k2", Some("t2"))];
    assert W.OpenSum(s'.x.withdraws, ALICE) == 4 by { TwoRows(s'.x.withdraws); }
  }

  lemma TwoRows(ws: seq<W.Withdraw>)
    requires ws == [Request("k1", Some("t1")).(status := W.Failed), Request("k2", Some("t2"))]
    ensures W.OpenSum(ws, ALICE) == 4
  {
    W.OpenSumAppend([], ws[0], ALICE);
    W.OpenSumAppend([ws[0]], ws[1], ALICE);
    assert [] + [ws[0]] == [ws[0]] && [ws[0]] + [ws[1]] == ws;
    assert W.OpenSum([], ALICE) == 0;
  }

  /**
   The confirmation then pays the failed request out of the money frozen for the other one:
   an outcome is overwritten, frozen no longer equals open, and the other request, still
   open, cannot be settled.
   */
  lemma CrossedCallbacksTakeAnothersFunds()
    ensures var t := WithdrawDesk(Run(WithdrawRef, CROSSED).x);
            && |t.withdraws| == 2 && t.withdraws[0].status == W.Confirmed && t.withdraws[1].status == W.Broadcasting
            && !W.NoExcess(t) && Frozen(t.book, ALICE) == 0
            && W.SettleConfirmed(t, WithdrawRef, 1).Err? && W.FailAndUnfreeze(t, WithdrawRef, 1).Err?
  {
    hide Run, HarmFree;
    FailedFirst();
    UndamagedSoFar();
    MeantRunFrozenIsOpenIff(CROSSED[..12]);
    RunKeepsSysInv(WithdrawRef, CROSSED[..12]);
    var s := Run(WithdrawRef, CROSSED[..12]);
    assert CROSSED[..13] == CROSSED;
    StepOf(CROSSED, 12);
    HarmfulIff(s, Settle(0));
    assert CROSSED[..12] == CROSSED[..|CROSSED| - 1];
    assert !HarmFree(WithdrawRef, CROSSED) by { LastIsHarmful(); }
    MeantRunFrozenIsOpenIff(CROSSED);
    AfterLateConfirmation(s);
    var t := WithdrawDesk(Run(WithdrawRef, CROSSED).x);
    StillGuarded();
    CannotSettle(t);
  }

  lemma LastIsHarmful()
    requires Harmful(Run(WithdrawRef, CROSSED[..12]), WithdrawRef, Settle(0))
    ensures !HarmFree(WithdrawRef, CROSSED)
  {
    hide Run;
    assert CROSSED[..|CROSSED| - 1] == CROSSED[..12];
  }

  lemma AfterLateConfirmation(s: System)
    requires s.x.withdraws == [Request("k1", Some("t1")).(status := W.Failed), Request("k2", Some("t2"))]
    requires s.callbacks == map[0 := Callback(0, true)] && Harmful(s, WithdrawRef, Settle(0))
    requires Frozen(s.x.book, ALICE) == 4
    ensures var t := WithdrawDesk(Next(s, WithdrawRef, Settle(0)).x);
            && |t.withdraws| == 2 && t.withdraws[0].status == W.Confirmed
            && t.withdraws[1] == Request("k2", Some("t2")) && Frozen(t.book, ALICE) == 0
  {
    hide HasEntry;
    ApplyMoves(s.x.book, ALICE, DebitWithdraw(4, 0));
  }

  lemma StillGuarded()
    ensures Fresh(Run(WithdrawRef, CROSSED))
  {
    MeantRunLeaksNothing(CROSSED);
  }

  lemma CannotSettle(t: W.Desk)
    requires W.OpenIsFresh(t.book.entries, t.withdraws) && |t.withdraws| == 2
    requires t.withdraws[1] == Request("k2", Some("t2")) && Frozen(t.book, ALICE) == 0
    ensures W.SettleConfirmed(t, WithdrawRef, 1).Err? && W.FailAndUnfreeze(t, WithdrawRef, 1).Err?
  {
    hide HasEntry;
    ApplyMoves(t.book, ALICE, DebitWithdraw(4, 1));
    ApplyMoves(t.book, ALICE, UnfreezeWithdraw(4, 1));
  }
}
