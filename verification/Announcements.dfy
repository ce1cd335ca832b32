/**
 Which deposits and payments are announced, over whole runs. Deposits and payments share
 one outbox and its unique key, and a payment's key is chosen by the caller, so each can
 silence the other. Spans internal/webhook/service.go and internal/webhook/store.go.
 */
module Announcements {
  import opened Outcomes
  import opened Ledger
  import opened Decimal
  import opened Exchange
  import opened Runs
  import D = Deposits
  import N = Notices
  import P = Payments
  import W = Withdraws
  import Witnesses

  function NoticeOf(p: P.Params): N.Notice { N.Notice(P.KeyOf(p), p.merchant, N.PaymentSuccess) }

  ghost predicate KeyOfAnnounced(x: Tables, key: string)
  {
    exists id: nat :: id < |x.deposits| && key == N.DepositKey(id) && P.Announced(x.outbox, id)
  }

  // ---------------------------------------------------------------------
  // The outbox over time.
  // ---------------------------------------------------------------------

  lemma {:induction false} CaptureAllAppends(t: D.Desk, trs: seq<ChainTransfer>, n: nat,
                                             bindings: map<string, seq<string>>)
    requires CaptureAll(t, trs, n, bindings).Ok?
    ensures t.outbox <= CaptureAll(t, trs, n, bindings).value.outbox
    decreases |trs|
  {
    hide D.CaptureAndCredit;
    if |trs| > 0 {
      match CaptureOf(trs[0], n)
      case None => CaptureAllAppends(t, trs[1..], n, bindings);
      case Some(p) =>
        var merchants := BoundMerchants(bindings, p.account.user);
        CaptureAppends(t, p, merchants);
        CaptureAllAppends(D.CaptureAndCredit(t, p, merchants).value, trs[1..], n, bindings);
    }
  }

  lemma CaptureAppends(t: D.Desk, p: D.Capture, merchants: seq<string>)
    requires D.CaptureAndCredit(t, p, merchants).Ok?
    ensures t.outbox <= D.CaptureAndCredit(t, p, merchants).value.outbox
  {
    hide Apply, HasEntry;
    var id := if D.Find(t.deposits, p.key).Some? then D.Find(t.deposits, p.key).value else |t.deposits|;
    N.OnlyFirstMerchantEnqueued(t.outbox, merchants, id);
  }

  lemma SyncAppends(x: Tables, blk: BlockData, head: nat, depth: nat, trs: seq<ChainTransfer>,
                    bindings: map<string, seq<string>>)
    ensures var r := SyncBlock(x, blk, head, depth, trs, bindings); r.Ok? ==> x.outbox <= r.value.outbox
  {
    hide CaptureAll;
    if CaptureAll(DepositDesk(x), trs, blk.number, bindings).Ok? {
      CaptureAllAppends(DepositDesk(x), trs, blk.number, bindings);
    }
  }

  lemma PayAppends(x: Tables, found: Option<P.Merchant>, p: P.Params)
    ensures var r := CreatePayment(x, found, p); r.Ok? ==> x.outbox <= r.value.outbox
  {
    hide Transfer, P.Duplicate, ParseWei;
  }

  lemma StepAppends(s: System, guard: RefType, step: Step)
    ensures s.x.outbox <= Next(s, guard, step).x.outbox
  {
    hide SyncBlock, CreatePayment, W.Create, W.Approve, W.Reject, W.SettleConfirmed, W.FailAndUnfreeze;
    hide W.RecordBroadcast, W.ClaimBroadcast;
    match step
    case Sync(blk, head, depth, trs, bindings) => SyncAppends(s.x, blk, head, depth, trs, bindings);
    case Pay(found, payment) => PayAppends(s.x, found, payment);
    case _ =>
  }

  /** The outbox of a run extends the outbox of each of its beginnings. */
  lemma {:induction false} OutboxOnlyGrows(guard: RefType, steps: seq<Step>, n: nat)
    requires n <= |steps|
    ensures Run(guard, steps[..n]).x.outbox <= Run(guard, steps).x.outbox
    decreases |steps| - n
  {
    hide Next;
    if n == |steps| {
      assert steps[..n] == steps;
    } else {
      OutboxOnlyGrows(guard, steps, n + 1);
      assert steps[..n + 1][..n] == steps[..n];
      RunSplit(guard, steps[..n + 1]);
      StepAppends(Run(guard, steps[..n]), guard, steps[n]);
    }
  }

  // ---------------------------------------------------------------------
  // Announced or not, decided at the call and for good.
  // ---------------------------------------------------------------------

  /** The `n`-th step of the run is a payment that goes through for the first time. */
  ghost predicate FirstPayment(guard: RefType, steps: seq<Step>, n: nat)
    requires n < |steps|
  {
    var x := Run(guard, steps[..n]).x;
    && steps[n].Pay? && CreatePayment(x, steps[n].found, steps[n].payment).Ok?
    && !P.Duplicate(x.payments, steps[n].payment)
  }

  /**
   At the end of any run a payment made on the way has its own notice if and only if, when
   it was made, its key was not the key of a deposit announced before.
   */
  lemma PaymentAnnouncedIff(guard: RefType, steps: seq<Step>, n: nat)
    requires n < |steps| && FirstPayment(guard, steps, n)
    ensures NoticeOf(steps[n].payment) in Run(guard, steps).x.outbox <==>
            !KeyOfAnnounced(Run(guard, steps[..n]).x, P.KeyOf(steps[n].payment))
  {
    hide Run, Next, SysInv, P.Duplicate, CreatePayment, Inv;
    var s, p := Run(guard, steps[..n]), steps[n].payment;
    var s' := Run(guard, steps[..n + 1]);
    RunKeepsSysInv(guard, steps[..n]);
    InvOf(s);
    PaymentNoticedIff(s.x, steps[n].found, p);
    assert steps[..n + 1][..n] == steps[..n];
    RunSplit(guard, steps[..n + 1]);
    assert s'.x == CreatePayment(s.x, steps[n].found, p).value by { PayStep(s, guard, steps[n].found, p); }
    RunKeepsSysInv(guard, steps[..n + 1]);
    InvOf(s');
    RunKeepsSysInv(guard, steps);
    InvOf(Run(guard, steps));
    OutboxOnlyGrows(guard, steps, n + 1);
    KeyTaken(s.x, steps[n].found, p);
    SameRow(s'.x.outbox, Run(guard, steps).x.outbox, NoticeOf(p));
  }

  lemma PayStep(s: System, guard: RefType, found: Option<P.Merchant>, p: P.Params)
    requires CreatePayment(s.x, found, p).Ok?
    ensures Next(s, guard, Pay(found, p)).x == CreatePayment(s.x, found, p).value
  {
  }

  lemma InvOf(s: System)
    requires SysInv(s)
    ensures Inv(s.x) && N.UniqueKeys(s.x.outbox)
  {
  }

  lemma KeyTaken(x: Tables, found: Option<P.Merchant>, p: P.Params)
    requires CreatePayment(x, found, p).Ok? && !P.Duplicate(x.payments, p)
    ensures N.HasKey(CreatePayment(x, found, p).value.outbox, P.KeyOf(p))
  {
    hide Transfer, P.Duplicate, ParseWei;
    var outbox := CreatePayment(x, found, p).value.outbox;
    if !N.HasKey(x.outbox, P.KeyOf(p)) {
      assert outbox[|x.outbox|].key == P.KeyOf(p);
    }
  }

  /** Under a unique key nothing can be added to what an earlier outbox says. */
  lemma SameRow(outbox: seq<N.Notice>, outbox': seq<N.Notice>, n: N.Notice)
    requires outbox <= outbox' && N.UniqueKeys(outbox') && N.HasKey(outbox, n.key)
    ensures n in outbox' <==> n in outbox
  {
    var k :| 0 <= k < |outbox| && outbox[k].key == n.key;
    assert outbox'[k] == outbox[k];
    if n in outbox' {
      var j :| 0 <= j < |outbox'| && outbox'[j] == n;
      assert j == k;
    }
  }

  /** Every merchant bound to the owner of deposit `id` has its notice in the outbox. */
  ghost predicate AllTold(outbox: seq<N.Notice>, merchants: seq<string>, id: nat)
  {
    forall m :: m in merchants ==> N.Notified(outbox, m, id)
  }

  /** Once some row has the deposit's key, a longer outbox tells the same merchants. */
  lemma SameNews(outbox: seq<N.Notice>, outbox': seq<N.Notice>, merchants: seq<string>, id: nat)
    requires outbox <= outbox' && N.UniqueKeys(outbox') && (merchants != [] ==> N.HasKey(outbox, N.DepositKey(id)))
    ensures AllTold(outbox', merchants, id) <==> AllTold(outbox, merchants, id)
    ensures merchants != [] ==> N.HasKey(outbox', N.DepositKey(id))
  {
    if merchants != [] {
      forall m ensures N.Notified(outbox', m, id) <==> N.Notified(outbox, m, id) {
        SameRow(outbox, outbox', N.Notice(N.DepositKey(id), m, N.DepositConfirmed));
      }
      var k :| 0 <= k < |outbox| && outbox[k].key == N.DepositKey(id);
      assert outbox'[k] == outbox[k];
    }
  }

  /** Captures keep the owners of the rows there are. */
  lemma CaptureKeepsOwners(t: D.Desk, p: D.Capture, merchants: seq<string>)
    requires D.CaptureAndCredit(t, p, merchants).Ok?
    ensures var ds := D.CaptureAndCredit(t, p, merchants).value.deposits;
            |ds| >= |t.deposits| && forall i :: 0 <= i < |t.deposits| ==> ds[i].account == t.deposits[i].account
  {
    hide Apply, HasEntry;
  }

  lemma {:induction false} CaptureAllKeepsOwners(t: D.Desk, trs: seq<ChainTransfer>, n: nat,
                                                 bindings: map<string, seq<string>>)
    requires CaptureAll(t, trs, n, bindings).Ok?
    ensures var ds := CaptureAll(t, trs, n, bindings).value.deposits;
            |ds| >= |t.deposits| && forall i :: 0 <= i < |t.deposits| ==> ds[i].account == t.deposits[i].account
    decreases |trs|
  {
    hide D.CaptureAndCredit;
    if |trs| > 0 {
      match CaptureOf(trs[0], n)
      case None => CaptureAllKeepsOwners(t, trs[1..], n, bindings);
      case Some(p) =>
        var merchants := BoundMerchants(bindings, p.account.user);
        CaptureKeepsOwners(t, p, merchants);
        CaptureAllKeepsOwners(D.CaptureAndCredit(t, p, merchants).value, trs[1..], n, bindings);
    }
  }

  /** The merchants bound to the owner of row `id` when its block is synced. */
  function MerchantsOf(ds: seq<D.Deposit>, bindings: map<string, seq<string>>, id: nat): seq<string>
    requires id < |ds|
  {
    if ds[id].account.user in bindings then bindings[ds[id].account.user] else []
  }

  /** What a desk says of deposit `id`, given the payments there are. */
  ghost predicate Decided(t: D.Desk, payments: seq<P.Payment>, bindings: map<string, seq<string>>, id: nat)
    requires id < |t.deposits|
  {
    var merchants := MerchantsOf(t.deposits, bindings, id);
    && (merchants != [] ==> N.HasKey(t.outbox, N.DepositKey(id)))
    && (AllTold(t.outbox, merchants, id) <==> Announceable(merchants, payments, id))
  }

  /** Deposits decided so far stay decided while the rest of the block is captured. */
  lemma StaysDecided(t: D.Desk, trs: seq<ChainTransfer>, n: nat, bindings: map<string, seq<string>>,
                     payments: seq<P.Payment>, id: nat)
    requires Sound(t.book) && D.AllTold(t.book.entries, t.deposits)
    requires P.AllNoticed(payments, t.outbox, |t.deposits|) && id < |t.deposits| && Decided(t, payments, bindings, id)
    ensures CaptureAll(t, trs, n, bindings).Ok?
    ensures var t' := CaptureAll(t, trs, n, bindings).value;
            id < |t'.deposits| && Decided(t', payments, bindings, id)
  {
    hide CaptureAll, Sound, D.AllTold, Announceable, AllTold;
    CaptureAllKeepsTold(t, trs, n, bindings, payments);
    CaptureAllKeepsOwners(t, trs, n, bindings);
    CaptureAllAppends(t, trs, n, bindings);
    SameNews(t.outbox, CaptureAll(t, trs, n, bindings).value.outbox, MerchantsOf(t.deposits, bindings, id), id);
  }

  /** Every row that the capture of a block adds is decided by the payments made before. */
  lemma {:induction false} NewRowsDecided(t: D.Desk, trs: seq<ChainTransfer>, n: nat,
                                          bindings: map<string, seq<string>>,
                                          payments: seq<P.Payment>, id: nat)
    requires Sound(t.book) && D.AllTold(t.book.entries, t.deposits)
    requires P.AllNoticed(payments, t.outbox, |t.deposits|)
    ensures CaptureAll(t, trs, n, bindings).Ok?
    ensures var t' := CaptureAll(t, trs, n, bindings).value;
            |t.deposits| <= id < |t'.deposits| ==> Decided(t', payments, bindings, id)
    decreases |trs|
  {
    hide D.CaptureAndCredit, Sound, D.AllTold, P.AllNoticed, Decided, CaptureOf, BoundMerchants;
    CaptureAllKeepsTold(t, trs, n, bindings, payments);
    if |trs| > 0 {
      match CaptureOf(trs[0], n)
      case None => NewRowsDecided(t, trs[1..], n, bindings, payments, id);
      case Some(p) =>
        var merchants := BoundMerchants(bindings, p.account.user);
        var t1 := CaptureFirst(t, p, merchants, payments);
        if id == |t.deposits| < |t1.deposits| {
          FirstIsDecided(t, t1, p, bindings, payments);
          StaysDecided(t1, trs[1..], n, bindings, payments, id);
        } else {
          NewRowsDecided(t1, trs[1..], n, bindings, payments, id);
        }
    }
  }

  /** The desk after one capture, with what the rest of the block relies on. */
  ghost function CaptureFirst(t: D.Desk, p: D.Capture, merchants: seq<string>, payments: seq<P.Payment>): (t1: D.Desk)
    requires Sound(t.book) && D.AllTold(t.book.entries, t.deposits)
    requires P.AllNoticed(payments, t.outbox, |t.deposits|)
    ensures D.CaptureAndCredit(t, p, merchants) == Ok(t1)
    ensures Sound(t1.book) && D.AllTold(t1.book.entries, t1.deposits)
    ensures P.AllNoticed(payments, t1.outbox, |t1.deposits|)
    ensures |t.deposits| <= |t1.deposits| <= |t.deposits| + 1
    ensures |t1.deposits| > |t.deposits| <==> D.Find(t.deposits, p.key).None?
    ensures |t1.deposits| > |t.deposits| ==> t1.deposits[|t.deposits|].account == p.account
  {
    D.CaptureKeepsTold(t, p, merchants);
    D.CaptureExactly(t, p, merchants);
    P.NoticedAfterDeposit(payments, t.outbox, merchants, |t.deposits|);
    D.CaptureAndCredit(t, p, merchants).value
  }

  lemma FirstIsDecided(t: D.Desk, t1: D.Desk, p: D.Capture, bindings: map<string, seq<string>>,
                       payments: seq<P.Payment>)
    requires Sound(t.book) && D.AllTold(t.book.entries, t.deposits)
    requires P.AllNoticed(payments, t.outbox, |t.deposits|) && D.Find(t.deposits, p.key).None?
    requires D.CaptureAndCredit(t, p, BoundMerchants(bindings, p.account.user)) == Ok(t1)
    requires |t1.deposits| > |t.deposits| && t1.deposits[|t.deposits|].account == p.account
    ensures Decided(t1, payments, bindings, |t.deposits|)
  {
    hide D.CaptureAndCredit, Sound, D.AllTold, P.AllNoticed, Announceable;
    CaptureNotifiesIff(t, payments, p, BoundMerchants(bindings, p.account.user));
  }

  /**
   For every sync step of any run and every deposit it adds, be it the first or a later one
   of its block: at the end of the run all merchants bound to its owner are notified if and
   only if none is bound, or all are the same and no payment made before carries its key.
   */
  lemma DepositAnnouncedIff(guard: RefType, steps: seq<Step>, n: nat, id: nat)
    requires n < |steps| && steps[n].Sync?
    requires |Run(guard, steps[..n]).x.deposits| <= id < |Run(guard, steps[..n + 1]).x.deposits|
    ensures var before, after := Run(guard, steps[..n]).x, Run(guard, steps[..n + 1]).x;
            var merchants := MerchantsOf(after.deposits, steps[n].bindings, id);
            AllTold(Run(guard, steps).x.outbox, merchants, id) <==> Announceable(merchants, before.payments, id)
  {
    hide Run, Next, SysInv, Inv, Announceable, AllTold, SyncBlock;
    var s, s' := Run(guard, steps[..n]), Run(guard, steps[..n + 1]);
    RunKeepsSysInv(guard, steps[..n]);
    InvOf(s);
    assert steps[..n + 1][..n] == steps[..n];
    RunSplit(guard, steps[..n + 1]);
    SyncDecides(s, guard, steps[n], id);
    RunKeepsSysInv(guard, steps);
    InvOf(Run(guard, steps));
    OutboxOnlyGrows(guard, steps, n + 1);
    SameNews(s'.x.outbox, Run(guard, steps).x.outbox, MerchantsOf(s'.x.deposits, steps[n].bindings, id), id);
  }

  lemma SyncDecides(s: System, guard: RefType, step: Step, id: nat)
    requires Inv(s.x) && step.Sync? && |s.x.deposits| <= id < |Next(s, guard, step).x.deposits|
    ensures Decided(DepositDesk(Next(s, guard, step).x), s.x.payments, step.bindings, id)
  {
    hide CaptureAll, Sound, D.AllTold, P.AllTold, P.UniqueRows, W.RowsOk, Decided, P.AllNoticed;
    NewRowsDecided(DepositDesk(s.x), step.trs, step.blk.number, step.bindings, s.x.payments, id);
  }

  // ---------------------------------------------------------------------
  // Two runs in which one announcement silences the other.
  // ---------------------------------------------------------------------

  const SHOP := Some(P.Merchant(true, "shop"))

  const FORGED := P.Params("m", "o", "bob", "", "0", "deposit:0")

  const BOUND := map["alice" := ["m"]]

  const DEPOSIT_STEP := Sync(BlockData(1, "h1", "h0"), 1, 1, [Witnesses.DEPOSIT], BOUND)

  lemma ForgedKey()
    ensures P.KeyOf(FORGED) == N.DepositKey(0) && ParseWei("0") == Some(0)
  {
    assert Text(0) == "0";
    assert "0"[..0] == "" && Value("0") == 0;
  }

  lemma ForgedPaymentCommits(x: Tables)
    requires x.payments == []
    ensures CreatePayment(x, SHOP, FORGED).Ok? && !P.Duplicate(x.payments, FORGED)
    ensures CreatePayment(x, SHOP, FORGED).value.payments == [P.Payment("m", "o", Account("bob", ""), 0, "deposit:0")]
    ensures CreatePayment(x, SHOP, FORGED).value.deposits == x.deposits
  {
    ForgedKey();
    TransferMoves(x.book, Account("bob", ""), Account("shop", ""), 0, 0);
  }

  lemma CapturedDeposit(x: Tables)
    requires Inv(x) && x.deposits == []
    ensures D.CaptureAndCredit(DepositDesk(x), D.Capture(D.Key("tx", 0), Witnesses.ALICE, 9, 1), ["m"]).Ok?
    ensures var t := D.CaptureAndCredit(DepositDesk(x), D.Capture(D.Key("tx", 0), Witnesses.ALICE, 9, 1), ["m"]).value;
            var r := SyncBlock(x, BlockData(1, "h1", "h0"), 1, 1, [Witnesses.DEPOSIT], BOUND);
            r.Ok? && r.value.outbox == t.outbox && r.value.deposits == t.deposits && r.value.payments == x.payments
            && |t.deposits| == 1
  {
    hide D.CaptureAndCredit, Sound, D.AllTold;
    Witnesses.Amounts();
    var capture := D.Capture(D.Key("tx", 0), Witnesses.ALICE, 9, 1);
    assert CaptureOf(Witnesses.DEPOSIT, 1) == Some(capture);
    var desk := DepositDesk(x);
    assert D.Find(desk.deposits, capture.key) == None;
    D.CaptureKeepsTold(desk, capture, ["m"]);
    var t := D.CaptureAndCredit(desk, capture, ["m"]).value;
    assert [Witnesses.DEPOSIT][1..] == [];
    assert CaptureAll(desk, [Witnesses.DEPOSIT], 1, BOUND) == CaptureAll(t, [], 1, BOUND) == Ok(t);
  }

  lemma TwoStepRun(a: Step, b: Step)
    ensures Run(WithdrawRef, [a]) == Next(START, WithdrawRef, a)
    ensures Run(WithdrawRef, [a, b]) == Next(Next(START, WithdrawRef, a), WithdrawRef, b)
  {
    hide Next;
    assert [a, b][..1] == [a] && [a][..0] == [];
    RunSplit(WithdrawRef, [a, b]);
    RunSplit(WithdrawRef, [a]);
  }

  /** A payment under the next deposit's key keeps the only bound merchant from hearing of the deposit. */
  lemma PaymentSilencesDeposit()
    ensures var x := Run(WithdrawRef, [Pay(SHOP, FORGED), DEPOSIT_STEP]).x;
            |x.deposits| == 1 && !N.Notified(x.outbox, "m", 0)
  {
    hide Inv, SyncBlock, CreatePayment, D.CaptureAndCredit;
    TwoStepRun(Pay(SHOP, FORGED), DEPOSIT_STEP);
    RunKeepsSysInv(WithdrawRef, [Pay(SHOP, FORGED)]);
    ForgedPaymentCommits(EMPTY);
    ForgedKey();
    var x := Run(WithdrawRef, [Pay(SHOP, FORGED)]).x;
    assert x == CreatePayment(EMPTY, SHOP, FORGED).value;
    assert x.payments[0].key == N.DepositKey(0);
    CapturedDeposit(x);
    DeskOf(x);
    CaptureNotifiesIff(DepositDesk(x), x.payments, D.Capture(D.Key("tx", 0), Witnesses.ALICE, 9, 1), ["m"]);
  }

  lemma DeskOf(x: Tables)
    requires Inv(x)
    ensures Sound(x.book) && D.AllTold(x.book.entries, x.deposits) && P.AllNoticed(x.payments, x.outbox, |x.deposits|)
  {
  }

  /** A deposit announced first keeps a payment under its key from being announced at all. */
  lemma DepositSilencesPayment()
    ensures var x := Run(WithdrawRef, [DEPOSIT_STEP, Pay(SHOP, FORGED)]).x;
            |x.payments| == 1 && NoticeOf(FORGED) !in x.outbox
  {
    hide Inv, SyncBlock, CreatePayment, D.CaptureAndCredit, N.DepositKey;
    TwoStepRun(DEPOSIT_STEP, Pay(SHOP, FORGED));
    RunKeepsSysInv(WithdrawRef, [DEPOSIT_STEP]);
    EmptyInv();
    ForgedKey();
    CapturedDeposit(EMPTY);
    var x := Run(WithdrawRef, [DEPOSIT_STEP]).x;
    DeskOf(EMPTY);
    CaptureNotifiesIff(DepositDesk(EMPTY), [], D.Capture(D.Key("tx", 0), Witnesses.ALICE, 9, 1), ["m"]);
    assert "m" in ["m"];
    assert N.Notified(x.outbox, "m", 0);
    assert P.Announced(x.outbox, 0);
    ForgedPaymentCommits(x);
    PaymentNoticedIff(x, SHOP, FORGED);
  }
}
