/**
 The tables that the indexer, the ledger, the withdraw desk and the payment desk
 share, and the database transactions that span them. Models syncBlock and
 detectAndHandleReorg of internal/indexer/engine.go together with the handlers
 of the modules it imports.
 */
module Exchange {
  import opened Outcomes
  import opened Ledger
  import opened Decimal
  import C = Chain
  import D = Deposits
  import N = Notices
  import P = Payments
  import W = Withdraws

  datatype Tables = Tables(book: Book, deposits: seq<D.Deposit>, withdraws: seq<W.Withdraw>,
                           payments: seq<P.Payment>, outbox: seq<N.Notice>, view: C.View)

  const EMPTY := Tables(EMPTY_BOOK, [], [], [], [], C.EMPTY_VIEW)

  // ---------------------------------------------------------------------
  // Block sync.
  // ---------------------------------------------------------------------

  datatype BlockData = BlockData(number: nat, hash: string, parent: string)

  /** What the wallet registry knows about a recipient address. */
  datatype Wallet = Wallet(isDeposit: bool, enabled: bool, user: string)

  /** A native transfer, or a Transfer event of a token contract, found in a block. */
  datatype ChainTransfer = ChainTransfer(native: bool, success: bool, txHash: string, logIndex: nat,
                                         token: string, watched: bool, wallet: Option<Wallet>, amountText: string)

  /** The capture filters: success, watched token, enabled deposit wallet with an owner, positive amount. */
  function CaptureOf(tr: ChainTransfer, n: nat): Option<D.Capture>
  {
    var amount := ParseWei(tr.amountText);
    if !tr.success || (!tr.native && !tr.watched) then None
    else if tr.wallet.None? || !tr.wallet.value.isDeposit || !tr.wallet.value.enabled then None
    else if tr.wallet.value.user == "" || amount.None? || amount.value == 0 then None
    else Some(D.Capture(D.Key(tr.txHash, if tr.native then 0 else tr.logIndex),
                        Account(tr.wallet.value.user, if tr.native then "" else tr.token), amount.value, n))
  }

  function BoundMerchants(bindings: map<string, seq<string>>, user: string): seq<string>
  {
    if user in bindings then bindings[user] else []
  }

  function CaptureAll(t: D.Desk, trs: seq<ChainTransfer>, n: nat,
                      bindings: map<string, seq<string>>): Result<D.Desk, Error>
    decreases |trs|
  {
    if |trs| == 0 then Ok(t)
    else
      match CaptureOf(trs[0], n)
      case None => CaptureAll(t, trs[1..], n, bindings)
      case Some(p) =>
        match D.CaptureAndCredit(t, p, BoundMerchants(bindings, p.account.user))
        case Err(e) => Err(e)
        case Ok(t1) => CaptureAll(t1, trs[1..], n, bindings)
  }

  function DepositDesk(x: Tables): D.Desk { D.Desk(x.book, x.deposits, x.outbox) }

  /** The sync transaction of one block; a head at or below the block counts as deep enough. */
  function SyncBlock(x: Tables, blk: BlockData, head: nat, depth: nat,
                     trs: seq<ChainTransfer>, bindings: map<string, seq<string>>): Result<Tables, Error>
  {
    var upTo := C.ConfirmedUpTo(head, blk.number, depth);
    var captured := if upTo == blk.number then CaptureAll(DepositDesk(x), trs, blk.number, bindings)
                    else Ok(DepositDesk(x));
    match captured
    case Err(e) => Err(e)
    case Ok(t) => Ok(x.(book := t.book, deposits := t.deposits, outbox := t.outbox,
                        view := C.SyncWrites(x.view, blk.number, blk.hash, blk.parent, upTo)))
  }

  /**
   The reorg transaction that may precede the sync of block `n`. `rows` is the order
   in which the database happens to return the deposits to orphan.
   */
  function HandleReorg(x: Tables, n: nat, parentHash: string, rows: seq<nat>): Result<Tables, Error>
    requires D.ValidRows(rows, x.deposits)
  {
    if !C.DetectsReorg(x.view, n, parentHash) then Ok(x)
    else
      match D.ReverseAll(x.book, x.deposits, rows)
      case Err(e) => Err(e)
      case Ok(b) => Ok(x.(book := b, deposits := D.OrphanFrom(x.deposits, n - 1),
                          view := C.ReorgWrites(x.view, n - 1, parentHash)))
  }

  function PaymentDesk(x: Tables): P.Desk { P.Desk(x.book, x.payments, x.outbox) }

  function CreatePayment(x: Tables, found: Option<P.Merchant>, p: P.Params): Result<Tables, Error>
  {
    match P.Create(PaymentDesk(x), found, p)
    case Err(e) => Err(e)
    case Ok(t) => Ok(x.(book := t.book, payments := t.payments, outbox := t.outbox))
  }

  function WithdrawDesk(x: Tables): W.Desk { W.Desk(x.book, x.withdraws) }

  function PutWithdraws(x: Tables, t: W.Desk): Tables { x.(book := t.book, withdraws := t.withdraws) }

  // ---------------------------------------------------------------------
  // Invariants of the tables.
  // ---------------------------------------------------------------------

  /** Every credited deposit sits at a height whose stored block is live. */
  ghost predicate DepositsLive(ds: seq<D.Deposit>, v: C.View)
  {
    forall i :: 0 <= i < |ds| && ds[i].status == D.Credited ==> C.Live(v, ds[i].block)
  }

  ghost predicate Inv(x: Tables)
  {
    && Sound(x.book)
    && D.AllTold(x.book.entries, x.deposits)
    && P.AllTold(x.book.entries, x.payments)
    && P.UniqueRows(x.payments)
    && P.AllNoticed(x.payments, x.outbox, |x.deposits|)
    && W.RowsOk(x.withdraws)
    && C.Bounded(x.view)
    && DepositsLive(x.deposits, x.view)
  }

  lemma EmptyInv()
    ensures Inv(EMPTY)
    ensures W.AllTold(EMPTY.book.entries, EMPTY.withdraws) && W.NoExcess(WithdrawDesk(EMPTY))
  {
  }

  /** The withdraw side of the world is as it was. */
  ghost predicate SameWithdraws(x: Tables, x': Tables)
  {
    && x'.withdraws == x.withdraws
    && (forall a :: Frozen(x'.book, a) == Frozen(x.book, a))
    && (forall id :: Story(x'.book.entries, WithdrawRef, id) == Story(x.book.entries, WithdrawRef, id))
  }

  lemma {:induction false} CaptureAllKeepsTold(t: D.Desk, trs: seq<ChainTransfer>, n: nat,
                                               bindings: map<string, seq<string>>, payments: seq<P.Payment>)
    requires Sound(t.book) && D.AllTold(t.book.entries, t.deposits)
    requires P.AllNoticed(payments, t.outbox, |t.deposits|)
    ensures CaptureAll(t, trs, n, bindings).Ok?
    ensures var t' := CaptureAll(t, trs, n, bindings).value;
            && Sound(t'.book) && D.AllTold(t'.book.entries, t'.deposits) && D.DepositFrame(t.book, t'.book)
            && P.AllNoticed(payments, t'.outbox, |t'.deposits|)
            && |t'.deposits| >= |t.deposits|
            && (forall i :: 0 <= i < |t'.deposits| ==>
                  (i < |t.deposits| && t'.deposits[i] == t.deposits[i]) || t'.deposits[i].block == n)
    decreases |trs|
  {
    if |trs| > 0 {
      match CaptureOf(trs[0], n)
      case None =>
        CaptureAllKeepsTold(t, trs[1..], n, bindings, payments);
      case Some(p) =>
        var merchants := BoundMerchants(bindings, p.account.user);
        D.CaptureKeepsTold(t, p, merchants);
        if D.Find(t.deposits, p.key).None? {
          P.NoticedAfterDeposit(payments, t.outbox, merchants, |t.deposits|);
        } else {
          SameLengthCapture(t, p, merchants);
        }
        CaptureAllKeepsTold(D.CaptureAndCredit(t, p, merchants).value, trs[1..], n, bindings, payments);
    }
  }

  lemma SameLengthCapture(t: D.Desk, p: D.Capture, merchants: seq<string>)
    requires D.Find(t.deposits, p.key).Some? && D.CaptureAndCredit(t, p, merchants).Ok?
    ensures |D.CaptureAndCredit(t, p, merchants).value.deposits| == |t.deposits|
  {
  }

  /** Syncing any block, at any height and in any order, commits and keeps every invariant. */
  lemma SyncKeepsInv(x: Tables, blk: BlockData, head: nat, depth: nat,
                     trs: seq<ChainTransfer>, bindings: map<string, seq<string>>)
    requires Inv(x)
    ensures SyncBlock(x, blk, head, depth, trs, bindings).Ok?
    ensures var x' := SyncBlock(x, blk, head, depth, trs, bindings).value;
            Inv(x') && SameWithdraws(x, x') && C.Live(x'.view, blk.number)
  {
    var upTo := C.ConfirmedUpTo(head, blk.number, depth);
    C.SyncKeepsBounded(x.view, blk.number, blk.hash, blk.parent, upTo);
    CaptureAllKeepsTold(DepositDesk(x), trs, blk.number, bindings, x.payments);
    var x' := SyncBlock(x, blk, head, depth, trs, bindings).value;
    assert D.DepositFrame(x.book, x'.book);
    PaymentsUntouched(x.book, x'.book, x.payments);
  }

  /** The chain view after a sync is the one described for its block, head and depth. */
  lemma SyncChain(x: Tables, blk: BlockData, head: nat, depth: nat,
                  trs: seq<ChainTransfer>, bindings: map<string, seq<string>>)
    requires SyncBlock(x, blk, head, depth, trs, bindings).Ok?
    ensures var v, v' := x.view, SyncBlock(x, blk, head, depth, trs, bindings).value.view;
            var n, deep := blk.number, C.DeepEnough(head, blk.number, depth);
            && v'.blocks.Keys == v.blocks.Keys + {n}
            && v'.blocks[n] == C.Block(blk.hash, blk.parent, if deep && n > 0 then C.ConfirmedBlock else C.PendingBlock)
            && (forall k :: k in v.blocks && k != n ==> C.SyncedBlock(v.blocks[k], v'.blocks[k], k, n, deep))
            && (v.checkpoint.Some? && n <= v.checkpoint.value.last ==> v'.checkpoint == v.checkpoint)
            && (n > C.Load(v).last ==>
                  v'.checkpoint == Some(C.Checkpoint(n, blk.hash, if deep && n > C.Load(v).confirmed then n
                                                                  else C.Load(v).confirmed)))
  {
    hide CaptureAll, C.SyncWrites, C.ConfirmedUpTo;
    C.SyncExactly(x.view, blk.number, blk.hash, blk.parent, head, depth);
  }

  lemma PaymentsUntouched(b: Book, b': Book, payments: seq<P.Payment>)
    requires P.AllTold(b.entries, payments)
    requires forall id :: Story(b'.entries, PaymentRef, id) == Story(b.entries, PaymentRef, id)
    ensures P.AllTold(b'.entries, payments)
  {
    forall id | 0 <= id < |payments| ensures P.Told(b'.entries, payments[id], id) {
      assert P.Told(b.entries, payments[id], id);
    }
  }

  lemma DepositsUntouched(b: Book, b': Book, ds: seq<D.Deposit>)
    requires D.AllTold(b.entries, ds)
    requires forall id :: Story(b'.entries, DepositRef, id) == Story(b.entries, DepositRef, id)
    ensures D.AllTold(b'.entries, ds)
  {
    forall id | 0 <= id < |ds| ensures D.Told(b'.entries, ds[id], id) {
      assert D.Told(b.entries, ds[id], id);
    }
  }

  /** What every deposit at or above height `from` still owes back on account `a`. */
  function OwedBack(x: Tables, from: nat, a: Account): nat
  {
    D.Due(x.book.entries, x.deposits, from, a, |x.deposits|)
  }

  /**
   A reorg commits exactly when every account can give back what it owes, in
   whatever order the rows come. Then each account loses exactly that, no block
   and no credited deposit survives at or above the reorged height, and nothing
   below it moves.
   */
  lemma ReorgCommitsIff(x: Tables, n: nat, parentHash: string, rows: seq<nat>)
    requires Inv(x) && ParentReplaced(x, n, parentHash)
    requires D.Enumerates(rows, x.deposits, n - 1, |x.deposits|)
    ensures HandleReorg(x, n, parentHash, rows).Ok? <==> forall a :: OwedBack(x, n - 1, a) <= Available(x.book, a)
    ensures HandleReorg(x, n, parentHash, rows).Ok? ==>
              var x' := HandleReorg(x, n, parentHash, rows).value;
              && Inv(x') && SameWithdraws(x, x')
              && (forall a :: Available(x'.book, a) == Available(x.book, a) - OwedBack(x, n - 1, a))
              && (forall k: nat :: k >= n - 1 ==> !C.Live(x'.view, k))
              && DepositsOrphaned(x.deposits, x'.deposits, n - 1)
              && RolledBack(x.view, x'.view, n - 1, parentHash)
              && C.Load(x'.view).last <= C.Load(x.view).last
              && x'.payments == x.payments && x'.outbox == x.outbox
  {
    hide Sound, D.AllTold, P.AllTold, P.AllNoticed, P.UniqueRows, W.RowsOk, D.ReverseAll, D.OrphanFrom, OwedBack;
    hide C.ReorgWrites, D.Reversed;
    C.DetectsIff(x.view, n, parentHash);
    ReorgCovered(x, n - 1, rows);
    C.ReorgKeepsBounded(x.view, n, parentHash);
    C.ReorgExactly(x.view, n - 1, parentHash);
    OrphansFrom(x.deposits, n - 1);
    if HandleReorg(x, n, parentHash, rows).Ok? {
      var x' := HandleReorg(x, n, parentHash, rows).value;
      D.ReorgKeepsTold(x.book, x'.book, x.deposits, n - 1, rows);
      ReversedBook(x, x'.book, n - 1, rows);
      PaymentsUntouched(x.book, x'.book, x.payments);
    }
  }

  /** The reversal loop succeeds exactly when everybody can give back what is owed, in any order of the rows. */
  lemma ReorgCovered(x: Tables, from: nat, rows: seq<nat>)
    requires Sound(x.book) && D.Enumerates(rows, x.deposits, from, |x.deposits|)
    ensures var r := D.ReverseAll(x.book, x.deposits, rows);
            && (r.Ok? <==> forall a :: OwedBack(x, from, a) <= Available(x.book, a))
            && (r.Ok? ==> D.Reversed(x.book, r.value, x.deposits, rows))
  {
    hide Sound, D.ReverseAll;
    D.ReverseAllIff(x.book, x.deposits, rows);
    forall a ensures D.RowsDue(x.book.entries, x.deposits, rows, a) == OwedBack(x, from, a) {
      D.RowsDueIsDue(x.book.entries, x.deposits, from, rows, a, |x.deposits|);
    }
    assert D.Covered(x.book, x.deposits, rows) <==> forall a :: OwedBack(x, from, a) <= Available(x.book, a) by {
      assert forall a :: D.RowsDue(x.book.entries, x.deposits, rows, a) <= Available(x.book, a) <==>
                         OwedBack(x, from, a) <= Available(x.book, a);
    }
  }

  lemma ReversedBook(x: Tables, b': Book, from: nat, rows: seq<nat>)
    requires D.Enumerates(rows, x.deposits, from, |x.deposits|) && D.Reversed(x.book, b', x.deposits, rows)
    ensures Sound(b') && (forall a :: Available(b', a) == Available(x.book, a) - OwedBack(x, from, a))
    ensures forall r, id :: r != DepositRef ==> Story(b'.entries, r, id) == Story(x.book.entries, r, id)
    ensures forall a :: Frozen(b', a) == Frozen(x.book, a)
  {
    hide Sound;
    forall a ensures Available(b', a) == Available(x.book, a) - OwedBack(x, from, a) {
      D.RowsDueIsDue(x.book.entries, x.deposits, from, rows, a, |x.deposits|);
    }
  }

  lemma OrphansFrom(ds: seq<D.Deposit>, from: nat)
    ensures DepositsOrphaned(ds, D.OrphanFrom(ds, from), from)
  {
  }

  /** A living block is stored one below `n`, and it is not the one the node reports as parent of `n`. */
  predicate ParentReplaced(x: Tables, n: nat, parentHash: string)
  {
    && n > 0 && n - 1 in x.view.blocks
    && x.view.blocks[n - 1].status != C.OrphanedBlock && x.view.blocks[n - 1].hash != parentHash
  }

  /** Unless the parent was replaced there is no reorg, and nothing is touched. */
  lemma NoReorg(x: Tables, n: nat, parentHash: string, rows: seq<nat>)
    requires D.ValidRows(rows, x.deposits) && !ParentReplaced(x, n, parentHash)
    ensures HandleReorg(x, n, parentHash, rows) == Ok(x)
  {
    C.DetectsIff(x.view, n, parentHash);
  }

  /** Exactly the rows from the height on become orphaned, and nothing else of any row changes. */
  ghost predicate DepositsOrphaned(ds: seq<D.Deposit>, ds': seq<D.Deposit>, from: nat)
  {
    && |ds'| == |ds|
    && (forall i :: 0 <= i < |ds| ==> ds'[i] == if ds[i].block >= from then ds[i].(status := D.Orphaned) else ds[i])
  }

  /** Blocks from the height on are orphaned, the checkpoint names the height and the reported hash. */
  ghost predicate RolledBack(v: C.View, v': C.View, from: nat, hash: string)
  {
    && v'.blocks.Keys == v.blocks.Keys
    && (forall k :: k in v.blocks ==>
          v'.blocks[k] == if k >= from then v.blocks[k].(status := C.OrphanedBlock) else v.blocks[k])
    && (v.checkpoint.None? ==> v'.checkpoint.None?)
    && (v.checkpoint.Some? ==>
          && v'.checkpoint.Some? && v'.checkpoint.value.last == from && v'.checkpoint.value.lastHash == hash
          && (v.checkpoint.value.confirmed <= from ==> v'.checkpoint.value.confirmed == v.checkpoint.value.confirmed)
          && (v.checkpoint.value.confirmed > from ==> v'.checkpoint.value.confirmed == from))
  }

  /** Two databases that return the orphaned rows in different orders end with the same balances. */
  lemma ReorgOrderIrrelevant(x: Tables, n: nat, parentHash: string, rows1: seq<nat>, rows2: seq<nat>)
    requires Inv(x) && ParentReplaced(x, n, parentHash)
    requires D.Enumerates(rows1, x.deposits, n - 1, |x.deposits|)
    requires D.Enumerates(rows2, x.deposits, n - 1, |x.deposits|)
    ensures HandleReorg(x, n, parentHash, rows1).Ok? == HandleReorg(x, n, parentHash, rows2).Ok?
    ensures HandleReorg(x, n, parentHash, rows1).Ok? ==>
              var x1 := HandleReorg(x, n, parentHash, rows1).value;
              var x2 := HandleReorg(x, n, parentHash, rows2).value;
              && (forall a :: BalanceOf(x1.book.accounts, a) == BalanceOf(x2.book.accounts, a))
              && x1.deposits == x2.deposits && x1.view == x2.view
  {
    C.DetectsIff(x.view, n, parentHash);
    ReorgCommitsIff(x, n, parentHash, rows1);
    ReorgCommitsIff(x, n, parentHash, rows2);
    if HandleReorg(x, n, parentHash, rows1).Ok? {
      var x1 := HandleReorg(x, n, parentHash, rows1).value;
      var x2 := HandleReorg(x, n, parentHash, rows2).value;
      forall a ensures BalanceOf(x1.book.accounts, a) == BalanceOf(x2.book.accounts, a) {
        assert Available(x1.book, a) == Available(x2.book, a);
        assert Frozen(x1.book, a) == Frozen(x.book, a) == Frozen(x2.book, a);
      }
    }
  }

  /**
   At the first capture of a deposit every merchant bound to its owner is notified exactly
   when nobody is bound, or no two different merchants are bound and no payment was made
   under the key the deposit is about to get. The desk may be in the middle of a block.
   */
  lemma CaptureNotifiesIff(t: D.Desk, payments: seq<P.Payment>, p: D.Capture, merchants: seq<string>)
    requires Sound(t.book) && D.AllTold(t.book.entries, t.deposits)
    requires P.AllNoticed(payments, t.outbox, |t.deposits|) && D.Find(t.deposits, p.key).None?
    ensures D.CaptureAndCredit(t, p, merchants).Ok?
    ensures var outbox := D.CaptureAndCredit(t, p, merchants).value.outbox;
            && (merchants != [] ==> N.HasKey(outbox, N.DepositKey(|t.deposits|)))
            && ((forall m :: m in merchants ==> N.Notified(outbox, m, |t.deposits|)) <==>
                Announceable(merchants, payments, |t.deposits|))
  {
    hide D.CaptureAndCredit, Sound, D.AllTold, P.AllNoticed, N.EnqueueDeposit;
    D.CaptureKeepsTold(t, p, merchants);
    P.DepositNoticedIff(payments, t.outbox, |t.deposits|, merchants);
    N.EnqueueTakesKey(t.outbox, merchants, |t.deposits|);
  }

  /** Nobody is to be told, or one merchant alone and under a key no payment has taken. */
  ghost predicate Announceable(merchants: seq<string>, payments: seq<P.Payment>, id: nat)
  {
    || merchants == []
    || (N.AllSame(merchants) && !exists i :: 0 <= i < |payments| && payments[i].key == N.DepositKey(id))
  }

  /**
   A new payment gets its own notice exactly when its key is not the key of a deposit that
   has been announced already.
   */
  lemma PaymentNoticedIff(x: Tables, found: Option<P.Merchant>, p: P.Params)
    requires Inv(x) && CreatePayment(x, found, p).Ok? && !P.Duplicate(x.payments, p)
    ensures N.Notice(P.KeyOf(p), p.merchant, N.PaymentSuccess) in CreatePayment(x, found, p).value.outbox <==>
            !exists id: nat :: id < |x.deposits| && P.KeyOf(p) == N.DepositKey(id) && P.Announced(x.outbox, id)
  {
    hide P.Create, Sound, P.AllNoticed, P.Duplicate;
    P.PaymentNoticedIff(PaymentDesk(x), found, p, |x.deposits|);
  }

  lemma PaymentKeepsInv(x: Tables, found: Option<P.Merchant>, p: P.Params)
    requires Inv(x) && CreatePayment(x, found, p).Ok?
    ensures Inv(CreatePayment(x, found, p).value)
    ensures SameWithdraws(x, CreatePayment(x, found, p).value)
    ensures P.Duplicate(x.payments, p) ==> CreatePayment(x, found, p).value == x
  {
    var x' := CreatePayment(x, found, p).value;
    P.CreateKeepsTold(PaymentDesk(x), found, p, |x.deposits|);
    DepositsUntouched(x.book, x'.book, x.deposits);
  }

  /** A withdraw transaction that keeps its own rows in order keeps everything else too. */
  lemma WithdrawKeepsInv(x: Tables, t: W.Desk)
    requires Inv(x) && W.Kept(WithdrawDesk(x), t)
    ensures Inv(PutWithdraws(x, t))
  {
    hide Sound, P.AllNoticed, P.UniqueRows, C.Bounded, DepositsLive;
    var x' := PutWithdraws(x, t);
    assert W.WithdrawFrame(x.book, x'.book);
    DepositsUntouched(x.book, x'.book, x.deposits);
    PaymentsUntouched(x.book, x'.book, x.payments);
  }
}
