/**
 The exact effect of syncing one block on deposits and balances: which of its transfers
 are paid, and which are not because their key was seen before. Spans syncBlock of
 internal/indexer/engine.go and internal/exchange/deposit.go.
 */
module SyncEffect {
  import opened Outcomes
  import opened Ledger
  import opened Decimal
  import opened Exchange
  import C = Chain
  import D = Deposits
  import P = Payments
  import W = Withdraws

  // ---------------------------------------------------------------------
  // What a transfer has to be to count as a deposit, field by field.
  // ---------------------------------------------------------------------

  /** The transaction succeeded, and a token transfer is one of a watched token. */
  predicate Genuine(tr: ChainTransfer) { tr.success && (tr.native || tr.watched) }

  /** The recipient is an enabled deposit wallet that belongs to somebody. */
  predicate ToOwner(tr: ChainTransfer)
  {
    tr.wallet.Some? && tr.wallet.value.isDeposit && tr.wallet.value.enabled && tr.wallet.value.user != ""
  }

  /** The amount is a number of wei, and not zero. */
  predicate Worthy(tr: ChainTransfer)
  {
    ParseWei(tr.amountText).Some? && ParseWei(tr.amountText).value > 0
  }

  predicate Eligible(tr: ChainTransfer) { Genuine(tr) && ToOwner(tr) && Worthy(tr) }

  function KeyOf(tr: ChainTransfer): D.Key { D.Key(tr.txHash, if tr.native then 0 else tr.logIndex) }

  function OwnerOf(tr: ChainTransfer): Account
    requires ToOwner(tr)
  {
    Account(tr.wallet.value.user, if tr.native then "" else tr.token)
  }

  function WorthOf(tr: ChainTransfer): nat
    requires Worthy(tr)
  {
    ParseWei(tr.amountText).value
  }

  /** The capture filters let through exactly the eligible transfers, with exactly these fields. */
  lemma CaptureFields(tr: ChainTransfer, n: nat)
    ensures CaptureOf(tr, n) == if Eligible(tr) then Some(D.Capture(KeyOf(tr), OwnerOf(tr), WorthOf(tr), n)) else None
    ensures Eligible(tr) ==> WorthOf(tr) > 0
  {
    hide ParseWei;
  }

  // ---------------------------------------------------------------------
  // What a sync leaves behind.
  // ---------------------------------------------------------------------

  predicate CreditedUnder(ds: seq<D.Deposit>, key: D.Key)
  {
    exists i :: 0 <= i < |ds| && ds[i].key == key && ds[i].status == D.Credited
  }

  lemma CaptureCredits(t: D.Desk, p: D.Capture, merchants: seq<string>, key: D.Key)
    requires D.CaptureAndCredit(t, p, merchants).Ok?
    ensures key == p.key || CreditedUnder(t.deposits, key) ==>
              CreditedUnder(D.CaptureAndCredit(t, p, merchants).value.deposits, key)
  {
    hide HasEntry, Apply;
    var t' := D.CaptureAndCredit(t, p, merchants).value;
    var found := D.Find(t.deposits, p.key);
    var id := if found.Some? then found.value else |t.deposits|;
    assert t'.deposits[id].key == p.key && t'.deposits[id].status == D.Credited;
    if CreditedUnder(t.deposits, key) {
      var i :| 0 <= i < |t.deposits| && t.deposits[i].key == key && t.deposits[i].status == D.Credited;
      assert t'.deposits[i].key == key && t'.deposits[i].status == D.Credited;
    }
  }

  lemma {:induction false} CaptureAllCredits(t: D.Desk, trs: seq<ChainTransfer>, n: nat,
                                             bindings: map<string, seq<string>>, key: D.Key)
    requires CaptureAll(t, trs, n, bindings).Ok?
    requires CreditedUnder(t.deposits, key)
             || exists i :: 0 <= i < |trs| && Eligible(trs[i]) && KeyOf(trs[i]) == key
    ensures CreditedUnder(CaptureAll(t, trs, n, bindings).value.deposits, key)
    decreases |trs|
  {
    hide D.CaptureAndCredit, CaptureOf, Eligible, KeyOf;
    if |trs| > 0 {
      CaptureFields(trs[0], n);
      assert forall i :: 1 <= i < |trs| ==> trs[i] == trs[1..][i - 1];
      match CaptureOf(trs[0], n)
      case None => CaptureAllCredits(t, trs[1..], n, bindings, key);
      case Some(p) =>
        var merchants := BoundMerchants(bindings, p.account.user);
        CaptureCredits(t, p, merchants, key);
        CaptureAllCredits(D.CaptureAndCredit(t, p, merchants).value, trs[1..], n, bindings, key);
    }
  }

  /**
   A sync of a deep enough block leaves some deposit credited under the key of every
   transfer that passes the filters, be it this transfer's own or not; a sync of a block
   that is too shallow touches neither deposits nor balances.
   */
  lemma SyncCreditsAll(x: Tables, blk: BlockData, head: nat, depth: nat,
                       trs: seq<ChainTransfer>, bindings: map<string, seq<string>>, i: nat)
    requires SyncBlock(x, blk, head, depth, trs, bindings).Ok?
    requires i < |trs| && Eligible(trs[i])
    ensures var x' := SyncBlock(x, blk, head, depth, trs, bindings).value;
            if C.DeepEnough(head, blk.number, depth) || blk.number == 0
            then CreditedUnder(x'.deposits, KeyOf(trs[i]))
            else x'.deposits == x.deposits && x'.book == x.book
  {
    hide CaptureAll, Eligible, KeyOf;
    if C.DeepEnough(head, blk.number, depth) || blk.number == 0 {
      CaptureAllCredits(DepositDesk(x), trs, blk.number, bindings, KeyOf(trs[i]));
    }
  }

  // ---------------------------------------------------------------------
  // Exactly which transfers of a block are paid.
  // ---------------------------------------------------------------------

  /** Some transfer before the `i`-th passes the filters under this key. */
  predicate SeenBefore(trs: seq<ChainTransfer>, i: nat, key: D.Key)
    requires i <= |trs|
  {
    exists j :: 0 <= j < i && Eligible(trs[j]) && KeyOf(trs[j]) == key
  }

  /** Transfer `i` passes the filters, its key is in no stored row and in no earlier transfer of the block. */
  predicate PaysNow(ds: seq<D.Deposit>, trs: seq<ChainTransfer>, i: nat)
    requires i < |trs|
  {
    && Eligible(trs[i])
    && (forall d :: d in ds ==> d.key != KeyOf(trs[i]))
    && !SeenBefore(trs, i, KeyOf(trs[i]))
  }

  /** What the first `m` transfers bring to account `a`. */
  function PaidTo(ds: seq<D.Deposit>, trs: seq<ChainTransfer>, a: Account, m: nat): nat
    requires m <= |trs|
  {
    if m == 0 then 0
    else PaidTo(ds, trs, a, m - 1) +
         if PaysNow(ds, trs, m - 1) && OwnerOf(trs[m - 1]) == a then WorthOf(trs[m - 1]) else 0
  }

  /** The rows the first `m` transfers add, in order. */
  function NewRows(ds: seq<D.Deposit>, trs: seq<ChainTransfer>, n: nat, m: nat): seq<D.Deposit>
    requires m <= |trs|
  {
    if m == 0 then []
    else
      var tr := trs[m - 1];
      NewRows(ds, trs, n, m - 1) +
      if PaysNow(ds, trs, m - 1) then [D.Deposit(KeyOf(tr), OwnerOf(tr), WorthOf(tr), n, D.Credited)] else []
  }

  /** A stored row after the first `m` transfers: revived at this height if it was orphaned and its key came by. */
  function Revived(d: D.Deposit, trs: seq<ChainTransfer>, n: nat, m: nat): D.Deposit
    requires m <= |trs|
  {
    if d.status == D.Orphaned && SeenBefore(trs, m, d.key) then d.(status := D.Credited, block := n) else d
  }

  function CaptureOne(t: D.Desk, tr: ChainTransfer, n: nat, bindings: map<string, seq<string>>): Result<D.Desk, Error>
  {
    match CaptureOf(tr, n)
    case None => Ok(t)
    case Some(p) => D.CaptureAndCredit(t, p, BoundMerchants(bindings, p.account.user))
  }

  lemma {:induction false} CaptureAllAppend(t: D.Desk, trs: seq<ChainTransfer>, tr: ChainTransfer, n: nat,
                                            bindings: map<string, seq<string>>)
    ensures CaptureAll(t, trs + [tr], n, bindings) ==
            match CaptureAll(t, trs, n, bindings)
            case Err(e) => Err(e)
            case Ok(t1) => CaptureOne(t1, tr, n, bindings)
    decreases |trs|
  {
    hide D.CaptureAndCredit, CaptureOf, BoundMerchants;
    var all := trs + [tr];
    if |trs| == 0 {
      assert all[1..] == [] && all[0] == tr;
    } else {
      assert all[0] == trs[0] && all[1..] == trs[1..] + [tr];
      match CaptureOne(t, trs[0], n, bindings)
      case Err(e) =>
      case Ok(t1) => CaptureAllAppend(t1, trs[1..], tr, n, bindings);
    }
  }

  /** The desk after the first `m` transfers, in terms of the desk before all of them. */
  ghost predicate Captured(t: D.Desk, t': D.Desk, trs: seq<ChainTransfer>, n: nat, m: nat)
    requires m <= |trs|
  {
    && Sound(t'.book) && D.AllTold(t'.book.entries, t'.deposits)
    && (forall a :: Available(t'.book, a) == Available(t.book, a) + PaidTo(t.deposits, trs, a, m))
    && |t'.deposits| >= |t.deposits|
    && t'.deposits[|t.deposits|..] == NewRows(t.deposits, trs, n, m)
    && (forall i :: 0 <= i < |t.deposits| ==> t'.deposits[i] == Revived(t.deposits[i], trs, n, m))
    && (forall i :: |t.deposits| <= i < |t'.deposits| ==> t'.deposits[i].status == D.Credited)
    && (forall key :: D.Find(t'.deposits, key).Some? <==> D.Find(t.deposits, key).Some? || SeenBefore(trs, m, key))
  }

  lemma SeenStep(trs: seq<ChainTransfer>, m: nat, key: D.Key)
    requires m < |trs|
    ensures SeenBefore(trs, m + 1, key) <==>
            SeenBefore(trs, m, key) || (Eligible(trs[m]) && KeyOf(trs[m]) == key)
  {
    hide Eligible, KeyOf;
  }

  lemma FindIff(ds: seq<D.Deposit>, key: D.Key)
    ensures D.Find(ds, key).Some? <==> exists i :: 0 <= i < |ds| && ds[i].key == key
  {
  }

  lemma CapturedNew(t: D.Desk, t1: D.Desk, t': D.Desk, trs: seq<ChainTransfer>, n: nat, m: nat)
    requires m < |trs| && Captured(t, t1, trs, n, m) && Eligible(trs[m])
    requires var p := D.Capture(KeyOf(trs[m]), OwnerOf(trs[m]), WorthOf(trs[m]), n);
             && D.Find(t1.deposits, p.key).None? && D.Find(t.deposits, p.key).None?
             && (forall i :: 0 <= i < |t.deposits| ==> t.deposits[i].key != p.key)
             && Sound(t'.book) && D.AllTold(t'.book.entries, t'.deposits)
             && t'.deposits == t1.deposits + [D.Deposit(p.key, p.account, p.amount, p.block, D.Credited)]
             && (forall a :: Available(t'.book, a) == Available(t1.book, a) + if a == p.account then p.amount else 0)
    ensures Captured(t, t', trs, n, m + 1)
  {
    hide Genuine, ToOwner, Worthy, KeyOf, OwnerOf, WorthOf, Sound, D.AllTold, SeenBefore, D.Find;
    var p := D.Capture(KeyOf(trs[m]), OwnerOf(trs[m]), WorthOf(trs[m]), n);
    assert PaysNow(t.deposits, trs, m);
    forall a ensures Available(t'.book, a) == Available(t.book, a) + PaidTo(t.deposits, trs, a, m + 1) {
      assert Available(t1.book, a) == Available(t.book, a) + PaidTo(t.deposits, trs, a, m);
    }
    forall key
      ensures D.Find(t'.deposits, key).Some? <==> D.Find(t.deposits, key).Some? || SeenBefore(trs, m + 1, key)
    {
      SeenStep(trs, m, key);
      FoundAppend(t1.deposits, D.Deposit(p.key, p.account, p.amount, p.block, D.Credited), key);
    }
    forall i | 0 <= i < |t.deposits| ensures t'.deposits[i] == Revived(t.deposits[i], trs, n, m + 1) {
      SeenStep(trs, m, t.deposits[i].key);
      assert t1.deposits[i] == Revived(t.deposits[i], trs, n, m);
    }
  }

  lemma FoundAppend(ds: seq<D.Deposit>, d: D.Deposit, key: D.Key)
    ensures D.Find(ds + [d], key).Some? <==> D.Find(ds, key).Some? || d.key == key
  {
    var all := ds + [d];
    assert all[..|all| - 1] == ds;
  }

  lemma CapturedOld(t: D.Desk, t1: D.Desk, t': D.Desk, trs: seq<ChainTransfer>, n: nat, m: nat, id: nat)
    requires m < |trs| && Captured(t, t1, trs, n, m) && Eligible(trs[m])
    requires D.Find(t1.deposits, KeyOf(trs[m])) == Some(id)
    requires Sound(t'.book) && D.AllTold(t'.book.entries, t'.deposits) && t'.book == t1.book
    requires t'.deposits == if t1.deposits[id].status == D.Orphaned
                            then t1.deposits[id := t1.deposits[id].(status := D.Credited, block := n)]
                            else t1.deposits
    requires DistinctKeys(t1.deposits)
    ensures Captured(t, t', trs, n, m + 1)
  {
    hide Genuine, ToOwner, Worthy, KeyOf, OwnerOf, WorthOf, Sound, D.AllTold, SeenBefore, D.Find;
    var key := KeyOf(trs[m]);
    FoundRow(t1.deposits, key, id);
    assert !PaysNow(t.deposits, trs, m) by {
      if D.Find(t.deposits, key).Some? {
        FoundRow(t.deposits, key, D.Find(t.deposits, key).value);
        assert t.deposits[D.Find(t.deposits, key).value] in t.deposits;
      }
    }
    assert forall i :: |t.deposits| <= i < |t1.deposits| ==> t'.deposits[i] == t1.deposits[i];
    assert t'.deposits[|t.deposits|..] == t1.deposits[|t.deposits|..];
    assert forall i :: 0 <= i < |t1.deposits| ==> t'.deposits[i].key == t1.deposits[i].key;
    forall k
      ensures D.Find(t'.deposits, k).Some? <==> D.Find(t.deposits, k).Some? || SeenBefore(trs, m + 1, k)
    {
      SeenStep(trs, m, k);
      SameKeys(t1.deposits, t'.deposits, k);
    }
    forall i | 0 <= i < |t.deposits| ensures t'.deposits[i] == Revived(t.deposits[i], trs, n, m + 1) {
      SeenStep(trs, m, t.deposits[i].key);
      assert t1.deposits[i] == Revived(t.deposits[i], trs, n, m);
      if i != id { assert t1.deposits[i].key != t1.deposits[id].key; }
    }
  }

  ghost predicate DistinctKeys(ds: seq<D.Deposit>)
  {
    forall i, j :: 0 <= i < |ds| && 0 <= j < |ds| && i != j ==> ds[i].key != ds[j].key
  }

  lemma ToldKeys(es: seq<Entry>, ds: seq<D.Deposit>)
    requires D.AllTold(es, ds)
    ensures DistinctKeys(ds)
  {
  }

  lemma FoundRow(ds: seq<D.Deposit>, key: D.Key, id: nat)
    requires D.Find(ds, key) == Some(id)
    ensures id < |ds| && ds[id].key == key
  {
  }

  lemma SameKeys(ds: seq<D.Deposit>, ds': seq<D.Deposit>, key: D.Key)
    requires |ds| == |ds'| && forall i :: 0 <= i < |ds| ==> ds'[i].key == ds[i].key
    ensures D.Find(ds', key).Some? <==> D.Find(ds, key).Some?
  {
    FindIff(ds, key);
    FindIff(ds', key);
  }

  lemma CapturedNothing(t: D.Desk, t1: D.Desk, trs: seq<ChainTransfer>, n: nat, m: nat)
    requires m < |trs| && Captured(t, t1, trs, n, m) && !Eligible(trs[m])
    ensures Captured(t, t1, trs, n, m + 1)
  {
    hide Genuine, ToOwner, Worthy, KeyOf, OwnerOf, WorthOf, Sound, D.AllTold, SeenBefore, D.Find;
    forall key ensures SeenBefore(trs, m + 1, key) <==> SeenBefore(trs, m, key) {
      SeenStep(trs, m, key);
    }
    assert forall d :: Revived(d, trs, n, m + 1) == Revived(d, trs, n, m);
  }

  /** The capture loop stops nowhere and has exactly this effect after every transfer. */
  lemma {:induction false} CapturesExactly(t: D.Desk, trs: seq<ChainTransfer>, n: nat,
                                           bindings: map<string, seq<string>>, m: nat)
    requires Sound(t.book) && D.AllTold(t.book.entries, t.deposits) && m <= |trs|
    ensures CaptureAll(t, trs[..m], n, bindings).Ok?
    ensures Captured(t, CaptureAll(t, trs[..m], n, bindings).value, trs, n, m)
  {
    hide CaptureOf, Genuine, ToOwner, Worthy, KeyOf, OwnerOf, WorthOf, Sound, D.AllTold, D.CaptureAndCredit;
    hide BoundMerchants, PaysNow;
    if m == 0 {
      assert trs[..0] == [];
    } else {
      CapturesExactly(t, trs, n, bindings, m - 1);
      var t1 := CaptureAll(t, trs[..m - 1], n, bindings).value;
      assert trs[..m] == trs[..m - 1] + [trs[m - 1]];
      CaptureAllAppend(t, trs[..m - 1], trs[m - 1], n, bindings);
      hide CaptureAll, Captured;
      CapturedParts(t, t1, trs, n, m - 1);
      CaptureFields(trs[m - 1], n);
      match CaptureOf(trs[m - 1], n)
      case None => CapturedNothing(t, t1, trs, n, m - 1);
      case Some(p) =>
        var merchants := BoundMerchants(bindings, p.account.user);
        D.CaptureExactly(t1, p, merchants);
        D.CaptureKeepsTold(t1, p, merchants);
        var t' := D.CaptureAndCredit(t1, p, merchants).value;
        ToldKeys(t1.book.entries, t1.deposits);
        if D.Find(t1.deposits, p.key).None? {
          UnseenKey(t, t1, trs, n, m - 1, p.key);
          CapturedNew(t, t1, t', trs, n, m - 1);
        } else {
          CapturedOld(t, t1, t', trs, n, m - 1, D.Find(t1.deposits, p.key).value);
        }
    }
  }

  lemma UnseenKey(t: D.Desk, t1: D.Desk, trs: seq<ChainTransfer>, n: nat, m: nat, key: D.Key)
    requires m <= |trs| && Captured(t, t1, trs, n, m) && D.Find(t1.deposits, key).None?
    ensures D.Find(t.deposits, key).None? && forall i :: 0 <= i < |t.deposits| ==> t.deposits[i].key != key
  {
    hide Sound, D.AllTold;
  }

  lemma CapturedParts(t: D.Desk, t': D.Desk, trs: seq<ChainTransfer>, n: nat, m: nat)
    requires m <= |trs| && Captured(t, t', trs, n, m)
    ensures Sound(t'.book) && D.AllTold(t'.book.entries, t'.deposits)
  {
  }

  /**
   The exact effect of a sync. Deep enough, every account gains the amounts of the
   transfers to it whose key is new and comes first in the block, exactly these transfers
   get a row, credited, and a stored row changes exactly when it was orphaned and a transfer
   has its key, coming back credited at this height; too shallow, nothing changes.
   */
  lemma SyncPaysExactly(x: Tables, blk: BlockData, head: nat, depth: nat,
                        trs: seq<ChainTransfer>, bindings: map<string, seq<string>>)
    requires Inv(x)
    ensures SyncBlock(x, blk, head, depth, trs, bindings).Ok?
    ensures var x' := SyncBlock(x, blk, head, depth, trs, bindings).value;
            if C.DeepEnough(head, blk.number, depth) || blk.number == 0
            then
              && (forall a :: Available(x'.book, a) ==
                              Available(x.book, a) + PaidTo(x.deposits, trs, a, |trs|))
              && |x'.deposits| >= |x.deposits|
              && x'.deposits[|x.deposits|..] == NewRows(x.deposits, trs, blk.number, |trs|)
              && (forall i :: 0 <= i < |x.deposits| ==>
                    x'.deposits[i] == Revived(x.deposits[i], trs, blk.number, |trs|))
            else x'.deposits == x.deposits && x'.book == x.book && x'.outbox == x.outbox
  {
    hide CaptureAll, Sound, D.AllTold, P.AllTold, P.AllNoticed, P.UniqueRows, W.RowsOk, C.Bounded;
    hide DepositsLive, PaidTo, NewRows, Revived, C.SyncWrites;
    CapturesExactly(DepositDesk(x), trs, blk.number, bindings, |trs|);
    assert trs[..|trs|] == trs;
  }

  /**
   Handling transfer `i` of a block pays its owner if and only if its key is in no stored
   row and no earlier transfer of the block has it.
   */
  lemma TransferPaidIff(x: Tables, trs: seq<ChainTransfer>, n: nat, bindings: map<string, seq<string>>, i: nat)
    requires Inv(x) && i < |trs| && Eligible(trs[i])
    ensures CaptureAll(DepositDesk(x), trs[..i], n, bindings).Ok?
    ensures CaptureAll(DepositDesk(x), trs[..i + 1], n, bindings).Ok?
    ensures var before := CaptureAll(DepositDesk(x), trs[..i], n, bindings).value.book;
            var after := CaptureAll(DepositDesk(x), trs[..i + 1], n, bindings).value.book;
            Available(after, OwnerOf(trs[i])) ==
            Available(before, OwnerOf(trs[i])) + if PaysNow(x.deposits, trs, i) then WorthOf(trs[i]) else 0
  {
    hide CaptureAll, Sound, D.AllTold, PaysNow, NewRows, P.AllTold, P.AllNoticed, W.RowsOk, C.Bounded;
    CapturesExactly(DepositDesk(x), trs, n, bindings, i);
    CapturesExactly(DepositDesk(x), trs, n, bindings, i + 1);
  }

  /** A block without an eligible transfer changes no deposit and no balance, however deep it is. */
  lemma NothingEligible(x: Tables, blk: BlockData, head: nat, depth: nat,
                        trs: seq<ChainTransfer>, bindings: map<string, seq<string>>)
    requires forall i :: 0 <= i < |trs| ==> !Eligible(trs[i])
    ensures SyncBlock(x, blk, head, depth, trs, bindings).Ok?
    ensures var x' := SyncBlock(x, blk, head, depth, trs, bindings).value;
            x'.deposits == x.deposits && x'.book == x.book && x'.outbox == x.outbox
  {
    hide Eligible;
    NothingCaptured(DepositDesk(x), trs, blk.number, bindings);
  }

  lemma {:induction false} NothingCaptured(t: D.Desk, trs: seq<ChainTransfer>, n: nat,
                                           bindings: map<string, seq<string>>)
    requires forall i :: 0 <= i < |trs| ==> !Eligible(trs[i])
    ensures CaptureAll(t, trs, n, bindings) == Ok(t)
    decreases |trs|
  {
    hide Eligible, CaptureOf;
    if |trs| > 0 {
      CaptureFields(trs[0], n);
      NothingCaptured(t, trs[1..], n, bindings);
    }
  }

  /**
   A deep block with one eligible transfer under a new key: exactly its owner's account in
   its token gains exactly its amount, and one credited row is added under its key.
   */
  lemma OneEligible(x: Tables, blk: BlockData, head: nat, depth: nat, tr: ChainTransfer,
                    bindings: map<string, seq<string>>)
    requires Inv(x) && C.DeepEnough(head, blk.number, depth)
    requires Eligible(tr) && forall d :: d in x.deposits ==> d.key != KeyOf(tr)
    ensures SyncBlock(x, blk, head, depth, [tr], bindings).Ok?
    ensures var x' := SyncBlock(x, blk, head, depth, [tr], bindings).value;
            && x'.deposits == x.deposits + [D.Deposit(KeyOf(tr), OwnerOf(tr), WorthOf(tr), blk.number, D.Credited)]
            && (forall a :: Available(x'.book, a) == Available(x.book, a) + if a == OwnerOf(tr) then WorthOf(tr) else 0)
  {
    hide Inv, SyncBlock, Genuine, ToOwner, Worthy, KeyOf, OwnerOf, WorthOf;
    SyncPaysExactly(x, blk, head, depth, [tr], bindings);
    var ds, n := x.deposits, blk.number;
    var x' := SyncBlock(x, blk, head, depth, [tr], bindings).value;
    assert PaysNow(ds, [tr], 0);
    assert NewRows(ds, [tr], n, 0) == [];
    assert NewRows(ds, [tr], n, 1) == [D.Deposit(KeyOf(tr), OwnerOf(tr), WorthOf(tr), n, D.Credited)];
    forall a ensures PaidTo(ds, [tr], a, 1) == if a == OwnerOf(tr) then WorthOf(tr) else 0 {
      assert PaidTo(ds, [tr], a, 0) == 0;
    }
    forall i | 0 <= i < |ds| ensures Revived(ds[i], [tr], n, 1) == ds[i] {
      assert ds[i] in ds;
    }
    assert x'.deposits == x'.deposits[..|ds|] + x'.deposits[|ds|..];
  }
}
