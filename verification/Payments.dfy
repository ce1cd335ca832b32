/**
 Payments from a user's balance to a merchant: one row, one pair of journal
 lines and one outbox row, written together. Models CreatePayment of
 internal/webhook/service.go and InsertPaymentTx of internal/webhook/store.go.
 */
module Payments {
  import opened Outcomes
  import opened Ledger
  import opened Decimal
  import opened Notices

  datatype Merchant = Merchant(enabled: bool, ledgerUser: string)

  datatype Payment = Payment(merchant: string, order: string, payer: Account, amount: nat, key: string)

  datatype Params = Params(merchant: string, order: string, payerUser: string, token: string,
                           amountText: string, key: string)

  datatype Desk = Desk(book: Book, payments: seq<Payment>, outbox: seq<Notice>)

  /** The caller's idempotency key, or the one derived from merchant and order. */
  function KeyOf(p: Params): string
  {
    if p.key == "" then "pay:" + p.merchant + ":" + p.order else p.key
  }

  /** Either unique key of the payment table is taken. */
  predicate Duplicate(payments: seq<Payment>, p: Params)
  {
    exists i :: 0 <= i < |payments| &&
                ((payments[i].merchant == p.merchant && payments[i].order == p.order) || payments[i].key == KeyOf(p))
  }

  /** `found` is what the merchant table holds under the id; a duplicate is answered as success. */
  function Create(t: Desk, found: Option<Merchant>, p: Params): Result<Desk, Error>
  {
    if found.None? then Err(MerchantNotFound)
    else if !found.value.enabled then Err(MerchantDisabled)
    else if found.value.ledgerUser == "" then Err(MerchantNotConfigured)
    else if Duplicate(t.payments, p) then Ok(t)
    else if ParseWei(p.amountText).None? then Err(InvalidWei)
    else
      var amount := ParseWei(p.amountText).value;
      var payer := Account(p.payerUser, p.token);
      match Transfer(t.book, payer, Account(found.value.ledgerUser, p.token), amount, |t.payments|)
      case Err(e) => Err(e)
      case Ok(b) => Ok(Desk(b,
                            t.payments + [Payment(p.merchant, p.order, payer, amount, KeyOf(p))],
                            Insert(t.outbox, Notice(KeyOf(p), p.merchant, PaymentSuccess))))
  }

  // ---------------------------------------------------------------------
  // What is true of every payment between transactions.
  // ---------------------------------------------------------------------

  /** Exactly one debit of the payer, then exactly one credit of the same amount and token. */
  ghost predicate Told(es: seq<Entry>, p: Payment, id: nat)
  {
    var s := Story(es, PaymentRef, id);
    && |s| == 2
    && s[0] == Fact(PaymentDebit, p.payer, p.amount)
    && s[1].entryType == PaymentCredit && s[1].amount == p.amount && s[1].account.token == p.payer.token
  }

  ghost predicate AllTold(es: seq<Entry>, payments: seq<Payment>)
  {
    && (forall id :: 0 <= id < |payments| ==> Told(es, payments[id], id))
    && (forall id: nat :: id >= |payments| ==> Story(es, PaymentRef, id) == [])
  }

  ghost predicate UniqueRows(payments: seq<Payment>)
  {
    && (forall i, j :: 0 <= i < j < |payments| ==> payments[i].key != payments[j].key)
    && (forall i, j :: 0 <= i < j < |payments| ==>
          payments[i].merchant != payments[j].merchant || payments[i].order != payments[j].order)
  }

  /** A payment notice comes from a payment; a deposit notice from one of the first `n` deposits. */
  ghost predicate Sourced(payments: seq<Payment>, n: Notice, deposits: nat)
  {
    match n.event
    case PaymentSuccess =>
      exists i :: 0 <= i < |payments| && payments[i].key == n.key && payments[i].merchant == n.merchant
    case DepositConfirmed => exists id: nat :: id < deposits && n.key == DepositKey(id)
  }

  ghost predicate AllNoticed(payments: seq<Payment>, outbox: seq<Notice>, deposits: nat)
  {
    && UniqueKeys(outbox)
    && (forall i :: 0 <= i < |payments| ==> HasKey(outbox, payments[i].key))
    && (forall i :: 0 <= i < |outbox| ==> Sourced(payments, outbox[i], deposits))
  }

  ghost predicate PaymentFrame(b: Book, b': Book)
  {
    && (forall a :: Frozen(b', a) == Frozen(b, a))
    && (forall r, id :: r != PaymentRef ==> Story(b'.entries, r, id) == Story(b.entries, r, id))
  }

  /**
   A replay changes nothing at all. A new payment goes through exactly when the
   payer covers it; then it adds one row, its pair of journal lines and, unless
   the key is taken, its notice.
   */
  lemma CreateKeepsTold(t: Desk, found: Option<Merchant>, p: Params, deposits: nat)
    requires Sound(t.book) && AllTold(t.book.entries, t.payments)
    requires UniqueRows(t.payments) && AllNoticed(t.payments, t.outbox, deposits)
    ensures Create(t, found, p).Ok? && Duplicate(t.payments, p) ==> Create(t, found, p).value == t
    ensures found.Some? && found.value.enabled && found.value.ledgerUser != "" && !Duplicate(t.payments, p) ==>
              (Create(t, found, p).Ok? <==>
               ParseWei(p.amountText).Some?
               && Available(t.book, Account(p.payerUser, p.token)) >= ParseWei(p.amountText).value)
    ensures Create(t, found, p).Ok? ==>
              var t' := Create(t, found, p).value;
              && Sound(t'.book) && AllTold(t'.book.entries, t'.payments) && PaymentFrame(t.book, t'.book)
              && UniqueRows(t'.payments) && AllNoticed(t'.payments, t'.outbox, deposits)
              && (!Duplicate(t.payments, p) ==> |t'.payments| == |t.payments| + 1)
  {
    hide Sound, ParseWei;
    if Create(t, found, p).Ok? && !Duplicate(t.payments, p) {
      var t' := Create(t, found, p).value;
      var amount, id := ParseWei(p.amountText).value, |t.payments|;
      var payer, merchant := Account(p.payerUser, p.token), Account(found.value.ledgerUser, p.token);
      TransferMoves(t.book, payer, merchant, amount, id);
      TransferKeepsSound(t.book, payer, merchant, amount, id);
      ToldAfterCreate(t.book, t'.book, t.payments, t'.payments[id], merchant);
      NoticedAfterCreate(t.payments, t.outbox, t'.payments[id], deposits);
    } else if found.Some? && !Duplicate(t.payments, p) && ParseWei(p.amountText).Some? {
      TransferMoves(t.book, Account(p.payerUser, p.token), Account(found.value.ledgerUser, p.token),
                    ParseWei(p.amountText).value, |t.payments|);
    }
  }

  /** A new payment records what was asked for and moves the amount from payer to merchant and nowhere else. */
  lemma PaymentMovesMoney(t: Desk, found: Option<Merchant>, p: Params)
    requires Create(t, found, p).Ok? && !Duplicate(t.payments, p)
    ensures var t' := Create(t, found, p).value;
            var amount := ParseWei(p.amountText).value;
            var payer, merchant := Account(p.payerUser, p.token), Account(found.value.ledgerUser, p.token);
            && t'.payments == t.payments + [Payment(p.merchant, p.order, payer, amount, KeyOf(p))]
            && (forall x :: Frozen(t'.book, x) == Frozen(t.book, x))
            && (payer != merchant ==>
                  && Available(t'.book, payer) == Available(t.book, payer) - amount
                  && Available(t'.book, merchant) == Available(t.book, merchant) + amount)
            && (forall x :: (x != payer && x != merchant) || payer == merchant ==>
                  Available(t'.book, x) == Available(t.book, x))
  {
    hide ParseWei;
    TransferMoves(t.book, Account(p.payerUser, p.token), Account(found.value.ledgerUser, p.token),
                  ParseWei(p.amountText).value, |t.payments|);
  }

  /** A payment for this merchant's order, or one under this idempotency key, is recorded already. */
  ghost predicate KnownPayment(payments: seq<Payment>, p: Params, key: string)
  {
    exists i :: 0 <= i < |payments| &&
                ((payments[i].merchant == p.merchant && payments[i].order == p.order) || payments[i].key == key)
  }

  /** The merchant can be paid. */
  predicate Payable(found: Option<Merchant>) { found.Some? && found.value.enabled && found.value.ledgerUser != "" }

  /**
   A payment is answered with success exactly when the merchant exists, is enabled and has a
   ledger user, and the payment is known already or its amount parses and is covered. A known
   one changes nothing; a new one adds its row and, if its key is free, its notice.
   */
  lemma PaymentAnswer(t: Desk, found: Option<Merchant>, p: Params)
    ensures var key := if p.key != "" then p.key else "pay:" + p.merchant + ":" + p.order;
            var known, amount := KnownPayment(t.payments, p, key), ParseWei(p.amountText);
            var payer := Account(p.payerUser, p.token);
            var r := Create(t, found, p);
            && (r.Ok? <==>
                Payable(found) && (known || (amount.Some? && Available(t.book, payer) >= amount.value)))
            && (r.Err? ==>
                  r.error == if found.None? then MerchantNotFound
                             else if !found.value.enabled then MerchantDisabled
                             else if found.value.ledgerUser == "" then MerchantNotConfigured
                             else if amount.None? then InvalidWei else InsufficientBalance)
            && (r.Ok? && known ==> r.value == t)
            && (r.Ok? && !known ==>
                  && r.value.payments == t.payments + [Payment(p.merchant, p.order, payer, amount.value, key)]
                  && r.value.outbox == t.outbox + if exists i :: 0 <= i < |t.outbox| && t.outbox[i].key == key then []
                                                  else [Notice(key, p.merchant, PaymentSuccess)])
  {
    hide ParseWei;
    if Payable(found) && ParseWei(p.amountText).Some? {
      TransferMoves(t.book, Account(p.payerUser, p.token), Account(found.value.ledgerUser, p.token),
                    ParseWei(p.amountText).value, |t.payments|);
      if Available(t.book, Account(p.payerUser, p.token)) < ParseWei(p.amountText).value {
        TransferError(t.book, Account(p.payerUser, p.token), Account(found.value.ledgerUser, p.token),
                      ParseWei(p.amountText).value, |t.payments|);
      }
    }
  }

  lemma TransferError(b: Book, payer: Account, merchant: Account, amount: nat, id: nat)
    requires Transfer(b, payer, merchant, amount, id).Err?
    ensures Transfer(b, payer, merchant, amount, id).error == InsufficientBalance
  {
  }

  lemma ToldAfterCreate(b: Book, b': Book, payments: seq<Payment>, p: Payment, merchant: Account)
    requires AllTold(b.entries, payments) && merchant.token == p.payer.token
    requires forall r, id :: Story(b'.entries, r, id) ==
                             Story(b.entries, r, id) +
                             if r == PaymentRef && id == |payments|
                             then [Fact(PaymentDebit, p.payer, p.amount), Fact(PaymentCredit, merchant, p.amount)]
                             else []
    ensures AllTold(b'.entries, payments + [p])
  {
    assert Story(b.entries, PaymentRef, |payments|) == [];
    forall id | 0 <= id < |payments + [p]| ensures Told(b'.entries, (payments + [p])[id], id) {
      if id < |payments| {
        assert Told(b.entries, payments[id], id);
      }
    }
  }

  lemma NoticedAfterCreate(payments: seq<Payment>, outbox: seq<Notice>, p: Payment, deposits: nat)
    requires AllNoticed(payments, outbox, deposits)
    ensures AllNoticed(payments + [p], Insert(outbox, Notice(p.key, p.merchant, PaymentSuccess)), deposits)
  {
    var payments' := payments + [p];
    var outbox' := Insert(outbox, Notice(p.key, p.merchant, PaymentSuccess));
    assert forall i :: 0 <= i < |outbox| ==> outbox'[i] == outbox[i];
    assert forall i :: 0 <= i < |payments| ==> payments'[i] == payments[i];
    forall i | 0 <= i < |payments'| ensures HasKey(outbox', payments'[i].key) {
      if HasKey(outbox, payments'[i].key) {
        var k :| 0 <= k < |outbox| && outbox[k].key == payments'[i].key;
        assert outbox'[k].key == payments'[i].key;
      } else {
        assert outbox'[|outbox|].key == payments'[i].key;
      }
    }
    forall i | 0 <= i < |outbox'| ensures Sourced(payments', outbox'[i], deposits) {
      if i < |outbox| {
        assert Sourced(payments, outbox[i], deposits);
        if outbox[i].event == PaymentSuccess {
          var k :| 0 <= k < |payments|
                   && payments[k].key == outbox[i].key && payments[k].merchant == outbox[i].merchant;
          assert payments'[k] == payments[k];
        }
      } else {
        assert payments'[|payments|] == p;
      }
    }
  }

  /** A deposit's notice does not disturb the bookkeeping of the payments. */
  lemma NoticedAfterDeposit(payments: seq<Payment>, outbox: seq<Notice>, merchants: seq<string>, id: nat)
    requires AllNoticed(payments, outbox, id)
    ensures AllNoticed(payments, EnqueueDeposit(outbox, merchants, id), id + 1)
  {
    OnlyFirstMerchantEnqueued(outbox, merchants, id);
    EnqueueKeepsUniqueKeys(outbox, merchants, id);
    var outbox' := EnqueueDeposit(outbox, merchants, id);
    assert forall i :: 0 <= i < |outbox| ==> outbox'[i] == outbox[i];
    forall i | 0 <= i < |payments| ensures HasKey(outbox', payments[i].key) {
      var k :| 0 <= k < |outbox| && outbox[k].key == payments[i].key;
      assert outbox'[k].key == payments[i].key;
    }
    forall i | 0 <= i < |outbox'| ensures Sourced(payments, outbox'[i], id + 1) {
      if i < |outbox| {
        assert Sourced(payments, outbox[i], id);
      }
    }
  }

  /** Some merchant has been sent the notice of this deposit. */
  ghost predicate Announced(outbox: seq<Notice>, id: nat)
  {
    exists m :: Notified(outbox, m, id)
  }

  /**
   A new payment gets its own notice exactly when its key is free in the outbox, which
   fails exactly when the key is that of a deposit announced before.
   */
  lemma PaymentNoticedIff(t: Desk, found: Option<Merchant>, p: Params, deposits: nat)
    requires AllNoticed(t.payments, t.outbox, deposits)
    requires Create(t, found, p).Ok? && !Duplicate(t.payments, p)
    ensures Notice(KeyOf(p), p.merchant, PaymentSuccess) in Create(t, found, p).value.outbox <==>
            !HasKey(t.outbox, KeyOf(p))
    ensures HasKey(t.outbox, KeyOf(p)) <==>
            exists id: nat :: id < deposits && KeyOf(p) == DepositKey(id) && Announced(t.outbox, id)
  {
    hide Duplicate, Transfer, ParseWei;
    KeysOfOthers(t.payments, p);
    if HasKey(t.outbox, KeyOf(p)) {
      var k :| 0 <= k < |t.outbox| && t.outbox[k].key == KeyOf(p);
      assert Sourced(t.payments, t.outbox[k], deposits);
      assert t.outbox[k].event == DepositConfirmed;
      var id: nat :| id < deposits && t.outbox[k].key == DepositKey(id);
      assert t.outbox[k] == Notice(DepositKey(id), t.outbox[k].merchant, DepositConfirmed);
      assert Notified(t.outbox, t.outbox[k].merchant, id);
    }
  }

  lemma KeysOfOthers(payments: seq<Payment>, p: Params)
    requires !Duplicate(payments, p)
    ensures forall i :: 0 <= i < |payments| ==> payments[i].key != KeyOf(p)
  {
  }

  /** The key of the next deposit is taken exactly when a payment was made under it. */
  lemma NextKeyTakenIff(payments: seq<Payment>, outbox: seq<Notice>, deposits: nat)
    requires AllNoticed(payments, outbox, deposits)
    ensures HasKey(outbox, DepositKey(deposits)) <==>
            exists i :: 0 <= i < |payments| && payments[i].key == DepositKey(deposits)
    ensures forall m :: !Notified(outbox, m, deposits)
  {
    forall k | 0 <= k < |outbox| && outbox[k].key == DepositKey(deposits)
      ensures outbox[k].event == PaymentSuccess
      ensures exists i :: 0 <= i < |payments| && payments[i].key == DepositKey(deposits)
    {
      assert Sourced(payments, outbox[k], deposits);
      if outbox[k].event == DepositConfirmed {
        var id: nat :| id < deposits && outbox[k].key == DepositKey(id);
        DepositKeyInjective(id, deposits);
      }
    }
  }

  /**
   The first capture of a deposit notifies every bound merchant exactly when nobody is
   bound, or no two different merchants are bound and no payment carries the deposit's key.
   */
  lemma DepositNoticedIff(payments: seq<Payment>, outbox: seq<Notice>, deposits: nat, merchants: seq<string>)
    requires AllNoticed(payments, outbox, deposits)
    ensures (forall m :: m in merchants ==> Notified(EnqueueDeposit(outbox, merchants, deposits), m, deposits)) <==>
            || merchants == []
            || (AllSame(merchants) && !exists i :: 0 <= i < |payments| && payments[i].key == DepositKey(deposits))
  {
    hide AllNoticed, DepositKey, Notified;
    EveryMerchantNotifiedIff(outbox, merchants, deposits);
    NextKeyTakenIff(payments, outbox, deposits);
    if |merchants| > 0 {
      assert merchants[0] in merchants;
    }
  }
}
