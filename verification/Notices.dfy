/**
 Rows of the webhook outbox as the business transactions write them: one row
 per idempotency key. Models internal/webhook/store.go (InsertOutboxTx) and
 the fan-out of internal/webhook/service.go (EnqueueDepositTx).
 */
module Notices {
  import opened Decimal

  datatype EventType = DepositConfirmed | PaymentSuccess

  datatype Notice = Notice(key: string, merchant: string, event: EventType)

  predicate HasKey(outbox: seq<Notice>, key: string)
  {
    exists i :: 0 <= i < |outbox| && outbox[i].key == key
  }

  /** Insert under the unique key; a duplicate is reported, not raised. */
  function Insert(outbox: seq<Notice>, n: Notice): seq<Notice>
  {
    if HasKey(outbox, n.key) then outbox else outbox + [n]
  }

  ghost predicate UniqueKeys(outbox: seq<Notice>)
  {
    forall i, j :: 0 <= i < j < |outbox| ==> outbox[i].key != outbox[j].key
  }

  const DEPOSIT_PREFIX := "deposit:"

  function DepositKey(id: nat): string { DEPOSIT_PREFIX + Text(id) }

  lemma DepositKeyInjective(i: nat, j: nat)
    requires DepositKey(i) == DepositKey(j)
    ensures i == j
  {
    assert DepositKey(i)[|DEPOSIT_PREFIX|..] == Text(i);
    assert DepositKey(j)[|DEPOSIT_PREFIX|..] == Text(j);
    TextInjective(i, j);
  }

  /** One insert per merchant bound to the depositor, all under the deposit's key. */
  function EnqueueDeposit(outbox: seq<Notice>, merchants: seq<string>, id: nat): seq<Notice>
    decreases |merchants|
  {
    if |merchants| == 0 then outbox
    else EnqueueDeposit(Insert(outbox, Notice(DepositKey(id), merchants[0], DepositConfirmed)), merchants[1..], id)
  }

  ghost predicate Notified(outbox: seq<Notice>, merchant: string, id: nat)
  {
    Notice(DepositKey(id), merchant, DepositConfirmed) in outbox
  }

  /** All bound merchants share one key, so the first of them gets the only row. */
  lemma {:induction false} OnlyFirstMerchantEnqueued(outbox: seq<Notice>, merchants: seq<string>, id: nat)
    ensures EnqueueDeposit(outbox, merchants, id) ==
            if |merchants| == 0 then outbox
            else Insert(outbox, Notice(DepositKey(id), merchants[0], DepositConfirmed))
    decreases |merchants|
  {
    if |merchants| > 0 {
      var next := Insert(outbox, Notice(DepositKey(id), merchants[0], DepositConfirmed));
      OnlyFirstMerchantEnqueued(next, merchants[1..], id);
      if !HasKey(outbox, DepositKey(id)) {
        assert next[|outbox|].key == DepositKey(id);
      }
      assert HasKey(next, DepositKey(id));
    }
  }

  ghost predicate AllSame(merchants: seq<string>)
  {
    forall i, j :: 0 <= i < j < |merchants| ==> merchants[i] == merchants[j]
  }

  /**
   For any outbox, a deposit reaches every merchant bound to its owner exactly when they
   all have its notice already, or its key is free and no two different merchants are bound.
   */
  lemma EveryMerchantNotifiedIff(outbox: seq<Notice>, merchants: seq<string>, id: nat)
    ensures (forall m :: m in merchants ==> Notified(EnqueueDeposit(outbox, merchants, id), m, id)) <==>
            || (forall m :: m in merchants ==> Notified(outbox, m, id))
            || (!HasKey(outbox, DepositKey(id)) && AllSame(merchants))
  {
    OnlyFirstMerchantEnqueued(outbox, merchants, id);
    if |merchants| > 0 && !HasKey(outbox, DepositKey(id)) {
      FreeKeyNotifiesFirst(outbox, merchants, id);
      var after := EnqueueDeposit(outbox, merchants, id);
      assert merchants[0] in merchants && !Notified(outbox, merchants[0], id);
      if forall m :: m in merchants ==> Notified(after, m, id) {
        forall i, j | 0 <= i < j < |merchants| ensures merchants[i] == merchants[j] {
          assert merchants[i] in merchants && merchants[j] in merchants;
        }
      }
      if AllSame(merchants) {
        forall m | m in merchants ensures Notified(after, m, id) {
          var k :| 0 <= k < |merchants| && merchants[k] == m;
          assert k > 0 ==> merchants[0] == merchants[k];
        }
      }
    }
  }

  lemma FreeKeyNotifiesFirst(outbox: seq<Notice>, merchants: seq<string>, id: nat)
    requires |merchants| > 0 && !HasKey(outbox, DepositKey(id))
    ensures forall m :: !Notified(outbox, m, id)
    ensures forall m :: Notified(EnqueueDeposit(outbox, merchants, id), m, id) <==> m == merchants[0]
  {
    OnlyFirstMerchantEnqueued(outbox, merchants, id);
    var first := Notice(DepositKey(id), merchants[0], DepositConfirmed);
    var after := outbox + [first];
    assert forall k :: 0 <= k < |outbox| ==> outbox[k].key != DepositKey(id);
    assert after[|outbox|] == first;
  }

  lemma EnqueueTakesKey(outbox: seq<Notice>, merchants: seq<string>, id: nat)
    ensures merchants != [] ==> HasKey(EnqueueDeposit(outbox, merchants, id), DepositKey(id))
  {
    OnlyFirstMerchantEnqueued(outbox, merchants, id);
    if merchants != [] && !HasKey(outbox, DepositKey(id)) {
      assert EnqueueDeposit(outbox, merchants, id)[|outbox|].key == DepositKey(id);
    }
  }

  lemma EnqueueKeepsUniqueKeys(outbox: seq<Notice>, merchants: seq<string>, id: nat)
    requires UniqueKeys(outbox)
    ensures UniqueKeys(EnqueueDeposit(outbox, merchants, id))
  {
    OnlyFirstMerchantEnqueued(outbox, merchants, id);
  }
}
