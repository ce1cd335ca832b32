/**
 The double-balance ledger: one (available, frozen) row per account and an
 append-only journal whose lines record the balances they leave behind.
 Models internal/exchange/ledger.go and the liabilities query of
 internal/exchange/store.go.
 */
module Ledger {
  import opened Outcomes

  /** Primary key of a balance row; the chain id is fixed and the token is already normalised. */
  datatype Account = Account(user: string, token: string)

  datatype Balance = Balance(available: nat, frozen: nat)

  datatype RefType = DepositRef | WithdrawRef | PaymentRef

  datatype EntryType =
    | DepositCredit | DepositReverse
    | WithdrawFreeze | WithdrawUnfreeze | WithdrawDebit
    | PaymentDebit | PaymentCredit

  datatype Op = Op(entryType: EntryType, amount: nat, refType: RefType, refId: nat,
                   deltaAvailable: int, deltaFrozen: int)

  datatype Entry = Entry(account: Account, entryType: EntryType, amount: nat, refType: RefType, refId: nat,
                         availableAfter: nat, frozenAfter: nat)

  /** The balance table together with the journal. */
  datatype Book = Book(accounts: map<Account, Balance>, entries: seq<Entry>)

  const EMPTY_BOOK := Book(map[], [])

  function BalanceOf(accounts: map<Account, Balance>, a: Account): Balance
  {
    if a in accounts then accounts[a] else Balance(0, 0)
  }

  function Available(b: Book, a: Account): nat { BalanceOf(b.accounts, a).available }

  function Frozen(b: Book, a: Account): nat { BalanceOf(b.accounts, a).frozen }

  // ---------------------------------------------------------------------
  // What each kind of journal line is supposed to do to a balance.
  // ---------------------------------------------------------------------

  datatype Effect = Effect(available: int, frozen: int)

  function EffectOf(t: EntryType, amount: nat): Effect
  {
    match t
    case DepositCredit => Effect(amount, 0)
    case DepositReverse => Effect(0 - amount, 0)
    case WithdrawFreeze => Effect(0 - amount, amount)
    case WithdrawUnfreeze => Effect(amount, 0 - amount)
    case WithdrawDebit => Effect(0, 0 - amount)
    case PaymentDebit => Effect(0 - amount, 0)
    case PaymentCredit => Effect(amount, 0)
  }

  function RefTypeOf(t: EntryType): RefType
  {
    match t
    case DepositCredit | DepositReverse => DepositRef
    case WithdrawFreeze | WithdrawUnfreeze | WithdrawDebit => WithdrawRef
    case PaymentDebit | PaymentCredit => PaymentRef
  }

  /** The operation does what a journal line of its type is supposed to do. */
  predicate Standard(op: Op)
  {
    && Effect(op.deltaAvailable, op.deltaFrozen) == EffectOf(op.entryType, op.amount)
    && op.refType == RefTypeOf(op.entryType)
  }

  // The operations that the seven callers of the ledger build.

  function CreditDeposit(amount: nat, depositId: nat): (op: Op)
    ensures Standard(op)
  {
    Op(DepositCredit, amount, DepositRef, depositId, amount, 0)
  }

  function ReverseDeposit(amount: nat, depositId: nat): (op: Op)
    ensures Standard(op)
  {
    Op(DepositReverse, amount, DepositRef, depositId, 0 - amount, 0)
  }

  function FreezeWithdraw(amount: nat, withdrawId: nat): (op: Op)
    ensures Standard(op)
  {
    Op(WithdrawFreeze, amount, WithdrawRef, withdrawId, 0 - amount, amount)
  }

  function UnfreezeWithdraw(amount: nat, withdrawId: nat): (op: Op)
    ensures Standard(op)
  {
    Op(WithdrawUnfreeze, amount, WithdrawRef, withdrawId, amount, 0 - amount)
  }

  function DebitWithdraw(amount: nat, withdrawId: nat): (op: Op)
    ensures Standard(op)
  {
    Op(WithdrawDebit, amount, WithdrawRef, withdrawId, 0, 0 - amount)
  }

  function DebitPayer(amount: nat, paymentId: nat): (op: Op)
    ensures Standard(op)
  {
    Op(PaymentDebit, amount, PaymentRef, paymentId, 0 - amount, 0)
  }

  function CreditMerchant(amount: nat, paymentId: nat): (op: Op)
    ensures Standard(op)
  {
    Op(PaymentCredit, amount, PaymentRef, paymentId, amount, 0)
  }

  // ---------------------------------------------------------------------
  // Applying an operation, and the internal transfer made of two of them.
  // ---------------------------------------------------------------------

  function Apply(b: Book, a: Account, op: Op): Result<Book, Error>
  {
    var row := BalanceOf(b.accounts, a);
    var available := row.available + op.deltaAvailable;
    var frozen := row.frozen + op.deltaFrozen;
    if available < 0 then Err(InsufficientBalance)
    else if frozen < 0 then Err(InsufficientBalance)
    else Ok(Book(b.accounts[a := Balance(available, frozen)],
                 b.entries + [Entry(a, op.entryType, op.amount, op.refType, op.refId, available, frozen)]))
  }

  function Transfer(b: Book, payer: Account, merchant: Account, amount: nat, paymentId: nat): Result<Book, Error>
  {
    match Apply(b, payer, DebitPayer(amount, paymentId))
    case Err(e) => Err(e)
    case Ok(b1) => Apply(b1, merchant, CreditMerchant(amount, paymentId))
  }

  // ---------------------------------------------------------------------
  // Replaying the journal.
  // ---------------------------------------------------------------------

  /** The balances of `a` obtained from nothing but the journal lines, oldest first. */
  function Replay(es: seq<Entry>, a: Account): Effect
  {
    if |es| == 0 then Effect(0, 0)
    else
      var before := Replay(es[..|es| - 1], a);
      var e := es[|es| - 1];
      var d := EffectOf(e.entryType, e.amount);
      if e.account == a then Effect(before.available + d.available, before.frozen + d.frozen) else before
  }

  /** The journal explains every balance, and every line records the balances it left behind. */
  ghost predicate Explained(b: Book)
  {
    && (forall a :: Effect(Available(b, a), Frozen(b, a)) == Replay(b.entries, a))
    && (forall i :: 0 <= i < |b.entries| ==> Recorded(b.entries, i))
  }

  ghost predicate Recorded(es: seq<Entry>, i: nat)
    requires i < |es|
  {
    && Effect(es[i].availableAfter, es[i].frozenAfter) == Replay(es[..i + 1], es[i].account)
    && es[i].refType == RefTypeOf(es[i].entryType)
  }

  lemma ReplayAppend(es: seq<Entry>, e: Entry, a: Account)
    ensures Replay(es + [e], a) ==
            if e.account == a
            then Effect(Replay(es, a).available + EffectOf(e.entryType, e.amount).available,
                        Replay(es, a).frozen + EffectOf(e.entryType, e.amount).frozen)
            else Replay(es, a)
  {
    assert (es + [e])[..|es|] == es;
  }

  /** Every operation keeps the journal a complete explanation of the balances. */
  lemma ApplyKeepsExplained(b: Book, a: Account, op: Op)
    requires Explained(b) && Standard(op) && Apply(b, a, op).Ok?
    ensures Explained(Apply(b, a, op).value)
  {
    var b' := Apply(b, a, op).value;
    var e := b'.entries[|b.entries|];
    forall x ensures Effect(Available(b', x), Frozen(b', x)) == Replay(b'.entries, x) {
      ReplayAppend(b.entries, e, x);
      assert Effect(Available(b, x), Frozen(b, x)) == Replay(b.entries, x);
    }
    forall i | 0 <= i < |b'.entries| ensures Recorded(b'.entries, i) {
      if i < |b.entries| {
        assert Recorded(b.entries, i);
        assert b'.entries[..i + 1] == b.entries[..i + 1];
      } else {
        assert b'.entries[..i + 1] == b'.entries;
        assert Effect(Available(b', a), Frozen(b', a)) == Replay(b'.entries, a);
      }
    }
  }

  /** No moment of the past ever showed a negative balance, on any account. */
  lemma {:induction false} NoPrefixNegative(b: Book, n: nat, a: Account)
    requires Explained(b) && n <= |b.entries|
    ensures Replay(b.entries[..n], a).available >= 0 && Replay(b.entries[..n], a).frozen >= 0
  {
    if n > 0 {
      NoPrefixNegative(b, n - 1, a);
      assert b.entries[..n] == b.entries[..n - 1] + [b.entries[n - 1]];
      assert Recorded(b.entries, n - 1);
      ReplayAppend(b.entries[..n - 1], b.entries[n - 1], a);
    }
  }

  // ---------------------------------------------------------------------
  // The story of one deposit, withdraw or payment: its journal lines in order.
  // ---------------------------------------------------------------------

  datatype Fact = Fact(entryType: EntryType, account: Account, amount: nat)

  function Story(es: seq<Entry>, r: RefType, id: nat): seq<Fact>
  {
    if |es| == 0 then []
    else
      var e := es[|es| - 1];
      Story(es[..|es| - 1], r, id) +
      (if e.refType == r && e.refId == id then [Fact(e.entryType, e.account, e.amount)] else [])
  }

  /** The existence query that guards every repeatable ledger movement. */
  predicate HasEntry(es: seq<Entry>, r: RefType, id: nat, t: EntryType)
  {
    exists i :: 0 <= i < |es| && es[i].refType == r && es[i].refId == id && es[i].entryType == t
  }

  predicate Mentions(story: seq<Fact>, t: EntryType)
  {
    exists i :: 0 <= i < |story| && story[i].entryType == t
  }

  lemma StoryAppend(es: seq<Entry>, e: Entry, r: RefType, id: nat)
    ensures Story(es + [e], r, id) ==
            Story(es, r, id) +
            (if e.refType == r && e.refId == id then [Fact(e.entryType, e.account, e.amount)] else [])
  {
    assert (es + [e])[..|es|] == es;
  }

  lemma {:induction false} HasEntryIffMentioned(es: seq<Entry>, r: RefType, id: nat, t: EntryType)
    ensures HasEntry(es, r, id, t) <==> Mentions(Story(es, r, id), t)
  {
    if |es| > 0 {
      var front, e := es[..|es| - 1], es[|es| - 1];
      HasEntryIffMentioned(front, r, id, t);
      assert es == front + [e];
      hide HasEntry, Mentions;
      EntryAppend(front, e, r, id, t);
      MentionAppend(Story(front, r, id), Fact(e.entryType, e.account, e.amount), t);
    }
  }

  lemma EntryAppend(es: seq<Entry>, e: Entry, r: RefType, id: nat, t: EntryType)
    ensures HasEntry(es + [e], r, id, t) <==>
            HasEntry(es, r, id, t) || (e.refType == r && e.refId == id && e.entryType == t)
  {
    var all := es + [e];
    assert all[|es|] == e;
    if i :| 0 <= i < |es| && es[i].refType == r && es[i].refId == id && es[i].entryType == t {
      assert all[i] == es[i];
    }
  }

  lemma MentionAppend(story: seq<Fact>, f: Fact, t: EntryType)
    ensures Mentions(story + [f], t) <==> Mentions(story, t) || f.entryType == t
    ensures story + [] == story
  {
    var all := story + [f];
    assert all[|story|] == f;
    if i :| 0 <= i < |story| && story[i].entryType == t {
      assert all[i] == story[i];
    }
  }

  /** What one operation does, seen from the outside. */
  ghost predicate Moved(b: Book, b': Book, a: Account, op: Op)
  {
    && (forall x :: Available(b', x) == Available(b, x) + if x == a then op.deltaAvailable else 0)
    && (forall x :: Frozen(b', x) == Frozen(b, x) + if x == a then op.deltaFrozen else 0)
    && (forall r, id :: Story(b'.entries, r, id) ==
                        Story(b.entries, r, id) +
                        if r == op.refType && id == op.refId then [Fact(op.entryType, a, op.amount)] else [])
  }

  lemma ApplyMoves(b: Book, a: Account, op: Op)
    ensures Apply(b, a, op).Ok? <==>
            Available(b, a) + op.deltaAvailable >= 0 && Frozen(b, a) + op.deltaFrozen >= 0
    ensures Apply(b, a, op).Ok? ==> Moved(b, Apply(b, a, op).value, a, op)
    ensures Apply(b, a, op).Err? ==> Apply(b, a, op).error == InsufficientBalance
  {
    if Apply(b, a, op).Ok? {
      var b' := Apply(b, a, op).value;
      var e := b'.entries[|b.entries|];
      forall r, id {
        StoryAppend(b.entries, e, r, id);
      }
    }
  }

  // ---------------------------------------------------------------------
  // Conservation.
  // ---------------------------------------------------------------------

  function Owed(a: Account, b: Balance, token: string): nat
  {
    if a.token == token then b.available + b.frozen else 0
  }

  /** What the platform owes its users in one token: the SUM of the reconcile query. */
  ghost function Liabilities(accounts: map<Account, Balance>, token: string): nat
    decreases |accounts|
  {
    if accounts == map[] then 0
    else
      var a :| a in accounts;
      Owed(a, accounts[a], token) + Liabilities(accounts - {a}, token)
  }

  lemma {:induction false} LiabilitiesWithout(accounts: map<Account, Balance>, a: Account, token: string)
    requires a in accounts
    ensures Liabilities(accounts, token) == Owed(a, accounts[a], token) + Liabilities(accounts - {a}, token)
    decreases |accounts|
  {
    var p :| p in accounts &&
             Liabilities(accounts, token) == Owed(p, accounts[p], token) + Liabilities(accounts - {p}, token);
    if p != a {
      LiabilitiesWithout(accounts - {p}, a, token);
      LiabilitiesWithout(accounts - {a}, p, token);
      assert accounts - {p} - {a} == accounts - {a} - {p};
    }
  }

  lemma LiabilitiesUpdate(accounts: map<Account, Balance>, a: Account, b: Balance, token: string)
    ensures Liabilities(accounts[a := b], token) ==
            Liabilities(accounts, token) - Owed(a, BalanceOf(accounts, a), token) + Owed(a, b, token)
  {
    LiabilitiesWithout(accounts[a := b], a, token);
    assert accounts[a := b] - {a} == accounts - {a};
    if a in accounts {
      LiabilitiesWithout(accounts, a, token);
    } else {
      assert accounts - {a} == accounts;
    }
  }

  /** Total amount of the journal lines of one type in one token. */
  function Volume(es: seq<Entry>, token: string, t: EntryType): nat
  {
    if |es| == 0 then 0
    else
      var e := es[|es| - 1];
      Volume(es[..|es| - 1], token, t) + if e.entryType == t && e.account.token == token then e.amount else 0
  }

  /** Deposits in, reversals and paid-out withdraws out; payment legs counted separately. */
  function Inflow(es: seq<Entry>, token: string): int
  {
    Volume(es, token, DepositCredit) - Volume(es, token, DepositReverse) - Volume(es, token, WithdrawDebit)
  }

  ghost predicate Conserved(b: Book)
  {
    forall token :: Liabilities(b.accounts, token) ==
                    Inflow(b.entries, token) +
                    Volume(b.entries, token, PaymentCredit) - Volume(b.entries, token, PaymentDebit)
  }

  ghost predicate PaymentsBalance(b: Book)
  {
    forall token :: Volume(b.entries, token, PaymentCredit) == Volume(b.entries, token, PaymentDebit)
  }

  lemma VolumeAppend(es: seq<Entry>, e: Entry, token: string, t: EntryType)
    ensures Volume(es + [e], token, t) ==
            Volume(es, token, t) + if e.entryType == t && e.account.token == token then e.amount else 0
  {
    assert (es + [e])[..|es|] == es;
  }

  lemma ApplyKeepsConserved(b: Book, a: Account, op: Op)
    requires Conserved(b) && Standard(op) && Apply(b, a, op).Ok?
    ensures Conserved(Apply(b, a, op).value)
    ensures op.entryType != PaymentDebit && op.entryType != PaymentCredit && PaymentsBalance(b)
            ==> PaymentsBalance(Apply(b, a, op).value)
  {
    var b' := Apply(b, a, op).value;
    var e := b'.entries[|b.entries|];
    forall token
      ensures Liabilities(b'.accounts, token) ==
              Inflow(b'.entries, token) +
              Volume(b'.entries, token, PaymentCredit) - Volume(b'.entries, token, PaymentDebit)
    {
      LiabilitiesUpdate(b.accounts, a, b'.accounts[a], token);
      VolumeAppend(b.entries, e, token, DepositCredit);
      VolumeAppend(b.entries, e, token, DepositReverse);
      VolumeAppend(b.entries, e, token, WithdrawDebit);
      VolumeAppend(b.entries, e, token, PaymentCredit);
      VolumeAppend(b.entries, e, token, PaymentDebit);
      assert Liabilities(b.accounts, token) ==
             Inflow(b.entries, token) +
             Volume(b.entries, token, PaymentCredit) - Volume(b.entries, token, PaymentDebit);
    }
    if op.entryType != PaymentDebit && op.entryType != PaymentCredit && PaymentsBalance(b) {
      forall token
        ensures Volume(b'.entries, token, PaymentCredit) == Volume(b'.entries, token, PaymentDebit)
      {
        VolumeAppend(b.entries, e, token, PaymentCredit);
        VolumeAppend(b.entries, e, token, PaymentDebit);
        assert Volume(b.entries, token, PaymentCredit) == Volume(b.entries, token, PaymentDebit);
      }
    }
  }

  /** The standing facts about a book that every committed transaction leaves in place. */
  ghost predicate Sound(b: Book)
  {
    Explained(b) && Conserved(b) && PaymentsBalance(b)
  }

  lemma ApplyKeepsSound(b: Book, a: Account, op: Op)
    requires Sound(b) && Standard(op) && Apply(b, a, op).Ok?
    requires op.entryType != PaymentDebit && op.entryType != PaymentCredit
    ensures Sound(Apply(b, a, op).value)
  {
    ApplyKeepsExplained(b, a, op);
    ApplyKeepsConserved(b, a, op);
  }

  /** An internal payment, even to oneself, moves money without creating or destroying any. */
  lemma TransferKeepsSound(b: Book, payer: Account, merchant: Account, amount: nat, paymentId: nat)
    requires Sound(b) && payer.token == merchant.token
    requires Transfer(b, payer, merchant, amount, paymentId).Ok?
    ensures Sound(Transfer(b, payer, merchant, amount, paymentId).value)
    ensures Liabilities(Transfer(b, payer, merchant, amount, paymentId).value.accounts, payer.token) ==
            Liabilities(b.accounts, payer.token)
  {
    var debit, credit := DebitPayer(amount, paymentId), CreditMerchant(amount, paymentId);
    var b1 := Apply(b, payer, debit).value;
    var b2 := Apply(b1, merchant, credit).value;
    ApplyKeepsExplained(b, payer, debit);
    ApplyKeepsExplained(b1, merchant, credit);
    ApplyKeepsConserved(b, payer, debit);
    ApplyKeepsConserved(b1, merchant, credit);
    var e1, e2 := b1.entries[|b.entries|], b2.entries[|b1.entries|];
    forall token
      ensures Volume(b2.entries, token, PaymentCredit) == Volume(b2.entries, token, PaymentDebit)
      ensures Inflow(b2.entries, token) == Inflow(b.entries, token)
    {
      assert Volume(b.entries, token, PaymentCredit) == Volume(b.entries, token, PaymentDebit);
      TransferVolumes(b, e1, e2, token, PaymentCredit);
      TransferVolumes(b, e1, e2, token, PaymentDebit);
      TransferVolumes(b, e1, e2, token, DepositCredit);
      TransferVolumes(b, e1, e2, token, DepositReverse);
      TransferVolumes(b, e1, e2, token, WithdrawDebit);
      assert b2.entries == b.entries + [e1] + [e2];
    }
  }

  lemma TransferVolumes(b: Book, e1: Entry, e2: Entry, token: string, t: EntryType)
    ensures Volume(b.entries + [e1] + [e2], token, t) ==
            Volume(b.entries, token, t)
            + (if e1.entryType == t && e1.account.token == token then e1.amount else 0)
            + (if e2.entryType == t && e2.account.token == token then e2.amount else 0)
  {
    VolumeAppend(b.entries, e1, token, t);
    VolumeAppend(b.entries + [e1], e2, token, t);
  }

  /** An internal payment goes through exactly when the payer can cover it, and tells its story in two lines. */
  lemma TransferMoves(b: Book, payer: Account, merchant: Account, amount: nat, paymentId: nat)
    ensures Transfer(b, payer, merchant, amount, paymentId).Ok? <==> Available(b, payer) >= amount
    ensures Transfer(b, payer, merchant, amount, paymentId).Ok? ==>
              var b' := Transfer(b, payer, merchant, amount, paymentId).value;
              && (forall x :: Available(b', x) == Available(b, x)
                                                  - (if x == payer then amount else 0)
                                                  + (if x == merchant then amount else 0))
              && (forall x :: Frozen(b', x) == Frozen(b, x))
              && (forall r, id :: Story(b'.entries, r, id) ==
                                  Story(b.entries, r, id) +
                                  if r == PaymentRef && id == paymentId
                                  then [Fact(PaymentDebit, payer, amount), Fact(PaymentCredit, merchant, amount)]
                                  else [])
  {
    ApplyMoves(b, payer, DebitPayer(amount, paymentId));
    if Available(b, payer) >= amount {
      var b1 := Apply(b, payer, DebitPayer(amount, paymentId)).value;
      ApplyMoves(b1, merchant, CreditMerchant(amount, paymentId));
      var b2 := Apply(b1, merchant, CreditMerchant(amount, paymentId)).value;
      forall r, id
        ensures Story(b2.entries, r, id) ==
                Story(b.entries, r, id) +
                if r == PaymentRef && id == paymentId
                then [Fact(PaymentDebit, payer, amount), Fact(PaymentCredit, merchant, amount)]
                else []
      {
        assert Story(b1.entries, r, id) ==
               Story(b.entries, r, id) +
               if r == PaymentRef && id == paymentId then [Fact(PaymentDebit, payer, amount)] else [];
      }
    }
  }
}
