/**
 Withdraw requests: creation with an idempotency key, review, the claim of a
 broadcast worker, and settlement by the chain. Models
 internal/exchange/service.go and the withdraw half of internal/exchange/store.go.

 Every guard query of the source goes through one function that looks for journal
 lines of the *deposit* reference type, also when it guards a withdraw. The type
 it looks under is therefore the parameter `guard` here: `WithdrawRef` is what the
 calls mean, `DepositRef` is what the query says.
 */
module Withdraws {
  import opened Outcomes
  import opened Ledger
  import opened Decimal

  datatype Status = PendingReview | Approved | Rejected | Broadcasting | Confirmed | Failed

  /** `key` is the idempotency key; the empty string stands for none and is never unique. */
  datatype Withdraw = Withdraw(account: Account, amount: nat, status: Status, txHash: Option<string>, key: string)

  datatype Params = Params(account: Account, amountText: string, addressValid: bool, key: string)

  /** The tables a withdraw transaction may touch. A row's id is its position. */
  datatype Desk = Desk(book: Book, withdraws: seq<Withdraw>)

  predicate Open(s: Status) { s == PendingReview || s == Approved || s == Broadcasting }

  /** Progress through the life of a request; the three outcomes share the top. */
  function Rank(s: Status): nat
  {
    match s
    case PendingReview => 0
    case Approved => 1
    case Broadcasting => 2
    case Rejected | Confirmed | Failed => 3
  }

  function FindKey(ws: seq<Withdraw>, key: string): (r: Option<nat>)
    ensures r.Some? ==> r.value < |ws| && ws[r.value].key == key
    ensures r.None? ==> forall i :: 0 <= i < |ws| ==> ws[i].key != key
  {
    if |ws| == 0 then None
    else if ws[|ws| - 1].key == key then Some(|ws| - 1)
    else FindKey(ws[..|ws| - 1], key)
  }

  function FindHash(ws: seq<Withdraw>, hash: string): (r: Option<nat>)
    ensures r.Some? ==> r.value < |ws| && ws[r.value].txHash == Some(hash)
    ensures r.None? ==> forall i :: 0 <= i < |ws| ==> ws[i].txHash != Some(hash)
  {
    if |ws| == 0 then None
    else if ws[|ws| - 1].txHash == Some(hash) then Some(|ws| - 1)
    else FindHash(ws[..|ws| - 1], hash)
  }

  // ---------------------------------------------------------------------
  // The transactions.
  // ---------------------------------------------------------------------

  /** The request row that already owns the idempotency key, if any. */
  function Existing(ws: seq<Withdraw>, p: Params): Option<nat>
  {
    if p.key == "" then None else FindKey(ws, p.key)
  }

  predicate ValidParams(p: Params)
  {
    ParseWei(p.amountText).Some? && ParseWei(p.amountText).value > 0 && p.addressValid
  }

  function Create(t: Desk, guard: RefType, p: Params, autoApprove: bool): Result<Desk, Error>
  {
    var parsed := ParseWei(p.amountText);
    if parsed.None? || parsed.value == 0 then Err(InvalidWei)
    else if !p.addressValid then Err(InvalidAddress)
    else
      var amount := parsed.value;
      var existing := Existing(t.withdraws, p);
      if existing.Some? && HasEntry(t.book.entries, guard, existing.value, WithdrawFreeze) then Ok(t)
      else
        var id := if existing.Some? then existing.value else |t.withdraws|;
        var status := if autoApprove then Approved else PendingReview;
        var ws := if existing.Some? then t.withdraws
                  else t.withdraws + [Withdraw(p.account, amount, status, None, p.key)];
        match Apply(t.book, p.account, FreezeWithdraw(amount, id))
        case Err(e) => Err(e)
        case Ok(b) => Ok(Desk(b, ws))
  }

  function SetStatus(ws: seq<Withdraw>, id: nat, s: Status): seq<Withdraw>
    requires id < |ws|
  {
    ws[id := ws[id].(status := s)]
  }

  /** The compare-and-set shared by approval and by the claim of a broadcast worker. */
  function CompareAndSet(t: Desk, id: nat, from: Status, to: Status, error: Error): Result<Desk, Error>
  {
    if id < |t.withdraws| && t.withdraws[id].status == from
    then Ok(t.(withdraws := SetStatus(t.withdraws, id, to)))
    else Err(error)
  }

  function Approve(t: Desk, id: nat): Result<Desk, Error>
  {
    CompareAndSet(t, id, PendingReview, Approved, InvalidState)
  }

  function ClaimBroadcast(t: Desk, id: nat): Result<Desk, Error>
  {
    CompareAndSet(t, id, Approved, Broadcasting, AlreadyHandled)
  }

  function Reject(t: Desk, id: nat): Result<Desk, Error>
  {
    if id >= |t.withdraws| then Err(NotFound)
    else if t.withdraws[id].status != PendingReview then Err(InvalidState)
    else
      var w := t.withdraws[id];
      match Apply(t.book, w.account, UnfreezeWithdraw(w.amount, id))
      case Err(e) => Err(e)
      case Ok(b) => Ok(Desk(b, SetStatus(t.withdraws, id, Rejected)))
  }

  /** The update after a successful send: unconditional, it also writes the status. */
  function RecordBroadcast(t: Desk, id: nat, hash: string): Desk
    requires id < |t.withdraws|
  {
    t.(withdraws := t.withdraws[id := t.withdraws[id].(status := Broadcasting, txHash := Some(hash))])
  }

  /** Failing releases the funds only if the guard finds a freeze and no release; the status write is unconditional. */
  function FailAndUnfreeze(t: Desk, guard: RefType, id: nat): Result<Desk, Error>
    requires id < |t.withdraws|
  {
    var w := t.withdraws[id];
    if Releases(t.book.entries, guard, id) then
      match Apply(t.book, w.account, UnfreezeWithdraw(w.amount, id))
      case Err(e) => Err(e)
      case Ok(b) => Ok(Desk(b, SetStatus(t.withdraws, id, Failed)))
    else Ok(t.(withdraws := SetStatus(t.withdraws, id, Failed)))
  }

  predicate Releases(es: seq<Entry>, guard: RefType, id: nat)
  {
    !HasEntry(es, guard, id, WithdrawUnfreeze) && HasEntry(es, guard, id, WithdrawFreeze)
  }

  function OnConfirmed(t: Desk, guard: RefType, hash: string): Result<Desk, Error>
  {
    var found := FindHash(t.withdraws, hash);
    if found.None? then Ok(t)
    else
      var id := found.value;
      var w := t.withdraws[id];
      if w.status != Broadcasting && w.status != Approved then Ok(t)
      else SettleConfirmed(t, guard, id)
  }

  /** The transaction of a confirmation; the status check belongs to the read before it. */
  function SettleConfirmed(t: Desk, guard: RefType, id: nat): Result<Desk, Error>
    requires id < |t.withdraws|
  {
    var w := t.withdraws[id];
    if HasEntry(t.book.entries, guard, id, WithdrawDebit) then
      Ok(t.(withdraws := SetStatus(t.withdraws, id, Confirmed)))
    else
      match Apply(t.book, w.account, DebitWithdraw(w.amount, id))
      case Err(e) => Err(e)
      case Ok(b) => Ok(Desk(b, SetStatus(t.withdraws, id, Confirmed)))
  }

  function OnFailed(t: Desk, guard: RefType, hash: string): Result<Desk, Error>
  {
    var found := FindHash(t.withdraws, hash);
    if found.None? then Ok(t)
    else if t.withdraws[found.value].status == Failed || t.withdraws[found.value].status == Confirmed then Ok(t)
    else FailAndUnfreeze(t, guard, found.value)
  }

  // ---------------------------------------------------------------------
  // The sum of the requests still holding funds.
  // ---------------------------------------------------------------------

  function Held(w: Withdraw, a: Account): nat
  {
    if w.account == a && Open(w.status) then w.amount else 0
  }

  function OpenSum(ws: seq<Withdraw>, a: Account): nat
  {
    if |ws| == 0 then 0 else OpenSum(ws[..|ws| - 1], a) + Held(ws[|ws| - 1], a)
  }

  lemma OpenSumAppend(ws: seq<Withdraw>, w: Withdraw, a: Account)
    ensures OpenSum(ws + [w], a) == OpenSum(ws, a) + Held(w, a)
  {
    assert (ws + [w])[..|ws|] == ws;
  }

  lemma {:induction false} OpenSumUpdate(ws: seq<Withdraw>, id: nat, w: Withdraw, a: Account)
    requires id < |ws|
    ensures OpenSum(ws[id := w], a) == OpenSum(ws, a) - Held(ws[id], a) + Held(w, a)
    ensures OpenSum(ws, a) >= Held(ws[id], a)
    decreases |ws|
  {
    var n := |ws| - 1;
    if id < n {
      OpenSumUpdate(ws[..n], id, w, a);
      assert ws[id := w][..n] == ws[..n][id := w];
    } else {
      assert ws[id := w][..n] == ws[..n];
    }
  }

  // ---------------------------------------------------------------------
  // Invariants.
  // ---------------------------------------------------------------------

  /** Shape of the rows themselves: positive amounts, and a hash only once broadcast. */
  ghost predicate RowsOk(ws: seq<Withdraw>)
  {
    && (forall i :: 0 <= i < |ws| ==> ws[i].amount > 0)
    && (forall i :: 0 <= i < |ws| && ws[i].txHash.Some? ==>
          ws[i].status == Broadcasting || ws[i].status == Confirmed || ws[i].status == Failed)
    && (forall i, j :: 0 <= i < j < |ws| && ws[i].key != "" ==> ws[i].key != ws[j].key)
  }

  /** The journal lines a request of this status has caused: a freeze, closed at most once. */
  function ExpectedStory(w: Withdraw): seq<Fact>
  {
    var freeze := Fact(WithdrawFreeze, w.account, w.amount);
    match w.status
    case PendingReview | Approved | Broadcasting => [freeze]
    case Rejected | Failed => [freeze, Fact(WithdrawUnfreeze, w.account, w.amount)]
    case Confirmed => [freeze, Fact(WithdrawDebit, w.account, w.amount)]
  }

  ghost predicate AllTold(es: seq<Entry>, ws: seq<Withdraw>)
  {
    && (forall id :: 0 <= id < |ws| ==> Story(es, WithdrawRef, id) == ExpectedStory(ws[id]))
    && (forall id: nat :: id >= |ws| ==> Story(es, WithdrawRef, id) == [])
  }

  /** Frozen money minus the money open requests should be holding. */
  function Excess(t: Desk, a: Account): int { Frozen(t.book, a) - OpenSum(t.withdraws, a) }

  ghost predicate NoExcess(t: Desk) { forall a :: Frozen(t.book, a) == OpenSum(t.withdraws, a) }

  ghost predicate WithdrawFrame(b: Book, b': Book)
  {
    forall r, id :: r != WithdrawRef ==> Story(b'.entries, r, id) == Story(b.entries, r, id)
  }

  /** Under the query as written, no withdraw guard ever finds anything. */
  lemma LiteralGuardIsBlind(es: seq<Entry>, guard: RefType, id: nat, t: EntryType)
    requires forall i :: 0 <= i < |es| ==> es[i].refType == RefTypeOf(es[i].entryType)
    requires guard != WithdrawRef && RefTypeOf(t) == WithdrawRef
    ensures !HasEntry(es, guard, id, t)
  {
  }

  /** Under the meant query, a guard sees exactly what the request's status says happened. */
  lemma MeantGuardSees(es: seq<Entry>, ws: seq<Withdraw>, id: nat)
    requires AllTold(es, ws) && id < |ws|
    ensures HasEntry(es, WithdrawRef, id, WithdrawFreeze)
    ensures HasEntry(es, WithdrawRef, id, WithdrawUnfreeze) <==> ws[id].status == Rejected || ws[id].status == Failed
    ensures HasEntry(es, WithdrawRef, id, WithdrawDebit) <==> ws[id].status == Confirmed
  {
    var s := Story(es, WithdrawRef, id);
    HasEntryIffMentioned(es, WithdrawRef, id, WithdrawFreeze);
    HasEntryIffMentioned(es, WithdrawRef, id, WithdrawUnfreeze);
    HasEntryIffMentioned(es, WithdrawRef, id, WithdrawDebit);
    assert s == ExpectedStory(ws[id]);
    assert s[0].entryType == WithdrawFreeze;
    if !Open(ws[id].status) {
      assert s[1].entryType == if ws[id].status == Confirmed then WithdrawDebit else WithdrawUnfreeze;
    }
  }

  // ---------------------------------------------------------------------
  // What each transaction does to the invariants, under either guard.
  // ---------------------------------------------------------------------

  /** Funds a creation freezes a second time because its guard missed the first freeze. */
  function CreateLeak(t: Desk, guard: RefType, p: Params, autoApprove: bool, a: Account): nat
  {
    var existing := Existing(t.withdraws, p);
    if Create(t, guard, p, autoApprove).Ok? && existing.Some? && a == p.account
       && !HasEntry(t.book.entries, guard, existing.value, WithdrawFreeze)
    then ParseWei(p.amountText).value else 0
  }

  /** Funds that stay frozen because the guard saw nothing to release. */
  function FailLeak(t: Desk, guard: RefType, id: nat, a: Account): nat
    requires id < |t.withdraws|
  {
    if Releases(t.book.entries, guard, id) then 0 else Held(t.withdraws[id], a)
  }

  /** Funds that stay frozen because the guard believed they had been paid out already. */
  function ConfirmLeak(t: Desk, guard: RefType, id: nat, a: Account): nat
    requires id < |t.withdraws|
  {
    if HasEntry(t.book.entries, guard, id, WithdrawDebit) then Held(t.withdraws[id], a) else 0
  }

  /** Everything a committed withdraw transaction keeps, whatever the guard. */
  ghost predicate Kept(t: Desk, t': Desk)
  {
    && Sound(t'.book) && RowsOk(t'.withdraws) && WithdrawFrame(t.book, t'.book)
    && |t'.withdraws| >= |t.withdraws|
    && (forall i :: 0 <= i < |t.withdraws| ==>
          && t'.withdraws[i].account == t.withdraws[i].account
          && t'.withdraws[i].amount == t.withdraws[i].amount
          && t'.withdraws[i].key == t.withdraws[i].key
          && Rank(t'.withdraws[i].status) >= Rank(t.withdraws[i].status)
          && (t.withdraws[i].txHash.Some? ==> t'.withdraws[i].txHash == t.withdraws[i].txHash))
  }

  lemma CreateFreshStep(t: Desk, account: Account, amount: nat, status: Status, key: string)
    requires Sound(t.book) && RowsOk(t.withdraws) && amount > 0 && (status == Approved || status == PendingReview)
    requires key == "" || FindKey(t.withdraws, key).None?
    requires Apply(t.book, account, FreezeWithdraw(amount, |t.withdraws|)).Ok?
    ensures var b' := Apply(t.book, account, FreezeWithdraw(amount, |t.withdraws|)).value;
            var t' := Desk(b', t.withdraws + [Withdraw(account, amount, status, None, key)]);
            && Kept(t, t')
            && (forall a :: Excess(t', a) == Excess(t, a))
            && (AllTold(t.book.entries, t.withdraws) ==> AllTold(t'.book.entries, t'.withdraws))
  {
    var op := FreezeWithdraw(amount, |t.withdraws|);
    var b' := Apply(t.book, account, op).value;
    var w := Withdraw(account, amount, status, None, key);
    ApplyMoves(t.book, account, op);
    ApplyKeepsSound(t.book, account, op);
    var t' := Desk(b', t.withdraws + [w]);
    forall a ensures Excess(t', a) == Excess(t, a) {
      OpenSumAppend(t.withdraws, w, a);
    }
    if AllTold(t.book.entries, t.withdraws) {
      ToldAfterCreate(t.book, b', t.withdraws, w);
    }
  }

  lemma ToldAfterCreate(b: Book, b': Book, ws: seq<Withdraw>, w: Withdraw)
    requires AllTold(b.entries, ws) && Open(w.status)
    requires Moved(b, b', w.account, FreezeWithdraw(w.amount, |ws|))
    ensures AllTold(b'.entries, ws + [w])
  {
    assert Story(b.entries, WithdrawRef, |ws|) == [];
    forall id | 0 <= id < |ws + [w]| ensures Story(b'.entries, WithdrawRef, id) == ExpectedStory((ws + [w])[id]) {
    }
  }

  lemma ToldAfterClose(b: Book, b': Book, ws: seq<Withdraw>, id: nat, s: Status, op: Op)
    requires AllTold(b.entries, ws) && id < |ws| && Open(ws[id].status) && !Open(s)
    requires op == if s == Confirmed then DebitWithdraw(ws[id].amount, id) else UnfreezeWithdraw(ws[id].amount, id)
    requires Moved(b, b', ws[id].account, op)
    ensures AllTold(b'.entries, SetStatus(ws, id, s))
  {
    var ws' := SetStatus(ws, id, s);
    assert Story(b.entries, WithdrawRef, id) == [Fact(WithdrawFreeze, ws[id].account, ws[id].amount)];
    forall k | 0 <= k < |ws'| ensures Story(b'.entries, WithdrawRef, k) == ExpectedStory(ws'[k]) {
    }
  }

  lemma CreateStep(t: Desk, guard: RefType, p: Params, autoApprove: bool)
    requires Sound(t.book) && RowsOk(t.withdraws) && Create(t, guard, p, autoApprove).Ok?
    ensures var t' := Create(t, guard, p, autoApprove).value;
            && Kept(t, t')
            && (forall a :: Excess(t', a) == Excess(t, a) + CreateLeak(t, guard, p, autoApprove, a))
            && (forall i :: 0 <= i < |t.withdraws| ==> t'.withdraws[i] == t.withdraws[i])
    ensures guard == WithdrawRef && AllTold(t.book.entries, t.withdraws) ==>
              var t' := Create(t, guard, p, autoApprove).value;
              && AllTold(t'.book.entries, t'.withdraws)
              && (Existing(t.withdraws, p).Some? ==> t' == t)
  {
    var existing := Existing(t.withdraws, p);
    if existing.None? {
      var status := if autoApprove then Approved else PendingReview;
      CreateFreshStep(t, p.account, ParseWei(p.amountText).value, status, p.key);
    } else {
      if guard == WithdrawRef && AllTold(t.book.entries, t.withdraws) {
        MeantGuardSees(t.book.entries, t.withdraws, existing.value);
      }
      if !HasEntry(t.book.entries, guard, existing.value, WithdrawFreeze) {
        var op := FreezeWithdraw(ParseWei(p.amountText).value, existing.value);
        ApplyMoves(t.book, p.account, op);
        ApplyKeepsSound(t.book, p.account, op);
      }
    }
  }

  /** Some request has this idempotency key. */
  predicate KeyTaken(ws: seq<Withdraw>, key: string) { key != "" && exists i :: 0 <= i < |ws| && ws[i].key == key }

  /** The account gains `available` and `frozen`, and no other account moves. */
  ghost predicate Shifted(b: Book, b': Book, a: Account, available: int, frozen: int)
  {
    && Available(b', a) == Available(b, a) + available && Frozen(b', a) == Frozen(b, a) + frozen
    && (forall x :: x != a ==> Available(b', x) == Available(b, x) && Frozen(b', x) == Frozen(b, x))
  }

  /**
   A request is accepted exactly when it is well formed and either its key has frozen funds
   already or the balance covers it. A first acceptance records what was asked for and
   freezes exactly the amount, on the requester's account alone; a repeated one that finds
   its freeze changes nothing.
   */
  lemma CreateIff(t: Desk, guard: RefType, p: Params, autoApprove: bool)
    ensures Existing(t.withdraws, p).Some? <==> KeyTaken(t.withdraws, p.key)
    ensures Create(t, guard, p, autoApprove).Ok? <==>
            && ParseWei(p.amountText).Some? && ParseWei(p.amountText).value > 0 && p.addressValid
            && (|| (KeyTaken(t.withdraws, p.key)
                    && HasEntry(t.book.entries, guard, Existing(t.withdraws, p).value, WithdrawFreeze))
                || Available(t.book, p.account) >= ParseWei(p.amountText).value)
    ensures Create(t, guard, p, autoApprove).Err? ==>
              Create(t, guard, p, autoApprove).error ==
              if ParseWei(p.amountText).None? || ParseWei(p.amountText).value == 0 then InvalidWei
              else if !p.addressValid then InvalidAddress else InsufficientBalance
    ensures Create(t, guard, p, autoApprove).Ok? && !KeyTaken(t.withdraws, p.key) ==>
              var t' := Create(t, guard, p, autoApprove).value;
              var amount := ParseWei(p.amountText).value;
              var status := if autoApprove then Approved else PendingReview;
              && t'.withdraws == t.withdraws + [Withdraw(p.account, amount, status, None, p.key)]
              && Shifted(t.book, t'.book, p.account, 0 - amount, amount)
    ensures Create(t, guard, p, autoApprove).Ok? && KeyTaken(t.withdraws, p.key) ==>
              var t' := Create(t, guard, p, autoApprove).value;
              && t'.withdraws == t.withdraws
              && (HasEntry(t.book.entries, guard, Existing(t.withdraws, p).value, WithdrawFreeze) ==> t' == t)
  {
    hide HasEntry;
    if ValidParams(p) {
      var existing := Existing(t.withdraws, p);
      var id := if existing.Some? then existing.value else |t.withdraws|;
      ApplyMoves(t.book, p.account, FreezeWithdraw(ParseWei(p.amountText).value, id));
    }
  }

  /** An approval hits exactly a request under review, and that request alone becomes approved. */
  lemma ApproveIff(t: Desk, id: nat)
    ensures Approve(t, id) ==
            if id < |t.withdraws| && t.withdraws[id].status == PendingReview
            then Ok(Desk(t.book, t.withdraws[id := t.withdraws[id].(status := Approved)])) else Err(InvalidState)
  {
  }

  /** A claim hits exactly an approved request, and that request alone becomes broadcasting. */
  lemma ClaimIff(t: Desk, id: nat)
    ensures ClaimBroadcast(t, id) ==
            if id < |t.withdraws| && t.withdraws[id].status == Approved
            then Ok(Desk(t.book, t.withdraws[id := t.withdraws[id].(status := Broadcasting)])) else Err(AlreadyHandled)
  {
  }

  /**
   A rejection commits exactly when the request exists, is under review and has its amount
   frozen; then that request alone becomes rejected and its amount goes back from frozen to
   available on its account alone.
   */
  lemma RejectIff(t: Desk, id: nat)
    ensures Reject(t, id).Ok? <==>
            && id < |t.withdraws| && t.withdraws[id].status == PendingReview
            && Frozen(t.book, t.withdraws[id].account) >= t.withdraws[id].amount
    ensures Reject(t, id).Err? ==>
              Reject(t, id).error == if id >= |t.withdraws| then NotFound
                                     else if t.withdraws[id].status != PendingReview then InvalidState
                                     else InsufficientBalance
    ensures Reject(t, id).Ok? ==>
              var w, t' := t.withdraws[id], Reject(t, id).value;
              && t'.withdraws == t.withdraws[id := w.(status := Rejected)]
              && Shifted(t.book, t'.book, w.account, w.amount, 0 - w.amount)
  {
    if id < |t.withdraws| {
      ApplyMoves(t.book, t.withdraws[id].account, UnfreezeWithdraw(t.withdraws[id].amount, id));
    }
  }

  /**
   A failure commits unless it has to release money that is not frozen; then that request
   alone becomes failed, and its amount goes back to available exactly when the guard finds
   its freeze and no release.
   */
  lemma FailIff(t: Desk, guard: RefType, id: nat)
    requires id < |t.withdraws|
    ensures var w := t.withdraws[id];
            var releases := HasEntry(t.book.entries, guard, id, WithdrawFreeze)
                            && !HasEntry(t.book.entries, guard, id, WithdrawUnfreeze);
            var r := FailAndUnfreeze(t, guard, id);
            && (r.Ok? <==> (releases ==> Frozen(t.book, w.account) >= w.amount))
            && (r.Err? ==> r.error == InsufficientBalance)
            && (r.Ok? ==>
                  && r.value.withdraws == t.withdraws[id := w.(status := Failed)]
                  && (if releases then Shifted(t.book, r.value.book, w.account, w.amount, 0 - w.amount)
                      else r.value.book == t.book))
  {
    hide HasEntry;
    ApplyMoves(t.book, t.withdraws[id].account, UnfreezeWithdraw(t.withdraws[id].amount, id));
  }

  /** A confirmation: that request alone becomes confirmed, and pays out of frozen unless the guard finds a payout. */
  lemma ConfirmIff(t: Desk, guard: RefType, id: nat)
    requires id < |t.withdraws|
    ensures var w := t.withdraws[id];
            var pays := !HasEntry(t.book.entries, guard, id, WithdrawDebit);
            var r := SettleConfirmed(t, guard, id);
            && (r.Ok? <==> (pays ==> Frozen(t.book, w.account) >= w.amount))
            && (r.Err? ==> r.error == InsufficientBalance)
            && (r.Ok? ==>
                  && r.value.withdraws == t.withdraws[id := w.(status := Confirmed)]
                  && (if pays then Shifted(t.book, r.value.book, w.account, 0, 0 - w.amount)
                      else r.value.book == t.book))
  {
    hide HasEntry;
    ApplyMoves(t.book, t.withdraws[id].account, DebitWithdraw(t.withdraws[id].amount, id));
  }

  /** The callbacks as a whole: nothing without a request of that hash in the right state, else its transaction. */
  lemma CallbacksIff(t: Desk, guard: RefType, hash: string)
    ensures (forall i :: 0 <= i < |t.withdraws| ==> t.withdraws[i].txHash != Some(hash)) ==>
              OnConfirmed(t, guard, hash) == Ok(t) && OnFailed(t, guard, hash) == Ok(t)
    ensures (exists i :: 0 <= i < |t.withdraws| && t.withdraws[i].txHash == Some(hash)) ==>
              && FindHash(t.withdraws, hash).Some?
              && var id := FindHash(t.withdraws, hash).value;
                 && t.withdraws[id].txHash == Some(hash)
                 && OnConfirmed(t, guard, hash) == (if t.withdraws[id].status in {Broadcasting, Approved}
                                                    then SettleConfirmed(t, guard, id) else Ok(t))
                 && OnFailed(t, guard, hash) == (if t.withdraws[id].status in {Failed, Confirmed}
                                                 then Ok(t) else FailAndUnfreeze(t, guard, id))
  {
    hide HasEntry, Apply;
  }

  /** A status write that moves no money: approval, claim, or recording the hash. */
  lemma StatusStep(t: Desk, id: nat, w: Withdraw)
    requires Sound(t.book) && RowsOk(t.withdraws) && id < |t.withdraws|
    requires Open(t.withdraws[id].status) && Open(w.status)
    requires w.account == t.withdraws[id].account && w.amount == t.withdraws[id].amount && w.key == t.withdraws[id].key
    requires Rank(w.status) >= Rank(t.withdraws[id].status)
    requires w.txHash.Some? ==> w.status == Broadcasting
    requires t.withdraws[id].txHash.Some? ==> w.txHash == t.withdraws[id].txHash
    ensures var t' := t.(withdraws := t.withdraws[id := w]);
            && Kept(t, t')
            && (forall a :: Excess(t', a) == Excess(t, a))
            && (AllTold(t.book.entries, t.withdraws) ==> AllTold(t'.book.entries, t'.withdraws))
  {
    forall a {
      OpenSumUpdate(t.withdraws, id, w, a);
    }
  }

  lemma CloseRows(ws: seq<Withdraw>, id: nat, s: Status)
    requires RowsOk(ws) && id < |ws| && !Open(s)
    requires ws[id].txHash.Some? ==> s == Confirmed || s == Failed
    ensures RowsOk(SetStatus(ws, id, s))
    ensures forall a :: OpenSum(SetStatus(ws, id, s), a) == OpenSum(ws, a) - Held(ws[id], a)
    ensures forall a :: OpenSum(ws, a) >= Held(ws[id], a)
  {
    forall a
      ensures OpenSum(SetStatus(ws, id, s), a) == OpenSum(ws, a) - Held(ws[id], a)
      ensures OpenSum(ws, a) >= Held(ws[id], a)
    {
      OpenSumUpdate(ws, id, ws[id].(status := s), a);
    }
  }

  function AmountOn(w: Withdraw, a: Account): nat { if a == w.account then w.amount else 0 }

  /**
   Closing a request with one journal line of the right kind takes its amount out of the
   frozen balance, whether the request still held it or not.
   */
  lemma CloseStep(t: Desk, id: nat, s: Status, op: Op)
    requires Sound(t.book) && RowsOk(t.withdraws) && id < |t.withdraws|
    requires t.withdraws[id].txHash.Some? ==> s == Confirmed || s == Failed
    requires op == if s == Confirmed then DebitWithdraw(t.withdraws[id].amount, id)
                   else UnfreezeWithdraw(t.withdraws[id].amount, id)
    requires !Open(s) && Apply(t.book, t.withdraws[id].account, op).Ok?
    ensures var w := t.withdraws[id];
            var t' := Desk(Apply(t.book, w.account, op).value, SetStatus(t.withdraws, id, s));
            && Kept(t, t')
            && (forall a :: Excess(t', a) == Excess(t, a) + Held(w, a) - AmountOn(w, a))
            && (Open(w.status) && AllTold(t.book.entries, t.withdraws) ==> AllTold(t'.book.entries, t'.withdraws))
  {
    var w := t.withdraws[id];
    var b' := Apply(t.book, w.account, op).value;
    ApplyMoves(t.book, w.account, op);
    ApplyKeepsSound(t.book, w.account, op);
    CloseRows(t.withdraws, id, s);
    var t' := Desk(b', SetStatus(t.withdraws, id, s));
    forall a ensures Excess(t', a) == Excess(t, a) + Held(w, a) - AmountOn(w, a) {
      assert Frozen(b', a) == Frozen(t.book, a) - AmountOn(w, a);
    }
    if Open(w.status) && AllTold(t.book.entries, t.withdraws) {
      ToldAfterClose(t.book, b', t.withdraws, id, s, op);
    }
  }

  /** Closing a request without touching the journal leaves frozen what it still held. */
  lemma AbandonStep(t: Desk, id: nat, s: Status)
    requires Sound(t.book) && RowsOk(t.withdraws) && id < |t.withdraws|
    requires s == Confirmed || s == Failed
    ensures var t' := t.(withdraws := SetStatus(t.withdraws, id, s));
            && Kept(t, t')
            && (forall a :: Excess(t', a) == Excess(t, a) + Held(t.withdraws[id], a))
  {
    CloseRows(t.withdraws, id, s);
  }

  lemma RejectStep(t: Desk, id: nat)
    requires Sound(t.book) && RowsOk(t.withdraws) && Reject(t, id).Ok?
    ensures Kept(t, Reject(t, id).value) && (forall a :: Excess(Reject(t, id).value, a) == Excess(t, a))
    ensures AllTold(t.book.entries, t.withdraws) ==>
              AllTold(Reject(t, id).value.book.entries, Reject(t, id).value.withdraws)
  {
    CloseStep(t, id, Rejected, UnfreezeWithdraw(t.withdraws[id].amount, id));
  }

  /** Frozen money that a failing transaction takes although its request no longer holds any. */
  function FailDraw(t: Desk, guard: RefType, id: nat, a: Account): nat
    requires id < |t.withdraws|
  {
    if Releases(t.book.entries, guard, id) then AmountOn(t.withdraws[id], a) - Held(t.withdraws[id], a) else 0
  }

  /** Frozen money that a confirming transaction takes although its request no longer holds any. */
  function ConfirmDraw(t: Desk, guard: RefType, id: nat, a: Account): nat
    requires id < |t.withdraws|
  {
    if HasEntry(t.book.entries, guard, id, WithdrawDebit) then 0
    else AmountOn(t.withdraws[id], a) - Held(t.withdraws[id], a)
  }

  /** The failing transaction, on a request in any state. */
  lemma FailStep(t: Desk, guard: RefType, id: nat)
    requires Sound(t.book) && RowsOk(t.withdraws) && id < |t.withdraws|
    requires FailAndUnfreeze(t, guard, id).Ok?
    ensures var t' := FailAndUnfreeze(t, guard, id).value;
            && Kept(t, t')
            && (forall a :: Excess(t', a) == Excess(t, a) + FailLeak(t, guard, id, a) - FailDraw(t, guard, id, a))
    ensures guard == WithdrawRef && AllTold(t.book.entries, t.withdraws)
            && (Open(t.withdraws[id].status) || t.withdraws[id].status == Failed) ==>
              var t' := FailAndUnfreeze(t, guard, id).value;
              AllTold(t'.book.entries, t'.withdraws) && forall a :: FailLeak(t, guard, id, a) == 0
  {
    if guard == WithdrawRef && AllTold(t.book.entries, t.withdraws) {
      MeantGuardSees(t.book.entries, t.withdraws, id);
    }
    if Releases(t.book.entries, guard, id) {
      CloseStep(t, id, Failed, UnfreezeWithdraw(t.withdraws[id].amount, id));
    } else {
      AbandonStep(t, id, Failed);
    }
  }

  /** The confirming transaction, on a request in any state. */
  lemma ConfirmStep(t: Desk, guard: RefType, id: nat)
    requires Sound(t.book) && RowsOk(t.withdraws) && id < |t.withdraws|
    requires SettleConfirmed(t, guard, id).Ok?
    ensures var t' := SettleConfirmed(t, guard, id).value;
            && Kept(t, t')
            && (forall a :: Excess(t', a) ==
                            Excess(t, a) + ConfirmLeak(t, guard, id, a) - ConfirmDraw(t, guard, id, a))
    ensures guard == WithdrawRef && AllTold(t.book.entries, t.withdraws)
            && (Open(t.withdraws[id].status) || t.withdraws[id].status == Confirmed) ==>
              var t' := SettleConfirmed(t, guard, id).value;
              AllTold(t'.book.entries, t'.withdraws) && forall a :: ConfirmLeak(t, guard, id, a) == 0
  {
    if guard == WithdrawRef && AllTold(t.book.entries, t.withdraws) {
      MeantGuardSees(t.book.entries, t.withdraws, id);
    }
    if HasEntry(t.book.entries, guard, id, WithdrawDebit) {
      AbandonStep(t, id, Confirmed);
    } else {
      CloseStep(t, id, Confirmed, DebitWithdraw(t.withdraws[id].amount, id));
    }
  }

  // ---------------------------------------------------------------------
  // What the meant guards rely on, also after requests have been settled twice.
  // ---------------------------------------------------------------------

  /** Every request has its freeze line, and one that is open or not made yet has no other. */
  ghost predicate OpenIsFresh(es: seq<Entry>, ws: seq<Withdraw>)
  {
    && (forall id :: 0 <= id < |ws| ==> HasEntry(es, WithdrawRef, id, WithdrawFreeze))
    && (forall id: nat :: id >= |ws| || Open(ws[id].status) ==>
          !HasEntry(es, WithdrawRef, id, WithdrawUnfreeze) && !HasEntry(es, WithdrawRef, id, WithdrawDebit))
  }

  /** A line of some other component, or none at all, changes nothing of this. */
  lemma FreshElsewhere(es: seq<Entry>, es': seq<Entry>, ws: seq<Withdraw>)
    requires OpenIsFresh(es, ws)
    requires forall id: nat :: Story(es', WithdrawRef, id) == Story(es, WithdrawRef, id)
    ensures OpenIsFresh(es', ws)
  {
    forall id: nat, t: EntryType
      ensures HasEntry(es', WithdrawRef, id, t) <==> HasEntry(es, WithdrawRef, id, t)
    {
      HasEntryIffMentioned(es, WithdrawRef, id, t);
      HasEntryIffMentioned(es', WithdrawRef, id, t);
    }
  }

  /** One more withdraw line about `id`. */
  lemma EntryAfter(b: Book, a: Account, op: Op)
    requires Apply(b, a, op).Ok?
    ensures forall r, id, t :: HasEntry(Apply(b, a, op).value.entries, r, id, t) <==>
              HasEntry(b.entries, r, id, t) || (r == op.refType && id == op.refId && t == op.entryType)
  {
    hide HasEntry;
    var e := Apply(b, a, op).value.entries[|b.entries|];
    forall r, id, t
      ensures HasEntry(Apply(b, a, op).value.entries, r, id, t) <==>
              HasEntry(b.entries, r, id, t) || (r == op.refType && id == op.refId && t == op.entryType)
    {
      EntryAppend(b.entries, e, r, id, t);
    }
  }

  lemma FreshAfterCreate(t: Desk, p: Params, autoApprove: bool)
    requires OpenIsFresh(t.book.entries, t.withdraws) && Create(t, WithdrawRef, p, autoApprove).Ok?
    ensures var t' := Create(t, WithdrawRef, p, autoApprove).value;
            OpenIsFresh(t'.book.entries, t'.withdraws)
    ensures forall a :: CreateLeak(t, WithdrawRef, p, autoApprove, a) == 0
  {
    hide HasEntry, ParseWei;
    var existing := Existing(t.withdraws, p);
    if existing.None? {
      EntryAfter(t.book, p.account, FreezeWithdraw(ParseWei(p.amountText).value, |t.withdraws|));
    }
  }

  /** A status write between open states. */
  lemma FreshAfterStatus(es: seq<Entry>, ws: seq<Withdraw>, id: nat, w: Withdraw)
    requires OpenIsFresh(es, ws) && id < |ws| && (Open(w.status) ==> Open(ws[id].status))
    ensures OpenIsFresh(es, ws[id := w])
  {
    hide HasEntry;
  }

  /** Closing a request by a line about it, or by none. */
  lemma FreshAfterClose(t: Desk, id: nat, s: Status, op: Op)
    requires OpenIsFresh(t.book.entries, t.withdraws) && id < |t.withdraws| && !Open(s)
    requires op.refType == WithdrawRef && op.refId == id && Apply(t.book, t.withdraws[id].account, op).Ok?
    ensures OpenIsFresh(Apply(t.book, t.withdraws[id].account, op).value.entries, SetStatus(t.withdraws, id, s))
  {
    hide HasEntry;
    EntryAfter(t.book, t.withdraws[id].account, op);
  }

  lemma FreshAfterFail(t: Desk, id: nat)
    requires OpenIsFresh(t.book.entries, t.withdraws) && id < |t.withdraws| && FailAndUnfreeze(t, WithdrawRef, id).Ok?
    ensures var t' := FailAndUnfreeze(t, WithdrawRef, id).value; OpenIsFresh(t'.book.entries, t'.withdraws)
    ensures forall a :: FailLeak(t, WithdrawRef, id, a) == 0
  {
    hide HasEntry;
    if Releases(t.book.entries, WithdrawRef, id) {
      FreshAfterClose(t, id, Failed, UnfreezeWithdraw(t.withdraws[id].amount, id));
    } else {
      FreshAfterStatus(t.book.entries, t.withdraws, id, t.withdraws[id].(status := Failed));
    }
  }

  lemma FreshAfterConfirm(t: Desk, id: nat)
    requires OpenIsFresh(t.book.entries, t.withdraws) && id < |t.withdraws| && SettleConfirmed(t, WithdrawRef, id).Ok?
    ensures var t' := SettleConfirmed(t, WithdrawRef, id).value; OpenIsFresh(t'.book.entries, t'.withdraws)
    ensures forall a :: ConfirmLeak(t, WithdrawRef, id, a) == 0
  {
    hide HasEntry;
    if HasEntry(t.book.entries, WithdrawRef, id, WithdrawDebit) {
      FreshAfterStatus(t.book.entries, t.withdraws, id, t.withdraws[id].(status := Confirmed));
    } else {
      FreshAfterClose(t, id, Confirmed, DebitWithdraw(t.withdraws[id].amount, id));
    }
  }

  /** While an account has enough frozen for its open requests, settling one cannot run out of funds. */
  lemma SettlingNeverFails(t: Desk, guard: RefType, id: nat)
    requires id < |t.withdraws| && Open(t.withdraws[id].status)
    ensures Excess(t, t.withdraws[id].account) >= 0 ==>
              && (t.withdraws[id].status == PendingReview ==> Reject(t, id).Ok?)
              && FailAndUnfreeze(t, guard, id).Ok? && SettleConfirmed(t, guard, id).Ok?
  {
    var w := t.withdraws[id];
    OpenSumUpdate(t.withdraws, id, w, w.account);
    ApplyMoves(t.book, w.account, UnfreezeWithdraw(w.amount, id));
    ApplyMoves(t.book, w.account, DebitWithdraw(w.amount, id));
  }
}
