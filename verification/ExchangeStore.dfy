/**
 The exchange's tables as the program holds them, updated step by step by the
 handlers. Every method is proved to do, on the tables taken together, exactly
 what the corresponding transaction of the pure model does; on an error the owner
 of the database transaction puts the snapshot back.
 */
module ExchangeStore {
  import opened Outcomes
  import opened Ledger
  import opened Decimal
  import opened Exchange
  import C = Chain
  import D = Deposits
  import N = Notices
  import P = Payments
  import W = Withdraws

  class Store {
    /** The reference type under which the withdraw guards look. */
    const guard: RefType

    var accounts: map<Account, Balance>
    var entries: seq<Entry>
    var deposits: seq<D.Deposit>
    var withdraws: seq<W.Withdraw>
    var payments: seq<P.Payment>
    var outbox: seq<N.Notice>
    var blocks: map<nat, C.Block>
    var checkpoint: Option<C.Checkpoint>

    ghost function TheBook(): Book
      reads this
    {
      Book(accounts, entries)
    }

    ghost function State(): Tables
      reads this
    {
      Tables(TheBook(), deposits, withdraws, payments, outbox, C.View(blocks, checkpoint))
    }

    constructor (guard: RefType)
      ensures this.guard == guard && State() == EMPTY
    {
      this.guard := guard;
      accounts, entries, deposits, withdraws, payments, outbox := map[], [], [], [], [], [];
      blocks, checkpoint := map[], None;
    }

    /** One balance row and one journal line, or nothing. */
    method ApplyLedger(a: Account, op: Op) returns (err: Option<Error>)
      modifies this`accounts, this`entries
      ensures err.None? ==> Apply(old(TheBook()), a, op) == Ok(TheBook())
      ensures err.Some? ==> Apply(old(TheBook()), a, op) == Err(err.value) && TheBook() == old(TheBook())
    {
      var available, frozen: int := 0, 0;
      if a in accounts {
        available, frozen := accounts[a].available, accounts[a].frozen;
      }
      available := available + op.deltaAvailable;
      if available < 0 {
        return Some(InsufficientBalance);
      }
      frozen := frozen + op.deltaFrozen;
      if frozen < 0 {
        return Some(InsufficientBalance);
      }
      accounts := accounts[a := Balance(available, frozen)];
      entries := entries + [Entry(a, op.entryType, op.amount, op.refType, op.refId, available, frozen)];
      err := None;
    }

    /** One outbox insert per bound merchant. */
    method EnqueueDeposit(merchants: seq<string>, id: nat)
      modifies this`outbox
      ensures outbox == N.EnqueueDeposit(old(outbox), merchants, id)
    {
      for i := 0 to |merchants|
        invariant N.EnqueueDeposit(outbox, merchants[i..], id) == N.EnqueueDeposit(old(outbox), merchants, id)
      {
        var key := N.DepositKey(id);
        if !N.HasKey(outbox, key) {
          outbox := outbox + [N.Notice(key, merchants[i], N.DepositConfirmed)];
        }
        assert merchants[i..][1..] == merchants[i + 1..];
      }
    }

    method CaptureAndCredit(p: D.Capture, merchants: seq<string>) returns (err: Option<Error>)
      modifies this`accounts, this`entries, this`deposits, this`outbox
      ensures err.None? ==> D.CaptureAndCredit(old(DepositDesk(State())), p, merchants) == Ok(DepositDesk(State()))
      ensures err.Some? ==> D.CaptureAndCredit(old(DepositDesk(State())), p, merchants) == Err(err.value)
    {
      var found := D.Find(deposits, p.key);
      var id := |deposits|;
      if found.Some? {
        id := found.value;
      } else {
        deposits := deposits + [D.Deposit(p.key, p.account, p.amount, p.block, D.Pending)];
      }
      if deposits[id].status == D.Credited {
        return None;
      }
      if deposits[id].status == D.Orphaned {
        deposits := deposits[id := deposits[id].(status := D.Pending, block := p.block)];
      }
      if HasEntry(entries, DepositRef, id, DepositCredit) {
        deposits := deposits[id := deposits[id].(status := D.Credited)];
        return None;
      }
      err := ApplyLedger(p.account, CreditDeposit(p.amount, id));
      if err.Some? {
        return err;
      }
      deposits := deposits[id := deposits[id].(status := D.Credited)];
      EnqueueDeposit(merchants, id);
    }

    /** The sync transaction of one block: capture loop, block, confirmations, checkpoint. */
    method SyncBlock(blk: BlockData, head: nat, depth: nat, trs: seq<ChainTransfer>, bindings: map<string, seq<string>>)
      returns (err: Option<Error>)
      modifies this
      ensures err.None? ==> Exchange.SyncBlock(old(State()), blk, head, depth, trs, bindings) == Ok(State())
      ensures err.Some? ==> Exchange.SyncBlock(old(State()), blk, head, depth, trs, bindings) == Err(err.value)
                            && State() == old(State())
    {
      hide D.CaptureAndCredit, CaptureOf, BoundMerchants;
      var accounts0, entries0, deposits0, outbox0, blocks0 := accounts, entries, deposits, outbox, blocks;
      var n := blk.number;
      blocks := blocks[n := C.Block(blk.hash, blk.parent, C.PendingBlock)];
      var upTo := 0;
      if head > n {
        if head - n >= depth {
          upTo := n;
        }
      } else {
        upTo := n;
      }
      if upTo == n {
        for i := 0 to |trs|
          invariant withdraws == old(withdraws) && payments == old(payments) && checkpoint == old(checkpoint)
          invariant blocks == old(blocks)[n := C.Block(blk.hash, blk.parent, C.PendingBlock)]
          invariant CaptureAll(DepositDesk(State()), trs[i..], n, bindings) ==
                    CaptureAll(old(DepositDesk(State())), trs, n, bindings)
        {
          assert trs[i..][0] == trs[i] && trs[i..][1..] == trs[i + 1..];
          var capture := CaptureOf(trs[i], n);
          if capture.Some? {
            err := CaptureAndCredit(capture.value, BoundMerchants(bindings, capture.value.account.user));
            if err.Some? {
              accounts, entries, deposits, outbox, blocks := accounts0, entries0, deposits0, outbox0, blocks0;
              return;
            }
          }
        }
      }
      var v := C.View(blocks, checkpoint);
      if upTo > 0 {
        v := C.ConfirmUpTo(v, upTo);
      }
      if n > C.Load(v).last {
        v := C.UpsertCheckpoint(v, n, blk.hash, upTo);
      }
      blocks, checkpoint := v.blocks, v.checkpoint;
      err := None;
    }

    /** The rows to orphan, each once. */
    method SelectAffected(from: nat) returns (rows: seq<nat>)
      ensures D.Enumerates(rows, deposits, from, |deposits|)
    {
      rows := [];
      for i := 0 to |deposits|
        invariant D.Enumerates(rows, deposits, from, i)
      {
        if D.Affected(deposits[i], from) {
          rows := rows + [i];
        }
      }
    }

    /** Orphan the affected rows, then give back what was credited for them, row by row. */
    method HandleReorgTx(from: nat, rows: seq<nat>) returns (err: Option<Error>)
      requires D.Enumerates(rows, deposits, from, |deposits|)
      modifies this`accounts, this`entries, this`deposits
      ensures deposits == D.OrphanFrom(old(deposits), from)
      ensures err.None? ==> D.ReverseAll(old(TheBook()), old(deposits), rows) == Ok(TheBook())
      ensures err.Some? ==> D.ReverseAll(old(TheBook()), old(deposits), rows) == Err(err.value)
    {
      var ds := deposits;
      deposits := D.OrphanFrom(ds, from);
      for i := 0 to |rows|
        invariant deposits == D.OrphanFrom(ds, from)
        invariant D.ReverseAll(TheBook(), ds, rows[i..]) == D.ReverseAll(old(TheBook()), ds, rows)
      {
        assert rows[i..][0] == rows[i] && rows[i..][1..] == rows[i + 1..];
        var id := rows[i];
        if ds[id].status == D.Credited && !HasEntry(entries, DepositRef, id, DepositReverse)
           && HasEntry(entries, DepositRef, id, DepositCredit)
        {
          err := ApplyLedger(ds[id].account, ReverseDeposit(ds[id].amount, id));
          if err.Some? {
            return;
          }
        }
      }
      err := None;
    }

    /** Compare the stored parent with the reported one and, on a mismatch, roll everything back together. */
    method DetectAndHandleReorg(n: nat, parentHash: string) returns (err: Option<Error>, ghost rows: seq<nat>)
      modifies this
      ensures n > 0 ==> D.Enumerates(rows, old(deposits), n - 1, |old(deposits)|)
      ensures n == 0 ==> rows == [] && State() == old(State()) && err.None?
      ensures n > 0 && err.None? ==> HandleReorg(old(State()), n, parentHash, rows) == Ok(State())
      ensures n > 0 && err.Some? ==> HandleReorg(old(State()), n, parentHash, rows) == Err(err.value)
                                     && State() == old(State())
    {
      if n == 0 {
        return None, [];
      }
      var affected := SelectAffected(n - 1);
      rows := affected;
      if n - 1 !in blocks || blocks[n - 1].status == C.OrphanedBlock || blocks[n - 1].hash == parentHash {
        return None, rows;
      }
      var accounts0, entries0, deposits0, blocks0, checkpoint0 := accounts, entries, deposits, blocks, checkpoint;
      var v := C.RollbackCheckpoint(C.MarkOrphanedFrom(C.View(blocks, checkpoint), n - 1), n - 1, parentHash);
      blocks, checkpoint := v.blocks, v.checkpoint;
      err := HandleReorgTx(n - 1, affected);
      if err.Some? {
        accounts, entries, deposits, blocks, checkpoint := accounts0, entries0, deposits0, blocks0, checkpoint0;
      }
    }

    method CreatePayment(merchant: Option<P.Merchant>, p: P.Params) returns (err: Option<Error>)
      modifies this
      ensures err.None? ==> Exchange.CreatePayment(old(State()), merchant, p) == Ok(State())
      ensures err.Some? ==> Exchange.CreatePayment(old(State()), merchant, p) == Err(err.value)
                            && State() == old(State())
    {
      if merchant.None? {
        return Some(MerchantNotFound);
      }
      if !merchant.value.enabled {
        return Some(MerchantDisabled);
      }
      if merchant.value.ledgerUser == "" {
        return Some(MerchantNotConfigured);
      }
      var key := P.KeyOf(p);
      if P.Duplicate(payments, p) {
        return None;
      }
      var parsed := ParseWei(p.amountText);
      if parsed.None? {
        return Some(InvalidWei);
      }
      var accounts0, entries0 := accounts, entries;
      var id, payer := |payments|, Account(p.payerUser, p.token);
      err := ApplyLedger(payer, DebitPayer(parsed.value, id));
      if err.Some? {
        return;
      }
      err := ApplyLedger(Account(merchant.value.ledgerUser, p.token), CreditMerchant(parsed.value, id));
      if err.Some? {
        accounts, entries := accounts0, entries0;
        return;
      }
      payments := payments + [P.Payment(p.merchant, p.order, payer, parsed.value, key)];
      if !N.HasKey(outbox, key) {
        outbox := outbox + [N.Notice(key, p.merchant, N.PaymentSuccess)];
      }
    }

    method CreateWithdraw(p: W.Params, autoApprove: bool) returns (err: Option<Error>)
      modifies this`accounts, this`entries, this`withdraws
      ensures err.None? ==> W.Create(old(WithdrawDesk(State())), guard, p, autoApprove) == Ok(WithdrawDesk(State()))
      ensures err.Some? ==> W.Create(old(WithdrawDesk(State())), guard, p, autoApprove) == Err(err.value)
                            && State() == old(State())
    {
      var parsed := ParseWei(p.amountText);
      if parsed.None? || parsed.value == 0 {
        return Some(InvalidWei);
      }
      if !p.addressValid {
        return Some(InvalidAddress);
      }
      var withdraws0 := withdraws;
      var existing := W.Existing(withdraws, p);
      var id := |withdraws|;
      if existing.None? {
        withdraws := withdraws + [W.Withdraw(p.account, parsed.value,
                                             if autoApprove then W.Approved else W.PendingReview, None, p.key)];
      } else {
        id := existing.value;
        if HasEntry(entries, guard, id, WithdrawFreeze) {
          return None;
        }
      }
      err := ApplyLedger(p.account, FreezeWithdraw(parsed.value, id));
      if err.Some? {
        withdraws := withdraws0;
      }
    }

    /** Compare-and-set of a status; the answer says whether the row was hit. */
    method UpdateStatusIf(id: nat, from: W.Status, to: W.Status) returns (hit: bool)
      modifies this`withdraws
      ensures hit <==> id < |old(withdraws)| && old(withdraws)[id].status == from
      ensures withdraws == if hit then W.SetStatus(old(withdraws), id, to) else old(withdraws)
    {
      hit := id < |withdraws| && withdraws[id].status == from;
      if hit {
        withdraws := withdraws[id := withdraws[id].(status := to)];
      }
    }

    method ApproveWithdraw(id: nat) returns (err: Option<Error>)
      modifies this`withdraws
      ensures err.None? ==> W.Approve(old(WithdrawDesk(State())), id) == Ok(WithdrawDesk(State()))
      ensures err.Some? ==> W.Approve(old(WithdrawDesk(State())), id) == Err(err.value) && State() == old(State())
    {
      var hit := UpdateStatusIf(id, W.PendingReview, W.Approved);
      err := if hit then None else Some(InvalidState);
    }

    method RejectWithdraw(id: nat) returns (err: Option<Error>)
      modifies this`accounts, this`entries, this`withdraws
      ensures err.None? ==> W.Reject(old(WithdrawDesk(State())), id) == Ok(WithdrawDesk(State()))
      ensures err.Some? ==> W.Reject(old(WithdrawDesk(State())), id) == Err(err.value) && State() == old(State())
    {
      if id >= |withdraws| {
        return Some(NotFound);
      }
      var withdraws0, w := withdraws, withdraws[id];
      var hit := UpdateStatusIf(id, W.PendingReview, W.Rejected);
      if !hit {
        return Some(InvalidState);
      }
      err := ApplyLedger(w.account, UnfreezeWithdraw(w.amount, id));
      if err.Some? {
        withdraws := withdraws0;
      }
    }

    method FailWithdrawAndUnfreeze(id: nat) returns (err: Option<Error>)
      requires id < |withdraws|
      modifies this`accounts, this`entries, this`withdraws
      ensures err.None? ==> W.FailAndUnfreeze(old(WithdrawDesk(State())), guard, id) == Ok(WithdrawDesk(State()))
      ensures err.Some? ==> W.FailAndUnfreeze(old(WithdrawDesk(State())), guard, id) == Err(err.value)
                            && State() == old(State())
    {
      err := None;
      if !HasEntry(entries, guard, id, WithdrawUnfreeze) {
        if HasEntry(entries, guard, id, WithdrawFreeze) {
          err := ApplyLedger(withdraws[id].account, UnfreezeWithdraw(withdraws[id].amount, id));
          if err.Some? {
            return;
          }
        }
      }
      withdraws := withdraws[id := withdraws[id].(status := W.Failed)];
    }

    /**
     One worker's pass over one request with nobody in between: claim, choose a wallet,
     send, and record. `wallet` and `sent` are what the wallet table and the sender answer.
     */
    method ProcessApprovedWithdraw(id: nat, wallet: Option<string>, sent: Option<string>) returns (err: Option<Error>)
      modifies this`accounts, this`entries, this`withdraws
      ensures err == Some(AlreadyHandled) <==> W.ClaimBroadcast(old(WithdrawDesk(State())), id).Err?
      ensures err == Some(AlreadyHandled) ==> State() == old(State())
      ensures W.ClaimBroadcast(old(WithdrawDesk(State())), id).Ok? ==>
                var claimed := W.ClaimBroadcast(old(WithdrawDesk(State())), id).value;
                if wallet.Some? && sent.Some?
                then err.None? && WithdrawDesk(State()) == W.RecordBroadcast(claimed, id, sent.value)
                else match W.FailAndUnfreeze(claimed, guard, id)
                     case Ok(t) => err.None? && WithdrawDesk(State()) == t
                     case Err(e) => err == Some(e) && WithdrawDesk(State()) == claimed
    {
      var hit := UpdateStatusIf(id, W.Approved, W.Broadcasting);
      if !hit {
        return Some(AlreadyHandled);
      }
      if wallet.None? || sent.None? {
        err := FailWithdrawAndUnfreeze(id);
        return;
      }
      RecordSent(id, sent.value);
      err := None;
    }

    /** The unconditional update after a successful send. */
    method RecordSent(id: nat, hash: string)
      requires id < |withdraws|
      modifies this`withdraws
      ensures WithdrawDesk(State()) == W.RecordBroadcast(old(WithdrawDesk(State())), id, hash)
    {
      withdraws := withdraws[id := withdraws[id].(status := W.Broadcasting, txHash := Some(hash))];
    }

    /** The read before the transaction of a confirmation: the request to settle, if any. */
    method ReadForConfirmation(hash: string) returns (found: Option<nat>)
      ensures found.Some? ==> found == W.FindHash(withdraws, hash) && found.value < |withdraws|
      ensures found.Some? <==>
              && W.FindHash(withdraws, hash).Some?
              && var s := withdraws[W.FindHash(withdraws, hash).value].status;
                 s == W.Broadcasting || s == W.Approved
    {
      found := W.FindHash(withdraws, hash);
      if found.Some? {
        var w := withdraws[found.value];
        if w.status == W.Confirmed || (w.status != W.Broadcasting && w.status != W.Approved) {
          found := None;
        }
      }
    }

    /** The transaction of a confirmation, on the row as it is by then. */
    method SettleConfirmed(id: nat) returns (err: Option<Error>)
      requires id < |withdraws|
      modifies this`accounts, this`entries, this`withdraws
      ensures err.None? ==> W.SettleConfirmed(old(WithdrawDesk(State())), guard, id) == Ok(WithdrawDesk(State()))
      ensures err.Some? ==> W.SettleConfirmed(old(WithdrawDesk(State())), guard, id) == Err(err.value)
                            && State() == old(State())
    {
      err := None;
      if !HasEntry(entries, guard, id, WithdrawDebit) {
        err := ApplyLedger(withdraws[id].account, DebitWithdraw(withdraws[id].amount, id));
        if err.Some? {
          return;
        }
      }
      withdraws := withdraws[id := withdraws[id].(status := W.Confirmed)];
    }

    /** Read and transaction with nobody in between. */
    method OnWithdrawTxConfirmed(hash: string) returns (err: Option<Error>)
      modifies this`accounts, this`entries, this`withdraws
      ensures err.None? ==> W.OnConfirmed(old(WithdrawDesk(State())), guard, hash) == Ok(WithdrawDesk(State()))
      ensures err.Some? ==> W.OnConfirmed(old(WithdrawDesk(State())), guard, hash) == Err(err.value)
                            && State() == old(State())
    {
      var found := ReadForConfirmation(hash);
      if found.None? {
        return None;
      }
      err := SettleConfirmed(found.value);
    }

    /** The read before the transaction of a failure. */
    method ReadForFailure(hash: string) returns (found: Option<nat>)
      ensures found.Some? ==> found == W.FindHash(withdraws, hash) && found.value < |withdraws|
      ensures found.Some? <==>
              && W.FindHash(withdraws, hash).Some?
              && var s := withdraws[W.FindHash(withdraws, hash).value].status;
                 s != W.Failed && s != W.Confirmed
    {
      found := W.FindHash(withdraws, hash);
      if found.Some? && (withdraws[found.value].status == W.Failed || withdraws[found.value].status == W.Confirmed) {
        found := None;
      }
    }

    /** The read and the failing transaction with nobody in between. */
    method OnWithdrawTxFailed(hash: string) returns (err: Option<Error>)
      modifies this`accounts, this`entries, this`withdraws
      ensures err.None? ==> W.OnFailed(old(WithdrawDesk(State())), guard, hash) == Ok(WithdrawDesk(State()))
      ensures err.Some? ==> W.OnFailed(old(WithdrawDesk(State())), guard, hash) == Err(err.value)
                            && State() == old(State())
    {
      var found := ReadForFailure(hash);
      if found.None? {
        return None;
      }
      err := FailWithdrawAndUnfreeze(found.value);
    }

    /** The liabilities query: one pass over the balance rows. */
    method SumUserLiabilities(token: string) returns (sum: nat)
      ensures sum == Liabilities(accounts, token)
    {
      sum := 0;
      var rest := accounts;
      while rest != map[]
        invariant sum + Liabilities(rest, token) == Liabilities(accounts, token)
        decreases |rest|
      {
        var a :| a in rest;
        LiabilitiesWithout(rest, a, token);
        sum := sum + Owed(a, rest[a], token);
        rest := rest - {a};
      }
    }
  }
}
