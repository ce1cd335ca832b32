/**
 The journal and the deposit table seen over time. The journal only ever grows, a
 reversal is written only when its deposit is orphaned, and so the money a deposit has
 left behind at the end of a run tells whether it was ever orphaned on the way.
 Spans internal/exchange/deposit.go, internal/exchange/store.go and
 internal/indexer/engine.go.
 */
module DepositHistory {
  import opened Outcomes
  import opened Ledger
  import opened Exchange
  import opened Runs
  import C = Chain
  import D = Deposits
  import P = Payments
  import W = Withdraws

  predicate Reversed(x: Tables, id: nat) { HasEntry(x.book.entries, DepositRef, id, DepositReverse) }

  predicate OrphanedNow(x: Tables, id: nat) { id < |x.deposits| && x.deposits[id].status == D.Orphaned }

  /** The journal is extended, and a new reversal belongs to a deposit that is orphaned now. */
  ghost predicate Grows(x: Tables, x': Tables)
  {
    && x.book.entries <= x'.book.entries
    && (forall id: nat :: Reversed(x', id) ==> Reversed(x, id) || OrphanedNow(x', id))
  }

  /** Lines were appended, none of them a reversal. */
  ghost predicate Extended(es: seq<Entry>, es': seq<Entry>)
  {
    es <= es' && forall i :: |es| <= i < |es'| ==> es'[i].entryType != DepositReverse
  }

  lemma ExtendedGrows(x: Tables, x': Tables)
    requires Extended(x.book.entries, x'.book.entries)
    ensures Grows(x, x')
  {
    forall id: nat | Reversed(x', id) ensures Reversed(x, id) {
      var es, es' := x.book.entries, x'.book.entries;
      var i :| 0 <= i < |es'| && es'[i].refType == DepositRef && es'[i].refId == id
               && es'[i].entryType == DepositReverse;
      assert es[i] == es'[i];
    }
  }

  lemma ApplyAppends(b: Book, a: Account, op: Op)
    requires Apply(b, a, op).Ok?
    ensures var es' := Apply(b, a, op).value.entries;
            |es'| == |b.entries| + 1 && b.entries <= es'
            && es'[|b.entries|].entryType == op.entryType && es'[|b.entries|].refId == op.refId
  {
  }

  lemma CaptureExtends(t: D.Desk, p: D.Capture, merchants: seq<string>)
    requires D.CaptureAndCredit(t, p, merchants).Ok?
    ensures Extended(t.book.entries, D.CaptureAndCredit(t, p, merchants).value.book.entries)
  {
  }

  lemma {:induction false} CaptureAllExtends(t: D.Desk, trs: seq<ChainTransfer>, n: nat,
                                             bindings: map<string, seq<string>>)
    requires CaptureAll(t, trs, n, bindings).Ok?
    ensures Extended(t.book.entries, CaptureAll(t, trs, n, bindings).value.book.entries)
    decreases |trs|
  {
    hide D.CaptureAndCredit;
    if |trs| > 0 {
      match CaptureOf(trs[0], n)
      case None => CaptureAllExtends(t, trs[1..], n, bindings);
      case Some(p) =>
        var merchants := BoundMerchants(bindings, p.account.user);
        CaptureExtends(t, p, merchants);
        CaptureAllExtends(D.CaptureAndCredit(t, p, merchants).value, trs[1..], n, bindings);
    }
  }

  lemma {:induction false} ReverseAllAppends(b: Book, ds: seq<D.Deposit>, rows: seq<nat>)
    requires D.ValidRows(rows, ds) && D.ReverseAll(b, ds, rows).Ok?
    ensures var es' := D.ReverseAll(b, ds, rows).value.entries;
            b.entries <= es' && forall i :: |b.entries| <= i < |es'| ==> es'[i].refId in rows
    decreases |rows|
  {
    hide D.NeedsReversal, Apply;
    if |rows| > 0 {
      var id := rows[0];
      if D.NeedsReversal(b.entries, ds[id], id) {
        var op := ReverseDeposit(ds[id].amount, id);
        ApplyAppends(b, ds[id].account, op);
        ReverseAllAppends(Apply(b, ds[id].account, op).value, ds, rows[1..]);
      } else {
        ReverseAllAppends(b, ds, rows[1..]);
      }
    }
  }

  lemma ReorgGrows(x: Tables, n: nat, parentHash: string, rows: seq<nat>)
    requires n > 0 && D.Enumerates(rows, x.deposits, n - 1, |x.deposits|) && HandleReorg(x, n, parentHash, rows).Ok?
    ensures Grows(x, HandleReorg(x, n, parentHash, rows).value)
  {
    var x' := HandleReorg(x, n, parentHash, rows).value;
    if C.DetectsReorg(x.view, n, parentHash) {
      ReverseAllAppends(x.book, x.deposits, rows);
      var es, es' := x.book.entries, x'.book.entries;
      forall id: nat | Reversed(x', id) ensures Reversed(x, id) || OrphanedNow(x', id) {
        var i :| 0 <= i < |es'| && es'[i].refType == DepositRef && es'[i].refId == id
                 && es'[i].entryType == DepositReverse;
        if i < |es| {
          assert es[i] == es'[i];
        } else {
          assert id in rows;
        }
      }
    }
  }

  lemma WithdrawExtends(t: W.Desk, guard: RefType, step: Step, r: Result<W.Desk, Error>)
    requires match step
             case Create(request, auto) => r == W.Create(t, guard, request, auto)
             case Reject(id) => r == W.Reject(t, id)
             case _ => false
    ensures r.Ok? ==> Extended(t.book.entries, r.value.book.entries)
  {
  }

  lemma StepGrows(s: System, guard: RefType, step: Step)
    ensures Grows(s.x, Next(s, guard, step).x)
  {
    hide Grows, Extended, SyncBlock, HandleReorg, CreatePayment, W.Create, W.Reject;
    hide W.SettleConfirmed, W.FailAndUnfreeze;
    var t, s' := WithdrawDesk(s.x), Next(s, guard, step);
    Unchanged(s.x, s'.x);
    match step
    case Sync(blk, head, depth, trs, bindings) =>
      SyncGrows(s.x, blk, head, depth, trs, bindings);
    case Reorg(n, parentHash, rows) =>
      if n > 0 && D.Enumerates(rows, s.x.deposits, n - 1, |s.x.deposits|) && HandleReorg(s.x, n, parentHash, rows).Ok? {
        ReorgGrows(s.x, n, parentHash, rows);
      }
    case Pay(found, payment) =>
      PaymentGrows(s.x, found, payment);
    case Create(request, auto) =>
      Committed(s.x, s'.x, guard, step, W.Create(t, guard, request, auto));
    case Reject(id) =>
      Committed(s.x, s'.x, guard, step, W.Reject(t, id));
    case Settle(cb) =>
      if cb in s.callbacks && s.callbacks[cb].id < |t.withdraws| {
        FailGrows(s.x, guard, s.callbacks[cb].id);
        ConfirmGrows(s.x, guard, s.callbacks[cb].id);
      }
    case Fail(worker) =>
      if AtJob(s, worker, false, true, false) && s.jobs[worker].id < |t.withdraws| {
        FailGrows(s.x, guard, s.jobs[worker].id);
      }
    case _ =>
  }

  lemma Unchanged(x: Tables, x': Tables)
    ensures x.book == x'.book && x.deposits == x'.deposits ==> Grows(x, x')
  {
  }

  lemma Committed(x: Tables, x': Tables, guard: RefType, step: Step, r: Result<W.Desk, Error>)
    requires match step
             case Create(request, auto) => r == W.Create(WithdrawDesk(x), guard, request, auto)
             case Reject(id) => r == W.Reject(WithdrawDesk(x), id)
             case _ => false
    requires x' == if r.Ok? then PutWithdraws(x, r.value) else x
    ensures Grows(x, x')
  {
    hide Extended, W.Create, W.Reject;
    WithdrawExtends(WithdrawDesk(x), guard, step, r);
    if r.Ok? {
      ExtendedGrows(x, x');
    }
  }

  lemma FailGrows(x: Tables, guard: RefType, id: nat)
    requires id < |x.withdraws|
    ensures var r := W.FailAndUnfreeze(WithdrawDesk(x), guard, id);
            r.Ok? ==> Grows(x, PutWithdraws(x, r.value))
  {
    var r := W.FailAndUnfreeze(WithdrawDesk(x), guard, id);
    if r.Ok? {
      ExtendedGrows(x, PutWithdraws(x, r.value));
    }
  }

  lemma ConfirmGrows(x: Tables, guard: RefType, id: nat)
    requires id < |x.withdraws|
    ensures var r := W.SettleConfirmed(WithdrawDesk(x), guard, id);
            r.Ok? ==> Grows(x, PutWithdraws(x, r.value))
  {
    var r := W.SettleConfirmed(WithdrawDesk(x), guard, id);
    if r.Ok? {
      ExtendedGrows(x, PutWithdraws(x, r.value));
    }
  }

  lemma PaymentGrows(x: Tables, found: Option<P.Merchant>, p: P.Params)
    ensures var r := CreatePayment(x, found, p); r.Ok? ==> Grows(x, r.value)
  {
    var r := CreatePayment(x, found, p);
    if r.Ok? {
      ExtendedGrows(x, r.value);
    }
  }

  lemma SyncGrows(x: Tables, blk: BlockData, head: nat, depth: nat, trs: seq<ChainTransfer>,
                  bindings: map<string, seq<string>>)
    ensures var r := SyncBlock(x, blk, head, depth, trs, bindings); r.Ok? ==> Grows(x, r.value)
  {
    var r := SyncBlock(x, blk, head, depth, trs, bindings);
    if r.Ok? {
      if C.ConfirmedUpTo(head, blk.number, depth) == blk.number {
        CaptureAllExtends(DepositDesk(x), trs, blk.number, bindings);
      }
      ExtendedGrows(x, r.value);
    }
  }

  // ---------------------------------------------------------------------
  // Over runs.
  // ---------------------------------------------------------------------

  /** The journal of a run extends the journal of each of its beginnings. */
  lemma {:induction false} JournalOnlyGrows(guard: RefType, steps: seq<Step>, n: nat)
    requires n <= |steps|
    ensures Run(guard, steps[..n]).x.book.entries <= Run(guard, steps).x.book.entries
    decreases |steps| - n
  {
    hide Next;
    if n == |steps| {
      assert steps[..n] == steps;
    } else {
      JournalOnlyGrows(guard, steps, n + 1);
      assert steps[..n + 1][..n] == steps[..n];
      RunSplit(guard, steps[..n + 1]);
      StepGrows(Run(guard, steps[..n]), guard, steps[n]);
    }
  }

  /** The deposit was orphaned after some number of steps of the run. */
  ghost predicate OnceOrphaned(guard: RefType, steps: seq<Step>, id: nat)
  {
    exists n :: 0 <= n <= |steps| && OrphanedNow(Run(guard, steps[..n]).x, id)
  }

  lemma OrphanedIsReversed(x: Tables, id: nat)
    requires Inv(x) && OrphanedNow(x, id)
    ensures Reversed(x, id)
  {
    assert D.Told(x.book.entries, x.deposits[id], id);
    HasEntryIffMentioned(x.book.entries, DepositRef, id, DepositReverse);
    assert Story(x.book.entries, DepositRef, id)[1].entryType == DepositReverse;
  }

  lemma {:induction false} ReversedWasOrphaned(guard: RefType, steps: seq<Step>, id: nat)
    requires Reversed(Run(guard, steps).x, id)
    ensures OnceOrphaned(guard, steps, id)
  {
    hide Next;
    assert |steps| > 0;
    var front := steps[..|steps| - 1];
    StepGrows(Run(guard, front), guard, steps[|steps| - 1]);
    if Reversed(Run(guard, front).x, id) {
      ReversedWasOrphaned(guard, front, id);
      var n :| 0 <= n <= |front| && OrphanedNow(Run(guard, front[..n]).x, id);
      assert steps[..n] == front[..n];
    } else {
      assert steps[..|steps|] == steps;
    }
  }

  /**
   At the end of any run a deposit has moved its owner's balance by exactly nothing if it
   was ever orphaned on the way, even if it was captured again since, and by exactly its
   amount if it never was.
   */
  lemma NetEffectTellsHistory(guard: RefType, steps: seq<Step>, id: nat)
    ensures var x := Run(guard, steps).x;
            id < |x.deposits| ==>
            && (Reversed(x, id) <==> OnceOrphaned(guard, steps, id))
            && D.NetEffect(Story(x.book.entries, DepositRef, id)) ==
               if OnceOrphaned(guard, steps, id) then 0 else x.deposits[id].amount
  {
    hide Next, Inv, D.NetEffect;
    if OnceOrphaned(guard, steps, id) {
      var n :| 0 <= n <= |steps| && OrphanedNow(Run(guard, steps[..n]).x, id);
      RunKeepsSysInv(guard, steps[..n]);
      OrphanedIsReversed(Run(guard, steps[..n]).x, id);
      JournalOnlyGrows(guard, steps, n);
      StaysReversed(Run(guard, steps[..n]).x, Run(guard, steps).x, id);
    }
    if Reversed(Run(guard, steps).x, id) {
      ReversedWasOrphaned(guard, steps, id);
    }
    RunDeposits(guard, steps, id);
  }

  lemma StaysReversed(x: Tables, x': Tables, id: nat)
    requires Reversed(x, id) && x.book.entries <= x'.book.entries
    ensures Reversed(x', id)
  {
    var es := x.book.entries;
    var i :| 0 <= i < |es| && es[i].refType == DepositRef && es[i].refId == id && es[i].entryType == DepositReverse;
    assert x'.book.entries[i] == es[i];
  }
}
