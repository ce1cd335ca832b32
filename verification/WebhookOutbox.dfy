/**
 Delivery of webhook outbox rows by competing workers: claim, dispatch, then done,
 retry or give up; an operator may requeue. Models internal/webhook/worker.go and
 the claim, mark and requeue statements of internal/webhook/store.go.
 */
module WebhookOutbox {
  import opened Outcomes

  datatype Status = Pending | Processing | Done | Failed

  datatype Row = Row(status: Status, retryCount: nat, nextRetryAt: nat)

  /** A row as a worker read it when claiming: which row, and the retry count it saw. */
  datatype Item = Item(id: nat, retryCount: nat)

  /** What a worker is doing with an item: about to dispatch, or about to write the outcome. */
  datatype Job = Claimed(item: Item) | Dispatched(item: Item, accepted: bool)

  /** Per-row history kept only to state the guarantees; `rescues` counts the requeues out of processing. */
  datatype History = History(claims: nat, requeues: nat, rescues: nat, attempts: seq<nat>)

  /** Rows and histories by position; jobs by worker slot. */
  datatype State = State(rows: seq<Row>, jobs: map<nat, Job>, past: seq<History>)

  const EMPTY := State([], map[], [])

  const DEFAULT_MAX_RETRIES := 8

  /** A configured limit of zero means the default. */
  function MaxRetries(configured: nat): (n: nat)
    ensures n > 0
  {
    if configured == 0 then DEFAULT_MAX_RETRIES else configured
  }

  /** Delay before the next try, in milliseconds: quadratic, capped at thirty seconds. */
  function Backoff(retry: nat): nat
  {
    if retry * retry * 200 <= 30000 then retry * retry * 200 else 30000
  }

  function AfterFailure(row: Row, item: Item, configured: nat, now: nat): Row
  {
    var retry := item.retryCount + 1;
    Row(if retry >= MaxRetries(configured) then Failed else Pending, retry, now + Backoff(retry))
  }

  datatype Step =
    | Enqueue(at: nat)
    | Claim(slot: nat, id: nat, claimTime: nat)
    | Skip(slot: nat, skipTime: nat)
    | Dispatch(slot: nat, accepted: bool)
    | Settle(slot: nat, settleTime: nat)
    | Requeue(id: nat, requeueTime: nat)
    | Crash(slot: nat)

  predicate Due(row: Row, now: nat) { row.status == Pending && row.nextRetryAt <= now }

  /**
   One atomic step. A claim of a batch is a series of claims; `Skip` is the failure
   path that never dispatches because the merchant is missing or disabled.
   */
  function Next(st: State, configured: nat, step: Step): State
    requires |st.past| == |st.rows|
  {
    match step
    case Enqueue(at) => st.(rows := st.rows + [Row(Pending, 0, at)], past := st.past + [History(0, 0, 0, [])])
    case Claim(slot, id, now) =>
      if slot !in st.jobs && id < |st.rows| && Due(st.rows[id], now)
      then State(st.rows[id := st.rows[id].(status := Processing)],
                 st.jobs[slot := Claimed(Item(id, st.rows[id].retryCount))],
                 st.past[id := st.past[id].(claims := st.past[id].claims + 1)])
      else st
    case Skip(slot, now) =>
      if slot in st.jobs && st.jobs[slot].Claimed? && st.jobs[slot].item.id < |st.rows|
      then Finish(st, slot, AfterFailure(st.rows[st.jobs[slot].item.id], st.jobs[slot].item, configured, now))
      else st
    case Dispatch(slot, accepted) =>
      if slot in st.jobs && st.jobs[slot].Claimed? && st.jobs[slot].item.id < |st.rows|
      then
        var item := st.jobs[slot].item;
        st.(jobs := st.jobs[slot := Dispatched(item, accepted)],
            past := st.past[item.id := Attempted(st.past[item.id], item.retryCount + 1)])
      else st
    case Settle(slot, now) =>
      if slot in st.jobs && st.jobs[slot].Dispatched? && st.jobs[slot].item.id < |st.rows|
      then
        var item := st.jobs[slot].item;
        Finish(st, slot, if st.jobs[slot].accepted then st.rows[item.id].(status := Done)
                         else AfterFailure(st.rows[item.id], item, configured, now))
      else st
    case Requeue(id, now) =>
      if id < |st.rows| && (st.rows[id].status == Failed || st.rows[id].status == Processing)
      then st.(rows := st.rows[id := st.rows[id].(status := Pending, nextRetryAt := now)],
               past := st.past[id := st.past[id].(requeues := st.past[id].requeues + 1,
                                                  rescues := st.past[id].rescues
                                                             + if st.rows[id].status == Processing then 1 else 0)])
      else st
    case Crash(slot) => st.(jobs := st.jobs - {slot})
  }

  function Attempted(past: History, attempt: nat): History { past.(attempts := past.attempts + [attempt]) }

  /** The unconditional write that ends a job. */
  function Finish(st: State, slot: nat, row: Row): State
    requires slot in st.jobs && st.jobs[slot].item.id < |st.rows|
  {
    st.(rows := st.rows[st.jobs[slot].item.id := row], jobs := st.jobs - {slot})
  }

  /** A live worker is busy with the row. */
  ghost predicate Held(st: State, id: nat) { exists k :: k in st.jobs && st.jobs[k].item.id == id }

  /** The one step that takes a row away from a worker still busy with it; rescuing an abandoned row is fine. */
  ghost predicate Interrupts(st: State, step: Step) { step.Requeue? && Held(st, step.id) }

  // ---------------------------------------------------------------------
  // Invariants.
  // ---------------------------------------------------------------------

  /** A job belongs to a row in processing, still carries its retry count, and is alone on it. */
  ghost predicate Owned(st: State)
  {
    |st.past| == |st.rows| && JobsCurrent(st) && OneOwner(st)
  }

  ghost predicate JobsCurrent(st: State)
  {
    forall k :: k in st.jobs ==>
      && st.jobs[k].item.id < |st.rows|
      && st.rows[st.jobs[k].item.id].status == Processing
      && st.rows[st.jobs[k].item.id].retryCount == st.jobs[k].item.retryCount
  }

  ghost predicate OneOwner(st: State)
  {
    forall k, l :: k in st.jobs && l in st.jobs && k != l ==> st.jobs[k].item.id != st.jobs[l].item.id
  }

  /** Every claim but a current or successful one has cost a retry or was rescued; retries are bounded. */
  ghost predicate Counted(row: Row, past: History, configured: nat)
  {
    && past.claims == row.retryCount + past.rescues + (if row.status == Processing || row.status == Done then 1 else 0)
    && past.rescues <= past.requeues
    && row.retryCount + past.rescues + (if row.status == Failed then 0 else 1) <= MaxRetries(configured) + past.requeues
    && (row.status == Failed ==> row.retryCount >= MaxRetries(configured))
  }

  /** Recorded attempt numbers never fall, and rise strictly as long as the row was never rescued. */
  ghost predicate Numbered(row: Row, past: History)
  {
    && (forall i, j :: 0 <= i < j < |past.attempts| ==> past.attempts[i] <= past.attempts[j])
    && (forall i :: 0 <= i < |past.attempts| ==> 0 < past.attempts[i] <= row.retryCount + 1)
    && |past.attempts| <= past.claims
    && (past.rescues == 0 ==> Strict(past))
  }

  ghost predicate Strict(past: History)
  {
    && (forall i, j :: 0 <= i < j < |past.attempts| ==> past.attempts[i] < past.attempts[j])
    && NoneAbove(past.attempts, past.claims)
  }

  /** An item not dispatched yet has not recorded the attempt it is about to make. */
  ghost predicate Fresh(st: State)
    requires |st.past| == |st.rows|
  {
    forall k :: k in st.jobs && st.jobs[k].Claimed? && st.jobs[k].item.id < |st.rows| ==>
      NotYetTried(st.past[st.jobs[k].item.id], st.jobs[k].item.retryCount)
  }

  ghost predicate NotYetTried(past: History, retryCount: nat)
  {
    |past.attempts| < past.claims && (past.rescues == 0 ==> NoneAbove(past.attempts, retryCount))
  }

  ghost predicate NoneAbove(attempts: seq<nat>, bound: nat)
  {
    forall i :: 0 <= i < |attempts| ==> attempts[i] <= bound
  }

  ghost predicate Inv(st: State, configured: nat)
  {
    && Owned(st)
    && (forall id :: 0 <= id < |st.rows| ==> Counted(st.rows[id], st.past[id], configured))
    && (forall id :: 0 <= id < |st.rows| ==> Numbered(st.rows[id], st.past[id]))
    && Fresh(st)
  }

  /** No step leaves the done status, and histories only grow. */
  ghost predicate Evolves(st: State, st': State)
  {
    && |st.past| == |st.rows| && |st'.past| == |st'.rows| && |st'.rows| >= |st.rows|
    && (forall id :: 0 <= id < |st.rows| ==>
          && (st.rows[id].status == Done ==> st'.rows[id] == st.rows[id])
          && st'.past[id].claims >= st.past[id].claims
          && st.past[id].attempts <= st'.past[id].attempts)
  }

  lemma StepKeepsOneOwner(st: State, configured: nat, step: Step)
    requires Owned(st)
    ensures OneOwner(Next(st, configured, step))
  {
    hide MaxRetries, Backoff;
  }

  lemma StepKeepsOwned(st: State, configured: nat, step: Step)
    requires Owned(st) && !Interrupts(st, step)
    ensures Owned(Next(st, configured, step))
  {
    hide MaxRetries, Backoff;
    StepKeepsOneOwner(st, configured, step);
  }

  lemma ItemIsFresh(st: State, k: nat)
    requires Owned(st) && Fresh(st) && k in st.jobs && st.jobs[k].Claimed?
    ensures NotYetTried(st.past[st.jobs[k].item.id], st.jobs[k].item.retryCount)
  {
  }

  lemma StepKeepsCounted(st: State, configured: nat, step: Step, id: nat)
    requires Inv(st, configured) && !Interrupts(st, step)
    ensures Owned(Next(st, configured, step))
    ensures id < |Next(st, configured, step).rows| ==>
              Counted(Next(st, configured, step).rows[id], Next(st, configured, step).past[id], configured)
  {
    StepKeepsOwned(st, configured, step);
    hide MaxRetries, Backoff, Fresh, OneOwner, Numbered;
    if id < |st.rows| {
      assert Counted(st.rows[id], st.past[id], configured);
    }
  }

  lemma NumberedLater(row: Row, past: History, row': Row, past': History)
    requires Numbered(row, past) && past'.attempts == past.attempts
    requires row'.retryCount >= row.retryCount && past'.claims >= past.claims && past'.rescues >= past.rescues
    ensures Numbered(row', past')
  {
  }

  lemma NumberedDispatch(row: Row, past: History)
    requires Numbered(row, past) && NotYetTried(past, row.retryCount)
    requires past.rescues == 0 ==> past.claims == row.retryCount + 1
    ensures Numbered(row, past.(attempts := past.attempts + [row.retryCount + 1]))
  {
  }

  /** Apart from a dispatch, a step leaves the attempts of a row alone and lowers none of its counts. */
  lemma CountsGrow(st: State, configured: nat, step: Step, id: nat)
    requires Owned(st) && !Interrupts(st, step) && id < |st.rows|
    ensures Owned(Next(st, configured, step))
    ensures var st' := Next(st, configured, step);
            && st'.rows[id].retryCount >= st.rows[id].retryCount
            && st'.past[id].claims >= st.past[id].claims && st'.past[id].rescues >= st.past[id].rescues
            && (!Dispatches(st, step, id) ==> st'.past[id].attempts == st.past[id].attempts)
  {
    StepKeepsOwned(st, configured, step);
    hide MaxRetries, Backoff, OneOwner;
  }

  predicate Dispatches(st: State, step: Step, id: nat)
  {
    step.Dispatch? && step.slot in st.jobs && st.jobs[step.slot].Claimed? && st.jobs[step.slot].item.id == id
  }

  lemma StepKeepsNumbered(st: State, configured: nat, step: Step, id: nat)
    requires Inv(st, configured) && !Interrupts(st, step)
    ensures Owned(Next(st, configured, step))
    ensures id < |Next(st, configured, step).rows| ==>
              Numbered(Next(st, configured, step).rows[id], Next(st, configured, step).past[id])
  {
    hide MaxRetries, Fresh, OneOwner, AfterFailure, Numbered, NotYetTried, Interrupts;
    StepKeepsOwned(st, configured, step);
    var st' := Next(st, configured, step);
    if id < |st.rows| {
      assert Counted(st.rows[id], st.past[id], configured) && Numbered(st.rows[id], st.past[id]);
      if Dispatches(st, step, id) {
        ItemIsFresh(st, step.slot);
        NumberedDispatch(st.rows[id], st.past[id]);
      } else {
        CountsGrow(st, configured, step, id);
        NumberedLater(st.rows[id], st.past[id], st'.rows[id], st'.past[id]);
      }
    } else if id < |st'.rows| {
      NewRow(st'.rows[id], st'.past[id]);
    }
  }

  lemma NewRow(row: Row, past: History)
    requires past == History(0, 0, 0, [])
    ensures Numbered(row, past)
  {
  }

  lemma StepKeepsFresh(st: State, configured: nat, step: Step)
    requires Inv(st, configured) && !Interrupts(st, step)
    ensures Owned(Next(st, configured, step)) && Fresh(Next(st, configured, step))
  {
    StepKeepsOwned(st, configured, step);
    var st' := Next(st, configured, step);
    forall k | k in st'.jobs && st'.jobs[k].Claimed? && st'.jobs[k].item.id < |st'.rows|
      ensures NotYetTried(st'.past[st'.jobs[k].item.id], st'.jobs[k].item.retryCount)
    {
      var id := st'.jobs[k].item.id;
      if k in st.jobs && st.jobs[k] == st'.jobs[k] {
        assert NotYetTried(st.past[id], st.jobs[k].item.retryCount);
      } else {
        assert Counted(st.rows[id], st.past[id], configured) && Numbered(st.rows[id], st.past[id]);
      }
    }
  }

  lemma StepEvolves(st: State, configured: nat, step: Step)
    requires Owned(st) && !Interrupts(st, step)
    ensures Owned(Next(st, configured, step)) && Evolves(st, Next(st, configured, step))
  {
    StepKeepsOwned(st, configured, step);
  }

  /** With any number of workers and no requeue of a busy row, everything is kept. */
  lemma StepKeepsInv(st: State, configured: nat, step: Step)
    requires Inv(st, configured) && !Interrupts(st, step)
    ensures Inv(Next(st, configured, step), configured)
    ensures Evolves(st, Next(st, configured, step))
  {
    hide Next, Counted, Numbered, Interrupts, Evolves;
    StepKeepsFresh(st, configured, step);
    StepEvolves(st, configured, step);
    var st' := Next(st, configured, step);
    forall id | 0 <= id < |st'.rows|
      ensures Counted(st'.rows[id], st'.past[id], configured) && Numbered(st'.rows[id], st'.past[id])
    {
      StepKeepsCounted(st, configured, step, id);
      StepKeepsNumbered(st, configured, step, id);
    }
  }

  /**
   After a failed delivery the row has one retry more than the worker saw, is given up
   exactly when that reaches the limit (eight unless configured), and waits 200 ms times the
   square of the retries, thirty seconds at most.
   */
  lemma FailureExactly(row: Row, item: Item, configured: nat, now: nat)
    ensures var after := AfterFailure(row, item, configured, now);
            var retry := item.retryCount + 1;
            && after.retryCount == retry
            && (after.status == Failed <==> retry >= if configured == 0 then 8 else configured)
            && (after.status == Pending <==> retry < if configured == 0 then 8 else configured)
            && after.nextRetryAt >= now
            && (retry <= 12 ==> after.nextRetryAt - now == 200 * retry * retry)
            && (retry > 12 ==> after.nextRetryAt - now == 30_000)
  {
    var retry := item.retryCount + 1;
    if retry > 12 {
      Squares(retry);
    } else {
      assert retry in {1, 2, 3, 4, 5, 6, 7, 8, 9, 10, 11, 12};
    }
  }

  lemma Squares(r: nat)
    requires r > 12
    ensures r * r >= 13 * 13
  {
  }

  /** Row `id` reads `row` now, and no other row has changed. */
  ghost predicate OnlyRow(st: State, st': State, id: nat, row: Row)
  {
    id < |st.rows| && st'.rows == st.rows[id := row]
  }

  /**
   What the steps do to the table, by what they find. A claim takes a pending row that is
   due; a dispatch writes nothing; a settlement writes done or the failure; skipping writes
   the failure; a requeue takes exactly failed and processing rows back to pending, due at
   once, with their retries.
   */
  lemma StepsExactly(st: State, configured: nat, slot: nat, id: nat, now: nat, accepted: bool)
    requires |st.past| == |st.rows|
    ensures var st' := Next(st, configured, Claim(slot, id, now));
            if slot !in st.jobs && id < |st.rows| && st.rows[id].status == Pending && st.rows[id].nextRetryAt <= now
            then OnlyRow(st, st', id, st.rows[id].(status := Processing))
                 && st'.jobs == st.jobs[slot := Claimed(Item(id, st.rows[id].retryCount))]
            else st' == st
    ensures var st' := Next(st, configured, Requeue(id, now));
            if id < |st.rows| && st.rows[id].status in {Failed, Processing}
            then OnlyRow(st, st', id, Row(Pending, st.rows[id].retryCount, now)) && st'.jobs == st.jobs
            else st' == st
    ensures Next(st, configured, Dispatch(slot, accepted)).rows == st.rows
    ensures slot in st.jobs && st.jobs[slot].item.id < |st.rows| ==>
              var item := st.jobs[slot].item;
              var failure := AfterFailure(st.rows[item.id], item, configured, now);
              && (st.jobs[slot].Claimed? ==> OnlyRow(st, Next(st, configured, Skip(slot, now)), item.id, failure))
              && (st.jobs[slot].Dispatched? ==>
                    OnlyRow(st, Next(st, configured, Settle(slot, now)), item.id,
                            if st.jobs[slot].accepted then st.rows[item.id].(status := Done) else failure))
  {
    hide AfterFailure;
  }

  // ---------------------------------------------------------------------
  // What goes wrong when a busy row is requeued.
  // ---------------------------------------------------------------------

  /**
   Requeueing a row and claiming it afterwards puts two live workers on it if and only if
   a live worker still held it and the claim comes when the row is due again.
   */
  lemma SecondOwnerIff(st: State, configured: nat, id: nat, now: nat, slot: nat, later: nat)
    requires Owned(st) && slot !in st.jobs
    ensures var st' := Next(Next(st, configured, Requeue(id, now)), configured, Claim(slot, id, later));
            !OneOwner(st') <==> Held(st, id) && later >= now
  {
    hide MaxRetries, Backoff;
    var st1 := Next(st, configured, Requeue(id, now));
    var st' := Next(st1, configured, Claim(slot, id, later));
    if Held(st, id) {
      var k :| k in st.jobs && st.jobs[k].item.id == id;
      assert st1.rows[id].status == Pending && st1.rows[id].nextRetryAt == now && st1.jobs == st.jobs;
      if later >= now {
        assert st'.jobs[k].item.id == st'.jobs[slot].item.id;
      }
    }
  }

  /** A worker that is going to write a failure over whatever the row says by then. */
  predicate WillFail(job: Job, id: nat) { job.item.id == id && (job.Claimed? || !job.accepted) }

  /**
   Some step takes a row out of done if and only if a live worker that has not had its
   delivery accepted is still on the row; in any state, also after interruptions.
   */
  lemma DoneLeftIff(st: State, configured: nat, id: nat)
    requires |st.past| == |st.rows| && id < |st.rows| && st.rows[id].status == Done
    ensures (exists step :: Next(st, configured, step).rows[id].status != Done) <==>
            (exists k :: k in st.jobs && WillFail(st.jobs[k], id))
  {
    hide MaxRetries, Backoff;
    if k :| k in st.jobs && WillFail(st.jobs[k], id) {
      var step := if st.jobs[k].Claimed? then Skip(k, 0) else Settle(k, 0);
      assert Next(st, configured, step).rows[id].status != Done;
    }
    if step :| Next(st, configured, step).rows[id].status != Done {
      assert step.Skip? || step.Settle?;
      assert step.slot in st.jobs && WillFail(st.jobs[step.slot], id);
    }
  }

  // ---------------------------------------------------------------------
  // Runs.
  // ---------------------------------------------------------------------

  ghost function Run(configured: nat, steps: seq<Step>): (st: State)
    ensures |st.past| == |st.rows|
  {
    if |steps| == 0 then EMPTY else Next(Run(configured, steps[..|steps| - 1]), configured, steps[|steps| - 1])
  }

  ghost predicate NeverInterrupts(configured: nat, steps: seq<Step>)
  {
    |steps| > 0 ==>
      && NeverInterrupts(configured, steps[..|steps| - 1])
      && !Interrupts(Run(configured, steps[..|steps| - 1]), steps[|steps| - 1])
  }

  lemma {:induction false} RunKeepsInv(configured: nat, steps: seq<Step>)
    requires NeverInterrupts(configured, steps)
    ensures Inv(Run(configured, steps), configured)
  {
    hide Next, Interrupts;
    if |steps| > 0 {
      RunKeepsInv(configured, steps[..|steps| - 1]);
      StepKeepsInv(Run(configured, steps[..|steps| - 1]), configured, steps[|steps| - 1]);
    }
  }

  /**
   In every such run a row is claimed at most MaxRetries times plus once per requeue and
   dispatched at most once per claim; its attempt numbers never fall, and rise strictly
   unless an abandoned claim of it was rescued.
   */
  lemma ClaimsBounded(configured: nat, steps: seq<Step>, id: nat)
    requires NeverInterrupts(configured, steps) && id < |Run(configured, steps).rows|
    ensures var past := Run(configured, steps).past[id];
            && |past.attempts| <= past.claims <= MaxRetries(configured) + past.requeues
            && (Run(configured, steps).rows[id].status == Failed ==> past.claims >= MaxRetries(configured))
            && (forall i, j :: 0 <= i < j < |past.attempts| ==> past.attempts[i] <= past.attempts[j])
            && (past.rescues == 0 ==>
                  forall i, j :: 0 <= i < j < |past.attempts| ==> past.attempts[i] < past.attempts[j])
  {
    hide Run, NeverInterrupts, MaxRetries;
    RunKeepsInv(configured, steps);
    var st := Run(configured, steps);
    assert Counted(st.rows[id], st.past[id], configured) && Numbered(st.rows[id], st.past[id]);
  }

  /** Done stays done, over any continuation of such a run. */
  lemma {:induction false} DoneIsFinal(configured: nat, steps: seq<Step>, n: nat, id: nat)
    requires n <= |steps| && NeverInterrupts(configured, steps)
    requires id < |Run(configured, steps[..n]).rows| && Run(configured, steps[..n]).rows[id].status == Done
    ensures id < |Run(configured, steps).rows|
    ensures Run(configured, steps).rows[id] == Run(configured, steps[..n]).rows[id]
    decreases |steps|
  {
    if n == |steps| {
      assert steps[..n] == steps;
    } else {
      var front := steps[..|steps| - 1];
      assert front[..n] == steps[..n];
      DoneIsFinal(configured, front, n, id);
      RunKeepsInv(configured, front);
      StepKeepsInv(Run(configured, front), configured, steps[|steps| - 1]);
    }
  }

  // ---------------------------------------------------------------------
  // The claim statement.
  // ---------------------------------------------------------------------

  class Store {
    var rows: seq<Row>

    constructor ()
      ensures rows == []
    {
      rows := [];
    }

    /** The rows to claim: due, not locked by another transaction, lowest ids first. */
    method SelectDue(now: nat, limit: nat, locked: set<nat>) returns (batch: seq<Item>)
      ensures |batch| <= limit && BatchOf(batch, rows, now)
      ensures forall i :: 0 <= i < |batch| ==> batch[i].id !in locked
      ensures NonePassedOver(batch, rows, now, limit, locked, |rows|)
    {
      batch := [];
      for k := 0 to |rows|
        invariant |batch| <= limit && BatchOf(batch, rows, now)
        invariant forall i :: 0 <= i < |batch| ==> batch[i].id < k && batch[i].id !in locked
        invariant NonePassedOver(batch, rows, now, limit, locked, k)
      {
        if |batch| < limit && Due(rows[k], now) && k !in locked {
          ghost var shorter := batch;
          batch := batch + [Item(k, rows[k].retryCount)];
          InBatchAppend(shorter, batch[|shorter|]);
        }
      }
    }

    /**
     Claim up to `limit` due rows, lowest ids first, skipping the rows that other
     transactions have locked. No other due row is passed over in favour of a later one,
     and only the claimed rows change, to processing.
     */
    method ClaimOutboxBatch(now: nat, limit: nat, locked: set<nat>) returns (batch: seq<Item>)
      modifies this
      ensures |batch| <= limit && BatchOf(batch, old(rows), now)
      ensures forall i :: 0 <= i < |batch| ==> batch[i].id !in locked
      ensures NonePassedOver(batch, old(rows), now, limit, locked, |old(rows)|)
      ensures |rows| == |old(rows)|
      ensures forall id :: 0 <= id < |rows| ==>
                rows[id] == if InBatch(batch, id) then old(rows)[id].(status := Processing) else old(rows)[id]
    {
      batch := SelectDue(now, limit, locked);
      for i := 0 to |batch|
        invariant |rows| == |old(rows)|
        invariant forall id :: 0 <= id < |rows| ==>
                    rows[id] == if InBatch(batch[..i], id) then old(rows)[id].(status := Processing) else old(rows)[id]
      {
        assert batch[..i + 1] == batch[..i] + [batch[i]];
        InBatchAppend(batch[..i], batch[i]);
        var id := batch[i].id;
        rows := rows[id := rows[id].(status := Processing)];
      }
      assert batch[..|batch|] == batch;
    }

    /** The retry statement a worker runs after a failed delivery. */
    method FailItem(item: Item, configured: nat, now: nat)
      requires item.id < |rows|
      modifies this
      ensures rows == old(rows)[item.id := AfterFailure(old(rows)[item.id], item, configured, now)]
    {
      var retry := item.retryCount + 1;
      var maxRetries := if configured == 0 then DEFAULT_MAX_RETRIES else configured;
      var status := Pending;
      if retry >= maxRetries {
        status := Failed;
      }
      var backoff := retry * retry * 200;
      if backoff > 30000 {
        backoff := 30000;
      }
      rows := rows[item.id := Row(status, retry, now + backoff)];
    }

    method RequeueOutbox(id: nat, now: nat) returns (err: Option<Error>)
      modifies this
      ensures err.None? <==> id < |old(rows)| && (old(rows)[id].status == Failed || old(rows)[id].status == Processing)
      ensures err.None? ==> rows == old(rows)[id := old(rows)[id].(status := Pending, nextRetryAt := now)]
      ensures err.Some? ==> rows == old(rows) && err.value == NotFound
    {
      if id >= |rows| || (rows[id].status != Failed && rows[id].status != Processing) {
        return Some(NotFound);
      }
      rows := rows[id := rows[id].(status := Pending, nextRetryAt := now)];
      err := None;
    }
  }

  predicate InBatch(batch: seq<Item>, id: nat)
  {
    exists i :: 0 <= i < |batch| && batch[i].id == id
  }

  lemma InBatchAppend(batch: seq<Item>, item: Item)
    ensures forall id :: InBatch(batch + [item], id) <==> InBatch(batch, id) || id == item.id
  {
    var longer := batch + [item];
    forall id ensures InBatch(longer, id) <==> InBatch(batch, id) || id == item.id {
      if i :| 0 <= i < |batch| && batch[i].id == id {
        assert longer[i].id == id;
      }
      assert longer[|batch|].id == item.id;
    }
  }

  /** Below `n`, a due and unlocked row is left out only once the batch is full of earlier ones. */
  ghost predicate NonePassedOver(batch: seq<Item>, rows: seq<Row>, now: nat, limit: nat, locked: set<nat>, n: nat)
    requires n <= |rows|
  {
    forall id :: 0 <= id < n && Due(rows[id], now) && id !in locked && !InBatch(batch, id) ==>
      |batch| == limit && forall i :: 0 <= i < |batch| ==> batch[i].id < id
  }

  /** Distinct due rows, each with the retry count it has. */
  ghost predicate BatchOf(batch: seq<Item>, rows: seq<Row>, now: nat)
  {
    && (forall i, j :: 0 <= i < j < |batch| ==> batch[i].id != batch[j].id)
    && (forall i :: 0 <= i < |batch| ==>
          batch[i].id < |rows| && Due(rows[batch[i].id], now) && batch[i].retryCount == rows[batch[i].id].retryCount)
  }

  /** The batch as single claims, the items going to the slots from `base` on. */
  function ClaimEach(st: State, configured: nat, batch: seq<Item>, base: nat, now: nat): (r: State)
    requires |st.past| == |st.rows|
    ensures |r.past| == |r.rows|
  {
    if |batch| == 0 then st
    else
      var n := |batch| - 1;
      Next(ClaimEach(st, configured, batch[..n], base, now), configured, Claim(base + n, batch[n].id, now))
  }

  /**
   Claiming a batch is a series of single claims: it leaves the rows exactly as the batch
   statement does and hands item `i` to slot `base + i`.
   */
  lemma {:induction false} BatchIsClaims(st: State, configured: nat, batch: seq<Item>, base: nat, now: nat)
    requires |st.past| == |st.rows| && BatchOf(batch, st.rows, now)
    requires forall k :: k in st.jobs ==> k < base
    ensures var r := ClaimEach(st, configured, batch, base, now);
            && |r.rows| == |st.rows|
            && (forall id :: 0 <= id < |st.rows| ==>
                  r.rows[id] == if InBatch(batch, id) then st.rows[id].(status := Processing) else st.rows[id])
            && (forall k :: k in r.jobs <==> k in st.jobs || base <= k < base + |batch|)
            && (forall k :: k in st.jobs ==> r.jobs[k] == st.jobs[k])
            && (forall i :: 0 <= i < |batch| ==> r.jobs[base + i] == Claimed(batch[i]))
    decreases |batch|
  {
    hide Next, InBatch;
    if |batch| == 0 {
      assert forall id :: !InBatch(batch, id) by { NothingIn(batch); }
    } else {
      var n := |batch| - 1;
      var front := batch[..n];
      assert BatchOf(front, st.rows, now);
      BatchIsClaims(st, configured, front, base, now);
      var id := batch[n].id;
      assert !InBatch(front, id) by { NotBefore(batch, st.rows, now); }
      assert batch == front + [batch[n]];
      InBatchAppend(front, batch[n]);
      var r1 := ClaimEach(st, configured, front, base, now);
      ClaimOne(r1, configured, base + n, id, now);
      assert ClaimEach(st, configured, batch, base, now) == Next(r1, configured, Claim(base + n, id, now));
    }
  }

  lemma NothingIn(batch: seq<Item>)
    requires |batch| == 0
    ensures forall id :: !InBatch(batch, id)
  {
  }

  lemma NotBefore(batch: seq<Item>, rows: seq<Row>, now: nat)
    requires |batch| > 0 && BatchOf(batch, rows, now)
    ensures !InBatch(batch[..|batch| - 1], batch[|batch| - 1].id)
  {
  }

  lemma ClaimOne(st: State, configured: nat, slot: nat, id: nat, now: nat)
    requires |st.past| == |st.rows| && slot !in st.jobs && id < |st.rows| && Due(st.rows[id], now)
    ensures var r := Next(st, configured, Claim(slot, id, now));
            && r.rows == st.rows[id := st.rows[id].(status := Processing)]
            && r.jobs == st.jobs[slot := Claimed(Item(id, st.rows[id].retryCount))]
  {
  }

  // Two workers on one row: the second claim follows a requeue of the row the first still holds.
  const OVERLAP := [Enqueue(0), Claim(0, 0, 0), Requeue(0, 0), Claim(1, 0, 0)]

  // The first delivery is accepted and the second, failing late, takes the row out of done.
  const OVERWRITE := OVERLAP + [Dispatch(0, true), Settle(0, 0), Dispatch(1, false), Settle(1, 0)]

  lemma RunSplit(configured: nat, steps: seq<Step>, n: nat)
    requires n < |steps|
    ensures Run(configured, steps[..n + 1]) == Next(Run(configured, steps[..n]), configured, steps[n])
  {
    assert steps[..n + 1][..n] == steps[..n];
  }

  /** The interrupted run ends with two owners; continued, the row is done and then pending again. */
  lemma InterruptedRun()
    ensures !OneOwner(Run(0, OVERWRITE[..4]))
    ensures Run(0, OVERWRITE[..6]).rows == [Row(Done, 0, 0)] && Run(0, OVERWRITE).rows == [Row(Pending, 1, 200)]
  {
    hide Run;
    var s := OVERWRITE;
    assert s[..0] == [] && s[..8] == s;
    assert Run(0, []) == EMPTY by { EmptyRun(); }
    RunSplit(0, s, 0);
    RunSplit(0, s, 1);
    RunSplit(0, s, 2);
    RunSplit(0, s, 3);
    var two := Run(0, s[..4]);
    assert two.rows == [Row(Processing, 0, 0)];
    assert two.jobs == map[0 := Claimed(Item(0, 0)), 1 := Claimed(Item(0, 0))];
    assert !OneOwner(two) by { assert two.jobs[0].item.id == two.jobs[1].item.id; }
    RunSplit(0, s, 4);
    RunSplit(0, s, 5);
    var done := Run(0, s[..6]);
    assert done.rows == [Row(Done, 0, 0)] && done.jobs == map[1 := Claimed(Item(0, 0))];
    RunSplit(0, s, 6);
    RunSplit(0, s, 7);
  }

  lemma EmptyRun()
    ensures Run(0, []) == EMPTY
  {
  }
}
