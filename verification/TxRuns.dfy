/**
 The three writers of the transaction table at once: any number of senders, reconcilers
 and tracker passes, each between two of its statements. A pass begins when its row is
 read: an API refresh may run beside the polling loop, and the loop reads a whole batch of
 rows before it tracks them one by one. Models internal/tx/service.go,
 internal/tx/reconcile.go and internal/tx/tracker.go.
 */
module TxRuns {
  import opened Outcomes
  import opened TxTracker
  import opened TrackerPass

  /**
   Where a sender or reconciler is between two statements: its key was free, its hash was
   free too, it is about to hand transaction `hash` to the node on behalf of row `row`, the
   node has answered, or it has read a stuck row with the signed bytes stored there.
   */
  datatype Caller =
    | Missed(hash: string, from: string, nonce: nat, key: string)
    | Absent(hash: string, from: string, nonce: nat, key: string)
    | Sending(hash: string, row: string)
    | Answered(row: string, ok: bool)
    | Listed(row: string, raw: Option<string>)

  /** `accepted` are the transactions that the node has taken. */
  datatype System = System(st: State, callers: map<nat, Caller>, accepted: set<string>, passes: Passes)

  const START := System(EMPTY, map[], {}, map[])

  /** `ownBytes` says that the request brings its signed transaction, as raw submissions do. */
  datatype Step =
    | Lookup(c: nat, hash: string, from: string, nonce: nat, key: string, ownBytes: bool)
    | CheckHash(c: nat)
    | InsertRow(c: nat)
    | Send(c: nat, ok: bool)
    | Write(c: nat)
    | Quit(c: nat)
    | ListStuck(c: nat, row: string)
    | Known(c: nat)
    | Resend(c: nat)
    | CountRetry(row: string)
    | Begin(k: nat, hash: string, o: Observation)
    | Advance(k: nat, order: seq<string>)

  function Put(s: System, c: nat, caller: Caller): System { s.(callers := s.callers[c := caller]) }

  function Leave(s: System, c: nat): System { s.(callers := s.callers - {c}) }

  /** Resuming a stored row: only an unsent one is sent, with the bytes given or else those stored. */
  function Resume(s: System, c: nat, row: string, given: Option<string>): System
  {
    if row !in s.st.rows || !Unsent(s.st.rows[row].status) then Leave(s, c)
    else
      var bytes := if given.Some? then given else s.st.rows[row].raw;
      if bytes.None? then Leave(s, c) else Put(s, c, Sending(bytes.value, row))
  }

  function CallerStep(s: System, c: nat, caller: Caller, step: Step): System
  {
    match caller
    case Missed(hash, from, nonce, key) =>
      if !step.CheckHash? then s
      else if hash in s.st.rows then Resume(s, c, hash, Some(hash))
      else Put(s, c, Absent(hash, from, nonce, key))
    case Absent(hash, from, nonce, key) =>
      if !step.InsertRow? then s
      else Put(s.(st := Insert(s.st, hash, from, nonce, key)), c, Sending(hash, hash))
    case Sending(hash, row) =>
      if !step.Send? then s
      else Put(if step.ok then s.(accepted := s.accepted + {hash}) else s, c, Answered(row, step.ok))
    case Answered(row, ok) =>
      if !step.Write? then s
      else Leave(s.(st := if ok then MarkBroadcastPending(s.st, row) else MarkBroadcastFailed(s.st, row)), c)
    case Listed(row, raw) =>
      if step.Known? then Leave(s.(st := MarkBroadcastPending(s.st, row)), c)
      else if step.Resend? && raw.Some? then Put(s, c, Sending(raw.value, row))
      else if step.Resend? then Leave(s, c)
      else s
  }

  /** Pass `k` is under way, and `order` answers its query if it is about to list siblings. */
  ghost predicate CanAdvance(s: System, k: nat, order: seq<string>)
  {
    && k in s.passes
    && (s.passes[k].stage == Listing ==>
          ListsSiblings(order, s.st, s.passes[k].from, s.passes[k].nonce, s.passes[k].hash))
  }

  ghost function Next(s: System, step: Step): System
  {
    match step
    case Lookup(c, hash, from, nonce, key, ownBytes) =>
      if c in s.callers then s
      else if key != "" && key in s.st.keys
      then Resume(s, c, s.st.keys[key], if ownBytes then Some(hash) else None)
      else Put(s, c, Missed(hash, from, nonce, key))
    case Quit(c) => Leave(s, c)
    case ListStuck(c, row) =>
      if c !in s.callers && row in s.st.rows && Unsent(s.st.rows[row].status)
      then Put(s, c, Listed(row, s.st.rows[row].raw)) else s
    case CountRetry(row) => s.(st := IncrementRetry(s.st, row))
    case Begin(k, hash, o) =>
      if k !in s.passes && Unfinished(s.st, hash)
      then s.(passes := PutPass(s.passes, k, BeginPass(s.st, hash, o))) else s
    case Advance(k, order) =>
      if !CanAdvance(s, k, order) then s
      else
        var (st', pass') := Statement(s.st, s.passes[k], order);
        s.(st := st', passes := PutPass(s.passes, k, pass'))
    case _ => if step.c in s.callers then CallerStep(s, step.c, s.callers[step.c], step) else s
  }

  ghost function Run(steps: seq<Step>): System
  {
    if |steps| == 0 then START else Next(Run(steps[..|steps| - 1]), steps[|steps| - 1])
  }

  lemma RunSplit(steps: seq<Step>, n: nat)
    requires n < |steps|
    ensures Run(steps[..n + 1]) == Next(Run(steps[..n]), steps[n])
  {
    assert steps[..n + 1][..n] == steps[..n];
  }

  lemma EmptyRun()
    ensures Run([]) == START
  {
  }

  /** The row can still be sent: it waits for the node's first answer. */
  predicate Sendable(st: State, row: string)
  {
    row in st.rows && st.rows[row].status in {Submitting, BroadcastFailed}
  }

  /**
   What a caller finds decides what it does next. A free key leads to the check of the hash,
   a hash not stored to the insert; a stored row that can still be sent is sent, with the
   caller's own bytes or else with those stored; any other stored row ends the call.
   */
  lemma SendersExactly(s: System, c: nat, x: string, from: string, nonce: nat, key: string, own: bool)
    ensures c !in s.callers ==>
              var s' := Next(s, Lookup(c, x, from, nonce, key, own));
              && s'.st == s.st && s'.accepted == s.accepted && s'.passes == s.passes
              && (key == "" || key !in s.st.keys ==> s'.callers == s.callers[c := Missed(x, from, nonce, key)])
              && (key != "" && key in s.st.keys ==>
                    var row := s.st.keys[key];
                    s'.callers == if Sendable(s.st, row) && own then s.callers[c := Sending(x, row)]
                                  else if Sendable(s.st, row) && s.st.rows[row].raw.Some?
                                  then s.callers[c := Sending(s.st.rows[row].raw.value, row)] else s.callers)
    ensures c in s.callers && s.callers[c] == Missed(x, from, nonce, key) ==>
              var s' := Next(s, CheckHash(c));
              && s'.st == s.st && s'.accepted == s.accepted && s'.passes == s.passes
              && s'.callers == if x !in s.st.rows then s.callers[c := Absent(x, from, nonce, key)]
                               else if Sendable(s.st, x) then s.callers[c := Sending(x, x)] else s.callers - {c}
    ensures c in s.callers && s.callers[c] == Absent(x, from, nonce, key) ==>
              Next(s, InsertRow(c)) ==
              s.(st := Insert(s.st, x, from, nonce, key), callers := s.callers[c := Sending(x, x)])
  {
    hide Insert;
  }

  // ---------------------------------------------------------------------
  // What every interleaving keeps, whatever the passes do to each other.
  // ---------------------------------------------------------------------

  lemma CallerStepKeeps(s: System, c: nat, caller: Caller, step: Step)
    requires KeysIndexed(s.st)
    ensures var s' := CallerStep(s, c, caller, step);
            s'.passes == s.passes && Soft(s.st, s'.st) && KeysIndexed(s'.st)
  {
    hide Insert, MarkBroadcastPending, MarkBroadcastFailed;
    Untouched(s.st);
    match caller
    case Missed(hash, from, nonce, key) =>
    case Absent(hash, from, nonce, key) => InsertSoft(s.st, hash, from, nonce, key);
    case Sending(hash, row) =>
    case Answered(row, ok) => MarksSoft(s.st, row);
    case Listed(row, raw) => MarksSoft(s.st, row);
  }

  lemma Untouched(st: State)
    ensures Soft(st, st) && Evolves(st, st)
  {
  }

  /** A step that is no statement of a pass. */
  lemma OtherStep(s: System, step: Step)
    requires KeysIndexed(s.st) && !step.Advance? && !step.Begin?
    ensures var s' := Next(s, step); s'.passes == s.passes && Soft(s.st, s'.st) && KeysIndexed(s'.st)
  {
    hide Soft, CallerStep, KeysIndexed, IncrementRetry;
    Untouched(s.st);
    if step.CountRetry? {
      MarksSoft(s.st, step.row);
    } else if !step.Lookup? && !step.Quit? && !step.ListStuck? && step.c in s.callers {
      CallerStepKeeps(s, step.c, s.callers[step.c], step);
    }
  }

  /** In any state a step keeps the rows and the index of keys. */
  lemma StepKeepsRows(s: System, step: Step)
    requires KeysIndexed(s.st)
    ensures KeysIndexed(Next(s, step).st) && s.st.rows.Keys <= Next(s, step).st.rows.Keys
  {
    hide KeysIndexed, Statement, ListsSiblings, BeginPass;
    if step.Advance? {
      if CanAdvance(s, step.k, step.order) {
        StatementKeepsKeys(s.st, s.passes[step.k], step.order);
      }
    } else if !step.Begin? {
      OtherStep(s, step);
    }
  }

  /** In every run, with any number of passes: no row is ever lost and the index of keys is right. */
  lemma {:induction false} RunKeepsRows(steps: seq<Step>, n: nat)
    requires n <= |steps|
    ensures KeysIndexed(Run(steps).st) && Run(steps[..n]).st.rows.Keys <= Run(steps).st.rows.Keys
    decreases |steps|
  {
    hide Next, KeysIndexed;
    if |steps| == 0 {
      EmptyCore();
    } else {
      var front := steps[..|steps| - 1];
      RunKeepsRows(front, if n < |steps| then n else |front|);
      StepKeepsRows(Run(front), steps[|steps| - 1]);
      if n < |steps| {
        assert front[..n] == steps[..n];
      } else {
        assert steps[..n] == steps;
      }
    }
  }

  /** A step of the run leaves a final status if and only if it is a statement that tramples on one. */
  lemma StepLeavesFinalIff(steps: seq<Step>, n: nat)
    requires n < |steps|
    ensures var s := Run(steps[..n]);
            Evolves(s.st, Run(steps[..n + 1]).st) <==>
            !(steps[n].Advance? && CanAdvance(s, steps[n].k, steps[n].order) && Tramples(s.st, s.passes[steps[n].k]))
  {
    hide Run, Evolves, Tramples, ListsSiblings;
    RunSplit(steps, n);
    var s := Run(steps[..n]);
    RunKeepsRows(steps[..n], 0);
    Untouched(s.st);
    if steps[n].Advance? {
      if CanAdvance(s, steps[n].k, steps[n].order) {
        FinalLeftIff(s.st, s.passes[steps[n].k], steps[n].order);
      }
    } else if !steps[n].Begin? {
      OtherStep(s, steps[n]);
      SoftEvolves(s.st, Next(s, steps[n]).st);
    }
  }

  // ---------------------------------------------------------------------
  // Runs in which no pass collides with another.
  // ---------------------------------------------------------------------

  ghost predicate Collision(s: System, step: Step)
  {
    step.Advance? && CanAdvance(s, step.k, step.order) && Collides(s.st, s.passes, step.k)
  }

  ghost predicate NeverCollides(steps: seq<Step>)
  {
    |steps| > 0 ==>
      NeverCollides(steps[..|steps| - 1]) && !Collision(Run(steps[..|steps| - 1]), steps[|steps| - 1])
  }

  /** Any statement of any writer that is no collision keeps the invariant and leaves no final status. */
  lemma StepKeepsCore(s: System, step: Step)
    requires Core(s.st, s.passes) && KeysIndexed(s.st) && !Collision(s, step)
    ensures var s' := Next(s, step); Core(s'.st, s'.passes) && Evolves(s.st, s'.st)
  {
    hide Core, Soft, Statement, Evolves, Collides, ListsSiblings, KeysIndexed;
    Untouched(s.st);
    if step.Begin? {
      if step.k !in s.passes && Unfinished(s.st, step.hash) {
        BeginKeepsCore(s.st, s.passes, step.k, step.hash, step.o);
      }
    } else if step.Advance? {
      if CanAdvance(s, step.k, step.order) {
        StatementKeepsCore(s.st, s.passes, step.k, step.order);
      }
    } else {
      OtherStep(s, step);
      SoftKeepsCore(s.st, Next(s, step).st, s.passes);
    }
  }

  /**
   In every state such a run reaches, between any two statements: exactly the finished
   transactions have been announced, each once, up to the one notice a pass is about to
   queue, and a replaced one names one of its own sender and nonce that is confirmed or
   about to be.
   */
  lemma {:induction false} RunKeepsCore(steps: seq<Step>)
    requires NeverCollides(steps)
    ensures Core(Run(steps).st, Run(steps).passes)
  {
    hide Next, Core, Collision, KeysIndexed;
    if |steps| == 0 {
      EmptyCore();
    } else {
      RunKeepsCore(steps[..|steps| - 1]);
      RunKeepsRows(steps[..|steps| - 1], 0);
      StepKeepsCore(Run(steps[..|steps| - 1]), steps[|steps| - 1]);
    }
  }

  lemma EmptyCore()
    ensures Core(EMPTY, map[]) && KeysIndexed(EMPTY)
  {
  }

  /** No continuation of such a run loses a row, changes its sender or nonce, or leaves a final status. */
  lemma {:induction false} FinalIsFinal(steps: seq<Step>, n: nat)
    requires n <= |steps| && NeverCollides(steps)
    ensures Evolves(Run(steps[..n]).st, Run(steps).st)
    decreases |steps|
  {
    hide Next, Core, Evolves, Collision, KeysIndexed;
    if n == |steps| {
      assert steps[..n] == steps;
      Untouched(Run(steps).st);
    } else {
      var front := steps[..|steps| - 1];
      assert front[..n] == steps[..n];
      FinalIsFinal(front, n);
      RunKeepsCore(front);
      RunKeepsRows(front, 0);
      StepKeepsCore(Run(front), steps[|steps| - 1]);
      EvolvesTransitive(Run(steps[..n]).st, Run(front).st, Run(steps).st);
    }
  }

  /** At most one notice of a final status per transaction, in every such run. */
  lemma AtMostOneFinalNotice(steps: seq<Step>, h: string)
    requires NeverCollides(steps)
    ensures FinalNotices(Run(steps).st.outbox, h) <= 1
    ensures FinalNotices(Run(steps).st.outbox, h) == 1 ==> Finished(Run(steps).st, h)
    ensures Run(steps).passes == map[] ==>
              (FinalNotices(Run(steps).st.outbox, h) == 1 <==> Finished(Run(steps).st, h))
  {
    hide Run, FinalNotices;
    RunKeepsCore(steps);
    var s := Run(steps);
    assert Announced(s.st, s.passes, h) == if Finished(s.st, h) then 1 else 0;
  }

  // ---------------------------------------------------------------------
  // One pass per sender and nonce at a time is enough.
  // ---------------------------------------------------------------------

  /** No two passes under way are about the same sender and nonce. */
  ghost predicate Apart(passes: Passes)
  {
    forall j, k :: j in passes && k in passes && j != k ==>
      passes[j].from != passes[k].from || passes[j].nonce != passes[k].nonce
  }

  ghost predicate AlwaysApart(steps: seq<Step>) { forall n :: 0 <= n <= |steps| ==> Apart(Run(steps[..n]).passes) }

  /** What a pass is still going to write is not finished. */
  ghost predicate Pristine(st: State, p: Pass)
  {
    match p.stage
    case Announcing(_, _) => true
    case Replacing(left) => Unfinished(st, p.hash) && AllUnfinished(st, left)
    case Queueing(_, left) => Unfinished(st, p.hash) && AllUnfinished(st, left)
    case _ => Unfinished(st, p.hash)
  }

  ghost predicate AllUnfinished(st: State, left: seq<string>)
  {
    forall i :: 0 <= i < |left| ==> Unfinished(st, left[i])
  }

  ghost predicate AllPristine(st: State, passes: Passes) { forall k :: k in passes ==> Pristine(st, passes[k]) }

  lemma PristineNeverCollides(st: State, passes: Passes, k: nat)
    requires PassesOk(st, passes) && AllPristine(st, passes) && Apart(passes) && k in passes
    ensures !Collides(st, passes, k)
  {
    var p := passes[k];
    assert PassOk(st, p) && Pristine(st, p);
    if p.stage.Replacing? && |p.stage.left| > 0 {
      var x := p.stage.left[0];
      assert Unfinished(st, x);
      forall j | j in passes && j != k ensures !Confirms(passes[j], x) {
        assert PassOk(st, passes[j]);
      }
    } else if p.stage.Writing? {
      forall j | j in passes && j != k ensures !Confirms(passes[j], p.hash) {
        assert PassOk(st, passes[j]);
      }
    }
  }

  /** A statement of one pass finishes rows of its own sender and nonce alone. */
  lemma OwnRowsOnly(st: State, p: Pass, order: seq<string>, h: string)
    requires PassOk(st, p) && h in st.rows && (st.rows[h].from != p.from || st.rows[h].nonce != p.nonce)
    ensures h in Statement(st, p, order).0.rows && Statement(st, p, order).0.rows[h] == st.rows[h]
  {
  }

  lemma PristineElsewhere(st: State, st': State, p: Pass)
    requires PassOk(st, p) && Pristine(st, p)
    requires forall h :: h in st.rows && st.rows[h].from == p.from && st.rows[h].nonce == p.nonce ==>
               h in st'.rows && st'.rows[h] == st.rows[h]
    ensures Pristine(st', p)
  {
  }

  lemma PristineSoft(st: State, st': State, p: Pass)
    requires Soft(st, st') && Pristine(st, p)
    ensures Pristine(st', p)
  {
  }

  /** The pass itself after its statement. */
  lemma PristineAdvance(st: State, p: Pass, order: seq<string>)
    requires PassOk(st, p) && Pristine(st, p)
    requires p.stage == Listing ==> ListsSiblings(order, st, p.from, p.nonce, p.hash)
    ensures var (st', pass') := Statement(st, p, order); pass'.Some? ==> Pristine(st', pass'.value)
  {
    match p.stage
    case Listing =>
      forall i | 0 <= i < |order| ensures Unfinished(st, order[i]) {
        assert order[i] in order;
        assert Sibling(st, order[i], p.from, p.nonce, p.hash);
      }
    case Replacing(left) =>
      assert forall i :: 0 <= i < |left| - 1 ==> left[1..][i] == left[i + 1];
    case _ =>
  }

  lemma StepKeepsPristine(s: System, step: Step)
    requires Core(s.st, s.passes) && KeysIndexed(s.st) && AllPristine(s.st, s.passes) && Apart(s.passes)
    ensures AllPristine(Next(s, step).st, Next(s, step).passes)
  {
    hide Statement, PassOk, Pristine, Soft, KeysIndexed, ListsSiblings, AnnouncedOnce, ReplacedByWinner;
    var s' := Next(s, step);
    if step.Begin? {
      if step.k !in s.passes && Unfinished(s.st, step.hash) {
        BeginsPristine(s.st, step.hash, step.o);
      }
    } else if step.Advance? {
      if CanAdvance(s, step.k, step.order) {
        forall j | j in s'.passes ensures Pristine(s'.st, s'.passes[j]) {
          if j == step.k {
            PristineAdvance(s.st, s.passes[j], step.order);
          } else {
            forall h | h in s.st.rows
                       && s.st.rows[h].from == s.passes[j].from && s.st.rows[h].nonce == s.passes[j].nonce
              ensures h in s'.st.rows && s'.st.rows[h] == s.st.rows[h]
            {
              OwnRowsOnly(s.st, s.passes[step.k], step.order, h);
            }
            PristineElsewhere(s.st, s'.st, s.passes[j]);
          }
        }
      }
    } else {
      OtherStep(s, step);
      forall j | j in s'.passes ensures Pristine(s'.st, s'.passes[j]) {
        PristineSoft(s.st, s'.st, s.passes[j]);
      }
    }
  }

  lemma BeginsPristine(st: State, hash: string, o: Observation)
    requires Unfinished(st, hash)
    ensures BeginPass(st, hash, o).Some? ==> Pristine(st, BeginPass(st, hash, o).value)
  {
  }

  /** If no two passes under way are ever about one sender and nonce, none collides with another. */
  lemma {:induction false} ApartNeverCollides(steps: seq<Step>)
    requires AlwaysApart(steps)
    ensures NeverCollides(steps) && AllPristine(Run(steps).st, Run(steps).passes)
  {
    hide Next, Core, Collides, KeysIndexed, Pristine;
    if |steps| > 0 {
      var n := |steps| - 1;
      var front := steps[..n];
      assert AlwaysApart(front) by {
        forall m | 0 <= m <= |front| ensures Apart(Run(front[..m]).passes) {
          assert front[..m] == steps[..m];
          assert Apart(Run(steps[..m]).passes);
        }
      }
      ApartNeverCollides(front);
      RunKeepsCore(front);
      RunKeepsRows(front, 0);
      var s := Run(front);
      assert Apart(s.passes);
      if Collision(s, steps[n]) {
        PassesOfCore(s.st, s.passes);
        PristineNeverCollides(s.st, s.passes, steps[n].k);
      }
      StepKeepsPristine(s, steps[n]);
    }
  }

  lemma PassesOfCore(st: State, passes: Passes)
    requires Core(st, passes)
    ensures PassesOk(st, passes)
  {
  }

  // ---------------------------------------------------------------------
  // On what grounds a row is finished.
  // ---------------------------------------------------------------------

  /** What a pass is about to write is what it observed calls for. */
  predicate Calls(o: Observation, to: Status)
  {
    match to
    case Confirmed => ConfirmedBy(o)
    case Failed => RevertedBy(o)
    case Dropped => GivenUpBy(o)
    case Pending => o.receipt.Some? && o.receipt.value.success && !ConfirmedBy(o)
    case _ => false
  }

  predicate Grounded(p: Pass)
  {
    match p.stage
    case Marking => true
    case Listing => ConfirmedBy(p.o)
    case Replacing(_) => ConfirmedBy(p.o)
    case Queueing(_, _) => ConfirmedBy(p.o)
    case Reading(to) => Calls(p.o, to)
    case Writing(to, _) => Calls(p.o, to)
    case Announcing(to, _) => Calls(p.o, to)
  }

  lemma StaysGrounded(st: State, p: Pass, order: seq<string>)
    requires Grounded(p)
    ensures Statement(st, p, order).1.Some? ==> Grounded(Statement(st, p, order).1.value)
  {
    DepthCounts(p.o);
  }

  /** In every run, however many passes overlap, each is about to write what it observed calls for. */
  lemma {:induction false} RunKeepsGrounds(steps: seq<Step>)
    ensures forall k :: k in Run(steps).passes ==> Grounded(Run(steps).passes[k])
  {
    hide Statement, Grounded, CallerStep, ListsSiblings, Resume;
    if |steps| > 0 {
      var front, step := steps[..|steps| - 1], steps[|steps| - 1];
      RunKeepsGrounds(front);
      var s := Run(front);
      if step.Advance? {
        if CanAdvance(s, step.k, step.order) {
          StaysGrounded(s.st, s.passes[step.k], step.order);
        }
      } else if step.Begin? {
        if step.k !in s.passes && Unfinished(s.st, step.hash) {
          BeginsGrounded(s.st, step.hash, step.o);
        }
      } else {
        RunKeepsRows(front, 0);
        OtherStep(s, step);
      }
    }
  }

  lemma BeginsGrounded(st: State, hash: string, o: Observation)
    requires hash in st.rows
    ensures BeginPass(st, hash, o).Some? ==> Grounded(BeginPass(st, hash, o).value)
  {
    DepthCounts(o);
  }

  /**
   In any run a row becomes confirmed, failed or dropped only by a pass over it that has
   observed a deep enough success, a revert, or no receipt for too long; and replaced only
   by a pass that has observed a deep enough success of the one it names.
   */
  lemma FinishedOnGroundsAlone(steps: seq<Step>, n: nat, h: string)
    requires n < |steps|
    ensures var s, s' := Run(steps[..n]), Run(steps[..n + 1]);
            Finished(s'.st, h) && (h !in s.st.rows || s.st.rows[h].status != s'.st.rows[h].status) ==>
              && steps[n].Advance? && steps[n].k in s.passes
              && var p, to := s.passes[steps[n].k], s'.st.rows[h].status;
                 if to == Replaced then ConfirmedBy(p.o) && s'.st.rows[h].replacedBy == Some(p.hash)
                 else p.hash == h && Calls(p.o, to)
  {
    hide Run, ListsSiblings, ConfirmedBy, RevertedBy, GivenUpBy, Decide;
    RunSplit(steps, n);
    var s := Run(steps[..n]);
    RunKeepsGrounds(steps[..n]);
    RunKeepsRows(steps[..n], 0);
    if steps[n].Advance? {
      if CanAdvance(s, steps[n].k, steps[n].order) {
        assert Grounded(s.passes[steps[n].k]);
      }
    } else if !steps[n].Begin? {
      OtherStep(s, steps[n]);
    }
  }
}
