/**
 When a confirmation leaves no other transaction of its nonce pending. Between the listing
 of the siblings and the confirmation the other writers go on, so a sibling that was not
 pending yet can become pending unnoticed. Spans internal/tx/tracker.go,
 internal/tx/store.go and internal/tx/reconcile.go.
 */
module SettledNonce {
  import opened Outcomes
  import opened TxTracker
  import opened TrackerPass
  import opened TxRuns

  /** No other row of the transaction's sender and nonce is still pending. */
  ghost predicate NonceSettled(st: State, hash: string)
    requires hash in st.rows
  {
    forall h :: h in st.rows && h != hash && SameNonce(st, h, hash) ==> st.rows[h].status != Pending
  }

  /** A sender or the reconciler marks the unsent row `h` as sent. */
  predicate MarksSent(s: System, step: Step, h: string)
  {
    && h in s.st.rows && Unsent(s.st.rows[h].status)
    && (|| (step.Write? && step.c in s.callers && s.callers[step.c] == Answered(h, true))
        || (step.Known? && step.c in s.callers && s.callers[step.c].Listed? && s.callers[step.c].row == h))
  }

  /** An insert creates the row `h` or lands on it. */
  predicate Restarts(s: System, step: Step, h: string)
  {
    && step.InsertRow? && step.c in s.callers && s.callers[step.c].Absent?
    && var c := Conflict(s.st, s.callers[step.c].hash, s.callers[step.c].key);
       if c.Some? then c.value == h else s.callers[step.c].hash == h
  }

  /** After step `i`, the row `h` was last marked sent and not restarted since, up to `n` steps of the run. */
  ghost predicate SentLate(steps: seq<Step>, i: nat, n: nat, h: string)
    requires n <= |steps|
  {
    n > i + 1 &&
    var s := Run(steps[..n - 1]);
    if Restarts(s, steps[n - 1], h) then false
    else MarksSent(s, steps[n - 1], h) || SentLate(steps, i, n - 1, h)
  }

  predicate PendingRow(st: State, h: string) { h in st.rows && st.rows[h].status == Pending }

  /** What a statement of the other writers does to the pending status of one row. */
  lemma OthersEffect(s: System, step: Step, h: string)
    requires KeysIndexed(s.st) && !step.Advance? && !step.Begin?
    ensures var s' := Next(s, step);
            && s'.passes == s.passes
            && (PendingRow(s'.st, h) <==> !Restarts(s, step, h) && (MarksSent(s, step, h) || PendingRow(s.st, h)))
            && (h in s'.st.rows <==> h in s.st.rows || Restarts(s, step, h))
  {
    hide KeysIndexed, Statement, BeginPass, Insert, Conflict, MarkBroadcastPending, MarkBroadcastFailed, IncrementRetry;
    if !step.Lookup? && !step.ListStuck? && !step.CountRetry? && step.c in s.callers {
      match s.callers[step.c]
      case Missed(_, _, _, _) =>
      case Absent(x, from, nonce, key) => InsertEffect(s.st, x, from, nonce, key, h);
      case Sending(_, _) =>
      case Answered(row, ok) => MarkEffect(s.st, row, h);
      case Listed(row, raw) => MarkEffect(s.st, row, h);
    } else if step.CountRetry? {
      MarkEffect(s.st, step.row, h);
    }
  }

  lemma InsertEffect(st: State, x: string, from: string, nonce: nat, key: string, h: string)
    requires KeysIndexed(st)
    ensures var c := Conflict(st, x, key);
            var restarted := if c.Some? then c.value == h else x == h;
            var st' := Insert(st, x, from, nonce, key);
            && (PendingRow(st', h) <==> !restarted && PendingRow(st, h))
            && (h in st'.rows <==> h in st.rows || restarted)
  {
  }

  lemma MarkEffect(st: State, row: string, h: string)
    ensures PendingRow(MarkBroadcastPending(st, row), h) <==>
            PendingRow(st, h) || (row == h && h in st.rows && Unsent(st.rows[h].status))
    ensures PendingRow(MarkBroadcastFailed(st, row), h) <==> PendingRow(st, h)
    ensures PendingRow(IncrementRetry(st, row), h) <==> PendingRow(st, h)
    ensures h in MarkBroadcastPending(st, row).rows <==> h in st.rows
    ensures h in MarkBroadcastFailed(st, row).rows <==> h in st.rows
    ensures h in IncrementRetry(st, row).rows <==> h in st.rows
  {
  }

  function Left(p: Pass): seq<string>
  {
    match p.stage
    case Replacing(left) => left
    case Queueing(_, left) => left
    case _ => []
  }

  /** The pass has listed the siblings and is on its way to confirm its row. */
  predicate Confirming(p: Pass)
  {
    match p.stage
    case Replacing(_) => true
    case Queueing(_, _) => true
    case Reading(to) => to == Confirmed
    case Writing(to, _) => to == Confirmed
    case Announcing(to, _) => to == Confirmed
    case _ => false
  }

  /** What a statement of a confirming pass does to rows it has not listed. */
  lemma PassEffect(st: State, p: Pass, order: seq<string>, listed: seq<string>, h: string)
    requires PassOk(st, p) && Confirming(p) && Statement(st, p, order).1.Some?
    requires forall x :: x in Left(p) ==> x in listed
    ensures var (st', pass') := Statement(st, p, order);
            && Confirming(pass'.value) && pass'.value.hash == p.hash
            && pass'.value.from == p.from && pass'.value.nonce == p.nonce
            && (forall x :: x in Left(pass'.value) ==> x in listed)
            && (h !in listed && h != p.hash ==>
                  (h in st'.rows <==> h in st.rows) && (h in st.rows ==> st'.rows[h] == st.rows[h]))
            && (h in Left(p) ==> h in Left(pass'.value) || (h in st'.rows && st'.rows[h].status == Replaced))
  {
    var left := Left(p);
    if p.stage.Replacing? && |left| > 0 {
      assert left[0] in left;
      assert forall x :: x in left[1..] ==> x in left;
      assert h in left ==> h == left[0] || h in left[1..];
    }
  }

  /** The part of a run from the listing at step `i` on, during which pass `k` goes on. */
  ghost predicate Window(steps: seq<Step>, i: nat, n: nat, k: nat, hash: string, listed: seq<string>)
  {
    && i < n <= |steps| && steps[i] == Advance(k, listed)
    && var s := Run(steps[..i]);
       && k in s.passes && s.passes[k].hash == hash && s.passes[k].stage == Listing
       && ListsSiblings(listed, s.st, s.passes[k].from, s.passes[k].nonce, hash)
       && forall m :: i < m <= n ==> k in Run(steps[..m]).passes
  }

  predicate OfNonce(st: State, p: Pass, h: string)
  {
    h in st.rows && st.rows[h].from == p.from && st.rows[h].nonce == p.nonce
  }

  /** What is true at any point of that part, about the pass and about a row `h`. */
  ghost predicate Tracked(steps: seq<Step>, i: nat, n: nat, k: nat, hash: string, listed: seq<string>, h: string)
    requires n <= |steps|
  {
    var s := Run(steps[..n]);
    && k in s.passes && s.passes[k].hash == hash && Confirming(s.passes[k])
    && (forall x :: x in Left(s.passes[k]) ==> x in listed)
    && (h in listed ==>
          OfNonce(s.st, s.passes[k], h) && (h in Left(s.passes[k]) || s.st.rows[h].status == Replaced))
    && (h !in listed && h != hash ==>
          && (h !in s.st.rows ==> !SentLate(steps, i, n, h))
          && (OfNonce(s.st, s.passes[k], h) ==> (s.st.rows[h].status == Pending <==> SentLate(steps, i, n, h))))
  }

  lemma TrackedAtListing(steps: seq<Step>, i: nat, k: nat, hash: string, listed: seq<string>, h: string)
    requires Window(steps, i, i + 1, k, hash, listed)
    ensures Tracked(steps, i, i + 1, k, hash, listed, h)
  {
    hide Run;
    RunSplit(steps, i);
    var s := Run(steps[..i]);
    assert h in listed <==> Sibling(s.st, h, s.passes[k].from, s.passes[k].nonce, hash);
  }

  /** A statement of the pass itself. */
  lemma TrackedByPass(steps: seq<Step>, i: nat, n: nat, k: nat, hash: string, listed: seq<string>, h: string)
    requires Window(steps, i, n + 1, k, hash, listed) && i < n && NeverCollides(steps[..n + 1])
    requires steps[n].Advance? && steps[n].k == k && Tracked(steps, i, n, k, hash, listed, h)
    ensures Tracked(steps, i, n + 1, k, hash, listed, h)
  {
    hide Run, Core, Statement, Left, Confirming, Evolves, PassOk, NeverCollides, Collides, ListsSiblings;
    RunSplit(steps, n);
    Before(steps, n);
    var s := Run(steps[..n]);
    assert k in Run(steps[..n + 1]).passes;
    assert s.passes[k].stage != Listing by { NotListing(s.passes[k]); }
    PassOfCore(s.st, s.passes, k);
    PassEffect(s.st, s.passes[k], steps[n].order, listed, h);
    StepKeepsCore(s, steps[n]);
    StaysReplaced(s.st, Run(steps[..n + 1]).st, h);
    assert SentLate(steps, i, n + 1, h) == SentLate(steps, i, n, h);
  }

  lemma Before(steps: seq<Step>, n: nat)
    requires n < |steps| && NeverCollides(steps[..n + 1])
    ensures var s := Run(steps[..n]);
            Core(s.st, s.passes) && KeysIndexed(s.st) && !Collision(s, steps[n]) && NeverCollides(steps[..n])
  {
    hide Run, Core, Collision, KeysIndexed;
    assert steps[..n + 1][..n] == steps[..n];
    RunKeepsCore(steps[..n]);
    RunKeepsRows(steps[..n], 0);
  }

  lemma NotListing(p: Pass)
    requires Confirming(p)
    ensures p.stage != Listing
  {
  }

  lemma StaysReplaced(st: State, st': State, h: string)
    requires Evolves(st, st')
    ensures h in st.rows && st.rows[h].status == Replaced ==> h in st'.rows && st'.rows[h].status == Replaced
    ensures h in st.rows ==>
              h in st'.rows && st'.rows[h].from == st.rows[h].from && st'.rows[h].nonce == st.rows[h].nonce
  {
  }

  /** A statement of a pass on another sender or nonce. */
  lemma TrackedByRival(steps: seq<Step>, i: nat, n: nat, k: nat, hash: string, listed: seq<string>, h: string)
    requires Window(steps, i, n + 1, k, hash, listed) && i < n && NeverCollides(steps[..n + 1])
    requires Apart(Run(steps[..n]).passes)
    requires steps[n].Advance? && steps[n].k != k && Tracked(steps, i, n, k, hash, listed, h)
    ensures Tracked(steps, i, n + 1, k, hash, listed, h)
  {
    hide Run, Core, Statement, Left, Confirming, Evolves, PassOk, NeverCollides, Collides, ListsSiblings;
    RunSplit(steps, n);
    Before(steps, n);
    var s := Run(steps[..n]);
    if CanAdvance(s, steps[n].k, steps[n].order) {
      PassOfCore(s.st, s.passes, steps[n].k);
      StatementKeepsRows(s.st, s.passes[steps[n].k], steps[n].order);
      StepKeepsCore(s, steps[n]);
      StaysReplaced(s.st, Run(steps[..n + 1]).st, h);
      if OfNonce(s.st, s.passes[k], h) {
        OwnRowsOnly(s.st, s.passes[steps[n].k], steps[n].order, h);
      }
    }
    assert SentLate(steps, i, n + 1, h) == SentLate(steps, i, n, h);
  }

  lemma StatementKeepsRows(st: State, p: Pass, order: seq<string>)
    ensures Statement(st, p, order).0.rows.Keys == st.rows.Keys
  {
    hide Decide;
  }

  /** A step of a sender or reconciler, or the beginning of another pass. */
  lemma TrackedByOthers(steps: seq<Step>, i: nat, n: nat, k: nat, hash: string, listed: seq<string>, h: string)
    requires Window(steps, i, n + 1, k, hash, listed) && i < n && NeverCollides(steps[..n + 1])
    requires !steps[n].Advance? && Tracked(steps, i, n, k, hash, listed, h)
    ensures Tracked(steps, i, n + 1, k, hash, listed, h)
  {
    hide Run, Next, Core, Left, Confirming, Evolves, Restarts, MarksSent, NeverCollides, Collision, KeysIndexed;
    RunSplit(steps, n);
    Before(steps, n);
    var s, s' := Run(steps[..n]), Run(steps[..n + 1]);
    StepKeepsCore(s, steps[n]);
    StaysReplaced(s.st, s'.st, h);
    if steps[n].Begin? {
      BeginsElsewhere(s, steps[n], k);
    } else {
      OthersEffect(s, steps[n], h);
    }
    assert SentLate(steps, i, n + 1, h) <==>
           !Restarts(s, steps[n], h) && (MarksSent(s, steps[n], h) || SentLate(steps, i, n, h));
    MarkedIsStored(s, steps[n], h);
  }

  lemma BeginsElsewhere(s: System, step: Step, k: nat)
    requires step.Begin? && k in s.passes
    ensures var s' := Next(s, step); s'.st == s.st && k in s'.passes && s'.passes[k] == s.passes[k]
    ensures forall h :: !Restarts(s, step, h) && !MarksSent(s, step, h)
  {
  }

  lemma MarkedIsStored(s: System, step: Step, h: string)
    ensures MarksSent(s, step, h) ==> h in s.st.rows && Unsent(s.st.rows[h].status)
  {
  }

  lemma {:induction false} TrackedThroughout(steps: seq<Step>, i: nat, n: nat, k: nat, hash: string,
                                             listed: seq<string>, h: string)
    requires Window(steps, i, n, k, hash, listed) && AlwaysApart(steps)
    ensures Tracked(steps, i, n, k, hash, listed, h)
    decreases n
  {
    hide Run, Tracked, Apart, NeverCollides;
    if n == i + 1 {
      TrackedAtListing(steps, i, k, hash, listed, h);
    } else {
      assert Window(steps, i, n - 1, k, hash, listed);
      TrackedThroughout(steps, i, n - 1, k, hash, listed, h);
      ApartPrefix(steps, n);
      ApartNeverCollides(steps[..n]);
      assert Apart(Run(steps[..n - 1]).passes);
      if !steps[n - 1].Advance? {
        TrackedByOthers(steps, i, n - 1, k, hash, listed, h);
      } else if steps[n - 1].k == k {
        TrackedByPass(steps, i, n - 1, k, hash, listed, h);
      } else {
        TrackedByRival(steps, i, n - 1, k, hash, listed, h);
      }
    }
  }

  lemma ApartPrefix(steps: seq<Step>, n: nat)
    requires AlwaysApart(steps) && n <= |steps|
    ensures AlwaysApart(steps[..n])
  {
    hide Run, Apart;
    forall m | 0 <= m <= n ensures Apart(Run(steps[..n][..m]).passes) {
      assert steps[..n][..m] == steps[..m];
    }
  }

  /**
   Right after a confirmation all siblings that were listed are replaced, and no other row
   of the nonce is pending if and only if none that was not listed has been marked sent
   since the listing without being restarted again. Passes on other nonces may run beside.
   */
  lemma NonceSettledIff(steps: seq<Step>, i: nat, n: nat, k: nat, hash: string, listed: seq<string>)
    requires Window(steps, i, n, k, hash, listed) && AlwaysApart(steps)
    requires Run(steps[..n]).passes[k].stage.Announcing?
    ensures hash in Run(steps[..n]).st.rows && Run(steps[..n]).st.rows[hash].status == Confirmed
    ensures forall h :: h in listed ==> h in Run(steps[..n]).st.rows && Run(steps[..n]).st.rows[h].status == Replaced
    ensures var st := Run(steps[..n]).st;
            NonceSettled(st, hash) <==>
            forall h :: h in st.rows && h != hash && h !in listed && SameNonce(st, h, hash) ==>
                          !SentLate(steps, i, n, h)
  {
    hide Run, Window, SentLate, AlwaysApart, NeverCollides, Core;
    assert n <= |steps| by { WindowBounds(steps, i, n, k, hash, listed); }
    ApartPrefix(steps, n);
    ApartNeverCollides(steps[..n]);
    RunKeepsCore(steps[..n]);
    var s := Run(steps[..n]);
    forall h ensures Tracked(steps, i, n, k, hash, listed, h) {
      TrackedThroughout(steps, i, n, k, hash, listed, h);
    }
    assert Tracked(steps, i, n, k, hash, listed, hash);
    PassOfCore(s.st, s.passes, k);
    JustConfirmed(s.st, s.passes[k]);
    forall h | h in listed ensures h in s.st.rows && s.st.rows[h].status == Replaced {
      assert Tracked(steps, i, n, k, hash, listed, h);
    }
    forall h | h in s.st.rows && h != hash && SameNonce(s.st, h, hash)
      ensures s.st.rows[h].status == Pending <==> h !in listed && SentLate(steps, i, n, h)
    {
      assert Tracked(steps, i, n, k, hash, listed, h);
    }
  }

  lemma WindowBounds(steps: seq<Step>, i: nat, n: nat, k: nat, hash: string, listed: seq<string>)
    requires Window(steps, i, n, k, hash, listed)
    ensures n <= |steps|
  {
  }

  lemma JustConfirmed(st: State, p: Pass)
    requires PassOk(st, p) && Confirming(p) && p.stage.Announcing?
    ensures p.hash in st.rows && st.rows[p.hash].status == Confirmed && Left(p) == []
    ensures st.rows[p.hash].from == p.from && st.rows[p.hash].nonce == p.nonce
  {
  }

  // ---------------------------------------------------------------------
  // A run that confirms one transaction and leaves another of its nonce pending.
  // ---------------------------------------------------------------------

  const DEEP := Observation(true, Some(Receipt(true, 1)), 9, 1, false)

  const STRAGGLER := [Lookup(0, "a", "f", 0, "", true), CheckHash(0), InsertRow(0), Send(0, true), Write(0),
                      Lookup(1, "b", "f", 0, "", true), CheckHash(1), InsertRow(1), Send(1, true),
                      Begin(0, "a", DEEP), Advance(0, []), Write(1), Advance(0, []), Advance(0, []), Advance(0, [])]

  function SentRow(x: string): Row { Row("f", 0, Pending, None, "", Some(x), 0) }

  lemma StragglerBegins()
    ensures Run(STRAGGLER[..10]) ==
            System(State(map["a" := SentRow("a"), "b" := SentRow("b").(status := Submitting)], map[], []),
                   map[1 := Answered("b", true)], {"a", "b"}, map[0 := Pass("a", "f", 0, DEEP, Listing)])
  {
    hide Run;
    var r := STRAGGLER;
    assert r[..0] == [];
    assert Run([]) == START by { EmptyRun(); }
    RunSplit(r, 0);
    RunSplit(r, 1);
    RunSplit(r, 2);
    RunSplit(r, 3);
    RunSplit(r, 4);
    assert Run(r[..5]) == System(State(map["a" := SentRow("a")], map[], []), map[], {"a"}, map[]);
    RunSplit(r, 5);
    RunSplit(r, 6);
    RunSplit(r, 7);
    RunSplit(r, 8);
    assert Run(r[..9]) == System(State(map["a" := SentRow("a"), "b" := SentRow("b").(status := Submitting)], map[], []),
                                 map[1 := Answered("b", true)], {"a", "b"}, map[]);
    RunSplit(r, 9);
  }

  lemma StragglerSlipsIn()
    ensures Run(STRAGGLER[..12]) ==
            System(State(map["a" := SentRow("a"), "b" := SentRow("b")], map[], []), map[], {"a", "b"},
                   map[0 := Pass("a", "f", 0, DEEP, Replacing([]))])
  {
    hide Run;
    var r := STRAGGLER;
    StragglerBegins();
    var s := Run(r[..10]);
    forall h ensures !Sibling(s.st, h, "f", 0, "a") {
    }
    RunSplit(r, 10);
    RunSplit(r, 11);
  }

  /** The sibling sent between the listing and the confirmation stays pending beside the confirmed one. */
  lemma StragglerStaysPending()
    ensures var st := Run(STRAGGLER).st;
            && "a" in st.rows && st.rows["a"].status == Confirmed
            && "b" in st.rows && st.rows["b"].status == Pending && !NonceSettled(st, "a")
  {
    hide Run;
    var r := STRAGGLER;
    assert r[..15] == r;
    StragglerSlipsIn();
    RunSplit(r, 12);
    RunSplit(r, 13);
    RunSplit(r, 14);
    assert SameNonce(Run(r).st, "b", "a");
  }

  // ---------------------------------------------------------------------
  // Two passes over one row.
  // ---------------------------------------------------------------------

  const EXPIRED := Observation(true, None, 9, 1, true)

  // The refresh gives the transaction up while the poll, which has read it pending, confirms it.
  const OVERLAP := [Lookup(0, "a", "f", 0, "", true), CheckHash(0), InsertRow(0), Send(0, true), Write(0),
                    Begin(0, "a", DEEP), Advance(0, []), Advance(0, []), Advance(0, []),
                    Begin(1, "a", EXPIRED), Advance(1, []), Advance(1, []), Advance(1, []),
                    Advance(0, []), Advance(0, [])]

  lemma OneSent()
    ensures Run(OVERLAP[..5]) == System(State(map["a" := SentRow("a")], map[], []), map[], {"a"}, map[])
  {
    hide Run;
    var r := OVERLAP;
    assert r[..0] == [];
    assert Run([]) == START by { EmptyRun(); }
    RunSplit(r, 0);
    RunSplit(r, 1);
    RunSplit(r, 2);
    RunSplit(r, 3);
    RunSplit(r, 4);
  }

  lemma PollLists()
    ensures Run(OVERLAP[..7]) ==
            System(State(map["a" := SentRow("a")], map[], []), map[], {"a"},
                   map[0 := Pass("a", "f", 0, DEEP, Replacing([]))])
  {
    hide Run;
    var r := OVERLAP;
    OneSent();
    RunSplit(r, 5);
    var s := Run(r[..6]);
    forall h ensures !Sibling(s.st, h, "f", 0, "a") {
    }
    RunSplit(r, 6);
  }

  lemma PollHasRead()
    ensures Run(OVERLAP[..9]) ==
            System(State(map["a" := SentRow("a")], map[], []), map[], {"a"},
                   map[0 := Pass("a", "f", 0, DEEP, Writing(Confirmed, Pending))])
  {
    hide Run;
    var r := OVERLAP;
    PollLists();
    RunSplit(r, 7);
    RunSplit(r, 8);
  }

  const DROPPED := Change("a", Pending, Dropped)

  lemma RefreshReads()
    ensures Run(OVERLAP[..11]) ==
            System(State(map["a" := SentRow("a")], map[], []), map[], {"a"},
                   map[0 := Pass("a", "f", 0, DEEP, Writing(Confirmed, Pending)),
                       1 := Pass("a", "f", 0, EXPIRED, Writing(Dropped, Pending))])
  {
    hide Run;
    var r := OVERLAP;
    PollHasRead();
    RunSplit(r, 9);
    RunSplit(r, 10);
  }

  lemma RefreshDrops()
    ensures Run(OVERLAP[..13]) ==
            System(State(map["a" := SentRow("a").(status := Dropped)], map[], [DROPPED]), map[], {"a"},
                   map[0 := Pass("a", "f", 0, DEEP, Writing(Confirmed, Pending))])
  {
    hide Run;
    var r := OVERLAP;
    RefreshReads();
    RunSplit(r, 11);
    RunSplit(r, 12);
  }

  /** The row goes from dropped to confirmed, and both outcomes are announced. */
  lemma OverlapAnnouncesTwice()
    ensures var before, after := Run(OVERLAP[..13]).st, Run(OVERLAP).st;
            && "a" in before.rows && before.rows["a"].status == Dropped
            && "a" in after.rows && after.rows["a"].status == Confirmed
            && FinalNotices(after.outbox, "a") == 2
  {
    hide Run, FinalNotices;
    var r := OVERLAP;
    assert r[..15] == r;
    RefreshDrops();
    RunSplit(r, 13);
    RunSplit(r, 14);
    var confirmed := Change("a", Pending, Confirmed);
    assert Run(r).st.outbox == [DROPPED] + [confirmed];
    assert FinalNotices([], "a") == 0 by { NoNotices("a"); }
    assert [] + [DROPPED] == [DROPPED];
    NoticesAppend([], DROPPED, "a");
    NoticesAppend([DROPPED], confirmed, "a");
  }

  lemma NoNotices(h: string)
    ensures FinalNotices([], h) == 0
  {
  }
}
