/**
 Transactions that reach the node without a row of their own. Every keyed caller looks its
 idempotency key up first; what can still go wrong is that another row takes the key before
 the insert, or that a raw submission under a taken key brings other bytes than the row it
 resumes. Models internal/tx/service.go and the upsert of internal/tx/store.go.
 */
module Untracked {
  import opened Outcomes
  import opened TxTracker
  import opened TrackerPass
  import opened TxRuns

  predicate KeyTaken(s: System, key: string) { key != "" && key in s.st.keys }

  /** The insert of transaction `x` meets a key that another row has taken. */
  predicate Races(s: System, step: Step, x: string)
  {
    && step.InsertRow? && step.c in s.callers && s.callers[step.c].Absent? && s.callers[step.c].hash == x
    && KeyTaken(s, s.callers[step.c].key) && x !in s.st.rows
  }

  /** A raw submission of `x` resumes an unsent row that is not its own. */
  predicate Hijacks(s: System, step: Step, x: string)
  {
    && step.Lookup? && step.c !in s.callers && step.ownBytes && step.hash == x && KeyTaken(s, step.key)
    && Unfinished(s.st, s.st.keys[step.key]) && Unsent(s.st.rows[s.st.keys[step.key]].status) && x !in s.st.rows
  }

  predicate Diverts(s: System, step: Step, x: string) { Races(s, step, x) || Hijacks(s, step, x) }

  ghost predicate DivertedAt(steps: seq<Step>, j: nat, x: string)
    requires j < |steps|
  {
    Diverts(Run(steps[..j]), steps[j], x)
  }

  /** Step `k` hands `x` to the node, which takes it. */
  ghost predicate AcceptedAt(steps: seq<Step>, k: nat, x: string)
    requires k < |steps|
  {
    Accepts(Run(steps[..k]), steps[k], x)
  }

  predicate Accepts(s: System, step: Step, x: string)
  {
    step.Send? && step.ok && step.c in s.callers && s.callers[step.c].Sending? && s.callers[step.c].hash == x
  }

  /** Somebody holds the signed bytes of `x` and may hand them to the node. */
  ghost predicate Mentioned(s: System, x: string)
  {
    || (exists c :: c in s.callers && s.callers[c].Sending? && s.callers[c].hash == x)
    || (exists c :: c in s.callers && s.callers[c].Listed? && s.callers[c].raw == Some(x))
    || (exists h :: h in s.st.rows && s.st.rows[h].raw == Some(x))
  }

  predicate MentionedBy(caller: Caller, x: string)
  {
    (caller.Sending? && caller.hash == x) || (caller.Listed? && caller.raw == Some(x))
  }

  lemma MentionedIff(s: System, x: string)
    ensures Mentioned(s, x) <==>
            || (exists c :: c in s.callers && MentionedBy(s.callers[c], x))
            || (exists h :: h in s.st.rows && s.st.rows[h].raw == Some(x))
  {
  }

  /** A step adds bytes to a caller only from a row, or as its own stored or diverted transaction. */
  lemma NewCallerMention(s: System, step: Step, c: nat, x: string)
    requires c in Next(s, step).callers && MentionedBy(Next(s, step).callers[c], x)
    ensures Mentioned(s, x) || x in Next(s, step).st.rows || Diverts(s, step, x)
  {
    hide Statement, BeginPass, MarkBroadcastPending, MarkBroadcastFailed, IncrementRetry;
  }

  lemma NewRowMention(s: System, step: Step, h: string, x: string)
    requires KeysIndexed(s.st)
    requires h in Next(s, step).st.rows && Next(s, step).st.rows[h].raw == Some(x)
    ensures Mentioned(s, x) || x in Next(s, step).st.rows || Diverts(s, step, x)
  {
    hide BeginPass, KeysIndexed;
  }

  lemma NewMention(s: System, step: Step, x: string)
    requires KeysIndexed(s.st) && Mentioned(Next(s, step), x)
    ensures Mentioned(s, x) || x in Next(s, step).st.rows || Diverts(s, step, x)
  {
    hide Next, KeysIndexed, Diverts, Mentioned;
    var s' := Next(s, step);
    MentionedIff(s', x);
    if c :| c in s'.callers && MentionedBy(s'.callers[c], x) {
      NewCallerMention(s, step, c, x);
    } else {
      var h :| h in s'.st.rows && s'.st.rows[h].raw == Some(x);
      NewRowMention(s, step, h, x);
    }
  }

  /** In every run, signed bytes that somebody holds belong to a stored transaction or one that was diverted. */
  lemma {:induction false} MentionedIsAccounted(steps: seq<Step>, x: string)
    requires Mentioned(Run(steps), x) && x !in Run(steps).st.rows
    ensures exists j :: 0 <= j < |steps| && DivertedAt(steps, j, x)
  {
    hide Next, KeysIndexed, Diverts;
    assert |steps| > 0;
    var n := |steps| - 1;
    var front := steps[..n];
    RunKeepsRows(front, 0);
    NewMention(Run(front), steps[n], x);
    if Diverts(Run(front), steps[n], x) {
      assert DivertedAt(steps, n, x);
    } else {
      StepKeepsRows(Run(front), steps[n]);
      MentionedIsAccounted(front, x);
      var j :| 0 <= j < |front| && DivertedAt(front, j, x);
      assert front[..j] == steps[..j];
      assert DivertedAt(steps, j, x);
    }
  }

  lemma AcceptStep(s: System, step: Step, x: string)
    ensures x in Next(s, step).accepted <==> x in s.accepted || Accepts(s, step, x)
  {
    hide Statement, BeginPass, Insert, MarkBroadcastPending, MarkBroadcastFailed, IncrementRetry;
  }

  lemma {:induction false} AcceptedIff(steps: seq<Step>, x: string)
    ensures x in Run(steps).accepted <==> exists k :: 0 <= k < |steps| && AcceptedAt(steps, k, x)
  {
    hide Next, Accepts;
    if |steps| > 0 {
      var n := |steps| - 1;
      var front := steps[..n];
      AcceptedIff(front, x);
      AcceptStep(Run(front), steps[n], x);
      if k :| 0 <= k < |front| && AcceptedAt(front, k, x) {
        assert front[..k] == steps[..k];
        assert AcceptedAt(steps, k, x);
      }
      if k :| 0 <= k < |steps| && AcceptedAt(steps, k, x) {
        if k < n {
          assert front[..k] == steps[..k];
          assert AcceptedAt(front, k, x);
        }
      }
      if Accepts(Run(front), steps[n], x) {
        assert AcceptedAt(steps, n, x);
      }
    }
  }

  /**
   For every run and every transaction without a row at its end: the node has taken it if
   and only if it was diverted and handed to the node after that.
   */
  lemma UntrackedIff(steps: seq<Step>, x: string)
    requires x !in Run(steps).st.rows
    ensures x in Run(steps).accepted <==>
            exists j, k :: 0 <= j < k < |steps| && DivertedAt(steps, j, x) && AcceptedAt(steps, k, x)
  {
    hide Run, Diverts;
    AcceptedIff(steps, x);
    if k :| 0 <= k < |steps| && AcceptedAt(steps, k, x) {
      RunKeepsRows(steps, k);
      var front := steps[..k];
      assert x !in Run(front).st.rows;
      assert Mentioned(Run(front), x);
      MentionedIsAccounted(front, x);
      var j :| 0 <= j < |front| && DivertedAt(front, j, x);
      assert front[..j] == steps[..j];
      assert DivertedAt(steps, j, x);
    }
  }

  // ---------------------------------------------------------------------
  // The race, in terms of the caller's own lookup.
  // ---------------------------------------------------------------------

  /** Step `i` is the lookup of caller `c` for transaction `x` under `key`, and finds the key free. */
  ghost predicate MissedAt(steps: seq<Step>, i: nat, c: nat, x: string, key: string)
    requires i < |steps|
  {
    && steps[i].Lookup? && steps[i].c == c && steps[i].hash == x && steps[i].key == key
    && !KeyTaken(Run(steps[..i]), key)
  }

  predicate Underway(s: System, c: nat, x: string, key: string)
  {
    c in s.callers && (s.callers[c].Missed? || s.callers[c].Absent?) && s.callers[c].hash == x
        && s.callers[c].key == key
  }

  lemma UnderwayStep(s: System, step: Step, c: nat, x: string, key: string)
    requires Underway(Next(s, step), c, x, key)
    ensures Underway(s, c, x, key)
            || (step.Lookup? && step.c == c && step.hash == x && step.key == key && !KeyTaken(s, key))
  {
    hide Statement, BeginPass, Insert, MarkBroadcastPending, MarkBroadcastFailed, IncrementRetry;
  }

  lemma {:induction false} UnderwayMissed(steps: seq<Step>, c: nat, x: string, key: string)
    requires Underway(Run(steps), c, x, key)
    ensures exists i :: 0 <= i < |steps| && MissedAt(steps, i, c, x, key)
  {
    hide Next;
    assert |steps| > 0;
    var n := |steps| - 1;
    var front := steps[..n];
    UnderwayStep(Run(front), steps[n], c, x, key);
    if Underway(Run(front), c, x, key) {
      UnderwayMissed(front, c, x, key);
      var i :| 0 <= i < |front| && MissedAt(front, i, c, x, key);
      assert front[..i] == steps[..i];
      assert MissedAt(steps, i, c, x, key);
    } else {
      assert MissedAt(steps, n, c, x, key);
    }
  }

  /**
   The insert of a caller that found its key free leaves its transaction without a row if
   and only if another row has taken the key since that lookup and nobody has stored the
   transaction itself.
   */
  lemma InsertMissesIff(steps: seq<Step>, j: nat, x: string, key: string)
    requires j < |steps| && steps[j].InsertRow?
    requires Underway(Run(steps[..j]), steps[j].c, x, key) && Run(steps[..j]).callers[steps[j].c].Absent?
    ensures x !in Run(steps[..j + 1]).st.rows <==>
            && x !in Run(steps[..j]).st.rows
            && KeyTaken(Run(steps[..j]), key)
            && exists i :: 0 <= i < j && MissedAt(steps, i, steps[j].c, x, key)
  {
    hide Run;
    var s, c := Run(steps[..j]), steps[j].c;
    RunSplit(steps, j);
    RunKeepsRows(steps[..j], 0);
    InsertTracksIff(s.st, x, s.callers[c].from, s.callers[c].nonce, key);
    UnderwayMissed(steps[..j], c, x, key);
    var i :| 0 <= i < j && MissedAt(steps[..j], i, c, x, key);
    assert steps[..j][..i] == steps[..i];
    assert MissedAt(steps, i, c, x, key);
  }

  // ---------------------------------------------------------------------
  // Two callers under one key, and a raw submission under another's key.
  // ---------------------------------------------------------------------

  const A_ROW := Row("f", 0, Submitting, None, "k", Some("a"), 0)

  const RACE := [Lookup(0, "a", "f", 0, "k", false), Lookup(1, "b", "f", 1, "k", false),
                 CheckHash(0), InsertRow(0), CheckHash(1), InsertRow(1), Send(1, true)]

  lemma FirstCallerStores()
    ensures Run(RACE[..4]) == System(State(map["a" := A_ROW], map["k" := "a"], []),
                                     map[0 := Sending("a", "a"), 1 := Missed("b", "f", 1, "k")], {}, map[])
  {
    hide Run;
    var r := RACE;
    assert r[..0] == [];
    assert Run([]) == START by { EmptyRun(); }
    RunSplit(r, 0);
    RunSplit(r, 1);
    assert Run(r[..2]) == System(EMPTY, map[0 := Missed("a", "f", 0, "k"), 1 := Missed("b", "f", 1, "k")], {}, map[]);
    RunSplit(r, 2);
    RunSplit(r, 3);
  }

  /** The later caller's transaction is with the node and in no row, and its bytes sit in the other's row. */
  lemma RaceLosesTransaction()
    ensures var s := Run(RACE);
            "b" in s.accepted && "b" !in s.st.rows && "a" in s.st.rows && s.st.rows["a"].raw == Some("b")
  {
    hide Run;
    var r := RACE;
    assert r[..7] == r;
    FirstCallerStores();
    RunSplit(r, 4);
    RunSplit(r, 5);
    var s6 := Run(r[..6]);
    assert s6.st.rows == map["a" := A_ROW.(raw := Some("b"))];
    RunSplit(r, 6);
  }

  const HIJACK := [Lookup(0, "a", "f", 0, "k", true), CheckHash(0), InsertRow(0),
                   Lookup(1, "b", "f", 1, "k", true), Send(1, true), Write(1)]

  lemma OwnerStores()
    ensures Run(HIJACK[..3]) ==
            System(State(map["a" := A_ROW], map["k" := "a"], []), map[0 := Sending("a", "a")], {}, map[])
  {
    hide Run;
    var r := HIJACK;
    assert r[..0] == [];
    assert Run([]) == START by { EmptyRun(); }
    RunSplit(r, 0);
    RunSplit(r, 1);
    RunSplit(r, 2);
  }

  /** A raw submission under a taken key is sent without a row, and the other row is marked sent for it. */
  lemma HijackLosesTransaction()
    ensures var s := Run(HIJACK);
            "b" in s.accepted && "b" !in s.st.rows && "a" in s.st.rows && s.st.rows["a"].status == Pending
            && "a" !in s.accepted
  {
    hide Run;
    var r := HIJACK;
    assert r[..6] == r;
    OwnerStores();
    RunSplit(r, 3);
    RunSplit(r, 4);
    RunSplit(r, 5);
  }
}
