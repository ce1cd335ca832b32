/**
 One pass of the receipt tracker over a row, statement by statement, and what stays true
 of the transaction table between any two of its statements. Models trackOne of
 internal/tx/tracker.go with TransitionStatus and MarkReplacedSiblings of
 internal/tx/store.go, whose statements commit one by one.
 */
module TrackerPass {
  import opened Outcomes
  import opened TxTracker

  /**
   The statement a pass is about to run: mark the row sent, list the siblings, replace the
   next one, queue the notice of the one just replaced, read the old status, write the new
   one, queue the notice of the change.
   */
  datatype Stage =
    | Marking
    | Listing
    | Replacing(left: seq<string>)
    | Queueing(replaced: string, left: seq<string>)
    | Reading(to: Status)
    | Writing(to: Status, before: Status)
    | Announcing(to: Status, before: Status)

  /** The row as read at the start, what the node answers, and where the pass is. */
  datatype Pass = Pass(hash: string, from: string, nonce: nat, o: Observation, stage: Stage)

  /** What the receipt asks for; nothing when there is none yet and the row is not too old. */
  function Decide(p: Pass): Option<Pass>
  {
    if p.o.receipt.None? then (if p.o.expired then Some(p.(stage := Reading(Dropped))) else None)
    else if !p.o.receipt.value.success then Some(p.(stage := Reading(Failed)))
    else if Deep(p.o) then Some(p.(stage := Listing))
    else Some(p.(stage := Reading(Pending)))
  }

  function BeginPass(st: State, hash: string, o: Observation): Option<Pass>
    requires hash in st.rows
  {
    var row := st.rows[hash];
    var p := Pass(hash, row.from, row.nonce, o, Marking);
    if Unsent(row.status) && !o.known && row.raw.Some? then None
    else if Unsent(row.status) && o.known then Some(p)
    else Decide(p)
  }

  function SetStatus(st: State, hash: string, to: Status): State
  {
    if hash in st.rows then st.(rows := st.rows[hash := st.rows[hash].(status := to)]) else st
  }

  function ReplaceOne(st: State, hash: string, winner: string): State
  {
    if hash in st.rows
    then st.(rows := st.rows[hash := st.rows[hash].(status := Replaced, replacedBy := Some(winner))]) else st
  }

  function Queue(st: State, c: Change): State { st.(outbox := st.outbox + [c]) }

  /** The next statement of a pass; `order` is the sibling list if that is what it asks for. */
  function Statement(st: State, p: Pass, order: seq<string>): (State, Option<Pass>)
  {
    match p.stage
    case Marking => (MarkBroadcastPending(st, p.hash), Decide(p))
    case Listing => (st, Some(p.(stage := Replacing(order))))
    case Replacing(left) =>
      if |left| == 0 then (st, Some(p.(stage := Reading(Confirmed))))
      else (ReplaceOne(st, left[0], p.hash), Some(p.(stage := Queueing(left[0], left[1..]))))
    case Queueing(h, left) => (Queue(st, Change(h, Pending, Replaced)), Some(p.(stage := Replacing(left))))
    case Reading(to) =>
      if p.hash in st.rows then (st, Some(p.(stage := Writing(to, st.rows[p.hash].status)))) else (st, None)
    case Writing(to, before) =>
      (SetStatus(st, p.hash, to), if before == to then None else Some(p.(stage := Announcing(to, before))))
    case Announcing(to, before) => (Queue(st, Change(p.hash, before, to)), None)
  }

  // ---------------------------------------------------------------------
  // What holds between any two statements.
  // ---------------------------------------------------------------------

  /** Number of queued changes of `hash` into a final status. */
  function FinalNotices(outbox: seq<Change>, hash: string): nat
  {
    if |outbox| == 0 then 0
    else
      var c := outbox[|outbox| - 1];
      FinalNotices(outbox[..|outbox| - 1], hash) + if c.hash == hash && Terminal(c.after) then 1 else 0
  }

  predicate Finished(st: State, hash: string) { hash in st.rows && Terminal(st.rows[hash].status) }

  /** The pass has finished the row and has its notice still to queue. */
  predicate Owes(p: Pass, h: string)
  {
    match p.stage
    case Queueing(replaced, _) => replaced == h
    case Announcing(to, _) => Terminal(to) && p.hash == h
    case _ => false
  }

  type Passes = map<nat, Pass>

  ghost predicate NoticeDue(passes: Passes, h: string) { exists k :: k in passes && Owes(passes[k], h) }

  /** Notices of `h` in the outbox, counting the one that some pass is about to queue. */
  ghost function Announced(st: State, passes: Passes, h: string): nat
  {
    FinalNotices(st.outbox, h) + if NoticeDue(passes, h) then 1 else 0
  }

  /** Exactly the finished transactions have been announced, each exactly once, up to notices due. */
  ghost predicate AnnouncedOnce(st: State, passes: Passes)
  {
    && (forall h :: Announced(st, passes, h) == if Finished(st, h) then 1 else 0)
    && (forall j, k, h :: j in passes && k in passes && j != k && Owes(passes[j], h) ==> !Owes(passes[k], h))
  }

  /** The pass has begun to replace the siblings of `h` and has not confirmed it yet. */
  predicate Confirms(p: Pass, h: string)
  {
    p.hash == h &&
    match p.stage
    case Replacing(_) => true
    case Queueing(_, _) => true
    case Reading(to) => to == Confirmed
    case Writing(to, _) => to == Confirmed
    case _ => false
  }

  ghost predicate AboutToConfirm(passes: Passes, h: string) { exists k :: k in passes && Confirms(passes[k], h) }

  predicate SameNonce(st: State, h: string, k: string)
    requires h in st.rows && k in st.rows
  {
    st.rows[h].from == st.rows[k].from && st.rows[h].nonce == st.rows[k].nonce
  }

  ghost predicate HasWinner(st: State, passes: Passes, h: string)
    requires h in st.rows
  {
    && st.rows[h].replacedBy.Some?
    && st.rows[h].replacedBy.value in st.rows
    && SameNonce(st, st.rows[h].replacedBy.value, h)
    && (|| st.rows[st.rows[h].replacedBy.value].status == Confirmed
        || AboutToConfirm(passes, st.rows[h].replacedBy.value))
  }

  /** A replaced transaction names one of its own sender and nonce that is confirmed, or about to be by a pass. */
  ghost predicate ReplacedByWinner(st: State, passes: Passes)
  {
    forall h :: h in st.rows && st.rows[h].status == Replaced ==> HasWinner(st, passes, h)
  }

  predicate Unfinished(st: State, h: string) { h in st.rows && !Terminal(st.rows[h].status) }

  ghost predicate SiblingsLeft(st: State, p: Pass, left: seq<string>)
  {
    && (forall i, j :: 0 <= i < j < |left| ==> left[i] != left[j])
    && (forall i :: 0 <= i < |left| ==>
          && left[i] != p.hash && left[i] in st.rows
          && st.rows[left[i]].from == p.from && st.rows[left[i]].nonce == p.nonce)
  }

  predicate Target(to: Status) { to == Dropped || to == Failed || to == Confirmed || to == Pending }

  ghost predicate StageOk(st: State, p: Pass)
  {
    match p.stage
    case Marking => true
    case Listing => Deep(p.o)
    case Replacing(left) => SiblingsLeft(st, p, left)
    case Queueing(h, left) => SiblingsLeft(st, p, left) && h in st.rows && st.rows[h].status == Replaced && h !in left
    case Reading(to) => Target(to)
    case Writing(to, before) => Target(to) && (Terminal(before) ==> Finished(st, p.hash))
    case Announcing(to, before) =>
      Target(to) && before != to && (Terminal(to) ==> p.hash in st.rows && st.rows[p.hash].status == to)
  }

  ghost predicate PassOk(st: State, p: Pass)
  {
    && p.hash in st.rows && st.rows[p.hash].from == p.from && st.rows[p.hash].nonce == p.nonce
    && StageOk(st, p)
  }

  ghost predicate PassesOk(st: State, passes: Passes) { forall k :: k in passes ==> PassOk(st, passes[k]) }

  ghost predicate Core(st: State, passes: Passes)
  {
    PassesOk(st, passes) && AnnouncedOnce(st, passes) && ReplacedByWinner(st, passes)
  }

  /** Rows are never lost, keep their sender and nonce, and never leave a final status. */
  ghost predicate Evolves(st: State, st': State)
  {
    forall h :: h in st.rows ==>
      && h in st'.rows && st'.rows[h].from == st.rows[h].from && st'.rows[h].nonce == st.rows[h].nonce
      && (Terminal(st.rows[h].status) ==>
            st'.rows[h].status == st.rows[h].status && st'.rows[h].replacedBy == st.rows[h].replacedBy)
  }

  lemma EvolvesTransitive(a: State, b: State, c: State)
    requires Evolves(a, b) && Evolves(b, c)
    ensures Evolves(a, c)
  {
  }

  lemma EvolvesKeepsPass(st: State, st': State, p: Pass)
    requires Evolves(st, st') && PassOk(st, p)
    ensures PassOk(st', p)
  {
  }

  // ---------------------------------------------------------------------
  // The other writers: none of them finishes, revives or announces anything.
  // ---------------------------------------------------------------------

  ghost predicate Soft(st: State, st': State)
  {
    && st'.outbox == st.outbox
    && (forall h :: h in st.rows ==>
          && h in st'.rows
          && st'.rows[h].from == st.rows[h].from && st'.rows[h].nonce == st.rows[h].nonce
          && st'.rows[h].replacedBy == st.rows[h].replacedBy
          && (if Terminal(st.rows[h].status) then st'.rows[h].status == st.rows[h].status
              else !Terminal(st'.rows[h].status)))
    && (forall h :: h in st'.rows && h !in st.rows ==> !Terminal(st'.rows[h].status))
  }

  lemma InsertSoft(st: State, hash: string, from: string, nonce: nat, key: string)
    requires KeysIndexed(st)
    ensures Soft(st, Insert(st, hash, from, nonce, key)) && KeysIndexed(Insert(st, hash, from, nonce, key))
  {
    hide Soft;
    if Conflict(st, hash, key).Some? {
      hide KeysIndexed;
      OneRowSoft(st, Insert(st, hash, from, nonce, key), Conflict(st, hash, key).value);
    } else {
      NewRowSoft(st, hash, Row(from, nonce, Submitting, None, key, Some(hash), 0));
    }
  }

  /** A new unfinished row, entered in the index under its key. */
  lemma NewRowSoft(st: State, hash: string, r: Row)
    requires KeysIndexed(st) && hash !in st.rows && r.status == Submitting && (r.key != "" ==> r.key !in st.keys)
    ensures var st' := st.(rows := st.rows[hash := r], keys := if r.key == "" then st.keys else st.keys[r.key := hash]);
            Soft(st, st') && KeysIndexed(st')
  {
  }

  lemma MarksSoft(st: State, hash: string)
    requires KeysIndexed(st)
    ensures Soft(st, MarkBroadcastPending(st, hash)) && KeysIndexed(MarkBroadcastPending(st, hash))
    ensures Soft(st, MarkBroadcastFailed(st, hash)) && KeysIndexed(MarkBroadcastFailed(st, hash))
    ensures Soft(st, IncrementRetry(st, hash)) && KeysIndexed(IncrementRetry(st, hash))
  {
    hide Soft, KeysIndexed;
    OneRowSoft(st, MarkBroadcastPending(st, hash), hash);
    OneRowSoft(st, MarkBroadcastFailed(st, hash), hash);
    OneRowSoft(st, IncrementRetry(st, hash), hash);
  }

  /** A write to one row that neither finishes nor revives it. */
  lemma OneRowSoft(st: State, st': State, hash: string)
    requires KeysIndexed(st) && st'.keys == st.keys && st'.outbox == st.outbox
    requires if hash in st.rows
             then
               exists r: Row :: st'.rows == st.rows[hash := r] && r.from == st.rows[hash].from
                 && r.nonce == st.rows[hash].nonce && r.key == st.rows[hash].key
                 && r.replacedBy == st.rows[hash].replacedBy
                 && (if Terminal(st.rows[hash].status) then r.status == st.rows[hash].status else !Terminal(r.status))
             else st'.rows == st.rows
    ensures Soft(st, st') && KeysIndexed(st')
  {
  }

  lemma SoftEvolves(st: State, st': State)
    requires Soft(st, st')
    ensures Evolves(st, st')
    ensures forall h :: Finished(st', h) <==> Finished(st, h)
  {
  }

  /** Whatever the others write between two statements of any pass, everything is kept. */
  lemma SoftKeepsCore(st: State, st': State, passes: Passes)
    requires Soft(st, st') && Core(st, passes)
    ensures Core(st', passes) && Evolves(st, st')
  {
    SoftEvolves(st, st');
    forall k | k in passes ensures PassOk(st', passes[k]) {
      EvolvesKeepsPass(st, st', passes[k]);
    }
    assert AnnouncedOnce(st', passes) by {
      hide PassesOk, ReplacedByWinner, FinalNotices, Evolves, NoticeDue;
      forall h ensures Announced(st', passes, h) == if Finished(st', h) then 1 else 0 {
        assert Announced(st, passes, h) == if Finished(st, h) then 1 else 0;
      }
    }
    assert ReplacedByWinner(st', passes) by {
      hide PassesOk, AnnouncedOnce, Evolves, AboutToConfirm;
      forall h | h in st'.rows && st'.rows[h].status == Replaced ensures HasWinner(st', passes, h) {
        assert HasWinner(st, passes, h);
      }
    }
  }

  // ---------------------------------------------------------------------
  // The passes themselves.
  // ---------------------------------------------------------------------

  function PutPass(passes: Passes, k: nat, pass: Option<Pass>): Passes
  {
    if pass.Some? then passes[k := pass.value] else passes - {k}
  }

  /**
   The next statement of pass `k` finishes or revives a row that is finished already, or
   gives another outcome to one that a different pass is about to confirm.
   */
  ghost predicate Collides(st: State, passes: Passes, k: nat)
    requires k in passes
  {
    match passes[k].stage
    case Writing(to, _) =>
      Finished(st, passes[k].hash) || (Terminal(to) && to != Confirmed && RivalConfirms(passes, k, passes[k].hash))
    case Replacing(left) =>
      |left| > 0 && (Finished(st, left[0]) || RivalConfirms(passes, k, left[0]))
    case _ => false
  }

  ghost predicate RivalConfirms(passes: Passes, k: nat, h: string)
  {
    exists j :: j in passes && j != k && Confirms(passes[j], h)
  }

  lemma NoticesAppend(outbox: seq<Change>, c: Change, h: string)
    ensures FinalNotices(outbox + [c], h) ==
            FinalNotices(outbox, h) + if c.hash == h && Terminal(c.after) then 1 else 0
  {
    assert (outbox + [c])[..|outbox|] == outbox;
  }

  lemma DueAfter(passes: Passes, k: nat, pass: Option<Pass>, h: string)
    ensures NoticeDue(PutPass(passes, k, pass), h) <==>
            (pass.Some? && Owes(pass.value, h)) || exists j :: j in passes && j != k && Owes(passes[j], h)
  {
    var passes' := PutPass(passes, k, pass);
    if pass.Some? && Owes(pass.value, h) {
      assert k in passes' && Owes(passes'[k], h);
    }
    if j :| j in passes && j != k && Owes(passes[j], h) {
      assert j in passes' && Owes(passes'[j], h);
    }
  }

  lemma ConfirmsAfter(passes: Passes, k: nat, pass: Option<Pass>, h: string)
    ensures AboutToConfirm(PutPass(passes, k, pass), h) <==>
            (pass.Some? && Confirms(pass.value, h)) || RivalConfirms(passes, k, h)
  {
    var passes' := PutPass(passes, k, pass);
    if pass.Some? && Confirms(pass.value, h) {
      assert k in passes' && Confirms(passes'[k], h);
    }
    if j :| j in passes && j != k && Confirms(passes[j], h) {
      assert j in passes' && Confirms(passes'[j], h);
    }
  }

  /** The pass moves on without finishing or announcing anything, and gives up no confirmation. */
  ghost predicate MovesOn(p: Pass, pass: Option<Pass>)
  {
    && (forall h :: !Owes(p, h)) && (pass.Some? ==> forall h :: !Owes(pass.value, h))
    && (forall h :: Confirms(p, h) ==> pass.Some? && Confirms(pass.value, h))
  }

  lemma MoveOnKeepsCore(st: State, passes: Passes, k: nat, pass: Option<Pass>)
    requires Core(st, passes) && (k in passes ==> MovesOn(passes[k], pass))
    requires pass.Some? ==> PassOk(st, pass.value) && forall h :: !Owes(pass.value, h)
    ensures Core(st, PutPass(passes, k, pass))
  {
    hide PassOk, FinalNotices, Owes, Confirms;
    var passes' := PutPass(passes, k, pass);
    forall h ensures Announced(st, passes', h) == if Finished(st, h) then 1 else 0 {
      DueAfter(passes, k, pass, h);
      assert Announced(st, passes, h) == if Finished(st, h) then 1 else 0;
    }
    forall h | h in st.rows && st.rows[h].status == Replaced ensures HasWinner(st, passes', h) {
      assert HasWinner(st, passes, h);
      ConfirmsAfter(passes, k, pass, st.rows[h].replacedBy.value);
    }
  }

  lemma BeginKeepsCore(st: State, passes: Passes, k: nat, hash: string, o: Observation)
    requires Core(st, passes) && k !in passes && Unfinished(st, hash)
    ensures Core(st, PutPass(passes, k, BeginPass(st, hash, o)))
  {
    hide Core;
    MoveOnKeepsCore(st, passes, k, BeginPass(st, hash, o));
  }

  lemma MarkingKeepsCore(st: State, passes: Passes, k: nat)
    requires Core(st, passes) && KeysIndexed(st) && k in passes && passes[k].stage == Marking
    ensures var st' := MarkBroadcastPending(st, passes[k].hash);
            Core(st', PutPass(passes, k, Decide(passes[k]))) && Evolves(st, st')
  {
    hide Core, Soft, KeysIndexed, MarkBroadcastPending, Evolves;
    MarksSoft(st, passes[k].hash);
    var st' := MarkBroadcastPending(st, passes[k].hash);
    SoftKeepsCore(st, st', passes);
    PassOfCore(st', passes, k);
    MoveOnKeepsCore(st', passes, k, Decide(passes[k]));
  }

  lemma PassOfCore(st: State, passes: Passes, k: nat)
    requires Core(st, passes) && k in passes
    ensures PassOk(st, passes[k])
  {
  }

  lemma ListingKeepsCore(st: State, passes: Passes, k: nat, order: seq<string>)
    requires Core(st, passes) && k in passes && passes[k].stage == Listing
    requires ListsSiblings(order, st, passes[k].from, passes[k].nonce, passes[k].hash)
    ensures Core(st, PutPass(passes, k, Some(passes[k].(stage := Replacing(order)))))
  {
    hide Core;
    var p' := passes[k].(stage := Replacing(order));
    PassOfCore(st, passes, k);
    ListedAreLeft(st, p', order);
    MoveOnKeepsCore(st, passes, k, Some(p'));
  }

  lemma ListedAreLeft(st: State, p: Pass, order: seq<string>)
    requires ListsSiblings(order, st, p.from, p.nonce, p.hash)
    ensures SiblingsLeft(st, p, order)
  {
    forall i | 0 <= i < |order|
      ensures order[i] != p.hash && order[i] in st.rows
      ensures st.rows[order[i]].from == p.from && st.rows[order[i]].nonce == p.nonce
    {
      assert order[i] in order;
      assert Sibling(st, order[i], p.from, p.nonce, p.hash);
    }
  }

  /** A write that finishes one unfinished row, with the pass owing its notice. */
  lemma FinishAnnounces(st: State, st': State, passes: Passes, k: nat, p': Pass, x: string)
    requires AnnouncedOnce(st, passes) && st'.outbox == st.outbox && Unfinished(st, x) && Finished(st', x)
    requires forall h :: h != x ==> (Finished(st', h) <==> Finished(st, h))
    requires k in passes && (forall h :: !Owes(passes[k], h)) && (forall h :: Owes(p', h) <==> h == x)
    ensures AnnouncedOnce(st', PutPass(passes, k, Some(p')))
  {
    hide FinalNotices, Owes;
    var passes' := PutPass(passes, k, Some(p'));
    assert Announced(st, passes, x) == 0;
    assert forall j :: j in passes ==> !Owes(passes[j], x);
    forall h ensures Announced(st', passes', h) == if Finished(st', h) then 1 else 0 {
      DueAfter(passes, k, Some(p'), h);
      assert Announced(st, passes, h) == if Finished(st, h) then 1 else 0;
    }
  }

  lemma ReplacingKeepsCore(st: State, passes: Passes, k: nat)
    requires Core(st, passes) && k in passes && !Collides(st, passes, k)
    requires passes[k].stage.Replacing? && |passes[k].stage.left| > 0
    ensures var p := passes[k];
            var st' := ReplaceOne(st, p.stage.left[0], p.hash);
            var p' := p.(stage := Queueing(p.stage.left[0], p.stage.left[1..]));
            Core(st', PutPass(passes, k, Some(p'))) && Evolves(st, st')
  {
    var p, x := passes[k], passes[k].stage.left[0];
    var st' := ReplaceOne(st, x, p.hash);
    var p' := p.(stage := Queueing(x, p.stage.left[1..]));
    var passes' := PutPass(passes, k, Some(p'));
    PassOfCore(st, passes, k);
    assert Unfinished(st, x) && x != p.hash && !RivalConfirms(passes, k, x);
    assert Evolves(st, st');
    assert PassesOk(st', passes') by {
      hide AnnouncedOnce, ReplacedByWinner;
      forall j | j in passes' ensures PassOk(st', passes'[j]) {
        if j == k { NextSibling(st, p); } else { EvolvesKeepsPass(st, st', passes[j]); }
      }
    }
    assert AnnouncedOnce(st', passes') by {
      FinishAnnounces(st, st', passes, k, p', x);
    }
    assert ReplacedByWinner(st', passes') by {
      WinnersAfterReplacing(st, passes, k);
    }
  }

  lemma NextSibling(st: State, p: Pass)
    requires PassOk(st, p) && p.stage.Replacing? && |p.stage.left| > 0
    ensures PassOk(ReplaceOne(st, p.stage.left[0], p.hash),
                   p.(stage := Queueing(p.stage.left[0], p.stage.left[1..])))
  {
    var left := p.stage.left;
    assert forall i :: 0 <= i < |left[1..]| ==> left[1..][i] == left[i + 1] && left[i + 1] != left[0];
  }

  lemma WinnersAfterReplacing(st: State, passes: Passes, k: nat)
    requires PassesOk(st, passes) && ReplacedByWinner(st, passes) && k in passes && passes[k].stage.Replacing?
    requires |passes[k].stage.left| > 0 && Unfinished(st, passes[k].stage.left[0])
    requires !RivalConfirms(passes, k, passes[k].stage.left[0])
    ensures var p := passes[k];
            ReplacedByWinner(ReplaceOne(st, p.stage.left[0], p.hash),
                             PutPass(passes, k, Some(p.(stage := Queueing(p.stage.left[0], p.stage.left[1..])))))
  {
    hide RivalConfirms;
    var p, x := passes[k], passes[k].stage.left[0];
    var st' := ReplaceOne(st, x, p.hash);
    var p' := p.(stage := Queueing(x, p.stage.left[1..]));
    var passes' := PutPass(passes, k, Some(p'));
    assert PassOk(st, p);
    forall h | h in st'.rows && st'.rows[h].status == Replaced ensures HasWinner(st', passes', h) {
      ConfirmsAfter(passes, k, Some(p'), st'.rows[h].replacedBy.value);
      if h != x {
        assert HasWinner(st, passes, h);
        ConfirmsAfter(passes, k, Some(p), st.rows[h].replacedBy.value);
        assert PutPass(passes, k, Some(p)) == passes;
        assert st.rows[h].replacedBy.value != x;
      }
    }
  }

  /** Queueing the notice that was due. */
  lemma QueueKeepsCore(st: State, passes: Passes, k: nat, pass: Option<Pass>, c: Change)
    requires Core(st, passes) && k in passes && (forall h :: Owes(passes[k], h) <==> c.hash == h && Terminal(c.after))
    requires pass.Some? ==> PassOk(st, pass.value) && forall h :: !Owes(pass.value, h)
    requires forall h :: Confirms(passes[k], h) ==> pass.Some? && Confirms(pass.value, h)
    ensures Core(Queue(st, c), PutPass(passes, k, pass)) && Evolves(st, Queue(st, c))
  {
    hide FinalNotices, Owes, Confirms;
    var st', passes' := Queue(st, c), PutPass(passes, k, pass);
    assert Evolves(st, st');
    forall j | j in passes' ensures PassOk(st', passes'[j]) {
      EvolvesKeepsPass(st, st', if j == k then pass.value else passes[j]);
    }
    hide PassOk;
    forall h ensures Announced(st', passes', h) == if Finished(st', h) then 1 else 0 {
      NoticesAppend(st.outbox, c, h);
      DueAfter(passes, k, pass, h);
      assert Announced(st, passes, h) == if Finished(st, h) then 1 else 0;
    }
    forall h | h in st'.rows && st'.rows[h].status == Replaced ensures HasWinner(st', passes', h) {
      assert HasWinner(st, passes, h);
      ConfirmsAfter(passes, k, pass, st.rows[h].replacedBy.value);
    }
  }

  lemma WritingKeepsCore(st: State, passes: Passes, k: nat)
    requires Core(st, passes) && k in passes && passes[k].stage.Writing? && !Collides(st, passes, k)
    ensures var (st', pass') := Statement(st, passes[k], []);
            Core(st', PutPass(passes, k, pass')) && Evolves(st, st')
  {
    var p := passes[k];
    var (st', pass') := Statement(st, p, []);
    var passes' := PutPass(passes, k, pass');
    PassOfCore(st, passes, k);
    assert Unfinished(st, p.hash) && !Terminal(p.stage.before);
    assert Evolves(st, st');
    assert PassesOk(st', passes') by {
      hide AnnouncedOnce, ReplacedByWinner;
      forall j | j in passes' ensures PassOk(st', passes'[j]) {
        if j != k { EvolvesKeepsPass(st, st', passes[j]); }
      }
    }
    assert AnnouncedOnce(st', passes') by {
      hide ReplacedByWinner;
      if Terminal(p.stage.to) {
        FinishAnnounces(st, st', passes, k, pass'.value, p.hash);
      } else {
        QuietAnnounces(st, st', passes, k, pass');
      }
    }
    assert ReplacedByWinner(st', passes') by {
      WinnersAfterWriting(st, passes, k);
    }
  }

  lemma QuietAnnounces(st: State, st': State, passes: Passes, k: nat, pass: Option<Pass>)
    requires AnnouncedOnce(st, passes) && st'.outbox == st.outbox && k in passes
    requires forall h :: Finished(st', h) <==> Finished(st, h)
    requires (forall h :: !Owes(passes[k], h)) && (pass.Some? ==> forall h :: !Owes(pass.value, h))
    ensures AnnouncedOnce(st', PutPass(passes, k, pass))
  {
    hide FinalNotices, Owes;
    var passes' := PutPass(passes, k, pass);
    forall h ensures Announced(st', passes', h) == if Finished(st', h) then 1 else 0 {
      DueAfter(passes, k, pass, h);
      assert Announced(st, passes, h) == if Finished(st, h) then 1 else 0;
    }
  }

  lemma WinnersAfterWriting(st: State, passes: Passes, k: nat)
    requires ReplacedByWinner(st, passes) && k in passes && passes[k].stage.Writing? && !Collides(st, passes, k)
    requires PassOk(st, passes[k]) && Unfinished(st, passes[k].hash)
    ensures var (st', pass') := Statement(st, passes[k], []); ReplacedByWinner(st', PutPass(passes, k, pass'))
  {
    hide RivalConfirms;
    var p := passes[k];
    var (st', pass') := Statement(st, p, []);
    var passes' := PutPass(passes, k, pass');
    forall h | h in st'.rows && st'.rows[h].status == Replaced ensures HasWinner(st', passes', h) {
      assert h != p.hash;
      assert HasWinner(st, passes, h);
      var w := st.rows[h].replacedBy.value;
      assert PutPass(passes, k, Some(p)) == passes;
      ConfirmsAfter(passes, k, Some(p), w);
      ConfirmsAfter(passes, k, pass', w);
    }
  }

  /** Every statement that collides with no other pass keeps everything and leaves no final status. */
  lemma StatementKeepsCore(st: State, passes: Passes, k: nat, order: seq<string>)
    requires Core(st, passes) && KeysIndexed(st) && k in passes && !Collides(st, passes, k)
    requires passes[k].stage == Listing ==> ListsSiblings(order, st, passes[k].from, passes[k].nonce, passes[k].hash)
    ensures var (st', pass') := Statement(st, passes[k], order);
            Core(st', PutPass(passes, k, pass')) && Evolves(st, st')
  {
    hide Core, Collides, KeysIndexed;
    var p := passes[k];
    PassOfCore(st, passes, k);
    match p.stage
    case Marking => MarkingKeepsCore(st, passes, k);
    case Listing => ListingKeepsCore(st, passes, k, order);
    case Replacing(left) =>
      if |left| == 0 {
        MoveOnKeepsCore(st, passes, k, Some(p.(stage := Reading(Confirmed))));
      } else {
        ReplacingKeepsCore(st, passes, k);
      }
    case Queueing(h, left) =>
      QueueKeepsCore(st, passes, k, Some(p.(stage := Replacing(left))), Change(h, Pending, Replaced));
    case Reading(to) =>
      MoveOnKeepsCore(st, passes, k, Some(p.(stage := Writing(to, st.rows[p.hash].status))));
    case Writing(to, before) => WritingKeepsCore(st, passes, k);
    case Announcing(to, before) => QueueKeepsCore(st, passes, k, None, Change(p.hash, before, to));
  }

  // ---------------------------------------------------------------------
  // Exactly when a final status is left.
  // ---------------------------------------------------------------------

  /** The next statement writes something else over a final status. */
  predicate Tramples(st: State, p: Pass)
  {
    match p.stage
    case Writing(to, _) => Finished(st, p.hash) && st.rows[p.hash].status != to
    case Replacing(left) =>
      |left| > 0 && Finished(st, left[0])
      && (st.rows[left[0]].status != Replaced || st.rows[left[0]].replacedBy != Some(p.hash))
    case _ => false
  }

  /** In any state, a statement of a pass leaves a final status if and only if it tramples on one. */
  lemma FinalLeftIff(st: State, p: Pass, order: seq<string>)
    ensures Evolves(st, Statement(st, p, order).0) <==> !Tramples(st, p)
  {
    if Tramples(st, p) {
      var x := if p.stage.Writing? then p.hash else p.stage.left[0];
      assert x in st.rows;
    }
  }

  /** Statements keep rows and the index of keys in any case. */
  lemma StatementKeepsKeys(st: State, p: Pass, order: seq<string>)
    requires KeysIndexed(st)
    ensures KeysIndexed(Statement(st, p, order).0) && st.rows.Keys <= Statement(st, p, order).0.rows.Keys
  {
    hide Decide;
  }

  // ---------------------------------------------------------------------
  // A pass that nobody interrupts.
  // ---------------------------------------------------------------------

  function StatementsLeft(p: Pass, order: seq<string>): nat
  {
    match p.stage
    case Marking => 2 * |order| + 6
    case Listing => 2 * |order| + 5
    case Replacing(left) => 2 * |left| + 4
    case Queueing(_, left) => 2 * |left| + 5
    case Reading(_) => 3
    case Writing(_, _) => 2
    case Announcing(_, _) => 1
  }

  /** All remaining statements in a row. */
  function FinishPass(st: State, pass: Option<Pass>, order: seq<string>): State
    decreases if pass.Some? then StatementsLeft(pass.value, order) else 0
  {
    if pass.None? then st
    else
      var (st', pass') := Statement(st, pass.value, order);
      FinishPass(st', pass', order)
  }

  lemma FinishReading(st: State, p: Pass, order: seq<string>)
    requires p.stage.Reading? && p.hash in st.rows
    ensures FinishPass(st, Some(p), order) == Transition(st, p.hash, p.stage.to)
  {
    var to, before := p.stage.to, st.rows[p.hash].status;
    var p1 := p.(stage := Writing(to, before));
    assert FinishPass(st, Some(p), order) == FinishPass(st, Some(p1), order);
    var st1 := SetStatus(st, p.hash, to);
    if before != to {
      var p2 := p.(stage := Announcing(to, before));
      assert FinishPass(st, Some(p1), order) == FinishPass(st1, Some(p2), order);
      assert FinishPass(st1, Some(p2), order) == FinishPass(Queue(st1, Change(p.hash, before, to)), None, order);
    } else {
      assert FinishPass(st, Some(p1), order) == FinishPass(st1, None, order);
    }
  }

  lemma {:induction false} FinishReplacing(st: State, p: Pass, order: seq<string>)
    requires p.stage.Replacing? && p.hash in st.rows && SiblingsLeft(st, p, p.stage.left)
    ensures FinishPass(st, Some(p), order) == Transition(ReplaceSiblings(st, p.stage.left, p.hash), p.hash, Confirmed)
    decreases |p.stage.left|
  {
    var left := p.stage.left;
    if |left| == 0 {
      FinishReading(st, p.(stage := Reading(Confirmed)), order);
      assert ReplaceSiblings(st, left, p.hash) == st by { NothingToReplace(st, left, p.hash); }
    } else {
      var st1 := ReplaceOne(st, left[0], p.hash);
      var st2 := Queue(st1, Change(left[0], Pending, Replaced));
      var p1 := p.(stage := Queueing(left[0], left[1..]));
      var p2 := p.(stage := Replacing(left[1..]));
      assert FinishPass(st, Some(p), order) == FinishPass(st1, Some(p1), order) == FinishPass(st2, Some(p2), order);
      assert SiblingsLeft(st2, p2, left[1..]) by {
        assert forall i :: 0 <= i < |left[1..]| ==> left[1..][i] == left[i + 1] && left[i + 1] != left[0];
      }
      FinishReplacing(st2, p2, order);
      ReplaceFirst(st, left, p.hash);
    }
  }

  lemma NothingToReplace(st: State, left: seq<string>, winner: string)
    requires |left| == 0
    ensures ReplaceSiblings(st, left, winner) == st
  {
  }

  lemma ReplaceFirst(st: State, left: seq<string>, winner: string)
    requires |left| > 0 && left[0] in st.rows && left[0] !in left[1..]
    ensures var st2 := Queue(ReplaceOne(st, left[0], winner), Change(left[0], Pending, Replaced));
            ReplaceSiblings(st2, left[1..], winner) == ReplaceSiblings(st, left, winner)
  {
    var st2 := Queue(ReplaceOne(st, left[0], winner), Change(left[0], Pending, Replaced));
    var a, b := ReplaceSiblings(st2, left[1..], winner), ReplaceSiblings(st, left, winner);
    assert forall h :: h in left <==> h == left[0] || h in left[1..];
    assert a.rows == b.rows;
    assert a.outbox == b.outbox;
  }

  /** Run without interruption, the statements of a pass add up to the pass as a whole. */
  lemma UninterruptedPass(st: State, hash: string, o: Observation, order: seq<string>)
    requires hash in st.rows && ListsSiblings(order, st, st.rows[hash].from, st.rows[hash].nonce, hash)
    requires Unfinished(st, hash)
    ensures FinishPass(st, BeginPass(st, hash, o), order) == TrackOne(st, hash, o, order)
  {
    var row := st.rows[hash];
    var p := Pass(hash, row.from, row.nonce, o, Marking);
    if !(Unsent(row.status) && !o.known && row.raw.Some?) {
      var st1 := if Unsent(row.status) && o.known then MarkBroadcastPending(st, hash) else st;
      assert FinishPass(st, BeginPass(st, hash, o), order) == FinishPass(st1, Decide(p), order);
      if Deep(o) {
        var p1, p2 := p.(stage := Listing), p.(stage := Replacing(order));
        assert FinishPass(st1, Some(p1), order) == FinishPass(st1, Some(p2), order);
        SiblingsUnaffected(st, st1, hash, order);
        assert SiblingsLeft(st1, p2, order) by { ListedAreLeft(st1, p2, order); }
        FinishReplacing(st1, p2, order);
      } else if Decide(p).Some? {
        FinishReading(st1, Decide(p).value, order);
      }
    }
  }

}
