/**
 The table of outgoing transactions and the statements that write it: the sending service,
 the rebroadcast reconciler and the receipt tracker. Models internal/tx/store.go,
 internal/tx/tracker.go, internal/tx/service.go and internal/tx/reconcile.go. How the three
 writers interleave is the subject of TxRuns.
 */
module TxTracker {
  import opened Outcomes

  datatype Status = Submitting | BroadcastFailed | Pending | Confirmed | Failed | Dropped | Replaced

  predicate Terminal(s: Status) { s == Confirmed || s == Failed || s == Dropped || s == Replaced }

  predicate Unsent(s: Status) { s == Submitting || s == BroadcastFailed }

  /**
   `key` is the idempotency key, empty for none; `raw` is the hash of the transaction whose
   signed bytes are stored with the row, which need not be the row's own.
   */
  datatype Row = Row(from: string, nonce: nat, status: Status, replacedBy: Option<string>, key: string,
                     raw: Option<string>, retries: nat)

  datatype Change = Change(hash: string, before: Status, after: Status)

  /** Rows by hash, the unique index on idempotency keys, and the status outbox. */
  datatype State = State(rows: map<string, Row>, keys: map<string, string>, outbox: seq<Change>)

  const EMPTY := State(map[], map[], [])

  // ---------------------------------------------------------------------
  // Single statements.
  // ---------------------------------------------------------------------

  /** The row an insert collides with: same hash first, else same idempotency key. */
  function Conflict(st: State, hash: string, key: string): Option<string>
  {
    if hash in st.rows then Some(hash)
    else if key != "" && key in st.keys then Some(st.keys[key])
    else None
  }

  /**
   Insert transaction `hash` as submitting, with its signed bytes. On any collision the
   colliding row is restarted unless it is finished, and gets these signed bytes.
   */
  function Insert(st: State, hash: string, from: string, nonce: nat, key: string): State
  {
    match Conflict(st, hash, key)
    case Some(h) =>
      if h !in st.rows then st
      else
        var r := st.rows[h];
        st.(rows := st.rows[h := r.(status := if Terminal(r.status) then r.status else Submitting, raw := Some(hash))])
    case None =>
      st.(rows := st.rows[hash := Row(from, nonce, Submitting, None, key, Some(hash), 0)],
          keys := if key == "" then st.keys else st.keys[key := hash])
  }

  function MarkBroadcastPending(st: State, hash: string): State
  {
    if hash in st.rows && Unsent(st.rows[hash].status)
    then st.(rows := st.rows[hash := st.rows[hash].(status := Pending)]) else st
  }

  function MarkBroadcastFailed(st: State, hash: string): State
  {
    if hash in st.rows && Unsent(st.rows[hash].status)
    then st.(rows := st.rows[hash := st.rows[hash].(status := BroadcastFailed)]) else st
  }

  function IncrementRetry(st: State, hash: string): State
  {
    if hash in st.rows
    then st.(rows := st.rows[hash := st.rows[hash].(retries := st.rows[hash].retries + 1)]) else st
  }

  /** Write the status; a real change is also queued. */
  function Transition(st: State, hash: string, to: Status): State
    requires hash in st.rows
  {
    var before := st.rows[hash].status;
    State(st.rows[hash := st.rows[hash].(status := to)], st.keys,
          if before == to then st.outbox else st.outbox + [Change(hash, before, to)])
  }

  predicate Sibling(st: State, hash: string, from: string, nonce: nat, winner: string)
  {
    hash in st.rows && hash != winner && st.rows[hash].from == from && st.rows[hash].nonce == nonce
    && st.rows[hash].status == Pending
  }

  /** The pending siblings of a winner, each once, in whatever order the query returns them. */
  ghost predicate ListsSiblings(order: seq<string>, st: State, from: string, nonce: nat, winner: string)
  {
    && (forall i, j :: 0 <= i < j < |order| ==> order[i] != order[j])
    && (forall h :: h in order <==> Sibling(st, h, from, nonce, winner))
  }

  /** All pending siblings replaced at once, one notice each. */
  function ReplaceSiblings(st: State, order: seq<string>, winner: string): State
  {
    State(map h | h in st.rows :: if h in order then st.rows[h].(status := Replaced, replacedBy := Some(winner))
                                  else st.rows[h],
          st.keys,
          st.outbox + seq(|order|, i requires 0 <= i < |order| => Change(order[i], Pending, Replaced)))
  }

  // ---------------------------------------------------------------------
  // One tracker pass.
  // ---------------------------------------------------------------------

  datatype Receipt = Receipt(success: bool, block: nat)

  /** What the node and the clock answer during one pass. */
  datatype Observation = Observation(known: bool, receipt: Option<Receipt>, head: nat, depth: nat, expired: bool)

  function Confirmations(o: Observation, block: nat): nat
  {
    if o.head >= block then o.head - block + 1 else 0
  }

  predicate Deep(o: Observation)
  {
    o.receipt.Some? && o.receipt.value.success && Confirmations(o, o.receipt.value.block) >= o.depth
  }

  function TrackOne(st: State, hash: string, o: Observation, order: seq<string>): State
    requires hash in st.rows
  {
    var row := st.rows[hash];
    if Unsent(row.status) && !o.known && row.raw.Some? then st
    else
      var st1 := if Unsent(row.status) && o.known then MarkBroadcastPending(st, hash) else st;
      if o.receipt.None? then (if o.expired then Transition(st1, hash, Dropped) else st1)
      else if !o.receipt.value.success then Transition(st1, hash, Failed)
      else if Deep(o) then Transition(ReplaceSiblings(st1, order, hash), hash, Confirmed)
      else Transition(st1, hash, Pending)
  }

  /** The idempotency index points at the row that carries the key. */
  ghost predicate KeysIndexed(st: State)
  {
    && (forall k :: k in st.keys ==> st.keys[k] in st.rows && st.rows[st.keys[k]].key == k)
    && (forall h :: h in st.rows && st.rows[h].key != "" ==>
          st.rows[h].key in st.keys && st.keys[st.rows[h].key] == h)
  }

  /**
   An insert leaves its transaction stored exactly when its hash is known already or its
   idempotency key is free. Under a taken key the upsert restarts the other row instead and
   replaces the signed bytes that row keeps for rebroadcasts.
   */
  lemma InsertTracksIff(st: State, hash: string, from: string, nonce: nat, key: string)
    requires KeysIndexed(st)
    ensures hash in Insert(st, hash, from, nonce, key).rows <==> hash in st.rows || key == "" || key !in st.keys
    ensures hash !in st.rows && key != "" && key in st.keys ==>
              var other := Insert(st, hash, from, nonce, key).rows[st.keys[key]];
              && other.raw == Some(hash) && st.keys[key] != hash
              && (!Terminal(st.rows[st.keys[key]].status) ==> other.status == Submitting)
  {
  }

  /** A new transaction is stored as it was signed; a collision touches the colliding row alone. */
  lemma InsertExactly(st: State, hash: string, from: string, nonce: nat, key: string)
    requires KeysIndexed(st)
    ensures var st' := Insert(st, hash, from, nonce, key);
            && st'.outbox == st.outbox
            && (hash !in st.rows && (key == "" || key !in st.keys) ==>
                  && st'.rows == st.rows[hash := Row(from, nonce, Submitting, None, key, Some(hash), 0)]
                  && st'.keys == if key == "" then st.keys else st.keys[key := hash])
            && (hash in st.rows ==> Restarted(st, st', hash, hash))
            && (hash !in st.rows && key != "" && key in st.keys ==> Restarted(st, st', st.keys[key], hash))
  {
  }

  /** Row `h` is back to submitting unless it was finished, with the signed bytes of `bytes`; nothing else changed. */
  ghost predicate Restarted(st: State, st': State, h: string, bytes: string)
  {
    && h in st.rows && st'.rows.Keys == st.rows.Keys && st'.keys == st.keys
    && (forall k :: k in st.rows && k != h ==> st'.rows[k] == st.rows[k])
    && st'.rows[h].raw == Some(bytes)
    && (st.rows[h].status in {Confirmed, Failed, Dropped, Replaced} ==> st'.rows[h].status == st.rows[h].status)
    && (st.rows[h].status in {Submitting, BroadcastFailed, Pending} ==> st'.rows[h].status == Submitting)
    && st'.rows[h].(raw := None, status := Pending) == st.rows[h].(raw := None, status := Pending)
  }

  /** The answer of the node is written to a row that waits for it, and to no other. */
  lemma MarksExactly(st: State, hash: string)
    ensures var sent, failed := MarkBroadcastPending(st, hash), MarkBroadcastFailed(st, hash);
            if hash in st.rows && st.rows[hash].status in {Submitting, BroadcastFailed}
            then
              && sent == st.(rows := st.rows[hash := st.rows[hash].(status := Pending)])
              && failed == st.(rows := st.rows[hash := st.rows[hash].(status := BroadcastFailed)])
            else sent == st && failed == st
    ensures hash in st.rows ==>
              var row := st.rows[hash];
              IncrementRetry(st, hash) == st.(rows := st.rows[hash := row.(retries := row.retries + 1)])
    ensures hash !in st.rows ==> IncrementRetry(st, hash) == st
  {
  }

  // ---------------------------------------------------------------------
  // What a pass makes of what it observes.
  // ---------------------------------------------------------------------

  /** The receipt says success and the block has at least `depth` confirmations, itself counted. */
  predicate ConfirmedBy(o: Observation)
  {
    && o.receipt.Some? && o.receipt.value.success
    && (o.depth == 0 || (o.head >= o.receipt.value.block && o.head + 1 >= o.receipt.value.block + o.depth))
  }

  predicate RevertedBy(o: Observation) { o.receipt.Some? && !o.receipt.value.success }

  predicate GivenUpBy(o: Observation) { o.receipt.None? && o.expired }

  /** The row waits for its broadcast, the node does not know it, and the reconciler can send it again. */
  predicate LeftToReconciler(row: Row, o: Observation)
  {
    row.status in {Submitting, BroadcastFailed} && !o.known && row.raw.Some?
  }

  /** The status a pass leaves an unfinished row with. */
  ghost predicate Outcome(row: Row, o: Observation, after: Status)
  {
    && (after == Confirmed <==> ConfirmedBy(o))
    && (after == Failed <==> RevertedBy(o))
    && (after == Dropped <==> GivenUpBy(o))
    && (o.receipt.Some? && o.receipt.value.success && !ConfirmedBy(o) ==> after == Pending)
    && (o.receipt.None? && !o.expired ==>
          after == if row.status in {Submitting, BroadcastFailed} && o.known then Pending else row.status)
  }

  /** One notice per replaced sibling, on a confirmation. */
  function SiblingNotices(o: Observation, order: seq<string>): seq<Change>
  {
    if ConfirmedBy(o) then seq(|order|, i requires 0 <= i < |order| => Change(order[i], Pending, Replaced)) else []
  }

  /** A notice of the row's own change; that an unsent row has become known to the node is not announced. */
  function OwnNotice(row: Row, hash: string, o: Observation, after: Status): seq<Change>
  {
    var before := if row.status in {Submitting, BroadcastFailed} && o.known then Pending else row.status;
    if before != after then [Change(hash, before, after)] else []
  }

  /**
   A pass over an unfinished row leaves it alone if it is left to the reconciler, and
   otherwise gives it the status that receipt, head, depth and age call for. Other rows
   change only on a confirmation: the pending siblings are replaced by this row.
   */
  lemma TrackOutcome(st: State, hash: string, o: Observation, order: seq<string>)
    requires hash in st.rows && !Terminal(st.rows[hash].status)
    requires ListsSiblings(order, st, st.rows[hash].from, st.rows[hash].nonce, hash)
    ensures LeftToReconciler(st.rows[hash], o) ==> TrackOne(st, hash, o, order) == st
    ensures !LeftToReconciler(st.rows[hash], o) ==>
              var st' := TrackOne(st, hash, o, order);
              && st'.keys == st.keys && st'.rows.Keys == st.rows.Keys
              && Outcome(st.rows[hash], o, st'.rows[hash].status)
              && st'.rows[hash].(status := Pending) == st.rows[hash].(status := Pending)
              && (forall h :: h in st.rows && h != hash ==>
                    st'.rows[h] == if ConfirmedBy(o) && Sibling(st, h, st.rows[hash].from, st.rows[hash].nonce, hash)
                                   then st.rows[h].(status := Replaced, replacedBy := Some(hash)) else st.rows[h])
              && st'.outbox == st.outbox + SiblingNotices(o, order)
                               + OwnNotice(st.rows[hash], hash, o, st'.rows[hash].status)
  {
    if !LeftToReconciler(st.rows[hash], o) {
      DepthCounts(o);
      assert hash !in order;
      var st' := TrackOne(st, hash, o, order);
      forall h | h in st.rows && h != hash
        ensures st'.rows[h] == if ConfirmedBy(o) && Sibling(st, h, st.rows[hash].from, st.rows[hash].nonce, hash)
                               then st.rows[h].(status := Replaced, replacedBy := Some(hash)) else st.rows[h]
      {
        assert h in order <==> Sibling(st, h, st.rows[hash].from, st.rows[hash].nonce, hash);
      }
    }
  }

  lemma DepthCounts(o: Observation)
    ensures Deep(o) <==> ConfirmedBy(o)
  {
  }

  lemma SiblingsUnaffected(st: State, st1: State, hash: string, order: seq<string>)
    requires hash in st.rows && (st1 == st || st1 == MarkBroadcastPending(st, hash))
    requires ListsSiblings(order, st, st.rows[hash].from, st.rows[hash].nonce, hash)
    ensures ListsSiblings(order, st1, st1.rows[hash].from, st1.rows[hash].nonce, hash)
  {
    forall h ensures Sibling(st1, h, st1.rows[hash].from, st1.rows[hash].nonce, hash) <==>
                     Sibling(st, h, st.rows[hash].from, st.rows[hash].nonce, hash)
    {
    }
  }

  /** Resuming a stored transaction, as one of the guarded statements or none. */
  function Resumed(st: State, hash: string, rawGiven: bool, sendOk: bool): State
    requires hash in st.rows
  {
    if !Unsent(st.rows[hash].status) || (!rawGiven && st.rows[hash].raw.None?) then st
    else if sendOk then MarkBroadcastPending(st, hash)
    else MarkBroadcastFailed(st, hash)
  }

  /**
   Resuming writes to a row only if it still waits to be sent and there are bytes to send,
   given or stored: pending if the node takes them, failed to broadcast if not.
   */
  lemma ResumedExactly(st: State, hash: string, rawGiven: bool, sendOk: bool)
    requires hash in st.rows
    ensures var st' := Resumed(st, hash, rawGiven, sendOk);
            var status := if sendOk then Pending else BroadcastFailed;
            if st.rows[hash].status in {Submitting, BroadcastFailed} && (rawGiven || st.rows[hash].raw.Some?)
            then st' == st.(rows := st.rows[hash := st.rows[hash].(status := status)])
            else st' == st
  {
  }

  // ---------------------------------------------------------------------
  // The store and the three writers.
  // ---------------------------------------------------------------------

  class Store {
    var rows: map<string, Row>
    var keys: map<string, string>
    var outbox: seq<Change>

    ghost function TheState(): State
      reads this
    {
      State(rows, keys, outbox)
    }

    constructor ()
      ensures TheState() == EMPTY
    {
      rows, keys, outbox := map[], map[], [];
    }

    /** The pending siblings of a winner: one pass over the table. */
    method SelectSiblings(from: string, nonce: nat, winner: string) returns (order: seq<string>)
      ensures ListsSiblings(order, TheState(), from, nonce, winner)
    {
      order := [];
      var rest := rows.Keys;
      while rest != {}
        invariant rest <= rows.Keys
        invariant forall i, j :: 0 <= i < j < |order| ==> order[i] != order[j]
        invariant forall h :: h in order <==> h !in rest && Sibling(TheState(), h, from, nonce, winner)
        decreases |rest|
      {
        var h :| h in rest;
        rest := rest - {h};
        if h != winner && rows[h].from == from && rows[h].nonce == nonce && rows[h].status == Pending {
          order := order + [h];
        }
      }
    }

    /** Replace the siblings one by one, each with its notice. */
    method MarkReplacedSiblings(from: string, nonce: nat, winner: string) returns (ghost order: seq<string>)
      modifies this`rows, this`outbox
      ensures ListsSiblings(order, old(TheState()), from, nonce, winner)
      ensures TheState() == ReplaceSiblings(old(TheState()), order, winner)
    {
      var pending := SelectSiblings(from, nonce, winner);
      order := pending;
      for i := 0 to |pending|
        invariant TheState() == ReplaceSiblings(old(TheState()), pending[..i], winner)
      {
        assert pending[i] in pending;
        assert forall k :: 0 <= k < i ==> pending[k] != pending[i];
        assert pending[i] !in pending[..i];
        assert rows[pending[i]] == old(rows)[pending[i]];
        rows := rows[pending[i] := rows[pending[i]].(status := Replaced, replacedBy := Some(winner))];
        outbox := outbox + [Change(pending[i], Pending, Replaced)];
        assert pending[..i + 1] == pending[..i] + [pending[i]];
      }
      assert pending[..|pending|] == pending;
    }

    method TransitionStatus(hash: string, to: Status)
      requires hash in rows
      modifies this`rows, this`outbox
      ensures TheState() == Transition(old(TheState()), hash, to)
    {
      var before := rows[hash].status;
      rows := rows[hash := rows[hash].(status := to)];
      if before != to {
        outbox := outbox + [Change(hash, before, to)];
      }
    }

    method MarkPending(hash: string)
      modifies this`rows
      ensures TheState() == MarkBroadcastPending(old(TheState()), hash)
    {
      if hash in rows && (rows[hash].status == Submitting || rows[hash].status == BroadcastFailed) {
        rows := rows[hash := rows[hash].(status := Pending)];
      }
    }

    method MarkSendFailed(hash: string)
      modifies this`rows
      ensures TheState() == MarkBroadcastFailed(old(TheState()), hash)
    {
      if hash in rows && (rows[hash].status == Submitting || rows[hash].status == BroadcastFailed) {
        rows := rows[hash := rows[hash].(status := BroadcastFailed)];
      }
    }

    /** The upsert that stores a transaction before it is sent. */
    method InsertSubmitting(hash: string, from: string, nonce: nat, key: string)
      modifies this`rows, this`keys
      ensures TheState() == Insert(old(TheState()), hash, from, nonce, key)
    {
      var target := hash;
      if hash !in rows && key != "" && key in keys {
        target := keys[key];
        if target !in rows {
          return;
        }
      }
      if target in rows {
        var status := if Terminal(rows[target].status) then rows[target].status else Submitting;
        rows := rows[target := rows[target].(status := status, raw := Some(hash))];
      } else {
        rows := rows[hash := Row(from, nonce, Submitting, None, key, Some(hash), 0)];
        if key != "" {
          keys := keys[key := hash];
        }
      }
    }

    /** Send again a stored transaction that was never accepted; anything further along is left alone. */
    method ResumeBroadcast(hash: string, rawGiven: bool, sendOk: bool) returns (err: Option<Error>)
      requires hash in rows
      modifies this`rows
      ensures TheState() == Resumed(old(TheState()), hash, rawGiven, sendOk)
      ensures err.Some? <==> Unsent(old(rows)[hash].status) && (rawGiven || old(rows)[hash].raw.Some?) && !sendOk
      ensures err.Some? ==> err.value == ChainUnavailable
    {
      if !Unsent(rows[hash].status) || (!rawGiven && rows[hash].raw.None?) {
        return None;
      }
      if !sendOk {
        MarkSendFailed(hash);
        return Some(ChainUnavailable);
      }
      MarkPending(hash);
      return None;
    }

    /**
     Store first, send second. The answer is NotFound exactly when the transaction was
     accepted by the node while its idempotency key belonged to another row.
     */
    method PersistAndBroadcast(hash: string, from: string, nonce: nat, key: string, sendOk: bool)
      returns (err: Option<Error>)
      requires KeysIndexed(TheState())
      modifies this`rows, this`keys
      ensures hash in old(rows) ==> TheState() == Resumed(old(TheState()), hash, true, sendOk)
      ensures hash !in old(rows) ==>
                var stored := Insert(old(TheState()), hash, from, nonce, key);
                TheState() == if sendOk then MarkBroadcastPending(stored, hash) else MarkBroadcastFailed(stored, hash)
      ensures err == Some(NotFound) <==> hash !in old(rows) && sendOk && key != "" && key in old(keys)
      ensures hash in rows <==> hash in old(rows) || key == "" || key !in old(keys)
    {
      if hash in rows {
        err := ResumeBroadcast(hash, true, sendOk);
        return;
      }
      InsertSubmitting(hash, from, nonce, key);
      if !sendOk {
        MarkSendFailed(hash);
        return Some(ChainUnavailable);
      }
      MarkPending(hash);
      err := if hash in rows then None else Some(NotFound);
    }

    /**
     The reconciler's attempt on a row it listed as stuck. `raw` is what it read then; the
     row may have moved on since, and the guarded writes take that into account.
     */
    method ReconcileOne(hash: string, raw: Option<string>, known: bool, sendOk: bool)
      modifies this`rows
      ensures TheState() ==
              if known then MarkBroadcastPending(old(TheState()), hash)
              else if raw.None? then old(TheState())
              else if sendOk then MarkBroadcastPending(old(TheState()), hash)
              else MarkBroadcastFailed(IncrementRetry(old(TheState()), hash), hash)
    {
      if known {
        MarkPending(hash);
        return;
      }
      if raw.None? {
        return;
      }
      if !sendOk {
        if hash in rows {
          rows := rows[hash := rows[hash].(retries := rows[hash].retries + 1)];
        }
        MarkSendFailed(hash);
        return;
      }
      MarkPending(hash);
    }

    /** The tracker's pass over one unfinished row. */
    method Track(hash: string, o: Observation) returns (ghost order: seq<string>)
      requires hash in rows && !Terminal(rows[hash].status)
      modifies this`rows, this`outbox
      ensures ListsSiblings(order, old(TheState()), old(rows)[hash].from, old(rows)[hash].nonce, hash)
      ensures TheState() == TrackOne(old(TheState()), hash, o, order)
    {
      var row := rows[hash];
      var listed := SelectSiblings(row.from, row.nonce, hash);
      order := listed;
      if Unsent(row.status) {
        if o.known {
          MarkPending(hash);
        } else if row.raw.Some? {
          return;
        }
      }
      SiblingsUnaffected(old(TheState()), TheState(), hash, order);
      if o.receipt.None? {
        if o.expired {
          TransitionStatus(hash, Dropped);
        }
        return;
      }
      if !o.receipt.value.success {
        TransitionStatus(hash, Failed);
        return;
      }
      var confirmations := if o.head >= o.receipt.value.block then o.head - o.receipt.value.block + 1 else 0;
      if confirmations >= o.depth {
        order := MarkReplacedSiblings(row.from, row.nonce, hash);
        SiblingsBack(old(TheState()), MarkBroadcastPending(old(TheState()), hash), hash, order);
        TransitionStatus(hash, Confirmed);
      } else {
        TransitionStatus(hash, Pending);
      }
    }
  }

  lemma SiblingsBack(st: State, st1: State, hash: string, order: seq<string>)
    requires hash in st.rows && (st1 == st || st1 == MarkBroadcastPending(st, hash))
    requires ListsSiblings(order, st1, st.rows[hash].from, st.rows[hash].nonce, hash)
             || ListsSiblings(order, st, st.rows[hash].from, st.rows[hash].nonce, hash)
    ensures ListsSiblings(order, st, st.rows[hash].from, st.rows[hash].nonce, hash)
  {
    forall h ensures Sibling(st1, h, st.rows[hash].from, st.rows[hash].nonce, hash) <==>
                     Sibling(st, h, st.rows[hash].from, st.rows[hash].nonce, hash)
    {
    }
  }
}
