/**
 The indexer's view of the chain: synced blocks by height and the checkpoint.
 Models internal/indexer/store.go and the bookkeeping of
 internal/indexer/engine.go.
 */
module Chain {
  import opened Outcomes

  datatype BlockStatus = PendingBlock | ConfirmedBlock | OrphanedBlock

  datatype Block = Block(hash: string, parent: string, status: BlockStatus)

  datatype Checkpoint = Checkpoint(last: nat, lastHash: string, confirmed: nat)

  /** The stored blocks and the checkpoint row, which may not exist yet. */
  datatype View = View(blocks: map<nat, Block>, checkpoint: Option<Checkpoint>)

  const EMPTY_VIEW := View(map[], None)

  /** A height whose stored block is not orphaned. */
  predicate Live(v: View, n: nat) { n in v.blocks && v.blocks[n].status != OrphanedBlock }

  /** Reading a missing checkpoint gives zeros. */
  function Load(v: View): Checkpoint
  {
    if v.checkpoint.Some? then v.checkpoint.value else Checkpoint(0, "", 0)
  }

  function Max(a: nat, b: nat): nat { if a >= b then a else b }

  function Min(a: nat, b: nat): nat { if a <= b then a else b }

  function MarkOrphanedFrom(v: View, from: nat): View
  {
    v.(blocks := map n | n in v.blocks ::
         if n >= from then v.blocks[n].(status := OrphanedBlock) else v.blocks[n])
  }

  function RollbackCheckpoint(v: View, to: nat, hash: string): View
  {
    if v.checkpoint.None? then v
    else v.(checkpoint := Some(Checkpoint(to, hash, Min(v.checkpoint.value.confirmed, to))))
  }

  function UpsertBlock(v: View, n: nat, hash: string, parent: string): View
  {
    v.(blocks := v.blocks[n := Block(hash, parent, PendingBlock)])
  }

  function ConfirmUpTo(v: View, upTo: nat): View
  {
    v.(blocks := map n | n in v.blocks ::
         if n <= upTo && v.blocks[n].status == PendingBlock
         then v.blocks[n].(status := ConfirmedBlock) else v.blocks[n])
  }

  function UpsertCheckpoint(v: View, n: nat, hash: string, confirmed: nat): View
  {
    v.(checkpoint := Some(Checkpoint(n, hash, Max(Load(v).confirmed, confirmed))))
  }

  /** Height up to which a sync of block `n` confirms, or zero when it is too shallow. */
  function ConfirmedUpTo(head: nat, n: nat, depth: nat): nat
  {
    if head > n then (if head - n >= depth then n else 0) else n
  }

  /** The block and checkpoint writes of one sync transaction. */
  function SyncWrites(v: View, n: nat, hash: string, parent: string, upTo: nat): View
  {
    var v1 := UpsertBlock(v, n, hash, parent);
    var v2 := if upTo > 0 then ConfirmUpTo(v1, upTo) else v1;
    if n > Load(v).last then UpsertCheckpoint(v2, n, hash, upTo) else v2
  }

  /** The parent stored for block `n` is not the parent the node reports. */
  predicate DetectsReorg(v: View, n: nat, parentHash: string)
  {
    n > 0 && Live(v, n - 1) && v.blocks[n - 1].hash != parentHash
  }

  function ReorgWrites(v: View, from: nat, hash: string): View
  {
    RollbackCheckpoint(MarkOrphanedFrom(v, from), from, hash)
  }

  /** The checkpoint bounds every live height, and the confirmed height. */
  ghost predicate Bounded(v: View)
  {
    && (forall n: nat :: Live(v, n) ==> n <= Load(v).last)
    && Load(v).confirmed <= Load(v).last
  }

  /** The head is at or below the block, or at least `depth` above it. */
  predicate DeepEnough(head: nat, n: nat, depth: nat) { head <= n || head >= n + depth }

  /** What becomes of a stored block when block `n` is synced: pending ones up to a deep enough `n` are confirmed. */
  ghost predicate SyncedBlock(b: Block, b': Block, k: nat, n: nat, deep: bool)
  {
    && b'.hash == b.hash && b'.parent == b.parent
    && (b'.status == ConfirmedBlock <==>
        b.status == ConfirmedBlock || (b.status == PendingBlock && deep && n > 0 && k <= n))
    && (b'.status == OrphanedBlock <==> b.status == OrphanedBlock)
  }

  /**
   The whole chain view after a sync. The synced block is stored with the given hashes,
   confirmed if deep enough; so are the pending blocks below it. Above the checkpoint the
   checkpoint moves to it and the confirmed height rises to it if deep enough; otherwise the
   checkpoint stays as it is.
   */
  lemma SyncExactly(v: View, n: nat, hash: string, parent: string, head: nat, depth: nat)
    ensures var v' := SyncWrites(v, n, hash, parent, ConfirmedUpTo(head, n, depth));
            var deep := DeepEnough(head, n, depth);
            && v'.blocks.Keys == v.blocks.Keys + {n}
            && v'.blocks[n] == Block(hash, parent, if deep && n > 0 then ConfirmedBlock else PendingBlock)
            && (forall k :: k in v.blocks && k != n ==> SyncedBlock(v.blocks[k], v'.blocks[k], k, n, deep))
    ensures var v' := SyncWrites(v, n, hash, parent, ConfirmedUpTo(head, n, depth));
            var deep := DeepEnough(head, n, depth);
            match v.checkpoint
            case None => v'.checkpoint == if n > 0 then Some(Checkpoint(n, hash, if deep then n else 0)) else None
            case Some(c) =>
              if n <= c.last then v'.checkpoint == v.checkpoint
              else
                && v'.checkpoint.Some? && v'.checkpoint.value.last == n && v'.checkpoint.value.lastHash == hash
                && v'.checkpoint.value.confirmed == if deep && n > c.confirmed then n else c.confirmed
  {
  }

  /** A sync brings its own height to life, kills none, and moves the checkpoint only upwards. */
  lemma SyncKeepsBounded(v: View, n: nat, hash: string, parent: string, upTo: nat)
    requires Bounded(v) && upTo <= n
    ensures var v' := SyncWrites(v, n, hash, parent, upTo);
            && Bounded(v')
            && (forall k: nat :: Live(v', k) <==> k == n || Live(v, k))
            && v'.blocks[n].hash == hash && v'.blocks[n].parent == parent
            && (v'.blocks[n].status == ConfirmedBlock <==> upTo > 0 && n <= upTo)
            && Load(v').last == Max(Load(v).last, n)
            && Load(v').confirmed >= Load(v).confirmed
  {
    var v' := SyncWrites(v, n, hash, parent, upTo);
    forall k: nat ensures Live(v', k) <==> k == n || Live(v, k) {
    }
  }

  /** The stored and living block below `n` is another one than block `n` names as its parent. */
  lemma DetectsIff(v: View, n: nat, parentHash: string)
    ensures DetectsReorg(v, n, parentHash) <==>
            && n > 0 && n - 1 in v.blocks
            && v.blocks[n - 1].status != OrphanedBlock && v.blocks[n - 1].hash != parentHash
  {
  }

  /**
   The whole chain view after the writes of a reorg from height `from`: blocks there and
   above are orphaned and otherwise the same, those below untouched; the checkpoint names
   that height and the reported hash, and its confirmed height is lowered to it if it was
   above. A missing checkpoint stays missing.
   */
  lemma ReorgExactly(v: View, from: nat, hash: string)
    ensures var v' := ReorgWrites(v, from, hash);
            && v'.blocks.Keys == v.blocks.Keys
            && (forall k :: k in v.blocks && k < from ==> v'.blocks[k] == v.blocks[k])
            && (forall k :: k in v.blocks && k >= from ==>
                  v'.blocks[k] == Block(v.blocks[k].hash, v.blocks[k].parent, OrphanedBlock))
            && (v.checkpoint.None? ==> v'.checkpoint.None?)
            && (v.checkpoint.Some? ==>
                  v'.checkpoint == Some(Checkpoint(from, hash, if v.checkpoint.value.confirmed <= from
                                                               then v.checkpoint.value.confirmed else from)))
  {
  }

  /**
   A detected reorg orphans everything from its parent height on and nothing
   below it, and its rollback never raises the checkpoint.
   */
  lemma ReorgKeepsBounded(v: View, n: nat, parentHash: string)
    requires Bounded(v) && DetectsReorg(v, n, parentHash)
    ensures var v' := ReorgWrites(v, n - 1, parentHash);
            && Bounded(v')
            && (forall k: nat :: Live(v', k) <==> k < n - 1 && Live(v, k))
            && (forall k: nat :: k < n - 1 && k in v.blocks ==> k in v'.blocks && v'.blocks[k] == v.blocks[k])
            && v'.blocks.Keys == v.blocks.Keys
            && Load(v').last <= Load(v).last && Load(v').confirmed <= Load(v).confirmed
            && Load(v').last == n - 1
  {
    assert Live(v, n - 1);
  }
}
