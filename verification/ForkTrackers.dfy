/**
 The two fork trackers: the ring-backed one the ingester uses (internal/ingestion/tracker.go)
 and the list-backed one (internal/fork_sqd/fork_sqd.go).
 */
module ForkTrackers {
  import opened Rings
  import opened Options
  import opened ForkChain
  import opened BlockRing

  /** What either tracker knows. */
  datatype Tracked = Tracked(current: Option<Block>, finalized: Option<Block>, chain: seq<Block>)

  // ----- the ring-backed tracker as functions -----

  function RingInit(current: Option<Block>, finalized: Option<Block>, heads: seq<Block>): Tracked {
    var chain := PushAll(SIZE, finalized, [], heads);
    Tracked(if current.Some? then current else Newest(finalized, chain), finalized, chain)
  }

  function RingBatch(t: Tracked, header: Option<Block>, blocks: seq<Block>): Tracked {
    var finalized := Raise(t.finalized, Effective(header, blocks));
    var kept := if finalized == t.finalized then t.chain else t.chain[FinalizedPrefix(finalized, t.chain)..];
    var chain := PushAll(SIZE, finalized, kept, blocks);
    var current := if blocks != [] then Some(blocks[|blocks| - 1]) else t.current;
    Tracked(if current.Some? then current else Newest(finalized, chain), finalized, chain)
  }

  function RingFork(t: Tracked, sample: seq<Block>): (Tracked, Option<Block>) {
    match Rollback(t.finalized, t.chain, sample)
    case Some(a) => (Tracked(Some(a.safe), t.finalized, a.kept), Some(a.safe))
    case None => (t, None)
  }

  class RingBufferTracker {
    const ring: BlockRingBuffer
    var current: Option<Block>

    ghost predicate Valid()
      reads this, ring, ring.buffer
    {
      ring.Valid()
    }

    ghost function View(): Tracked
      requires Valid()
      reads this, ring, ring.buffer
    {
      Tracked(current, ring.finalizedHead, ring.Chain())
    }

    constructor ()
      ensures Valid() && View() == Tracked(None, None, [])
      ensures fresh(ring) && fresh(ring.buffer)
    {
      ring := new BlockRingBuffer();
      current := None;
    }

    method Init(cursor: Option<Block>, finalized: Option<Block>, rollbackChain: seq<Block>)
      requires Valid()
      modifies this, ring, ring.buffer
      ensures Valid() && View() == RingInit(cursor, finalized, rollbackChain)
    {
      current := cursor;
      ring.Init(finalized, rollbackChain);
      if current.None? {
        current := ring.Head();
      }
    }

    method ApplyBatch(finalized: Option<Block>, blocks: seq<Block>)
      requires Valid()
      modifies this, ring, ring.buffer
      ensures Valid() && View() == RingBatch(old(View()), finalized, blocks)
    {
      if |blocks| > 0 {
        current := Some(blocks[|blocks| - 1]);
      }
      ring.ApplyBatch(finalized, blocks);
      if current.None? {
        current := ring.Head();
      }
    }

    method HandleFork(previousBlocks: seq<Block>) returns (safe: Option<Block>)
      requires Valid()
      modifies this, ring
      ensures Valid() && (View(), safe) == RingFork(old(View()), previousBlocks)
    {
      safe := ring.FindCommonAncestor(previousBlocks);
      if safe.Some? {
        current := safe;
      }
    }
  }

  // ----- the list-backed tracker as functions -----

  function ListInit(limit: nat, current: Option<Block>, finalized: Option<Block>, recent: seq<Block>): Tracked {
    var chain := LastN(limit, Unfinalized(finalized, recent));
    Tracked(if current.Some? then current else Newest(finalized, chain), finalized, chain)
  }

  function ListBatch(limit: nat, t: Tracked, header: Option<Block>, blocks: seq<Block>): Tracked {
    var effective := Effective(header, blocks);
    var current :=
      if blocks != [] then Some(blocks[|blocks| - 1]) else if t.current.None? then effective else t.current;
    var finalized := Raise(t.finalized, effective);
    var kept := Unfinalized(finalized, t.chain);
    Tracked(current, finalized, LastN(limit, AppendAll(finalized, kept, Unfinalized(effective, blocks))))
  }

  function AtMost(number: nat, blocks: seq<Block>): seq<Block> {
    if blocks == [] then []
    else
      var last := blocks[|blocks| - 1];
      AtMost(number, blocks[..|blocks| - 1]) + if last.number <= number then [last] else []
  }

  function ListFork(t: Tracked, sample: seq<Block>): (Tracked, Option<Block>) {
    var full, start := WithMark(t.finalized, t.chain), MarkLength(t.finalized);
    var r := RollbackIndex(full, sample);
    RollbackRange(full, sample, 0, 0, -1);
    if r >= 0 then
      (Tracked(Some(full[r]), t.finalized, if r < start then [] else full[start..r + 1]), Some(full[r]))
    else if t.finalized.Some? && AllBefore(sample, t.finalized.value.number) then
      (Tracked(t.finalized, t.finalized, AtMost(t.finalized.value.number, t.chain)), t.finalized)
    else
      (Tracked(None, t.finalized, []), None)
  }

  class ListTracker {
    var current: Option<Block>
    var recent: seq<Block>
    var finalizedHighWatermark: Option<Block>
    const limit: nat

    ghost function View(): Tracked
      reads this
    {
      Tracked(current, finalizedHighWatermark, recent)
    }

    constructor (limit: int)
      ensures this.limit == (if limit <= 0 then DEFAULT_LIMIT else limit) && View() == Tracked(None, None, [])
    {
      this.limit := if limit <= 0 then DEFAULT_LIMIT else limit;
      current, recent, finalizedHighWatermark := None, [], None;
    }

    method Init(cursor: Option<Block>, finalized: Option<Block>, recentUnfinalized: seq<Block>)
      requires limit > 0
      modifies this
      ensures View() == ListInit(limit, cursor, finalized, recentUnfinalized)
    {
      current, finalizedHighWatermark, recent := cursor, finalized, recentUnfinalized;
      PruneFinalized();
      CapRecent();
      if current.None? {
        current := Newest(finalizedHighWatermark, recent);
      }
    }

    method ApplyBatch(finalized: Option<Block>, blocks: seq<Block>)
      requires limit > 0
      modifies this
      ensures View() == ListBatch(limit, old(View()), finalized, blocks)
    {
      var effective := EffectiveFinalizedHead(finalized, blocks);
      if |blocks| > 0 {
        current := Some(blocks[|blocks| - 1]);
      } else if current.None? {
        current := effective;
      }
      var rollbackChain := RollbackChain(effective, blocks);
      if effective.Some? &&
        (finalizedHighWatermark.None? || effective.value.number > finalizedHighWatermark.value.number)
      {
        finalizedHighWatermark := effective;
      }
      PruneFinalized();
      AppendEach(rollbackChain);
      CapRecent();
    }

    method HandleFork(previousBlocks: seq<Block>) returns (safe: Option<Block>)
      modifies this
      ensures (View(), safe) == ListFork(old(View()), previousBlocks)
    {
      var chain, recentStart := WithMark(finalizedHighWatermark, recent), MarkLength(finalizedHighWatermark);
      RollbackRange(chain, previousBlocks, 0, 0, -1);
      var rollbackIndex := FindRollbackIndex(chain, previousBlocks);
      if rollbackIndex >= 0 {
        safe := Some(chain[rollbackIndex]);
        if rollbackIndex < recentStart {
          recent := [];
        } else {
          recent := chain[recentStart..rollbackIndex + 1];
        }
        current := safe;
        return;
      }
      if finalizedHighWatermark.Some? && AllBefore(previousBlocks, finalizedHighWatermark.value.number) {
        safe := finalizedHighWatermark;
        FilterAtMost(safe.value.number);
        current := safe;
        return;
      }
      recent, current, safe := [], None, None;
    }

    method PruneFinalized()
      modifies this`recent
      ensures recent == Unfinalized(finalizedHighWatermark, old(recent))
    {
      recent := RollbackChain(finalizedHighWatermark, recent);
    }

    method AppendEach(blocks: seq<Block>)
      modifies this`recent
      ensures recent == AppendAll(finalizedHighWatermark, old(recent), blocks)
    {
      var i := 0;
      while i < |blocks|
        invariant i <= |blocks| && recent == AppendAll(finalizedHighWatermark, old(recent), blocks[..i])
      {
        assert blocks[..i + 1][..i] == blocks[..i];
        AppendRecent(blocks[i]);
        i := i + 1;
      }
      assert blocks[..i] == blocks;
    }

    method AppendRecent(block: Block)
      modifies this`recent
      ensures recent == Append(finalizedHighWatermark, old(recent), block)
    {
      if finalizedHighWatermark.Some? && block.number <= finalizedHighWatermark.value.number {
        return;
      }
      if |recent| > 0 {
        var last := recent[|recent| - 1];
        if block.number < last.number {
          return;
        }
        if block.number == last.number {
          recent := recent[|recent| - 1 := block];
          return;
        }
      }
      recent := recent + [block];
    }

    method CapRecent()
      modifies this`recent
      ensures recent == LastN(limit, old(recent))
    {
      if |recent| <= limit {
        return;
      }
      recent := recent[|recent| - limit..];
    }

    method FilterAtMost(number: nat)
      modifies this`recent
      ensures recent == AtMost(number, old(recent))
    {
      var out, i := [], 0;
      while i < |recent|
        invariant i <= |recent| && out == AtMost(number, recent[..i])
      {
        assert recent[..i + 1][..i] == recent[..i];
        if recent[i].number <= number {
          out := out + [recent[i]];
        }
        i := i + 1;
      }
      assert recent[..i] == recent;
      recent := out;
    }
  }

  const DEFAULT_LIMIT: nat := 1000

  /** The blocks a mark does not cover, in order. */
  method RollbackChain(finalized: Option<Block>, blocks: seq<Block>) returns (out: seq<Block>)
    ensures out == Unfinalized(finalized, blocks)
  {
    out := [];
    var i := 0;
    while i < |blocks|
      invariant i <= |blocks| && out == Unfinalized(finalized, blocks[..i])
    {
      assert blocks[..i + 1][..i] == blocks[..i];
      if !(finalized.Some? && blocks[i].number <= finalized.value.number) {
        out := out + [blocks[i]];
      }
      i := i + 1;
    }
    assert blocks[..i] == blocks;
  }

  method FindRollbackIndex(chainA: seq<Block>, chainB: seq<Block>) returns (lastCommonIndex: int)
    ensures lastCommonIndex == RollbackIndex(chainA, chainB)
  {
    var aIndex: nat, bIndex: nat := 0, 0;
    lastCommonIndex := -1;
    while aIndex < |chainA| && bIndex < |chainB|
      invariant aIndex <= |chainA| && bIndex <= |chainB|
      invariant RollbackIndex(chainA, chainB) == RollbackFrom(chainA, chainB, aIndex, bIndex, lastCommonIndex)
      decreases |chainA| - aIndex + |chainB| - bIndex
    {
      var a, b := chainA[aIndex], chainB[bIndex];
      if a.number < b.number {
        aIndex := aIndex + 1;
        continue;
      }
      if a.number > b.number {
        bIndex := bIndex + 1;
        continue;
      }
      if a.hash != b.hash {
        return;
      }
      lastCommonIndex := aIndex;
      aIndex := aIndex + 1;
      bIndex := bIndex + 1;
    }
  }
}
