/**
 The ring of recent unfinalized blocks (internal/ingestion/fork_go.go), proved equal to the
 list functions of ForkChain.
 */
module BlockRing {
  import opened Options
  import opened ForkChain
  import opened Rings

  const SIZE: nat := 1024

  lemma PruneStep(slots: seq<Block>, tail: nat, count: nat, finalized: Option<Block>, chain: seq<Block>, k: nat)
    requires |slots| == SIZE && tail < SIZE && 0 < count <= SIZE && k < |chain|
    requires Ringed(slots, tail, count) == chain[k..]
    ensures slots[tail] == chain[k] && Ringed(slots, Next(SIZE, tail), count - 1) == chain[k + 1..]
    ensures count > 1 ==> At(SIZE, tail, count - 1) == At(SIZE, Next(SIZE, tail), count - 2)
    ensures FinalizedPrefix(finalized, chain[k..]) ==
            if Covers(finalized, chain[k]) then 1 + FinalizedPrefix(finalized, chain[k + 1..]) else 0
  {
    RingAdvance(slots, tail, count);
    PrefixStep(finalized, chain, k);
  }

  /** The cases of one push onto at most SIZE blocks. */
  lemma PushedIs(finalized: Option<Block>, chain: seq<Block>, b: Block)
    requires |chain| <= SIZE
    ensures LastN(SIZE, Append(finalized, chain, b)) ==
            if finalized.Some? && b.number <= finalized.value.number then chain
            else if chain == [] then [b]
            else if b.number < chain[|chain| - 1].number then chain
            else if b.number == chain[|chain| - 1].number then chain[|chain| - 1 := b]
            else if |chain| < SIZE then chain + [b]
            else chain[1..] + [b]
  {
    if chain != [] {
      assert (chain + [b])[1..] == chain[1..] + [b];
    }
  }

  class BlockRingBuffer {
    const buffer: array<Block>
    var head: int
    var tail: nat
    var count: nat
    var finalizedHead: Option<Block>

    ghost predicate Valid()
      reads this, buffer
    {
      && buffer.Length == SIZE
      && tail < SIZE && count <= SIZE
      && head == (if count == 0 then -1 else At(SIZE, tail, count - 1))
    }

    /** Oldest to newest. */
    ghost function Chain(): (chain: seq<Block>)
      requires Valid()
      reads this, buffer
      ensures |chain| == count
    {
      Ringed(buffer[..], tail, count)
    }

    constructor ()
      ensures Valid() && Chain() == [] && finalizedHead == None && fresh(buffer)
    {
      buffer := new Block[SIZE](_ => Block(0, ""));
      head, tail, count, finalizedHead := -1, 0, 0, None;
    }

    method Push(ref: Block)
      requires Valid()
      modifies this, buffer
      ensures Valid() && Chain() == LastN(SIZE, Append(finalizedHead, old(Chain()), ref))
      ensures finalizedHead == old(finalizedHead)
    {
      hide At, Ringed, Next, LastN, Append;
      ghost var slots, chain := buffer[..], Chain();
      PushedIs(finalizedHead, chain, ref);
      if finalizedHead.Some? && ref.number <= finalizedHead.value.number {
        return;
      }
      if count == 0 {
        head, tail, count := 0, 0, 1;
        buffer[0] := ref;
        AtNext(SIZE, 0, 0);
        RingPush(slots, 0, 0, ref);
        assert buffer[..] == slots[0 := ref];
        return;
      }
      var last := buffer[head];
      assert last == chain[count - 1];
      if ref.number < last.number {
        return;
      }
      if last.number == ref.number {
        RingReplace(slots, tail, count, ref);
        buffer[head] := ref;
        assert buffer[..] == slots[head := ref];
        return;
      }
      AtNext(SIZE, tail, count - 1);
      head := Next(SIZE, head);
      buffer[head] := ref;
      assert buffer[..] == slots[head := ref];
      if count < SIZE {
        RingPush(slots, tail, count, ref);
        count := count + 1;
      } else {
        RingRoll(slots, tail, ref);
        AtNext(SIZE, tail, 0);
        tail := Next(SIZE, tail);
        AtNext(SIZE, old(tail), SIZE - 1);
      }
    }

    /** Drops the finalized prefix. */
    method Prune(number: nat)
      requires Valid() && finalizedHead.Some? && finalizedHead.value.number == number
      modifies this
      ensures Valid() && Chain() == old(Chain())[FinalizedPrefix(finalizedHead, old(Chain()))..]
      ensures finalizedHead == old(finalizedHead)
    {
      hide At, Ringed, FinalizedPrefix, Next;
      ghost var slots, chain := buffer[..], Chain();
      ghost var k := 0;
      assert chain[0..] == chain;
      while count > 0
        invariant k <= |chain| && tail < SIZE && count <= SIZE
        invariant count > 0 ==> head == At(SIZE, tail, count - 1)
        invariant Ringed(slots, tail, count) == chain[k..]
        invariant FinalizedPrefix(finalizedHead, chain) == k + FinalizedPrefix(finalizedHead, chain[k..])
        invariant finalizedHead == old(finalizedHead)
        decreases count
      {
        PruneStep(slots, tail, count, finalizedHead, chain, k);
        if buffer[tail].number > number {
          break;
        }
        tail := Next(SIZE, tail);
        count := count - 1;
        k := k + 1;
      }
      if k == |chain| {
        PrefixEnd(finalizedHead, chain, k);
      }
      if count == 0 {
        head, tail := -1, 0;
      }
    }

    method SetFinalizedHead(ref: Option<Block>)
      requires Valid()
      modifies this
      ensures Valid() && finalizedHead == Raise(old(finalizedHead), ref)
      ensures Chain() == if finalizedHead == old(finalizedHead) then old(Chain())
                         else old(Chain())[FinalizedPrefix(finalizedHead, old(Chain()))..]
    {
      if ref.None? {
        return;
      }
      if finalizedHead.None? || ref.value.number > finalizedHead.value.number {
        finalizedHead := ref;
        assert Chain() == old(Chain());
        Prune(ref.value.number);
      }
    }

    method Init(finalized: Option<Block>, heads: seq<Block>)
      requires Valid()
      modifies this, buffer
      ensures Valid() && finalizedHead == finalized
      ensures Chain() == PushAll(SIZE, finalized, [], heads)
    {
      head, tail, count, finalizedHead := -1, 0, 0, finalized;
      PushEach(heads);
    }

    method PushEach(blocks: seq<Block>)
      requires Valid()
      modifies this, buffer
      ensures Valid() && finalizedHead == old(finalizedHead)
      ensures Chain() == PushAll(SIZE, finalizedHead, old(Chain()), blocks)
    {
      ghost var chain := Chain();
      var i := 0;
      while i < |blocks|
        invariant i <= |blocks| && Valid() && finalizedHead == old(finalizedHead)
        invariant Chain() == PushAll(SIZE, finalizedHead, chain, blocks[..i])
      {
        assert blocks[..i + 1][..i] == blocks[..i];
        Push(blocks[i]);
        i := i + 1;
      }
      assert blocks[..i] == blocks;
    }

    method ApplyBatch(headFinalized: Option<Block>, blocks: seq<Block>)
      requires Valid()
      modifies this, buffer
      ensures Valid() && finalizedHead == Raise(old(finalizedHead), Effective(headFinalized, blocks))
      ensures var chain := if finalizedHead == old(finalizedHead) then old(Chain())
                           else old(Chain())[FinalizedPrefix(finalizedHead, old(Chain()))..];
              Chain() == PushAll(SIZE, finalizedHead, chain, blocks)
    {
      var finalized := EffectiveFinalizedHead(headFinalized, blocks);
      SetFinalizedHead(finalized);
      PushEach(blocks);
    }

    /** Newest block, or the finalized head when none is tracked. */
    method Head() returns (r: Option<Block>)
      requires Valid()
      ensures r == Newest(finalizedHead, Chain())
    {
      if count > 0 {
        assert Chain()[count - 1] == buffer[head];
        return Some(buffer[head]);
      }
      return finalizedHead;
    }

    method GetChain() returns (chain: seq<Block>)
      requires Valid()
      ensures chain == Chain()
    {
      hide At, Ringed;
      chain := [];
      var idx, i := tail, 0;
      AtNext(SIZE, tail, 0);
      while i < count
        invariant 0 <= i <= count && idx == At(SIZE, tail, i) && chain == Chain()[..i]
      {
        AtNext(SIZE, tail, i);
        chain := chain + [buffer[idx]];
        idx := Next(SIZE, idx);
        i := i + 1;
      }
    }

    /** Rolls the ring back to the common ancestor, or leaves it alone when there is none. */
    method FindCommonAncestor(forkChain: seq<Block>) returns (safe: Option<Block>)
      requires Valid()
      modifies this
      ensures Valid() && finalizedHead == old(finalizedHead)
      ensures match Rollback(finalizedHead, old(Chain()), forkChain)
              case Some(a) => safe == Some(a.safe) && Chain() == a.kept
              case None => safe == None && Chain() == old(Chain())
    {
      hide At, Ringed, Rollback;
      if |forkChain| == 0 {
        RollbackAt(finalizedHead, Chain(), forkChain, -1);
        return None;
      }
      ghost var full, start := WithMark(finalizedHead, Chain()), MarkLength(finalizedHead);
      var lastCommonIdx, forkIndex, mismatch := CheckFinalized(forkChain);
      if mismatch {
        RollbackAt(finalizedHead, Chain(), forkChain, -1);
        return None;
      }
      var slot;
      lastCommonIdx, slot := Walk(forkChain, lastCommonIdx, forkIndex);
      assert RollbackIndex(full, forkChain) == Position(start, lastCommonIdx);
      RollbackAt(finalizedHead, Chain(), forkChain, lastCommonIdx);
      hide RollbackIndex, RollbackFrom, Position;
      if lastCommonIdx == -1 {
        if finalizedHead.Some? && AllBefore(forkChain, finalizedHead.value.number) {
          head, tail, count := -1, 0, 0;
          return finalizedHead;
        }
        return None;
      }
      if lastCommonIdx == -2 {
        head, tail, count := -1, 0, 0;
        return finalizedHead;
      }
      RingTake(buffer[..], tail, count, lastCommonIdx + 1);
      head, count := slot, lastCommonIdx + 1;
      return Some(buffer[head]);
    }

    /** Settles the finalized head against the sample: -2 stands for a match with it. */
    method CheckFinalized(forkChain: seq<Block>) returns (lastCommonIdx: int, forkIndex: nat, mismatch: bool)
      requires Valid()
      ensures forkIndex <= |forkChain| && lastCommonIdx in {-2, -1}
      ensures lastCommonIdx == -2 ==> finalizedHead.Some?
      ensures var full, start := WithMark(finalizedHead, Chain()), MarkLength(finalizedHead);
              RollbackIndex(full, forkChain) ==
              if mismatch then -1 else RollbackFrom(full, forkChain, start, forkIndex, Position(start, lastCommonIdx))
      ensures mismatch ==> finalizedHead.Some? && !AllBefore(forkChain, finalizedHead.value.number)
    {
      hide At, Ringed;
      ghost var full := WithMark(finalizedHead, Chain());
      lastCommonIdx, forkIndex, mismatch := -1, 0, false;
      if finalizedHead.Some? {
        while forkIndex < |forkChain| && finalizedHead.value.number > forkChain[forkIndex].number
          invariant forkIndex <= |forkChain|
          invariant RollbackIndex(full, forkChain) == RollbackFrom(full, forkChain, 0, forkIndex, -1)
        {
          forkIndex := forkIndex + 1;
        }
        if forkIndex < |forkChain| {
          if finalizedHead.value.number == forkChain[forkIndex].number {
            if finalizedHead.value.hash == forkChain[forkIndex].hash {
              lastCommonIdx := -2;
              forkIndex := forkIndex + 1;
            } else {
              mismatch := true;
            }
          }
        }
      }
    }

    /** The two cursors over ring and sample, from the finalized head on. */
    method Walk(forkChain: seq<Block>, lastCommon: int, from: nat) returns (lastCommonIdx: int, slot: int)
      requires Valid() && from <= |forkChain| && lastCommon in {-2, -1}
      ensures -2 <= lastCommonIdx < count
      ensures lastCommonIdx == -2 ==> lastCommon == -2
      ensures lastCommonIdx >= 0 ==> slot == At(SIZE, tail, lastCommonIdx)
      ensures var full, start := WithMark(finalizedHead, Chain()), MarkLength(finalizedHead);
              RollbackFrom(full, forkChain, start, from, Position(start, lastCommon)) == Position(start, lastCommonIdx)
    {
      hide At, Ringed;
      ghost var full, start := WithMark(finalizedHead, Chain()), MarkLength(finalizedHead);
      ghost var r := RollbackFrom(full, forkChain, start, from, Position(start, lastCommon));
      lastCommonIdx, slot := lastCommon, -1;
      var forkIndex: nat, itemsProcessed: nat, currIdx: nat := from, 0, tail;
      AtNext(SIZE, tail, 0);
      while itemsProcessed < count && forkIndex < |forkChain|
        invariant itemsProcessed <= count && forkIndex <= |forkChain| && currIdx == At(SIZE, tail, itemsProcessed)
        invariant -2 <= lastCommonIdx < itemsProcessed
        invariant lastCommonIdx == -2 ==> lastCommon == -2
        invariant lastCommonIdx >= 0 ==> slot == At(SIZE, tail, lastCommonIdx)
        invariant r == RollbackFrom(full, forkChain, start + itemsProcessed, forkIndex, Position(start, lastCommonIdx))
        decreases count - itemsProcessed + |forkChain| - forkIndex
      {
        AtNext(SIZE, tail, itemsProcessed);
        var currentBlock, forkBlock := buffer[currIdx], forkChain[forkIndex];
        assert currentBlock == full[start + itemsProcessed];
        if currentBlock.number > forkBlock.number {
          forkIndex := forkIndex + 1;
          continue;
        }
        if currentBlock.number < forkBlock.number {
          currIdx := Next(SIZE, currIdx);
          itemsProcessed := itemsProcessed + 1;
          continue;
        }
        if currentBlock.hash != forkBlock.hash {
          break;
        }
        lastCommonIdx, slot := itemsProcessed, currIdx;
        currIdx := Next(SIZE, currIdx);
        itemsProcessed := itemsProcessed + 1;
        forkIndex := forkIndex + 1;
      }
    }
  }

  /** Where the ring's last common position lies in the chain with the mark in front. */
  function Position(start: nat, lastCommonIdx: int): int {
    if lastCommonIdx == -2 then 0 else if lastCommonIdx == -1 then -1 else start + lastCommonIdx
  }

  function Newest(finalized: Option<Block>, chain: seq<Block>): Option<Block> {
    if chain == [] then finalized else Some(chain[|chain| - 1])
  }

  method EffectiveFinalizedHead(header: Option<Block>, blocks: seq<Block>) returns (r: Option<Block>)
    ensures r == Effective(header, blocks)
  {
    if header.None? || |blocks| == 0 {
      return header;
    }
    var firstUnfinalized := -1;
    var i := 0;
    assert blocks[0..] == blocks;
    while i < |blocks|
      invariant i <= |blocks| && firstUnfinalized == -1
      invariant FirstUnfinalized(header.value.number, blocks) == i + FirstUnfinalized(header.value.number, blocks[i..])
    {
      if blocks[i].number > header.value.number {
        firstUnfinalized := i;
        break;
      }
      assert blocks[i..][1..] == blocks[i + 1..];
      i := i + 1;
    }
    if firstUnfinalized == 0 {
      return header;
    } else if firstUnfinalized > 0 {
      return Some(blocks[firstUnfinalized - 1]);
    } else {
      return Some(blocks[|blocks| - 1]);
    }
  }
}
