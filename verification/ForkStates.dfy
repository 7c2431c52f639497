/**
 The plain list state of internal/ingestion/fork.go, and where it parts from the list tracker
 of internal/fork_sqd/fork_sqd.go.
 */
module ForkStates {
  import opened Rings
  import opened Options
  import opened ForkChain
  import opened BlockRing
  import opened ForkTrackers
  import opened ForkRuns

  const MAX_ROLLBACK_HEADS: nat := 4096

  datatype Plain = Plain(mark: Option<Block>, heads: seq<Block>)

  /** At equal height the first argument wins. */
  function MaxBlock(a: Option<Block>, b: Option<Block>): Option<Block> {
    if a.None? then b else if b.None? || a.value.number >= b.value.number then a else b
  }

  /** The cap is applied only when the chain has grown. */
  function PlainAppend(mark: Option<Block>, heads: seq<Block>, b: Block): seq<Block> {
    var r := Append(mark, heads, b);
    if |r| > |heads| then LastN(MAX_ROLLBACK_HEADS, r) else r
  }

  function PlainAppendAll(mark: Option<Block>, heads: seq<Block>, blocks: seq<Block>): seq<Block> {
    if blocks == [] then heads
    else PlainAppend(mark, PlainAppendAll(mark, heads, blocks[..|blocks| - 1]), blocks[|blocks| - 1])
  }

  function PlainBatch(s: Plain, header: Option<Block>, blocks: seq<Block>): Plain {
    var mark := MaxBlock(Effective(header, blocks), s.mark);
    Plain(mark, PlainAppendAll(mark, s.heads[FinalizedPrefix(mark, s.heads)..], blocks))
  }

  function PlainFork(s: Plain, sample: seq<Block>): (Plain, Option<Block>) {
    match Rollback(s.mark, s.heads, sample)
    case Some(a) => (s.(heads := a.kept), Some(a.safe))
    case None => (s, None)
  }

  class ProcessorState {
    var finalizedHead: Option<Block>
    var unfinalizedHeads: seq<Block>

    ghost function View(): Plain
      reads this
    {
      Plain(finalizedHead, unfinalizedHeads)
    }

    constructor ()
      ensures View() == Plain(None, [])
    {
      finalizedHead, unfinalizedHeads := None, [];
    }

    method Init(finalized: Option<Block>, heads: seq<Block>)
      modifies this
      ensures View() == Plain(finalized, heads)
    {
      finalizedHead, unfinalizedHeads := finalized, heads;
    }

    method ApplyBatch(header: Option<Block>, blocks: seq<Block>)
      modifies this
      ensures View() == PlainBatch(old(View()), header, blocks)
    {
      var finalized := EffectiveFinalizedHead(header, blocks);
      finalizedHead := MaxBlock(finalized, finalizedHead);
      PruneFinalized();
      ghost var mark, kept := finalizedHead, unfinalizedHeads;
      var i := 0;
      while i < |blocks|
        invariant i <= |blocks| && finalizedHead == mark
        invariant unfinalizedHeads == PlainAppendAll(finalizedHead, kept, blocks[..i])
      {
        assert blocks[..i + 1][..i] == blocks[..i];
        AppendUnfinalized(blocks[i]);
        i := i + 1;
      }
      assert blocks[..i] == blocks;
    }

    method AppendUnfinalized(block: Block)
      modifies this`unfinalizedHeads
      ensures unfinalizedHeads == PlainAppend(finalizedHead, old(unfinalizedHeads), block)
    {
      if finalizedHead.Some? && block.number <= finalizedHead.value.number {
        return;
      }
      if |unfinalizedHeads| > 0 {
        var last := unfinalizedHeads[|unfinalizedHeads| - 1];
        if block.number < last.number {
          return;
        }
        if block.number == last.number {
          unfinalizedHeads := unfinalizedHeads[|unfinalizedHeads| - 1 := block];
          return;
        }
      }
      unfinalizedHeads := unfinalizedHeads + [block];
      if |unfinalizedHeads| > MAX_ROLLBACK_HEADS {
        unfinalizedHeads := unfinalizedHeads[|unfinalizedHeads| - MAX_ROLLBACK_HEADS..];
      }
    }

    method PruneFinalized()
      modifies this`unfinalizedHeads
      ensures unfinalizedHeads == old(unfinalizedHeads)[FinalizedPrefix(finalizedHead, old(unfinalizedHeads))..]
    {
      var heads := unfinalizedHeads;
      if finalizedHead.None? || |heads| == 0 {
        return;
      }
      var idx := 0;
      assert heads[0..] == heads;
      while idx < |heads| && heads[idx].number <= finalizedHead.value.number
        invariant idx <= |heads| && unfinalizedHeads == heads
        invariant FinalizedPrefix(finalizedHead, heads) == idx + FinalizedPrefix(finalizedHead, heads[idx..])
      {
        PrefixStep(finalizedHead, heads, idx);
        idx := idx + 1;
      }
      if idx == 0 {
        return;
      }
      unfinalizedHeads := heads[idx..];
    }

    method RollbackFork(previousBlocks: seq<Block>) returns (safe: Option<Block>)
      modifies this`unfinalizedHeads
      ensures (View(), safe) == PlainFork(old(View()), previousBlocks)
    {
      var chain := WithMark(finalizedHead, unfinalizedHeads);
      RollbackRange(chain, previousBlocks, 0, 0, -1);
      var rollbackIndex := FindRollbackIndex(chain, previousBlocks);
      if rollbackIndex == -1 {
        if finalizedHead.Some? && AllBefore(previousBlocks, finalizedHead.value.number) {
          unfinalizedHeads := [];
          return finalizedHead;
        }
        return None;
      }
      var start := MarkLength(finalizedHead);
      unfinalizedHeads := if rollbackIndex < start then [] else chain[start..rollbackIndex + 1];
      return Some(chain[rollbackIndex]);
    }

    /** Without a finalized head an unanswered fork drops everything and is no error. */
    method HandleFork(previousBlocks: seq<Block>) returns (ok: bool)
      modifies this`unfinalizedHeads
      ensures var (s, safe) := PlainFork(old(View()), previousBlocks);
              && ok == (safe.Some? || s.mark.None?)
              && View() == if ok && safe.None? then Plain(None, []) else s
    {
      var safe := RollbackFork(previousBlocks);
      if safe.None? {
        if finalizedHead.None? {
          unfinalizedHeads := [];
          return true;
        }
        return false;
      }
      return true;
    }
  }

  /** A chain within the limit stays there, and capping after each block is the same. */
  lemma {:induction false} AppendsArePushes(mark: Option<Block>, heads: seq<Block>, blocks: seq<Block>)
    requires |heads| <= MAX_ROLLBACK_HEADS
    ensures PlainAppendAll(mark, heads, blocks) == PushAll(MAX_ROLLBACK_HEADS, mark, heads, blocks)
    ensures |PlainAppendAll(mark, heads, blocks)| <= MAX_ROLLBACK_HEADS
  {
    if blocks != [] {
      AppendsArePushes(mark, heads, blocks[..|blocks| - 1]);
    }
  }

  // ----- the invariant -----

  ghost predicate PlainSound(s: Plain) {
    Ascending(s.heads) && Above(s.heads, s.mark) && |s.heads| <= MAX_ROLLBACK_HEADS
  }

  lemma PlainBatchKeeps(s: Plain, header: Option<Block>, blocks: seq<Block>)
    requires PlainSound(s)
    ensures PlainSound(PlainBatch(s, header, blocks))
  {
    var mark := MaxBlock(Effective(header, blocks), s.mark);
    DropKeeps(mark, s.heads);
    AppendsArePushes(mark, s.heads[FinalizedPrefix(mark, s.heads)..], blocks);
    PushAllKeeps(MAX_ROLLBACK_HEADS, mark, s.heads[FinalizedPrefix(mark, s.heads)..], blocks);
  }

  lemma PlainForkKeeps(s: Plain, sample: seq<Block>)
    requires PlainSound(s)
    ensures PlainSound(PlainFork(s, sample).0)
  {
    var n := RollbackShape(s.mark, s.heads, sample);
    hide Rollback;
  }

  // ----- one batch -----

  ghost predicate SameHeight(a: Option<Block>, b: Option<Block>) {
    (a.Some? <==> b.Some?) && (a.Some? ==> a.value.number == b.value.number)
  }

  lemma {:induction false} PushSameHeight(limit: nat, a: Option<Block>, b: Option<Block>, chain: seq<Block>,
                                          blocks: seq<Block>)
    requires SameHeight(a, b)
    ensures PushAll(limit, a, chain, blocks) == PushAll(limit, b, chain, blocks)
  {
    if blocks != [] {
      PushSameHeight(limit, a, b, chain, blocks[..|blocks| - 1]);
    }
  }

  lemma {:induction false} PrefixSameHeight(a: Option<Block>, b: Option<Block>, chain: seq<Block>)
    requires SameHeight(a, b)
    ensures FinalizedPrefix(a, chain) == FinalizedPrefix(b, chain)
  {
    if chain != [] {
      PrefixSameHeight(a, b, chain[1..]);
    }
  }

  /** The batch reports a finalized block at the height of the mark, but another one. */
  ghost predicate Renames(mark: Option<Block>, effective: Option<Block>) {
    mark.Some? && effective.Some? && mark.value.number == effective.value.number && mark != effective
  }

  /**
   From a shared state, one batch leaves both with the same chain and with marks of the same
   height.  The marks are the same block exactly when the batch does not rename the mark: then
   the list tracker keeps the old block and the plain state takes the new one.
   */
  lemma BatchAgreesIff(t: Tracked, header: Option<Block>, blocks: seq<Block>)
    requires Ascending(t.chain) && Above(t.chain, t.finalized) && |t.chain| <= MAX_ROLLBACK_HEADS
    ensures var s, l := PlainBatch(Plain(t.finalized, t.chain), header, blocks),
            ListBatch(MAX_ROLLBACK_HEADS, t, header, blocks);
            && s.heads == l.chain && SameHeight(s.mark, l.finalized)
            && (s.mark == l.finalized <==> !Renames(t.finalized, Effective(header, blocks)))
            && (Renames(t.finalized, Effective(header, blocks)) ==>
                  s.mark == Effective(header, blocks) && l.finalized == t.finalized)
  {
    var effective := Effective(header, blocks);
    var mark, finalized := MaxBlock(effective, t.finalized), Raise(t.finalized, effective);
    PrefixSameHeight(mark, finalized, t.chain);
    FilterDropsPrefix(finalized, t.chain);
    var kept := Unfinalized(finalized, t.chain);
    AppendsArePushes(mark, kept, blocks);
    PushSameHeight(MAX_ROLLBACK_HEADS, mark, finalized, kept, blocks);
    FilterIsRedundant(effective, finalized, kept, blocks);
    CapsCommute(MAX_ROLLBACK_HEADS, finalized, kept, blocks);
  }

  /** After a renaming the two disagree about forks: only one still knows the old mark. */
  lemma RenamingSplitsVerdicts(t: Tracked, header: Option<Block>)
    requires t.chain == [] && Renames(t.finalized, header)
    ensures var s, l := PlainBatch(Plain(t.finalized, []), header, []), ListBatch(MAX_ROLLBACK_HEADS, t, header, []);
            && PlainFork(s, [t.finalized.value]).1 == None
            && ListFork(l, [t.finalized.value]).1 == t.finalized
  {
    var old_, new_ := t.finalized.value, header.value;
    assert old_.hash != new_.hash;
    assert RollbackIndex([new_], [old_]) == -1;
    assert WithMark(t.finalized, []) == [old_] && WithMark(header, []) == [new_];
    assert RollbackIndex([old_], [old_]) == RollbackFrom([old_], [old_], 1, 1, 0) == 0;
  }

  lemma ForkVerdicts(t: Tracked, sample: seq<Block>)
    requires Ascending(t.chain) && Above(t.chain, t.finalized)
    ensures PlainFork(Plain(t.finalized, t.chain), sample).1 == ListFork(t, sample).1
    ensures ListFork(t, sample).1.Some? ==>
              var l := ListFork(t, sample).0;
              PlainFork(Plain(t.finalized, t.chain), sample).0 == Plain(l.finalized, l.chain)
  {
    if t.finalized.Some? {
      NoneAtMost(t.finalized, t.chain);
    }
  }

  // ----- whole runs -----

  function PlainStep(s: Plain, e: Event): Plain {
    match e
    case Started(_, f, heads) => Plain(f, heads)
    case Batch(header, blocks) => PlainBatch(s, header, blocks)
    case Forked(sample) => PlainFork(s, sample).0
  }

  function PlainAfter(events: seq<Event>): Plain {
    if events == [] then Plain(None, [])
    else PlainStep(PlainAfter(events[..|events| - 1]), events[|events| - 1])
  }

  /** Since the last start, which was given a sound state, no fork went unanswered and no
      batch renamed the mark. */
  ghost predicate Steady(events: seq<Event>) {
    if events == [] then true
    else
      var before := events[..|events| - 1];
      match events[|events| - 1]
      case Started(_, f, heads) => PlainSound(Plain(f, heads))
      case Batch(header, blocks) => Steady(before) && !Renames(PlainAfter(before).mark, Effective(header, blocks))
      case Forked(sample) => Steady(before) && PlainFork(PlainAfter(before), sample).1.Some?
  }

  lemma StartedSound(f: Option<Block>, heads: seq<Block>)
    requires PlainSound(Plain(f, heads))
    ensures LastN(MAX_ROLLBACK_HEADS, Unfinalized(f, heads)) == heads
  {
    SplitFilter(f, heads, 0);
  }

  /** Over any steady run, rollbacks included, the plain state is the list tracker's chain and mark. */
  lemma {:induction false} PlainIsTheList(events: seq<Event>)
    requires Steady(events)
    ensures PlainSound(PlainAfter(events))
    ensures var l := ListAfter(MAX_ROLLBACK_HEADS, events);
            PlainAfter(events) == Plain(l.finalized, l.chain)
  {
    if events != [] {
      var before := events[..|events| - 1];
      var s, l := PlainAfter(before), ListAfter(MAX_ROLLBACK_HEADS, before);
      match events[|events| - 1] {
        case Started(_, f, heads) => StartedSound(f, heads);
        case Batch(header, blocks) =>
          PlainIsTheList(before);
          BatchAgreesIff(l, header, blocks);
          PlainBatchKeeps(s, header, blocks);
        case Forked(sample) =>
          PlainIsTheList(before);
          ForkVerdicts(l, sample);
          PlainForkKeeps(s, sample);
      }
    }
  }
}
