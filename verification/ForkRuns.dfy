/**
 The ring-backed tracker refines the list-backed one, and what every run keeps.
 */
module ForkRuns {
  import opened Rings
  import opened Options
  import opened ForkChain
  import opened BlockRing
  import opened ForkTrackers

  /** Strictly ascending, above the finalized mark, bounded; no cursor only when nothing is known. */
  ghost predicate Sound(t: Tracked) {
    && Ascending(t.chain) && Above(t.chain, t.finalized) && |t.chain| <= SIZE
    && (t.current.None? ==> t.chain == [] && t.finalized.None?)
  }

  // ----- one operation -----

  lemma InitKeeps(current: Option<Block>, finalized: Option<Block>, heads: seq<Block>)
    ensures Sound(RingInit(current, finalized, heads))
  {
    PushAllKeeps(SIZE, finalized, [], heads);
  }

  lemma BatchKeeps(t: Tracked, header: Option<Block>, blocks: seq<Block>)
    requires Sound(t)
    ensures Sound(RingBatch(t, header, blocks))
    ensures t.finalized.Some? ==>
              var f := RingBatch(t, header, blocks).finalized; f.Some? && t.finalized.value.number <= f.value.number
  {
    var finalized := Raise(t.finalized, Effective(header, blocks));
    var kept := if finalized == t.finalized then t.chain else t.chain[FinalizedPrefix(finalized, t.chain)..];
    DropKeeps(finalized, t.chain);
    PushAllKeeps(SIZE, finalized, kept, blocks);
  }

  /**
   A rollback never goes below finality, keeps a prefix of the tracked chain, and keeps
   nothing above the block it returns.
   */
  lemma ForkKeeps(t: Tracked, sample: seq<Block>)
    requires Sound(t)
    ensures var (t', safe) := RingFork(t, sample);
            && Sound(t') && t'.finalized == t.finalized
            && (safe.None? ==> t' == t)
            && (safe.Some? ==>
                  && t'.current == safe && t'.chain <= t.chain
                  && safe.value in WithMark(t.finalized, t.chain)
                  && (t.finalized.Some? ==> t.finalized.value.number <= safe.value.number)
                  && forall b :: b in t'.chain ==> b.number <= safe.value.number)
  {
    var n := RollbackShape(t.finalized, t.chain, sample);
    hide Rollback;
    if n > 0 {
      assert WithMark(t.finalized, t.chain)[MarkLength(t.finalized) + n - 1] == t.chain[n - 1];
    }
  }

  lemma MarkedAscends(finalized: Option<Block>, chain: seq<Block>)
    requires Ascending(chain) && Above(chain, finalized)
    ensures Ascending(WithMark(finalized, chain))
  {
  }

  /** On hash-consistent chains the answer is the highest block both sides know. */
  lemma ForkFindsHighestCommon(t: Tracked, sample: seq<Block>)
    requires Sound(t) && Ascending(sample) && HashConsistent(WithMark(t.finalized, t.chain), sample)
    requires exists b :: b in WithMark(t.finalized, t.chain) && b in sample
    ensures var safe := RingFork(t, sample).1;
            && safe.Some? && safe.value in sample && safe.value in WithMark(t.finalized, t.chain)
            && forall b :: b in WithMark(t.finalized, t.chain) && b in sample ==> b.number <= safe.value.number
  {
    MarkedAscends(t.finalized, t.chain);
    RollbackIsHighestCommon(WithMark(t.finalized, t.chain), sample);
    hide RollbackIndex, HashConsistent;
  }

  // ----- ring against list -----

  lemma InitAgrees(current: Option<Block>, finalized: Option<Block>, heads: seq<Block>)
    requires Ascending(heads)
    ensures RingInit(current, finalized, heads) == ListInit(SIZE, current, finalized, heads)
  {
    PushAscending(SIZE, finalized, heads);
  }

  /** Pruning on every batch or only when the mark moves is the same. */
  lemma KeptAgrees(t: Tracked, finalized: Option<Block>)
    requires Sound(t)
    ensures Unfinalized(finalized, t.chain) ==
            if finalized == t.finalized then t.chain else t.chain[FinalizedPrefix(finalized, t.chain)..]
  {
    FilterDropsPrefix(finalized, t.chain);
    if finalized == t.finalized {
      SplitFilter(finalized, t.chain, 0);
    }
  }

  lemma BatchAgrees(t: Tracked, header: Option<Block>, blocks: seq<Block>)
    requires Sound(t)
    ensures RingBatch(t, header, blocks) == ListBatch(SIZE, t, header, blocks)
  {
    var effective := Effective(header, blocks);
    var finalized := Raise(t.finalized, effective);
    KeptAgrees(t, finalized);
    var kept := Unfinalized(finalized, t.chain);
    assert LastN(SIZE, kept) == kept;
    FilterIsRedundant(effective, finalized, kept, blocks);
    CapsCommute(SIZE, finalized, kept, blocks);
  }

  /** Same verdict on every sample, in whatever order its blocks come; same state on success. */
  lemma ForkAgrees(t: Tracked, sample: seq<Block>)
    requires Sound(t)
    ensures RingFork(t, sample).1 == ListFork(t, sample).1
    ensures RingFork(t, sample).1.Some? ==> RingFork(t, sample).0 == ListFork(t, sample).0
  {
    if t.finalized.Some? {
      NoneAtMost(t.finalized, t.chain);
    }
  }

  lemma {:induction false} NoneAtMost(finalized: Option<Block>, chain: seq<Block>)
    requires finalized.Some? && Above(chain, finalized)
    ensures AtMost(finalized.value.number, chain) == []
  {
    if chain != [] {
      NoneAtMost(finalized, chain[..|chain| - 1]);
    }
  }

  // ----- whole runs -----

  datatype Event =
    | Started(current: Option<Block>, finalized: Option<Block>, heads: seq<Block>)
    | Batch(header: Option<Block>, blocks: seq<Block>)
    | Forked(sample: seq<Block>)

  function RingStep(t: Tracked, e: Event): Tracked {
    match e
    case Started(c, f, heads) => RingInit(c, f, heads)
    case Batch(header, blocks) => RingBatch(t, header, blocks)
    case Forked(sample) => RingFork(t, sample).0
  }

  function ListStep(limit: nat, t: Tracked, e: Event): Tracked {
    match e
    case Started(c, f, heads) => ListInit(limit, c, f, heads)
    case Batch(header, blocks) => ListBatch(limit, t, header, blocks)
    case Forked(sample) => ListFork(t, sample).0
  }

  function RingAfter(events: seq<Event>): Tracked {
    if events == [] then Tracked(None, None, [])
    else RingStep(RingAfter(events[..|events| - 1]), events[|events| - 1])
  }

  function ListAfter(limit: nat, events: seq<Event>): Tracked {
    if events == [] then Tracked(None, None, [])
    else ListStep(limit, ListAfter(limit, events[..|events| - 1]), events[|events| - 1])
  }

  /** Since the last start, which was given an ascending chain, no fork went unanswered. */
  ghost predicate Comparable(events: seq<Event>) {
    if events == [] then true
    else
      var before := events[..|events| - 1];
      match events[|events| - 1]
      case Started(_, _, heads) => Ascending(heads)
      case Batch(_, _) => Comparable(before)
      case Forked(sample) => Comparable(before) && RingFork(RingAfter(before), sample).1.Some?
  }

  /** Every run, failed forks and badly ordered input included, keeps the invariant. */
  lemma {:induction false} RunsAreSound(events: seq<Event>)
    ensures Sound(RingAfter(events))
  {
    if events != [] {
      var before := events[..|events| - 1];
      RunsAreSound(before);
      hide Sound;
      match events[|events| - 1] {
        case Started(c, f, heads) => InitKeeps(c, f, heads);
        case Batch(header, blocks) => BatchKeeps(RingAfter(before), header, blocks);
        case Forked(sample) => ForkKeeps(RingAfter(before), sample);
      }
    }
  }

  /** The ring refines the list: same chain, same finalized mark, same cursor after any comparable run. */
  lemma {:induction false} RingRefinesList(events: seq<Event>)
    requires Comparable(events)
    ensures RingAfter(events) == ListAfter(SIZE, events)
  {
    if events != [] {
      var before := events[..|events| - 1];
      RunsAreSound(before);
      hide Sound, Ascending;
      match events[|events| - 1] {
        case Started(c, f, heads) => InitAgrees(c, f, heads);
        case Batch(header, blocks) =>
          RingRefinesList(before);
          BatchAgrees(RingAfter(before), header, blocks);
        case Forked(sample) =>
          RingRefinesList(before);
          ForkAgrees(RingAfter(before), sample);
      }
    }
  }

  /** Both answer, or both give up, on every sample. */
  lemma VerdictsAgree(events: seq<Event>, sample: seq<Block>)
    requires Comparable(events)
    ensures RingFork(RingAfter(events), sample).1 == ListFork(ListAfter(SIZE, events), sample).1
  {
    RingRefinesList(events);
    RunsAreSound(events);
    ForkAgrees(RingAfter(events), sample);
  }

  /** Until the next start, finality only rises. */
  lemma {:induction false} FinalityOnlyRises(events: seq<Event>, more: seq<Event>)
    requires forall i :: 0 <= i < |more| ==> !more[i].Started?
    requires RingAfter(events).finalized.Some?
    ensures var f := RingAfter(events + more).finalized;
            f.Some? && RingAfter(events).finalized.value.number <= f.value.number
  {
    if more == [] {
      assert events + more == events;
    } else {
      var n := |more| - 1;
      FinalityOnlyRises(events, more[..n]);
      assert (events + more)[..|events + more| - 1] == events + more[..n];
      var t := RingAfter(events + more[..n]);
      RunsAreSound(events + more[..n]);
      hide Sound;
      match more[n] {
        case Batch(header, blocks) => BatchKeeps(t, header, blocks);
        case Forked(sample) => ForkKeeps(t, sample);
      }
    }
  }

  /** No later rollback goes below a finality once recorded. */
  lemma RollbacksRespectFinality(events: seq<Event>, more: seq<Event>, sample: seq<Block>)
    requires forall i :: 0 <= i < |more| ==> !more[i].Started?
    requires RingAfter(events).finalized.Some?
    ensures var safe := RingFork(RingAfter(events + more), sample).1;
            safe.Some? ==> RingAfter(events).finalized.value.number <= safe.value.number
  {
    FinalityOnlyRises(events, more);
    RunsAreSound(events + more);
    ForkKeeps(RingAfter(events + more), sample);
  }
}
