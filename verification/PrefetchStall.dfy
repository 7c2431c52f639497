/**
 What an unsafe far jump costs in a run that has not stopped: it may wait for ever for a block
 that no worker will fetch.
 */
module PrefetchStall {
  import opened Tiling
  import opened Transitions
  import opened Prefetcher
  import opened PrefetchProtocol
  import opened PrefetchProgress
  import opened PrefetchRuns
  import opened PrefetchConverse

  /** The consumer awaits a block that is not buffered and in no unit. */
  ghost predicate Stranded(s: State) {
    s.sh.nextEmit !in s.sh.ready && Settled(s, s.sh.nextEmit)
  }

  /** Until every worker has given up, nothing is emitted any more. */
  lemma StrandedStays(cfg: Config, world: set<nat>, s: State, a: Action, s': State)
    requires Loose(cfg, s) && Stranded(s) && Step(cfg, world, s, a, s')
    ensures a.Consume? ==> AllExited(s.pcs)
    ensures !a.Consume? ==> Stranded(s') && s'.sh.nextEmit == s.sh.nextEmit && s'.emitted == s.emitted
  {
    SettledKeeps(cfg, world, s, a, s', s.sh.nextEmit);
    hide SortByFrom, Split;
  }

  /** No step is left, and not everything has been handed over. */
  ghost predicate Stuck(cfg: Config, world: set<nat>, s: State) {
    !Done(s) && forall a, s' :: !Step(cfg, world, s, a, s')
  }

  const UNIT: nat := GAP_MAX

  /** One worker, two million blocks, and only the first one matching. */
  const VAST := Config(0, 2000000, DEFAULT_PAGE_SIZE, 1, false)

  ghost const FIRST: set<nat> := {0}

  /** The first unit answered with its two ends, the others with their last block only. */
  ghost function FullChunk(k: nat): Chunk {
    Chunk(k * UNIT, k * UNIT + UNIT - 1, if k == 0 then [0, UNIT - 1] else [k * UNIT + UNIT - 1])
  }

  ghost function FullChunks(k: nat): seq<Chunk> {
    seq(k, i requires 0 <= i => FullChunk(i))
  }

  ghost function Empties(k: nat): nat { if k == 0 then 0 else k - 1 }

  /** After k answers that covered their units; the first ends the initial probe. */
  ghost function Walked(k: nat): State {
    State(Shared(k * UNIT, UNIT, Empties(k), k == 0, map[], k * UNIT, [], 0, false), [Idle], FullChunks(k), k)
  }

  ghost function WalkClaimed(k: nat): State {
    Walked(k).(sh := Walked(k).sh.(nextBlock := (k + 1) * UNIT, active := 1),
               pcs := [Fetching(Range(k * UNIT, k * UNIT + UNIT - 1))])
  }

  ghost function WalkAnswered(k: nat): State {
    State(Shared((k + 1) * UNIT, UNIT, Empties(k + 1), false, map[k * UNIT := FullChunk(k)], k * UNIT, [], 1, false),
          [Finishing], FullChunks(k), k + 1)
  }

  ghost function Freed(s: State): State { s.(sh := s.sh.(active := 0), pcs := [Idle]) }

  ghost function WalkAnswer(k: nat): Action {
    if k == 0 then AnswerBeast(0, [0, UNIT - 1]) else AnswerPinned(0, [k * UNIT + UNIT - 1])
  }

  lemma WalkClaims(k: nat)
    requires k <= 4
    ensures Step(VAST, FIRST, Walked(k), ClaimWork(0, UNIT, UNIT), WalkClaimed(k))
  {
  }

  lemma WalkAnswers(k: nat)
    requires k <= 4
    ensures Step(VAST, FIRST, WalkClaimed(k), WalkAnswer(k), WalkAnswered(k))
  {
    var r := Range(k * UNIT, k * UNIT + UNIT - 1);
    assert ChunkFor(VAST, r, WalkAnswer(k).raw, k == 0) == FullChunk(k);
    assert FoldSpan(UNIT, UNIT) == UNIT;
  }

  lemma WalkHandsOver(k: nat)
    requires k <= 4
    ensures Step(VAST, FIRST, WalkAnswered(k), Release(0), Freed(WalkAnswered(k)))
    ensures Step(VAST, FIRST, Freed(WalkAnswered(k)), Consume, Walked(k + 1))
  {
    var ready := map[k * UNIT := FullChunk(k)];
    assert ready - {k * UNIT} == map[];
    assert FullChunks(k) + [FullChunk(k)] == FullChunks(k + 1);
  }

  lemma {:induction false} WalkIsReachable(k: nat)
    requires k <= 5
    ensures Reachable(VAST, FIRST, Walked(k))
  {
    if k == 0 {
      StartIsReached(Steps(VAST, FIRST), Start(VAST));
      assert Start(VAST) == Walked(0);
    } else {
      var j: nat := k - 1;
      WalkIsReachable(j);
      WalkClaims(j);
      WalkAnswers(j);
      WalkHandsOver(j);
      hide Step, Reachable, Walked, WalkClaimed, WalkAnswered, Freed, WalkAnswer;
      Reaches(VAST, FIRST, Walked(j), ClaimWork(0, UNIT, UNIT), WalkClaimed(j));
      Reaches(VAST, FIRST, WalkClaimed(j), WalkAnswer(j), WalkAnswered(j));
      Reaches(VAST, FIRST, WalkAnswered(j), Release(0), Freed(WalkAnswered(j)));
      Reaches(VAST, FIRST, Freed(WalkAnswered(j)), Consume, Walked(k));
    }
  }

  // The sixth unit's answer covers one block and re-enters beast mode.
  const BASE: nat := 5 * UNIT
  const SPAN: nat := 98304
  const FIRST_GAP := Range(BASE + 1, BASE + SPAN)
  const SECOND_GAP := Range(BASE + SPAN + 1, BASE + UNIT - 1)

  ghost function Reentered(): State {
    State(Shared(BASE + UNIT, SPAN, 5, true, map[BASE := Chunk(BASE, BASE, [BASE])], BASE, [], 1, false),
          [Leftover(Range(BASE + 1, BASE + UNIT - 1))], FullChunks(5), 6)
  }

  ghost function Resplit(): State {
    Reentered().(sh := Reentered().sh.(gaps := [FIRST_GAP, SECOND_GAP]), pcs := [Finishing])
  }

  ghost function Shown(): seq<Chunk> { FullChunks(5) + [Chunk(BASE, BASE, [BASE])] }

  ghost function TwoGaps(): State {
    State(Shared(BASE + UNIT, SPAN, 5, true, map[], BASE + 1, [FIRST_GAP, SECOND_GAP], 0, false), [Idle], Shown(), 6)
  }

  lemma ReentryStep()
    ensures Step(VAST, FIRST, Walked(5), ClaimWork(0, UNIT, UNIT), WalkClaimed(5))
    ensures Step(VAST, FIRST, WalkClaimed(5), AnswerPinned(0, [BASE]), Reentered())
  {
    var r := Range(BASE, BASE + UNIT - 1);
    assert ChunkFor(VAST, r, [BASE], false) == Chunk(BASE, BASE, [BASE]);
    assert FoldSpan(UNIT, 1) == SPAN;
    assert RespondPinned(VAST, WalkClaimed(5).sh, r, [BASE]) == Reentered().sh;
  }

  lemma ResplitStep()
    ensures Step(VAST, FIRST, Reentered(), Requeue(0, SPAN), Resplit())
  {
    var rest := Range(BASE + 1, BASE + UNIT - 1);
    var units := [FIRST_GAP, SECOND_GAP];
    assert Split(BASE + SPAN + 1, rest.to, SPAN) == [SECOND_GAP] by {
      assert Split(rest.to + 1, rest.to, SPAN) == [];
    }
    assert Split(rest.from, rest.to, SPAN) == units;
    assert SortByFrom(units) == units by {
      assert units[1..] == [SECOND_GAP];
      assert SortByFrom(units[1..]) == Insert(SECOND_GAP, []);
    }
    assert [] + units == units;
  }

  lemma TwoGapsStep()
    ensures Step(VAST, FIRST, Resplit(), Release(0), Freed(Resplit()))
    ensures Step(VAST, FIRST, Freed(Resplit()), Consume, TwoGaps())
  {
    var ready := map[BASE := Chunk(BASE, BASE, [BASE])];
    assert ready - {BASE} == map[];
  }

  // A far jump from the first gap ends inside the second, whose answer then jumps on.
  const INSIDE: nat := BASE + 100000
  const BEYOND: nat := 1600000

  ghost function Leaps(): State {
    TwoGaps().(sh := TwoGaps().sh.(gaps := [SECOND_GAP], active := 1), pcs := [Fetching(FIRST_GAP)])
  }

  ghost function Leapt(): State {
    State(Shared(BASE + UNIT, SPAN, 6, true, map[BASE + 1 := Chunk(BASE + 1, INSIDE, [INSIDE])], BASE + 1,
                 [SECOND_GAP], 1, false),
          [Finishing], Shown(), 7)
  }

  ghost function Past(): State {
    State(Shared(BASE + UNIT, SPAN, 6, true, map[], INSIDE + 1, [SECOND_GAP], 0, false),
          [Idle], Shown() + [Chunk(BASE + 1, INSIDE, [INSIDE])], 7)
  }

  lemma LeapStep()
    ensures Step(VAST, FIRST, TwoGaps(), ClaimWork(0, SPAN, SPAN), Leaps())
    ensures Step(VAST, FIRST, Leaps(), AnswerBeast(0, [INSIDE]), Leapt())
  {
    assert ChunkFor(VAST, FIRST_GAP, [INSIDE], true) == Chunk(BASE + 1, INSIDE, [INSIDE]);
  }

  lemma PastStep()
    ensures Step(VAST, FIRST, Leapt(), Release(0), Freed(Leapt()))
    ensures Step(VAST, FIRST, Freed(Leapt()), Consume, Past())
  {
    var ready := map[BASE + 1 := Chunk(BASE + 1, INSIDE, [INSIDE])];
    assert ready - {BASE + 1} == map[];
  }

  ghost function LeapsAgain(): State {
    Past().(sh := Past().sh.(gaps := [], active := 1), pcs := [Fetching(SECOND_GAP)])
  }

  ghost function LeaptAgain(): State {
    State(Shared(BEYOND + 1, SPAN, 7, true, map[SECOND_GAP.from := Chunk(SECOND_GAP.from, BEYOND, [BEYOND])],
                 INSIDE + 1, [], 1, false),
          [Finishing], Past().emitted, 8)
  }

  lemma LeapAgainStep()
    ensures Step(VAST, FIRST, Past(), ClaimWork(0, SPAN, SPAN), LeapsAgain())
    ensures Step(VAST, FIRST, LeapsAgain(), AnswerBeast(0, [BEYOND]), LeaptAgain())
    ensures Step(VAST, FIRST, LeaptAgain(), Release(0), Freed(LeaptAgain()))
  {
    assert ChunkFor(VAST, SECOND_GAP, [BEYOND], true) == Chunk(SECOND_GAP.from, BEYOND, [BEYOND]);
  }

  /** Nothing in flight, nothing queued, the cursor beyond the window: the one worker waits
      for the consumer, and the consumer for a block that is inside a buffered chunk. */
  lemma WaitsForEver()
    ensures Stuck(VAST, FIRST, Freed(LeaptAgain())) && Stranded(Freed(LeaptAgain()))
  {
    var s := Freed(LeaptAgain());
    assert s.pcs[0].Idle?;
    forall a, s' ensures !Step(VAST, FIRST, s, a, s') {
      if a.ClaimWork? && a.w == 0 && Readable(s.sh, a.windowSpan) {
        assert WindowLimit(VAST, a.windowSpan) == SPAN * 8;
        assert Claim(VAST, s.sh, a.windowSpan, a.strideSpan).1 == Wait;
      }
    }
    assert SECOND_GAP.from in s.sh.ready;
  }

  /**
   A run of one worker that never ends its work: a far jump from a gap that did not end at
   the cursor leaves the consumer waiting for a block inside a chunk it will not be handed,
   and with the window exhausted no step is left.
   */
  lemma ReentryStalls()
    ensures var s := Freed(LeaptAgain());
            Reachable(VAST, FIRST, s) && Stuck(VAST, FIRST, s) && Stranded(s)
  {
    WalkIsReachable(5);
    ReentryStep();
    ResplitStep();
    TwoGapsStep();
    LeapStep();
    PastStep();
    LeapAgainStep();
    WaitsForEver();
    hide *;
    var cfg, world := VAST, FIRST;
    var claim := ClaimWork(0, SPAN, SPAN);
    Reaches(cfg, world, Walked(5), ClaimWork(0, UNIT, UNIT), WalkClaimed(5));
    Reaches(cfg, world, WalkClaimed(5), AnswerPinned(0, [BASE]), Reentered());
    Reaches(cfg, world, Reentered(), Requeue(0, SPAN), Resplit());
    Reaches(cfg, world, Resplit(), Release(0), Freed(Resplit()));
    Reaches(cfg, world, Freed(Resplit()), Consume, TwoGaps());
    Reaches(cfg, world, TwoGaps(), claim, Leaps());
    Reaches(cfg, world, Leaps(), AnswerBeast(0, [INSIDE]), Leapt());
    Reaches(cfg, world, Leapt(), Release(0), Freed(Leapt()));
    Reaches(cfg, world, Freed(Leapt()), Consume, Past());
    Reaches(cfg, world, Past(), claim, LeapsAgain());
    Reaches(cfg, world, LeapsAgain(), AnswerBeast(0, [BEYOND]), LeaptAgain());
    Reaches(cfg, world, LeaptAgain(), Release(0), Freed(LeaptAgain()));
  }
}
