/**
 Re-entering beast mode (internal/ingestion/parallel_fetch.go): which re-entries keep the
 prefetcher's promises, and a run of one worker in which one does not.
 */
module PrefetchReentry {
  import opened Tiling
  import opened Transitions
  import opened Prefetcher
  import opened PrefetchProtocol
  import opened PrefetchInvariant
  import opened PrefetchRuns

  // ----- tame re-entries -----

  /**
   While beast mode lasts, at most one unit is held, left over or queued, and it ends at the
   cursor; a remainder still to be queued fits one span.
   */
  ghost predicate Serial(s: State) {
    s.sh.beast ==>
      && |s.sh.gaps| <= 1
      && (s.sh.gaps != [] ==> s.sh.gaps[0].to + 1 == s.sh.nextBlock)
      && forall w :: 0 <= w < |s.pcs| && s.pcs[w].Holding() ==>
           && s.sh.gaps == [] && s.pcs[w].range.to + 1 == s.sh.nextBlock
           && (s.pcs[w].Leftover? ==> s.pcs[w].range.to < s.pcs[w].range.from + ClampSpan(s.sh.gapSpan))
  }

  /** A remainder that is empty, or that ends at the cursor and fits one span. */
  predicate OneGap(covered: nat, r: Range, nextBlock: nat, span: nat) {
    covered >= r.to || (r.to + 1 == nextBlock && r.to - covered <= ClampSpan(span))
  }

  /** An answer that leaves no more than one gap behind it, when beast mode is on after it. */
  ghost predicate Calm(cfg: Config, s: State, a: Action) {
    match a
    case AnswerPinned(w, raw) =>
      w < |s.pcs| && s.pcs[w].Fetching? && cfg.Holds(s.pcs[w].range) && Engages(cfg, s.sh, s.pcs[w].range, raw) ==>
        var r := s.pcs[w].range;
        OneGap(CoveredTo(cfg, r, raw, false), r, s.sh.nextBlock, RespondPinned(cfg, s.sh, r, raw).gapSpan)
    case AnswerBeast(w, raw) =>
      w < |s.pcs| && s.pcs[w].Fetching? && cfg.Holds(s.pcs[w].range)
          && RespondBeast(cfg, s.sh, s.pcs[w].range, raw).beast ==>
        var r := s.pcs[w].range;
        OneGap(CoveredTo(cfg, r, raw, true), r, s.sh.nextBlock, s.sh.gapSpan)
    case _ => true
  }

  lemma OneUnitOf(from: nat, to: nat, span: nat)
    requires span >= 1 && from <= to < from + span
    ensures Split(from, to, span) == [Range(from, to)]
  {
    assert Split(to + 1, to, span) == [];
  }

  lemma QueueOne(s: Shared, from: nat, to: nat, span: nat)
    requires s.gaps == [] && from <= to < from + ClampSpan(span)
    ensures Enqueue(s, from, to, span) == s.(gaps := [Range(from, to)])
  {
    OneUnitOf(from, to, ClampSpan(span));
    assert [] + [Range(from, to)] == [Range(from, to)];
    assert SortByFrom([Range(from, to)]) == Insert(Range(from, to), SortByFrom([]));
  }

  lemma SerialClaim(cfg: Config, world: set<nat>, s: State, a: Action, s': State)
    requires Inv(cfg, world, s) && Serial(s) && a.ClaimWork? && Step(cfg, world, s, a, s')
    ensures Serial(s')
  {
    hide Tiles, Pieces, Sound;
    if s.sh.beast && Claim(cfg, s.sh, a.windowSpan, a.strideSpan).1.Unit? {
      NoneBusy(s.pcs);
      if s.sh.gaps != [] {
        GapBelowCursor(s);
        assert s'.sh.gaps == [];
      }
    }
  }

  lemma SerialPinned(cfg: Config, world: set<nat>, s: State, a: Action, s': State)
    requires Inv(cfg, world, s) && Serial(s) && a.AnswerPinned? && Step(cfg, world, s, a, s') && Calm(cfg, s, a)
    ensures Serial(s')
  {
    hide Tiles, Pieces, Sound;
    if s'.sh.beast {
      assert a.w in BusyWorkers(s.pcs);
      OnlyBusyOne(s.pcs, a.w);
    }
  }

  /** One busy worker at most means no other. */
  lemma OnlyBusyOne(pcs: seq<Pc>, w: nat)
    requires w < |pcs| && pcs[w].Busy() && |BusyWorkers(pcs)| <= 1
    ensures forall v :: 0 <= v < |pcs| && v != w ==> !pcs[v].Busy()
  {
    OnlyBusy(pcs, w);
    forall v | 0 <= v < |pcs| && v != w ensures !pcs[v].Busy() {
      assert v !in BusyWorkers(pcs);
    }
  }

  lemma SerialBeast(cfg: Config, world: set<nat>, s: State, a: Action, s': State)
    requires Inv(cfg, world, s) && Serial(s) && a.AnswerBeast? && Step(cfg, world, s, a, s') && Calm(cfg, s, a)
    ensures Serial(s')
  {
    hide Tiles, Pieces, Sound;
    var r := s.pcs[a.w].range;
    OnlyOneFetches(cfg, s, a.w);
    if s'.sh.beast {
      var covered := CoveredTo(cfg, r, a.raw, true);
      if covered < r.to {
        QueueOne(s'.sh.(gaps := []), covered + 1, r.to, s.sh.gapSpan);
      }
    }
  }

  lemma SerialRequeue(cfg: Config, world: set<nat>, s: State, a: Action, s': State)
    requires Inv(cfg, world, s) && Serial(s) && a.Requeue? && Step(cfg, world, s, a, s')
    ensures Serial(s')
  {
    hide Tiles, Pieces, Sound;
    if s.sh.beast {
      var r := s.pcs[a.w].range;
      ClaimedHolds(cfg, s, a.w);
      OnlyOneFetches(cfg, s, a.w);
      QueueOne(s.sh, r.from, r.to, a.span);
    }
  }

  lemma SerialKeeps(cfg: Config, world: set<nat>, s: State, a: Action, s': State)
    requires Inv(cfg, world, s) && Serial(s) && Step(cfg, world, s, a, s') && Calm(cfg, s, a)
    ensures Serial(s') && EndsAtCursor(cfg, s, a)
  {
    match a
    case ClaimWork(_, _, _) => SerialClaim(cfg, world, s, a, s');
    case AnswerPinned(_, _) => SerialPinned(cfg, world, s, a, s');
    case AnswerBeast(_, _) => SerialBeast(cfg, world, s, a, s');
    case Requeue(_, _) => SerialRequeue(cfg, world, s, a, s');
    case _ =>
  }

  /**
   Runs may re-enter beast mode as often as they like: as long as no answer taken or entering
   beast mode leaves more than one gap behind it, or one away from the cursor, every far jump
   is safe and the run keeps all promises of tame runs.
   */
  lemma {:induction false} CalmRunsAreTame(cfg: Config, world: set<nat>, states: seq<State>, acts: seq<Action>, n: nat)
    requires Run(cfg, world, states, acts) && n <= |acts|
    requires forall i :: 0 <= i < |acts| ==> Calm(cfg, states[i], acts[i])
    ensures Inv(cfg, world, states[n]) && Serial(states[n])
    ensures forall i :: 0 <= i < n ==> EndsAtCursor(cfg, states[i], acts[i])
  {
    hide Inv, Serial, Step, Calm, EndsAtCursor;
    if n == 0 {
      StartHolds(cfg, world);
      StartIsSerial(cfg);
    } else {
      CalmRunsAreTame(cfg, world, states, acts, n - 1);
      SerialKeeps(cfg, world, states[n - 1], acts[n - 1], states[n]);
      StepKeeps(cfg, world, states[n - 1], acts[n - 1], states[n]);
    }
  }

  lemma StartIsSerial(cfg: Config)
    ensures Serial(Start(cfg))
  {
  }

  // ----- unsafe re-entries -----

  /** The matching blocks of an interval in order, and its last block. */
  ghost function FullBody(world: set<nat>, from: nat, end: nat): seq<nat>
    decreases 1 + end - from
  {
    if from > end then []
    else (if from in world || from == end then [from] else []) + FullBody(world, from + 1, end)
  }

  lemma {:induction false} FullBodyAnswers(world: set<nat>, from: nat, end: nat)
    requires from <= end
    ensures var raw := FullBody(world, from, end);
            raw != [] && raw[|raw| - 1] == end && Answers(world, raw, from, end)
            && forall b :: b in world && from <= b <= end ==> b in raw
    decreases end - from
  {
    var raw := FullBody(world, from, end);
    var rest := FullBody(world, from + 1, end);
    if from == end {
      assert rest == [] && raw == [end];
    } else {
      FullBodyAnswers(world, from + 1, end);
      forall i, j | 0 <= i < j < |raw| ensures raw[i] < raw[j] {
        if from in world {
          assert raw[j] == rest[j - 1] && rest[j - 1] in rest;
          assert i > 0 ==> raw[i] == rest[i - 1];
        }
      }
    }
  }

  /** A worker claims its next unit, and the portal answers it. */
  ghost predicate ClaimedAndAnswered(cfg: Config, world: set<nat>, s: State, w: nat, raw: seq<nat>, s1: State,
                                     s2: State) {
    && Step(cfg, world, s, ClaimWork(w, ClampSpan(s.sh.gapSpan), ClampSpan(s.sh.gapSpan)), s1)
    && Step(cfg, world, s1, AnswerBeast(w, raw), s2)
  }

  ghost predicate FirstGapIsClaimable(cfg: Config, s: State) {
    && s.sh.beast && s.sh.active == 0 && s.sh.gaps != []
    && s.sh.gaps[0].from <= s.sh.nextEmit + WindowLimit(cfg, s.sh.gapSpan)
  }

  lemma GapClaim(cfg: Config, world: set<nat>, s: State, w: nat, s1: State)
    requires Inv(cfg, world, s) && FirstGapIsClaimable(cfg, s) && w < |s.pcs| && s.pcs[w].Idle?
    requires s1 == s.(sh := s.sh.(gaps := s.sh.gaps[1..], active := 1), pcs := s.pcs[w := Fetching(s.sh.gaps[0])])
    ensures Step(cfg, world, s, ClaimWork(w, ClampSpan(s.sh.gapSpan), ClampSpan(s.sh.gapSpan)), s1)
    ensures Inv(cfg, world, s1)
  {
    var a := ClaimWork(w, ClampSpan(s.sh.gapSpan), ClampSpan(s.sh.gapSpan));
    assert Step(cfg, world, s, a, s1) by {
      hide Tiles, Pieces, Sound;
    }
    hide Inv, Step;
    ClaimKeeps(cfg, world, s, a, s1);
  }

  /** Behind a gap that ends short of the cursor, the portal may answer up to the last block. */
  lemma FarAnswer(cfg: Config, world: set<nat>, s: State, w: nat) returns (raw: seq<nat>, s': State)
    requires Inv(cfg, world, s) && s.sh.beast && w < |s.pcs| && s.pcs[w].Fetching?
    requires s.pcs[w].range.to + 1 < s.sh.nextBlock
    ensures Step(cfg, world, s, AnswerBeast(w, raw), s') && !Partitioned(s')
  {
    var r := s.pcs[w].range;
    ClaimedHolds(cfg, s, w);
    FullBodyAnswers(world, r.from, cfg.end);
    raw := FullBody(world, r.from, cfg.end);
    s' := s.(sh := RespondBeast(cfg, s.sh, r, raw), pcs := s.pcs[w := Finishing], answered := s.answered + 1);
    assert CoveredTo(cfg, r, raw, true) == cfg.end;
    hide Inv;
    FarJumpOverlaps(cfg, world, s, AnswerBeast(w, raw), s');
  }

  /**
   Once beast mode is on and nothing is in flight, the next unit is the first queued gap.
   Whatever the portal answers leaves the blocks partitioned if and only if that gap ends
   at the cursor.  Since gaps are queued in order, this is the last gap: beast mode is safe
   exactly with a single gap, and only when nothing lies between that gap and the cursor.
   */
  lemma FirstGapIsSafeIff(cfg: Config, world: set<nat>, s: State, w: nat)
    requires Inv(cfg, world, s) && FirstGapIsClaimable(cfg, s) && w < |s.pcs| && s.pcs[w].Idle?
    ensures s.sh.gaps[0].to + 1 == s.sh.nextBlock <==>
            forall raw, s1, s2 :: ClaimedAndAnswered(cfg, world, s, w, raw, s1, s2) ==> Partitioned(s2)
    ensures s.sh.gaps[0].to + 1 == s.sh.nextBlock ==> |s.sh.gaps| == 1
  {
    hide Inv, Step, Partitioned, WindowLimit;
    var g := s.sh.gaps[0];
    var t := s.(sh := s.sh.(gaps := s.sh.gaps[1..], active := 1), pcs := s.pcs[w := Fetching(g)]);
    GapClaim(cfg, world, s, w, t);
    GapsBelowCursor(cfg, world, s);
    forall raw, s1, s2 | ClaimedAndAnswered(cfg, world, s, w, raw, s1, s2) && g.to + 1 == s.sh.nextBlock
      ensures Partitioned(s2)
    {
      ClaimIsDetermined(cfg, world, s, w, s1, t);
      BeastAtCursor(cfg, world, t, AnswerBeast(w, raw), s2);
    }
    if g.to + 1 != s.sh.nextBlock {
      var raw, s2 := FarAnswer(cfg, world, t, w);
      assert ClaimedAndAnswered(cfg, world, s, w, raw, t, s2);
    }
  }

  lemma ClaimIsDetermined(cfg: Config, world: set<nat>, s: State, w: nat, s1: State, s2: State)
    requires var span := ClampSpan(s.sh.gapSpan);
             Step(cfg, world, s, ClaimWork(w, span, span), s1) && Step(cfg, world, s, ClaimWork(w, span, span), s2)
    ensures s1 == s2
  {
  }

  lemma BeastAtCursor(cfg: Config, world: set<nat>, s: State, a: Action, s': State)
    requires Inv(cfg, world, s) && a.AnswerBeast? && Step(cfg, world, s, a, s')
    requires a.w < |s.pcs| && s.pcs[a.w].Fetching? && s.pcs[a.w].range.to + 1 == s.sh.nextBlock
    ensures Partitioned(s')
  {
    AnswerBeastPartition(cfg, world, s, a, s');
  }

  lemma GapsBelowCursor(cfg: Config, world: set<nat>, s: State)
    requires Inv(cfg, world, s) && s.sh.gaps != []
    ensures s.sh.gaps[0].from <= s.sh.gaps[0].to < s.sh.nextBlock
    ensures s.sh.gaps[0].to + 1 == s.sh.nextBlock ==> |s.sh.gaps| == 1
  {
    GapBelowCursor(s);
    if |s.sh.gaps| > 1 {
      var p, q := Queued(s.sh.gaps[0]), Queued(s.sh.gaps[1]);
      assert p in QueuedPieces(s.sh.gaps) && q in QueuedPieces(s.sh.gaps);
      assert Within(q, s.sh.nextEmit, s.sh.nextBlock) && Apart(p, q);
    }
  }

  // ----- one worker hands a block over twice -----

  const LAST: nat := 40000

  /** One worker, blocks 0 to 40000, and only the last one matching. */
  const DRIBBLE := Config(0, LAST, DEFAULT_PAGE_SIZE, 1, false)

  ghost const ONE_MATCH: set<nat> := {LAST}

  /** The span estimate after k answers that covered one block each. */
  ghost function Estimate(k: nat): nat
    requires k <= 5
  {
    [131072, 98304, 73728, 55296, 41472, 31104][k]
  }

  ghost function Singles(k: nat): seq<Chunk> {
    seq(k, i requires 0 <= i => Chunk(i, i, [i]))
  }

  /** The queue after k such answers; the fifth remainder no longer fits one span. */
  ghost function Remainder(k: nat): seq<Range>
    requires k <= 5
  {
    if k == 0 then [] else if k < 5 then [Range(k, LAST)] else [Range(5, 31108), Range(31109, LAST)]
  }

  /** After k rounds; the fifth leaves beast mode on. */
  ghost function Rounds(k: nat): State
    requires k <= 5
  {
    State(Shared(if k == 0 then 0 else LAST + 1, Estimate(k), k, k == 5, map[], k, Remainder(k), 0, false),
          [Idle], Singles(k), k)
  }

  ghost function Taken(k: nat): State
    requires k <= 4
  {
    State(Shared(LAST + 1, Estimate(k), k, false, map[], k, [], 1, false), [Fetching(Range(k, LAST))], Singles(k), k)
  }

  ghost function Answered(k: nat): State
    requires k <= 4
  {
    State(Shared(LAST + 1, Estimate(k + 1), k + 1, k == 4, map[k := Chunk(k, k, [k])], k, [], 1, false),
          [Leftover(Range(k + 1, LAST))], Singles(k), k + 1)
  }

  ghost function Requeued(k: nat): State
    requires k <= 4
  {
    Answered(k).(sh := Answered(k).sh.(gaps := Remainder(k + 1)), pcs := [Finishing])
  }

  ghost function Released(k: nat): State
    requires k <= 4
  {
    Requeued(k).(sh := Requeued(k).sh.(active := 0), pcs := [Idle])
  }

  lemma RoundClaims(k: nat)
    requires k <= 4
    ensures Step(DRIBBLE, ONE_MATCH, Rounds(k), ClaimWork(0, Estimate(k), Estimate(k)), Taken(k))
  {
  }

  lemma RoundAnswers(k: nat)
    requires k <= 4
    ensures Step(DRIBBLE, ONE_MATCH, Taken(k), AnswerPinned(0, [k]), Answered(k))
  {
    var r := Range(k, LAST);
    assert CoveredTo(DRIBBLE, r, [k], false) == k;
    assert ChunkFor(DRIBBLE, r, [k], false) == Chunk(k, k, [k]);
    assert FoldSpan(Estimate(k), 1) == Estimate(k + 1);
    assert RespondPinned(DRIBBLE, Taken(k).sh, r, [k]) == Answered(k).sh;
  }

  lemma RoundRequeues(k: nat)
    requires k <= 4
    ensures Step(DRIBBLE, ONE_MATCH, Answered(k), Requeue(0, Estimate(k + 1)), Requeued(k))
  {
    if k < 4 {
      QueueOne(Answered(k).sh, k + 1, LAST, Estimate(k + 1));
    } else {
      OneUnitOf(31109, LAST, 31104);
      var units := [Range(5, 31108), Range(31109, LAST)];
      assert Split(5, LAST, 31104) == units;
      assert SortByFrom(units) == units by {
        assert units[1..] == [Range(31109, LAST)];
        assert SortByFrom(units[1..]) == Insert(Range(31109, LAST), []);
      }
      assert [] + units == units;
    }
  }

  lemma RoundReleases(k: nat)
    requires k <= 4
    ensures Step(DRIBBLE, ONE_MATCH, Requeued(k), Release(0), Released(k))
    ensures Step(DRIBBLE, ONE_MATCH, Released(k), Consume, Rounds(k + 1))
  {
    var ready := map[k := Chunk(k, k, [k])];
    assert ready - {k} == map[];
    assert Singles(k) + [ready[k]] == Singles(k + 1);
  }

  lemma {:induction false} RoundsAreReached(k: nat)
    requires k <= 5
    ensures Reachable(DRIBBLE, ONE_MATCH, Rounds(k))
  {
    if k == 0 {
      StartIsReached(Steps(DRIBBLE, ONE_MATCH), Start(DRIBBLE));
      assert Start(DRIBBLE) == Rounds(0);
    } else {
      hide Step, Reachable;
      var j: nat := k - 1;
      RoundsAreReached(j);
      RoundClaims(j);
      RoundAnswers(j);
      RoundRequeues(j);
      RoundReleases(j);
      hide Rounds, Taken, Answered, Requeued, Released;
      Reaches(DRIBBLE, ONE_MATCH, Rounds(j), ClaimWork(0, Estimate(j), Estimate(j)), Taken(j));
      Reaches(DRIBBLE, ONE_MATCH, Taken(j), AnswerPinned(0, [j]), Answered(j));
      Reaches(DRIBBLE, ONE_MATCH, Answered(j), Requeue(0, Estimate(j + 1)), Requeued(j));
      Reaches(DRIBBLE, ONE_MATCH, Requeued(j), Release(0), Released(j));
      Reaches(DRIBBLE, ONE_MATCH, Released(j), Consume, Rounds(k));
    }
  }

  // Beast mode claims [5, 31108], and the answer jumps to block 40000 over the second gap.
  ghost const WIDE := Chunk(5, LAST, [LAST])
  ghost const AGAIN := Chunk(31109, LAST, [LAST])

  ghost function BeastClaims(): State {
    Rounds(5).(sh := Rounds(5).sh.(gaps := [Range(31109, LAST)], active := 1), pcs := [Fetching(Range(5, 31108))])
  }

  ghost function Jumped(): State {
    State(Shared(LAST + 1, 31104, 6, true, map[5 := WIDE], 5, [Range(31109, LAST)], 1, false),
          [Finishing], Singles(5), 6)
  }

  lemma JumpBreaks()
    ensures Step(DRIBBLE, ONE_MATCH, Rounds(5), ClaimWork(0, 31104, 31104), BeastClaims())
    ensures Step(DRIBBLE, ONE_MATCH, BeastClaims(), AnswerBeast(0, [LAST]), Jumped())
    ensures !Partitioned(Jumped())
  {
    var r := Range(5, 31108);
    assert ChunkFor(DRIBBLE, r, [LAST], true) == WIDE;
    assert RespondBeast(DRIBBLE, BeastClaims().sh, r, [LAST]) == Jumped().sh;
    var s := Jumped();
    var p, q := Buffered(Range(5, LAST)), Queued(Range(31109, LAST));
    assert 5 in s.sh.ready && p in BufferedPieces(s.sh.ready);
    assert s.sh.gaps[0] in s.sh.gaps && q in QueuedPieces(s.sh.gaps);
    assert !Apart(p, q);
  }

  ghost function JumpedOver(): State {
    State(Shared(LAST + 1, 31104, 6, true, map[], LAST + 1, [Range(31109, LAST)], 0, false),
          [Idle], Singles(5) + [WIDE], 6)
  }

  lemma JumpIsEmitted()
    ensures var s := Jumped().(sh := Jumped().sh.(active := 0), pcs := [Idle]);
            && Step(DRIBBLE, ONE_MATCH, Jumped(), Release(0), s)
            && Step(DRIBBLE, ONE_MATCH, s, Consume, JumpedOver())
  {
    var ready := map[5 := WIDE];
    assert ready - {5} == map[];
  }

  ghost function Refetched(pc: Pc, active: nat): State {
    State(Shared(LAST + 1, 31104, 7, true, map[31109 := AGAIN], LAST + 1, [], active, pc.Exited?),
          [pc], Singles(5) + [WIDE], 7)
  }

  lemma SecondGapIsFetched()
    ensures var s := JumpedOver().(sh := JumpedOver().sh.(gaps := [], active := 1),
            pcs := [Fetching(Range(31109, LAST))]);
            && Step(DRIBBLE, ONE_MATCH, JumpedOver(), ClaimWork(0, 31104, 31104), s)
            && Step(DRIBBLE, ONE_MATCH, s, AnswerBeast(0, [LAST]), Refetched(Finishing, 1))
    ensures Step(DRIBBLE, ONE_MATCH, Refetched(Finishing, 1), Release(0), Refetched(Idle, 0))
    ensures Step(DRIBBLE, ONE_MATCH, Refetched(Idle, 0), ClaimWork(0, 31104, 31104), Refetched(Exited, 0))
  {
    var r := Range(31109, LAST);
    assert ChunkFor(DRIBBLE, r, [LAST], true) == AGAIN;
  }

  ghost function Twice(): State {
    State(Shared(LAST + 1, 31104, 7, true, map[], LAST + 1, [], 0, true), [Exited], Singles(5) + [WIDE] + [AGAIN], 7)
  }

  lemma SecondChunkIsEmitted()
    ensures Step(DRIBBLE, ONE_MATCH, Refetched(Exited, 0), Consume, Twice())
  {
    var ready := map[31109 := AGAIN];
    assert ready - {31109} == map[];
    assert 31109 in ready.Keys;
    assert Least(ready.Keys) in ready.Keys;
  }

  lemma TwiceStream()
    ensures Stream(Twice().emitted) == [0, 1, 2, 3, 4, LAST, LAST]
  {
    StreamAppends(Singles(5) + [WIDE], AGAIN);
    StreamAppends(Singles(5), WIDE);
    StreamOfSingles(5);
  }

  lemma {:induction false} StreamAppends(cs: seq<Chunk>, c: Chunk)
    ensures Stream(cs + [c]) == Stream(cs) + c.raw
  {
    if cs == [] {
      assert cs + [c] == [c];
      assert Stream([c]) == c.raw + Stream([]);
    } else {
      assert (cs + [c])[1..] == cs[1..] + [c];
      StreamAppends(cs[1..], c);
    }
  }

  lemma {:induction false} StreamOfSingles(k: nat)
    ensures Stream(Singles(k)) == seq(k, i => i)
  {
    if k == 0 {
    } else {
      StreamOfSingles(k - 1);
      assert Singles(k) == Singles(k - 1) + [Chunk(k - 1, k - 1, [k - 1])];
      StreamAppends(Singles(k - 1), Chunk(k - 1, k - 1, [k - 1]));
    }
  }

  /**
   A run of one worker in which beast mode is re-entered with a remainder of two spans: a
   far jump breaks the partition, everything still stops, and the consumer has then
   received the matching block 40000 twice.
   */
  lemma ReentryHandsOverTwice()
    ensures Reachable(DRIBBLE, ONE_MATCH, Jumped()) && !Partitioned(Jumped())
    ensures Reachable(DRIBBLE, ONE_MATCH, Twice()) && Done(Twice())
    ensures Stream(Twice().emitted) == [0, 1, 2, 3, 4, LAST, LAST]
  {
    TwiceStream();
    RoundsAreReached(5);
    JumpBreaks();
    JumpIsEmitted();
    SecondGapIsFetched();
    SecondChunkIsEmitted();
    hide Step, Reachable, Partitioned, Stream, Singles;
    var cfg, world := DRIBBLE, ONE_MATCH;
    var claim, far := ClaimWork(0, 31104, 31104), AnswerBeast(0, [LAST]);
    Reaches(cfg, world, Rounds(5), claim, BeastClaims());
    Reaches(cfg, world, BeastClaims(), far, Jumped());
    var idle := Jumped().(sh := Jumped().sh.(active := 0), pcs := [Idle]);
    Reaches(cfg, world, Jumped(), Release(0), idle);
    Reaches(cfg, world, idle, Consume, JumpedOver());
    var held := JumpedOver().(sh := JumpedOver().sh.(gaps := [], active := 1), pcs := [Fetching(Range(31109, LAST))]);
    Reaches(cfg, world, JumpedOver(), claim, held);
    Reaches(cfg, world, held, far, Refetched(Finishing, 1));
    Reaches(cfg, world, Refetched(Finishing, 1), Release(0), Refetched(Idle, 0));
    Reaches(cfg, world, Refetched(Idle, 0), claim, Refetched(Exited, 0));
    Reaches(cfg, world, Refetched(Exited, 0), Consume, Twice());
  }
}
