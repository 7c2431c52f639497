/**
 What every tame run of the prefetcher guarantees: completeness, order and progress; and
 exactly when a beast-mode far jump is safe.
 */
module PrefetchRuns {
  import opened Tiling
  import opened Prefetcher
  import opened PrefetchProtocol
  import opened PrefetchInvariant
  import opened PrefetchProgress

  /** Every far jump of the run starts from a unit that ends at the cursor. */
  ghost predicate Tame(cfg: Config, states: seq<State>, acts: seq<Action>)
    requires |states| == |acts| + 1
  {
    forall i :: 0 <= i < |acts| ==> EndsAtCursor(cfg, states[i], acts[i])
  }

  /** Beast mode, once left, is never entered again. */
  ghost predicate NeverReengages(states: seq<State>) {
    forall i :: 0 <= i < |states| - 1 ==> (states[i + 1].sh.beast ==> states[i].sh.beast)
  }

  lemma {:induction false} TameRunKeeps(cfg: Config, world: set<nat>, states: seq<State>, acts: seq<Action>, n: nat)
    requires Run(cfg, world, states, acts) && Tame(cfg, states, acts) && n <= |acts|
    ensures Inv(cfg, world, states[n])
  {
    if n == 0 {
      StartHolds(cfg, world);
    } else {
      TameRunKeeps(cfg, world, states, acts, n - 1);
      StepKeeps(cfg, world, states[n - 1], acts[n - 1], states[n]);
    }
  }

  // ----- the initial probe -----

  /** While the initial probe lasts, whatever is held or queued ends at the cursor. */
  ghost predicate Probing(s: State) {
    s.sh.beast ==>
      && s.sh.gapSpan == GAP_MAX
      && (forall w :: 0 <= w < |s.pcs| ==> !s.pcs[w].Leftover?)
      && (forall w :: 0 <= w < |s.pcs| && s.pcs[w].Fetching? ==>
            s.sh.gaps == [] && s.pcs[w].range.to + 1 == s.sh.nextBlock
            && s.pcs[w].range.to < s.pcs[w].range.from + GAP_MAX)
      && |s.sh.gaps| <= 1
      && (s.sh.gaps != [] ==> s.sh.gaps[0].to + 1 == s.sh.nextBlock && s.sh.gaps[0].to < s.sh.gaps[0].from + GAP_MAX)
  }

  lemma NoneBusy(pcs: seq<Pc>)
    requires |BusyWorkers(pcs)| == 0
    ensures forall w :: 0 <= w < |pcs| ==> !pcs[w].Busy()
  {
    assert BusyWorkers(pcs) == {};
    forall w | 0 <= w < |pcs| ensures !pcs[w].Busy() {
      assert w !in BusyWorkers(pcs);
    }
  }

  lemma OnlyOneFetches(cfg: Config, s: State, w: nat)
    requires Wellformed(cfg, s) && s.sh.beast && w < |s.pcs| && s.pcs[w].Busy()
    ensures forall v :: 0 <= v < |s.pcs| && v != w ==> !s.pcs[v].Busy()
  {
    OnlyBusy(s.pcs, w);
    forall v | 0 <= v < |s.pcs| && v != w ensures !s.pcs[v].Busy() {
      assert v !in BusyWorkers(s.pcs);
    }
  }

  lemma ProbingClaim(cfg: Config, world: set<nat>, s: State, a: Action, s': State)
    requires Inv(cfg, world, s) && Probing(s) && a.ClaimWork? && Step(cfg, world, s, a, s')
    ensures Probing(s')
  {
    hide Tiles, Pieces, Sound;
    if s.sh.beast && Claim(cfg, s.sh, a.windowSpan, a.strideSpan).1.Unit? {
      NoneBusy(s.pcs);
      if s.sh.gaps != [] {
        GapBelowCursor(s);
      }
    }
  }

  lemma GapBelowCursor(s: State)
    requires Partitioned(s) && s.sh.gaps != []
    ensures s.sh.nextEmit <= s.sh.gaps[0].from <= s.sh.gaps[0].to < s.sh.nextBlock
  {
    var p := Queued(s.sh.gaps[0]);
    assert p in QueuedPieces(s.sh.gaps);
    assert Within(p, s.sh.nextEmit, s.sh.nextBlock);
  }

  lemma ProbingAnswer(cfg: Config, world: set<nat>, s: State, a: Action, s': State)
    requires Inv(cfg, world, s) && Probing(s) && a.AnswerBeast? && Step(cfg, world, s, a, s')
    ensures Probing(s')
  {
    hide Tiles, Pieces, Sound;
    var r := s.pcs[a.w].range;
    OnlyOneFetches(cfg, s, a.w);
    ProbingContainers(cfg, s.sh, r, a.raw);
  }

  lemma ProbingContainers(cfg: Config, s: Shared, r: Range, raw: seq<nat>)
    requires cfg.Holds(r) && s.beast && s.gapSpan == GAP_MAX && s.gaps == []
    requires r.to + 1 == s.nextBlock && r.to < r.from + GAP_MAX
    ensures var s' := RespondBeast(cfg, s, r, raw);
            s'.beast ==> && s'.gapSpan == GAP_MAX
                         && (s'.gaps == [] || (|s'.gaps| == 1 && s'.gaps[0].to + 1 == s'.nextBlock
                                               && s'.gaps[0].to < s'.gaps[0].from + GAP_MAX))
  {
    var covered := CoveredTo(cfg, r, raw, true);
    if covered < r.to {
      OneUnit(covered + 1, r.to);
      assert [] + Split(covered + 1, r.to, GAP_MAX) == [Range(covered + 1, r.to)];
      assert SortByFrom([Range(covered + 1, r.to)]) == [Range(covered + 1, r.to)];
    }
  }

  lemma OneUnit(from: nat, to: nat)
    requires from <= to < from + GAP_MAX
    ensures Split(from, to, GAP_MAX) == [Range(from, to)]
  {
    assert Split(to + 1, to, GAP_MAX) == [];
  }

  lemma ProbingKeeps(cfg: Config, world: set<nat>, s: State, a: Action, s': State)
    requires Inv(cfg, world, s) && Probing(s) && Step(cfg, world, s, a, s')
    requires s'.sh.beast ==> s.sh.beast
    ensures Probing(s')
  {
    hide Tiles, Pieces, Sound;
    match a
    case ClaimWork(_, _, _) => ProbingClaim(cfg, world, s, a, s');
    case AnswerBeast(_, _) => ProbingAnswer(cfg, world, s, a, s');
    case _ =>
  }

  /** A run that never re-enters beast mode is tame: the probe's far jumps are all safe. */
  lemma {:induction false} ProbeIsTame(cfg: Config, world: set<nat>, states: seq<State>, acts: seq<Action>, n: nat)
    requires Run(cfg, world, states, acts) && NeverReengages(states) && n <= |acts|
    ensures Inv(cfg, world, states[n]) && Probing(states[n])
    ensures forall i :: 0 <= i < n ==> EndsAtCursor(cfg, states[i], acts[i])
  {
    if n == 0 {
      StartHolds(cfg, world);
    } else {
      ProbeIsTame(cfg, world, states, acts, n - 1);
      StepKeeps(cfg, world, states[n - 1], acts[n - 1], states[n]);
      ProbingKeeps(cfg, world, states[n - 1], acts[n - 1], states[n]);
    }
  }

  // ----- the stream the consumer sees -----

  ghost function Stream(cs: seq<Chunk>): seq<nat> {
    if cs == [] then [] else cs[0].raw + Stream(cs[1..])
  }

  /** Contiguous faithful chunks concatenate to a strictly rising list of blocks of the
      covered interval that contains every matching block of it. */
  lemma {:induction false} StreamIsComplete(world: set<nat>, cs: seq<Chunk>, lo: nat, hi: nat)
    requires Contiguous(cs, lo, hi) && forall i :: 0 <= i < |cs| ==> Faithful(world, cs[i])
    ensures Rising(Stream(cs))
    ensures forall n :: n in Stream(cs) ==> lo <= n < hi
    ensures forall b :: b in world && lo <= b < hi ==> b in Stream(cs)
  {
    if cs != [] {
      var mid := cs[0].coveredTo + 1;
      var rest := cs[1..];
      assert Contiguous(rest, mid, hi) by {
        assert rest == [] ==> cs[|cs| - 1] == cs[0];
      }
      StreamIsComplete(world, rest, mid, hi);
      var head, tail := cs[0].raw, Stream(rest);
      forall i, j | 0 <= i < j < |head + tail| ensures (head + tail)[i] < (head + tail)[j] {
        if i < |head| <= j {
          assert head[i] in head && tail[j - |head|] in tail;
        }
      }
      assert lo < mid <= hi by {
        ContiguousGrows(rest, mid, hi);
      }
    }
  }

  lemma {:induction false} ContiguousGrows(cs: seq<Chunk>, lo: nat, hi: nat)
    requires Contiguous(cs, lo, hi)
    ensures lo <= hi
  {
    if |cs| > 1 {
      ContiguousGrows(cs[1..], cs[0].coveredTo + 1, hi);
    }
  }

  /** The prefetcher's promise, for any interleaving and any portal: the consumer receives
      contiguous chunks from the start block on; their concatenation is strictly rising and
      holds every matching block below the emission cursor. */
  lemma EmissionIsExactlyOnce(cfg: Config, world: set<nat>, states: seq<State>, acts: seq<Action>)
    requires Run(cfg, world, states, acts) && Tame(cfg, states, acts)
    ensures var s := states[|acts|];
            && Partitioned(s)
            && Contiguous(s.emitted, cfg.start, s.sh.nextEmit)
            && Rising(Stream(s.emitted))
            && (forall n :: n in Stream(s.emitted) ==> cfg.start <= n < s.sh.nextEmit)
            && (forall b :: b in world && cfg.start <= b < s.sh.nextEmit ==> b in Stream(s.emitted))
            && s.answered <= Span(cfg)
  {
    TameRunKeeps(cfg, world, states, acts, |acts|);
    AnswersStayWithinBudget(cfg, world, states, acts, |acts|);
    var s := states[|acts|];
    StreamIsComplete(world, s.emitted, cfg.start, s.sh.nextEmit);
  }

  /** Runs that leave beast mode for good are tame from their first answer on. */
  lemma UnengagedRunsAreTame(cfg: Config, world: set<nat>, states: seq<State>, acts: seq<Action>)
    requires Run(cfg, world, states, acts) && NeverReengages(states)
    ensures Tame(cfg, states, acts)
  {
    ProbeIsTame(cfg, world, states, acts, |acts|);
  }

  // ----- progress -----

  ghost predicate Done(s: State) {
    AllExited(s.pcs) && s.sh.ready.Keys == {}
  }

  /** When everything has stopped, the whole range has been emitted. */
  lemma DoneMeansComplete(cfg: Config, world: set<nat>, s: State)
    requires Inv(cfg, world, s) && Done(s)
    ensures s.sh.nextEmit == s.sh.nextBlock == Limit(cfg)
    ensures Contiguous(s.emitted, cfg.start, Limit(cfg))
  {
    ExitedMeansDrained(cfg, s);
    assert Pieces(s) == {};
    assert s.sh.nextEmit < s.sh.nextBlock ==> Owned(Pieces(s), s.sh.nextEmit);
  }

  ghost predicate CanStep(cfg: Config, world: set<nat>, s: State) {
    exists a, s' :: Step(cfg, world, s, a, s') && EndsAtCursor(cfg, s, a)
  }

  /** A holder of a unit can always move: a one-line body is a legal answer. */
  lemma HolderCanStep(cfg: Config, world: set<nat>, s: State, w: nat)
    requires Inv(cfg, world, s) && w < |s.pcs| && s.pcs[w].Busy()
    ensures CanStep(cfg, world, s)
  {
    hide Tiles, Pieces, Sound;
    match s.pcs[w]
    case Fetching(r) =>
      ClaimedHolds(cfg, s, w);
      var raw := [r.from];
      assert raw[|raw| - 1] == r.from;
      if s.sh.beast {
        var s' := s.(sh := RespondBeast(cfg, s.sh, r, raw), pcs := s.pcs[w := Finishing], answered := s.answered + 1);
        assert Step(cfg, world, s, AnswerBeast(w, raw), s');
      } else {
        var c := ChunkFor(cfg, r, raw, false);
        var s' := s.(sh := RespondPinned(cfg, s.sh, r, raw),
                     pcs := s.pcs[w := if c.coveredTo < r.to then Leftover(Range(c.coveredTo + 1, r.to))
                         else Finishing],
                     answered := s.answered + 1);
        assert Step(cfg, world, s, AnswerPinned(w, raw), s');
      }
    case Leftover(r) =>
      var span := ClampSpan(s.sh.gapSpan);
      var s' := s.(sh := Enqueue(s.sh, r.from, r.to, span), pcs := s.pcs[w := Finishing]);
      assert Step(cfg, world, s, Requeue(w, span), s');
    case Finishing =>
      assert w in BusyWorkers(s.pcs);
      var s' := s.(sh := Finish(s.sh), pcs := s.pcs[w := Idle]);
      assert Step(cfg, world, s, Release(w), s');
  }

  lemma IdleCanStep(cfg: Config, world: set<nat>, s: State, w: nat)
    requires Inv(cfg, world, s) && w < |s.pcs| && s.pcs[w].Idle?
    requires BusyWorkers(s.pcs) == {} && s.sh.nextEmit !in s.sh.ready
    ensures CanStep(cfg, world, s)
  {
    var span := ClampSpan(s.sh.gapSpan);
    LowestIsClaimable(cfg, world, s);
    var (sh, work) := Claim(cfg, s.sh, span, span);
    assert !work.Wait? by {
      hide Tiles, Pieces, Sound;
    }
    var s' := s.(sh := sh, pcs := s.pcs[w := if work.Unit? then Fetching(work.range) else Exited]);
    assert Step(cfg, world, s, ClaimWork(w, span, span), s');
  }

  /** With nothing in flight and the awaited chunk not buffered, either the lowest gap
      starts exactly at the emission cursor or nothing is queued and the two cursors meet. */
  lemma LowestIsClaimable(cfg: Config, world: set<nat>, s: State)
    requires Inv(cfg, world, s) && BusyWorkers(s.pcs) == {} && s.sh.nextEmit !in s.sh.ready
    ensures s.sh.gaps != [] ==> s.sh.gaps[0].from == s.sh.nextEmit
    ensures s.sh.gaps == [] ==> s.sh.nextBlock == s.sh.nextEmit
  {
    NoClaims(s.pcs);
    if s.sh.gaps != [] {
      GapBelowCursor(s);
    }
    if s.sh.nextEmit < s.sh.nextBlock {
      var p := LowestStartsAPiece(Pieces(s), s.sh.nextEmit, s.sh.nextBlock);
      hide Tiles;
      assert p !in BufferedPieces(s.sh.ready) by {
        assert forall k :: k in s.sh.ready ==> s.sh.ready[k].from == k;
      }
      var i :| 0 <= i < |s.sh.gaps| && s.sh.gaps[i] == p.range;
      assert s.sh.gaps[0].from <= s.sh.gaps[i].from;
    }
  }

  lemma NoClaims(pcs: seq<Pc>)
    requires BusyWorkers(pcs) == {}
    ensures ClaimedPieces(pcs) == {}
  {
    NoneBusy(pcs);
  }

  /** No state that satisfies the invariant is stuck before everything is done. */
  lemma NeverStuck(cfg: Config, world: set<nat>, s: State)
    requires Inv(cfg, world, s) && !Done(s)
    ensures CanStep(cfg, world, s)
  {
    if s.sh.nextEmit in s.sh.ready {
      var s' := s.(sh := Take(s.sh, s.sh.nextEmit), emitted := s.emitted + [s.sh.ready[s.sh.nextEmit]]);
      assert Step(cfg, world, s, Consume, s');
    } else if w :| w in BusyWorkers(s.pcs) {
      HolderCanStep(cfg, world, s, w);
    } else if AllExited(s.pcs) {
      assert Next(s.sh, true).1.Emitted?;
      NextIsInOrder(cfg, world, s);
    } else {
      var w :| 0 <= w < |s.pcs| && !s.pcs[w].Exited?;
      assert w !in BusyWorkers(s.pcs);
      IdleCanStep(cfg, world, s, w);
    }
  }

  /** A run that cannot go on has handed over the whole range, every matching block of it once. */
  lemma FinishedRunIsComplete(cfg: Config, world: set<nat>, states: seq<State>, acts: seq<Action>)
    requires Run(cfg, world, states, acts) && Tame(cfg, states, acts) && !CanStep(cfg, world, states[|acts|])
    ensures var s := states[|acts|];
            && Done(s) && Contiguous(s.emitted, cfg.start, Limit(cfg))
            && Rising(Stream(s.emitted))
            && forall b :: b in world && cfg.start <= b <= cfg.end ==> b in Stream(s.emitted)
  {
    var s := states[|acts|];
    TameRunKeeps(cfg, world, states, acts, |acts|);
    if !Done(s) {
      NeverStuck(cfg, world, s);
    }
    DoneMeansComplete(cfg, world, s);
    EmissionIsExactlyOnce(cfg, world, states, acts);
  }

  // ----- the look-ahead window -----

  function WindowBound(cfg: Config): nat {
    Max(GAP_MAX * cfg.workers * 8, cfg.MaxAhead()) + GAP_MAX
  }

  lemma WindowIsBounded(cfg: Config, span: nat)
    ensures WindowLimit(cfg, span) + GAP_MAX <= WindowBound(cfg)
  {
    TimesGrows(ClampSpan(span), GAP_MAX, cfg.workers);
  }

  lemma TimesGrows(a: nat, b: nat, w: nat)
    requires a <= b
    ensures a * w * 8 <= b * w * 8
  {
    assert (b - a) * w >= 0;
  }

  /** A beast answer that covers more than its unit. */
  ghost predicate JumpsFar(cfg: Config, s: State, a: Action) {
    && a.AnswerBeast? && a.w < |s.pcs| && s.pcs[a.w].Fetching? && cfg.Holds(s.pcs[a.w].range)
    && CoveredTo(cfg, s.pcs[a.w].range, a.raw, true) > s.pcs[a.w].range.to
  }

  /** Apart from far jumps, no step lets the cursor run further ahead of the consumer than
      the window and one stride. */
  lemma LookAheadStaysBounded(cfg: Config, world: set<nat>, s: State, a: Action, s': State)
    requires Inv(cfg, world, s) && Step(cfg, world, s, a, s') && !JumpsFar(cfg, s, a)
    requires s.sh.nextBlock <= s.sh.nextEmit + WindowBound(cfg)
    ensures s'.sh.nextBlock <= s'.sh.nextEmit + WindowBound(cfg)
  {
    match a
    case ClaimWork(_, windowSpan, _) => WindowIsBounded(cfg, windowSpan);
    case Consume =>
      NextIsInOrder(cfg, world, s);
      assert s.sh.nextEmit <= s.sh.ready[s.sh.nextEmit].coveredTo;
    case _ =>
  }

  /** A run without far jumps, such as any run of pinned requests, keeps the look-ahead
      bounded throughout. */
  lemma {:induction false} PinnedRunIsBounded(cfg: Config, world: set<nat>, states: seq<State>, acts: seq<Action>,
                                              n: nat)
    requires Run(cfg, world, states, acts) && n <= |acts|
    requires forall i :: 0 <= i < |acts| ==> !JumpsFar(cfg, states[i], acts[i])
    ensures states[n].sh.nextBlock - states[n].sh.nextEmit <= WindowBound(cfg)
  {
    hide Inv, Step, WindowBound;
    if n > 0 {
      PinnedRunIsBounded(cfg, world, states, acts, n - 1);
      TameRunKeeps(cfg, world, states, acts, n - 1);
      LookAheadStaysBounded(cfg, world, states[n - 1], acts[n - 1], states[n]);
    }
  }

  // ----- far jumps -----

  /** A far jump past a unit that did not end at the cursor overlaps the piece behind it. */
  lemma FarJumpOverlaps(cfg: Config, world: set<nat>, s: State, a: Action, s': State)
    requires Inv(cfg, world, s) && a.AnswerBeast? && Step(cfg, world, s, a, s')
    requires CoveredTo(cfg, s.pcs[a.w].range, a.raw, true) > s.pcs[a.w].range.to
    requires s.pcs[a.w].range.to + 1 < s.sh.nextBlock
    ensures !Partitioned(s')
  {
    var r := s.pcs[a.w].range;
    var c := ChunkFor(cfg, r, a.raw, true);
    ClaimedHolds(cfg, s, a.w);
    assert Owned(Pieces(s), r.to + 1);
    hide Sound, Wellformed;
    var x :| x in Pieces(s) && x.range.Contains(r.to + 1);
    AnswerBeastGaps(cfg, s, s', r, a.raw);
    AnswerTrades(s, a.w, s', c, BeastUnits(s', r, c.coveredTo));
    var q := Buffered(Range(r.from, c.coveredTo));
    hide Pieces, Step;
    assert x != Claimed(a.w, r) && x != q && x in Pieces(s') && q in Pieces(s');
    assert !Apart(x, q);
  }

  /** A far jump keeps the partition exactly when its unit ended at the cursor. */
  lemma FarJumpIsSafeIff(cfg: Config, world: set<nat>, s: State, a: Action, s': State)
    requires Inv(cfg, world, s) && a.AnswerBeast? && Step(cfg, world, s, a, s')
    requires CoveredTo(cfg, s.pcs[a.w].range, a.raw, true) > s.pcs[a.w].range.to
    ensures Partitioned(s') <==> s.pcs[a.w].range.to + 1 == s.sh.nextBlock
  {
    hide Tiles, Pieces, Sound, Partitioned;
    ClaimedHolds(cfg, s, a.w);
    if s.pcs[a.w].range.to + 1 == s.sh.nextBlock {
      AnswerBeastPartition(cfg, world, s, a, s');
    } else {
      FarJumpOverlaps(cfg, world, s, a, s');
    }
  }
}
