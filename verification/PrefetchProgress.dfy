/**
 Every run of the prefetcher is finite and answers no more requests than there are blocks,
 whatever the portal returns, unsafe far jumps included.
 */
module PrefetchProgress {
  import opened Tiling
  import opened Prefetcher
  import opened PrefetchProtocol

  // ----- sizes -----

  function Size(r: Range): nat { if r.from <= r.to then r.to + 1 - r.from else 0 }

  function SizeOf(gaps: seq<Range>): nat {
    if gaps == [] then 0 else Size(gaps[0]) + SizeOf(gaps[1..])
  }

  function Sum(pcs: seq<Pc>, weight: Pc -> nat): nat {
    if pcs == [] then 0 else weight(pcs[0]) + Sum(pcs[1..], weight)
  }

  lemma {:induction false} SumUpdate(pcs: seq<Pc>, w: nat, pc: Pc, weight: Pc -> nat)
    requires w < |pcs|
    ensures Sum(pcs[w := pc], weight) + weight(pcs[w]) == Sum(pcs, weight) + weight(pc)
  {
    if w > 0 {
      assert pcs[w := pc][1..] == pcs[1..][w - 1 := pc];
      SumUpdate(pcs[1..], w - 1, pc, weight);
    } else {
      assert pcs[0 := pc][1..] == pcs[1..];
    }
  }

  lemma {:induction false} SizeOfInsert(g: Range, gaps: seq<Range>)
    ensures SizeOf(Insert(g, gaps)) == Size(g) + SizeOf(gaps)
  {
    if gaps != [] && g.from >= gaps[0].from {
      SizeOfInsert(g, gaps[1..]);
      assert Insert(g, gaps)[1..] == Insert(g, gaps[1..]);
    } else {
      assert ([g] + gaps)[1..] == gaps;
    }
  }

  lemma {:induction false} SizeOfSorted(gaps: seq<Range>)
    ensures SizeOf(SortByFrom(gaps)) == SizeOf(gaps)
  {
    if gaps != [] {
      SizeOfSorted(gaps[1..]);
      SizeOfInsert(gaps[0], SortByFrom(gaps[1..]));
    }
  }

  lemma {:induction false} SizeOfBoth(a: seq<Range>, b: seq<Range>)
    ensures SizeOf(a + b) == SizeOf(a) + SizeOf(b)
  {
    if a == [] {
      assert a + b == b;
    } else {
      assert (a + b)[1..] == a[1..] + b;
      SizeOfBoth(a[1..], b);
    }
  }

  lemma {:induction false} SizeOfSplit(from: nat, to: nat, span: nat)
    requires span >= 1
    ensures SizeOf(Split(from, to, span)) == Size(Range(from, to))
    ensures forall g :: g in Split(from, to, span) ==> from <= g.from <= g.to <= to
    decreases 1 + to - from
  {
    if from <= to {
      var end := Min(from + span - 1, to);
      SizeOfSplit(end + 1, to, span);
      var units, rest := Split(from, to, span), Split(end + 1, to, span);
      assert units == [Range(from, end)] + rest && units[1..] == rest;
      hide Split;
    }
  }

  // ----- what every run keeps -----

  ghost predicate Fits(cfg: Config, r: Range) { r.from <= r.to <= cfg.end }

  /** Facts that need no partition, and so survive any far jump. */
  ghost predicate Loose(cfg: Config, s: State) {
    && cfg.start <= s.sh.nextBlock <= Limit(cfg)
    && (forall g :: g in s.sh.gaps ==> Fits(cfg, g))
    && (forall w :: 0 <= w < |s.pcs| && s.pcs[w].Holding() ==> Fits(cfg, s.pcs[w].range))
  }

  lemma {:induction false} InsertHolds(g: Range, gaps: seq<Range>)
    ensures forall x :: x in Insert(g, gaps) <==> x == g || x in gaps
  {
    if gaps != [] && g.from >= gaps[0].from {
      InsertHolds(g, gaps[1..]);
      assert gaps == [gaps[0]] + gaps[1..];
    }
  }

  lemma {:induction false} SortHolds(gaps: seq<Range>)
    ensures forall x :: x in SortByFrom(gaps) <==> x in gaps
  {
    if gaps != [] {
      SortHolds(gaps[1..]);
      InsertHolds(gaps[0], SortByFrom(gaps[1..]));
      assert gaps == [gaps[0]] + gaps[1..];
    }
  }

  /** Queueing a remainder adds its size and only ranges inside it. */
  lemma EnqueueAdds(s: Shared, from: nat, to: nat, span: nat)
    ensures var s' := Enqueue(s, from, to, span);
            && SizeOf(s'.gaps) == SizeOf(s.gaps) + Size(Range(from, to))
            && s' == s.(gaps := s'.gaps)
            && (forall g :: g in s.gaps ==> g in s'.gaps)
            && (forall g :: g in s'.gaps ==> g in s.gaps || from <= g.from <= g.to <= to)
  {
    var units := Split(from, to, ClampSpan(span));
    SizeOfSplit(from, to, ClampSpan(span));
    SizeOfBoth(s.gaps, units);
    SizeOfSorted(s.gaps + units);
    SortHolds(s.gaps + units);
    hide SortByFrom, Split, SizeOf;
  }

  /** A beast answer queues what it left of its unit. */
  lemma BeastQueues(cfg: Config, s: Shared, r: Range, raw: seq<nat>)
    requires cfg.Holds(r)
    ensures var s' := RespondBeast(cfg, s, r, raw);
            var c := ChunkFor(cfg, r, raw, true);
            && s'.ready == s.ready[r.from := c] && c.from == r.from <= c.coveredTo <= cfg.end
            && s'.nextEmit == s.nextEmit
            && s'.nextBlock == (if c.coveredTo > r.to then Max(s.nextBlock, c.coveredTo + 1) else s.nextBlock)
            && SizeOf(s'.gaps) == SizeOf(s.gaps) + (if c.coveredTo < r.to then r.to - c.coveredTo else 0)
            && (forall g :: g in s.gaps ==> g in s'.gaps)
            && (forall g :: g in s'.gaps ==> g in s.gaps || r.from < g.from <= g.to <= r.to)
            && (c.coveredTo > r.to ==> s'.gaps == s.gaps)
  {
    var covered := CoveredTo(cfg, r, raw, true);
    var s' := RespondBeast(cfg, s, r, raw);
    if covered < r.to {
      EnqueueAdds(s'.(gaps := s.gaps), covered + 1, r.to, s'.gapSpan);
    }
    hide SortByFrom, Split, SizeOf;
  }

  /** A beast answer's effect on the whole state. */
  lemma BeastEffect(cfg: Config, world: set<nat>, s: State, a: Action, s': State)
    requires a.AnswerBeast? && Step(cfg, world, s, a, s')
    ensures var r := s.pcs[a.w].range;
            var c := ChunkFor(cfg, r, a.raw, true);
            && s'.pcs == s.pcs[a.w := Finishing] && s'.emitted == s.emitted && s'.answered == s.answered + 1
            && s'.sh.ready == s.sh.ready[r.from := c] && c.from == r.from <= c.coveredTo <= cfg.end
            && s'.sh.nextEmit == s.sh.nextEmit
            && s'.sh.nextBlock == (if c.coveredTo > r.to then Max(s.sh.nextBlock, c.coveredTo + 1) else s.sh.nextBlock)
            && SizeOf(s'.sh.gaps) == SizeOf(s.sh.gaps) + (if c.coveredTo < r.to then r.to - c.coveredTo else 0)
            && (forall g :: g in s.sh.gaps ==> g in s'.sh.gaps)
            && (forall g :: g in s'.sh.gaps ==> g in s.sh.gaps || r.from < g.from <= g.to <= r.to)
            && (c.coveredTo > r.to ==> s'.sh.gaps == s.sh.gaps)
  {
    BeastQueues(cfg, s.sh, s.pcs[a.w].range, a.raw);
    hide RespondBeast, ChunkFor, SizeOf;
  }

  lemma RequeueEffect(cfg: Config, world: set<nat>, s: State, a: Action, s': State)
    requires a.Requeue? && Step(cfg, world, s, a, s')
    ensures var r := s.pcs[a.w].range;
            && s'.pcs == s.pcs[a.w := Finishing] && s' == s.(sh := s.sh.(gaps := s'.sh.gaps), pcs := s'.pcs)
            && SizeOf(s'.sh.gaps) == SizeOf(s.sh.gaps) + Size(r)
            && (forall g :: g in s.sh.gaps ==> g in s'.sh.gaps)
            && (forall g :: g in s'.sh.gaps ==> g in s.sh.gaps || r.from <= g.from <= g.to <= r.to)
  {
    EnqueueAdds(s.sh, s.pcs[a.w].range.from, s.pcs[a.w].range.to, a.span);
    hide SortByFrom, Split, SizeOf;
  }

  // ----- the measure -----

  ghost function HeldBy(): Pc -> nat { (pc: Pc) => if pc.Holding() then Size(pc.range) else 0 }
  ghost function LeftoverOf(): Pc -> nat { (pc: Pc) => if pc.Leftover? then 1 else 0 }
  ghost function BusyOf(): Pc -> nat { (pc: Pc) => if pc.Busy() then 1 else 0 }
  ghost function LiveOf(): Pc -> nat { (pc: Pc) => if pc.Exited? then 0 else 1 }

  /** Blocks waiting in gaps or behind the cursor. */
  ghost function Waiting(cfg: Config, s: State): nat
    requires s.sh.nextBlock <= Limit(cfg)
  {
    SizeOf(s.sh.gaps) + (Limit(cfg) - s.sh.nextBlock)
  }

  /** Blocks whose request has not been answered. */
  ghost function Outstanding(cfg: Config, s: State): nat
    requires s.sh.nextBlock <= Limit(cfg)
  {
    Waiting(cfg, s) + Sum(s.pcs, HeldBy())
  }

  ghost predicate Descends(cfg: Config, s: State, s': State)
    requires s.sh.nextBlock <= Limit(cfg) && s'.sh.nextBlock <= Limit(cfg)
  {
    (Outstanding(cfg, s), Sum(s.pcs, LeftoverOf()), Waiting(cfg, s),
     Sum(s.pcs, BusyOf()), Sum(s.pcs, LiveOf()), |s.sh.ready|
       decreases to
     Outstanding(cfg, s'), Sum(s'.pcs, LeftoverOf()), Waiting(cfg, s'),
     Sum(s'.pcs, BusyOf()), Sum(s'.pcs, LiveOf()), |s'.sh.ready|)
  }

  lemma SumsUpdate(pcs: seq<Pc>, w: nat, pc: Pc)
    requires w < |pcs|
    ensures Sum(pcs[w := pc], HeldBy()) + HeldBy()(pcs[w]) == Sum(pcs, HeldBy()) + HeldBy()(pc)
    ensures Sum(pcs[w := pc], LeftoverOf()) + LeftoverOf()(pcs[w]) == Sum(pcs, LeftoverOf()) + LeftoverOf()(pc)
    ensures Sum(pcs[w := pc], BusyOf()) + BusyOf()(pcs[w]) == Sum(pcs, BusyOf()) + BusyOf()(pc)
    ensures Sum(pcs[w := pc], LiveOf()) + LiveOf()(pcs[w]) == Sum(pcs, LiveOf()) + LiveOf()(pc)
  {
    SumUpdate(pcs, w, pc, HeldBy());
    SumUpdate(pcs, w, pc, LeftoverOf());
    SumUpdate(pcs, w, pc, BusyOf());
    SumUpdate(pcs, w, pc, LiveOf());
  }

  // ----- one step -----

  lemma ClaimDescends(cfg: Config, world: set<nat>, s: State, a: Action, s': State)
    requires Loose(cfg, s) && a.ClaimWork? && Step(cfg, world, s, a, s')
    ensures Loose(cfg, s') && s'.answered == s.answered && Outstanding(cfg, s') == Outstanding(cfg, s)
    ensures Descends(cfg, s, s')
  {
    SumsUpdate(s.pcs, a.w, s'.pcs[a.w]);
    hide Sum, SizeOf;
    if s.sh.gaps != [] {
      FirstGap(s.sh.gaps);
    }
  }

  lemma FirstGap(gaps: seq<Range>)
    requires gaps != []
    ensures SizeOf(gaps) == Size(gaps[0]) + SizeOf(gaps[1..]) && gaps[0] in gaps
    ensures forall g :: g in gaps[1..] ==> g in gaps
  {
  }

  lemma PinnedDescends(cfg: Config, world: set<nat>, s: State, a: Action, s': State)
    requires Loose(cfg, s) && a.AnswerPinned? && Step(cfg, world, s, a, s')
    ensures Loose(cfg, s') && s'.answered == s.answered + 1 && Outstanding(cfg, s') < Outstanding(cfg, s)
  {
    SumsUpdate(s.pcs, a.w, s'.pcs[a.w]);
    hide Sum, SizeOf;
  }

  lemma BeastDescends(cfg: Config, world: set<nat>, s: State, a: Action, s': State)
    requires Loose(cfg, s) && a.AnswerBeast? && Step(cfg, world, s, a, s')
    ensures Loose(cfg, s') && s'.answered == s.answered + 1 && Outstanding(cfg, s') < Outstanding(cfg, s)
  {
    BeastEffect(cfg, world, s, a, s');
    assert s.pcs[a.w].Fetching?;
    hide Step, Sum, SizeOf;
    SumsUpdate(s.pcs, a.w, Finishing);
  }

  lemma RequeueDescends(cfg: Config, world: set<nat>, s: State, a: Action, s': State)
    requires Loose(cfg, s) && a.Requeue? && Step(cfg, world, s, a, s')
    ensures Loose(cfg, s') && s'.answered == s.answered && Outstanding(cfg, s') == Outstanding(cfg, s)
    ensures Descends(cfg, s, s')
  {
    RequeueEffect(cfg, world, s, a, s');
    assert s.pcs[a.w].Leftover?;
    hide Step, Sum, SizeOf;
    SumsUpdate(s.pcs, a.w, Finishing);
  }

  lemma ReleaseDescends(cfg: Config, world: set<nat>, s: State, a: Action, s': State)
    requires Loose(cfg, s) && a.Release? && Step(cfg, world, s, a, s')
    ensures Loose(cfg, s') && s'.answered == s.answered && Outstanding(cfg, s') == Outstanding(cfg, s)
    ensures Descends(cfg, s, s')
  {
    SumsUpdate(s.pcs, a.w, Idle);
    hide Sum, SizeOf;
  }

  lemma ConsumeDescends(cfg: Config, world: set<nat>, s: State, a: Action, s': State)
    requires Loose(cfg, s) && a.Consume? && Step(cfg, world, s, a, s')
    ensures Loose(cfg, s') && s'.answered == s.answered && Outstanding(cfg, s') == Outstanding(cfg, s)
    ensures Descends(cfg, s, s')
  {
    var key: nat := if s.sh.nextEmit in s.sh.ready then s.sh.nextEmit else Least(s.sh.ready.Keys);
    assert s'.sh.ready == s.sh.ready - {key};
    OneLess(s.sh.ready, key);
    hide Sum, SizeOf;
  }

  lemma OneLess(ready: map<nat, Chunk>, key: nat)
    requires key in ready
    ensures |ready - {key}| == |ready| - 1
  {
    assert (ready - {key}).Keys == ready.Keys - {key};
    assert |ready - {key}| == |(ready - {key}).Keys|;
  }

  /** Each answer takes at least one block off the outstanding ones, no step adds any, and
      every step decreases the measure. */
  lemma StepDescends(cfg: Config, world: set<nat>, s: State, a: Action, s': State)
    requires Loose(cfg, s) && Step(cfg, world, s, a, s')
    ensures Loose(cfg, s') && Descends(cfg, s, s')
    ensures s'.answered + Outstanding(cfg, s') <= s.answered + Outstanding(cfg, s)
  {
    hide Outstanding, Loose, Sum, Step, Waiting;
    match a
    case ClaimWork(_, _, _) => ClaimDescends(cfg, world, s, a, s');
    case AnswerPinned(_, _) => PinnedDescends(cfg, world, s, a, s');
    case AnswerBeast(_, _) => BeastDescends(cfg, world, s, a, s');
    case Requeue(_, _) => RequeueDescends(cfg, world, s, a, s');
    case Release(_) => ReleaseDescends(cfg, world, s, a, s');
    case Consume => ConsumeDescends(cfg, world, s, a, s');
  }

  // ----- whole runs -----

  lemma {:induction false} NothingHeld(n: nat)
    ensures Sum(seq(n, i => Idle), HeldBy()) == 0
  {
    if n > 0 {
      assert seq(n, i => Idle)[1..] == seq(n - 1, i => Idle);
      NothingHeld(n - 1);
    }
  }

  lemma StartIsLoose(cfg: Config)
    ensures Loose(cfg, Start(cfg)) && Outstanding(cfg, Start(cfg)) == Span(cfg)
  {
    NothingHeld(cfg.workers);
  }

  lemma {:induction false} RunsAreLoose(cfg: Config, world: set<nat>, states: seq<State>, acts: seq<Action>, n: nat)
    requires Run(cfg, world, states, acts) && n <= |acts|
    ensures Loose(cfg, states[n]) && states[n].answered + Outstanding(cfg, states[n]) <= Span(cfg)
  {
    hide Loose, Outstanding, Span;
    if n == 0 {
      StartIsLoose(cfg);
    } else {
      RunsAreLoose(cfg, world, states, acts, n - 1);
      StepDescends(cfg, world, states[n - 1], acts[n - 1], states[n]);
    }
  }

  /** In every run, unsafe far jumps included, no more requests are answered than there are
      blocks in the range. */
  lemma AnswersStayWithinBudget(cfg: Config, world: set<nat>, states: seq<State>, acts: seq<Action>, n: nat)
    requires Run(cfg, world, states, acts) && n <= |acts|
    ensures states[n].answered <= Span(cfg)
  {
    RunsAreLoose(cfg, world, states, acts, n);
  }

  /** No run goes on for ever, whatever the portal answers and however the workers are
      scheduled. */
  lemma {:induction false} NoInfiniteRun(cfg: Config, world: set<nat>, states: nat -> State, acts: nat -> Action)
    requires cfg.Ok() && states(0) == Start(cfg)
    ensures exists i: nat :: !Step(cfg, world, states(i), acts(i), states(i + 1))
  {
    StartIsLoose(cfg);
    StopsAfter(cfg, world, states, acts, 0);
  }

  lemma {:induction false} StopsAfter(cfg: Config, world: set<nat>, states: nat -> State, acts: nat -> Action, n: nat)
    requires Loose(cfg, states(n))
    ensures exists i: nat :: n <= i && !Step(cfg, world, states(i), acts(i), states(i + 1))
    decreases Outstanding(cfg, states(n)), Sum(states(n).pcs, LeftoverOf()), Waiting(cfg, states(n)),
              Sum(states(n).pcs, BusyOf()), Sum(states(n).pcs, LiveOf()), |states(n).sh.ready|
  {
    hide Step, Outstanding, Sum, Waiting;
    if Step(cfg, world, states(n), acts(n), states(n + 1)) {
      StepDescends(cfg, world, states(n), acts(n), states(n + 1));
      StopsAfter(cfg, world, states, acts, n + 1);
    }
  }
}
