/**
 What an unsafe far jump costs once a run has stopped: its emission is contiguous exactly when
 every far jump started at the cursor.
 */
module PrefetchConverse {
  import opened Tiling
  import opened Prefetcher
  import opened PrefetchProtocol
  import opened PrefetchInvariant
  import opened PrefetchProgress
  import opened PrefetchRuns

  // ----- what holds without the partition -----

  /** Facts about the containers that survive any far jump. */
  ghost predicate Tidy(cfg: Config, s: State) {
    && Loose(cfg, s)
    && s.sh.active == |BusyWorkers(s.pcs)|
    && (s.sh.stopClaim ==> s.sh.gaps == [] && s.sh.active == 0)
    && (forall w :: 0 <= w < |s.pcs| && s.pcs[w].Exited? ==> s.sh.stopClaim)
    && (forall k :: k in s.sh.ready ==> s.sh.ready[k].from == k)
  }

  lemma InvIsTidy(cfg: Config, world: set<nat>, s: State)
    requires Inv(cfg, world, s)
    ensures Tidy(cfg, s)
  {
    forall w | 0 <= w < |s.pcs| && s.pcs[w].Holding() ensures Fits(cfg, s.pcs[w].range) {
      ClaimedHolds(cfg, s, w);
    }
    forall g | g in s.sh.gaps ensures Fits(cfg, g) {
      assert Queued(g) in QueuedPieces(s.sh.gaps);
      assert Within(Queued(g), s.sh.nextEmit, s.sh.nextBlock);
    }
  }

  lemma SomeoneBusy(s: State, w: nat)
    requires w < |s.pcs| && s.pcs[w].Busy()
    ensures |BusyWorkers(s.pcs)| >= 1
  {
    assert w in BusyWorkers(s.pcs);
  }

  lemma TidyKeeps(cfg: Config, world: set<nat>, s: State, a: Action, s': State)
    requires Tidy(cfg, s) && Step(cfg, world, s, a, s')
    ensures Tidy(cfg, s')
  {
    StepDescends(cfg, world, s, a, s');
    ActiveKeeps(cfg, world, s, a, s');
    StopKeeps(cfg, world, s, a, s');
    hide Step, Loose, Descends, Outstanding, BusyWorkers;
  }

  lemma ActiveKeeps(cfg: Config, world: set<nat>, s: State, a: Action, s': State)
    requires Tidy(cfg, s) && Step(cfg, world, s, a, s')
    ensures s'.sh.active == |BusyWorkers(s'.pcs)|
    ensures forall k :: k in s'.sh.ready ==> s'.sh.ready[k].from == k
  {
    hide Loose, BusyWorkers, SortByFrom, Split;
    if !a.Consume? {
      BusyUpdate(s.pcs, a.w, s'.pcs[a.w]);
    }
  }

  lemma StopKeeps(cfg: Config, world: set<nat>, s: State, a: Action, s': State)
    requires Tidy(cfg, s) && Step(cfg, world, s, a, s')
    ensures s'.sh.stopClaim ==> s'.sh.gaps == [] && s'.sh.active == 0
    ensures forall w :: 0 <= w < |s'.pcs| && s'.pcs[w].Exited? ==> s'.sh.stopClaim
  {
    hide Loose, BusyWorkers, SortByFrom, Split, CoveredTo, ChunkFor;
    if !a.Consume? && s.pcs[a.w].Busy() {
      SomeoneBusy(s, a.w);
    }
  }

  // ----- an orphaned unit -----

  /** Block b lies behind the cursor and in no unit that is queued or held. */
  ghost predicate Settled(s: State, b: nat) {
    && b < s.sh.nextBlock
    && (forall g :: g in s.sh.gaps ==> !g.Contains(b))
    && (forall w :: 0 <= w < |s.pcs| && s.pcs[w].Holding() ==> !s.pcs[w].range.Contains(b))
  }

  lemma SettledKeeps(cfg: Config, world: set<nat>, s: State, a: Action, s': State, b: nat)
    requires Settled(s, b) && Step(cfg, world, s, a, s')
    ensures Settled(s', b)
  {
    if a.AnswerBeast? {
      BeastEffect(cfg, world, s, a, s');
      hide Step;
    } else if a.Requeue? {
      RequeueEffect(cfg, world, s, a, s');
      hide Step;
    } else {
      OtherKeepsSettled(cfg, world, s, a, s', b);
    }
  }

  lemma OtherKeepsSettled(cfg: Config, world: set<nat>, s: State, a: Action, s': State, b: nat)
    requires Settled(s, b) && Step(cfg, world, s, a, s') && !a.AnswerBeast? && !a.Requeue?
    ensures Settled(s', b)
  {
  }

  /** A chunk from a that covers b is buffered or has been emitted. */
  ghost predicate Swallowed(s: State, a: nat, b: nat) {
    || (a in s.sh.ready && s.sh.ready[a].from == a && s.sh.ready[a].coveredTo >= b)
    || exists i :: 0 <= i < |s.emitted| && s.emitted[i].from == a && s.emitted[i].coveredTo >= b
  }

  /** A unit or a chunk starts at b. */
  ghost predicate StartsAt(s: State, b: nat) {
    || (exists g :: g in s.sh.gaps && g.from == b)
    || (exists w :: 0 <= w < |s.pcs| && s.pcs[w].Holding() && s.pcs[w].range.from == b)
    || b in s.sh.ready
    || (exists i :: 0 <= i < |s.emitted| && s.emitted[i].from == b)
  }

  lemma SwallowedKeeps(cfg: Config, world: set<nat>, s: State, act: Action, s': State, a: nat, b: nat)
    requires Tidy(cfg, s) && Settled(s, a) && Swallowed(s, a, b) && Step(cfg, world, s, act, s')
    ensures Swallowed(s', a, b)
  {
    hide Step, Tidy;
    ReadyAfter(cfg, world, s, act, s', a);
    if i :| 0 <= i < |s.emitted| && s.emitted[i].from == a && s.emitted[i].coveredTo >= b {
      assert s'.emitted[i] == s.emitted[i];
    } else if a !in s'.sh.ready {
      assert s'.emitted[|s.emitted|] == s.sh.ready[a];
    }
  }

  /** A buffered chunk whose first block is settled stays until it is emitted. */
  lemma ReadyAfter(cfg: Config, world: set<nat>, s: State, act: Action, s': State, a: nat)
    requires Tidy(cfg, s) && Step(cfg, world, s, act, s')
    ensures s.emitted <= s'.emitted
    ensures a in s.sh.ready && a !in s'.sh.ready ==> s'.emitted == s.emitted + [s.sh.ready[a]]
    ensures a in s.sh.ready && a in s'.sh.ready && Settled(s, a) ==> s'.sh.ready[a] == s.sh.ready[a]
  {
    hide BusyWorkers, SortByFrom, Split;
  }

  lemma StartsAtKeeps(cfg: Config, world: set<nat>, s: State, act: Action, s': State, b: nat)
    requires Tidy(cfg, s) && StartsAt(s, b) && Step(cfg, world, s, act, s')
    ensures StartsAt(s', b)
  {
    if b in s.sh.ready || exists i :: 0 <= i < |s.emitted| && s.emitted[i].from == b {
      ChunkStays(cfg, world, s, act, s', b);
    } else if g :| g in s.sh.gaps && g.from == b {
      GapStays(cfg, world, s, act, s', g);
    } else {
      var w: nat :| w < |s.pcs| && s.pcs[w].Holding() && s.pcs[w].range.from == b;
      HeldStays(cfg, world, s, act, s', w);
    }
  }

  lemma ChunkStays(cfg: Config, world: set<nat>, s: State, act: Action, s': State, b: nat)
    requires Tidy(cfg, s) && Step(cfg, world, s, act, s')
    requires b in s.sh.ready || exists i :: 0 <= i < |s.emitted| && s.emitted[i].from == b
    ensures StartsAt(s', b)
  {
    ReadyAfter(cfg, world, s, act, s', b);
    hide Step;
    if b in s.sh.ready {
      assert s.sh.ready[b].from == b;
      if b !in s'.sh.ready {
        assert s'.emitted[|s.emitted|].from == b;
      }
    } else {
      var i :| 0 <= i < |s.emitted| && s.emitted[i].from == b;
      assert s'.emitted[i] == s.emitted[i];
    }
  }

  lemma GapStays(cfg: Config, world: set<nat>, s: State, act: Action, s': State, g: Range)
    requires Tidy(cfg, s) && g in s.sh.gaps && Step(cfg, world, s, act, s')
    ensures StartsAt(s', g.from)
  {
    if act.ClaimWork? {
      if g !in s'.sh.gaps {
        assert s.sh.gaps == [s.sh.gaps[0]] + s.sh.gaps[1..];
        assert s'.pcs[act.w] == Fetching(g);
      }
    } else {
      if act.AnswerBeast? {
        BeastEffect(cfg, world, s, act, s');
      } else if act.Requeue? {
        RequeueEffect(cfg, world, s, act, s');
      }
      hide SortByFrom, Split, RespondBeast, CoveredTo, ChunkFor;
      assert g in s'.sh.gaps;
    }
  }

  lemma HeldStays(cfg: Config, world: set<nat>, s: State, act: Action, s': State, w: nat)
    requires Tidy(cfg, s) && w < |s.pcs| && s.pcs[w].Holding() && Step(cfg, world, s, act, s')
    ensures StartsAt(s', s.pcs[w].range.from)
  {
    var r := s.pcs[w].range;
    if act.Consume? || act.w != w {
      assert s'.pcs[w] == s.pcs[w];
    } else if act.Requeue? {
      FirstUnit(s.sh.gaps, r, ClampSpan(act.span));
    } else {
      hide SortByFrom, Split;
      assert r.from in s'.sh.ready;
    }
  }

  lemma FirstUnit(gaps: seq<Range>, r: Range, span: nat)
    requires r.from <= r.to && span >= 1
    ensures exists g :: g in SortByFrom(gaps + Split(r.from, r.to, span)) && g.from == r.from
  {
    var units := Split(r.from, r.to, span);
    SortHolds(gaps + units);
    hide SortByFrom;
    assert units[0] in units && units[0].from == r.from;
    assert units[0] in gaps + units;
  }

  lemma WildJump(cfg: Config, world: set<nat>, s: State, a: Action, s': State)
    requires Inv(cfg, world, s) && Step(cfg, world, s, a, s') && !EndsAtCursor(cfg, s, a)
    ensures a.AnswerBeast? && a.w < |s.pcs| && s.pcs[a.w].Holding() && s.pcs[a.w].range.to + 1 < s.sh.nextBlock
    ensures cfg.Holds(s.pcs[a.w].range) && ChunkFor(cfg, s.pcs[a.w].range, a.raw, true).coveredTo > s.pcs[a.w].range.to
  {
    ClaimedHolds(cfg, s, a.w);
    hide Tiles, Pieces, Sound;
  }

  lemma JumpSettles(cfg: Config, world: set<nat>, s: State, a: Action, s': State)
    requires Inv(cfg, world, s) && Step(cfg, world, s, a, s') && !EndsAtCursor(cfg, s, a)
    ensures var r := s.pcs[a.w].range; Settled(s', r.from) && Swallowed(s', r.from, r.to + 1)
  {
    WildJump(cfg, world, s, a, s');
    ClaimedHolds(cfg, s, a.w);
    OthersApart(cfg, s, a.w);
    hide Inv, Pieces, EndsAtCursor;
    BeastEffect(cfg, world, s, a, s');
    hide Step, ChunkFor, SizeOf;
  }

  /** A far jump past a unit that ends short of the cursor swallows the first block behind
      the unit, at which another unit or chunk starts. */
  lemma FarJumpOrphans(cfg: Config, world: set<nat>, s: State, a: Action, s': State)
    requires Inv(cfg, world, s) && Step(cfg, world, s, a, s') && !EndsAtCursor(cfg, s, a)
    ensures var r := s.pcs[a.w].range;
            Settled(s', r.from) && Swallowed(s', r.from, r.to + 1) && StartsAt(s', r.to + 1)
  {
    JumpSettles(cfg, world, s, a, s');
    WildJump(cfg, world, s, a, s');
    NextPiece(s, a.w);
    hide Inv, EndsAtCursor, Settled, Swallowed;
    BeastEffect(cfg, world, s, a, s');
    hide Step, ChunkFor, SizeOf;
    NextStays(s, a.w, s', s.pcs[a.w].range.to + 1);
  }

  /** What starts at b, unit w apart, still does when w has been answered by a far jump. */
  lemma NextStays(s: State, w: nat, s': State, b: nat)
    requires w < |s.pcs| && s'.pcs == s.pcs[w := Finishing] && s'.sh.gaps == s.sh.gaps
    requires s.sh.ready.Keys <= s'.sh.ready.Keys
    requires || (exists g :: g in s.sh.gaps && g.from == b)
             || b in s.sh.ready
             || exists v: nat :: v < |s.pcs| && v != w && s.pcs[v].Holding() && s.pcs[v].range.from == b
    ensures StartsAt(s', b)
  {
    if v: nat :| v < |s.pcs| && v != w && s.pcs[v].Holding() && s.pcs[v].range.from == b {
      assert s'.pcs[v] == s.pcs[v];
    } else if b in s.sh.ready {
      assert b in s.sh.ready.Keys;
    }
  }

  lemma OthersApart(cfg: Config, s: State, w: nat)
    requires Wellformed(cfg, s) && Partitioned(s) && w < |s.pcs| && s.pcs[w].Holding()
    ensures forall v :: 0 <= v < |s.pcs| && v != w && s.pcs[v].Holding() ==>
            !s.pcs[v].range.Contains(s.pcs[w].range.from)
  {
    ClaimedHolds(cfg, s, w);
    forall v | 0 <= v < |s.pcs| && v != w && s.pcs[v].Holding() ensures !s.pcs[v].range.Contains(s.pcs[w].range.from) {
      ClaimedHolds(cfg, s, v);
      assert Apart(Claimed(v, s.pcs[v].range), Claimed(w, s.pcs[w].range));
    }
  }

  /** In a partition a piece starts right behind a unit that ends short of the cursor. */
  lemma NextPiece(s: State, w: nat)
    requires Partitioned(s) && w < |s.pcs| && s.pcs[w].Holding() && s.pcs[w].range.to + 1 < s.sh.nextBlock
    requires forall k :: k in s.sh.ready ==> s.sh.ready[k].from == k
    ensures var b := s.pcs[w].range.to + 1;
            || (exists g :: g in s.sh.gaps && g.from == b)
            || b in s.sh.ready
            || exists v: nat :: v < |s.pcs| && v != w && s.pcs[v].Holding() && s.pcs[v].range.from == b
  {
    var r := s.pcs[w].range;
    var p := Claimed(w, r);
    assert p in ClaimedPieces(s.pcs) && Within(p, s.sh.nextEmit, s.sh.nextBlock);
    assert Owned(Pieces(s), r.to + 1);
    var x :| x in Pieces(s) && x.range.Contains(r.to + 1);
    assert x != p && Apart(x, p);
    assert x.range.from == r.to + 1;
    hide Tiles, Owned;
    if x in ClaimedPieces(s.pcs) {
      var v: nat :| v < |s.pcs| && s.pcs[v].Holding() && x == Claimed(v, s.pcs[v].range);
      assert v != w;
    }
  }

  // ----- runs that have stopped -----

  /** From an orphaning step on, the overlap never disappears. */
  lemma {:induction false} OrphanStays(cfg: Config, world: set<nat>, states: seq<State>, acts: seq<Action>,
                                       m: nat, n: nat, a: nat, b: nat)
    requires Run(cfg, world, states, acts) && m <= n <= |acts|
    requires Tidy(cfg, states[m]) && Settled(states[m], a) && Swallowed(states[m], a, b) && StartsAt(states[m], b)
    ensures Tidy(cfg, states[n]) && Settled(states[n], a) && Swallowed(states[n], a, b) && StartsAt(states[n], b)
  {
    hide Tidy, Settled, Swallowed, StartsAt;
    if m < n {
      OrphanStays(cfg, world, states, acts, m, n - 1, a, b);
      var s, act, s' := states[n - 1], acts[n - 1], states[n];
      assert Step(cfg, world, s, act, s');
      hide Step;
      TidyKeeps(cfg, world, s, act, s');
      SettledKeeps(cfg, world, s, act, s', a);
      SwallowedKeeps(cfg, world, s, act, s', a, b);
      StartsAtKeeps(cfg, world, s, act, s', b);
    }
  }

  /** Once everything has stopped, both chunks have been emitted, and they overlap. */
  lemma OverlapIsEmitted(cfg: Config, s: State, a: nat, b: nat, lo: nat, hi: nat)
    requires Tidy(cfg, s) && Done(s) && |s.pcs| > 0 && a < b && Swallowed(s, a, b) && StartsAt(s, b)
    ensures !Contiguous(s.emitted, lo, hi)
  {
    assert s.pcs[0].Exited?;
    var i :| 0 <= i < |s.emitted| && s.emitted[i].from == a && s.emitted[i].coveredTo >= b;
    var j :| 0 <= j < |s.emitted| && s.emitted[j].from == b;
    if Contiguous(s.emitted, lo, hi) {
      if i < j {
        Ordered(s.emitted, lo, hi, i, j);
      } else if j < i {
        Ordered(s.emitted, lo, hi, j, i);
      }
    }
  }

  lemma {:induction false} Ordered(cs: seq<Chunk>, lo: nat, hi: nat, i: nat, j: nat)
    requires Contiguous(cs, lo, hi) && i < j < |cs|
    ensures cs[i].coveredTo < cs[j].from
  {
    if i + 1 < j {
      Ordered(cs, lo, hi, i, j - 1);
    }
  }

  lemma {:induction false} WorkersStay(cfg: Config, world: set<nat>, states: seq<State>, acts: seq<Action>, n: nat)
    requires Run(cfg, world, states, acts) && n <= |acts|
    ensures |states[n].pcs| == cfg.workers
  {
    if n > 0 {
      WorkersStay(cfg, world, states, acts, n - 1);
      assert Step(cfg, world, states[n - 1], acts[n - 1], states[n]);
    }
  }

  lemma {:induction false} FirstWild(cfg: Config, states: seq<State>, acts: seq<Action>, n: nat) returns (m: nat)
    requires |states| == |acts| + 1 && n < |acts| && !EndsAtCursor(cfg, states[n], acts[n])
    ensures m <= n && !EndsAtCursor(cfg, states[m], acts[m])
    ensures forall i :: 0 <= i < m ==> EndsAtCursor(cfg, states[i], acts[i])
  {
    if i: nat :| i < n && !EndsAtCursor(cfg, states[i], acts[i]) {
      m := FirstWild(cfg, states, acts, i);
    } else {
      m := n;
    }
  }

  lemma {:induction false} TamePrefixKeeps(cfg: Config, world: set<nat>, states: seq<State>, acts: seq<Action>, n: nat)
    requires Run(cfg, world, states, acts) && n <= |acts|
    requires forall i :: 0 <= i < n ==> EndsAtCursor(cfg, states[i], acts[i])
    ensures Inv(cfg, world, states[n])
  {
    hide Inv, Step, EndsAtCursor;
    if n == 0 {
      StartHolds(cfg, world);
    } else {
      TamePrefixKeeps(cfg, world, states, acts, n - 1);
      StepKeeps(cfg, world, states[n - 1], acts[n - 1], states[n]);
    }
  }

  lemma WildRunsOverlap(cfg: Config, world: set<nat>, states: seq<State>, acts: seq<Action>, n: nat)
    requires Run(cfg, world, states, acts) && Done(states[|acts|])
    requires n < |acts| && !EndsAtCursor(cfg, states[n], acts[n])
    ensures !Contiguous(states[|acts|].emitted, cfg.start, Limit(cfg))
  {
    var m := FirstWild(cfg, states, acts, n);
    TamePrefixKeeps(cfg, world, states, acts, m);
    var s, s' := states[m], states[m + 1];
    var r := s.pcs[acts[m].w].range;
    assert Step(cfg, world, s, acts[m], s');
    FarJumpOrphans(cfg, world, s, acts[m], s');
    InvIsTidy(cfg, world, s);
    TidyKeeps(cfg, world, s, acts[m], s');
    ClaimedHolds(cfg, s, acts[m].w);
    OrphanStays(cfg, world, states, acts, m + 1, |acts|, r.from, r.to + 1);
    WorkersStay(cfg, world, states, acts, |acts|);
    OverlapIsEmitted(cfg, states[|acts|], r.from, r.to + 1, cfg.start, Limit(cfg));
  }

  /**
   A run in which everything has stopped handed over the whole range, chunk after chunk,
   if and only if every far jump in it started from a unit that ended at the cursor.
   */
  lemma FinishedIsContiguousIff(cfg: Config, world: set<nat>, states: seq<State>, acts: seq<Action>)
    requires Run(cfg, world, states, acts) && Done(states[|acts|])
    ensures Contiguous(states[|acts|].emitted, cfg.start, Limit(cfg)) <==> Tame(cfg, states, acts)
  {
    if Tame(cfg, states, acts) {
      TameRunKeeps(cfg, world, states, acts, |acts|);
      DoneMeansComplete(cfg, world, states[|acts|]);
    } else {
      var n: nat :| n < |acts| && !EndsAtCursor(cfg, states[n], acts[n]);
      WildRunsOverlap(cfg, world, states, acts, n);
    }
  }
}
