/**
 What the prefetcher's sections decide, in numbers.

 PrefetchProtocol builds its steps from the same functions the methods are proved equal
 to, so nothing there could tell how wide the window is or when beast mode ends.  Each
 law below says it in the constants of internal/ingestion/parallel_fetch.go and in fields
 of the state before and after, without naming the function that computes it.
 */
module PrefetchLaws {
  import opened Tiling
  import opened Prefetcher
  import opened PrefetchProtocol
  import opened PrefetchInvariant

  // ----- claims -----

  /** A pass hands out a unit exactly when no stop is latched, beast mode is free, and the
      lowest gap or the cursor lies in the window; it ends the work exactly when nothing is
      left to claim, queued or in flight. */
  lemma ClaimsIff(cfg: Config, s: Shared, windowSpan: nat, strideSpan: nat)
    ensures var w := Claim(cfg, s, windowSpan, strideSpan).1;
            && (w.Unit? <==>
                  && !s.stopClaim && (s.beast ==> s.active == 0)
                  && (|| (s.gaps != [] && InWindow(cfg, s.nextEmit, s.gaps[0].from, windowSpan))
                      || (s.nextBlock <= cfg.end && InWindow(cfg, s.nextEmit, s.nextBlock, windowSpan))))
            && (w.Stop? <==>
                  || s.stopClaim
                  || (s.nextBlock > cfg.end && s.gaps == [] && s.active == 0))
  {
  }

  /** The lowest gap comes first; a fresh unit starts at the cursor and is a quarter longer
      than the clamped estimate, up to 131072 blocks and the end of the range. */
  lemma ClaimTakes(cfg: Config, s: Shared, windowSpan: nat, strideSpan: nat)
    ensures var (s', w) := Claim(cfg, s, windowSpan, strideSpan);
            w.Unit? ==>
              && s'.active == s.active + 1
              && if s.gaps != [] && InWindow(cfg, s.nextEmit, s.gaps[0].from, windowSpan)
                 then w.range == s.gaps[0] && s' == s.(gaps := s.gaps[1..], active := s.active + 1)
                 else w.range.from == s.nextBlock && s' == s.(nextBlock := w.range.to + 1, active := s.active + 1)
    ensures var (s', w) := Claim(cfg, s, windowSpan, strideSpan);
            w.Unit? && s'.gaps == s.gaps ==>
              var clamped := if strideSpan < 100 then 100 else if strideSpan > 131072 then 131072 else strideSpan;
              var left := cfg.end + 1 - s.nextBlock;
              var longest := if 5 * clamped / 4 > 131072 then 131072 else 5 * clamped / 4;
              w.range.to + 1 - w.range.from == if left < longest then left else longest
  {
    if s.gaps != [] {
      assert |s.gaps[1..]| < |s.gaps|;
    }
  }

  // ----- the estimate -----

  /** An observation weighs a quarter, what was known three quarters, up to the rounding of
      either quarter; the result is held between 100 and 131072 blocks. */
  lemma SpanIsMean(old_: nat, observed: nat)
    requires observed > 0
    ensures var mean4 := 3 * old_ + observed + old_ % 4 - observed % 4;
            4 * FoldSpan(old_, observed) == if mean4 < 400 then 400 else if mean4 > 524288 then 524288 else mean4
    ensures FoldSpan(old_, 0) == old_
  {
  }

  // ----- answers -----

  /** A nonempty answer covers the unit up to its last block, or to the pin when it went
      further; an empty one vouches for a page at most.  The chunk keeps the body up to there. */
  lemma AnswerCovers(cfg: Config, world: set<nat>, r: Range, raw: seq<nat>, beast: bool)
    requires cfg.Holds(r)
    requires var pin := if beast then cfg.end else r.to; Answers(world, raw, r.from, pin)
    ensures var c := ChunkFor(cfg, r, raw, beast);
            var pin := if beast then cfg.end else r.to;
            && c.from == r.from
            && c.coveredTo == (if raw == [] then (if r.from + cfg.pageSize - 1 < r.to then r.from + cfg.pageSize - 1
                                                  else r.to)
                               else if raw[|raw| - 1] < pin then raw[|raw| - 1] else pin)
            && c.raw <= raw && forall n :: n in c.raw <==> n in raw && n <= c.coveredTo
  {
    var c := ChunkFor(cfg, r, raw, beast);
    TrimKeepsBelow(raw, c.coveredTo);
    if raw != [] {
      var last := raw[|raw| - 1];
      assert last in raw;
      forall n | n in raw ensures n <= last {
        var i :| 0 <= i < |raw| && raw[i] == n;
      }
    }
  }

  /** The body carries more than the portal's extent marker. */
  predicate HasData(cfg: Config, c: Chunk) { cfg.includeAll || |c.raw| >= 2 }

  /**
   A pinned answer delivers its chunk, folds the number of blocks covered into the
   estimate, counts empty answers in a row and, on the fifth with no gap queued and no
   other unit in flight, enters beast mode.
   */
  lemma PinnedAnswer(cfg: Config, s: Shared, r: Range, raw: seq<nat>)
    requires cfg.Holds(r)
    ensures var s' := RespondPinned(cfg, s, r, raw);
            && r.from in s'.ready
            && var c := s'.ready[r.from];
            var fifth := !HasData(cfg, c) && s.empties + 1 >= 5;
            var mean4 := 3 * s.gapSpan + (c.coveredTo + 1 - r.from) + s.gapSpan % 4 - (c.coveredTo + 1 - r.from) % 4;
            && c == ChunkFor(cfg, r, raw, false)
            && 4 * s'.gapSpan == (if mean4 < 400 then 400 else if mean4 > 524288 then 524288 else mean4)
            && s' == s.(ready := s.ready[r.from := c],
                        gapSpan := s'.gapSpan,
                        empties := if HasData(cfg, c) then 0 else s.empties + 1,
                        beast := s.beast || (fifth && s.gaps == [] && s.active <= 1))
  {
    var c := ChunkFor(cfg, r, raw, false);
    SpanIsMean(s.gapSpan, c.coveredTo + 1 - r.from);
  }

  /**
   A beast answer with data ends beast mode and takes the number of blocks covered as the
   estimate; a marker leaves both alone.  The cursor moves past the covered blocks, and
   what the answer left of its unit is cut by the new estimate and queued.
   */
  lemma BeastAnswer(cfg: Config, s: Shared, r: Range, raw: seq<nat>)
    requires cfg.Holds(r) && s.beast && r.to < s.nextBlock
    ensures var s' := RespondBeast(cfg, s, r, raw);
            && r.from in s'.ready
            && var c := s'.ready[r.from];
            var covered := c.coveredTo + 1 - r.from;
            && c == ChunkFor(cfg, r, raw, true)
            && s' == s.(ready := s.ready[r.from := c],
                        beast := !HasData(cfg, c),
                        gapSpan := if !HasData(cfg, c) then s.gapSpan
                                   else if covered < 100 then 100
                                   else if covered > 131072 then 131072 else covered,
                        empties := if HasData(cfg, c) then 0 else s.empties + 1,
                        nextBlock := if c.coveredTo >= s.nextBlock then c.coveredTo + 1 else s.nextBlock,
                        gaps := s'.gaps)
            && (c.coveredTo >= r.to ==> s'.gaps == s.gaps)
            && (c.coveredTo < r.to ==> s'.gaps == Enqueue(s, c.coveredTo + 1, r.to, s'.gapSpan).gaps)
  {
  }

  // ----- emission -----

  /** The consumer is handed the chunk it waits for, or, once every worker has exited, the lowest
      one left; it then waits for the block behind that chunk. */
  lemma NextTakes(s: Shared, done: bool)
    ensures var (s', e) := Next(s, done);
            match e
            case Emitted(c) =>
              exists key ::
                && key in s.ready && c == s.ready[key]
                && (key == s.nextEmit || (done && s.nextEmit !in s.ready && forall k :: k in s.ready ==> key <= k))
                && s' == s.(ready := s.ready - {key}, nextEmit := c.coveredTo + 1)
            case Drained => s' == s && done && s.ready == map[]
            case Blocked => s' == s && !done && s.nextEmit !in s.ready
  {
    if s.nextEmit !in s.ready && done && s.ready.Keys != {} {
      assert Least(s.ready.Keys) in s.ready;
    } else if s.nextEmit !in s.ready && done {
      assert s.ready == map[];
    }
  }

  // ----- gaps -----

  /** Unit i of the remainder: every unit but the last holds exactly span blocks. */
  ghost function UnitAt(from: nat, to: nat, span: nat, i: nat): Range
    requires span >= 1
  {
    Range(from + i * span, if to < from + (i + 1) * span then to else from + (i + 1) * span - 1)
  }

  lemma NextUnit(from: nat, to: nat, span: nat, i: nat)
    requires i >= 1 && span >= 1
    ensures UnitAt(from + span, to, span, i - 1) == UnitAt(from, to, span, i)
    ensures (i - 1) * span == i * span - span
  {
  }

  lemma {:induction false} SplitSizes(from: nat, to: nat, span: nat)
    requires from <= to && span >= 1
    ensures var units := Split(from, to, span);
            (forall i :: 0 <= i < |units| ==> units[i] == UnitAt(from, to, span, i)) &&
            |units| >= 1 && (|units| - 1) * span <= to - from < |units| * span
    decreases 1 + to - from
  {
    var units := Split(from, to, span);
    if from + span <= to {
      var rest := Split(from + span, to, span);
      SplitSizes(from + span, to, span);
      assert units == [UnitAt(from, to, span, 0)] + rest;
      hide Split, UnitAt;
      NextUnit(from, to, span, |units|);
      NextUnit(from, to, span, |rest|);
      forall i | 0 < i < |units| ensures units[i] == UnitAt(from, to, span, i) {
        NextUnit(from, to, span, i);
        assert units[i] == rest[i - 1];
      }
    } else {
      assert Split(to + 1, to, span) == [];
      assert units == [UnitAt(from, to, span, 0)];
    }
  }

  ghost predicate IsUnit(from: nat, to: nat, span: nat, g: Range)
    requires span >= 1
  {
    exists i: nat :: i * span <= to - from && g == UnitAt(from, to, span, i)
  }

  lemma Times(a: nat, b: nat, span: nat)
    requires a <= b
    ensures a * span <= b * span
  {
  }

  lemma UnitIsCut(from: nat, to: nat, span: nat, g: Range)
    requires from <= to && span >= 1
    ensures g in Split(from, to, span) <==> IsUnit(from, to, span, g)
  {
    hide Split, UnitAt;
    var units := Split(from, to, span);
    SplitSizes(from, to, span);
    if g in units {
      var i :| 0 <= i < |units| && units[i] == g;
      Times(i, |units| - 1, span);
    }
    if i: nat :| i * span <= to - from && g == UnitAt(from, to, span, i) {
      if i >= |units| {
        Times(|units|, i, span);
      }
      assert units[i] == g;
    }
  }

  /** Queueing a remainder adds its units, as long as the clamped estimate, and nothing else. */
  lemma EnqueueAdds(s: Shared, from: nat, to: nat, span: nat)
    requires from <= to
    ensures var clamped := if span < 100 then 100 else if span > 131072 then 131072 else span;
            var s' := Enqueue(s, from, to, span);
            && s' == s.(gaps := s'.gaps)
            && forall g :: g in s'.gaps <==> g in s.gaps || IsUnit(from, to, clamped, g)
  {
    hide Split, SortByFrom, IsUnit;
    var clamped := ClampSpan(span);
    var units := Split(from, to, clamped);
    SortKeeps(s.gaps + units);
    forall g ensures g in units <==> IsUnit(from, to, clamped, g) {
      UnitIsCut(from, to, clamped, g);
    }
  }
}
