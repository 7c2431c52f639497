/**
 The parallel prefetcher's shared state (internal/ingestion/parallel_fetch.go).

 Shared is a snapshot of the fields the workers and the consumer guard with one mutex.
 Each function below is the effect of one critical section on that snapshot; the class
 ParallelPrefetcher performs the same sections on mutable fields and is proved equal to
 them.  PrefetchProtocol then interleaves the sections.

 A response body is modelled by the header numbers of its JSONL lines, in order.
 */
module Prefetcher {
  import opened Tiling

  const GAP_MIN: nat := 100
  const GAP_MAX: nat := 131072
  const BEAST_THRESHOLD: nat := 5
  const DEFAULT_PAGE_SIZE: nat := 10000

  datatype Config = Config(start: nat, end: nat, pageSize: nat, workers: nat, includeAll: bool) {
    predicate Ok() { workers >= 1 && pageSize >= 1 }
    function MaxAhead(): nat { pageSize * workers }
    predicate Holds(r: Range) { Ok() && r.from <= r.to <= end }
    predicate Probes() { includeAll || (end >= start && end - start + 1 > GAP_MAX) }
  }

  datatype Chunk = Chunk(from: nat, coveredTo: nat, raw: seq<nat>)

  datatype Shared = Shared(
    nextBlock: nat,
    gapSpan: nat,
    empties: nat,
    beast: bool,
    ready: map<nat, Chunk>,
    nextEmit: nat,
    gaps: seq<Range>,
    active: nat,
    stopClaim: bool)

  datatype Work = Unit(range: Range) | Stop | Wait

  datatype Emission = Emitted(chunk: Chunk) | Drained | Blocked

  function Min(a: nat, b: nat): nat { if a <= b then a else b }
  function Max(a: nat, b: nat): nat { if a >= b then a else b }

  // ----- sizing -----

  function ClampSpan(span: nat): (r: nat)
    ensures GAP_MIN <= r <= GAP_MAX
    ensures GAP_MIN <= span <= GAP_MAX ==> r == span
  {
    Max(GAP_MIN, Min(span, GAP_MAX))
  }

  /** One step of the moving average; a delivered span of zero is not an observation. */
  function FoldSpan(old_: nat, observed: nat): (r: nat)
    ensures GAP_MIN <= old_ <= GAP_MAX ==> GAP_MIN <= r <= GAP_MAX
  {
    if observed == 0 then old_ else ClampSpan(old_ - old_ / 4 + observed / 4)
  }

  function WindowLimit(cfg: Config, span: nat): nat {
    Max(ClampSpan(span) * cfg.workers * 8, cfg.MaxAhead())
  }

  function Stride(span: nat): (r: nat)
    ensures GAP_MIN <= r <= GAP_MAX
  {
    var s := ClampSpan(span);
    Min(s + s / 4, GAP_MAX)
  }

  // ----- claiming -----

  /** Block b may be claimed: it lies at most eight spans a worker, or one page a worker,
      above the block the consumer waits for. */
  ghost predicate InWindow(cfg: Config, nextEmit: nat, b: nat, span: nat) {
    var clamped := if span < 100 then 100 else if span > 131072 then 131072 else span;
    b - nextEmit <= clamped * cfg.workers * 8 || b - nextEmit <= cfg.pageSize * cfg.workers
  }

  /**
   One pass of the claim loop under the mutex.  The span estimate is read once for the
   window and once for the stride, and other workers may move it in between, so the two
   readings are separate arguments.
   */
  function Claim(cfg: Config, s: Shared, windowSpan: nat, strideSpan: nat): (Shared, Work) {
    if s.stopClaim then (s, Stop)
    else if s.beast && s.active > 0 then (s, Wait)
    else
      var window := s.nextEmit + WindowLimit(cfg, windowSpan);
      if |s.gaps| > 0 && s.gaps[0].from <= window then
        (s.(gaps := s.gaps[1..], active := s.active + 1), Unit(s.gaps[0]))
      else if s.nextBlock <= cfg.end && s.nextBlock <= window then
        var to := Min(s.nextBlock + Stride(strideSpan) - 1, cfg.end);
        (s.(nextBlock := to + 1, active := s.active + 1), Unit(Range(s.nextBlock, to)))
      else if s.nextBlock > cfg.end && |s.gaps| == 0 && s.active == 0 then
        (s.(stopClaim := true), Stop)
      else (s, Wait)
  }

  // ----- gaps -----

  function Split(from: nat, to: nat, span: nat): seq<Range>
    requires span >= 1
    decreases 1 + to - from
  {
    if from > to then []
    else
      var end := Min(from + span - 1, to);
      [Range(from, end)] + Split(end + 1, to, span)
  }

  function Insert(g: Range, gs: seq<Range>): seq<Range> {
    if gs == [] || g.from < gs[0].from then [g] + gs else [gs[0]] + Insert(g, gs[1..])
  }

  function SortByFrom(gs: seq<Range>): seq<Range> {
    if gs == [] then [] else Insert(gs[0], SortByFrom(gs[1..]))
  }

  function Enqueue(s: Shared, from: nat, to: nat, span: nat): Shared {
    s.(gaps := SortByFrom(s.gaps + Split(from, to, ClampSpan(span))))
  }

  // ----- responses -----

  function CoveredTo(cfg: Config, r: Range, raw: seq<nat>, beast: bool): (c: nat)
    requires cfg.Holds(r)
    ensures r.from <= c <= cfg.end
    ensures !beast ==> c <= r.to
  {
    if raw == [] then Min(r.from + cfg.pageSize - 1, r.to)
    else
      var last := Min(Max(raw[|raw| - 1], r.from), cfg.end);
      if beast then last else Min(last, r.to)
  }

  /** The longest prefix without a number above maxBlock. */
  function Trim(raw: seq<nat>, maxBlock: nat): seq<nat> {
    if raw == [] || raw[0] > maxBlock then [] else [raw[0]] + Trim(raw[1..], maxBlock)
  }

  function ChunkFor(cfg: Config, r: Range, raw: seq<nat>, beast: bool): Chunk
    requires cfg.Holds(r)
  {
    var covered := CoveredTo(cfg, r, raw, beast);
    var overshoots := raw != [] && raw[|raw| - 1] > covered;
    Chunk(r.from, covered, if overshoots then Trim(raw, covered) else raw)
  }

  /** A body holding nothing but the portal's extent marker. */
  predicate OnlyMarker(cfg: Config, c: Chunk) { !cfg.includeAll && |c.raw| <= 1 }

  function Deliver(s: Shared, c: Chunk): Shared {
    s.(ready := s.ready[c.from := c])
  }

  predicate Engages(cfg: Config, s: Shared, r: Range, raw: seq<nat>)
    requires cfg.Holds(r)
  {
    && OnlyMarker(cfg, ChunkFor(cfg, r, raw, false))
    && s.empties + 1 >= BEAST_THRESHOLD && !s.beast && |s.gaps| == 0 && s.active <= 1
  }

  /** A worker's bookkeeping for a response to a request pinned at r.to. */
  function RespondPinned(cfg: Config, s: Shared, r: Range, raw: seq<nat>): Shared
    requires cfg.Holds(r)
  {
    var c := ChunkFor(cfg, r, raw, false);
    var seen := if c.coveredTo < r.to then c.coveredTo + 1 - r.from else r.to + 1 - r.from;
    var s1 := s.(gapSpan := FoldSpan(s.gapSpan, seen),
                 empties := if OnlyMarker(cfg, c) then s.empties + 1 else 0,
                 beast := s.beast || Engages(cfg, s, r, raw));
    Deliver(s1, c)
  }

  /** The same for a request pinned at the end of the whole range, taken as one step. */
  function RespondBeast(cfg: Config, s: Shared, r: Range, raw: seq<nat>): Shared
    requires cfg.Holds(r)
  {
    var c := ChunkFor(cfg, r, raw, true);
    var marker := OnlyMarker(cfg, c);
    var dense := ClampSpan(c.coveredTo + 1 - r.from);
    var s1 := s.(gapSpan := if marker then s.gapSpan else dense,
                 empties := if marker then s.empties + 1 else 0,
                 beast := s.beast && marker,
                 nextBlock := if c.coveredTo > r.to then Max(s.nextBlock, c.coveredTo + 1) else s.nextBlock);
    var s2 := Deliver(s1, c);
    if c.coveredTo < r.to then Enqueue(s2, c.coveredTo + 1, r.to, s2.gapSpan) else s2
  }

  function Finish(s: Shared): Shared
    requires s.active > 0
  {
    s.(active := s.active - 1)
  }

  // ----- emission -----

  lemma LeastExists(ks: set<nat>)
    requires ks != {}
    ensures exists m :: m in ks && forall k :: k in ks ==> m <= k
  {
    var x :| x in ks;
    if ks != {x} {
      assert ks - {x} != {};
      LeastExists(ks - {x});
      var m :| m in ks - {x} && forall k :: k in ks - {x} ==> m <= k;
      var least := Min(m, x);
      forall k | k in ks ensures least <= k {
        assert k == x || k in ks - {x};
      }
      assert least in ks;
    } else {
      assert x in ks && forall k :: k in ks ==> x <= k;
    }
  }

  ghost function Least(ks: set<nat>): (m: nat)
    requires ks != {}
    ensures m in ks && forall k :: k in ks ==> m <= k
  {
    LeastExists(ks);
    var m :| m in ks && forall k :: k in ks ==> m <= k;
    m
  }

  function Take(s: Shared, key: nat): Shared
    requires key in s.ready
  {
    s.(ready := s.ready - {key}, nextEmit := s.ready[key].coveredTo + 1)
  }

  /** One pass of the consumer's loop; done says that every worker has exited. */
  ghost function Next(s: Shared, done: bool): (Shared, Emission) {
    if s.nextEmit in s.ready then (Take(s, s.nextEmit), Emitted(s.ready[s.nextEmit]))
    else if !done then (s, Blocked)
    else if s.ready.Keys == {} then (s, Drained)
    else
      var key := Least(s.ready.Keys);
      (Take(s, key), Emitted(s.ready[key]))
  }

  function Initial(cfg: Config): Shared {
    Shared(cfg.start, GAP_MAX, 0, cfg.Probes(), map[], cfg.start, [], 0, false)
  }

  // ----- the mutable prefetcher -----

  class ParallelPrefetcher {
    const cfg: Config
    var nextBlock: nat
    var gapSpan: nat
    var empties: nat
    var beast: bool
    var ready: map<nat, Chunk>
    var nextEmit: nat
    var gaps: seq<Range>
    var active: nat
    var stopClaim: bool

    function View(): Shared
      reads this
    {
      Shared(nextBlock, gapSpan, empties, beast, ready, nextEmit, gaps, active, stopClaim)
    }

    constructor (start: nat, end: nat, pageSize: nat, workers: int, includeAll: bool)
      ensures cfg.Ok() && cfg.start == start && cfg.end == end && cfg.includeAll == includeAll
      ensures cfg.workers == (if workers < 1 then 1 else workers)
      ensures cfg.pageSize == (if pageSize == 0 then DEFAULT_PAGE_SIZE else pageSize)
      ensures View() == Initial(cfg)
      ensures nextBlock == nextEmit == start && gapSpan == 131072 && empties == active == 0 && !stopClaim
      ensures ready == map[] && gaps == []
      ensures beast <==> includeAll || end - start >= 131072
    {
      var c := Config(start, end,
                      if pageSize == 0 then DEFAULT_PAGE_SIZE else pageSize,
                      if workers < 1 then 1 else workers, includeAll);
      cfg := c;
      nextBlock, nextEmit := start, start;
      gapSpan, empties, active := GAP_MAX, 0, 0;
      beast, stopClaim := c.Probes(), false;
      ready, gaps := map[], [];
    }

    /** One pass of getWork under the mutex. */
    method TryGetWork(windowSpan: nat, strideSpan: nat) returns (w: Work)
      modifies this
      ensures (View(), w) == Claim(cfg, old(View()), windowSpan, strideSpan)
      ensures !old(stopClaim) && !old(beast) && old(gaps) == [] && old(nextBlock) <= cfg.end ==>
                (w.Unit? <==> InWindow(cfg, old(nextEmit), old(nextBlock), windowSpan))
      ensures !old(stopClaim) && !old(beast) && old(gaps) != [] ==>
                ((w.Unit? && w.range == old(gaps)[0] && gaps == old(gaps)[1..]) <==>
                 InWindow(cfg, old(nextEmit), old(gaps)[0].from, windowSpan))
    {
      if stopClaim {
        return Stop;
      }
      if beast && active > 0 {
        return Wait;
      }
      var window := nextEmit + WindowLimit(cfg, windowSpan);
      if |gaps| > 0 && gaps[0].from <= window {
        w := Unit(gaps[0]);
        gaps := gaps[1..];
        active := active + 1;
        return;
      }
      var from := nextBlock;
      if from <= cfg.end && from <= window {
        var stride := ClampSpan(strideSpan);
        stride := stride + stride / 4;
        if stride > GAP_MAX {
          stride := GAP_MAX;
        }
        var to := Min(from + stride - 1, cfg.end);
        nextBlock := to + 1;
        active := active + 1;
        return Unit(Range(from, to));
      }
      if from > cfg.end && |gaps| == 0 && active == 0 {
        stopClaim := true;
        return Stop;
      }
      return Wait;
    }

    method FinishUnit()
      requires active > 0
      modifies this`active
      ensures View() == Finish(old(View()))
    {
      active := active - 1;
    }

    method UpdateGapSpan(observed: nat)
      modifies this`gapSpan
      ensures gapSpan == FoldSpan(old(gapSpan), observed)
    {
      if observed == 0 {
        return;
      }
      var next := gapSpan - gapSpan / 4 + observed / 4;
      if next < GAP_MIN {
        next := GAP_MIN;
      }
      if next > GAP_MAX {
        next := GAP_MAX;
      }
      gapSpan := next;
    }

    method DeliverChunk(c: Chunk)
      modifies this`ready
      ensures View() == Deliver(old(View()), c)
    {
      ready := ready[c.from := c];
    }

    method EnqueueGaps(from: nat, to: nat, spanRead: nat)
      modifies this`gaps
      ensures View() == Enqueue(old(View()), from, to, spanRead)
    {
      var span := ClampSpan(spanRead);
      var cur := from;
      while cur <= to
        invariant from <= cur
        invariant gaps + Split(cur, to, span) == old(gaps) + Split(from, to, span)
        decreases 1 + to - cur
      {
        var end := Min(cur + span - 1, to);
        assert Split(cur, to, span) == [Range(cur, end)] + Split(end + 1, to, span);
        gaps := gaps + [Range(cur, end)];
        cur := end + 1;
      }
      assert gaps + [] == gaps;
      gaps := SortByFrom(gaps);
    }

    /** The tail of fetchOne for a pinned request: measure, trim, maybe re-engage, deliver. */
    method HandlePinned(r: Range, raw: seq<nat>) returns (leftover: bool, chunk: Chunk)
      requires cfg.Holds(r)
      modifies this
      ensures View() == RespondPinned(cfg, old(View()), r, raw)
      ensures chunk == ChunkFor(cfg, r, raw, false)
      ensures leftover <==> chunk.coveredTo < r.to
    {
      hide Trim, CoveredTo, FoldSpan;
      var covered := CoveredTo(cfg, r, raw, false);
      var body := raw;
      if raw != [] && raw[|raw| - 1] > covered {
        body := TruncateRaw(raw, covered);
      }
      chunk := Chunk(r.from, covered, body);
      UpdateGapSpan(if covered < r.to then covered + 1 - r.from else r.to + 1 - r.from);
      if OnlyMarker(cfg, chunk) {
        empties := empties + 1;
        if empties >= BEAST_THRESHOLD && !beast && |gaps| == 0 && active <= 1 {
          beast := true;
        }
      } else {
        empties := 0;
      }
      DeliverChunk(chunk);
      leftover := covered < r.to;
    }

    /** The tail of fetchOne for a request pinned at the end of the whole range. */
    method HandleBeast(r: Range, raw: seq<nat>)
      requires cfg.Holds(r)
      modifies this
      ensures View() == RespondBeast(cfg, old(View()), r, raw)
    {
      hide Trim, CoveredTo, Split, SortByFrom;
      var covered := CoveredTo(cfg, r, raw, true);
      var body := raw;
      if raw != [] && raw[|raw| - 1] > covered {
        body := TruncateRaw(raw, covered);
      }
      var chunk := Chunk(r.from, covered, body);
      if OnlyMarker(cfg, chunk) {
        empties := empties + 1;
      } else {
        empties := 0;
        beast := false;
        gapSpan := ClampSpan(covered + 1 - r.from);
      }
      if covered > r.to && nextBlock <= covered + 1 {
        nextBlock := covered + 1;
      }
      DeliverChunk(chunk);
      if covered < r.to {
        EnqueueGaps(covered + 1, r.to, gapSpan);
      }
    }

    /** One pass of the consumer's loop under the mutex. */
    method TryNext(done: bool) returns (e: Emission)
      modifies this
      ensures (View(), e) == Next(old(View()), done)
    {
      var key := nextEmit;
      if key !in ready {
        if !done {
          return Blocked;
        }
        if ready.Keys == {} {
          return Drained;
        }
        key := LowestReady();
      }
      e := Emitted(ready[key]);
      nextEmit := ready[key].coveredTo + 1;
      ready := ready - {key};
    }

    method LowestReady() returns (key: nat)
      requires ready.Keys != {}
      ensures key == Least(ready.Keys)
    {
      var left := ready.Keys;
      key :| key in left;
      while left != {}
        invariant left <= ready.Keys && key in ready.Keys
        invariant forall x :: x in ready.Keys ==> x in left || key <= x
        decreases left
      {
        var k :| k in left;
        if k < key {
          key := k;
        }
        left := left - {k};
      }
    }

    /** Drops the overshoot tail of a response body. */
    method TruncateRaw(raw: seq<nat>, maxBlock: nat) returns (kept: seq<nat>)
      ensures kept == Trim(raw, maxBlock)
    {
      var keep := 0;
      while keep < |raw| && raw[keep] <= maxBlock
        invariant 0 <= keep <= |raw|
        invariant Trim(raw, maxBlock) == raw[..keep] + Trim(raw[keep..], maxBlock)
      {
        assert raw[keep..][1..] == raw[keep + 1..];
        assert raw[..keep + 1] == raw[..keep] + [raw[keep]];
        keep := keep + 1;
      }
      return raw[..keep];
    }
  }
}
