/**
 The partition invariant of the prefetcher and its preservation by every step.
 */
module PrefetchInvariant {
  import opened Tiling
  import opened Prefetcher
  import opened PrefetchProtocol

  // ----- how the containers change -----

  lemma BufferAdd(ready: map<nat, Chunk>, c: Chunk)
    requires c.from !in ready
    ensures BufferedPieces(ready[c.from := c]) == BufferedPieces(ready) + {Buffered(Range(c.from, c.coveredTo))}
  {
    var ready' := ready[c.from := c];
    assert c.from in ready';
    forall p | p in BufferedPieces(ready) ensures p in BufferedPieces(ready') {
      var k :| k in ready && p == Buffered(Range(ready[k].from, ready[k].coveredTo));
      assert k in ready';
    }
  }

  lemma BufferTake(ready: map<nat, Chunk>, key: nat)
    requires key in ready && forall k :: k in ready ==> ready[k].from == k
    ensures BufferedPieces(ready - {key}) == BufferedPieces(ready) - {Buffered(Range(key, ready[key].coveredTo))}
  {
    var ready' := ready - {key};
    forall p | p in BufferedPieces(ready) && p != Buffered(Range(key, ready[key].coveredTo))
      ensures p in BufferedPieces(ready')
    {
      var k :| k in ready && p == Buffered(Range(ready[k].from, ready[k].coveredTo));
      assert k in ready';
    }
  }

  lemma QueueTake(gaps: seq<Range>)
    requires Ascending(gaps) && gaps != []
    ensures QueuedPieces(gaps[1..]) == QueuedPieces(gaps) - {Queued(gaps[0])}
    ensures Queued(gaps[0]) in QueuedPieces(gaps)
  {
    assert gaps == [gaps[0]] + gaps[1..];
    assert gaps[0] in gaps;
    forall p | p in QueuedPieces(gaps[1..]) ensures p != Queued(gaps[0]) {
      var g :| g in gaps[1..] && p == Queued(g);
      var i :| 0 <= i < |gaps[1..]| && gaps[1..][i] == g;
      assert gaps[0].from < gaps[i + 1].from;
    }
  }

  lemma ClaimUpdate(pcs: seq<Pc>, w: nat, pc: Pc)
    requires w < |pcs|
    ensures ClaimedPieces(pcs[w := pc]) ==
            ClaimedPieces(pcs) - (if pcs[w].Holding() then {Claimed(w, pcs[w].range)} else {})
            + (if pc.Holding() then {Claimed(w, pc.range)} else {})
  {
    var pcs' := pcs[w := pc];
    forall p | p in ClaimedPieces(pcs') && !(pc.Holding() && p == Claimed(w, pc.range))
      ensures p in ClaimedPieces(pcs) && !(pcs[w].Holding() && p == Claimed(w, pcs[w].range))
    {
      var v: nat :| v < |pcs'| && pcs'[v].Holding() && p == Claimed(v, pcs'[v].range);
      assert v != w && pcs[v] == pcs'[v];
    }
    forall p | p in ClaimedPieces(pcs) && !(pcs[w].Holding() && p == Claimed(w, pcs[w].range))
      ensures p in ClaimedPieces(pcs')
    {
      var v: nat :| v < |pcs| && pcs[v].Holding() && p == Claimed(v, pcs[v].range);
      assert v != w && pcs'[v] == pcs[v];
    }
    if pc.Holding() {
      assert pcs'[w] == pc;
    }
  }

  lemma BusyUpdate(pcs: seq<Pc>, w: nat, pc: Pc)
    requires w < |pcs|
    ensures |BusyWorkers(pcs[w := pc])| ==
            |BusyWorkers(pcs)| - (if pcs[w].Busy() then 1 else 0) + (if pc.Busy() then 1 else 0)
    ensures pcs[w].Busy() ==> |BusyWorkers(pcs)| >= 1
  {
    var before, after := BusyWorkers(pcs), BusyWorkers(pcs[w := pc]);
    assert before - {w} == after - {w};
    assert |before| == |before - {w}| + (if pcs[w].Busy() then 1 else 0);
    assert |after| == |after - {w}| + (if pc.Busy() then 1 else 0);
  }

  /** With at most one busy worker, a busy one is the only one. */
  lemma OnlyBusy(pcs: seq<Pc>, w: nat)
    requires w < |pcs| && pcs[w].Busy() && |BusyWorkers(pcs)| <= 1
    ensures BusyWorkers(pcs) == {w}
  {
    assert w in BusyWorkers(pcs);
    assert |BusyWorkers(pcs) - {w}| == 0;
  }

  // ----- splitting and sorting gaps -----

  ghost predicate DistinctStarts(gs: seq<Range>) {
    forall i, j :: 0 <= i < j < |gs| ==> gs[i].from != gs[j].from
  }

  lemma {:induction false} InsertHas(g: Range, gs: seq<Range>)
    ensures forall x :: x in Insert(g, gs) <==> x == g || x in gs
  {
    if gs != [] && g.from >= gs[0].from {
      InsertHas(g, gs[1..]);
      assert gs == [gs[0]] + gs[1..];
    }
  }

  lemma {:induction false} InsertKeeps(g: Range, gs: seq<Range>)
    ensures forall x :: x in Insert(g, gs) <==> x == g || x in gs
    ensures Ascending(gs) && (forall x :: x in gs ==> x.from != g.from) ==> Ascending(Insert(g, gs))
  {
    InsertHas(g, gs);
    if gs != [] && g.from >= gs[0].from && Ascending(gs) && forall x :: x in gs ==> x.from != g.from {
      InsertKeeps(g, gs[1..]);
      InsertHas(g, gs[1..]);
      assert gs[0] in gs;
      forall x | x in Insert(g, gs[1..]) ensures gs[0].from < x.from {
        if x != g {
          var i :| 0 <= i < |gs[1..]| && gs[1..][i] == x;
          assert gs[i + 1] == x;
        }
      }
    }
  }

  /** Sorting keeps the queued ranges and, when their starts differ, orders them strictly. */
  lemma {:induction false} SortKeeps(gs: seq<Range>)
    ensures forall x :: x in SortByFrom(gs) <==> x in gs
    ensures DistinctStarts(gs) ==> Ascending(SortByFrom(gs))
  {
    if gs != [] {
      SortKeeps(gs[1..]);
      InsertKeeps(gs[0], SortByFrom(gs[1..]));
      assert gs == [gs[0]] + gs[1..];
      if DistinctStarts(gs) {
        assert DistinctStarts(gs[1..]);
        forall x | x in SortByFrom(gs[1..]) ensures x.from != gs[0].from {
          var i :| 0 <= i < |gs[1..]| && gs[1..][i] == x;
          assert gs[i + 1] == x;
        }
      }
    }
  }

  /** The units cut from a remainder tile it. */
  lemma {:induction false} SplitTiles(from: nat, to: nat, span: nat)
    requires from <= to + 1 && span >= 1
    ensures Tiles(QueuedPieces(Split(from, to, span)), from, to + 1)
    ensures Ascending(Split(from, to, span))
    ensures forall g :: g in Split(from, to, span) ==> from <= g.from <= g.to <= to
    decreases 1 + to - from
  {
    if from <= to {
      var end := Min(from + span - 1, to);
      var rest := Split(end + 1, to, span);
      SplitTiles(end + 1, to, span);
      var units := Split(from, to, span);
      assert units == [Range(from, end)] + rest;
      Single(Queued(Range(from, end)));
      Join({Queued(Range(from, end))}, QueuedPieces(rest), from, end + 1, to + 1);
      assert QueuedPieces(units) == {Queued(Range(from, end))} + QueuedPieces(rest);
    }
  }

  lemma EnqueueKeeps(gaps: seq<Range>, from: nat, to: nat, span: nat)
    requires span >= 1 && from <= to && Ascending(gaps)
    requires forall g :: g in gaps ==> g.from < from || to < g.from
    ensures var gaps' := SortByFrom(gaps + Split(from, to, span));
            && Ascending(gaps')
            && QueuedPieces(gaps') == QueuedPieces(gaps) + QueuedPieces(Split(from, to, span))
            && Tiles(QueuedPieces(Split(from, to, span)), from, to + 1)
  {
    var units := Split(from, to, span);
    SplitTiles(from, to, span);
    SortKeeps(gaps + units);
    forall i, j | 0 <= i < j < |gaps + units| ensures (gaps + units)[i].from != (gaps + units)[j].from {
      if i < |gaps| <= j {
        assert gaps[i] in gaps && units[j - |gaps|] in units;
      }
    }
  }

  // ----- consequences of the partition -----

  lemma ClaimedHolds(cfg: Config, s: State, w: nat)
    requires Wellformed(cfg, s) && Partitioned(s) && w < |s.pcs| && s.pcs[w].Holding()
    ensures var r := s.pcs[w].range;
            && Claimed(w, r) in Pieces(s)
            && s.sh.nextEmit <= r.from <= r.to < s.sh.nextBlock <= cfg.end + 1
            && cfg.Holds(r)
            && (forall k :: k in s.sh.ready && s.sh.ready[k].from == k ==> s.sh.ready[k].coveredTo < r.from || r.to < k)
            && (forall g :: g in s.sh.gaps ==> g.from <= g.to && (g.to < r.from || r.to < g.from))
  {
    var r := s.pcs[w].range;
    var p := Claimed(w, r);
    assert p in ClaimedPieces(s.pcs);
    assert Within(p, s.sh.nextEmit, s.sh.nextBlock);
    forall k | k in s.sh.ready && s.sh.ready[k].from == k
      ensures s.sh.ready[k].coveredTo < r.from || r.to < k
    {
      var q := Buffered(Range(s.sh.ready[k].from, s.sh.ready[k].coveredTo));
      assert q in BufferedPieces(s.sh.ready);
      assert Apart(p, q);
    }
    forall g | g in s.sh.gaps ensures g.from <= g.to && (g.to < r.from || r.to < g.from) {
      assert Queued(g) in QueuedPieces(s.sh.gaps);
      assert Apart(p, Queued(g)) && Within(Queued(g), s.sh.nextEmit, s.sh.nextBlock);
    }
  }

  // ----- preservation of the partition -----

  /** Trading a held piece for others, container by container. */
  lemma Trade(bs: set<Piece>, qs: set<Piece>, cs: set<Piece>, p: Piece,
              moreB: set<Piece>, moreQ: set<Piece>, moreC: set<Piece>)
    requires p !in bs && p !in qs
    ensures (bs + moreB) + (qs + moreQ) + (cs - {p} + moreC) == (bs + qs + cs) - {p} + (moreB + moreQ + moreC)
  {
  }

  /** What a worker's own step does to the pieces, given what it does to the containers. */
  lemma HolderTrades(s: State, w: nat, s': State, moreB: set<Piece>, moreQ: set<Piece>)
    requires w < |s.pcs| == |s'.pcs| && s.pcs[w].Holding()
    requires s'.pcs == s.pcs[w := s'.pcs[w]]
    requires BufferedPieces(s'.sh.ready) == BufferedPieces(s.sh.ready) + moreB
    requires QueuedPieces(s'.sh.gaps) == QueuedPieces(s.sh.gaps) + moreQ
    ensures var moreC := if s'.pcs[w].Holding() then {Claimed(w, s'.pcs[w].range)} else {};
            Pieces(s') == Pieces(s) - {Claimed(w, s.pcs[w].range)} + (moreB + moreQ + moreC)
  {
    ClaimUpdate(s.pcs, w, s'.pcs[w]);
    Trade(BufferedPieces(s.sh.ready), QueuedPieces(s.sh.gaps), ClaimedPieces(s.pcs), Claimed(w, s.pcs[w].range),
          moreB, moreQ, if s'.pcs[w].Holding() then {Claimed(w, s'.pcs[w].range)} else {});
  }

  /** A worker that takes or gives up nothing leaves the pieces alone. */
  lemma SamePieces(s: State, w: nat, s': State, pc: Pc)
    requires w < |s.pcs| && !s.pcs[w].Holding() && !pc.Holding() && s'.pcs == s.pcs[w := pc]
    requires s'.sh.ready == s.sh.ready && s'.sh.gaps == s.sh.gaps
    ensures Pieces(s') == Pieces(s)
  {
    ClaimUpdate(s.pcs, w, pc);
  }

  lemma GapTaken(s: State, w: nat, s': State)
    requires Ascending(s.sh.gaps) && s.sh.gaps != [] && w < |s.pcs| && s.pcs[w].Idle?
    requires s'.sh.ready == s.sh.ready && s'.sh.gaps == s.sh.gaps[1..]
    requires s'.pcs == s.pcs[w := Fetching(s.sh.gaps[0])]
    ensures Queued(s.sh.gaps[0]) in Pieces(s)
    ensures Pieces(s') == Pieces(s) - {Queued(s.sh.gaps[0])} + {Claimed(w, s.sh.gaps[0])}
  {
    QueueTake(s.sh.gaps);
    ClaimUpdate(s.pcs, w, Fetching(s.sh.gaps[0]));
  }

  lemma CursorTaken(s: State, w: nat, s': State, r: Range)
    requires w < |s.pcs| && s.pcs[w].Idle?
    requires s'.sh.ready == s.sh.ready && s'.sh.gaps == s.sh.gaps && s'.pcs == s.pcs[w := Fetching(r)]
    ensures Pieces(s') == Pieces(s) + {Claimed(w, r)}
  {
    ClaimUpdate(s.pcs, w, Fetching(r));
  }

  lemma GapTakenPartition(s: State, w: nat, s': State)
    requires Partitioned(s) && Ascending(s.sh.gaps) && s.sh.gaps != [] && w < |s.pcs| && s.pcs[w].Idle?
    requires s'.sh.ready == s.sh.ready && s'.sh.gaps == s.sh.gaps[1..]
    requires s'.pcs == s.pcs[w := Fetching(s.sh.gaps[0])]
    requires s'.sh.nextEmit == s.sh.nextEmit && s'.sh.nextBlock == s.sh.nextBlock
    ensures Partitioned(s')
  {
    hide Tiles;
    GapTaken(s, w, s');
    hide Pieces;
    Relabel(Pieces(s), Queued(s.sh.gaps[0]), Claimed(w, s.sh.gaps[0]), s.sh.nextEmit, s.sh.nextBlock);
  }

  lemma CursorTakenPartition(s: State, w: nat, s': State, r: Range)
    requires Partitioned(s) && w < |s.pcs| && s.pcs[w].Idle? && r.from == s.sh.nextBlock <= r.to
    requires s'.sh.ready == s.sh.ready && s'.sh.gaps == s.sh.gaps && s'.pcs == s.pcs[w := Fetching(r)]
    requires s'.sh.nextEmit == s.sh.nextEmit && s'.sh.nextBlock == r.to + 1
    ensures Partitioned(s')
  {
    hide Tiles;
    CursorTaken(s, w, s', r);
    hide Pieces;
    Single(Claimed(w, r));
    Join(Pieces(s), {Claimed(w, r)}, s.sh.nextEmit, r.from, r.to + 1);
  }

  lemma ClaimPartition(cfg: Config, world: set<nat>, s: State, a: Action, s': State)
    requires Inv(cfg, world, s) && a.ClaimWork? && Step(cfg, world, s, a, s')
    ensures Partitioned(s')
  {
    hide Tiles, Pieces, Sound;
    var work := Claim(cfg, s.sh, a.windowSpan, a.strideSpan).1;
    if work.Stop? {
      SamePieces(s, a.w, s', Exited);
    } else if s'.sh.gaps != s.sh.gaps {
      GapTakenPartition(s, a.w, s');
    } else {
      CursorTakenPartition(s, a.w, s', work.range);
    }
  }

  /** The chunk and the remainder of a pinned answer. */
  ghost function AnswerPieces(w: nat, r: Range, covered: nat): set<Piece> {
    {Buffered(Range(r.from, covered))} + if covered < r.to then {Claimed(w, Range(covered + 1, r.to))} else {}
  }

  /** They tile the unit. */
  lemma AnswerTiles(w: nat, r: Range, covered: nat)
    requires r.from <= covered <= r.to
    ensures Tiles(AnswerPieces(w, r, covered), r.from, r.to + 1)
  {
    hide Tiles;
    var q := Buffered(Range(r.from, covered));
    Single(q);
    if covered < r.to {
      Single(Claimed(w, Range(covered + 1, r.to)));
      Join({q}, {Claimed(w, Range(covered + 1, r.to))}, r.from, covered + 1, r.to + 1);
    } else {
      assert {q} + {} == {q};
    }
  }

  /** What a pinned answer does to the pieces. */
  lemma AnswerPinnedPieces(cfg: Config, world: set<nat>, s: State, a: Action, s': State)
    requires Inv(cfg, world, s) && a.AnswerPinned? && Step(cfg, world, s, a, s')
    ensures var r := s.pcs[a.w].range;
            var covered := CoveredTo(cfg, r, a.raw, false);
            && r.from <= covered <= r.to && Claimed(a.w, r) in Pieces(s)
            && Pieces(s') == Pieces(s) - {Claimed(a.w, r)} + AnswerPieces(a.w, r, covered)
            && s'.sh.nextEmit == s.sh.nextEmit && s'.sh.nextBlock == s.sh.nextBlock
  {
    hide Tiles, Pieces, Rising;
    var r := s.pcs[a.w].range;
    var c := ChunkFor(cfg, r, a.raw, false);
    ClaimedHolds(cfg, s, a.w);
    BufferAdd(s.sh.ready, c);
    HolderTrades(s, a.w, s', {Buffered(Range(r.from, c.coveredTo))}, {});
    assert {Buffered(Range(r.from, c.coveredTo))} + {} == {Buffered(Range(r.from, c.coveredTo))};
  }

  lemma AnswerPinnedPartition(cfg: Config, world: set<nat>, s: State, a: Action, s': State)
    requires Inv(cfg, world, s) && a.AnswerPinned? && Step(cfg, world, s, a, s')
    ensures Partitioned(s')
  {
    var r := s.pcs[a.w].range;
    var covered := CoveredTo(cfg, r, a.raw, false);
    AnswerPinnedPieces(cfg, world, s, a, s');
    hide Tiles, Pieces, Sound, Wellformed, Step, AnswerPieces;
    AnswerTiles(a.w, r, covered);
    Refine(Pieces(s), Claimed(a.w, r), AnswerPieces(a.w, r, covered), s.sh.nextEmit, s.sh.nextBlock);
  }

  lemma RequeuePartition(cfg: Config, s: State, a: Action, s': State)
    requires Wellformed(cfg, s) && Partitioned(s) && a.Requeue? && Step(cfg, {}, s, a, s')
    ensures Partitioned(s') && Ascending(s'.sh.gaps)
  {
    hide Tiles;
    var r := s.pcs[a.w].range;
    var p := Claimed(a.w, r);
    var qs := QueuedPieces(Split(r.from, r.to, ClampSpan(a.span)));
    ClaimedHolds(cfg, s, a.w);
    EnqueueKeeps(s.sh.gaps, r.from, r.to, ClampSpan(a.span));
    HolderTrades(s, a.w, s', {}, qs);
    assert {} + qs + {} == qs;
    Refine(Pieces(s), p, qs, s.sh.nextEmit, s.sh.nextBlock);
  }

  ghost function BeastUnits(s': State, r: Range, covered: nat): set<Piece> {
    if covered < r.to then QueuedPieces(Split(covered + 1, r.to, ClampSpan(s'.sh.gapSpan))) else {}
  }

  lemma AnswerBeastContainers(cfg: Config, s: Shared, r: Range, raw: seq<nat>)
    requires cfg.Holds(r)
    ensures var covered := CoveredTo(cfg, r, raw, true);
            var s' := RespondBeast(cfg, s, r, raw);
            && s'.ready == s.ready[r.from := ChunkFor(cfg, r, raw, true)]
            && s'.gaps == if covered < r.to
                          then SortByFrom(s.gaps + Split(covered + 1, r.to, ClampSpan(s'.gapSpan)))
                          else s.gaps
  {
  }

  lemma AnswerTrades(s: State, w: nat, s': State, c: Chunk, units: set<Piece>)
    requires w < |s.pcs| && s.pcs[w].Holding() && s'.pcs == s.pcs[w := Finishing]
    requires c.from !in s.sh.ready && s'.sh.ready == s.sh.ready[c.from := c]
    requires QueuedPieces(s'.sh.gaps) == QueuedPieces(s.sh.gaps) + units
    ensures Pieces(s') == Pieces(s) - {Claimed(w, s.pcs[w].range)} + ({Buffered(Range(c.from, c.coveredTo))} + units)
  {
    var q := Buffered(Range(c.from, c.coveredTo));
    BufferAdd(s.sh.ready, c);
    HolderTrades(s, w, s', {q}, units);
    assert {q} + units + {} == {q} + units;
  }

  /** The gaps left by an answer that may have fallen short of its unit. */
  lemma GapsAfter(gaps: seq<Range>, gaps': seq<Range>, r: Range, covered: nat, span: nat, units: set<Piece>)
    requires r.from <= covered && span >= 1 && Ascending(gaps)
    requires forall g :: g in gaps ==> g.from <= g.to && (g.to < r.from || r.to < g.from)
    requires gaps' == if covered < r.to then SortByFrom(gaps + Split(covered + 1, r.to, span)) else gaps
    requires units == if covered < r.to then QueuedPieces(Split(covered + 1, r.to, span)) else {}
    ensures Ascending(gaps') && QueuedPieces(gaps') == QueuedPieces(gaps) + units
    ensures covered < r.to ==> Tiles(units, covered + 1, r.to + 1)
  {
    hide SortByFrom, Split, Tiles, QueuedPieces;
    if covered < r.to {
      EnqueueKeeps(gaps, covered + 1, r.to, span);
    }
  }

  lemma AnswerBeastGaps(cfg: Config, s: State, s': State, r: Range, raw: seq<nat>)
    requires cfg.Holds(r) && s'.sh == RespondBeast(cfg, s.sh, r, raw) && Ascending(s.sh.gaps)
    requires forall g :: g in s.sh.gaps ==> g.from <= g.to && (g.to < r.from || r.to < g.from)
    ensures Ascending(s'.sh.gaps)
    ensures var covered := CoveredTo(cfg, r, raw, true);
            && QueuedPieces(s'.sh.gaps) == QueuedPieces(s.sh.gaps) + BeastUnits(s', r, covered)
            && (covered < r.to ==> Tiles(BeastUnits(s', r, covered), covered + 1, r.to + 1))
  {
    hide SortByFrom, Split, Tiles, QueuedPieces, Ascending;
    AnswerBeastContainers(cfg, s.sh, r, raw);
    var covered := CoveredTo(cfg, r, raw, true);
    GapsAfter(s.sh.gaps, s'.sh.gaps, r, covered, ClampSpan(s'.sh.gapSpan), BeastUnits(s', r, covered));
  }

  /** What a beast answer does to the pieces and to the cursors. */
  lemma AnswerBeastPieces(cfg: Config, world: set<nat>, s: State, a: Action, s': State)
    requires Inv(cfg, world, s) && a.AnswerBeast? && Step(cfg, world, s, a, s')
    ensures var r := s.pcs[a.w].range;
            var covered := CoveredTo(cfg, r, a.raw, true);
            var units := BeastUnits(s', r, covered);
            && Ascending(s'.sh.gaps) && Claimed(a.w, r) in Pieces(s)
            && Pieces(s') == Pieces(s) - {Claimed(a.w, r)} + ({Buffered(Range(r.from, covered))} + units)
            && (covered < r.to ==> Tiles(units, covered + 1, r.to + 1))
            && s'.sh.nextEmit == s.sh.nextEmit
            && s'.sh.nextBlock == if covered > r.to then Max(s.sh.nextBlock, covered + 1) else s.sh.nextBlock
  {
    hide Tiles, Pieces, Rising;
    var r := s.pcs[a.w].range;
    var c := ChunkFor(cfg, r, a.raw, true);
    ClaimedHolds(cfg, s, a.w);
    AnswerBeastGaps(cfg, s, s', r, a.raw);
    AnswerTrades(s, a.w, s', c, BeastUnits(s', r, c.coveredTo));
  }

  lemma AnswerBeastPartition(cfg: Config, world: set<nat>, s: State, a: Action, s': State)
    requires Inv(cfg, world, s) && a.AnswerBeast? && Step(cfg, world, s, a, s')
    requires EndsAtCursor(cfg, s, a)
    ensures Partitioned(s') && Ascending(s'.sh.gaps)
  {
    var r := s.pcs[a.w].range;
    var covered := CoveredTo(cfg, r, a.raw, true);
    var p, q := Claimed(a.w, r), Buffered(Range(r.from, covered));
    var units := BeastUnits(s', r, covered);
    AnswerBeastPieces(cfg, world, s, a, s');
    hide Tiles, Pieces, Sound, Wellformed, Ascending;
    Single(q);
    if covered > r.to {
      Stretch(Pieces(s), p, q, s.sh.nextEmit, s.sh.nextBlock);
      assert {q} + units == {q};
    } else if covered < r.to {
      Join({q}, units, r.from, covered + 1, r.to + 1);
      Refine(Pieces(s), p, {q} + units, s.sh.nextEmit, s.sh.nextBlock);
    } else {
      Relabel(Pieces(s), p, q, s.sh.nextEmit, s.sh.nextBlock);
      assert {q} + units == {q};
    }
  }

  // ----- preservation of the rest -----

  lemma ClaimKeeps(cfg: Config, world: set<nat>, s: State, a: Action, s': State)
    requires Inv(cfg, world, s) && a.ClaimWork? && Step(cfg, world, s, a, s')
    ensures Inv(cfg, world, s')
  {
    ClaimPartition(cfg, world, s, a, s');
    hide Tiles, Pieces, Faithful, Contiguous;
    BusyUpdate(s.pcs, a.w, s'.pcs[a.w]);
  }

  lemma AnswerPinnedKeeps(cfg: Config, world: set<nat>, s: State, a: Action, s': State)
    requires Inv(cfg, world, s) && a.AnswerPinned? && Step(cfg, world, s, a, s')
    ensures Inv(cfg, world, s')
  {
    AnswerPinnedPartition(cfg, world, s, a, s');
    var r := s.pcs[a.w].range;
    ChunkIsFaithful(cfg, world, r, a.raw, false);
    BusyUpdate(s.pcs, a.w, s'.pcs[a.w]);
  }

  lemma AnswerBeastKeeps(cfg: Config, world: set<nat>, s: State, a: Action, s': State)
    requires Inv(cfg, world, s) && a.AnswerBeast? && Step(cfg, world, s, a, s')
    requires EndsAtCursor(cfg, s, a)
    ensures Inv(cfg, world, s')
  {
    AnswerBeastPartition(cfg, world, s, a, s');
    var r := s.pcs[a.w].range;
    ChunkIsFaithful(cfg, world, r, a.raw, true);
    BusyUpdate(s.pcs, a.w, Finishing);
  }

  lemma RequeueKeeps(cfg: Config, world: set<nat>, s: State, a: Action, s': State)
    requires Inv(cfg, world, s) && a.Requeue? && Step(cfg, world, s, a, s')
    ensures Inv(cfg, world, s')
  {
    RequeuePartition(cfg, s, a, s');
    hide Tiles, Pieces;
    BusyUpdate(s.pcs, a.w, Finishing);
  }

  lemma ReleaseKeeps(cfg: Config, world: set<nat>, s: State, a: Action, s': State)
    requires Inv(cfg, world, s) && a.Release? && Step(cfg, world, s, a, s')
    ensures Inv(cfg, world, s')
  {
    hide Tiles, Pieces;
    BusyUpdate(s.pcs, a.w, Idle);
    SamePieces(s, a.w, s', Idle);
  }

  /** When every worker has exited, nothing but buffered chunks is left. */
  lemma ExitedMeansDrained(cfg: Config, s: State)
    requires Wellformed(cfg, s) && AllExited(s.pcs)
    ensures s.sh.stopClaim && Pieces(s) == BufferedPieces(s.sh.ready)
  {
    assert s.pcs[0].Exited?;
    assert ClaimedPieces(s.pcs) == {};
  }

  /** The consumer only ever receives the chunk it is waiting for: the fallback to the
      lowest buffered chunk never fires. */
  lemma NextIsInOrder(cfg: Config, world: set<nat>, s: State)
    requires Inv(cfg, world, s) && Next(s.sh, AllExited(s.pcs)).1.Emitted?
    ensures s.sh.nextEmit in s.sh.ready
    ensures Next(s.sh, AllExited(s.pcs)) == (Take(s.sh, s.sh.nextEmit), Emitted(s.sh.ready[s.sh.nextEmit]))
  {
    if AllExited(s.pcs) && s.sh.ready.Keys != {} {
      ExitedMeansDrained(cfg, s);
      var k :| k in s.sh.ready;
      var held := Buffered(Range(s.sh.ready[k].from, s.sh.ready[k].coveredTo));
      assert held in Pieces(s);
      assert Within(held, s.sh.nextEmit, s.sh.nextBlock);
      var p := LowestStartsAPiece(Pieces(s), s.sh.nextEmit, s.sh.nextBlock);
      assert exists j :: j in s.sh.ready && p == Buffered(Range(s.sh.ready[j].from, s.sh.ready[j].coveredTo));
    }
  }

  lemma ConsumeKeeps(cfg: Config, world: set<nat>, s: State, a: Action, s': State)
    requires Inv(cfg, world, s) && a.Consume? && Step(cfg, world, s, a, s')
    ensures Inv(cfg, world, s')
  {
    NextIsInOrder(cfg, world, s);
    var lo := s.sh.nextEmit;
    var c := s.sh.ready[lo];
    var p := Buffered(Range(lo, c.coveredTo));
    assert p in BufferedPieces(s.sh.ready);
    BufferTake(s.sh.ready, lo);
    DropFirst(Pieces(s), p, lo, s.sh.nextBlock);
    assert Pieces(s') == Pieces(s) - {p};
  }

  /** Every step whose far jump, if any, starts from a unit that ends at the cursor keeps
      the invariant. */
  lemma StepKeeps(cfg: Config, world: set<nat>, s: State, a: Action, s': State)
    requires Inv(cfg, world, s) && Step(cfg, world, s, a, s') && EndsAtCursor(cfg, s, a)
    ensures Inv(cfg, world, s')
  {
    match a
    case ClaimWork(_, _, _) => ClaimKeeps(cfg, world, s, a, s');
    case AnswerPinned(_, _) => AnswerPinnedKeeps(cfg, world, s, a, s');
    case AnswerBeast(_, _) => AnswerBeastKeeps(cfg, world, s, a, s');
    case Requeue(_, _) => RequeueKeeps(cfg, world, s, a, s');
    case Release(_) => ReleaseKeeps(cfg, world, s, a, s');
    case Consume => ConsumeKeeps(cfg, world, s, a, s');
  }

  lemma StartHolds(cfg: Config, world: set<nat>)
    requires cfg.Ok()
    ensures Inv(cfg, world, Start(cfg))
  {
    var s := Start(cfg);
    assert Pieces(s) == {};
    assert BusyWorkers(s.pcs) == {};
  }
}
