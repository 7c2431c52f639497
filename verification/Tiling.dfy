/**
 Sets of block ranges that tile an interval.

 The prefetcher scatters the blocks between the consumer and the shared cursor over
 several containers (buffered chunks, queued gaps, units held by workers).  A Piece names
 one such holding; Tiles says that a set of pieces cuts [lo, hi) without hole or overlap.
 */
module Tiling {

  datatype Range = Range(from: nat, to: nat) {
    predicate Contains(b: nat) { from <= b <= to }
  }

  datatype Piece =
    | Buffered(range: Range)
    | Queued(range: Range)
    | Claimed(worker: nat, range: Range)

  ghost predicate Within(p: Piece, lo: nat, hi: nat) {
    lo <= p.range.from <= p.range.to < hi
  }

  ghost predicate Apart(p: Piece, q: Piece) {
    p.range.to < q.range.from || q.range.to < p.range.from
  }

  ghost predicate Owned(ps: set<Piece>, b: nat) {
    exists p :: p in ps && p.range.Contains(b)
  }

  ghost predicate Tiles(ps: set<Piece>, lo: nat, hi: nat) {
    && lo <= hi
    && (forall p :: p in ps ==> Within(p, lo, hi))
    && (forall p, q :: p in ps && q in ps && p != q ==> Apart(p, q))
    && (forall b: nat :: lo <= b < hi ==> Owned(ps, b))
  }

  /** A piece may be replaced by any pieces that tile its own range. */
  lemma Refine(ps: set<Piece>, p: Piece, qs: set<Piece>, lo: nat, hi: nat)
    requires Tiles(ps, lo, hi) && p in ps
    requires Tiles(qs, p.range.from, p.range.to + 1)
    ensures Tiles(ps - {p} + qs, lo, hi)
  {
    var ps' := ps - {p} + qs;
    forall x | x in ps' ensures Within(x, lo, hi) {
      assert x in qs ==> Within(x, p.range.from, p.range.to + 1);
    }
    forall x, y | x in ps' && y in ps' && x != y ensures Apart(x, y) {
      assert x in qs ==> Within(x, p.range.from, p.range.to + 1);
      assert y in qs ==> Within(y, p.range.from, p.range.to + 1);
      if x !in qs && y in qs {
        assert Apart(x, p);
      } else if x in qs && y !in qs {
        assert Apart(y, p);
      }
    }
    forall b: nat | lo <= b < hi ensures Owned(ps', b) {
      assert Owned(ps, b);
      var x :| x in ps && x.range.Contains(b);
      if x == p {
        assert Owned(qs, b);
        var q :| q in qs && q.range.Contains(b);
        assert q in ps';
      } else {
        assert x in ps';
      }
    }
  }

  /** Handing a range over to another holder keeps the tiling. */
  lemma Relabel(ps: set<Piece>, p: Piece, q: Piece, lo: nat, hi: nat)
    requires Tiles(ps, lo, hi) && p in ps && p.range == q.range
    ensures Tiles(ps - {p} + {q}, lo, hi)
  {
    Single(q);
    Refine(ps, p, {q}, lo, hi);
  }

  lemma Single(q: Piece)
    requires q.range.from <= q.range.to
    ensures Tiles({q}, q.range.from, q.range.to + 1)
  {
    forall b: nat | q.range.Contains(b) ensures Owned({q}, b) {
      assert q in {q};
    }
  }

  /** Two tilings of adjacent intervals join. */
  lemma Join(ps: set<Piece>, qs: set<Piece>, lo: nat, mid: nat, hi: nat)
    requires Tiles(ps, lo, mid) && Tiles(qs, mid, hi)
    ensures Tiles(ps + qs, lo, hi)
  {
    var all := ps + qs;
    forall x | x in all ensures Within(x, lo, hi) {
      assert x in ps ==> Within(x, lo, mid);
      assert x in qs ==> Within(x, mid, hi);
    }
    forall x, y | x in all && y in all && x != y ensures Apart(x, y) {
      assert x in ps ==> Within(x, lo, mid);
      assert x in qs ==> Within(x, mid, hi);
      assert y in ps ==> Within(y, lo, mid);
      assert y in qs ==> Within(y, mid, hi);
    }
    forall b: nat | lo <= b < hi ensures Owned(all, b) {
      if b < mid {
        assert Owned(ps, b);
        var x :| x in ps && x.range.Contains(b);
        assert x in all;
      } else {
        assert Owned(qs, b);
        var x :| x in qs && x.range.Contains(b);
        assert x in all;
      }
    }
  }

  /** Removing the lowest piece moves the lower bound past it. */
  lemma DropFirst(ps: set<Piece>, p: Piece, lo: nat, hi: nat)
    requires Tiles(ps, lo, hi) && p in ps && p.range.from == lo
    ensures Tiles(ps - {p}, p.range.to + 1, hi)
  {
    assert Within(p, lo, hi);
    forall x | x in ps - {p} ensures Within(x, p.range.to + 1, hi) {
      assert Within(x, lo, hi);
      assert Apart(x, p);
    }
    forall b: nat | p.range.to + 1 <= b < hi ensures Owned(ps - {p}, b) {
      assert Owned(ps, b);
      var x :| x in ps && x.range.Contains(b);
      assert x in ps - {p};
    }
  }

  /** The lowest block of a nonempty tiling starts a piece. */
  lemma LowestStartsAPiece(ps: set<Piece>, lo: nat, hi: nat) returns (p: Piece)
    requires Tiles(ps, lo, hi) && lo < hi
    ensures p in ps && p.range.from == lo
  {
    assert Owned(ps, lo);
    p :| p in ps && p.range.Contains(lo);
    assert Within(p, lo, hi);
  }

  /** Removing the highest piece moves the upper bound down to its start. */
  lemma DropLast(ps: set<Piece>, p: Piece, lo: nat, hi: nat)
    requires Tiles(ps, lo, hi) && p in ps && p.range.to + 1 == hi
    ensures Tiles(ps - {p}, lo, p.range.from)
  {
    assert Within(p, lo, hi);
    forall x | x in ps - {p} ensures Within(x, lo, p.range.from) {
      assert Within(x, lo, hi);
      assert Apart(x, p);
    }
    forall b: nat | lo <= b < p.range.from ensures Owned(ps - {p}, b) {
      assert Owned(ps, b);
      var x :| x in ps && x.range.Contains(b);
      assert x in ps - {p};
    }
  }

  /** The highest piece may be replaced by a longer one, moving the upper bound with it. */
  lemma Stretch(ps: set<Piece>, p: Piece, q: Piece, lo: nat, hi: nat)
    requires Tiles(ps, lo, hi) && p in ps && p.range.to + 1 == hi
    requires q.range.from == p.range.from && p.range.to <= q.range.to
    ensures Tiles(ps - {p} + {q}, lo, q.range.to + 1)
  {
    assert Within(p, lo, hi);
    DropLast(ps, p, lo, hi);
    Single(q);
    Join(ps - {p}, {q}, lo, p.range.from, q.range.to + 1);
  }
}
