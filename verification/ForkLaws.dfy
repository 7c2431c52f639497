/**
 What a fork tracker answers and what it keeps, said about the blocks themselves.

 ForkRuns compares trackers that share the functions of ForkChain.  The laws below name
 none of them: they speak of the blocks known, the blocks sampled and the blocks kept.
 */
module ForkLaws {
  import opened Rings
  import opened Options
  import opened ForkChain
  import opened BlockRing
  import opened ForkTrackers
  import opened ForkRuns
  import opened ForkStates

  // ----- answering a fork -----

  /** The finalized head, if there is one, and the tracked blocks behind it. */
  ghost function Known(mark: Option<Block>, chain: seq<Block>): seq<Block> {
    if mark.Some? then [mark.value] + chain else chain
  }

  /** The two sides share known[x], and every height they share below it they share the block of. */
  ghost predicate Agrees(known: seq<Block>, sample: seq<Block>, x: int, y: int) {
    && 0 <= x < |known| && 0 <= y < |sample| && known[x] == sample[y]
    && forall k, l :: 0 <= k < x && 0 <= l < |sample| && known[k].number == sample[l].number ==> known[k] == sample[l]
  }

  /** The sample ends below the finalized head: the other side has not come that far. */
  ghost predicate Behind(mark: Option<Block>, sample: seq<Block>) {
    mark.Some? && sample != [] && forall b :: b in sample ==> b.number < mark.value.number
  }

  lemma IndexAgrees(known: seq<Block>, sample: seq<Block>, r: int) returns (y: int)
    requires Ascending(known) && Ascending(sample) && r == RollbackIndex(known, sample) >= 0
    ensures Agrees(known, sample, r, y)
  {
    RollbackStopsAtDisagreement(known, sample);
    hide RollbackIndex, BrokenBetween;
    y :| 0 <= y < |sample| && sample[y] == known[r];
    forall k, l | 0 <= k < r && 0 <= l < |sample| && known[k].number == sample[l].number
      ensures known[k] == sample[l]
    {
      assert Meets(known, sample, k, l);
    }
  }

  lemma AgreedIsUnbroken(known: seq<Block>, sample: seq<Block>, r: int, x: int, y: int, k: int, l: int)
    requires Ascending(sample) && Agrees(known, sample, x, y)
    requires Meets(known, sample, k, l) && r < k <= x
    ensures known[k] == sample[l]
  {
    assert k == x ==> sample[l].number == sample[y].number;
    assert sample[l].number == sample[y].number ==> l == y;
  }

  lemma AgreedIsBehindIndex(known: seq<Block>, sample: seq<Block>, x: int, y: int)
    requires Ascending(known) && Ascending(sample) && Agrees(known, sample, x, y)
    ensures x <= RollbackIndex(known, sample) < |known|
  {
    hide RollbackIndex, Ascending, RollbackFrom;
    RollbackStopsAtDisagreement(known, sample);
    var r := RollbackIndex(known, sample);
    assert Meets(known, sample, x, y);
    hide Agrees, Meets;
    if x > r {
      assert BrokenBetween(known, sample, r, x);
      var k, l :| Meets(known, sample, k, l) && r < k <= x && known[k] != sample[l];
      AgreedIsUnbroken(known, sample, r, x, y, k, l);
    }
  }

  /** The rollback point is the highest agreement, and there is one exactly when any exists. */
  lemma IndexIsAgreement(known: seq<Block>, sample: seq<Block>)
    requires Ascending(known) && Ascending(sample)
    ensures var r := RollbackIndex(known, sample);
            && -1 <= r < |known|
            && (r >= 0 <==> exists x, y :: Agrees(known, sample, x, y))
            && (r >= 0 ==> exists y :: Agrees(known, sample, r, y))
            && (forall x, y :: Agrees(known, sample, x, y) ==> x <= r)
  {
    RollbackRange(known, sample, 0, 0, -1);
    hide Ascending, Agrees, RollbackFrom;
    var r := RollbackIndex(known, sample);
    if r >= 0 {
      var y := IndexAgrees(known, sample, r);
    }
    forall x, y | Agrees(known, sample, x, y) ensures 0 <= x <= r {
      AgreedIsBehindIndex(known, sample, x, y);
      AgreesInRange(known, sample, x, y);
    }
  }

  lemma AgreesInRange(known: seq<Block>, sample: seq<Block>, x: int, y: int)
    requires Agrees(known, sample, x, y)
    ensures 0 <= x < |known|
  {
  }

  lemma BehindNeverAgrees(mark: Option<Block>, chain: seq<Block>, sample: seq<Block>)
    requires Above(chain, mark) && Behind(mark, sample)
    ensures forall x, y :: !Agrees(Known(mark, chain), sample, x, y)
  {
    forall y | 0 <= y < |sample| ensures sample[y].number < mark.value.number {
      assert sample[y] in sample;
    }
  }

  lemma BeforeIsBehind(mark: Option<Block>, sample: seq<Block>)
    ensures Behind(mark, sample) <==> mark.Some? && AllBefore(sample, mark.value.number)
  {
    if mark.Some? && AllBefore(sample, mark.value.number) {
      forall b | b in sample ensures b.number < mark.value.number {
        var i :| 0 <= i < |sample| && sample[i] == b;
      }
    }
    if Behind(mark, sample) {
      forall i | 0 <= i < |sample| ensures sample[i].number < mark.value.number {
        assert sample[i] in sample;
      }
    }
  }

  /**
   What a rollback answers and keeps: the highest agreement, with the tracked blocks up to
   it; or, when the sample is behind the finalized head, that head with nothing tracked; and
   nothing in every other case.
   */
  ghost predicate Answered(mark: Option<Block>, chain: seq<Block>, sample: seq<Block>, safe: Option<Block>,
                           kept: seq<Block>)
  {
    var known := Known(mark, chain);
    && (safe.Some? <==> (exists x, y :: Agrees(known, sample, x, y)) || Behind(mark, sample))
    && (safe.Some? && !Behind(mark, sample) ==>
          exists x, y :: Agrees(known, sample, x, y) && safe == Some(known[x]) && Known(mark, kept) == known[..x + 1])
    && (forall x, y :: safe.Some? && Agrees(known, sample, x, y) ==> known[x].number <= safe.value.number)
    && (Behind(mark, sample) ==> safe == mark && kept == [])
  }

  lemma AgreementIsAnswered(mark: Option<Block>, chain: seq<Block>, sample: seq<Block>, r: nat, y: int,
                            kept: seq<Block>)
    requires var known := Known(mark, chain);
             && Ascending(known) && Agrees(known, sample, r, y) && Known(mark, kept) == known[..r + 1]
             && forall x, y :: Agrees(known, sample, x, y) ==> x <= r
    requires !Behind(mark, sample)
    ensures Answered(mark, chain, sample, Some(Known(mark, chain)[r]), kept)
  {
    var known := Known(mark, chain);
    forall x, y | Agrees(known, sample, x, y) ensures known[x].number <= known[r].number {
      assert x == r || known[x].number < known[r].number;
    }
  }

  lemma RollbackKeeps(mark: Option<Block>, chain: seq<Block>, sample: seq<Block>)
    requires 0 <= RollbackIndex(Known(mark, chain), sample) < |Known(mark, chain)|
    ensures var known, a := Known(mark, chain), Rollback(mark, chain, sample);
            var r := RollbackIndex(known, sample);
            a.Some? && a.value.safe == known[r] && Known(mark, a.value.kept) == known[..r + 1]
  {
    var known := Known(mark, chain);
    assert WithMark(mark, chain) == known;
    hide RollbackIndex, RollbackFrom;
    var r := RollbackIndex(known, sample);
    assert mark.Some? && r > 0 ==> known[..r + 1] == [mark.value] + known[1..r + 1];
  }

  lemma KnownAscends(mark: Option<Block>, chain: seq<Block>)
    requires Ascending(chain) && Above(chain, mark)
    ensures Ascending(Known(mark, chain)) && WithMark(mark, chain) == Known(mark, chain)
  {
    MarkedAscends(mark, chain);
  }

  lemma AgreedIsNotBehind(mark: Option<Block>, chain: seq<Block>, sample: seq<Block>, x: int, y: int)
    requires Above(chain, mark) && Agrees(Known(mark, chain), sample, x, y)
    ensures !Behind(mark, sample)
  {
    if Behind(mark, sample) {
      BehindNeverAgrees(mark, chain, sample);
    }
  }

  lemma RollbackAgrees(mark: Option<Block>, chain: seq<Block>, sample: seq<Block>)
    requires Ascending(chain) && Above(chain, mark) && Ascending(sample)
    requires RollbackIndex(Known(mark, chain), sample) >= 0
    ensures var a := Rollback(mark, chain, sample);
            a.Some? && Answered(mark, chain, sample, Some(a.value.safe), a.value.kept)
  {
    hide *;
    var known := Known(mark, chain);
    KnownAscends(mark, chain);
    IndexIsAgreement(known, sample);
    RollbackKeeps(mark, chain, sample);
    var r := RollbackIndex(known, sample);
    var y :| Agrees(known, sample, r, y);
    AgreedIsNotBehind(mark, chain, sample, r, y);
    AgreementIsAnswered(mark, chain, sample, r, y, Rollback(mark, chain, sample).value.kept);
  }

  lemma RollbackAnswers(mark: Option<Block>, chain: seq<Block>, sample: seq<Block>)
    requires Ascending(chain) && Above(chain, mark) && Ascending(sample)
    ensures match Rollback(mark, chain, sample)
            case Some(a) => Answered(mark, chain, sample, Some(a.safe), a.kept)
            case None => Answered(mark, chain, sample, None, chain)
  {
    var known := Known(mark, chain);
    KnownAscends(mark, chain);
    if RollbackIndex(known, sample) >= 0 {
      RollbackAgrees(mark, chain, sample);
    } else {
      IndexIsAgreement(known, sample);
      BeforeIsBehind(mark, sample);
      hide RollbackIndex, AllBefore, Agrees, Ascending, Above, Behind, Known, WithMark;
    }
  }

  /** The ring tracker: an unanswered fork changes nothing, an answered one moves the cursor. */
  lemma RingAnswersIff(t: Tracked, sample: seq<Block>)
    requires Sound(t) && Ascending(sample)
    ensures var (t', safe) := RingFork(t, sample);
            && Answered(t.finalized, t.chain, sample, safe, t'.chain)
            && t'.finalized == t.finalized
            && (if safe.Some? then t'.current == safe else t' == t)
  {
    hide Rollback, Answered;
    RollbackAnswers(t.finalized, t.chain, sample);
  }

  /** The list tracker gives the same answers; an unanswered fork clears its chain and cursor. */
  lemma ListAnswersIff(t: Tracked, sample: seq<Block>)
    requires Sound(t) && Ascending(sample)
    ensures var (t', safe) := ListFork(t, sample);
            && (safe.Some? ==> Answered(t.finalized, t.chain, sample, safe, t'.chain))
            && (safe.None? ==> Answered(t.finalized, t.chain, sample, None, t.chain))
            && t'.finalized == t.finalized && t'.current == safe
            && (safe.None? ==> t'.chain == [])
  {
    RingAnswersIff(t, sample);
    ForkAgrees(t, sample);
    hide Rollback, Answered, AllBefore, RollbackIndex;
  }

  /** And so does the plain state, which knows no cursor. */
  lemma PlainAnswersIff(s: Plain, sample: seq<Block>)
    requires PlainSound(s) && Ascending(sample)
    ensures var (s', safe) := PlainFork(s, sample);
            && Answered(s.mark, s.heads, sample, safe, s'.heads)
            && s'.mark == s.mark && (safe.None? ==> s' == s)
  {
    hide Rollback, Answered;
    RollbackAnswers(s.mark, s.heads, sample);
  }

  // ----- after a batch -----

  /** The finality a batch reports: its highest block at or below the header's, or else the header's. */
  ghost predicate Reports(header: Block, blocks: seq<Block>, b: Block) {
    || (b in blocks && b.number <= header.number
        && forall c :: c in blocks && c.number <= header.number ==> c.number <= b.number)
    || (b == header && forall c :: c in blocks ==> header.number < c.number)
  }

  lemma EffectiveIsReported(header: Block, blocks: seq<Block>)
    requires Ascending(blocks)
    ensures Effective(Some(header), blocks).Some?
    ensures Reports(header, blocks, Effective(Some(header), blocks).value)
  {
    var i := FirstUnfinalized(header.number, blocks);
    forall c | c in blocks ensures c.number <= header.number <==> exists j :: 0 <= j < i && blocks[j] == c {
      var j :| 0 <= j < |blocks| && blocks[j] == c;
      assert i < |blocks| ==> blocks[i].number > header.number;
    }
  }

  /** The mark after a batch is what the batch reports, unless the old one is as high. */
  lemma MarkAfterBatch(t: Tracked, header: Option<Block>, blocks: seq<Block>)
    requires Ascending(blocks)
    ensures var mark := RingBatch(t, header, blocks).finalized;
            && (header.None? ==> mark == t.finalized)
            && (header.Some? ==>
                  exists b :: Reports(header.value, blocks, b)
                           && mark == if t.finalized.Some? && b.number <= t.finalized.value.number then t.finalized
                                      else Some(b))
  {
    if header.Some? {
      EffectiveIsReported(header.value, blocks);
      hide Effective, Reports;
      assert Reports(header.value, blocks, Effective(header, blocks).value);
    }
  }

  ghost predicate NoneAbove(chain: seq<Block>, number: nat) {
    forall c :: c in chain ==> c.number <= number
  }

  lemma LastIsHighest(chain: seq<Block>)
    requires Ascending(chain) && chain != []
    ensures var n := |chain| - 1;
            && NoneAbove(chain, chain[n].number)
            && (forall c :: c in chain[..n] ==> c.number < chain[n].number)
            && (forall c :: c in chain <==> c in chain[..n] || c == chain[n])
  {
    var n := |chain| - 1;
    assert chain == chain[..n] + [chain[n]];
    forall c | c in chain[..n] ensures c.number < chain[n].number {
      var i :| 0 <= i < n && chain[..n][i] == c;
    }
  }

  lemma ReplacedLast(chain: seq<Block>, b: Block, x: Block)
    requires chain != []
    ensures var n := |chain| - 1; x in chain[n := b] <==> x in chain[..n] || x == b
  {
    var n := |chain| - 1;
    assert chain[n := b] == chain[..n] + [b];
  }

  /** One block: it joins unless it is final or older than the newest, whose height it takes over. */
  lemma AppendHas(mark: Option<Block>, chain: seq<Block>, b: Block, x: Block)
    requires Ascending(chain) && Above(chain, mark)
    ensures x in Append(mark, chain, b) <==>
            || (x == b && (mark.Some? ==> mark.value.number < b.number) && NoneAbove(chain, b.number))
            || (x in chain && !(x.number == b.number && NoneAbove(chain, b.number)))
  {
    if chain != [] {
      LastIsHighest(chain);
      ReplacedLast(chain, b, x);
      assert chain[|chain| - 1] in chain;
      var i: int := if x in chain then var i :| 0 <= i < |chain| && chain[i] == x; i else 0;
      assert x in chain ==> !Covers(mark, chain[i]);
      hide Ascending, Above;
    }
  }

  /** Block x is tracked once a batch has been appended to what was kept. */
  ghost predicate Joined(mark: Option<Block>, kept: seq<Block>, blocks: seq<Block>, x: Block) {
    || (x in blocks && (mark.Some? ==> mark.value.number < x.number) && NoneAbove(kept, x.number))
    || (x in kept && !(NoneAbove(kept, x.number) && exists c :: c in blocks && c.number == x.number))
  }

  lemma JoinedStep(mark: Option<Block>, kept: seq<Block>, before: seq<Block>, b: Block, chain: seq<Block>, x: Block)
    requires Above(kept, mark)
    requires forall c :: c in before ==> c.number < b.number
    requires forall y :: y in chain <==> Joined(mark, kept, before, y)
    ensures Joined(mark, kept, before + [b], x) <==>
            || (x == b && (mark.Some? ==> mark.value.number < b.number) && NoneAbove(chain, b.number))
            || (x in chain && !(x.number == b.number && NoneAbove(chain, b.number)))
  {
    forall c ensures c in before + [b] <==> c in before || c == b {
    }
    if NoneAbove(kept, b.number) {
      forall c | c in chain ensures c.number <= b.number {
        assert Joined(mark, kept, before, c);
      }
    } else {
      var d :| d in kept && d.number > b.number;
      var top := Highest(kept);
      assert Joined(mark, kept, before, top);
      assert top in chain && top.number > b.number;
    }
    if x in kept && x.number == b.number && NoneAbove(kept, b.number) {
      assert !Joined(mark, kept, before + [b], x) || x == b;
    }
    if x in kept {
      var i :| 0 <= i < |kept| && kept[i] == x;
      assert !Covers(mark, x);
    }
  }

  lemma Highest(kept: seq<Block>) returns (top: Block)
    requires kept != []
    ensures top in kept && NoneAbove(kept, top.number)
  {
    if |kept| == 1 {
      top := kept[0];
    } else {
      var rest := kept[1..];
      top := Highest(rest);
      assert kept == [kept[0]] + rest;
      if kept[0].number > top.number {
        top := kept[0];
      }
    }
  }

  lemma {:induction false} AppendAllHas(mark: Option<Block>, kept: seq<Block>, blocks: seq<Block>)
    requires Ascending(kept) && Above(kept, mark) && Ascending(blocks)
    ensures var chain := AppendAll(mark, kept, blocks);
            Ascending(chain) && Above(chain, mark) && forall x :: x in chain <==> Joined(mark, kept, blocks, x)
  {
    if blocks != [] {
      var n := |blocks| - 1;
      var before, b := blocks[..n], blocks[n];
      AppendAllHas(mark, kept, before);
      var chain := AppendAll(mark, kept, before);
      AppendKeeps(mark, chain, b);
      assert blocks == before + [b];
      forall c | c in before ensures c.number < b.number {
        var i :| 0 <= i < n && before[i] == c;
        assert blocks[i] == c;
      }
      hide Ascending, Above, Joined, Append;
      forall x ensures x in AppendAll(mark, kept, blocks) <==> Joined(mark, kept, blocks, x) {
        AppendHas(mark, chain, b, x);
        JoinedStep(mark, kept, before, b, chain, x);
      }
    }
  }

  ghost predicate IsAbove(mark: Option<Block>, x: Block) {
    mark.Some? ==> mark.value.number < x.number
  }

  /** Block x is tracked, unless limit newer ones are. */
  ghost predicate HoldsNewest(limit: nat, chain: seq<Block>, x: Block) {
    x in chain || (|chain| == limit && forall c :: c in chain ==> x.number < c.number)
  }

  lemma LastHoldsNewest(limit: nat, chain: seq<Block>, x: Block)
    requires Ascending(chain)
    ensures x in LastN(limit, chain) ==> x in chain
    ensures x in chain ==> HoldsNewest(limit, LastN(limit, chain), x)
  {
    if |chain| > limit {
      var k := |chain| - limit;
      assert chain == chain[..k] + chain[k..];
      if x in chain[..k] {
        var i :| 0 <= i < k && chain[..k][i] == x;
        forall c | c in chain[k..] ensures x.number < c.number {
          var j :| 0 <= j < limit && chain[k..][j] == c;
          assert chain[k + j] == c && chain[i] == x;
        }
      }
    }
  }

  /** Pruning first changes nothing: what it drops is final, and so below whatever joins. */
  lemma PrunedJoin(mark: Option<Block>, chain: seq<Block>, kept: seq<Block>, blocks: seq<Block>, x: Block)
    requires forall c :: c in kept <==> c in chain && !Covers(mark, c)
    ensures Joined(mark, kept, blocks, x) <==> IsAbove(mark, x) && Joined(mark, chain, blocks, x)
  {
    if IsAbove(mark, x) {
      assert NoneAbove(kept, x.number) <==> NoneAbove(chain, x.number);
    }
  }

  /**
   A batch in ascending order: the tracked blocks are those above the new mark that joined or
   stayed, the newest 1024 of them, in ascending order; the cursor is the batch's last block.
   */
  lemma ChainAfterBatch(t: Tracked, header: Option<Block>, blocks: seq<Block>)
    requires Sound(t) && Ascending(blocks)
    ensures var t' := RingBatch(t, header, blocks);
            && (forall i, j :: 0 <= i < j < |t'.chain| ==> t'.chain[i].number < t'.chain[j].number)
            && |t'.chain| <= 1024
            && (forall x :: x in t'.chain ==> IsAbove(t'.finalized, x) && Joined(t'.finalized, t.chain, blocks, x))
            && (forall x :: IsAbove(t'.finalized, x) && Joined(t'.finalized, t.chain, blocks, x) ==>
                  HoldsNewest(1024, t'.chain, x))
            && t'.current == if blocks != [] then Some(blocks[|blocks| - 1])
                             else if t.current.Some? then t.current else t'.finalized
  {
    var mark := Raise(t.finalized, Effective(header, blocks));
    var kept := Unfinalized(mark, t.chain);
    BatchKeeps(t, header, blocks);
    KeptAgrees(t, mark);
    DropKeeps(mark, t.chain);
    FilterDropsPrefix(mark, t.chain);
    UnfinalizedFrom(mark, t.chain);
    AppendAllHas(mark, kept, blocks);
    assert LastN(SIZE, kept) == kept;
    CapsCommute(SIZE, mark, kept, blocks);
    hide Ascending, Above, Joined, HoldsNewest, NoneAbove, Unfinalized, AppendAll, LastN, Effective, Raise;
    forall x ensures var chain := RingBatch(t, header, blocks).chain;
        && (x in chain ==> IsAbove(mark, x) && Joined(mark, t.chain, blocks, x))
        && (IsAbove(mark, x) && Joined(mark, t.chain, blocks, x) ==> HoldsNewest(1024, chain, x))
    {
      LastHoldsNewest(SIZE, AppendAll(mark, kept, blocks), x);
      PrunedJoin(mark, t.chain, kept, blocks, x);
    }
  }

  /** A start in ascending order tracks the newest 1024 blocks above the mark it is given. */
  lemma ChainAfterStart(current: Option<Block>, mark: Option<Block>, heads: seq<Block>)
    requires Ascending(heads)
    ensures var t := RingInit(current, mark, heads);
            && t.finalized == mark
            && (forall i, j :: 0 <= i < j < |t.chain| ==> t.chain[i].number < t.chain[j].number)
            && (forall x :: x in t.chain ==> x in heads && IsAbove(mark, x))
            && (forall x :: x in heads && IsAbove(mark, x) ==> HoldsNewest(1024, t.chain, x))
            && t.current == if current.Some? then current
                            else if t.chain != [] then Some(t.chain[|t.chain| - 1]) else mark
  {
    InitKeeps(current, mark, heads);
    PushAscending(SIZE, mark, heads);
    UnfinalizedFrom(mark, heads);
    FilterDropsPrefix(mark, heads);
    DropKeeps(mark, heads);
    hide Ascending, Above, HoldsNewest, Unfinalized, LastN;
    forall x ensures var chain := RingInit(current, mark, heads).chain;
        && (x in chain ==> x in heads && IsAbove(mark, x))
        && (x in heads && IsAbove(mark, x) ==> HoldsNewest(1024, chain, x))
    {
      LastHoldsNewest(SIZE, Unfinalized(mark, heads), x);
    }
  }
}
