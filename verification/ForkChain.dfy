/**
 Block references, and what fork handling computes on them.

 Both fork trackers of the repository, the ring of internal/ingestion/fork_go.go and the
 list of internal/fork_sqd/fork_sqd.go, are specified by the functions below; the lemmas say
 what those functions promise on their own.
 */
module ForkChain {
  import opened Rings
  import opened Options

  datatype Block = Block(number: nat, hash: string)

  ghost predicate Ascending(chain: seq<Block>) {
    forall i, j :: 0 <= i < j < |chain| ==> chain[i].number < chain[j].number
  }

  predicate Covers(finalized: Option<Block>, b: Block) {
    finalized.Some? && b.number <= finalized.value.number
  }

  ghost predicate Above(chain: seq<Block>, finalized: Option<Block>) {
    forall i :: 0 <= i < |chain| ==> !Covers(finalized, chain[i])
  }

  // ----- appending -----

  /** One block onto the chain: finalized and older ones are ignored, a same-number one replaces. */
  function Append(finalized: Option<Block>, chain: seq<Block>, b: Block): seq<Block> {
    if Covers(finalized, b) then chain
    else if chain == [] then [b]
    else
      var last := chain[|chain| - 1];
      if b.number < last.number then chain
      else if b.number == last.number then chain[|chain| - 1 := b]
      else chain + [b]
  }

  function AppendAll(finalized: Option<Block>, chain: seq<Block>, blocks: seq<Block>): seq<Block> {
    if blocks == [] then chain
    else Append(finalized, AppendAll(finalized, chain, blocks[..|blocks| - 1]), blocks[|blocks| - 1])
  }

  /** Appending and dropping the oldest at once, as the ring does. */
  function PushAll(limit: nat, finalized: Option<Block>, chain: seq<Block>, blocks: seq<Block>): seq<Block> {
    if blocks == [] then chain
    else LastN(limit, Append(finalized, PushAll(limit, finalized, chain, blocks[..|blocks| - 1]), blocks[|blocks| - 1]))
  }

  lemma CapSet(limit: nat, chain: seq<Block>, b: Block)
    requires 0 < limit < |chain|
    ensures LastN(limit, chain)[limit - 1] == chain[|chain| - 1]
    ensures LastN(limit, chain[|chain| - 1 := b]) == LastN(limit, chain)[limit - 1 := b]
  {
  }

  lemma CapSnoc(limit: nat, chain: seq<Block>, b: Block)
    requires 0 < limit < |chain|
    ensures LastN(limit, chain + [b]) == LastN(limit, LastN(limit, chain) + [b])
  {
  }

  lemma CapAppend(limit: nat, finalized: Option<Block>, chain: seq<Block>, b: Block)
    requires limit > 0
    ensures LastN(limit, Append(finalized, chain, b)) == LastN(limit, Append(finalized, LastN(limit, chain), b))
  {
    if |chain| > limit {
      CapSet(limit, chain, b);
      CapSnoc(limit, chain, b);
      var capped := LastN(limit, chain);
      assert |capped| == limit && LastN(limit, capped) == capped
          && LastN(limit, capped[limit - 1 := b]) == capped[limit - 1 := b];
      hide LastN;
    }
  }

  /** Capping after every block or once at the end of the batch is the same. */
  lemma {:induction false} CapsCommute(limit: nat, finalized: Option<Block>, chain: seq<Block>, blocks: seq<Block>)
    requires limit > 0
    ensures PushAll(limit, finalized, LastN(limit, chain), blocks) == LastN(limit, AppendAll(finalized, chain, blocks))
  {
    if blocks != [] {
      var n := |blocks| - 1;
      CapsCommute(limit, finalized, chain, blocks[..n]);
      CapAppend(limit, finalized, AppendAll(finalized, chain, blocks[..n]), blocks[n]);
    }
  }

  lemma AppendKeeps(finalized: Option<Block>, chain: seq<Block>, b: Block)
    requires Ascending(chain) && Above(chain, finalized)
    ensures Ascending(Append(finalized, chain, b)) && Above(Append(finalized, chain, b), finalized)
  {
  }

  lemma {:induction false} PushAllKeeps(limit: nat, finalized: Option<Block>, chain: seq<Block>, blocks: seq<Block>)
    requires Ascending(chain) && Above(chain, finalized) && |chain| <= limit
    ensures var r := PushAll(limit, finalized, chain, blocks);
            Ascending(r) && Above(r, finalized) && |r| <= limit
  {
    if blocks != [] {
      var n := |blocks| - 1;
      PushAllKeeps(limit, finalized, chain, blocks[..n]);
      AppendKeeps(finalized, PushAll(limit, finalized, chain, blocks[..n]), blocks[n]);
    }
  }

  // ----- filtering -----

  function Unfinalized(finalized: Option<Block>, blocks: seq<Block>): seq<Block> {
    if blocks == [] then []
    else
      var last := blocks[|blocks| - 1];
      Unfinalized(finalized, blocks[..|blocks| - 1]) + if Covers(finalized, last) then [] else [last]
  }

  /** Filtering a batch by a mark the chain's own mark has reached changes nothing. */
  lemma {:induction false} FilterIsRedundant(mark: Option<Block>, finalized: Option<Block>, chain: seq<Block>,
                                             blocks: seq<Block>)
    requires mark.Some? ==> finalized.Some? && mark.value.number <= finalized.value.number
    ensures AppendAll(finalized, chain, Unfinalized(mark, blocks)) == AppendAll(finalized, chain, blocks)
  {
    if blocks != [] {
      var n := |blocks| - 1;
      FilterIsRedundant(mark, finalized, chain, blocks[..n]);
      var before := Unfinalized(mark, blocks[..n]);
      if !Covers(mark, blocks[n]) {
        assert (before + [blocks[n]])[..|before|] == before;
      } else {
        assert before + [] == before;
      }
    }
  }

  /** Where a strictly ascending chain leaves the finalized part. */
  function FinalizedPrefix(finalized: Option<Block>, chain: seq<Block>): (n: nat)
    ensures n <= |chain|
    ensures forall i :: 0 <= i < n ==> Covers(finalized, chain[i])
    ensures n < |chain| ==> !Covers(finalized, chain[n])
  {
    if chain == [] || !Covers(finalized, chain[0]) then 0 else 1 + FinalizedPrefix(finalized, chain[1..])
  }

  lemma PrefixStep(finalized: Option<Block>, chain: seq<Block>, k: nat)
    requires k < |chain|
    ensures FinalizedPrefix(finalized, chain[k..]) ==
            if Covers(finalized, chain[k]) then 1 + FinalizedPrefix(finalized, chain[k + 1..]) else 0
    ensures chain[k..][0] == chain[k] && chain[k..][1..] == chain[k + 1..]
  {
    assert chain[k..][1..] == chain[k + 1..];
  }

  lemma PrefixEnd(finalized: Option<Block>, chain: seq<Block>, k: nat)
    requires k == |chain|
    ensures FinalizedPrefix(finalized, chain[k..]) == 0
  {
  }

  /** On a strictly ascending chain, filtering is dropping a prefix. */
  lemma {:induction false} FilterDropsPrefix(finalized: Option<Block>, chain: seq<Block>)
    requires Ascending(chain)
    ensures Unfinalized(finalized, chain) == chain[FinalizedPrefix(finalized, chain)..]
  {
    var n := FinalizedPrefix(finalized, chain);
    SplitFilter(finalized, chain, n);
  }

  lemma {:induction false} SplitFilter(finalized: Option<Block>, chain: seq<Block>, n: nat)
    requires n <= |chain|
    requires forall i :: 0 <= i < n ==> Covers(finalized, chain[i])
    requires forall i :: n <= i < |chain| ==> !Covers(finalized, chain[i])
    ensures Unfinalized(finalized, chain) == chain[n..]
  {
    if chain != [] {
      var m := |chain| - 1;
      if n <= m {
        SplitFilter(finalized, chain[..m], n);
        assert chain[n..] == chain[..m][n..] + [chain[m]];
      } else {
        SplitFilter(finalized, chain[..m], m);
      }
    }
  }

  lemma DropKeeps(finalized: Option<Block>, chain: seq<Block>)
    requires Ascending(chain)
    ensures var r := chain[FinalizedPrefix(finalized, chain)..]; Ascending(r) && Above(r, finalized)
  {
  }

  /** Pushing a strictly ascending chain one by one is taking its unfinalized tail. */
  lemma {:induction false} PushAscending(limit: nat, finalized: Option<Block>, blocks: seq<Block>)
    requires limit > 0 && Ascending(blocks)
    ensures PushAll(limit, finalized, [], blocks) == LastN(limit, Unfinalized(finalized, blocks))
  {
    AppendAscending(finalized, blocks);
    CapsCommute(limit, finalized, [], blocks);
  }

  lemma {:induction false} AppendAscending(finalized: Option<Block>, blocks: seq<Block>)
    requires Ascending(blocks)
    ensures AppendAll(finalized, [], blocks) == Unfinalized(finalized, blocks)
  {
    if blocks != [] {
      var n := |blocks| - 1;
      AppendAscending(finalized, blocks[..n]);
      UnfinalizedFrom(finalized, blocks[..n]);
      var before := Unfinalized(finalized, blocks[..n]);
      if before != [] {
        assert before[|before| - 1] in blocks[..n];
        var k :| 0 <= k < n && blocks[..n][k] == before[|before| - 1];
        assert blocks[k].number < blocks[n].number;
      }
      hide Ascending;
    }
  }

  lemma {:induction false} UnfinalizedFrom(finalized: Option<Block>, blocks: seq<Block>)
    ensures forall b :: b in Unfinalized(finalized, blocks) <==> b in blocks && !Covers(finalized, b)
  {
    if blocks != [] {
      UnfinalizedFrom(finalized, blocks[..|blocks| - 1]);
      assert blocks == blocks[..|blocks| - 1] + [blocks[|blocks| - 1]];
    }
  }

  // ----- the finalized head of a batch -----

  /** The first block above the header's finalized number, or the length. */
  function FirstUnfinalized(number: nat, blocks: seq<Block>): (i: nat)
    ensures i <= |blocks|
    ensures forall j :: 0 <= j < i ==> blocks[j].number <= number
    ensures i < |blocks| ==> blocks[i].number > number
  {
    if blocks == [] || blocks[0].number > number then 0 else 1 + FirstUnfinalized(number, blocks[1..])
  }

  /** Prefers a block of the batch to the header's claim. */
  function Effective(header: Option<Block>, blocks: seq<Block>): Option<Block> {
    if header.None? || blocks == [] then header
    else
      var i := FirstUnfinalized(header.value.number, blocks);
      if i == 0 then header else Some(blocks[i - 1])
  }

  /** The finality recorded never leads the header's, whatever the batch looks like. */
  lemma EffectiveNeverLeads(header: Option<Block>, blocks: seq<Block>)
    ensures Effective(header, blocks).Some? <==> header.Some?
    ensures header.Some? ==>
              var e := Effective(header, blocks).value;
              e.number <= header.value.number && (e == header.value || e in blocks)
  {
  }

  /** For an ascending batch it is the highest block of the batch the header covers. */
  lemma EffectiveIsHighest(header: Block, blocks: seq<Block>, b: Block)
    requires Ascending(blocks) && b in blocks && b.number <= header.number
    ensures var e := Effective(Some(header), blocks).value; e in blocks && b.number <= e.number
  {
    var i := FirstUnfinalized(header.number, blocks);
    var k :| 0 <= k < |blocks| && blocks[k] == b;
    assert k < i;
  }

  /** The higher mark wins; at equal height the recorded one stays. */
  function Raise(mark: Option<Block>, finalized: Option<Block>): Option<Block> {
    if finalized.Some? && (mark.None? || finalized.value.number > mark.value.number) then finalized else mark
  }

  // ----- finding the common ancestor -----

  /** Two cursors over the tracked chain and the sample; stops at the first disagreement. */
  function RollbackFrom(chain: seq<Block>, fork: seq<Block>, i: nat, j: nat, last: int): int
    requires i <= |chain| && j <= |fork|
    decreases |chain| - i + |fork| - j
  {
    if i == |chain| || j == |fork| then last
    else if chain[i].number < fork[j].number then RollbackFrom(chain, fork, i + 1, j, last)
    else if chain[i].number > fork[j].number then RollbackFrom(chain, fork, i, j + 1, last)
    else if chain[i].hash != fork[j].hash then last
    else RollbackFrom(chain, fork, i + 1, j + 1, i)
  }

  function RollbackIndex(chain: seq<Block>, fork: seq<Block>): int {
    RollbackFrom(chain, fork, 0, 0, -1)
  }

  lemma {:induction false} RollbackRange(chain: seq<Block>, fork: seq<Block>, i: nat, j: nat, last: int)
    requires i <= |chain| && j <= |fork| && -1 <= last < i
    ensures -1 <= RollbackFrom(chain, fork, i, j, last) < |chain| || RollbackFrom(chain, fork, i, j, last) == last
    ensures last <= RollbackFrom(chain, fork, i, j, last)
    decreases |chain| - i + |fork| - j
  {
    if i < |chain| && j < |fork| {
      if chain[i].number < fork[j].number {
        RollbackRange(chain, fork, i + 1, j, last);
      } else if chain[i].number > fork[j].number {
        RollbackRange(chain, fork, i, j + 1, last);
      } else if chain[i].hash == fork[j].hash {
        RollbackRange(chain, fork, i + 1, j + 1, i);
      }
    }
  }

  ghost predicate Meets(chain: seq<Block>, fork: seq<Block>, i: int, j: int) {
    0 <= i < |chain| && 0 <= j < |fork| && chain[i].number == fork[j].number
  }

  /** The two disagree at some common number behind position r and up to position x. */
  ghost predicate BrokenBetween(chain: seq<Block>, fork: seq<Block>, r: int, x: int) {
    exists k, l :: Meets(chain, fork, k, l) && r < k <= x && chain[k] != fork[l]
  }

  lemma SharedIsUnbroken(chain: seq<Block>, fork: seq<Block>, r: int, x: int, y: int)
    requires Ascending(fork) && HashConsistent(chain, fork) && Meets(chain, fork, x, y) && chain[x] == fork[y]
    ensures !BrokenBetween(chain, fork, r, x)
  {
  }

  /** Sharing a block means sharing everything before it, as hash-linked chains do. */
  ghost predicate HashConsistent(chain: seq<Block>, fork: seq<Block>) {
    forall i, j, k, l ::
      Meets(chain, fork, i, j) && Meets(chain, fork, k, l) && i < k && chain[k] == fork[l] ==> chain[i] == fork[j]
  }

  /** The loop so far: r is the last agreement behind the cursors, and nothing behind disagrees. */
  ghost predicate Searched(chain: seq<Block>, fork: seq<Block>, i: nat, j: nat, last: int) {
    && i <= |chain| && j <= |fork| && -1 <= last < i
    && (last >= 0 ==> chain[last] in fork[..j])
    && (forall x, y :: Meets(chain, fork, x, y) && (x < i || y < j) ==> x <= last && chain[x] == fork[y])
  }

  lemma {:induction false} SearchFinds(chain: seq<Block>, fork: seq<Block>, i: nat, j: nat, last: int)
    requires Ascending(chain) && Ascending(fork) && Searched(chain, fork, i, j, last)
    ensures var r := RollbackFrom(chain, fork, i, j, last);
            && -1 <= r < |chain| && (r >= 0 ==> chain[r] in fork)
            && (forall x, y :: Meets(chain, fork, x, y) && x <= r ==> chain[x] == fork[y])
            && (forall x, y :: Meets(chain, fork, x, y) && x > r ==>
                  BrokenBetween(chain, fork, r, x))
    decreases |chain| - i + |fork| - j
  {
    if i == |chain| || j == |fork| {
    } else if chain[i].number == fork[j].number && chain[i].hash != fork[j].hash {
      SearchBreaks(chain, fork, i, j, last);
    } else {
      SearchAdvances(chain, fork, i, j, last);
      hide Searched, Ascending, BrokenBetween, Meets;
      if chain[i].number < fork[j].number {
        SearchFinds(chain, fork, i + 1, j, last);
      } else if chain[i].number > fork[j].number {
        SearchFinds(chain, fork, i, j + 1, last);
      } else {
        SearchFinds(chain, fork, i + 1, j + 1, i);
      }
    }
  }

  lemma SearchAdvances(chain: seq<Block>, fork: seq<Block>, i: nat, j: nat, last: int)
    requires Ascending(chain) && Ascending(fork) && Searched(chain, fork, i, j, last)
    requires i < |chain| && j < |fork|
    ensures chain[i].number < fork[j].number ==> Searched(chain, fork, i + 1, j, last)
    ensures chain[i].number > fork[j].number ==> Searched(chain, fork, i, j + 1, last)
    ensures chain[i] == fork[j] ==> Searched(chain, fork, i + 1, j + 1, i)
  {
    assert fork[..j + 1] == fork[..j] + [fork[j]];
  }

  lemma SearchBreaks(chain: seq<Block>, fork: seq<Block>, i: nat, j: nat, last: int)
    requires Searched(chain, fork, i, j, last) && Meets(chain, fork, i, j) && chain[i] != fork[j]
    ensures forall x, y :: Meets(chain, fork, x, y) && x <= last ==> chain[x] == fork[y]
    ensures forall x, y :: Meets(chain, fork, x, y) && x > last ==> BrokenBetween(chain, fork, last, x)
  {
  }

  /**
   The rollback point on ascending chains: everything the two chains have in common up to it
   agrees, and right behind it, before any later agreement, they disagree.
   */
  lemma RollbackStopsAtDisagreement(chain: seq<Block>, fork: seq<Block>)
    requires Ascending(chain) && Ascending(fork)
    ensures var r := RollbackIndex(chain, fork);
            && -1 <= r < |chain| && (r >= 0 ==> chain[r] in fork)
            && (forall x, y :: Meets(chain, fork, x, y) && x <= r ==> chain[x] == fork[y])
            && (forall x, y :: Meets(chain, fork, x, y) && x > r ==>
                  BrokenBetween(chain, fork, r, x))
  {
    SearchFinds(chain, fork, 0, 0, -1);
  }

  /** On hash-consistent chains it is the highest block the two have in common. */
  lemma RollbackIsHighestCommon(chain: seq<Block>, fork: seq<Block>)
    requires Ascending(chain) && Ascending(fork) && HashConsistent(chain, fork)
    ensures var r := RollbackIndex(chain, fork);
            && r < |chain|
            && (r >= 0 <==> exists b :: b in chain && b in fork)
            && (r >= 0 ==> chain[r] in fork && forall b :: b in chain && b in fork ==> b.number <= chain[r].number)
  {
    hide RollbackIndex, BrokenBetween, HashConsistent;
    RollbackStopsAtDisagreement(chain, fork);
    var r := RollbackIndex(chain, fork);
    forall b | b in chain && b in fork ensures r >= 0 && b.number <= chain[r].number {
      var x :| 0 <= x < |chain| && chain[x] == b;
      var y :| 0 <= y < |fork| && fork[y] == b;
      assert Meets(chain, fork, x, y);
      SharedIsUnbroken(chain, fork, r, x, y);
    }
  }

  predicate AllBefore(blocks: seq<Block>, number: nat) {
    blocks != [] && forall i :: 0 <= i < |blocks| ==> blocks[i].number < number
  }

  // ----- answering a fork -----

  datatype Ancestor = Ancestor(safe: Block, kept: seq<Block>)

  function WithMark(finalized: Option<Block>, chain: seq<Block>): seq<Block> {
    (if finalized.Some? then [finalized.value] else []) + chain
  }

  function MarkLength(finalized: Option<Block>): nat {
    if finalized.Some? then 1 else 0
  }

  /** The block to roll back to and what stays tracked, or None when there is no answer. */
  function Rollback(finalized: Option<Block>, chain: seq<Block>, fork: seq<Block>): Option<Ancestor> {
    var full, start := WithMark(finalized, chain), MarkLength(finalized);
    var r := RollbackIndex(full, fork);
    RollbackRange(full, fork, 0, 0, -1);
    if r >= 0 then Some(Ancestor(full[r], if r < start then [] else full[start..r + 1]))
    else if finalized.Some? && AllBefore(fork, finalized.value.number) then Some(Ancestor(finalized.value, []))
    else None
  }

  /** Rollback in terms of the last common position: -1 for none, -2 for the finalized head. */
  lemma RollbackAt(finalized: Option<Block>, chain: seq<Block>, fork: seq<Block>, last: int)
    requires -2 <= last < |chain| && (last == -2 ==> finalized.Some?)
    requires RollbackIndex(WithMark(finalized, chain), fork) ==
             if last == -2 then 0 else if last == -1 then -1 else MarkLength(finalized) + last
    ensures Rollback(finalized, chain, fork) ==
            if last >= 0 then Some(Ancestor(chain[last], chain[..last + 1]))
            else if last == -2 || (finalized.Some? && AllBefore(fork, finalized.value.number))
            then Some(Ancestor(finalized.value, []))
            else None
  {
    if last >= 0 {
      var full, start := WithMark(finalized, chain), MarkLength(finalized);
      assert full[start..start + last + 1] == chain[..last + 1];
    }
  }

  /** An answer keeps the first n tracked blocks and returns the last of them, or the finalized head. */
  lemma RollbackShape(finalized: Option<Block>, chain: seq<Block>, fork: seq<Block>) returns (n: nat)
    ensures n <= |chain|
    ensures var a := Rollback(finalized, chain, fork);
            a.Some? ==>
              && a.value.kept == chain[..n]
              && if n == 0 then finalized == Some(a.value.safe) else a.value.safe == chain[n - 1]
  {
    var full, start := WithMark(finalized, chain), MarkLength(finalized);
    var r := RollbackIndex(full, fork);
    RollbackRange(full, fork, 0, 0, -1);
    n := if r >= start then r + 1 - start else 0;
    hide RollbackIndex;
    if r >= start {
      assert full[start..r + 1] == chain[..n];
    }
  }
}
