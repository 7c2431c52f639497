/**
 Hash chains threaded through integer arrays.

 Both CLOCK caches of the repository keep their index as a bucket array of chain heads and
 a `next` array of links, with a negative entry for "none" (coldcache/flatcold.go and the
 ring emitted by internal/codegen/hot_state.go).  Linked ties those two arrays to the list
 of slots on each chain; the lemmas say what one insertion and one unlinking do to it.
 */
module Chains {

  /** Following `next` from `head` visits exactly `chain`, then stops. */
  ghost predicate Follows(head: int, next: seq<int>, chain: seq<nat>) {
    && (forall j :: 0 <= j < |chain| ==> chain[j] < |next|)
    && (if chain == [] then head < 0 else head == chain[0] && next[chain[|chain| - 1]] < 0)
    && (forall j :: 0 <= j < |chain| - 1 ==> next[chain[j]] == chain[j + 1])
  }

  /** No slot occurs twice, be it on one chain or on two. */
  ghost predicate Separated(chains: seq<seq<nat>>) {
    && (forall b, i, j :: 0 <= b < |chains| && 0 <= i < j < |chains[b]| ==> chains[b][i] != chains[b][j])
    && (forall b, c, i, j ::
          0 <= b < |chains| && 0 <= c < |chains| && b != c && 0 <= i < |chains[b]| && 0 <= j < |chains[c]|
          ==> chains[b][i] != chains[c][j])
  }

  ghost predicate Linked(heads: seq<int>, next: seq<int>, chains: seq<seq<nat>>) {
    && |chains| == |heads|
    && Separated(chains)
    && forall b :: 0 <= b < |chains| ==> Follows(heads[b], next, chains[b])
  }

  ghost predicate OnSome(chains: seq<seq<nat>>, slot: nat) {
    exists b :: 0 <= b < |chains| && slot in chains[b]
  }

  /** The pointer reached after j links. */
  ghost function PointerAt(head: int, next: seq<int>, chain: seq<nat>, j: nat): int
    requires Follows(head, next, chain) && j <= |chain|
  {
    if j == 0 then head else next[chain[j - 1]]
  }

  lemma PointerIs(head: int, next: seq<int>, chain: seq<nat>, j: nat)
    requires Follows(head, next, chain) && j <= |chain|
    ensures j < |chain| ==> PointerAt(head, next, chain, j) == chain[j]
    ensures j == |chain| ==> PointerAt(head, next, chain, j) < 0
  {
  }

  /** Pushing a slot that is on no chain puts it in front of its bucket's chain. */
  lemma PushKeeps(heads: seq<int>, next: seq<int>, chains: seq<seq<nat>>, b: nat, slot: nat)
    requires Linked(heads, next, chains) && b < |heads| && slot < |next| && !OnSome(chains, slot)
    ensures Linked(heads[b := slot], next[slot := heads[b]], chains[b := [slot] + chains[b]])
  {
    var next', chains' := next[slot := heads[b]], chains[b := [slot] + chains[b]];
    forall c | 0 <= c < |chains| ensures Follows(heads[b := slot][c], next', chains'[c]) {
      assert Follows(heads[c], next, chains[c]);
      assert slot !in chains[c];
      assert forall j :: 0 <= j < |chains[c]| ==> chains[c][j] != slot;
    }
    forall c, i | 0 <= c < |chains'| && 0 <= i < |chains'[c]|
      ensures chains'[c][i] == slot ==> c == b && i == 0
    {
      assert slot !in chains[c];
      assert c == b && i > 0 ==> chains'[c][i] == chains[c][i - 1];
    }
  }

  function Cut(chain: seq<nat>, j: nat): seq<nat>
    requires j < |chain|
  {
    chain[..j] + chain[j + 1..]
  }

  /** Unlinking the j-th slot of a chain removes it from that chain and no other. */
  lemma CutKeeps(heads: seq<int>, next: seq<int>, chains: seq<seq<nat>>, b: nat, j: nat,
                 heads': seq<int>, next': seq<int>)
    requires Linked(heads, next, chains) && b < |chains| && j < |chains[b]|
    requires heads' == if j == 0 then heads[b := next[chains[b][j]]] else heads
    requires next' == (if j == 0 then next else next[chains[b][j - 1] := next[chains[b][j]]])[chains[b][j] := -1]
    ensures Linked(heads', next', chains[b := Cut(chains[b], j)])
    ensures !OnSome(chains[b := Cut(chains[b], j)], chains[b][j])
  {
    var chains' := chains[b := Cut(chains[b], j)];
    forall c | 0 <= c < |chains| ensures Follows(heads'[c], next', chains'[c]) {
      assert Follows(heads[c], next, chains[c]);
      if c == b {
        CutFollows(heads[b], next, chains[b], j, next');
      }
    }
    CutSeparated(chains, b, j);
  }

  lemma CutFollows(head: int, next: seq<int>, chain: seq<nat>, j: nat, next': seq<int>)
    requires Follows(head, next, chain) && j < |chain|
    requires forall i, k :: 0 <= i < k < |chain| ==> chain[i] != chain[k]
    requires next' == (if j == 0 then next else next[chain[j - 1] := next[chain[j]]])[chain[j] := -1]
    ensures Follows(if j == 0 then next[chain[j]] else head, next', Cut(chain, j))
  {
    var cut := Cut(chain, j);
    forall i | 0 <= i < |cut| - 1 ensures next'[cut[i]] == cut[i + 1] {
      var k := if i < j then i else i + 1;
      assert cut[i] == chain[k];
    }
  }

  lemma CutSeparated(chains: seq<seq<nat>>, b: nat, j: nat)
    requires Separated(chains) && b < |chains| && j < |chains[b]|
    ensures Separated(chains[b := Cut(chains[b], j)])
    ensures !OnSome(chains[b := Cut(chains[b], j)], chains[b][j])
  {
    var cut := Cut(chains[b], j);
    assert forall i :: 0 <= i < |cut| ==> cut[i] == chains[b][if i < j then i else i + 1];
  }

  /** Membership after a cut. */
  lemma CutMembers(chains: seq<seq<nat>>, b: nat, j: nat)
    requires Separated(chains) && b < |chains| && j < |chains[b]|
    ensures forall s :: s in Cut(chains[b], j) <==> s in chains[b] && s != chains[b][j]
  {
    var chain, cut := chains[b], Cut(chains[b], j);
    assert forall i :: 0 <= i < |cut| ==> cut[i] == chain[if i < j then i else i + 1];
    forall s | s in chain && s != chain[j] ensures s in cut {
      var i :| 0 <= i < |chain| && chain[i] == s;
      assert cut[if i < j then i else i - 1] == s;
    }
  }

  /** Empty buckets hold empty chains. */
  lemma EmptyIsLinked(heads: seq<int>, next: seq<int>)
    requires forall b :: 0 <= b < |heads| ==> heads[b] < 0
    ensures Linked(heads, next, seq(|heads|, _ => []))
  {
  }
}
