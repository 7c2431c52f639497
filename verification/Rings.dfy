/** Ring buffers: a window of `count` slots from `tail` on, read as a sequence. */
module Rings {

  /** The last n entries, or all of them. */
  function LastN<T>(n: nat, s: seq<T>): (r: seq<T>)
    ensures |r| <= n
  {
    if |s| <= n then s else s[|s| - n..]
  }

  function Next(size: nat, slot: nat): (r: nat)
    requires slot < size
    ensures r == if slot == size - 1 then 0 else slot + 1
  {
    (slot + 1) % size
  }

  /** The slot i steps on from tail. */
  function At(size: nat, tail: nat, i: nat): (slot: nat)
    requires tail < size && i <= size
    ensures slot < size
  {
    if tail + i < size then tail + i else tail + i - size
  }

  /** count entries read off a ring of slots from tail on. */
  function Ringed<T>(slots: seq<T>, tail: nat, count: nat): (chain: seq<T>)
    requires tail < |slots| && count <= |slots|
    ensures |chain| == count
    ensures forall i :: 0 <= i < count ==> chain[i] == slots[At(|slots|, tail, i)]
  {
    seq(count, i requires 0 <= i < count => slots[At(|slots|, tail, i)])
  }

  lemma AtNext(size: nat, tail: nat, i: nat)
    requires tail < size && i < size
    ensures Next(size, At(size, tail, i)) == At(size, tail, i + 1) == At(size, Next(size, tail), i)
    ensures At(size, tail, 0) == At(size, tail, size) == tail
  {
  }

  lemma AtDiffers(size: nat, tail: nat, i: nat, j: nat)
    requires tail < size && i < j < size
    ensures At(size, tail, i) != At(size, tail, j)
  {
  }

  lemma AtInjective(size: nat, tail: nat, tail': nat, i: nat)
    requires tail < size && tail' < size && i <= size && At(size, tail, i) == At(size, tail', i)
    ensures tail == tail'
  {
  }

  lemma RingTake<T>(slots: seq<T>, tail: nat, count: nat, n: nat)
    requires tail < |slots| && n <= count <= |slots|
    ensures Ringed(slots, tail, n) == Ringed(slots, tail, count)[..n]
  {
  }

  lemma RingDrop<T>(slots: seq<T>, tail: nat, count: nat)
    requires tail < |slots| && 0 < count <= |slots|
    ensures Ringed(slots, Next(|slots|, tail), count - 1) == Ringed(slots, tail, count)[1..]
  {
    forall i | 0 <= i < count - 1 ensures At(|slots|, Next(|slots|, tail), i) == At(|slots|, tail, i + 1) {
      AtNext(|slots|, tail, i);
    }
    hide At;
    forall i | 0 <= i < count - 1
      ensures Ringed(slots, Next(|slots|, tail), count - 1)[i] == Ringed(slots, tail, count)[1..][i]
    {
    }
  }

  lemma RingAdvance<T>(slots: seq<T>, tail: nat, count: nat)
    requires 0 < count <= |slots| && tail < |slots|
    ensures Ringed(slots, Next(|slots|, tail), count - 1) == Ringed(slots, tail, count)[1..]
    ensures Ringed(slots, tail, count)[0] == slots[tail]
    ensures count > 1 ==> At(|slots|, tail, count - 1) == At(|slots|, Next(|slots|, tail), count - 2)
  {
    AtNext(|slots|, tail, 0);
    RingDrop(slots, tail, count);
    if count > 1 {
      AtNext(|slots|, tail, count - 2);
    }
  }

  lemma RingReplace<T>(slots: seq<T>, tail: nat, count: nat, b: T)
    requires tail < |slots| && 0 < count <= |slots|
    ensures Ringed(slots[At(|slots|, tail, count - 1) := b], tail, count) == Ringed(slots, tail, count)[count - 1 := b]
  {
    forall i | 0 <= i < count - 1 ensures At(|slots|, tail, i) != At(|slots|, tail, count - 1) {
      AtDiffers(|slots|, tail, i, count - 1);
    }
    hide At;
  }

  lemma RingPush<T>(slots: seq<T>, tail: nat, count: nat, b: T)
    requires tail < |slots| && count < |slots|
    ensures Ringed(slots[At(|slots|, tail, count) := b], tail, count + 1) == Ringed(slots, tail, count) + [b]
  {
    RingReplace(slots, tail, count + 1, b);
    RingTake(slots, tail, count + 1, count);
    hide At;
  }

  lemma RingRoll<T>(slots: seq<T>, tail: nat, b: T)
    requires tail < |slots|
    ensures Ringed(slots[At(|slots|, tail, |slots|) := b], Next(|slots|, tail), |slots|) ==
            Ringed(slots, tail, |slots|)[1..] + [b]
  {
    AtNext(|slots|, tail, |slots| - 1);
    RingPush(slots, Next(|slots|, tail), |slots| - 1, b);
    RingDrop(slots, tail, |slots|);
  }
}
