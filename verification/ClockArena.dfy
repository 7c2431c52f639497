/**
 The slot arrays of a CLOCK cache, updated in place.

 coldcache/flatcold.go and the hot ring emitted by internal/codegen/hot_state.go keep the
 same columns and the same chained index; this class holds them and the steps the two have
 in common.  Each step is proved equal to an update of a ClockTable snapshot.
 */
module ClockArena {
  import opened Chains
  import opened Slots
  import opened ClockTable

  /** Moves the hand to the slot it settles on; steps says how far it went. */
  method Sweep(inUse: array<bool>, ref: array<bool>, hand: nat, clearing: bool) returns (idx: nat, steps: nat)
    requires inUse != ref && inUse.Length == ref.Length > 0
    requires !clearing ==> |UsedSlots(inUse[..])| < inUse.Length
    modifies ref
    ensures ClockPick(inUse[..], old(ref[..]), hand, clearing, steps, ref[..])
    ensures idx < inUse.Length && steps > 0 && idx == HandAt(hand, steps - 1, inUse.Length)
  {
    ghost var used, refd := inUse[..], ref[..];
    ScanStarts(used, refd, hand, clearing);
    hide Scanned, ClockPick, HandAt, UsedSlots;
    steps := 0;
    idx := HandAt(hand, steps, inUse.Length);
    while inUse[idx] && (!clearing || ref[idx])
      invariant Scanned(used, refd, hand, clearing, steps, ref[..])
      invariant steps <= inUse.Length && idx == HandAt(hand, steps, inUse.Length)
      decreases inUse.Length - steps
    {
      ScanPasses(used, refd, hand, clearing, steps, ref[..]);
      if clearing {
        ref[idx] := false;
      }
      steps := steps + 1;
      idx := HandAt(hand, steps, inUse.Length);
    }
    ScanPicks(used, refd, hand, clearing, steps, ref[..]);
    steps := steps + 1;
  }

  class ClockArena<K(!new, ==, 0), V(0)> {
    const hash: K -> nat
    const capacity: nat
    const slotKey: array<K>
    const slotVal: array<V>
    const inUse: array<bool>
    const ref: array<bool>
    const buckets: array<int>
    const next: array<int>
    var hand: nat
    var size: nat
    ghost var chains: seq<seq<nat>>
    ghost const Repr: set<object>

    ghost predicate Framed() {
      && Repr == {this, slotKey, slotVal, inUse, ref, buckets, next}
      && slotKey.Length == slotVal.Length == inUse.Length == ref.Length == next.Length == capacity
      && inUse != ref && buckets != next
      && slotKey as object != slotVal && slotKey as object != inUse && slotKey as object != ref
      && slotKey as object != buckets && slotKey as object != next
      && slotVal as object != inUse && slotVal as object != ref
      && slotVal as object != buckets && slotVal as object != next
    }

    ghost function Now(): Table<K, V>
      requires Framed()
      reads Repr
    {
      Table(slotKey[..], slotVal[..], inUse[..], ref[..], buckets[..], next[..], chains, hand, size)
    }

    ghost predicate Valid()
      reads Repr
    {
      Framed() && Good(Now(), hash)
    }

    ghost function Contents(): map<K, V>
      reads Repr
      requires Valid()
    {
      Map(Now(), hash)
    }

    constructor (cap: nat, bc: nat, hash: K -> nat)
      requires cap > 0 && bc > 0
      ensures Valid() && Contents() == map[] && this.hash == hash
      ensures capacity == cap && buckets.Length == bc
      ensures forall s :: 0 <= s < inUse.Length ==> !inUse[s]
      ensures fresh(Repr)
    {
      hide Good, Map, Linked, Indexes;
      capacity, this.hash := cap, hash;
      var keyArray, valArray := new K[cap], new V[cap];
      var useArray, refArray := new bool[cap](_ => false), new bool[cap](_ => false);
      var headArray, nextArray := new int[bc](_ => -1), new int[cap](_ => 0);
      slotKey, slotVal, inUse, ref, buckets, next := keyArray, valArray, useArray, refArray, headArray, nextArray;
      hand, size := 0, 0;
      chains := seq(bc, _ => []);
      Repr := {this, keyArray, valArray, useArray, refArray, headArray, nextArray};
      new;
      ghost var t := Now();
      assert forall b :: 0 <= b < bc ==> t.heads[b] < 0 && t.chains[b] == [];
      EmptyIsGood(t, this.hash);
    }

    /** The slot holding key, or -1. */
    method Lookup(key: K) returns (slot: int)
      requires Valid()
      ensures Framed() && Shaped(Now())
      ensures slot >= 0 ==> slot < |Now().used| && Now().used[slot] && Now().keys[slot] == key
      ensures slot < 0 ==> slot == -1
      ensures slot >= 0 <==> key in Contents()
    {
      var b := Bucket(hash, buckets.Length, key);
      ghost var t := Now();
      ghost var chain := t.chains[b];
      MapHas(t, hash, key);
      assert Follows(t.heads[b], t.next, chain);
      var i := buckets[b];
      ghost var j := 0;
      while i >= 0
        invariant j <= |chain| && i == PointerAt(t.heads[b], t.next, chain, j)
        invariant forall k :: 0 <= k < j ==> t.keys[chain[k]] != key
        decreases |chain| - j
      {
        PointerIs(t.heads[b], t.next, chain, j);
        assert chain[j] in chain;
        assert Belongs(t.keys, t.used, hash, |t.chains|, b, chain[j]);
        if inUse[i] && slotKey[i] == key {
          MapAt(t, hash, i);
          return i;
        }
        i := next[i];
        j := j + 1;
      }
      PointerIs(t.heads[b], t.next, chain, j);
      forall s | 0 <= s < |t.used| && t.used[s] ensures t.keys[s] != key {
        assert Filed(t.keys, t.chains, hash, s);
      }
      return -1;
    }

    method IdxInsert(key: K, slot: nat)
      requires Framed() && slot < capacity && buckets.Length == |chains| > 0
      modifies this`chains, buckets, next
      ensures Now() == Pushed(old(Now()), Bucket(hash, buckets.Length, key), slot)
    {
      var b := Bucket(hash, buckets.Length, key);
      next[slot] := buckets[b];
      buckets[b] := slot;
      chains := chains[b := [slot] + chains[b]];
      assert next[..] == old(next[..])[slot := old(buckets[b])];
      assert buckets[..] == old(buckets[..])[b := slot];
    }

    /** Takes slot, the j-th of its chain, off that chain. */
    method IdxUnlink(key: K, slot: nat, ghost j: nat)
      requires Framed() && At(Now(), hash, key, slot, j)
      requires Linked(buckets[..], next[..], chains)
      modifies this`chains, buckets, next
      ensures Now() == Unlinked(old(Now()), Bucket(hash, buckets.Length, key), j)
    {
      var b := Bucket(hash, buckets.Length, key);
      ghost var chain, heads, links := chains[b], buckets[..], next[..];
      assert Follows(heads[b], links, chain);
      assert forall i :: 0 <= i < |chain| && chain[i] == slot ==> i == j;
      hide Linked, Separated;
      var prev, i := -1, buckets[b];
      ghost var k := 0;
      while i >= 0 && i != slot
        invariant buckets[..] == heads && next[..] == links && chains == old(chains)
        invariant k <= j && i == PointerAt(heads[b], links, chain, k)
        invariant prev == if k == 0 then -1 else chain[k - 1]
        decreases |chain| - k
      {
        PointerIs(heads[b], links, chain, k);
        prev := i;
        i := next[i];
        k := k + 1;
      }
      PointerIs(heads[b], links, chain, k);
      if prev < 0 {
        buckets[b] := next[i];
        assert buckets[..] == heads[b := links[slot]];
      } else {
        next[prev] := next[i];
        assert next[..] == links[chain[j - 1] := links[slot]];
      }
      next[i] := -1;
      chains := chains[b := Cut(chains[b], j)];
      assert next[..] == (if j == 0 then links else links[chain[j - 1] := links[slot]])[slot := -1];
    }

    /** Unlinks a slot in use and marks it free. */
    method Evict(slot: nat)
      requires Valid() && slot < |Now().used| && Now().used[slot]
      modifies Repr
      ensures Valid() && Contents() == old(Contents()) - {old(Now()).keys[slot]}
      ensures var key := old(Now()).keys[slot]; key in old(Contents()) && old(Contents())[key] == old(Now()).vals[slot]
      ensures Now().used == old(Now()).used[slot := false] && Now().refd == old(Now()).refd
      ensures Now().hand == old(Now()).hand
    {
      hide Good, Map, Linked, Unlinked;
      ghost var t := Now();
      ghost var j := PlanEviction(t, hash, slot);
      IdxUnlink(slotKey[slot], slot, j);
      ghost var u := Now();
      inUse[slot] := false;
      size := size - 1;
      assert Now() == u.(used := u.used[slot := false], size := u.size - 1);
    }

    /** Writes a record into a free slot and links it. */
    method Occupy(slot: nat, key: K, value: V)
      requires Valid() && slot < |Now().used| && !Now().used[slot] && key !in Contents()
      modifies Repr
      ensures Valid() && Contents() == old(Contents())[key := value]
      ensures Now().used == old(Now()).used[slot := true] && Now().hand == old(Now()).hand
      ensures Now().refd == old(Now()).refd[slot := false]
    {
      assert buckets.Length == |chains|;
      hide Good, Map, Pushed;
      ghost var t := Now();
      OccupyKeeps(t, hash, slot, key, value);
      slotKey[slot] := key;
      slotVal[slot] := value;
      inUse[slot] := true;
      ref[slot] := false;
      size := size + 1;
      assert Now() == t.(keys := t.keys[slot := key], vals := t.vals[slot := value],
                         used := t.used[slot := true], refd := t.refd[slot := false], size := t.size + 1);
      IdxInsert(key, slot);
      assert Now() == Occupied(t, hash, slot, key, value);
      assert Now().hand == t.hand;
    }

    method OverwriteEntry(i: nat, value: V)
      requires Valid() && i < |Now().used| && Now().used[i]
      modifies Repr
      ensures Valid() && Contents() == old(Contents())[old(Now()).keys[i] := value]
      ensures Now() == old(Now()).(vals := old(Now()).vals[i := value], refd := old(Now()).refd[i := true])
    {
      hide Good, Map;
      ghost var t := Now();
      OverwriteKeeps(t, hash, i, value);
      TouchKeeps(t.(vals := t.vals[i := value]), hash, t.refd[i := true], hand);
      slotVal[i] := value;
      ref[i] := true;
      assert Now() == t.(vals := t.vals[i := value], refd := t.refd[i := true]);
    }

    /** Sets one reference bit. */
    method Mark(i: nat, bit: bool)
      requires Valid() && i < |Now().used|
      modifies Repr
      ensures Valid() && Contents() == old(Contents())
      ensures Now() == old(Now()).(refd := old(Now()).refd[i := bit])
    {
      hide Good, Map;
      ghost var t := Now();
      TouchKeeps(t, hash, t.refd[i := bit], hand);
      ref[i] := bit;
      assert Now() == t.(refd := t.refd[i := bit], hand := hand);
    }

    /** Runs the hand until it settles. */
    method Settle(clearing: bool) returns (slot: nat, ghost steps: nat, ghost refd: seq<bool>)
      requires Valid() && (!clearing ==> size < capacity)
      modifies Repr
      ensures Valid() && Contents() == old(Contents())
      ensures steps > 0 && Settles(old(Now()), clearing, steps, refd)
      ensures Now() == old(Now()).(refd := refd, hand := old(Now()).hand + steps)
      ensures slot < |Now().used| && slot == Chosen(old(Now()), steps) && slot < Now().hand
    {
      ghost var t := Now();
      var n;
      slot, n := Sweep(inUse, ref, hand, clearing);
      hand := hand + n;
      steps, refd := n, ref[..];
      SlotBehindHand(t, steps);
      TouchKeeps(t, hash, refd, hand);
      assert Now() == t.(refd := refd, hand := hand);
    }

    /** Is a slot in use? */
    method Uses(slot: nat) returns (used: bool)
      requires Valid() && slot < |Now().used|
      ensures used == Now().used[slot]
    {
      return inUse[slot];
    }

    /** The record in a slot. */
    method Read(slot: nat) returns (key: K, value: V)
      requires Valid() && slot < |Now().used|
      ensures key == Now().keys[slot] && value == Now().vals[slot]
      ensures Now().used[slot] ==> key in Contents() && Contents()[key] == value
    {
      hide Good, Map;
      if inUse[slot] {
        MapAt(Now(), hash, slot);
      }
      return slotKey[slot], slotVal[slot];
    }
  }
}
