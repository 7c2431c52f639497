/**
 The replay buffer (internal/ingestion/replay.go): a ring of block entries with an index map,
 standing for the sequence of the most recent entries.  Writes are meant to ascend; what the
 buffer stands for is stated for ascending writes, and a write out of order is not excluded
 but promises nothing.
 */
module ReplayBuffer {
  import opened Modular
  import opened Options
  import opened Slots
  import opened Rings

  /** A block and everything needed to replay it. */
  datatype Entry<P> = Entry(number: nat, payload: P)

  ghost predicate Ascending<P>(entries: seq<Entry<P>>) {
    forall i, j :: 0 <= i < j < |entries| ==> entries[i].number < entries[j].number
  }

  ghost predicate Holds<P>(entries: seq<Entry<P>>, n: nat) {
    exists i :: 0 <= i < |entries| && entries[i].number == n
  }

  /** The index names exactly the slots of the entries. */
  ghost predicate Indexed<P>(entries: seq<Entry<P>>, index: map<nat, nat>, size: nat, oldest: nat)
    requires oldest < size && |entries| <= size
  {
    && (forall i :: 0 <= i < |entries| ==>
          entries[i].number in index && index[entries[i].number] == At(size, oldest, i))
    && (forall n :: n in index ==> Holds(entries, n))
  }

  /** How many entries of an ascending sequence are at or below n. */
  function UpTo<P>(entries: seq<Entry<P>>, n: nat): (k: nat)
    ensures k <= |entries|
    ensures forall i :: 0 <= i < k ==> entries[i].number <= n
    ensures k < |entries| ==> entries[k].number > n
  {
    if entries == [] || entries[0].number > n then 0 else 1 + UpTo(entries[1..], n)
  }

  lemma UpToIs<P>(entries: seq<Entry<P>>, n: nat, k: nat)
    requires Ascending(entries) && k <= |entries|
    requires k > 0 ==> entries[k - 1].number <= n
    requires k < |entries| ==> entries[k].number > n
    ensures k == UpTo(entries, n)
  {
    var u := UpTo(entries, n);
    assert u < |entries| ==> entries[u].number > n;
    assert u > 0 ==> entries[u - 1].number <= n;
  }

  /** The slot of the oldest entry, as every method computes it. */
  function Oldest(writePos: nat, count: nat, capacity: nat): (slot: nat)
    requires count <= capacity && capacity > 0
    ensures slot < capacity
  {
    (writePos - count + capacity) % capacity
  }

  /** The slot to be written next lies right behind the newest entry. */
  lemma NextSlot(writePos: nat, count: nat, capacity: nat)
    requires count <= capacity && capacity > 0
    ensures At(capacity, Oldest(writePos, count, capacity), count) == writePos % capacity
    ensures (writePos + 1) % capacity == Next(capacity, writePos % capacity)
    ensures count > 0 ==> Oldest(writePos, count - 1, capacity) == Next(capacity, Oldest(writePos, count, capacity))
  {
    var x := writePos - count + capacity;
    ModShift(x, count, capacity);
    ModShift(writePos, capacity, capacity);
    ModShift(writePos, 1, capacity);
    ModShift(x, 1, capacity);
    assert HandAt(x, count, capacity) == HandAt(writePos, capacity, capacity);
  }

  /** Rewinding the write position to just behind n kept entries keeps the oldest slot. */
  lemma RewindKeeps(oldest: nat, n: nat, capacity: nat)
    requires n <= capacity && oldest < capacity
    ensures (oldest + n) % capacity == At(capacity, oldest, n)
    ensures Oldest(At(capacity, oldest, n), n, capacity) == oldest
  {
    ModSmall(oldest, capacity);
    ModShift(oldest, n, capacity);
    var w := At(capacity, oldest, n);
    ModSmall(w, capacity);
    NextSlot(w, n, capacity);
    hide *;
    AtInjective(capacity, Oldest(w, n, capacity), oldest, n);
  }

  // ----- what the index means -----

  lemma IndexedAfterWrite<P>(entries: seq<Entry<P>>, index: map<nat, nat>, size: nat, oldest: nat, e: Entry<P>)
    requires oldest < size && |entries| < size && Indexed(entries, index, size, oldest)
    requires Ascending(entries + [e])
    ensures Indexed(entries + [e], index[e.number := At(size, oldest, |entries|)], size, oldest)
  {
    hide At;
    var more := entries + [e];
    assert more[|entries|] == e;
    assert forall i :: 0 <= i < |entries| ==> more[i] == entries[i] && more[i].number < more[|entries|].number;
  }

  lemma IndexedAfterDrop<P>(entries: seq<Entry<P>>, index: map<nat, nat>, size: nat, oldest: nat)
    requires oldest < size && 0 < |entries| <= size && Indexed(entries, index, size, oldest) && Ascending(entries)
    ensures Indexed(entries[1..], index - {entries[0].number}, size, Next(size, oldest))
  {
    forall i | 0 <= i < |entries| - 1 ensures At(size, Next(size, oldest), i) == At(size, oldest, i + 1) {
      AtNext(size, oldest, i);
    }
    hide At, Next;
    forall n | n in index - {entries[0].number} ensures Holds(entries[1..], n) {
      var i :| 0 <= i < |entries| && entries[i].number == n;
      assert entries[1..][i - 1] == entries[i];
    }
  }

  // ----- snapshots -----

  datatype Ring<P> = Ring(slots: seq<Entry<P>>, index: map<nat, nat>, writePos: nat, count: nat)

  ghost predicate Fits<P>(r: Ring<P>) {
    |r.slots| > 0 && r.count <= |r.slots|
  }

  /** Oldest to newest. */
  ghost function Held<P>(r: Ring<P>): (entries: seq<Entry<P>>)
    requires Fits(r)
    ensures |entries| == r.count
  {
    Ringed(r.slots, Oldest(r.writePos, r.count, |r.slots|), r.count)
  }

  ghost predicate Good<P>(r: Ring<P>) {
    Fits(r) && Ascending(Held(r)) && Indexed(Held(r), r.index, |r.slots|, Oldest(r.writePos, r.count, |r.slots|))
  }

  /** The oldest entry leaves: its key goes, its slot is overwritten with b. */
  ghost function Dropped<P>(r: Ring<P>, b: Entry<P>): Ring<P>
    requires Fits(r) && r.count > 0
  {
    var oldest := Oldest(r.writePos, r.count, |r.slots|);
    Ring(r.slots[oldest := b], r.index - {r.slots[oldest].number}, r.writePos, r.count - 1)
  }

  /** An entry goes into the next slot of a ring with room. */
  ghost function Added<P>(r: Ring<P>, e: Entry<P>): Ring<P>
    requires Fits(r)
  {
    var idx := r.writePos % |r.slots|;
    Ring(r.slots[idx := e], r.index[e.number := idx], r.writePos + 1, r.count + 1)
  }

  lemma DropHeld<P>(r: Ring<P>, b: Entry<P>)
    requires Fits(r) && r.count > 0
    ensures Fits(Dropped(r, b)) && Held(Dropped(r, b)) == Held(r)[1..]
    ensures r.slots[Oldest(r.writePos, r.count, |r.slots|)] == Held(r)[0]
    ensures Oldest(r.writePos, r.count - 1, |r.slots|) == Next(|r.slots|, Oldest(r.writePos, r.count, |r.slots|))
  {
    var oldest := Oldest(r.writePos, r.count, |r.slots|);
    NextSlot(r.writePos, r.count, |r.slots|);
    RingAdvance(r.slots, oldest, r.count);
    RingOutside(r.slots, oldest, r.count, b);
    hide At, Next, Ringed, Oldest;
  }

  lemma AscendingTail<P>(entries: seq<Entry<P>>)
    requires Ascending(entries) && entries != []
    ensures Ascending(entries[1..])
  {
  }

  lemma DropKeeps<P>(r: Ring<P>, b: Entry<P>)
    requires Good(r) && r.count > 0
    ensures Good(Dropped(r, b)) && Held(Dropped(r, b)) == Held(r)[1..]
    ensures r.slots[Oldest(r.writePos, r.count, |r.slots|)] == Held(r)[0]
  {
    DropHeld(r, b);
    IndexedAfterDrop(Held(r), r.index, |r.slots|, Oldest(r.writePos, r.count, |r.slots|));
    AscendingTail(Held(r));
    hide Ascending, Indexed, Held, Oldest, Next;
  }

  /** Overwriting the slot given up does not touch the entries behind it. */
  lemma RingOutside<P>(slots: seq<Entry<P>>, oldest: nat, count: nat, b: Entry<P>)
    requires oldest < |slots| && 0 < count <= |slots|
    ensures Ringed(slots[oldest := b], Next(|slots|, oldest), count - 1) ==
            Ringed(slots, Next(|slots|, oldest), count - 1)
  {
    forall i | 0 <= i < count - 1 ensures At(|slots|, Next(|slots|, oldest), i) != oldest {
      AtNext(|slots|, oldest, i);
      AtNext(|slots|, oldest, 0);
      AtDiffers(|slots|, oldest, 0, i + 1);
    }
    hide At, Next;
  }

  lemma AddKeeps<P>(r: Ring<P>, e: Entry<P>)
    requires Good(r) && r.count < |r.slots| && Ascending(Held(r) + [e])
    ensures Good(Added(r, e)) && Held(Added(r, e)) == Held(r) + [e]
  {
    var size, oldest := |r.slots|, Oldest(r.writePos, r.count, |r.slots|);
    NextSlot(r.writePos, r.count, size);
    assert Oldest(r.writePos + 1, r.count + 1, size) == oldest;
    RingPush(r.slots, oldest, r.count, e);
    IndexedAfterWrite(Held(r), r.index, size, oldest, e);
  }

  ghost function Written<P>(r: Ring<P>, e: Entry<P>): Ring<P>
    requires Fits(r)
  {
    Added(if r.count == |r.slots| then Dropped(r, r.slots[Oldest(r.writePos, r.count, |r.slots|)]) else r, e)
  }

  lemma WriteKeeps<P>(r: Ring<P>, e: Entry<P>)
    requires Good(r) && Ascending(Held(r) + [e])
    ensures Good(Written(r, e)) && Held(Written(r, e)) == LastN(|r.slots|, Held(r) + [e])
  {
    var b := r.slots[Oldest(r.writePos, r.count, |r.slots|)];
    hide Good, Held, Oldest, Added, Dropped;
    if r.count == |r.slots| {
      DropKeeps(r, b);
      assert Held(r)[1..] + [e] == (Held(r) + [e])[1..];
      AddKeeps(Dropped(r, b), e);
    } else {
      AddKeeps(r, e);
    }
  }

  class ReplayBuffer<P(0)> {
    const capacity: nat
    const slots: array<Entry<P>>
    const blank: Entry<P>
    var index: map<nat, nat>
    var writePos: nat
    var count: nat
    var latestBlock: nat
    var writes: nat
    var seekBlock: nat
    var seekSet: bool
    var readDone: bool

    ghost function Now(): Ring<P>
      reads this, slots
    {
      Ring(slots[..], index, writePos, count)
    }

    ghost predicate Framed()
      reads this, slots
    {
      slots.Length == capacity && Fits(Now())
    }

    ghost predicate Valid()
      reads this, slots
    {
      slots.Length == capacity && Good(Now())
    }

    ghost function Contents(): (entries: seq<Entry<P>>)
      requires Framed()
      reads this, slots
    {
      Held(Now())
    }

    constructor (requested: int, blank: Entry<P>)
      ensures Valid() && Contents() == [] && writes == 0 && !seekSet
      ensures capacity == if requested < 1 then 8192 else requested
      ensures fresh(slots)
    {
      var cap: nat := if requested < 1 then 8192 else requested;
      capacity, this.blank := cap, blank;
      slots := new Entry<P>[cap](_ => blank);
      index, writePos, count, latestBlock, writes := map[], 0, 0, 0, 0;
      seekBlock, seekSet, readDone := 0, false, false;
    }

    /** Appends, forgetting the oldest entry when full. */
    method Write(e: Entry<P>)
      requires Framed()
      modifies this, slots
      ensures Framed() && latestBlock == e.number && writes == old(writes) + 1
      ensures old(Valid()) && Ascending(old(Contents()) + [e]) ==>
                Valid() && Contents() == LastN(capacity, old(Contents()) + [e])
    {
      hide Good, Held, Oldest;
      ghost var r := Now();
      if Good(r) && Ascending(Held(r) + [e]) {
        WriteKeeps(r, e);
      }
      NextSlot(writePos, count, capacity);
      var idx := writePos % capacity;
      if count == capacity {
        FullSlot(r);
        index := index - {slots[idx].number};
      }
      slots[idx] := e;
      index := index[e.number := idx];
      latestBlock := e.number;
      writes := writes + 1;
      writePos := writePos + 1;
      if count < capacity {
        count := count + 1;
      }
      assert Now() == Written(r, e);
    }

    /** The entry of that number, if it is still there. */
    method GetBlock(number: nat) returns (r: Option<Entry<P>>)
      requires Valid()
      ensures r.Some? ==> r.value in Contents() && r.value.number == number
      ensures r.None? ==> !Holds(Contents(), number)
    {
      if count == 0 {
        return None;
      }
      LookupFinds(Now(), number);
      if number in index && index[number] < capacity && slots[index[number]].number == number {
        return Some(slots[index[number]]);
      }
      return None;
    }

    /** The smallest number present at or above n. */
    method CeilBlock(n: nat) returns (best: nat, found: bool)
      requires Valid()
      ensures found <==> exists i :: 0 <= i < count && Contents()[i].number >= n
      ensures found ==> best >= n && Holds(Contents(), best)
      ensures found ==> forall i :: 0 <= i < count && Contents()[i].number >= n ==> best <= Contents()[i].number
    {
      hide Held, Holds, Ascending, Indexed, Oldest, Least;
      best, found := 0, false;
      ghost var seen: set<nat> := {};
      var todo := index.Keys;
      LeastOfNone(n);
      while todo != {}
        invariant seen + todo == index.Keys && Least(seen, n, best, found)
        decreases |todo|
      {
        var num :| num in todo;
        LookupFinds(Now(), num);
        LeastAdd(seen, n, best, found, num);
        todo, seen := todo - {num}, seen + {num};
        if num < n || index[num] >= capacity || slots[index[num]].number != num {
          continue;
        }
        if !found || num < best {
          best, found := num, true;
        }
      }
      assert seen == index.Keys && Contents() == Held(Now());
      CeilIs(Now(), n, best, found);
    }

    /** Drops every entry at or below the finalized block; says how many. */
    method PruneBefore(finalizedBlock: nat) returns (pruned: nat)
      requires Valid()
      modifies this, slots
      ensures Valid() && pruned == UpTo(old(Contents()), finalizedBlock)
      ensures Contents() == old(Contents())[pruned..]
      ensures latestBlock == old(latestBlock) && writes == old(writes)
    {
      hide Indexed, Oldest, Ascending, UpTo, Held, Next;
      ghost var entries := Contents();
      pruned := 0;
      if count == 0 {
        UpToIs(entries, finalizedBlock, 0);
        return;
      }
      var oldestPos := Oldest(writePos, count, capacity);
      while count > 0
        invariant Valid() && pruned <= |entries| && Contents() == entries[pruned..]
        invariant count > 0 ==> oldestPos == Oldest(writePos, count, capacity)
        invariant pruned > 0 ==> entries[pruned - 1].number <= finalizedBlock
        invariant latestBlock == old(latestBlock) && writes == old(writes)
        decreases count
      {
        ghost var r := Now();
        PruneStep(r, blank, entries, pruned);
        var entry := slots[oldestPos];
        if entry.number > finalizedBlock {
          break;
        }
        index := index - {entry.number};
        slots[oldestPos] := blank;
        oldestPos := Next(capacity, oldestPos);
        count := count - 1;
        pruned := pruned + 1;
        assert Now() == Dropped(r, blank);
      }
      UpToIs(entries, finalizedBlock, pruned);
    }

    /** Drops every entry above a block, rewinding the write position, and rebuilds the index. */
    method PruneAfter(blockNumber: nat)
      requires Valid()
      modifies this, slots
      ensures Valid() && Contents() == old(Contents())[..UpTo(old(Contents()), blockNumber)]
      ensures latestBlock == old(latestBlock) && writes == old(writes)
    {
      hide Indexed, Oldest, At;
      ghost var entries := Contents();
      ghost var k := UpTo(entries, blockNumber);
      if count == 0 {
        return;
      }
      var newCount := 0;
      var oldestPos := Oldest(writePos, count, capacity);
      var i := 0;
      while i < count
        invariant i <= count && newCount == (if i < k then i else k)
        invariant count == old(count) && writePos == old(writePos)
        invariant latestBlock == old(latestBlock) && writes == old(writes)
        invariant forall j :: 0 <= j < count && (j < k || i <= j) ==> slots[At(capacity, oldestPos, j)] == entries[j]
      {
        RewindKeeps(oldestPos, i, capacity);
        OtherSlots(capacity, oldestPos, count, i);
        var pos := (oldestPos + i) % capacity;
        if slots[pos].number <= blockNumber {
          newCount := newCount + 1;
        } else {
          slots[pos] := blank;
        }
        i := i + 1;
      }
      count := newCount;
      RewindKeeps(oldestPos, newCount, capacity);
      writePos := (oldestPos + newCount) % capacity;
      assert Held(Now()) == entries[..k];
      RebuildIndex();
    }

    method RebuildIndex()
      requires Framed() && slots.Length == capacity && Ascending(Contents())
      modifies this`index
      ensures Valid() && Contents() == old(Contents())
    {
      hide Oldest, At, Holds;
      ghost var entries := Contents();
      index := map[];
      var oldestPos := Oldest(writePos, count, capacity);
      var i := 0;
      while i < count
        invariant i <= count && Contents() == entries
        invariant Indexed(entries[..i], index, capacity, oldestPos)
      {
        RewindKeeps(oldestPos, i, capacity);
        var pos := (oldestPos + i) % capacity;
        var entry := slots[pos];
        assert entry == entries[i] && entries[..i + 1] == entries[..i] + [entry];
        IndexedAfterWrite(entries[..i], index, capacity, oldestPos, entry);
        index := index[entry.number := pos];
        i := i + 1;
      }
      assert entries[..i] == entries;
    }

    method Seek(blockNumber: nat)
      modifies this`seekBlock, this`seekSet, this`readDone
      ensures seekBlock == blockNumber && seekSet && !readDone
    {
      seekBlock, seekSet, readDone := blockNumber, true, false;
    }

    /** Replays, once per Seek, exactly the entries above the seek point, oldest first. */
    method ReadFrom() returns (replayed: Option<seq<Entry<P>>>)
      requires Valid()
      modifies this`readDone
      ensures Valid() && Contents() == old(Contents())
      ensures replayed.None? <==> !seekSet
      ensures seekSet && old(readDone) ==> replayed == Some([])
      ensures seekSet && !old(readDone) ==> replayed == Some(Contents()[UpTo(Contents(), seekBlock)..]) && readDone
    {
      hide Indexed, Oldest, At, Held, Ascending, UpTo;
      ghost var r := Now();
      if !seekSet {
        return None;
      }
      if readDone {
        return Some([]);
      }
      var startSlot, scanned := Scan();
      readDone := true;
      assert Now() == r;
      if startSlot < 0 || scanned == 0 {
        assert Contents()[UpTo(Contents(), seekBlock)..] == [];
        return Some([]);
      }
      var out := Copy(startSlot, scanned, UpTo(Contents(), seekBlock));
      return Some(out);
    }

    /** Finds the first slot above the seek point and counts the entries from there on. */
    method Scan() returns (startSlot: int, scanned: nat)
      requires Valid()
      ensures var k := UpTo(Contents(), seekBlock);
              scanned == count - k && startSlot == if k == count then -1
                                                   else At(capacity, Oldest(writePos, count, capacity), k)
    {
      hide Indexed, Oldest, At;
      ghost var entries := Contents();
      ghost var k := UpTo(entries, seekBlock);
      startSlot, scanned := -1, 0;
      var oldestPos := Oldest(writePos, count, capacity);
      var i := 0;
      while i < count
        invariant i <= count && scanned == (if i < k then 0 else i - k)
        invariant startSlot == if i <= k then -1 else At(capacity, oldestPos, k)
      {
        RewindKeeps(oldestPos, i, capacity);
        var pos := (oldestPos + i) % capacity;
        assert slots[pos] == entries[i];
        if slots[pos].number > seekBlock {
          if startSlot < 0 {
            startSlot := pos;
          }
          scanned := scanned + 1;
        }
        i := i + 1;
      }
    }

    method Copy(startSlot: nat, scanned: nat, ghost k: nat) returns (out: seq<Entry<P>>)
      requires Valid() && k + scanned == count && scanned > 0
      requires startSlot == At(capacity, Oldest(writePos, count, capacity), k)
      ensures out == Contents()[k..]
    {
      hide Indexed, Oldest, At;
      ghost var entries := Contents();
      out := [];
      var i := 0;
      while i < scanned
        invariant i <= scanned && out == entries[k..k + i]
      {
        RewindKeeps(startSlot, i, capacity);
        AtAdds(capacity, Oldest(writePos, count, capacity), k, i);
        out := out + [slots[(startSlot + i) % capacity]];
        i := i + 1;
      }
    }

    method HasBlocks(number: nat) returns (b: bool)
      requires Valid()
      ensures b <==> exists i :: 0 <= i < count && Contents()[i].number > number
    {
      hide Indexed, Oldest, At;
      if count == 0 {
        return false;
      }
      NextSlot(writePos, count, capacity);
      NewestSlot(writePos, count, capacity);
      var newest := slots[Oldest(writePos, 1, capacity)];
      assert newest == Contents()[count - 1];
      return newest.number > number;
    }
  }

  lemma PruneStep<P>(r: Ring<P>, b: Entry<P>, entries: seq<Entry<P>>, k: nat)
    requires Good(r) && r.count > 0 && k < |entries| && Held(r) == entries[k..]
    ensures Good(Dropped(r, b)) && Held(Dropped(r, b)) == entries[k + 1..]
    ensures r.slots[Oldest(r.writePos, r.count, |r.slots|)] == entries[k]
    ensures Oldest(r.writePos, r.count - 1, |r.slots|) == Next(|r.slots|, Oldest(r.writePos, r.count, |r.slots|))
  {
    DropKeeps(r, b);
    NextSlot(r.writePos, r.count, |r.slots|);
    assert entries[k..][1..] == entries[k + 1..] && entries[k..][0] == entries[k];
  }

  lemma OtherSlots(size: nat, oldest: nat, count: nat, i: nat)
    requires oldest < size && i < count <= size
    ensures forall j :: 0 <= j < count && j != i ==> At(size, oldest, j) != At(size, oldest, i)
  {
  }

  lemma AtAdds(size: nat, oldest: nat, k: nat, i: nat)
    requires oldest < size && k + i < size
    ensures At(size, At(size, oldest, k), i) == At(size, oldest, k + i)
  {
  }

  lemma NewestSlot(writePos: nat, count: nat, capacity: nat)
    requires 0 < count <= capacity
    ensures Oldest(writePos, 1, capacity) == At(capacity, Oldest(writePos, count, capacity), count - 1)
  {
    NextSlot(writePos, 1, capacity);
    NextSlot(writePos, count, capacity);
    AtNext(capacity, Oldest(writePos, count, capacity), count - 1);
    hide Oldest;
  }

  /** best is the least key at or above n, if there is one. */
  ghost predicate Least(keys: set<nat>, n: nat, best: nat, found: bool) {
    if found then best in keys && best >= n && forall k :: k in keys && k >= n ==> best <= k
    else forall k :: k in keys ==> k < n
  }

  lemma LeastOfNone(n: nat)
    ensures Least({}, n, 0, false)
  {
  }

  lemma LeastAdd(keys: set<nat>, n: nat, best: nat, found: bool, num: nat)
    requires Least(keys, n, best, found)
    ensures num < n ==> Least(keys + {num}, n, best, found)
    ensures num >= n && (!found || num < best) ==> Least(keys + {num}, n, num, true)
    ensures num >= n && found && num >= best ==> Least(keys + {num}, n, best, found)
  {
  }

  lemma FullSlot<P>(r: Ring<P>)
    requires Fits(r) && r.count == |r.slots|
    ensures Oldest(r.writePos, r.count, |r.slots|) == r.writePos % |r.slots|
  {
    NextSlot(r.writePos, r.count, |r.slots|);
  }

  lemma LookupFinds<P>(r: Ring<P>, number: nat)
    requires Good(r)
    ensures number in r.index <==> Holds(Held(r), number)
    ensures number in r.index ==>
              && r.index[number] < |r.slots| && r.slots[r.index[number]].number == number
              && r.slots[r.index[number]] in Held(r)
  {
    hide At, Oldest;
    if number in r.index {
      var i :| 0 <= i < r.count && Held(r)[i].number == number;
    }
  }

  /** The least key of the index at or above n is the least entry at or above n. */
  lemma CeilIs<P>(r: Ring<P>, n: nat, best: nat, found: bool)
    requires Good(r)
    requires Least(r.index.Keys, n, best, found)
    ensures found <==> exists i :: 0 <= i < r.count && Held(r)[i].number >= n
    ensures found ==> best >= n && Holds(Held(r), best)
    ensures found ==> forall i :: 0 <= i < r.count && Held(r)[i].number >= n ==> best <= Held(r)[i].number
  {
    hide Held, Ascending;
    assert forall i :: 0 <= i < r.count ==> Held(r)[i].number in r.index;
    if found {
      assert Holds(Held(r), best);
    }
  }
}
