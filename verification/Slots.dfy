/**
 Slot tables: parallel columns of keys, values and in-use flags read as a map.
 */
module Slots {
  import opened Modular

  ghost predicate DistinctKeys<K>(keys: seq<K>, used: seq<bool>)
    requires |keys| == |used|
  {
    forall s, t :: 0 <= s < |used| && 0 <= t < |used| && used[s] && used[t] && keys[s] == keys[t] ==> s == t
  }

  ghost predicate Has<K>(keys: seq<K>, used: seq<bool>, key: K)
    requires |keys| == |used|
  {
    exists s :: 0 <= s < |used| && used[s] && keys[s] == key
  }

  ghost function UsedSlots(used: seq<bool>): set<nat> {
    set s: nat | s < |used| && used[s]
  }

  ghost function Entries<K, V>(keys: seq<K>, vals: seq<V>, used: seq<bool>): map<K, V>
    requires |keys| == |vals| == |used| && DistinctKeys(keys, used)
  {
    map s | 0 <= s < |used| && used[s] :: keys[s] := vals[s]
  }

  lemma EntriesHas<K, V>(keys: seq<K>, vals: seq<V>, used: seq<bool>, key: K)
    requires |keys| == |vals| == |used| && DistinctKeys(keys, used)
    ensures key in Entries(keys, vals, used) <==> Has(keys, used, key)
  {
  }

  lemma EntriesAt<K, V>(keys: seq<K>, vals: seq<V>, used: seq<bool>, s: nat)
    requires |keys| == |vals| == |used| && DistinctKeys(keys, used) && s < |used| && used[s]
    ensures keys[s] in Entries(keys, vals, used) && Entries(keys, vals, used)[keys[s]] == vals[s]
  {
  }

  lemma Overwrite<K, V>(keys: seq<K>, vals: seq<V>, used: seq<bool>, s: nat, v: V)
    requires |keys| == |vals| == |used| && DistinctKeys(keys, used) && s < |used| && used[s]
    ensures Entries(keys, vals[s := v], used) == Entries(keys, vals, used)[keys[s] := v]
  {
    var before, after := Entries(keys, vals, used), Entries(keys, vals[s := v], used);
    forall k ensures k in after <==> k in before[keys[s] := v] {
      EntriesHas(keys, vals, used, k);
      EntriesHas(keys, vals[s := v], used, k);
      EntriesAt(keys, vals, used, s);
    }
    assert after.Keys == before[keys[s] := v].Keys;
  }

  /** A map with the keys in use and their values is the map of entries. */
  lemma EntriesAre<K, V>(keys: seq<K>, vals: seq<V>, used: seq<bool>, m: map<K, V>)
    requires |keys| == |vals| == |used| && DistinctKeys(keys, used)
    requires forall k :: k in m ==> Has(keys, used, k)
    requires forall t :: 0 <= t < |used| && used[t] ==> keys[t] in m && m[keys[t]] == vals[t]
    ensures Entries(keys, vals, used) == m
  {
    var e := Entries(keys, vals, used);
    forall k | k in m ensures k in e && e[k] == m[k] {
      var t :| 0 <= t < |used| && used[t] && keys[t] == k;
      EntriesAt(keys, vals, used, t);
    }
    assert e.Keys == m.Keys;
  }

  lemma OneSlotMore(used: seq<bool>, s: nat)
    requires s < |used| && !used[s]
    ensures UsedSlots(used[s := true]) == UsedSlots(used) + {s} && s !in UsedSlots(used)
  {
  }

  lemma OneSlotLess(used: seq<bool>, s: nat)
    requires s < |used| && used[s]
    ensures UsedSlots(used[s := false]) == UsedSlots(used) - {s} && s in UsedSlots(used)
  {
  }

  lemma FillDistinct<K>(keys: seq<K>, used: seq<bool>, s: nat, k: K)
    requires |keys| == |used| && DistinctKeys(keys, used) && s < |used| && !used[s] && !Has(keys, used, k)
    ensures DistinctKeys(keys[s := k], used[s := true])
  {
  }

  lemma Fill<K, V>(keys: seq<K>, vals: seq<V>, used: seq<bool>, s: nat, k: K, v: V)
    requires |keys| == |vals| == |used| && DistinctKeys(keys, used) && s < |used| && !used[s]
    requires !Has(keys, used, k)
    ensures DistinctKeys(keys[s := k], used[s := true])
    ensures Entries(keys[s := k], vals[s := v], used[s := true]) == Entries(keys, vals, used)[k := v]
    ensures |UsedSlots(used[s := true])| == |UsedSlots(used)| + 1
  {
    OneSlotMore(used, s);
    FillDistinct(keys, used, s, k);
    var keys', vals', used' := keys[s := k], vals[s := v], used[s := true];
    var m := Entries(keys, vals, used)[k := v];
    forall t | 0 <= t < |used'| && used'[t] ensures keys'[t] in m && m[keys'[t]] == vals'[t] {
      if t != s {
        EntriesAt(keys, vals, used, t);
        assert used[t] && keys[t] != k;
      }
    }
    hide DistinctKeys, UsedSlots;
    forall x | x in m ensures Has(keys', used', x) {
      if x == k {
        assert used'[s] && keys'[s] == k;
      } else {
        EntriesHas(keys, vals, used, x);
        var t :| 0 <= t < |used| && used[t] && keys[t] == x;
        assert used'[t] && keys'[t] == x;
      }
    }
    EntriesAre(keys', vals', used', m);
  }

  lemma Vacate<K, V>(keys: seq<K>, vals: seq<V>, used: seq<bool>, s: nat)
    requires |keys| == |vals| == |used| && DistinctKeys(keys, used) && s < |used| && used[s]
    ensures DistinctKeys(keys, used[s := false])
    ensures Entries(keys, vals, used[s := false]) == Entries(keys, vals, used) - {keys[s]}
    ensures !Has(keys, used[s := false], keys[s])
    ensures |UsedSlots(used[s := false])| == |UsedSlots(used)| - 1
  {
    OneSlotLess(used, s);
    var used' := used[s := false];
    var m := Entries(keys, vals, used) - {keys[s]};
    forall t | 0 <= t < |used'| && used'[t] ensures keys[t] in m && m[keys[t]] == vals[t] {
      EntriesAt(keys, vals, used, t);
    }
    hide UsedSlots;
    forall x | x in m ensures Has(keys, used', x) {
      EntriesHas(keys, vals, used, x);
      VacateHas(keys, used, s, x);
    }
    EntriesAre(keys, vals, used', m);
    VacateHas(keys, used, s, keys[s]);
  }

  lemma VacateHas<K>(keys: seq<K>, used: seq<bool>, s: nat, x: K)
    requires |keys| == |used| && DistinctKeys(keys, used) && s < |used| && used[s]
    ensures Has(keys, used[s := false], x) <==> Has(keys, used, x) && x != keys[s]
  {
    if Has(keys, used, x) && x != keys[s] {
      var t :| 0 <= t < |used| && used[t] && keys[t] == x;
      assert used[s := false][t];
    }
  }

  lemma OneEntryLess<K, V>(m: map<K, V>, k: K)
    requires k in m
    ensures |m| == |m - {k}| + 1
  {
    assert m.Keys == (m - {k}).Keys + {k};
  }

  lemma NoEntries<K, V>(keys: seq<K>, vals: seq<V>, used: seq<bool>)
    requires |keys| == |vals| == |used| && DistinctKeys(keys, used) && UsedSlots(used) == {}
    ensures Entries(keys, vals, used) == map[]
  {
    forall t: nat | t < |used| ensures !used[t] {
      assert t !in UsedSlots(used);
    }
  }

  /** There are as many entries as slots in use. */
  lemma {:induction false} EntryCount<K, V>(keys: seq<K>, vals: seq<V>, used: seq<bool>)
    requires |keys| == |vals| == |used| && DistinctKeys(keys, used)
    ensures |Entries(keys, vals, used)| == |UsedSlots(used)| <= |used|
    decreases UsedSlots(used)
  {
    UsedAtMost(used);
    if s :| s in UsedSlots(used) {
      Vacate(keys, vals, used, s);
      OneSlotLess(used, s);
      EntriesAt(keys, vals, used, s);
      hide Entries, DistinctKeys;
      EntryCount(keys, vals, used[s := false]);
      OneEntryLess(Entries(keys, vals, used), keys[s]);
    } else {
      NoEntries(keys, vals, used);
    }
  }

  lemma {:induction false} UsedAtMost(used: seq<bool>)
    ensures |UsedSlots(used)| <= |used|
  {
    if used != [] {
      var n := |used| - 1;
      UsedAtMost(used[..n]);
      assert UsedSlots(used) == UsedSlots(used[..n]) + if used[n] then {n} else {};
    }
  }

  /** A slot is free exactly when the table is not full. */
  lemma {:induction false} FullMeansAllUsed(used: seq<bool>)
    ensures |UsedSlots(used)| == |used| <==> forall s :: 0 <= s < |used| ==> used[s]
  {
    if used != [] {
      var n := |used| - 1;
      FullMeansAllUsed(used[..n]);
      UsedAtMost(used[..n]);
      assert UsedSlots(used) == UsedSlots(used[..n]) + if used[n] then {n} else {};
      assert forall s :: 0 <= s < n ==> used[..n][s] == used[s];
    }
  }

  function Pow2(e: nat): (r: nat)
    ensures r > 0
  {
    if e == 0 then 1 else 2 * Pow2(e - 1)
  }

  /** Table sizes: the start doubled the fewest times that reach the target. */
  method DoubleUntil(start: nat, target: nat) returns (n: nat, ghost e: nat)
    requires start > 0
    ensures n == start * Pow2(e) && n >= target
    ensures e > 0 ==> start * Pow2(e - 1) < target
  {
    n, e := start, 0;
    while n < target
      invariant n > 0 && n == start * Pow2(e)
      invariant e > 0 ==> start * Pow2(e - 1) < target
      decreases target - n
    {
      DoublingStep(start, e);
      n := n * 2;
      e := e + 1;
    }
  }

  lemma DoublingStep(start: nat, e: nat)
    ensures start * Pow2(e + 1) == 2 * (start * Pow2(e))
  {
    var p := Pow2(e);
    assert start * (2 * p) == 2 * (start * p);
  }

  // ----- the CLOCK hand -----

  /** The slot the hand inspects after j more ticks. */
  function HandAt(hand: nat, j: nat, capacity: nat): (slot: nat)
    requires capacity > 0
    ensures slot < capacity
  {
    (hand + j) % capacity
  }

  /** A full turn of the hand visits every slot. */
  lemma TurnVisits(hand: nat, capacity: nat, s: nat) returns (j: nat)
    requires s < capacity
    ensures j < capacity && HandAt(hand, j, capacity) == s
  {
    var h := hand % capacity;
    j := if s >= h then s - h else s + capacity - h;
    ModShift(hand, j, capacity);
  }

  lemma ModShift(hand: nat, j: nat, capacity: nat)
    requires j <= capacity && capacity > 0
    ensures HandAt(hand, j, capacity) ==
            if hand % capacity + j < capacity then hand % capacity + j else hand % capacity + j - capacity
  {
    var q, h := hand / capacity, hand % capacity;
    assert hand + j == q * capacity + (h + j);
    if h + j < capacity {
      DivModUnique(hand + j, q, h + j, capacity);
    } else {
      assert hand + j == (q + 1) * capacity + (h + j - capacity);
      DivModUnique(hand + j, q + 1, h + j - capacity, capacity);
    }
  }

  /** Within one turn the hand does not visit a slot twice. */
  lemma TurnIsInjective(hand: nat, i: nat, j: nat, capacity: nat)
    requires i < j < capacity
    ensures HandAt(hand, i, capacity) != HandAt(hand, j, capacity)
  {
    ModShift(hand, i, capacity);
    ModShift(hand, j, capacity);
  }

  lemma TurnReturns(hand: nat, capacity: nat)
    requires capacity > 0
    ensures HandAt(hand, capacity, capacity) == HandAt(hand, 0, capacity)
  {
    ModShift(hand, capacity, capacity);
    ModShift(hand, 0, capacity);
  }

  /** The hand has passed its next n slots, clearing exactly their reference bits. */
  ghost predicate Swept(refd: seq<bool>, refd': seq<bool>, hand: nat, n: nat)
    requires |refd| > 0
  {
    && |refd'| == |refd|
    && (forall j :: 0 <= j < n ==> !refd'[HandAt(hand, j, |refd|)])
    && (forall s :: 0 <= s < |refd| && (forall j :: 0 <= j < n ==> HandAt(hand, j, |refd|) != s) ==>
         refd'[s] == refd[s])
  }

  /**
   Which slot the CLOCK hand settles on, and what it did on the way.  A clearing hand takes
   reference bits away from the used slots it passes; one that is not clearing only looks
   for a free slot.
   */
  ghost predicate ClockPick(used: seq<bool>, refd: seq<bool>, hand: nat, clearing: bool, steps: nat, refd': seq<bool>)
    requires |used| == |refd| > 0
  {
    && 1 <= steps <= |used| + 1
    && (forall j :: 0 <= j < steps - 1 ==> used[HandAt(hand, j, |used|)])
    && var slot := HandAt(hand, steps - 1, |used|);
    if !clearing then
      steps <= |used| && refd' == refd && !used[slot]
    else
      && Swept(refd, refd', hand, steps - 1)
      && (forall j :: 0 <= j < steps - 1 ==> refd[HandAt(hand, j, |used|)])
      && (used[slot] && steps <= |used| ==> !refd[slot])
  }

  /** The bits and the hand decide the pick: no two are possible. */
  lemma PickIsDetermined(used: seq<bool>, refd: seq<bool>, hand: nat, clearing: bool,
                         m: nat, refdM: seq<bool>, n: nat, refdN: seq<bool>)
    requires |used| == |refd| > 0
    requires ClockPick(used, refd, hand, clearing, m, refdM) && ClockPick(used, refd, hand, clearing, n, refdN)
    ensures m == n && refdM == refdN
  {
    if clearing {
      forall s | 0 <= s < |refd| ensures refdM[s] == refdN[s] {
        if j :| 0 <= j < m - 1 && HandAt(hand, j, |refd|) == s {
          assert !refdM[s] && !refdN[s];
        }
      }
    }
  }

  /** A referenced slot is given up only if every slot was referenced. */
  lemma ReferencedGoLast(used: seq<bool>, refd: seq<bool>, hand: nat, steps: nat, refd': seq<bool>)
    requires |used| == |refd| > 0 && ClockPick(used, refd, hand, true, steps, refd')
    requires var slot := HandAt(hand, steps - 1, |used|); used[slot] && refd[slot]
    ensures forall s :: 0 <= s < |refd| ==> used[s] && refd[s]
  {
    forall s | 0 <= s < |refd| ensures used[s] && refd[s] {
      var j := TurnVisits(hand, |used|, s);
    }
  }

  /** The search so far: the hand has passed `steps` slots without settling. */
  ghost predicate Scanned(used: seq<bool>, refd: seq<bool>, hand: nat, clearing: bool, steps: nat, refd': seq<bool>)
    requires |used| == |refd| > 0
  {
    && steps <= |used|
    && (forall j :: 0 <= j < steps ==> used[HandAt(hand, j, |used|)])
    && if !clearing then refd' == refd
       else Swept(refd, refd', hand, steps) && forall j :: 0 <= j < steps ==> refd[HandAt(hand, j, |used|)]
  }

  lemma ScanStarts(used: seq<bool>, refd: seq<bool>, hand: nat, clearing: bool)
    requires |used| == |refd| > 0
    ensures Scanned(used, refd, hand, clearing, 0, refd)
  {
  }

  /** Passing one more slot: the hand never completes a turn without having reset every bit
      or found a free slot. */
  lemma ScanPasses(used: seq<bool>, refd: seq<bool>, hand: nat, clearing: bool, steps: nat, refd': seq<bool>)
    requires |used| == |refd| > 0 && Scanned(used, refd, hand, clearing, steps, refd')
    requires !clearing ==> |UsedSlots(used)| < |used|
    requires var slot := HandAt(hand, steps, |used|); used[slot] && (clearing ==> |refd'| == |refd| && refd'[slot])
    ensures Scanned(used, refd, hand, clearing, steps + 1,
                    if clearing then refd'[HandAt(hand, steps, |used|) := false] else refd')
    ensures steps < |used|
  {
    if clearing {
      TurnReturns(hand, |used|);
      if steps < |used| {
        forall j | 0 <= j < steps ensures HandAt(hand, j, |used|) != HandAt(hand, steps, |used|) {
          TurnIsInjective(hand, j, steps, |used|);
        }
      }
    } else {
      FreeSlotAhead(used, hand, steps);
    }
  }

  lemma ScanPicks(used: seq<bool>, refd: seq<bool>, hand: nat, clearing: bool, steps: nat, refd': seq<bool>)
    requires |used| == |refd| > 0 && Scanned(used, refd, hand, clearing, steps, refd')
    requires !clearing ==> |UsedSlots(used)| < |used|
    requires var slot := HandAt(hand, steps, |used|);
             |refd'| == |refd| && (!used[slot] || (clearing && !refd'[slot]))
    ensures ClockPick(used, refd, hand, clearing, steps + 1, refd')
  {
    if clearing {
      if steps < |used| {
        forall j | 0 <= j < steps ensures HandAt(hand, j, |used|) != HandAt(hand, steps, |used|) {
          TurnIsInjective(hand, j, steps, |used|);
        }
      }
    } else {
      FreeSlotAhead(used, hand, steps);
    }
  }

  /** A hand that has met only used slots has not completed its turn. */
  lemma FreeSlotAhead(used: seq<bool>, hand: nat, steps: nat)
    requires |used| > 0 && |UsedSlots(used)| < |used| && steps <= |used|
    requires forall j :: 0 <= j < steps ==> used[HandAt(hand, j, |used|)]
    ensures steps < |used|
  {
    FullMeansAllUsed(used);
    var s :| 0 <= s < |used| && !used[s];
    var j := TurnVisits(hand, |used|, s);
    assert j >= steps;
  }
}
