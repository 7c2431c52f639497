/**
 The generated hot cache (the clock ring emitted by internal/codegen/hot_state.go): a CLOCK
 ring over a chained index that spills its victims to an optional cold tier.

 The in-use flag's transient values, which guard against concurrent slot access the
 single-owner contract rules out, are not modelled; nor are the hit counters.
 */
module HotRing {
  import opened Options
  import opened Slots
  import opened ClockTable
  import opened ClockArena
  import CS = ColdStore
  import opened Tiers

  const DEFAULT_CAPACITY: nat := 100000
  const MIN_BUCKETS: nat := 8

  /** The key in a slot the hand settled on, if it is in use. */
  ghost function Victim<K, V>(t: Table<K, V>, slot: nat): Option<K>
    requires slot < |t.used| == |t.keys|
  {
    if t.used[slot] then Some(t.keys[slot]) else None
  }

  /** Making room: nothing happens, or the victim moves to the cold tier if there is one. */
  ghost predicate Frees<K(!new), V>(a: Tiers<K, V>, victim: Option<K>, b: Tiers<K, V>, tiered: bool, lossless: bool) {
    match victim
    case None => b == a
    case Some(k) =>
      && k in a.hot && b.hot == a.hot - {k}
      && if tiered then CS.Stores(a.cold, k, a.hot[k], b.cold, lossless) else b.cold == a.cold
  }

  ghost predicate Writes<K(!new), V>(a: Tiers<K, V>, victim: Option<K>, key: K, value: V, b: Tiers<K, V>,
                                     tiered: bool, lossless: bool)
  {
    match victim
    case None => b == a.(hot := a.hot[key := value])
    case Some(k) =>
      if tiered then Spills(a, k, key, value, b, lossless)
      else k in a.hot && b == a.(hot := (a.hot - {k})[key := value])
  }

  /** Slots in use lie behind the hand until it has gone round once. */
  ghost predicate BehindHand<K, V>(t: Table<K, V>) {
    forall s :: 0 <= s < |t.used| && t.used[s] ==> s < t.hand
  }

  class HotRing<K(!new, ==, 0), V(0)> {
    const arena: ClockArena<K, V>
    const cold: CS.ColdStore?<K, V>

    ghost const Repr: set<object>

    ghost predicate Framed() {
      && arena.Repr <= Repr
      && (cold != null ==> cold.Repr <= Repr && arena.Repr !! cold.Repr)
    }

    ghost predicate Valid()
      reads Repr
    {
      && Framed()
      && arena.Valid() && BehindHand(arena.Now())
      && (cold != null ==> cold.Valid())
    }

    ghost function View(): Tiers<K, V>
      requires Valid()
      reads Repr
    {
      Tiers(arena.Contents(), if cold == null then CS.Cold(map[], {}) else cold.View())
    }

    constructor (requested: nat, hash: K -> nat, cold: CS.ColdStore?<K, V>)
      requires cold != null ==> cold.Valid() && cold.View() == CS.Cold(map[], {})
      ensures Valid() && View() == Tiers(map[], CS.Cold(map[], {})) && this.cold == cold
      ensures arena.capacity == (if requested == 0 then DEFAULT_CAPACITY else requested)
      ensures fresh(arena.Repr)
    {
      hide ClockArena.Valid, ClockArena.Contents, CS.ColdStore.Valid, CS.ColdStore.View;
      var cap := if requested == 0 then DEFAULT_CAPACITY else requested;
      var bc, e := DoubleUntil(MIN_BUCKETS, cap * 2);
      var slots := new ClockArena<K, V>(cap, bc, hash);
      arena, this.cold := slots, cold;
      Repr := slots.Repr + if cold == null then {} else cold.Repr;
      new;
    }

    /**
     Runs the hand to a slot and makes it free: a free slot is taken as it is, a used one is
     spilled to the cold tier and unlinked.
     */
    method Claim() returns (slot: nat, ghost steps: nat, ghost refd: seq<bool>)
      requires Valid()
      modifies Repr
      ensures Valid() && slot < |arena.Now().used| && !arena.Now().used[slot] && slot < arena.Now().hand
      ensures steps > 0 && Settles(old(arena.Now()), true, steps, refd) && slot == Chosen(old(arena.Now()), steps)
      ensures arena.Now().refd == refd && arena.Now().hand == old(arena.Now()).hand + steps
      ensures Frees(old(View()), Victim(old(arena.Now()), slot), View(), cold != null, cold != null && cold.Lossless())
    {
      hide ClockArena.Valid, ClockArena.Contents, CS.ColdStore.Valid, CS.ColdStore.View;
      hide Settles, CS.Stores, Chosen;
      slot, steps, refd := arena.Settle(true);
      var used := arena.Uses(slot);
      if used {
        if cold != null {
          var k, v := arena.Read(slot);
          cold.Put(k, v);
        }
        arena.Evict(slot);
      }
    }

    /** Writes key in place, into a free slot, or over a victim that is spilled first. */
    method SetByKey(key: K, value: V) returns (ghost steps: nat, ghost refd: seq<bool>)
      requires Valid()
      modifies Repr
      ensures Valid()
      ensures key in old(View()).hot ==> exists s :: Marked(old(arena.Now()), key, s, arena.Now())
      ensures key !in old(View()).hot ==>
                && steps > 0 && Settles(old(arena.Now()), true, steps, refd)
                && Stepped(old(arena.Now()), steps, refd, arena.Now())
      ensures var victim := if key in old(View()).hot then None
                            else Victim(old(arena.Now()), Chosen(old(arena.Now()), steps));
              Writes(old(View()), victim, key, value, View(), cold != null, cold != null && cold.Lossless())
      ensures cold != null ==> Sets(old(View()), key, value, View(), cold.Lossless())
    {
      hide ClockArena.Valid, ClockArena.Contents, CS.ColdStore.Valid, CS.ColdStore.View;
      hide Settles, CS.Stores, Chosen;
      var i := arena.Lookup(key);
      if i >= 0 {
        arena.OverwriteEntry(i, value);
        assert Marked(old(arena.Now()), key, i, arena.Now());
        return 1, [];
      }
      var slot;
      slot, steps, refd := Claim();
      ghost var b := View();
      arena.Occupy(slot, key, value);
      assert View() == b.(hot := b.hot[key := value]);
    }

    /** A hot hit marks the entry; a cold hit promotes it, which may spill another key; a miss
        leaves the ring as it was. */
    method Get(key: K) returns (r: Option<V>, ghost steps: nat, ghost refd: seq<bool>)
      requires Valid()
      modifies Repr
      ensures Valid()
      ensures cold != null ==> Gets(old(View()), key, r, View(), cold.Lossless())
      ensures cold == null ==> View() == old(View()) && r == Find(old(View()).hot, key)
      ensures key in old(View()).hot ==> exists s :: Touched(old(arena.Now()), key, s, arena.Now())
      ensures r.None? ==> arena.Now() == old(arena.Now())
      ensures r.Some? && key !in old(View()).hot ==>
                && steps > 0 && Settles(old(arena.Now()), true, steps, refd)
                && Stepped(old(arena.Now()), steps, refd, arena.Now())
                && Writes(old(View()), Victim(old(arena.Now()), Chosen(old(arena.Now()), steps)), key, r.value, View(),
                          true, cold != null && cold.Lossless())
    {
      hide ClockArena.Valid, ClockArena.Contents, CS.ColdStore.Valid, CS.ColdStore.View, Settles, CS.Stores, Chosen;
      steps, refd := 1, [];
      var i := arena.Lookup(key);
      if i >= 0 {
        var _, v := arena.Read(i);
        arena.Mark(i, true);
        assert Touched(old(arena.Now()), key, i, arena.Now());
        r := Some(v);
        return;
      }
      if cold != null {
        r := cold.Get(key);
        if r.Some? {
          steps, refd := SetByKey(key, r.value);
        }
        return;
      }
      r := None;
    }

    /** Only a key in the ring can be deleted; it then leaves both tiers. */
    method Delete(key: K) returns (found: bool)
      requires Valid()
      modifies Repr
      ensures Valid()
      ensures cold != null ==> Deletes(old(View()), key, found, View())
      ensures cold == null ==> View().hot == old(View()).hot - {key} && (found <==> key in old(View()).hot)
      ensures found ==> exists s :: Unmarked(old(arena.Now()), key, s, arena.Now())
      ensures !found ==> arena.Now() == old(arena.Now())
    {
      hide ClockArena.Valid, ClockArena.Contents, CS.ColdStore.Valid, CS.ColdStore.View, Settles, CS.Stores, Chosen;
      var i := arena.Lookup(key);
      if i < 0 {
        return false;
      }
      arena.Evict(i);
      if cold != null {
        cold.Delete(key);
      }
      arena.Mark(i, false);
      assert Unmarked(old(arena.Now()), key, i, arena.Now());
      return true;
    }

    /** Without a cold tier no key has ever been spilled; with one, no spilled key is denied. */
    method ColdMightContain(key: K) returns (b: bool)
      requires Valid()
      ensures key in View().cold.written ==> b
      ensures cold == null ==> !b
    {
      if cold == null {
        return false;
      }
      b := cold.MightContain(key);
    }

    /**
     Appends the value of every hot entry, each exactly once, in slot order.  Looking only
     below min(hand, capacity) misses none.
     */
    method AppendValues(dst: seq<V>) returns (out: seq<V>)
      requires Valid()
      ensures Listed(arena.Now(), View().hot, dst, out)
    {
      hide Good, Map, CS.ColdStore.Valid, CS.ColdStore.View, BehindHand, KeysBelow, ValuesOf, Framed, Listed;
      ghost var t, hot := arena.Now(), arena.Contents();
      var limit := if arena.hand > arena.capacity then arena.capacity else arena.hand;
      MapSize(t, arena.hash);
      out := dst;
      ghost var keys := [];
      NoneBelow(t, hot, dst);
      var i := 0;
      while i < limit
        invariant 0 <= i <= limit && keys == KeysBelow(t, i)
        invariant forall k :: k in keys ==> k in hot
        invariant out == dst + ValuesOf(keys, hot)
      {
        OneMore(t, arena.hash, i, keys, dst);
        if arena.inUse[i] {
          out := out + [arena.slotVal[i]];
          keys := keys + [t.keys[i]];
        }
        i := i + 1;
      }
      ListedUpTo(t, arena.hash, limit, dst, out);
    }
  }

  // ----- whole runs -----

  datatype Op<K, V> = SetOp(key: K, value: V) | GetOp(key: K) | DeleteOp(key: K)

  /** The event records this operation. */
  predicate Matches<K(==), V(==)>(op: Op<K, V>, e: Event<K, V>) {
    match op
    case SetOp(k, v) => e == SetEvent(k, v)
    case GetOp(k) => e.GetEvent? && e.key == k
    case DeleteOp(k) => e.DeleteEvent? && e.key == k
  }

  /** One operation is one event of a run. */
  method Perform<K(!new, ==, 0), V(==, 0)>(ring: HotRing<K, V>, op: Op<K, V>) returns (e: Event<K, V>)
    requires ring.Valid() && ring.cold != null
    modifies ring.Repr
    ensures ring.Valid() && Happens(old(ring.View()), e, ring.View(), ring.cold.Lossless())
    ensures Matches(op, e)
  {
    hide HotRing.Valid, HotRing.View, CS.ColdStore.Valid, CS.ColdStore.View;
    hide Sets, Gets, Deletes, Writes, Settles, Stepped;
    match op
    case SetOp(k, v) =>
      var _, _ := ring.SetByKey(k, v);
      e := SetEvent(k, v);
    case GetOp(k) =>
      var r, _, _ := ring.Get(k);
      e := GetEvent(k, r);
    case DeleteOp(k) =>
      var found := ring.Delete(k);
      e := DeleteEvent(k, found);
  }

  /** What the Gets of a run may have answered: over a lossless tier what a map would, and over
      any tier nothing stale and no miss of a live key but of one written to the cold tier. */
  ghost predicate Honest<K(!new), V>(events: seq<Event<K, V>>, written: set<K>, lossless: bool) {
    forall i :: 0 <= i < |events| && events[i].GetEvent? ==>
      var latest, e := Latest(events[..i]), events[i];
      && (lossless ==> e.result == Find(latest, e.key))
      && (e.result.Some? ==> e.key in latest && latest[e.key] == e.result.value)
      && (e.result.None? && e.key in latest ==> e.key in written)
  }

  /**
   Any operations on a fresh ring, each recorded with its answer as one event of a run over the
   two tiers.  What readers saw and see is never stale, live keys that left the ring are known to
   the cold tier, and over a lossless tier the ring with its tier is an ordinary map.
   */
  method PerformAll<K(!new, ==, 0), V(==, 0)>(ring: HotRing<K, V>, ops: seq<Op<K, V>>)
    returns (events: seq<Event<K, V>>, ghost states: seq<Tiers<K, V>>)
    requires ring.Valid() && ring.cold != null && ring.View() == Tiers(map[], CS.Cold(map[], {}))
    modifies ring.Repr
    ensures ring.Valid() && |events| == |ops| && forall i :: 0 <= i < |ops| ==> Matches(ops[i], events[i])
    ensures Runs(states, events, ring.cold.Lossless()) && states[|events|] == ring.View()
    ensures Current(ring.View(), Latest(events))
    ensures Honest(events, ring.View().cold.written, ring.cold.Lossless())
    ensures ring.cold.Lossless() ==> Seen(ring.View()) == Latest(events)
  {
    hide HotRing.Valid, HotRing.View, CS.ColdStore.Valid, CS.ColdStore.View;
    hide Happens, Current, Seen, Latest, Honest, Matches;
    events, states := [], [ring.View()];
    while |events| < |ops|
      invariant ring.Valid() && |events| <= |ops|
      invariant Runs(states, events, ring.cold.Lossless()) && states[|events|] == ring.View()
      invariant forall i :: 0 <= i < |events| ==> Matches(ops[i], events[i])
    {
      var e := Perform(ring, ops[|events|]);
      ExtendRun(states, events, ring.cold.Lossless(), e, ring.View());
      events, states := events + [e], states + [ring.View()];
    }
    RunsStayCurrent(states, events, ring.cold.Lossless());
    RunsAreHonest(states, events, ring.cold.Lossless());
    if ring.cold.Lossless() {
      LosslessRunsAreAMap(states, events);
    }
  }

  lemma RunsAreHonest<K(!new), V>(states: seq<Tiers<K, V>>, events: seq<Event<K, V>>, lossless: bool)
    requires Runs(states, events, lossless)
    ensures Honest(events, states[|events|].cold.written, lossless)
  {
    hide Latest;
    if lossless {
      LosslessRunsAreAMap(states, events);
    }
    forall i | 0 <= i < |events| && events[i].GetEvent?
      ensures var latest, e := Latest(events[..i]), events[i];
              && (e.result.Some? ==> e.key in latest && latest[e.key] == e.result.value)
              && (e.result.None? && e.key in latest ==> e.key in states[|events|].cold.written)
    {
      GetsAreHonest(states, events, lossless, i);
      WrittenStays(states, events, lossless, i, |events|);
    }
  }

  lemma ExtendRun<K(!new), V>(states: seq<Tiers<K, V>>, events: seq<Event<K, V>>, lossless: bool, e: Event<K, V>,
                              t: Tiers<K, V>)
    requires Runs(states, events, lossless) && Happens(states[|events|], e, t, lossless)
    ensures Runs(states + [t], events + [e], lossless)
  {
    hide Happens;
  }

  // ----- listing -----

  ghost function ValuesOf<K, V>(keys: seq<K>, m: map<K, V>): (values: seq<V>)
    requires forall k :: k in keys ==> k in m
    ensures |values| == |keys|
  {
    if keys == [] then [] else ValuesOf(keys[..|keys| - 1], m) + [m[keys[|keys| - 1]]]
  }

  /** The keys of the slots in use below n, in slot order. */
  ghost function KeysBelow<K, V>(t: Table<K, V>, n: nat): seq<K>
    requires n <= |t.used| == |t.keys|
  {
    if n == 0 then [] else KeysBelow(t, n - 1) + if t.used[n - 1] then [t.keys[n - 1]] else []
  }

  lemma {:induction false} KeysBelowHas<K, V>(t: Table<K, V>, n: nat)
    requires n <= |t.used| == |t.keys| && DistinctKeys(t.keys, t.used)
    ensures forall k :: k in KeysBelow(t, n) <==> exists s :: 0 <= s < n && t.used[s] && t.keys[s] == k
    ensures forall i, j :: 0 <= i < j < |KeysBelow(t, n)| ==> KeysBelow(t, n)[i] != KeysBelow(t, n)[j]
  {
    if n > 0 {
      KeysBelowHas(t, n - 1);
      var before := KeysBelow(t, n - 1);
      if t.used[n - 1] {
        assert t.keys[n - 1] !in before;
      }
    }
  }

  lemma ListsOnce<K, V>(t: Table<K, V>, hash: K -> nat, limit: nat)
    requires Good(t, hash) && BehindHand(t)
    requires limit == if t.hand > |t.used| then |t.used| else t.hand
    ensures |t.used| == |t.keys| && KeysBelow(t, limit) == KeysBelow(t, |t.used|)
    ensures forall k :: k in KeysBelow(t, limit) <==> k in Map(t, hash)
    ensures forall i, j :: 0 <= i < j < |KeysBelow(t, limit)| ==> KeysBelow(t, limit)[i] != KeysBelow(t, limit)[j]
  {
    NothingAbove(t, limit, |t.used|);
    KeysBelowHas(t, limit);
    forall k ensures k in Map(t, hash) <==> Has(t.keys, t.used, k) {
      MapHas(t, hash, k);
    }
    hide KeysBelow, Map;
  }

  /** out is dst and then the value of every entry, each exactly once, in slot order. */
  ghost predicate Listed<K(!new), V>(t: Table<K, V>, hot: map<K, V>, dst: seq<V>, out: seq<V>) {
    && |t.used| == |t.keys|
    && var keys := KeysBelow(t, |t.used|);
    && (forall k :: k in keys <==> k in hot)
    && (forall i, j :: 0 <= i < j < |keys| ==> keys[i] != keys[j])
    && out == dst + ValuesOf(keys, hot)
  }

  lemma ListedUpTo<K(!new), V>(t: Table<K, V>, hash: K -> nat, limit: nat, dst: seq<V>, out: seq<V>)
    requires Good(t, hash) && BehindHand(t)
    requires limit == if t.hand > |t.used| then |t.used| else t.hand
    requires |t.used| == |t.keys|
    requires forall k :: k in KeysBelow(t, limit) ==> k in Map(t, hash)
    requires out == dst + ValuesOf(KeysBelow(t, limit), Map(t, hash))
    ensures Listed(t, Map(t, hash), dst, out)
  {
    ListsOnce(t, hash, limit);
    hide Good, Map, BehindHand, KeysBelow, ValuesOf;
  }

  lemma NoneBelow<K, V>(t: Table<K, V>, hot: map<K, V>, dst: seq<V>)
    requires |t.used| == |t.keys|
    ensures KeysBelow(t, 0) == [] && dst + ValuesOf([], hot) == dst
  {
  }

  lemma OneMore<K, V>(t: Table<K, V>, hash: K -> nat, i: nat, keys: seq<K>, dst: seq<V>)
    requires Good(t, hash) && i < |t.used| == |t.keys| && keys == KeysBelow(t, i)
    requires forall k :: k in keys ==> k in Map(t, hash)
    ensures KeysBelow(t, i + 1) == if t.used[i] then keys + [t.keys[i]] else keys
    ensures t.used[i] ==>
              && i < |t.vals| && t.keys[i] in Map(t, hash)
              && dst + ValuesOf(keys + [t.keys[i]], Map(t, hash)) == dst + ValuesOf(keys, Map(t, hash)) + [t.vals[i]]
  {
    if t.used[i] {
      MapAt(t, hash, i);
      var more := keys + [t.keys[i]];
      assert more[..|more| - 1] == keys;
      hide Good, Map;
      assert ValuesOf(more, Map(t, hash)) == ValuesOf(keys, Map(t, hash)) + [t.vals[i]];
    }
  }

  lemma {:induction false} NothingAbove<K, V>(t: Table<K, V>, limit: nat, n: nat)
    requires n <= |t.used| == |t.keys| && limit <= n
    requires forall s :: limit <= s < n ==> !t.used[s]
    ensures KeysBelow(t, n) == KeysBelow(t, limit)
  {
    if limit < n {
      NothingAbove(t, limit, n - 1);
    }
  }
}
