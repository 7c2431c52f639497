/**
 A snapshot of a CLOCK cache: slot columns, reference bits, chained index and hand.

 Both caches of the repository keep exactly these columns, so what their operations do to a
 snapshot, and what that means for the map it stands for, is stated here once.
 */
module ClockTable {
  import opened Chains
  import opened Slots

  datatype Table<K, V> = Table(
    keys: seq<K>, vals: seq<V>, used: seq<bool>, refd: seq<bool>,
    heads: seq<int>, next: seq<int>, chains: seq<seq<nat>>,
    hand: nat, size: nat)

  function Bucket<K>(hash: K -> nat, count: nat, key: K): (b: nat)
    requires count > 0
    ensures b < count
  {
    hash(key) % count
  }

  ghost predicate Shaped<K, V>(t: Table<K, V>) {
    && |t.keys| == |t.vals| == |t.used| == |t.refd| == |t.next| > 0
    && |t.heads| == |t.chains| > 0
  }

  ghost predicate Filed<K>(keys: seq<K>, chains: seq<seq<nat>>, hash: K -> nat, s: nat)
    requires s < |keys| && |chains| > 0
  {
    s in chains[Bucket(hash, |chains|, keys[s])]
  }

  ghost predicate Belongs<K>(keys: seq<K>, used: seq<bool>, hash: K -> nat, count: nat, b: nat, s: nat)
    requires |keys| == |used| && count > 0
  {
    s < |used| && used[s] && Bucket(hash, count, keys[s]) == b
  }

  /** The chains hold exactly the slots in use, each on the chain of its key's bucket. */
  ghost predicate Indexes<K>(keys: seq<K>, used: seq<bool>, chains: seq<seq<nat>>, hash: K -> nat)
    requires |keys| == |used| && |chains| > 0
  {
    && (forall b, s :: 0 <= b < |chains| && s in chains[b] ==> Belongs(keys, used, hash, |chains|, b, s))
    && (forall s :: 0 <= s < |used| && used[s] ==> Filed(keys, chains, hash, s))
  }

  /** The invariant of both caches. */
  ghost predicate Good<K, V>(t: Table<K, V>, hash: K -> nat) {
    && Shaped(t)
    && Linked(t.heads, t.next, t.chains)
    && Indexes(t.keys, t.used, t.chains, hash)
    && DistinctKeys(t.keys, t.used)
    && t.size == |UsedSlots(t.used)|
  }

  /** The map a good table stands for. */
  ghost function Map<K, V>(t: Table<K, V>, hash: K -> nat): map<K, V>
    requires Good(t, hash)
  {
    Entries(t.keys, t.vals, t.used)
  }

  /** The hand may settle on Chosen(t, steps), leaving the reference bits refd'. */
  ghost predicate Settles<K, V>(t: Table<K, V>, clearing: bool, steps: nat, refd': seq<bool>)
    requires Shaped(t)
  {
    ClockPick(t.used, t.refd, t.hand, clearing, steps, refd')
  }

  ghost function Chosen<K, V>(t: Table<K, V>, steps: nat): nat
    requires Shaped(t) && steps > 0
  {
    HandAt(t.hand, steps - 1, |t.used|)
  }

  /** A full table gives up a slot in use; otherwise the hand settles on a free one. */
  lemma SettledSlot<K, V>(t: Table<K, V>, hash: K -> nat, clearing: bool, steps: nat, refd': seq<bool>)
    requires Good(t, hash) && steps > 0 && Settles(t, clearing, steps, refd')
    ensures var slot := Chosen(t, steps);
            && slot < |t.used|
            && (!clearing ==> !t.used[slot])
            && (t.size == |t.used| ==> t.used[slot])
  {
    FullMeansAllUsed(t.used);
  }

  lemma SlotBehindHand<K, V>(t: Table<K, V>, steps: nat)
    requires Shaped(t) && steps > 0
    ensures Chosen(t, steps) < t.hand + steps
  {
    var n := t.hand + steps - 1;
    assert n % |t.used| <= n;
  }

  /** After the hand settled and the slot was filled: bits as it left them, the new entry unreferenced. */
  ghost predicate Stepped<K, V>(t: Table<K, V>, steps: nat, refd: seq<bool>, t': Table<K, V>)
    requires Shaped(t) && steps > 0 && |refd| == |t.refd|
  {
    t'.hand == t.hand + steps && t'.refd == refd[Chosen(t, steps) := false]
  }

  /** The key's slot is marked referenced and nothing else changes. */
  ghost predicate Touched<K, V>(t: Table<K, V>, key: K, s: nat, t': Table<K, V>) {
    s < |t.used| == |t.keys| == |t.refd| && t.used[s] && t.keys[s] == key && t' == t.(refd := t.refd[s := true])
  }

  /** Overwriting an entry marks its slot referenced and leaves the hand alone. */
  ghost predicate Marked<K, V>(t: Table<K, V>, key: K, s: nat, t': Table<K, V>) {
    && s < |t.used| == |t.keys| == |t.refd| && t.used[s] && t.keys[s] == key
    && t'.refd == t.refd[s := true] && t'.hand == t.hand
  }

  /** Deleting an entry frees its slot and clears its bit. */
  ghost predicate Unmarked<K, V>(t: Table<K, V>, key: K, s: nat, t': Table<K, V>) {
    && s < |t.used| == |t.keys| == |t.refd| && t.used[s] && t.keys[s] == key
    && t'.used == t.used[s := false] && t'.refd == t.refd[s := false] && t'.hand == t.hand
  }

  // ----- updates of a snapshot -----

  function Pushed<K, V>(t: Table<K, V>, b: nat, slot: nat): Table<K, V>
    requires b < |t.heads| == |t.chains| && slot < |t.next|
  {
    t.(heads := t.heads[b := slot], next := t.next[slot := t.heads[b]], chains := t.chains[b := [slot] + t.chains[b]])
  }

  function Unlinked<K, V>(t: Table<K, V>, b: nat, j: nat): (t': Table<K, V>)
    requires b < |t.heads| == |t.chains| && j < |t.chains[b]|
    requires forall i :: 0 <= i < |t.chains[b]| ==> t.chains[b][i] < |t.next|
    ensures t' == t.(heads := t'.heads, next := t'.next, chains := t'.chains)
  {
    var chain := t.chains[b];
    t.(heads := if j == 0 then t.heads[b := t.next[chain[j]]] else t.heads,
       next := (if j == 0 then t.next else t.next[chain[j - 1] := t.next[chain[j]]])[chain[j] := -1],
       chains := t.chains[b := Cut(chain, j)])
  }

  /** Where slot sits on the chain of key, if it is there. */
  ghost predicate At<K, V>(t: Table<K, V>, hash: K -> nat, key: K, slot: nat, j: nat) {
    && Shaped(t)
    && var chain := t.chains[Bucket(hash, |t.chains|, key)];
    j < |chain| && chain[j] == slot && forall i :: 0 <= i < |chain| ==> chain[i] < |t.next|
  }

  ghost function Evicted<K, V>(t: Table<K, V>, hash: K -> nat, slot: nat, j: nat): Table<K, V>
    requires slot < |t.keys| == |t.used| && At(t, hash, t.keys[slot], slot, j)
  {
    Unlinked(t, Bucket(hash, |t.chains|, t.keys[slot]), j)
    .(used := t.used[slot := false], size := if t.size > 0 then t.size - 1 else 0)
  }

  function Occupied<K, V>(t: Table<K, V>, hash: K -> nat, slot: nat, key: K, value: V): Table<K, V>
    requires |t.keys| == |t.vals| == |t.used| == |t.refd| == |t.next| > slot && |t.heads| == |t.chains| > 0
  {
    Pushed(t.(keys := t.keys[slot := key], vals := t.vals[slot := value],
              used := t.used[slot := true], refd := t.refd[slot := false], size := t.size + 1),
           Bucket(hash, |t.chains|, key), slot)
  }

  // ----- what they mean -----

  lemma EmptyIsGood<K, V>(t: Table<K, V>, hash: K -> nat)
    requires Shaped(t) && t.size == 0
    requires forall s :: 0 <= s < |t.used| ==> !t.used[s]
    requires forall b :: 0 <= b < |t.heads| ==> t.heads[b] < 0 && t.chains[b] == []
    ensures Good(t, hash) && Map(t, hash) == map[]
  {
    EmptyIsLinked(t.heads, t.next);
    assert t.chains == seq(|t.heads|, _ => []);
    hide Linked;
    assert UsedSlots(t.used) == {};
  }

  /** Hand and reference bits do not matter to the map. */
  lemma TouchKeeps<K, V>(t: Table<K, V>, hash: K -> nat, refd: seq<bool>, hand: nat)
    requires Good(t, hash) && |refd| == |t.refd|
    ensures Good(t.(refd := refd, hand := hand), hash)
    ensures Map(t.(refd := refd, hand := hand), hash) == Map(t, hash)
  {
  }

  lemma OverwriteKeeps<K, V>(t: Table<K, V>, hash: K -> nat, slot: nat, value: V)
    requires Good(t, hash) && slot < |t.used| && t.used[slot]
    ensures Good(t.(vals := t.vals[slot := value]), hash)
    ensures Map(t.(vals := t.vals[slot := value]), hash) == Map(t, hash)[t.keys[slot] := value]
  {
    Overwrite(t.keys, t.vals, t.used, slot, value);
  }

  lemma UsedIsLinked<K, V>(t: Table<K, V>, hash: K -> nat, slot: nat) returns (j: nat)
    requires Good(t, hash) && slot < |t.used| && t.used[slot]
    ensures At(t, hash, t.keys[slot], slot, j)
  {
    var b := Bucket(hash, |t.chains|, t.keys[slot]);
    assert Follows(t.heads[b], t.next, t.chains[b]);
    j :| 0 <= j < |t.chains[b]| && t.chains[b][j] == slot;
  }

  lemma FreeIsUnlinked<K, V>(t: Table<K, V>, hash: K -> nat, slot: nat)
    requires Good(t, hash) && slot < |t.used| && !t.used[slot]
    ensures !OnSome(t.chains, slot)
  {
  }

  lemma EvictKeeps<K, V>(t: Table<K, V>, hash: K -> nat, slot: nat, j: nat)
    requires Good(t, hash) && slot < |t.used| && t.used[slot] && At(t, hash, t.keys[slot], slot, j)
    ensures Good(Evicted(t, hash, slot, j), hash)
    ensures t.keys[slot] in Map(t, hash) && Map(t, hash)[t.keys[slot]] == t.vals[slot]
    ensures Map(Evicted(t, hash, slot, j), hash) == Map(t, hash) - {t.keys[slot]}
  {
    var b := Bucket(hash, |t.chains|, t.keys[slot]);
    var t' := Evicted(t, hash, slot, j);
    CutKeeps(t.heads, t.next, t.chains, b, j, t'.heads, t'.next);
    EvictIndexes(t, hash, slot, j);
    hide Linked, Indexes;
    Vacate(t.keys, t.vals, t.used, slot);
    EntriesAt(t.keys, t.vals, t.used, slot);
  }

  /** Everything an eviction needs to know, with the slot's place on its chain. */
  lemma PlanEviction<K, V>(t: Table<K, V>, hash: K -> nat, slot: nat) returns (j: nat)
    requires Good(t, hash) && slot < |t.used| && t.used[slot]
    ensures At(t, hash, t.keys[slot], slot, j)
    ensures Linked(t.heads, t.next, t.chains) && t.size > 0
    ensures Good(Evicted(t, hash, slot, j), hash)
    ensures t.keys[slot] in Map(t, hash) && Map(t, hash)[t.keys[slot]] == t.vals[slot]
    ensures Map(Evicted(t, hash, slot, j), hash) == Map(t, hash) - {t.keys[slot]}
  {
    j := UsedIsLinked(t, hash, slot);
    EvictKeeps(t, hash, slot, j);
    assert slot in UsedSlots(t.used);
  }

  lemma EvictIndexes<K, V>(t: Table<K, V>, hash: K -> nat, slot: nat, j: nat)
    requires Good(t, hash) && slot < |t.used| && t.used[slot] && At(t, hash, t.keys[slot], slot, j)
    ensures Indexes(t.keys, t.used[slot := false], Evicted(t, hash, slot, j).chains, hash)
  {
    CutMembers(t.chains, Bucket(hash, |t.chains|, t.keys[slot]), j);
    hide DistinctKeys, UsedSlots, Linked;
  }

  lemma OccupyKeeps<K, V>(t: Table<K, V>, hash: K -> nat, slot: nat, key: K, value: V)
    requires Good(t, hash) && slot < |t.used| && !t.used[slot] && key !in Map(t, hash)
    ensures Good(Occupied(t, hash, slot, key, value), hash)
    ensures Map(Occupied(t, hash, slot, key, value), hash) == Map(t, hash)[key := value]
  {
    FreeIsUnlinked(t, hash, slot);
    PushKeeps(t.heads, t.next, t.chains, Bucket(hash, |t.chains|, key), slot);
    OccupyIndexes(t, hash, slot, key);
    EntriesHas(t.keys, t.vals, t.used, key);
    hide Linked, Indexes;
    Fill(t.keys, t.vals, t.used, slot, key, value);
  }

  lemma OccupyIndexes<K, V>(t: Table<K, V>, hash: K -> nat, slot: nat, key: K)
    requires Good(t, hash) && slot < |t.used| && !t.used[slot] && !OnSome(t.chains, slot)
    ensures var b := Bucket(hash, |t.chains|, key);
            Indexes(t.keys[slot := key], t.used[slot := true], t.chains[b := [slot] + t.chains[b]], hash)
  {
    hide DistinctKeys, UsedSlots, Linked;
    var b := Bucket(hash, |t.chains|, key);
    var chains' := t.chains[b := [slot] + t.chains[b]];
    var keys', used' := t.keys[slot := key], t.used[slot := true];
    assert forall c :: 0 <= c < |t.chains| ==> slot !in t.chains[c];
    forall c, s | 0 <= c < |chains'| && s in chains'[c]
      ensures Belongs(keys', used', hash, |chains'|, c, s)
    {
      assert s == slot || (s in t.chains[c] && Belongs(t.keys, t.used, hash, |t.chains|, c, s));
    }
    forall s | 0 <= s < |used'| && used'[s] ensures Filed(keys', chains', hash, s) {
      if s != slot {
        var c := Bucket(hash, |t.chains|, t.keys[s]);
        assert Filed(t.keys, t.chains, hash, s) && keys'[s] == t.keys[s];
        assert c == b ==> chains'[c] == [slot] + t.chains[c];
      }
    }
  }

  /** The map never has more keys than the table has slots, and exactly as many as are used. */
  lemma MapSize<K, V>(t: Table<K, V>, hash: K -> nat)
    requires Good(t, hash)
    ensures Shaped(t) && |Map(t, hash)| == t.size <= |t.used|
    ensures t.size == |t.used| <==> forall s :: 0 <= s < |t.used| ==> t.used[s]
  {
    EntryCount(t.keys, t.vals, t.used);
    FullMeansAllUsed(t.used);
  }

  lemma MapHas<K, V>(t: Table<K, V>, hash: K -> nat, key: K)
    requires Good(t, hash)
    ensures key in Map(t, hash) <==> Has(t.keys, t.used, key)
  {
    EntriesHas(t.keys, t.vals, t.used, key);
  }

  lemma MapAt<K, V>(t: Table<K, V>, hash: K -> nat, slot: nat)
    requires Good(t, hash) && slot < |t.used| && t.used[slot]
    ensures t.keys[slot] in Map(t, hash) && Map(t, hash)[t.keys[slot]] == t.vals[slot]
    ensures forall s :: 0 <= s < |t.used| && t.used[s] && t.keys[s] == t.keys[slot] ==> s == slot
  {
    EntriesAt(t.keys, t.vals, t.used, slot);
  }
}
