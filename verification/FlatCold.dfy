/**
 The bounded in-memory cold store (coldcache/flatcold.go): a CLOCK cache over parallel slot
 arrays with a chained hash index.  Contents() is the map it stands for.

 Keys and values are opaque fixed-size records here, one per slot, and the hash is any
 function; nothing below depends on how well it spreads.
 */
module FlatCold {
  import opened Options
  import opened Slots
  import opened ClockTable
  import opened ClockArena

  class FlatCold<K(!new, ==, 0), V(0)> {
    const arena: ClockArena<K, V>
    const capacity: nat

    ghost predicate Valid()
      reads arena.Repr
    {
      arena.Valid() && arena.capacity == capacity
    }

    ghost function Contents(): map<K, V>
      reads arena.Repr
      requires Valid()
    {
      arena.Contents()
    }

    ghost function Now(): Table<K, V>
      requires arena.Framed()
      reads arena.Repr
    {
      arena.Now()
    }

    constructor (requested: nat, hash: K -> nat)
      ensures Valid() && Contents() == map[] && fresh(arena.Repr)
      ensures capacity == if requested == 0 then 1 else requested
    {
      var cap := if requested == 0 then 1 else requested;
      var bc, e := DoubleUntil(1, cap);
      arena := new ClockArena(cap, bc, hash);
      capacity := cap;
    }

    /** Frees or finds a slot: while there is room the reference bits are left alone. */
    method AllocSlot() returns (slot: nat, ghost steps: nat, ghost refd: seq<bool>)
      requires Valid()
      modifies arena.Repr
      ensures Valid() && slot < |Now().used| && !Now().used[slot]
      ensures steps > 0 && Settles(old(Now()), old(Now()).size >= capacity, steps, refd)
      ensures slot == Chosen(old(Now()), steps) && Now().refd == refd && Now().hand == old(Now()).hand + steps
      ensures old(Now()).size >= capacity ==>
                var victim := old(Now()).keys[slot];
                victim in old(Contents()) && Contents() == old(Contents()) - {victim}
      ensures old(Now()).size < capacity ==> Contents() == old(Contents())
    {
      hide Good, Map, Settles, Chosen;
      ghost var t := arena.Now();
      MapSize(t, arena.hash);
      var full := arena.size >= capacity;
      slot, steps, refd := arena.Settle(full);
      SettledSlot(t, arena.hash, full, steps, refd);
      if arena.inUse[slot] {
        arena.Evict(slot);
      }
    }

    /** Adds or overwrites; when full and the key is new, exactly one other key goes. */
    method Put(key: K, value: V) returns (ghost steps: nat, ghost refd: seq<bool>)
      requires Valid()
      modifies arena.Repr
      ensures Valid()
      ensures key in old(Contents()) || |old(Contents())| < capacity ==> Contents() == old(Contents())[key := value]
      ensures key in old(Contents()) ==> exists s :: Marked(old(Now()), key, s, Now())
      ensures key !in old(Contents()) ==>
                && steps > 0 && Settles(old(Now()), |old(Contents())| >= capacity, steps, refd)
                && Stepped(old(Now()), steps, refd, Now())
      ensures key !in old(Contents()) && |old(Contents())| >= capacity ==>
                var victim := old(Now()).keys[Chosen(old(Now()), steps)];
                victim in old(Contents()) && Contents() == (old(Contents()) - {victim})[key := value]
    {
      hide Good, Map, Settles, Chosen;
      MapSize(arena.Now(), arena.hash);
      var i := arena.Lookup(key);
      if i >= 0 {
        arena.OverwriteEntry(i, value);
        assert Marked(old(Now()), key, i, Now());
        return 0, [];
      }
      var slot;
      slot, steps, refd := AllocSlot();
      arena.Occupy(slot, key, value);
    }

    /** Reads a record and marks it, and only it, recently used. */
    method Get(key: K) returns (r: Option<V>)
      requires Valid()
      modifies arena.Repr
      ensures Valid() && Contents() == old(Contents())
      ensures r == if key in Contents() then Some(Contents()[key]) else None
      ensures r.None? ==> Now() == old(Now())
      ensures r.Some? ==> exists s :: Touched(old(Now()), key, s, Now())
    {
      hide Good, Map;
      MapSize(Now(), arena.hash);
      var i := arena.Lookup(key);
      if i < 0 {
        return None;
      }
      var _, v := arena.Read(i);
      arena.Mark(i, true);
      assert Touched(old(Now()), key, i, Now());
      return Some(v);
    }

    /** Removes exactly the given key, and says whether it was there. */
    method Del(key: K) returns (found: bool)
      requires Valid()
      modifies arena.Repr
      ensures Valid() && Contents() == old(Contents()) - {key}
      ensures found <==> key in old(Contents())
      ensures found ==> exists s :: Unmarked(old(Now()), key, s, Now())
      ensures !found ==> Now() == old(Now())
    {
      hide Good, Map;
      var i := arena.Lookup(key);
      if i < 0 {
        return false;
      }
      arena.Evict(i);
      arena.Mark(i, false);
      assert Unmarked(old(Now()), key, i, Now());
      return true;
    }
  }

  // ----- whole sequences of operations -----

  datatype Op<K, V> = PutOp(key: K, value: V) | GetOp(key: K) | DelOp(key: K)
  datatype Reply<V> = Stored | Fetched(value: Option<V>) | Removed(found: bool)

  function Apply<K, V>(m: map<K, V>, op: Op<K, V>): map<K, V> {
    match op
    case PutOp(k, v) => m[k := v]
    case GetOp(_) => m
    case DelOp(k) => m - {k}
  }

  function Answer<K, V>(m: map<K, V>, op: Op<K, V>): Reply<V> {
    match op
    case PutOp(_, _) => Stored
    case GetOp(k) => Fetched(if k in m then Some(m[k]) else None)
    case DelOp(k) => Removed(k in m)
  }

  /** What an ordinary map answers to a sequence of operations. */
  function Answers<K, V>(m: map<K, V>, ops: seq<Op<K, V>>): seq<Reply<V>>
    decreases |ops|
  {
    if ops == [] then [] else [Answer(m, ops[0])] + Answers(Apply(m, ops[0]), ops[1..])
  }

  /** At no point do more keys live than there are slots. */
  ghost predicate Fits<K, V>(m: map<K, V>, ops: seq<Op<K, V>>, capacity: nat)
    decreases |ops|
  {
    |m| <= capacity && (ops != [] ==> Fits(Apply(m, ops[0]), ops[1..], capacity))
  }

  lemma GrowthNeedsRoom<K, V>(m: map<K, V>, k: K, v: V, capacity: nat)
    requires |m[k := v]| <= capacity
    ensures k in m || |m| < capacity
  {
    if k !in m {
      assert m[k := v].Keys == m.Keys + {k};
    }
  }

  /** While the live keys fit, the store answers every operation as an ordinary map would. */
  method RunAll<K(!new, ==, 0), V(0)>(store: FlatCold<K, V>, ops: seq<Op<K, V>>) returns (replies: seq<Reply<V>>)
    requires store.Valid() && Fits(store.Contents(), ops, store.capacity)
    modifies store.arena.Repr
    ensures store.Valid() && replies == Answers(old(store.Contents()), ops)
  {
    hide Good, Map;
    ghost var m0 := store.Contents();
    replies := [];
    var i := 0;
    assert ops[0..] == ops;
    while i < |ops|
      invariant 0 <= i <= |ops| && store.Valid()
      invariant Fits(store.Contents(), ops[i..], store.capacity)
      invariant Answers(m0, ops) == replies + Answers(store.Contents(), ops[i..])
    {
      var reply := RunOne(store, ops[i], ops[i..]);
      assert ops[i..][1..] == ops[i + 1..];
      replies := replies + [reply];
      i := i + 1;
    }
    assert replies + [] == replies;
  }

  method RunOne<K(!new, ==, 0), V(0)>(store: FlatCold<K, V>, op: Op<K, V>,
                                      ghost ops: seq<Op<K, V>>) returns (reply: Reply<V>)
    requires store.Valid() && ops != [] && ops[0] == op && Fits(store.Contents(), ops, store.capacity)
    modifies store.arena.Repr
    ensures store.Valid() && store.Contents() == Apply(old(store.Contents()), op)
    ensures reply == Answer(old(store.Contents()), op)
  {
    hide Good, Map, Settles, Chosen;
    match op
    case PutOp(k, v) =>
      GrowthNeedsRoom(store.Contents(), k, v, store.capacity);
      ghost var _, _ := store.Put(k, v);
      reply := Stored;
    case GetOp(k) =>
      var r := store.Get(k);
      reply := Fetched(r);
    case DelOp(k) =>
      var found := store.Del(k);
      reply := Removed(found);
  }
}
