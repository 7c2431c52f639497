/**
 The cold tier (coldcache/coldcache.go): a key-value backend behind an optional filter of
 the keys ever written.  The backend is the bounded FlatCold store, or else a map standing
 for the embedded database.  The filter is attached on opening, before the first write.
 */
module ColdStore {
  import opened Options
  import FC = FlatCold
  import SB = SplitBloom

  /** What the cold tier holds, and every key ever written to it. */
  datatype Cold<K, V> = Cold(entries: map<K, V>, written: set<K>)

  /** A write lands, and costs a bounded store at most one other key; an unbounded one loses nothing. */
  ghost predicate Stores<K, V>(a: Cold<K, V>, key: K, value: V, b: Cold<K, V>, lossless: bool) {
    && (b.entries == a.entries[key := value]
        || (!lossless && key !in a.entries && DropsOne(a.entries, key, value, b.entries)))
    && b.written == a.written + {key}
  }

  ghost predicate DropsOne<K, V>(m: map<K, V>, key: K, value: V, m': map<K, V>) {
    exists victim :: victim in m && victim != key && m' == (m - {victim})[key := value]
  }

  class ColdStore<K(!new, ==, 0), V(0)> {
    const flat: FC.FlatCold?<K, V>
    const neg: SB.SplitBloom?<K>
    var db: map<K, V>
    ghost var written: set<K>
    ghost const Repr: set<object>

    ghost predicate Framed() {
      && this in Repr
      && (flat != null ==> this !in flat.arena.Repr && flat.arena.Repr <= Repr)
      && (neg != null ==> neg as object != this && neg in Repr && neg.words in Repr)
      && (flat != null && neg != null ==> neg !in flat.arena.Repr && neg.words !in flat.arena.Repr)
    }

    ghost predicate Valid()
      reads Repr
    {
      && Framed()
      && (flat != null ==> flat.Valid())
      && (neg != null ==> neg.Valid() && written <= neg.added)
      && Entries().Keys <= written
    }

    ghost function Entries(): map<K, V>
      requires Framed() && (flat != null ==> flat.Valid())
      reads Repr
    {
      if flat != null then flat.Contents() else db
    }

    ghost function View(): Cold<K, V>
      requires Valid()
      reads Repr
    {
      Cold(Entries(), written)
    }

    /** Only the embedded database keeps everything it is given. */
    ghost predicate Lossless() {
      flat == null
    }

    /** filterBits == 0 attaches no filter. */
    constructor (bounded: bool, capacity: nat, filterBits: nat, hash: K -> nat, filterHash: K -> nat)
      ensures Valid() && View() == Cold(map[], {}) && fresh(Repr)
      ensures Lossless() <==> !bounded
      ensures neg == null <==> filterBits == 0
    {
      hide FC.FlatCold.Valid, FC.FlatCold.Contents, SB.SplitBloom.Valid;
      ghost var repr: set<object> := {};
      if bounded {
        var f := new FC.FlatCold(capacity, hash);
        flat, repr := f, f.arena.Repr;
      } else {
        flat := null;
      }
      if filterBits > 0 {
        var n := new SB.SplitBloom(filterBits, filterHash);
        neg, repr := n, repr + {n, n.words};
      } else {
        neg := null;
      }
      db, written, Repr := map[], {}, {this} + repr;
    }

    /** The filter hears of the key before the backend does. */
    method Put(key: K, value: V)
      requires Valid()
      modifies Repr
      ensures Valid() && Stores(old(View()), key, value, View(), Lossless())
    {
      hide FC.FlatCold.Valid, FC.FlatCold.Contents, SB.SplitBloom.Valid;
      if neg != null {
        neg.Add(key);
      }
      if flat != null {
        var _, _ := flat.Put(key, value);
      } else {
        db := db[key := value];
      }
      written := written + {key};
    }

    /** Without a filter every key might be there; with one, any key ever written reports true, and
        another only if each of its eight bits was set for some key written. */
    method MightContain(key: K) returns (b: bool)
      requires Valid()
      ensures neg == null || key in View().written ==> b
      ensures neg != null ==>
                && (b <==> neg.anyAdd && SB.CoveredUpTo(neg.words[..], neg.blocks, neg.hash(key), SB.BLOCK_WORDS))
                && (b <==> SB.AllCollide(neg.hashes, neg.hash(key), neg.blocks))
    {
      if neg == null {
        return true;
      }
      b := neg.MayContain(key);
    }

    /** Skipping the backend on the filter's word never hides a stored key. */
    method Get(key: K) returns (r: Option<V>)
      requires Valid()
      modifies Repr
      ensures Valid() && View() == old(View())
      ensures r == if key in View().entries then Some(View().entries[key]) else None
    {
      if flat != null {
        r := flat.Get(key);
        return;
      }
      var might := MightContain(key);
      if !might {
        return None;
      }
      return if key in db then Some(db[key]) else None;
    }

    /** The filter never forgets. */
    method Delete(key: K)
      requires Valid()
      modifies Repr
      ensures Valid() && View() == old(View()).(entries := old(View()).entries - {key})
    {
      hide FC.FlatCold.Valid, FC.FlatCold.Contents, SB.SplitBloom.Valid;
      if flat != null {
        var _ := flat.Del(key);
      } else {
        db := db - {key};
      }
    }
  }
}
