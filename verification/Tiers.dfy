/**
 What one operation of the hot ring may do to the two tiers, and what that means over
 whole runs (internal/codegen/hot_state.go over coldcache/coldcache.go).
 */
module Tiers {
  import opened Options
  import opened ColdStore

  datatype Tiers<K, V> = Tiers(hot: map<K, V>, cold: Cold<K, V>)

  /** The value a reader sees: the hot one if present, else the cold one. */
  function Seen<K(!new), V>(t: Tiers<K, V>): map<K, V> {
    t.cold.entries + t.hot
  }

  /** The victim is written to the cold tier, then its slot is reused. */
  ghost predicate Spills<K(!new), V>(a: Tiers<K, V>, victim: K, key: K, value: V, b: Tiers<K, V>, lossless: bool) {
    && victim in a.hot && key !in a.hot
    && Stores(a.cold, victim, a.hot[victim], b.cold, lossless)
    && b.hot == (a.hot - {victim})[key := value]
  }

  ghost predicate Sets<K(!new), V>(a: Tiers<K, V>, key: K, value: V, b: Tiers<K, V>, lossless: bool) {
    || b == a.(hot := a.hot[key := value])
    || exists victim :: Spills(a, victim, key, value, b, lossless)
  }

  ghost predicate Gets<K(!new), V>(a: Tiers<K, V>, key: K, r: Option<V>, b: Tiers<K, V>, lossless: bool) {
    && r == (if key in Seen(a) then Some(Seen(a)[key]) else None)
    && if key in a.cold.entries && key !in a.hot
       then Sets(a, key, a.cold.entries[key], b, lossless)
       else b == a
  }

  ghost predicate Deletes<K(!new), V>(a: Tiers<K, V>, key: K, found: bool, b: Tiers<K, V>) {
    && (found <==> key in a.hot)
    && b == if found then Tiers(a.hot - {key}, a.cold.(entries := a.cold.entries - {key})) else a
  }

  // ----- eviction is invisible over a lossless cold tier -----

  lemma SetShows<K(!new), V>(a: Tiers<K, V>, key: K, value: V, b: Tiers<K, V>)
    requires Sets(a, key, value, b, true)
    ensures Seen(b) == Seen(a)[key := value]
  {
  }

  lemma GetShowsNothing<K(!new), V>(a: Tiers<K, V>, key: K, r: Option<V>, b: Tiers<K, V>)
    requires Gets(a, key, r, b, true)
    ensures Seen(b) == Seen(a)
  {
    if key in a.cold.entries && key !in a.hot {
      SetShows(a, key, a.cold.entries[key], b);
      assert Seen(a)[key := a.cold.entries[key]] == Seen(a);
    }
  }

  lemma DeleteShows<K(!new), V>(a: Tiers<K, V>, key: K, found: bool, b: Tiers<K, V>)
    requires Deletes(a, key, found, b)
    ensures Seen(b) == if found then Seen(a) - {key} else Seen(a)
    ensures found ==> key !in b.hot && key !in b.cold.entries
  {
  }

  // ----- whole runs -----

  datatype Event<K, V> =
    | SetEvent(key: K, value: V)
    | GetEvent(key: K, result: Option<V>)
    | DeleteEvent(key: K, found: bool)

  ghost predicate Happens<K(!new), V>(a: Tiers<K, V>, e: Event<K, V>, b: Tiers<K, V>, lossless: bool) {
    match e
    case SetEvent(k, v) => Sets(a, k, v, b, lossless)
    case GetEvent(k, r) => Gets(a, k, r, b, lossless)
    case DeleteEvent(k, found) => Deletes(a, k, found, b)
  }

  /** A run of the cache from empty: states[i + 1] follows states[i] by events[i]. */
  ghost predicate Runs<K(!new), V>(states: seq<Tiers<K, V>>, events: seq<Event<K, V>>, lossless: bool) {
    && |states| == |events| + 1
    && states[0] == Tiers(map[], Cold(map[], {}))
    && forall i :: 0 <= i < |events| ==> Happens(states[i], events[i], states[i + 1], lossless)
  }

  /** The reference: the last value set for each key not since deleted from the ring. */
  function Latest<K(!new), V>(events: seq<Event<K, V>>): map<K, V> {
    if events == [] then map[]
    else
      var before := Latest(events[..|events| - 1]);
      match events[|events| - 1]
      case SetEvent(k, v) => before[k := v]
      case GetEvent(_, _) => before
      case DeleteEvent(k, found) => if found then before - {k} else before
  }

  /** What is seen is current, and what is not in the ring has passed through the filter. */
  ghost predicate Current<K(!new), V>(t: Tiers<K, V>, latest: map<K, V>) {
    && (forall k :: k in Seen(t) ==> k in latest && latest[k] == Seen(t)[k])
    && (forall k :: k in latest ==> k in t.hot || k in t.cold.written)
  }

  lemma SetKeepsCurrent<K(!new), V>(a: Tiers<K, V>, key: K, value: V, b: Tiers<K, V>, latest: map<K, V>, lossless: bool)
    requires Current(a, latest) && Sets(a, key, value, b, lossless)
    ensures Current(b, latest[key := value])
  {
    if b != a.(hot := a.hot[key := value]) {
      var victim :| Spills(a, victim, key, value, b, lossless);
      SpillShows(a, victim, key, value, b, lossless);
    }
  }

  /** Whatever a spill leaves visible, apart from the key just set, was visible before. */
  lemma SpillShows<K(!new), V>(a: Tiers<K, V>, victim: K, key: K, value: V, b: Tiers<K, V>, lossless: bool)
    requires Spills(a, victim, key, value, b, lossless)
    ensures forall k :: k in Seen(b) && k != key ==> k in Seen(a) && Seen(a)[k] == Seen(b)[k]
    ensures key in Seen(b) && Seen(b)[key] == value
  {
    forall k | k in Seen(b) && k != key ensures k in Seen(a) && Seen(a)[k] == Seen(b)[k] {
      if k !in b.hot && k != victim {
        assert k in b.cold.entries && k !in a.hot;
      }
    }
  }

  lemma HappensKeepsCurrent<K(!new), V>(a: Tiers<K, V>, e: Event<K, V>, b: Tiers<K, V>, events: seq<Event<K, V>>,
                                        lossless: bool)
    requires Happens(a, e, b, lossless) && Current(a, Latest(events))
    ensures Current(b, Latest(events + [e]))
  {
    assert (events + [e])[..|events|] == events;
    var latest := Latest(events);
    match e
    case SetEvent(k, v) => SetKeepsCurrent(a, k, v, b, latest, lossless);
    case GetEvent(k, r) =>
      if k in a.cold.entries && k !in a.hot {
        SetKeepsCurrent(a, k, a.cold.entries[k], b, latest, lossless);
        assert k in Seen(a) && latest[k := a.cold.entries[k]] == latest;
      }
    case DeleteEvent(k, found) =>
  }

  /**
   Existing keys are never judged new, and nothing stale is ever served: over any run on any
   cold tier, bounded or not, what is seen of a key is the last value set for it, and a live
   key that has left the ring is known to the filter.
   */
  lemma {:induction false} RunsStayCurrent<K(!new), V>(states: seq<Tiers<K, V>>, events: seq<Event<K, V>>,
                                                       lossless: bool)
    requires Runs(states, events, lossless)
    ensures Current(states[|events|], Latest(events))
  {
    if events != [] {
      var n := |events| - 1;
      RunsStayCurrent(states[..n + 1], events[..n], lossless);
      assert events[..n] + [events[n]] == events;
      HappensKeepsCurrent(states[n], events[n], states[n + 1], events[..n], lossless);
    }
  }

  /**
   What the authoritative read path relies on, at every Get of every run: an answer is the
   last value set, and a miss of a live key is one that the filter reports as maybe present.
   */
  lemma GetsAreHonest<K(!new), V>(states: seq<Tiers<K, V>>, events: seq<Event<K, V>>, lossless: bool, i: nat)
    requires Runs(states, events, lossless) && i < |events| && events[i].GetEvent?
    ensures var latest, e := Latest(events[..i]), events[i];
            && (e.result.Some? ==> e.key in latest && latest[e.key] == e.result.value)
            && (e.result.None? && e.key in latest ==> e.key in states[i].cold.written)
  {
    RunsStayCurrent(states[..i + 1], events[..i], lossless);
    assert Happens(states[i], events[i], states[i + 1], lossless);
  }

  /** The cold tier's filter never forgets. */
  lemma {:induction false} WrittenStays<K(!new), V>(
      states: seq<Tiers<K, V>>, events: seq<Event<K, V>>, lossless: bool, i: nat, n: nat)
    requires Runs(states, events, lossless) && i <= n <= |events|
    ensures states[i].cold.written <= states[n].cold.written
  {
    if i < n {
      WrittenStays(states, events, lossless, i, n - 1);
      assert Happens(states[n - 1], events[n - 1], states[n], lossless);
    }
  }

  function Find<K(!new), V>(m: map<K, V>, key: K): Option<V> {
    if key in m then Some(m[key]) else None
  }

  /**
   Eviction is invisible: over a lossless cold tier the two tiers together are an ordinary
   map, and every Get in the run answered as that map would have.
   */
  lemma {:induction false} LosslessRunsAreAMap<K(!new), V>(states: seq<Tiers<K, V>>, events: seq<Event<K, V>>)
    requires Runs(states, events, true)
    ensures Seen(states[|events|]) == Latest(events)
    ensures forall i :: 0 <= i < |events| && events[i].GetEvent? ==>
              events[i].result == Find(Latest(events[..i]), events[i].key)
  {
    if events != [] {
      var n := |events| - 1;
      var a, b, e := states[n], states[n + 1], events[n];
      LosslessRunsAreAMap(states[..n + 1], events[..n]);
      assert Happens(a, e, b, true);
      match e {
        case SetEvent(k, v) => SetShows(a, k, v, b);
        case GetEvent(k, r) => GetShowsNothing(a, k, r, b);
        case DeleteEvent(k, found) => DeleteShows(a, k, found, b);
      }
      forall i | 0 <= i < n && events[i].GetEvent?
        ensures events[i].result == Find(Latest(events[..i]), events[i].key)
      {
        assert events[..n][i] == events[i] && events[..n][..i] == events[..i];
      }
    } else {
      assert Seen(states[0]) == map[];
    }
  }
}
