/** LocUnorderedSetMap of gps/utils/LocUnorderedSetMap.h: a map from keys to sets of values. */
module SetMaps {

  // ----- What the operations do ----------------------------------------------------------------

  function Values<K, V>(m: map<K, set<V>>, k: K): set<V> {
    if k in m then m[k] else {}
  }

  /** Adds `vals` under every key of `keys`; an empty `vals` adds no key. */
  function Added<K, V>(m: map<K, set<V>>, keys: set<K>, vals: set<V>): map<K, set<V>> {
    if vals == {} then m
    else map k | k in m.Keys + keys :: if k in keys then Values(m, k) + vals else m[k]
  }

  function NewKeys<K, V>(m: map<K, set<V>>, keys: set<K>, vals: set<V>): set<K> {
    if vals == {} then {} else keys - m.Keys
  }

  /** Removes `vals` under every key of `keys`, and the keys that are left without values. */
  function Trimmed<K, V>(m: map<K, set<V>>, keys: set<K>, vals: set<V>): map<K, set<V>> {
    map k | k in m && (k in keys ==> m[k] - vals != {}) :: if k in keys then m[k] - vals else m[k]
  }

  function GoneKeys<K, V>(m: map<K, set<V>>, keys: set<K>, vals: set<V>): set<K> {
    set k | k in keys && k in m && m[k] - vals == {}
  }

  function GoneValues<K, V>(m: map<K, set<V>>, keys: set<K>, vals: set<V>): set<V> {
    set k, v | k in keys && k in m && v in m[k] && v in vals :: v
  }

  function Updated<K, V>(m: map<K, set<V>>, k: K, vals: set<V>): map<K, set<V>> {
    if vals == {} then m - {k} else m[k := vals]
  }

  ghost predicate Holds<K, V>(m: map<K, set<V>>, k: K, v: V) {
    k in m && v in m[k]
  }

  ghost predicate NoEmptySet<K, V>(m: map<K, set<V>>) {
    forall k :: k in m ==> m[k] != {}
  }

  lemma SomeElement<T>(s: set<T>) returns (x: T)
    requires s != {}
    ensures x in s
  {
    x :| x in s;
  }

  lemma AddedHolds<K, V>(m: map<K, set<V>>, keys: set<K>, vals: set<V>)
    ensures forall k, v :: Holds(Added(m, keys, vals), k, v) <==> Holds(m, k, v) || (k in keys && v in vals)
    ensures NoEmptySet(m) ==> NoEmptySet(Added(m, keys, vals))
    ensures vals != {} ==> Added(m, keys, vals).Keys == m.Keys + keys
  {
  }

  lemma TrimmedHolds<K, V>(m: map<K, set<V>>, keys: set<K>, vals: set<V>)
    ensures forall k, v :: Holds(Trimmed(m, keys, vals), k, v) <==> Holds(m, k, v) && !(k in keys && v in vals)
    ensures NoEmptySet(m) ==> NoEmptySet(Trimmed(m, keys, vals))
    ensures Trimmed(m, keys, vals).Keys == m.Keys - GoneKeys(m, keys, vals)
  {
    var t := Trimmed(m, keys, vals);
    forall k, v
      ensures Holds(t, k, v) <==> Holds(m, k, v) && !(k in keys && v in vals)
    {
      if k in m && k in keys && v in m[k] && v !in vals {
        assert v in m[k] - vals;
      }
    }
  }

  /** The new keys are those that are there afterwards and were not before. */
  lemma NewKeysAre<K, V>(m: map<K, set<V>>, keys: set<K>, vals: set<V>)
    ensures NewKeys(m, keys, vals) == Added(m, keys, vals).Keys - m.Keys
  {
  }

  lemma UpdatedHolds<K, V>(m: map<K, set<V>>, k: K, vals: set<V>)
    ensures forall j, v :: Holds(Updated(m, k, vals), j, v) <==> if j == k then v in vals else Holds(m, j, v)
    ensures NoEmptySet(m) ==> NoEmptySet(Updated(m, k, vals))
  {
  }

  lemma AddedStep<K, V>(m: map<K, set<V>>, done: set<K>, k: K, vals: set<V>)
    requires k !in done
    ensures Added(Added(m, done, vals), {k}, vals) == Added(m, done + {k}, vals)
    ensures NewKeys(m, done + {k}, vals) ==
      if k in NewKeys(Added(m, done, vals), {k}, vals) then NewKeys(m, done, vals) + {k} else NewKeys(m, done, vals)
  {
  }

  lemma TrimmedStep<K, V>(m: map<K, set<V>>, done: set<K>, k: K, vals: set<V>)
    requires k !in done
    ensures Trimmed(Trimmed(m, done, vals), {k}, vals) == Trimmed(m, done + {k}, vals)
    ensures k !in Trimmed(m, done, vals) ==>
      && Trimmed(m, done + {k}, vals) == Trimmed(m, done, vals)
      && GoneKeys(m, done + {k}, vals) == GoneKeys(m, done, vals)
      && GoneValues(m, done + {k}, vals) == GoneValues(m, done, vals)
    ensures GoneKeys(m, done + {k}, vals) ==
      if k in GoneKeys(Trimmed(m, done, vals), {k}, vals) then GoneKeys(m, done, vals) + {k}
      else GoneKeys(m, done, vals)
    ensures GoneValues(m, done, vals) + GoneValues(Trimmed(m, done, vals), {k}, vals) == GoneValues(m, done + {k}, vals)
  {
    var t := Trimmed(m, done, vals);
    assert k in m ==> t[k] == m[k];
  }

  // ----- The class -----------------------------------------------------------------------------

  class LocUnorderedSetMap<K(==), V(==)> {
    var entries: map<K, set<V>>

    constructor ()
      ensures entries == map[]
    {
      entries := map[];
    }

    function GetValSet(k: K): set<V>
      reads this
    {
      Values(entries, k)
    }

    method Remove(k: K) returns (removed: bool)
      modifies this
      ensures entries == old(entries) - {k} && removed == (k in old(entries))
    {
      removed := k in entries;
      entries := entries - {k};
    }

    method AddOne(k: K, vals: set<V>) returns (isNew: bool)
      modifies this
      ensures entries == Added(old(entries), {k}, vals) && isNew == (k in NewKeys(old(entries), {k}, vals))
    {
      isNew := false;
      if vals != {} {
        if k in entries {
          entries := entries[k := entries[k] + vals];
        } else {
          entries := entries[k := vals];
          isNew := true;
          assert {} + vals == vals;
        }
      }
    }

    method Add(keys: set<K>, vals: set<V>) returns (newKeys: set<K>)
      modifies this
      ensures entries == Added(old(entries), keys, vals) && newKeys == NewKeys(old(entries), keys, vals)
    {
      newKeys := {};
      var rest := keys;
      ghost var m, done: set<K> := entries, {};
      while rest != {}
        invariant rest + done == keys && rest !! done
        invariant entries == Added(m, done, vals) && newKeys == NewKeys(m, done, vals)
        decreases |rest|
      {
        var k :| k in rest;
        AddedStep(m, done, k, vals);
        var isNew := AddOne(k, vals);
        if isNew {
          newKeys := newKeys + {k};
        }
        rest := rest - {k};
        done := done + {k};
      }
      assert done == keys;
    }

    /** Trims one entry. */
    method TrimOrRemoveOne(k: K, vals: set<V>) returns (removed: bool, goneVals: set<V>)
      requires k in entries
      modifies this
      ensures entries == Trimmed(old(entries), {k}, vals)
      ensures removed == (k in GoneKeys(old(entries), {k}, vals)) && goneVals == GoneValues(old(entries), {k}, vals)
    {
      goneVals := entries[k] * vals;
      var left := entries[k] - vals;
      removed := left == {};
      if removed {
        entries := entries - {k};
      } else {
        entries := entries[k := left];
      }
    }

    method TrimOrRemove(keys: set<K>, vals: set<V>) returns (goneKeys: set<K>, goneVals: set<V>)
      modifies this
      ensures entries == Trimmed(old(entries), keys, vals)
      ensures goneKeys == GoneKeys(old(entries), keys, vals) && goneVals == GoneValues(old(entries), keys, vals)
    {
      goneKeys, goneVals := {}, {};
      var rest := keys;
      ghost var m, done: set<K> := entries, {};
      while rest != {}
        invariant rest + done == keys && rest !! done
        invariant entries == Trimmed(m, done, vals)
        invariant goneKeys == GoneKeys(m, done, vals) && goneVals == GoneValues(m, done, vals)
        decreases |rest|
      {
        var k :| k in rest;
        TrimmedStep(m, done, k, vals);
        if k in entries {
          var removed, gone := TrimOrRemoveOne(k, vals);
          goneVals := goneVals + gone;
          if removed {
            goneKeys := goneKeys + {k};
          }
        }
        rest := rest - {k};
        done := done + {k};
      }
      assert done == keys;
    }

    /** What update returns as the values that are gone is what removeAndReturnInterset returns: the
        values that the old and the new set share. */
    method Update(k: K, vals: set<V>) returns (goneVals: set<V>, newVals: set<V>)
      modifies this
      ensures entries == Updated(old(entries), k, vals)
      ensures goneVals == Values(old(entries), k) * vals && newVals == vals - Values(old(entries), k)
    {
      goneVals, newVals := {}, vals;
      if vals == {} {
        entries := entries - {k};
      } else {
        var curVals := GetValSet(k);
        entries := entries[k := vals];
        goneVals, curVals, newVals := RemoveAndReturnInterset(curVals, newVals);
      }
    }
  }

  /** Removes from both sets what they share, and returns it. */
  method RemoveAndReturnInterset<T(==)>(s1: set<T>, s2: set<T>) returns (common: set<T>, r1: set<T>, r2: set<T>)
    ensures common == s1 * s2 && r1 == s1 - s2 && r2 == s2 - s1
  {
    common, r1, r2 := {}, s1, s2;
    var rest := s2;
    while rest != {}
      invariant rest <= s2 && common == s1 * (s2 - rest) && r1 == s1 - common && r2 == s2 - common
      decreases |rest|
    {
      var v :| v in rest;
      if v in r1 {
        common, r1, r2 := common + {v}, r1 - {v}, r2 - {v};
      }
      assert s2 - (rest - {v}) == (s2 - rest) + {v};
      rest := rest - {v};
    }
  }
}
