/** What `dump_file` archives and what `load_file` makes of it, as values. */
module SkipDump {
  import opened Orders
  import opened SkipTower

  /** SkipListDump: two columns. */
  datatype Dump<K, V> = Dump(keys: seq<K>, vals: seq<V>)

  ghost predicate Ascending<K(!new)>(less: (K, K) -> bool, keys: seq<K>) {
    forall i, j :: 0 <= i < j < |keys| ==> less(keys[i], keys[j])
  }

  /** The dump lists exactly the map, in strictly increasing key order. */
  ghost predicate Dumps<K(!new), V>(less: (K, K) -> bool, d: Dump<K, V>, m: map<K, V>) {
    && |d.keys| == |d.vals| && Ascending(less, d.keys)
    && (forall i :: 0 <= i < |d.keys| ==> d.keys[i] in m && m[d.keys[i]] == d.vals[i])
    && (forall key :: key in m ==> key in d.keys)
  }

  /** A key that is present keeps its value. */
  function Kept<K, V>(m: map<K, V>, key: K, value: V): map<K, V> {
    if key in m then m else m[key := value]
  }

  function Loaded<K, V>(m: map<K, V>, d: Dump<K, V>): map<K, V>
    requires |d.keys| == |d.vals|
    decreases |d.keys|
  {
    if d.keys == [] then m
    else
      var n := |d.keys| - 1;
      Kept(Loaded(m, Dump(d.keys[..n], d.vals[..n])), d.keys[n], d.vals[n])
  }

  /** What loading does to each key, whatever the dump. */
  lemma {:induction false} LoadedKeys<K, V>(m: map<K, V>, d: Dump<K, V>)
    requires |d.keys| == |d.vals|
    requires forall i, j :: 0 <= i < j < |d.keys| ==> d.keys[i] != d.keys[j]
    ensures forall key :: key in Loaded(m, d) <==> key in m || key in d.keys
    ensures forall key :: key in m ==> Loaded(m, d)[key] == m[key]
    ensures forall i :: 0 <= i < |d.keys| && d.keys[i] !in m ==> Loaded(m, d)[d.keys[i]] == d.vals[i]
    decreases |d.keys|
  {
    if d.keys != [] {
      var n := |d.keys| - 1;
      var less := Dump(d.keys[..n], d.vals[..n]);
      LoadedKeys(m, less);
      assert d.keys == less.keys + [d.keys[n]];
      assert forall i :: 0 <= i < n ==> less.keys[i] == d.keys[i] && less.vals[i] == d.vals[i];
    }
  }

  /** Loading the dump of m' gives the union of the two maps, in which what was there wins. */
  lemma LoadGivesUnion<K(!new), V>(less: (K, K) -> bool, m: map<K, V>, d: Dump<K, V>, m': map<K, V>)
    requires StrictOrder(less) && Dumps(less, d, m')
    ensures Loaded(m, d) == m' + m
  {
    forall i, j | 0 <= i < j < |d.keys|
      ensures d.keys[i] != d.keys[j]
    {
      assert Irreflexive(less, d.keys[i]);
    }
    LoadedKeys(m, d);
    forall key | key in m' + m
      ensures key in Loaded(m, d) && Loaded(m, d)[key] == (m' + m)[key]
    {
      if key !in m {
        var i :| 0 <= i < |d.keys| && d.keys[i] == key;
      }
    }
  }

  /** A store is what its dump says if and only if it held nothing else before: no other key, and no other
      value for a key of the dump. */
  lemma LoadRestoresIff<K(!new), V>(less: (K, K) -> bool, m: map<K, V>, d: Dump<K, V>, m': map<K, V>)
    requires StrictOrder(less) && Dumps(less, d, m')
    ensures Loaded(m, d) == m' <==> forall key :: key in m ==> key in m' && m'[key] == m[key]
    ensures m == map[] ==> Loaded(m, d) == m'
  {
    LoadGivesUnion(less, m, d, m');
    if forall key :: key in m ==> key in m' && m'[key] == m[key] {
      assert m' + m == m';
    } else {
      var key :| key in m && !(key in m' && m'[key] == m[key]);
      assert (m' + m)[key] == m[key];
    }
  }

  /** The dump of a store is determined by the map. */
  lemma {:induction false} DumpUnique<K(!new), V>(less: (K, K) -> bool, d: Dump<K, V>, d': Dump<K, V>, m: map<K, V>)
    requires StrictOrder(less) && Dumps(less, d, m) && Dumps(less, d', m)
    ensures d == d'
  {
    SameAscending(less, d.keys, d'.keys);
  }

  lemma HasMember<T>(s: seq<T>)
    requires s != []
    ensures exists x :: x in s
  {
    assert s[0] in s;
  }

  /** Two ascending lists of the same keys are equal. */
  lemma {:induction false} SameAscending<K(!new)>(less: (K, K) -> bool, s: seq<K>, t: seq<K>)
    requires StrictOrder(less) && Ascending(less, s) && Ascending(less, t)
    requires forall key :: key in s <==> key in t
    ensures s == t
    decreases |s|
  {
    if s == [] {
      if t != [] {
        HasMember(t);
      }
    } else {
      var a, b := |s| - 1, |t| - 1;
      assert s[a] in t;
      var j :| 0 <= j < |t| && t[j] == s[a];
      assert t[b] in t && t[b] in s;
      var i :| 0 <= i < |s| && s[i] == t[b];
      assert Irreflexive(less, s[a]) && Transitive(less, s[a], t[b], s[a]);
      assert s[a] == t[b];
      forall key
        ensures key in s[..a] <==> key in t[..b]
      {
        if key in s[..a] {
          var k :| 0 <= k < a && s[k] == key;
          assert less(key, s[a]) && key in t;
          var l :| 0 <= l < |t| && t[l] == key;
          assert l != b && t[..b][l] == key;
        }
        if key in t[..b] {
          var k :| 0 <= k < b && t[k] == key;
          assert less(key, t[b]) && key in s;
          var l :| 0 <= l < |s| && s[l] == key;
          assert l != a && s[..a][l] == key;
        }
      }
      SameAscending(less, s[..a], t[..b]);
      assert s == s[..a] + [s[a]] && t == t[..b] + [t[b]];
    }
  }
}
