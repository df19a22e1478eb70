/** The parts of the skip list that do not touch the heap: nodes, the levels they stand on, and the map
    they represent. */
module SkipTower {
  import opened Orders

  /** A node; the pointer array has one slot for each of the levels 0 to `level`. */
  class Node<K, V> {
    const key: K
    const value: V
    const level: nat
    const forward: array<Node?<K, V>>

    constructor (key: K, value: V, level: nat)
      ensures this.key == key && this.value == value && this.level == level
      ensures fresh(forward) && forward.Length == level + 1
      ensures forall i :: 0 <= i <= level ==> forward[i] == null
    {
      this.key, this.value, this.level := key, value, level;
      forward := new Node?<K, V>[level + 1](_ => null);
    }
  }

  ghost predicate Sorted<K(!new), V>(less: (K, K) -> bool, s: seq<Node<K, V>>) {
    forall i, j :: 0 <= i < j < |s| ==> less(s[i].key, s[j].key)
  }

  // ---------------------------------------------------------------- levels

  /** The nodes of s that stand on level i, in order. */
  ghost function Tower<K, V>(s: seq<Node<K, V>>, i: nat): seq<Node<K, V>> {
    if s == [] then []
    else Tower(s[..|s| - 1], i) + if s[|s| - 1].level >= i then [s[|s| - 1]] else []
  }

  /** Who is on a level comes from the whole, and reaches the level. */
  lemma {:induction false} TowerFrom<K, V>(s: seq<Node<K, V>>, i: nat, j: nat) returns (k: nat)
    requires j < |Tower(s, i)|
    ensures k < |s| && s[k] == Tower(s, i)[j] && s[k].level >= i
    decreases |s|
  {
    if j < |Tower(s[..|s| - 1], i)| {
      k := TowerFrom(s[..|s| - 1], i, j);
    } else {
      k := |s| - 1;
    }
  }

  /** Who reaches a level is on it. */
  lemma {:induction false} TowerHas<K, V>(s: seq<Node<K, V>>, i: nat, k: nat) returns (j: nat)
    requires k < |s| && s[k].level >= i
    ensures j < |Tower(s, i)| && Tower(s, i)[j] == s[k]
    decreases |s|
  {
    if k == |s| - 1 {
      j := |Tower(s[..|s| - 1], i)|;
    } else {
      j := TowerHas(s[..|s| - 1], i, k);
    }
  }

  lemma {:induction false} TowerConcat<K, V>(a: seq<Node<K, V>>, b: seq<Node<K, V>>, i: nat)
    ensures Tower(a + b, i) == Tower(a, i) + Tower(b, i)
    decreases |b|
  {
    if b == [] {
      assert a + b == a;
    } else {
      assert (a + b)[..|a + b| - 1] == a + b[..|b| - 1];
      TowerConcat(a, b[..|b| - 1], i);
    }
  }

  lemma TowerOne<K, V>(x: Node<K, V>, i: nat)
    ensures Tower([x], i) == if x.level >= i then [x] else []
  {
    assert [x][..0] == [];
  }

  lemma TowerEnd<K, V>(s: seq<Node<K, V>>, x: Node<K, V>, i: nat)
    ensures Tower(s + [x], i) == if x.level >= i then Tower(s, i) + [x] else Tower(s, i)
  {
    assert (s + [x])[..|s + [x]| - 1] == s;
  }

  /** A node put between two parts appears at its place on the levels it reaches, and nowhere else. */
  lemma TowerInsert<K, V>(left: seq<Node<K, V>>, x: Node<K, V>, right: seq<Node<K, V>>, i: nat)
    ensures Tower(left + right, i) == Tower(left, i) + Tower(right, i)
    ensures Tower(left + [x] + right, i) == Tower(left, i) + (if x.level >= i then [x] else []) + Tower(right, i)
  {
    TowerConcat(left, right, i);
    TowerConcat(left + [x], right, i);
    TowerConcat(left, [x], i);
    TowerOne(x, i);
  }

  /** Every level is sorted. */
  lemma {:induction false} TowerSorted<K(!new), V>(less: (K, K) -> bool, s: seq<Node<K, V>>, i: nat)
    requires Sorted(less, s)
    ensures Sorted(less, Tower(s, i))
    decreases |s|
  {
    if s != [] {
      var rest, last := s[..|s| - 1], s[|s| - 1];
      TowerSorted(less, rest, i);
      forall j | 0 <= j < |Tower(rest, i)|
        ensures less(Tower(rest, i)[j].key, last.key)
      {
        var k := TowerFrom(rest, i, j);
        assert s[k] == rest[k];
      }
    }
  }

  /** A higher level is a lower one without the nodes that stop in between. */
  lemma {:induction false} TowerSublist<K, V>(s: seq<Node<K, V>>, i: nat, up: nat)
    requires i <= up
    ensures Tower(Tower(s, i), up) == Tower(s, up)
    decreases |s|
  {
    if s != [] {
      var rest, n := s[..|s| - 1], s[|s| - 1];
      assert s == rest + [n];
      TowerSublist(rest, i, up);
      TowerSublistEnd(rest, n, i, up);
    }
  }

  lemma TowerSublistEnd<K, V>(s: seq<Node<K, V>>, x: Node<K, V>, i: nat, up: nat)
    requires i <= up && Tower(Tower(s, i), up) == Tower(s, up)
    ensures Tower(Tower(s + [x], i), up) == Tower(s + [x], up)
  {
    TowerEnd(Tower(s, i), x, up);
    TowerEnd(s, x, up);
    TowerEnd(s, x, i);
  }

  lemma {:induction false} TowerWhole<K, V>(s: seq<Node<K, V>>)
    ensures Tower(s, 0) == s
    decreases |s|
  {
    if s != [] {
      TowerWhole(s[..|s| - 1]);
    }
  }

  // ---------------------------------------------------------------- pointer arrays

  /** Every node has room for its own levels, at most `max`, in a pointer array of its own. */
  ghost predicate Owned<K, V>(s: seq<Node<K, V>>, max: nat) {
    && (forall j :: 0 <= j < |s| ==> s[j].level <= max && s[j].forward.Length == s[j].level + 1)
    && (forall i, j :: 0 <= i < j < |s| ==> s[i].forward != s[j].forward)
  }

  lemma {:induction false} OwnedTower<K, V>(s: seq<Node<K, V>>, i: nat, max: nat)
    requires Owned(s, max)
    ensures Owned(Tower(s, i), max)
    decreases |s|
  {
    if s != [] {
      var rest, last := s[..|s| - 1], s[|s| - 1];
      OwnedTower(rest, i, max);
      forall j | 0 <= j < |Tower(rest, i)|
        ensures Tower(rest, i)[j].forward != last.forward
      {
        var k := TowerFrom(rest, i, j);
        assert s[k] == rest[k];
      }
    }
  }

  lemma OwnedInsert<K, V>(left: seq<Node<K, V>>, x: Node<K, V>, right: seq<Node<K, V>>, max: nat)
    requires Owned(left + right, max) && x.level <= max && x.forward.Length == x.level + 1
    requires forall n :: n in left + right ==> n.forward != x.forward
    ensures Owned(left + [x] + right, max)
  {
    var s, s', k := left + right, left + [x] + right, |left|;
    forall j | 0 <= j < |s'| && j != k
      ensures s'[j] == s[if j < k then j else j - 1]
    {
    }
  }

  lemma OwnedDelete<K, V>(left: seq<Node<K, V>>, x: Node<K, V>, right: seq<Node<K, V>>, max: nat)
    requires Owned(left + [x] + right, max)
    ensures Owned(left + right, max)
  {
    var s, s', k := left + right, left + [x] + right, |left|;
    forall j | 0 <= j < |s|
      ensures s[j] == s'[if j < k then j else j + 1]
    {
    }
  }

  // ---------------------------------------------------------------- cutting at a key

  ghost predicate AllBelow<K(!new), V>(less: (K, K) -> bool, s: seq<Node<K, V>>, key: K) {
    forall j :: 0 <= j < |s| ==> less(s[j].key, key)
  }

  ghost predicate NoneBelow<K(!new), V>(less: (K, K) -> bool, s: seq<Node<K, V>>, key: K) {
    forall j :: 0 <= j < |s| ==> !less(s[j].key, key)
  }

  /** A sorted list falls into the keys below `key` and the others. */
  lemma {:induction false} CutAt<K(!new), V>(less: (K, K) -> bool, s: seq<Node<K, V>>, key: K)
      returns (left: seq<Node<K, V>>, right: seq<Node<K, V>>)
    requires StrictOrder(less) && Sorted(less, s)
    ensures s == left + right && AllBelow(less, left, key) && NoneBelow(less, right, key)
    decreases |s|
  {
    if s == [] {
      left, right := [], [];
    } else if less(s[|s| - 1].key, key) {
      left, right := s, [];
      forall j | 0 <= j < |s|
        ensures less(s[j].key, key)
      {
        assert Transitive(less, s[j].key, s[|s| - 1].key, key);
      }
    } else {
      var rest := s[..|s| - 1];
      left, right := CutAt(less, rest, key);
      right := right + [s[|s| - 1]];
    }
  }

  // ---------------------------------------------------------------- the map

  ghost function MapOf<K, V>(s: seq<Node<K, V>>): map<K, V> {
    if s == [] then map[] else MapOf(s[..|s| - 1])[s[|s| - 1].key := s[|s| - 1].value]
  }

  lemma {:induction false} MapConcat<K, V>(a: seq<Node<K, V>>, b: seq<Node<K, V>>)
    ensures MapOf(a + b) == MapOf(a) + MapOf(b)
    decreases |b|
  {
    if b == [] {
      assert a + b == a;
    } else {
      assert (a + b)[..|a + b| - 1] == a + b[..|b| - 1];
      MapConcat(a, b[..|b| - 1]);
    }
  }

  lemma MapOne<K, V>(x: Node<K, V>)
    ensures MapOf([x]) == map[x.key := x.value]
  {
    assert [x][..0] == [];
  }

  lemma {:induction false} MapMeaning<K(!new), V>(less: (K, K) -> bool, s: seq<Node<K, V>>)
    requires StrictOrder(less) && Sorted(less, s)
    ensures forall j :: 0 <= j < |s| ==> s[j].key in MapOf(s) && MapOf(s)[s[j].key] == s[j].value
    ensures forall key :: key in MapOf(s) ==> exists j :: 0 <= j < |s| && s[j].key == key
    ensures |MapOf(s)| == |s|
    decreases |s|
  {
    if s != [] {
      var last := |s| - 1;
      MapMeaning(less, s[..last]);
      assert Irreflexive(less, s[last].key);
      assert s[last].key !in MapOf(s[..last]);
    }
  }

  /** Whether the key is there is decided at the cut. */
  lemma CutDecides<K(!new), V>(less: (K, K) -> bool, left: seq<Node<K, V>>, right: seq<Node<K, V>>, key: K)
    requires StrictOrder(less) && Sorted(less, left + right)
    requires AllBelow(less, left, key) && NoneBelow(less, right, key)
    ensures key in MapOf(left + right) <==> right != [] && right[0].key == key
    ensures right != [] && right[0].key == key ==> MapOf(left + right)[key] == right[0].value
  {
    var s := left + right;
    MapMeaning(less, s);
    assert Irreflexive(less, key);
    if key in MapOf(s) {
      var j :| 0 <= j < |s| && s[j].key == key;
      assert j >= |left| && s[j] == right[j - |left|] && s[|left|] == right[0];
    }
    if right != [] {
      assert s[|left|] == right[0];
    }
  }

  lemma InsertSorted<K(!new), V>(less: (K, K) -> bool, left: seq<Node<K, V>>, x: Node<K, V>, right: seq<Node<K, V>>)
    requires StrictOrder(less) && Sorted(less, left + right)
    requires AllBelow(less, left, x.key) && NoneBelow(less, right, x.key)
    requires right != [] ==> right[0].key != x.key
    ensures Sorted(less, left + [x] + right)
  {
    var s, s', k := left + right, left + [x] + right, |left|;
    forall i, j | 0 <= i < j < |s'|
      ensures less(s'[i].key, s'[j].key)
    {
      if i == k {
        assert s'[j] == right[j - k - 1] == s[j - 1] && s'[i] == x;
        assert Total(less, x.key, s[j - 1].key) && Irreflexive(less, x.key);
        assert s[k] == right[0] && (j - 1 > k ==> less(s[k].key, s[j - 1].key));
      } else if j != k {
        var i', j' := if i < k then i else i - 1, if j < k then j else j - 1;
        assert s'[i] == s[i'] && s'[j] == s[j'];
      }
    }
  }

  lemma DeleteSorted<K(!new), V>(less: (K, K) -> bool, left: seq<Node<K, V>>, x: Node<K, V>, right: seq<Node<K, V>>)
    requires Sorted(less, left + [x] + right)
    ensures Sorted(less, left + right)
  {
    var s, s', k := left + [x] + right, left + right, |left|;
    forall i, j | 0 <= i < j < |s'|
      ensures less(s'[i].key, s'[j].key)
    {
      var i', j' := if i < k then i else i + 1, if j < k then j else j + 1;
      assert s'[i] == s[i'] && s'[j] == s[j'];
    }
  }

  /** In a sorted list a node's key is not among the others'. */
  lemma KeyOnce<K(!new), V>(less: (K, K) -> bool, a: seq<Node<K, V>>, x: Node<K, V>, b: seq<Node<K, V>>)
    requires StrictOrder(less) && Sorted(less, a + [x] + b)
    ensures x.key !in MapOf(a) && x.key !in MapOf(b)
  {
    var s := a + [x] + b;
    assert Irreflexive(less, x.key);
    forall j | 0 <= j < |a|
      ensures a[j].key != x.key
    {
      assert s[j] == a[j] && s[|a|] == x;
    }
    forall j | 0 <= j < |b|
      ensures b[j].key != x.key
    {
      assert s[|a|] == x && s[|a| + 1 + j] == b[j];
    }
    KeyAbsent(a, x.key);
    KeyAbsent(b, x.key);
  }

  lemma {:induction false} KeyAbsent<K, V>(s: seq<Node<K, V>>, key: K)
    requires forall j :: 0 <= j < |s| ==> s[j].key != key
    ensures key !in MapOf(s)
    decreases |s|
  {
    if s != [] {
      KeyAbsent(s[..|s| - 1], key);
    }
  }

  /** A node put between two parts adds its pair to the map. */
  lemma InsertMap<K(!new), V>(less: (K, K) -> bool, a: seq<Node<K, V>>, x: Node<K, V>, b: seq<Node<K, V>>)
    requires StrictOrder(less) && Sorted(less, a + [x] + b)
    ensures MapOf(a + [x] + b) == MapOf(a + b)[x.key := x.value]
    ensures MapOf(a + b) == MapOf(a + [x] + b) - {x.key}
  {
    KeyOnce(less, a, x, b);
    MapConcat(a + [x], b);
    MapConcat(a, [x]);
    MapConcat(a, b);
    MapOne(x);
  }
}
