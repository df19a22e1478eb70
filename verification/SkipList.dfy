/** class SkipList of src/skipList/include/skipList.h: pointer towers of random height that behave as a
    sorted map, whatever heights are drawn. */
module SkipList {
  import opened Options
  import opened Orders
  import opened SkipDump
  import opened SkipTower

  /** The slot of one node holds `next`. */
  ghost predicate Slot<K, V>(n: Node<K, V>, i: nat, next: Node?<K, V>, arrays: set<array<Node?<K, V>>>)
    reads arrays
  {
    n.forward in arrays && i < n.forward.Length && n.forward[i] == next
  }

  function After<K, V>(list: seq<Node<K, V>>, j: nat): Node?<K, V> {
    if j + 1 < |list| then list[j + 1] else null
  }

  /** The nodes of level i are chained through their slot i, the last one to nothing. */
  ghost predicate Linked<K, V>(list: seq<Node<K, V>>, i: nat, arrays: set<array<Node?<K, V>>>)
    reads arrays
  {
    forall j {:trigger After(list, j)} {:trigger list[j].forward} ::
      0 <= j < |list| ==> Slot(list[j], i, After(list, j), arrays)
  }

  /** What comes after a node of the front part. */
  lemma NextLink<K, V>(front: seq<Node<K, V>>, back: seq<Node<K, V>>, i: nat, arrays: set<array<Node?<K, V>>>, m: nat)
    requires Linked(front + back, i, arrays) && m < |front|
    ensures front[m].forward in arrays && i < front[m].forward.Length
    ensures front[m].forward[i] ==
            if m + 1 < |front| then front[m + 1] else if back == [] then null else back[0]
  {
    assert (front + back)[m] == front[m];
    if m + 1 < |front| {
      assert (front + back)[m + 1] == front[m + 1];
    } else if back != [] {
      assert (front + back)[m + 1] == back[0];
    }
  }

  lemma LinkedWithin<K, V>(list: seq<Node<K, V>>, i: nat, arrays: set<array<Node?<K, V>>>,
                           more: set<array<Node?<K, V>>>)
    requires Linked(list, i, arrays) && arrays <= more
    ensures Linked(list, i, more) && forall n :: n in list ==> n.forward in arrays
  {
    forall j | 0 <= j < |list|
      ensures list[j].forward in arrays
    {
    }
  }

  class SkipList<K(!new, ==), V> {
    const maxLevel: nat
    const header: Node<K, V>
    const less: (K, K) -> bool
    /** _skip_list_level and _element_count. */
    var level: nat
    var count: nat
    /** The nodes in key order, the header not among them. */
    ghost var nodes: seq<Node<K, V>>

    ghost function Arrays(): set<array<Node?<K, V>>>
      reads this`nodes
    {
      set n | n in [header] + nodes :: n.forward
    }

    ghost function Chain(i: nat): seq<Node<K, V>>
      reads this`nodes
    {
      [header] + Tower(nodes, i)
    }

    /** Every level is the chain of exactly the nodes that reach it. */
    ghost predicate Wired()
      reads this`nodes, Arrays()
    {
      && header.level == maxLevel && Owned([header] + nodes, maxLevel)
      && (forall i :: 0 <= i <= maxLevel ==> Linked(Chain(i), i, Arrays()))
    }

    /** The levels above the current one are empty, and the current one is not, unless it is the lowest. */
    ghost predicate Top()
      reads this
    {
      && level <= maxLevel
      && (forall i :: level < i <= maxLevel ==> Tower(nodes, i) == [])
      && (level > 0 ==> Tower(nodes, level) != [])
    }

    ghost predicate Valid()
      reads this, Arrays()
    {
      && StrictOrder(less) && Sorted(less, nodes)
      && Wired() && Top()
      && count == |nodes|
    }

    ghost function Contents(): map<K, V>
      reads this`nodes
    {
      MapOf(nodes)
    }

    constructor (maxLevel: nat, less: (K, K) -> bool, k: K, v: V)
      requires StrictOrder(less)
      ensures Valid() && fresh(Arrays()) && Contents() == map[]
      ensures this.maxLevel == maxLevel && this.less == less
    {
      this.maxLevel, this.less := maxLevel, less;
      header := new Node(k, v, maxLevel);
      level, count, nodes := 0, 0, [];
    }

    method Size() returns (n: nat)
      requires Valid()
      ensures n == |Contents()|
    {
      MapMeaning(less, nodes);
      n := count;
    }

    /** `draws` is how often rand() came up odd before it first came up even. */
    method GetRandomLevel(draws: nat) returns (k: nat)
      ensures k == if draws + 1 < maxLevel then draws + 1 else maxLevel
    {
      k := 1;
      var drawn := 0;
      while drawn < draws
        invariant drawn <= draws && k == drawn + 1
      {
        k, drawn := k + 1, drawn + 1;
      }
      k := if k < maxLevel then k else maxLevel;
    }

    // -------------------------------------------------------------- searching

    /** The part of level i up to the nodes of `left`. */
    ghost function Front(left: seq<Node<K, V>>, i: nat): (f: seq<Node<K, V>>)
      ensures f != []
    {
      [header] + Tower(left, i)
    }

    ghost function Before(left: seq<Node<K, V>>, i: nat): Node<K, V> {
      Front(left, i)[|Front(left, i)| - 1]
    }

    lemma LevelOwned(s: seq<Node<K, V>>, i: nat)
      requires header.level == maxLevel && i <= maxLevel && Owned([header] + s, maxLevel)
      ensures Owned([header] + Tower(s, i), maxLevel)
    {
      TowerConcat([header], s, i);
      TowerOne(header, i);
      OwnedTower([header] + s, i, maxLevel);
    }

    lemma LevelsAround(left: seq<Node<K, V>>, right: seq<Node<K, V>>, arrays: set<array<Node?<K, V>>>)
      requires Wired() && nodes == left + right && Arrays() <= arrays
      ensures forall i :: 0 <= i <= maxLevel ==> Linked(Front(left, i) + Tower(right, i), i, arrays)
      ensures forall i :: 0 <= i <= maxLevel ==> Owned(Front(left, i) + Tower(right, i), maxLevel)
      ensures forall i :: 0 <= i <= maxLevel ==>
                forall n :: n in Front(left, i) + Tower(right, i) ==> n.forward in Arrays()
    {
      forall i | 0 <= i <= maxLevel
        ensures Linked(Front(left, i) + Tower(right, i), i, arrays)
        ensures Owned(Front(left, i) + Tower(right, i), maxLevel)
        ensures forall n :: n in Front(left, i) + Tower(right, i) ==> n.forward in Arrays()
      {
        var chain := Front(left, i) + Tower(right, i);
        TowerConcat(left, right, i);
        assert Chain(i) == chain;
        LevelOwned(left + right, i);
        LinkedWithin(chain, i, Arrays(), arrays);
      }
    }

    /** A level cut in front of the first key that is not below. */
    ghost predicate CutLevel(key: K, i: nat, front: seq<Node<K, V>>, back: seq<Node<K, V>>,
                             arrays: set<array<Node?<K, V>>>)
      reads arrays
    {
      && Linked(front + back, i, arrays)
      && (forall j :: 1 <= j < |front| ==> less(front[j].key, key))
      && NoneBelow(less, back, key)
    }

    lemma LevelCut(key: K, left: seq<Node<K, V>>, right: seq<Node<K, V>>, i: nat)
      requires Wired() && i <= maxLevel && nodes == left + right
      requires AllBelow(less, left, key) && NoneBelow(less, right, key)
      ensures CutLevel(key, i, Front(left, i), Tower(right, i), Arrays())
    {
      LevelsAround(left, right, Arrays());
      forall j | 0 <= j < |Tower(left, i)|
        ensures less(Tower(left, i)[j].key, key)
      {
        var at := TowerFrom(left, i, j);
      }
      forall j | 0 <= j < |Tower(right, i)|
        ensures !less(Tower(right, i)[j].key, key)
      {
        var at := TowerFrom(right, i, j);
      }
    }

    /** Going down a level keeps the node found. */
    lemma Descend(left: seq<Node<K, V>>, i: nat) returns (m: nat)
      requires 0 < i
      ensures m < |Front(left, i - 1)| && Front(left, i - 1)[m] == Before(left, i)
    {
      var up := Tower(left, i);
      if up == [] {
        m := 0;
      } else {
        var at := TowerFrom(left, i, |up| - 1);
        var j := TowerHas(left, i - 1, at);
        m := j + 1;
      }
    }

    /** One level of the search: from any node of the level in front of the key to the last one. */
    method Advance(current: Node<K, V>, key: K, i: nat, ghost front: seq<Node<K, V>>, ghost back: seq<Node<K, V>>,
                   ghost arrays: set<array<Node?<K, V>>>, ghost m: nat)
        returns (last: Node<K, V>)
      requires m < |front| && front[m] == current && CutLevel(key, i, front, back, arrays)
      ensures last == front[|front| - 1]
    {
      ghost var at := m;
      last := current;
      NextLink(front, back, i, arrays, at);
      while last.forward[i] != null && less(last.forward[i].key, key)
        invariant at < |front| && last == front[at] && i < last.forward.Length
        decreases |front| - at
      {
        NextLink(front, back, i, arrays, at);
        last := last.forward[i];
        at := at + 1;
        NextLink(front, back, i, arrays, at);
      }
      NextLink(front, back, i, arrays, at);
    }

    /** The same between the two parts of the list, and where that node stands one level down. */
    method OneLevel(current: Node<K, V>, key: K, i: nat, ghost left: seq<Node<K, V>>, ghost right: seq<Node<K, V>>,
                    ghost m: nat)
        returns (last: Node<K, V>, ghost down: nat)
      requires Wired() && i <= maxLevel && nodes == left + right
      requires AllBelow(less, left, key) && NoneBelow(less, right, key)
      requires m < |Front(left, i)| && Front(left, i)[m] == current
      ensures last == Before(left, i)
      ensures i > 0 ==> down < |Front(left, i - 1)| && Front(left, i - 1)[down] == last
    {
      LevelCut(key, left, right, i);
      last := Advance(current, key, i, Front(left, i), Tower(right, i), Arrays(), m);
      down := 0;
      if i > 0 {
        down := Descend(left, i);
      }
    }

    /** The search loop of insert and delete, with the predecessor of every level. */
    method Locate(key: K)
        returns (update: array<Node?<K, V>>, ghost left: seq<Node<K, V>>, ghost right: seq<Node<K, V>>)
      requires Valid()
      ensures fresh(update) && update.Length == maxLevel + 1
      ensures nodes == left + right && AllBelow(less, left, key) && NoneBelow(less, right, key)
      ensures forall i :: 0 <= i <= level ==> update[i] == Before(left, i)
    {
      left, right := CutAt(less, nodes, key);
      update := new Node?<K, V>[maxLevel + 1](_ => null);
      var current := header;
      var i: int := level;
      ghost var m: nat := 0;
      while i >= 0
        invariant -1 <= i <= level
        invariant i >= 0 ==> m < |Front(left, i)| && Front(left, i)[m] == current
        invariant forall j :: i < j <= level ==> update[j] == Before(left, j)
      {
        current, m := OneLevel(current, key, i, left, right, m);
        update[i] := current;
        i := i - 1;
      }
    }

    /** The search finds the first key that is not below, on the lowest level. */
    lemma NextOnLowest(key: K, left: seq<Node<K, V>>, right: seq<Node<K, V>>)
      requires Wired() && nodes == left + right && AllBelow(less, left, key) && NoneBelow(less, right, key)
      ensures 0 < Before(left, 0).forward.Length
      ensures Before(left, 0).forward[0] == if right == [] then null else right[0]
    {
      TowerWhole(right);
      LevelsAround(left, right, Arrays());
      NextLink(Front(left, 0), right, 0, Arrays(), |Front(left, 0)| - 1);
    }

    /** That node decides about the key. */
    lemma NextDecides(key: K, left: seq<Node<K, V>>, right: seq<Node<K, V>>)
      requires Valid() && nodes == left + right && AllBelow(less, left, key) && NoneBelow(less, right, key)
      ensures 0 < Before(left, 0).forward.Length
      ensures Before(left, 0).forward[0] == if right == [] then null else right[0]
      ensures key in Contents() <==> right != [] && right[0].key == key
      ensures key in Contents() ==> Contents()[key] == right[0].value
    {
      NextOnLowest(key, left, right);
      CutDecides(less, left, right, key);
    }

    /** The search loop of search_element. */
    method Reach(key: K) returns (current: Node<K, V>, ghost left: seq<Node<K, V>>, ghost right: seq<Node<K, V>>)
      requires Valid()
      ensures nodes == left + right && AllBelow(less, left, key) && NoneBelow(less, right, key)
      ensures current == Before(left, 0)
    {
      left, right := CutAt(less, nodes, key);
      current := header;
      var i: int := level;
      ghost var m: nat := 0;
      while i >= 0
        invariant -1 <= i <= level
        invariant i >= 0 ==> m < |Front(left, i)| && Front(left, i)[m] == current
        invariant i < 0 ==> current == Before(left, 0)
      {
        current, m := OneLevel(current, key, i, left, right, m);
        i := i - 1;
      }
    }

    method SearchElement(key: K) returns (r: Option<V>)
      requires Valid()
      ensures r == if key in Contents() then Some(Contents()[key]) else None
    {
      var current, left, right := Reach(key);
      NextDecides(key, left, right);
      var candidate := current.forward[0];
      if candidate != null && candidate.key == key {
        r := Some(candidate.value);
      } else {
        r := None;
      }
    }

    // -------------------------------------------------------------- splicing

    /** One turn of the splice loop: the new node after the last one in front. */
    method Splice(last: Node<K, V>, x: Node<K, V>, i: nat,
                  ghost front: seq<Node<K, V>>, ghost back: seq<Node<K, V>>, ghost arrays: set<array<Node?<K, V>>>)
      requires front != [] && last == front[|front| - 1]
      requires Linked(front + back, i, arrays) && Owned(front + back, maxLevel)
      requires i < x.forward.Length && x.forward in arrays && forall n :: n in front + back ==> n.forward != x.forward
      modifies last.forward, x.forward
      ensures Linked(front + [x] + back, i, arrays)
      ensures forall a, j :: a in arrays && 0 <= j < a.Length && j != i ==> a[j] == old(a[j])
    {
      var m := |front| - 1;
      NextLink(front, back, i, arrays, m);
      x.forward[i] := last.forward[i];
      last.forward[i] := x;
      ghost var was := front + back;
      assert was[m] == last;
      forall j | 0 <= j < |was| && j != m
        ensures Slot(was[j], i, After(was, j), arrays)
      {
        assert old(Slot(was[j], i, After(was, j), arrays)) && was[j] in front + back;
        assert was[j].forward != was[m].forward;
      }
      SplicedSlots(front, x, back, i, arrays);
    }

    /** The chain of old slots around the two that changed. */
    lemma SplicedSlots(front: seq<Node<K, V>>, x: Node<K, V>, back: seq<Node<K, V>>, i: nat,
                       arrays: set<array<Node?<K, V>>>)
      requires front != []
      requires forall j {:trigger After(front + back, j)} :: 0 <= j < |front + back| && j != |front| - 1 ==>
                 Slot((front + back)[j], i, After(front + back, j), arrays)
      requires Slot(front[|front| - 1], i, x, arrays) && Slot(x, i, if back == [] then null else back[0], arrays)
      ensures Linked(front + [x] + back, i, arrays)
    {
      var m, was, list := |front| - 1, front + back, front + [x] + back;
      forall j | 0 <= j < |list|
        ensures Slot(list[j], i, After(list, j), arrays)
      {
        if j < m {
          assert After(was, j) == After(list, j) && was[j] == list[j];
        } else if j > m + 1 {
          assert After(was, j - 1) == After(list, j) && was[j - 1] == list[j];
        } else if j == m + 1 {
          assert back != [] ==> list[j + 1] == back[0];
        }
      }
    }

    /** One turn of the unsplice loop: the node after the last one in front goes. */
    method Unsplice(last: Node<K, V>, x: Node<K, V>, i: nat,
                    ghost front: seq<Node<K, V>>, ghost back: seq<Node<K, V>>, ghost arrays: set<array<Node?<K, V>>>)
      requires front != [] && last == front[|front| - 1]
      requires Linked(front + [x] + back, i, arrays) && Owned(front + [x] + back, maxLevel)
      modifies last.forward
      ensures Linked(front + back, i, arrays)
      ensures forall a, j :: a in arrays && 0 <= j < a.Length && j != i ==> a[j] == old(a[j])
    {
      var m := |front| - 1;
      ghost var was := front + [x] + back;
      assert was[m] == last && was[m + 1] == x;
      NextLink(front + [x], back, i, arrays, m + 1);
      last.forward[i] := x.forward[i];
      forall j | 0 <= j < |was| && j != m
        ensures Slot(was[j], i, After(was, j), arrays)
      {
        assert old(Slot(was[j], i, After(was, j), arrays)) && was[j].forward != was[m].forward;
      }
      assert Slot(last, i, if back == [] then null else back[0], arrays);
      UnsplicedSlots(front, x, back, i, arrays);
    }

    lemma UnsplicedSlots(front: seq<Node<K, V>>, x: Node<K, V>, back: seq<Node<K, V>>, i: nat,
                         arrays: set<array<Node?<K, V>>>)
      requires front != []
      requires forall j {:trigger After(front + [x] + back, j)} ::
                 0 <= j < |front + [x] + back| && j != |front| - 1 ==>
                   Slot((front + [x] + back)[j], i, After(front + [x] + back, j), arrays)
      requires Slot(front[|front| - 1], i, if back == [] then null else back[0], arrays)
      ensures Linked(front + back, i, arrays)
    {
      var m, was, list := |front| - 1, front + [x] + back, front + back;
      forall j | 0 <= j < |list|
        ensures Slot(list[j], i, After(list, j), arrays)
      {
        if j < m {
          assert After(was, j) == After(list, j) && was[j] == list[j];
        } else if j > m {
          assert After(was, j + 1) == After(list, j) && was[j + 1] == list[j];
        } else {
          assert list[j] == front[m] && (back != [] ==> list[j + 1] == back[0]);
        }
      }
    }

    /** The splice loop: the new node on every level it reaches. */
    method SpliceAll(x: Node<K, V>, update: array<Node?<K, V>>, ghost fronts: seq<seq<Node<K, V>>>,
                     ghost backs: seq<seq<Node<K, V>>>, ghost arrays: set<array<Node?<K, V>>>)
      requires |fronts| == |backs| == maxLevel + 1 && x.forward.Length == x.level + 1 <= maxLevel + 1
      requires forall i :: 0 <= i <= maxLevel ==>
                 fronts[i] != [] && Owned(fronts[i] + backs[i], maxLevel) && Linked(fronts[i] + backs[i], i, arrays)
      requires forall i :: 0 <= i <= maxLevel ==> forall n :: n in fronts[i] + backs[i] ==> n.forward != x.forward
      requires x.forward in arrays && update !in arrays && update.Length > x.level
      requires forall i :: 0 <= i <= x.level ==> update[i] == fronts[i][|fronts[i]| - 1]
      modifies arrays
      ensures forall i :: 0 <= i <= x.level ==> Linked(fronts[i] + [x] + backs[i], i, arrays)
      ensures forall i :: x.level < i <= maxLevel ==> Linked(fronts[i] + backs[i], i, arrays)
    {
      var i := 0;
      while i <= x.level
        invariant i <= x.level + 1
        invariant forall j :: 0 <= j < i ==> Linked(fronts[j] + [x] + backs[j], j, arrays)
        invariant forall j :: i <= j <= maxLevel ==> Linked(fronts[j] + backs[j], j, arrays)
      {
        assert update[i] == fronts[i][|fronts[i]| - 1];
        NextLink(fronts[i], backs[i], i, arrays, |fronts[i]| - 1);
        Splice(update[i], x, i, fronts[i], backs[i], arrays);
        i := i + 1;
      }
    }

    /** The unsplice loop: the node goes from every level until one is met that does not have it. */
    method UnspliceAll(x: Node<K, V>, update: array<Node?<K, V>>, ghost fronts: seq<seq<Node<K, V>>>,
                       ghost backs: seq<seq<Node<K, V>>>, ghost arrays: set<array<Node?<K, V>>>)
      requires |fronts| == |backs| == maxLevel + 1 && x.level <= level <= maxLevel
      requires forall i :: 0 <= i <= maxLevel ==> fronts[i] != []
      requires forall i :: 0 <= i <= x.level ==>
                 Owned(fronts[i] + [x] + backs[i], maxLevel) && Linked(fronts[i] + [x] + backs[i], i, arrays)
      requires forall i :: x.level < i <= maxLevel ==> Linked(fronts[i] + backs[i], i, arrays) && x !in backs[i]
      requires update !in arrays && update.Length > level
      requires forall i :: 0 <= i <= level ==> update[i] == fronts[i][|fronts[i]| - 1]
      modifies arrays
      ensures forall i :: 0 <= i <= maxLevel ==> Linked(fronts[i] + backs[i], i, arrays)
    {
      var i := 0;
      while i <= level
        invariant i <= x.level + 1
        invariant forall j :: 0 <= j < i ==> Linked(fronts[j] + backs[j], j, arrays)
        invariant forall j :: i <= j <= x.level ==> Linked(fronts[j] + [x] + backs[j], j, arrays)
        invariant forall j :: x.level < j <= maxLevel ==> Linked(fronts[j] + backs[j], j, arrays)
      {
        assert update[i] == fronts[i][|fronts[i]| - 1];
        if i <= x.level {
          assert fronts[i] + [x] + backs[i] == fronts[i] + ([x] + backs[i]);
          NextLink(fronts[i], [x] + backs[i], i, arrays, |fronts[i]| - 1);
          NextLink(fronts[i] + [x], backs[i], i, arrays, |fronts[i]|);
        } else {
          NextLink(fronts[i], backs[i], i, arrays, |fronts[i]| - 1);
        }
        if update[i].forward[i] != x {
          break;
        }
        Unsplice(update[i], x, i, fronts[i], backs[i], arrays);
        i := i + 1;
      }
    }

    /** Level i around a place, without and with the node x that goes there. */
    lemma AroundPlace(left: seq<Node<K, V>>, x: Node<K, V>, right: seq<Node<K, V>>, i: nat)
      ensures [header] + Tower(left + right, i) == Front(left, i) + Tower(right, i)
      ensures [header] + Tower(left + [x] + right, i) ==
              Front(left, i) + (if x.level >= i then [x] else []) + Tower(right, i)
    {
      TowerInsert(left, x, right, i);
      var front, back, middle := Tower(left, i), Tower(right, i), if x.level >= i then [x] else [];
      assert [header] + (front + back) == [header] + front + back;
      assert [header] + (front + middle + back) == [header] + front + middle + back;
    }

    ghost function Fronts(left: seq<Node<K, V>>, n: nat): (f: seq<seq<Node<K, V>>>)
      ensures |f| == n && forall i :: 0 <= i < n ==> f[i] == Front(left, i)
    {
      if n == 0 then [] else Fronts(left, n - 1) + [Front(left, n - 1)]
    }

    ghost function Backs(right: seq<Node<K, V>>, n: nat): (b: seq<seq<Node<K, V>>>)
      ensures |b| == n && forall i :: 0 <= i < n ==> b[i] == Tower(right, i)
    {
      if n == 0 then [] else Backs(right, n - 1) + [Tower(right, n - 1)]
    }

    /** The header is the predecessor on levels that are new. */
    method Raise(randomLevel: nat, update: array<Node?<K, V>>, ghost left: seq<Node<K, V>>)
      requires randomLevel <= maxLevel < update.Length && level <= maxLevel
      requires forall i :: 0 <= i <= level ==> update[i] == Before(left, i)
      requires forall i :: level < i <= maxLevel ==> Tower(left, i) == []
      modifies this`level, update
      ensures level == (if randomLevel > old(level) then randomLevel else old(level)) <= maxLevel
      ensures forall i :: 0 <= i <= level ==> update[i] == Before(left, i)
    {
      if randomLevel > level {
        var i := level + 1;
        while i <= randomLevel
          invariant level < i <= randomLevel + 1
          invariant level == old(level)
          invariant forall j :: 0 <= j < i ==> update[j] == Before(left, j)
        {
          update[i] := header;
          i := i + 1;
        }
        level := randomLevel;
      }
    }

    method SpliceLevels(x: Node<K, V>, update: array<Node?<K, V>>, ghost left: seq<Node<K, V>>,
                        ghost right: seq<Node<K, V>>, ghost arrays: set<array<Node?<K, V>>>)
      requires x.forward.Length == x.level + 1 <= maxLevel + 1 && x.forward in arrays
      requires forall i :: 0 <= i <= maxLevel ==> Linked(Front(left, i) + Tower(right, i), i, arrays)
      requires forall i :: 0 <= i <= maxLevel ==> Owned(Front(left, i) + Tower(right, i), maxLevel)
      requires forall i :: 0 <= i <= maxLevel ==>
                 forall n :: n in Front(left, i) + Tower(right, i) ==> n.forward != x.forward
      requires update !in arrays && maxLevel < update.Length
      requires forall i :: 0 <= i <= x.level ==> update[i] == Before(left, i)
      modifies arrays
      ensures forall i :: 0 <= i <= x.level ==> Linked(Front(left, i) + [x] + Tower(right, i), i, arrays)
      ensures forall i :: x.level < i <= maxLevel ==> Linked(Front(left, i) + Tower(right, i), i, arrays)
    {
      SpliceAll(x, update, Fronts(left, maxLevel + 1), Backs(right, maxLevel + 1), arrays);
    }

    /** The new node goes in between the two parts. */
    method Place(key: K, value: V, randomLevel: nat, update: array<Node?<K, V>>,
                 ghost left: seq<Node<K, V>>, ghost right: seq<Node<K, V>>)
        returns (x: Node<K, V>)
      requires Wired() && nodes == left + right && randomLevel <= maxLevel < update.Length
      requires update !in Arrays()
      requires forall i :: 0 <= i <= randomLevel ==> update[i] == Before(left, i)
      modifies this`nodes, Arrays()
      ensures x.key == key && x.value == value && x.level == randomLevel && fresh(x.forward)
      ensures nodes == left + [x] + right && Wired()
    {
      x := new Node(key, value, randomLevel);
      ghost var arrays := Arrays() + {x.forward};
      LevelsAround(left, right, arrays);
      SpliceLevels(x, update, left, right, arrays);
      nodes := left + [x] + right;
      assert Arrays() == arrays;
      WiredWith(left, x, right, arrays);
    }

    lemma WiredWith(left: seq<Node<K, V>>, x: Node<K, V>, right: seq<Node<K, V>>, arrays: set<array<Node?<K, V>>>)
      requires nodes == left + [x] + right && header.level == maxLevel && Owned([header] + (left + right), maxLevel)
      requires x.level <= maxLevel && x.forward.Length == x.level + 1
      requires forall n :: n in [header] + (left + right) ==> n.forward != x.forward
      requires arrays == Arrays()
      requires forall i :: 0 <= i <= x.level ==> Linked(Front(left, i) + [x] + Tower(right, i), i, arrays)
      requires forall i :: x.level < i <= maxLevel ==> Linked(Front(left, i) + Tower(right, i), i, arrays)
      ensures Wired()
    {
      assert [header] + left + right == [header] + (left + right);
      assert [header] + nodes == [header] + left + [x] + right;
      OwnedInsert([header] + left, x, right, maxLevel);
      forall i | 0 <= i <= maxLevel
        ensures Linked(Chain(i), i, Arrays())
      {
        AroundPlace(left, x, right, i);
        assert Chain(i) == if i <= x.level then Front(left, i) + [x] + Tower(right, i)
                           else Front(left, i) + Tower(right, i);
      }
    }

    /** Returns 1 and changes nothing when the key is there, inserts it and returns 0 otherwise. */
    method InsertElement(key: K, value: V, draws: nat) returns (code: int)
      requires Valid()
      modifies this, Arrays()
      ensures Valid() && fresh(Arrays() - old(Arrays()))
      ensures code == if key in old(Contents()) then 1 else 0
      ensures Contents() == if key in old(Contents()) then old(Contents()) else old(Contents())[key := value]
    {
      var update, left, right := Locate(key);
      NextDecides(key, left, right);
      var current := update[0].forward[0];
      if current != null && current.key == key {
        return 1;
      }
      assert update !in Arrays();
      var randomLevel := GetRandomLevel(draws);
      Add(key, value, randomLevel, update, left, right);
      code := 0;
    }

    /** The second half of an insertion. */
    method Add(key: K, value: V, randomLevel: nat, update: array<Node?<K, V>>,
               ghost left: seq<Node<K, V>>, ghost right: seq<Node<K, V>>)
      requires Valid() && nodes == left + right && AllBelow(less, left, key) && NoneBelow(less, right, key)
      requires right != [] ==> right[0].key != key
      requires randomLevel <= maxLevel < update.Length && update !in Arrays()
      requires forall i :: 0 <= i <= level ==> update[i] == Before(left, i)
      modifies this, Arrays(), update
      ensures Valid() && fresh(Arrays() - old(Arrays()))
      ensures Contents() == old(Contents())[key := value]
    {
      ghost var was := level;
      TowerGrows(left, right);
      Raise(randomLevel, update, left);
      var x := Place(key, value, randomLevel, update, left, right);
      TopAfterInsert(left, x, right, was);
      InsertSorted(less, left, x, right);
      InsertMap(less, left, x, right);
      count := count + 1;
    }

    lemma TowerGrows(left: seq<Node<K, V>>, right: seq<Node<K, V>>)
      ensures forall i: nat :: Tower(left + right, i) == [] ==> Tower(left, i) == []
    {
      forall i: nat
        ensures Tower(left + right, i) == [] ==> Tower(left, i) == []
      {
        TowerConcat(left, right, i);
      }
    }

    lemma TopAfterInsert(left: seq<Node<K, V>>, x: Node<K, V>, right: seq<Node<K, V>>, was: nat)
      requires nodes == left + [x] + right && x.level <= maxLevel
      requires was <= maxLevel && level == if x.level > was then x.level else was
      requires forall i :: was < i <= maxLevel ==> Tower(left + right, i) == []
      requires was > 0 ==> Tower(left + right, was) != []
      ensures Top()
    {
      forall i: nat
        ensures Tower(nodes, i) == [] <==> Tower(left + right, i) == [] && x.level < i
      {
        TowerInsert(left, x, right, i);
      }
    }

    // -------------------------------------------------------------- deleting

    lemma ChainInside(left: seq<Node<K, V>>, right: seq<Node<K, V>>, i: nat)
      ensures forall n :: n in Front(left, i) + Tower(right, i) ==> n in [header] + (left + right)
    {
      var list := Front(left, i) + Tower(right, i);
      forall j | 0 <= j < |list|
        ensures list[j] in [header] + (left + right)
      {
        if 0 < j < |Front(left, i)| {
          var k := TowerFrom(left, i, j - 1);
        } else if j >= |Front(left, i)| {
          var k := TowerFrom(right, i, j - |Front(left, i)|);
        }
      }
    }

    lemma LevelsWithNode(left: seq<Node<K, V>>, x: Node<K, V>, right: seq<Node<K, V>>)
      requires Wired() && nodes == left + [x] + right
      ensures forall i :: 0 <= i <= x.level ==> Linked(Front(left, i) + [x] + Tower(right, i), i, Arrays())
      ensures forall i :: 0 <= i <= x.level ==> Owned(Front(left, i) + [x] + Tower(right, i), maxLevel)
      ensures forall i :: x.level < i <= maxLevel ==> Linked(Front(left, i) + Tower(right, i), i, Arrays())
      ensures forall i :: x.level < i <= maxLevel ==> x !in Tower(right, i)
    {
      assert ([header] + nodes)[|left| + 1] == x;
      forall i | 0 <= i <= maxLevel
        ensures i <= x.level ==> Linked(Front(left, i) + [x] + Tower(right, i), i, Arrays())
        ensures i <= x.level ==> Owned(Front(left, i) + [x] + Tower(right, i), maxLevel)
        ensures i > x.level ==> Linked(Front(left, i) + Tower(right, i), i, Arrays())
      {
        AroundPlace(left, x, right, i);
        LevelOwned(nodes, i);
        assert Chain(i) == if i <= x.level then Front(left, i) + [x] + Tower(right, i)
                           else Front(left, i) + Tower(right, i);
      }
      forall i, j | x.level < i <= maxLevel && 0 <= j < |Tower(right, i)|
        ensures Tower(right, i)[j] != x
      {
        var k := TowerFrom(right, i, j);
      }
    }

    lemma WiredWithout(left: seq<Node<K, V>>, right: seq<Node<K, V>>, arrays: set<array<Node?<K, V>>>)
      requires nodes == left + right && header.level == maxLevel && Owned([header] + nodes, maxLevel)
      requires forall i :: 0 <= i <= maxLevel ==> Linked(Front(left, i) + Tower(right, i), i, arrays)
      ensures Wired()
    {
      forall i | 0 <= i <= maxLevel
        ensures Linked(Chain(i), i, Arrays())
      {
        TowerConcat(left, right, i);
        ChainInside(left, right, i);
        assert Chain(i) == Front(left, i) + Tower(right, i);
      }
    }

    /** The node goes from all its levels. */
    method Unlink(x: Node<K, V>, update: array<Node?<K, V>>, ghost left: seq<Node<K, V>>, ghost right: seq<Node<K, V>>)
      requires Wired() && nodes == left + [x] + right && x.level <= level <= maxLevel
      requires update !in Arrays() && maxLevel < update.Length
      requires forall i :: 0 <= i <= level ==> update[i] == Before(left, i)
      modifies this`nodes, Arrays()
      ensures nodes == left + right && Wired() && Arrays() <= old(Arrays())
    {
      ghost var arrays := Arrays();
      LevelsWithNode(left, x, right);
      UnspliceAll(x, update, Fronts(left, maxLevel + 1), Backs(right, maxLevel + 1), arrays);
      assert [header] + nodes == [header] + left + [x] + right;
      OwnedDelete([header] + left, x, right, maxLevel);
      nodes := left + right;
      assert [header] + nodes == [header] + left + right;
      WiredWithout(left, right, arrays);
    }

    /** Levels that have become empty are given up. */
    method Shrink()
      requires Wired() && level <= maxLevel
      requires forall i :: level < i <= maxLevel ==> Tower(nodes, i) == []
      modifies this`level
      ensures Top() && Wired()
    {
      forall i | 0 <= i <= maxLevel
        ensures i < header.forward.Length && (header.forward[i] == null <==> Tower(nodes, i) == [])
      {
        HeaderSlot(i);
      }
      assert ([header] + nodes)[0] == header && header.forward.Length == maxLevel + 1;
      while level > 0 && header.forward[level] == null
        invariant level <= maxLevel
        invariant forall i :: level < i <= maxLevel ==> Tower(nodes, i) == []
      {
        level := level - 1;
      }
    }

    lemma HeaderSlot(i: nat)
      requires Wired() && i <= maxLevel
      ensures i < header.forward.Length
      ensures header.forward[i] == null <==> Tower(nodes, i) == []
    {
      assert Linked(Chain(i), i, Arrays());
      NextLink([header], Tower(nodes, i), i, Arrays(), 0);
    }

    /** What the shape means for one level, in terms of the pointers: it is sorted, a node is on it if and
        only if it reaches it, the next level is a part of it, and the header's slot says whether it is
        empty; and the current level is the highest that is not. */
    lemma LevelShape(i: nat, up: nat)
      requires Valid() && i <= maxLevel && i <= up
      ensures Linked([header] + Tower(nodes, i), i, Arrays()) && Sorted(less, Tower(nodes, i))
      ensures forall n :: n in Tower(nodes, i) <==> n in nodes && n.level >= i
      ensures Tower(Tower(nodes, i), up) == Tower(nodes, up)
      ensures i < header.forward.Length && (header.forward[i] == null <==> Tower(nodes, i) == [])
      ensures (i > level ==> header.forward[i] == null) && (0 < i == level ==> header.forward[i] != null)
    {
      HeaderSlot(i);
      TowerSorted(less, nodes, i);
      TowerSublist(nodes, i, up);
      LevelMembers(i);
      assert Linked(Chain(i), i, Arrays());
    }

    lemma LevelMembers(i: nat)
      ensures forall n :: n in Tower(nodes, i) <==> n in nodes && n.level >= i
    {
      forall j | 0 <= j < |Tower(nodes, i)|
        ensures Tower(nodes, i)[j] in nodes && Tower(nodes, i)[j].level >= i
      {
        var k := TowerFrom(nodes, i, j);
      }
      forall k | 0 <= k < |nodes| && nodes[k].level >= i
        ensures nodes[k] in Tower(nodes, i)
      {
        var j := TowerHas(nodes, i, k);
      }
    }

    method DeleteElement(key: K)
      requires Valid()
      modifies this, Arrays()
      ensures Valid() && Arrays() <= old(Arrays())
      ensures Contents() == old(Contents()) - {key}
    {
      var update, left, right := Locate(key);
      NextDecides(key, left, right);
      var current := update[0].forward[0];
      if current != null && current.key == key {
        Remove(current, update, left, right[1..]);
      }
    }

    /** The second half of a deletion. */
    method Remove(x: Node<K, V>, update: array<Node?<K, V>>, ghost left: seq<Node<K, V>>, ghost right: seq<Node<K, V>>)
      requires Valid() && nodes == left + [x] + right
      requires update !in Arrays() && maxLevel < update.Length
      requires forall i :: 0 <= i <= level ==> update[i] == Before(left, i)
      modifies this, Arrays()
      ensures Valid() && Arrays() <= old(Arrays())
      ensures Contents() == old(Contents()) - {x.key}
    {
      ghost var m, without := MapOf(left + [x] + right), left + right;
      assert Sorted(less, without) && MapOf(without) == m - {x.key} && |without| == count - 1 by {
        DeleteSorted(less, left, x, right);
        InsertMap(less, left, x, right);
      }
      BelowTop(left, x, right);
      Unlink(x, update, left, right);
      Shrink();
      count := count - 1;
    }

    lemma BelowTop(left: seq<Node<K, V>>, x: Node<K, V>, right: seq<Node<K, V>>)
      requires Wired() && Top() && nodes == left + [x] + right
      ensures x.level <= level
      ensures forall i :: level < i <= maxLevel ==> Tower(left + right, i) == []
    {
      assert ([header] + nodes)[|left| + 1] == x;
      AroundPlace(left, x, right, x.level);
      forall i | level < i <= maxLevel
        ensures Tower(left + right, i) == []
      {
        TowerInsert(left, x, right, i);
      }
    }

    // -------------------------------------------------------------- the rest of the interface

    /** Sets the key whether or not it is there: the node is taken out and a new one put in. */
    method InsertSetElement(key: K, value: V, draws: nat)
      requires Valid()
      modifies this, Arrays()
      ensures Valid() && fresh(Arrays() - old(Arrays()))
      ensures Contents() == old(Contents())[key := value]
    {
      var found := SearchElement(key);
      if found.Some? {
        DeleteElement(key);
      }
      var code := InsertElement(key, value, draws);
    }

    lemma LowestLink(m: nat)
      requires Wired() && m <= |nodes|
      ensures var n := if m == 0 then header else nodes[m - 1];
              0 < n.forward.Length && n.forward[0] == if m < |nodes| then nodes[m] else null
    {
      var chain := [header] + nodes;
      LowestChain();
      assert Slot(chain[m], 0, After(chain, m), Arrays());
    }

    lemma LowestChain()
      requires Wired()
      ensures Linked([header] + nodes, 0, Arrays())
    {
      TowerWhole(nodes);
      assert Chain(0) == [header] + nodes;
    }

    lemma DumpsNodes(d: Dump<K, V>)
      requires StrictOrder(less) && Sorted(less, nodes) && |d.keys| == |d.vals| == |nodes|
      requires forall j :: 0 <= j < |nodes| ==> d.keys[j] == nodes[j].key && d.vals[j] == nodes[j].value
      ensures Dumps(less, d, Contents())
    {
      MapMeaning(less, nodes);
      forall key | key in Contents()
        ensures key in d.keys
      {
        var j :| 0 <= j < |nodes| && nodes[j].key == key;
        assert d.keys[j] == key;
      }
    }

    method DumpFile() returns (d: Dump<K, V>)
      requires Valid()
      ensures Dumps(less, d, Contents())
    {
      LowestLink(0);
      var node := header.forward[0];
      d := Dump([], []);
      ghost var at := 0;
      while node != null
        invariant |d.keys| == |d.vals| == at <= |nodes|
        invariant node == if at < |nodes| then nodes[at] else null
        invariant forall j :: 0 <= j < at ==> d.keys[j] == nodes[j].key && d.vals[j] == nodes[j].value
        decreases |nodes| - at
      {
        d := Dump(d.keys + [node.key], d.vals + [node.value]);
        at := at + 1;
        LowestLink(at);
        node := node.forward[0];
      }
      DumpsNodes(d);
    }

    /** `draws(i)` are the draws for line i. */
    method LoadFile(d: Dump<K, V>, draws: nat -> nat)
      requires Valid() && |d.keys| == |d.vals|
      modifies this, Arrays()
      ensures Valid() && fresh(Arrays() - old(Arrays()))
      ensures Contents() == Loaded(old(Contents()), d)
    {
      var i := 0;
      assert d == Dump(d.keys[..|d.keys|], d.vals[..|d.keys|]);
      while i < |d.keys|
        invariant i <= |d.keys|
        invariant Valid() && fresh(Arrays() - old(Arrays()))
        invariant Contents() == Loaded(old(Contents()), Dump(d.keys[..i], d.vals[..i]))
      {
        ghost var next := Dump(d.keys[..i + 1], d.vals[..i + 1]);
        assert next.keys[..i] == d.keys[..i] && next.vals[..i] == d.vals[..i];
        var code := InsertElement(d.keys[i], d.vals[i], draws(i));
        i := i + 1;
      }
    }
  }
}
