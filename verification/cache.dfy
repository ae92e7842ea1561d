/** The cache itself: a hash of nodes that are also threaded on a doubly linked list. The nodes live in the
    hash, at addresses that do not move, so a node pointer is modelled by the node's key. */
module Cache {
  import opened CacheModel

  datatype Node<K, T> = Node(t: Option<T>, c: int, p: Option<K>, n: Option<K>)

  type Hash<K, T> = map<K, Node<K, T>>

  // ----- the list that the links form

  /** The i-th key of the list, or null beyond either end. */
  function KeyAt<K, T>(es: seq<Entry<K, T>>, i: int): Option<K> {
    if 0 <= i < |es| then Some(es[i].key) else None
  }

  ghost predicate Differ<K, T>(es: seq<Entry<K, T>>, i: int, j: int) {
    0 <= i < j < |es| && es[i].key != es[j].key
  }

  ghost predicate Distinct<K, T>(es: seq<Entry<K, T>>) {
    forall i, j :: 0 <= i < j < |es| ==> Differ(es, i, j)
  }

  /** The i-th entry's node has the entry's cost and points to its neighbours. */
  ghost predicate NodeAt<K, T>(es: seq<Entry<K, T>>, h: Hash<K, T>, i: int) {
    && 0 <= i < |es| && es[i].key in h
    && h[es[i].key].c == es[i].cost
    && h[es[i].key].p == KeyAt(es, i - 1)
    && h[es[i].key].n == KeyAt(es, i + 1)
  }

  ghost predicate Linked<K, T>(es: seq<Entry<K, T>>, h: Hash<K, T>) {
    forall i :: 0 <= i < |es| ==> NodeAt(es, h, i)
  }

  ghost predicate ObjAt<K, T>(es: seq<Entry<K, T>>, h: Hash<K, T>, i: int) {
    0 <= i < |es| && es[i].key in h && h[es[i].key].t == Some(es[i].obj)
  }

  /** Every node still has its object. */
  ghost predicate Full<K, T>(es: seq<Entry<K, T>>, h: Hash<K, T>) {
    forall i :: 0 <= i < |es| ==> ObjAt(es, h, i)
  }

  ghost predicate HasKey<K, T>(es: seq<Entry<K, T>>, k: K) {
    Find(es, k) < |es|
  }

  /** The hash holds exactly the list's nodes, `f` and `l` are the list's ends, and `total` is the sum of the
      costs. */
  ghost predicate Threads<K, T>(es: seq<Entry<K, T>>, h: Hash<K, T>, f: Option<K>, l: Option<K>, total: int) {
    && Distinct(es) && Linked(es, h) && (forall k :: k in h ==> HasKey(es, k))
    && f == KeyAt(es, 0) && l == KeyAt(es, |es| - 1)
    && total == Cost(es)
  }

  lemma OnePlace<K, T>(es: seq<Entry<K, T>>, i: nat, j: nat)
    requires Distinct(es) && i < |es| && j < |es|
    ensures es[i].key == es[j].key <==> i == j
  {
    assert i < j ==> Differ(es, i, j);
    assert j < i ==> Differ(es, j, i);
  }

  // ----- unlinking a node

  function Shift(i: nat, j: int): int {
    if j < i then j else j + 1
  }

  lemma DropAt<K, T>(es: seq<Entry<K, T>>, i: nat, j: int)
    requires i < |es| && -1 <= j
    ensures KeyAt(Drop(es, i), j) == KeyAt(es, Shift(i, j))
    ensures 0 <= j < |es| - 1 ==> Drop(es, i)[j] == es[Shift(i, j)]
  {
  }

  lemma DropDistinct<K, T>(es: seq<Entry<K, T>>, i: nat)
    requires Distinct(es) && i < |es|
    ensures Distinct(Drop(es, i))
    ensures forall k :: HasKey(es, k) ==> k == es[i].key || HasKey(Drop(es, i), k)
    ensures !HasKey(Drop(es, i), es[i].key)
  {
    var rest := Drop(es, i);
    forall a, b | 0 <= a < b < |rest| ensures Differ(rest, a, b) {
      assert Differ(es, Shift(i, a), Shift(i, b));
    }
    forall k | HasKey(es, k) && k != es[i].key ensures HasKey(rest, k) {
      var a := Find(es, k);
      assert rest[if a < i then a else a - 1].key == k;
    }
    if HasKey(rest, es[i].key) {
      OnePlace(es, i, Shift(i, Find(rest, es[i].key)));
    }
  }

  /** The hash after a node's neighbours, where it has any, have been made to point past it. */
  function Splice<K, T>(h: Hash<K, T>, k: K): Hash<K, T>
    requires k in h
  {
    var x := h[k];
    map y | y in h :: h[y].(n := if x.p == Some(y) then x.n else h[y].n,
                            p := if x.n == Some(y) then x.p else h[y].p)
  }

  lemma SpliceNode<K, T>(es: seq<Entry<K, T>>, h: Hash<K, T>, i: nat, j: nat)
    requires Distinct(es) && Linked(es, h) && i < |es| && j < |es| - 1
    ensures NodeAt(es, h, i) && NodeAt(Drop(es, i), Splice(h, es[i].key), j)
  {
    var m := Shift(i, j);
    assert NodeAt(es, h, i) && NodeAt(es, h, m);
    DropAt(es, i, j - 1);
    DropAt(es, i, j);
    DropAt(es, i, j + 1);
    if i > 0 { OnePlace(es, i - 1, m); }
    if i + 1 < |es| { OnePlace(es, i + 1, m); }
  }

  /** After splicing, the rest of the list is linked. */
  lemma SpliceLinks<K, T>(es: seq<Entry<K, T>>, h: Hash<K, T>, i: nat)
    requires Distinct(es) && Linked(es, h) && i < |es|
    ensures NodeAt(es, h, i) && Linked(Drop(es, i), Splice(h, es[i].key))
    ensures Linked(Drop(es, i), Splice(h, es[i].key) - {es[i].key})
  {
    assert NodeAt(es, h, i);
    var rest, h' := Drop(es, i), Splice(h, es[i].key);
    forall j | 0 <= j < |rest| ensures NodeAt(rest, h', j) && NodeAt(rest, h' - {es[i].key}, j) {
      SpliceNode(es, h, i, j);
      DropAt(es, i, j);
      OnePlace(es, i, Shift(i, j));
    }
  }

  /** A node is not its own neighbour, and its neighbours are on the list. */
  lemma Neighbours<K, T>(es: seq<Entry<K, T>>, h: Hash<K, T>, i: nat)
    requires Distinct(es) && Linked(es, h) && i < |es|
    ensures NodeAt(es, h, i)
    ensures var k := es[i].key;
            var x := h[k];
            && (x.p.Some? ==> x.p.value in h && x.p.value != k)
            && (x.n.Some? ==> x.n.value in h && x.n.value != k)
            && (x.p.Some? && x.n.Some? ==> x.p != x.n)
            && (KeyAt(es, 0) == Some(k) <==> i == 0)
            && (KeyAt(es, |es| - 1) == Some(k) <==> i == |es| - 1)
  {
    assert NodeAt(es, h, i);
    OnePlace(es, 0, i);
    OnePlace(es, |es| - 1, i);
    if i > 0 { OnePlace(es, i - 1, i); assert NodeAt(es, h, i - 1); }
    if i + 1 < |es| { OnePlace(es, i + 1, i); assert NodeAt(es, h, i + 1); }
    if 0 < i < |es| - 1 { OnePlace(es, i - 1, i + 1); }
  }

  lemma SpliceEnds<K, T>(es: seq<Entry<K, T>>, h: Hash<K, T>, i: nat)
    requires Distinct(es) && Linked(es, h) && i < |es|
    ensures NodeAt(es, h, i)
    ensures KeyAt(Drop(es, i), 0) == if KeyAt(es, 0) == Some(es[i].key) then h[es[i].key].n else KeyAt(es, 0)
    ensures KeyAt(Drop(es, i), |es| - 2)
            == if KeyAt(es, |es| - 1) == Some(es[i].key) then h[es[i].key].p else KeyAt(es, |es| - 1)
  {
    Neighbours(es, h, i);
    DropAt(es, i, 0);
    DropAt(es, i, |es| - 2);
  }

  lemma CostDrop<K, T>(es: seq<Entry<K, T>>, i: nat)
    requires i < |es|
    ensures Cost(Drop(es, i)) == Cost(es) - es[i].cost
  {
    SumDrop(es, i, (e: Entry<K, T>) => e.cost);
  }

  lemma SpliceThreads<K, T>(es: seq<Entry<K, T>>, h: Hash<K, T>, f: Option<K>, l: Option<K>, total: int, i: nat)
    requires Threads(es, h, f, l, total) && i < |es|
    ensures NodeAt(es, h, i)
    ensures var k := es[i].key;
            Threads(Drop(es, i), Splice(h, k) - {k},
                    if f == Some(k) then h[k].n else f, if l == Some(k) then h[k].p else l, total - h[k].c)
  {
    SpliceLinks(es, h, i);
    DropDistinct(es, i);
    SpliceEnds(es, h, i);
    CostDrop(es, i);
  }

  lemma SpliceFull<K, T>(es: seq<Entry<K, T>>, h: Hash<K, T>, i: nat)
    requires Distinct(es) && Linked(es, h) && Full(es, h) && i < |es|
    ensures NodeAt(es, h, i)
    ensures Full(Drop(es, i), Splice(h, es[i].key)) && Full(Drop(es, i), Splice(h, es[i].key) - {es[i].key})
  {
    assert NodeAt(es, h, i);
    var k, rest := es[i].key, Drop(es, i);
    forall j | 0 <= j < |rest| ensures ObjAt(rest, Splice(h, k), j) && ObjAt(rest, Splice(h, k) - {k}, j) {
      assert ObjAt(es, h, Shift(i, j));
      DropAt(es, i, j);
      OnePlace(es, i, Shift(i, j));
    }
  }

  // ----- putting a node at the front

  /** The hash after x, with nothing before it, has been put in front of the node that was first. */
  function PushFront<K, T>(h: Hash<K, T>, k: K, x: Node<K, T>, f: Option<K>): Hash<K, T> {
    var h1 := h[k := x.(p := None, n := f)];
    if f.Some? && f.value in h1 then h1[f.value := h1[f.value].(p := Some(k))] else h1
  }

  lemma ConsAt<K, T>(e: Entry<K, T>, es: seq<Entry<K, T>>, i: int)
    requires i > 0
    ensures KeyAt([e] + es, i) == KeyAt(es, i - 1)
  {
  }

  lemma ConsDistinct<K, T>(e: Entry<K, T>, es: seq<Entry<K, T>>)
    requires Distinct(es) && !HasKey(es, e.key)
    ensures Distinct([e] + es)
    ensures forall k :: HasKey([e] + es, k) <==> k == e.key || HasKey(es, k)
  {
    var all := [e] + es;
    assert all[1..] == es;
    forall i, j | 0 <= i < j < |all| ensures Differ(all, i, j) {
      assert i > 0 ==> Differ(es, i - 1, j - 1);
    }
  }

  lemma PushFrontNode<K, T>(es: seq<Entry<K, T>>, h: Hash<K, T>, e: Entry<K, T>, x: Node<K, T>, j: nat)
    requires Distinct(es) && Linked(es, h) && !HasKey(es, e.key) && j < |es|
    ensures NodeAt([e] + es, PushFront(h, e.key, x, KeyAt(es, 0)), j + 1)
  {
    assert NodeAt(es, h, j) && NodeAt(es, h, 0);
    OnePlace(es, 0, j);
    ConsAt(e, es, j + 1);
    ConsAt(e, es, j + 2);
    if j > 0 {
      ConsAt(e, es, j);
    }
  }

  lemma PushFrontThreads<K, T>(es: seq<Entry<K, T>>, h: Hash<K, T>, e: Entry<K, T>, x: Node<K, T>)
    requires Distinct(es) && Linked(es, h) && !HasKey(es, e.key)
    requires forall k :: k in h ==> k == e.key || HasKey(es, k)
    requires x.c == e.cost
    ensures Threads([e] + es, PushFront(h, e.key, x, KeyAt(es, 0)), Some(e.key),
                    if es == [] then Some(e.key) else KeyAt(es, |es| - 1), Cost(es) + e.cost)
  {
    var all, h' := [e] + es, PushFront(h, e.key, x, KeyAt(es, 0));
    ConsDistinct(e, es);
    ConsAt(e, es, 1);
    forall i | 0 <= i < |all| ensures NodeAt(all, h', i) {
      if i > 0 {
        PushFrontNode(es, h, e, x, i - 1);
      } else {
        assert es != [] ==> !(e.key == es[0].key);
      }
    }
    if es != [] {
      assert NodeAt(es, h, 0);
      ConsAt(e, es, |es|);
    }
    SumCons(e, es, (y: Entry<K, T>) => y.cost);
  }

  lemma PushFrontFull<K, T>(es: seq<Entry<K, T>>, h: Hash<K, T>, e: Entry<K, T>, x: Node<K, T>)
    requires Full(es, h) && !HasKey(es, e.key) && x.t == Some(e.obj)
    ensures Full([e] + es, PushFront(h, e.key, x, KeyAt(es, 0)))
  {
    var all, h' := [e] + es, PushFront(h, e.key, x, KeyAt(es, 0));
    forall i | 0 <= i < |all| ensures ObjAt(all, h', i) {
      if i > 0 {
        assert ObjAt(es, h, i - 1);
      }
    }
  }

  /** Moving a node that is not first to the front. */
  lemma MoveThreads<K, T>(es: seq<Entry<K, T>>, h: Hash<K, T>, f: Option<K>, l: Option<K>, total: int, i: nat)
    requires Threads(es, h, f, l, total) && 0 < i < |es|
    ensures NodeAt(es, h, i)
    ensures var k := es[i].key;
            Threads([es[i]] + Drop(es, i), PushFront(Splice(h, k), k, Splice(h, k)[k], f),
                    Some(k), if l == Some(k) then h[k].p else l, total)
  {
    var k := es[i].key;
    SpliceLinks(es, h, i);
    DropDistinct(es, i);
    SpliceEnds(es, h, i);
    Neighbours(es, h, i);
    CostDrop(es, i);
    PushFrontThreads(Drop(es, i), Splice(h, k), es[i], Splice(h, k)[k]);
  }

  lemma MoveFull<K, T>(es: seq<Entry<K, T>>, h: Hash<K, T>, i: nat)
    requires Distinct(es) && Linked(es, h) && Full(es, h) && 0 < i < |es|
    ensures NodeAt(es, h, i)
    ensures var k := es[i].key;
            Full([es[i]] + Drop(es, i), PushFront(Splice(h, k), k, Splice(h, k)[k], KeyAt(es, 0)))
  {
    var k := es[i].key;
    SpliceFull(es, h, i);
    DropDistinct(es, i);
    assert ObjAt(es, h, i);
    assert KeyAt(Drop(es, i), 0) == KeyAt(es, 0);
    PushFrontFull(Drop(es, i), Splice(h, k), es[i], Splice(h, k)[k]);
  }

  /** Taking the object out of a node changes no link and no cost. */
  lemma EmptyThreads<K, T>(es: seq<Entry<K, T>>, h: Hash<K, T>, f: Option<K>, l: Option<K>, total: int, k: K)
    requires Threads(es, h, f, l, total) && k in h
    ensures Threads(es, h[k := h[k].(t := None)], f, l, total)
    ensures Splice(h[k := h[k].(t := None)], k) - {k} == Splice(h, k) - {k}
  {
    var h' := h[k := h[k].(t := None)];
    forall i | 0 <= i < |es| ensures NodeAt(es, h', i) {
      assert NodeAt(es, h, i);
    }
  }

  lemma PrefixHasKey<K, T>(es: seq<Entry<K, T>>, some: seq<Entry<K, T>>, k: K)
    requires some <= es
    ensures HasKey(some, k) ==> HasKey(es, k)
  {
    if HasKey(some, k) {
      assert es[Find(some, k)].key == k;
    }
  }

  class LruCache<K(==), T(==)> {
    var f: Option<K>
    var l: Option<K>
    var hash: Hash<K, T>
    var mx: int
    var total: int
    ghost var entries: seq<Entry<K, T>>  // the list, from the front
    ghost var inserted: seq<T>
    ghost var deleted: seq<T>
    ghost var taken: seq<T>

    ghost predicate Threaded()
      reads this
    {
      Threads(entries, hash, f, l, total)
    }

    ghost predicate Valid()
      reads this
    {
      Threaded() && Full(entries, hash)
    }

    ghost function Abs(): Model<K, T>
      reads this
    {
      Model(mx, entries, inserted, deleted, taken)
    }

    constructor (maxCost: int)
      ensures Valid() && Abs() == Model(maxCost, [], [], [], [])
    {
      f, l, hash, mx, total := None, None, map[], maxCost, 0;
      entries, inserted, deleted, taken := [], [], [], [];
    }

    /** Make a node's neighbours point past it. */
    method SkipOver(k: K, ghost i: nat)
      requires Distinct(entries) && Linked(entries, hash) && i < |entries| && entries[i].key == k
      modifies `hash
      ensures k in old(hash) && hash == Splice(old(hash), k)
    {
      Neighbours(entries, hash, i);
      var x := hash[k];
      if x.p.Some? {
        hash := hash[x.p.value := hash[x.p.value].(n := x.n)];
      }
      if x.n.Some? {
        hash := hash[x.n.value := hash[x.n.value].(p := x.p)];
      }
    }

    /** `unlink`: take a node off the list and the hash and delete its object, if it still has one. */
    method Unlink(k: K, ghost i: nat)
      requires Threaded() && i < |entries| && entries[i].key == k
      modifies `f, `l, `total, `hash, `entries, `deleted
      ensures k in old(hash) && hash == Splice(old(hash), k) - {k}
      ensures Threaded() && entries == Drop(old(entries), i)
      ensures deleted == old(deleted) + if old(hash)[k].t.Some? then [old(hash)[k].t.value] else []
    {
      var x := Detach(k, i);
      deleted := deleted + if x.t.Some? then [x.t.value] else [];
    }

    /** The part of `unlink` that takes the node off the list and out of the hash. */
    method Detach(k: K, ghost i: nat) returns (x: Node<K, T>)
      requires Threaded() && i < |entries| && entries[i].key == k
      modifies `f, `l, `total, `hash, `entries
      ensures k in old(hash) && hash == Splice(old(hash), k) - {k} && x == old(hash)[k]
      ensures Threaded() && entries == Drop(old(entries), i)
    {
      SpliceThreads(entries, hash, f, l, total, i);
      x := hash[k];
      SkipOver(k, i);
      f, l := if f == Some(k) then x.n else f, if l == Some(k) then x.p else l;
      total, hash := total - x.c, hash - {k};
      entries := Drop(entries, i);
    }

    /** `remove` */
    method Remove(k: K) returns (found: bool)
      requires Valid()
      modifies this
      ensures Valid() && Abs() == CacheModel.Remove(old(Abs()), k)
      ensures found <==> HasKey(old(entries), k)
      ensures !HasKey(entries, k)
    {
      ghost var i := Find(entries, k);
      if k !in hash {
        assert i < |entries| ==> ObjAt(entries, hash, i);
        return false;
      }
      assert HasKey(entries, k) && ObjAt(entries, hash, i);
      SpliceFull(entries, hash, i);
      DropDistinct(entries, i);
      Unlink(k, i);
      return true;
    }

    /** `take`: hand the object out and unlink the node without deleting it. */
    method Take(k: K) returns (r: Option<T>)
      requires Valid()
      modifies this
      ensures Valid() && Abs() == CacheModel.Take(old(Abs()), k)
      ensures r == if HasKey(old(entries), k) then Some(old(entries)[Find(old(entries), k)].obj) else None
    {
      ghost var i := Find(entries, k);
      if k !in hash {
        assert i < |entries| ==> ObjAt(entries, hash, i);
        return None;
      }
      assert HasKey(entries, k);
      r := TakeOut(k, i);
    }

    /** `take` of an entry that is there: its node is emptied before it is unlinked. */
    method TakeOut(k: K, ghost i: nat) returns (r: Option<T>)
      requires Valid() && i < |entries| && entries[i].key == k
      modifies `f, `l, `total, `hash, `entries, `deleted, `taken
      ensures Valid() && entries == Drop(old(entries), i) && deleted == old(deleted)
      ensures r == Some(old(entries)[i].obj) && taken == old(taken) + [old(entries)[i].obj]
    {
      assert ObjAt(entries, hash, i);
      SpliceFull(entries, hash, i);
      EmptyThreads(entries, hash, f, l, total, k);
      r := hash[k].t;
      taken := taken + [r.value];
      hash := hash[k := hash[k].(t := None)];
      Unlink(k, i);
    }

    /** The part of `relink` for a node that is not first. */
    method MoveUp(k: K, ghost i: nat)
      requires Valid() && 0 < i < |entries| && entries[i].key == k
      modifies `f, `l, `hash, `entries
      ensures Valid() && entries == [old(entries)[i]] + Drop(old(entries), i)
    {
      MoveThreads(entries, hash, f, l, total, i);
      MoveFull(entries, hash, i);
      assert NodeAt(entries, hash, 0) && Differ(entries, 0, i);
      var x := hash[k];
      SkipOver(k, i);
      l := if l == Some(k) then x.p else l;
      RelinkFirst(k);
      f := Some(k);
      entries := [entries[i]] + Drop(entries, i);
    }

    /** The three link writes that put a spliced-out node in front of the first one. */
    method RelinkFirst(k: K)
      requires k in hash && f.Some? && f.value in hash && f != Some(k)
      modifies `hash
      ensures k in old(hash) && hash == PushFront(old(hash), k, old(hash)[k], old(f))
    {
      hash := hash[k := hash[k].(p := None)];
      hash := hash[k := hash[k].(n := f)];
      hash := hash[f.value := hash[f.value].(p := Some(k))];
    }

    /** `object` and `operator[]`: a hit becomes the most recently used entry. */
    method Lookup(k: K) returns (r: Option<T>)
      requires Valid()
      modifies `f, `l, `hash, `entries
      ensures Valid() && Abs() == CacheModel.Lookup(old(Abs()), k)
      ensures r == if HasKey(old(entries), k) then Some(old(entries)[Find(old(entries), k)].obj) else None
    {
      ghost var i := Find(entries, k);
      if k !in hash {
        assert i < |entries| ==> ObjAt(entries, hash, i);
        return None;
      }
      assert HasKey(entries, k) && ObjAt(entries, hash, i);
      Neighbours(entries, hash, i);
      r := hash[k].t;
      if f != Some(k) {
        MoveUp(k, i);
      } else {
        assert [entries[0]] + Drop(entries, 0) == entries;
      }
    }

    /** Unlink the least recently used node and step to the one before it. */
    method EvictLast() returns (n: Option<K>)
      requires Valid() && l.Some?
      modifies `f, `l, `total, `hash, `entries, `deleted
      ensures Valid() && n == l && |old(entries)| > 0
      ensures entries == old(entries)[..|old(entries)| - 1]
      ensures deleted == old(deleted) + [old(entries)[|old(entries)| - 1].obj]
    {
      ghost var i := |entries| - 1;
      assert ObjAt(entries, hash, i);
      SpliceThreads(entries, hash, f, l, total, i);
      SpliceFull(entries, hash, i);
      n := hash[l.value].p;
      Unlink(l.value, i);
    }

    /** `trim`: unlink from the least recently used end while the total is over the limit. */
    method Trim(m: int)
      requires Valid()
      modifies `f, `l, `total, `hash, `entries, `deleted
      ensures Valid() && Abs() == CacheModel.Trim(old(Abs()), m)
    {
      var n := l;
      while n.Some? && total > m
        invariant Valid() && n == l && CacheModel.Trim(Abs(), m) == CacheModel.Trim(old(Abs()), m)
        decreases |entries|
      {
        n := EvictLast();
      }
    }

    method SetMaxCost(m: int)
      requires Valid()
      modifies this
      ensures Valid() && Abs() == CacheModel.SetMaxCost(old(Abs()), m)
    {
      mx := m;
      Trim(mx);
    }

    /** The part of `insert` that links a new node in at the front. */
    method AddFirst(k: K, obj: T, cost: int)
      requires Valid() && !HasKey(entries, k)
      modifies `f, `l, `total, `hash, `entries
      ensures Valid() && entries == [Entry(k, obj, cost)] + old(entries)
    {
      var x := Node(Some(obj), cost, None, None);
      ghost var e := Entry(k, obj, cost);
      PushFrontThreads(entries, hash, e, x);
      PushFrontFull(entries, hash, e, x);
      LinkFirst(k, x);
      total := total + cost;
      f, l := Some(k), if l.None? then Some(k) else l;
      entries := [e] + entries;
    }

    /** Store a node under a new key and link it in front of `f`. */
    method LinkFirst(k: K, x: Node<K, T>)
      requires x.p.None? && Linked(entries, hash) && f == KeyAt(entries, 0) && !HasKey(entries, k)
      modifies `hash
      ensures hash == PushFront(old(hash), k, x, f)
    {
      assert f.Some? ==> NodeAt(entries, hash, 0) && f != Some(k);
      hash := hash[k := x];
      if f.Some? {
        hash := hash[f.value := hash[f.value].(p := Some(k))];
      }
      hash := hash[k := hash[k].(n := f)];
    }

    /** `insert`: replace any entry under the key; refuse an object that alone exceeds the bound. */
    method Insert(k: K, obj: T, cost: int) returns (ok: bool)
      requires Valid()
      modifies this
      ensures Valid() && Abs() == CacheModel.Insert(old(Abs()), k, obj, cost)
      ensures ok <==> cost <= old(mx)
    {
      var _ := Remove(k);
      inserted := inserted + [obj];
      if cost > mx {
        deleted := deleted + [obj];
        return false;
      }
      InsertNew(k, obj, cost);
      return true;
    }

    /** The rest of `insert`, once the key is free and the object is known to fit: make room, then add it. */
    method InsertNew(k: K, obj: T, cost: int)
      requires Valid() && !HasKey(entries, k)
      modifies `f, `l, `total, `hash, `entries, `deleted
      ensures Valid() && Abs() == AddedAfterTrim(old(Abs()), k, obj, cost)
    {
      TrimIsPrefix(Abs(), mx - cost);
      ghost var es := entries;
      Trim(mx - cost);
      PrefixHasKey(es, entries, k);
      AddFirst(k, obj, cost);
    }

    /** `clear`: delete every object, walking the list from its front, and empty the hash. */
    method Clear()
      requires Valid()
      modifies `f, `l, `total, `hash, `entries, `deleted
      ensures Valid() && Abs() == CacheModel.Clear(old(Abs()))
    {
      ghost var m, i := Abs(), 0;
      while f.Some?
        invariant 0 <= i <= |entries| && f == KeyAt(entries, i)
        invariant Linked(entries, hash) && Full(entries, hash)
        invariant CacheModel.Clear(m.(entries := entries[i..], deleted := deleted)) == CacheModel.Clear(m)
        decreases |entries| - i
      {
        assert NodeAt(entries, hash, i) && ObjAt(entries, hash, i);
        assert entries[i..][1..] == entries[i + 1..];
        deleted := deleted + [hash[f.value].t.value];
        f := hash[f.value].n;
        i := i + 1;
      }
      hash, l, total, entries := map[], None, 0, [];
    }
  }
}
