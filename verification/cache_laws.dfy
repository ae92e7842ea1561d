/** What each cache operation means for the order of the entries and the fate of the objects, and that this makes
    the cache evict the least recently used entry first. */
module CacheLaws {
  import opened CacheModel

  /** The entries under other keys, in their order. */
  function Others<K(==), T>(es: seq<Entry<K, T>>, k: K): seq<Entry<K, T>> {
    if es == [] then []
    else if es[0].key == k then Others(es[1..], k)
    else [es[0]] + Others(es[1..], k)
  }

  function Objects<K, T>(es: seq<Entry<K, T>>): seq<T> {
    if es == [] then [] else [es[0].obj] + Objects(es[1..])
  }

  ghost predicate Has<K, T>(es: seq<Entry<K, T>>, k: K) {
    exists i :: 0 <= i < |es| && es[i].key == k
  }

  lemma {:induction false} OthersOfAbsent<K, T>(es: seq<Entry<K, T>>, k: K)
    requires Absent(es, k)
    ensures Others(es, k) == es
  {
    if es != [] {
      assert es == [es[0]] + es[1..];
      OthersOfAbsent(es[1..], k);
    }
  }

  /** With unique keys, removing what `Find` found leaves exactly the others. */
  lemma {:induction false} DropIsOthers<K, T>(es: seq<Entry<K, T>>, i: nat)
    requires UniqueKeys(es) && i < |es|
    ensures Drop(es, i) == Others(es, es[i].key)
  {
    if i == 0 {
      assert Absent(es[1..], es[0].key);
      OthersOfAbsent(es[1..], es[0].key);
      assert Drop(es, 0) == es[1..];
    } else {
      DropIsOthers(es[1..], i - 1);
      assert Drop(es, i) == [es[0]] + Drop(es[1..], i - 1);
    }
  }

  lemma OthersOfFirst<K, T>(e: Entry<K, T>, es: seq<Entry<K, T>>)
    ensures Others([e] + es, e.key) == Others(es, e.key)
  {
    assert ([e] + es)[1..] == es;
  }

  lemma {:induction false} OthersTwice<K, T>(es: seq<Entry<K, T>>, k: K)
    ensures Others(Others(es, k), k) == Others(es, k) && Absent(Others(es, k), k)
  {
    if es != [] {
      OthersTwice(es[1..], k);
      if es[0].key != k {
        assert Others(es, k)[1..] == Others(es[1..], k);
      }
    }
  }

  lemma Missing<K, T>(es: seq<Entry<K, T>>, k: K)
    ensures Find(es, k) == |es| <==> !Has(es, k)
  {
    assert Find(es, k) < |es| ==> es[Find(es, k)].key == k;
  }

  // ----- what each operation does

  /** A hit makes the entry the first, and keeps all others in their order; a miss changes nothing. */
  lemma LookupLaw<K, T>(m: Model<K, T>, k: K)
    requires UniqueKeys(m.entries)
    ensures var n := Lookup(m, k);
            && n == m.(entries := n.entries)
            && Others(n.entries, k) == Others(m.entries, k) && |n.entries| == |m.entries|
            && if Has(m.entries, k) then n.entries[0].key == k && n.entries[0] in m.entries
               else n.entries == m.entries
  {
    var i := Find(m.entries, k);
    Missing(m.entries, k);
    if i < |m.entries| {
      DropIsOthers(m.entries, i);
      OthersOfFirst(m.entries[i], Drop(m.entries, i));
      OthersTwice(m.entries, k);
    }
  }

  /** `remove` deletes the object under the key, and `take` hands it out; either leaves exactly the others. */
  lemma RemoveLaw<K, T>(m: Model<K, T>, k: K)
    requires UniqueKeys(m.entries)
    ensures var n := Remove(m, k);
            && n == m.(entries := Others(m.entries, k), deleted := n.deleted)
            && if Has(m.entries, k) then exists e :: e in m.entries && e.key == k && n.deleted == m.deleted + [e.obj]
               else n.deleted == m.deleted
    ensures var n := Take(m, k);
            && n == m.(entries := Others(m.entries, k), taken := n.taken)
            && if Has(m.entries, k) then exists e :: e in m.entries && e.key == k && n.taken == m.taken + [e.obj]
               else n.taken == m.taken
  {
    var i := Find(m.entries, k);
    Missing(m.entries, k);
    if i < |m.entries| {
      DropIsOthers(m.entries, i);
      assert m.entries[i] in m.entries;
    } else {
      OthersOfAbsent(m.entries, k);
    }
  }

  /** An object that is refused is deleted, and the old entry under its key is gone all the same. */
  lemma RefusalLaw<K, T>(m: Model<K, T>, k: K, obj: T, cost: int)
    requires UniqueKeys(m.entries) && cost > m.mx
    ensures var n := Insert(m, k, obj, cost);
            && n.entries == Others(m.entries, k) && n.mx == m.mx && n.taken == m.taken
            && n.inserted == m.inserted + [obj] && n.deleted == Remove(m, k).deleted + [obj]
  {
    RemoveLaw(m, k);
  }

  /** An object that is accepted is the first entry; behind it stand the others, as far as they fit beside it. */
  lemma AcceptanceLaw<K, T>(m: Model<K, T>, k: K, obj: T, cost: int, j: nat)
    requires Good(m) && 0 <= cost <= m.mx && j <= |Others(m.entries, k)|
    ensures var n := Insert(m, k, obj, cost);
            && n.entries != [] && n.entries[0] == Entry(k, obj, cost) && n.entries[1..] <= Others(m.entries, k)
            && (j < |n.entries| <==> Cost(Others(m.entries, k)[..j]) + cost <= m.mx)
            && n.mx == m.mx && n.taken == m.taken && n.inserted == m.inserted + [obj]
  {
    RemoveLaw(m, k);
    InsertKeepsWhatFits(m, k, obj, cost, j);
    TrimIsPrefix(Remove(m, k).(inserted := m.inserted + [obj]), m.mx - cost);
  }

  /** A new bound is the bound from then on, and of the entries stay, most recent first, those that fit it. */
  lemma SetMaxCostLaw<K, T>(m: Model<K, T>, mx: int, j: nat)
    requires NonNegative(m.entries) && mx >= 0 && j <= |m.entries|
    ensures var n := SetMaxCost(m, mx);
            && n.mx == mx && n.entries <= m.entries && n.inserted == m.inserted && n.taken == m.taken
            && (j <= |n.entries| <==> Cost(m.entries[..j]) <= mx)
  {
    TrimIsPrefix(m.(mx := mx), mx);
    TrimKeepsLongest(m.(mx := mx), mx, j);
  }

  /** Clearing deletes every object, from the most recent on, and changes nothing else. */
  lemma {:induction false} ClearLaw<K, T>(m: Model<K, T>)
    ensures Clear(m) == m.(entries := [], deleted := m.deleted + Objects(m.entries))
    decreases m.entries
  {
    if m.entries != [] {
      ClearLaw(m.(entries := m.entries[1..], deleted := m.deleted + [m.entries[0].obj]));
      assert m.deleted + [m.entries[0].obj] + Objects(m.entries[1..]) == m.deleted + Objects(m.entries);
    } else {
      assert m.deleted + Objects(m.entries) == m.deleted;
    }
  }

  /** Only `take` hands out objects, and neither `take` nor a lookup deletes any. */
  lemma FateLaw<K, T>(m: Model<K, T>, op: Op<K, T>)
    ensures !op.DoTake? ==> Apply(m, op).taken == m.taken
    ensures op.DoTake? || op.DoLookup? ==> Apply(m, op).deleted == m.deleted
  {
    match op
    case DoInsert(k, obj, cost) => TrimIsPrefix(Remove(m, k).(inserted := m.inserted + [obj]), m.mx - cost);
    case DoSetMaxCost(mx) => TrimIsPrefix(m.(mx := mx), mx);
    case DoClear => ClearLaw(m);
    case _ =>
  }

  // ----- least recently used

  /** a has been used more recently than b, and both are there. */
  ghost predicate Before<K, T>(es: seq<Entry<K, T>>, a: K, b: K) {
    exists i, j :: 0 <= i < j < |es| && es[i].key == a && es[j].key == b
  }

  ghost predicate Names<K, T>(op: Op<K, T>, k: K) {
    match op
    case DoInsert(key, _, _) => key == k
    case DoLookup(key) => key == k
    case DoRemove(key) => key == k
    case DoTake(key) => key == k
    case DoSetMaxCost(_) => false
    case DoClear => false
  }

  /** Whenever b is there, a is, in front of it. */
  ghost predicate Outlives<K, T>(es: seq<Entry<K, T>>, a: K, b: K) {
    UniqueKeys(es) && (Has(es, b) ==> Before(es, a, b))
  }

  lemma PrefixOutlives<K, T>(es: seq<Entry<K, T>>, xs: seq<Entry<K, T>>, a: K, b: K)
    requires Outlives(es, a, b) && xs <= es
    ensures Outlives(xs, a, b)
  {
    if Has(xs, b) {
      var k :| 0 <= k < |xs| && xs[k].key == b;
      assert es[k].key == b;
      var i, j :| 0 <= i < j < |es| && es[i].key == a && es[j].key == b;
      assert j == k && xs[i].key == a;
    }
  }

  lemma DropOutlives<K, T>(es: seq<Entry<K, T>>, d: nat, a: K, b: K)
    requires Outlives(es, a, b) && d < |es| && es[d].key != a && es[d].key != b
    ensures Outlives(Drop(es, d), a, b)
  {
    var rest := Drop(es, d);
    DropUnique(es, d);
    if Has(rest, b) {
      var k :| 0 <= k < |rest| && rest[k].key == b;
      assert es[if k < d then k else k + 1].key == b;
      var i, j :| 0 <= i < j < |es| && es[i].key == a && es[j].key == b;
      assert rest[if i < d then i else i - 1].key == a && rest[if j < d then j else j - 1].key == b;
    }
  }

  lemma DropUnique<K, T>(es: seq<Entry<K, T>>, d: nat)
    requires UniqueKeys(es) && d < |es|
    ensures UniqueKeys(Drop(es, d)) && Absent(Drop(es, d), es[d].key)
  {
    var rest := Drop(es, d);
    forall j | 0 <= j < |rest|
      ensures rest[j] == es[if j < d then j else j + 1]
    {
    }
  }

  lemma FirstOutlives<K, T>(e: Entry<K, T>, es: seq<Entry<K, T>>, a: K, b: K)
    requires Outlives(es, a, b) && Absent(es, e.key) && e.key != a && e.key != b
    ensures Outlives([e] + es, a, b)
  {
    var all := [e] + es;
    if Has(all, b) {
      var k :| 0 <= k < |all| && all[k].key == b;
      assert es[k - 1].key == b;
      var i, j :| 0 <= i < j < |es| && es[i].key == a && es[j].key == b;
      assert all[i + 1].key == a && all[j + 1].key == b;
    }
  }

  lemma RemoveOutlives<K, T>(m: Model<K, T>, k: K, a: K, b: K)
    requires Outlives(m.entries, a, b) && k != a && k != b
    ensures Outlives(Remove(m, k).entries, a, b) && Remove(m, k).entries == Take(m, k).entries
    ensures Absent(Remove(m, k).entries, k)
  {
    var i := Find(m.entries, k);
    if i < |m.entries| {
      DropUnique(m.entries, i);
      DropOutlives(m.entries, i, a, b);
    }
  }

  lemma InsertOutlives<K, T>(m: Model<K, T>, k: K, obj: T, cost: int, a: K, b: K)
    requires Outlives(m.entries, a, b) && k != a && k != b
    ensures Outlives(Insert(m, k, obj, cost).entries, a, b)
  {
    var r := Remove(m, k).(inserted := m.inserted + [obj]);
    RemoveOutlives(m, k, a, b);
    if cost <= m.mx {
      TrimIsPrefix(r, m.mx - cost);
      PrefixOutlives(r.entries, Trim(r, m.mx - cost).entries, a, b);
      FirstOutlives(Entry(k, obj, cost), Trim(r, m.mx - cost).entries, a, b);
    }
  }

  lemma LookupOutlives<K, T>(m: Model<K, T>, k: K, a: K, b: K)
    requires Outlives(m.entries, a, b) && k != a && k != b
    ensures Outlives(Lookup(m, k).entries, a, b)
  {
    var i := Find(m.entries, k);
    if i < |m.entries| {
      DropUnique(m.entries, i);
      DropOutlives(m.entries, i, a, b);
      FirstOutlives(m.entries[i], Drop(m.entries, i), a, b);
    }
  }

  lemma ApplyOutlives<K, T>(m: Model<K, T>, op: Op<K, T>, a: K, b: K)
    requires Outlives(m.entries, a, b) && !Names(op, a) && !Names(op, b)
    ensures Outlives(Apply(m, op).entries, a, b)
  {
    match op
    case DoInsert(k, obj, cost) => InsertOutlives(m, k, obj, cost, a, b);
    case DoLookup(k) => LookupOutlives(m, k, a, b);
    case DoRemove(k) => RemoveOutlives(m, k, a, b);
    case DoTake(k) => RemoveOutlives(m, k, a, b);
    case DoSetMaxCost(mx) =>
      TrimIsPrefix(m.(mx := mx), mx);
      PrefixOutlives(m.entries, Trim(m.(mx := mx), mx).entries, a, b);
    case DoClear => ClearLaw(m);
  }

  /** Over any run that names neither key, the entry used less recently never outlives the other. */
  lemma {:induction false} RunOutlives<K, T>(m: Model<K, T>, ops: seq<Op<K, T>>, a: K, b: K)
    requires Outlives(m.entries, a, b)
    requires forall i :: 0 <= i < |ops| ==> !Names(ops[i], a) && !Names(ops[i], b)
    ensures Outlives(Run(m, ops).entries, a, b)
    decreases ops
  {
    if ops != [] {
      ApplyOutlives(m, ops[0], a, b);
      RunOutlives(Apply(m, ops[0]), ops[1..], a, b);
    }
  }

  /** An entry that has just been hit is more recent than any other. */
  lemma HitIsNewest<K, T>(m: Model<K, T>, k: K, b: K)
    requires UniqueKeys(m.entries) && Has(m.entries, k) && b != k
    ensures Outlives(Lookup(m, k).entries, k, b)
  {
    var i := Find(m.entries, k);
    Missing(m.entries, k);
    DropUnique(m.entries, i);
    NewestOutlives(m.entries[i], Drop(m.entries, i), b);
  }

  lemma NewestOutlives<K, T>(e: Entry<K, T>, es: seq<Entry<K, T>>, b: K)
    requires UniqueKeys(es) && Absent(es, e.key) && b != e.key
    ensures Outlives([e] + es, e.key, b)
  {
    var all := [e] + es;
    if Has(all, b) {
      var j :| 0 <= j < |all| && all[j].key == b;
      assert j > 0 && all[0].key == e.key;
    }
  }

  /** So is an entry that has just been inserted. */
  lemma InsertedIsNewest<K, T>(m: Model<K, T>, k: K, obj: T, cost: int, b: K)
    requires UniqueKeys(m.entries) && cost <= m.mx && b != k
    ensures Outlives(Insert(m, k, obj, cost).entries, k, b)
  {
    var r := Remove(m, k).(inserted := m.inserted + [obj]);
    var i := Find(m.entries, k);
    if i < |m.entries| {
      DropUnique(m.entries, i);
    }
    TrimIsPrefix(r, m.mx - cost);
    NewestOutlives(Entry(k, obj, cost), Trim(r, m.mx - cost).entries, b);
  }

  /** Least recently used goes first: after a hit on k, and any run that names neither k nor b, an entry b that
      was there before the hit is still there only if k is. */
  lemma HitOutlives<K, T>(m: Model<K, T>, k: K, b: K, ops: seq<Op<K, T>>)
    requires UniqueKeys(m.entries) && Has(m.entries, k) && b != k
    requires forall i :: 0 <= i < |ops| ==> !Names(ops[i], k) && !Names(ops[i], b)
    ensures var es := Run(Lookup(m, k), ops).entries;
            Has(es, b) ==> Has(es, k) && Before(es, k, b)
  {
    HitIsNewest(m, k, b);
    RunOutlives(Lookup(m, k), ops, k, b);
  }
}
