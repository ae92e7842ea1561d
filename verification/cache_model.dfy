/** What a cost-bounded, least-recently-used cache is, as a sequence of entries, most recent first. */
module CacheModel {

  datatype Option<T> = None | Some(value: T)

  datatype Entry<K, T> = Entry(key: K, obj: T, cost: int)

  /** The entries, and what became of every object ever inserted, in order. */
  datatype Model<K, T> = Model(mx: int, entries: seq<Entry<K, T>>,
                               inserted: seq<T>, deleted: seq<T>, taken: seq<T>)

  /** The sum of a weight over the entries. */
  function Sum<K, T>(es: seq<Entry<K, T>>, w: Entry<K, T> -> int): int {
    if es == [] then 0 else Sum(es[..|es| - 1], w) + w(es[|es| - 1])
  }

  function Cost<K, T>(es: seq<Entry<K, T>>): int {
    Sum(es, (e: Entry<K, T>) => e.cost)
  }

  function Is<K, T(==)>(obj: T): Entry<K, T> -> int {
    (e: Entry<K, T>) => if e.obj == obj then 1 else 0
  }

  /** How many entries hold the object. */
  function Holding<K, T(==)>(es: seq<Entry<K, T>>, obj: T): int {
    Sum(es, Is(obj))
  }

  ghost predicate UniqueKeys<K, T>(es: seq<Entry<K, T>>) {
    forall i, j :: 0 <= i < j < |es| ==> es[i].key != es[j].key
  }

  /** Where a key is, or the length of the sequence. */
  function Find<K(==), T>(es: seq<Entry<K, T>>, k: K): (i: nat)
    ensures i <= |es|
    ensures i < |es| ==> es[i].key == k
    ensures forall j :: 0 <= j < i ==> es[j].key != k
  {
    if es == [] || es[0].key == k then 0 else 1 + Find(es[1..], k)
  }

  function Drop<K, T>(es: seq<Entry<K, T>>, i: nat): seq<Entry<K, T>>
    requires i < |es|
  {
    es[..i] + es[i + 1..]
  }

  /** Evict from the least recently used end while the cost is over the limit. */
  function Trim<K, T>(m: Model<K, T>, limit: int): Model<K, T>
    decreases m.entries
  {
    var n := |m.entries|;
    if n == 0 || Cost(m.entries) <= limit then m
    else Trim(m.(entries := m.entries[..n - 1], deleted := m.deleted + [m.entries[n - 1].obj]), limit)
  }

  function Remove<K(==), T>(m: Model<K, T>, k: K): Model<K, T> {
    var i := Find(m.entries, k);
    if i == |m.entries| then m
    else m.(entries := Drop(m.entries, i), deleted := m.deleted + [m.entries[i].obj])
  }

  function Take<K(==), T>(m: Model<K, T>, k: K): Model<K, T> {
    var i := Find(m.entries, k);
    if i == |m.entries| then m
    else m.(entries := Drop(m.entries, i), taken := m.taken + [m.entries[i].obj])
  }

  /** A lookup hit moves the entry to the front. */
  function Lookup<K(==), T>(m: Model<K, T>, k: K): Model<K, T> {
    var i := Find(m.entries, k);
    if i == |m.entries| then m else m.(entries := [m.entries[i]] + Drop(m.entries, i))
  }

  function Insert<K(==), T>(m: Model<K, T>, k: K, obj: T, cost: int): Model<K, T> {
    var r := Remove(m, k).(inserted := m.inserted + [obj]);
    if cost > m.mx then r.(deleted := r.deleted + [obj])
    else AddedAfterTrim(r, k, obj, cost)
  }

  /** Room for an entry is made at the back before it goes in front. */
  function AddedAfterTrim<K(==), T>(m: Model<K, T>, k: K, obj: T, cost: int): Model<K, T> {
    var t := Trim(m, m.mx - cost);
    t.(entries := [Entry(k, obj, cost)] + t.entries)
  }

  function SetMaxCost<K, T>(m: Model<K, T>, mx: int): Model<K, T> {
    Trim(m.(mx := mx), mx)
  }

  function Clear<K, T>(m: Model<K, T>): Model<K, T>
    decreases m.entries
  {
    if m.entries == [] then m
    else Clear(m.(entries := m.entries[1..], deleted := m.deleted + [m.entries[0].obj]))
  }

  // ----- trimming keeps the longest affordable prefix

  lemma {:induction false} TrimIsPrefix<K, T>(m: Model<K, T>, limit: int)
    ensures Trim(m, limit).entries <= m.entries
    ensures Trim(m, limit) == m.(entries := Trim(m, limit).entries, deleted := Trim(m, limit).deleted)
    ensures limit >= 0 ==> Cost(Trim(m, limit).entries) <= limit
    ensures Trim(m, limit).entries != [] ==> Cost(Trim(m, limit).entries) <= limit
    decreases m.entries
  {
    var n := |m.entries|;
    if n > 0 && Cost(m.entries) > limit {
      var last := m.entries[n - 1];
      TrimIsPrefix(m.(entries := m.entries[..n - 1], deleted := m.deleted + [last.obj]), limit);
    }
  }

  ghost predicate NonNegative<K, T>(es: seq<Entry<K, T>>) {
    forall i :: 0 <= i < |es| ==> es[i].cost >= 0
  }

  lemma {:induction false} CostMonotone<K, T>(es: seq<Entry<K, T>>, i: nat, j: nat)
    requires NonNegative(es) && i <= j <= |es|
    ensures Cost(es[..i]) <= Cost(es[..j])
  {
    if i < j {
      CostMonotone(es, i, j - 1);
      assert es[..j][..j - 1] == es[..j - 1];
    }
  }

  /** With non-negative costs, exactly the prefixes within the limit survive: nothing is evicted that could
      have been kept, and nothing is kept that is over the limit. */
  lemma {:induction false} TrimKeepsLongest<K, T>(m: Model<K, T>, limit: int, j: nat)
    requires NonNegative(m.entries) && limit >= 0 && j <= |m.entries|
    ensures j <= |Trim(m, limit).entries| <==> Cost(m.entries[..j]) <= limit
    decreases m.entries
  {
    var n, es := |m.entries|, m.entries;
    assert es[..n] == es;
    CostMonotone(es, j, n);
    if n > 0 && Cost(es) > limit {
      var smaller := m.(entries := es[..n - 1], deleted := m.deleted + [es[n - 1].obj]);
      if j < n {
        assert smaller.entries[..j] == es[..j];
        TrimKeepsLongest(smaller, limit, j);
      } else {
        TrimIsPrefix(smaller, limit);
      }
    }
  }

  // ----- whole runs

  datatype Op<K, T> =
    | DoInsert(key: K, obj: T, cost: int)
    | DoLookup(key: K)
    | DoRemove(key: K)
    | DoTake(key: K)
    | DoSetMaxCost(mx: int)
    | DoClear

  function Apply<K(==), T>(m: Model<K, T>, op: Op<K, T>): Model<K, T> {
    match op
    case DoInsert(k, obj, cost) => Insert(m, k, obj, cost)
    case DoLookup(k) => Lookup(m, k)
    case DoRemove(k) => Remove(m, k)
    case DoTake(k) => Take(m, k)
    case DoSetMaxCost(mx) => SetMaxCost(m, mx)
    case DoClear => Clear(m)
  }

  function Run<K(==), T>(m: Model<K, T>, ops: seq<Op<K, T>>): Model<K, T>
    decreases ops
  {
    if ops == [] then m else Run(Apply(m, ops[0]), ops[1..])
  }

  /** Keys are unique, costs are not negative, and the total is within the bound. */
  ghost predicate Good<K, T>(m: Model<K, T>) {
    && UniqueKeys(m.entries)
    && NonNegative(m.entries)
    && (m.mx >= 0 ==> Cost(m.entries) <= m.mx)
  }

  /** The object is live, deleted or handed out, once for each time it was inserted. */
  ghost predicate Accounted<K, T>(m: Model<K, T>, obj: T) {
    multiset(m.inserted)[obj] == Holding(m.entries, obj) + multiset(m.deleted)[obj] + multiset(m.taken)[obj]
  }

  lemma {:induction false} SumAppend<K, T>(a: seq<Entry<K, T>>, b: seq<Entry<K, T>>, w: Entry<K, T> -> int)
    ensures Sum(a + b, w) == Sum(a, w) + Sum(b, w)
    decreases b
  {
    if b == [] {
      assert a + b == a;
    } else {
      var n := |b|;
      assert (a + b)[..|a + b| - 1] == a + b[..n - 1];
      SumAppend(a, b[..n - 1], w);
    }
  }

  lemma SumCons<K, T>(e: Entry<K, T>, es: seq<Entry<K, T>>, w: Entry<K, T> -> int)
    ensures Sum([e] + es, w) == w(e) + Sum(es, w)
  {
    SumAppend([e], es, w);
    assert [e][..0] == [];
  }

  lemma SumSplit<K, T>(a: seq<Entry<K, T>>, e: Entry<K, T>, b: seq<Entry<K, T>>, w: Entry<K, T> -> int)
    ensures Sum(a + ([e] + b), w) == Sum(a + b, w) + w(e)
  {
    SumAppend(a, [e] + b, w);
    SumCons(e, b, w);
    SumAppend(a, b, w);
  }

  lemma SplitAt<K, T>(es: seq<Entry<K, T>>, i: nat)
    requires i < |es|
    ensures es == es[..i] + ([es[i]] + es[i + 1..])
  {
  }

  lemma SumDrop<K, T>(es: seq<Entry<K, T>>, i: nat, w: Entry<K, T> -> int)
    requires i < |es|
    ensures Sum(es, w) == Sum(Drop(es, i), w) + w(es[i])
  {
    SplitAt(es, i);
    SumSplit(es[..i], es[i], es[i + 1..], w);
  }

  lemma RemoveGood<K, T>(m: Model<K, T>, k: K)
    requires Good(m)
    ensures Good(Remove(m, k)) && Good(Take(m, k))
    ensures Find(Remove(m, k).entries, k) == |Remove(m, k).entries|
  {
    var i := Find(m.entries, k);
    if i < |m.entries| {
      SumDrop(m.entries, i, (e: Entry<K, T>) => e.cost);
      DropGood(m.entries, i);
    }
  }

  /** Keys stay unique without entry i, and its own key is gone. */
  lemma DropGood<K, T>(es: seq<Entry<K, T>>, i: nat)
    requires i < |es| && UniqueKeys(es) && NonNegative(es)
    ensures UniqueKeys(Drop(es, i)) && NonNegative(Drop(es, i)) && Absent(Drop(es, i), es[i].key)
  {
    var rest := Drop(es, i);
    forall j | 0 <= j < |rest|
      ensures rest[j].key != es[i].key && rest[j].cost >= 0
    {
      assert rest[j] == es[if j < i then j else j + 1];
    }
  }

  lemma MoveToFront<K, T>(es: seq<Entry<K, T>>, i: nat)
    requires i < |es| && UniqueKeys(es) && NonNegative(es)
    ensures UniqueKeys([es[i]] + Drop(es, i)) && NonNegative([es[i]] + Drop(es, i))
    ensures Cost([es[i]] + Drop(es, i)) == Cost(es)
  {
    SumDrop(es, i, (e: Entry<K, T>) => e.cost);
    SumCons(es[i], Drop(es, i), (e: Entry<K, T>) => e.cost);
  }

  lemma LookupGood<K, T>(m: Model<K, T>, k: K)
    requires Good(m)
    ensures Good(Lookup(m, k))
  {
    var i := Find(m.entries, k);
    if i < |m.entries| {
      MoveToFront(m.entries, i);
    }
  }

  ghost predicate Absent<K, T>(es: seq<Entry<K, T>>, k: K) {
    forall i :: 0 <= i < |es| ==> es[i].key != k
  }

  lemma TrimmedGood<K, T>(r: Model<K, T>, limit: int, k: K)
    requires UniqueKeys(r.entries) && NonNegative(r.entries) && Absent(r.entries, k)
    ensures var es := Trim(r, limit).entries; UniqueKeys(es) && NonNegative(es) && Absent(es, k)
  {
    TrimIsPrefix(r, limit);
  }

  lemma ConsGood<K, T>(e: Entry<K, T>, es: seq<Entry<K, T>>)
    requires UniqueKeys(es) && NonNegative(es) && Absent(es, e.key) && e.cost >= 0
    ensures UniqueKeys([e] + es) && NonNegative([e] + es) && Cost([e] + es) == e.cost + Cost(es)
  {
    SumCons(e, es, (x: Entry<K, T>) => x.cost);
  }

  lemma AddedGood<K, T>(r: Model<K, T>, k: K, obj: T, cost: int)
    requires Good(r) && Absent(r.entries, k) && 0 <= cost <= r.mx
    ensures Good(AddedAfterTrim(r, k, obj, cost))
  {
    TrimmedGood(r, r.mx - cost, k);
    TrimIsPrefix(r, r.mx - cost);
    ConsGood(Entry(k, obj, cost), Trim(r, r.mx - cost).entries);
  }

  lemma InsertGood<K, T>(m: Model<K, T>, k: K, obj: T, cost: int)
    requires Good(m) && cost >= 0
    ensures Good(Insert(m, k, obj, cost))
  {
    RemoveGood(m, k);
    var r := Remove(m, k).(inserted := m.inserted + [obj]);
    if cost <= m.mx {
      AddedGood(r, k, obj, cost);
    }
  }

  /** An insertion that succeeds keeps every other entry it could have kept: after the new entry come the
      other entries, up to exactly the longest prefix that fits beside it. */
  lemma InsertKeepsWhatFits<K, T>(m: Model<K, T>, k: K, obj: T, cost: int, j: nat)
    requires Good(m) && 0 <= cost <= m.mx && j <= |Remove(m, k).entries|
    ensures var others, now := Remove(m, k).entries, Insert(m, k, obj, cost).entries;
            && now != [] && now[0] == Entry(k, obj, cost) && now[1..] <= others
            && (j < |now| <==> Cost(others[..j]) + cost <= m.mx)
  {
    var r := Remove(m, k).(inserted := m.inserted + [obj]);
    RemoveGood(m, k);
    TrimIsPrefix(r, m.mx - cost);
    TrimKeepsLongest(r, m.mx - cost, j);
  }

  lemma SetMaxCostGood<K, T>(m: Model<K, T>, mx: int)
    requires Good(m)
    ensures Good(SetMaxCost(m, mx))
  {
    TrimIsPrefix(m.(mx := mx), mx);
  }

  lemma {:induction false} ClearEmpties<K, T>(m: Model<K, T>)
    ensures Clear(m) == m.(entries := [], deleted := Clear(m).deleted)
    decreases m.entries
  {
    if m.entries != [] {
      ClearEmpties(m.(entries := m.entries[1..], deleted := m.deleted + [m.entries[0].obj]));
    }
  }

  ghost predicate CostsAreNonNegative<K, T>(ops: seq<Op<K, T>>) {
    forall i :: 0 <= i < |ops| && ops[i].DoInsert? ==> ops[i].cost >= 0
  }

  lemma ApplyGood<K, T>(m: Model<K, T>, op: Op<K, T>)
    requires Good(m) && (op.DoInsert? ==> op.cost >= 0)
    ensures Good(Apply(m, op))
  {
    match op
    case DoInsert(k, obj, cost) => InsertGood(m, k, obj, cost);
    case DoLookup(k) => LookupGood(m, k);
    case DoRemove(k) => RemoveGood(m, k);
    case DoTake(k) => RemoveGood(m, k);
    case DoSetMaxCost(mx) => SetMaxCostGood(m, mx);
    case DoClear => ClearEmpties(m);
  }

  lemma {:induction false} TrimAccounted<K, T>(m: Model<K, T>, limit: int, obj: T)
    requires Accounted(m, obj)
    ensures Accounted(Trim(m, limit), obj)
    decreases m.entries
  {
    var n := |m.entries|;
    if n > 0 && Cost(m.entries) > limit {
      TrimAccounted(m.(entries := m.entries[..n - 1],
                       deleted := m.deleted + [m.entries[n - 1].obj]), limit, obj);
    }
  }

  lemma {:induction false} ClearAccounted<K, T>(m: Model<K, T>, obj: T)
    requires Accounted(m, obj)
    ensures Accounted(Clear(m), obj)
    decreases m.entries
  {
    if m.entries != [] {
      var e, rest := m.entries[0], m.entries[1..];
      assert m.entries == [e] + rest;
      SumCons(e, rest, Is(obj));
      ClearAccounted(m.(entries := rest, deleted := m.deleted + [e.obj]), obj);
    }
  }

  lemma DropAccounted<K, T>(m: Model<K, T>, k: K, obj: T)
    requires Accounted(m, obj)
    ensures Accounted(Remove(m, k), obj) && Accounted(Take(m, k), obj)
  {
    var i := Find(m.entries, k);
    if i < |m.entries| {
      SumDrop(m.entries, i, Is(obj));
    }
  }

  lemma LookupAccounted<K, T>(m: Model<K, T>, k: K, obj: T)
    requires Accounted(m, obj)
    ensures Accounted(Lookup(m, k), obj)
  {
    var i := Find(m.entries, k);
    if i < |m.entries| {
      SumDrop(m.entries, i, Is(obj));
      SumCons(m.entries[i], Drop(m.entries, i), Is(obj));
    }
  }

  /** A new object is accounted for as an entry, or, when it is refused, as deleted. */
  lemma NewAccounted<K, T>(m: Model<K, T>, e: Entry<K, T>, obj: T)
    requires Accounted(m, obj)
    ensures Accounted(m.(entries := [e] + m.entries, inserted := m.inserted + [e.obj]), obj)
    ensures Accounted(m.(deleted := m.deleted + [e.obj], inserted := m.inserted + [e.obj]), obj)
  {
    SumCons(e, m.entries, Is(obj));
  }

  lemma AddedAccounted<K, T>(r: Model<K, T>, k: K, new_: T, cost: int, obj: T)
    requires Accounted(r, obj)
    ensures Accounted(AddedAfterTrim(r.(inserted := r.inserted + [new_]), k, new_, cost), obj)
  {
    TrimCommutes(r, r.mx - cost, r.inserted + [new_]);
    TrimIsPrefix(r, r.mx - cost);
    TrimAccounted(r, r.mx - cost, obj);
    NewAccounted(Trim(r, r.mx - cost), Entry(k, new_, cost), obj);
  }

  lemma InsertAccounted<K, T>(m: Model<K, T>, k: K, new_: T, cost: int, obj: T)
    requires Accounted(m, obj)
    ensures Accounted(Insert(m, k, new_, cost), obj)
  {
    DropAccounted(m, k, obj);
    NewAccounted(Remove(m, k), Entry(k, new_, cost), obj);
    AddedAccounted(Remove(m, k), k, new_, cost, obj);
  }

  lemma {:induction false} TrimCommutes<K, T>(m: Model<K, T>, limit: int, ins: seq<T>)
    ensures Trim(m.(inserted := ins), limit) == Trim(m, limit).(inserted := ins)
    decreases m.entries
  {
    var n := |m.entries|;
    if n > 0 && Cost(m.entries) > limit {
      TrimCommutes(m.(entries := m.entries[..n - 1],
                      deleted := m.deleted + [m.entries[n - 1].obj]), limit, ins);
    }
  }

  lemma ApplyAccounted<K, T>(m: Model<K, T>, op: Op<K, T>, obj: T)
    requires Accounted(m, obj)
    ensures Accounted(Apply(m, op), obj)
  {
    match op
    case DoInsert(k, o, cost) => InsertAccounted(m, k, o, cost, obj);
    case DoLookup(k) => LookupAccounted(m, k, obj);
    case DoRemove(k) => DropAccounted(m, k, obj);
    case DoTake(k) => DropAccounted(m, k, obj);
    case DoSetMaxCost(mx) => TrimAccounted(m.(mx := mx), mx, obj);
    case DoClear => ClearAccounted(m, obj);
  }

  /** Any sequence of calls keeps the keys unique and the cost bounded, and accounts for every object. */
  lemma {:induction false} RunGood<K, T>(m: Model<K, T>, ops: seq<Op<K, T>>, obj: T)
    requires Good(m) && Accounted(m, obj) && CostsAreNonNegative(ops)
    ensures Good(Run(m, ops)) && Accounted(Run(m, ops), obj)
    decreases ops
  {
    if ops != [] {
      ApplyGood(m, ops[0]);
      ApplyAccounted(m, ops[0], obj);
      assert CostsAreNonNegative(ops[1..]);
      RunGood(Apply(m, ops[0]), ops[1..], obj);
    }
  }
}
