/** The set of times a list of closed intervals denotes, and the canonical lists. */
module TimeSets {

  const INT64_MIN: int := -0x8000_0000_0000_0000
  const INT64_MAX: int := 0x7fff_ffff_ffff_ffff

  datatype Interval = Interval(s: int, e: int) {
    predicate Normal() { s <= e }

    predicate InRange() { INT64_MIN <= s <= INT64_MAX && INT64_MIN <= e <= INT64_MAX }

    /** `contains`: an abnormal interval is read back to front. */
    predicate Contains(t: int) {
      if Normal() then s <= t <= e else e <= t <= s
    }
  }

  /** Some interval of the list covers t. */
  ghost predicate Member(xs: seq<Interval>, t: int) {
    exists k :: 0 <= k < |xs| && xs[k].Contains(t)
  }

  ghost predicate Sound(x: Interval) {
    x.Normal() && x.InRange()
  }

  /** Sorted, normal, and with at least one missing time between neighbours. */
  ghost predicate Canonical(xs: seq<Interval>) {
    && (forall i :: 0 <= i < |xs| ==> Sound(xs[i]))
    && (forall i, j :: 0 <= i < j < |xs| ==> xs[i].e + 1 < xs[j].s)
  }

  lemma MemberConcat(a: seq<Interval>, b: seq<Interval>, t: int)
    ensures Member(a + b, t) <==> Member(a, t) || Member(b, t)
  {
    if Member(a, t) {
      var k :| 0 <= k < |a| && a[k].Contains(t);
      assert (a + b)[k].Contains(t);
    } else if Member(b, t) {
      var k :| 0 <= k < |b| && b[k].Contains(t);
      assert (a + b)[|a| + k].Contains(t);
    }
  }

  lemma MemberOne(x: Interval, t: int)
    ensures Member([x], t) <==> x.Contains(t)
  {
    assert x.Contains(t) ==> [x][0].Contains(t);
  }

  /** The times of a list with one interval in the middle. */
  lemma MemberSplit(a: seq<Interval>, x: Interval, b: seq<Interval>, t: int)
    ensures Member(a + [x] + b, t) <==> Member(a, t) || x.Contains(t) || Member(b, t)
  {
    MemberConcat(a + [x], b, t);
    MemberConcat(a, [x], t);
    MemberOne(x, t);
  }

  lemma CanonicalSlice(xs: seq<Interval>, i: nat, j: nat)
    requires Canonical(xs) && i <= j <= |xs|
    ensures Canonical(xs[i..j])
  {
  }

  lemma CanonicalConcat(a: seq<Interval>, b: seq<Interval>)
    requires Canonical(a) && Canonical(b)
    requires a != [] && b != [] ==> a[|a| - 1].e + 1 < b[0].s
    ensures Canonical(a + b)
  {
    forall i, j | 0 <= i < j < |a + b| ensures (a + b)[i].e + 1 < (a + b)[j].s {
      if i < |a| <= j {
        assert a[i].e <= a[|a| - 1].e;
        assert b[0].s <= b[j - |a|].s;
      }
    }
  }

  // ----- the canonical list of a set is unique

  lemma FirstIsEarliest(xs: seq<Interval>, t: int)
    requires Canonical(xs) && Member(xs, t)
    ensures xs[0].s <= t && Member(xs, xs[0].s)
  {
    assert xs[0].Contains(xs[0].s);
  }

  lemma AfterFirst(xs: seq<Interval>)
    requires Canonical(xs) && xs != []
    ensures !Member(xs, xs[0].e + 1)
    ensures forall t :: Member(xs[1..], t) <==> Member(xs, t) && t > xs[0].e
  {
    forall t ensures Member(xs[1..], t) <==> Member(xs, t) && t > xs[0].e {
      assert xs == [xs[0]] + xs[1..];
      MemberConcat([xs[0]], xs[1..], t);
      MemberOne(xs[0], t);
    }
  }

  ghost predicate SameTimes(xs: seq<Interval>, ys: seq<Interval>) {
    forall t :: Member(xs, t) <==> Member(ys, t)
  }

  lemma NotShorter(xs: seq<Interval>, ys: seq<Interval>)
    requires Canonical(xs) && Canonical(ys) && SameTimes(xs, ys) && xs != [] && ys != []
    ensures ys[0].s <= xs[0].s && (xs[0].s == ys[0].s ==> ys[0].e <= xs[0].e)
  {
    assert xs[0].Contains(xs[0].s);
    FirstIsEarliest(ys, xs[0].s);
    AfterFirst(xs);
    assert ys[0].s <= xs[0].e + 1 <= ys[0].e ==> ys[0].Contains(xs[0].e + 1);
  }

  lemma SameFirst(xs: seq<Interval>, ys: seq<Interval>)
    requires Canonical(xs) && Canonical(ys) && SameTimes(xs, ys) && xs != [] && ys != []
    ensures xs[0] == ys[0] && Canonical(xs[1..]) && Canonical(ys[1..]) && SameTimes(xs[1..], ys[1..])
  {
    NotShorter(xs, ys);
    NotShorter(ys, xs);
    AfterFirst(xs);
    AfterFirst(ys);
  }

  /** Two canonical lists that denote the same set are equal, element by element: `operator==` decides set
      equality. */
  lemma {:induction false} CanonicalUnique(xs: seq<Interval>, ys: seq<Interval>)
    requires Canonical(xs) && Canonical(ys)
    ensures xs == ys <==> SameTimes(xs, ys)
  {
    if SameTimes(xs, ys) {
      assert xs != [] ==> xs[0].Contains(xs[0].s) && Member(xs, xs[0].s);
      assert ys != [] ==> ys[0].Contains(ys[0].s) && Member(ys, ys[0].s);
      if xs != [] && ys != [] {
        SameFirst(xs, ys);
        CanonicalUnique(xs[1..], ys[1..]);
        assert xs == [xs[0]] + xs[1..] && ys == [ys[0]] + ys[1..];
      }
    }
  }
}

/** A time range: the list of intervals it keeps, changed in place, and the handles that share it. */
module MediaTimeRange {
  import opened TimeSets

  function Max(a: int, b: int): int {
    if a < b then b else a
  }

  /** Whether a signed 64-bit integer can hold x. */
  predicate Fits(x: int) {
    INT64_MIN <= x <= INT64_MAX
  }

  /** One less and one more in two's complement; where the exact value does not fit, C++ leaves it undefined. */
  function Dec(x: int): int {
    if Fits(x - 1) then x - 1 else INT64_MAX
  }

  function Inc(x: int): int {
    if Fits(x + 1) then x + 1 else INT64_MIN
  }

  /** When adding an interval computes a value that does not fit: this is what a caller has to rule out. */
  predicate AddOverflows(xs: seq<Interval>, iv: Interval) {
    iv.Normal() && xs != [] && iv.s == INT64_MIN && xs[0].s == INT64_MIN
  }

  /** Whether the list nevertheless stays canonical when the value wraps: the merge that the wrapped value
      asks for must be the right one. It does not make the computation defined. */
  predicate AddOk(xs: seq<Interval>, iv: Interval) {
    AddOverflows(xs, iv) ==> xs[0].e == INT64_MAX
  }

  ghost predicate Union(xs: seq<Interval>, iv: Interval, ys: seq<Interval>) {
    forall t :: Member(ys, t) <==> Member(xs, t) || (iv.Normal() && iv.Contains(t))
  }

  ghost predicate Difference(xs: seq<Interval>, iv: Interval, ys: seq<Interval>) {
    forall t :: Member(ys, t) <==> Member(xs, t) && !(iv.Normal() && iv.Contains(t))
  }

  // ----- adding an interval

  /** What that overflow leaves: a canonical list behind one more interval that starts where it does. */
  ghost predicate Doubled(xs: seq<Interval>) {
    && |xs| > 1 && Sound(xs[0])
    && xs[0].s == xs[1].s == INT64_MIN && Canonical(xs[1..])
  }

  /** The part of the list up to the interval being merged into. */
  ghost predicate Front(a: seq<Interval>, cur: Interval, ok: bool) {
    if ok then Canonical(a + [cur]) else Doubled(a + [cur])
  }

  /** The part of the list still to be merged. */
  ghost predicate Back(cur: Interval, b: seq<Interval>) {
    Canonical(b) && forall k :: 0 <= k < |b| ==> cur.s <= b[k].s && INT64_MIN < b[k].s
  }

  lemma InsertedTimes(xs: seq<Interval>, iv: Interval, p: nat)
    requires p <= |xs| && iv.Normal()
    ensures Union(xs, iv, xs[..p] + [iv] + xs[p..])
  {
    forall t ensures Member(xs[..p] + [iv] + xs[p..], t) <==> Member(xs, t) || iv.Contains(t) {
      assert xs == xs[..p] + xs[p..];
      MemberConcat(xs[..p], xs[p..], t);
      MemberSplit(xs[..p], iv, xs[p..], t);
    }
  }

  /** Where the search stops: everything before starts no later than iv, everything after starts later. */
  ghost predicate InsertionPoint(xs: seq<Interval>, iv: Interval, p: nat) {
    && p <= |xs|
    && (forall k :: 0 <= k < p ==> xs[k].s <= iv.s)
    && (forall k :: p <= k < |xs| ==> iv.s < xs[k].s)
  }

  lemma SearchEnds(xs: seq<Interval>, iv: Interval, p: nat)
    requires Canonical(xs) || Doubled(xs)
    requires p <= |xs| && (p < |xs| ==> iv.s < xs[p].s) && forall k :: 0 <= k < p ==> xs[k].s <= iv.s
    ensures InsertionPoint(xs, iv, p)
  {
    forall k | p <= k < |xs| ensures iv.s < xs[k].s {
      if Doubled(xs) && p > 0 && k > p {
        assert xs[1..][p - 1] == xs[p] && xs[1..][k - 1] == xs[k];
      }
    }
  }

  /** An interval at the smallest time has a predecessor exactly if the list starts there. */
  lemma FirstStartsFirst(xs: seq<Interval>, iv: Interval, p: nat)
    requires Canonical(xs) || (Doubled(xs) && iv.s > INT64_MIN)
    requires Sound(iv) && InsertionPoint(xs, iv, p)
    ensures AddOverflows(xs, iv) <==> p > 0 && !Fits(iv.s - 1)
  {
    if p > 0 && iv.s == INT64_MIN {
      assert xs[0].s <= iv.s && Sound(xs[0]);
    }
  }

  /** The list once iv is inserted, if it is not merged with its predecessor. */
  lemma InsertedAlone(xs: seq<Interval>, iv: Interval, p: nat)
    requires Canonical(xs) && Sound(iv) && InsertionPoint(xs, iv, p)
    requires p > 0 ==> xs[p - 1].e < Dec(iv.s)
    ensures MergePoint(xs[..p] + [iv] + xs[p..], p, AddOk(xs, iv))
  {
    var ys := xs[..p] + [iv] + xs[p..];
    assert ys[..p] == xs[..p] && ys[p + 1..] == xs[p..];
    if !AddOk(xs, iv) {
      assert xs[..p] + [iv] == [xs[0], iv] && [xs[0], iv][1..] == [iv];
    }
  }

  /** The list once iv is inserted, if it is to be merged with its predecessor. */
  lemma InsertedBeside(xs: seq<Interval>, iv: Interval, p: nat)
    requires Canonical(xs) && Sound(iv) && InsertionPoint(xs, iv, p)
    requires p > 0 && xs[p - 1].e >= Dec(iv.s)
    ensures var ys := xs[..p] + [iv] + xs[p..];
            Mergeable(ys, p - 1) && MergePoint(MergeAt(ys, p - 1), p - 1, true) && AddOk(xs, iv)
  {
    var ys := xs[..p] + [iv] + xs[p..];
    var zs := MergeAt(ys, p - 1);
    assert zs[..p - 1] == xs[..p - 1] && zs[p..] == xs[p..];
  }

  /** The list once iv is inserted and merged with its predecessor if need be, whether canonical or doubled. */
  lemma Inserted(xs: seq<Interval>, iv: Interval, p: nat)
    requires Canonical(xs) || (Doubled(xs) && iv.s > INT64_MIN)
    requires Sound(iv) && InsertionPoint(xs, iv, p)
    ensures var ys, ok := xs[..p] + [iv] + xs[p..], Canonical(xs) && AddOk(xs, iv);
            if p > 0 && xs[p - 1].e >= Dec(iv.s) then Mergeable(ys, p - 1) && MergePoint(MergeAt(ys, p - 1), p - 1, ok)
            else MergePoint(ys, p, ok)
  {
    if Canonical(xs) {
      if p > 0 && xs[p - 1].e >= Dec(iv.s) {
        InsertedBeside(xs, iv, p);
      } else {
        InsertedAlone(xs, iv, p);
      }
    } else {
      InsertedBehind(xs, iv, p);
    }
  }

  lemma InsertedBehind(xs: seq<Interval>, iv: Interval, p: nat)
    requires Doubled(xs) && iv.s > INT64_MIN && Sound(iv) && InsertionPoint(xs, iv, p)
    ensures var ys := xs[..p] + [iv] + xs[p..];
            p > 0 && if xs[p - 1].e >= Dec(iv.s)
                     then Mergeable(ys, p - 1) && MergePoint(MergeAt(ys, p - 1), p - 1, false)
                     else MergePoint(ys, p, false)
  {
    var x, ts, q := xs[0], xs[1..], p - 1;
    var ys, zs := xs[..p] + [iv] + xs[p..], ts[..q] + [iv] + ts[q..];
    assert p >= 2 && InsertionPoint(ts, iv, q);
    assert ys == [x] + zs;
    if ts[q - 1].e >= Dec(iv.s) {
      InsertedBeside(ts, iv, q);
      assert MergeAt(ys, q) == [x] + MergeAt(zs, q - 1);
      BehindOneMore(x, MergeAt(zs, q - 1), q - 1);
    } else {
      InsertedAlone(ts, iv, q);
      BehindOneMore(x, zs, q);
    }
  }

  ghost predicate MergePoint(xs: seq<Interval>, it: nat, ok: bool) {
    it < |xs| && Front(xs[..it], xs[it], ok) && Back(xs[it], xs[it + 1..])
  }

  /** The neighbours at `it` overlap or touch. */
  ghost predicate Mergeable(xs: seq<Interval>, it: nat) {
    && it + 1 < |xs| && Sound(xs[it]) && Sound(xs[it + 1])
    && xs[it].s <= xs[it + 1].s <= xs[it].e + 1
  }

  /** The list once the interval at `it` has been extended over its successor and the successor erased. */
  function MergeAt(xs: seq<Interval>, it: nat): seq<Interval>
    requires it + 1 < |xs|
  {
    xs[..it] + [xs[it].(e := Max(xs[it].e, xs[it + 1].e))] + xs[it + 2..]
  }

  lemma MergeAtTimes(xs: seq<Interval>, it: nat)
    requires Mergeable(xs, it)
    ensures SameTimes(xs, MergeAt(xs, it))
  {
    var x, y, a, b := xs[it], xs[it + 1], xs[..it], xs[it + 2..];
    assert xs == a + [x] + ([y] + b);
    forall t ensures Member(xs, t) <==> Member(MergeAt(xs, it), t) {
      MergeKeepsTimes(a, x, y, b, t);
    }
  }

  lemma MergeAtPoint(xs: seq<Interval>, it: nat, ok: bool)
    requires MergePoint(xs, it, ok) && Mergeable(xs, it)
    ensures MergePoint(MergeAt(xs, it), it, ok)
  {
    var ys := MergeAt(xs, it);
    assert ys[..it] == xs[..it] && ys[it + 1..] == xs[it + 1..][1..];
    FrontGrows(xs[..it], xs[it], Max(xs[it].e, xs[it + 1].e), ok);
  }

  /** A merge point of a canonical list, seen behind one more interval. */
  lemma BehindOneMore(x: Interval, ys: seq<Interval>, it: nat)
    requires Sound(x) && x.s == INT64_MIN && MergePoint(ys, it, true) && ys[0].s == INT64_MIN
    ensures MergePoint([x] + ys, it + 1, false)
  {
    var zs := [x] + ys;
    assert zs[..it + 1] + [zs[it + 1]] == [x] + (ys[..it] + [ys[it]]);
    assert ([x] + (ys[..it] + [ys[it]]))[1..] == ys[..it] + [ys[it]];
    assert zs[it + 2..] == ys[it + 1..];
  }

  /** Merging two neighbours keeps the times, because no time is missing between them. */
  lemma MergeKeepsTimes(a: seq<Interval>, x: Interval, y: Interval, b: seq<Interval>, t: int)
    requires Sound(x) && Sound(y) && x.s <= y.s <= x.e + 1
    ensures Member(a + [Interval(x.s, Max(x.e, y.e))] + b, t) <==> Member(a + [x] + ([y] + b), t)
  {
    MemberSplit(a, Interval(x.s, Max(x.e, y.e)), b, t);
    MemberSplit(a, x, [y] + b, t);
    MemberConcat([y], b, t);
    MemberOne(y, t);
  }

  lemma FrontIsSound(a: seq<Interval>, x: Interval, ok: bool)
    requires Front(a, x, ok)
    ensures Sound(x)
  {
    var xs := a + [x];
    assert xs[|xs| - 1] == x;
    if !ok {
      assert xs[1..][|xs| - 2] == x;
    }
  }

  lemma LastGrows(a: seq<Interval>, x: Interval, e: int)
    requires Canonical(a + [x]) && x.e <= e <= INT64_MAX
    ensures Canonical(a + [Interval(x.s, e)])
  {
    var ys, zs := a + [x], a + [Interval(x.s, e)];
    assert Sound(ys[|a|]);
    forall i, j | 0 <= i < j < |zs| ensures zs[i].e + 1 < zs[j].s {
      assert ys[i].e + 1 < ys[j].s;
    }
    forall i | 0 <= i < |a| ensures Sound(zs[i]) {
      assert ys[i] == zs[i];
    }
  }

  lemma FrontGrows(a: seq<Interval>, x: Interval, e: int, ok: bool)
    requires Front(a, x, ok) && x.e <= e <= INT64_MAX
    ensures Front(a, Interval(x.s, e), ok)
  {
    if ok {
      LastGrows(a, x, e);
    } else {
      assert (a + [x])[1..] == a[1..] + [x];
      assert (a + [Interval(x.s, e)])[1..] == a[1..] + [Interval(x.s, e)];
      LastGrows(a[1..], x, e);
    }
  }

  lemma Finished(xs: seq<Interval>, it: nat, ok: bool)
    requires MergePoint(xs, it, ok)
    requires it + 1 < |xs| ==> xs[it].e < xs[it + 1].s - 1
    ensures Canonical(xs) <==> ok
    ensures !ok ==> Doubled(xs)
  {
    var a, b := xs[..it] + [xs[it]], xs[it + 1..];
    assert xs == a + b;
    if ok {
      CanonicalConcat(a, b);
    } else {
      CanonicalConcat(a[1..], b);
      assert xs[1..] == a[1..] + b;
      assert xs[0] == a[0] && xs[1] == a[1];
    }
  }

  // ----- removing an interval

  /** Outside iv, the two lists cover the same times. */
  ghost predicate SameOutside(xs: seq<Interval>, ys: seq<Interval>, iv: Interval) {
    forall t :: !iv.Contains(t) ==> (Member(xs, t) <==> Member(ys, t))
  }

  /** No interval of the list touches iv. */
  ghost predicate Clear(xs: seq<Interval>, iv: Interval) {
    forall k :: 0 <= k < |xs| ==> xs[k].e < iv.s || iv.e < xs[k].s
  }

  lemma ClearedIsDifference(xs: seq<Interval>, ys: seq<Interval>, iv: Interval)
    requires iv.Normal() && Canonical(ys) && SameOutside(xs, ys, iv) && Clear(ys, iv)
    ensures Difference(xs, iv, ys)
  {
  }

  /** Trimming the interval at `it` by times of iv only. */
  lemma Trimmed(xs: seq<Interval>, it: nat, r: Interval, iv: Interval)
    requires Canonical(xs) && it < |xs| && iv.Normal()
    requires xs[it].s <= r.s <= r.e <= xs[it].e
    requires forall t :: xs[it].Contains(t) && !iv.Contains(t) ==> r.Contains(t)
    ensures Canonical(xs[it := r]) && SameOutside(xs, xs[it := r], iv)
  {
    var a, b := xs[..it], xs[it + 1..];
    assert xs == a + [xs[it]] + b && xs[it := r] == a + [r] + b;
    forall t | !iv.Contains(t) ensures Member(xs, t) <==> Member(xs[it := r], t) {
      MemberSplit(a, xs[it], b, t);
      MemberSplit(a, r, b, t);
    }
  }

  /** Erasing an interval that iv covers. */
  lemma Erased(xs: seq<Interval>, it: nat, iv: Interval)
    requires Canonical(xs) && it < |xs| && iv.Normal()
    requires iv.s <= xs[it].s && xs[it].e <= iv.e
    ensures Canonical(xs[..it] + xs[it + 1..]) && SameOutside(xs, xs[..it] + xs[it + 1..], iv)
  {
    var a, b := xs[..it], xs[it + 1..];
    assert xs == a + [xs[it]] + b;
    forall t | !iv.Contains(t) ensures Member(xs, t) <==> Member(a + b, t) {
      MemberSplit(a, xs[it], b, t);
      MemberConcat(a, b, t);
    }
  }

  function SplitAt(xs: seq<Interval>, it: nat, iv: Interval): seq<Interval>
    requires it < |xs|
  {
    xs[..it] + [Interval(xs[it].s, iv.s - 1)] + [Interval(iv.e + 1, xs[it].e)] + xs[it + 1..]
  }

  /** The interval at `it` strictly surrounds iv. */
  ghost predicate Surrounds(xs: seq<Interval>, it: nat, iv: Interval) {
    it < |xs| && Sound(iv) && xs[it].s < iv.s && iv.e < xs[it].e
  }

  lemma SplitCanonical(xs: seq<Interval>, it: nat, iv: Interval)
    requires Canonical(xs) && Surrounds(xs, it, iv)
    ensures Canonical(SplitAt(xs, it, iv)) && Clear(SplitAt(xs, it, iv), iv)
    ensures Canonical(xs[it := Interval(xs[it].s, iv.s - 1)])
  {
    var left, right := xs[it := Interval(xs[it].s, iv.s - 1)], xs[it := Interval(iv.e + 1, xs[it].e)];
    CanonicalSlice(left, 0, it + 1);
    CanonicalSlice(right, it, |xs|);
    CanonicalConcat(left[..it + 1], right[it..]);
    assert SplitAt(xs, it, iv) == left[..it + 1] + right[it..];
  }

  lemma SplitMembers(xs: seq<Interval>, it: nat, iv: Interval, t: int)
    requires Surrounds(xs, it, iv)
    ensures Member(SplitAt(xs, it, iv), t)
            <==> Member(xs[it := Interval(xs[it].s, iv.s - 1)], t) || Interval(iv.e + 1, xs[it].e).Contains(t)
    ensures !iv.Contains(t) ==> (Member(xs, t) <==> Member(SplitAt(xs, it, iv), t))
  {
    var a, b, x, y := xs[..it], xs[it + 1..], Interval(xs[it].s, iv.s - 1), Interval(iv.e + 1, xs[it].e);
    assert xs == a + [xs[it]] + b && xs[it := x] == a + [x] + b;
    MemberSplit(a + [x], y, b, t);
    MemberConcat(a, [x], t);
    MemberOne(x, t);
    MemberSplit(a, x, b, t);
    MemberSplit(a, xs[it], b, t);
  }

  lemma SplitTimes(xs: seq<Interval>, it: nat, iv: Interval)
    requires Canonical(xs) && Surrounds(xs, it, iv)
    ensures Canonical(SplitAt(xs, it, iv)) && Clear(SplitAt(xs, it, iv), iv)
    ensures SameOutside(xs, SplitAt(xs, it, iv), iv)
    ensures Canonical(xs[it := Interval(xs[it].s, iv.s - 1)])
    ensures Union(xs[it := Interval(xs[it].s, iv.s - 1)], Interval(iv.e + 1, xs[it].e), SplitAt(xs, it, iv))
  {
    SplitCanonical(xs, it, iv);
    forall t
      ensures Member(SplitAt(xs, it, iv), t)
              <==> Member(xs[it := Interval(xs[it].s, iv.s - 1)], t) || Interval(iv.e + 1, xs[it].e).Contains(t)
      ensures !iv.Contains(t) ==> (Member(xs, t) <==> Member(SplitAt(xs, it, iv), t))
    {
      SplitMembers(xs, it, iv, t);
    }
  }

  /** The re-entrant `addInterval` of the split case merges nothing: whatever canonical list denotes the
      union, it is the old list with the two pieces in place of the interval that was split. */
  lemma SplitMergesNothing(xs: seq<Interval>, it: nat, iv: Interval, ys: seq<Interval>)
    requires Canonical(xs) && Surrounds(xs, it, iv)
    requires Union(xs[it := Interval(xs[it].s, iv.s - 1)], Interval(iv.e + 1, xs[it].e), ys) && Canonical(ys)
    ensures ys == SplitAt(xs, it, iv)
  {
    SplitTimes(xs, it, iv);
    CanonicalUnique(ys, SplitAt(xs, it, iv));
  }

  class TimeRangeData {
    var intervals: seq<Interval>

    constructor ()
      ensures intervals == []
    {
      intervals := [];
    }

    constructor FromInterval(iv: Interval)
      requires iv.InRange()
      ensures Canonical(intervals)
      ensures forall t :: Member(intervals, t) <==> iv.Normal() && iv.Contains(t)
    {
      intervals := if iv.Normal() then [iv] else [];
      new;
      if iv.Normal() {
        assert forall t :: iv.Contains(t) ==> intervals[0].Contains(t);
      }
    }

    /** Adding an interval denotes the union. Some value computed on the way does not fit in 64 bits exactly
        if `AddOverflows`, and the list stays canonical exactly if `AddOk`; a list that has lost its form that
        way still takes further intervals that start later. */
    method AddInterval(iv: Interval) returns (ghost overflowed: bool)
      requires Canonical(intervals) || (Doubled(intervals) && iv.s > INT64_MIN)
      requires iv.InRange()
      modifies this
      ensures Union(old(intervals), iv, intervals)
      ensures overflowed <==> AddOverflows(old(intervals), iv)
      ensures Canonical(intervals) <==> Canonical(old(intervals)) && AddOk(old(intervals), iv)
      ensures Canonical(intervals) || Doubled(intervals)
    {
      overflowed := false;
      if !iv.Normal() {
        return;
      }
      ghost var xs := intervals;
      var it := 0;
      while it < |intervals| && !(iv.s < intervals[it].s)
        invariant 0 <= it <= |intervals| && intervals == xs
        invariant forall k :: 0 <= k < it ==> intervals[k].s <= iv.s
      {
        it := it + 1;
      }
      SearchEnds(xs, iv, it);
      InsertedTimes(xs, iv, it);
      intervals := intervals[..it] + [iv] + intervals[it..];

      ghost var ok := Canonical(xs) && AddOk(xs, iv);
      Inserted(xs, iv, it);
      FirstStartsFirst(xs, iv, it);
      if it != 0 {
        overflowed := overflowed || !Fits(intervals[it].s - 1);
        if intervals[it - 1].e >= Dec(intervals[it].s) {
          it := it - 1;
          MergeAtTimes(intervals, it);
          MergeNext(it);
        }
      }
      ghost var later := MergeTrailing(it, ok);
      overflowed := overflowed || later;
    }

    /** The last loop of `addInterval`, in which every value fits. */
    method MergeTrailing(at: nat, ghost ok: bool) returns (ghost overflowed: bool)
      requires MergePoint(intervals, at, ok)
      modifies this
      ensures SameTimes(old(intervals), intervals) && !overflowed
      ensures Canonical(intervals) <==> ok
      ensures ok || Doubled(intervals)
    {
      overflowed := false;
      var it := at;
      while it + 1 < |intervals|
        invariant MergePoint(intervals, it, ok) && SameTimes(old(intervals), intervals) && !overflowed
        decreases |intervals|
      {
        assert intervals[it + 1] == intervals[it + 1..][0];
        overflowed := overflowed || !Fits(intervals[it + 1].s - 1);
        if intervals[it].e < Dec(intervals[it + 1].s) {
          break;
        }
        FrontIsSound(intervals[..it], intervals[it], ok);
        MergeAtTimes(intervals, it);
        MergeAtPoint(intervals, it, ok);
        MergeNext(it);
      }
      Finished(intervals, it, ok);
    }

    /** Extend the interval at `it` over its successor and erase the successor. */
    method MergeNext(it: nat)
      requires it + 1 < |intervals|
      modifies this
      ensures intervals == MergeAt(old(intervals), it)
    {
      intervals := intervals[it := intervals[it].(e := Max(intervals[it].e, intervals[it + 1].e))];
      intervals := intervals[..it + 1] + intervals[it + 2..];
    }

    /** The split case of `removeInterval`: cut the interval short and add its other half. */
    method SplitAround(it: nat, iv: Interval) returns (ghost overflowed: bool)
      requires Canonical(intervals) && Surrounds(intervals, it, iv)
      modifies this
      ensures intervals == SplitAt(old(intervals), it, iv) && !overflowed
    {
      ghost var xs := intervals;
      SplitTimes(xs, it, iv);
      var r := intervals[it];
      overflowed := !Fits(iv.s - 1) || !Fits(iv.e + 1);
      intervals := intervals[it := Interval(r.s, Dec(iv.s))];
      ghost var inner := AddInterval(Interval(Inc(iv.e), r.e));
      overflowed := overflowed || inner;
      SplitMergesNothing(xs, it, iv, intervals);
    }

    /** Removing an interval denotes the difference, keeps the list canonical, and computes no value that does
        not fit, not even in the call that adds the second half of a split. */
    method RemoveInterval(iv: Interval) returns (ghost overflowed: bool)
      requires Canonical(intervals) && iv.InRange()
      modifies this
      ensures Canonical(intervals) && Difference(old(intervals), iv, intervals) && !overflowed
    {
      overflowed := false;
      if !iv.Normal() {
        return;
      }
      ghost var xs := intervals;
      var it := 0;
      while it < |intervals|
        invariant it <= |intervals| && Canonical(intervals) && SameOutside(xs, intervals, iv) && !overflowed
        invariant forall k :: 0 <= k < it ==> intervals[k].e < iv.s
        decreases |intervals| - it
      {
        var r := intervals[it];
        if r.e < iv.s {
        } else if iv.e < r.s {
          break;
        } else if r.s < iv.s && iv.e < r.e {
          SplitTimes(intervals, it, iv);
          ghost var inner := SplitAround(it, iv);
          overflowed := overflowed || inner;
          break;
        } else if r.s < iv.s {
          overflowed := overflowed || !Fits(iv.s - 1);
          Trimmed(intervals, it, Interval(r.s, iv.s - 1), iv);
          intervals := intervals[it := Interval(r.s, Dec(iv.s))];
        } else if iv.e < r.e {
          overflowed := overflowed || !Fits(iv.e + 1);
          Trimmed(intervals, it, Interval(iv.e + 1, r.e), iv);
          intervals := intervals[it := Interval(Inc(iv.e), r.e)];
          break;
        } else {
          Erased(intervals, it, iv);
          intervals := intervals[..it] + intervals[it + 1..];
          continue;
        }
        it := it + 1;
      }
      ClearedIsDifference(xs, intervals, iv);
    }
  }

  // ----- whole ranges

  /** Only the first interval of a range can start at the smallest time, so it decides for all of them. */
  predicate AddRangeOverflows(xs: seq<Interval>, ys: seq<Interval>) {
    ys != [] && AddOverflows(xs, ys[0])
  }

  predicate AddRangeOk(xs: seq<Interval>, ys: seq<Interval>) {
    ys != [] ==> AddOk(xs, ys[0])
  }

  ghost predicate UnionTimes(r: seq<Interval>, xs: seq<Interval>, ys: seq<Interval>) {
    forall t :: Member(r, t) <==> Member(xs, t) || Member(ys, t)
  }

  ghost predicate IsUnion(r: seq<Interval>, xs: seq<Interval>, ys: seq<Interval>) {
    Canonical(r) && UnionTimes(r, xs, ys)
  }

  ghost predicate IsDifference(r: seq<Interval>, xs: seq<Interval>, ys: seq<Interval>) {
    Canonical(r) && forall t :: Member(r, t) <==> Member(xs, t) && !Member(ys, t)
  }

  /** One more interval of the list being added or removed. */
  lemma PrefixGrows(ys: seq<Interval>, i: nat, t: int)
    requires i < |ys|
    ensures Member(ys[..i + 1], t) <==> Member(ys[..i], t) || ys[i].Contains(t)
  {
    assert ys[..i + 1] == ys[..i] + [ys[i]];
    MemberConcat(ys[..i], [ys[i]], t);
    MemberOne(ys[i], t);
  }

  function Earliest(xs: seq<Interval>): int {
    if xs != [] then xs[0].s else 0
  }

  function Latest(xs: seq<Interval>): int {
    if xs != [] then xs[|xs| - 1].e else 0
  }

  predicate IsContinuous(xs: seq<Interval>) {
    |xs| <= 1
  }

  /** A handle. Copies share one `TimeRangeData`: the pointer class does not detach on access. */
  class TimeRange {
    var d: TimeRangeData

    constructor ()
      ensures fresh(d) && d.intervals == []
    {
      d := new TimeRangeData();
    }

    constructor Copy(range: TimeRange)
      ensures d == range.d
    {
      d := range.d;
    }

    /** Adding a range denotes the union for any two ranges; whether every value fits, and whether the list
        stays canonical, is decided by the range's first interval. */
    method AddTimeRange(range: TimeRange) returns (ghost overflowed: bool)
      requires Canonical(d.intervals) && Canonical(range.d.intervals)
      modifies d
      ensures UnionTimes(d.intervals, old(d.intervals), old(range.d.intervals))
      ensures overflowed <==> AddRangeOverflows(old(d.intervals), old(range.d.intervals))
      ensures Canonical(d.intervals) <==> AddRangeOk(old(d.intervals), old(range.d.intervals))
    {
      overflowed := false;
      var ys := range.d.intervals;
      ghost var xs := d.intervals;
      for i := 0 to |ys|
        invariant UnionTimes(d.intervals, xs, ys[..i]) && (i == 0 ==> d.intervals == xs)
        invariant Canonical(d.intervals) <==> i == 0 || AddOk(xs, ys[0])
        invariant Canonical(d.intervals) || Doubled(d.intervals)
        invariant overflowed <==> i > 0 && AddOverflows(xs, ys[0])
      {
        assert i > 0 ==> ys[0].e + 1 < ys[i].s;
        ghost var now := d.AddInterval(ys[i]);
        overflowed := overflowed || now;
        forall t ensures Member(d.intervals, t) <==> Member(xs, t) || Member(ys[..i + 1], t) {
          PrefixGrows(ys, i, t);
        }
      }
      assert ys[..|ys|] == ys;
    }

    method RemoveTimeRange(range: TimeRange) returns (ghost overflowed: bool)
      requires Canonical(d.intervals) && Canonical(range.d.intervals)
      modifies d
      ensures IsDifference(d.intervals, old(d.intervals), old(range.d.intervals)) && !overflowed
    {
      overflowed := false;
      var ys := range.d.intervals;
      ghost var xs := d.intervals;
      for i := 0 to |ys|
        invariant IsDifference(d.intervals, xs, ys[..i]) && !overflowed
      {
        ghost var now := d.RemoveInterval(ys[i]);
        overflowed := overflowed || now;
        forall t ensures Member(d.intervals, t) <==> Member(xs, t) && !Member(ys[..i + 1], t) {
          PrefixGrows(ys, i, t);
        }
      }
      assert ys[..|ys|] == ys;
    }

    method Contains(time: int) returns (found: bool)
      requires Canonical(d.intervals)
      ensures found <==> Member(d.intervals, time)
    {
      var xs := d.intervals;
      for i := 0 to |xs|
        invariant forall k :: 0 <= k < i ==> xs[k].e < time
      {
        if xs[i].Contains(time) {
          return true;
        }
        if time < xs[i].s {
          break;
        }
      }
      return false;
    }
  }

  /** `operator+`. The result denotes the union, but it is the left operand's own data that now holds it. */
  method Plus(r1: TimeRange, r2: TimeRange) returns (r: TimeRange, ghost overflowed: bool)
    requires Canonical(r1.d.intervals) && Canonical(r2.d.intervals)
    modifies r1.d
    ensures fresh(r) && r.d == r1.d
    ensures UnionTimes(r.d.intervals, old(r1.d.intervals), old(r2.d.intervals))
    ensures overflowed <==> AddRangeOverflows(old(r1.d.intervals), old(r2.d.intervals))
    ensures Canonical(r.d.intervals) <==> AddRangeOk(old(r1.d.intervals), old(r2.d.intervals))
  {
    r := new TimeRange.Copy(r1);
    overflowed := r.AddTimeRange(r2);
  }

  /** `operator-`, likewise; no value leaves 64 bits. */
  method Minus(r1: TimeRange, r2: TimeRange) returns (r: TimeRange, ghost overflowed: bool)
    requires Canonical(r1.d.intervals) && Canonical(r2.d.intervals)
    modifies r1.d
    ensures fresh(r) && r.d == r1.d
    ensures IsDifference(r.d.intervals, old(r1.d.intervals), old(r2.d.intervals)) && !overflowed
  {
    r := new TimeRange.Copy(r1);
    overflowed := r.RemoveTimeRange(r2);
  }

  // ----- what the lists say about the sets

  /** Union of ranges is commutative, associative and idempotent, as lists. */
  lemma UnionCommutes(a: seq<Interval>, b: seq<Interval>, r: seq<Interval>, s: seq<Interval>)
    requires IsUnion(r, a, b) && IsUnion(s, b, a)
    ensures r == s
  {
    CanonicalUnique(r, s);
  }

  lemma UnionAssociates(a: seq<Interval>, b: seq<Interval>, c: seq<Interval>,
                        ab: seq<Interval>, bc: seq<Interval>, r: seq<Interval>, s: seq<Interval>)
    requires IsUnion(ab, a, b) && IsUnion(r, ab, c) && IsUnion(bc, b, c) && IsUnion(s, a, bc)
    ensures r == s
  {
    CanonicalUnique(r, s);
  }

  /** Adding what is already there, and removing what is not, changes nothing. */
  lemma UnionAbsorbs(a: seq<Interval>, b: seq<Interval>, r: seq<Interval>)
    requires Canonical(a) && IsUnion(r, a, b)
    ensures r == a <==> forall t :: Member(b, t) ==> Member(a, t)
  {
    CanonicalUnique(r, a);
  }

  /** Adding a range and removing it again restores exactly the ranges that were disjoint from it. */
  lemma RemoveUndoesAdd(a: seq<Interval>, b: seq<Interval>, r: seq<Interval>, s: seq<Interval>)
    requires Canonical(a) && IsUnion(r, a, b) && IsDifference(s, r, b)
    ensures s == a <==> forall t :: Member(a, t) ==> !Member(b, t)
  {
    CanonicalUnique(s, a);
  }

  /** The two ends are the least and the greatest time, and 0 when there is none. */
  lemma EarliestIsLeast(xs: seq<Interval>)
    requires Canonical(xs)
    ensures (exists t :: Member(xs, t)) ==> Member(xs, Earliest(xs)) && Member(xs, Latest(xs))
    ensures forall t :: Member(xs, t) ==> Earliest(xs) <= t <= Latest(xs)
    ensures (forall t :: !Member(xs, t)) ==> Earliest(xs) == 0 == Latest(xs)
  {
    if xs != [] {
      assert xs[0].Contains(xs[0].s) && xs[|xs| - 1].Contains(xs[|xs| - 1].e);
      assert Member(xs, Earliest(xs)) && Member(xs, Latest(xs));
    }
  }

  /** A range is continuous exactly when it has no hole. */
  lemma ContinuousMeansConvex(xs: seq<Interval>)
    requires Canonical(xs)
    ensures IsContinuous(xs)
            <==> forall t, u, v :: Member(xs, t) && Member(xs, v) && t <= u <= v ==> Member(xs, u)
  {
    if |xs| > 1 {
      AfterFirst(xs);
      assert xs[0].Contains(xs[0].e) && xs[1].Contains(xs[1].s);
      assert Member(xs, xs[0].e) && Member(xs, xs[1].s) && xs[0].e <= xs[0].e + 1 <= xs[1].s;
    }
  }
}
