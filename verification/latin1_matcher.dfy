/** The Boyer-Moore style searcher: a skip table built from the needle, and the search that uses it. */
module Latin1Matcher {

  type Byte = b: nat | b < 256

  const UCHAR_MAX: nat := 255

  /** The needle's bytes occur, hashed, at position p of the haystack. */
  ghost predicate MatchAt<X>(hash: X -> Byte, hay: seq<X>, pat: seq<Byte>, p: int) {
    0 <= p <= p + |pat| <= |hay| && forall j :: 0 <= j < |pat| ==> hash(hay[p + j]) == pat[j]
  }

  /** What naive search returns: the first match, or the end of the haystack. */
  ghost predicate IsLeftmost<X>(hash: X -> Byte, hay: seq<X>, pat: seq<Byte>, p: nat) {
    && (forall q :: q < p ==> !MatchAt(hash, hay, pat, q))
    && (MatchAt(hash, hay, pat, p) || (p == |hay| && forall q :: !MatchAt(hash, hay, pat, q)))
  }

  /** How many trailing needle bytes the table covers. */
  function Window(pat: seq<Byte>): nat {
    if |pat| > UCHAR_MAX then UCHAR_MAX else |pat|
  }

  /** The k-th needle byte from the end. */
  function FromEnd(pat: seq<Byte>, k: nat): Byte
    requires k < |pat|
  {
    pat[|pat| - 1 - k]
  }

  /** `skip` is the distance from the end to the nearest c among the needle bytes at distance `from` or more
      inside the window, or the window itself if there is none. */
  ghost predicate NearestFrom(pat: seq<Byte>, c: Byte, from: nat, skip: nat) {
    && skip <= Window(pat)
    && (forall k :: from <= k < skip ==> FromEnd(pat, k) != c)
    && (skip < Window(pat) ==> from <= skip && FromEnd(pat, skip) == c)
  }

  ghost predicate TableFor(pat: seq<Byte>, table: seq<nat>) {
    |table| == 256 && forall c: Byte :: NearestFrom(pat, c, 0, table[c])
  }

  /** A mismatch at `current` under the table: no match ends within the next `table[..]` positions. */
  lemma TableShiftIsSafe<X>(hash: X -> Byte, hay: seq<X>, pat: seq<Byte>, table: seq<nat>, current: nat, q: nat)
    requires TableFor(pat, table) && pat != [] && |pat| - 1 <= current < |hay|
    requires current <= q + |pat| - 1 < current + table[hash(hay[current])]
    ensures !MatchAt(hash, hay, pat, q)
  {
    var k := q + |pat| - 1 - current;
    assert FromEnd(pat, k) != hash(hay[current]);
    assert hay[q + (|pat| - 1 - k)] == hay[current];
  }

  /** A byte that the table says is nowhere in the needle: no match may cover it. */
  lemma AbsentShiftIsSafe<X>(hash: X -> Byte, hay: seq<X>, pat: seq<Byte>, table: seq<nat>,
                             current: nat, skip: nat, q: nat)
    requires TableFor(pat, table) && skip < |pat| && |pat| - 1 <= current < |hay|
    requires table[hash(hay[current - skip])] == |pat|
    requires current <= q + |pat| - 1 < current + (|pat| - skip)
    ensures !MatchAt(hash, hay, pat, q)
  {
    var c := hash(hay[current - skip]);
    var k := q + |pat| - 1 - (current - skip);
    assert FromEnd(pat, k) != c;
    assert hay[q + (|pat| - 1 - k)] == hay[current - skip];
  }

  class HashedNeedle {
    const skiptable: array<nat>
    ghost const needle: seq<Byte>

    ghost predicate Valid()
      reads skiptable
    {
      TableFor(needle, skiptable[..])
    }

    constructor (pat: seq<Byte>)
      ensures Valid() && needle == pat && fresh(skiptable)
    {
      var n := |pat|;
      var max := if n > UCHAR_MAX then UCHAR_MAX else n;
      var table := new nat[256];
      for k := 0 to 256
        invariant forall i :: 0 <= i < k ==> table[i] == max
      {
        table[k] := max;
      }
      needle := pat;
      skiptable := table;
      var pattern := n - max;
      while max != 0
        invariant 0 <= max <= Window(pat) && pattern == n - max
        invariant fresh(table) && table.Length == 256
        invariant forall c: Byte :: NearestFrom(pat, c, max, table[c])
      {
        max := max - 1;
        assert pat[pattern] == FromEnd(pat, max);
        table[pat[pattern]] := max;
        pattern := pattern + 1;
      }
    }

    /** `operator()`: the position found, or the length of the haystack. */
    method Search<X>(hash: X -> Byte, hay: seq<X>, pat: seq<Byte>) returns (p: nat)
      requires Valid() && pat == needle
      ensures p <= |hay| && IsLeftmost(hash, hay, pat, p)
    {
      var n := |pat|;
      if n == 0 {
        return 0;
      }
      ghost var table := skiptable[..];
      var current := n - 1;
      while current < |hay|
        invariant n - 1 <= current
        invariant forall q: nat :: q + n - 1 < current ==> !MatchAt(hash, hay, pat, q)
        decreases |hay| - current
      {
        ghost var c := hash(hay[current]);
        assert NearestFrom(pat, c, 0, table[c]);
        var skip := skiptable[hash(hay[current])];
        if skip == 0 {
          assert FromEnd(pat, 0) == c;
          skip := MatchBackwards(hash, hay, pat, current);
          if skip > n - 1 {
            return current - skip + 1;
          }
          if skiptable[hash(hay[current - skip])] == n {
            forall q: nat | current <= q + n - 1 < current + (n - skip) ensures !MatchAt(hash, hay, pat, q) {
              AbsentShiftIsSafe(hash, hay, pat, table, current, skip, q);
            }
            skip := n - skip;
          } else {
            skip := 1;
          }
        } else {
          forall q: nat | current <= q + n - 1 < current + skip ensures !MatchAt(hash, hay, pat, q) {
            TableShiftIsSafe(hash, hay, pat, table, current, q);
          }
        }
        current := current + skip;
      }
      return |hay|;
    }
  }

  /** How many needle bytes match, going back from `current`; all of them exactly for a match. */
  method MatchBackwards<X>(hash: X -> Byte, hay: seq<X>, pat: seq<Byte>, current: nat) returns (skip: nat)
    requires pat != [] && |pat| - 1 <= current < |hay|
    ensures skip <= |pat|
    ensures forall k :: 0 <= k < skip ==> hash(hay[current - k]) == FromEnd(pat, k)
    ensures skip < |pat| ==> hash(hay[current - skip]) != FromEnd(pat, skip)
    ensures skip == |pat| <==> MatchAt(hash, hay, pat, current - (|pat| - 1))
  {
    ghost var p := current - (|pat| - 1);
    skip := 0;
    while skip < |pat|
      invariant skip <= |pat|
      invariant forall k :: 0 <= k < skip ==> hash(hay[current - k]) == FromEnd(pat, k)
    {
      if hash(hay[current - skip]) != pat[|pat| - 1 - skip] {
        assert hay[p + (|pat| - 1 - skip)] == hay[current - skip];
        return;
      }
      skip := skip + 1;
    }
    forall j | 0 <= j < |pat| ensures hash(hay[p + j]) == pat[j] {
      assert FromEnd(pat, |pat| - 1 - j) == pat[j];
    }
  }

  // ----- `indexIn` on top of the searcher

  const FOLD_BUFFER: nat := 256

  /** The leftmost match no earlier than f, or -1. */
  ghost predicate IsIndexFrom(hash: Byte -> Byte, hay: seq<Byte>, pat: seq<Byte>, f: nat, r: int) {
    && (r == -1 ==> forall q :: f <= q ==> !MatchAt(hash, hay, pat, q))
    && (r != -1 ==> f <= r && MatchAt(hash, hay, pat, r) && forall q :: f <= q < r ==> !MatchAt(hash, hay, pat, q))
  }

  /** Searching the haystack from `found` on finds what searching the rest of it finds. */
  lemma MatchInSuffix<X>(hash: X -> Byte, hay: seq<X>, pat: seq<Byte>, found: nat, q: nat)
    requires found <= |hay|
    ensures MatchAt(hash, hay[found..], pat, q) <==> MatchAt(hash, hay, pat, found + q)
  {
    var rest := hay[found..];
    assert forall i :: 0 <= i < |rest| ==> rest[i] == hay[found + i];
    if found + q + |pat| <= |hay| {
      assert hay[found + q..found + q + |pat|] == rest[q..q + |pat|];
      MatchIsSlice(hash, hay, pat, found + q);
      MatchIsSlice(hash, rest, pat, q);
    }
  }

  lemma MatchIsSlice<X>(hash: X -> Byte, hay: seq<X>, pat: seq<Byte>, p: nat)
    requires p + |pat| <= |hay|
    ensures MatchAt(hash, hay, pat, p)
            <==> var part := hay[p..p + |pat|]; forall j :: 0 <= j < |part| ==> hash(part[j]) == pat[j]
  {
    var part := hay[p..p + |pat|];
    forall j | 0 <= j < |pat| ensures hay[p + j] == part[j] {
    }
  }

  /** A long needle matches where its buffered part matches and the rest follows. */
  lemma MatchInParts<X>(hash: X -> Byte, hay: seq<X>, pat: seq<Byte>, m: nat, q: nat)
    requires m <= |pat|
    ensures MatchAt(hash, hay, pat, q)
            <==> MatchAt(hash, hay, pat[..m], q) && MatchAt(hash, hay, pat[m..], q + m)
  {
    var rest := pat[m..];
    if MatchAt(hash, hay, pat, q) {
      forall j | 0 <= j < |rest| ensures hash(hay[q + m + j]) == rest[j] {
        assert hay[q + m + j] == hay[q + (m + j)];
      }
    } else if MatchAt(hash, hay, pat[..m], q) && MatchAt(hash, hay, pat[m..], q + m) {
      forall j | 0 <= j < |pat| ensures hash(hay[q + j]) == pat[j] {
        if j >= m {
          assert hay[q + j] == hay[q + m + (j - m)] && pat[j] == pat[m..][j - m];
        } else {
          assert pat[j] == pat[..m][j];
        }
      }
    }
  }

  lemma MatchesInParts<X>(hash: X -> Byte, hay: seq<X>, pat: seq<Byte>, m: nat)
    requires m <= |pat|
    ensures forall q: nat :: MatchAt(hash, hay, pat, q)
                             <==> MatchAt(hash, hay, pat[..m], q) && MatchAt(hash, hay, pat[m..], q + m)
  {
    forall q: nat
      ensures MatchAt(hash, hay, pat, q)
              <==> MatchAt(hash, hay, pat[..m], q) && MatchAt(hash, hay, pat[m..], q + m)
    {
      MatchInParts(hash, hay, pat, m, q);
    }
  }

  lemma SuffixSearch<X>(hash: X -> Byte, hay: seq<X>, pat: seq<Byte>, found: nat, p: nat)
    requires found <= |hay| && IsLeftmost(hash, hay[found..], pat, p) && p <= |hay| - found
    ensures forall q: nat :: found <= q < found + p ==> !MatchAt(hash, hay, pat, q)
    ensures MatchAt(hash, hay, pat, found + p)
            || (p == |hay| - found && forall q: nat :: found <= q ==> !MatchAt(hash, hay, pat, q))
  {
    forall q: nat | found <= q
      ensures MatchAt(hash, hay, pat, q) <==> MatchAt(hash, hay[found..], pat, q - found)
    {
      MatchInSuffix(hash, hay, pat, found, q - found);
    }
  }

  /** The searchers compare bytes by this hash: as they are, or folded when case is ignored. */
  function Hash(fold: Byte -> Byte, sensitive: bool): Byte -> Byte {
    if sensitive then (b: Byte) => b else fold
  }

  function FoldAll(fold: Byte -> Byte, pat: seq<Byte>): (r: seq<Byte>)
    ensures |r| == |pat| && forall i :: 0 <= i < |pat| ==> r[i] == fold(pat[i])
  {
    if pat == [] then [] else [fold(pat[0])] + FoldAll(fold, pat[1..])
  }

  /** What the hashed haystack has to show: the pattern, folded when case is ignored. */
  function Target(fold: Byte -> Byte, pat: seq<Byte>, sensitive: bool): (r: seq<Byte>)
    ensures |r| == |pat|
  {
    if sensitive then pat else FoldAll(fold, pat)
  }

  /** `setSearcher`: the needle the searcher gets, which is at most a buffer full when case is ignored. */
  method Needle(fold: Byte -> Byte, pat: seq<Byte>, sensitive: bool) returns (needle: seq<Byte>)
    ensures |needle| == (if !sensitive && |pat| > FOLD_BUFFER then FOLD_BUFFER else |pat|)
    ensures needle == Target(fold, pat, sensitive)[..|needle|]
  {
    if sensitive {
      return pat;
    }
    var size := if |pat| > FOLD_BUFFER then FOLD_BUFFER else |pat|;
    needle := [];
    for i := 0 to size
      invariant needle == FoldAll(fold, pat)[..i]
    {
      needle := needle + [fold(pat[i])];
    }
  }

  /** The pattern stands at q, byte for byte. */
  ghost predicate StandsAt(hay: seq<Byte>, pattern: seq<Byte>, q: int) {
    0 <= q <= q + |pattern| <= |hay| && hay[q..q + |pattern|] == pattern
  }

  /** The pattern stands at q once both sides are folded. */
  ghost predicate FoldedAt(fold: Byte -> Byte, hay: seq<Byte>, pattern: seq<Byte>, q: int) {
    && 0 <= q <= q + |pattern| <= |hay|
    && forall j :: 0 <= j < |pattern| ==> fold(hay[q + j]) == fold(pattern[j])
  }

  /** r is the first place from f on where the pattern stands, or -1 if there is none. */
  ghost predicate IsFirst(hay: seq<Byte>, pattern: seq<Byte>, f: nat, r: int) {
    if r == -1 then forall q :: f <= q ==> !StandsAt(hay, pattern, q)
    else f <= r && StandsAt(hay, pattern, r) && forall q :: f <= q < r ==> !StandsAt(hay, pattern, q)
  }

  ghost predicate IsFirstFolded(fold: Byte -> Byte, hay: seq<Byte>, pattern: seq<Byte>, f: nat, r: int) {
    if r == -1 then forall q :: f <= q ==> !FoldedAt(fold, hay, pattern, q)
    else f <= r && FoldedAt(fold, hay, pattern, r) && forall q :: f <= q < r ==> !FoldedAt(fold, hay, pattern, q)
  }

  lemma SensitiveMatch(fold: Byte -> Byte, hay: seq<Byte>, pattern: seq<Byte>, q: int)
    ensures MatchAt(Hash(fold, true), hay, Target(fold, pattern, true), q) <==> StandsAt(hay, pattern, q)
  {
    var hash := Hash(fold, true);
    if 0 <= q <= q + |pattern| <= |hay| {
      var part := hay[q..q + |pattern|];
      assert forall j :: 0 <= j < |pattern| ==> part[j] == hay[q + j] == hash(hay[q + j]);
    }
  }

  lemma FoldedMatch(fold: Byte -> Byte, hay: seq<Byte>, pattern: seq<Byte>, q: int)
    ensures MatchAt(Hash(fold, false), hay, Target(fold, pattern, false), q) <==> FoldedAt(fold, hay, pattern, q)
  {
  }

  lemma IndexMeans(fold: Byte -> Byte, hay: seq<Byte>, pattern: seq<Byte>, sensitive: bool, f: nat, r: int)
    requires IsIndexFrom(Hash(fold, sensitive), hay, Target(fold, pattern, sensitive), f, r) && r >= -1
    ensures if sensitive then IsFirst(hay, pattern, f, r) else IsFirstFolded(fold, hay, pattern, f, r)
  {
    forall q: int
      ensures MatchAt(Hash(fold, sensitive), hay, Target(fold, pattern, sensitive), q)
              <==> if sensitive then StandsAt(hay, pattern, q) else FoldedAt(fold, hay, pattern, q)
    {
      if sensitive {
        SensitiveMatch(fold, hay, pattern, q);
      } else {
        FoldedMatch(fold, hay, pattern, q);
      }
    }
  }

  /** `indexIn` for a Latin-1 haystack: the leftmost place no earlier than `from` where the pattern occurs, also
      when it exceeds the fold buffer. Callers pass `from` no less than `-|hay|`. */
  method IndexIn(fold: Byte -> Byte, hay: seq<Byte>, pattern: seq<Byte>, from: int, sensitive: bool) returns (r: int)
    requires -|hay| <= from
    ensures var f := if from < 0 then from + |hay| else from;
            if sensitive then IsFirst(hay, pattern, f, r) else IsFirstFolded(fold, hay, pattern, f, r)
  {
    if pattern == [] && from == |hay| {
      assert StandsAt(hay, pattern, from);
      return from;
    }
    var f := if from < 0 then from + |hay| else from;
    if f >= |hay| {
      NothingBeyond(fold, hay, pattern, f);
      return -1;
    }
    r := Scan(fold, hay, pattern, f, sensitive);
    IndexMeans(fold, hay, pattern, sensitive, f, r);
  }

  /** Beyond the haystack nothing stands, except an empty pattern at its very end. */
  lemma NothingBeyond(fold: Byte -> Byte, hay: seq<Byte>, pattern: seq<Byte>, f: nat)
    requires f >= |hay| && (pattern == [] ==> f > |hay|)
    ensures IsFirst(hay, pattern, f, -1) && IsFirstFolded(fold, hay, pattern, f, -1)
  {
  }

  /** The searches of `indexIn`, each from behind the last place where only the buffered part occurred. */
  method Scan(fold: Byte -> Byte, hay: seq<Byte>, pattern: seq<Byte>, f: nat, sensitive: bool) returns (r: int)
    requires f < |hay|
    ensures r >= -1
    ensures IsIndexFrom(Hash(fold, sensitive), hay, Target(fold, pattern, sensitive), f, r)
  {
    var hash := Hash(fold, sensitive);
    ghost var pat := Target(fold, pattern, sensitive);
    var part := Needle(fold, pattern, sensitive);
    var m := |part|;
    var needle := new HashedNeedle(part);
    var found := f;
    MatchesInParts(hash, hay, pat, m);
    while true
      invariant f <= found <= |hay|
      invariant needle.Valid() && needle.needle == part
      invariant forall q: nat :: f <= q < found ==> !MatchAt(hash, hay, pat, q)
      invariant pat == [] ==> found == f
      decreases |hay| - found
    {
      assert pat == [] ==> MatchAt(hash, hay[found..], part, 0);
      var p := needle.Search(hash, hay[found..], part);
      SuffixSearch(hash, hay, part, found, p);
      found := found + p;
      if found == |hay| {
        return -1;
      }
      var rest := RestMatches(fold, hay, pattern, m, found + m, sensitive);
      if rest {
        return found;
      }
      found := found + 1;
    }
  }

  method RestMatches(fold: Byte -> Byte, hay: seq<Byte>, pattern: seq<Byte>, m: nat, p: nat, sensitive: bool)
    returns (b: bool)
    requires m <= |pattern| && (sensitive ==> m == |pattern|)
    ensures b <==> MatchAt(Hash(fold, sensitive), hay, Target(fold, pattern, sensitive)[m..], p)
  {
    b := StartsWith(fold, hay, pattern[m..], p);
    assert FoldAll(fold, pattern[m..]) == FoldAll(fold, pattern)[m..];
  }

  /** The comparison of the rest of a long needle, byte by byte and folded. */
  method StartsWith(fold: Byte -> Byte, hay: seq<Byte>, needle: seq<Byte>, p: nat) returns (b: bool)
    ensures b <==> MatchAt(fold, hay, FoldAll(fold, needle), p)
  {
    if p + |needle| > |hay| {
      return false;
    }
    for j := 0 to |needle|
      invariant forall i :: 0 <= i < j ==> fold(hay[p + i]) == fold(needle[i])
    {
      if fold(hay[p + j]) != fold(needle[j]) {
        assert fold(hay[p + j]) != FoldAll(fold, needle)[j];
        return false;
      }
    }
    return true;
  }
}
