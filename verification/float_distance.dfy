/** How many floating-point numbers lie between two others, computed on their encodings. */
module FloatDistance {
  /** An IEEE 754 binary format: the sign bit's weight, one binade of significands, and the encoding of infinity. */
  datatype Format = Format(sign: nat, binade: nat, infinity: nat) {
    predicate Valid() {
      0 < binade < infinity < sign
    }

    /** An encoding of a finite number, as the functions demand. */
    predicate Finite(w: nat) {
      w < infinity || sign <= w < sign + infinity
    }

    /** The magnitude of encoding m in units of the smallest positive number: the subnormals and the first
        normal binade count up by one, and every further binade has twice the spacing of the one below. */
    function Magnitude(m: nat): nat
      requires Valid()
    {
      if m < 2 * binade then m else 2 * Magnitude(m - binade)
    }

    /** The number an encoding stands for, in the same units. */
    function Number(w: nat): int
      requires Valid()
    {
      if w < sign then Magnitude(w) else -(Magnitude(w - sign) as int)
    }

    /** The signed rank of an encoding: both zeros have rank 0. */
    function Rank(w: nat): int {
      if w < sign then w else sign - w
    }

    /** Unsigned arithmetic in a word that holds an encoding. */
    function Wrap(x: int): int {
      if x < 0 then x + 2 * sign else if x >= 2 * sign then x - 2 * sign else x
    }

    /** `-a` flips the sign bit. */
    function Negate(w: nat): nat {
      if w < sign then w + sign else w - sign
    }
  }

  const FLOAT := Format(0x8000_0000, 0x0080_0000, 0x7f80_0000)
  const DOUBLE := Format(0x8000_0000_0000_0000, 0x0010_0000_0000_0000, 0x7ff0_0000_0000_0000)

  /** `iFloatDistance`: the comparisons are of numbers, the arithmetic is on encodings. */
  function Distance(f: Format, a: nat, b: nat): int
    requires f.Valid() && f.Finite(a) && f.Finite(b)
    decreases if (f.Number(a) < 0) != (f.Number(b) < 0) then 1 else 0
  {
    if f.Number(a) == f.Number(b) then 0
    else if (f.Number(a) < 0) != (f.Number(b) < 0) then
      if f.Number(a) < 0 then f.Wrap(Distance(f, 0, f.Negate(a)) + Distance(f, 0, b))
      else f.Wrap(Distance(f, 0, a) + Distance(f, 0, f.Negate(b)))
    else
      SameSign(f, if f.Number(a) < 0 then f.Negate(a) else a, if f.Number(a) < 0 then f.Negate(b) else b)
  }

  /** The end of `iFloatDistance`, where neither number is negative. */
  function SameSign(f: Format, a: nat, b: nat): int
    requires f.Valid()
  {
    if f.Number(a) == 0 then f.Wrap(f.Wrap(b - 1) + 1)
    else if f.Number(b) == 0 then f.Wrap(f.Wrap(a - 1) + 1)
    else if f.Number(a) > f.Number(b) then f.Wrap(a - b)
    else f.Wrap(b - a)
  }

  // ----- the order of the encodings is the order of the numbers

  /** A normal number with biased exponent e and fraction m is (2^p + m) * 2^(e-1) of the smallest units, a
      subnormal one is m of them. */
  lemma {:induction false} MagnitudeIsExact(f: Format, e: nat, m: nat)
    requires f.Valid() && m < f.binade
    ensures f.Magnitude(Encoded(f, e, m)) == if e > 0 then Scaled(f.binade + m, e - 1) else m
  {
    if e > 1 {
      MagnitudeIsExact(f, e - 1, m);
      assert Encoded(f, e, m) >= 2 * f.binade by {
        EncodedAtLeast(f, e - 1, m);
      }
    }
  }

  /** Exponent field and fraction field, put together. */
  function Encoded(f: Format, e: nat, m: nat): nat {
    if e == 0 then m else f.binade + Encoded(f, e - 1, m)
  }

  /** x * 2^k */
  function Scaled(x: nat, k: nat): nat {
    if k == 0 then x else 2 * Scaled(x, k - 1)
  }

  lemma EncodedAtLeast(f: Format, e: nat, m: nat)
    requires e > 0
    ensures Encoded(f, e, m) >= f.binade
  {
  }

  lemma {:induction false} MagnitudeAtLeast(f: Format, m: nat)
    requires f.Valid()
    ensures f.Magnitude(m) >= m
  {
    if m >= 2 * f.binade {
      MagnitudeAtLeast(f, m - f.binade);
    }
  }

  lemma {:induction false} MagnitudeGrows(f: Format, m: nat, k: nat)
    requires f.Valid() && m < k
    ensures f.Magnitude(m) < f.Magnitude(k)
  {
    if k >= 2 * f.binade {
      MagnitudeAtLeast(f, k - f.binade);
      if m >= 2 * f.binade {
        MagnitudeGrows(f, m - f.binade, k - f.binade);
      }
    }
  }

  lemma MagnitudeOrder(f: Format, m: nat, k: nat)
    requires f.Valid()
    ensures f.Magnitude(m) < f.Magnitude(k) <==> m < k
    ensures f.Magnitude(m) == 0 <==> m == 0
  {
    MagnitudeAtLeast(f, m);
    if m < k {
      MagnitudeGrows(f, m, k);
    } else if k < m {
      MagnitudeGrows(f, k, m);
    }
  }

  /** Ranks order encodings as their numbers are ordered, and only the two zeros share a rank. */
  lemma RankOrder(f: Format, a: nat, b: nat)
    requires f.Valid() && f.Finite(a) && f.Finite(b)
    ensures f.Number(a) < f.Number(b) <==> f.Rank(a) < f.Rank(b)
    ensures f.Number(a) == f.Number(b) <==> f.Rank(a) == f.Rank(b)
    ensures f.Number(a) < 0 <==> f.Rank(a) < 0
    ensures f.Number(a) == 0 <==> f.Rank(a) == 0
  {
    var m, k := if a < f.sign then a else a - f.sign, if b < f.sign then b else b - f.sign;
    MagnitudeOrder(f, m, k);
    MagnitudeOrder(f, k, m);
  }

  lemma NegateRank(f: Format, a: nat)
    requires f.Valid() && f.Finite(a)
    ensures f.Finite(f.Negate(a)) && f.Number(f.Negate(a)) == -f.Number(a) && f.Rank(f.Negate(a)) == -f.Rank(a)
  {
  }

  function Abs(x: int): nat {
    if x < 0 then -x else x
  }

  // ----- the distance

  lemma SameSignGap(f: Format, a: nat, b: nat)
    requires f.Valid() && f.Finite(a) && f.Finite(b)
    requires f.Number(a) >= 0 && f.Number(b) >= 0 && f.Number(a) != f.Number(b)
    ensures SameSign(f, a, b) == Abs(f.Rank(a) - f.Rank(b))
  {
    RankOrder(f, a, b);
    RankOrder(f, b, a);
  }

  lemma FromZero(f: Format, p: nat)
    requires f.Valid() && f.Finite(p) && f.Number(p) >= 0
    ensures Distance(f, 0, p) == f.Rank(p) < f.infinity
  {
    RankOrder(f, p, 0);
    if f.Number(p) != 0 {
      SameSignGap(f, 0, p);
    }
  }

  /** The distance is the difference in rank: nothing wraps, and both zeros count as one number. */
  lemma DistanceIsRankGap(f: Format, a: nat, b: nat)
    requires f.Valid() && f.Finite(a) && f.Finite(b)
    ensures Distance(f, a, b) == Abs(f.Rank(a) - f.Rank(b))
  {
    RankOrder(f, a, b);
    RankOrder(f, b, a);
    NegateRank(f, a);
    NegateRank(f, b);
    if (f.Number(a) < 0) != (f.Number(b) < 0) {
      FromZero(f, if f.Number(a) < 0 then f.Negate(a) else a);
      FromZero(f, if f.Number(b) < 0 then f.Negate(b) else b);
    } else if f.Number(a) != f.Number(b) {
      SameSignGap(f, if f.Number(a) < 0 then f.Negate(a) else a, if f.Number(a) < 0 then f.Negate(b) else b);
    }
  }

  lemma DistanceIsMetric(f: Format, a: nat, b: nat, c: nat)
    requires f.Valid() && f.Finite(a) && f.Finite(b) && f.Finite(c)
    ensures Distance(f, a, b) == Distance(f, b, a) >= 0
    ensures Distance(f, a, b) == 0 <==> f.Number(a) == f.Number(b)
    ensures Distance(f, a, c) <= Distance(f, a, b) + Distance(f, b, c)
    ensures f.Number(a) <= f.Number(b) <= f.Number(c)
            ==> Distance(f, a, c) == Distance(f, a, b) + Distance(f, b, c)
  {
    DistanceIsRankGap(f, a, b);
    DistanceIsRankGap(f, b, a);
    DistanceIsRankGap(f, b, c);
    DistanceIsRankGap(f, a, c);
    RankOrder(f, a, b);
    RankOrder(f, b, c);
  }

  /** The encoding one rank up. */
  function NextUp(f: Format, a: nat): nat {
    if a < f.sign then a + 1 else if a == f.sign then 1 else a - 1
  }

  ghost predicate Between(f: Format, a: nat, x: nat, b: nat)
    requires f.Valid()
  {
    f.Finite(x) && f.Number(a) < f.Number(x) < f.Number(b)
  }

  /** Numbers at distance one are neighbours: that is what the distance counts. */
  lemma DistanceOneMeansAdjacent(f: Format, a: nat, b: nat)
    requires f.Valid() && f.Finite(a) && f.Finite(b) && f.Number(a) < f.Number(b)
    ensures Distance(f, a, b) == 1 <==> forall x: nat :: !Between(f, a, x, b)
  {
    DistanceIsRankGap(f, a, b);
    RankOrder(f, a, b);
    forall x: nat | Between(f, a, x, b)
      ensures f.Rank(a) < f.Rank(x) < f.Rank(b)
    {
      RankOrder(f, a, x);
      RankOrder(f, x, b);
    }
    if Distance(f, a, b) > 1 {
      var x := NextUp(f, a);
      RankOrder(f, a, x);
      RankOrder(f, x, b);
      assert Between(f, a, x, b);
    }
  }

  /** The two largest numbers of opposite sign are the farthest apart, which still fits the word. */
  lemma DistanceBound(f: Format, a: nat, b: nat)
    requires f.Valid() && f.Finite(a) && f.Finite(b)
    ensures Distance(f, a, b) <= 2 * (f.infinity - 1) == Distance(f, f.infinity - 1, f.sign + f.infinity - 1)
  {
    DistanceIsRankGap(f, a, b);
    DistanceIsRankGap(f, f.infinity - 1, f.sign + f.infinity - 1);
  }

  lemma FormatsAreValid()
    ensures FLOAT.Valid() && FLOAT.infinity == Encoded(FLOAT, 255, 0)
    ensures DOUBLE.Valid() && DOUBLE.infinity == Encoded(DOUBLE, 2047, 0)
  {
    EncodedIsProduct(FLOAT, 255, 0);
    EncodedIsProduct(DOUBLE, 2047, 0);
  }

  lemma {:induction false} EncodedIsProduct(f: Format, e: nat, m: nat)
    ensures Encoded(f, e, m) == f.binade * e + m
  {
    if e > 0 {
      EncodedIsProduct(f, e - 1, m);
    }
  }

  /** For float, the distance is the difference in rank and at most 4278190078, far from wrapping. */
  lemma FloatDistances(a: nat, b: nat)
    requires FLOAT.Finite(a) && FLOAT.Finite(b)
    ensures FLOAT.Valid() && Distance(FLOAT, a, b) == Abs(FLOAT.Rank(a) - FLOAT.Rank(b)) <= 4278190078
  {
    FormatsAreValid();
    DistanceIsRankGap(FLOAT, a, b);
    DistanceBound(FLOAT, a, b);
  }

  /** The same for double, in 64 bits. */
  lemma DoubleDistances(a: nat, b: nat)
    requires DOUBLE.Finite(a) && DOUBLE.Finite(b)
    ensures DOUBLE.Valid() && Distance(DOUBLE, a, b) == Abs(DOUBLE.Rank(a) - DOUBLE.Rank(b)) <= 18437736874454810622
  {
    FormatsAreValid();
    DistanceIsRankGap(DOUBLE, a, b);
    DistanceBound(DOUBLE, a, b);
  }
}
