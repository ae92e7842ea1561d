/** Bitwise operators on natural numbers. Every definition peels off the lowest bit, so that proofs stay linear. */
module Bits {

  function Pow2(k: nat): (p: nat)
    ensures p >= 1
  {
    if k == 0 then 1 else 2 * Pow2(k - 1)
  }

  function And(a: nat, b: nat): nat {
    if a == 0 || b == 0 then 0
    else (if a % 2 == 1 && b % 2 == 1 then 1 else 0) + 2 * And(a / 2, b / 2)
  }

  function Or(a: nat, b: nat): nat {
    if a == 0 then b
    else if b == 0 then a
    else (if a % 2 == 1 || b % 2 == 1 then 1 else 0) + 2 * Or(a / 2, b / 2)
  }

  /** `w >> k` */
  function Shr(w: nat, k: nat): nat {
    if k == 0 then w else Shr(w / 2, k - 1)
  }

  /** The low k bits of w. */
  function Low(w: nat, k: nat): (r: nat)
    ensures r < Pow2(k)
  {
    if k == 0 then 0 else w % 2 + 2 * Low(w / 2, k - 1)
  }

  /** The word whose low k bits are those of `low` and whose remaining bits are `high`. */
  function Pack(k: nat, high: nat, low: nat): nat {
    if k == 0 then high else low % 2 + 2 * Pack(k - 1, high, low / 2)
  }

  function Xor(a: nat, b: nat): nat {
    if a == 0 then b
    else if b == 0 then a
    else (if a % 2 != b % 2 then 1 else 0) + 2 * Xor(a / 2, b / 2)
  }

  /** `~x` in a word of m bits. */
  function Not(m: nat, x: nat): nat
    requires x < Pow2(m)
  {
    Pow2(m) - 1 - x
  }

  /** `x << k` in a word of m bits. */
  function Shl(m: nat, x: nat, k: nat): nat {
    Low(Pack(k, x, 0), m)
  }

  /** Bit i of w. */
  predicate Bit(w: nat, i: nat) {
    if i == 0 then w % 2 == 1 else Bit(w / 2, i - 1)
  }

  lemma {:induction false} Pow2Mono(k: nat, m: nat)
    requires k <= m
    ensures Pow2(k) <= Pow2(m)
  {
    if k < m {
      Pow2Mono(k, m - 1);
    }
  }

  lemma PackHalves(k: nat, high: nat, low: nat)
    requires k > 0
    ensures Pack(k, high, low) / 2 == Pack(k - 1, high, low / 2) && Pack(k, high, low) % 2 == low % 2
  {
  }

  lemma {:induction false} PackParts(k: nat, high: nat, low: nat)
    requires low < Pow2(k)
    ensures Low(Pack(k, high, low), k) == low && Shr(Pack(k, high, low), k) == high
  {
    if k > 0 {
      PackHalves(k, high, low);
      PackParts(k - 1, high, low / 2);
    }
  }

  lemma {:induction false} PackUnpacked(k: nat, w: nat)
    ensures Pack(k, Shr(w, k), Low(w, k)) == w
  {
    if k > 0 {
      PackUnpacked(k - 1, w / 2);
    }
  }

  lemma {:induction false} LowOfSmall(w: nat, k: nat)
    requires w < Pow2(k)
    ensures Low(w, k) == w
  {
    if k > 0 {
      LowOfSmall(w / 2, k - 1);
    }
  }

  lemma {:induction false} LowOfPow2(k: nat)
    ensures Low(Pow2(k), k) == 0
  {
    if k > 0 {
      LowOfPow2(k - 1);
    }
  }

  lemma {:induction false} ShrBound(w: nat, k: nat, m: nat)
    requires k <= m
    ensures w < Pow2(m) <==> Shr(w, k) < Pow2(m - k)
  {
    if k > 0 {
      ShrBound(w / 2, k - 1, m - 1);
    }
  }

  lemma {:induction false} ShrAddPow2(w: nat, k: nat)
    ensures Shr(w + Pow2(k), k) == Shr(w, k) + 1
  {
    if k > 0 {
      assert (w + Pow2(k)) / 2 == w / 2 + Pow2(k - 1);
      ShrAddPow2(w / 2, k - 1);
    }
  }

  /** `x & (2^m - 1)` keeps the low m bits. */
  lemma {:induction false} AndMask(x: nat, m: nat)
    ensures And(x, Pow2(m) - 1) == Low(x, m)
  {
    if m > 0 {
      var b := Pow2(m) - 1;
      assert b % 2 == 1 && b / 2 == Pow2(m - 1) - 1;
      AndMask(x / 2, m - 1);
    }
  }

  // ----- what each operator does to one bit

  lemma {:induction false} AndBit(a: nat, b: nat, i: nat)
    ensures Bit(And(a, b), i) <==> Bit(a, i) && Bit(b, i)
  {
    if i > 0 {
      AndBit(a / 2, b / 2, i - 1);
    }
    if a == 0 || b == 0 {
      ZeroBit(i);
    }
  }

  lemma OrHalves(a: nat, b: nat)
    ensures Or(a, b) / 2 == Or(a / 2, b / 2) && Or(a, b) % 2 == if a % 2 == 1 then 1 else b % 2
  {
  }

  lemma {:induction false} OrBit(a: nat, b: nat, i: nat)
    ensures Bit(Or(a, b), i) <==> Bit(a, i) || Bit(b, i)
  {
    OrHalves(a, b);
    if i > 0 {
      OrBit(a / 2, b / 2, i - 1);
    }
  }

  lemma {:induction false} XorBit(a: nat, b: nat, i: nat)
    ensures Bit(Xor(a, b), i) <==> Bit(a, i) != Bit(b, i)
  {
    ZeroBit(i);
    if i > 0 {
      XorBit(a / 2, b / 2, i - 1);
    }
  }

  lemma {:induction false} ZeroBit(i: nat)
    ensures !Bit(0, i)
  {
    if i > 0 {
      ZeroBit(i - 1);
    }
  }

  lemma {:induction false} NotBit(m: nat, x: nat, i: nat)
    requires x < Pow2(m) && i < m
    ensures Bit(Not(m, x), i) <==> !Bit(x, i)
  {
    if i > 0 {
      assert Not(m, x) / 2 == Not(m - 1, x / 2);
      NotBit(m - 1, x / 2, i - 1);
    }
  }

  lemma {:induction false} ShrBit(w: nat, k: nat, i: nat)
    ensures Bit(Shr(w, k), i) == Bit(w, i + k)
  {
    if k > 0 {
      ShrBit(w / 2, k - 1, i);
    }
  }

  lemma {:induction false} LowBit(w: nat, k: nat, i: nat)
    ensures Bit(Low(w, k), i) <==> i < k && Bit(w, i)
  {
    if k == 0 {
      ZeroBit(i);
    } else if i > 0 {
      LowBit(w / 2, k - 1, i - 1);
    }
  }

  lemma {:induction false} PackBit(k: nat, high: nat, low: nat, i: nat)
    ensures Bit(Pack(k, high, low), i) <==> if i < k then Bit(low, i) else Bit(high, i - k)
  {
    if k > 0 && i > 0 {
      PackBit(k - 1, high, low / 2, i - 1);
    }
  }

  lemma ShlBit(m: nat, x: nat, k: nat, i: nat)
    ensures Bit(Shl(m, x, k), i) <==> k <= i < m && Bit(x, i - k)
  {
    LowBit(Pack(k, x, 0), m, i);
    PackBit(k, x, 0, i);
    ZeroBit(i);
  }

  lemma {:induction false} MaskBit(m: nat, i: nat)
    ensures Bit(Pow2(m) - 1, i) <==> i < m
  {
    if m == 0 {
      ZeroBit(i);
    } else {
      assert (Pow2(m) - 1) / 2 == Pow2(m - 1) - 1;
      if i > 0 {
        MaskBit(m - 1, i - 1);
      }
    }
  }

  lemma {:induction false} HighBit(x: nat, m: nat, i: nat)
    requires x < Pow2(m) && i >= m
    ensures !Bit(x, i)
  {
    if m == 0 {
      ZeroBit(i);
    } else {
      HighBit(x / 2, m - 1, i - 1);
    }
  }

  /** A word is its bits. */
  lemma {:induction false} SameBits(a: nat, b: nat, m: nat)
    requires a < Pow2(m) && b < Pow2(m)
    requires forall i: nat :: i < m ==> Bit(a, i) == Bit(b, i)
    ensures a == b
  {
    if m > 0 {
      assert Bit(a, 0) == Bit(b, 0);
      forall i: nat | i < m - 1
        ensures Bit(a / 2, i) == Bit(b / 2, i)
      {
        assert Bit(a, i + 1) == Bit(b, i + 1);
      }
      SameBits(a / 2, b / 2, m - 1);
    }
  }

  lemma {:induction false} AndBound(a: nat, b: nat)
    ensures And(a, b) <= a && And(a, b) <= b
  {
    if a > 0 && b > 0 {
      AndBound(a / 2, b / 2);
    }
  }

  lemma {:induction false} OrBound(a: nat, b: nat, m: nat)
    requires a < Pow2(m) && b < Pow2(m)
    ensures Or(a, b) < Pow2(m)
  {
    if m > 0 {
      OrBound(a / 2, b / 2, m - 1);
    }
  }

  lemma {:induction false} XorBound(a: nat, b: nat, m: nat)
    requires a < Pow2(m) && b < Pow2(m)
    ensures Xor(a, b) < Pow2(m)
  {
    if m > 0 {
      XorBound(a / 2, b / 2, m - 1);
    }
  }

  lemma {:induction false} ShrShrinks(w: nat, k: nat)
    ensures Shr(w, k) <= w
  {
    if k > 0 {
      ShrShrinks(w / 2, k - 1);
    }
  }

  lemma {:induction false} PackBound(k: nat, high: nat, low: nat, m: nat)
    requires k <= m && high < Pow2(m - k)
    ensures Pack(k, high, low) < Pow2(m)
  {
    if k > 0 {
      PackBound(k - 1, high, low / 2, m - 1);
    }
  }

  lemma {:induction false} FieldMaskBit(k: nat, m: nat, i: nat)
    requires k <= m
    ensures Pow2(k) <= Pow2(m)
    ensures Bit(Pow2(m) - Pow2(k), i) <==> k <= i < m
    decreases k
  {
    Pow2Mono(k, m);
    if k == 0 {
      MaskBit(m, i);
    } else {
      FieldMaskBit(k - 1, m - 1, if i == 0 then 0 else i - 1);
      assert (Pow2(m) - Pow2(k)) / 2 == Pow2(m - 1) - Pow2(k - 1);
    }
  }

  // ----- fields

  /** One bit of the word described by OrField. */
  lemma OrFieldBit(low: nat, x: nat, k: nat, m: nat, i: nat)
    requires k <= m && low < Pow2(k)
    ensures Pow2(k) <= Pow2(m)
    ensures Bit(Or(low, And(x, Pow2(m) - Pow2(k))), i) == Bit(Pack(k, Low(Shr(x, k), m - k), low), i)
  {
    FieldMaskBit(k, m, i);
    OrBit(low, And(x, Pow2(m) - Pow2(k)), i);
    AndBit(x, Pow2(m) - Pow2(k), i);
    PackBit(k, Low(Shr(x, k), m - k), low, i);
    if i >= k {
      HighBit(low, k, i);
      LowBit(Shr(x, k), m - k, i - k);
      ShrBit(x, k, i - k);
    }
  }

  /** `low | (x & (2^m - 2^k))` puts `low` under bits k..m-1 of x, when `low` has only k bits. */
  lemma OrField(low: nat, x: nat, k: nat, m: nat)
    requires k <= m && low < Pow2(k)
    ensures Pow2(k) <= Pow2(m)
    ensures Or(low, And(x, Pow2(m) - Pow2(k))) == Pack(k, Low(Shr(x, k), m - k), low)
  {
    Pow2Mono(k, m);
    AndBound(x, Pow2(m) - Pow2(k));
    OrBound(low, And(x, Pow2(m) - Pow2(k)), m);
    PackBound(k, Low(Shr(x, k), m - k), low, m);
    var a, b := Or(low, And(x, Pow2(m) - Pow2(k))), Pack(k, Low(Shr(x, k), m - k), low);
    forall i: nat | i < m
      ensures Bit(a, i) == Bit(b, i)
    {
      OrFieldBit(low, x, k, m, i);
    }
    SameBits(a, b, m);
  }

  /** The same field of a word that fits in m bits keeps everything above bit k. */
  lemma OrHigh(low: nat, x: nat, k: nat, m: nat)
    requires k <= m && low < Pow2(k) && x < Pow2(m)
    ensures Pow2(k) <= Pow2(m)
    ensures Or(low, And(x, Pow2(m) - Pow2(k))) == Pack(k, Shr(x, k), low)
  {
    OrField(low, x, k, m);
    ShrBound(x, k, m);
    LowOfSmall(Shr(x, k), m - k);
  }

  /** Adding 2^k before taking the field advances it by one, wrapping to 0. */
  lemma OrNextField(low: nat, x: nat, k: nat, m: nat)
    requires k <= m && low < Pow2(k) && x < Pow2(m)
    ensures Pow2(k) <= Pow2(m) && Shr(x, k) < Pow2(m - k)
    ensures Or(low, And(x + Pow2(k), Pow2(m) - Pow2(k)))
            == Pack(k, if Shr(x, k) + 1 == Pow2(m - k) then 0 else Shr(x, k) + 1, low)
  {
    OrField(low, x + Pow2(k), k, m);
    ShrAddPow2(x, k);
    ShrBound(x, k, m);
    LowOfPow2(m - k);
    if Shr(x, k) + 1 < Pow2(m - k) {
      LowOfSmall(Shr(x, k) + 1, m - k);
    }
  }

  // ----- numbers in a field

  lemma DoubledProduct(p: nat, x: nat)
    ensures 2 * p * x == 2 * (p * x)
  {
  }

  /** The low bits are the remainder by a power of two. */
  lemma {:induction false} LowIsRemainder(x: nat, k: nat)
    ensures x == Low(x, k) + Pow2(k) * Shr(x, k)
  {
    if k > 0 {
      LowIsRemainder(x / 2, k - 1);
      DoubledProduct(Pow2(k - 1), Shr(x, k));
    }
  }
}
