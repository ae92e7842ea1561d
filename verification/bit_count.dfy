/** Counting bits: the multiply-mask-modulo population count, and what is built on it. */
module BitCount {
  import opened Bits

  const SPREAD := 0x1001001001001
  const MARKS := 0x84210842108421

  /** The number of bits set. */
  function Ones(v: nat): nat {
    if v == 0 then 0 else v % 2 + Ones(v / 2)
  }

  /** One term of `iPopulationCount`, for twelve bits. */
  function ChunkCount(x: nat): nat {
    And(x * SPREAD, MARKS) % 0x1f
  }

  /** `iPopulationCount`, for words of up to 12n bits. */
  function PopulationCount(v: nat, n: nat): nat
    decreases n
  {
    if n == 0 then 0 else ChunkCount(And(v, 0xfff)) + PopulationCount(Shr(v, 12), n - 1)
  }

  // ----- one chunk

  function BitValue(x: nat, i: nat): (r: nat)
    ensures r <= 1
  {
    if Bit(x, i) then 1 else 0
  }

  /** Every fifth bit of p, k of them. */
  function Marks(k: nat): nat {
    if k == 0 then 0 else 1 + 2 * Pack(4, Marks(k - 1), 0)
  }

  function Picked(p: nat, k: nat): (r: nat)
    ensures r <= k
    decreases k
  {
    if k == 0 then 0 else p % 2 + Picked(Shr(p, 5), k - 1)
  }

  lemma {:induction false} AndPack(a: nat, m: nat, k: nat)
    ensures And(a, Pack(k, m, 0)) == Pack(k, And(Shr(a, k), m), 0)
  {
    if k > 0 {
      AndPack(a / 2, m, k - 1);
    }
  }

  lemma Pack4(q: nat)
    ensures Pack(4, q, 0) == 16 * q
  {
    assert Pack(3, q, 0) == 2 * Pack(2, q, 0);
    assert Pack(1, q, 0) == 2 * Pack(0, q, 0);
  }

  lemma AndMark(p: nat, m: nat)
    ensures And(p, 1 + 2 * Pack(4, m, 0)) == p % 2 + 32 * And(Shr(p, 5), m)
  {
    AndPack(p / 2, m, 4);
    Pack4(And(Shr(p / 2, 4), m));
    AndOdd(p, Pack(4, m, 0));
  }

  lemma AndOdd(a: nat, m: nat)
    ensures And(a, 1 + 2 * m) == a % 2 + 2 * And(a / 2, m)
  {
  }

  lemma AddMultiple(x: int, y: int)
    ensures (x + 31 * y) % 31 == x % 31
  {
  }

  lemma Mod31(b: nat, q: nat, r: nat)
    requires q % 31 == r % 31
    ensures (b + 32 * q) % 31 == (b + r) % 31
  {
    AddMultiple(b + r, q + (q / 31 - r / 31));
  }

  /** Modulo 31 a power of 32 is one, so the remainder adds the marked bits up. */
  lemma {:induction false} MarkedSum(p: nat, k: nat)
    ensures And(p, Marks(k)) % 31 == Picked(p, k) % 31
    decreases k
  {
    if k > 0 {
      MarkedSum(Shr(p, 5), k - 1);
      MarkedStep(p, k, And(Shr(p, 5), Marks(k - 1)));
    }
  }

  lemma MarkedStep(p: nat, k: nat, q: nat)
    requires k > 0 && q == And(Shr(p, 5), Marks(k - 1)) && q % 31 == Picked(Shr(p, 5), k - 1) % 31
    ensures And(p, Marks(k)) % 31 == Picked(p, k) % 31
  {
    AndMark(p, Marks(k - 1));
    Mod31(p % 2, q, Picked(Shr(p, 5), k - 1));
  }

  lemma MarkedRemainder(p: nat, k: nat)
    requires k < 31
    ensures And(p, Marks(k)) % 31 == Picked(p, k)
  {
    MarkedSum(p, k);
  }

  /** n copies of twelve bits. */
  function Copies(x: nat, n: nat): nat {
    if n == 0 then 0 else x + 4096 * Copies(x, n - 1)
  }

  lemma {:induction false} BitAbove(x: nat, y: nat, k: nat, j: nat)
    requires x < Pow2(k)
    ensures Bit(x + Pow2(k) * y, j) == if j < k then Bit(x, j) else Bit(y, j - k)
  {
    if k > 0 {
      Halved(x, y, k);
      if j > 0 {
        BitAbove(x / 2, y, k - 1, j - 1);
      }
    }
  }

  lemma Halved(x: nat, y: nat, k: nat)
    requires k > 0
    ensures (x + Pow2(k) * y) / 2 == x / 2 + Pow2(k - 1) * y && (x + Pow2(k) * y) % 2 == x % 2
  {
    assert Pow2(k) * y == 2 * (Pow2(k - 1) * y);
  }

  lemma {:induction false} CopiesBit(x: nat, n: nat, j: nat)
    requires x < 4096 && j < 12 * n
    ensures Bit(Copies(x, n), j) == Bit(x, j % 12)
  {
    CopyBit(x, n, j);
    if j >= 12 {
      assert j % 12 == (j - 12) % 12;
      CopiesBit(x, n - 1, j - 12);
    }
  }

  lemma CopyBit(x: nat, n: nat, j: nat)
    requires x < 4096 && n > 0
    ensures Bit(Copies(x, n), j) == if j < 12 then Bit(x, j) else Bit(Copies(x, n - 1), j - 12)
  {
    assert Pow2(12) == 4096;
    BitAbove(x, Copies(x, n - 1), 12, j);
  }

  /** The bits `Picked` takes, each by its position. */
  function PickedFrom(p: nat, j: nat, k: nat): nat
    decreases k
  {
    if k == 0 then 0 else BitValue(p, j) + PickedFrom(p, j + 5, k - 1)
  }

  lemma {:induction false} PickedFromShift(p: nat, j: nat, k: nat)
    ensures PickedFrom(Shr(p, 5), j, k) == PickedFrom(p, j + 5, k)
    decreases k
  {
    if k > 0 {
      ShrBit(p, 5, j);
      PickedFromShift(p, j + 5, k - 1);
    }
  }

  lemma {:induction false} PickedIsFrom(p: nat, k: nat)
    ensures Picked(p, k) == PickedFrom(p, 0, k)
    decreases k
  {
    if k > 0 {
      PickedIsFrom(Shr(p, 5), k - 1);
      PickedFromShift(p, 0, k - 1);
    }
  }

  /** The same positions, taken modulo twelve in the original bits. */
  function Strided(x: nat, j: nat, k: nat): nat
    decreases k
  {
    if k == 0 then 0 else BitValue(x, j % 12) + Strided(x, j + 5, k - 1)
  }

  lemma {:induction false} PickedFromCopies(x: nat, n: nat, j: nat, k: nat)
    requires x < 4096 && (k > 0 ==> j + 5 * (k - 1) < 12 * n)
    ensures PickedFrom(Copies(x, n), j, k) == Strided(x, j, k)
    decreases k
  {
    if k > 0 {
      CopiesBit(x, n, j);
      PickedFromCopies(x, n, j + 5, k - 1);
    }
  }

  function BitSum(x: nat, n: nat): nat {
    if n == 0 then 0 else BitSum(x, n - 1) + BitValue(x, n - 1)
  }

  /** Five and twelve have no common factor, so twelve strides visit every bit once. */
  lemma StridesVisitAll(x: nat)
    ensures Strided(x, 0, 12) == BitSum(x, 12)
  {
    assert Strided(x, 40, 4) == BitValue(x, 4) + BitValue(x, 9) + BitValue(x, 2) + BitValue(x, 7);
    assert Strided(x, 20, 8)
      == BitValue(x, 8) + BitValue(x, 1) + BitValue(x, 6) + BitValue(x, 11) + Strided(x, 40, 4);
    assert BitSum(x, 1) == BitSum(x, 0) + BitValue(x, 0) == BitValue(x, 0);
    assert BitSum(x, 2) == BitValue(x, 0) + BitValue(x, 1);
    assert BitSum(x, 4) == BitSum(x, 2) + BitValue(x, 2) + BitValue(x, 3);
    assert BitSum(x, 6) == BitSum(x, 4) + BitValue(x, 4) + BitValue(x, 5);
    assert BitSum(x, 8) == BitSum(x, 6) + BitValue(x, 6) + BitValue(x, 7);
    assert BitSum(x, 10) == BitSum(x, 8) + BitValue(x, 8) + BitValue(x, 9);
  }

  lemma {:induction false} BitSumHalved(x: nat, n: nat)
    ensures BitSum(x, n + 1) == x % 2 + BitSum(x / 2, n)
  {
    if n > 0 {
      BitSumHalved(x, n - 1);
    }
  }

  lemma {:induction false} OnesIsBitSum(x: nat, n: nat)
    requires x < Pow2(n)
    ensures Ones(x) == BitSum(x, n)
  {
    if n > 0 {
      BitSumHalved(x, n - 1);
      OnesIsBitSum(x / 2, n - 1);
    }
  }

  lemma MarksAreMask()
    ensures Marks(12) == MARKS
  {
    assert Marks(4) == 0x8421;
    assert Marks(8) == 0x842108421;
  }

  lemma FiveCopies(x: nat)
    ensures x * SPREAD == Copies(x, 5)
  {
    assert Copies(x, 2) == x + 4096 * Copies(x, 1) && Copies(x, 1) == x;
    assert Copies(x, 4) == x + 4096 * Copies(x, 3) && Copies(x, 3) == x + 4096 * Copies(x, 2);
  }

  lemma TwelveBits(x: nat)
    ensures x < Pow2(12) <==> x < 4096
  {
  }

  lemma PickedCopies(x: nat, n: nat, k: nat)
    requires x < 4096 && (k > 0 ==> 5 * (k - 1) < 12 * n)
    ensures Picked(Copies(x, n), k) == Strided(x, 0, k)
  {
    PickedIsFrom(Copies(x, n), k);
    PickedFromCopies(x, n, 0, k);
  }

  /** k marks over n copies of twelve bits: the remainder adds up the bits at every fifth position. */
  lemma MarkedCopies(x: nat, n: nat, k: nat)
    requires x < 4096 && k < 31 && (k > 0 ==> 5 * (k - 1) < 12 * n)
    ensures And(Copies(x, n), Marks(k)) % 31 == Strided(x, 0, k)
  {
    MarkedRemainder(Copies(x, n), k);
    PickedCopies(x, n, k);
  }

  /** What the multiplication, the mask and the remainder come to. */
  lemma ChunkCountIsOnes(x: nat)
    requires x < 4096
    ensures ChunkCount(x) == Ones(x)
  {
    FiveCopies(x);
    MarksAreMask();
    MarkedCopies(x, 5, 12);
    StridesVisitAll(x);
    TwelveBits(x);
    OnesIsBitSum(x, 12);
  }

  // ----- whole words

  lemma {:induction false} OnesSplit(v: nat, k: nat)
    ensures Ones(v) == Ones(Low(v, k)) + Ones(Shr(v, k))
  {
    if k > 0 {
      OnesSplit(v / 2, k - 1);
    }
  }

  lemma LowTwelve(v: nat)
    ensures And(v, 0xfff) == Low(v, 12) < 4096
  {
    assert Pow2(12) == 4096;
    AndMask(v, 12);
  }

  lemma FirstChunk(v: nat)
    ensures ChunkCount(And(v, 0xfff)) + Ones(Shr(v, 12)) == Ones(v)
  {
    LowTwelve(v);
    ChunkCountIsOnes(Low(v, 12));
    OnesSplit(v, 12);
  }

  /** The population count is the number of bits set. */
  lemma {:induction false} PopulationCountIsOnes(v: nat, n: nat)
    requires v < Pow2(12 * n)
    ensures PopulationCount(v, n) == Ones(v)
    decreases n
  {
    if n > 0 {
      FirstChunk(v);
      ShrBound(v, 12, 12 * n);
      PopulationCountIsOnes(Shr(v, 12), n - 1);
    }
  }

  // ----- leading zeros

  function BitLength(v: nat): nat {
    if v == 0 then 0 else 1 + BitLength(v / 2)
  }

  /** A number of length l lies from 2^(l-1) up to 2^l, and its top bit is set. */
  lemma {:induction false} LengthBounds(v: nat)
    ensures v < Pow2(BitLength(v))
    ensures v > 0 ==> BitLength(v) > 0 && Pow2(BitLength(v) - 1) <= v && Bit(v, BitLength(v) - 1)
  {
    if v > 1 {
      LengthBounds(v / 2);
    }
  }

  lemma {:induction false} LengthIsLeast(v: nat, m: nat)
    ensures v < Pow2(m) <==> BitLength(v) <= m
  {
    if v > 0 && m > 0 {
      LengthIsLeast(v / 2, m - 1);
    }
  }

  /** The s highest of the low l bits are set. */
  ghost predicate TopRun(v: nat, l: nat, s: nat) {
    && v < Pow2(l)
    && (forall i: nat :: i < l <= i + s ==> Bit(v, i))
  }

  /** Or-ing a word with itself shifted down by the length of the run doubles the run. */
  lemma RunDoubles(v: nat, l: nat, s: nat)
    requires TopRun(v, l, s)
    ensures TopRun(Or(v, Shr(v, s)), l, 2 * s)
  {
    ShrShrinks(v, s);
    OrBound(v, Shr(v, s), l);
    var w := Or(v, Shr(v, s));
    forall i: nat | i < l <= i + 2 * s
      ensures Bit(w, i)
    {
      OrBit(v, Shr(v, s), i);
      ShrBit(v, s, i);
      assert i + s < l ==> Bit(v, i + s);
    }
  }

  lemma FullRun(v: nat, l: nat, s: nat)
    requires TopRun(v, l, s) && l <= s
    ensures v == Pow2(l) - 1
  {
    forall i: nat | i < l
      ensures Bit(v, i) == Bit(Pow2(l) - 1, i)
    {
      MaskBit(l, i);
    }
    SameBits(v, Pow2(l) - 1, l);
  }

  lemma {:induction false} OnesOfField(l: nat, m: nat)
    requires l <= m
    ensures Pow2(l) <= Pow2(m) && Ones(Pow2(m) - Pow2(l)) == m - l
    decreases m
  {
    Pow2Mono(l, m);
    if l < m {
      var x := Pow2(m) - Pow2(l);
      if l == 0 {
        assert x / 2 == Pow2(m - 1) - 1;
        OnesOfField(0, m - 1);
      } else {
        assert x / 2 == Pow2(m - 1) - Pow2(l - 1);
        OnesOfField(l - 1, m - 1);
      }
    }
  }

  /** The smearing of a word of m bits by 1, 2, 4, ..., shared by the two functions below. */
  method Smear(v: nat, m: nat) returns (r: nat)
    requires v < Pow2(m)
    ensures r == Pow2(BitLength(v)) - 1 && BitLength(v) <= m
  {
    ghost var l := BitLength(v);
    LengthBounds(v);
    LengthIsLeast(v, m);
    r := v;
    var s := 1;
    while s < m
      invariant s >= 1 && TopRun(r, l, s)
    {
      RunDoubles(r, l, s);
      r := Or(r, Shr(r, s));
      s := 2 * s;
    }
    FullRun(r, l, s);
  }

  /** How many zero bits a word of m bits has above its highest bit set. */
  function LeadingZeros(v: nat, m: nat): (c: nat)
    requires v < Pow2(m)
    ensures v == 0 ==> c == m
    ensures v > 0 ==> c < m && Pow2(m - c - 1) <= v < Pow2(m - c)
  {
    LengthBounds(v);
    LengthIsLeast(v, m);
    m - BitLength(v)
  }

  /** How many chunks of twelve bits `iPopulationCount` has for a word of m bits. */
  function Chunks(m: nat): nat {
    (m + 11) / 12
  }

  /** `iCountLeadingZeroBits` of a word of m bits. */
  method CountLeadingZeroBits(v: nat, m: nat) returns (c: nat)
    requires v < Pow2(m)
    ensures c == LeadingZeros(v, m)
    ensures v == 0 ==> c == m
    ensures v > 0 ==> c < m && Pow2(m - c - 1) <= v < Pow2(m - c)
  {
    var r := Smear(v, m);
    Pow2Mono(BitLength(v), m);
    c := PopulationCount(Not(m, r), Chunks(m));
    Pow2Mono(m, 12 * Chunks(m));
    PopulationCountIsOnes(Not(m, r), Chunks(m));
    OnesOfField(BitLength(v), m);
    LengthBounds(v);
  }

  /** `iNextPowerOfTwo` of a word of m bits: two to the m less the leading zeros, modulo 2^m; that is, the least
      power of two above v, or 0 when the word cannot hold it. */
  method NextPowerOfTwo(v: nat, m: nat) returns (r: nat)
    requires m > 0 && v < Pow2(m)
    ensures r == Low(Pow2(m - LeadingZeros(v, m)), m)
    ensures r == 0 <==> v >= Pow2(m - 1)
    ensures r != 0 ==> r == Pow2(BitLength(v)) && v < r && forall k: nat :: v < Pow2(k) ==> r <= Pow2(k)
  {
    r := Smear(v, m);
    r := if r + 1 == Pow2(m) then 0 else r + 1;
    LengthBounds(v);
    LengthIsLeast(v, m - 1);
    if BitLength(v) < m {
      Pow2Mono(BitLength(v), m - 1);
      LowOfSmall(Pow2(BitLength(v)), m);
    } else {
      LengthIsLeast(v, m);
      LowOfPow2(m);
    }
    forall k: nat | v < Pow2(k)
      ensures Pow2(BitLength(v)) <= Pow2(k)
    {
      LengthIsLeast(v, k);
      Pow2Mono(BitLength(v), k);
    }
  }

  // ----- trailing zeros

  /** The lowest bit set in v is bit c: the largest power of two dividing v is 2^c. */
  predicate TrailingZeros32(v: bv32, c: bv6) {
    c < 32 && (v >> c) & 1 == 1 && v & ((1 << c) - 1) == 0
  }

  predicate TrailingZeros64(v: bv64, c: bv7) {
    c < 64 && (v >> c) & 1 == 1 && v & ((1 << c) - 1) == 0
  }

  /** `iCountTrailingZeroBits` of 32 bits. */
  method CountTrailingZeroBits32(v: bv32) returns (c: bv6)
    ensures v == 0 ==> c == 32
    ensures v != 0 ==> TrailingZeros32(v, c)
  {
    var w := v & (0 - v);
    c := 32;
    if w != 0 { c := c - 1; }
    if w & 0x0000FFFF != 0 { c := c - 16; }
    if w & 0x00FF00FF != 0 { c := c - 8; }
    if w & 0x0F0F0F0F != 0 { c := c - 4; }
    if w & 0x33333333 != 0 { c := c - 2; }
    if w & 0x55555555 != 0 { c := c - 1; }
  }

  lemma LowHalf(v: bv64, c: bv6)
    requires TrailingZeros32((v & 0xffff_ffff) as bv32, c)
    ensures TrailingZeros64(v, c as bv7)
  {
  }

  lemma HighHalf(v: bv64, c: bv6)
    requires v & 0xffff_ffff == 0 && TrailingZeros32((v >> 32) as bv32, c)
    ensures TrailingZeros64(v, 32 + c as bv7)
  {
  }

  /** `iCountTrailingZeroBits` of 64 bits. */
  method CountTrailingZeroBits64(v: bv64) returns (c: bv7)
    ensures v == 0 ==> c == 64
    ensures v != 0 ==> TrailingZeros64(v, c)
  {
    var x := (v & 0xffff_ffff) as bv32;
    var d := CountTrailingZeroBits32(if x != 0 then x else (v >> 32) as bv32);
    c := if x != 0 then d as bv7 else 32 + d as bv7;
    if x != 0 {
      LowHalf(v, d);
    } else if v != 0 {
      HighHalf(v, d);
    }
  }
}
