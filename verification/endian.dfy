/** Byte swapping and the bitfields kept in byte-swapped words, for words of n bytes. */
module Endian {
  import opened Bits

  // ----- ibswap

  /** One term of `ibswap`: byte j of the word, moved to the place of its mirror image. */
  function MovedByte(n: nat, x: nat, j: nat): nat
    requires j < n
  {
    var masked := And(x, Shl(8 * n, 0xff, 8 * j));
    if j < n / 2 then Shl(8 * n, masked, 8 * (n - 1 - 2 * j)) else Shr(masked, 8 * (2 * j + 1 - n))
  }

  /** The first m terms, or-ed together. */
  function MovedBytes(n: nat, x: nat, m: nat): nat
    requires m <= n
  {
    if m == 0 then 0 else Or(MovedBytes(n, x, m - 1), MovedByte(n, x, m - 1))
  }

  function ByteSwap(n: nat, x: nat): nat {
    MovedBytes(n, x, n)
  }

  /** Where bit i of a swapped word comes from. */
  function Mirror(n: nat, i: nat): (r: nat)
    requires i < 8 * n
    ensures r < 8 * n && Mirrored(n, i, r)
  {
    8 * (n - 1 - i / 8) + i % 8
  }

  /** i and r are the same bit of bytes that mirror each other. */
  predicate Mirrored(n: nat, i: nat, r: nat) {
    i / 8 + r / 8 + 1 == n && i % 8 == r % 8
  }

  lemma ByteMaskBit(n: nat, j: nat, i: nat)
    requires j < n
    ensures Bit(Shl(8 * n, 0xff, 8 * j), i) <==> i / 8 == j
  {
    ShlBit(8 * n, 0xff, 8 * j, i);
    if i >= 8 * j {
      assert 0xff == Pow2(8) - 1;
      MaskBit(8, i - 8 * j);
    }
  }

  /** The masks are those of the source: 0xff00, for one, is 2^16 - 2^8. */
  lemma ByteMaskValue(n: nat, j: nat)
    requires j < n
    ensures Pow2(8 * j) <= Pow2(8 * j + 8) && Shl(8 * n, 0xff, 8 * j) == Pow2(8 * j + 8) - Pow2(8 * j)
  {
    Pow2Mono(8 * j, 8 * j + 8);
    Pow2Mono(8 * j + 8, 8 * n);
    var a, b := Shl(8 * n, 0xff, 8 * j), Pow2(8 * j + 8) - Pow2(8 * j);
    forall i: nat | i < 8 * n
      ensures Bit(a, i) == Bit(b, i)
    {
      ByteMaskBit(n, j, i);
      FieldMaskBit(8 * j, 8 * j + 8, i);
    }
    SameBits(a, b, 8 * n);
  }

  lemma MovedByteBit(n: nat, x: nat, j: nat, i: nat)
    requires j < n && i < 8 * n
    ensures Bit(MovedByte(n, x, j), i) <==> i / 8 + j + 1 == n && Bit(x, Mirror(n, i))
  {
    var mask := Shl(8 * n, 0xff, 8 * j);
    var masked := And(x, mask);
    if j < n / 2 {
      var k := 8 * (n - 1 - 2 * j);
      ShlBit(8 * n, masked, k, i);
      if i >= k {
        AndBit(x, mask, i - k);
        ByteMaskBit(n, j, i - k);
      }
    } else {
      var k := 8 * (2 * j + 1 - n);
      ShrBit(masked, k, i);
      AndBit(x, mask, i + k);
      ByteMaskBit(n, j, i + k);
    }
  }

  lemma {:induction false} MovedBytesBit(n: nat, x: nat, m: nat, i: nat)
    requires m <= n && i < 8 * n
    ensures Bit(MovedBytes(n, x, m), i) <==> n <= i / 8 + m && Bit(x, Mirror(n, i))
  {
    if m == 0 {
      ZeroBit(i);
    } else {
      OrBit(MovedBytes(n, x, m - 1), MovedByte(n, x, m - 1), i);
      MovedBytesBit(n, x, m - 1, i);
      MovedByteBit(n, x, m - 1, i);
    }
  }

  lemma MovedByteBound(n: nat, x: nat, j: nat)
    requires j < n && x < Pow2(8 * n)
    ensures MovedByte(n, x, j) < Pow2(8 * n)
  {
    var mask := Shl(8 * n, 0xff, 8 * j);
    AndBound(x, mask);
    if j >= n / 2 {
      ShrShrinks(And(x, mask), 8 * (2 * j + 1 - n));
    }
  }

  lemma {:induction false} MovedBytesBound(n: nat, x: nat, m: nat)
    requires m <= n && x < Pow2(8 * n)
    ensures MovedBytes(n, x, m) < Pow2(8 * n)
  {
    if m > 0 {
      MovedBytesBound(n, x, m - 1);
      MovedByteBound(n, x, m - 1);
      OrBound(MovedBytes(n, x, m - 1), MovedByte(n, x, m - 1), 8 * n);
    }
  }

  /** Swapping mirrors the bytes. */
  lemma SwapMirrors(n: nat, x: nat, i: nat)
    requires x < Pow2(8 * n) && i < 8 * n
    ensures ByteSwap(n, x) < Pow2(8 * n)
    ensures Bit(ByteSwap(n, x), i) == Bit(x, Mirror(n, i))
  {
    MovedBytesBound(n, x, n);
    MovedBytesBit(n, x, n, i);
  }

  lemma MirrorTwice(n: nat, i: nat)
    requires i < 8 * n
    ensures Mirror(n, Mirror(n, i)) == i
  {
  }

  lemma SwapTwiceBit(n: nat, x: nat, i: nat)
    requires x < Pow2(8 * n) && i < 8 * n
    ensures Bit(ByteSwap(n, ByteSwap(n, x)), i) == Bit(x, i)
  {
    MirrorTwice(n, i);
    SwapMirrors(n, x, Mirror(n, i));
    SwapMirrors(n, ByteSwap(n, x), i);
  }

  lemma SwapIsInvolution(n: nat, x: nat)
    requires x < Pow2(8 * n)
    ensures ByteSwap(n, x) < Pow2(8 * n) && ByteSwap(n, ByteSwap(n, x)) == x
  {
    var y := ByteSwap(n, x);
    MovedBytesBound(n, x, n);
    MovedBytesBound(n, y, n);
    forall i: nat | i < 8 * n
      ensures Bit(ByteSwap(n, y), i) == Bit(x, i)
    {
      SwapTwiceBit(n, x, i);
    }
    SameBits(ByteSwap(n, y), x, 8 * n);
  }

  lemma SwapOfAnd(n: nat, x: nat, y: nat)
    requires x < Pow2(8 * n) && y < Pow2(8 * n)
    ensures ByteSwap(n, And(x, y)) == And(ByteSwap(n, x), ByteSwap(n, y))
  {
    var a, b := ByteSwap(n, x), ByteSwap(n, y);
    AndBound(x, y);
    AndBound(a, b);
    MovedBytesBound(n, x, n);
    MovedBytesBound(n, And(x, y), n);
    forall i: nat | i < 8 * n
      ensures Bit(ByteSwap(n, And(x, y)), i) == Bit(And(a, b), i)
    {
      SwapMirrors(n, x, i);
      SwapMirrors(n, y, i);
      SwapMirrors(n, And(x, y), i);
      AndBit(x, y, Mirror(n, i));
      AndBit(a, b, i);
    }
    SameBits(ByteSwap(n, And(x, y)), And(a, b), 8 * n);
  }

  lemma SwapOfOr(n: nat, x: nat, y: nat)
    requires x < Pow2(8 * n) && y < Pow2(8 * n)
    ensures ByteSwap(n, Or(x, y)) == Or(ByteSwap(n, x), ByteSwap(n, y))
  {
    var a, b := ByteSwap(n, x), ByteSwap(n, y);
    OrBound(x, y, 8 * n);
    MovedBytesBound(n, x, n);
    MovedBytesBound(n, y, n);
    OrBound(a, b, 8 * n);
    MovedBytesBound(n, Or(x, y), n);
    forall i: nat | i < 8 * n
      ensures Bit(ByteSwap(n, Or(x, y)), i) == Bit(Or(a, b), i)
    {
      SwapMirrors(n, x, i);
      SwapMirrors(n, y, i);
      SwapMirrors(n, Or(x, y), i);
      OrBit(x, y, Mirror(n, i));
      OrBit(a, b, i);
    }
    SameBits(ByteSwap(n, Or(x, y)), Or(a, b), 8 * n);
  }

  lemma SwapOfXor(n: nat, x: nat, y: nat)
    requires x < Pow2(8 * n) && y < Pow2(8 * n)
    ensures ByteSwap(n, Xor(x, y)) == Xor(ByteSwap(n, x), ByteSwap(n, y))
  {
    var a, b := ByteSwap(n, x), ByteSwap(n, y);
    XorBound(x, y, 8 * n);
    MovedBytesBound(n, x, n);
    MovedBytesBound(n, y, n);
    XorBound(a, b, 8 * n);
    MovedBytesBound(n, Xor(x, y), n);
    forall i: nat | i < 8 * n
      ensures Bit(ByteSwap(n, Xor(x, y)), i) == Bit(Xor(a, b), i)
    {
      SwapMirrors(n, x, i);
      SwapMirrors(n, y, i);
      SwapMirrors(n, Xor(x, y), i);
      XorBit(x, y, Mirror(n, i));
      XorBit(a, b, i);
    }
    SameBits(ByteSwap(n, Xor(x, y)), Xor(a, b), 8 * n);
  }

  // ----- storage in the other byte order

  /** `S::toSpecial` and `S::fromSpecial`: a swap when the storage and the host differ in byte order. */
  function Special(swapped: bool, n: nat, x: nat): nat {
    if swapped then ByteSwap(n, x) else x
  }

  /** Where a bit of the stored word comes from. */
  function Place(swapped: bool, n: nat, i: nat): (r: nat)
    requires i < 8 * n
    ensures r < 8 * n
  {
    if swapped then Mirror(n, i) else i
  }

  lemma PlaceTwice(swapped: bool, n: nat, i: nat)
    requires i < 8 * n
    ensures Place(swapped, n, Place(swapped, n, i)) == i
  {
  }

  lemma SpecialTwice(swapped: bool, n: nat, x: nat)
    requires x < Pow2(8 * n)
    ensures Special(swapped, n, x) < Pow2(8 * n)
    ensures Special(swapped, n, Special(swapped, n, x)) == x
  {
    SwapIsInvolution(n, x);
  }

  lemma SpecialBit(swapped: bool, n: nat, x: nat, i: nat)
    requires x < Pow2(8 * n) && i < 8 * n
    ensures Bit(Special(swapped, n, x), i) == Bit(x, Place(swapped, n, i))
  {
    SwapMirrors(n, x, i);
  }
}
