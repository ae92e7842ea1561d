/** Bitfields over storage words of n bytes that may be kept in the other byte order. */
module Bitfields {
  import opened Bits
  import opened Endian

  /** A field's template parameters. */
  datatype Field = Field(pos: nat, width: nat) {
    /** The fields the template can be instantiated at: shifting by the word size is undefined. */
    predicate Fits(n: nat) {
      0 < width < 8 * n && pos + width <= 8 * n
    }

    predicate Has(i: nat) {
      pos <= i < pos + width
    }

    predicate Disjoint(f: Field) {
      pos + width <= f.pos || f.pos + f.width <= pos
    }
  }

  /** The word whose set bits are the field's. */
  function Mask(n: nat, f: Field): (r: nat)
    ensures r < Pow2(8 * n)
  {
    var one := Shl(8 * n, 1, f.width);
    Shl(8 * n, if one == 0 then Pow2(8 * n) - 1 else one - 1, f.pos)
  }

  lemma {:induction false} OneShifted(k: nat, m: nat)
    requires k < m
    ensures Shl(m, 1, k) == Pow2(k)
  {
    if k > 0 {
      OneShifted(k - 1, m - 1);
    } else {
      LowOfSmall(1, m);
      assert Pow2(m) >= 2;
    }
  }

  lemma MaskHas(n: nat, f: Field, i: nat)
    requires f.Fits(n)
    ensures Bit(Mask(n, f), i) <==> f.Has(i)
  {
    OneShifted(f.width, 8 * n);
    ShlBit(8 * n, Pow2(f.width) - 1, f.pos, i);
    if i >= f.pos {
      MaskBit(f.width, i - f.pos);
    }
  }

  /** The word an assignment of t leaves in the host's byte order. */
  function Assigned(n: nat, f: Field, w: nat, t: nat): nat {
    Or(And(w, Not(8 * n, Mask(n, f))), And(Shl(8 * n, t, f.pos), Mask(n, f)))
  }

  /** The unsigned read of a word in the host's byte order. */
  function Read(n: nat, f: Field, w: nat): nat {
    Shr(And(w, Mask(n, f)), f.pos)
  }

  lemma AssignedBound(n: nat, f: Field, w: nat, t: nat)
    requires w < Pow2(8 * n)
    ensures Assigned(n, f, w, t) < Pow2(8 * n)
  {
    var a, b := Not(8 * n, Mask(n, f)), Shl(8 * n, t, f.pos);
    AndBound(w, a);
    AndBound(b, Mask(n, f));
    OrBound(And(w, a), And(b, Mask(n, f)), 8 * n);
  }

  lemma AssignedBit(n: nat, f: Field, w: nat, t: nat, i: nat)
    requires f.Fits(n) && i < 8 * n
    ensures Bit(Assigned(n, f, w, t), i) == if f.Has(i) then Bit(t, i - f.pos) else Bit(w, i)
  {
    var m := Mask(n, f);
    OrBit(And(w, Not(8 * n, m)), And(Shl(8 * n, t, f.pos), m), i);
    AndBit(w, Not(8 * n, m), i);
    NotBit(8 * n, m, i);
    AndBit(Shl(8 * n, t, f.pos), m, i);
    ShlBit(8 * n, t, f.pos, i);
    MaskHas(n, f, i);
  }

  lemma ReadBit(n: nat, f: Field, w: nat, i: nat)
    requires f.Fits(n)
    ensures Bit(Read(n, f, w), i) <==> i < f.width && Bit(w, f.pos + i)
  {
    ShrBit(And(w, Mask(n, f)), f.pos, i);
    AndBit(w, Mask(n, f), i + f.pos);
    MaskHas(n, f, i + f.pos);
  }

  /** A read is the field, cut out of the word. */
  lemma ReadIsField(n: nat, f: Field, w: nat)
    requires f.Fits(n) && w < Pow2(8 * n)
    ensures Read(n, f, w) == Low(Shr(w, f.pos), f.width)
  {
    var a, b := Read(n, f, w), Low(Shr(w, f.pos), f.width);
    AndBound(w, Mask(n, f));
    ShrShrinks(And(w, Mask(n, f)), f.pos);
    Pow2Mono(f.width, 8 * n);
    forall i: nat | i < 8 * n
      ensures Bit(a, i) == Bit(b, i)
    {
      ReadBit(n, f, w, i);
      LowBit(Shr(w, f.pos), f.width, i);
      ShrBit(w, f.pos, i);
    }
    SameBits(a, b, 8 * n);
  }

  /** Reading a field back gives the value assigned, modulo two to the width. */
  lemma ReadBack(n: nat, f: Field, w: nat, t: nat)
    requires f.Fits(n) && w < Pow2(8 * n)
    ensures Read(n, f, Assigned(n, f, w, t)) == Low(t, f.width) < Pow2(f.width)
    ensures t == Low(t, f.width) + Pow2(f.width) * Shr(t, f.width)
  {
    LowIsRemainder(t, f.width);
    var x := Assigned(n, f, w, t);
    var a, b := Low(Shr(x, f.pos), f.width), Low(t, f.width);
    AssignedBound(n, f, w, t);
    ReadIsField(n, f, x);
    forall i: nat | i < f.width
      ensures Bit(a, i) == Bit(b, i)
    {
      LowBit(Shr(x, f.pos), f.width, i);
      ShrBit(x, f.pos, i);
      AssignedBit(n, f, w, t, i + f.pos);
      LowBit(t, f.width, i);
    }
    SameBits(a, b, f.width);
  }

  /** Assigning one field leaves every disjoint field as it was. */
  lemma OthersUnchanged(n: nat, f: Field, g: Field, w: nat, t: nat)
    requires f.Fits(n) && g.Fits(n) && f.Disjoint(g) && w < Pow2(8 * n)
    ensures Read(n, g, Assigned(n, f, w, t)) == Read(n, g, w)
  {
    var x := Assigned(n, f, w, t);
    var a, b := Low(Shr(x, g.pos), g.width), Low(Shr(w, g.pos), g.width);
    AssignedBound(n, f, w, t);
    ReadIsField(n, g, x);
    ReadIsField(n, g, w);
    forall i: nat | i < g.width
      ensures Bit(a, i) == Bit(b, i)
    {
      LowBit(Shr(x, g.pos), g.width, i);
      LowBit(Shr(w, g.pos), g.width, i);
      ShrBit(x, g.pos, i);
      ShrBit(w, g.pos, i);
      AssignedBit(n, f, w, t, i + g.pos);
    }
    SameBits(a, b, g.width);
  }

  // ----- signed fields

  /** A number of k bits read as two's complement. */
  function SignExtend(u: nat, k: nat): int
    requires k > 0
  {
    if u >= Pow2(k - 1) then u - Pow2(k) else u
  }

  /** The arithmetic `t >> k` */
  function Ashr(t: int, k: nat): int
    decreases k
  {
    if k == 0 then t else Ashr(t / 2, k - 1)
  }

  /** The conversion of a signed value to the unsigned storage type. */
  function ToUnsigned(m: nat, t: int): nat
    requires t + Pow2(m) >= 0
  {
    if t < 0 then t + Pow2(m) else t
  }

  /** The signed read: the field is shifted to the top of the word and back down. */
  function ReadSigned(n: nat, f: Field, w: nat): int
    requires f.Fits(n)
  {
    Ashr(SignExtend(Shl(8 * n, w, 8 * n - f.width - f.pos), 8 * n), 8 * n - f.width)
  }

  lemma {:induction false} AshrOfSigned(u: nat, m: nat, k: nat)
    requires k < m && u < Pow2(m)
    ensures Ashr(SignExtend(u, m), k) == SignExtend(Shr(u, k), m - k)
  {
    if k > 0 {
      assert SignExtend(u, m) / 2 == SignExtend(u / 2, m - 1);
      AshrOfSigned(u / 2, m - 1, k - 1);
    }
  }

  /** The signed read is the two's complement reading of the unsigned one. */
  lemma SignedReadsTheField(n: nat, f: Field, w: nat)
    requires f.Fits(n) && w < Pow2(8 * n)
    ensures ReadSigned(n, f, w) == SignExtend(Read(n, f, w), f.width)
  {
    var k := 8 * n - f.width - f.pos;
    var u := Shl(8 * n, w, k);
    AshrOfSigned(u, 8 * n, 8 * n - f.width);
    ReadIsField(n, f, w);
    var a, b := Shr(u, 8 * n - f.width), Low(Shr(w, f.pos), f.width);
    ShrBound(u, 8 * n - f.width, 8 * n);
    forall i: nat | i < f.width
      ensures Bit(a, i) == Bit(b, i)
    {
      ShrBit(u, 8 * n - f.width, i);
      ShlBit(8 * n, w, k, i + 8 * n - f.width);
      LowBit(Shr(w, f.pos), f.width, i);
      ShrBit(w, f.pos, i);
    }
    SameBits(a, b, f.width);
  }

  predicate InRange(t: int, k: nat)
    requires k > 0
  {
    t + Pow2(k - 1) >= 0 && t < Pow2(k - 1)
  }

  lemma {:induction false} LowOfNegative(x: int, k: nat, m: nat)
    requires k <= m && x < 0 <= x + Pow2(k)
    ensures x + Pow2(m) >= 0 && Low(x + Pow2(m), k) == x + Pow2(k)
    decreases k
  {
    Pow2Mono(k, m);
    if k > 0 {
      assert (x + Pow2(m)) / 2 == x / 2 + Pow2(m - 1);
      LowOfNegative(x / 2, k - 1, m - 1);
    }
  }

  lemma SignedFits(t: int, k: nat, m: nat)
    requires 0 < k <= m && InRange(t, m)
    ensures SignExtend(Low(ToUnsigned(m, t), k), k) == t <==> InRange(t, k)
  {
    if InRange(t, k) {
      if t >= 0 {
        LowOfSmall(t, k);
      } else {
        LowOfNegative(t, k, m);
      }
    }
  }

  /** A signed value survives the field exactly when it has a two's complement form of the field's width. */
  lemma SignedReadBack(n: nat, f: Field, w: nat, t: int)
    requires f.Fits(n) && w < Pow2(8 * n) && InRange(t, 8 * n)
    ensures ReadSigned(n, f, Assigned(n, f, w, ToUnsigned(8 * n, t))) == t <==> InRange(t, f.width)
  {
    var u := ToUnsigned(8 * n, t);
    AssignedBound(n, f, w, u);
    SignedReadsTheField(n, f, Assigned(n, f, w, u));
    ReadBack(n, f, w, u);
    SignedFits(t, f.width, 8 * n);
  }

  // ----- comparisons on the stored word

  lemma {:induction false} NoBitsIsZero(x: nat, m: nat)
    requires x < Pow2(m) && forall i: nat :: i < m ==> !Bit(x, i)
    ensures x == 0
  {
    if m > 0 {
      assert !Bit(x, 0);
      forall i: nat | i < m - 1
        ensures !Bit(x / 2, i)
      {
        assert !Bit(x, i + 1);
      }
      NoBitsIsZero(x / 2, m - 1);
    }
  }

  /** A bit of `(a ^ b) & toSpecial(mask)`: the two differ there, and the field has it once put back in order. */
  lemma DifferenceBit(swapped: bool, n: nat, f: Field, a: nat, b: nat, i: nat)
    requires f.Fits(n) && i < 8 * n
    ensures Bit(And(Xor(a, b), Special(swapped, n, Mask(n, f))), i)
            <==> Bit(a, i) != Bit(b, i) && f.Has(Place(swapped, n, i))
  {
    AndBit(Xor(a, b), Special(swapped, n, Mask(n, f)), i);
    XorBit(a, b, i);
    SpecialBit(swapped, n, Mask(n, f), i);
    MaskHas(n, f, Place(swapped, n, i));
  }

  /** `==` on two stored words decides whether the fields read the same, whatever the byte order. */
  lemma ComparisonIsOfFields(swapped: bool, n: nat, f: Field, a: nat, b: nat)
    requires f.Fits(n) && a < Pow2(8 * n) && b < Pow2(8 * n)
    ensures StoredEqual(swapped, n, f, a, b)
            <==> Read(n, f, Special(swapped, n, a)) == Read(n, f, Special(swapped, n, b))
  {
    var d := And(Xor(a, b), Special(swapped, n, Mask(n, f)));
    XorBound(a, b, 8 * n);
    AndBound(Xor(a, b), Special(swapped, n, Mask(n, f)));
    if d == 0 {
      SameFields(swapped, n, f, a, b);
    } else {
      if forall i: nat :: i < 8 * n ==> !Bit(d, i) {
        NoBitsIsZero(d, 8 * n);
      }
      var i: nat :| i < 8 * n && Bit(d, i);
      DifferentFields(swapped, n, f, a, b, i);
    }
  }

  /** The comparison made on stored words: they do not differ in any bit of the mask, itself put in storage order. */
  predicate StoredEqual(swapped: bool, n: nat, f: Field, a: nat, b: nat) {
    And(Xor(a, b), Special(swapped, n, Mask(n, f))) == 0
  }

  lemma FieldBit(swapped: bool, n: nat, f: Field, a: nat, i: nat)
    requires f.Fits(n) && i < f.width && a < Pow2(8 * n)
    ensures Bit(Read(n, f, Special(swapped, n, a)), i) == Bit(a, Place(swapped, n, f.pos + i))
  {
    ReadBit(n, f, Special(swapped, n, a), i);
    SpecialBit(swapped, n, a, f.pos + i);
  }

  lemma SameFields(swapped: bool, n: nat, f: Field, a: nat, b: nat)
    requires f.Fits(n) && a < Pow2(8 * n) && b < Pow2(8 * n) && StoredEqual(swapped, n, f, a, b)
    ensures Read(n, f, Special(swapped, n, a)) == Read(n, f, Special(swapped, n, b))
  {
    var ra, rb := Read(n, f, Special(swapped, n, a)), Read(n, f, Special(swapped, n, b));
    SpecialTwice(swapped, n, a);
    SpecialTwice(swapped, n, b);
    ReadIsField(n, f, Special(swapped, n, a));
    ReadIsField(n, f, Special(swapped, n, b));
    forall i: nat | i < f.width
      ensures Bit(ra, i) == Bit(rb, i)
    {
      var p := Place(swapped, n, f.pos + i);
      FieldBit(swapped, n, f, a, i);
      FieldBit(swapped, n, f, b, i);
      PlaceTwice(swapped, n, f.pos + i);
      DifferenceBit(swapped, n, f, a, b, p);
      ZeroBit(p);
    }
    SameBits(ra, rb, f.width);
  }

  lemma DifferentFields(swapped: bool, n: nat, f: Field, a: nat, b: nat, i: nat)
    requires f.Fits(n) && a < Pow2(8 * n) && b < Pow2(8 * n) && i < 8 * n
    requires Bit(And(Xor(a, b), Special(swapped, n, Mask(n, f))), i)
    ensures Read(n, f, Special(swapped, n, a)) != Read(n, f, Special(swapped, n, b))
  {
    var p := Place(swapped, n, i);
    DifferenceBit(swapped, n, f, a, b, i);
    PlaceTwice(swapped, n, i);
    FieldBit(swapped, n, f, a, p - f.pos);
    FieldBit(swapped, n, f, b, p - f.pos);
  }

  /** `!` on the stored word decides whether the field reads zero. */
  lemma NotIsZeroField(swapped: bool, n: nat, f: Field, a: nat)
    requires f.Fits(n) && a < Pow2(8 * n)
    ensures And(a, Special(swapped, n, Mask(n, f))) == 0 <==> Read(n, f, Special(swapped, n, a)) == 0
  {
    assert Xor(a, 0) == a;
    ZeroWord(n, f, swapped);
    ComparisonIsOfFields(swapped, n, f, a, 0);
  }

  lemma ZeroWord(n: nat, f: Field, swapped: bool)
    requires f.Fits(n)
    ensures Read(n, f, Special(swapped, n, 0)) == 0
  {
    var s := Special(swapped, n, 0);
    SpecialTwice(swapped, n, 0);
    ReadIsField(n, f, s);
    forall i: nat | i < f.width
      ensures !Bit(Read(n, f, s), i)
    {
      FieldBit(swapped, n, f, 0, i);
      ZeroBit(Place(swapped, n, f.pos + i));
    }
    NoBitsIsZero(Read(n, f, s), f.width);
  }

  /** What an assignment leaves in the stored word: each stored bit lies at place i, or mirrored into the other
      byte order, and there it is the field's or the old one. */
  ghost predicate StoredBits(swapped: bool, n: nat, f: Field, was: nat, now: nat, t: nat) {
    forall i: nat | i < 8 * n ::
      Bit(now, i)
      == var place := if swapped then Mirror(n, i) else i;
         if f.Has(place) then Bit(t, place - f.pos) else Bit(was, i)
  }

  lemma AssignedStoredBits(swapped: bool, n: nat, f: Field, val: nat, t: nat)
    requires f.Fits(n) && val < Pow2(8 * n)
    ensures var w := Special(swapped, n, val);
            StoredBits(swapped, n, f, val, Special(swapped, n, Assigned(n, f, w, t)), t)
  {
    var w := Special(swapped, n, val);
    var next := Assigned(n, f, w, t);
    SpecialTwice(swapped, n, val);
    AssignedBound(n, f, w, t);
    forall i: nat | i < 8 * n
      ensures var place := if swapped then Mirror(n, i) else i;
              Bit(Special(swapped, n, next), i) == if f.Has(place) then Bit(t, place - f.pos) else Bit(val, i)
    {
      var place := Place(swapped, n, i);
      SpecialBit(swapped, n, next, i);
      AssignedBit(n, f, w, t, place);
      SpecialBit(swapped, n, val, place);
      PlaceTwice(swapped, n, i);
    }
  }

  // ----- the fields of one stored word

  /** A storage word shared by the bitfields laid over it, as in a union. */
  class Storage {
    const n: nat
    const swapped: bool
    var val: nat

    ghost predicate Valid()
      reads this
    {
      val < Pow2(8 * n)
    }

    /** What a read of f gives. */
    function Value(f: Field): nat
      reads this
    {
      Read(n, f, Special(swapped, n, val))
    }

    constructor (n: nat, swapped: bool)
      ensures Valid() && this.n == n && this.swapped == swapped
      ensures forall f: Field :: f.Fits(n) ==> Value(f) == 0
    {
      this.n, this.swapped, val := n, swapped, 0;
      new;
      forall f: Field | f.Fits(n)
        ensures Value(f) == 0
      {
        ZeroWord(n, f, swapped);
      }
    }

    /** `operator=` */
    method Assign(f: Field, t: nat)
      requires Valid() && f.Fits(n)
      modifies this
      ensures Valid() && Value(f) == Low(t, f.width)
      ensures StoredBits(swapped, n, f, old(val), val, t)
      ensures forall g: Field :: g.Fits(n) && f.Disjoint(g) ==> Value(g) == old(Value(g))
    {
      var i := Special(swapped, n, val);
      SpecialTwice(swapped, n, val);
      AssignedBound(n, f, i, t);
      var next := Or(And(i, Not(8 * n, Mask(n, f))), And(Shl(8 * n, t, f.pos), Mask(n, f)));
      val := Special(swapped, n, next);
      SpecialTwice(swapped, n, next);
      ReadBack(n, f, i, t);
      AssignedStoredBits(swapped, n, f, old(val), t);
      forall g: Field | g.Fits(n) && f.Disjoint(g)
        ensures Value(g) == old(Value(g))
      {
        OthersUnchanged(n, f, g, i, t);
      }
    }

    /** `operator==` */
    method Equals(f: Field, that: Storage) returns (eq: bool)
      requires Valid() && that.Valid() && f.Fits(n) && that.n == n && that.swapped == swapped
      ensures eq <==> Value(f) == that.Value(f)
    {
      eq := And(Xor(val, that.val), Special(swapped, n, Mask(n, f))) == 0;
      ComparisonIsOfFields(swapped, n, f, val, that.val);
    }

    /** `operator!` */
    method IsZero(f: Field) returns (zero: bool)
      requires Valid() && f.Fits(n)
      ensures zero <==> Value(f) == 0
    {
      zero := And(val, Special(swapped, n, Mask(n, f))) == 0;
      NotIsZeroField(swapped, n, f, val);
    }
  }
}
