/** The packed list head of the free list: an index in the low bits, a serial above it. */
module HeadWord {
  import opened Bits

  const WORD_BITS: nat := 31             // SerialMask clears the sign bit: a head word has 31 live bits
  const UINT_BITS: nat := 32

  /** How many serials fit above an index of `bits` bits. */
  function Serials(bits: nat): (m: nat)
    requires bits <= WORD_BITS
    ensures m >= 1
  {
    Pow2(WORD_BITS - bits)
  }

  function Index(bits: nat, w: nat): nat {
    And(w, Pow2(bits) - 1)
  }

  function Serial(bits: nat, w: nat): nat {
    Shr(w, bits)
  }

  ghost predicate IsWord(w: nat) {
    w < Pow2(WORD_BITS)
  }

  /** The index of n under the serial of o plus one, in a word of m bits. */
  function NextField(bits: nat, m: nat, o: nat, n: nat): nat
    requires bits <= m
  {
    Pow2Mono(bits, m);
    Or(And(n, Pow2(bits) - 1), And(o + Pow2(bits), Pow2(m) - Pow2(bits)))
  }

  /** The head a release installs: the released index under the next serial. */
  function IncrementSerial(bits: nat, o: nat, n: nat): nat
    requires bits <= WORD_BITS
  {
    NextField(bits, WORD_BITS, o, n)
  }

  /** The head a pop installs: the successor's index under the serial that was read. */
  function Relink(bits: nat, next: nat, id: nat): nat
    requires bits <= WORD_BITS
  {
    Pow2Mono(bits, UINT_BITS);
    Or(next, And(id, Pow2(UINT_BITS) - Pow2(bits)))
  }

  /** A word is decided by its index and its serial, so comparing words compares both. */
  lemma SameWord(bits: nat, v: nat, w: nat)
    requires Index(bits, v) == Index(bits, w) && Serial(bits, v) == Serial(bits, w)
    ensures v == w
  {
    AndMask(v, bits);
    AndMask(w, bits);
    PackUnpacked(bits, v);
    PackUnpacked(bits, w);
  }

  lemma IndexRange(bits: nat, w: nat)
    ensures Index(bits, w) < Pow2(bits)
  {
    AndMask(w, bits);
  }

  lemma IndexOfSmall(bits: nat, i: nat)
    requires i < Pow2(bits)
    ensures Index(bits, i) == i && Serial(bits, i) == 0
  {
    AndMask(i, bits);
    LowOfSmall(i, bits);
    ShrBound(i, bits, bits);
  }

  lemma SmallIsWord(bits: nat, i: nat)
    requires bits <= WORD_BITS && i < Pow2(bits)
    ensures IsWord(i) && Index(bits, i) == i && Serial(bits, i) == SerialAfter(bits, 0)
  {
    Pow2Mono(bits, WORD_BITS);
    IndexOfSmall(bits, i);
  }

  /** Packing a serial and an index and taking them apart again. */
  lemma Packed(bits: nat, s: nat, i: nat)
    requires bits <= WORD_BITS && i < Pow2(bits) && s < Serials(bits)
    ensures IsWord(Pack(bits, s, i))
    ensures Index(bits, Pack(bits, s, i)) == i && Serial(bits, Pack(bits, s, i)) == s
  {
    PackParts(bits, s, i);
    AndMask(Pack(bits, s, i), bits);
    ShrBound(Pack(bits, s, i), bits, WORD_BITS);
  }

  function NextSerial(bits: nat, s: nat): nat
    requires bits <= WORD_BITS
  {
    if s + 1 == Serials(bits) then 0 else s + 1
  }

  lemma NextFieldIsPack(bits: nat, m: nat, o: nat, n: nat)
    requires bits <= m && o < Pow2(m)
    ensures NextField(bits, m, o, n)
            == Pack(bits, if Shr(o, bits) + 1 == Pow2(m - bits) then 0 else Shr(o, bits) + 1, Index(bits, n))
  {
    IndexRange(bits, n);
    OrNextField(Index(bits, n), o, bits, m);
  }

  lemma SameFieldIsPack(bits: nat, next: nat, id: nat, k: nat, m: nat)
    requires bits <= k <= m && next < Pow2(bits) && id < Pow2(k)
    ensures Pow2(bits) <= Pow2(m)
    ensures Or(next, And(id, Pow2(m) - Pow2(bits))) == Pack(bits, Shr(id, bits), next)
  {
    Pow2Mono(k, m);
    OrHigh(next, id, bits, m);
  }

  lemma RelinkIsPack(bits: nat, next: nat, id: nat)
    requires bits <= WORD_BITS && next < Pow2(bits) && IsWord(id)
    ensures Relink(bits, next, id) == Pack(bits, Serial(bits, id), next)
  {
    SameFieldIsPack(bits, next, id, WORD_BITS, UINT_BITS);
  }

  /** The `|` in a pop's new head never reaches the serial, because the successor fits the index mask. */
  lemma RelinkParts(bits: nat, next: nat, id: nat)
    requires bits <= WORD_BITS && next < Pow2(bits) && IsWord(id)
    ensures IsWord(Relink(bits, next, id))
    ensures Index(bits, Relink(bits, next, id)) == next
    ensures Serial(bits, Relink(bits, next, id)) == Serial(bits, id)
  {
    RelinkIsPack(bits, next, id);
    SerialRange(bits, id);
    Packed(bits, Serial(bits, id), next);
  }

  lemma SerialRange(bits: nat, w: nat)
    requires bits <= WORD_BITS && IsWord(w)
    ensures Serial(bits, w) < Serials(bits)
  {
    ShrBound(w, bits, WORD_BITS);
  }

  lemma IncrementSerialIsPack(bits: nat, o: nat, n: nat)
    requires bits <= WORD_BITS && IsWord(o)
    ensures IncrementSerial(bits, o, n) == Pack(bits, NextSerial(bits, Serial(bits, o)), Index(bits, n))
  {
    NextFieldIsPack(bits, WORD_BITS, o, n);
  }

  /** A release advances the serial by one, wrapping after the last one, and installs its index. */
  lemma IncrementSerialParts(bits: nat, o: nat, n: nat)
    requires bits <= WORD_BITS && IsWord(o)
    ensures IsWord(IncrementSerial(bits, o, n))
    ensures Index(bits, IncrementSerial(bits, o, n)) == Index(bits, n)
    ensures Serial(bits, IncrementSerial(bits, o, n)) == NextSerial(bits, Serial(bits, o))
  {
    IncrementSerialIsPack(bits, o, n);
    IndexRange(bits, n);
    SerialRange(bits, o);
    Packed(bits, NextSerial(bits, Serial(bits, o)), Index(bits, n));
  }

  /** The serial after r releases. */
  function SerialAfter(bits: nat, r: nat): (s: nat)
    requires bits <= WORD_BITS
    ensures s < Serials(bits)
  {
    if r == 0 then 0 else NextSerial(bits, SerialAfter(bits, r - 1))
  }

  lemma {:induction false} SerialAdvance(bits: nat, v: nat, d: nat)
    requires bits <= WORD_BITS && d <= Serials(bits)
    ensures SerialAfter(bits, v + d) ==
            if SerialAfter(bits, v) + d < Serials(bits) then SerialAfter(bits, v) + d
            else SerialAfter(bits, v) + d - Serials(bits)
  {
    if d > 0 {
      SerialAdvance(bits, v, d - 1);
    }
  }

  /** Two release counts with the same serial are the same count, or at least a full cycle apart. */
  lemma SameSerial(bits: nat, v: nat, r: nat)
    requires bits <= WORD_BITS && v <= r
    ensures r - v < Serials(bits) && SerialAfter(bits, v) == SerialAfter(bits, r) ==> v == r
    ensures r - v == Serials(bits) ==> SerialAfter(bits, v) == SerialAfter(bits, r)
  {
    if r - v <= Serials(bits) {
      SerialAdvance(bits, v, r - v);
    }
  }
}
