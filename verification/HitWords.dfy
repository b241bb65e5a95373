/** The 32-bit words of the hit bitmap, as bit-vectors and as the sets of their bits. Tracers or a mask into
    a word and compare words; the protocol speaks of sets of bits; the two views are shown to agree. */
module HitWords {
  /** A word seen as the numbers of its set bits. */
  type Bits = set<nat>

  function Mask(bit: bv5): bv32 {
    (1 as bv32) << bit
  }

  predicate BitSet(w: bv32, bit: bv5) {
    w & Mask(bit) != 0
  }

  /** index % 32 as a shift amount. */
  function Shift(index: nat): bv5 {
    (index % 32) as bv5
  }

  /** val | (1 << bit) */
  function WithBit(w: bv32, bit: bv5): bv32 {
    w | Mask(bit)
  }

  function BitsOf(w: bv32): (r: Bits) {
    set b: nat | b < 32 && BitSet(w, Shift(b))
  }

  lemma ShiftInjective(i: nat, j: nat)
    requires i % 32 != j % 32
    ensures Shift(i) != Shift(j)
  {
    ShiftRoundTrip(i % 32);
    ShiftRoundTrip(j % 32);
  }

  lemma ShiftRoundTrip(b: nat)
    requires b < 32
    ensures (b as bv5) as nat == b
  {
  }

  lemma MasksMeet(b: bv5, c: bv5)
    ensures (Mask(b) & Mask(c) == 0) == (b != c)
  {
  }

  lemma AndDistributes(w: bv32, m: bv32, n: bv32)
    ensures (w | m) & n == (w & n) | (m & n)
  {
  }

  lemma OrIsZero(x: bv32, y: bv32)
    ensures (x | y == 0) == (x == 0 && y == 0)
  {
  }

  lemma WithBitSets(w: bv32, b: bv5, c: bv5)
    ensures BitSet(WithBit(w, b), c) == (BitSet(w, c) || b == c)
  {
    MasksMeet(b, c);
    AndDistributes(w, Mask(b), Mask(c));
    OrIsZero(w & Mask(c), Mask(b) & Mask(c));
  }

  lemma NoBitInZero(b: bv5)
    ensures !BitSet(0, b)
  {
  }

  lemma EmptyWord()
    ensures BitsOf(0) == {}
  {
    forall b: nat | b < 32 ensures !BitSet(0, Shift(b)) {
      NoBitInZero(Shift(b));
    }
  }

  lemma OnlyThat(b: bv5, c: bv5)
    ensures BitSet(Mask(b), c) == (b == c)
  {
    MasksMeet(b, c);
  }

  lemma OnlyThatBit(b: nat, c: nat)
    requires b < 32 && c < 32
    ensures BitSet(Mask(Shift(b)), Shift(c)) == (b == c)
  {
    OnlyThat(Shift(b), Shift(c));
    if b != c {
      ShiftInjective(b, c);
    }
  }

  /** The bits are numbered from the lowest: the word in which only bit b is set stands for b. */
  lemma OneBit(b: nat, bit: bv5)
    requires b < 32 && bit == b as bv5
    ensures BitsOf((1 as bv32) << bit) == {b}
  {
    assert Mask(Shift(b)) == (1 as bv32) << bit;
    forall c: nat | c < 32 ensures BitSet(Mask(Shift(b)), Shift(c)) == (b == c) {
      OnlyThatBit(b, c);
    }
  }

  lemma WithBitAt(w: bv32, index: nat, b: nat)
    requires b < 32
    ensures BitSet(WithBit(w, Shift(index)), Shift(b)) == (BitSet(w, Shift(b)) || b == index % 32)
  {
    WithBitSets(w, Shift(index), Shift(b));
    if b != index % 32 {
      ShiftInjective(index, b);
    }
  }

  /** Or-ing the mask of an index in adds that bit and no other. */
  lemma WithBitAdds(w: bv32, index: nat)
    ensures BitsOf(WithBit(w, Shift(index))) == BitsOf(w) + {index % 32}
  {
    forall b: nat | b < 32
      ensures b in BitsOf(WithBit(w, Shift(index))) <==> b in BitsOf(w) + {index % 32}
    {
      WithBitAt(w, index, b);
    }
  }

  lemma BitInWord(w: bv32, index: nat)
    ensures index % 32 in BitsOf(w) <==> BitSet(w, Shift(index))
  {
    assert Shift(index % 32) == Shift(index);
  }

  predicate Agree(v: bv32, w: bv32, m: bv32) {
    (v & m == 0) == (w & m == 0)
  }

  lemma ShiftOfNat(b: bv5)
    ensures Shift(b as nat) == b
  {
  }

  lemma SameBit(v: bv32, w: bv32, b: bv5, m: bv32)
    requires BitsOf(v) == BitsOf(w) && Mask(b) == m
    ensures Agree(v, w, m)
  {
    ShiftOfNat(b);
    BitInWord(v, b as nat);
    BitInWord(w, b as nat);
  }

  lemma AgreeOnByte0(v: bv32, w: bv32)
    requires Agree(v, w, 0x1) && Agree(v, w, 0x2) && Agree(v, w, 0x4) && Agree(v, w, 0x8)
    requires Agree(v, w, 0x10) && Agree(v, w, 0x20) && Agree(v, w, 0x40) && Agree(v, w, 0x80)
    ensures v & 0xff == w & 0xff
  {
  }

  lemma AgreeOnByte1(v: bv32, w: bv32)
    requires Agree(v, w, 0x100) && Agree(v, w, 0x200) && Agree(v, w, 0x400) && Agree(v, w, 0x800)
    requires Agree(v, w, 0x1000) && Agree(v, w, 0x2000) && Agree(v, w, 0x4000) && Agree(v, w, 0x8000)
    ensures v & 0xff00 == w & 0xff00
  {
  }

  lemma AgreeOnByte2(v: bv32, w: bv32)
    requires Agree(v, w, 0x10000) && Agree(v, w, 0x20000) && Agree(v, w, 0x40000) && Agree(v, w, 0x80000)
    requires Agree(v, w, 0x100000) && Agree(v, w, 0x200000) && Agree(v, w, 0x400000) && Agree(v, w, 0x800000)
    ensures v & 0xff0000 == w & 0xff0000
  {
  }

  lemma AgreeOnByte3(v: bv32, w: bv32)
    requires Agree(v, w, 0x1000000) && Agree(v, w, 0x2000000) && Agree(v, w, 0x4000000) && Agree(v, w, 0x8000000)
    requires Agree(v, w, 0x10000000) && Agree(v, w, 0x20000000) && Agree(v, w, 0x40000000) && Agree(v, w, 0x80000000)
    ensures v & 0xff000000 == w & 0xff000000
  {
  }

  lemma SameByte0(v: bv32, w: bv32)
    requires BitsOf(v) == BitsOf(w)
    ensures v & 0xff == w & 0xff
  {
    SameBit(v, w, 0, 0x1);
    SameBit(v, w, 1, 0x2);
    SameBit(v, w, 2, 0x4);
    SameBit(v, w, 3, 0x8);
    SameBit(v, w, 4, 0x10);
    SameBit(v, w, 5, 0x20);
    SameBit(v, w, 6, 0x40);
    SameBit(v, w, 7, 0x80);
    AgreeOnByte0(v, w);
  }

  lemma SameByte1(v: bv32, w: bv32)
    requires BitsOf(v) == BitsOf(w)
    ensures v & 0xff00 == w & 0xff00
  {
    SameBit(v, w, 8, 0x100);
    SameBit(v, w, 9, 0x200);
    SameBit(v, w, 10, 0x400);
    SameBit(v, w, 11, 0x800);
    SameBit(v, w, 12, 0x1000);
    SameBit(v, w, 13, 0x2000);
    SameBit(v, w, 14, 0x4000);
    SameBit(v, w, 15, 0x8000);
    AgreeOnByte1(v, w);
  }

  lemma SameByte2(v: bv32, w: bv32)
    requires BitsOf(v) == BitsOf(w)
    ensures v & 0xff0000 == w & 0xff0000
  {
    SameBit(v, w, 16, 0x10000);
    SameBit(v, w, 17, 0x20000);
    SameBit(v, w, 18, 0x40000);
    SameBit(v, w, 19, 0x80000);
    SameBit(v, w, 20, 0x100000);
    SameBit(v, w, 21, 0x200000);
    SameBit(v, w, 22, 0x400000);
    SameBit(v, w, 23, 0x800000);
    AgreeOnByte2(v, w);
  }

  lemma SameByte3(v: bv32, w: bv32)
    requires BitsOf(v) == BitsOf(w)
    ensures v & 0xff000000 == w & 0xff000000
  {
    SameBit(v, w, 24, 0x1000000);
    SameBit(v, w, 25, 0x2000000);
    SameBit(v, w, 26, 0x4000000);
    SameBit(v, w, 27, 0x8000000);
    SameBit(v, w, 28, 0x10000000);
    SameBit(v, w, 29, 0x20000000);
    SameBit(v, w, 30, 0x40000000);
    SameBit(v, w, 31, 0x80000000);
    AgreeOnByte3(v, w);
  }

  lemma SameBytes(v: bv32, w: bv32)
    requires v & 0xff == w & 0xff && v & 0xff00 == w & 0xff00
    requires v & 0xff0000 == w & 0xff0000 && v & 0xff000000 == w & 0xff000000
    ensures v == w
  {
  }

  /** The two views agree on equality, so a compare-and-swap may be judged on either. */
  lemma WordsEqualIffBits(v: bv32, w: bv32)
    ensures v == w <==> BitsOf(v) == BitsOf(w)
  {
    if BitsOf(v) == BitsOf(w) {
      SameByte0(v, w);
      SameByte1(v, w);
      SameByte2(v, w);
      SameByte3(v, w);
      SameBytes(v, w);
    }
  }

  // ----- bitmaps -----

  /** The test of indexIsHit: false beyond the last word. */
  predicate IsHit(data: seq<Bits>, index: nat) {
    index / 32 < |data| && index % 32 in data[index / 32]
  }

  /** The bitmap after one successful update of the word of index. */
  function WithHit(data: seq<Bits>, index: nat): (r: seq<Bits>)
    requires index / 32 < |data|
  {
    data[index / 32 := data[index / 32] + {index % 32}]
  }

  /** An update sets exactly one index and keeps every other, even in the same word. */
  lemma WithHitSets(data: seq<Bits>, index: nat)
    requires index / 32 < |data|
    ensures forall j: nat :: IsHit(WithHit(data, index), j) <==> IsHit(data, j) || j == index
  {
    forall j: nat
      ensures IsHit(WithHit(data, index), j) <==> IsHit(data, j) || j == index
    {
      assert j == 32 * (j / 32) + j % 32;
    }
  }

  function BitMap(words: seq<bv32>): (r: seq<Bits>)
    ensures |r| == |words|
  {
    seq(|words|, i requires 0 <= i < |words| => BitsOf(words[i]))
  }
}
