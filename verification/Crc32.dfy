/** The CRC of a separate debug file. */
module Crc32 {
  /** The generator polynomial of CRC-32 with its bits reversed. */
  const POLY: bv32 := 0xedb88320

  // ----- one bit at a time -----

  function Folded<C>(f: (C, bool) -> C, c: C, bits: seq<bool>): C
    decreases bits
  {
    if bits == [] then c else Folded(f, f(c, bits[0]), bits[1..])
  }

  /** The shift register takes one message bit. */
  function ShiftIn(c: bv32, bit: bool): bv32 {
    if (c & 1 == 1) != bit then (c >> 1) ^ POLY else c >> 1
  }

  function Shifted(c: bv32, bits: seq<bool>): bv32 {
    Folded(ShiftIn, c, bits)
  }

  predicate Bit(b: bv8, mask: bv8) {
    b & mask != 0
  }

  /** A byte's bits enter least significant first. */
  function BitsOf(b: bv8): seq<bool> {
    [Bit(b, 1), Bit(b, 2), Bit(b, 4), Bit(b, 8), Bit(b, 16), Bit(b, 32), Bit(b, 64), Bit(b, 128)]
  }

  function Bits(msg: seq<bv8>): seq<bool> {
    if msg == [] then [] else BitsOf(msg[0]) + Bits(msg[1..])
  }

  /** CRC-32 as section 8 of RFC 1952 defines it: the register is complemented before and after. */
  function Crc(crc: bv32, msg: seq<bv8>): bv32 {
    !Shifted(!crc, Bits(msg))
  }

  lemma FoldedByte<C>(f: (C, bool) -> C, c: C, x0: bool, x1: bool, x2: bool, x3: bool,
                      x4: bool, x5: bool, x6: bool, x7: bool)
    ensures Folded(f, c, [x0, x1, x2, x3, x4, x5, x6, x7])
         == f(f(f(f(f(f(f(f(c, x0), x1), x2), x3), x4), x5), x6), x7)
  {
    FoldedHead(f, c, x0, [x1, x2, x3, x4, x5, x6, x7]);
    var c1 := f(c, x0);
    FoldedHead(f, c1, x1, [x2, x3, x4, x5, x6, x7]);
    var c2 := f(c1, x1);
    FoldedHead(f, c2, x2, [x3, x4, x5, x6, x7]);
    var c3 := f(c2, x2);
    FoldedHead(f, c3, x3, [x4, x5, x6, x7]);
    var c4 := f(c3, x3);
    FoldedHead(f, c4, x4, [x5, x6, x7]);
    var c5 := f(c4, x4);
    FoldedHead(f, c5, x5, [x6, x7]);
    var c6 := f(c5, x5);
    FoldedHead(f, c6, x6, [x7]);
    FoldedHead(f, f(c6, x6), x7, []);
    assert [x0] + [x1, x2, x3, x4, x5, x6, x7] == [x0, x1, x2, x3, x4, x5, x6, x7];
    assert [x1] + [x2, x3, x4, x5, x6, x7] == [x1, x2, x3, x4, x5, x6, x7];
    assert [x2] + [x3, x4, x5, x6, x7] == [x2, x3, x4, x5, x6, x7];
    assert [x3] + [x4, x5, x6, x7] == [x3, x4, x5, x6, x7];
    assert [x4] + [x5, x6, x7] == [x4, x5, x6, x7];
    assert [x5] + [x6, x7] == [x5, x6, x7];
    assert [x6] + [x7] == [x6, x7];
    assert [x7] + [] == [x7];
  }

  lemma FoldedHead<C>(f: (C, bool) -> C, c: C, x: bool, xs: seq<bool>)
    ensures Folded(f, c, [x] + xs) == Folded(f, f(c, x), xs)
  {
    assert ([x] + xs)[1..] == xs;
  }

  lemma {:induction false} FoldedAppend<C>(f: (C, bool) -> C, c: C, a: seq<bool>, b: seq<bool>)
    ensures Folded(f, c, a + b) == Folded(f, Folded(f, c, a), b)
    decreases a
  {
    if a == [] {
      assert a + b == b;
    } else {
      assert (a + b)[1..] == a[1..] + b;
      FoldedAppend(f, f(c, a[0]), a[1..], b);
    }
  }

  lemma {:induction false} FoldedIsInjective<C(!new)>(f: (C, bool) -> C, c: C, d: C, bits: seq<bool>)
    requires forall x, y, b :: x != y ==> f(x, b) != f(y, b)
    requires c != d
    ensures Folded(f, c, bits) != Folded(f, d, bits)
    decreases bits
  {
    if bits != [] {
      FoldedIsInjective(f, f(c, bits[0]), f(d, bits[0]), bits[1..]);
    }
  }

  function Zeros(n: nat): seq<bool> {
    if n == 0 then [] else [false] + Zeros(n - 1)
  }

  /** The low bits of y as it moves down. */
  function LowBits<C>(low: C -> bool, half: C -> C, y: C, n: nat): seq<bool> {
    if n == 0 then [] else [low(y)] + LowBits(low, half, half(y), n - 1)
  }

  function Repeated<C>(half: C -> C, y: C, n: nat): C {
    if n == 0 then y else Repeated(half, half(y), n - 1)
  }

  ghost predicate MovesDown<C>(f: (C, bool) -> C, add: (C, C) -> C, low: C -> bool, half: C -> C, x: C, y: C) {
    f(add(x, y), false) == add(f(x, low(y)), half(y))
  }

  lemma MovesDownFrom<C>(f: (C, bool) -> C, add: (C, C) -> C, low: C -> bool, half: C -> C, x: C, y: C,
                         sum: C, bit: bool, halved: C, shifted: C)
    requires sum == add(x, y) && bit == low(y) && halved == half(y) && shifted == f(x, bit)
    requires f(sum, false) == add(shifted, halved)
    ensures MovesDown(f, add, low, half, x, y)
  {
  }

  ghost predicate AllMoveDown<C(!new)>(f: (C, bool) -> C, add: (C, C) -> C, low: C -> bool, half: C -> C) {
    forall x, y :: MovesDown(f, add, low, half, x, y)
  }

  /** What is added to the register moves down along with it, its low bits taking the part of message bits. */
  lemma {:induction false} FoldedSlides<C(!new)>(f: (C, bool) -> C, add: (C, C) -> C, low: C -> bool, half: C -> C,
                                                 x: C, y: C, n: nat)
    requires AllMoveDown(f, add, low, half)
    ensures Folded(f, add(x, y), Zeros(n)) == add(Folded(f, x, LowBits(low, half, y, n)), Repeated(half, y, n))
    decreases n
  {
    if n > 0 {
      var bits := LowBits(low, half, half(y), n - 1);
      assert MovesDown(f, add, low, half, x, y);
      FoldedHead(f, add(x, y), false, Zeros(n - 1));
      FoldedHead(f, x, low(y), bits);
      FoldedSlides(f, add, low, half, f(x, low(y)), half(y), n - 1);
    }
  }

  lemma LowBitsOfEight<C>(low: C -> bool, half: C -> C, y0: C, y1: C, y2: C, y3: C, y4: C, y5: C, y6: C, y7: C)
    requires y1 == half(y0) && y2 == half(y1) && y3 == half(y2) && y4 == half(y3)
    requires y5 == half(y4) && y6 == half(y5) && y7 == half(y6)
    ensures LowBits(low, half, y0, 8) == [low(y0), low(y1), low(y2), low(y3), low(y4), low(y5), low(y6), low(y7)]
    ensures Repeated(half, y0, 8) == half(y7)
    ensures !low(y0) && !low(y1) && !low(y2) && !low(y3) && !low(y4) && !low(y5) && !low(y6) && !low(y7)
        ==> LowBits(low, half, y0, 8) == Zeros(8)
  {
    assert Zeros(8) == [false, false, false, false, false, false, false, false];
  }

  lemma {:induction false} BitsAppend(a: seq<bv8>, b: seq<bv8>)
    ensures Bits(a + b) == Bits(a) + Bits(b)
  {
    if a == [] {
      assert a + b == b;
    } else {
      assert (a + b)[1..] == a[1..] + b;
      BitsAppend(a[1..], b);
    }
  }

  // ----- one byte at a time -----

  /** The constants of the source, sixteen to a row. */
  const TABLE: seq<seq<bv32>> := [
    [0x00000000, 0x77073096, 0xee0e612c, 0x990951ba,
     0x076dc419, 0x706af48f, 0xe963a535, 0x9e6495a3,
     0x0edb8832, 0x79dcb8a4, 0xe0d5e91e, 0x97d2d988,
     0x09b64c2b, 0x7eb17cbd, 0xe7b82d07, 0x90bf1d91],
    [0x1db71064, 0x6ab020f2, 0xf3b97148, 0x84be41de,
     0x1adad47d, 0x6ddde4eb, 0xf4d4b551, 0x83d385c7,
     0x136c9856, 0x646ba8c0, 0xfd62f97a, 0x8a65c9ec,
     0x14015c4f, 0x63066cd9, 0xfa0f3d63, 0x8d080df5],
    [0x3b6e20c8, 0x4c69105e, 0xd56041e4, 0xa2677172,
     0x3c03e4d1, 0x4b04d447, 0xd20d85fd, 0xa50ab56b,
     0x35b5a8fa, 0x42b2986c, 0xdbbbc9d6, 0xacbcf940,
     0x32d86ce3, 0x45df5c75, 0xdcd60dcf, 0xabd13d59],
    [0x26d930ac, 0x51de003a, 0xc8d75180, 0xbfd06116,
     0x21b4f4b5, 0x56b3c423, 0xcfba9599, 0xb8bda50f,
     0x2802b89e, 0x5f058808, 0xc60cd9b2, 0xb10be924,
     0x2f6f7c87, 0x58684c11, 0xc1611dab, 0xb6662d3d],
    [0x76dc4190, 0x01db7106, 0x98d220bc, 0xefd5102a,
     0x71b18589, 0x06b6b51f, 0x9fbfe4a5, 0xe8b8d433,
     0x7807c9a2, 0x0f00f934, 0x9609a88e, 0xe10e9818,
     0x7f6a0dbb, 0x086d3d2d, 0x91646c97, 0xe6635c01],
    [0x6b6b51f4, 0x1c6c6162, 0x856530d8, 0xf262004e,
     0x6c0695ed, 0x1b01a57b, 0x8208f4c1, 0xf50fc457,
     0x65b0d9c6, 0x12b7e950, 0x8bbeb8ea, 0xfcb9887c,
     0x62dd1ddf, 0x15da2d49, 0x8cd37cf3, 0xfbd44c65],
    [0x4db26158, 0x3ab551ce, 0xa3bc0074, 0xd4bb30e2,
     0x4adfa541, 0x3dd895d7, 0xa4d1c46d, 0xd3d6f4fb,
     0x4369e96a, 0x346ed9fc, 0xad678846, 0xda60b8d0,
     0x44042d73, 0x33031de5, 0xaa0a4c5f, 0xdd0d7cc9],
    [0x5005713c, 0x270241aa, 0xbe0b1010, 0xc90c2086,
     0x5768b525, 0x206f85b3, 0xb966d409, 0xce61e49f,
     0x5edef90e, 0x29d9c998, 0xb0d09822, 0xc7d7a8b4,
     0x59b33d17, 0x2eb40d81, 0xb7bd5c3b, 0xc0ba6cad],
    [0xedb88320, 0x9abfb3b6, 0x03b6e20c, 0x74b1d29a,
     0xead54739, 0x9dd277af, 0x04db2615, 0x73dc1683,
     0xe3630b12, 0x94643b84, 0x0d6d6a3e, 0x7a6a5aa8,
     0xe40ecf0b, 0x9309ff9d, 0x0a00ae27, 0x7d079eb1],
    [0xf00f9344, 0x8708a3d2, 0x1e01f268, 0x6906c2fe,
     0xf762575d, 0x806567cb, 0x196c3671, 0x6e6b06e7,
     0xfed41b76, 0x89d32be0, 0x10da7a5a, 0x67dd4acc,
     0xf9b9df6f, 0x8ebeeff9, 0x17b7be43, 0x60b08ed5],
    [0xd6d6a3e8, 0xa1d1937e, 0x38d8c2c4, 0x4fdff252,
     0xd1bb67f1, 0xa6bc5767, 0x3fb506dd, 0x48b2364b,
     0xd80d2bda, 0xaf0a1b4c, 0x36034af6, 0x41047a60,
     0xdf60efc3, 0xa867df55, 0x316e8eef, 0x4669be79],
    [0xcb61b38c, 0xbc66831a, 0x256fd2a0, 0x5268e236,
     0xcc0c7795, 0xbb0b4703, 0x220216b9, 0x5505262f,
     0xc5ba3bbe, 0xb2bd0b28, 0x2bb45a92, 0x5cb36a04,
     0xc2d7ffa7, 0xb5d0cf31, 0x2cd99e8b, 0x5bdeae1d],
    [0x9b64c2b0, 0xec63f226, 0x756aa39c, 0x026d930a,
     0x9c0906a9, 0xeb0e363f, 0x72076785, 0x05005713,
     0x95bf4a82, 0xe2b87a14, 0x7bb12bae, 0x0cb61b38,
     0x92d28e9b, 0xe5d5be0d, 0x7cdcefb7, 0x0bdbdf21],
    [0x86d3d2d4, 0xf1d4e242, 0x68ddb3f8, 0x1fda836e,
     0x81be16cd, 0xf6b9265b, 0x6fb077e1, 0x18b74777,
     0x88085ae6, 0xff0f6a70, 0x66063bca, 0x11010b5c,
     0x8f659eff, 0xf862ae69, 0x616bffd3, 0x166ccf45],
    [0xa00ae278, 0xd70dd2ee, 0x4e048354, 0x3903b3c2,
     0xa7672661, 0xd06016f7, 0x4969474d, 0x3e6e77db,
     0xaed16a4a, 0xd9d65adc, 0x40df0b66, 0x37d83bf0,
     0xa9bcae53, 0xdebb9ec5, 0x47b2cf7f, 0x30b5ffe9],
    [0xbdbdf21c, 0xcabac28a, 0x53b39330, 0x24b4a3a6,
     0xbad03605, 0xcdd70693, 0x54de5729, 0x23d967bf,
     0xb3667a2e, 0xc4614ab8, 0x5d681b02, 0x2a6f2b94,
     0xb40bbe37, 0xc30c8ea1, 0x5a05df1b, 0x2d02ef8d]
  ]

  const ZERO_BITS: seq<bool> := Zeros(8)

  /** What a byte does to the register once it has been added to its low bits. */
  function Eight(c: bv32): bv32 {
    Shifted(c, ZERO_BITS)
  }

  function Step(c: bv32): bv32 {
    ShiftIn(c, false)
  }

  function EightSteps(c: bv32): bv32 {
    Step(Step(Step(Step(Step(Step(Step(Step(c))))))))
  }

  lemma EightIsEightSteps(c: bv32)
    ensures Eight(c) == EightSteps(c)
  {
    assert Zeros(8) == [false, false, false, false, false, false, false, false];
    FoldedByte(ShiftIn, c, false, false, false, false, false, false, false, false);
  }

  function Lookup(table: seq<seq<bv32>>, i: bv8): bv32
    requires Square(table)
  {
    table[(i >> 4) as nat][(i & 15) as nat]
  }

  predicate Square(table: seq<seq<bv32>>) {
    |table| == 16 && forall r :: 0 <= r < 16 ==> |table[r]| == 16
  }

  /** A table that does eight bit steps at once. */
  ghost predicate IsTable(table: seq<seq<bv32>>) {
    Square(table) && forall i: bv8 :: Lookup(table, i) == Eight(i as bv32)
  }

  lemma Row0(i: bv8)
    requires i >> 4 == 0
    ensures Square(TABLE)
    ensures Lookup(TABLE, i) == EightSteps(i as bv32)
  {
    assert i == 0x00 || i == 0x01 || i == 0x02 || i == 0x03 || i == 0x04 || i == 0x05 || i == 0x06 || i == 0x07
        || i == 0x08 || i == 0x09 || i == 0x0a || i == 0x0b || i == 0x0c || i == 0x0d || i == 0x0e || i == 0x0f;
  }

  lemma Row1(i: bv8)
    requires i >> 4 == 1
    ensures Square(TABLE)
    ensures Lookup(TABLE, i) == EightSteps(i as bv32)
  {
    assert i == 0x10 || i == 0x11 || i == 0x12 || i == 0x13 || i == 0x14 || i == 0x15 || i == 0x16 || i == 0x17
        || i == 0x18 || i == 0x19 || i == 0x1a || i == 0x1b || i == 0x1c || i == 0x1d || i == 0x1e || i == 0x1f;
  }

  lemma Row2(i: bv8)
    requires i >> 4 == 2
    ensures Square(TABLE)
    ensures Lookup(TABLE, i) == EightSteps(i as bv32)
  {
    assert i == 0x20 || i == 0x21 || i == 0x22 || i == 0x23 || i == 0x24 || i == 0x25 || i == 0x26 || i == 0x27
        || i == 0x28 || i == 0x29 || i == 0x2a || i == 0x2b || i == 0x2c || i == 0x2d || i == 0x2e || i == 0x2f;
  }

  lemma Row3(i: bv8)
    requires i >> 4 == 3
    ensures Square(TABLE)
    ensures Lookup(TABLE, i) == EightSteps(i as bv32)
  {
    assert i == 0x30 || i == 0x31 || i == 0x32 || i == 0x33 || i == 0x34 || i == 0x35 || i == 0x36 || i == 0x37
        || i == 0x38 || i == 0x39 || i == 0x3a || i == 0x3b || i == 0x3c || i == 0x3d || i == 0x3e || i == 0x3f;
  }

  lemma Row4(i: bv8)
    requires i >> 4 == 4
    ensures Square(TABLE)
    ensures Lookup(TABLE, i) == EightSteps(i as bv32)
  {
    assert i == 0x40 || i == 0x41 || i == 0x42 || i == 0x43 || i == 0x44 || i == 0x45 || i == 0x46 || i == 0x47
        || i == 0x48 || i == 0x49 || i == 0x4a || i == 0x4b || i == 0x4c || i == 0x4d || i == 0x4e || i == 0x4f;
  }

  lemma Row5(i: bv8)
    requires i >> 4 == 5
    ensures Square(TABLE)
    ensures Lookup(TABLE, i) == EightSteps(i as bv32)
  {
    assert i == 0x50 || i == 0x51 || i == 0x52 || i == 0x53 || i == 0x54 || i == 0x55 || i == 0x56 || i == 0x57
        || i == 0x58 || i == 0x59 || i == 0x5a || i == 0x5b || i == 0x5c || i == 0x5d || i == 0x5e || i == 0x5f;
  }

  lemma Row6(i: bv8)
    requires i >> 4 == 6
    ensures Square(TABLE)
    ensures Lookup(TABLE, i) == EightSteps(i as bv32)
  {
    assert i == 0x60 || i == 0x61 || i == 0x62 || i == 0x63 || i == 0x64 || i == 0x65 || i == 0x66 || i == 0x67
        || i == 0x68 || i == 0x69 || i == 0x6a || i == 0x6b || i == 0x6c || i == 0x6d || i == 0x6e || i == 0x6f;
  }

  lemma Row7(i: bv8)
    requires i >> 4 == 7
    ensures Square(TABLE)
    ensures Lookup(TABLE, i) == EightSteps(i as bv32)
  {
    assert i == 0x70 || i == 0x71 || i == 0x72 || i == 0x73 || i == 0x74 || i == 0x75 || i == 0x76 || i == 0x77
        || i == 0x78 || i == 0x79 || i == 0x7a || i == 0x7b || i == 0x7c || i == 0x7d || i == 0x7e || i == 0x7f;
  }

  lemma Row8(i: bv8)
    requires i >> 4 == 8
    ensures Square(TABLE)
    ensures Lookup(TABLE, i) == EightSteps(i as bv32)
  {
    assert i == 0x80 || i == 0x81 || i == 0x82 || i == 0x83 || i == 0x84 || i == 0x85 || i == 0x86 || i == 0x87
        || i == 0x88 || i == 0x89 || i == 0x8a || i == 0x8b || i == 0x8c || i == 0x8d || i == 0x8e || i == 0x8f;
  }

  lemma Row9(i: bv8)
    requires i >> 4 == 9
    ensures Square(TABLE)
    ensures Lookup(TABLE, i) == EightSteps(i as bv32)
  {
    assert i == 0x90 || i == 0x91 || i == 0x92 || i == 0x93 || i == 0x94 || i == 0x95 || i == 0x96 || i == 0x97
        || i == 0x98 || i == 0x99 || i == 0x9a || i == 0x9b || i == 0x9c || i == 0x9d || i == 0x9e || i == 0x9f;
  }

  lemma Row10(i: bv8)
    requires i >> 4 == 10
    ensures Square(TABLE)
    ensures Lookup(TABLE, i) == EightSteps(i as bv32)
  {
    assert i == 0xa0 || i == 0xa1 || i == 0xa2 || i == 0xa3 || i == 0xa4 || i == 0xa5 || i == 0xa6 || i == 0xa7
        || i == 0xa8 || i == 0xa9 || i == 0xaa || i == 0xab || i == 0xac || i == 0xad || i == 0xae || i == 0xaf;
  }

  lemma Row11(i: bv8)
    requires i >> 4 == 11
    ensures Square(TABLE)
    ensures Lookup(TABLE, i) == EightSteps(i as bv32)
  {
    assert i == 0xb0 || i == 0xb1 || i == 0xb2 || i == 0xb3 || i == 0xb4 || i == 0xb5 || i == 0xb6 || i == 0xb7
        || i == 0xb8 || i == 0xb9 || i == 0xba || i == 0xbb || i == 0xbc || i == 0xbd || i == 0xbe || i == 0xbf;
  }

  lemma Row12(i: bv8)
    requires i >> 4 == 12
    ensures Square(TABLE)
    ensures Lookup(TABLE, i) == EightSteps(i as bv32)
  {
    assert i == 0xc0 || i == 0xc1 || i == 0xc2 || i == 0xc3 || i == 0xc4 || i == 0xc5 || i == 0xc6 || i == 0xc7
        || i == 0xc8 || i == 0xc9 || i == 0xca || i == 0xcb || i == 0xcc || i == 0xcd || i == 0xce || i == 0xcf;
  }

  lemma Row13(i: bv8)
    requires i >> 4 == 13
    ensures Square(TABLE)
    ensures Lookup(TABLE, i) == EightSteps(i as bv32)
  {
    assert i == 0xd0 || i == 0xd1 || i == 0xd2 || i == 0xd3 || i == 0xd4 || i == 0xd5 || i == 0xd6 || i == 0xd7
        || i == 0xd8 || i == 0xd9 || i == 0xda || i == 0xdb || i == 0xdc || i == 0xdd || i == 0xde || i == 0xdf;
  }

  lemma Row14(i: bv8)
    requires i >> 4 == 14
    ensures Square(TABLE)
    ensures Lookup(TABLE, i) == EightSteps(i as bv32)
  {
    assert i == 0xe0 || i == 0xe1 || i == 0xe2 || i == 0xe3 || i == 0xe4 || i == 0xe5 || i == 0xe6 || i == 0xe7
        || i == 0xe8 || i == 0xe9 || i == 0xea || i == 0xeb || i == 0xec || i == 0xed || i == 0xee || i == 0xef;
  }

  lemma Row15(i: bv8)
    requires i >> 4 == 15
    ensures Square(TABLE)
    ensures Lookup(TABLE, i) == EightSteps(i as bv32)
  {
    assert i == 0xf0 || i == 0xf1 || i == 0xf2 || i == 0xf3 || i == 0xf4 || i == 0xf5 || i == 0xf6 || i == 0xf7
        || i == 0xf8 || i == 0xf9 || i == 0xfa || i == 0xfb || i == 0xfc || i == 0xfd || i == 0xfe || i == 0xff;
  }

  lemma RowOk(i: bv8)
    ensures Square(TABLE)
    ensures Lookup(TABLE, i) == EightSteps(i as bv32)
  {
    match i >> 4
    case 0 => Row0(i);
    case 1 => Row1(i);
    case 2 => Row2(i);
    case 3 => Row3(i);
    case 4 => Row4(i);
    case 5 => Row5(i);
    case 6 => Row6(i);
    case 7 => Row7(i);
    case 8 => Row8(i);
    case 9 => Row9(i);
    case 10 => Row10(i);
    case 11 => Row11(i);
    case 12 => Row12(i);
    case 13 => Row13(i);
    case 14 => Row14(i);
    case _ => Row15(i);
  }

  lemma EntryOk(i: bv8)
    ensures Square(TABLE)
    ensures Lookup(TABLE, i) == Eight(i as bv32)
  {
    EightIsEightSteps(i as bv32);
    RowOk(i);
  }

  /** Every one of the 256 constants is the polynomial's own. */
  lemma TableOk()
    ensures IsTable(TABLE)
  {
    forall i: bv8 ensures Square(TABLE) && Lookup(TABLE, i) == Eight(i as bv32) {
      EntryOk(i);
    }
  }

  // ----- the byte step is eight bit steps -----

  /** The low byte of the register, with b added to it, as a table index. */
  function Index(c: bv32, b: bv8): bv8 {
    ((c ^ b as bv32) & 0xff) as bv8
  }

  function Xor(c: bv32, d: bv32): bv32 {
    c ^ d
  }

  lemma Slide(x: bv32, y: bv32)
    ensures ShiftIn(x ^ y, false) == ShiftIn(x, y & 1 == 1) ^ (y >> 1)
  {
  }

  function Half(y: bv32): bv32 {
    y >> 1
  }

  predicate Low(y: bv32) {
    y & 1 == 1
  }

  lemma XorMovesDown(x: bv32, y: bv32)
    requires ShiftIn(x ^ y, false) == ShiftIn(x, y & 1 == 1) ^ (y >> 1)
    ensures MovesDown(ShiftIn, Xor, Low, Half, x, y)
  {
    var f: (bv32, bool) -> bv32, add: (bv32, bv32) -> bv32 := ShiftIn, Xor;
    var low: bv32 -> bool, half: bv32 -> bv32 := Low, Half;
    MovesDownFrom(f, add, low, half, x, y, x ^ y, y & 1 == 1, y >> 1, ShiftIn(x, y & 1 == 1));
  }

  lemma SlidesDown(c: bv32, y: bv32, n: nat)
    ensures Folded(ShiftIn, Xor(c, y), Zeros(n)) == Xor(Folded(ShiftIn, c, LowBits(Low, Half, y, n)), Repeated(Half, y, n))
  {
    assert AllMoveDown(ShiftIn, Xor, Low, Half) by {
      forall x, y ensures MovesDown(ShiftIn, Xor, Low, Half, x, y) {
        Slide(x, y);
        XorMovesDown(x, y);
      }
    }
    FoldedSlides(ShiftIn, Xor, Low, Half, c, y, n);
  }

  lemma ByteLow(b: bv8)
    ensures var y0 := b as bv32; var y1 := y0 >> 1; var y2 := y1 >> 1; var y3 := y2 >> 1; var y4 := y3 >> 1;
            var y5 := y4 >> 1; var y6 := y5 >> 1; var y7 := y6 >> 1;
            && Bit(b, 1) == Low(y0) && Bit(b, 2) == Low(y1) && Bit(b, 4) == Low(y2) && Bit(b, 8) == Low(y3)
            && Bit(b, 16) == Low(y4) && Bit(b, 32) == Low(y5) && Bit(b, 64) == Low(y6) && Bit(b, 128) == Low(y7)
            && y7 >> 1 == 0
  {
  }

  lemma LowBitsOfByte(b: bv8)
    ensures LowBits(Low, Half, b as bv32, 8) == BitsOf(b)
    ensures Repeated(Half, b as bv32, 8) == 0
  {
    var y0 := b as bv32; var y1 := y0 >> 1; var y2 := y1 >> 1; var y3 := y2 >> 1; var y4 := y3 >> 1;
    var y5 := y4 >> 1; var y6 := y5 >> 1; var y7 := y6 >> 1;
    ByteLow(b);
    LowBitsOfEight(Low, Half, y0, y1, y2, y3, y4, y5, y6, y7);
  }

  lemma ZeroLow(y0: bv32)
    requires y0 & 0xff == 0
    ensures var y1 := Half(y0); var y2 := Half(y1); var y3 := Half(y2); var y4 := Half(y3);
            var y5 := Half(y4); var y6 := Half(y5); var y7 := Half(y6);
            !Low(y0) && !Low(y1) && !Low(y2) && !Low(y3) && !Low(y4) && !Low(y5) && !Low(y6) && !Low(y7)
  {
  }

  lemma HalvedByte(y: bv32)
    ensures Half(Half(Half(Half(Half(Half(Half(Half(y)))))))) == y >> 8
  {
  }

  lemma LowBitsOfZero(y0: bv32)
    requires y0 & 0xff == 0
    ensures LowBits(Low, Half, y0, 8) == ZERO_BITS
  {
    var y1 := Half(y0); var y2 := Half(y1); var y3 := Half(y2); var y4 := Half(y3);
    var y5 := Half(y4); var y6 := Half(y5); var y7 := Half(y6);
    ZeroLow(y0);
    LowBitsOfEight(Low, Half, y0, y1, y2, y3, y4, y5, y6, y7);
  }

  lemma HalvedEightTimes(y0: bv32)
    ensures Repeated(Half, y0, 8) == y0 >> 8
  {
    var y1 := Half(y0); var y2 := Half(y1); var y3 := Half(y2); var y4 := Half(y3);
    var y5 := Half(y4); var y6 := Half(y5); var y7 := Half(y6);
    HalvedByte(y0);
    LowBitsOfEight(Low, Half, y0, y1, y2, y3, y4, y5, y6, y7);
  }

  lemma EightTakes(c: bv32, y: bv32, bits: seq<bool>)
    requires LowBits(Low, Half, y, 8) == bits && Repeated(Half, y, 8) == 0
    ensures Eight(c ^ y) == Shifted(c, bits)
  {
    SlidesDown(c, y, 8);
  }

  lemma EightIsBits(c: bv32, b: bv8)
    ensures Eight(c ^ b as bv32) == Shifted(c, BitsOf(b))
  {
    LowBitsOfByte(b);
    EightTakes(c, b as bv32, BitsOf(b));
  }

  lemma EightSlides(x: bv32, y: bv32)
    requires y & 0xff == 0
    ensures Eight(x ^ y) == Eight(x) ^ (y >> 8)
  {
    SlidesDown(x, y, 8);
    LowBitsOfZero(y);
    HalvedEightTimes(y);
  }

  /** sum is high on top of low, and high is moved once the byte below it is gone. */
  ghost predicate Splits(sum: bv32, low: bv32, high: bv32, moved: bv32) {
    high & 0xff == 0 && sum == low ^ high && moved == high >> 8
  }

  lemma EightSplits(sum: bv32, low: bv32, high: bv32, moved: bv32)
    requires Splits(sum, low, high, moved)
    ensures Eight(sum) == Eight(low) ^ moved
  {
    EightSlides(low, high);
  }

  lemma IndexSplits(c: bv32, b: bv8)
    ensures Splits(c ^ b as bv32, Index(c, b) as bv32, c & 0xffffff00, c >> 8)
  {
  }

  /** e is the table's entry for the low byte. */
  lemma FedIsEight(c: bv32, b: bv8, e: bv32)
    requires e == Eight(Index(c, b) as bv32)
    ensures e ^ (c >> 8) == Eight(c ^ b as bv32)
  {
    IndexSplits(c, b);
    EightSplits(c ^ b as bv32, Index(c, b) as bv32, c & 0xffffff00, c >> 8);
  }

  lemma ByteShifted(c: bv32, b: bv8, e: bv32)
    requires e == Eight(Index(c, b) as bv32)
    ensures e ^ (c >> 8) == Shifted(c, BitsOf(b))
  {
    FedIsEight(c, b, e);
    EightIsBits(c, b);
  }

  lemma MessageGrows<C>(f: (C, bool) -> C, c: C, msg: seq<bv8>, b: bv8)
    ensures Folded(f, c, Bits(msg + [b])) == Folded(f, Folded(f, c, Bits(msg)), BitsOf(b))
  {
    BitsAppend(msg, [b]);
    var bits := BitsOf(b);
    assert Bits([b]) == bits;
    FoldedAppend(f, c, Bits(msg), bits);
  }

  lemma NextCrc(start: bv32, msg: seq<bv8>, b: bv8, crc: bv32, e: bv32)
    requires crc == Shifted(start, Bits(msg)) && e == Eight(Index(crc, b) as bv32)
    ensures e ^ (crc >> 8) == Shifted(start, Bits(msg + [b]))
  {
    ByteShifted(crc, b, e);
    MessageGrows(ShiftIn, start, msg, b);
  }

  method Update(table: seq<seq<bv32>>, start: bv32, buf: array<bv8>) returns (crc: bv32)
    requires IsTable(table)
    ensures crc == Shifted(start, Bits(buf[..]))
  {
    crc := start;
    ghost var bits := Bits(buf[..0]);
    for k := 0 to buf.Length
      invariant bits == Bits(buf[..k])
      invariant crc == Shifted(start, bits)
    {
      var entry := Lookup(table, Index(crc, buf[k]));
      NextCrc(start, buf[..k], buf[k], crc, entry);
      assert buf[..k + 1] == buf[..k] + [buf[k]];
      bits := Bits(buf[..k + 1]);
      crc := entry ^ (crc >> 8);
    }
    assert buf[..buf.Length] == buf[..];
  }

  /** The loop over the table computes the bit-at-a-time CRC of the buffer, whatever it starts from. */
  method DebugLinkCrc32(start: bv32, buf: array<bv8>) returns (out: bv32)
    ensures out == Crc(start, buf[..])
  {
    TableOk();
    assert !start & 0xffffffff == !start;
    var crc := Update(TABLE, !start & 0xffffffff, buf);
    out := !crc & 0xffffffff;
  }

  lemma FoldContinues<C>(f: (C, bool) -> C, c: C, a: seq<bv8>, b: seq<bv8>)
    ensures Folded(f, Folded(f, c, Bits(a)), Bits(b)) == Folded(f, c, Bits(a + b))
  {
    BitsAppend(a, b);
    FoldedAppend(f, c, Bits(a), Bits(b));
  }

  lemma ShiftedContinues(start: bv32, a: seq<bv8>, b: seq<bv8>, middle: bv32)
    requires middle == Shifted(start, Bits(a))
    ensures Shifted(middle, Bits(b)) == Shifted(start, Bits(a + b))
  {
    FoldContinues(ShiftIn, start, a, b);
  }

  lemma NotNot(c: bv32)
    ensures !!c == c
  {
  }

  lemma CrcFromMiddle(crc: bv32, a: seq<bv8>, b: seq<bv8>, middle: bv32, restart: bv32)
    requires middle == Shifted(!crc, Bits(a)) && middle == restart
    ensures !Shifted(restart, Bits(b)) == Crc(crc, a + b)
  {
    ShiftedContinues(!crc, a, b, middle);
  }

  /** Continuing from the result of one buffer with the next is one pass over both. */
  lemma CrcContinues(crc: bv32, a: seq<bv8>, b: seq<bv8>)
    ensures Crc(Crc(crc, a), b) == Crc(crc, a + b)
  {
    var middle := Shifted(!crc, Bits(a));
    NotNot(middle);
    CrcFromMiddle(crc, a, b, middle, !!middle);
  }

  lemma OneByte(b: bv8, i: bv8, e: bv32, crc: bv32)
    requires i == Index(0xffff_ffff, b) && e == Eight(i as bv32) && crc == !(e ^ (0xffff_ffff >> 8))
    ensures Crc(0, [b]) == crc
  {
    var start: bv32 := 0xffff_ffff;
    assert Bits([]) == [] && [] + [b] == [b];
    NextCrc(start, [], b, start, e);
    assert !(0 as bv32) == start;
  }

  /** The checksum of the one letter a, as every implementation of RFC 1952 gives it. */
  lemma CheckValue()
    ensures Crc(0, [0x61]) == 0xe8b7_be43
  {
    EntryOk(0x9e);
    assert Lookup(TABLE, 0x9e) == 0x17b7_be43 && Index(0xffff_ffff, 0x61) == 0x9e;
    OneByte(0x61, 0x9e, 0x17b7_be43, 0xe8b7_be43);
  }

  // ----- what the check can rely on -----

  lemma ShiftInIsInjective(c: bv32, d: bv32, bit: bool)
    requires c != d
    ensures ShiftIn(c, bit) != ShiftIn(d, bit)
  {
  }

  lemma ShiftedIsInjective(c: bv32, d: bv32, bits: seq<bool>)
    requires c != d
    ensures Shifted(c, bits) != Shifted(d, bits)
  {
    forall x, y, b | x != y ensures ShiftIn(x, b) != ShiftIn(y, b) {
      ShiftInIsInjective(x, y, b);
    }
    FoldedIsInjective(ShiftIn, c, d, bits);
  }

  lemma EightIsInjective(c: bv32, d: bv32)
    requires c != d
    ensures Eight(c) != Eight(d)
  {
    ShiftedIsInjective(c, d, ZERO_BITS);
  }

  function Word(x0: bv8, x1: bv8, x2: bv8, x3: bv8): bv32 {
    x0 as bv32 | (x1 as bv32 << 8) | (x2 as bv32 << 16) | (x3 as bv32 << 24)
  }

  lemma WordBytes(x0: bv8, x1: bv8, x2: bv8, x3: bv8)
    ensures var w := Word(x0, x1, x2, x3);
            && w & 0xff == x0 as bv32 && w >> 8 == Word(x1, x2, x3, 0)
  {
  }

  lemma WordIsInjective(x0: bv8, x1: bv8, x2: bv8, x3: bv8, y0: bv8, y1: bv8, y2: bv8, y3: bv8)
    requires Word(x0, x1, x2, x3) == Word(y0, y1, y2, y3)
    ensures x0 == y0 && x1 == y1 && x2 == y2 && x3 == y3
  {
  }

  lemma FourFolded<C>(f: (C, bool) -> C, c: C, x0: bv8, x1: bv8, x2: bv8, x3: bv8, c1: C, c2: C, c3: C)
    requires c1 == Folded(f, c, BitsOf(x0)) && c2 == Folded(f, c1, BitsOf(x1)) && c3 == Folded(f, c2, BitsOf(x2))
    ensures Folded(f, c, Bits([x0, x1, x2, x3])) == Folded(f, c3, BitsOf(x3))
  {
    MessageGrows(f, c, [], x0);
    MessageGrows(f, c, [x0], x1);
    MessageGrows(f, c, [x0, x1], x2);
    MessageGrows(f, c, [x0, x1, x2], x3);
    assert [] + [x0] == [x0] && [x0] + [x1] == [x0, x1] && [x0, x1] + [x2] == [x0, x1, x2];
    assert [x0, x1, x2] + [x3] == [x0, x1, x2, x3];
  }

  lemma WordSplits(c: bv32, w: bv32, x: bv8)
    requires x as bv32 == w & 0xff
    ensures Splits(c ^ w, c ^ x as bv32, w & 0xffffff00, w >> 8)
  {
  }

  /** A byte at the bottom of a word goes in; the rest of the word waits, moved down. */
  lemma ByteGoesIn(c: bv32, w: bv32, x: bv8, c1: bv32, w1: bv32)
    requires x as bv32 == w & 0xff && w1 == w >> 8 && c1 == Shifted(c, BitsOf(x))
    ensures Eight(c ^ w) == c1 ^ w1
  {
    WordSplits(c, w, x);
    EightSplits(c ^ w, c ^ x as bv32, w & 0xffffff00, w1);
    EightIsBits(c, x);
  }

  ghost predicate GoesIn(c: bv32, w: bv32, c1: bv32, w1: bv32) {
    Eight(c ^ w) == c1 ^ w1
  }

  /** The first byte of a word goes in; the word moves down. */
  lemma WordGoesIn(c: bv32, x0: bv8, x1: bv8, x2: bv8, x3: bv8)
    ensures GoesIn(c, Word(x0, x1, x2, x3), Shifted(c, BitsOf(x0)), Word(x1, x2, x3, 0))
  {
    WordBytes(x0, x1, x2, x3);
    ByteGoesIn(c, Word(x0, x1, x2, x3), x0, Shifted(c, BitsOf(x0)), Word(x1, x2, x3, 0));
  }

  /** Two registers differ by more than the words still to come. */
  ghost predicate Apart(c: bv32, w: bv32, d: bv32, v: bv32) {
    c ^ w != d ^ v
  }

  lemma StayApart(c: bv32, w: bv32, c1: bv32, w1: bv32, d: bv32, v: bv32, d1: bv32, v1: bv32)
    requires Apart(c, w, d, v) && GoesIn(c, w, c1, w1) && GoesIn(d, v, d1, v1)
    ensures Apart(c1, w1, d1, v1)
  {
    EightIsInjective(c ^ w, d ^ v);
  }

  lemma StepApart(c: bv32, x0: bv8, x1: bv8, x2: bv8, x3: bv8, d: bv32, y0: bv8, y1: bv8, y2: bv8, y3: bv8,
                  c1: bv32, d1: bv32)
    requires Apart(c, Word(x0, x1, x2, x3), d, Word(y0, y1, y2, y3))
    requires c1 == Shifted(c, BitsOf(x0)) && d1 == Shifted(d, BitsOf(y0))
    ensures Apart(c1, Word(x1, x2, x3, 0), d1, Word(y1, y2, y3, 0))
  {
    WordGoesIn(c, x0, x1, x2, x3);
    WordGoesIn(d, y0, y1, y2, y3);
    StayApart(c, Word(x0, x1, x2, x3), c1, Word(x1, x2, x3, 0), d, Word(y0, y1, y2, y3), d1, Word(y1, y2, y3, 0));
  }

  lemma WordsApart(c: bv32, x0: bv8, x1: bv8, x2: bv8, x3: bv8, y0: bv8, y1: bv8, y2: bv8, y3: bv8)
    requires [x0, x1, x2, x3] != [y0, y1, y2, y3]
    ensures Apart(c, Word(x0, x1, x2, x3), c, Word(y0, y1, y2, y3))
  {
    if Word(x0, x1, x2, x3) == Word(y0, y1, y2, y3) {
      WordIsInjective(x0, x1, x2, x3, y0, y1, y2, y3);
    } else {
      XorIsInjective(c, Word(x0, x1, x2, x3), Word(y0, y1, y2, y3));
    }
  }

  lemma XorIsInjective(c: bv32, x: bv32, y: bv32)
    requires x != y
    ensures Apart(c, x, c, y)
  {
  }

  lemma NoneLeft(c: bv32, d: bv32)
    requires Apart(c, Word(0, 0, 0, 0), d, Word(0, 0, 0, 0))
    ensures c != d
  {
  }

  lemma FourBytesApart(c: bv32, x0: bv8, x1: bv8, x2: bv8, x3: bv8, y0: bv8, y1: bv8, y2: bv8, y3: bv8)
    requires [x0, x1, x2, x3] != [y0, y1, y2, y3]
    ensures Shifted(c, Bits([x0, x1, x2, x3])) != Shifted(c, Bits([y0, y1, y2, y3]))
  {
    var c1, d1 := Shifted(c, BitsOf(x0)), Shifted(c, BitsOf(y0));
    var c2, d2 := Shifted(c1, BitsOf(x1)), Shifted(d1, BitsOf(y1));
    var c3, d3 := Shifted(c2, BitsOf(x2)), Shifted(d2, BitsOf(y2));
    FourApart(c, x0, x1, x2, x3, y0, y1, y2, y3, c1, c2, c3, d1, d2, d3);
    FourFolded(ShiftIn, c, x0, x1, x2, x3, c1, c2, c3);
    FourFolded(ShiftIn, c, y0, y1, y2, y3, d1, d2, d3);
  }

  lemma FourApart(c: bv32, x0: bv8, x1: bv8, x2: bv8, x3: bv8, y0: bv8, y1: bv8, y2: bv8, y3: bv8,
                  c1: bv32, c2: bv32, c3: bv32, d1: bv32, d2: bv32, d3: bv32)
    requires [x0, x1, x2, x3] != [y0, y1, y2, y3]
    requires c1 == Shifted(c, BitsOf(x0)) && c2 == Shifted(c1, BitsOf(x1)) && c3 == Shifted(c2, BitsOf(x2))
    requires d1 == Shifted(c, BitsOf(y0)) && d2 == Shifted(d1, BitsOf(y1)) && d3 == Shifted(d2, BitsOf(y2))
    ensures Shifted(c3, BitsOf(x3)) != Shifted(d3, BitsOf(y3))
  {
    WordsApart(c, x0, x1, x2, x3, y0, y1, y2, y3);
    StepApart(c, x0, x1, x2, x3, c, y0, y1, y2, y3, c1, d1);
    StepApart(c1, x1, x2, x3, 0, d1, y1, y2, y3, 0, c2, d2);
    StepApart(c2, x2, x3, 0, 0, d2, y2, y3, 0, 0, c3, d3);
    StepApart(c3, x3, 0, 0, 0, d3, y3, 0, 0, 0, Shifted(c3, BitsOf(x3)), Shifted(d3, BitsOf(y3)));
    NoneLeft(Shifted(c3, BitsOf(x3)), Shifted(d3, BitsOf(y3)));
  }

  /** Whatever comes before and after, registers that once differ differ at the end. */
  lemma EndsApart<C(!new)>(f: (C, bool) -> C, c: C, before: seq<bv8>, x: seq<bv8>, y: seq<bv8>, after: seq<bv8>)
    requires forall x, y, b :: x != y ==> f(x, b) != f(y, b)
    requires var d := Folded(f, c, Bits(before)); Folded(f, d, Bits(x)) != Folded(f, d, Bits(y))
    ensures Folded(f, c, Bits(before + x + after)) != Folded(f, c, Bits(before + y + after))
  {
    FoldContinues(f, c, before, x);
    FoldContinues(f, c, before, y);
    FoldContinues(f, c, before + x, after);
    FoldContinues(f, c, before + y, after);
    FoldedIsInjective(f, Folded(f, c, Bits(before + x)), Folded(f, c, Bits(before + y)), Bits(after));
  }

  /** Two files that differ only inside one stretch of four bytes have different checksums, so a debug
      file damaged there is refused. */
  lemma BurstIsDetected(crc: bv32, before: seq<bv8>, x0: bv8, x1: bv8, x2: bv8, x3: bv8,
                        y0: bv8, y1: bv8, y2: bv8, y3: bv8, after: seq<bv8>)
    requires [x0, x1, x2, x3] != [y0, y1, y2, y3]
    ensures Crc(crc, before + [x0, x1, x2, x3] + after) != Crc(crc, before + [y0, y1, y2, y3] + after)
  {
    FourBytesApart(Shifted(!crc, Bits(before)), x0, x1, x2, x3, y0, y1, y2, y3);
    CrcsApart(crc, before, [x0, x1, x2, x3], [y0, y1, y2, y3], after);
  }

  lemma CrcsApart(crc: bv32, before: seq<bv8>, x: seq<bv8>, y: seq<bv8>, after: seq<bv8>)
    requires var d := Shifted(!crc, Bits(before)); Shifted(d, Bits(x)) != Shifted(d, Bits(y))
    ensures Crc(crc, before + x + after) != Crc(crc, before + y + after)
  {
    forall x, y, b | x != y ensures ShiftIn(x, b) != ShiftIn(y, b) {
      ShiftInIsInjective(x, y, b);
    }
    EndsApart(ShiftIn, !crc, before, x, y, after);
    NotIsInjective(Shifted(!crc, Bits(before + x + after)), Shifted(!crc, Bits(before + y + after)));
  }

  lemma NotIsInjective(c: bv32, d: bv32)
    requires c != d
    ensures !c != !d
  {
  }
}
