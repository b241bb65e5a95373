/** One-byte breakpoints patched through aligned 8-byte words on x86-64. Memory is read and written a word
    at a time; a byte of the word is replaced through a mask, and the other seven come back unchanged. */
module PtraceWords {
  /** The int3 opcode. */
  const INT3: bv8 := 0xcc

  type Memory = seq<bv8>

  // ----- getAligned, arch_setupBreakpoint, arch_clearBreakpoint -----

  function Aligned(addr: nat): nat {
    (addr / 8) * 8
  }

  /** 8 * offs for the byte of addr in its word. */
  function Shift(offs: nat): bv64
    requires offs < 8
  {
    if offs == 0 then 0 else if offs == 1 then 8 else if offs == 2 then 16 else if offs == 3 then 24
    else if offs == 4 then 32 else if offs == 5 then 40 else if offs == 6 then 48 else 56
  }

  function Offset(addr: nat): (offs: nat)
    ensures offs == addr % 8
  {
    addr - Aligned(addr)
  }

  /** The byte of w at shift s, as a word. */
  function At(w: bv64, s: bv64): bv64
    requires s <= 56
  {
    (w >> s) & 0xff
  }

  /** w with byte b put at shift s through the mask. */
  function Masked(w: bv64, s: bv64, b: bv64): bv64
    requires s <= 56
  {
    (w & !(0xff << s)) | (b << s)
  }

  function SetupBreakpoint(addr: nat, oldData: bv64): bv64 {
    Masked(oldData, Shift(Offset(addr)), 0xcc)
  }

  function ClearBreakpoint(addr: nat, oldData: bv64, curData: bv64): bv64 {
    var oldByte := At(oldData, Shift(Offset(addr)));
    Masked(curData, Shift(Offset(addr)), oldByte)
  }

  // ----- words of memory -----

  /** Its eight bytes, in memory order. */
  function Bytes(w: bv64): (r: seq<bv8>)
    ensures |r| == 8
  {
    [At(w, 0) as bv8, At(w, 8) as bv8, At(w, 16) as bv8, At(w, 24) as bv8,
     At(w, 32) as bv8, At(w, 40) as bv8, At(w, 48) as bv8, At(w, 56) as bv8]
  }

  function Pack(b: seq<bv8>): bv64
    requires |b| == 8
  {
    (b[0] as bv64) | ((b[1] as bv64) << 8) | ((b[2] as bv64) << 16) | ((b[3] as bv64) << 24)
    | ((b[4] as bv64) << 32) | ((b[5] as bv64) << 40) | ((b[6] as bv64) << 48) | ((b[7] as bv64) << 56)
  }

  /** PTRACE_PEEKTEXT */
  function PeekWord(m: Memory, at: nat): bv64
    requires at + 8 <= |m|
  {
    Pack(m[at..at + 8])
  }

  /** PTRACE_POKETEXT */
  function PokeWord(m: Memory, at: nat, w: bv64): (r: Memory)
    requires at + 8 <= |m|
    ensures |r| == |m|
  {
    m[..at] + Bytes(w) + m[at + 8..]
  }

  // ----- what the masks do, byte by byte -----

  lemma Unpack(b0: bv8, b1: bv8, b2: bv8, b3: bv8, b4: bv8, b5: bv8, b6: bv8, b7: bv8)
    ensures Bytes(Pack([b0, b1, b2, b3, b4, b5, b6, b7])) == [b0, b1, b2, b3, b4, b5, b6, b7]
  {
  }

  lemma PackedBytes(b: seq<bv8>)
    requires |b| == 8
    ensures Bytes(Pack(b)) == b
  {
    Unpack(b[0], b[1], b[2], b[3], b[4], b[5], b[6], b[7]);
    assert b == [b[0], b[1], b[2], b[3], b[4], b[5], b[6], b[7]];
  }

  // One lemma per byte: each is about constant shifts, which the solver settles by computation.

  lemma MaskByte0(b0: bv8, b1: bv8, b2: bv8, b3: bv8, b4: bv8, b5: bv8, b6: bv8, b7: bv8, x: bv8)
    ensures Masked(Pack([b0, b1, b2, b3, b4, b5, b6, b7]), 0, x as bv64) == Pack([x, b1, b2, b3, b4, b5, b6, b7])
  {
  }

  lemma MaskByte1(b0: bv8, b1: bv8, b2: bv8, b3: bv8, b4: bv8, b5: bv8, b6: bv8, b7: bv8, x: bv8)
    ensures Masked(Pack([b0, b1, b2, b3, b4, b5, b6, b7]), 8, x as bv64) == Pack([b0, x, b2, b3, b4, b5, b6, b7])
  {
  }

  lemma MaskByte2(b0: bv8, b1: bv8, b2: bv8, b3: bv8, b4: bv8, b5: bv8, b6: bv8, b7: bv8, x: bv8)
    ensures Masked(Pack([b0, b1, b2, b3, b4, b5, b6, b7]), 16, x as bv64) == Pack([b0, b1, x, b3, b4, b5, b6, b7])
  {
  }

  lemma MaskByte3(b0: bv8, b1: bv8, b2: bv8, b3: bv8, b4: bv8, b5: bv8, b6: bv8, b7: bv8, x: bv8)
    ensures Masked(Pack([b0, b1, b2, b3, b4, b5, b6, b7]), 24, x as bv64) == Pack([b0, b1, b2, x, b4, b5, b6, b7])
  {
  }

  lemma MaskByte4(b0: bv8, b1: bv8, b2: bv8, b3: bv8, b4: bv8, b5: bv8, b6: bv8, b7: bv8, x: bv8)
    ensures Masked(Pack([b0, b1, b2, b3, b4, b5, b6, b7]), 32, x as bv64) == Pack([b0, b1, b2, b3, x, b5, b6, b7])
  {
  }

  lemma MaskByte5(b0: bv8, b1: bv8, b2: bv8, b3: bv8, b4: bv8, b5: bv8, b6: bv8, b7: bv8, x: bv8)
    ensures Masked(Pack([b0, b1, b2, b3, b4, b5, b6, b7]), 40, x as bv64) == Pack([b0, b1, b2, b3, b4, x, b6, b7])
  {
  }

  lemma MaskByte6(b0: bv8, b1: bv8, b2: bv8, b3: bv8, b4: bv8, b5: bv8, b6: bv8, b7: bv8, x: bv8)
    ensures Masked(Pack([b0, b1, b2, b3, b4, b5, b6, b7]), 48, x as bv64) == Pack([b0, b1, b2, b3, b4, b5, x, b7])
  {
  }

  lemma MaskByte7(b0: bv8, b1: bv8, b2: bv8, b3: bv8, b4: bv8, b5: bv8, b6: bv8, b7: bv8, x: bv8)
    ensures Masked(Pack([b0, b1, b2, b3, b4, b5, b6, b7]), 56, x as bv64) == Pack([b0, b1, b2, b3, b4, b5, b6, x])
  {
  }

  /** Masking byte x in at k changes that byte of the word and no other. */
  lemma MaskByte(b: seq<bv8>, k: nat, x: bv8)
    requires |b| == 8 && k < 8
    ensures Masked(Pack(b), Shift(k), x as bv64) == Pack(b[k := x])
  {
    assert b == [b[0], b[1], b[2], b[3], b[4], b[5], b[6], b[7]];
    if k == 0 {
      assert b[0 := x] == [x, b[1], b[2], b[3], b[4], b[5], b[6], b[7]];
      MaskByte0(b[0], b[1], b[2], b[3], b[4], b[5], b[6], b[7], x);
    } else if k == 1 {
      assert b[1 := x] == [b[0], x, b[2], b[3], b[4], b[5], b[6], b[7]];
      MaskByte1(b[0], b[1], b[2], b[3], b[4], b[5], b[6], b[7], x);
    } else if k == 2 {
      assert b[2 := x] == [b[0], b[1], x, b[3], b[4], b[5], b[6], b[7]];
      MaskByte2(b[0], b[1], b[2], b[3], b[4], b[5], b[6], b[7], x);
    } else if k == 3 {
      assert b[3 := x] == [b[0], b[1], b[2], x, b[4], b[5], b[6], b[7]];
      MaskByte3(b[0], b[1], b[2], b[3], b[4], b[5], b[6], b[7], x);
    } else if k == 4 {
      assert b[4 := x] == [b[0], b[1], b[2], b[3], x, b[5], b[6], b[7]];
      MaskByte4(b[0], b[1], b[2], b[3], b[4], b[5], b[6], b[7], x);
    } else if k == 5 {
      assert b[5 := x] == [b[0], b[1], b[2], b[3], b[4], x, b[6], b[7]];
      MaskByte5(b[0], b[1], b[2], b[3], b[4], b[5], b[6], b[7], x);
    } else if k == 6 {
      assert b[6 := x] == [b[0], b[1], b[2], b[3], b[4], b[5], x, b[7]];
      MaskByte6(b[0], b[1], b[2], b[3], b[4], b[5], b[6], b[7], x);
    } else {
      assert b[7 := x] == [b[0], b[1], b[2], b[3], b[4], b[5], b[6], x];
      MaskByte7(b[0], b[1], b[2], b[3], b[4], b[5], b[6], b[7], x);
    }
  }

  lemma ByteAt0(w: bv64)
    ensures At(w, 0) == Bytes(w)[0] as bv64
  {
  }

  lemma ByteAt1(w: bv64)
    ensures At(w, 8) == Bytes(w)[1] as bv64
  {
  }

  lemma ByteAt2(w: bv64)
    ensures At(w, 16) == Bytes(w)[2] as bv64
  {
  }

  lemma ByteAt3(w: bv64)
    ensures At(w, 24) == Bytes(w)[3] as bv64
  {
  }

  lemma ByteAt4(w: bv64)
    ensures At(w, 32) == Bytes(w)[4] as bv64
  {
  }

  lemma ByteAt5(w: bv64)
    ensures At(w, 40) == Bytes(w)[5] as bv64
  {
  }

  lemma ByteAt6(w: bv64)
    ensures At(w, 48) == Bytes(w)[6] as bv64
  {
  }

  lemma ByteAt7(w: bv64)
    ensures At(w, 56) == Bytes(w)[7] as bv64
  {
  }

  lemma ByteAtLow(w: bv64, k: nat)
    requires k < 4
    ensures At(w, Shift(k)) == Bytes(w)[k] as bv64
  {
    if k == 0 {
      ByteAt0(w);
    } else if k == 1 {
      ByteAt1(w);
    } else if k == 2 {
      ByteAt2(w);
    } else {
      ByteAt3(w);
    }
  }

  lemma ByteAtHigh(w: bv64, k: nat)
    requires 4 <= k < 8
    ensures At(w, Shift(k)) == Bytes(w)[k] as bv64
  {
    if k == 4 {
      ByteAt4(w);
    } else if k == 5 {
      ByteAt5(w);
    } else if k == 6 {
      ByteAt6(w);
    } else {
      ByteAt7(w);
    }
  }

  lemma ByteAt(w: bv64, k: nat)
    requires k < 8
    ensures At(w, Shift(k)) == Bytes(w)[k] as bv64
  {
    if k < 4 {
      ByteAtLow(w, k);
    } else {
      ByteAtHigh(w, k);
    }
  }

  // ----- the same on memory -----

  lemma OneByteOf(m: Memory, at: nat, k: nat, x: bv8)
    requires at + 8 <= |m| && k < 8
    ensures m[..at] + m[at..at + 8][k := x] + m[at + 8..] == m[at + k := x]
  {
  }

  lemma MaskedBytes(b: seq<bv8>, k: nat, x: bv8)
    requires |b| == 8 && k < 8
    ensures Bytes(Masked(Pack(b), Shift(k), x as bv64)) == b[k := x]
  {
    MaskByte(b, k, x);
    PackedBytes(b[k := x]);
  }

  lemma PokePacked(m: Memory, at: nat, k: nat, x: bv8)
    requires at + 8 <= |m| && k < 8
    ensures PokeWord(m, at, Masked(PeekWord(m, at), Shift(k), x as bv64)) == m[at + k := x]
  {
    MaskedBytes(m[at..at + 8], k, x);
    OneByteOf(m, at, k, x);
  }

  lemma WordInside(m: Memory, addr: nat)
    requires addr < |m| && |m| % 8 == 0
    ensures Aligned(addr) + 8 <= |m| && Aligned(addr) + Offset(addr) == addr
  {
  }

  /** The saved word holds the byte at its address. */
  lemma PeekedByte(m: Memory, addr: nat)
    requires addr < |m| && |m| % 8 == 0
    ensures Aligned(addr) + 8 <= |m| && Bytes(PeekWord(m, Aligned(addr)))[Offset(addr)] == m[addr]
  {
    WordInside(m, addr);
    PackedBytes(m[Aligned(addr)..Aligned(addr) + 8]);
  }

  /** Peek, set, poke: one byte of memory becomes int3. */
  lemma PokeSetup(m: Memory, addr: nat)
    requires addr < |m| && |m| % 8 == 0
    ensures var at := Aligned(addr);
            at + 8 <= |m| && PokeWord(m, at, SetupBreakpoint(addr, PeekWord(m, at))) == m[addr := INT3]
  {
    WordInside(m, addr);
    PokePacked(m, Aligned(addr), Offset(addr), INT3);
  }

  /** Peek, clear, poke: that byte alone is put back, whatever else the saved word holds. */
  lemma PokeClear(m: Memory, addr: nat, saved: bv64)
    requires addr < |m| && |m| % 8 == 0
    ensures var at := Aligned(addr);
            at + 8 <= |m| && PokeWord(m, at, ClearBreakpoint(addr, saved, PeekWord(m, at)))
                             == m[addr := Bytes(saved)[Offset(addr)]]
  {
    WordInside(m, addr);
    ByteAt(saved, Offset(addr));
    PokePacked(m, Aligned(addr), Offset(addr), Bytes(saved)[Offset(addr)]);
  }
}
