/** Byte buffers, fixed-width integers and C strings, as the file formats of kcov use them. Integers are natural
    numbers below 256^n of a width n that is given with them; `little` says whether the host is little-endian, and
    whatever is proved here is proved for both kinds of host. */
module Bytes {
  type byte = x: int | 0 <= x < 256

  const U16: nat := 0x1_0000
  const U32: nat := 0x1_0000_0000
  const U64: nat := 0x1_0000_0000_0000_0000
  /** Bit 63 of a 64-bit word. */
  const TOP: nat := 0x8000_0000_0000_0000

  type u32 = x: int | 0 <= x < 0x1_0000_0000
  type u64 = x: int | 0 <= x < 0x1_0000_0000_0000_0000

  // ----- integers as bytes -----

  function Pow256(n: nat): (r: nat)
    ensures r > 0
  {
    if n == 0 then 1 else 256 * Pow256(n - 1)
  }

  /** Byte i of v, counted from the least significant. */
  function Digit(v: nat, i: nat): byte {
    if i == 0 then v % 256 else Digit(v / 256, i - 1)
  }

  /** The n low bytes of v, least significant first. */
  function LeBytes(v: nat, n: nat): (r: seq<byte>)
    ensures |r| == n
  {
    seq(n, i requires 0 <= i < n => Digit(v, i))
  }

  function LeValue(s: seq<byte>): (v: nat)
  {
    if s == [] then 0 else s[0] + 256 * LeValue(s[1..])
  }

  function Reversed(s: seq<byte>): (r: seq<byte>)
    ensures |r| == |s| && forall i :: 0 <= i < |s| ==> r[i] == s[|s| - 1 - i]
  {
    seq(|s|, i requires 0 <= i < |s| => s[|s| - 1 - i])
  }

  /** The bytes a host stores for v. */
  function Native(little: bool, v: nat, n: nat): (r: seq<byte>)
    ensures |r| == n
  {
    if little then LeBytes(v, n) else Reversed(LeBytes(v, n))
  }

  function FromNative(little: bool, s: seq<byte>): nat {
    if little then LeValue(s) else LeValue(Reversed(s))
  }

  function BigEndian(v: nat, n: nat): (r: seq<byte>)
    ensures |r| == n
  {
    Reversed(LeBytes(v, n))
  }

  function BeValue(s: seq<byte>): nat {
    LeValue(Reversed(s))
  }

  /** swap_endian: the value whose bytes are those of u in reverse. */
  function Swapped(u: nat, n: nat): nat {
    LeValue(Reversed(LeBytes(u, n)))
  }

  /** to_be and be_to_host are this same function of the host's byte order. */
  function ToBe(little: bool, u: nat, n: nat): nat {
    if little then Swapped(u, n) else u
  }

  lemma {:induction false} LeBound(s: seq<byte>)
    ensures LeValue(s) < Pow256(|s|)
  {
    if s != [] {
      LeBound(s[1..]);
    }
  }

  lemma {:induction false} LeRoundTrip(v: nat, n: nat)
    requires v < Pow256(n)
    ensures LeValue(LeBytes(v, n)) == v
  {
    if n > 0 {
      assert LeBytes(v, n)[1..] == LeBytes(v / 256, n - 1);
      LeRoundTrip(v / 256, n - 1);
    }
  }

  lemma {:induction false} LeBytesOfValue(s: seq<byte>)
    ensures LeBytes(LeValue(s), |s|) == s
  {
    if s != [] {
      LeBytesOfValue(s[1..]);
      var v := LeValue(s);
      assert v % 256 == s[0] && v / 256 == LeValue(s[1..]);
      forall i: nat | i < |s| ensures LeBytes(v, |s|)[i] == s[i] {
        if i > 0 {
          assert LeBytes(v, |s|)[i] == LeBytes(v / 256, |s| - 1)[i - 1];
        }
      }
    }
  }

  lemma ReversedTwice(s: seq<byte>)
    ensures Reversed(Reversed(s)) == s
  {
  }

  /** Whatever the host's byte order, storing to_be(u) puts u in the buffer most significant byte first. */
  lemma ToBeStoresBigEndian(little: bool, u: nat, n: nat)
    ensures Native(little, ToBe(little, u, n), n) == BigEndian(u, n)
  {
    if little {
      LeBytesOfValue(Reversed(LeBytes(u, n)));
    }
  }

  /** be_to_host(to_be(u)) gives back u on either kind of host. */
  lemma BeToHostInverts(little: bool, u: nat, n: nat)
    requires u < Pow256(n)
    ensures ToBe(little, ToBe(little, u, n), n) == u
  {
    if little {
      LeBytesOfValue(Reversed(LeBytes(u, n)));
      ReversedTwice(LeBytes(u, n));
      LeRoundTrip(u, n);
    }
  }

  lemma NativeRoundTrip(little: bool, v: nat, n: nat)
    requires v < Pow256(n)
    ensures FromNative(little, Native(little, v, n)) == v
  {
    ReversedTwice(LeBytes(v, n));
    LeRoundTrip(v, n);
  }

  /** Reading big-endian bytes as a native word and swapping on a little-endian host reads the value. */
  lemma BeToHostReads(little: bool, s: seq<byte>)
    ensures ToBe(little, FromNative(little, s), |s|) == BeValue(s)
  {
    if little {
      LeBytesOfValue(s);
    }
  }

  lemma Widths()
    ensures Pow256(2) == U16 && Pow256(4) == U32 && Pow256(8) == U64
  {
    assert Pow256(3) == 0x100_0000;
    assert Pow256(5) == 0x100_0000_0000;
    assert Pow256(6) == 0x1_0000_0000_0000;
    assert Pow256(7) == 0x100_0000_0000_0000;
  }

  /** The byte loop of swap_endian. */
  method SwapEndian(u: nat, n: nat) returns (r: nat)
    requires u < Pow256(n)
    ensures r == Swapped(u, n)
  {
    var source := LeBytes(u, n);
    var dest := new byte[n](_ => 0);
    for k := 0 to n
      invariant forall i :: 0 <= i < k ==> dest[i] == source[n - 1 - i]
    {
      dest[k] := source[n - k - 1];
    }
    assert dest[..] == Reversed(source);
    r := LeValue(dest[..]);
  }

  // ----- buffers -----

  function Get(m: seq<byte>, off: nat, n: nat): (r: seq<byte>)
    requires off + n <= |m|
    ensures |r| == n
  {
    m[off..off + n]
  }

  lemma Parts(a: seq<byte>, b: seq<byte>, c: seq<byte>)
    ensures var m := a + (b + c);
            m[..|a|] == a && m[|a|..|a| + |b|] == b && m[|a| + |b|..] == c
  {
  }

  lemma Join(m: seq<byte>, i: nat, j: nat)
    requires i <= j <= |m|
    ensures m == m[0..i] + (m[i..j] + m[j..|m|])
  {
  }

  lemma Split(m: seq<byte>, a: nat, b: nat, c: nat)
    requires a <= b <= c <= |m|
    ensures m[a..c] == m[a..b] + m[b..c]
  {
  }

  /** Reading inside a known part of a buffer. */
  lemma GetInPart(m: seq<byte>, from: nat, to: nat, part: seq<byte>, k: nat, n: nat)
    requires from <= to <= |m| && m[from..to] == part && k + n <= |part|
    ensures Get(m, from + k, n) == Get(part, k, n)
  {
    forall i | 0 <= i < n ensures Get(m, from + k, n)[i] == Get(part, k, n)[i] {
      assert part[k + i] == m[from..to][k + i];
    }
  }

  /** Copies s into a at off. Every store of the marshallers goes through here, so each one is
      shown to stay inside the buffer. */
  method Store(a: array<byte>, off: nat, s: seq<byte>)
    requires off + |s| <= a.Length
    modifies a
    ensures a[off..off + |s|] == s
    ensures forall i :: 0 <= i < a.Length && !(off <= i < off + |s|) ==> a[i] == old(a[i])
    ensures forall i, j :: 0 <= i <= j <= a.Length && (j <= off || off + |s| <= i) ==> a[i..j] == old(a[i..j])
  {
    for i := 0 to |s|
      invariant forall j :: 0 <= j < i ==> a[off + j] == s[j]
      invariant forall j :: 0 <= j < a.Length && !(off <= j < off + |s|) ==> a[j] == old(a[j])
    {
      a[off + i] := s[i];
    }
  }

  // ----- tables of words -----

  function ReadWord(little: bool, m: seq<byte>, off: nat, w: nat): nat
    requires off + w <= |m|
  {
    FromNative(little, Get(m, off, w))
  }

  lemma ReadWordBound(little: bool, m: seq<byte>, off: nat, w: nat)
    requires off + w <= |m|
    ensures ReadWord(little, m, off, w) < Pow256(w)
  {
    LeBound(Get(m, off, w));
    LeBound(Reversed(Get(m, off, w)));
  }

  lemma WordReads(little: bool, m: seq<byte>, off: nat, w: nat, v: nat)
    requires off + w <= |m| && v < Pow256(w) && Get(m, off, w) == Native(little, v, w)
    ensures ReadWord(little, m, off, w) == v
  {
    NativeRoundTrip(little, v, w);
  }

  /** The words of data one after the other, 4 bytes each. */
  function Words4(little: bool, data: seq<nat>): (r: seq<byte>)
    ensures |r| == 4 * |data|
  {
    if data == [] then [] else Words4(little, data[..|data| - 1]) + Native(little, data[|data| - 1], 4)
  }

  lemma {:induction false} Words4At(little: bool, data: seq<nat>, i: nat)
    requires i < |data|
    ensures Get(Words4(little, data), 4 * i, 4) == Native(little, data[i], 4)
  {
    var last := |data| - 1;
    var before := Words4(little, data[..last]);
    var word := Native(little, data[last], 4);
    assert Words4(little, data) == before + word;
    if i < last {
      Words4At(little, data[..last], i);
      assert (before + word)[4 * i..4 * i + 4] == before[4 * i..4 * i + 4];
    } else {
      assert (before + word)[4 * i..4 * i + 4] == word;
    }
  }

  lemma Words4Extend(little: bool, data: seq<nat>, i: nat)
    requires i < |data|
    ensures Words4(little, data[..i + 1]) == Words4(little, data[..i]) + Native(little, data[i], 4)
  {
    assert data[..i + 1][..i] == data[..i];
  }

  /** A table of words is read back entry by entry. */
  lemma Words4Read(little: bool, m: seq<byte>, from: nat, data: seq<nat>)
    requires from + 4 * |data| <= |m| && m[from..from + 4 * |data|] == Words4(little, data)
    requires forall i :: 0 <= i < |data| ==> data[i] < Pow256(4)
    ensures forall i: nat {:trigger data[i]} :: i < |data| ==> ReadWord(little, m, from + 4 * i, 4) == data[i]
  {
    forall i: nat | i < |data| ensures ReadWord(little, m, from + 4 * i, 4) == data[i] {
      Words4At(little, data, i);
      GetInPart(m, from, from + 4 * |data|, Words4(little, data), 4 * i, 4);
      WordReads(little, m, from + 4 * i, 4, data[i]);
    }
  }

  /** The memcpy or store loop that fills such a table. */
  method StoreWords4(little: bool, out: array<byte>, from: nat, data: seq<nat>)
    requires from + 4 * |data| <= out.Length
    modifies out
    ensures forall i :: 0 <= i < out.Length && !(from <= i < from + 4 * |data|) ==> out[i] == old(out[i])
    ensures forall i, j :: 0 <= i <= j <= out.Length && (j <= from || from + 4 * |data| <= i) ==> out[i..j] == old(out[i..j])
    ensures out[from..from + 4 * |data|] == Words4(little, data)
  {
    for i := 0 to |data|
      invariant forall j :: 0 <= j < out.Length && !(from <= j < from + 4 * |data|) ==> out[j] == old(out[j])
      invariant out[from..from + 4 * i] == Words4(little, data[..i])
    {
      Store(out, from + 4 * i, Native(little, data[i], 4));
      Words4Extend(little, data, i);
      Split(out[..], from, from + 4 * i, from + 4 * i + 4);
    }
    assert data[..|data|] == data;
  }

  /** The words of data one after the other, 8 bytes each. */
  function Words8(little: bool, data: seq<nat>): (r: seq<byte>)
    ensures |r| == 8 * |data|
  {
    if data == [] then [] else Words8(little, data[..|data| - 1]) + Native(little, data[|data| - 1], 8)
  }

  lemma {:induction false} Words8At(little: bool, data: seq<nat>, i: nat)
    requires i < |data|
    ensures Get(Words8(little, data), 8 * i, 8) == Native(little, data[i], 8)
  {
    var last := |data| - 1;
    var before := Words8(little, data[..last]);
    var word := Native(little, data[last], 8);
    assert Words8(little, data) == before + word;
    if i < last {
      Words8At(little, data[..last], i);
      assert (before + word)[8 * i..8 * i + 8] == before[8 * i..8 * i + 8];
    } else {
      assert (before + word)[8 * i..8 * i + 8] == word;
    }
  }

  lemma Words8Extend(little: bool, data: seq<nat>, i: nat)
    requires i < |data|
    ensures Words8(little, data[..i + 1]) == Words8(little, data[..i]) + Native(little, data[i], 8)
  {
    assert data[..i + 1][..i] == data[..i];
  }

  /** A table of words is read back entry by entry. */
  lemma Words8Read(little: bool, m: seq<byte>, from: nat, data: seq<nat>)
    requires from + 8 * |data| <= |m| && m[from..from + 8 * |data|] == Words8(little, data)
    requires forall i :: 0 <= i < |data| ==> data[i] < Pow256(8)
    ensures forall i: nat {:trigger data[i]} :: i < |data| ==> ReadWord(little, m, from + 8 * i, 8) == data[i]
  {
    forall i: nat | i < |data| ensures ReadWord(little, m, from + 8 * i, 8) == data[i] {
      Words8At(little, data, i);
      GetInPart(m, from, from + 8 * |data|, Words8(little, data), 8 * i, 8);
      WordReads(little, m, from + 8 * i, 8, data[i]);
    }
  }

  /** The memcpy or store loop that fills such a table. */
  method StoreWords8(little: bool, out: array<byte>, from: nat, data: seq<nat>)
    requires from + 8 * |data| <= out.Length
    modifies out
    ensures forall i :: 0 <= i < out.Length && !(from <= i < from + 8 * |data|) ==> out[i] == old(out[i])
    ensures forall i, j :: 0 <= i <= j <= out.Length && (j <= from || from + 8 * |data| <= i) ==> out[i..j] == old(out[i..j])
    ensures out[from..from + 8 * |data|] == Words8(little, data)
  {
    for i := 0 to |data|
      invariant forall j :: 0 <= j < out.Length && !(from <= j < from + 8 * |data|) ==> out[j] == old(out[j])
      invariant out[from..from + 8 * i] == Words8(little, data[..i])
    {
      Store(out, from + 8 * i, Native(little, data[i], 8));
      Words8Extend(little, data, i);
      Split(out[..], from, from + 8 * i, from + 8 * i + 8);
    }
    assert data[..|data|] == data;
  }

  lemma {:induction false} Words4Append(little: bool, a: seq<nat>, b: seq<nat>)
    ensures Words4(little, a + b) == Words4(little, a) + Words4(little, b)
  {
    if b == [] {
      assert a + b == a;
    } else {
      Words4Append(little, a, b[..|b| - 1]);
      assert (a + b)[..|a + b| - 1] == a + b[..|b| - 1];
    }
  }

  lemma {:induction false} Words8Append(little: bool, a: seq<nat>, b: seq<nat>)
    ensures Words8(little, a + b) == Words8(little, a) + Words8(little, b)
  {
    if b == [] {
      assert a + b == a;
    } else {
      Words8Append(little, a, b[..|b| - 1]);
      assert (a + b)[..|a + b| - 1] == a + b[..|b| - 1];
    }
  }

  /** field = to_be(v). */
  method StoreBe(little: bool, out: array<byte>, off: nat, v: nat, n: nat)
    requires off + n <= out.Length
    modifies out
    ensures out[off..off + n] == Native(false, v, n)
    ensures forall i :: 0 <= i < out.Length && !(off <= i < off + n) ==> out[i] == old(out[i])
    ensures forall i, j :: 0 <= i <= j <= out.Length && (j <= off || off + n <= i) ==> out[i..j] == old(out[i..j])
  {
    ToBeStoresBigEndian(little, v, n);
    Store(out, off, Native(little, ToBe(little, v, n), n));
  }

  // ----- C strings -----

  predicate NulFree(s: seq<byte>) {
    0 !in s
  }

  /** std::string(const char *): the bytes from off up to the first NUL. */
  function CString(m: seq<byte>, off: nat): (r: seq<byte>)
    ensures NulFree(r)
    decreases |m| - off
  {
    if off < |m| && m[off] != 0 then [m[off]] + CString(m, off + 1) else []
  }

  /** strcpy stores the string and its terminator. */
  function Terminated(s: seq<byte>): seq<byte> {
    s + [0]
  }

  lemma {:induction false} CStringReads(m: seq<byte>, off: nat, s: seq<byte>)
    requires NulFree(s) && off + |s| < |m| && Get(m, off, |s|) == s && m[off + |s|] == 0
    ensures CString(m, off) == s
    decreases |s|
  {
    if s != [] {
      assert m[off] == Get(m, off, |s|)[0];
      assert Get(m, off + 1, |s| - 1) == Get(m, off, |s|)[1..] == s[1..];
      CStringReads(m, off + 1, s[1..]);
      assert s == [s[0]] + s[1..];
    }
  }
}
