/** The hit memory of one system-mode binary: the words tracers set bits in, and its two counters. Its
    methods are the operations of the protocol run alone, on real words, and the file they are kept in. */
module SystemModeMemory {
  import opened Bytes
  import opened HitWords
  import opened SystemModeFormat
  import HitProtocol

  // ----- words as numbers -----

  function Value(w: bv32): u32 {
    w as u32
  }

  function Values(data: seq<bv32>): (r: seq<u32>)
    ensures |r| == |data|
  {
    seq(|data|, i requires 0 <= i < |data| => Value(data[i]))
  }

  function Word(v: u32): bv32 {
    v as bv32
  }

  lemma FieldBound(little: bool, m: seq<byte>, off: nat)
    requires off + 4 <= |m|
    ensures Field(little, m, off) < U32
  {
    Widths();
    ReadWordBound(little, m, off, 4);
  }

  lemma WordOfValue(w: bv32)
    ensures Word(Value(w)) == w
  {
  }

  /** The words fileToMemory reads from a file image. */
  function LoadWords(little: bool, m: seq<byte>, n: nat): (r: seq<bv32>)
    requires HEADER + 4 * n <= |m|
    ensures |r| == n
  {
    seq(n, i requires 0 <= i < n => (FieldBound(little, m, HEADER + 4 * i); Word(Field(little, m, HEADER + 4 * i))))
  }

  /** The image of a memory is accepted and gives back its strings and every one of its words. */
  lemma MemoryRoundTrip(little: bool, filename: seq<byte>, options: seq<byte>, data: seq<bv32>)
    requires NulFree(filename) && NulFree(options) && FileSize(|data|, filename, options) < U32
    ensures var m := FileBytes(little, filename, options, Values(data));
            && Accepted(little, m) && InBounds(little, m)
            && CString(m, Field(little, m, 16)) == filename
            && CString(m, Field(little, m, 20)) == options
            && Field(little, m, 8) == |data| && LoadWords(little, m, |data|) == data
  {
    FileRoundTrip(little, filename, options, Values(data));
    var m := FileBytes(little, filename, options, Values(data));
    forall i | 0 <= i < |data| ensures LoadWords(little, m, |data|)[i] == data[i] {
      assert ReadWords(little, m, |data|)[i] == Values(data)[i];
      WordOfValue(data[i]);
    }
  }

  class Memory {
    const filename: seq<byte>
    const options: seq<byte>
    const data: array<bv32>
    var dirtyCount: u32
    var cleanCount: u32

    constructor (fn: seq<byte>, opts: seq<byte>, n: u32)
      ensures filename == fn && options == opts && data.Length == n && fresh(data)
      ensures forall i: nat :: !IsHit(BitMap(data[..]), i)
      ensures dirtyCount == cleanCount == 0
    {
      filename, options := fn, opts;
      data := new bv32[n](_ => 0);
      dirtyCount, cleanCount := 0, 0;
      new;
      EmptyWord();
    }

    method IndexIsHit(index: u32) returns (hit: bool)
      ensures hit == IsHit(BitMap(data[..]), index)
    {
      if index / 32 >= data.Length {
        return false;
      }
      BitInWord(data[index / 32], index);
      hit := BitSet(data[index / 32], Shift(index));
    }

    method CompareAndSwap(word: nat, expected: bv32, desired: bv32) returns (swapped: bool)
      requires word < data.Length
      modifies data
      ensures swapped <==> BitsOf(old(data[word])) == BitsOf(expected)
      ensures data[..] == if swapped then old(data[..])[word := desired] else old(data[..])
    {
      WordsEqualIffBits(data[word], expected);
      swapped := data[word] == expected;
      if swapped {
        data[word] := desired;
      }
    }

    /** This memory as a protocol state in which nothing else is running. */
    ghost function View(): (s: HitProtocol.Shared)
      reads this, data
      ensures s.data == BitMap(data[..]) && s.dirty == dirtyCount && s.clean == cleanCount
      ensures HitProtocol.Pc(s, 0).Idle?
    {
      HitProtocol.Init(0).(data := BitMap(data[..]), dirty := dirtyCount, clean := cleanCount)
    }

    /** Run alone, the loop does what the protocol's steps do undisturbed. */
    method ReportIndex(index: u32)
      modifies this`dirtyCount, data
      ensures BitMap(data[..]) == HitProtocol.Reported(old(View()), 0, index).data
      ensures dirtyCount == HitProtocol.Reported(old(View()), 0, index).dirty
    {
      ghost var was := data[..];
      HitProtocol.UndisturbedReport(View(), 0, index);
      var wordIdx := index / 32;
      if wordIdx >= data.Length {
        return;
      }
      BitInWord(data[wordIdx], index);
      if BitSet(data[wordIdx], Shift(index)) {
        return;
      }
      var swapped := false;
      while !swapped
        invariant data[..] == if swapped then was[wordIdx := WithBit(was[wordIdx], Shift(index))] else was
        invariant dirtyCount == old(dirtyCount)
        decreases !swapped
      {
        var val := data[wordIdx];
        swapped := CompareAndSwap(wordIdx, val, WithBit(val, Shift(index)));
      }
      WithBitAdds(was[wordIdx], index);
      assert BitMap(data[..]) == WithHit(BitMap(was), index);
      dirtyCount := (dirtyCount + 1) % U32;
    }

    method IsDirty() returns (r: bool)
      ensures r <==> dirtyCount != cleanCount
      ensures r <==> HitProtocol.CheckStep(View()).writer.Marking?
    {
      r := dirtyCount != cleanCount;
    }

    method MarkClean()
      modifies this`cleanCount
      ensures cleanCount == dirtyCount && !HitProtocol.CheckStep(View()).writer.Marking?
    {
      cleanCount := dirtyCount;
    }

    method MemoryToFile(little: bool) returns (out: array<byte>)
      requires FileSize(data.Length, filename, options) < U32
      ensures fresh(out) && out[..] == FileBytes(little, filename, options, Values(data[..]))
    {
      var n := data.Length;
      out := new byte[FileSize(n, filename, options)](_ => 0);
      StoreWords4(little, out, 0, HeaderWords(n, |filename|));
      WriteStrings(out, HEADER + 4 * n, filename, options);
      assert out[0..HEADER] == Header(little, n, |filename|);
      StoreWords4(little, out, HEADER, Values(data[..]));
      Whole(little, out[..], filename, options, Values(data[..]), HEADER + 4 * n);
    }
  }

  lemma Whole(little: bool, m: seq<byte>, filename: seq<byte>, options: seq<byte>, values: seq<u32>, nameOff: nat)
    requires nameOff == HEADER + 4 * |values| <= |m| && m[0..HEADER] == Header(little, |values|, |filename|)
    requires m[HEADER..nameOff] == Words4(little, values) && m[nameOff..|m|] == Strings(filename, options)
    ensures m == FileBytes(little, filename, options, values)
  {
    Join(m, HEADER, nameOff);
  }

  /** null when the magic, the version or an offset is wrong; then nothing else is read. */
  method FileToMemory(little: bool, file: array<byte>) returns (out: Memory?)
    requires file.Length >= HEADER
    requires Accepted(little, file[..]) ==> InBounds(little, file[..])
    ensures out != null <==> Accepted(little, file[..])
    ensures out != null <==>
              && ReadWord(little, file[..], 0, 4) == 0x4d45_5247 && ReadWord(little, file[..], 4, 4) == 1
              && ReadWord(little, file[..], 16, 4) >= 24 + 4 * ReadWord(little, file[..], 8, 4)
              && ReadWord(little, file[..], 20, 4) > ReadWord(little, file[..], 16, 4)
    ensures out != null ==>
              && fresh(out) && fresh(out.data)
              && out.filename == CString(file[..], Field(little, file[..], 16))
              && out.options == CString(file[..], Field(little, file[..], 20))
              && out.data[..] == LoadWords(little, file[..], Field(little, file[..], 8))
              && out.dirtyCount == out.cleanCount == 0
  {
    var m := file[..];
    if Field(little, m, 0) != MAGIC {
      return null;
    }
    if Field(little, m, 4) != VERSION {
      return null;
    }
    FieldBound(little, m, 8);
    var n := Field(little, m, 8);
    var sizeExceptStrings := HEADER + 4 * n;
    if Field(little, m, 16) < sizeExceptStrings {
      return null;
    }
    if Field(little, m, 20) < Field(little, m, 16) + 1 {
      return null;
    }
    out := new Memory(CString(m, Field(little, m, 16)), CString(m, Field(little, m, 20)), n);
    for i := 0 to n
      invariant out.dirtyCount == out.cleanCount == 0
      invariant forall j :: 0 <= j < i ==> out.data[j] == LoadWords(little, m, n)[j]
    {
      FieldBound(little, m, HEADER + 4 * i);
      out.data[i] := Word(Field(little, m, HEADER + 4 * i));
    }
  }
}
