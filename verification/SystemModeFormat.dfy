/** The file a system-mode hit memory is written to: six words, the bitmap and two C strings, all in the
    host's byte order. */
module SystemModeFormat {
  import opened Bytes

  const MAGIC: u32 := 0x4d455247
  const VERSION: u32 := 1
  /** sizeof(struct system_mode_file) without its flexible array. */
  const HEADER: nat := 24

  function Field(little: bool, m: seq<byte>, off: nat): nat
    requires off + 4 <= |m|
  {
    ReadWord(little, m, off, 4)
  }

  /** The six words before the data. header_checksum is never assigned and keeps the 0 of xmalloc. */
  function HeaderWords(n: nat, nameSize: nat): seq<nat> {
    [MAGIC, VERSION, n, 0, 4 * n + HEADER, 4 * n + HEADER + nameSize + 1]
  }

  function Header(little: bool, n: nat, nameSize: nat): (r: seq<byte>)
    ensures |r| == HEADER
  {
    Words4(little, HeaderWords(n, nameSize))
  }

  function Strings(filename: seq<byte>, options: seq<byte>): seq<byte> {
    Terminated(filename) + Terminated(options)
  }

  function FileSize(n: nat, filename: seq<byte>, options: seq<byte>): nat {
    HEADER + 4 * n + |filename| + |options| + 2
  }

  function FileBytes(little: bool, filename: seq<byte>, options: seq<byte>, data: seq<u32>): (r: seq<byte>)
    ensures |r| == FileSize(|data|, filename, options)
  {
    Header(little, |data|, |filename|) + (Words4(little, data) + Strings(filename, options))
  }

  /** The checks of fileToMemory. */
  predicate Accepted(little: bool, m: seq<byte>)
    requires |m| >= HEADER
  {
    && Field(little, m, 0) == MAGIC
    && Field(little, m, 4) == VERSION
    && Field(little, m, 16) >= HEADER + 4 * Field(little, m, 8)
    && Field(little, m, 20) >= Field(little, m, 16) + 1
  }

  /** What fileToMemory trusts of an accepted file: the words and both strings end inside it. */
  predicate InBounds(little: bool, m: seq<byte>)
    requires |m| >= HEADER
  {
    && HEADER + 4 * Field(little, m, 8) <= |m|
    && Field(little, m, 16) + |CString(m, Field(little, m, 16))| < |m|
    && Field(little, m, 20) + |CString(m, Field(little, m, 20))| < |m|
  }

  function ReadWords(little: bool, m: seq<byte>, n: nat): (r: seq<nat>)
    requires HEADER + 4 * n <= |m|
    ensures |r| == n
  {
    seq(n, i requires 0 <= i < n => Field(little, m, HEADER + 4 * i))
  }

  lemma HeaderReads(little: bool, m: seq<byte>, n: nat, nameSize: nat)
    requires |m| >= HEADER && m[0..HEADER] == Header(little, n, nameSize)
    requires 4 * n + HEADER + nameSize + 1 < U32
    ensures Field(little, m, 0) == MAGIC && Field(little, m, 4) == VERSION && Field(little, m, 8) == n
    ensures Field(little, m, 16) == 4 * n + HEADER && Field(little, m, 20) == 4 * n + HEADER + nameSize + 1
  {
    Widths();
    var h := HeaderWords(n, nameSize);
    Words4Read(little, m, 0, h);
    assert h[0] == MAGIC && h[1] == VERSION && h[2] == n && h[4] == 4 * n + HEADER;
    assert h[5] == 4 * n + HEADER + nameSize + 1;
  }

  lemma FileParts(little: bool, filename: seq<byte>, options: seq<byte>, data: seq<u32>)
    ensures var m := FileBytes(little, filename, options, data); var nameOff := HEADER + 4 * |data|;
            && m[0..HEADER] == Header(little, |data|, |filename|)
            && m[HEADER..nameOff] == Words4(little, data)
            && m[nameOff..] == Strings(filename, options)
  {
    Parts(Header(little, |data|, |filename|), Words4(little, data), Strings(filename, options));
  }

  lemma StringsRead(m: seq<byte>, off: nat, filename: seq<byte>, options: seq<byte>)
    requires off <= |m| && m[off..] == Strings(filename, options) && NulFree(filename) && NulFree(options)
    ensures off + |filename| + 1 + |options| < |m|
    ensures CString(m, off) == filename && CString(m, off + |filename| + 1) == options
  {
    var t := m[off..];
    assert m[off + |filename|] == t[|filename|] == 0;
    assert Get(m, off, |filename|) == t[..|filename|] == filename;
    CStringReads(m, off, filename);
    var o := |filename| + 1;
    assert m[off + o + |options|] == t[o + |options|] == 0;
    assert Get(m, off + o, |options|) == t[o..o + |options|] == options;
    CStringReads(m, off + o, options);
  }

  lemma TableReads(little: bool, m: seq<byte>, data: seq<u32>)
    requires HEADER + 4 * |data| <= |m| && m[HEADER..HEADER + 4 * |data|] == Words4(little, data)
    ensures ReadWords(little, m, |data|) == data
  {
    Widths();
    Words4Read(little, m, HEADER, data);
  }

  lemma ImageReads(little: bool, m: seq<byte>, filename: seq<byte>, options: seq<byte>, n: nat)
    requires NulFree(filename) && NulFree(options) && FileSize(n, filename, options) < U32
    requires |m| == FileSize(n, filename, options)
    requires m[0..HEADER] == Header(little, n, |filename|) && m[HEADER + 4 * n..] == Strings(filename, options)
    ensures Accepted(little, m) && InBounds(little, m) && Field(little, m, 8) == n
    ensures CString(m, Field(little, m, 16)) == filename && CString(m, Field(little, m, 20)) == options
  {
    HeaderReads(little, m, n, |filename|);
    StringsRead(m, HEADER + 4 * n, filename, options);
  }

  /** What memoryToFile writes is accepted by fileToMemory and gives back both strings and every word. */
  lemma FileRoundTrip(little: bool, filename: seq<byte>, options: seq<byte>, data: seq<u32>)
    requires NulFree(filename) && NulFree(options) && FileSize(|data|, filename, options) < U32
    ensures var m := FileBytes(little, filename, options, data);
            && Accepted(little, m) && InBounds(little, m)
            && CString(m, Field(little, m, 16)) == filename
            && CString(m, Field(little, m, 20)) == options
            && Field(little, m, 8) == |data| && ReadWords(little, m, |data|) == data
  {
    var m := FileBytes(little, filename, options, data);
    FileParts(little, filename, options, data);
    ImageReads(little, m, filename, options, |data|);
    TableReads(little, m, data);
  }

  method WriteStrings(out: array<byte>, nameOff: nat, filename: seq<byte>, options: seq<byte>)
    requires out.Length == nameOff + |filename| + |options| + 2
    modifies out
    ensures forall i, j :: 0 <= i <= j <= nameOff ==> out[i..j] == old(out[i..j])
    ensures out[nameOff..out.Length] == Strings(filename, options)
  {
    Store(out, nameOff, Terminated(filename));
    Store(out, nameOff + |filename| + 1, Terminated(options));
    Split(out[..], nameOff, nameOff + |filename| + 1, out.Length);
  }
}
