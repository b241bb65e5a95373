/** A processed system-mode binary and its trailer. */
module SystemModeFile {
  // The original bytes, then file name, options, breakpoint addresses and a trailer, each on an 8-byte boundary.

  import opened Bytes

  const MAGIC: nat := 0x19992000
  const VERSION: nat := 1
  /** sizeof(struct trailer): 30 bytes of fields, padded. */
  const TRAILER: nat := 32

  datatype Option<T> = None | Some(value: T)

  /** What is kept of a binary besides its bytes. */
  datatype Contents = Contents(id: nat, filename: seq<byte>, options: seq<byte>, entries: seq<nat>)

  datatype Trailer = Trailer(magic: nat, version: nat, compressed: nat, uncompressed: nat, id: nat,
                             nameSize: nat, optionsSize: nat, nEntries: nat)

  function PadTo8(sz: nat): (r: nat)
    ensures r % 8 == 0 && sz <= r < sz + 8
  {
    if sz % 8 != 0 then sz + (8 - sz % 8) else sz
  }

  // ----- the layout -----

  function Zeros(n: nat): (r: seq<byte>)
    ensures |r| == n && forall i :: 0 <= i < n ==> r[i] == 0
  {
    seq(n, _ => 0)
  }

  /** A string with its terminator, filled with zeros to a multiple of 8. */
  function Block(s: seq<byte>): (r: seq<byte>)
    ensures |r| == PadTo8(|s| + 1)
  {
    s + Zeros(PadTo8(|s| + 1) - |s|)
  }

  /** Compression is not implemented, so both sizes are the same; n_entries is a 16-bit field. */
  function TrailerOf(file: Contents): Trailer {
    Trailer(MAGIC, VERSION, 8 * |file.entries|, 8 * |file.entries|, file.id,
            PadTo8(|file.filename| + 1), PadTo8(|file.options| + 1), |file.entries| % U16)
  }

  function TrailerWords(t: Trailer): seq<nat> {
    [t.magic, t.version, t.compressed, t.uncompressed, t.id, t.nameSize, t.optionsSize]
  }

  ghost predicate IsTrailer(little: bool, m: seq<byte>, at: nat, t: Trailer) {
    && |m| == at + TRAILER
    && m[at..at + 28] == Words4(little, TrailerWords(t))
    && m[at + 28..at + 30] == Native(little, t.nEntries, 2)
    && m[at + 30..at + 32] == Zeros(2)
  }

  /** Byte for byte, m is the processed file of these parts. */
  ghost predicate IsProcessed(little: bool, m: seq<byte>, data: seq<byte>, file: Contents) {
    var a := PadTo8(|data|);
    var b := a + |Block(file.filename)|;
    var c := b + |Block(file.options)|;
    var d := c + 8 * |file.entries|;
    && d <= |m| && m[0..|data|] == data && m[|data|..a] == Zeros(a - |data|)
    && m[a..b] == Block(file.filename)
    && m[b..c] == Block(file.options)
    && m[c..d] == Words8(little, file.entries)
    && IsTrailer(little, m, d, TrailerOf(file))
  }

  // ----- reading it back -----

  function ReadTrailer(little: bool, m: seq<byte>, at: nat): Trailer
    requires |m| == at + TRAILER
  {
    Trailer(ReadWord(little, m, at, 4), ReadWord(little, m, at + 4, 4), ReadWord(little, m, at + 8, 4),
            ReadWord(little, m, at + 12, 4), ReadWord(little, m, at + 16, 4), ReadWord(little, m, at + 20, 4),
            ReadWord(little, m, at + 24, 4), ReadWord(little, m, at + 28, 2))
  }

  /** The checks made on the trailer of a file of size bytes before any string is touched. The sum
      is taken in 32 bits. */
  predicate Accepted(t: Trailer, size: nat) {
    && size % 8 == 0
    && t.magic == MAGIC && t.version == VERSION
    && t.nameSize % 8 == 0 && t.optionsSize % 8 == 0
    && (t.nameSize + t.optionsSize + t.compressed) % U32 <= size + TRAILER
  }

  /** What the parser then takes on trust: name and options are there, the table fits the buffer it is copied to, and
      the entries are in that buffer. */
  predicate BlocksInside(t: Trailer, size: nat) {
    && t.nameSize > 0 && t.optionsSize > 0
    && t.nameSize + t.optionsSize + t.compressed + TRAILER <= size
    && t.compressed <= t.uncompressed
    && 8 * t.nEntries <= t.uncompressed
  }

  /** uncompressEntries: the table, in a zeroed buffer of the uncompressed size. */
  function Uncompressed(body: seq<byte>, t: Trailer): seq<byte>
    requires t.compressed <= |body| && t.compressed <= t.uncompressed
  {
    body[|body| - t.compressed..] + Zeros(t.uncompressed - t.compressed)
  }

  /** Whether parsing stays inside the file and the buffer, which the last byte of the name and then that of the
      options decide: what comes after either test is only touched if it was passed. */
  predicate BodyReadable(body: seq<byte>, t: Trailer) {
    var entriesAt: int := |body| - t.compressed;
    var optionsAt: int := entriesAt - t.optionsSize;
    t.nameSize > 0 && optionsAt > 0 &&
    (body[optionsAt - 1] == 0 ==>
       t.optionsSize > 0 && (body[entriesAt - 1] == 0 ==> BlocksInside(t, |body| + TRAILER)))
  }

  /** SystemModeFile::parse on the bytes before the trailer. */
  function ParsedBody(little: bool, body: seq<byte>, t: Trailer): Option<Contents>
    requires BodyReadable(body, t)
  {
    var entriesAt := |body| - t.compressed;
    var optionsAt := entriesAt - t.optionsSize;
    if body[optionsAt - 1] != 0 || body[entriesAt - 1] != 0 then None
    else Some(Contents(t.id, CString(body, optionsAt - t.nameSize), CString(body, optionsAt),
                       Entries(little, Uncompressed(body, t), 0, t.nEntries)))
  }

  /** Parsing stays inside the file: a file of the right alignment has room for a trailer, and an accepted one has
      its blocks or is refused before they are touched. */
  predicate Readable(little: bool, m: seq<byte>) {
    m != [] && |m| % 8 == 0 ==>
      && |m| >= TRAILER
      && var t := ReadTrailer(little, m, |m| - TRAILER); Accepted(t, |m|) ==> BodyReadable(m[..|m| - TRAILER], t)
  }

  function Parsed(little: bool, m: seq<byte>): Option<Contents>
    requires Readable(little, m)
  {
    if m == [] || |m| % 8 != 0 then None
    else
      var t := ReadTrailer(little, m, |m| - TRAILER);
      if Accepted(t, |m|) then ParsedBody(little, m[..|m| - TRAILER], t) else None
  }

  // ----- the round trip -----

  ghost predicate Valid(file: Contents) {
    && NulFree(file.filename) && NulFree(file.options) && file.id < U32
    && (forall i :: 0 <= i < |file.entries| ==> file.entries[i] < U64)
    && PadTo8(|file.filename| + 1) + PadTo8(|file.options| + 1) + 8 * |file.entries| < U32
  }

  lemma TrailerReads(little: bool, m: seq<byte>, at: nat, t: Trailer)
    requires IsTrailer(little, m, at, t) && t.nEntries < U16
    requires forall i :: 0 <= i < 7 ==> TrailerWords(t)[i] < U32
    ensures ReadTrailer(little, m, at) == t
  {
    Widths();
    var ws := TrailerWords(t);
    Words4Read(little, m, at, ws);
    assert ws[0] == t.magic && ws[1] == t.version && ws[2] == t.compressed && ws[3] == t.uncompressed;
    assert ws[4] == t.id && ws[5] == t.nameSize && ws[6] == t.optionsSize;
    WordReads(little, m, at + 28, 2, t.nEntries);
  }

  lemma BlockReads(m: seq<byte>, off: nat, s: seq<byte>)
    requires NulFree(s) && off + |Block(s)| <= |m| && Get(m, off, |Block(s)|) == Block(s)
    ensures CString(m, off) == s && m[off + |Block(s)| - 1] == 0
  {
    var b := Block(s);
    assert m[off..off + |b|][|s|] == m[off + |s|] == 0;
    assert Get(m, off, |s|) == m[off..off + |b|][..|s|] == s;
    CStringReads(m, off, s);
    assert m[off..off + |b|][|b| - 1] == 0;
  }

  /** The loop of addEntry over the uncompressed table. */
  function Entries(little: bool, body: seq<byte>, from: nat, n: nat): (r: seq<nat>)
    requires from + 8 * n <= |body|
    ensures |r| == n
  {
    seq(n, i requires 0 <= i < n => ReadWord(little, body, from + 8 * i, 8))
  }

  lemma EntriesRead(little: bool, body: seq<byte>, from: nat, entries: seq<nat>, n: nat)
    requires |body| == from + 8 * |entries| && body[from..|body|] == Words8(little, entries)
    requires forall i :: 0 <= i < |entries| ==> entries[i] < U64
    requires n <= |entries|
    ensures Entries(little, body, from, n) == entries[..n]
  {
    Widths();
    Words8Read(little, body, from, entries);
    forall i: nat | i < n ensures Entries(little, body, from, n)[i] == entries[..n][i] {
      assert entries[i] < U64;
    }
  }

  lemma BodyParses(little: bool, body: seq<byte>, from: nat, t: Trailer, file: Contents)
    requires |body| == from + t.nameSize + t.optionsSize + t.compressed
    requires BlocksInside(t, |body| + TRAILER) && t.id == file.id
    requires CString(body, from) == file.filename && body[from + t.nameSize - 1] == 0
    requires CString(body, from + t.nameSize) == file.options && body[from + t.nameSize + t.optionsSize - 1] == 0
    requires Entries(little, Uncompressed(body, t), 0, t.nEntries) == file.entries
    ensures ParsedBody(little, body, t) == Some(file)
  {
  }

  lemma TrailerAccepted(file: Contents, size: nat)
    requires Valid(file) && size % 8 == 0
    requires size >= PadTo8(|file.filename| + 1) + PadTo8(|file.options| + 1) + 8 * |file.entries| + TRAILER
    ensures Accepted(TrailerOf(file), size)
  {
  }

  /** What parse finds in the bytes before the trailer. */
  lemma BodyReads(little: bool, body: seq<byte>, from: nat, t: Trailer, file: Contents)
    requires NulFree(file.filename) && NulFree(file.options) && t.id == file.id
    requires forall i :: 0 <= i < |file.entries| ==> file.entries[i] < U64
    requires t.nameSize == |Block(file.filename)| && t.optionsSize == |Block(file.options)|
    requires t.compressed == t.uncompressed == 8 * |file.entries| && t.nEntries <= |file.entries|
    requires |body| == from + t.nameSize + t.optionsSize + t.compressed
    requires Get(body, from, t.nameSize) == Block(file.filename)
    requires Get(body, from + t.nameSize, t.optionsSize) == Block(file.options)
    requires body[from + t.nameSize + t.optionsSize..|body|] == Words8(little, file.entries)
    ensures BlocksInside(t, |body| + TRAILER)
    ensures ParsedBody(little, body, t) == Some(file.(entries := file.entries[..t.nEntries]))
  {
    BlockReads(body, from, file.filename);
    BlockReads(body, from + t.nameSize, file.options);
    var table := Uncompressed(body, t);
    assert table == body[from + t.nameSize + t.optionsSize..|body|] && table[0..|table|] == table;
    EntriesRead(little, table, 0, file.entries, t.nEntries);
    BodyParses(little, body, from, t, file.(entries := file.entries[..t.nEntries]));
  }

  lemma BodyOf(little: bool, m: seq<byte>, data: seq<byte>, file: Contents, body: seq<byte>)
    requires IsProcessed(little, m, data, file) && body == m[..|m| - TRAILER]
    ensures var a := PadTo8(|data|); var b := a + |Block(file.filename)|; var c := b + |Block(file.options)|;
            && |body| == c + 8 * |file.entries|
            && Get(body, a, |Block(file.filename)|) == Block(file.filename)
            && Get(body, b, |Block(file.options)|) == Block(file.options)
            && body[c..|body|] == Words8(little, file.entries)
  {
    var a := PadTo8(|data|);
    var b := a + |Block(file.filename)|;
    var c := b + |Block(file.options)|;
    assert body[a..b] == m[a..b];
    assert body[b..c] == m[b..c];
    assert body[c..|body|] == m[c..|body|];
  }

  lemma AlignedSum(a: nat, b: nat, c: nat, n: nat)
    requires a % 8 == b % 8 == c % 8 == 0
    ensures (a + b + c + 8 * n + TRAILER) % 8 == 0
  {
  }

  lemma SmallFields(file: Contents)
    requires Valid(file)
    ensures forall i :: 0 <= i < 7 ==> TrailerWords(TrailerOf(file))[i] < U32
  {
  }

  lemma TrailerFound(little: bool, m: seq<byte>, data: seq<byte>, file: Contents)
    requires Valid(file) && IsProcessed(little, m, data, file)
    ensures |m| >= TRAILER && |m| % 8 == 0 && data <= m
    ensures ReadTrailer(little, m, |m| - TRAILER) == TrailerOf(file) && Accepted(TrailerOf(file), |m|)
  {
    AlignedSum(PadTo8(|data|), PadTo8(|file.filename| + 1), PadTo8(|file.options| + 1), |file.entries|);
    SmallFields(file);
    TrailerReads(little, m, |m| - TRAILER, TrailerOf(file));
    TrailerAccepted(file, |m|);
  }

  lemma BodyFound(little: bool, m: seq<byte>, data: seq<byte>, file: Contents)
    requires Valid(file) && IsProcessed(little, m, data, file)
    ensures |m| >= TRAILER && BlocksInside(TrailerOf(file), |m|)
    ensures ParsedBody(little, m[..|m| - TRAILER], TrailerOf(file))
            == Some(file.(entries := file.entries[..|file.entries| % U16]))
  {
    var body := m[..|m| - TRAILER];
    BodyOf(little, m, data, file, body);
    BodyReads(little, body, PadTo8(|data|), TrailerOf(file), file);
  }

  lemma WholeParses(little: bool, m: seq<byte>, t: Trailer, got: Contents)
    requires |m| >= TRAILER && ReadTrailer(little, m, |m| - TRAILER) == t && Accepted(t, |m|)
    requires BodyReadable(m[..|m| - TRAILER], t) && ParsedBody(little, m[..|m| - TRAILER], t) == Some(got)
    ensures Readable(little, m) && Parsed(little, m) == Some(got)
  {
  }

  /** A processed file starts with the original bytes, ends in an aligned trailer, is accepted, and
      gives back the id, both strings and the addresses, cut to the 16 bits of the entry count. */
  lemma ProcessedRoundTrip(little: bool, m: seq<byte>, data: seq<byte>, file: Contents)
    requires Valid(file) && IsProcessed(little, m, data, file)
    ensures |m| % 8 == 0 && data <= m && Readable(little, m)
    ensures Parsed(little, m) == Some(file.(entries := file.entries[..|file.entries| % U16]))
  {
    TrailerFound(little, m, data, file);
    BodyFound(little, m, data, file);
    WholeParses(little, m, TrailerOf(file), file.(entries := file.entries[..|file.entries| % U16]));
  }

  /** Everything comes back exactly when there are fewer than 65536 addresses. */
  lemma AllSurvivesIff(little: bool, m: seq<byte>, data: seq<byte>, file: Contents)
    requires Valid(file) && IsProcessed(little, m, data, file)
    ensures Readable(little, m)
    ensures Parsed(little, m) == Some(file) <==> |file.entries| < U16
  {
    ProcessedRoundTrip(little, m, data, file);
    SameAfterCut(file);
  }

  lemma SameAfterCut(file: Contents)
    ensures file == file.(entries := file.entries[..|file.entries| % U16]) <==> |file.entries| < U16
  {
    if |file.entries| < U16 {
      assert file.entries[..|file.entries| % U16] == file.entries;
    }
  }

  // ----- building and taking apart -----

  /** m_entries after addEntry: resized with zeros when the index is new. */
  function WithEntry(entries: seq<nat>, index: nat, value: nat): (r: seq<nat>)
    ensures |r| == if |entries| <= index then index + 1 else |entries|
  {
    var grown := if |entries| <= index then entries + seq(index + 1 - |entries|, _ => 0) else entries;
    grown[index := value]
  }

  /** Adding the addresses in order, as handleWriter does, leaves exactly those addresses. */
  lemma AddedInOrder(addresses: seq<nat>, i: nat)
    requires i < |addresses|
    ensures WithEntry(addresses[..i], i, addresses[i]) == addresses[..i + 1]
  {
  }

  lemma Prefix(m: seq<byte>, off: nat, s: seq<byte>, k: nat)
    requires k <= |s| && off + |s| <= |m| && m[off..off + |s|] == s
    ensures m[off..off + k] == s[..k]
  {
    assert m[off..off + |s|][..k] == m[off..off + k];
  }

  lemma IsBlock(m: seq<byte>, off: nat, s: seq<byte>)
    requires off + |Block(s)| <= |m| && m[off..off + |s|] == s
    requires forall k :: off + |s| <= k < off + |Block(s)| ==> m[k] == 0
    ensures m[off..off + |Block(s)|] == Block(s)
  {
    Split(m, off, off + |s|, off + |Block(s)|);
  }

  function ProcessedSize(data: seq<byte>, file: Contents): nat {
    PadTo8(|data|) + |Block(file.filename)| + |Block(file.options)| + 8 * |file.entries| + TRAILER
  }

  /** Where a terminator meant for the file name is stored: that far into the options block instead. */
  function StrayStore(data: seq<byte>, file: Contents): nat {
    PadTo8(|data|) + |Block(file.filename)| + (|Block(file.filename)| - 1)
  }

  /** It falls behind the buffer exactly for names that much longer than the options. */
  lemma StrayStoreOutsideIff(data: seq<byte>, file: Contents)
    ensures StrayStore(data, file) >= ProcessedSize(data, file)
            <==> |file.filename| / 8 > |file.options| / 8 + |file.entries| + 4
  {
    Eighths(|file.filename|);
    Eighths(|file.options|);
  }

  lemma Eighths(n: nat)
    ensures PadTo8(n + 1) == 8 * (n / 8 + 1)
  {
  }

  /** Such names exist whatever the options and entries are. */
  lemma StrayStoreCanBeOutside(data: seq<byte>, options: seq<byte>, entries: seq<nat>) returns (file: Contents)
    ensures file.options == options && file.entries == entries && NulFree(file.filename)
    ensures StrayStore(data, file) >= ProcessedSize(data, file)
  {
    var n := 8 * (|options| / 8 + |entries| + 5);
    file := Contents(0, seq(n, _ => 1), options, entries);
    StrayStoreOutsideIff(data, file);
  }

  /** Name, options and table are where the trailer says they are: inside the file. */
  predicate SizesFit(t: Trailer, size: nat) {
    t.nameSize + t.optionsSize + t.compressed + TRAILER <= size
  }

  predicate SmallSizes(t: Trailer) {
    t.nameSize < U32 && t.optionsSize < U32 && t.compressed < U32
  }

  /** The size check lets through what is too large by no more than two trailers, and what wraps around. */
  lemma AcceptedOutsideIff(t: Trailer, size: nat)
    requires TRAILER <= size < U32 - TRAILER && SmallSizes(t)
    ensures var sum := t.nameSize + t.optionsSize + t.compressed;
            Accepted(t, size) && !SizesFit(t, size)
            <==> && size % 8 == 0 && t.magic == MAGIC && t.version == VERSION && t.nameSize % 8 == 0 && t.optionsSize % 8 == 0
                 && (size - TRAILER < sum <= size + TRAILER || (sum >= U32 && sum % U32 <= size + TRAILER))
  {
  }

  /** One of each kind, for a file of any size. */
  lemma AcceptedCanBeOutside(size: nat)
    requires TRAILER <= size < U32 - TRAILER && size % 8 == 0
    ensures var t := Trailer(MAGIC, VERSION, size - TRAILER, size - TRAILER, 0, 8, 8, 0);
            SmallSizes(t) && Accepted(t, size) && !SizesFit(t, size)
    ensures var t := Trailer(MAGIC, VERSION, 0, 0, 0, U32 - 8, 8, 0);
            SmallSizes(t) && Accepted(t, size) && !SizesFit(t, size)
  {
  }

  class File {
    var filename: seq<byte>
    var options: seq<byte>
    var id: nat
    var data: seq<byte>
    var entries: seq<nat>

    ghost function View(): Contents
      reads this
    {
      Contents.Contents(id, filename, options, entries)
    }

    constructor (data: seq<byte>, contents: Contents)
      ensures this.data == data && View() == contents
    {
      this.data := data;
      id, filename, options, entries := contents.id, contents.filename, contents.options, contents.entries;
    }

    method AddEntry(index: nat, value: nat)
      modifies this`entries
      ensures entries == WithEntry(old(entries), index, value)
    {
      if |entries| <= index {
        entries := entries + seq(index + 1 - |entries|, _ => 0);
      }
      entries := entries[index := value];
    }

    method AddEntries(addresses: seq<nat>)
      requires entries == []
      modifies this`entries
      ensures entries == addresses
    {
      for idx := 0 to |addresses|
        invariant entries == addresses[..idx]
      {
        AddedInOrder(addresses, idx);
        AddEntry(idx, addresses[idx]);
      }
    }

    /** `outside` says that the stray terminator was stored behind the buffer; what then becomes of the file is not
        said. */
    method GetProcessedData(little: bool) returns (outside: bool, out: array<byte>)
      requires Valid(View())
      ensures fresh(out)
      ensures outside <==> entries != [] && StrayStore(data, View()) >= ProcessedSize(data, View())
      ensures entries == [] ==> out[..] == data
      ensures entries != [] && !outside ==> IsProcessed(little, out[..], data, View())
    {
      outside := false;
      if entries == [] {
        out := new byte[|data|](i requires 0 <= i < |data| reads this => data[i]);
        return;
      }
      var padded := PadTo8(|data|);
      var filenameSize := PadTo8(|filename| + 1);
      var optionsSize := PadTo8(|options| + 1);
      var n := |entries|;
      var optionsAt := padded + filenameSize;
      var entriesAt := optionsAt + optionsSize;
      out := new byte[entriesAt + 8 * n + TRAILER](_ => 0);
      outside := optionsAt + filenameSize - 1 >= out.Length;
      if outside {
        return;
      }
      var file := Contents.Contents(id, filename, options, entries);
      Fill(little, out, data, file, padded, filenameSize, optionsSize, 8 * n);
    }
  }

  method Fill(little: bool, out: array<byte>, data: seq<byte>, file: Contents, padded: nat,
              filenameSize: nat, optionsSize: nat, tableSize: nat)
    requires padded == PadTo8(|data|) && filenameSize == |Block(file.filename)| && optionsSize == |Block(file.options)|
    requires tableSize == 8 * |file.entries| && filenameSize <= optionsSize + tableSize + TRAILER
    requires out.Length == padded + filenameSize + optionsSize + tableSize + TRAILER
    requires forall i :: 0 <= i < out.Length ==> out[i] == 0
    modifies out
    ensures IsProcessed(little, out[..], data, file)
  {
    FillStrings(out, data, file, padded, filenameSize, optionsSize);
    FillTail(little, out, file, padded + filenameSize + optionsSize, tableSize);
    Complete(little, out[..], data, file, padded, padded + filenameSize, padded + filenameSize + optionsSize,
             padded + filenameSize + optionsSize + tableSize);
  }

  lemma Complete(little: bool, m: seq<byte>, data: seq<byte>, file: Contents, a: nat, b: nat, c: nat, d: nat)
    requires a == PadTo8(|data|) && b == a + |Block(file.filename)| && c == b + |Block(file.options)|
    requires d == c + 8 * |file.entries| && |m| == d + TRAILER
    requires m[0..|data|] == data && m[|data|..a] == Zeros(a - |data|)
    requires m[a..b] == Block(file.filename) && m[b..c] == Block(file.options)
    requires m[c..d] == Words8(little, file.entries) && IsTrailer(little, m, d, TrailerOf(file))
    ensures IsProcessed(little, m, data, file)
  {
  }

  method FillTail(little: bool, out: array<byte>, file: Contents, entriesAt: nat, tableSize: nat)
    requires tableSize == 8 * |file.entries| && out.Length == entriesAt + tableSize + TRAILER
    requires forall i :: entriesAt <= i < out.Length ==> out[i] == 0
    modifies out
    ensures forall i, j :: 0 <= i <= j <= entriesAt ==> out[i..j] == old(out[i..j])
    ensures out[entriesAt..entriesAt + tableSize] == Words8(little, file.entries)
    ensures IsTrailer(little, out[..], entriesAt + tableSize, TrailerOf(file))
  {
    StoreWords8(little, out, entriesAt, file.entries);
    WriteTrailer(little, out, entriesAt + tableSize, TrailerOf(file));
  }

  method FillStrings(out: array<byte>, data: seq<byte>, file: Contents, padded: nat, filenameSize: nat, optionsSize: nat)
    requires padded >= |data| && filenameSize == |Block(file.filename)| && optionsSize == |Block(file.options)|
    requires padded + filenameSize + optionsSize <= out.Length
    requires optionsSize > 0 && padded + filenameSize + filenameSize <= out.Length && filenameSize > 0
    requires forall i :: 0 <= i < out.Length ==> out[i] == 0
    modifies out
    ensures out[0..|data|] == data && out[|data|..padded] == Zeros(padded - |data|)
    ensures out[padded..padded + filenameSize] == Block(file.filename)
    ensures out[padded + filenameSize..padded + filenameSize + optionsSize] == Block(file.options)
    ensures forall i :: padded + filenameSize + optionsSize <= i < out.Length ==> out[i] == 0
  {
    Store(out, 0, data);
    assert out[|data|..padded] == Zeros(padded - |data|);
    WriteBlocks(out, file, padded, filenameSize, optionsSize);
  }

  method WriteBlocks(out: array<byte>, file: Contents, padded: nat, filenameSize: nat, optionsSize: nat)
    requires filenameSize == |Block(file.filename)| && optionsSize == |Block(file.options)|
    requires optionsSize > 0 && filenameSize > 0 && padded + filenameSize + filenameSize <= out.Length
    requires padded + filenameSize + optionsSize <= out.Length
    requires forall i :: padded <= i < out.Length ==> out[i] == 0
    modifies out
    ensures forall i, j :: 0 <= i <= j <= padded ==> out[i..j] == old(out[i..j])
    ensures out[padded..padded + filenameSize] == Block(file.filename)
    ensures out[padded + filenameSize..padded + filenameSize + optionsSize] == Block(file.options)
    ensures forall i :: padded + filenameSize + optionsSize <= i < out.Length ==> out[i] == 0
  {
    WriteBlock(out, padded, file.filename);
    Store(out, padded + filenameSize + filenameSize - 1, [0]);
    WriteBlock(out, padded + filenameSize, file.options);
  }

  /** strcpy, then the last byte of the block cleared again. */
  method WriteBlock(out: array<byte>, at: nat, s: seq<byte>)
    requires at + |Block(s)| <= out.Length && forall i :: at <= i < at + |Block(s)| ==> out[i] == 0
    modifies out
    ensures out[at..at + |Block(s)|] == Block(s)
    ensures forall i :: 0 <= i < out.Length && !(at <= i < at + |Block(s)|) ==> out[i] == old(out[i])
    ensures forall i, j :: 0 <= i <= j <= out.Length && (j <= at || at + |Block(s)| <= i) ==> out[i..j] == old(out[i..j])
  {
    Store(out, at, Terminated(s));
    Store(out, at + PadTo8(|s| + 1) - 1, [0]);
    Prefix(out[..], at, Terminated(s), |s|);
    IsBlock(out[..], at, s);
  }

  method WriteTrailer(little: bool, out: array<byte>, at: nat, t: Trailer)
    requires out.Length == at + TRAILER && forall i :: at <= i < out.Length ==> out[i] == 0
    modifies out
    ensures forall i, j :: 0 <= i <= j <= at ==> out[i..j] == old(out[i..j])
    ensures IsTrailer(little, out[..], at, t)
  {
    StoreWords4(little, out, at, TrailerWords(t));
    Store(out, at + 28, Native(little, t.nEntries, 2));
  }

  /** SystemModeFile::fromRawFile: nothing but an empty file is refused. */
  method FromRawFile(id: nat, filename: seq<byte>, options: seq<byte>, fileData: seq<byte>) returns (out: File?)
    ensures out == null <==> fileData == []
    ensures out != null ==> fresh(out) && out.data == fileData && out.View() == Contents(id, filename, options, [])
  {
    if fileData == [] {
      return null;
    }
    out := new File(fileData, Contents(id, filename, options, []));
  }

  /** SystemModeFile::fromProcessedFile. The entries are added one by one. `outside` says that something was read or
      copied outside the file or its buffers; what comes of it is not said. */
  method FromProcessedFile(little: bool, m: seq<byte>) returns (outside: bool, out: File?)
    ensures outside <==> !Readable(little, m)
    ensures !outside ==> (out == null <==> Parsed(little, m).None?)
    ensures !outside && out != null ==> fresh(out) && out.data == m && out.View() == Parsed(little, m).value
  {
    outside, out := false, null;
    if m == [] || |m| % 8 != 0 {
      return;
    }
    if |m| < TRAILER {
      outside := true;
      return;
    }
    var t := ReadTrailer(little, m, |m| - TRAILER);
    if Accepted(t, |m|) {
      outside, out := LoadBody(little, m, t);
    }
  }

  method LoadBody(little: bool, m: seq<byte>, t: Trailer) returns (outside: bool, out: File?)
    requires |m| >= TRAILER
    ensures outside <==> !BodyReadable(m[..|m| - TRAILER], t)
    ensures !outside ==> (out == null <==> ParsedBody(little, m[..|m| - TRAILER], t).None?)
    ensures !outside && out != null ==>
              fresh(out) && out.data == m && out.View() == ParsedBody(little, m[..|m| - TRAILER], t).value
  {
    var body := m[..|m| - TRAILER];
    var entriesAt: int := |body| - t.compressed;
    var optionsAt: int := entriesAt - t.optionsSize;
    outside, out := true, null;
    if t.nameSize == 0 || optionsAt <= 0 {
      return;
    }
    if body[optionsAt - 1] != 0 {
      outside := false;
      return;
    }
    if t.optionsSize == 0 {
      return;
    }
    if body[entriesAt - 1] != 0 {
      outside := false;
      return;
    }
    if optionsAt < t.nameSize || t.compressed > t.uncompressed || 8 * t.nEntries > t.uncompressed {
      return;
    }
    outside := false;
    out := new File(m, Contents(t.id, CString(body, optionsAt - t.nameSize), CString(body, optionsAt), []));
    out.AddEntries(Entries(little, Uncompressed(body, t), 0, t.nEntries));
  }
}
