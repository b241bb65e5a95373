/** The bytes of the four files, at fixed offsets. */
module Layouts {
  // Told without the modules' constants and readers.

  import Bytes
  import Database = ReporterDatabase
  import Memory = SystemModeMemory
  import MemoryFile = SystemModeFormat
  import Merge = MergeFile
  import Processed = SystemModeFile
  import Reporter = ReporterState

  type byte = Bytes.byte

  /** The number in the w bytes from at on: the first byte is the lowest on a little-endian host, the last is
      otherwise. */
  function Number(little: bool, m: seq<byte>, at: nat, w: nat): nat
    requires at + w <= |m|
    decreases |m|, w
  {
    if w == 0 then 0
    else if little then m[at] as nat + 256 * Number(little, m, at + 1, w - 1)
    else m[at + w - 1] as nat + 256 * Number(little, m, at, w - 1)
  }

  predicate Has(little: bool, m: seq<byte>, at: nat, w: nat, v: nat) {
    at + w <= |m| && Number(little, m, at, w) == v
  }

  lemma {:induction false} NumberIsRead(little: bool, m: seq<byte>, at: nat, w: nat)
    requires at + w <= |m|
    ensures Bytes.ReadWord(little, m, at, w) == Number(little, m, at, w)
    decreases w
  {
    var s := Bytes.Get(m, at, w);
    if w == 0 {
    } else if little {
      NumberIsRead(little, m, at + 1, w - 1);
      assert s[1..] == Bytes.Get(m, at + 1, w - 1);
    } else {
      NumberIsRead(little, m, at, w - 1);
      assert Bytes.Reversed(s)[1..] == Bytes.Reversed(Bytes.Get(m, at, w - 1));
    }
  }

  ghost predicate Text(m: seq<byte>, at: nat, s: seq<byte>) {
    at + |s| < |m| && m[at..at + |s|] == s && m[at + |s|] == 0
  }

  ghost predicate Zeros(m: seq<byte>, from: nat, to: nat) {
    from <= to <= |m| && forall i :: from <= i < to ==> m[i] == 0
  }

  // ----- the hit memory -----

  /** "MERG" and 1, the number of words, a checksum nobody fills in, the offsets of both strings, the words and
      the strings. */
  lemma MemoryFileIs(little: bool, m: seq<byte>, filename: seq<byte>, options: seq<byte>, data: seq<bv32>)
    requires 26 + 4 * |data| + |filename| + |options| < 0x1_0000_0000
    requires m == MemoryFile.FileBytes(little, filename, options, Memory.Values(data))
    ensures var name := 24 + 4 * |data|; var opts := name + |filename| + 1;
            && |m| == opts + |options| + 1
            && Has(little, m, 0, 4, 0x4d45_5247) && Has(little, m, 4, 4, 1) && Has(little, m, 8, 4, |data|)
            && Has(little, m, 12, 4, 0) && Has(little, m, 16, 4, name) && Has(little, m, 20, 4, opts)
            && Text(m, name, filename) && Text(m, opts, options)
    ensures forall i :: 0 <= i < |data| ==> Has(little, m, 24 + 4 * i, 4, data[i] as nat)
  {
    var values := Memory.Values(data);
    MemoryFile.FileParts(little, filename, options, values);
    HeaderIs(little, m, |data|, |filename|);
    StringsAre(m, 24 + 4 * |data|, filename, options);
    DataAre(little, m, data);
  }

  lemma DataAre(little: bool, m: seq<byte>, data: seq<bv32>)
    requires 24 + 4 * |data| <= |m| && m[24..24 + 4 * |data|] == Bytes.Words4(little, Memory.Values(data))
    ensures forall i :: 0 <= i < |data| ==> Has(little, m, 24 + 4 * i, 4, data[i] as nat)
  {
    WordsAre(little, m, 24, Memory.Values(data));
    forall i | 0 <= i < |data| ensures Has(little, m, 24 + 4 * i, 4, data[i] as nat) {
      assert Memory.Values(data)[i] == data[i] as nat;
    }
  }

  lemma HeaderIs(little: bool, m: seq<byte>, n: nat, nameSize: nat)
    requires |m| >= 24 && m[0..24] == MemoryFile.Header(little, n, nameSize) && 25 + 4 * n + nameSize < 0x1_0000_0000
    ensures Has(little, m, 0, 4, 0x4d45_5247) && Has(little, m, 4, 4, 1) && Has(little, m, 8, 4, n) && Has(little, m, 12, 4, 0)
    ensures Has(little, m, 16, 4, 24 + 4 * n) && Has(little, m, 20, 4, 25 + 4 * n + nameSize)
  {
    var words := MemoryFile.HeaderWords(n, nameSize);
    WordsAre(little, m, 0, words);
    assert words == [0x4d45_5247, 1, n, 0, 24 + 4 * n, 25 + 4 * n + nameSize];
    assert Has(little, m, 0 + 4 * 0, 4, words[0]) && Has(little, m, 0 + 4 * 1, 4, words[1]) && Has(little, m, 0 + 4 * 2, 4, words[2]);
    assert Has(little, m, 0 + 4 * 3, 4, words[3]) && Has(little, m, 0 + 4 * 4, 4, words[4]) && Has(little, m, 0 + 4 * 5, 4, words[5]);
  }

  lemma WordsAre(little: bool, m: seq<byte>, from: nat, words: seq<nat>)
    requires from + 4 * |words| <= |m| && m[from..from + 4 * |words|] == Bytes.Words4(little, words)
    requires forall i :: 0 <= i < |words| ==> words[i] < 0x1_0000_0000
    ensures forall i :: 0 <= i < |words| ==> Has(little, m, from + 4 * i, 4, words[i])
  {
    Bytes.Widths();
    Bytes.Words4Read(little, m, from, words);
    forall i | 0 <= i < |words| ensures Has(little, m, from + 4 * i, 4, words[i]) {
      NumberIsRead(little, m, from + 4 * i, 4);
    }
  }

  lemma LongWordsAre(little: bool, m: seq<byte>, from: nat, words: seq<nat>)
    requires from + 8 * |words| <= |m| && m[from..from + 8 * |words|] == Bytes.Words8(little, words)
    requires forall i :: 0 <= i < |words| ==> words[i] < Bytes.U64
    ensures forall i :: 0 <= i < |words| ==> Has(little, m, from + 8 * i, 8, words[i])
  {
    Bytes.Widths();
    Bytes.Words8Read(little, m, from, words);
    forall i | 0 <= i < |words| ensures Has(little, m, from + 8 * i, 8, words[i]) {
      NumberIsRead(little, m, from + 8 * i, 8);
    }
  }

  lemma StringsAre(m: seq<byte>, at: nat, filename: seq<byte>, options: seq<byte>)
    requires at <= |m| && m[at..] == MemoryFile.Strings(filename, options)
    ensures |m| == at + |filename| + 1 + |options| + 1 && Text(m, at, filename) && Text(m, at + |filename| + 1, options)
  {
    var t := m[at..];
    var n := |filename| + 1;
    assert t[..|filename|] == filename && t[|filename|] == 0;
    assert t[n..n + |options|] == options && t[n + |options|] == 0;
    assert m[at..at + |filename|] == t[..|filename|];
    assert m[at + n..at + n + |options|] == t[n..n + |options|];
  }

  // ----- the processed binary -----

  ghost function PaddedTo8(n: nat): nat {
    (n + 7) / 8 * 8
  }

  /** s, then zeros up to the next multiple of eight, at least one. */
  ghost predicate PaddedText(m: seq<byte>, at: nat, to: nat, s: seq<byte>) {
    Text(m, at, s) && to == at + PaddedTo8(|s| + 1) && Zeros(m, at + |s|, to)
  }

  /** The binary and both strings, each padded to eight bytes. */
  lemma ProcessedTexts(little: bool, m: seq<byte>, data: seq<byte>, file: Processed.Contents)
    requires Processed.IsProcessed(little, m, data, file)
    ensures var a := PaddedTo8(|data|); var b := a + PaddedTo8(|file.filename| + 1);
            var c := b + PaddedTo8(|file.options| + 1);
            data <= m && Zeros(m, |data|, a) && PaddedText(m, a, b, file.filename) && PaddedText(m, b, c, file.options)
  {
    SizesAre(data, file);
    var a := PaddedTo8(|data|);
    var b := a + PaddedTo8(|file.filename| + 1);
    var c := b + PaddedTo8(|file.options| + 1);
    PaddingIs(m, |data|, a);
    BlockIs(m, a, b, file.filename);
    BlockIs(m, b, c, file.options);
  }

  /** Then the addresses; in the last 32 bytes the magic and the version, twice the table's size, the id, the sizes
      of both strings, the number of addresses in sixteen bits and two zeros. */
  lemma ProcessedNumbers(little: bool, m: seq<byte>, data: seq<byte>, file: Processed.Contents)
    requires Processed.Valid(file) && Processed.IsProcessed(little, m, data, file)
    ensures var name := PaddedTo8(|file.filename| + 1); var options := PaddedTo8(|file.options| + 1);
            NumbersAre(little, m, PaddedTo8(|data|) + name + options, file, name, options)
  {
    SizesAre(data, file);
    NumbersAt(little, m, PaddedTo8(|data|) + PaddedTo8(|file.filename| + 1) + PaddedTo8(|file.options| + 1), file);
  }

  ghost predicate NumbersAre(little: bool, m: seq<byte>, at: nat, file: Processed.Contents, name: nat, options: nat) {
    && |m| == at + 8 * |file.entries| + 32
    && (forall i :: 0 <= i < |file.entries| ==> Has(little, m, at + 8 * i, 8, file.entries[i]))
    && TrailerIs(little, m, |m| - 32, 8 * |file.entries|, file.id, name, options, |file.entries| % 0x1_0000)
  }

  lemma SizesAre(data: seq<byte>, file: Processed.Contents)
    ensures Processed.PadTo8(|data|) == PaddedTo8(|data|)
    ensures |Processed.Block(file.filename)| == PaddedTo8(|file.filename| + 1)
    ensures |Processed.Block(file.options)| == PaddedTo8(|file.options| + 1)
  {
  }

  lemma NumbersAt(little: bool, m: seq<byte>, at: nat, file: Processed.Contents)
    requires Processed.Valid(file) && |m| == at + 8 * |file.entries| + 32
    requires m[at..at + 8 * |file.entries|] == Bytes.Words8(little, file.entries)
    requires Processed.IsTrailer(little, m, at + 8 * |file.entries|, Processed.TrailerOf(file))
    ensures NumbersAre(little, m, at, file, PaddedTo8(|file.filename| + 1), PaddedTo8(|file.options| + 1))
  {
    LongWordsAre(little, m, at, file.entries);
    SizesAre([], file);
    Processed.SmallFields(file);
    LastBytesAre(little, m, at + 8 * |file.entries|, Processed.TrailerOf(file));
  }

  ghost predicate TrailerIs(little: bool, m: seq<byte>, at: nat, table: nat, id: nat, name: nat, options: nat, n: nat) {
    && Has(little, m, at, 4, 0x1999_2000) && Has(little, m, at + 4, 4, 1)
    && Has(little, m, at + 8, 4, table) && Has(little, m, at + 12, 4, table) && Has(little, m, at + 16, 4, id)
    && Has(little, m, at + 20, 4, name) && Has(little, m, at + 24, 4, options)
    && Has(little, m, at + 28, 2, n) && Has(little, m, at + 30, 2, 0)
  }

  lemma PaddingIs(m: seq<byte>, from: nat, to: nat)
    requires from <= to <= |m| && m[from..to] == Processed.Zeros(to - from)
    ensures Zeros(m, from, to)
  {
    forall i | from <= i < to ensures m[i] == 0 {
      assert m[i] == m[from..to][i - from];
    }
  }

  lemma BlockIs(m: seq<byte>, at: nat, to: nat, s: seq<byte>)
    requires at <= to <= |m| && m[at..to] == Processed.Block(s)
    ensures PaddedText(m, at, to, s)
  {
    var t := m[at..to];
    assert t[..|s|] == s && m[at..at + |s|] == t[..|s|];
    forall i | at + |s| <= i < to ensures m[i] == 0 {
      assert m[i] == t[i - at];
    }
  }

  lemma LastBytesAre(little: bool, m: seq<byte>, at: nat, t: Processed.Trailer)
    requires Processed.IsTrailer(little, m, at, t) && t.nEntries < 0x1_0000
    requires t.magic == 0x1999_2000 && t.version == 1 && t.compressed == t.uncompressed
    requires forall i :: 0 <= i < 7 ==> Processed.TrailerWords(t)[i] < 0x1_0000_0000
    ensures TrailerIs(little, m, at, t.compressed, t.id, t.nameSize, t.optionsSize, t.nEntries)
  {
    var words := Processed.TrailerWords(t);
    WordsAre(little, m, at, words);
    assert words == [t.magic, t.version, t.compressed, t.uncompressed, t.id, t.nameSize, t.optionsSize];
    assert Has(little, m, at + 4 * 0, 4, words[0]) && Has(little, m, at + 4 * 1, 4, words[1]) && Has(little, m, at + 4 * 2, 4, words[2]);
    assert Has(little, m, at + 4 * 3, 4, words[3]) && Has(little, m, at + 4 * 4, 4, words[4]) && Has(little, m, at + 4 * 5, 4, words[5]);
    assert Has(little, m, at + 4 * 6, 4, words[6]);
    ShortIs(little, m, at + 28, t.nEntries);
    ShortIs(little, m, at + 30, 0);
  }

  lemma ShortIs(little: bool, m: seq<byte>, at: nat, n: nat)
    requires at + 2 <= |m| && m[at..at + 2] == Bytes.Native(little, n, 2) && n < 0x1_0000
    ensures Has(little, m, at, 2, n)
  {
    Bytes.Widths();
    Bytes.WordReads(little, m, at, 2, n);
    NumberIsRead(little, m, at, 2);
  }

  // ----- the metadata of a merge -----

  /** How many addresses the rows before the i-th have. */
  ghost function Before(rows: seq<Merge.Row>, i: nat): nat
    requires i <= |rows|
  {
    if i == 0 then 0 else Before(rows, i - 1) + |rows[i - 1].addrs|
  }

  /** An address, with its top bit set when it was hit. */
  ghost function Marked(addr: nat, hits: set<nat>): nat {
    if addr in hits && addr < 0x8000_0000_0000_0000 then addr + 0x8000_0000_0000_0000 else addr
  }

  /** "Moar" and 4, the size, the checksum, the time, the number of rows, the offsets of the table and of the name,
      which comes last. */
  lemma MetadataEnds(m: seq<byte>, file: Merge.Coverage, rows: seq<Merge.Row>, tableAt: nat, nameAt: nat)
    requires Merge.IsImage(false, m, file, rows, tableAt) && Merge.Storable(file, rows)
    requires nameAt == tableAt + 8 * Before(rows, |rows|)
    ensures FirstAre(m, |m|, file.checksum, file.timestamp, |rows|, tableAt, nameAt) && Text(m, nameAt, file.filename)
  {
    TableLength(rows, file.hits);
    EndsAre(m, file, rows, tableAt, nameAt);
  }

  lemma EndsAre(m: seq<byte>, file: Merge.Coverage, rows: seq<Merge.Row>, tableAt: nat, nameAt: nat)
    requires Merge.IsImage(false, m, file, rows, tableAt) && Merge.Storable(file, rows)
    requires nameAt == tableAt + 8 * |Merge.Tags(Merge.TableOf(rows), file.hits)|
    ensures FirstAre(m, |m|, file.checksum, file.timestamp, |rows|, tableAt, nameAt) && Text(m, nameAt, file.filename)
  {
    FirstBytesAre(m, |m|, file.checksum, file.timestamp, |rows|, tableAt, nameAt);
    NameIs(m, nameAt, file.filename);
  }

  /** Twelve bytes a row from 36 on, and the table, in which each row has its addresses. */
  lemma MetadataTables(m: seq<byte>, file: Merge.Coverage, rows: seq<Merge.Row>, tableAt: nat)
    requires Merge.IsImage(false, m, file, rows, tableAt) && Merge.Storable(file, rows)
    ensures RowsLie(m, rows) && TableLies(m, tableAt, rows, file.hits)
  {
    Merge.EntriesSmall(rows);
    RowsAre(m, rows, Merge.EntryWords(rows));
    TableIs(m, tableAt, rows, file.hits);
  }

  ghost predicate FirstAre(m: seq<byte>, size: nat, checksum: nat, time: nat, n: nat, tableAt: nat, nameAt: nat) {
    && Has(false, m, 0, 4, 0x4d6f_6172) && Has(false, m, 4, 4, 4) && Has(false, m, 8, 4, size) && Has(false, m, 12, 4, checksum)
    && Has(false, m, 16, 8, time) && Has(false, m, 24, 4, n) && Has(false, m, 28, 4, tableAt) && Has(false, m, 32, 4, nameAt)
  }

  /** A row: the line, where its addresses start in the table, and how many they are. */
  ghost predicate RowIs(m: seq<byte>, at: nat, line: nat, start: nat, n: nat) {
    Has(false, m, at, 4, line) && Has(false, m, at + 4, 4, start) && Has(false, m, at + 8, 4, n)
  }

  lemma FirstBytesAre(m: seq<byte>, size: nat, checksum: nat, time: nat, n: nat, tableAt: nat, nameAt: nat)
    requires Merge.IsHeader(false, m, size, checksum, time, n, tableAt, nameAt)
    requires size < 0x1_0000_0000 && checksum < 0x1_0000_0000 && time < Bytes.U64
    requires n < 0x1_0000_0000 && tableAt < 0x1_0000_0000 && nameAt < 0x1_0000_0000
    ensures FirstAre(m, size, checksum, time, n, tableAt, nameAt)
  {
    Merge.HeaderDecodes(false, m, size, checksum, time, n, tableAt, nameAt);
    NumberIsRead(false, m, 0, 4);
    NumberIsRead(false, m, 4, 4);
    NumberIsRead(false, m, 8, 4);
    NumberIsRead(false, m, 12, 4);
    NumberIsRead(false, m, 16, 8);
    NumberIsRead(false, m, 24, 4);
    NumberIsRead(false, m, 28, 4);
    NumberIsRead(false, m, 32, 4);
  }

  lemma NameIs(m: seq<byte>, at: nat, s: seq<byte>)
    requires at + |s| + 1 <= |m| && m[at..at + |s| + 1] == Bytes.Terminated(s)
    ensures Text(m, at, s)
  {
    var t := m[at..at + |s| + 1];
    assert t[..|s|] == s && t[|s|] == 0 && m[at..at + |s|] == t[..|s|];
  }

  lemma {:induction false} TableSize(rows: seq<Merge.Row>, i: nat)
    requires i <= |rows|
    ensures |Merge.TableOf(rows[..i])| == Before(rows, i)
  {
    if i > 0 {
      TableSize(rows, i - 1);
      assert rows[..i][..i - 1] == rows[..i - 1];
    }
  }

  lemma TableLength(rows: seq<Merge.Row>, hits: set<nat>)
    ensures |Merge.Tags(Merge.TableOf(rows), hits)| == Before(rows, |rows|)
  {
    TableSize(rows, |rows|);
    assert rows[..|rows|] == rows;
  }

  lemma {:induction false} RowWords(rows: seq<Merge.Row>, i: nat, n: nat)
    requires i < n <= |rows|
    ensures var ws := Merge.EntryWords(rows[..n]);
            ws[3 * i] == rows[i].line && ws[3 * i + 1] == Before(rows, i) && ws[3 * i + 2] == |rows[i].addrs|
  {
    assert rows[..n][..n - 1] == rows[..n - 1];
    TableSize(rows, n - 1);
    if i < n - 1 {
      RowWords(rows, i, n - 1);
    }
  }

  ghost predicate RowsLie(m: seq<byte>, rows: seq<Merge.Row>) {
    forall i :: 0 <= i < |rows| ==> RowIs(m, 36 + 12 * i, rows[i].line, Before(rows, i), |rows[i].addrs|)
  }

  lemma RowsAre(m: seq<byte>, rows: seq<Merge.Row>, words: seq<nat>)
    requires words == Merge.EntryWords(rows) && 36 + 4 * |words| <= |m|
    requires m[36..36 + 4 * |words|] == Bytes.Words4(false, words)
    requires forall i :: 0 <= i < |words| ==> words[i] < 0x1_0000_0000
    ensures RowsLie(m, rows)
  {
    WordsAre(false, m, 36, words);
    forall i | 0 <= i < |rows| ensures RowIs(m, 36 + 12 * i, rows[i].line, Before(rows, i), |rows[i].addrs|) {
      assert rows[..|rows|] == rows;
      RowWords(rows, i, |rows|);
      RowAt(m, words, i);
    }
  }

  lemma RowAt(m: seq<byte>, words: seq<nat>, i: nat)
    requires 3 * i + 2 < |words| && forall j :: 0 <= j < |words| ==> Has(false, m, 36 + 4 * j, 4, words[j])
    ensures RowIs(m, 36 + 12 * i, words[3 * i], words[3 * i + 1], words[3 * i + 2])
  {
    assert Has(false, m, 36 + 4 * (3 * i), 4, words[3 * i]) && Has(false, m, 36 + 4 * (3 * i + 1), 4, words[3 * i + 1]);
    assert Has(false, m, 36 + 4 * (3 * i + 2), 4, words[3 * i + 2]);
  }

  lemma {:induction false} TableHas(rows: seq<Merge.Row>, i: nat, k: nat, n: nat)
    requires i < n <= |rows| && k < |rows[i].addrs|
    ensures Before(rows, i) + k < |Merge.TableOf(rows[..n])|
    ensures Merge.TableOf(rows[..n])[Before(rows, i) + k] == rows[i].addrs[k]
  {
    assert rows[..n][..n - 1] == rows[..n - 1];
    TableSize(rows, n - 1);
    if i < n - 1 {
      TableHas(rows, i, k, n - 1);
    }
  }

  ghost predicate TableLies(m: seq<byte>, at: nat, rows: seq<Merge.Row>, hits: set<nat>) {
    forall i, k :: 0 <= i < |rows| && 0 <= k < |rows[i].addrs| ==>
      Has(false, m, at + 8 * (Before(rows, i) + k), 8, Marked(rows[i].addrs[k], hits))
  }

  lemma TableIs(m: seq<byte>, at: nat, rows: seq<Merge.Row>, hits: set<nat>)
    requires var table := Merge.Tags(Merge.TableOf(rows), hits);
             at + 8 * |table| <= |m| && m[at..at + 8 * |table|] == Bytes.Words8(false, table)
    requires forall i :: 0 <= i < |Merge.TableOf(rows)| ==> Merge.TableOf(rows)[i] < Bytes.U64
    ensures TableLies(m, at, rows, hits)
  {
    var table := Merge.Tags(Merge.TableOf(rows), hits);
    Merge.TagsSmall(Merge.TableOf(rows), hits);
    LongWordsAre(false, m, at, table);
    forall i, k | 0 <= i < |rows| && 0 <= k < |rows[i].addrs|
      ensures Has(false, m, at + 8 * (Before(rows, i) + k), 8, Marked(rows[i].addrs[k], hits))
    {
      assert rows[..|rows|] == rows;
      TableHas(rows, i, k, |rows|);
      var j := Before(rows, i) + k;
      assert table[j] == Marked(rows[i].addrs[k], hits);
    }
  }

  // ----- the coverage database -----

  /** "kcov" and 6, the checksum of the binary, 32 bytes a row from 16 on, and zeros. */
  lemma DatabaseIs(m: seq<byte>, checksum: nat, rows: seq<Reporter.Entry>)
    requires Database.IsDatabase(false, m, checksum, rows) && checksum < Bytes.U64
    requires forall e :: e in rows ==> Database.Small(e)
    ensures |m| == 16 + 1024 * |rows| && Has(false, m, 0, 4, 0x6b63_6f76) && Has(false, m, 4, 4, 6) && Has(false, m, 8, 8, checksum)
    ensures forall i :: 0 <= i < |rows| ==> DatabaseRowIs(m, 16 + 32 * i, rows[i])
    ensures Zeros(m, 16 + 32 * |rows|, |m|)
  {
    Database.HeaderReads(false, m, checksum);
    NumberIsRead(false, m, 0, 4);
    NumberIsRead(false, m, 4, 4);
    NumberIsRead(false, m, 8, 8);
    forall i | 0 <= i < |rows| ensures DatabaseRowIs(m, 16 + 32 * i, rows[i]) {
      Database.RowReads(false, m, rows, i);
      FourAre(m, 16 + 32 * i, rows[i]);
    }
  }

  ghost predicate DatabaseRowIs(m: seq<byte>, at: nat, e: Reporter.Entry) {
    && Has(false, m, at, 8, e.addr) && Has(false, m, at + 8, 8, e.id)
    && Has(false, m, at + 16, 8, e.index) && Has(false, m, at + 24, 8, e.hits)
  }

  lemma FourAre(m: seq<byte>, at: nat, e: Reporter.Entry)
    requires at + 32 <= |m| && Database.ReadEntry(false, m, at) == e
    ensures DatabaseRowIs(m, at, e)
  {
    NumberIsRead(false, m, at, 8);
    NumberIsRead(false, m, at + 8, 8);
    NumberIsRead(false, m, at + 16, 8);
    NumberIsRead(false, m, at + 24, 8);
  }
}
