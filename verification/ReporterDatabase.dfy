/** The coverage database: a header and a row for each address that was hit, big-endian, in a buffer
    allocated 32 times too large and zero past the rows. */
module ReporterDatabase {
  import opened Bytes
  import opened ReporterState

  const MAGIC: nat := 0x6b636f76
  const VERSION: nat := 6
  const HEADER: nat := 16
  const ENTRY: nat := 32

  /** An int converted to uint64_t: negative ones keep their sign. */
  function Extended(hits: u32): u64 {
    if hits < 0x8000_0000 then hits else hits + (U64 - U32)
  }

  /** As signed numbers of 64 and of 32 bits they are the same. */
  lemma ExtensionIsSigned(hits: u32)
    ensures (if Extended(hits) < 0x8000_0000_0000_0000 then Extended(hits) else Extended(hits) - 0x1_0000_0000_0000_0000)
            == if hits < 0x8000_0000 then hits else hits - 0x1_0000_0000
    ensures Extended(hits) < 0x8000_0000 || Extended(hits) >= 0xFFFF_FFFF_8000_0000
  {
  }

  lemma ExtensionKeepsLowBits(hits: u32, n: nat)
    ensures (n + Extended(hits)) % U32 == (n + hits) % U32
    ensures Extended(hits) == 0 <==> hits == 0
  {
    assert U64 - U32 == U32 * (U32 - 1);
    if hits >= 0x8000_0000 {
      AddMultiple(n + hits, U32 - 1);
    }
  }

  lemma {:induction false} AddMultiple(n: nat, k: nat)
    ensures (n + U32 * k) % U32 == n % U32
    decreases k
  {
    if k > 0 {
      AddMultiple(n + U32, k - 1);
      assert n + U32 + U32 * (k - 1) == n + U32 * k;
    }
  }

  // ----- what is written -----

  /** The rows of the first n addresses of a line. */
  function LineEntries(l: Line, n: nat): seq<Entry>
    requires n <= |l.addrs|
  {
    if n == 0 then []
    else
      var c := l.addrs[n - 1];
      LineEntries(l, n - 1) + if c.hits == 0 then [] else [Entry(c.addr, l.id, n - 1, Extended(c.hits))]
  }

  function SlotEntries(lines: seq<Line>, slot: Slot): seq<Entry> {
    if slot.Null? || slot.line >= |lines| then [] else LineEntries(lines[slot.line], |lines[slot.line].addrs|)
  }

  function FileEntries(lines: seq<Line>, slots: seq<Slot>): seq<Entry> {
    if slots == [] then [] else FileEntries(lines, slots[..|slots| - 1]) + SlotEntries(lines, slots[|slots| - 1])
  }

  /** `names` is how the hash map of files is walked. */
  function AllEntries(s: State, names: seq<Name>): seq<Entry>
    requires forall f :: f in names ==> f in s.files
  {
    if names == [] then []
    else AllEntries(s, names[..|names| - 1]) + FileEntries(s.lines, s.files[names[|names| - 1]].slots)
  }

  function Words(e: Entry): (r: seq<nat>)
    ensures |r| == 4
  {
    [e.addr, e.id, e.index, e.hits]
  }

  function EntryWords(entries: seq<Entry>): (r: seq<nat>)
    ensures |r| == 4 * |entries|
  {
    if entries == [] then [] else EntryWords(entries[..|entries| - 1]) + Words(entries[|entries| - 1])
  }

  ghost predicate IsHeader(little: bool, m: seq<byte>, checksum: nat) {
    |m| >= HEADER && m[0..8] == Words4(little, [MAGIC, VERSION]) && m[8..16] == Native(little, checksum, 8)
  }

  /** The image: sizes are counted in bytes and multiplied by the size of an entry once more. */
  ghost predicate IsDatabase(little: bool, m: seq<byte>, checksum: nat, entries: seq<Entry>) {
    && |m| == HEADER + ENTRY * (ENTRY * |entries|)
    && IsHeader(little, m, checksum)
    && m[HEADER..HEADER + ENTRY * |entries|] == Words8(little, EntryWords(entries))
    && forall i :: HEADER + ENTRY * |entries| <= i < |m| ==> m[i] == 0
  }

  // ----- reading -----

  function ReadEntry(little: bool, m: seq<byte>, at: nat): Entry
    requires at + ENTRY <= |m|
  {
    Entry(ReadWord(little, m, at, 8), ReadWord(little, m, at + 8, 8), ReadWord(little, m, at + 16, 8),
          ReadWord(little, m, at + 24, 8))
  }

  function ReadEntries(little: bool, m: seq<byte>, n: nat): (r: seq<Entry>)
    requires HEADER + ENTRY * n <= |m|
    ensures |r| == n
  {
    seq(n, i requires 0 <= i < n => ReadEntry(little, m, HEADER + ENTRY * i))
  }

  predicate HeaderOk(little: bool, m: seq<byte>, checksum: nat)
    requires |m| >= HEADER
  {
    ReadWord(little, m, 0, 4) == MAGIC && ReadWord(little, m, 4, 4) == VERSION && ReadWord(little, m, 8, 8) == checksum
  }

  lemma {:induction false} EntryWordsAt(entries: seq<Entry>, i: nat)
    requires i < |entries|
    ensures var ws := EntryWords(entries);
            ws[4 * i] == entries[i].addr && ws[4 * i + 1] == entries[i].id
            && ws[4 * i + 2] == entries[i].index && ws[4 * i + 3] == entries[i].hits
  {
    if i < |entries| - 1 {
      EntryWordsAt(entries[..|entries| - 1], i);
    }
  }

  ghost predicate Small(e: Entry) {
    e.addr < U64 && e.id < U64 && e.index < U64 && e.hits < U64
  }

  lemma {:induction false} WordsSmall(entries: seq<Entry>)
    requires forall e :: e in entries ==> Small(e)
    ensures forall i :: 0 <= i < 4 * |entries| ==> EntryWords(entries)[i] < U64
  {
    if entries != [] {
      WordsSmall(entries[..|entries| - 1]);
      assert entries[|entries| - 1] in entries;
    }
  }

  lemma RowReads(little: bool, m: seq<byte>, entries: seq<Entry>, i: nat)
    requires HEADER + ENTRY * |entries| <= |m| && i < |entries|
    requires m[HEADER..HEADER + ENTRY * |entries|] == Words8(little, EntryWords(entries))
    requires forall e :: e in entries ==> Small(e)
    ensures ReadEntry(little, m, HEADER + ENTRY * i) == entries[i]
  {
    Widths();
    WordsSmall(entries);
    var ws := EntryWords(entries);
    Words8Read(little, m, HEADER, ws);
    EntryWordsAt(entries, i);
    assert ReadWord(little, m, HEADER + 8 * (4 * i), 8) == ws[4 * i];
    assert ReadWord(little, m, HEADER + 8 * (4 * i + 1), 8) == ws[4 * i + 1];
    assert ReadWord(little, m, HEADER + 8 * (4 * i + 2), 8) == ws[4 * i + 2];
    assert ReadWord(little, m, HEADER + 8 * (4 * i + 3), 8) == ws[4 * i + 3];
  }

  lemma {:induction false} ZerosRead(s: seq<byte>)
    requires forall i :: 0 <= i < |s| ==> s[i] == 0
    ensures LeValue(s) == 0
  {
    if s != [] {
      ZerosRead(s[1..]);
    }
  }

  lemma PaddingReads(little: bool, m: seq<byte>, at: nat)
    requires at + ENTRY <= |m| && forall i :: at <= i < at + ENTRY ==> m[i] == 0
    ensures ReadEntry(little, m, at).hits == 0
  {
    ZerosRead(Get(m, at + 24, 8));
    ZerosRead(Reversed(Get(m, at + 24, 8)));
  }

  lemma HeaderReads(little: bool, m: seq<byte>, checksum: nat)
    requires IsHeader(little, m, checksum) && checksum < U64
    ensures HeaderOk(little, m, checksum)
  {
    Widths();
    var first := [MAGIC, VERSION];
    Words4Read(little, m, 0, first);
    assert first[0] == MAGIC && first[1] == VERSION;
    WordReads(little, m, 8, 8, checksum);
  }

  /** How many rows unMarshal reads from a file of this size. */
  function RowsIn(size: nat): nat
    requires size >= HEADER
  {
    (size - HEADER) / ENTRY
  }

  /** Read back, an image is accepted and gives its rows in order, then 31 times as many rows without hits. */
  lemma DatabaseReads(little: bool, m: seq<byte>, checksum: nat, entries: seq<Entry>)
    requires IsDatabase(little, m, checksum, entries) && checksum < U64 && forall e :: e in entries ==> Small(e)
    ensures HeaderOk(little, m, checksum) && RowsIn(|m|) == ENTRY * |entries|
    ensures var rows := ReadEntries(little, m, RowsIn(|m|));
            rows[..|entries|] == entries && forall i :: |entries| <= i < |rows| ==> rows[i].hits == 0
  {
    HeaderReads(little, m, checksum);
    RowsRead(little, m, entries);
    RestReads(little, m, |entries|, RowsIn(|m|));
  }

  lemma RowsRead(little: bool, m: seq<byte>, entries: seq<Entry>)
    requires HEADER + ENTRY * |entries| <= |m| && m[HEADER..HEADER + ENTRY * |entries|] == Words8(little, EntryWords(entries))
    requires forall e :: e in entries ==> Small(e)
    ensures forall n :: |entries| <= n && HEADER + ENTRY * n <= |m| ==> ReadEntries(little, m, n)[..|entries|] == entries
  {
    forall n | |entries| <= n && HEADER + ENTRY * n <= |m| ensures ReadEntries(little, m, n)[..|entries|] == entries {
      forall i | 0 <= i < |entries| ensures ReadEntries(little, m, n)[i] == entries[i] {
        RowReads(little, m, entries, i);
      }
    }
  }

  lemma RestReads(little: bool, m: seq<byte>, from: nat, n: nat)
    requires HEADER + ENTRY * n <= |m| && forall i :: HEADER + ENTRY * from <= i < |m| ==> m[i] == 0
    ensures forall i :: from <= i < n ==> ReadEntries(little, m, n)[i].hits == 0
  {
    forall i | from <= i < n ensures ReadEntries(little, m, n)[i].hits == 0 {
      PaddingReads(little, m, HEADER + ENTRY * i);
    }
  }

  /** Rows without hits are skipped. */
  lemma {:induction false} PaddingIsSkipped(env: Env, s: State, rows: seq<Entry>, n: nat)
    requires n <= |rows| && forall i :: n <= i < |rows| ==> rows[i].hits == 0
    ensures RestoredAll(env, s, rows) == RestoredAll(env, s, rows[..n])
    decreases |rows|
  {
    if n < |rows| {
      PaddingIsSkipped(env, s, rows[..|rows| - 1], n);
      assert rows[..|rows| - 1][..n] == rows[..n];
    } else {
      assert rows[..n] == rows;
    }
  }

  /** Reading the image of a database restores exactly the rows that were written. */
  lemma DatabaseRestores(env: Env, s: State, little: bool, m: seq<byte>, checksum: nat, entries: seq<Entry>)
    requires IsDatabase(little, m, checksum, entries) && checksum < U64 && forall e :: e in entries ==> Small(e)
    ensures HeaderOk(little, m, checksum)
    ensures RestoredAll(env, s, ReadEntries(little, m, RowsIn(|m|))) == RestoredAll(env, s, entries)
  {
    DatabaseReads(little, m, checksum, entries);
    PaddingIsSkipped(env, s, ReadEntries(little, m, RowsIn(|m|)), |entries|);
  }

  // ----- which rows are written -----

  ghost predicate IsRow(l: Line, j: nat, e: Entry) {
    && j < |l.addrs| && l.addrs[j].hits != 0
    && e.addr == l.addrs[j].addr && e.id == l.id && e.index == j && e.hits == Extended(l.addrs[j].hits)
  }

  /** Each address of the line that was hit has one row, with its place in the line, in order of these. */
  lemma {:induction false} RowsOfLine(l: Line, n: nat)
    requires n <= |l.addrs|
    ensures forall e :: e in LineEntries(l, n) <==> exists j :: 0 <= j < n && IsRow(l, j, e)
    ensures forall i, k :: 0 <= i < k < |LineEntries(l, n)| ==> LineEntries(l, n)[i].index < LineEntries(l, n)[k].index
  {
    if n > 0 {
      RowsOfLine(l, n - 1);
      var before, c := LineEntries(l, n - 1), l.addrs[n - 1];
      var last := Entry(c.addr, l.id, n - 1, Extended(c.hits));
      assert LineEntries(l, n) == before + if c.hits == 0 then [] else [last];
      forall e ensures e in LineEntries(l, n) <==> exists j :: 0 <= j < n && IsRow(l, j, e) {
        assert IsRow(l, n - 1, e) <==> c.hits != 0 && e == last;
        if e in before {
          var j :| 0 <= j < n - 1 && IsRow(l, j, e);
        }
      }
      forall i | 0 <= i < |before| ensures before[i].index < n - 1 {
        assert before[i] in before;
      }
    }
  }

  ghost predicate IsStored(lines: seq<Line>, slots: seq<Slot>, e: Entry) {
    exists k, j: nat :: 0 <= k < |slots| && slots[k].At? && slots[k].line < |lines| && IsRow(lines[slots[k].line], j, e)
  }

  lemma {:induction false} RowsOfFile(lines: seq<Line>, slots: seq<Slot>, e: Entry)
    ensures e in FileEntries(lines, slots) <==> IsStored(lines, slots, e)
  {
    if slots != [] {
      var before, last := slots[..|slots| - 1], slots[|slots| - 1];
      RowsOfFile(lines, before, e);
      if last.At? && last.line < |lines| {
        RowsOfLine(lines[last.line], |lines[last.line].addrs|);
      }
      assert slots == before + [last];
      if IsStored(lines, before, e) {
        var k, j: nat :| 0 <= k < |before| && before[k].At? && before[k].line < |lines| && IsRow(lines[before[k].line], j, e);
        assert slots[k] == before[k];
      }
      if e in SlotEntries(lines, last) {
        var j :| 0 <= j < |lines[last.line].addrs| && IsRow(lines[last.line], j, e);
        assert slots[|before|] == last;
      }
    }
  }

  /** The rows written are those of the lines of all files that are walked, left out or not. */
  lemma {:induction false} RowsOfAll(s: State, names: seq<Name>, e: Entry)
    requires forall f :: f in names ==> f in s.files
    ensures e in AllEntries(s, names) <==> exists f :: f in names && IsStored(s.lines, s.files[f].slots, e)
  {
    if names != [] {
      var before, last := names[..|names| - 1], names[|names| - 1];
      RowsOfAll(s, before, e);
      RowsOfFile(s.lines, s.files[last].slots, e);
      assert names == before + [last];
    }
  }
}
