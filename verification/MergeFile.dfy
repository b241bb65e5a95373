/** The metadata file for one source file's coverage. */
module MergeFile {
  // A header, a row for each line, a table of addresses whose top bit says "hit", and the file name, big-endian
  // throughout.

  import opened Bytes

  const MAGIC: nat := 0x4d6f6172
  const VERSION: nat := 4
  /** sizeof(struct file_data) and the offset of its flexible array, which starts inside the padding. */
  const FILE_DATA: nat := 40
  const ENTRIES: nat := 36

  /** One source file's coverage. An address belongs to a line; hits are the addresses executed. */
  datatype Coverage = Coverage(filename: seq<byte>, timestamp: nat, checksum: nat,
                               lines: map<nat, set<nat>>, hits: set<nat>)

  /** A line and its addresses, as the hash maps are walked. */
  datatype Row = Row(line: nat, addrs: seq<nat>)

  /** What is left of an address once the hit bit is cleared. */
  type addr63 = x: nat | x < TOP

  /** What one slot of the address table says when the file is read back. */
  datatype Record = Record(line: nat, addr: addr63, hit: bool)

  // ----- tables -----

  /** Some order in which the maps of a file may be walked. */
  ghost predicate Enumerates(rows: seq<Row>, lines: map<nat, set<nat>>) {
    && (forall i :: 0 <= i < |rows| ==> rows[i].line in lines)
    && (forall i :: 0 <= i < |rows| ==> forall a :: a in rows[i].addrs <==> a in lines[rows[i].line])
    && (forall line :: line in lines ==> exists i :: 0 <= i < |rows| && rows[i].line == line)
  }

  function TableOf(rows: seq<Row>): seq<nat> {
    if rows == [] then [] else TableOf(rows[..|rows| - 1]) + rows[|rows| - 1].addrs
  }

  function EntryWords(rows: seq<Row>): (r: seq<nat>)
    ensures |r| == 3 * |rows|
  {
    if rows == [] then []
    else EntryWords(rows[..|rows| - 1])
         + [rows[|rows| - 1].line, |TableOf(rows[..|rows| - 1])|, |rows[|rows| - 1].addrs|]
  }

  /** An address with the hit bit set. */
  function Tag(addr: nat, hits: set<nat>): nat {
    if addr in hits && addr < TOP then addr + TOP else addr
  }

  function Tags(addrs: seq<nat>, hits: set<nat>): (r: seq<nat>)
    ensures |r| == |addrs|
  {
    seq(|addrs|, i requires 0 <= i < |addrs| => Tag(addrs[i], hits))
  }

  lemma {:induction false} TablePrefix(rows: seq<Row>, i: nat)
    requires i <= |rows|
    ensures TableOf(rows[..i]) <= TableOf(rows)
    decreases |rows| - i
  {
    if i < |rows| {
      TablePrefix(rows, i + 1);
      assert rows[..i + 1][..i] == rows[..i];
    } else {
      assert rows[..i] == rows;
    }
  }

  // ----- the layout -----

  function SizeOf(rows: seq<Row>, filename: seq<byte>): nat {
    FILE_DATA + 12 * |rows| + 8 * |TableOf(rows)| + |filename| + 1 + 8
  }

  /** The 8-aligned place for the table when the buffer itself starts at address base. */
  function TableAt(base: nat, n: nat): (at: nat)
    ensures (base + at) % 8 == 0
    ensures ENTRIES + 12 * n <= at < ENTRIES + 12 * n + 8
  {
    var end := ENTRIES + 12 * n;
    if (base + end) % 8 != 0 then end + (8 - (base + end) % 8) else end
  }

  ghost predicate IsHeader(little: bool, m: seq<byte>, size: nat, checksum: nat, timestamp: nat, n: nat, tableAt: nat, nameAt: nat) {
    && |m| >= ENTRIES
    && m[0..16] == Words4(little, [MAGIC, VERSION, size, checksum])
    && m[16..24] == Native(little, timestamp, 8)
    && m[24..36] == Words4(little, [n, tableAt, nameAt])
  }

  /** The bytes of a file with its words in the given byte order: big-endian on disk. The gap before the
      table and the end of the buffer hold nothing. */
  ghost predicate IsImage(little: bool, m: seq<byte>, file: Coverage, rows: seq<Row>, tableAt: nat) {
    var table := Tags(TableOf(rows), file.hits);
    var nameAt := tableAt + 8 * |table|;
    && |m| == SizeOf(rows, file.filename)
    && ENTRIES + 12 * |rows| <= tableAt && nameAt + |file.filename| + 1 <= |m|
    && IsHeader(little, m, |m|, file.checksum, file.timestamp, |rows|, tableAt, nameAt)
    && m[ENTRIES..ENTRIES + 12 * |rows|] == Words4(little, EntryWords(rows))
    && m[tableAt..nameAt] == Words8(little, table)
    && m[nameAt..nameAt + |file.filename| + 1] == Terminated(file.filename)
  }

  /** Everything fits the fields it is stored in. */
  ghost predicate Storable(file: Coverage, rows: seq<Row>) {
    && file.checksum < U32 && file.timestamp < U64 && SizeOf(rows, file.filename) < U32
    && (forall i :: 0 <= i < |rows| ==> rows[i].line < U32)
    && (forall i :: 0 <= i < |TableOf(rows)| ==> TableOf(rows)[i] < U64)
  }

  // ----- reading -----

  datatype Header = Header(magic: nat, version: nat, size: nat, checksum: nat, timestamp: nat,
                           n: nat, tableAt: nat, nameAt: nat)

  function ReadHeader(little: bool, m: seq<byte>): Header
    requires |m| >= ENTRIES
  {
    Header(ReadWord(little, m, 0, 4), ReadWord(little, m, 4, 4), ReadWord(little, m, 8, 4), ReadWord(little, m, 12, 4),
           ReadWord(little, m, 16, 8), ReadWord(little, m, 24, 4), ReadWord(little, m, 28, 4), ReadWord(little, m, 32, 4))
  }

  /** The only checks unMarshalFile makes. */
  predicate Accepted(h: Header) {
    h.magic == MAGIC && h.version == VERSION
  }

  /** What it then takes on trust: rows, table and name follow each other inside the file. */
  predicate Inside(h: Header, size: nat) {
    ENTRIES + 12 * h.n <= h.tableAt <= h.nameAt <= size
  }

  function TableSize(h: Header): nat
    requires h.tableAt <= h.nameAt
  {
    (h.nameAt - h.tableAt) / 8
  }

  function Read4s(little: bool, m: seq<byte>, from: nat, n: nat): (r: seq<nat>)
    requires from + 4 * n <= |m|
    ensures |r| == n
  {
    seq(n, i requires 0 <= i < n => ReadWord(little, m, from + 4 * i, 4))
  }

  function Read8s(little: bool, m: seq<byte>, from: nat, n: nat): (r: seq<nat>)
    requires from + 8 * n <= |m|
    ensures |r| == n
  {
    seq(n, i requires 0 <= i < n => ReadWord(little, m, from + 8 * i, 8))
  }

  datatype Decoded = Decoded(h: Header, entries: seq<nat>, table: seq<nat>, filename: seq<byte>)

  /** All that is read of a file, its words in the given byte order. */
  function Decode(little: bool, m: seq<byte>): (d: Decoded)
    requires |m| >= ENTRIES && Inside(ReadHeader(little, m), |m|)
    ensures |d.entries| == 3 * d.h.n
  {
    var h := ReadHeader(little, m);
    Decoded(h, Read4s(little, m, ENTRIES, 3 * h.n), Read8s(little, m, h.tableAt, TableSize(h)), CString(m, h.nameAt))
  }

  // ----- marshalling, then decoding -----

  lemma HeaderDecodes(little: bool, m: seq<byte>, size: nat, checksum: nat, timestamp: nat, n: nat, tableAt: nat, nameAt: nat)
    requires IsHeader(little, m, size, checksum, timestamp, n, tableAt, nameAt)
    requires size < U32 && checksum < U32 && timestamp < U64 && n < U32 && tableAt < U32 && nameAt < U32
    ensures ReadHeader(little, m) == Header(MAGIC, VERSION, size, checksum, timestamp, n, tableAt, nameAt)
  {
    Widths();
    var first, last := [MAGIC, VERSION, size, checksum], [n, tableAt, nameAt];
    Words4Read(little, m, 0, first);
    Words4Read(little, m, 24, last);
    assert first[0] == MAGIC && first[1] == VERSION && first[2] == size && first[3] == checksum;
    assert last[0] == n && last[1] == tableAt && last[2] == nameAt;
    WordReads(little, m, 16, 8, timestamp);
  }

  lemma {:induction false} EntriesSmall(rows: seq<Row>)
    requires forall i :: 0 <= i < |rows| ==> rows[i].line < U32
    requires |TableOf(rows)| < U32
    ensures forall i :: 0 <= i < 3 * |rows| ==> EntryWords(rows)[i] < U32
  {
    if rows != [] {
      EntriesSmall(rows[..|rows| - 1]);
    }
  }

  lemma TableDecodes(little: bool, m: seq<byte>, from: nat, table: seq<nat>)
    requires from + 8 * |table| <= |m| && m[from..from + 8 * |table|] == Words8(little, table)
    requires forall i :: 0 <= i < |table| ==> table[i] < U64
    ensures Read8s(little, m, from, |table|) == table
  {
    Widths();
    Words8Read(little, m, from, table);
    forall i: nat | i < |table| ensures Read8s(little, m, from, |table|)[i] == table[i] {
    }
  }

  lemma EntriesDecode(little: bool, m: seq<byte>, from: nat, words: seq<nat>)
    requires from + 4 * |words| <= |m| && m[from..from + 4 * |words|] == Words4(little, words)
    requires forall i :: 0 <= i < |words| ==> words[i] < U32
    ensures Read4s(little, m, from, |words|) == words
  {
    Widths();
    Words4Read(little, m, from, words);
    forall i: nat | i < |words| ensures Read4s(little, m, from, |words|)[i] == words[i] {
    }
  }

  lemma Assembled(little: bool, m: seq<byte>, h: Header, entries: seq<nat>, table: seq<nat>, filename: seq<byte>)
    requires |m| >= ENTRIES && ReadHeader(little, m) == h && Inside(h, |m|)
    requires Read4s(little, m, ENTRIES, 3 * h.n) == entries
    requires Read8s(little, m, h.tableAt, TableSize(h)) == table
    requires CString(m, h.nameAt) == filename
    ensures Decode(little, m) == Decoded(h, entries, table, filename)
  {
  }

  lemma TagsSmall(addrs: seq<nat>, hits: set<nat>)
    requires forall i :: 0 <= i < |addrs| ==> addrs[i] < U64
    ensures forall i :: 0 <= i < |addrs| ==> Tags(addrs, hits)[i] < U64
  {
  }

  ghost function Expected(file: Coverage, rows: seq<Row>, tableAt: nat): Decoded {
    var table := Tags(TableOf(rows), file.hits);
    var h := Header(MAGIC, VERSION, SizeOf(rows, file.filename), file.checksum, file.timestamp, |rows|, tableAt,
                    tableAt + 8 * |table|);
    Decoded(h, EntryWords(rows), table, file.filename)
  }

  lemma PartsDecode(little: bool, m: seq<byte>, entries: seq<nat>, table: seq<nat>, filename: seq<byte>, h: Header)
    requires |m| >= ENTRIES && ReadHeader(little, m) == h && h.nameAt == h.tableAt + 8 * |table|
    requires |entries| == 3 * h.n && ENTRIES + 12 * h.n <= h.tableAt && h.nameAt + |filename| + 1 <= |m|
    requires forall i :: 0 <= i < |entries| ==> entries[i] < U32
    requires forall i :: 0 <= i < |table| ==> table[i] < U64
    requires m[ENTRIES..ENTRIES + 4 * |entries|] == Words4(little, entries)
    requires m[h.tableAt..h.nameAt] == Words8(little, table)
    requires m[h.nameAt..h.nameAt + |filename| + 1] == Terminated(filename) && NulFree(filename)
    ensures Inside(h, |m|) && Decode(little, m) == Decoded(h, entries, table, filename)
  {
    assert TableSize(h) == |table|;
    EntriesDecode(little, m, ENTRIES, entries);
    TableDecodes(little, m, h.tableAt, table);
    NameDecodes(m, h.nameAt, filename);
    Assembled(little, m, h, entries, table, filename);
  }

  /** A file image decodes to exactly what was stored. */
  lemma ImageDecodes(little: bool, m: seq<byte>, file: Coverage, rows: seq<Row>, tableAt: nat)
    requires IsImage(little, m, file, rows, tableAt) && Storable(file, rows) && NulFree(file.filename)
    ensures |m| >= ENTRIES && Accepted(ReadHeader(little, m)) && Inside(ReadHeader(little, m), |m|)
    ensures Decode(little, m) == Expected(file, rows, tableAt)
  {
    var table := Tags(TableOf(rows), file.hits);
    var nameAt := tableAt + 8 * |table|;
    HeaderDecodes(little, m, |m|, file.checksum, file.timestamp, |rows|, tableAt, nameAt);
    EntriesSmall(rows);
    TagsSmall(TableOf(rows), file.hits);
    PartsDecode(little, m, EntryWords(rows), table, file.filename, ReadHeader(little, m));
  }

  lemma NameDecodes(m: seq<byte>, nameAt: nat, filename: seq<byte>)
    requires NulFree(filename) && nameAt + |filename| + 1 <= |m|
    requires m[nameAt..nameAt + |filename| + 1] == Terminated(filename)
    ensures CString(m, nameAt) == filename
  {
    assert m[nameAt..nameAt + |filename| + 1][|filename|] == m[nameAt + |filename|];
    GetInPart(m, nameAt, nameAt + |filename| + 1, Terminated(filename), 0, |filename|);
    CStringReads(m, nameAt, filename);
  }

  // ----- what a decoded file says -----

  /** The hit bit and the address it was set on. */
  function RecordOf(line: nat, slot: nat): Record {
    Record(line, slot % TOP, slot >= TOP)
  }

  function Slots(line: nat, slots: seq<nat>): (r: seq<Record>)
    ensures |r| == |slots|
  {
    seq(|slots|, k requires 0 <= k < |slots| => RecordOf(line, slots[k]))
  }

  /** Each row's slice of the table is inside it. Like the offsets, this is not checked when reading. */
  predicate Ranged(d: Decoded) {
    && |d.entries| == 3 * d.h.n
    && forall i :: 0 <= i < d.h.n ==> d.entries[3 * i + 1] + d.entries[3 * i + 2] <= |d.table|
  }

  /** The first i rows, address by address. */
  function Records(d: Decoded, i: nat): seq<Record>
    requires Ranged(d) && i <= d.h.n
  {
    if i == 0 then [] else Records(d, i - 1) + RowSlots(d, i - 1)
  }

  function RowRecords(rows: seq<Row>, hits: set<nat>): seq<Record> {
    if rows == [] then []
    else RowRecords(rows[..|rows| - 1], hits) + Slots(rows[|rows| - 1].line, Tags(rows[|rows| - 1].addrs, hits))
  }

  lemma {:induction false} EntryWordsAt(rows: seq<Row>, i: nat)
    requires i < |rows|
    ensures var ws := EntryWords(rows);
            ws[3 * i] == rows[i].line && ws[3 * i + 1] == |TableOf(rows[..i])| && ws[3 * i + 2] == |rows[i].addrs|
  {
    var last := |rows| - 1;
    if i < last {
      EntryWordsAt(rows[..last], i);
      assert rows[..last][..i] == rows[..i];
    }
  }

  /** Row i's slice of the table holds its own addresses. */
  lemma SliceOfRow(rows: seq<Row>, hits: set<nat>, i: nat)
    requires i < |rows|
    ensures var start := |TableOf(rows[..i])|; var table := Tags(TableOf(rows), hits);
            start + |rows[i].addrs| <= |table| && table[start..start + |rows[i].addrs|] == Tags(rows[i].addrs, hits)
  {
    assert rows[..i + 1][..i] == rows[..i];
    TablePrefix(rows, i + 1);
    var all, part := TableOf(rows), TableOf(rows[..i + 1]);
    assert part == TableOf(rows[..i]) + rows[i].addrs;
    assert all[..|part|] == part;
  }

  lemma RowsRanged(d: Decoded, rows: seq<Row>, hits: set<nat>)
    requires d.h.n == |rows| && d.entries == EntryWords(rows) && d.table == Tags(TableOf(rows), hits)
    ensures Ranged(d)
  {
    forall i | 0 <= i < |rows|
      ensures EntryWords(rows)[3 * i + 1] + EntryWords(rows)[3 * i + 2] <= |TableOf(rows)|
    {
      EntryWordsAt(rows, i);
      SliceOfRow(rows, hits, i);
    }
  }

  /** The records of one row. */
  function RowSlots(d: Decoded, i: nat): seq<Record>
    requires Ranged(d) && i < d.h.n
  {
    var start := d.entries[3 * i + 1];
    Slots(d.entries[3 * i], d.table[start..start + d.entries[3 * i + 2]])
  }

  lemma RowSlotsOfRow(d: Decoded, rows: seq<Row>, hits: set<nat>, i: nat)
    requires i < |rows| && d.h.n == |rows|
    requires Ranged(d) && d.entries == EntryWords(rows) && d.table == Tags(TableOf(rows), hits)
    ensures RowSlots(d, i) == Slots(rows[i].line, Tags(rows[i].addrs, hits))
  {
    EntryWordsAt(rows, i);
    SliceOfRow(rows, hits, i);
  }

  lemma RowRecordsGrow(rows: seq<Row>, hits: set<nat>, i: nat)
    requires i < |rows|
    ensures RowRecords(rows[..i + 1], hits) == RowRecords(rows[..i], hits) + Slots(rows[i].line, Tags(rows[i].addrs, hits))
  {
    assert rows[..i + 1][..i] == rows[..i];
  }

  lemma {:induction false} RecordsOfRows(d: Decoded, rows: seq<Row>, hits: set<nat>, i: nat)
    requires i <= |rows| && d.h.n == |rows|
    requires Ranged(d) && d.entries == EntryWords(rows) && d.table == Tags(TableOf(rows), hits)
    ensures Records(d, i) == RowRecords(rows[..i], hits)
  {
    if i > 0 {
      RecordsOfRows(d, rows, hits, i - 1);
      RowSlotsOfRow(d, rows, hits, i - 1);
      RowRecordsGrow(rows, hits, i - 1);
    }
  }

  lemma {:induction false} RecordHasRow(rows: seq<Row>, hits: set<nat>, r: Record)
    requires r in RowRecords(rows, hits)
    ensures exists i, a :: 0 <= i < |rows| && a in rows[i].addrs && r == RecordOf(rows[i].line, Tag(a, hits))
  {
    var last := |rows| - 1;
    if r in RowRecords(rows[..last], hits) {
      RecordHasRow(rows[..last], hits, r);
      var i, a :| 0 <= i < last && a in rows[..last][i].addrs && r == RecordOf(rows[..last][i].line, Tag(a, hits));
      assert a in rows[i].addrs && r == RecordOf(rows[i].line, Tag(a, hits));
    } else {
      var slots := Tags(rows[last].addrs, hits);
      var k :| 0 <= k < |slots| && Slots(rows[last].line, slots)[k] == r;
      assert rows[last].addrs[k] in rows[last].addrs;
    }
  }

  lemma {:induction false} RowHasRecord(rows: seq<Row>, hits: set<nat>, i: nat, a: nat)
    requires i < |rows| && a in rows[i].addrs
    ensures RecordOf(rows[i].line, Tag(a, hits)) in RowRecords(rows, hits)
  {
    var last := |rows| - 1;
    if i < last {
      RowHasRecord(rows[..last], hits, i, a);
    } else {
      var k :| 0 <= k < |rows[i].addrs| && rows[i].addrs[k] == a;
      var slots := Slots(rows[last].line, Tags(rows[last].addrs, hits));
      assert slots[k] == RecordOf(rows[i].line, Tag(a, hits));
    }
  }

  /** What a file says, whatever the order of its rows: every address of every line, with its hit bit. */
  ghost predicate Says(file: Coverage, r: Record) {
    exists a: nat :: r.line in file.lines && a in file.lines[r.line] && r == RecordOf(r.line, Tag(a, file.hits))
  }

  lemma SameRecords(file: Coverage, rows: seq<Row>, r: Record)
    requires Enumerates(rows, file.lines)
    ensures r in RowRecords(rows, file.hits) <==> Says(file, r)
  {
    if r in RowRecords(rows, file.hits) {
      RecordHasRow(rows, file.hits, r);
      var i, a :| 0 <= i < |rows| && a in rows[i].addrs && r == RecordOf(rows[i].line, Tag(a, file.hits));
      assert a in file.lines[r.line];
    }
    if Says(file, r) {
      var a: nat :| r.line in file.lines && a in file.lines[r.line] && r == RecordOf(r.line, Tag(a, file.hits));
      var i :| 0 <= i < |rows| && rows[i].line == r.line;
      RowHasRecord(rows, file.hits, i, a);
    }
  }

  /** Below bit 63 nothing is confused: exactly the lines' addresses, hit exactly if hit. Every file of a session
      of the merge parser is like this. */
  lemma SaysWhatItIs(file: Coverage, r: Record)
    requires forall line, a :: line in file.lines && a in file.lines[line] ==> a < TOP
    ensures Says(file, r) <==> r.line in file.lines && r.addr in file.lines[r.line] && r.hit == (r.addr in file.hits)
  {
    if r.line in file.lines && r.addr in file.lines[r.line] && r.hit == (r.addr in file.hits) {
      assert r == RecordOf(r.line, Tag(r.addr, file.hits));
    }
  }

  /** A file image read back says exactly what the file says, and keeps its name and checksum. */
  lemma RoundTrip(little: bool, m: seq<byte>, file: Coverage, rows: seq<Row>, tableAt: nat)
    requires IsImage(little, m, file, rows, tableAt) && Storable(file, rows) && NulFree(file.filename)
    requires Enumerates(rows, file.lines)
    ensures |m| >= ENTRIES && Accepted(ReadHeader(little, m)) && Inside(ReadHeader(little, m), |m|)
    ensures var d := Decode(little, m);
            && Ranged(d) && d.filename == file.filename && d.h.checksum == file.checksum
            && forall r :: r in Records(d, d.h.n) <==> Says(file, r)
  {
    ImageDecodes(little, m, file, rows, tableAt);
    RowsRanged(Expected(file, rows, tableAt), rows, file.hits);
    RecordsOfRows(Expected(file, rows, tableAt), rows, file.hits, |rows|);
    assert rows[..|rows|] == rows;
    forall r ensures r in RowRecords(rows, file.hits) <==> Says(file, r) {
      SameRecords(file, rows, r);
    }
  }
}
