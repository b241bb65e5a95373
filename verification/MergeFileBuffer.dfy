/** Writing a metadata file into a buffer, rows and addresses in nested loops and the table aligned where
    the buffer happens to lie, and turning one that was read to the host's byte order in place. */
module MergeFileBuffer {
  import opened Bytes
  import opened MergeFile

  // ----- big-endian stores -----

  method StoreBeWords(little: bool, out: array<byte>, from: nat, data: seq<nat>)
    requires from + 4 * |data| <= out.Length
    modifies out
    ensures forall i :: 0 <= i < out.Length && !(from <= i < from + 4 * |data|) ==> out[i] == old(out[i])
    ensures forall i, j :: 0 <= i <= j <= out.Length && (j <= from || from + 4 * |data| <= i) ==> out[i..j] == old(out[i..j])
    ensures out[from..from + 4 * |data|] == Words4(false, data)
  {
    for i := 0 to |data|
      invariant forall j :: 0 <= j < out.Length && !(from <= j < from + 4 * |data|) ==> out[j] == old(out[j])
      invariant out[from..from + 4 * i] == Words4(false, data[..i])
    {
      StoreBe(little, out, from + 4 * i, data[i], 4);
      Words4Extend(false, data, i);
      Split(out[..], from, from + 4 * i, from + 4 * i + 4);
    }
    assert data[..|data|] == data;
  }

  lemma TagStored(little: bool, m: seq<byte>, from: nat, tags: seq<nat>, i: nat)
    requires i < |tags| && from + 8 * i + 8 <= |m| && m[from..from + 8 * i] == Words8(little, tags[..i])
    requires m[from + 8 * i..from + 8 * i + 8] == Native(little, tags[i], 8)
    ensures m[from..from + 8 * i + 8] == Words8(little, tags[..i + 1])
  {
    Words8Extend(little, tags, i);
    Split(m, from, from + 8 * i, from + 8 * i + 8);
  }

  /** One line's addresses, each with its hit bit. */
  method StoreAddrs(little: bool, out: array<byte>, from: nat, addrs: seq<nat>, hits: set<nat>)
    requires from + 8 * |addrs| <= out.Length
    modifies out
    ensures forall i :: 0 <= i < out.Length && !(from <= i < from + 8 * |addrs|) ==> out[i] == old(out[i])
    ensures forall i, j :: 0 <= i <= j <= out.Length && (j <= from || from + 8 * |addrs| <= i) ==> out[i..j] == old(out[i..j])
    ensures out[from..from + 8 * |addrs|] == Words8(false, Tags(addrs, hits))
  {
    ghost var tags := Tags(addrs, hits);
    for i := 0 to |addrs|
      invariant forall j :: 0 <= j < out.Length && !(from <= j < from + 8 * |addrs|) ==> out[j] == old(out[j])
      invariant out[from..from + 8 * i] == Words8(false, tags[..i])
    {
      var addr := addrs[i];
      if addr in hits {
        addr := if addr < TOP then addr + TOP else addr;
      }
      StoreBe(little, out, from + 8 * i, addr, 8);
      TagStored(false, out[..], from, tags, i);
    }
    assert tags[..|addrs|] == tags;
  }

  // ----- marshalling -----

  lemma TableGrows(rows: seq<Row>, i: nat)
    requires i < |rows|
    ensures TableOf(rows[..i + 1]) == TableOf(rows[..i]) + rows[i].addrs
    ensures EntryWords(rows[..i + 1]) == EntryWords(rows[..i]) + EntryOf(rows[i], |TableOf(rows[..i])|)
    ensures |TableOf(rows[..i])| + |rows[i].addrs| <= |TableOf(rows)|
  {
    assert rows[..i + 1][..i] == rows[..i];
    TablePrefix(rows, i + 1);
  }

  lemma TagsAppend(a: seq<nat>, b: seq<nat>, hits: set<nat>)
    ensures Tags(a + b, hits) == Tags(a, hits) + Tags(b, hits)
  {
  }

  /** struct line_entry of a row whose addresses start at slot `start`. */
  function EntryOf(row: Row, start: nat): (r: seq<nat>)
    ensures |r| == 3
  {
    [row.line, start, |row.addrs|]
  }

  ghost predicate EntriesStored(little: bool, m: seq<byte>, rows: seq<Row>, i: nat) {
    && i <= |rows| && ENTRIES + 12 * i <= |m|
    && m[ENTRIES..ENTRIES + 12 * i] == Words4(little, EntryWords(rows[..i]))
  }

  ghost predicate TableStored(little: bool, m: seq<byte>, rows: seq<Row>, hits: set<nat>, tableAt: nat, i: nat) {
    && i <= |rows| && tableAt + 8 * |TableOf(rows[..i])| <= |m|
    && m[tableAt..tableAt + 8 * |TableOf(rows[..i])|] == Words8(little, Tags(TableOf(rows[..i]), hits))
  }

  lemma EntryStored(little: bool, m: seq<byte>, rows: seq<Row>, i: nat)
    requires i < |rows| && EntriesStored(little, m, rows, i) && ENTRIES + 12 * i + 12 <= |m|
    requires m[ENTRIES + 12 * i..ENTRIES + 12 * i + 12]
             == Words4(little, EntryOf(rows[i], |TableOf(rows[..i])|))
    ensures EntriesStored(little, m, rows, i + 1)
  {
    TableGrows(rows, i);
    Split(m, ENTRIES, ENTRIES + 12 * i, ENTRIES + 12 * i + 12);
    Words4Append(little, EntryWords(rows[..i]), EntryOf(rows[i], |TableOf(rows[..i])|));
  }

  lemma AddrsStored(little: bool, m: seq<byte>, rows: seq<Row>, hits: set<nat>, tableAt: nat, i: nat)
    requires i < |rows| && TableStored(little, m, rows, hits, tableAt, i)
    requires var from := tableAt + 8 * |TableOf(rows[..i])|;
             && from + 8 * |rows[i].addrs| <= |m|
             && m[from..from + 8 * |rows[i].addrs|] == Words8(little, Tags(rows[i].addrs, hits))
    ensures TableStored(little, m, rows, hits, tableAt, i + 1)
  {
    var from := tableAt + 8 * |TableOf(rows[..i])|;
    TableGrows(rows, i);
    Split(m, tableAt, from, from + 8 * |rows[i].addrs|);
    TagsAppend(TableOf(rows[..i]), rows[i].addrs, hits);
    Words8Append(little, Tags(TableOf(rows[..i]), hits), Tags(rows[i].addrs, hits));
  }

  lemma RowInPlace(little: bool, was: seq<byte>, m: seq<byte>, rows: seq<Row>, hits: set<nat>, tableAt: nat, i: nat,
                   p: nat, from: nat)
    requires EntriesStored(little, was, rows, i) && TableStored(little, was, rows, hits, tableAt, i) && |m| == |was|
    requires i < |rows| && p == ENTRIES + 12 * i && from == tableAt + 8 * |TableOf(rows[..i])|
    requires p + 12 <= |m| && from + 8 * |rows[i].addrs| <= |m|
    requires m[ENTRIES..p] == was[ENTRIES..p] && m[tableAt..from] == was[tableAt..from]
    requires m[p..p + 12] == Words4(little, EntryOf(rows[i], |TableOf(rows[..i])|))
    requires m[from..from + 8 * |rows[i].addrs|] == Words8(little, Tags(rows[i].addrs, hits))
    ensures EntriesStored(little, m, rows, i + 1) && TableStored(little, m, rows, hits, tableAt, i + 1)
  {
    EntryStored(little, m, rows, i);
    AddrsStored(little, m, rows, hits, tableAt, i);
  }

  /** One turn of the outer loop. */
  method StoreRow(little: bool, out: array<byte>, rows: seq<Row>, hits: set<nat>, tableAt: nat, i: nat, tableOffset: nat)
    requires i < |rows| && tableOffset == |TableOf(rows[..i])|
    requires ENTRIES + 12 * i + 12 <= tableAt && tableAt + 8 * tableOffset + 8 * |rows[i].addrs| <= out.Length
    requires EntriesStored(false, out[..], rows, i) && TableStored(false, out[..], rows, hits, tableAt, i)
    modifies out
    ensures forall i, j :: 0 <= i <= j <= ENTRIES ==> out[i..j] == old(out[i..j])
    ensures EntriesStored(false, out[..], rows, i + 1) && TableStored(false, out[..], rows, hits, tableAt, i + 1)
  {
    ghost var was := out[..];
    var p, from := ENTRIES + 12 * i, tableAt + 8 * tableOffset;
    StoreBeWords(little, out, p, EntryOf(rows[i], tableOffset));
    StoreAddrs(little, out, from, rows[i].addrs, hits);
    RowInPlace(false, was, out[..], rows, hits, tableAt, i, p, from);
  }

  /** The two nested loops over lines and addresses. */
  method StoreRows(little: bool, out: array<byte>, rows: seq<Row>, hits: set<nat>, tableAt: nat)
    requires ENTRIES + 12 * |rows| <= tableAt && tableAt + 8 * |TableOf(rows)| <= out.Length
    modifies out
    ensures forall i, j :: 0 <= i <= j <= ENTRIES ==> out[i..j] == old(out[i..j])
    ensures EntriesStored(false, out[..], rows, |rows|) && TableStored(false, out[..], rows, hits, tableAt, |rows|)
  {
    var tableOffset := 0;
    for i := 0 to |rows|
      invariant tableOffset == |TableOf(rows[..i])|
      invariant forall i, j :: 0 <= i <= j <= ENTRIES ==> out[i..j] == old(out[i..j])
      invariant EntriesStored(false, out[..], rows, i)
      invariant TableStored(false, out[..], rows, hits, tableAt, i)
    {
      TableGrows(rows, i);
      StoreRow(little, out, rows, hits, tableAt, i, tableOffset);
      tableOffset := tableOffset + |rows[i].addrs|;
    }
  }

  method CountAddrs(rows: seq<Row>) returns (n: nat)
    ensures n == |TableOf(rows)|
  {
    n := 0;
    for i := 0 to |rows|
      invariant n == |TableOf(rows[..i])|
    {
      assert rows[..i + 1][..i] == rows[..i];
      n := n + |rows[i].addrs|;
    }
    assert rows[..|rows|] == rows;
  }

  /** `base` is where malloc put the buffer, `rows` how the hash maps are walked. Every store stays
      inside the size computed beforehand. */
  method MarshalFile(little: bool, base: nat, file: Coverage, rows: seq<Row>) returns (out: array<byte>)
    requires Storable(file, rows)
    ensures fresh(out) && IsImage(false, out[..], file, rows, TableAt(base, |rows|))
  {
    var nAddrs := CountAddrs(rows);
    var n := |rows|;
    var size := FILE_DATA + n * 12 + nAddrs * 8 + |file.filename| + 1 + 8;
    out := new byte[size](_ => 0);
    var tableAt := TableAt(base, n);
    var nameAt := tableAt + 8 * nAddrs;
    FillFile(little, out, file, rows, tableAt, nameAt);
  }

  method FillFile(little: bool, out: array<byte>, file: Coverage, rows: seq<Row>, tableAt: nat, nameAt: nat)
    requires out.Length == SizeOf(rows, file.filename) && nameAt == tableAt + 8 * |TableOf(rows)|
    requires ENTRIES + 12 * |rows| <= tableAt < ENTRIES + 12 * |rows| + 8
    modifies out
    ensures IsImage(false, out[..], file, rows, tableAt)
  {
    StoreRows(little, out, rows, file.hits, tableAt);
    ghost var withRows := out[..];
    Store(out, nameAt, Terminated(file.filename));
    ghost var withName := out[..];
    assert withName[0..nameAt] == withRows[0..nameAt];
    StoreHeader(little, out, file, |rows|, tableAt, nameAt);
    assert out[..][ENTRIES..|withName|] == withName[ENTRIES..|withName|];
    Complete(false, withRows, withName, out[..], file, rows, tableAt, nameAt);
  }

  lemma Complete(little: bool, withRows: seq<byte>, withName: seq<byte>, m: seq<byte>, file: Coverage, rows: seq<Row>,
                 tableAt: nat, nameAt: nat)
    requires |m| == |withRows| == |withName| == SizeOf(rows, file.filename) && nameAt == tableAt + 8 * |TableOf(rows)|
    requires ENTRIES + 12 * |rows| <= tableAt < ENTRIES + 12 * |rows| + 8
    requires EntriesStored(little, withRows, rows, |rows|) && TableStored(little, withRows, rows, file.hits, tableAt, |rows|)
    requires withName[0..nameAt] == withRows[0..nameAt]
    requires withName[nameAt..nameAt + |file.filename| + 1] == Terminated(file.filename)
    requires m[ENTRIES..|m|] == withName[ENTRIES..|m|]
    requires IsHeader(little, m, |m|, file.checksum, file.timestamp, |rows|, tableAt, nameAt)
    ensures IsImage(little, m, file, rows, tableAt)
  {
    assert rows[..|rows|] == rows;
    SameSlice(withName, withRows, 0, nameAt, ENTRIES, ENTRIES + 12 * |rows|);
    SameSlice(withName, withRows, 0, nameAt, tableAt, nameAt);
    Placed(little, withName, m, file, rows, tableAt, nameAt);
  }

  lemma Placed(little: bool, was: seq<byte>, m: seq<byte>, file: Coverage, rows: seq<Row>, tableAt: nat, nameAt: nat)
    requires |m| == |was| == SizeOf(rows, file.filename) && nameAt == tableAt + 8 * |Tags(TableOf(rows), file.hits)|
    requires ENTRIES + 12 * |rows| <= tableAt < ENTRIES + 12 * |rows| + 8
    requires was[ENTRIES..ENTRIES + 12 * |rows|] == Words4(little, EntryWords(rows))
    requires was[tableAt..nameAt] == Words8(little, Tags(TableOf(rows), file.hits))
    requires was[nameAt..nameAt + |file.filename| + 1] == Terminated(file.filename)
    requires m[ENTRIES..|m|] == was[ENTRIES..|m|]
    requires IsHeader(little, m, |m|, file.checksum, file.timestamp, |rows|, tableAt, nameAt)
    ensures IsImage(little, m, file, rows, tableAt)
  {
    SameSlice(m, was, ENTRIES, |m|, ENTRIES, ENTRIES + 12 * |rows|);
    SameSlice(m, was, ENTRIES, |m|, tableAt, nameAt);
    SameSlice(m, was, ENTRIES, |m|, nameAt, nameAt + |file.filename| + 1);
  }

  lemma SameSlice(a: seq<byte>, b: seq<byte>, lo: nat, hi: nat, i: nat, j: nat)
    requires lo <= i <= j <= hi <= |a| && hi <= |b| && a[lo..hi] == b[lo..hi]
    ensures a[i..j] == b[i..j]
  {
    forall k | i <= k < j ensures a[k] == b[k] {
      assert a[lo..hi][k - lo] == b[lo..hi][k - lo];
    }
  }

  method StoreHeader(little: bool, out: array<byte>, file: Coverage, n: nat, tableAt: nat, nameAt: nat)
    requires ENTRIES <= out.Length
    modifies out
    ensures IsHeader(false, out[..], out.Length, file.checksum, file.timestamp, n, tableAt, nameAt)
    ensures out[ENTRIES..out.Length] == old(out[ENTRIES..out.Length])
  {
    StoreBeWords(little, out, 0, [MAGIC, VERSION, out.Length, file.checksum]);
    StoreBe(little, out, 16, file.timestamp, 8);
    StoreBeWords(little, out, 24, [n, tableAt, nameAt]);
  }

  // ----- unmarshalling in place -----

  /** The word at off, big-endian before, is in the host's order now. */
  ghost predicate Turned(little: bool, was: seq<byte>, m: seq<byte>, off: nat, w: nat) {
    |was| == |m| && off + w <= |m| && ReadWord(little, m, off, w) == ReadWord(false, was, off, w)
  }

  lemma TurnedByHost(little: bool, was: seq<byte>, m: seq<byte>, off: nat, w: nat)
    requires |was| == |m| && off + w <= |m|
    requires Get(m, off, w) == Native(little, ToBe(little, ReadWord(little, was, off, w), w), w)
    ensures Turned(little, was, m, off, w)
  {
    var s := Get(was, off, w);
    BeToHostReads(little, s);
    ReadWordBound(false, was, off, w);
    WordReads(little, m, off, w, BeValue(s));
  }

  /** Only the bytes of a word matter. */
  lemma StillTurned(little: bool, was: seq<byte>, m: seq<byte>, was1: seq<byte>, m1: seq<byte>, off: nat, w: nat)
    requires Turned(little, was, m, off, w) && |was1| == |m1| == |m|
    requires Get(was1, off, w) == Get(was, off, w) && Get(m1, off, w) == Get(m, off, w)
    ensures Turned(little, was1, m1, off, w)
  {
  }

  /** field = be_to_host(field). */
  method SwapWord(little: bool, fd: array<byte>, off: nat, w: nat)
    requires off + w <= fd.Length
    modifies fd
    ensures Turned(little, old(fd[..]), fd[..], off, w)
    ensures forall i :: 0 <= i < fd.Length && !(off <= i < off + w) ==> fd[i] == old(fd[i])
    ensures forall i, j :: 0 <= i <= j <= fd.Length && (j <= off || off + w <= i) ==> fd[i..j] == old(fd[i..j])
  {
    ghost var was := fd[..];
    Store(fd, off, Native(little, ToBe(little, ReadWord(little, fd[..], off, w), w), w));
    TurnedByHost(little, was, fd[..], off, w);
  }

  method SwapHeader(little: bool, fd: array<byte>)
    requires fd.Length >= ENTRIES
    modifies fd
    ensures ReadHeader(little, fd[..]) == ReadHeader(false, old(fd[..]))
    ensures forall i, j :: ENTRIES <= i <= j <= fd.Length ==> fd[i..j] == old(fd[i..j])
  {
    SwapWord(little, fd, 0, 4);
    SwapWord(little, fd, 4, 4);
    SwapWord(little, fd, 12, 4);
    SwapWord(little, fd, 16, 8);
    SwapWord(little, fd, 8, 4);
    SwapWord(little, fd, 24, 4);
    SwapWord(little, fd, 32, 4);
    SwapWord(little, fd, 28, 4);
  }

  /** line, n_addresses and address_start of one row. */
  method SwapEntry(little: bool, fd: array<byte>, p: nat)
    requires p + 12 <= fd.Length
    modifies fd
    ensures Turned(little, old(fd[..]), fd[..], p, 4)
    ensures Turned(little, old(fd[..]), fd[..], p + 4, 4)
    ensures Turned(little, old(fd[..]), fd[..], p + 8, 4)
    ensures forall i, j :: 0 <= i <= j <= fd.Length && (j <= p || p + 12 <= i) ==> fd[i..j] == old(fd[i..j])
  {
    SwapWord(little, fd, p, 4);
    SwapWord(little, fd, p + 8, 4);
    SwapWord(little, fd, p + 4, 4);
  }

  method SwapEntries(little: bool, fd: array<byte>, n: nat)
    requires ENTRIES + 12 * n <= fd.Length
    modifies fd
    ensures forall k :: 0 <= k < 3 * n ==> Turned(little, old(fd[..]), fd[..], ENTRIES + 4 * k, 4)
    ensures fd[0..ENTRIES] == old(fd[0..ENTRIES])
    ensures forall i, j :: ENTRIES + 12 * n <= i <= j <= fd.Length ==> fd[i..j] == old(fd[i..j])
  {
    ghost var was := fd[..];
    for i := 0 to n
      invariant fd[0..ENTRIES] == old(fd[0..ENTRIES])
      invariant forall a, b :: ENTRIES + 12 * i <= a <= b <= fd.Length ==> fd[a..b] == was[a..b]
      invariant forall k :: 0 <= k < 3 * i ==> Turned(little, was, fd[..], ENTRIES + 4 * k, 4)
    {
      ghost var before := fd[..];
      SwapEntry(little, fd, ENTRIES + 12 * i);
      EntryTurned(little, was, before, fd[..], i);
    }
  }

  lemma EntryTurned(little: bool, was: seq<byte>, before: seq<byte>, m: seq<byte>, i: nat)
    requires |was| == |before| == |m| && ENTRIES + 12 * i + 12 <= |m|
    requires forall k :: 0 <= k < 3 * i ==> Turned(little, was, before, ENTRIES + 4 * k, 4)
    requires forall a, b :: ENTRIES + 12 * i <= a <= b <= |m| ==> before[a..b] == was[a..b]
    requires var p := ENTRIES + 12 * i;
             && Turned(little, before, m, p, 4) && Turned(little, before, m, p + 4, 4) && Turned(little, before, m, p + 8, 4)
    requires forall a, b :: 0 <= a <= b <= ENTRIES + 12 * i ==> m[a..b] == before[a..b]
    ensures forall k :: 0 <= k < 3 * (i + 1) ==> Turned(little, was, m, ENTRIES + 4 * k, 4)
  {
    forall k | 0 <= k < 3 * (i + 1) ensures Turned(little, was, m, ENTRIES + 4 * k, 4) {
      var off := ENTRIES + 4 * k;
      if k < 3 * i {
        StillTurned(little, was, before, was, m, off, 4);
      } else {
        assert off == ENTRIES + 12 * i || off == ENTRIES + 12 * i + 4 || off == ENTRIES + 12 * i + 8;
        StillTurned(little, before, m, was, m, off, 4);
      }
    }
  }

  method SwapTable(little: bool, fd: array<byte>, from: nat, n: nat)
    requires from + 8 * n <= fd.Length
    modifies fd
    ensures forall k :: 0 <= k < n ==> Turned(little, old(fd[..]), fd[..], from + 8 * k, 8)
    ensures forall i, j :: 0 <= i <= j <= fd.Length && (j <= from || from + 8 * n <= i) ==> fd[i..j] == old(fd[i..j])
  {
    ghost var was := fd[..];
    for i := 0 to n
      invariant forall a, b :: 0 <= a <= b <= fd.Length && (b <= from || from + 8 * i <= a) ==> fd[a..b] == was[a..b]
      invariant forall k :: 0 <= k < i ==> Turned(little, was, fd[..], from + 8 * k, 8)
    {
      ghost var before := fd[..];
      SwapWord(little, fd, from + 8 * i, 8);
      forall k | 0 <= k < i + 1 ensures Turned(little, was, fd[..], from + 8 * k, 8) {
        if k < i {
          StillTurned(little, was, before, was, fd[..], from + 8 * k, 8);
        } else {
          StillTurned(little, before, fd[..], was, fd[..], from + 8 * k, 8);
        }
      }
    }
  }

  lemma {:induction false} SameCString(a: seq<byte>, b: seq<byte>, off: nat)
    requires |a| == |b| && forall i :: off <= i < |a| ==> a[i] == b[i]
    ensures CString(a, off) == CString(b, off)
    decreases |a| - off
  {
    if off < |a| {
      SameCString(a, b, off + 1);
    }
  }

  lemma DecodedInPlace(little: bool, was: seq<byte>, m: seq<byte>, h: Header)
    requires |was| == |m| >= ENTRIES && Inside(h, |m|)
    requires ReadHeader(false, was) == h == ReadHeader(little, m)
    requires forall k :: 0 <= k < 3 * h.n ==> Turned(little, was, m, ENTRIES + 4 * k, 4)
    requires forall k :: 0 <= k < TableSize(h) ==> Turned(little, was, m, h.tableAt + 8 * k, 8)
    requires m[h.nameAt..|m|] == was[h.nameAt..|m|]
    ensures Decode(little, m) == Decode(false, was)
  {
    assert Read4s(little, m, ENTRIES, 3 * h.n) == Read4s(false, was, ENTRIES, 3 * h.n) by {
      forall k | 0 <= k < 3 * h.n ensures Read4s(little, m, ENTRIES, 3 * h.n)[k] == Read4s(false, was, ENTRIES, 3 * h.n)[k] {
        assert Turned(little, was, m, ENTRIES + 4 * k, 4);
      }
    }
    assert Read8s(little, m, h.tableAt, TableSize(h)) == Read8s(false, was, h.tableAt, TableSize(h)) by {
      forall k | 0 <= k < TableSize(h)
        ensures Read8s(little, m, h.tableAt, TableSize(h))[k] == Read8s(false, was, h.tableAt, TableSize(h))[k]
      {
        assert Turned(little, was, m, h.tableAt + 8 * k, 8);
      }
    }
    forall i | h.nameAt <= i < |m| ensures m[i] == was[i] {
      assert m[h.nameAt..|m|][i - h.nameAt] == was[h.nameAt..|m|][i - h.nameAt];
    }
    SameCString(m, was, h.nameAt);
  }

  /** The header is turned even when the file is then refused; rows, addresses and name are read
      afterwards in the host's order exactly as they stand big-endian on disk. */
  method UnMarshalFile(little: bool, fd: array<byte>) returns (ok: bool)
    requires fd.Length >= ENTRIES
    requires Accepted(ReadHeader(false, fd[..])) ==> Inside(ReadHeader(false, fd[..]), fd.Length)
    modifies fd
    ensures ok <==> ReadWord(false, old(fd[..]), 0, 4) == 0x4d6f_6172 && ReadWord(false, old(fd[..]), 4, 4) == 4
    ensures ReadHeader(little, fd[..]) == ReadHeader(false, old(fd[..]))
    ensures ok ==> Decode(little, fd[..]) == Decode(false, old(fd[..]))
  {
    ghost var was := fd[..];
    SwapHeader(little, fd);
    var h := ReadHeader(little, fd[..]);
    if h.magic != MAGIC {
      return false;
    }
    if h.version != VERSION {
      return false;
    }
    ghost var middle := fd[..];
    SwapBody(little, fd, h);
    BodyTurned(little, was, middle, fd[..], h);
    DecodedInPlace(little, was, fd[..], h);
    return true;
  }

  /** The words behind the header have not moved while the header was turned. */
  lemma BodyTurned(little: bool, was: seq<byte>, middle: seq<byte>, m: seq<byte>, h: Header)
    requires |was| == |middle| == |m| >= ENTRIES && Inside(h, |m|) && middle[ENTRIES..|m|] == was[ENTRIES..|m|]
    requires forall k :: 0 <= k < 3 * h.n ==> Turned(little, middle, m, ENTRIES + 4 * k, 4)
    requires forall k :: 0 <= k < TableSize(h) ==> Turned(little, middle, m, h.tableAt + 8 * k, 8)
    ensures forall k :: 0 <= k < 3 * h.n ==> Turned(little, was, m, ENTRIES + 4 * k, 4)
    ensures forall k :: 0 <= k < TableSize(h) ==> Turned(little, was, m, h.tableAt + 8 * k, 8)
    ensures middle[h.nameAt..|m|] == was[h.nameAt..|m|]
  {
    forall k | 0 <= k < 3 * h.n ensures Turned(little, was, m, ENTRIES + 4 * k, 4) {
      SameSlice(middle, was, ENTRIES, |m|, ENTRIES + 4 * k, ENTRIES + 4 * k + 4);
      StillTurned(little, middle, m, was, m, ENTRIES + 4 * k, 4);
    }
    forall k | 0 <= k < TableSize(h) ensures Turned(little, was, m, h.tableAt + 8 * k, 8) {
      SameSlice(middle, was, ENTRIES, |m|, h.tableAt + 8 * k, h.tableAt + 8 * k + 8);
      StillTurned(little, middle, m, was, m, h.tableAt + 8 * k, 8);
    }
    SameSlice(middle, was, ENTRIES, |m|, h.nameAt, |m|);
  }

  method SwapBody(little: bool, fd: array<byte>, h: Header)
    requires Inside(h, fd.Length) && ReadHeader(little, fd[..]) == h
    modifies fd
    ensures ReadHeader(little, fd[..]) == h
    ensures forall k :: 0 <= k < 3 * h.n ==> Turned(little, old(fd[..]), fd[..], ENTRIES + 4 * k, 4)
    ensures forall k :: 0 <= k < TableSize(h) ==> Turned(little, old(fd[..]), fd[..], h.tableAt + 8 * k, 8)
    ensures fd[h.nameAt..fd.Length] == old(fd[h.nameAt..fd.Length])
  {
    ghost var was := fd[..];
    SwapEntries(little, fd, h.n);
    ghost var middle := fd[..];
    SwapTable(little, fd, h.tableAt, TableSize(h));
    forall k | 0 <= k < 3 * h.n ensures Turned(little, was, fd[..], ENTRIES + 4 * k, 4) {
      StillTurned(little, was, middle, was, fd[..], ENTRIES + 4 * k, 4);
    }
    forall k | 0 <= k < TableSize(h) ensures Turned(little, was, fd[..], h.tableAt + 8 * k, 8) {
      StillTurned(little, middle, fd[..], was, fd[..], h.tableAt + 8 * k, 8);
    }
    SameHeader(little, was, fd[..]);
  }

  lemma SameHeader(little: bool, a: seq<byte>, b: seq<byte>)
    requires |a| >= ENTRIES && |b| >= ENTRIES && a[0..ENTRIES] == b[0..ENTRIES]
    ensures ReadHeader(little, a) == ReadHeader(little, b)
  {
    SameGet(a, b, 0, 4);
    SameGet(a, b, 4, 4);
    SameGet(a, b, 8, 4);
    SameGet(a, b, 12, 4);
    SameGet(a, b, 16, 8);
    SameGet(a, b, 24, 4);
    SameGet(a, b, 28, 4);
    SameGet(a, b, 32, 4);
  }

  lemma SameGet(a: seq<byte>, b: seq<byte>, off: nat, n: nat)
    requires off + n <= ENTRIES <= |a| && ENTRIES <= |b| && a[0..ENTRIES] == b[0..ENTRIES]
    ensures Get(a, off, n) == Get(b, off, n)
  {
    SameSlice(a, b, 0, ENTRIES, off, off + n);
  }
}
