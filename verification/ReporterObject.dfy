/** The reporter itself: its event handlers, tied to the steps the invariants are about, and its database,
    written line by line into one buffer and restored row by row from another. */
module ReporterObject {
  import opened Bytes
  import opened ReporterState
  import opened ReporterDatabase

  // ----- writing the database -----

  /** One row at p. */
  method WriteEntry(little: bool, out: array<byte>, p: nat, e: Entry)
    requires p + ENTRY <= out.Length
    modifies out
    ensures forall i :: 0 <= i < out.Length && !(p <= i < p + ENTRY) ==> out[i] == old(out[i])
    ensures forall i, j :: 0 <= i <= j <= out.Length && (j <= p || p + ENTRY <= i) ==> out[i..j] == old(out[i..j])
    ensures out[p..p + ENTRY] == Words8(false, Words(e))
  {
    StoreBe(little, out, p, e.addr, 8);
    StoreBe(little, out, p + 8, e.id, 8);
    StoreBe(little, out, p + 16, e.index, 8);
    StoreBe(little, out, p + 24, e.hits, 8);
    FourWords(false, out[..], p, e);
  }

  lemma FourWords(little: bool, m: seq<byte>, p: nat, e: Entry)
    requires p + ENTRY <= |m|
    requires m[p..p + 8] == Native(little, e.addr, 8) && m[p + 8..p + 16] == Native(little, e.id, 8)
    requires m[p + 16..p + 24] == Native(little, e.index, 8) && m[p + 24..p + 32] == Native(little, e.hits, 8)
    ensures m[p..p + ENTRY] == Words8(little, Words(e))
  {
    var ws := Words(e);
    assert ws[..0] == [] && ws[..4] == ws;
    Words8Extend(little, ws, 0);
    Words8Extend(little, ws, 1);
    Words8Extend(little, ws, 2);
    Words8Extend(little, ws, 3);
    Split(m, p, p + 8, p + 16);
    Split(m, p, p + 16, p + 24);
    Split(m, p, p + 24, p + 32);
  }

  /** The rows written so far, and nothing after them. */
  ghost predicate Written(m: seq<byte>, entries: seq<Entry>) {
    && HEADER + ENTRY * |entries| <= |m|
    && m[HEADER..HEADER + ENTRY * |entries|] == Words8(false, EntryWords(entries))
    && forall i :: HEADER + ENTRY * |entries| <= i < |m| ==> m[i] == 0
  }

  lemma WrittenMore(was: seq<byte>, m: seq<byte>, entries: seq<Entry>, e: Entry)
    requires Written(was, entries) && |m| == |was| && HEADER + ENTRY * |entries| + ENTRY <= |m|
    requires var p := HEADER + ENTRY * |entries|;
             && m[HEADER..p] == was[HEADER..p] && m[p..p + ENTRY] == Words8(false, Words(e))
             && forall i :: p + ENTRY <= i < |m| ==> m[i] == was[i]
    ensures Written(m, entries + [e])
  {
    var p := HEADER + ENTRY * |entries|;
    assert (entries + [e])[..|entries|] == entries;
    Split(m, HEADER, p, p + ENTRY);
    Words8Append(false, EntryWords(entries), Words(e));
  }

  /** Line::marshal: a row for each address that was hit. */
  method MarshalLine(little: bool, out: array<byte>, start: nat, l: Line, ghost before: seq<Entry>) returns (p: nat)
    requires start == HEADER + ENTRY * |before| && Written(out[..], before)
    requires start + ENTRY * |LineEntries(l, |l.addrs|)| <= out.Length
    modifies out
    ensures p == HEADER + ENTRY * |before + LineEntries(l, |l.addrs|)|
    ensures Written(out[..], before + LineEntries(l, |l.addrs|)) && out[0..HEADER] == old(out[0..HEADER])
  {
    p := start;
    assert before + LineEntries(l, 0) == before;
    for addrIndex := 0 to |l.addrs|
      invariant p == HEADER + ENTRY * |before + LineEntries(l, addrIndex)|
      invariant Written(out[..], before + LineEntries(l, addrIndex)) && out[0..HEADER] == old(out[0..HEADER])
    {
      ghost var done := before + LineEntries(l, addrIndex);
      LineEntriesGrow(l, addrIndex, |l.addrs|);
      var c := l.addrs[addrIndex];
      if c.hits == 0 {
        assert before + LineEntries(l, addrIndex + 1) == done;
        continue;
      }
      ghost var was := out[..];
      var e := Entry(c.addr, l.id, addrIndex, Extended(c.hits));
      WriteEntry(little, out, p, e);
      WrittenMore(was, out[..], done, e);
      assert before + LineEntries(l, addrIndex + 1) == done + [e];
      p := p + ENTRY;
    }
  }

  lemma {:induction false} LineEntriesGrow(l: Line, i: nat, n: nat)
    requires i < n <= |l.addrs|
    ensures |LineEntries(l, i)| + (if l.addrs[i].hits == 0 then 0 else 1) <= |LineEntries(l, n)|
    decreases n
  {
    if i + 1 < n {
      LineEntriesGrow(l, i, n - 1);
    }
  }

  /** File::marshal: the lines in the order of their numbers. */
  method MarshalFile(little: bool, out: array<byte>, start: nat, lines: seq<Line>, slots: seq<Slot>, ghost before: seq<Entry>)
    returns (p: nat)
    requires start == HEADER + ENTRY * |before| && Written(out[..], before)
    requires start + ENTRY * |FileEntries(lines, slots)| <= out.Length
    requires forall k :: 0 <= k < |slots| && slots[k].At? ==> slots[k].line < |lines|
    modifies out
    ensures p == HEADER + ENTRY * |before + FileEntries(lines, slots)|
    ensures Written(out[..], before + FileEntries(lines, slots)) && out[0..HEADER] == old(out[0..HEADER])
  {
    p := start;
    assert before + FileEntries(lines, slots[..0]) == before;
    for i := 0 to |slots|
      invariant p == HEADER + ENTRY * |before + FileEntries(lines, slots[..i])|
      invariant Written(out[..], before + FileEntries(lines, slots[..i])) && out[0..HEADER] == old(out[0..HEADER])
    {
      ghost var done := before + FileEntries(lines, slots[..i]);
      FileStep(lines, slots, before, i);
      p := MarshalSlot(little, out, p, lines, slots[i], done);
    }
    assert slots[..|slots|] == slots;
  }

  method MarshalSlot(little: bool, out: array<byte>, start: nat, lines: seq<Line>, slot: Slot, ghost before: seq<Entry>)
    returns (p: nat)
    requires start == HEADER + ENTRY * |before| && Written(out[..], before)
    requires start + ENTRY * |SlotEntries(lines, slot)| <= out.Length && (slot.At? ==> slot.line < |lines|)
    modifies out
    ensures p == HEADER + ENTRY * |before + SlotEntries(lines, slot)|
    ensures Written(out[..], before + SlotEntries(lines, slot)) && out[0..HEADER] == old(out[0..HEADER])
  {
    if slot.Null? {
      assert before + [] == before;
      return start;
    }
    p := MarshalLine(little, out, start, lines[slot.line], before);
  }

  lemma FileStep(lines: seq<Line>, slots: seq<Slot>, before: seq<Entry>, i: nat)
    requires i < |slots|
    ensures before + FileEntries(lines, slots[..i + 1]) == before + FileEntries(lines, slots[..i]) + SlotEntries(lines, slots[i])
    ensures |before + FileEntries(lines, slots[..i])| + |SlotEntries(lines, slots[i])| <= |before| + |FileEntries(lines, slots)|
  {
    FileEntriesGrow(lines, slots, i);
  }

  lemma {:induction false} FileEntriesGrow(lines: seq<Line>, slots: seq<Slot>, i: nat)
    requires i < |slots|
    ensures FileEntries(lines, slots[..i + 1]) == FileEntries(lines, slots[..i]) + SlotEntries(lines, slots[i])
    ensures |FileEntries(lines, slots[..i + 1])| <= |FileEntries(lines, slots)|
    decreases |slots|
  {
    assert slots[..i + 1][..i] == slots[..i];
    if i < |slots| - 1 {
      FileEntriesGrow(lines, slots[..|slots| - 1], i);
      assert slots[..|slots| - 1][..i + 1] == slots[..i + 1];
    } else {
      assert slots[..i + 1] == slots;
    }
  }

  // ----- sizes -----

  /** Line::marshalSize: 32 bytes for each row. */
  method LineSize(l: Line) returns (size: nat)
    ensures size == ENTRY * |LineEntries(l, |l.addrs|)|
  {
    var n := 0;
    for i := 0 to |l.addrs|
      invariant n == |LineEntries(l, i)|
    {
      if l.addrs[i].hits != 0 {
        n := n + 1;
      }
    }
    size := n * ENTRY;
  }

  method FileSize(lines: seq<Line>, slots: seq<Slot>) returns (size: nat)
    requires forall k :: 0 <= k < |slots| && slots[k].At? ==> slots[k].line < |lines|
    ensures size == ENTRY * |FileEntries(lines, slots)|
  {
    size := 0;
    for i := 0 to |slots|
      invariant size == ENTRY * |FileEntries(lines, slots[..i])|
    {
      FileEntriesGrow(lines, slots, i);
      if slots[i].At? {
        var n := LineSize(lines[slots[i].line]);
        size := size + n;
      }
    }
    assert slots[..|slots|] == slots;
  }

  method StoreHeader(little: bool, out: array<byte>, checksum: nat)
    requires out.Length >= HEADER
    modifies out
    ensures IsHeader(false, out[..], checksum)
    ensures forall i :: HEADER <= i < out.Length ==> out[i] == old(out[i])
  {
    StoreBe(little, out, 0, MAGIC, 4);
    StoreBe(little, out, 4, VERSION, 4);
    StoreBe(little, out, 8, checksum, 8);
    TwoWords(false, out[..], MAGIC, VERSION);
  }

  lemma TwoWords(little: bool, m: seq<byte>, a: nat, b: nat)
    requires |m| >= 8 && m[0..4] == Native(little, a, 4) && m[4..8] == Native(little, b, 4)
    ensures m[0..8] == Words4(little, [a, b])
  {
    var ws := [a, b];
    assert ws[..0] == [] && ws[..2] == ws;
    Words4Extend(little, ws, 0);
    Words4Extend(little, ws, 1);
    Split(m, 0, 4, 8);
  }

  // ----- the object -----

  class Reporter {
    const env: Env
    const checksum: nat
    var lines: seq<Line>
    var files: map<Name, File>
    var addrToLine: map<nat, seq<nat>>
    var lineIdToLine: map<nat, nat>
    var pendingFiles: map<nat, seq<Pending>>
    var order: nat

    ghost function View(): State
      reads this
    {
      State(lines, files, addrToLine, lineIdToLine, pendingFiles, order)
    }

    constructor (e: Env, sum: nat)
      ensures env == e && checksum == sum && View() == EMPTY == Run(e, [])
    {
      env, checksum := e, sum;
      lines, files, addrToLine, lineIdToLine, pendingFiles, order := [], map[], map[], map[], map[], 1;
    }

    method AddLine(file: Name, nr: nat, unreachable: bool)
      requires file in files
      modifies this`lines, this`files
      ensures View() == NewLine(old(View()), file, nr, unreachable)
    {
      var f := files[file];
      var slots := f.slots;
      if nr >= |slots| {
        slots := slots + seq(nr + 1 - |slots|, _ => Null);
      }
      slots := slots[nr := At(|lines|)];
      var n := if unreachable then f.nrLines else f.nrLines + 1;
      lines := lines + [Line(LineId(f.hash, nr), [], 0, unreachable)];
      files := files[file := File(f.hash, slots, n)];
    }

    /** A file seen for the first time; the line filter marks what cannot be reached. */
    method AddFile(file: Name, marks: seq<bool>)
      modifies this`lines, this`files
      ensures View() == Unreachables(old(View()).(files := old(files)[file := File(env.hash(file), [], 0)]), file, marks)
    {
      files := files[file := File(env.hash(file), [], 0)];
      ghost var start := View();
      for nr := 0 to |marks|
        invariant file in files && View() == Unreachables(start, file, marks[..nr])
      {
        assert marks[..nr + 1][..nr] == marks[..nr];
        if !marks[nr] {
          AddLine(file, nr + 1, true);
        }
      }
      assert marks[..|marks|] == marks;
    }

    /** The loop that looks for the line among those at the address. */
    method IsDuplicate(addr: nat, id: nat) returns (dup: bool)
      ensures dup == Known(View(), addr, id)
    {
      dup := false;
      if addr !in addrToLine {
        return;
      }
      var at := addrToLine[addr];
      for i := 0 to |at|
        invariant dup <==> exists j :: 0 <= j < i && at[j] < |lines| && lines[at[j]].id == id
      {
        if at[i] < |lines| && lines[at[i]].id == id {
          dup := true;
        }
      }
    }

    method DeliverPending(i: nat)
      requires i < |lines|
      modifies this`lines, this`pendingFiles
      ensures View() == Replayed(old(View()), i)
    {
      var id := lines[i].id;
      if id !in pendingFiles {
        return;
      }
      var hits := pendingFiles[id];
      var l := lines[i];
      for k := 0 to |hits|
        invariant l == Delivered(lines[i], hits[..k])
      {
        assert hits[..k + 1][..k] == hits[..k];
        l := RegisterHitIndex(l, hits[k].index, hits[k].hits);
      }
      assert hits[..|hits|] == hits;
      lines := lines[i := l];
      pendingFiles := pendingFiles[id := []];
    }

    method OnLine(file: Name, nr: u32, addr: nat, marks: seq<bool>)
      modifies this
      ensures View() == Step(env, old(View()), Event.OnLine(file, nr, addr, marks))
    {
      if !env.accepts(file) {
        return;
      }
      if file !in files {
        AddFile(file, marks);
      }
      if GetLine(files[file], nr).Null? {
        AddLine(file, nr, false);
      }
      assert View() == Ensured(env, old(View()), file, nr, marks);
      var slot := GetLine(files[file], nr);
      if slot.Null? || slot.line >= |lines| {
        return;
      }
      Index(slot.line, addr);
      DeliverPending(slot.line);
    }

    method Index(i: nat, addr: nat)
      requires i < |lines|
      modifies this`lines, this`addrToLine, this`lineIdToLine
      ensures View() == Indexed(old(View()), i, addr)
    {
      var id := lines[i].id;
      var dup := IsDuplicate(addr, id);
      lines := lines[i := AddAddress(lines[i], addr)];
      var at := if addr in addrToLine then addrToLine[addr] else [];
      addrToLine := addrToLine[addr := if dup then at else at + [i]];
      lineIdToLine := lineIdToLine[id := i];
    }

    method OnAddressHit(addr: nat, hits: nat)
      modifies this`lines, this`order
      ensures View() == AddressHit(env, old(View()), addr, hits)
    {
      if addr !in addrToLine {
        return;
      }
      var at := addrToLine[addr];
      ghost var start := View();
      for k := 0 to |at|
        invariant View() == HitLines(env, start, at[..k], addr, hits)
        invariant addrToLine == old(addrToLine)
      {
        assert at[..k + 1][..k] == at[..k];
        var i := at[k];
        if i < |lines| {
          var l := RegisterHit(lines[i], addr, hits, env.singleShot);
          if l.order == 0 {
            l := l.(order := order);
            order := order + 1;
          }
          lines := lines[i := l];
        }
      }
      assert at[..|at|] == at;
    }

    method Restore(e: Entry)
      modifies this`lines, this`order, this`pendingFiles
      ensures View() == Restored(env, old(View()), e)
    {
      if e.hits == 0 {
        return;
      }
      if e.addr !in addrToLine {
        if e.id !in lineIdToLine {
          var waiting := if e.id in pendingFiles then pendingFiles[e.id] else [];
          pendingFiles := pendingFiles[e.id := waiting + [Pending(e.index, e.hits)]];
        } else if lineIdToLine[e.id] < |lines| {
          var i := lineIdToLine[e.id];
          lines := lines[i := RegisterHitIndex(lines[i], e.index, e.hits)];
        }
        return;
      }
      OnAddressHit(e.addr, e.hits);
    }

    /** False, and nothing changed, if magic, version or checksum is another. */
    method UnMarshal(little: bool, m: seq<byte>) returns (ok: bool)
      requires |m| >= HEADER
      modifies this`lines, this`order, this`pendingFiles
      ensures ok <==> ReadWord(false, m, 0, 4) == 0x6b63_6f76 && ReadWord(false, m, 4, 4) == 6 && ReadWord(false, m, 8, 8) == checksum
      ensures View() == if ok then RestoredAll(env, old(View()), ReadEntries(false, m, RowsIn(|m|))) else old(View())
    {
      ok := HeaderMatches(little, m, checksum);
      if ok {
        RestoreRows(little, m, RowsIn(|m|));
      }
    }

    method RestoreRows(little: bool, m: seq<byte>, n: nat)
      requires HEADER + ENTRY * n <= |m|
      modifies this`lines, this`order, this`pendingFiles
      ensures View() == RestoredAll(env, old(View()), ReadEntries(false, m, n))
    {
      ghost var start, rows := View(), ReadEntries(false, m, n);
      for i := 0 to n
        invariant View() == RestoredAll(env, start, rows[..i])
      {
        var e := EntryBe(little, m, HEADER + ENTRY * i);
        NextRow(env, start, rows, i);
        Restore(e);
      }
      assert rows[..n] == rows;
    }

    /** `names` is the order in which the hash map of files is walked. Every store stays inside the buffer. */
    method Marshal(little: bool, names: seq<Name>) returns (out: array<byte>)
      requires forall f :: f in names ==> f in files
      requires forall f, k :: f in files && 0 <= k < |files[f].slots| && files[f].slots[k].At? ==> files[f].slots[k].line < |lines|
      ensures fresh(out) && IsDatabase(false, out[..], checksum, AllEntries(View(), names))
    {
      ghost var s := View();
      var size := MarshalSize(names);
      out := new byte[size * ENTRY + HEADER](_ => 0);
      StoreHeader(little, out, checksum);
      var p := HEADER;
      assert Written(out[..], []);
      for i := 0 to |names|
        invariant fresh(out)
        invariant p == HEADER + ENTRY * |AllEntries(s, names[..i])|
        invariant Written(out[..], AllEntries(s, names[..i])) && IsHeader(false, out[..], checksum)
      {
        AllEntriesGrow(s, names, i);
        ghost var was := out[..];
        p := MarshalFile(little, out, p, lines, files[names[i]].slots, AllEntries(s, names[..i]));
        HeaderKept(was, out[..], checksum);
      }
      assert names[..|names|] == names;
    }

    method MarshalSize(names: seq<Name>) returns (size: nat)
      requires forall f :: f in names ==> f in files
      requires forall f, k :: f in files && 0 <= k < |files[f].slots| && files[f].slots[k].At? ==> files[f].slots[k].line < |lines|
      ensures size == ENTRY * |AllEntries(View(), names)|
    {
      size := 0;
      for i := 0 to |names|
        invariant size == ENTRY * |AllEntries(View(), names[..i])|
      {
        AllEntriesGrow(View(), names, i);
        var n := FileSize(lines, files[names[i]].slots);
        size := size + n;
      }
      assert names[..|names|] == names;
    }
  }

  lemma {:induction false} AllEntriesGrow(s: State, names: seq<Name>, i: nat)
    requires i < |names| && forall f :: f in names ==> f in s.files
    ensures AllEntries(s, names[..i + 1]) == AllEntries(s, names[..i]) + FileEntries(s.lines, s.files[names[i]].slots)
    ensures |AllEntries(s, names[..i + 1])| <= |AllEntries(s, names)|
    decreases |names|
  {
    assert names[..i + 1][..i] == names[..i];
    if i < |names| - 1 {
      AllEntriesGrow(s, names[..|names| - 1], i);
      assert names[..|names| - 1][..i + 1] == names[..i + 1];
    } else {
      assert names[..i + 1] == names;
    }
  }

  lemma NextRow(env: Env, s: State, rows: seq<Entry>, i: nat)
    requires i < |rows|
    ensures RestoredAll(env, s, rows[..i + 1]) == Restored(env, RestoredAll(env, s, rows[..i]), rows[i])
  {
    assert rows[..i + 1][..i] == rows[..i];
  }

  lemma HeaderKept(was: seq<byte>, m: seq<byte>, checksum: nat)
    requires IsHeader(false, was, checksum) && |m| == |was| && m[0..HEADER] == was[0..HEADER]
    ensures IsHeader(false, m, checksum)
  {
    assert m[0..8] == m[0..HEADER][0..8] && m[8..16] == m[0..HEADER][8..16];
    assert was[0..8] == was[0..HEADER][0..8] && was[8..16] == was[0..HEADER][8..16];
  }

  /** be_to_host of a word of the buffer. */
  function FieldBe(little: bool, m: seq<byte>, off: nat, w: nat): nat
    requires off + w <= |m|
  {
    ToBe(little, ReadWord(little, m, off, w), w)
  }

  lemma FieldIsBe(little: bool, m: seq<byte>, off: nat, w: nat)
    requires off + w <= |m|
    ensures FieldBe(little, m, off, w) == ReadWord(false, m, off, w)
  {
    BeToHostReads(little, Get(m, off, w));
  }

  lemma FieldsBe(little: bool, m: seq<byte>)
    requires |m| >= HEADER
    ensures FieldBe(little, m, 0, 4) == ReadWord(false, m, 0, 4) && FieldBe(little, m, 4, 4) == ReadWord(false, m, 4, 4)
    ensures FieldBe(little, m, 8, 8) == ReadWord(false, m, 8, 8)
  {
    FieldIsBe(little, m, 0, 4);
    FieldIsBe(little, m, 4, 4);
    FieldIsBe(little, m, 8, 8);
  }

  /** The three checks of unMarshalHeader. */
  method HeaderMatches(little: bool, m: seq<byte>, checksum: nat) returns (ok: bool)
    requires |m| >= HEADER
    ensures ok <==> ReadWord(false, m, 0, 4) == 0x6b63_6f76 && ReadWord(false, m, 4, 4) == 6 && ReadWord(false, m, 8, 8) == checksum
  {
    FieldsBe(little, m);
    if FieldBe(little, m, 0, 4) != MAGIC {
      return false;
    }
    if FieldBe(little, m, 4, 4) != VERSION {
      return false;
    }
    ok := FieldBe(little, m, 8, 8) == checksum;
  }

  /** Line::unMarshal. */
  method EntryBe(little: bool, m: seq<byte>, at: nat) returns (e: Entry)
    requires at + ENTRY <= |m|
    ensures e == ReadEntry(false, m, at)
  {
    FieldIsBe(little, m, at, 8);
    FieldIsBe(little, m, at + 8, 8);
    FieldIsBe(little, m, at + 16, 8);
    FieldIsBe(little, m, at + 24, 8);
    e := Entry(FieldBe(little, m, at, 8), FieldBe(little, m, at + 8, 8), FieldBe(little, m, at + 16, 8),
               FieldBe(little, m, at + 24, 8));
  }
}
