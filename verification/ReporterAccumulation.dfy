/** Counts accumulate: from hits, from databases, and from run to run. */
module ReporterAccumulation {
  // A line's counter is what was stored for it plus what was hit, whenever the database is read. What the
  // database stores for a line is its count, so the next run goes on from it.

  import opened Bytes
  import opened ReporterState
  import opened ReporterInvariants
  import opened ReporterRuns
  import opened ReporterCounts
  import opened ReporterDatabase

  // ----- a line's count -----

  /** The line with this id is known and counts n hits, in 32 bits. */
  ghost predicate CountIs(s: State, id: nat, n: nat) {
    id in s.byId && s.byId[id] < |s.lines| && Hits(s.lines[s.byId[id]]) == n % U32
  }

  lemma SingleHits(l: Line, addr: nat, n: nat)
    requires Single(l, addr, Low(n))
    ensures Hits(l) == n % U32
  {
    assert l.addrs[..0] == [] && Sum(l.addrs[..0]) == 0;
  }

  /** However lines, hits and database reads interleave, an announced line counts what the databases
      stored for its id plus what was hit at its address since its announcement. */
  lemma CountIsStoredPlusLive(env: Env, events: seq<Event>, e: Event)
    requires Script(env, events) && e in events && Taken(env, e)
    ensures CountIs(Run(env, events), IdOf(env, e), Stored(events, IdOf(env, e)) + Live(env, events, IdOf(env, e)))
  {
    RunCounts(env, events);
    LineOf(env, events, Run(env, events), TotalBy(env, events, []), e);
    LineOkCounts(Run(env, events), e, IdOf(env, e), TotalBy(env, events, [])(IdOf(env, e)));
  }

  lemma LineOkCounts(s: State, e: Event, id: nat, total: nat)
    requires e.OnLine? && LineOk(s, e, id, total)
    ensures CountIs(s, id, total)
  {
    SingleHits(s.lines[s.byId[id]], e.addr, total);
  }

  lemma {:induction false} StoredSums(a: seq<Event>, b: seq<Event>, id: nat)
    ensures Stored(a + b, id) == Stored(a, id) + Stored(b, id)
  {
    if b == [] {
      assert a + b == a;
    } else {
      assert (a + b)[..|a + b| - 1] == a + b[..|b| - 1];
      StoredSums(a, b[..|b| - 1], id);
    }
  }

  lemma {:induction false} LiveIgnoresDatabases(env: Env, a: seq<Event>, d: Event, b: seq<Event>, id: nat)
    requires d.ReadDatabase?
    ensures Live(env, a + [d] + b, id) == Live(env, a + b, id)
  {
    if b == [] {
      assert a + [d] + b == a + [d] && a + b == a && (a + [d])[..|a|] == a;
    } else {
      var all, without := a + [d] + b, a + b;
      assert all[..|all| - 1] == a + [d] + b[..|b| - 1] && without[..|without| - 1] == a + b[..|b| - 1];
      LiveIgnoresDatabases(env, a, d, b[..|b| - 1], id);
      var e := b[|b| - 1];
      if e.OnAddressHit? {
        SameAnnouncements(env, a, d, b[..|b| - 1], id, e.addr);
      }
      LiveLast(env, all, id);
      LiveLast(env, without, id);
    }
  }

  lemma LiveLast(env: Env, events: seq<Event>, id: nat)
    requires events != []
    ensures var before, e := events[..|events| - 1], events[|events| - 1];
            Live(env, events, id)
            == Live(env, before, id) + if e.OnAddressHit? && AnnouncedAt(env, before, id, e.addr) then e.hits else 0
  {
  }

  lemma SameAnnouncements(env: Env, a: seq<Event>, d: Event, b: seq<Event>, id: nat, addr: nat)
    requires d.ReadDatabase?
    ensures AnnouncedAt(env, a + [d] + b, id, addr) <==> AnnouncedAt(env, a + b, id, addr)
  {
    assert forall e :: e in a + [d] + b <==> e in a || e == d || e in b;
  }

  lemma SameStored(a: seq<Event>, b: seq<Event>, d: Event, c: seq<Event>, id: nat)
    ensures Stored(a + [d] + (b + c), id) == Stored(a + b + [d] + c, id)
  {
    StoredSums(a + [d], b + c, id);
    StoredSums(a, [d], id);
    StoredSums(b, c, id);
    StoredSums(a + b + [d], c, id);
    StoredSums(a + b, [d], id);
    StoredSums(a, b, id);
  }

  lemma SameCredit(env: Env, a: seq<Event>, b: seq<Event>, d: Event, c: seq<Event>, id: nat)
    requires d.ReadDatabase?
    ensures var early, late := a + [d] + (b + c), a + b + [d] + c;
            Stored(early, id) == Stored(late, id) && Live(env, early, id) == Live(env, late, id)
  {
    SameStored(a, b, d, c, id);
    LiveIgnoresDatabases(env, a, d, b + c, id);
    LiveIgnoresDatabases(env, a + b, d, c, id);
    assert a + (b + c) == a + b + c;
  }

  lemma SameScript(env: Env, events: seq<Event>, others: seq<Event>)
    requires Script(env, events) && forall x :: x in others <==> x in events
    ensures Script(env, others)
  {
  }

  /** When the database is read makes no difference to any count. */
  lemma DatabaseMayBeReadAnyTime(env: Env, a: seq<Event>, b: seq<Event>, d: Event, c: seq<Event>, e: Event)
    requires d.ReadDatabase? && Script(env, a + [d] + (b + c)) && e in a + [d] + (b + c) && Taken(env, e)
    ensures exists n: nat :: CountIs(Run(env, a + [d] + (b + c)), IdOf(env, e), n)
                          && CountIs(Run(env, a + b + [d] + c), IdOf(env, e), n)
  {
    var early, late := a + [d] + (b + c), a + b + [d] + c;
    var id := IdOf(env, e);
    assert forall x :: x in late <==> x in early;
    SameScript(env, early, late);
    CountIsStoredPlusLive(env, early, e);
    CountIsStoredPlusLive(env, late, e);
    SameCredit(env, a, b, d, c, id);
    var n := Stored(early, id) + Live(env, early, id);
    assert CountIs(Run(env, early), id, n) && CountIs(Run(env, late), id, n);
  }

  // ----- each line is in one slot -----

  ghost predicate InSlot(s: State, f: Name, k: nat, i: nat) {
    f in s.files && GetLine(s.files[f], k) == At(i)
  }

  ghost predicate Unique(s: State) {
    && (forall f, k: nat, i: nat :: InSlot(s, f, k, i) ==> i < |s.lines|)
    && (forall f, g, k: nat, l: nat, i: nat :: InSlot(s, f, k, i) && InSlot(s, g, l, i) ==> f == g && k == l)
  }

  lemma NewSlotOnly(s: State, file: Name, nr: nat, unreachable: bool, f: Name, k: nat, i: nat)
    requires file in s.files && GetLine(s.files[file], nr).Null?
    ensures InSlot(NewLine(s, file, nr, unreachable), f, k, i)
            <==> InSlot(s, f, k, i) || (f == file && k == nr && i == |s.lines|)
  {
  }

  lemma NewLineUnique(s: State, file: Name, nr: nat, unreachable: bool)
    requires Unique(s) && file in s.files && GetLine(s.files[file], nr).Null?
    ensures Unique(NewLine(s, file, nr, unreachable))
  {
    var t := NewLine(s, file, nr, unreachable);
    forall f, k: nat, i: nat | InSlot(t, f, k, i) ensures i < |t.lines| {
      NewSlotOnly(s, file, nr, unreachable, f, k, i);
    }
    forall f, g, k: nat, l: nat, i: nat | InSlot(t, f, k, i) && InSlot(t, g, l, i) ensures f == g && k == l {
      NewSlotOnly(s, file, nr, unreachable, f, k, i);
      NewSlotOnly(s, file, nr, unreachable, g, l, i);
    }
  }

  lemma {:induction false} UnreachablesUnique(s: State, file: Name, marks: seq<bool>)
    requires Unique(s) && file in s.files && s.files[file].slots == []
    ensures Unique(Unreachables(s, file, marks)) && |Unreachables(s, file, marks).files[file].slots| <= |marks| + 1
  {
    if marks != [] {
      UnreachablesUnique(s, file, marks[..|marks| - 1]);
      var t := Unreachables(s, file, marks[..|marks| - 1]);
      if !marks[|marks| - 1] {
        NewLineUnique(t, file, |marks|, true);
      }
    }
  }

  lemma EnsuredUnique(env: Env, s: State, file: Name, nr: nat, marks: seq<bool>)
    requires Unique(s)
    ensures Unique(Ensured(env, s, file, nr, marks))
  {
    var t := s;
    if file !in s.files {
      var r := s.(files := s.files[file := File(env.hash(file), [], 0)]);
      forall f, k: nat, i: nat | InSlot(r, f, k, i) ensures InSlot(s, f, k, i) {
      }
      UnreachablesUnique(r, file, marks);
      t := Unreachables(r, file, marks);
    }
    if GetLine(t.files[file], nr).Null? {
      NewLineUnique(t, file, nr, false);
    }
  }

  /** Only counters and indexes differ. */
  ghost predicate SameSlots(s: State, t: State) {
    t.files == s.files && |t.lines| == |s.lines|
  }

  lemma StaysUnique(s: State, t: State)
    requires Unique(s) && SameSlots(s, t)
    ensures Unique(t)
  {
    forall f, k: nat, i: nat | InSlot(t, f, k, i) ensures InSlot(s, f, k, i) {
    }
  }

  lemma {:induction false} HitsSameSlots(env: Env, s: State, at: seq<nat>, addr: nat, hits: nat)
    ensures SameSlots(s, HitLines(env, s, at, addr, hits))
  {
    if at != [] {
      HitsSameSlots(env, s, at[..|at| - 1], addr, hits);
    }
  }

  lemma {:induction false} RestoredSameSlots(env: Env, s: State, entries: seq<Entry>)
    ensures SameSlots(s, RestoredAll(env, s, entries))
  {
    if entries != [] {
      var t, e := RestoredAll(env, s, entries[..|entries| - 1]), entries[|entries| - 1];
      RestoredSameSlots(env, s, entries[..|entries| - 1]);
      if e.addr in t.byAddr {
        HitsSameSlots(env, t, t.byAddr[e.addr], e.addr, e.hits);
      }
    }
  }

  lemma {:induction false} RunUnique(env: Env, events: seq<Event>)
    ensures Unique(Run(env, events))
  {
    if events != [] {
      var s, e := Run(env, events[..|events| - 1]), events[|events| - 1];
      RunUnique(env, events[..|events| - 1]);
      match e
      case OnLine(file, nr, addr, marks) =>
        EnsuredUnique(env, s, file, nr, marks);
        if env.accepts(file) {
          StaysUnique(Ensured(env, s, file, nr, marks), Step(env, s, e));
        }
      case OnAddressHit(addr, hits) =>
        if addr in s.byAddr {
          HitsSameSlots(env, s, s.byAddr[addr], addr, hits);
        }
        StaysUnique(s, Step(env, s, e));
      case ReadDatabase(entries) =>
        RestoredSameSlots(env, s, entries);
        StaysUnique(s, Step(env, s, e));
    }
  }

  // ----- what is stored for one line -----

  lemma {:induction false} StoredInSums(a: seq<Entry>, b: seq<Entry>, id: nat)
    ensures StoredIn(a + b, id) == StoredIn(a, id) + StoredIn(b, id)
  {
    if b == [] {
      assert a + b == a;
    } else {
      assert (a + b)[..|a + b| - 1] == a + b[..|b| - 1];
      StoredInSums(a, b[..|b| - 1], id);
    }
  }

  lemma {:induction false} OtherLine(l: Line, n: nat, id: nat)
    requires n <= |l.addrs| && l.id != id
    ensures StoredIn(LineEntries(l, n), id) == 0
  {
    if n > 0 {
      OtherLine(l, n - 1, id);
      var c := l.addrs[n - 1];
      StoredInSums(LineEntries(l, n - 1), if c.hits == 0 then [] else [Entry(c.addr, l.id, n - 1, Extended(c.hits))], id);
      StoredOne(Entry(c.addr, l.id, n - 1, Extended(c.hits)), id);
    }
  }

  lemma StoredOne(e: Entry, id: nat)
    ensures StoredIn([e], id) == if e.id == id then e.hits else 0
    ensures StoredIn([], id) == 0
  {
    assert [e][..0] == [];
  }

  /** A line with one address stores its counter, with its sign. */
  lemma OneLine(l: Line, addr: nat, c: u32)
    requires Single(l, addr, c)
    ensures StoredIn(LineEntries(l, 1), l.id) == Extended(c)
  {
    assert LineEntries(l, 0) == [];
    StoredOne(Entry(addr, l.id, 0, Extended(c)), l.id);
    ExtensionKeepsLowBits(c, 0);
    assert LineEntries(l, 1) == if c == 0 then [] else [Entry(addr, l.id, 0, Extended(c))];
  }

  /** Only line i has entries with this id. */
  ghost predicate OnlyLineStores(lines: seq<Line>, id: nat, i: nat) {
    forall j :: 0 <= j < |lines| && j != i ==> lines[j].id != id || lines[j].addrs == []
  }

  function SlotStores(lines: seq<Line>, slot: Slot, id: nat): nat {
    StoredIn(SlotEntries(lines, slot), id)
  }

  lemma SlotOfOther(lines: seq<Line>, slot: Slot, id: nat, i: nat)
    requires OnlyLineStores(lines, id, i) && slot != At(i)
    ensures SlotStores(lines, slot, id) == 0
  {
    if slot.At? && slot.line < |lines| {
      var l := lines[slot.line];
      if l.id != id {
        OtherLine(l, |l.addrs|, id);
      }
    }
  }

  /** A file stores for the id what line i does if it has that line, else nothing. */
  lemma {:induction false} FileStores(lines: seq<Line>, slots: seq<Slot>, id: nat, i: nat)
    requires OnlyLineStores(lines, id, i)
    requires forall k, l :: 0 <= k < l < |slots| && slots[k] == At(i) ==> slots[l] != At(i)
    ensures StoredIn(FileEntries(lines, slots), id) == if At(i) in slots then SlotStores(lines, At(i), id) else 0
  {
    if slots != [] {
      var before, last := slots[..|slots| - 1], slots[|slots| - 1];
      FileStores(lines, before, id, i);
      StoredInSums(FileEntries(lines, before), SlotEntries(lines, last), id);
      assert slots == before + [last];
      if last == At(i) {
        assert At(i) !in before;
      } else {
        SlotOfOther(lines, last, id, i);
      }
    }
  }

  lemma FileStoresOnce(s: State, f: Name, id: nat, i: nat)
    requires Unique(s) && f in s.files && OnlyLineStores(s.lines, id, i)
    ensures StoredIn(FileEntries(s.lines, s.files[f].slots), id)
            == if At(i) in s.files[f].slots then SlotStores(s.lines, At(i), id) else 0
  {
    var slots := s.files[f].slots;
    forall k, l | 0 <= k < l < |slots| && slots[k] == At(i) ensures slots[l] != At(i) {
      assert slots[l] == At(i) ==> InSlot(s, f, k, i) && InSlot(s, f, l, i);
    }
    FileStores(s.lines, slots, id, i);
  }

  lemma {:induction false} AllStore(s: State, names: seq<Name>, id: nat, i: nat, home: Name)
    requires Unique(s) && (forall f :: f in names ==> f in s.files) && OnlyLineStores(s.lines, id, i)
    requires home in s.files && At(i) in s.files[home].slots
    requires forall k, l :: 0 <= k < l < |names| ==> names[k] != names[l]
    ensures StoredIn(AllEntries(s, names), id) == if home in names then SlotStores(s.lines, At(i), id) else 0
  {
    if names != [] {
      var before, last := names[..|names| - 1], names[|names| - 1];
      AllStore(s, before, id, i, home);
      StoredInSums(AllEntries(s, before), FileEntries(s.lines, s.files[last].slots), id);
      FileStoresOnce(s, last, id, i);
      assert names == before + [last];
      if last == home {
        assert home !in before;
      } else if At(i) in s.files[last].slots {
        var k :| 0 <= k < |s.files[last].slots| && s.files[last].slots[k] == At(i);
        var l :| 0 <= l < |s.files[home].slots| && s.files[home].slots[l] == At(i);
        assert InSlot(s, last, k, i) && InSlot(s, home, l, i);
      }
    }
  }

  /** names is some order in which the map of files is walked. */
  ghost predicate Walks(s: State, names: seq<Name>) {
    && (forall f :: f in names <==> f in s.files)
    && (forall k, l :: 0 <= k < l < |names| ==> names[k] != names[l])
  }

  lemma OnlyIndexedStores(s: State, id: nat)
    requires IdsOk(s) && Bare(s) && id in s.byId
    ensures OnlyLineStores(s.lines, id, s.byId[id])
  {
  }

  lemma LineStores(s: State, names: seq<Name>, e: Event, id: nat, total: nat)
    requires Unique(s) && IdsOk(s) && Bare(s) && e.OnLine? && LineOk(s, e, id, total) && Walks(s, names)
    ensures StoredIn(AllEntries(s, names), id) % U32 == total % U32
  {
    var i := s.byId[id];
    OnlyIndexedStores(s, id);
    AllStore(s, names, id, i, e.file);
    LineStoresTotal(s.lines, i, e.addr, total);
  }

  lemma LineStoresTotal(lines: seq<Line>, i: nat, addr: nat, total: nat)
    requires i < |lines| && Single(lines[i], addr, Low(total))
    ensures SlotStores(lines, At(i), lines[i].id) % U32 == total % U32
  {
    OneLine(lines[i], addr, Low(total));
    ExtensionKeepsLowBits(Low(total), 0);
  }

  lemma CountsStore(env: Env, events: seq<Event>, s: State, names: seq<Name>, e: Event, total: nat -> nat, stored: nat -> nat)
    requires CountsOk(env, events, s, stored, total) && Unique(s) && Walks(s, names) && e in events && Taken(env, e)
    ensures StoredIn(AllEntries(s, names), IdOf(env, e)) % U32 == total(IdOf(env, e)) % U32
  {
    LineOf(env, events, s, total, e);
    LineStores(s, names, e, IdOf(env, e), total(IdOf(env, e)));
  }

  /** Equal as 32-bit counters. */
  predicate SameCounter(m: nat, n: nat) {
    m % U32 == n % U32
  }

  ghost function CountOf(env: Env, events: seq<Event>, id: nat): nat {
    Stored(events, id) + Live(env, events, id)
  }

  lemma CountsOkFor(env: Env, events: seq<Event>)
    requires Script(env, events)
    ensures CountsOk(env, events, Run(env, events), StoredBy(events, []), TotalBy(env, events, [])) && Unique(Run(env, events))
  {
    RunUnique(env, events);
    RunCounts(env, events);
  }

  lemma TotalIsCount(env: Env, events: seq<Event>, id: nat)
    ensures TotalBy(env, events, [])(id) == CountOf(env, events, id)
  {
  }

  /** What the database of a finished run holds for a line is, in 32 bits, the line's count. */
  lemma StoredIsTheCount(env: Env, events: seq<Event>, names: seq<Name>, e: Event)
    requires Script(env, events) && e in events && Taken(env, e) && Walks(Run(env, events), names)
    ensures SameCounter(StoredIn(AllEntries(Run(env, events), names), IdOf(env, e)), CountOf(env, events, IdOf(env, e)))
  {
    CountsOkFor(env, events);
    TotalIsCount(env, events, IdOf(env, e));
    CountsStore(env, events, Run(env, events), names, e, TotalBy(env, events, []), StoredBy(events, []));
  }

  lemma CountIsAlso(s: State, id: nat, count: nat, stored: nat, live: nat, earlier: nat, n: nat)
    requires CountIs(s, id, count) && count == stored + live && SameCounter(stored, earlier) && n == earlier + live
    ensures CountIs(s, id, n)
  {
    WrapsOnce(stored, live);
    WrapsOnce(earlier, live);
  }

  lemma CountIsFor(env: Env, events: seq<Event>, e: Event, id: nat, n: nat)
    requires Script(env, events) && e in events && Taken(env, e) && id == IdOf(env, e) && n == CountOf(env, events, id)
    ensures CountIs(Run(env, events), id, n)
  {
    RunCounts(env, events);
    LineOf(env, events, Run(env, events), TotalBy(env, events, []), e);
    LineOkCounts(Run(env, events), e, id, n);
  }

  /** A run whose databases hold for a line what an earlier run counted goes on from that count.
      StoredIsTheCount says that the database of the earlier run is one that does. */
  lemma CountGoesOn(env: Env, second: seq<Event>, g: Event, id: nat, earlier: nat, n: nat)
    requires Script(env, second) && g in second && Taken(env, g) && id == IdOf(env, g)
    requires SameCounter(Stored(second, id), earlier) && n == earlier + Live(env, second, id)
    ensures CountIs(Run(env, second), id, n)
  {
    var count := CountOf(env, second, id);
    CountIsFor(env, second, g, id, count);
    CountIsAlso(Run(env, second), id, count, Stored(second, id), Live(env, second, id), earlier, n);
  }
}
