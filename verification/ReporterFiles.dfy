/** Which lines there are in every run. */
module ReporterFiles {
  import opened ReporterState
  import opened ReporterInvariants
  import ReporterRuns

  // ----- told by the events -----

  predicate About(e: Event, file: Name) {
    e.OnLine? && e.file == file
  }

  /** The k-th event is the first to announce a line of the file. */
  ghost predicate FirstAbout(events: seq<Event>, k: nat, file: Name) {
    k < |events| && About(events[k], file) && forall j :: 0 <= j < k ==> !About(events[j], file)
  }

  ghost function Announced(events: seq<Event>, file: Name): set<nat> {
    set k | 0 <= k < |events| && About(events[k], file) :: events[k].nr
  }

  /** marks has, for the lines of the source file from 1 on, whether the configured patterns leave the line in. */
  predicate LeftOut(marks: seq<bool>, nr: nat) {
    1 <= nr <= |marks| && !marks[nr - 1]
  }

  // ----- in a state -----

  predicate Present(f: File, nr: nat) {
    nr < |f.slots| && f.slots[nr].At?
  }

  ghost predicate SlotIs(s: State, f: File, marks: seq<bool>, nrs: set<nat>, nr: nat) {
    && (Present(f, nr) <==> LeftOut(marks, nr) || nr in nrs)
    && (Present(f, nr) ==> f.slots[nr].line < |s.lines| && (s.lines[f.slots[nr].line].unreachable <==> LeftOut(marks, nr)))
  }

  ghost predicate FileIs(s: State, f: File, marks: seq<bool>, nrs: set<nat>) {
    forall nr: nat :: SlotIs(s, f, marks, nrs, nr)
  }

  /** Lines stay where they are, and what is left out stays left out. */
  ghost predicate SameFlags(s: State, t: State) {
    |s.lines| <= |t.lines| && forall i :: 0 <= i < |s.lines| ==> t.lines[i].unreachable == s.lines[i].unreachable
  }

  lemma FileStays(s: State, t: State, f: File, marks: seq<bool>, nrs: set<nat>)
    requires FileIs(s, f, marks, nrs) && SameFlags(s, t)
    ensures FileIs(t, f, marks, nrs)
  {
    forall nr: nat ensures SlotIs(t, f, marks, nrs, nr) {
      assert SlotIs(s, f, marks, nrs, nr);
    }
  }

  // ----- hits and rows -----

  lemma {:induction false} HitLinesKeepFlags(env: Env, s: State, at: seq<nat>, addr: nat, hits: nat)
    ensures var t := HitLines(env, s, at, addr, hits); SameFlags(s, t) && t.files == s.files
  {
    if at != [] {
      HitLinesKeepFlags(env, s, at[..|at| - 1], addr, hits);
      var u := HitLines(env, s, at[..|at| - 1], addr, hits);
      if at[|at| - 1] < |u.lines| {
        HitRegistered(u.lines[at[|at| - 1]], addr, hits, env.singleShot);
      }
    }
  }

  lemma {:induction false} RowsKeepFlags(env: Env, s: State, entries: seq<Entry>)
    ensures var t := RestoredAll(env, s, entries); SameFlags(s, t) && t.files == s.files
  {
    if entries != [] {
      RowsKeepFlags(env, s, entries[..|entries| - 1]);
      RowKeepsFlags(env, RestoredAll(env, s, entries[..|entries| - 1]), entries[|entries| - 1]);
    }
  }

  lemma RowKeepsFlags(env: Env, s: State, x: Entry)
    ensures var t := Restored(env, s, x); SameFlags(s, t) && t.files == s.files
  {
    if x.hits != 0 && x.addr in s.byAddr {
      HitLinesKeepFlags(env, s, s.byAddr[x.addr], x.addr, x.hits);
    }
  }

  // ----- announcements -----

  lemma NewLineIs(s: State, file: Name, nr: nat, unreachable: bool)
    requires file in s.files && !Present(s.files[file], nr)
    ensures var t := NewLine(s, file, nr, unreachable);
            && SameFlags(s, t) && |t.lines| == |s.lines| + 1 && t.lines[|s.lines|].unreachable == unreachable
            && t.files.Keys == s.files.Keys && (forall g :: g in s.files && g != file ==> t.files[g] == s.files[g])
            && Present(t.files[file], nr) && t.files[file].slots[nr].line == |s.lines|
            && forall k: nat :: k != nr ==>
                 && (Present(t.files[file], k) <==> Present(s.files[file], k))
                 && (Present(s.files[file], k) ==> t.files[file].slots[k] == s.files[file].slots[k])
  {
  }

  lemma {:induction false} LeftOutAre(s: State, file: Name, marks: seq<bool>)
    requires file in s.files && s.files[file].slots == []
    ensures var t := Unreachables(s, file, marks);
            && SameFlags(s, t) && (forall g :: g in s.files && g != file ==> t.files[g] == s.files[g])
            && FileIs(t, t.files[file], marks, {})
  {
    if marks != [] {
      var before, n := marks[..|marks| - 1], |marks|;
      LeftOutAre(s, file, before);
      var u := Unreachables(s, file, before);
      assert SlotIs(u, u.files[file], before, {}, n);
      if !marks[n - 1] {
        NewLineIs(u, file, n, true);
      }
      var t := Unreachables(s, file, marks);
      forall nr: nat ensures SlotIs(t, t.files[file], marks, {}, nr) {
        assert SlotIs(u, u.files[file], before, {}, nr);
      }
    }
  }

  lemma LineAdded(s: State, file: Name, marks: seq<bool>, nrs: set<nat>, nr: nat, t: State)
    requires file in s.files && FileIs(s, s.files[file], marks, nrs)
    requires t == if GetLine(s.files[file], nr).Null? then NewLine(s, file, nr, false) else s
    ensures SameFlags(s, t) && file in t.files && FileIs(t, t.files[file], marks, nrs + {nr})
    ensures t.files.Keys == s.files.Keys && forall g :: g in s.files && g != file ==> t.files[g] == s.files[g]
  {
    assert SlotIs(s, s.files[file], marks, nrs, nr);
    if GetLine(s.files[file], nr).Null? {
      NewLineIs(s, file, nr, false);
    }
    forall k: nat ensures SlotIs(t, t.files[file], marks, nrs + {nr}, k) {
      assert SlotIs(s, s.files[file], marks, nrs, k);
    }
  }

  lemma IndexedKeepsFlags(s: State, i: nat, addr: nat)
    requires i < |s.lines|
    ensures var t := Replayed(Indexed(s, i, addr), i); SameFlags(s, t) && t.files == s.files
  {
    var t := Indexed(s, i, addr);
    if t.lines[i].id in t.pending {
      HitsDelivered(t.lines[i], t.pending[t.lines[i].id]);
    }
  }

  /** The marks count when the file is new, and only then. */
  lemma EnsuredIs(env: Env, s: State, file: Name, nr: nat, marks: seq<bool>, before: seq<bool>, nrs: set<nat>)
    requires file in s.files ==> FileIs(s, s.files[file], before, nrs)
    requires file !in s.files ==> before == marks && nrs == {}
    ensures var t := Ensured(env, s, file, nr, marks);
            && SameFlags(s, t) && t.files.Keys == s.files.Keys + {file}
            && FileIs(t, t.files[file], before, nrs + {nr})
            && forall g :: g in s.files && g != file ==> t.files[g] == s.files[g]
  {
    if file in s.files {
      LineAdded(s, file, before, nrs, nr, Ensured(env, s, file, nr, marks));
    } else {
      var empty := s.(files := s.files[file := File(env.hash(file), [], 0)]);
      LeftOutAre(empty, file, marks);
      LineAdded(Unreachables(empty, file, marks), file, marks, {}, nr, Ensured(env, s, file, nr, marks));
    }
  }

  lemma AnnouncedIs(env: Env, s: State, file: Name, nr: nat, addr: nat, marks: seq<bool>, before: seq<bool>, nrs: set<nat>)
    requires env.accepts(file)
    requires file in s.files ==> FileIs(s, s.files[file], before, nrs)
    requires file !in s.files ==> before == marks && nrs == {}
    ensures var t := ReporterState.Announced(env, s, file, nr, addr, marks);
            && SameFlags(s, t) && t.files.Keys == s.files.Keys + {file}
            && FileIs(t, t.files[file], before, nrs + {nr})
            && forall g :: g in s.files && g != file ==> t.files[g] == s.files[g]
  {
    EnsuredIs(env, s, file, nr, marks, before, nrs);
    var u := Ensured(env, s, file, nr, marks);
    var slot := GetLine(u.files[file], nr);
    if slot.At? && slot.line < |u.lines| {
      IndexedKeepsFlags(u, slot.line, addr);
      FileStays(u, ReporterState.Announced(env, s, file, nr, addr, marks), u.files[file], before, nrs + {nr});
    }
  }

  // ----- over a run -----

  lemma OtherKeepsFile(env: Env, s: State, e: Event, file: Name, marks: seq<bool>, nrs: set<nat>)
    requires file in s.files && FileIs(s, s.files[file], marks, nrs) && !About(e, file)
    ensures var t := Step(env, s, e); file in t.files && FileIs(t, t.files[file], marks, nrs)
  {
    var t := Step(env, s, e);
    match e
    case OnLine(g, nr, addr, m) =>
      if env.accepts(g) {
        OtherFileStays(env, s, g, nr, addr, m, file);
        FileStays(s, t, s.files[file], marks, nrs);
      }
    case OnAddressHit(addr, hits) =>
      if addr in s.byAddr {
        HitLinesKeepFlags(env, s, s.byAddr[addr], addr, hits);
      }
      FileStays(s, t, s.files[file], marks, nrs);
    case ReadDatabase(entries) =>
      RowsKeepFlags(env, s, entries);
      FileStays(s, t, s.files[file], marks, nrs);
  }

  lemma OtherFileStays(env: Env, s: State, g: Name, nr: nat, addr: nat, marks: seq<bool>, file: Name)
    requires file in s.files && g != file && env.accepts(g)
    ensures var t := ReporterState.Announced(env, s, g, nr, addr, marks);
            SameFlags(s, t) && file in t.files && t.files[file] == s.files[file]
  {
    if g !in s.files {
      LeftOutAre(s.(files := s.files[g := File(env.hash(g), [], 0)]), g, marks);
    }
    var u := Ensured(env, s, g, nr, marks);
    var slot := GetLine(u.files[g], nr);
    if slot.At? && slot.line < |u.lines| {
      IndexedKeepsFlags(u, slot.line, addr);
    }
  }

  /** A file that is not accepted has none. */
  lemma NotYet(env: Env, events: seq<Event>, file: Name)
    requires env.accepts(file) ==> forall j :: 0 <= j < |events| ==> !About(events[j], file)
    ensures file !in Run(env, events).files
  {
    if events != [] {
      var s, e := Run(env, events[..|events| - 1]), events[|events| - 1];
      NotYet(env, events[..|events| - 1], file);
      match e
      case OnLine(g, nr, addr, m) => NotAdded(env, s, g, nr, addr, m, file);
      case OnAddressHit(addr, hits) =>
        if addr in s.byAddr {
          HitLinesKeepFlags(env, s, s.byAddr[addr], addr, hits);
        }
      case ReadDatabase(entries) => RowsKeepFlags(env, s, entries);
    }
  }

  lemma NotAdded(env: Env, s: State, g: Name, nr: nat, addr: nat, marks: seq<bool>, file: Name)
    requires file !in s.files && (env.accepts(g) ==> g != file)
    ensures file !in ReporterState.Announced(env, s, g, nr, addr, marks).files
  {
    if env.accepts(g) {
      var u := Ensured(env, s, g, nr, marks);
      var slot := GetLine(u.files[g], nr);
      if slot.At? && slot.line < |u.lines| {
        IndexedKeepsFlags(u, slot.line, addr);
      }
    }
  }

  lemma {:induction false} RunFileIs(env: Env, events: seq<Event>, k: nat, file: Name)
    requires env.accepts(file) && FirstAbout(events, k, file)
    ensures var s := Run(env, events);
            file in s.files && FileIs(s, s.files[file], events[k].marks, Announced(events, file))
  {
    var before, e := events[..|events| - 1], events[|events| - 1];
    var s := Run(env, before);
    AnnouncedGrows(events, file);
    if k == |events| - 1 {
      NotYet(env, before, file);
      assert Announced(before, file) == {} && Announced(events, file) == {} + {e.nr};
      AnnouncedIs(env, s, file, e.nr, e.addr, e.marks, e.marks, {});
    } else {
      assert FirstAbout(before, k, file);
      RunFileIs(env, before, k, file);
      if About(e, file) {
        AnnouncedIs(env, s, file, e.nr, e.addr, e.marks, events[k].marks, Announced(before, file));
      } else {
        assert Announced(events, file) == Announced(before, file);
        OtherKeepsFile(env, s, e, file, events[k].marks, Announced(before, file));
      }
    }
  }

  lemma AnnouncedGrows(events: seq<Event>, file: Name)
    requires events != []
    ensures var before, e := events[..|events| - 1], events[|events| - 1];
            Announced(events, file) == Announced(before, file) + if About(e, file) then {e.nr} else {}
  {
    var before := events[..|events| - 1];
    forall nr: nat ensures nr in Announced(events, file) <==>
                           nr in Announced(before, file) || (About(events[|before|], file) && nr == events[|before|].nr)
    {
      if nr in Announced(events, file) {
        var k :| 0 <= k < |events| && About(events[k], file) && events[k].nr == nr;
        assert k < |before| ==> before[k] == events[k];
      }
      if nr in Announced(before, file) {
        var k :| 0 <= k < |before| && About(before[k], file) && before[k].nr == nr;
        assert events[k] == before[k];
      }
    }
  }

  /** A file has the lines that were announced and those the marks of its first announcement leave out, whatever was
      announced, hit or read besides; a line is unreachable exactly if those marks leave it out. */
  lemma LinesAre(env: Env, events: seq<Event>, k: nat, file: Name, nr: nat)
    requires env.accepts(file) && FirstAbout(events, k, file)
    ensures var s := Run(env, events); var marks := events[k].marks;
            && file in s.files
            && (Present(s.files[file], nr) <==>
                  (1 <= nr <= |marks| && !marks[nr - 1]) || exists e :: e in events && e.OnLine? && e.file == file && e.nr == nr)
            && (Present(s.files[file], nr) ==>
                  && s.files[file].slots[nr].line < |s.lines|
                  && (s.lines[s.files[file].slots[nr].line].unreachable <==> 1 <= nr <= |marks| && !marks[nr - 1]))
  {
    RunFileIs(env, events, k, file);
    var s := Run(env, events);
    assert SlotIs(s, s.files[file], events[k].marks, Announced(events, file), nr);
    if nr in Announced(events, file) {
      var j :| 0 <= j < |events| && About(events[j], file) && events[j].nr == nr;
      assert events[j] in events;
    }
    if e :| e in events && e.OnLine? && e.file == file && e.nr == nr {
      var j :| 0 <= j < |events| && events[j] == e;
      assert About(events[j], file);
    }
  }

  lemma {:induction false} ReachableAre(lines: seq<Line>, slots: seq<Slot>, there: set<nat>)
    requires forall k: nat :: k in there <==>
               k < |slots| && slots[k].At? && slots[k].line < |lines| && !lines[slots[k].line].unreachable
    ensures Reachable(lines, slots) == |there|
  {
    if slots == [] {
      assert there == {};
    } else {
      var n := |slots| - 1;
      ReachableAre(lines, slots[..n], there - {n});
    }
  }

  /** The number of lines of a file is the number of lines announced that those marks do not leave out. */
  lemma NumberOfLines(env: Env, events: seq<Event>, k: nat, file: Name)
    requires env.accepts(file) && FirstAbout(events, k, file)
    ensures var s := Run(env, events); var marks := events[k].marks;
            && file in s.files
            && s.files[file].nrLines ==
               |set j | 0 <= j < |events| && About(events[j], file) && !LeftOut(marks, events[j].nr) :: events[j].nr|
  {
    var s, marks := Run(env, events), events[k].marks;
    RunFileIs(env, events, k, file);
    ReporterRuns.RunKeepsInv(env, events);
    var counted := set j | 0 <= j < |events| && About(events[j], file) && !LeftOut(marks, events[j].nr) :: events[j].nr;
    CountedAre(s, s.files[file], marks, Announced(events, file), counted);
  }

  lemma CountedAre(s: State, f: File, marks: seq<bool>, nrs: set<nat>, counted: set<nat>)
    requires FileIs(s, f, marks, nrs) && forall nr: nat :: nr in counted <==> nr in nrs && !LeftOut(marks, nr)
    ensures Reachable(s.lines, f.slots) == |counted|
  {
    forall nr: nat ensures nr in counted <==> Present(f, nr) && f.slots[nr].line < |s.lines| && !s.lines[f.slots[nr].line].unreachable {
      assert SlotIs(s, f, marks, nrs, nr);
    }
    ReachableAre(s.lines, f.slots, counted);
  }

  // ----- what is found at an address -----

  /** A line with this id is listed under the address. */
  ghost predicate IsFound(s: State, addr: nat, id: nat) {
    addr in s.byAddr && exists i :: i in s.byAddr[addr] && i < |s.lines| && s.lines[i].id == id
  }

  /** A line with this id, which is the file's hash and the line number side by side, was announced there. */
  ghost predicate ToldAt(env: Env, events: seq<Event>, addr: nat, id: nat) {
    exists e :: e in events && e.OnLine? && env.accepts(e.file) && e.addr == addr
                && id == env.hash(e.file) % 0x1_0000_0000 * 0x1_0000_0000 + e.nr % 0x1_0000_0000
  }

  ghost predicate Hashes(env: Env, s: State) {
    forall f :: f in s.files ==> s.files[f].hash == env.hash(f)
  }

  /** Lines keep their ids, and nothing else is listed. */
  ghost predicate SameIds(s: State, t: State) {
    t.byAddr == s.byAddr && |s.lines| <= |t.lines| && forall i :: 0 <= i < |s.lines| ==> t.lines[i].id == s.lines[i].id
  }

  lemma FoundStays(s: State, t: State, addr: nat, id: nat)
    requires Inv(s) && SameIds(s, t)
    ensures IsFound(t, addr, id) <==> IsFound(s, addr, id)
  {
    if addr in s.byAddr {
      assert ListOk(s.lines, s.byAddr[addr], addr);
    }
  }

  lemma {:induction false} HitLinesKeepIds(env: Env, s: State, at: seq<nat>, addr: nat, hits: nat)
    ensures var t := HitLines(env, s, at, addr, hits); SameIds(s, t) && t.files == s.files
  {
    if at != [] {
      HitLinesKeepIds(env, s, at[..|at| - 1], addr, hits);
      var u := HitLines(env, s, at[..|at| - 1], addr, hits);
      if at[|at| - 1] < |u.lines| {
        HitRegistered(u.lines[at[|at| - 1]], addr, hits, env.singleShot);
      }
    }
  }

  lemma {:induction false} RowsKeepIds(env: Env, s: State, entries: seq<Entry>)
    ensures var t := RestoredAll(env, s, entries); SameIds(s, t) && t.files == s.files
  {
    if entries != [] {
      RowsKeepIds(env, s, entries[..|entries| - 1]);
      RowKeepsIds(env, RestoredAll(env, s, entries[..|entries| - 1]), entries[|entries| - 1]);
    }
  }

  lemma RowKeepsIds(env: Env, s: State, x: Entry)
    ensures var t := Restored(env, s, x); SameIds(s, t) && t.files == s.files
  {
    if x.hits != 0 && x.addr in s.byAddr {
      HitLinesKeepIds(env, s, s.byAddr[x.addr], x.addr, x.hits);
    }
  }

  lemma {:induction false} LeftOutKeepIds(env: Env, s: State, file: Name, marks: seq<bool>)
    requires file in s.files && Hashes(env, s)
    ensures var t := Unreachables(s, file, marks); SameIds(s, t) && Hashes(env, t)
  {
    if marks != [] {
      LeftOutKeepIds(env, s, file, marks[..|marks| - 1]);
    }
  }

  lemma EnsuredKeepsIds(env: Env, s: State, file: Name, nr: nat, marks: seq<bool>)
    requires Hashes(env, s)
    ensures var t := Ensured(env, s, file, nr, marks); SameIds(s, t) && Hashes(env, t)
  {
    if file !in s.files {
      LeftOutKeepIds(env, s.(files := s.files[file := File(env.hash(file), [], 0)]), file, marks);
    }
  }

  lemma IndexedIsFound(s: State, i: nat, addr: nat, a: nat, id: nat)
    requires Inv(s) && i < |s.lines|
    ensures var t := Replayed(Indexed(s, i, addr), i);
            t.files == s.files && (IsFound(t, a, id) <==> IsFound(s, a, id) || (a == addr && id == s.lines[i].id))
  {
    var t := Indexed(s, i, addr);
    if t.lines[i].id in t.pending {
      HitsDelivered(t.lines[i], t.pending[t.lines[i].id]);
    }
    IndexedKeeps(s, i, addr);
    FoundStays(t, Replayed(t, i), a, id);
    Listing(s, i, addr, a, id);
  }

  lemma Listing(s: State, i: nat, addr: nat, a: nat, id: nat)
    requires Inv(s) && i < |s.lines|
    ensures IsFound(Indexed(s, i, addr), a, id) <==> IsFound(s, a, id) || (a == addr && id == s.lines[i].id)
  {
    var t := Indexed(s, i, addr);
    if a == addr {
      var at := if addr in s.byAddr then s.byAddr[addr] else [];
      assert t.byAddr[addr] == if Known(s, addr, s.lines[i].id) then at else at + [i];
      if IsFound(s, addr, id) {
        var j :| j in s.byAddr[addr] && j < |s.lines| && s.lines[j].id == id;
        assert j in t.byAddr[addr];
      }
      if id == s.lines[i].id && !Known(s, addr, id) {
        assert i in at + [i];
      }
    }
  }

  /** What is found at an address are the lines announced there, in whatever files: all of them, not only the first. */
  lemma {:induction false} FoundAre(env: Env, events: seq<Event>, addr: nat, id: nat)
    ensures Hashes(env, Run(env, events))
    ensures IsFound(Run(env, events), addr, id) <==> ToldAt(env, events, addr, id)
  {
    if events != [] {
      var before, e := events[..|events| - 1], events[|events| - 1];
      var s := Run(env, before);
      FoundAre(env, before, addr, id);
      ReporterRuns.RunKeepsInv(env, before);
      assert events == before + [e];
      match e
      case OnLine(file, nr, a, marks) => AnnouncedIsFound(env, s, e, addr, id);
      case OnAddressHit(a, hits) =>
        HitLinesKeepIds(env, s, if a in s.byAddr then s.byAddr[a] else [], a, hits);
        FoundStays(s, Step(env, s, e), addr, id);
      case ReadDatabase(entries) =>
        RowsKeepIds(env, s, entries);
        FoundStays(s, Step(env, s, e), addr, id);
    }
  }

  lemma AnnouncedIsFound(env: Env, s: State, e: Event, addr: nat, id: nat)
    requires Inv(s) && Hashes(env, s) && e.OnLine?
    ensures var t := Step(env, s, e);
            && Hashes(env, t)
            && (IsFound(t, addr, id) <==>
                  IsFound(s, addr, id) || (env.accepts(e.file) && e.addr == addr && id == LineId(env.hash(e.file), e.nr)))
  {
    if env.accepts(e.file) {
      EnsuredKeepsIds(env, s, e.file, e.nr, e.marks);
      EnsuredKeeps(env, s, e.file, e.nr, e.marks);
      var u := Ensured(env, s, e.file, e.nr, e.marks);
      FoundStays(s, u, addr, id);
      IndexedIsFound(u, GetLine(u.files[e.file], e.nr).line, e.addr, addr, id);
    }
  }
}
