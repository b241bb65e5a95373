/** Hits counted from the inputs of a merge. */
module MergeCounts {
  // For any inputs in any order: metadata out of date, addresses and hashes shared. What a session counts for an
  // address of a file is told by the inputs alone, and so is what its 32-bit counters make of it.

  import opened Bytes
  import opened MergeFile
  import opened MergeParser

  datatype Option<T> = None | Some(value: T)

  // ----- files that are known -----

  predicate Creates(env: Env, e: Event, file: Name) {
    (Taken(env, e) && e.file == file) || Read(env, e, file)
  }

  ghost predicate Created(env: Env, events: seq<Event>, file: Name) {
    exists e :: e in events && Creates(env, e, file)
  }

  /** Metadata is accepted for a file not known before, and with the file's own checksum. */
  ghost predicate Accepts(env: Env, before: seq<Event>, e: Event, file: Name) {
    Read(env, e, file) && (e.checksum == env.checksum(file) || !Created(env, before, file))
  }

  ghost predicate FilesAre(env: Env, events: seq<Event>, s: State) {
    && (forall f :: f in s.files <==> Created(env, events, f))
    && (forall f :: f in s.files ==> s.files[f].checksum == env.checksum(f))
  }

  lemma CreatedGrows(env: Env, events: seq<Event>, e: Event, file: Name)
    ensures Created(env, events + [e], file) <==> Created(env, events, file) || Creates(env, e, file)
  {
    assert e in events + [e];
    if Created(env, events, file) {
      var x :| x in events && Creates(env, x, file);
      assert x in events + [e];
    }
  }

  /** Hits leave files, checksums and lines alone. */
  ghost predicate SameLines(s: State, t: State) {
    t.files.Keys == s.files.Keys
    && forall f :: f in s.files ==> t.files[f].checksum == s.files[f].checksum && t.files[f].lines == s.files[f].lines
  }

  lemma HitKeepsLines(s: State, addr: nat, hits: positive)
    ensures SameLines(s, Hit(0, s, addr, hits)) && SameLines(s, Replayed(0, s, addr))
  {
  }

  lemma FilesAreSame(env: Env, events: seq<Event>, s: State, t: State)
    requires FilesAre(env, events, s) && SameLines(s, t)
    ensures FilesAre(env, events, t)
  {
    forall f: Name ensures f in t.files <==> Created(env, events, f) {
      assert f in t.files.Keys <==> f in s.files.Keys;
    }
  }

  /** The file that an input makes known, if any. */
  lemma FileMade(env: Env, events: seq<Event>, s: State, e: Event, file: Name, f: FileState)
    requires FilesAre(env, events, s) && f.checksum == env.checksum(file)
    requires forall g :: Creates(env, e, g) <==> g == file
    ensures FilesAre(env, events + [e], s.(files := s.files[file := f]))
  {
    forall g: Name ensures Created(env, events + [e], g) <==> Created(env, events, g) || g == file {
      CreatedGrows(env, events, e, g);
    }
  }

  lemma NoFileMade(env: Env, events: seq<Event>, s: State, e: Event)
    requires FilesAre(env, events, s) && forall g: Name :: Creates(env, e, g) ==> g in s.files
    ensures FilesAre(env, events + [e], s)
  {
    forall g: Name ensures Created(env, events + [e], g) <==> Created(env, events, g) {
      CreatedGrows(env, events, e, g);
    }
  }

  lemma FilesStep(env: Env, events: seq<Event>, s: State, e: Event)
    requires FilesAre(env, events, s)
    ensures FilesAre(env, events + [e], Step(env, 0, s, e))
  {
    match e
    case OnLine(file, line, addr) =>
      if Taken(env, e) {
        var t := Announced(env, s, file, line, addr);
        FileMade(env, events, s, e, file, t.files[file]);
        assert t.files == s.(files := s.files[file := t.files[file]]).files;
        HitKeepsLines(t, addr, 1);
        FilesAreSame(env, events + [e], s.(files := t.files), Replayed(0, t, addr));
      } else {
        NoFileMade(env, events, s, e);
      }
    case OnAddress(addr, hits) =>
      NoFileMade(env, events, s, e);
      HitKeepsLines(s, addr, hits);
      FilesAreSame(env, events + [e], s, Hit(0, s, addr, hits));
    case OnFile(file, checksum, records) =>
      var name := env.mangle(file);
      if Step(env, 0, s, e) != s {
        AllNoted(FileOf(env, s, name), records, 0, 0);
        FileMade(env, events, s, e, name, NotedAll(0, FileOf(env, s, name), records));
      } else if env.exist(name) && (name !in s.files || s.files[name].checksum == checksum) {
        assert s.files[name := NotedAll(0, FileOf(env, s, name), records)] == s.files;
        NoFileMade(env, events, s, e);
      } else {
        NoFileMade(env, events, s, e);
      }
  }

  // ----- who gets a hit -----

  /** The id that claimed the address last. */
  function LastId(env: Env, events: seq<Event>, addr: nat): Option<nat> {
    if events == [] then None
    else
      var e := events[|events| - 1];
      if Taken(env, e) && e.addr == addr then Some(LineId(env, e.file, e.line)) else LastId(env, events[..|events| - 1], addr)
  }

  predicate IsClaim(env: Env, e: Event, id: nat) {
    Taken(env, e) && LineId(env, e.file, e.line) == id
  }

  /** The file that claimed the id last. */
  function LastFile(env: Env, events: seq<Event>, id: nat): Option<Name> {
    if events == [] then None
    else
      var e := events[|events| - 1];
      if IsClaim(env, e, id) then Some(e.file) else LastFile(env, events[..|events| - 1], id)
  }

  /** The hits that came last for the address: those that wait if no line has claimed it. */
  function LastHits(events: seq<Event>, addr: nat): Option<positive> {
    if events == [] then None
    else
      var e := events[|events| - 1];
      if e.OnAddress? && e.addr == addr then Some(e.hits) else LastHits(events[..|events| - 1], addr)
  }

  /** How often a file of metadata says that the address was hit. */
  function Marked(records: seq<Record>, id: nat): nat {
    if records == [] then 0
    else
      var r := records[|records| - 1];
      Marked(records[..|records| - 1], id) + if r.hit && r.addr == id then 1 else 0
  }

  /** What one more input adds. A hit counts for the file that claimed last the id that claimed the address last, or
      waits for the first claim; then only the latest does. */
  ghost function Gain(env: Env, before: seq<Event>, e: Event, file: Name, id: nat): nat {
    match e
    case OnAddress(addr, hits) =>
      if LastId(env, before, addr) == Some(id) && LastFile(env, before, id) == Some(file) then hits else 0
    case OnLine(_, _, addr) =>
      if IsClaim(env, e, id) && e.file == file && LastId(env, before, addr).None? && LastHits(before, addr).Some?
      then LastHits(before, addr).value else 0
    case OnFile(_, _, records) => if Accepts(env, before, e, file) then Marked(records, id) else 0
  }

  ghost function Counted(env: Env, events: seq<Event>, file: Name, id: nat): nat {
    if events == [] then 0
    else
      var before, e := events[..|events| - 1], events[|events| - 1];
      Counted(env, before, file, id) + Gain(env, before, e, file, id)
  }

  lemma CountedGrows(env: Env, events: seq<Event>, e: Event, file: Name, id: nat)
    ensures Counted(env, events + [e], file, id) == Counted(env, events, file, id) + Gain(env, events, e, file, id)
  {
    assert (events + [e])[..|events|] == events;
  }

  // ----- the indexes -----

  ghost predicate IdsAre(env: Env, events: seq<Event>, s: State) {
    && (forall x :: x in s.lineByAddress <==> LastId(env, events, x).Some?)
    && (forall x :: x in s.lineByAddress ==> LastId(env, events, x) == Some(s.lineByAddress[x]) && s.lineByAddress[x] in s.byAddress)
  }

  ghost predicate OwnersAre(env: Env, events: seq<Event>, s: State) {
    && (forall id :: id in s.byAddress <==> LastFile(env, events, id).Some?)
    && (forall id :: id in s.byAddress ==> LastFile(env, events, id) == Some(s.byAddress[id]) && s.byAddress[id] in s.files)
  }

  ghost predicate WaitingAre(events: seq<Event>, s: State) {
    && (forall x :: x in s.pending <==> x !in s.lineByAddress && LastHits(events, x).Some?)
    && (forall x :: x in s.pending ==> LastHits(events, x) == Some(s.pending[x]))
  }

  ghost predicate Tracked(env: Env, events: seq<Event>, s: State) {
    IdsAre(env, events, s) && OwnersAre(env, events, s) && WaitingAre(events, s) && FilesAre(env, events, s)
  }

  lemma LastsGrow(env: Env, events: seq<Event>, e: Event)
    ensures forall x :: LastId(env, events + [e], x)
                        == if Taken(env, e) && e.addr == x then Some(LineId(env, e.file, e.line)) else LastId(env, events, x)
    ensures forall id :: LastFile(env, events + [e], id) == if IsClaim(env, e, id) then Some(e.file) else LastFile(env, events, id)
    ensures forall x :: LastHits(events + [e], x) == if e.OnAddress? && e.addr == x then Some(e.hits) else LastHits(events, x)
  {
    assert (events + [e])[..|events|] == events;
  }

  /** An input that is no line leaves the links as they are. */
  lemma LinksStay(env: Env, events: seq<Event>, e: Event, s: State, t: State)
    requires IdsAre(env, events, s) && OwnersAre(env, events, s) && !Taken(env, e)
    requires t.lineByAddress == s.lineByAddress && t.byAddress == s.byAddress && s.files.Keys <= t.files.Keys
    ensures IdsAre(env, events + [e], t) && OwnersAre(env, events + [e], t)
  {
    LastsGrow(env, events, e);
  }

  lemma WaitingStay(env: Env, events: seq<Event>, e: Event, s: State, t: State)
    requires WaitingAre(events, s) && !e.OnAddress? && (Taken(env, e) ==> e.addr in t.lineByAddress)
    requires forall x :: x in t.lineByAddress <==> x in s.lineByAddress || (Taken(env, e) && x == e.addr)
    requires t.pending == if Taken(env, e) then s.pending - {e.addr} else s.pending
    ensures WaitingAre(events + [e], t)
  {
    LastsGrow(env, events, e);
  }

  lemma HitTracked(env: Env, events: seq<Event>, s: State, e: Event)
    requires Tracked(env, events, s) && e.OnAddress?
    ensures Tracked(env, events + [e], Step(env, 0, s, e))
  {
    LinksStay(env, events, e, s, Step(env, 0, s, e));
    HitWaits(env, events, s, e);
    FilesStep(env, events, s, e);
  }

  lemma HitWaits(env: Env, events: seq<Event>, s: State, e: Event)
    requires Tracked(env, events, s) && e.OnAddress?
    ensures WaitingAre(events + [e], Step(env, 0, s, e))
  {
    LastsGrow(env, events, e);
  }

  lemma HitGains(env: Env, events: seq<Event>, s: State, e: Event, file: Name, id: nat)
    requires Tracked(env, events, s) && e.OnAddress?
    ensures HitCount(Step(env, 0, s, e), file, id) == HitCount(s, file, id) + Gain(env, events, e, file, id)
  {
    if e.addr in s.lineByAddress {
      assert LastId(env, events, e.addr) == Some(s.lineByAddress[e.addr]);
      assert s.lineByAddress[e.addr] in s.byAddress;
    }
  }

  lemma FileTracked(env: Env, events: seq<Event>, s: State, e: Event)
    requires Tracked(env, events, s) && !Taken(env, e) && !e.OnAddress?
    ensures Tracked(env, events + [e], Step(env, 0, s, e))
  {
    LinksStay(env, events, e, s, Step(env, 0, s, e));
    WaitingStay(env, events, e, s, Step(env, 0, s, e));
    FilesStep(env, events, s, e);
  }

  lemma {:induction false} MarkedCount(f: FileState, records: seq<Record>, id: nat)
    ensures var g := NotedAll(0, f, records);
            (if id in g.addrHits then g.addrHits[id] else 0) == (if id in f.addrHits then f.addrHits[id] else 0) + Marked(records, id)
  {
    if records != [] {
      MarkedCount(f, records[..|records| - 1], id);
    }
  }

  lemma FileGains(env: Env, events: seq<Event>, s: State, e: Event, file: Name, id: nat)
    requires FilesAre(env, events, s) && e.OnFile?
    ensures HitCount(Step(env, 0, s, e), file, id) == HitCount(s, file, id) + Gain(env, events, e, file, id)
  {
    assert file in s.files <==> Created(env, events, file);
    if env.mangle(e.file) == file {
      MarkedCount(FileOf(env, s, file), e.records, id);
    }
  }

  lemma LineLinks(env: Env, s: State, e: Event)
    requires Taken(env, e)
    ensures var t := Step(env, 0, s, e); var id := LineId(env, e.file, e.line);
            && t.lineByAddress == s.lineByAddress[e.addr := id] && t.byAddress == s.byAddress[id := e.file]
            && t.pending == s.pending - {e.addr} && t.files.Keys == s.files.Keys + {e.file}
  {
    HitKeepsLines(Announced(env, s, e.file, e.line, e.addr), e.addr, 1);
  }

  lemma LinksMove(env: Env, events: seq<Event>, e: Event, s: State, t: State)
    requires IdsAre(env, events, s) && OwnersAre(env, events, s) && Taken(env, e)
    requires t.lineByAddress == s.lineByAddress[e.addr := LineId(env, e.file, e.line)]
    requires t.byAddress == s.byAddress[LineId(env, e.file, e.line) := e.file] && t.files.Keys == s.files.Keys + {e.file}
    ensures IdsAre(env, events + [e], t) && OwnersAre(env, events + [e], t)
  {
    LastsGrow(env, events, e);
    assert forall f :: f in t.files <==> f in t.files.Keys;
  }

  lemma LineTracked(env: Env, events: seq<Event>, s: State, e: Event)
    requires Tracked(env, events, s) && Taken(env, e)
    ensures Tracked(env, events + [e], Step(env, 0, s, e))
  {
    LineLinks(env, s, e);
    LinksMove(env, events, e, s, Step(env, 0, s, e));
    WaitingStay(env, events, e, s, Step(env, 0, s, e));
    FilesStep(env, events, s, e);
  }

  lemma ReplayCounts(s: State, addr: nat, file: Name, id: nat)
    requires addr in s.lineByAddress && s.lineByAddress[addr] in s.byAddress && s.byAddress[s.lineByAddress[addr]] in s.files
    ensures HitCount(Replayed(0, s, addr), file, id)
            == HitCount(s, file, id)
               + if addr in s.pending && s.lineByAddress[addr] == id && s.byAddress[id] == file then s.pending[addr] else 0
  {
  }

  lemma LineCounts(env: Env, s: State, e: Event, file: Name, id: nat)
    requires Taken(env, e)
    ensures HitCount(Step(env, 0, s, e), file, id)
            == HitCount(s, file, id)
               + if IsClaim(env, e, id) && e.file == file && e.addr in s.pending then s.pending[e.addr] else 0
  {
    var t := Announced(env, s, e.file, e.line, e.addr);
    assert HitCount(t, file, id) == HitCount(s, file, id);
    ReplayCounts(t, e.addr, file, id);
  }

  lemma LineGains(env: Env, events: seq<Event>, s: State, e: Event, file: Name, id: nat)
    requires Tracked(env, events, s) && Taken(env, e)
    ensures HitCount(Step(env, 0, s, e), file, id) == HitCount(s, file, id) + Gain(env, events, e, file, id)
  {
    LineCounts(env, s, e, file, id);
    assert e.addr in s.lineByAddress <==> LastId(env, events, e.addr).Some?;
    assert e.addr in s.pending <==> e.addr !in s.lineByAddress && LastHits(events, e.addr).Some?;
  }

  lemma TrackedStep(env: Env, events: seq<Event>, s: State, e: Event)
    requires Tracked(env, events, s)
    ensures Tracked(env, events + [e], Step(env, 0, s, e))
  {
    if e.OnAddress? {
      HitTracked(env, events, s, e);
    } else if Taken(env, e) {
      LineTracked(env, events, s, e);
    } else {
      FileTracked(env, events, s, e);
    }
  }

  lemma GainStep(env: Env, events: seq<Event>, s: State, e: Event, file: Name, id: nat)
    requires Tracked(env, events, s)
    ensures HitCount(Step(env, 0, s, e), file, id) == HitCount(s, file, id) + Gain(env, events, e, file, id)
  {
    match e
    case OnAddress(_, _) => HitGains(env, events, s, e, file, id);
    case OnLine(_, _, _) =>
      if Taken(env, e) {
        LineGains(env, events, s, e, file, id);
      }
    case OnFile(_, _, _) => FileGains(env, events, s, e, file, id);
  }

  /** Whatever the inputs are and in whatever order: what is counted for an address of a file. */
  lemma {:induction false} CountsAre(env: Env, events: seq<Event>, file: Name, id: nat)
    ensures Tracked(env, events, Run(env, 0, events))
    ensures HitCount(Run(env, 0, events), file, id) == Counted(env, events, file, id)
  {
    if events != [] {
      var before, e := events[..|events| - 1], events[|events| - 1];
      assert events == before + [e];
      CountsAre(env, before, file, id);
      TrackedStep(env, before, Run(env, 0, before), e);
      GainStep(env, before, Run(env, 0, before), e, file, id);
    }
  }

  // ----- counters that wrap -----

  lemma CountsIn32Bits(env: Env, events: seq<Event>, file: Name, line: nat, id: nat)
    ensures HitCount(Run(env, U32, events), file, id) == Counted(env, events, file, id) % U32
    ensures HasLine(Run(env, U32, events), file, line, id) <==> HasLine(Run(env, 0, events), file, line, id)
  {
    CountsAre(env, events, file, id);
    CountersAreCongruent(env, events);
    var s, t := Run(env, 0, events), Run(env, U32, events);
    if file in s.files {
      assert Congruent(s.files[file], t.files[file]);
    }
  }

  /** No address is hit a positive multiple of 2^32 times. */
  ghost predicate NoneWraps(env: Env, events: seq<Event>) {
    forall file, id :: Counted(env, events, file, id) != 0 ==> Counted(env, events, file, id) % U32 != 0
  }

  /** With 32-bit counters a session is the union of its inputs if and only if no count wraps to zero. */
  lemma UnionIn32BitsIff(env: Env, events: seq<Event>)
    requires Clean(env, events)
    ensures IsUnion(env, events, Run(env, U32, events)) <==> NoneWraps(env, events)
  {
    MergeIsUnion(env, events);
    var s, t := Run(env, 0, events), Run(env, U32, events);
    forall file, line, id ensures HasLine(t, file, line, id) <==> Known(env, events, file, line, id) {
      CountsIn32Bits(env, events, file, line, id);
    }
    forall file, id ensures IsHit(t, file, id) <==> Counted(env, events, file, id) % U32 != 0 {
      CountsIn32Bits(env, events, file, 0, id);
    }
    forall file, id ensures HitBy(env, events, file, id) <==> Counted(env, events, file, id) != 0 {
      CountsAre(env, events, file, id);
      assert IsHit(s, file, id) <==> HitBy(env, events, file, id);
    }
  }

  /** The same with the 32-bit counters of the program, in all three sessions, as long as none of them wraps to
      zero in any of them. */
  lemma MergingMergedIn32Bits(env: Env, part: seq<Event>, outs: seq<Event>, rest: seq<Event>, file: Name, line: nat, addr: nat)
    requires Clean(env, part + rest) && AreOutputs(env, Run(env, U32, part), outs) && forall e :: e in rest ==> e.OnFile?
    requires NoneWraps(env, part) && NoneWraps(env, outs + rest) && NoneWraps(env, part + rest)
    ensures var merged, all := Run(env, U32, outs + rest), Run(env, U32, part + rest);
            && (HasLine(merged, file, line, addr) <==> HasLine(all, file, line, addr))
            && (IsHit(merged, file, addr) <==> IsHit(all, file, addr))
  {
    assert forall e :: e in part ==> e in part + rest;
    UnionIn32BitsIff(env, part);
    CleanOutputs(env, part, Run(env, U32, part), outs, rest);
    UnionIn32BitsIff(env, outs + rest);
    UnionIn32BitsIff(env, part + rest);
    SameUnions(env, part, Run(env, U32, part), outs, rest, file, line, addr);
  }

  /** n hits, one by one, at the only line there is. */
  lemma {:induction false} HitsAddUp(env: Env, file: Name, line: u32, addr: nat, n: nat)
    requires env.accepts(file) && env.exist(file)
    ensures var events, id := ManyHits(file, line, addr, n), LineId(env, file, line);
            && LastId(env, events, addr) == Some(id) && LastFile(env, events, id) == Some(file)
            && Counted(env, events, file, id) == n
  {
    var id := LineId(env, file, line);
    if n == 0 {
      assert ManyHits(file, line, addr, 0) == [] + [OnLine(file, line, addr)];
      LastsGrow(env, [], OnLine(file, line, addr));
      CountedGrows(env, [], OnLine(file, line, addr), file, id);
    } else {
      var before, e := ManyHits(file, line, addr, n - 1), OnAddress(addr, 1);
      HitsAddUp(env, file, line, addr, n - 1);
      assert ManyHits(file, line, addr, n) == before + [e];
      LastsGrow(env, before, e);
      CountedGrows(env, before, e, file, id);
    }
  }

  function ManyHits(file: Name, line: u32, addr: nat, n: nat): seq<Event> {
    [OnLine(file, line, addr)] + seq(n, _ => OnAddress(addr, 1))
  }

  /** A line hit n times is hit in the result unless n is a multiple of 2^32. */
  lemma WrapsToNothing(env: Env, file: Name, line: u32, addr: nat, n: positive)
    requires env.accepts(file) && env.exist(file)
    ensures var events, id := ManyHits(file, line, addr, n), LineId(env, file, line);
            && Clean(env, events) && HitBy(env, events, file, id)
            && HitCount(Run(env, U32, events), file, id) == n % U32
            && (IsHit(Run(env, U32, events), file, id) <==> n % U32 != 0)
  {
    var events, id := ManyHits(file, line, addr, n), LineId(env, file, line);
    HitsAddUp(env, file, line, addr, n);
    CountsIn32Bits(env, events, file, line, id);
    assert events[0] in events && events[1] in events && LiesAt(env, events[0], file, id);
  }
}
