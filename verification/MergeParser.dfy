/** Merging lines, hits and metadata from other runs. */
module MergeParser {
  // They arrive in whatever order, and end up as one union.

  import opened Bytes
  import opened MergeFile

  type Name = seq<byte>

  /** Hits come one by one, or from a row of a database that has some. */
  type positive = n: nat | n > 0 witness 1

  /** The file system, the filters and the hash of names, all fixed while a session lasts. */
  datatype Env = Env(exist: Name -> bool, accepts: Name -> bool, mangle: Name -> Name, checksum: Name -> nat,
                     hash: Name -> u32)

  datatype FileState = FileState(checksum: nat, local: bool, lines: map<nat, set<nat>>, addrHits: map<nat, nat>)

  datatype State = State(files: map<Name, FileState>, byAddress: map<nat, Name>, lineByAddress: map<nat, nat>,
                         pending: map<nat, positive>)

  /** What reaches the parser: a line, a hit, or a file of metadata already read. */
  datatype Event = OnLine(file: Name, line: u32, addr: nat)
                 | OnAddress(addr: nat, hits: positive)
                 | OnFile(file: Name, checksum: nat, records: seq<Record>)

  /** hashAddress with bit 63 cleared: the file's hash below, the line above. */
  function LineId(env: Env, file: Name, line: u32): nat {
    (env.hash(file) + line * U32) % TOP
  }

  /** Counters are `unsigned int`; width 0 stands for counters that never wrap. */
  function Wrapped(width: nat, n: nat): nat {
    if width == 0 then n else n % width
  }

  function AddLine(f: FileState, line: nat, addr: nat): FileState {
    f.(lines := f.lines[line := (if line in f.lines then f.lines[line] else {}) + {addr}])
  }

  function RegisterHits(width: nat, f: FileState, addr: nat, hits: nat): FileState {
    f.(addrHits := f.addrHits[addr := Wrapped(width, (if addr in f.addrHits then f.addrHits[addr] else 0) + hits)])
  }

  /** The file, constructed from what is on disk if it is new. */
  function FileOf(env: Env, s: State, file: Name): FileState {
    if file in s.files then s.files[file] else FileState(env.checksum(file), false, map[], map[])
  }

  function Hit(width: nat, s: State, addr: nat, hits: positive): State {
    if addr !in s.lineByAddress then s.(pending := s.pending[addr := hits])
    else
      var id := s.lineByAddress[addr];
      if id !in s.byAddress || s.byAddress[id] !in s.files then s
      else
        var file := s.byAddress[id];
        s.(files := s.files[file := RegisterHits(width, s.files[file], id, hits)])
  }

  function Announced(env: Env, s: State, file: Name, line: u32, addr: nat): State {
    var id := LineId(env, file, line);
    s.(files := s.files[file := AddLine(FileOf(env, s, file).(local := true), line, id)],
       byAddress := s.byAddress[id := file], lineByAddress := s.lineByAddress[addr := id])
  }

  function Line(env: Env, width: nat, s: State, file: Name, line: u32, addr: nat): State {
    if !env.accepts(file) || !env.exist(file) then s else Replayed(width, Announced(env, s, file, line, addr), addr)
  }

  /** A hit that was waiting for the address is delivered now. */
  function Replayed(width: nat, s: State, addr: nat): State {
    if addr !in s.pending then s
    else
      var t := Hit(width, s, addr, s.pending[addr]);
      t.(pending := t.pending - {addr})
  }

  function Noted(width: nat, f: FileState, r: Record): FileState {
    var g := AddLine(f, r.line, r.addr);
    if r.hit then RegisterHits(width, g, r.addr, 1) else g
  }

  function NotedAll(width: nat, f: FileState, records: seq<Record>): FileState {
    if records == [] then f else Noted(width, NotedAll(width, f, records[..|records| - 1]), records[|records| - 1])
  }

  function Metadata(env: Env, width: nat, s: State, file: Name, checksum: nat, records: seq<Record>): State {
    var name := env.mangle(file);
    if !env.exist(name) || (name in s.files && s.files[name].checksum != checksum) then s
    else s.(files := s.files[name := NotedAll(width, FileOf(env, s, name), records)])
  }

  function Step(env: Env, width: nat, s: State, e: Event): State {
    match e
    case OnLine(file, line, addr) => Line(env, width, s, file, line, addr)
    case OnAddress(addr, hits) => Hit(width, s, addr, hits)
    case OnFile(file, checksum, records) => Metadata(env, width, s, file, checksum, records)
  }

  const EMPTY: State := State(map[], map[], map[], map[])

  function Run(env: Env, width: nat, events: seq<Event>): State {
    if events == [] then EMPTY
    else Step(env, width, Run(env, width, events[..|events| - 1]), events[|events| - 1])
  }

  // ----- what the inputs say, regardless of order -----

  predicate Taken(env: Env, e: Event) {
    e.OnLine? && env.accepts(e.file) && env.exist(e.file)
  }

  predicate Read(env: Env, e: Event, file: Name) {
    e.OnFile? && env.mangle(e.file) == file && env.exist(file)
  }

  /** One input that names this address of this line. */
  ghost predicate Names(env: Env, e: Event, file: Name, line: nat, addr: nat) {
    || (Taken(env, e) && e.file == file && e.line == line && addr == LineId(env, file, e.line))
    || (Read(env, e, file) && exists r :: r in e.records && r.line == line && r.addr == addr)
  }

  ghost predicate Known(env: Env, events: seq<Event>, file: Name, line: nat, addr: nat) {
    exists e :: e in events && Names(env, e, file, line, addr)
  }

  ghost predicate ReadHit(env: Env, e: Event, file: Name, addr: nat) {
    Read(env, e, file) && exists r :: r in e.records && r.hit && r.addr == addr
  }

  /** A line of the file with this id lies at e.addr. */
  ghost predicate LiesAt(env: Env, e: Event, file: Name, id: nat) {
    Taken(env, e) && e.file == file && id == LineId(env, file, e.line)
  }

  ghost predicate HitBy(env: Env, events: seq<Event>, file: Name, addr: nat) {
    || (exists e :: e in events && ReadHit(env, e, file, addr))
    || (exists e, h :: e in events && h in events && LiesAt(env, e, file, addr) && h.OnAddress? && h.addr == e.addr)
  }

  ghost predicate CurrentMetadata(env: Env, events: seq<Event>) {
    forall e :: e in events && e.OnFile? ==> e.checksum == env.checksum(env.mangle(e.file))
  }

  ghost predicate OneLinePerAddress(env: Env, events: seq<Event>) {
    forall e, f :: e in events && f in events && Taken(env, e) && Taken(env, f) && e.addr == f.addr ==>
      LineId(env, e.file, e.line) == LineId(env, f.file, f.line)
  }

  ghost predicate OneFilePerId(env: Env, events: seq<Event>) {
    forall e, f :: e in events && f in events && Taken(env, e) && Taken(env, f) ==>
      LineId(env, e.file, e.line) == LineId(env, f.file, f.line) ==> e.file == f.file
  }

  /** What the inputs must be for their order not to matter. */
  ghost predicate Clean(env: Env, events: seq<Event>) {
    CurrentMetadata(env, events) && OneLinePerAddress(env, events) && OneFilePerId(env, events)
  }

  // ----- the result, as sets -----

  predicate Lists(f: FileState, line: nat, addr: nat) {
    line in f.lines && addr in f.lines[line]
  }

  predicate Counts(f: FileState, addr: nat) {
    addr in f.addrHits && f.addrHits[addr] != 0
  }

  predicate HasLine(s: State, file: Name, line: nat, addr: nat) {
    file in s.files && Lists(s.files[file], line, addr)
  }

  function HitCount(s: State, file: Name, addr: nat): nat {
    if file in s.files && addr in s.files[file].addrHits then s.files[file].addrHits[addr] else 0
  }

  predicate IsHit(s: State, file: Name, addr: nat) {
    file in s.files && Counts(s.files[file], addr)
  }

  lemma {:induction false} AllNoted(f: FileState, records: seq<Record>, line: nat, addr: nat)
    ensures var g := NotedAll(0, f, records);
            && g.checksum == f.checksum
            && (Lists(g, line, addr) <==> Lists(f, line, addr) || exists r :: r in records && r.line == line && r.addr == addr)
            && (Counts(g, addr) <==> Counts(f, addr) || exists r :: r in records && r.hit && r.addr == addr)
  {
    if records != [] {
      var before, last := records[..|records| - 1], records[|records| - 1];
      AllNoted(f, before, line, addr);
      assert forall r :: r in records <==> r in before || r == last;
    }
  }

  // ----- the invariant over runs -----

  ghost predicate TakenAt(env: Env, events: seq<Event>, addr: nat) {
    exists e :: e in events && Taken(env, e) && e.addr == addr
  }

  ghost predicate HitAt(events: seq<Event>, addr: nat) {
    exists e :: e in events && e.OnAddress? && e.addr == addr
  }

  /** The indexes lead from each address to its line and file; hits wait exactly for unknown addresses. */
  ghost predicate Linked(env: Env, events: seq<Event>, s: State) {
    && (forall f :: f in s.files ==> s.files[f].checksum == env.checksum(f))
    && (forall x :: x in s.lineByAddress <==> TakenAt(env, events, x))
    && (forall e :: e in events && Taken(env, e) ==>
          && s.lineByAddress[e.addr] == LineId(env, e.file, e.line)
          && LineId(env, e.file, e.line) in s.byAddress && s.byAddress[LineId(env, e.file, e.line)] == e.file
          && e.file in s.files)
    && (forall x :: x in s.pending <==> x !in s.lineByAddress && HitAt(events, x))
  }

  ghost predicate IsUnion(env: Env, events: seq<Event>, s: State) {
    && (forall file, line, addr :: HasLine(s, file, line, addr) <==> Known(env, events, file, line, addr))
    && (forall file, addr :: IsHit(s, file, addr) <==> HitBy(env, events, file, addr))
  }

  lemma KnownGrows(env: Env, events: seq<Event>, e: Event, file: Name, line: nat, addr: nat)
    ensures Known(env, events + [e], file, line, addr) <==> Known(env, events, file, line, addr) || Names(env, e, file, line, addr)
  {
    assert e in events + [e];
    if Known(env, events, file, line, addr) {
      var x :| x in events && Names(env, x, file, line, addr);
      assert x in events + [e];
    }
  }

  lemma HitByGrows(env: Env, events: seq<Event>, e: Event, file: Name, addr: nat)
    ensures HitBy(env, events + [e], file, addr) <==>
              || HitBy(env, events, file, addr) || ReadHit(env, e, file, addr)
              || (LiesAt(env, e, file, addr) && HitAt(events, e.addr))
              || (e.OnAddress? && exists g :: g in events && LiesAt(env, g, file, addr) && g.addr == e.addr)
  {
    assert forall x :: x in events + [e] <==> x in events || x == e;
  }

  lemma AtGrows(env: Env, events: seq<Event>, e: Event, x: nat)
    ensures TakenAt(env, events + [e], x) <==> TakenAt(env, events, x) || (Taken(env, e) && e.addr == x)
    ensures HitAt(events + [e], x) <==> HitAt(events, x) || (e.OnAddress? && e.addr == x)
  {
    assert forall y :: y in events + [e] <==> y in events || y == e;
  }

  lemma AllGrow(env: Env, events: seq<Event>, e: Event)
    ensures forall x :: TakenAt(env, events + [e], x) <==> TakenAt(env, events, x) || (Taken(env, e) && e.addr == x)
    ensures forall x :: HitAt(events + [e], x) <==> HitAt(events, x) || (e.OnAddress? && e.addr == x)
    ensures forall x :: x in events + [e] <==> x in events || x == e
  {
    forall x ensures TakenAt(env, events + [e], x) <==> TakenAt(env, events, x) || (Taken(env, e) && e.addr == x) {
      AtGrows(env, events, e, x);
    }
    forall x ensures HitAt(events + [e], x) <==> HitAt(events, x) || (e.OnAddress? && e.addr == x) {
      AtGrows(env, events, e, x);
    }
  }

  // ----- one file of metadata -----

  lemma FileLinked(env: Env, events: seq<Event>, s: State, e: Event)
    requires Linked(env, events, s) && Clean(env, events + [e]) && e.OnFile?
    ensures Linked(env, events + [e], Step(env, 0, s, e))
  {
    AllGrow(env, events, e);
    var name := env.mangle(e.file);
    if env.exist(name) {
      AllNoted(FileOf(env, s, name), e.records, 0, 0);
    }
  }

  lemma FileUnion(env: Env, events: seq<Event>, s: State, e: Event)
    requires Linked(env, events, s) && IsUnion(env, events, s) && Clean(env, events + [e]) && e.OnFile?
    ensures IsUnion(env, events + [e], Step(env, 0, s, e))
  {
    var t := Step(env, 0, s, e);
    assert e in events + [e];
    var name := env.mangle(e.file);
    forall file, line, addr ensures HasLine(t, file, line, addr) <==> Known(env, events + [e], file, line, addr) {
      KnownGrows(env, events, e, file, line, addr);
      AllNoted(FileOf(env, s, name), e.records, line, addr);
    }
    forall file, addr ensures IsHit(t, file, addr) <==> HitBy(env, events + [e], file, addr) {
      HitByGrows(env, events, e, file, addr);
      AllNoted(FileOf(env, s, name), e.records, 0, addr);
    }
  }

  // ----- one hit -----

  lemma HitLinked(env: Env, events: seq<Event>, s: State, e: Event)
    requires Linked(env, events, s) && Clean(env, events + [e]) && e.OnAddress?
    ensures Linked(env, events + [e], Step(env, 0, s, e))
  {
    AllGrow(env, events, e);
  }

  /** Where a hit is counted: at the line that lies at the address. */
  lemma HitLands(env: Env, events: seq<Event>, s: State, addr: nat, file: Name, id: nat)
    requires Linked(env, events, s) && addr in s.lineByAddress
    ensures s.lineByAddress[addr] in s.byAddress && s.byAddress[s.lineByAddress[addr]] in s.files
    ensures (exists g :: g in events && LiesAt(env, g, file, id) && g.addr == addr)
            <==> id == s.lineByAddress[addr] && file == s.byAddress[id]
  {
    assert TakenAt(env, events, addr);
    var g :| g in events && Taken(env, g) && g.addr == addr;
    assert LiesAt(env, g, g.file, s.lineByAddress[addr]);
  }

  lemma HitUnion(env: Env, events: seq<Event>, s: State, e: Event)
    requires Linked(env, events, s) && IsUnion(env, events, s) && Clean(env, events + [e]) && e.OnAddress?
    ensures IsUnion(env, events + [e], Step(env, 0, s, e))
  {
    var t := Step(env, 0, s, e);
    assert e in events + [e];
    forall file, line, addr ensures HasLine(t, file, line, addr) <==> Known(env, events + [e], file, line, addr) {
      KnownGrows(env, events, e, file, line, addr);
    }
    forall file, addr ensures IsHit(t, file, addr) <==> HitBy(env, events + [e], file, addr) {
      HitByGrows(env, events, e, file, addr);
      if e.addr in s.lineByAddress {
        HitLands(env, events, s, e.addr, file, addr);
      } else {
        assert !TakenAt(env, events, e.addr);
      }
    }
  }

  // ----- one line -----

  lemma LineIndexes(env: Env, s: State, e: Event)
    requires e.OnLine? && Taken(env, e) && forall f :: f in s.files ==> s.files[f].checksum == env.checksum(f)
    ensures var t := Step(env, 0, s, e); var id := LineId(env, e.file, e.line);
            && t.lineByAddress == s.lineByAddress[e.addr := id] && t.byAddress == s.byAddress[id := e.file]
            && t.pending == s.pending - {e.addr} && t.files.Keys == s.files.Keys + {e.file}
            && forall f :: f in t.files ==> t.files[f].checksum == env.checksum(f)
  {
    var t := Announced(env, s, e.file, e.line, e.addr);
    assert forall f :: f in t.files ==> t.files[f].checksum == env.checksum(f);
    ReplayKeeps(env, t, e.addr);
  }

  lemma ReplayKeeps(env: Env, s: State, addr: nat)
    requires forall f :: f in s.files ==> s.files[f].checksum == env.checksum(f)
    requires addr in s.lineByAddress
    ensures var t := Replayed(0, s, addr);
            && t.lineByAddress == s.lineByAddress && t.byAddress == s.byAddress && t.pending == s.pending - {addr}
            && t.files.Keys == s.files.Keys && forall f :: f in t.files ==> t.files[f].checksum == env.checksum(f)
  {
  }

  lemma Relinked(env: Env, events: seq<Event>, s: State, e: Event, t: State)
    requires Linked(env, events, s) && Clean(env, events + [e]) && e.OnLine? && Taken(env, e)
    requires var id := LineId(env, e.file, e.line);
             && t.lineByAddress == s.lineByAddress[e.addr := id] && t.byAddress == s.byAddress[id := e.file]
             && t.pending == s.pending - {e.addr} && t.files.Keys == s.files.Keys + {e.file}
             && forall f :: f in t.files ==> t.files[f].checksum == env.checksum(f)
    ensures Linked(env, events + [e], t)
  {
    AllGrow(env, events, e);
    forall g | g in events && Taken(env, g)
      ensures t.lineByAddress[g.addr] == LineId(env, g.file, g.line) && t.byAddress[LineId(env, g.file, g.line)] == g.file
    {
      assert g in events + [e] && e in events + [e];
    }
  }

  lemma LineLinked(env: Env, events: seq<Event>, s: State, e: Event)
    requires Linked(env, events, s) && Clean(env, events + [e]) && e.OnLine?
    ensures Linked(env, events + [e], Step(env, 0, s, e))
  {
    if Taken(env, e) {
      LineIndexes(env, s, e);
      Relinked(env, events, s, e, Step(env, 0, s, e));
    } else {
      AllGrow(env, events, e);
    }
  }

  /** What a line changes: its id is listed, and counted if a hit was waiting for its address. */
  lemma LineEffect(env: Env, s: State, e: Event, file: Name, line: nat, addr: nat)
    requires e.OnLine? && Taken(env, e)
    ensures var t := Step(env, 0, s, e); var id := LineId(env, e.file, e.line);
            && (HasLine(t, file, line, addr) <==> HasLine(s, file, line, addr) || (file == e.file && line == e.line && addr == id))
            && (IsHit(t, file, addr) <==> IsHit(s, file, addr) || (file == e.file && addr == id && e.addr in s.pending))
  {
  }

  lemma AlreadyHit(env: Env, events: seq<Event>, s: State, e: Event, file: Name, addr: nat)
    requires Linked(env, events, s) && Clean(env, events + [e]) && LiesAt(env, e, file, addr) && HitAt(events, e.addr)
    requires e.addr !in s.pending
    ensures HitBy(env, events, file, addr)
  {
    assert TakenAt(env, events, e.addr);
    var g :| g in events && Taken(env, g) && g.addr == e.addr;
    assert g in events + [e] && e in events + [e];
    assert LiesAt(env, g, file, addr);
  }

  lemma LineUnion(env: Env, events: seq<Event>, s: State, e: Event)
    requires Linked(env, events, s) && IsUnion(env, events, s) && Clean(env, events + [e]) && e.OnLine?
    ensures IsUnion(env, events + [e], Step(env, 0, s, e))
  {
    var t := Step(env, 0, s, e);
    forall file, line, addr ensures HasLine(t, file, line, addr) <==> Known(env, events + [e], file, line, addr) {
      KnownGrows(env, events, e, file, line, addr);
      if Taken(env, e) {
        LineEffect(env, s, e, file, line, addr);
      }
    }
    forall file, addr ensures IsHit(t, file, addr) <==> HitBy(env, events + [e], file, addr) {
      HitByGrows(env, events, e, file, addr);
      if Taken(env, e) {
        LineEffect(env, s, e, file, 0, addr);
        if LiesAt(env, e, file, addr) && HitAt(events, e.addr) && e.addr !in s.pending {
          AlreadyHit(env, events, s, e, file, addr);
        }
      }
    }
  }

  // ----- every run -----

  lemma CleanBefore(env: Env, events: seq<Event>, e: Event)
    requires Clean(env, events + [e])
    ensures Clean(env, events)
  {
    assert forall x :: x in events ==> x in events + [e];
  }

  /** Whatever order lines, hits and metadata arrive in, the known lines and the hit addresses are the
      union of the inputs. Counters that never wrap are taken here; see CountersAreCongruent. */
  lemma {:induction false} MergeIsUnion(env: Env, events: seq<Event>)
    requires Clean(env, events)
    ensures Linked(env, events, Run(env, 0, events)) && IsUnion(env, events, Run(env, 0, events))
  {
    if events != [] {
      var before, e := events[..|events| - 1], events[|events| - 1];
      assert events == before + [e];
      CleanBefore(env, before, e);
      MergeIsUnion(env, before);
      var s := Run(env, 0, before);
      match e
      case OnLine(_, _, _) =>
        LineLinked(env, before, s, e);
        LineUnion(env, before, s, e);
      case OnAddress(_, _) =>
        HitLinked(env, before, s, e);
        HitUnion(env, before, s, e);
      case OnFile(_, _, _) =>
        FileLinked(env, before, s, e);
        FileUnion(env, before, s, e);
    }
  }

  /** A session with just these inputs, in some order and each any number of times, ends in s. */
  ghost predicate Merges(env: Env, events: seq<Event>, s: State) {
    exists es: seq<Event> :: s == Run(env, 0, es) && forall e :: e in es <==> e in events
  }

  lemma MergesUnion(env: Env, events: seq<Event>, s: State)
    requires Clean(env, events) && Merges(env, events, s)
    ensures IsUnion(env, events, s)
  {
    var es: seq<Event> :| s == Run(env, 0, es) && forall e :: e in es <==> e in events;
    MergeIsUnion(env, es);
    forall file, line, addr ensures Known(env, events, file, line, addr) <==> Known(env, es, file, line, addr) {
    }
    forall file, addr ensures HitBy(env, events, file, addr) <==> HitBy(env, es, file, addr) {
    }
  }

  /** Nothing but which inputs there are counts: not their order, not how often each arrives. */
  lemma OrderDoesNotMatter(env: Env, events: seq<Event>, s: State, t: State, file: Name, line: nat, addr: nat)
    requires Clean(env, events) && Merges(env, events, s) && Merges(env, events, t)
    ensures HasLine(s, file, line, addr) <==> HasLine(t, file, line, addr)
    ensures IsHit(s, file, addr) <==> IsHit(t, file, addr)
  {
    MergesUnion(env, events, s);
    MergesUnion(env, events, t);
  }

  // ----- counters that wrap -----

  /** Two states that differ only in that the counters of the second are 32 bits wide. */
  ghost predicate Congruent(f: FileState, g: FileState) {
    && f.checksum == g.checksum && f.local == g.local && f.lines == g.lines && f.addrHits.Keys == g.addrHits.Keys
    && forall a :: a in f.addrHits ==> g.addrHits[a] == f.addrHits[a] % U32
  }

  ghost predicate Alike(s: State, t: State) {
    && s.byAddress == t.byAddress && s.lineByAddress == t.lineByAddress && s.pending == t.pending
    && s.files.Keys == t.files.Keys && forall f :: f in s.files ==> Congruent(s.files[f], t.files[f])
  }

  lemma WrapsOnce(n: nat, h: nat)
    ensures (n % U32 + h) % U32 == (n + h) % U32
  {
  }

  lemma RegisteredAlike(f: FileState, g: FileState, addr: nat, hits: nat)
    requires Congruent(f, g)
    ensures Congruent(RegisterHits(0, f, addr, hits), RegisterHits(U32, g, addr, hits))
  {
    if addr in f.addrHits {
      WrapsOnce(f.addrHits[addr], hits);
    }
  }

  lemma {:induction false} NotedAlike(f: FileState, g: FileState, records: seq<Record>)
    requires Congruent(f, g)
    ensures Congruent(NotedAll(0, f, records), NotedAll(U32, g, records))
  {
    if records != [] {
      var before, last := records[..|records| - 1], records[|records| - 1];
      NotedAlike(f, g, before);
      if last.hit {
        RegisteredAlike(AddLine(NotedAll(0, f, before), last.line, last.addr),
                        AddLine(NotedAll(U32, g, before), last.line, last.addr), last.addr, 1);
      }
    }
  }

  lemma HitAlike(s: State, t: State, addr: nat, hits: positive)
    requires Alike(s, t)
    ensures Alike(Hit(0, s, addr, hits), Hit(U32, t, addr, hits))
  {
    if addr in s.lineByAddress {
      var id := s.lineByAddress[addr];
      if id in s.byAddress && s.byAddress[id] in s.files {
        RegisteredAlike(s.files[s.byAddress[id]], t.files[s.byAddress[id]], id, hits);
      }
    }
  }

  lemma ReplayAlike(s: State, t: State, addr: nat)
    requires Alike(s, t)
    ensures Alike(Replayed(0, s, addr), Replayed(U32, t, addr))
  {
    if addr in s.pending {
      HitAlike(s, t, addr, s.pending[addr]);
    }
  }

  lemma AnnouncedAlike(env: Env, s: State, t: State, file: Name, line: u32, addr: nat)
    requires Alike(s, t)
    ensures Alike(Announced(env, s, file, line, addr), Announced(env, t, file, line, addr))
  {
    assert Congruent(FileOf(env, s, file), FileOf(env, t, file));
  }

  lemma MetadataAlike(env: Env, s: State, t: State, file: Name, checksum: nat, records: seq<Record>)
    requires Alike(s, t)
    ensures Alike(Metadata(env, 0, s, file, checksum, records), Metadata(env, U32, t, file, checksum, records))
  {
    var name := env.mangle(file);
    assert Congruent(FileOf(env, s, name), FileOf(env, t, name));
    NotedAlike(FileOf(env, s, name), FileOf(env, t, name), records);
  }

  lemma StepAlike(env: Env, s: State, t: State, e: Event)
    requires Alike(s, t)
    ensures Alike(Step(env, 0, s, e), Step(env, U32, t, e))
  {
    match e
    case OnLine(file, line, addr) =>
      AnnouncedAlike(env, s, t, file, line, addr);
      ReplayAlike(Announced(env, s, file, line, addr), Announced(env, t, file, line, addr), addr);
    case OnAddress(addr, hits) => HitAlike(s, t, addr, hits);
    case OnFile(file, checksum, records) => MetadataAlike(env, s, t, file, checksum, records);
  }

  /** The 32-bit counters are those of a run that never wraps, modulo 2^32; nothing else differs. */
  lemma {:induction false} CountersAreCongruent(env: Env, events: seq<Event>)
    ensures Alike(Run(env, 0, events), Run(env, U32, events))
  {
    if events != [] {
      CountersAreCongruent(env, events[..|events| - 1]);
      StepAlike(env, Run(env, 0, events[..|events| - 1]), Run(env, U32, events[..|events| - 1]), events[|events| - 1]);
    }
  }

  /** With 32-bit counters the lines are still the union; a hit address is lost exactly when its hits
      add up to a multiple of 2^32. */
  lemma MergeWith32Bits(env: Env, events: seq<Event>, file: Name, line: nat, addr: nat)
    requires Clean(env, events)
    ensures HasLine(Run(env, U32, events), file, line, addr) <==> Known(env, events, file, line, addr)
    ensures IsHit(Run(env, U32, events), file, addr) <==>
              && HitBy(env, events, file, addr)
              && file in Run(env, 0, events).files && addr in Run(env, 0, events).files[file].addrHits
              && Run(env, 0, events).files[file].addrHits[addr] % U32 != 0
  {
    MergeIsUnion(env, events);
    CountersAreCongruent(env, events);
    var s, t := Run(env, 0, events), Run(env, U32, events);
    if file in s.files {
      assert Congruent(s.files[file], t.files[file]);
    }
  }

  // ----- where order does matter -----

  /** Metadata of another version of a file is accepted if the file is new, and refused after that. */
  lemma StaleMetadataDependsOnOrder(env: Env, file: Name, line: u32, addr: nat, stale: nat, other: addr63)
    requires env.exist(file) && env.accepts(file) && env.mangle(file) == file && stale != env.checksum(file)
    requires other != LineId(env, file, line)
    ensures var metadata, announced := OnFile(file, stale, [Record(line, other, false)]), OnLine(file, line, addr);
            && HasLine(Run(env, 0, [metadata, announced]), file, line, other)
            && !HasLine(Run(env, 0, [announced, metadata]), file, line, other)
  {
    var metadata, announced := OnFile(file, stale, [Record(line, other, false)]), OnLine(file, line, addr);
    RunTwo(env, metadata, announced);
    RunTwo(env, announced, metadata);
    var f := FileState(env.checksum(file), false, map[], map[]);
    AllNoted(f, metadata.records, line, other);
    assert metadata.records[0] in metadata.records;
    LineEffect(env, Step(env, 0, EMPTY, metadata), announced, file, line, other);
  }

  lemma RunTwo(env: Env, a: Event, b: Event)
    ensures Run(env, 0, [a, b]) == Step(env, 0, Step(env, 0, EMPTY, a), b)
  {
    assert [a, b][..1] == [a] && [a][..0] == [];
    assert Run(env, 0, [a]) == Step(env, 0, Run(env, 0, []), a);
  }

  lemma RunThree(env: Env, a: Event, b: Event, c: Event)
    ensures Run(env, 0, [a, b, c]) == Step(env, 0, Step(env, 0, Step(env, 0, EMPTY, a), b), c)
  {
    assert [a, b, c][..2] == [a, b];
    RunTwo(env, a, b);
  }

  /** hash | lineNr << 32, without bit 63. */
  lemma IdIs(env: Env, file: Name, line: u32)
    ensures LineId(env, file, line) == env.hash(file) + line % 0x8000_0000 * 0x1_0000_0000
  {
    Composed(env.hash(file), line);
  }

  lemma Composed(hash: u32, line: u32)
    ensures (hash + line * U32) % TOP == hash + line % 0x8000_0000 * 0x1_0000_0000
  {
    var high := line / 0x8000_0000;
    assert line == high * 0x8000_0000 + line % 0x8000_0000;
    assert hash + line * U32 == high * TOP + (hash + line % 0x8000_0000 * U32);
  }

  lemma PartsAreUnique(a: u32, b: u32, n: nat, m: nat)
    ensures a + n * 0x1_0000_0000 == b + m * 0x1_0000_0000 <==> a == b && n == m
  {
  }

  /** Two line ids are equal if and only if the hashes are and the lines agree but for bit 31. */
  lemma IdsAgreeIff(env: Env, one: Name, a: u32, other: Name, b: u32)
    ensures LineId(env, one, a) == LineId(env, other, b)
            <==> env.hash(one) == env.hash(other) && a % 0x8000_0000 == b % 0x8000_0000
  {
    IdIs(env, one, a);
    IdIs(env, other, b);
    PartsAreUnique(env.hash(one), env.hash(other), a % 0x8000_0000, b % 0x8000_0000);
  }

  /** The reporter has announced this line of an accepted file under this address. */
  ghost predicate Told(env: Env, events: seq<Event>, file: Name, line: nat, addr: nat) {
    && env.accepts(file) && env.exist(file)
    && exists e :: e in events && e.OnLine? && e.file == file && e.line == line && e.addr == addr
  }

  /** Some address of the line is hit. */
  ghost predicate Executed(s: State, file: Name, line: nat) {
    exists a :: HasLine(s, file, line, a) && IsHit(s, file, a)
  }

  /** No two lines under one address, and no two files of one hash; lines are the same here if they differ in
      bit 31 only. */
  ghost predicate Separate(env: Env, events: seq<Event>) {
    && (forall f, n: u32, g, m: u32, a :: Told(env, events, f, n, a) && Told(env, events, g, m, a) ==>
          f == g && n % 0x8000_0000 == m % 0x8000_0000)
    && (forall f, n, a, g, m, b :: Told(env, events, f, n, a) && Told(env, events, g, m, b) && env.hash(f) == env.hash(g) ==> f == g)
  }

  lemma SeparateIsClean(env: Env, events: seq<Event>)
    requires Separate(env, events) && forall e :: e in events ==> !e.OnFile?
    ensures Clean(env, events)
  {
    forall e, f | e in events && f in events && Taken(env, e) && Taken(env, f)
      ensures e.addr == f.addr ==> LineId(env, e.file, e.line) == LineId(env, f.file, f.line)
      ensures LineId(env, e.file, e.line) == LineId(env, f.file, f.line) ==> e.file == f.file
    {
      IdsAgreeIff(env, e.file, e.line, f.file, f.line);
      assert Told(env, events, e.file, e.line, e.addr) && Told(env, events, f.file, f.line, f.addr);
    }
  }

  /** A line is executed exactly if it was announced and there is a hit at an address of it, or of a line of its file
      that differs from it in bit 31 only: no hit makes any other line executed. */
  lemma HitsMakeTheirLines(env: Env, events: seq<Event>, file: Name, line: u32)
    requires Separate(env, events) && forall e :: e in events ==> !e.OnFile?
    ensures Executed(Run(env, 0, events), file, line)
            <==> && (exists a :: Told(env, events, file, line, a))
                 && exists m: u32, a :: m % 0x8000_0000 == line % 0x8000_0000 && Told(env, events, file, m, a) && HitAt(events, a)
  {
    SeparateIsClean(env, events);
    MergeIsUnion(env, events);
    var s := Run(env, 0, events);
    if Executed(s, file, line) {
      var id :| HasLine(s, file, line, id) && IsHit(s, file, id);
      var e :| e in events && Names(env, e, file, line, id);
      assert Told(env, events, file, line, e.addr);
      var g, h :| g in events && h in events && LiesAt(env, g, file, id) && h.OnAddress? && h.addr == g.addr;
      IdsAgreeIff(env, file, line, file, g.line);
      assert Told(env, events, file, g.line, g.addr) && HitAt(events, g.addr);
    }
    if (exists a :: Told(env, events, file, line, a))
       && exists m: u32, a :: m % 0x8000_0000 == line % 0x8000_0000 && Told(env, events, file, m, a) && HitAt(events, a) {
      var m: u32, a :| m % 0x8000_0000 == line % 0x8000_0000 && Told(env, events, file, m, a) && HitAt(events, a);
      ToldAndHit(env, events, file, line, m, a);
    }
  }

  lemma ToldAndHit(env: Env, events: seq<Event>, file: Name, line: u32, m: u32, a: nat)
    requires m % 0x8000_0000 == line % 0x8000_0000 && Told(env, events, file, m, a) && HitAt(events, a)
    requires (exists b :: Told(env, events, file, line, b)) && IsUnion(env, events, Run(env, 0, events))
    ensures Executed(Run(env, 0, events), file, line)
  {
    var b :| Told(env, events, file, line, b);
    var e :| e in events && e.OnLine? && e.file == file && e.line == line && e.addr == b;
    var g :| g in events && g.OnLine? && g.file == file && g.line == m && g.addr == a;
    var h :| h in events && h.OnAddress? && h.addr == a;
    var id := LineId(env, file, line);
    IdsAgreeIff(env, file, line, file, m);
    assert Names(env, e, file, line, id) && LiesAt(env, g, file, id);
    assert Known(env, events, file, line, id) && HitBy(env, events, file, id);
    assert HasLine(Run(env, 0, events), file, line, id) && IsHit(Run(env, 0, events), file, id);
  }

  /** Two files of the same contents: a line of both is announced under one address, and a hit goes to whichever
      claimed it last. */
  lemma SharedAddressDependsOnOrder(env: Env, one: Name, other: Name, line: u32, addr: nat)
    requires env.exist(one) && env.accepts(one) && env.exist(other) && env.accepts(other)
    requires env.hash(one) != env.hash(other)
    ensures var a, b, hit := OnLine(one, line, addr), OnLine(other, line, addr), OnAddress(addr, 1);
            && IsHit(Run(env, 0, [a, hit, b]), one, LineId(env, one, line))
            && !IsHit(Run(env, 0, [a, b, hit]), one, LineId(env, one, line))
  {
    IdsAgreeIff(env, one, line, other, line);
    HitBetween(env, one, other, line, addr);
    HitAfter(env, one, other, line, addr);
  }

  lemma HitBetween(env: Env, one: Name, other: Name, line: u32, addr: nat)
    requires env.exist(one) && env.accepts(one)
    ensures IsHit(Run(env, 0, [OnLine(one, line, addr), OnAddress(addr, 1), OnLine(other, line, addr)]), one, LineId(env, one, line))
  {
    var a, b, hit := OnLine(one, line, addr), OnLine(other, line, addr), OnAddress(addr, 1);
    RunThree(env, a, hit, b);
    var s := Step(env, 0, Step(env, 0, EMPTY, a), hit);
    LineEffect(env, EMPTY, a, one, line, LineId(env, one, line));
    if Taken(env, b) {
      LineEffect(env, s, b, one, line, LineId(env, one, line));
    }
  }

  lemma HitAfter(env: Env, one: Name, other: Name, line: u32, addr: nat)
    requires env.exist(one) && env.accepts(one) && env.exist(other) && env.accepts(other)
    requires LineId(env, one, line) != LineId(env, other, line)
    ensures !IsHit(Run(env, 0, [OnLine(one, line, addr), OnLine(other, line, addr), OnAddress(addr, 1)]), one, LineId(env, one, line))
  {
    var a, b, hit := OnLine(one, line, addr), OnLine(other, line, addr), OnAddress(addr, 1);
    RunThree(env, a, b, hit);
    var s := Step(env, 0, EMPTY, a);
    LineEffect(env, EMPTY, a, one, line, LineId(env, one, line));
    LineEffect(env, s, b, one, line, LineId(env, one, line));
  }

  // ----- merging what was merged -----

  function CoverageOf(name: Name, timestamp: nat, f: FileState): Coverage {
    Coverage(name, timestamp, f.checksum, f.lines, set a | a in f.addrHits && f.addrHits[a] != 0)
  }

  /** e is what a later run reads of a file this run has written. */
  ghost predicate IsOutput(s: State, e: Event) {
    && e.OnFile? && e.file in s.files && e.checksum == s.files[e.file].checksum
    && forall r :: r in e.records <==> Says(CoverageOf(e.file, 0, s.files[e.file]), r)
  }

  /** A file written and read back as its bytes. */
  lemma ReadBackIsOutput(little: bool, m: seq<byte>, s: State, name: Name, timestamp: nat, rows: seq<Row>, tableAt: nat)
    requires name in s.files && NulFree(name)
    requires var file := CoverageOf(name, timestamp, s.files[name]);
             IsImage(little, m, file, rows, tableAt) && Storable(file, rows) && Enumerates(rows, file.lines)
    ensures |m| >= ENTRIES && Inside(ReadHeader(little, m), |m|)
    ensures var d := Decode(little, m);
            Ranged(d) && IsOutput(s, OnFile(d.filename, d.h.checksum, Records(d, d.h.n)))
  {
    var file := CoverageOf(name, timestamp, s.files[name]);
    RoundTrip(little, m, file, rows, tableAt);
    forall r ensures Says(file, r) <==> Says(CoverageOf(name, 0, s.files[name]), r) {
    }
  }

  /** Bit 63 is cleared wherever an address enters a file, so the files of every session keep clear of the hit
      bit, and no file read back says anything else than the file written. */
  ghost predicate FilesBelow(s: State) {
    forall f, line: nat, a: nat :: HasLine(s, f, line, a) ==> a < TOP
  }

  lemma {:induction false} NotedBelow(width: nat, f: FileState, records: seq<Record>)
    requires forall line: nat, a: nat :: Lists(f, line, a) ==> a < TOP
    ensures forall line: nat, a: nat :: Lists(NotedAll(width, f, records), line, a) ==> a < TOP
  {
    if records != [] {
      var last := records[|records| - 1];
      var g := NotedAll(width, f, records[..|records| - 1]);
      NotedBelow(width, f, records[..|records| - 1]);
      forall line: nat, a: nat | Lists(Noted(width, g, last), line, a) ensures a < TOP {
        assert Lists(g, line, a) || a == last.addr;
      }
    }
  }

  lemma {:induction false} SessionsStayBelow(env: Env, width: nat, events: seq<Event>)
    ensures FilesBelow(Run(env, width, events))
  {
    if events != [] {
      var s, e := Run(env, width, events[..|events| - 1]), events[|events| - 1];
      SessionsStayBelow(env, width, events[..|events| - 1]);
      match e
      case OnLine(file, line, addr) => LineBelow(env, width, s, file, line, addr);
      case OnAddress(addr, hits) => HitBelow(width, s, addr, hits);
      case OnFile(file, checksum, records) =>
        var f := FileOf(env, s, env.mangle(file));
        assert forall line: nat, a: nat :: Lists(f, line, a) ==> HasLine(s, env.mangle(file), line, a);
        NotedBelow(width, f, records);
        FileBelow(s, env.mangle(file), NotedAll(width, f, records));
    }
  }

  lemma FileBelow(s: State, name: Name, f: FileState)
    requires FilesBelow(s) && forall line: nat, a: nat :: Lists(f, line, a) ==> a < TOP
    ensures FilesBelow(s.(files := s.files[name := f]))
  {
    var t := s.(files := s.files[name := f]);
    forall g, line: nat, a: nat | HasLine(t, g, line, a) ensures a < TOP {
      assert g != name ==> HasLine(s, g, line, a);
    }
  }

  lemma HitBelow(width: nat, s: State, addr: nat, hits: positive)
    requires FilesBelow(s)
    ensures FilesBelow(Hit(width, s, addr, hits))
  {
    forall g, line: nat, a: nat | HasLine(Hit(width, s, addr, hits), g, line, a) ensures a < TOP {
      assert HasLine(s, g, line, a);
    }
  }

  lemma LineBelow(env: Env, width: nat, s: State, file: Name, line: u32, addr: nat)
    requires FilesBelow(s)
    ensures FilesBelow(Line(env, width, s, file, line, addr))
  {
    var t := Announced(env, s, file, line, addr);
    forall g, l: nat, a: nat | HasLine(t, g, l, a) ensures a < TOP {
      assert HasLine(s, g, l, a) || a == LineId(env, file, line);
    }
    if addr in t.pending {
      HitBelow(width, t, addr, t.pending[addr]);
      var u := Hit(width, t, addr, t.pending[addr]);
      forall g, l: nat, a: nat | HasLine(u.(pending := u.pending - {addr}), g, l, a) ensures a < TOP {
        assert HasLine(u, g, l, a);
      }
    }
  }

  /** Whatever a session has seen, a file it writes says exactly its lines' addresses, hit if and only if hit. */
  lemma WrittenFilesSayWhatTheyAre(env: Env, width: nat, events: seq<Event>, name: Name, timestamp: nat, r: Record)
    requires name in Run(env, width, events).files
    ensures var s := Run(env, width, events);
            Says(CoverageOf(name, timestamp, s.files[name]), r)
            <==> HasLine(s, name, r.line, r.addr) && r.hit == IsHit(s, name, r.addr)
  {
    SessionsStayBelow(env, width, events);
    BelowSays(Run(env, width, events), name, timestamp, r);
  }

  lemma BelowSays(s: State, name: Name, timestamp: nat, r: Record)
    requires FilesBelow(s) && name in s.files
    ensures Says(CoverageOf(name, timestamp, s.files[name]), r)
            <==> HasLine(s, name, r.line, r.addr) && r.hit == IsHit(s, name, r.addr)
  {
    var file := CoverageOf(name, timestamp, s.files[name]);
    forall line: nat, a: nat | line in file.lines && a in file.lines[line] ensures a < TOP {
      assert HasLine(s, name, line, a);
    }
    SaysWhatItIs(file, r);
  }

  lemma KnownBelow(env: Env, events: seq<Event>, file: Name, line: nat, addr: nat)
    requires Known(env, events, file, line, addr)
    ensures addr < TOP
  {
    var e :| e in events && Names(env, e, file, line, addr);
  }

  lemma HitIsKnown(env: Env, events: seq<Event>, file: Name, addr: nat)
    requires HitBy(env, events, file, addr)
    ensures exists line :: Known(env, events, file, line, addr)
  {
    if e :| e in events && ReadHit(env, e, file, addr) {
      var r :| r in e.records && r.hit && r.addr == addr;
      assert Names(env, e, file, r.line, addr);
      assert Known(env, events, file, r.line, addr);
    } else {
      var e, h :| e in events && h in events && LiesAt(env, e, file, addr) && h.OnAddress? && h.addr == e.addr;
      assert Names(env, e, file, e.line, addr);
      assert Known(env, events, file, e.line, addr);
    }
  }

  lemma OutputSays(env: Env, part: seq<Event>, s: State, e: Event, r: Record)
    requires IsUnion(env, part, s) && IsOutput(s, e)
    ensures r in e.records <==> HasLine(s, e.file, r.line, r.addr) && r.hit == IsHit(s, e.file, r.addr)
  {
    forall f, line: nat, a: nat | HasLine(s, f, line, a) ensures a < TOP {
      KnownBelow(env, part, f, line, a);
    }
    BelowSays(s, e.file, 0, r);
  }

  /** The files of s, each written and read again. */
  ghost predicate AreOutputs(env: Env, s: State, outs: seq<Event>) {
    && (forall e :: e in outs ==> IsOutput(s, e))
    && (forall f :: f in s.files ==> exists e :: e in outs && e.OnFile? && e.file == f)
    && (forall f :: f in s.files ==> env.mangle(f) == f && env.exist(f) && s.files[f].checksum == env.checksum(f))
  }

  lemma OutputsKnow(env: Env, part: seq<Event>, s: State, outs: seq<Event>, file: Name, line: nat, addr: nat)
    requires IsUnion(env, part, s) && AreOutputs(env, s, outs)
    ensures Known(env, outs, file, line, addr) <==> Known(env, part, file, line, addr)
  {
    if e :| e in outs && Names(env, e, file, line, addr) {
      var r :| r in e.records && r.line == line && r.addr == addr;
      OutputSays(env, part, s, e, r);
    }
    if Known(env, part, file, line, addr) {
      assert HasLine(s, file, line, addr);
      KnownBelow(env, part, file, line, addr);
      var e :| e in outs && e.OnFile? && e.file == file;
      var r := Record(line, addr, IsHit(s, file, addr));
      OutputSays(env, part, s, e, r);
      assert Names(env, e, file, line, addr);
    }
  }

  lemma OutputsHit(env: Env, part: seq<Event>, s: State, outs: seq<Event>, file: Name, addr: nat)
    requires IsUnion(env, part, s) && AreOutputs(env, s, outs)
    ensures HitBy(env, outs, file, addr) <==> HitBy(env, part, file, addr)
  {
    if e :| e in outs && ReadHit(env, e, file, addr) {
      var r :| r in e.records && r.hit && r.addr == addr;
      OutputSays(env, part, s, e, r);
    }
    if HitBy(env, part, file, addr) {
      HitIsKnown(env, part, file, addr);
      var line :| Known(env, part, file, line, addr);
      KnownBelow(env, part, file, line, addr);
      assert HasLine(s, file, line, addr) && IsHit(s, file, addr);
      var e :| e in outs && e.OnFile? && e.file == file;
      OutputSays(env, part, s, e, Record(line, addr, true));
      assert ReadHit(env, e, file, addr);
    }
  }

  lemma KnownInBoth(env: Env, a: seq<Event>, b: seq<Event>, file: Name, line: nat, addr: nat)
    ensures Known(env, a + b, file, line, addr) <==> Known(env, a, file, line, addr) || Known(env, b, file, line, addr)
  {
    assert forall e :: e in a + b <==> e in a || e in b;
  }

  lemma HitInBoth(env: Env, a: seq<Event>, b: seq<Event>, file: Name, addr: nat)
    requires forall e :: e in b ==> e.OnFile?
    ensures HitBy(env, a + b, file, addr) <==> HitBy(env, a, file, addr) || HitBy(env, b, file, addr)
  {
    assert forall e :: e in a + b <==> e in a || e in b;
  }

  /** Merging a run's output with more metadata knows and has hit exactly what merging all the parts does. */
  lemma MergingMergedIsMergingAll(env: Env, part: seq<Event>, s: State, outs: seq<Event>, rest: seq<Event>,
                                  file: Name, line: nat, addr: nat)
    requires Clean(env, part + rest) && IsUnion(env, part, s) && AreOutputs(env, s, outs)
    requires forall e :: e in rest ==> e.OnFile?
    ensures var merged, all := Run(env, 0, outs + rest), Run(env, 0, part + rest);
            && (HasLine(merged, file, line, addr) <==> HasLine(all, file, line, addr))
            && (IsHit(merged, file, addr) <==> IsHit(all, file, addr))
  {
    CleanOutputs(env, part, s, outs, rest);
    MergeIsUnion(env, part + rest);
    MergeIsUnion(env, outs + rest);
    SameUnions(env, part, s, outs, rest, file, line, addr);
  }

  lemma SameUnions(env: Env, part: seq<Event>, s: State, outs: seq<Event>, rest: seq<Event>, file: Name, line: nat, addr: nat)
    requires IsUnion(env, part, s) && AreOutputs(env, s, outs) && forall e :: e in rest ==> e.OnFile?
    ensures Known(env, outs + rest, file, line, addr) <==> Known(env, part + rest, file, line, addr)
    ensures HitBy(env, outs + rest, file, addr) <==> HitBy(env, part + rest, file, addr)
  {
    KnownInBoth(env, part, rest, file, line, addr);
    KnownInBoth(env, outs, rest, file, line, addr);
    OutputsKnow(env, part, s, outs, file, line, addr);
    HitInBoth(env, part, rest, file, addr);
    HitInBoth(env, outs, rest, file, addr);
    OutputsHit(env, part, s, outs, file, addr);
  }

  lemma CleanOutputs(env: Env, part: seq<Event>, s: State, outs: seq<Event>, rest: seq<Event>)
    requires Clean(env, part + rest) && AreOutputs(env, s, outs) && forall e :: e in rest ==> e.OnFile?
    ensures Clean(env, outs + rest)
  {
    assert forall e :: e in outs + rest <==> e in outs || e in rest;
    assert forall e :: e in rest ==> e in part + rest;
    assert forall e :: e in outs + rest ==> e.OnFile?;
  }

  // ----- the object -----

  class MergeParser {
    const env: Env
    var files: map<Name, FileState>
    var filesByAddress: map<nat, Name>
    var fileLineByAddress: map<nat, nat>
    var pendingHits: map<nat, positive>

    ghost function View(): State
      reads this
    {
      State(files, filesByAddress, fileLineByAddress, pendingHits)
    }

    constructor (e: Env)
      ensures env == e && View() == EMPTY == Run(e, U32, [])
    {
      env := e;
      files, filesByAddress, fileLineByAddress, pendingHits := map[], map[], map[], map[];
    }

    method OnAddress(addr: nat, hits: positive)
      modifies this
      ensures View() == Step(env, U32, old(View()), Event.OnAddress(addr, hits))
    {
      if addr !in fileLineByAddress {
        pendingHits := pendingHits[addr := hits];
        return;
      }
      var id := fileLineByAddress[addr];
      if id !in filesByAddress || filesByAddress[id] !in files {
        return;
      }
      var file := filesByAddress[id];
      files := files[file := RegisterHits(U32, files[file], id, hits)];
    }

    method OnLineReporter(filename: Name, lineNr: u32, addr: nat)
      modifies this
      ensures View() == Step(env, U32, old(View()), OnLine(filename, lineNr, addr))
    {
      if !env.accepts(filename) {
        return;
      }
      if !env.exist(filename) {
        return;
      }
      var file := FileOf(env, State(files, filesByAddress, fileLineByAddress, pendingHits), filename);
      var addrHash := LineId(env, filename, lineNr);
      fileLineByAddress := fileLineByAddress[addr := addrHash];
      files := files[filename := AddLine(file.(local := true), lineNr, addrHash)];
      filesByAddress := filesByAddress[addrHash := filename];
      if addr in pendingHits {
        OnAddress(addr, pendingHits[addr]);
        pendingHits := pendingHits - {addr};
      }
    }

    /** The two loops over the rows of an unmarshalled file and their addresses. */
    method ParseFileData(d: Decoded)
      requires Ranged(d)
      modifies this
      ensures View() == Step(env, U32, old(View()), OnFile(d.filename, d.h.checksum, Records(d, d.h.n)))
    {
      var filename := env.mangle(d.filename);
      if !env.exist(filename) {
        return;
      }
      if filename in files && files[filename].checksum != d.h.checksum {
        return;
      }
      var file := FileOf(env, State(files, filesByAddress, fileLineByAddress, pendingHits), filename);
      file := NoteRows(file, d);
      files := files[filename := file];
    }

    method NoteRows(f: FileState, d: Decoded) returns (file: FileState)
      requires Ranged(d)
      ensures file == NotedAll(U32, f, Records(d, d.h.n))
    {
      file := f;
      for i := 0 to d.h.n
        invariant file == NotedAll(U32, f, Records(d, i))
      {
        file := NoteNext(file, d, i, f);
      }
    }

    method NoteNext(g: FileState, d: Decoded, i: nat, ghost f: FileState) returns (file: FileState)
      requires Ranged(d) && i < d.h.n && g == NotedAll(U32, f, Records(d, i))
      ensures file == NotedAll(U32, f, Records(d, i + 1))
    {
      var first := d.entries[3 * i + 1];
      file := NoteRow(g, d.entries[3 * i], d.table[first..first + d.entries[3 * i + 2]], f, Records(d, i));
      assert Records(d, i + 1) == Records(d, i) + RowSlots(d, i);
    }

    method NoteRow(f: FileState, line: nat, slots: seq<nat>, ghost start: FileState, ghost before: seq<Record>)
      returns (file: FileState)
      requires f == NotedAll(U32, start, before)
      ensures file == NotedAll(U32, start, before + Slots(line, slots))
    {
      file := f;
      ghost var all := Slots(line, slots);
      assert before + all[..0] == before;
      for ia := 0 to |slots|
        invariant file == NotedAll(U32, start, before + all[..ia])
      {
        var addr := slots[ia];
        var hit := addr >= TOP;
        addr := addr % TOP;
        assert (before + all[..ia + 1])[..|before| + ia] == before + all[..ia];
        file := AddLine(file, line, addr);
        if hit {
          file := RegisterHits(U32, file, addr, 1);
        }
      }
      assert all[..|slots|] == all;
    }
  }
}
