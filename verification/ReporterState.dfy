/** The reporter's cross-linked indexes: lines by file, by address and by id, hits waiting for lines not
    yet seen, and the order of first hits. Lines live in an arena; an index into it stands for a Line *. */
module ReporterState {
  import opened Bytes

  type Name = seq<byte>

  /** An address of a line and its counter, the bit pattern of an int. */
  datatype Count = Count(addr: nat, hits: u32)

  datatype Line = Line(id: nat, addrs: seq<Count>, order: nat, unreachable: bool)

  datatype Slot = Null | At(line: nat)

  datatype File = File(hash: nat, slots: seq<Slot>, nrLines: nat)

  datatype Pending = Pending(index: nat, hits: nat)

  /** One row of the coverage database. */
  datatype Entry = Entry(addr: nat, id: nat, index: nat, hits: nat)

  datatype State = State(lines: seq<Line>, files: map<Name, File>, byAddr: map<nat, seq<nat>>, byId: map<nat, nat>,
                         pending: map<nat, seq<Pending>>, order: nat)

  /** Which files are reported, what identifies them, and whether an address counts once or every time. */
  datatype Env = Env(accepts: Name -> bool, hash: Name -> nat, singleShot: bool)

  /** `marks` says of each of the file's source lines whether the line filter lets it count. */
  datatype Event = OnLine(file: Name, nr: u32, addr: nat, marks: seq<bool>)
                 | OnAddressHit(addr: nat, hits: nat)
                 | ReadDatabase(entries: seq<Entry>)

  // ----- one line -----

  function LineId(hash: nat, nr: nat): nat {
    hash % U32 * U32 + nr % U32
  }

  /** The first place that holds the address, or the length of the list. */
  function Find(addrs: seq<Count>, addr: nat): (i: nat)
    ensures i <= |addrs|
    ensures i < |addrs| ==> addrs[i].addr == addr
    ensures forall j :: 0 <= j < i ==> addrs[j].addr != addr
  {
    if addrs == [] || addrs[0].addr == addr then 0 else 1 + Find(addrs[1..], addr)
  }

  predicate Holds(l: Line, addr: nat) {
    Find(l.addrs, addr) < |l.addrs|
  }

  function AddAddress(l: Line, addr: nat): Line {
    if Holds(l, addr) then l else l.(addrs := l.addrs + [Count(addr, 0)])
  }

  function RegisterHit(l: Line, addr: nat, hits: nat, singleShot: bool): Line {
    var m := AddAddress(l, addr);
    var i := Find(l.addrs, addr);
    m.(addrs := m.addrs[i := Count(addr, if singleShot then 1 else (m.addrs[i].hits + hits) % U32)])
  }

  /** Without regard to singleShot; an index the line does not have is ignored. */
  function RegisterHitIndex(l: Line, index: nat, hits: nat): Line {
    if index >= |l.addrs| then l
    else l.(addrs := l.addrs[index := l.addrs[index].(hits := (l.addrs[index].hits + hits) % U32)])
  }

  function Sum(addrs: seq<Count>): nat {
    if addrs == [] then 0 else Sum(addrs[..|addrs| - 1]) + addrs[|addrs| - 1].hits
  }

  function Hits(l: Line): u32 {
    Sum(l.addrs) % U32
  }

  // ----- files -----

  function WithSlot(f: File, nr: nat, line: nat, unreachable: bool): File {
    var slots := if nr >= |f.slots| then f.slots + seq(nr + 1 - |f.slots|, _ => Null) else f.slots;
    f.(slots := slots[nr := At(line)], nrLines := f.nrLines + if unreachable then 0 else 1)
  }

  function GetLine(f: File, nr: nat): Slot {
    if nr >= |f.slots| then Null else f.slots[nr]
  }

  /** new Line and File::addLine. */
  function NewLine(s: State, file: Name, nr: nat, unreachable: bool): State
    requires file in s.files
  {
    var f := s.files[file];
    s.(lines := s.lines + [Line(LineId(f.hash, nr), [], 0, unreachable)],
       files := s.files[file := WithSlot(f, nr, |s.lines|, unreachable)])
  }

  /** The lines 1..n of a new file that the line filter rejects. */
  function Unreachables(s: State, file: Name, marks: seq<bool>): (t: State)
    requires file in s.files
    ensures t.files.Keys == s.files.Keys
  {
    if marks == [] then s
    else
      var t := Unreachables(s, file, marks[..|marks| - 1]);
      if marks[|marks| - 1] then t else NewLine(t, file, |marks|, true)
  }

  // ----- the events -----

  /** The file and the line exist. */
  function Ensured(env: Env, s: State, file: Name, nr: nat, marks: seq<bool>): (t: State)
    ensures file in t.files
  {
    var t := if file in s.files then s
             else Unreachables(s.(files := s.files[file := File(env.hash(file), [], 0)]), file, marks);
    if GetLine(t.files[file], nr).Null? then NewLine(t, file, nr, false) else t
  }

  function WithLine(s: State, i: nat, l: Line): State
    requires i < |s.lines|
  {
    s.(lines := s.lines[i := l])
  }

  predicate Known(s: State, addr: nat, id: nat) {
    addr in s.byAddr && exists j :: 0 <= j < |s.byAddr[addr]| && s.byAddr[addr][j] < |s.lines| && s.lines[s.byAddr[addr][j]].id == id
  }

  /** The line is found under the address and under its id from now on. */
  function Indexed(s: State, i: nat, addr: nat): State
    requires i < |s.lines|
  {
    var id := s.lines[i].id;
    var at := if addr in s.byAddr then s.byAddr[addr] else [];
    s.(lines := s.lines[i := AddAddress(s.lines[i], addr)],
       byAddr := s.byAddr[addr := if Known(s, addr, id) then at else at + [i]], byId := s.byId[id := i])
  }

  function Delivered(l: Line, hits: seq<Pending>): Line {
    if hits == [] then l
    else RegisterHitIndex(Delivered(l, hits[..|hits| - 1]), hits[|hits| - 1].index, hits[|hits| - 1].hits)
  }

  /** Hits that were waiting for the line's id. */
  function Replayed(s: State, i: nat): State
    requires i < |s.lines|
  {
    var id := s.lines[i].id;
    if id !in s.pending then s
    else WithLine(s, i, Delivered(s.lines[i], s.pending[id])).(pending := s.pending[id := []])
  }

  function Announced(env: Env, s: State, file: Name, nr: nat, addr: nat, marks: seq<bool>): State {
    if !env.accepts(file) then s
    else
      var t := Ensured(env, s, file, nr, marks);
      var slot := GetLine(t.files[file], nr);
      if slot.Null? || slot.line >= |t.lines| then t else Replayed(Indexed(t, slot.line, addr), slot.line)
  }

  /** A line hit for the first time gets the next order. */
  function Numbered(s: State, i: nat, l: Line): State
    requires i < |s.lines|
  {
    if l.order != 0 then WithLine(s, i, l) else WithLine(s, i, l.(order := s.order)).(order := s.order + 1)
  }

  function HitLine(env: Env, s: State, i: nat, addr: nat, hits: nat): State {
    if i >= |s.lines| then s else Numbered(s, i, RegisterHit(s.lines[i], addr, hits, env.singleShot))
  }

  function HitLines(env: Env, s: State, at: seq<nat>, addr: nat, hits: nat): State {
    if at == [] then s else HitLine(env, HitLines(env, s, at[..|at| - 1], addr, hits), at[|at| - 1], addr, hits)
  }

  function AddressHit(env: Env, s: State, addr: nat, hits: nat): State {
    if addr !in s.byAddr then s else HitLines(env, s, s.byAddr[addr], addr, hits)
  }

  /** One row of the database: by address, else by id, else it waits. */
  function Restored(env: Env, s: State, e: Entry): State {
    if e.hits == 0 then s
    else if e.addr in s.byAddr then AddressHit(env, s, e.addr, e.hits)
    else if e.id !in s.byId then
      s.(pending := s.pending[e.id := (if e.id in s.pending then s.pending[e.id] else []) + [Pending(e.index, e.hits)]])
    else if s.byId[e.id] >= |s.lines| then s
    else WithLine(s, s.byId[e.id], RegisterHitIndex(s.lines[s.byId[e.id]], e.index, e.hits))
  }

  function RestoredAll(env: Env, s: State, entries: seq<Entry>): State {
    if entries == [] then s else Restored(env, RestoredAll(env, s, entries[..|entries| - 1]), entries[|entries| - 1])
  }

  function Step(env: Env, s: State, e: Event): State {
    match e
    case OnLine(file, nr, addr, marks) => Announced(env, s, file, nr, addr, marks)
    case OnAddressHit(addr, hits) => AddressHit(env, s, addr, hits)
    case ReadDatabase(entries) => RestoredAll(env, s, entries)
  }

  const EMPTY: State := State([], map[], map[], map[], map[], 1)

  function Run(env: Env, events: seq<Event>): State {
    if events == [] then EMPTY else Step(env, Run(env, events[..|events| - 1]), events[|events| - 1])
  }
}
