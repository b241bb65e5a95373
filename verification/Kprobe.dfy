/** The kernel side: probes and the modules they are in. */
module Kprobe {
  // Probes are deferred until their module is loaded, pending until they trigger, hit until they are read out.
  // Each operation happens under the lock and is one step.

  const U64: nat := 0x1_0000_0000_0000_0000
  /** The size of the table of module names. */
  const NAMES: nat := 32

  /** NULL stands for the kernel itself. */
  datatype Module = Kernel | Named(name: string)

  /** struct kprobe_coverage_entry; the list it is on holds its id. */
  datatype Entry = Entry(nameIndex: int, base: nat, addr: nat)

  datatype Probe = Probe(owner: Module, where: nat)

  /** One line of the readout. */
  datatype Shown = Shown(id: nat, owner: Module, offset: nat)

  /** `added`, `shown` and `next` are history: what was asked for and what was read. `loaded` says where
      modules are. */
  datatype State = State(entries: map<nat, Entry>, deferred: seq<nat>, pending: seq<nat>, hit: seq<nat>,
                         names: seq<Module>, loaded: map<string, nat>,
                         added: map<nat, Probe>, shown: seq<Shown>, next: nat)

  /** `accepts` is register_kprobe: whether a probe can be placed at an address. */
  datatype Event = Add(owner: Module, where: nat, accepts: nat -> bool)
                 | Trigger(id: nat)
                 | Read
                 | Clear
                 | Coming(name: string, base: nat, accepts: nat -> bool)
                 | Going(name: string)

  // ----- lists -----

  function Without(list: seq<nat>, id: nat): seq<nat> {
    if list == [] then []
    else if list[0] == id then Without(list[1..], id) else [list[0]] + Without(list[1..], id)
  }

  ghost predicate NoRepeat(list: seq<nat>) {
    forall i, j :: 0 <= i < j < |list| ==> list[i] != list[j]
  }

  lemma {:induction false} WithoutHolds(list: seq<nat>, id: nat)
    ensures forall x :: x in Without(list, id) <==> x in list && x != id
  {
    if list != [] {
      WithoutHolds(list[1..], id);
      assert forall x :: x in list <==> x == list[0] || x in list[1..];
    }
  }

  lemma {:induction false} WithoutNoRepeat(list: seq<nat>, id: nat)
    requires NoRepeat(list)
    ensures NoRepeat(Without(list, id))
  {
    if list != [] {
      WithoutNoRepeat(list[1..], id);
      WithoutHolds(list[1..], id);
      assert list[0] !in list[1..];
    }
  }

  // ----- the table of names -----

  /** ownername_to_index from place i on. */
  function IndexFrom(names: seq<Module>, m: Module, i: nat): int
    decreases |names| - i
  {
    if i >= |names| then -1 else if names[i] == m then i else IndexFrom(names, m, i + 1)
  }

  function NameIndex(names: seq<Module>, m: Module): int {
    if m.Kernel? then 0 else IndexFrom(names, m, 1)
  }

  /** kpc_allocate_ownername_index: -1 if the name is new and the table is full. */
  function Allocated(names: seq<Module>, m: Module): (r: (int, seq<Module>)) {
    var index := NameIndex(names, m);
    if index < 0 && |names| < NAMES then (|names|, names + [m]) else (index, names)
  }

  ghost predicate NamesOk(names: seq<Module>) {
    && 1 <= |names| <= NAMES && names[0] == Kernel
    && (forall i :: 1 <= i < |names| ==> names[i].Named?)
    && (forall i, j :: 0 <= i < j < |names| ==> names[i] != names[j])
  }

  lemma {:induction false} IndexFinds(names: seq<Module>, m: Module, i: nat)
    requires i <= |names|
    ensures var k := IndexFrom(names, m, i);
            if k == -1 then forall j :: i <= j < |names| ==> names[j] != m else i <= k < |names| && names[k] == m
    decreases |names| - i
  {
    if i < |names| && names[i] != m {
      IndexFinds(names, m, i + 1);
    }
  }

  lemma AllocationKeeps(names: seq<Module>, m: Module)
    requires NamesOk(names) && (NameIndex(names, m) >= 0 || |names| < NAMES)
    ensures var (index, more) := Allocated(names, m);
            NamesOk(more) && names <= more && 0 <= index < |more| && more[index] == m
  {
    IndexFinds(names, m, 1);
  }

  /** An index in the table stands for one module only. */
  lemma IndexIsModule(names: seq<Module>, m: Module, k: nat)
    requires NamesOk(names) && k < |names| && m.Named?
    ensures NameIndex(names, m) == k <==> names[k] == m
  {
    IndexFinds(names, m, 1);
  }

  // ----- the operations -----

  function NewEntry(s: State, index: int, base: nat, where: nat): Entry {
    Entry(index, base, (base + where) % U64)
  }

  function Base(loaded: map<string, nat>, m: Module): nat {
    if m.Named? && m.name in loaded then loaded[m.name] else 0
  }

  function Noted(s: State, m: Module, where: nat, names: seq<Module>): State {
    s.(names := names, added := s.added[s.next := Probe(m, where)], next := s.next + 1)
  }

  function AddProbe(s: State, m: Module, where: nat, accepts: nat -> bool): State {
    var (index, names) := Allocated(s.names, m);
    var id, e := s.next, NewEntry(s, index, Base(s.loaded, m), where);
    var t := Noted(s, m, where, names);
    if m.Named? && m.name !in s.loaded then t.(entries := t.entries[id := e], deferred := [id] + t.deferred)
    else if accepts(e.addr) then t.(entries := t.entries[id := e], pending := [id] + t.pending)
    else t
  }

  /** list_del takes the entry from whatever list it is on. */
  function ProbeWork(s: State, id: nat): State {
    if id !in s.entries then s
    else s.(deferred := Without(s.deferred, id), pending := Without(s.pending, id), hit := Without(s.hit, id) + [id])
  }

  /** kpc_unlink_next and kpc_seq_show. An index that is not in the table is not defined behaviour. */
  function ReadNext(s: State): State {
    if s.hit == [] || s.hit[0] !in s.entries || !(0 <= s.entries[s.hit[0]].nameIndex < |s.names|) then s
    else
      var id := s.hit[0];
      var e := s.entries[id];
      s.(hit := s.hit[1..], entries := s.entries - {id},
         shown := s.shown + [Shown(id, s.names[e.nameIndex], (e.addr + U64 - e.base) % U64)])
  }

  function ClearAll(s: State): State {
    s.(entries := map[], deferred := [], pending := [], hit := [], names := [Kernel])
  }

  /** One entry of the deferred list when module `name` comes. */
  function Enabled(s: State, name: string, base: nat, accepts: nat -> bool, id: nat): State {
    if id !in s.entries || NameIndex(s.names, Named(name)) != s.entries[id].nameIndex then s
    else
      var e := s.entries[id].(base := base, addr := (s.entries[id].addr + base) % U64);
      var t := s.(deferred := Without(s.deferred, id));
      if accepts(e.addr) then t.(entries := t.entries[id := e], pending := [id] + t.pending)
      else t.(entries := t.entries - {id})
  }

  function EnabledAll(s: State, name: string, base: nat, accepts: nat -> bool, ids: seq<nat>): State {
    if ids == [] then s else Enabled(EnabledAll(s, name, base, accepts, ids[..|ids| - 1]), name, base, accepts, ids[|ids| - 1])
  }

  /** One entry of the pending list when module `name` goes. */
  function Dropped(s: State, name: string, id: nat): State {
    if id !in s.entries || NameIndex(s.names, Named(name)) != s.entries[id].nameIndex then s
    else s.(pending := Without(s.pending, id), entries := s.entries - {id})
  }

  function DroppedAll(s: State, name: string, ids: seq<nat>): State {
    if ids == [] then s else Dropped(DroppedAll(s, name, ids[..|ids| - 1]), name, ids[|ids| - 1])
  }

  function Step(s: State, e: Event): State {
    match e
    case Add(m, where, accepts) => AddProbe(s, m, where, accepts)
    case Trigger(id) => ProbeWork(s, id)
    case Read => ReadNext(s)
    case Clear => ClearAll(s)
    case Coming(name, base, accepts) =>
      EnabledAll(s.(loaded := s.loaded[name := base]), name, base, accepts, s.deferred)
    case Going(name) =>
      var t := DroppedAll(s, name, s.pending);
      t.(loaded := t.loaded - {name})
  }

  /** What the kernel and the table allow: room for the name, and modules that come before they go. */
  ghost predicate Possible(s: State, e: Event) {
    match e
    case Add(m, where, _) => where < U64 && (NameIndex(s.names, m) >= 0 || |s.names| < NAMES)
    case Coming(name, base, _) => name !in s.loaded && base < U64
    case _ => true
  }

  const START: State := State(map[], [], [], [], [Kernel], map[], map[], [], 0)

  function Run(events: seq<Event>): State {
    if events == [] then START else Step(Run(events[..|events| - 1]), events[|events| - 1])
  }

  ghost predicate AllPossible(events: seq<Event>) {
    events != [] ==> AllPossible(events[..|events| - 1]) && Possible(Run(events[..|events| - 1]), events[|events| - 1])
  }

  // ----- the lists -----

  /** Every live entry is on exactly one list, once. */
  ghost predicate ListsOk(live: set<nat>, d: seq<nat>, p: seq<nat>, h: seq<nat>) {
    && NoRepeat(d) && NoRepeat(p) && NoRepeat(h)
    && (forall id :: id in live <==> id in d || id in p || id in h)
    && (forall id :: id in d ==> id !in p && id !in h)
    && (forall id :: id in p ==> id !in h)
  }

  lemma OneMore(list: seq<nat>, id: nat)
    requires NoRepeat(list) && id !in list
    ensures NoRepeat([id] + list) && NoRepeat(list + [id])
    ensures forall x :: x in [id] + list <==> x == id || x in list
    ensures forall x :: x in list + [id] <==> x == id || x in list
  {
  }

  lemma OneLess(list: seq<nat>, id: nat)
    requires NoRepeat(list)
    ensures NoRepeat(Without(list, id)) && forall x :: x in Without(list, id) <==> x in list && x != id
  {
    WithoutHolds(list, id);
    WithoutNoRepeat(list, id);
  }

  lemma FirstTaken(list: seq<nat>)
    requires NoRepeat(list) && list != []
    ensures NoRepeat(list[1..]) && forall x :: x in list[1..] <==> x in list && x != list[0]
  {
    assert list == [list[0]] + list[1..];
  }

  // ----- the invariant -----

  /** A live entry's name is the module asked for, and its address less its base the offset asked for. */
  ghost predicate EntryOk(s: State, id: nat) {
    && id in s.added && id in s.entries
    && 0 <= s.entries[id].nameIndex < |s.names| && s.names[s.entries[id].nameIndex] == s.added[id].owner
    && s.entries[id].base < U64 && s.added[id].where < U64
    && s.entries[id].addr == (s.entries[id].base + s.added[id].where) % U64
  }

  ghost predicate EntriesOk(s: State) {
    forall id :: id in s.entries ==> EntryOk(s, id)
  }

  /** A deferred probe waits for a module that is not there; but one in `todo` may wait for `now`, which
      is just coming. */
  ghost predicate Waits(s: State, now: string, todo: seq<nat>, id: nat) {
    && id in s.entries && id in s.added && s.added[id].owner.Named? && s.entries[id].base == 0
    && (s.added[id].owner.name in s.loaded ==> s.added[id].owner.name == now && id in todo)
  }

  ghost predicate DeferredOk(s: State, now: string, todo: seq<nat>) {
    forall id :: id in s.deferred ==> Waits(s, now, todo, id)
  }

  /** A pending probe is the kernel's or that of a loaded module, where the module is. */
  ghost predicate Placed(s: State, id: nat) {
    && id in s.entries && id in s.added
    && (s.added[id].owner.Named? ==> s.added[id].owner.name in s.loaded)
    && s.entries[id].base == Base(s.loaded, s.added[id].owner)
  }

  ghost predicate PendingOk(s: State) {
    forall id :: id in s.pending ==> Placed(s, id)
  }

  /** What was read is what was added, each probe once, and gone from the lists. */
  ghost predicate ShownOk(s: State) {
    && (forall i :: 0 <= i < |s.shown| ==>
          && s.shown[i].id in s.added && s.shown[i].id !in s.entries
          && s.added[s.shown[i].id] == Probe(s.shown[i].owner, s.shown[i].offset))
    && (forall i, j :: 0 <= i < j < |s.shown| ==> s.shown[i].id != s.shown[j].id)
  }

  ghost predicate HistoryOk(s: State) {
    (forall id: nat :: id in s.added <==> id < s.next) && (forall m :: m in s.loaded ==> s.loaded[m] < U64)
  }

  ghost predicate During(s: State, now: string, todo: seq<nat>) {
    && ListsOk(s.entries.Keys, s.deferred, s.pending, s.hit) && NamesOk(s.names) && HistoryOk(s) && ShownOk(s)
    && EntriesOk(s) && DeferredOk(s, now, todo) && PendingOk(s)
  }

  ghost predicate Inv(s: State) {
    During(s, "", [])
  }

  /** Entries and list members only went away; what is known of the rest still holds. */
  lemma Shrunk(s: State, t: State, now: string, todo: seq<nat>, left: seq<nat>)
    requires EntriesOk(s) && DeferredOk(s, now, todo) && PendingOk(s) && ShownOk(s)
    requires t.names == s.names && t.added == s.added && t.loaded == s.loaded && t.shown == s.shown
    requires forall id :: id in t.entries ==> id in s.entries && t.entries[id] == s.entries[id]
    requires forall id :: id in t.deferred ==>
               id in s.deferred && id in t.entries && (id in todo && id in s.added && s.added[id].owner == Named(now) ==> id in left)
    requires forall id :: id in t.pending ==> id in s.pending && id in t.entries
    ensures EntriesOk(t) && DeferredOk(t, now, left) && PendingOk(t) && ShownOk(t)
  {
    forall id | id in t.entries ensures EntryOk(t, id) {
      assert EntryOk(s, id);
    }
    forall id | id in t.deferred ensures Waits(t, now, left, id) {
      assert Waits(s, now, todo, id);
    }
    forall id | id in t.pending ensures Placed(t, id) {
      assert Placed(s, id);
    }
  }

  // ----- adding -----

  lemma AddedEntries(s: State, m: Module, where: nat, t: State, id: nat, e: Entry)
    requires Inv(s) && where < U64 && id == s.next && NamesOk(t.names) && s.names <= t.names
    requires 0 <= e.nameIndex < |t.names| && t.names[e.nameIndex] == m
    requires e.base == Base(s.loaded, m) && e.addr == (e.base + where) % U64
    requires t.added == s.added[id := Probe(m, where)] && t.next == id + 1
    requires t.entries == s.entries || t.entries == s.entries[id := e]
    ensures EntriesOk(t)
  {
    forall x | x in t.entries ensures EntryOk(t, x) {
      if x in s.entries {
        assert EntryOk(s, x);
      }
    }
  }

  lemma AddedData(s: State, m: Module, where: nat, t: State, id: nat, e: Entry)
    requires Inv(s) && where < U64 && id == s.next && NamesOk(t.names) && s.names <= t.names
    requires 0 <= e.nameIndex < |t.names| && t.names[e.nameIndex] == m
    requires e.base == Base(s.loaded, m) && e.addr == (e.base + where) % U64
    requires t.added == s.added[id := Probe(m, where)] && t.loaded == s.loaded && t.shown == s.shown && t.next == id + 1
    requires t.entries == s.entries || t.entries == s.entries[id := e]
    ensures HistoryOk(t) && ShownOk(t) && EntriesOk(t)
    ensures forall x :: x in s.deferred ==> Waits(t, "", [], x)
    ensures forall x :: x in s.pending ==> Placed(t, x)
  {
    AddedEntries(s, m, where, t, id, e);
    forall x | x in s.deferred ensures Waits(t, "", [], x) {
      assert Waits(s, "", [], x);
    }
    forall x | x in s.pending ensures Placed(t, x) {
      assert Placed(s, x);
    }
  }

  lemma NextIsNew(s: State)
    requires EntriesOk(s) && HistoryOk(s)
    ensures s.next !in s.entries
  {
    assert s.next in s.entries ==> EntryOk(s, s.next);
  }

  lemma Added(s: State, m: Module, where: nat, accepts: nat -> bool)
    requires Inv(s) && Possible(s, Add(m, where, accepts))
    ensures Inv(AddProbe(s, m, where, accepts))
  {
    AllocationKeeps(s.names, m);
    NextIsNew(s);
    var (index, names) := Allocated(s.names, m);
    var id, e := s.next, NewEntry(s, index, Base(s.loaded, m), where);
    if m.Named? && m.name !in s.loaded {
      AddedDeferred(s, m, where, names, id, e);
    } else if accepts(e.addr) {
      AddedPending(s, m, where, names, id, e);
    } else {
      AddedNowhere(s, m, where, names, id, e);
    }
  }

  lemma AddedDeferred(s: State, m: Module, where: nat, names: seq<Module>, id: nat, e: Entry)
    requires Inv(s) && where < U64 && id == s.next && id !in s.entries && NamesOk(names) && s.names <= names
    requires 0 <= e.nameIndex < |names| && names[e.nameIndex] == m
    requires e.base == Base(s.loaded, m) && e.addr == (e.base + where) % U64
    requires m.Named? && m.name !in s.loaded
    ensures var t := Noted(s, m, where, names); Inv(t.(entries := s.entries[id := e], deferred := [id] + s.deferred))
  {
    var t := Noted(s, m, where, names).(entries := s.entries[id := e], deferred := [id] + s.deferred);
    AddedData(s, m, where, t, id, e);
    Joined(s, t, id);
  }

  lemma AddedPending(s: State, m: Module, where: nat, names: seq<Module>, id: nat, e: Entry)
    requires Inv(s) && where < U64 && id == s.next && id !in s.entries && NamesOk(names) && s.names <= names
    requires 0 <= e.nameIndex < |names| && names[e.nameIndex] == m
    requires e.base == Base(s.loaded, m) && e.addr == (e.base + where) % U64
    requires m.Named? ==> m.name in s.loaded
    ensures var t := Noted(s, m, where, names); Inv(t.(entries := s.entries[id := e], pending := [id] + s.pending))
  {
    var t := Noted(s, m, where, names).(entries := s.entries[id := e], pending := [id] + s.pending);
    AddedData(s, m, where, t, id, e);
    Joined(s, t, id);
  }

  lemma AddedNowhere(s: State, m: Module, where: nat, names: seq<Module>, id: nat, e: Entry)
    requires Inv(s) && where < U64 && id == s.next && id !in s.entries && NamesOk(names) && s.names <= names
    requires 0 <= e.nameIndex < |names| && names[e.nameIndex] == m
    requires e.base == Base(s.loaded, m) && e.addr == (e.base + where) % U64
    ensures Inv(Noted(s, m, where, names))
  {
    AddedData(s, m, where, Noted(s, m, where, names), id, e);
    Refused(s, Noted(s, m, where, names));
  }

  /** A new live entry stands in front of the list it belongs to. */
  lemma Joined(s: State, t: State, id: nat)
    requires Inv(s) && id !in s.entries && t.entries.Keys == s.entries.Keys + {id} && t.hit == s.hit
    requires NamesOk(t.names) && HistoryOk(t) && ShownOk(t) && EntriesOk(t)
    requires forall x :: x in s.deferred ==> Waits(t, "", [], x)
    requires forall x :: x in s.pending ==> Placed(t, x)
    requires || (t.deferred == [id] + s.deferred && t.pending == s.pending && Waits(t, "", [], id))
             || (t.pending == [id] + s.pending && t.deferred == s.deferred && Placed(t, id))
    ensures Inv(t)
  {
    OneMore(s.deferred, id);
    OneMore(s.pending, id);
  }

  lemma Refused(s: State, t: State)
    requires Inv(s) && t.entries == s.entries && t.deferred == s.deferred && t.pending == s.pending && t.hit == s.hit
    requires NamesOk(t.names) && HistoryOk(t) && ShownOk(t) && EntriesOk(t)
    requires forall x :: x in s.deferred ==> Waits(t, "", [], x)
    requires forall x :: x in s.pending ==> Placed(t, x)
    ensures Inv(t)
  {
  }

  // ----- triggering, reading, clearing -----

  lemma Worked(s: State, id: nat)
    requires Inv(s)
    ensures Inv(ProbeWork(s, id))
  {
    if id in s.entries {
      OneLess(s.deferred, id);
      OneLess(s.pending, id);
      OneLess(s.hit, id);
      OneMore(Without(s.hit, id), id);
      Shrunk(s, ProbeWork(s, id), "", [], []);
    }
  }

  lemma OffsetBack(base: nat, where: nat)
    requires base < U64 && where < U64
    ensures ((base + where) % U64 + U64 - base) % U64 == where
  {
    if base + where < U64 {
      Reduced(base + where);
      Reduced(where);
    } else {
      Reduced(base + where - U64);
      Reduced(where);
    }
  }

  lemma Reduced(n: nat)
    requires n < U64
    ensures n % U64 == n && (n + U64) % U64 == n
  {
  }

  /** The first hit entry is read as what it was added as. */
  lemma ReadShows(s: State)
    requires Inv(s) && s.hit != []
    ensures var id := s.hit[0];
            && id in s.entries && id in s.added
            && 0 <= s.entries[id].nameIndex < |s.names| && s.names[s.entries[id].nameIndex] == s.added[id].owner
            && (s.entries[id].addr + U64 - s.entries[id].base) % U64 == s.added[id].where
            && ReadNext(s) == s.(hit := s.hit[1..], entries := s.entries - {id},
                                 shown := s.shown + [Shown(id, s.added[id].owner, s.added[id].where)])
  {
    var id := s.hit[0];
    assert id in s.hit;
    assert EntryOk(s, id);
    OffsetBack(s.entries[id].base, s.added[id].where);
  }

  lemma WasRead(s: State)
    requires Inv(s)
    ensures Inv(ReadNext(s))
  {
    if s.hit != [] {
      ReadShows(s);
      FirstTaken(s.hit);
      var id := s.hit[0];
      assert id in s.hit;
      var u := s.(hit := s.hit[1..], entries := s.entries - {id});
      Shrunk(s, u, "", [], []);
      OneShown(s, u, id);
    }
  }

  lemma OneShown(s: State, u: State, id: nat)
    requires ShownOk(s) && ShownOk(u) && EntriesOk(u) && DeferredOk(u, "", []) && PendingOk(u)
    requires u.added == s.added && u.shown == s.shown && id in s.added && id in s.entries && id !in u.entries
    ensures var t := u.(shown := u.shown + [Shown(id, u.added[id].owner, u.added[id].where)]);
            ShownOk(t) && EntriesOk(t) && DeferredOk(t, "", []) && PendingOk(t)
  {
    var t := u.(shown := u.shown + [Shown(id, u.added[id].owner, u.added[id].where)]);
    forall x | x in t.entries ensures EntryOk(t, x) {
      assert EntryOk(u, x);
    }
    forall x | x in t.deferred ensures Waits(t, "", [], x) {
      assert Waits(u, "", [], x);
    }
    forall x | x in t.pending ensures Placed(t, x) {
      assert Placed(u, x);
    }
  }

  lemma Cleared(s: State)
    requires Inv(s)
    ensures Inv(ClearAll(s))
  {
  }

  // ----- a module comes -----

  lemma EnabledPlaced(s: State, name: string, base: nat, id: nat, todo: seq<nat>, e: Entry, t: State)
    requires During(s, name, [id] + todo) && name in s.loaded && s.loaded[name] == base && base < U64
    requires id in s.deferred && s.added[id].owner == Named(name) && id !in todo
    requires e == s.entries[id].(base := base, addr := (s.entries[id].addr + base) % U64)
    requires t == s.(deferred := Without(s.deferred, id), entries := s.entries[id := e], pending := [id] + s.pending)
    ensures During(t, name, todo)
  {
    OneLess(s.deferred, id);
    OneMore(s.pending, id);
    EnabledData(s, name, base, id, todo, e, t);
  }

  lemma EnabledData(s: State, name: string, base: nat, id: nat, todo: seq<nat>, e: Entry, t: State)
    requires EntriesOk(s) && DeferredOk(s, name, [id] + todo) && PendingOk(s) && ShownOk(s)
    requires name in s.loaded && s.loaded[name] == base && base < U64
    requires id in s.deferred && id in s.entries && id in s.added && s.added[id].owner == Named(name) && id !in todo
    requires id !in s.pending
    requires e == s.entries[id].(base := base, addr := (s.entries[id].addr + base) % U64)
    requires t.entries == s.entries[id := e] && t.names == s.names && t.added == s.added && t.loaded == s.loaded && t.shown == s.shown
    requires forall x :: x in t.deferred ==> x in s.deferred && x != id
    requires forall x :: x in t.pending ==> x in s.pending || x == id
    ensures EntriesOk(t) && DeferredOk(t, name, todo) && PendingOk(t) && ShownOk(t)
  {
    assert EntryOk(s, id) && Waits(s, name, [id] + todo, id);
    WrappedSum(s.added[id].where, base);
    forall x | x in t.entries ensures EntryOk(t, x) {
      assert EntryOk(s, x);
    }
    forall x | x in t.deferred ensures Waits(t, name, todo, x) {
      assert Waits(s, name, [id] + todo, x);
    }
    forall x | x in t.pending ensures Placed(t, x) {
      assert x != id ==> Placed(s, x);
    }
  }

  /** kp.addr += base, for an entry added at base 0. */
  lemma WrappedSum(where: nat, base: nat)
    requires where < U64
    ensures ((0 + where) % U64 + base) % U64 == (base + where) % U64
  {
  }

  lemma EnabledFreed(s: State, name: string, id: nat, todo: seq<nat>, t: State)
    requires During(s, name, [id] + todo) && id in s.deferred && id !in todo
    requires t == s.(deferred := Without(s.deferred, id), entries := s.entries - {id})
    ensures During(t, name, todo)
  {
    OneLess(s.deferred, id);
    Shrunk(s, t, name, [id] + todo, todo);
  }

  lemma PassedOver(s: State, name: string, id: nat, todo: seq<nat>)
    requires During(s, name, [id] + todo) && id in s.added && s.added[id].owner != Named(name)
    ensures During(s, name, todo)
  {
    forall x | x in s.deferred ensures Waits(s, name, todo, x) {
      assert Waits(s, name, [id] + todo, x);
    }
  }

  /** Comparing table indexes compares modules. */
  lemma OwnerMatches(s: State, name: string, id: nat)
    requires EntriesOk(s) && NamesOk(s.names) && id in s.entries
    ensures id in s.added && (NameIndex(s.names, Named(name)) == s.entries[id].nameIndex <==> s.added[id].owner == Named(name))
  {
    assert EntryOk(s, id);
    IndexIsModule(s.names, Named(name), s.entries[id].nameIndex);
  }

  /** Enabling an entry that waits for the module, or passing over one that does not. */
  lemma EnabledOne(s: State, name: string, base: nat, accepts: nat -> bool, id: nat, todo: seq<nat>)
    requires During(s, name, [id] + todo) && name in s.loaded && s.loaded[name] == base && base < U64
    requires id in s.deferred && id !in todo
    ensures During(Enabled(s, name, base, accepts, id), name, todo)
  {
    OwnerMatches(s, name, id);
    if s.added[id].owner != Named(name) {
      PassedOver(s, name, id, todo);
    } else {
      EnabledIs(s, name, base, accepts, id, s.entries[id].(base := base, addr := (s.entries[id].addr + base) % U64));
      EnabledOwn(s, name, base, accepts, id, todo, Enabled(s, name, base, accepts, id));
    }
  }

  lemma EnabledIs(s: State, name: string, base: nat, accepts: nat -> bool, id: nat, e: Entry)
    requires id in s.entries && NameIndex(s.names, Named(name)) == s.entries[id].nameIndex
    requires e == s.entries[id].(base := base, addr := (s.entries[id].addr + base) % U64)
    ensures Enabled(s, name, base, accepts, id) ==
            if accepts(e.addr)
            then s.(deferred := Without(s.deferred, id), entries := s.entries[id := e], pending := [id] + s.pending)
            else s.(deferred := Without(s.deferred, id), entries := s.entries - {id})
  {
  }

  lemma EnabledOwn(s: State, name: string, base: nat, accepts: nat -> bool, id: nat, todo: seq<nat>, t: State)
    requires During(s, name, [id] + todo) && name in s.loaded && s.loaded[name] == base && base < U64
    requires id in s.deferred && id !in todo && id in s.added && s.added[id].owner == Named(name) && id in s.entries
    requires var e := s.entries[id].(base := base, addr := (s.entries[id].addr + base) % U64);
             t == if accepts(e.addr)
                  then s.(deferred := Without(s.deferred, id), entries := s.entries[id := e], pending := [id] + s.pending)
                  else s.(deferred := Without(s.deferred, id), entries := s.entries - {id})
    ensures During(t, name, todo)
  {
    var e := s.entries[id].(base := base, addr := (s.entries[id].addr + base) % U64);
    if accepts(e.addr) {
      EnabledPlaced(s, name, base, id, todo, e, t);
    } else {
      EnabledFreed(s, name, id, todo, t);
    }
  }

  lemma OthersStay(s: State, name: string, base: nat, accepts: nat -> bool, id: nat, x: nat)
    requires x in s.deferred && x != id
    ensures x in Enabled(s, name, base, accepts, id).deferred && Enabled(s, name, base, accepts, id).loaded == s.loaded
  {
    WithoutHolds(s.deferred, id);
  }

  lemma {:induction false} StillDeferred(s: State, name: string, base: nat, accepts: nat -> bool, ids: seq<nat>, x: nat)
    requires x in s.deferred && x !in ids
    ensures x in EnabledAll(s, name, base, accepts, ids).deferred
  {
    if ids != [] {
      StillDeferred(s, name, base, accepts, ids[..|ids| - 1], x);
      OthersStay(EnabledAll(s, name, base, accepts, ids[..|ids| - 1]), name, base, accepts, ids[|ids| - 1], x);
    }
  }

  lemma {:induction false} LoadedStays(s: State, name: string, base: nat, accepts: nat -> bool, ids: seq<nat>)
    ensures EnabledAll(s, name, base, accepts, ids).loaded == s.loaded
  {
    if ids != [] {
      LoadedStays(s, name, base, accepts, ids[..|ids| - 1]);
    }
  }

  lemma EnabledNext(s: State, name: string, base: nat, accepts: nat -> bool, before: seq<nat>, id: nat, rest: seq<nat>)
    requires name in s.loaded && s.loaded[name] == base && base < U64
    requires id in s.deferred && id !in before && id !in rest
    requires During(EnabledAll(s, name, base, accepts, before), name, [id] + rest)
    ensures During(EnabledAll(s, name, base, accepts, before + [id]), name, rest)
  {
    StillDeferred(s, name, base, accepts, before, id);
    LoadedStays(s, name, base, accepts, before);
    EnabledOne(EnabledAll(s, name, base, accepts, before), name, base, accepts, id, rest);
    assert (before + [id])[..|before|] == before;
  }

  lemma {:induction false} EnabledUpTo(s: State, name: string, base: nat, accepts: nat -> bool, ids: seq<nat>, k: nat)
    requires During(s, name, ids) && name in s.loaded && s.loaded[name] == base && base < U64
    requires k <= |ids| && NoRepeat(ids) && ids == s.deferred
    ensures During(EnabledAll(s, name, base, accepts, ids[..k]), name, ids[k..])
  {
    if k == 0 {
      assert ids[..0] == [] && ids[0..] == ids;
    } else {
      EnabledUpTo(s, name, base, accepts, ids, k - 1);
      assert ids[..k] == ids[..k - 1] + [ids[k - 1]] && ids[k - 1..] == [ids[k - 1]] + ids[k..];
      assert ids[k - 1] in ids && ids[k - 1] !in ids[..k - 1] && ids[k - 1] !in ids[k..];
      EnabledNext(s, name, base, accepts, ids[..k - 1], ids[k - 1], ids[k..]);
    }
  }

  lemma JustLoaded(s: State, name: string, base: nat)
    requires Inv(s) && name !in s.loaded && base < U64
    ensures During(s.(loaded := s.loaded[name := base]), name, s.deferred)
  {
    var t := s.(loaded := s.loaded[name := base]);
    forall x | x in t.entries ensures EntryOk(t, x) {
      assert EntryOk(s, x);
    }
    forall x | x in t.deferred ensures Waits(t, name, s.deferred, x) {
      assert Waits(s, "", [], x);
    }
    forall x | x in t.pending ensures Placed(t, x) {
      assert Placed(s, x);
    }
  }

  lemma NothingLeft(s: State, name: string)
    requires During(s, name, [])
    ensures Inv(s)
  {
    forall x | x in s.deferred ensures Waits(s, "", [], x) {
      assert Waits(s, name, [], x);
    }
  }

  lemma ModuleCame(s: State, name: string, base: nat, accepts: nat -> bool)
    requires Inv(s) && Possible(s, Coming(name, base, accepts))
    ensures Inv(Step(s, Coming(name, base, accepts)))
  {
    JustLoaded(s, name, base);
    var t := s.(loaded := s.loaded[name := base]);
    EnabledUpTo(t, name, base, accepts, s.deferred, |s.deferred|);
    assert s.deferred[..|s.deferred|] == s.deferred && s.deferred[|s.deferred|..] == [];
    NothingLeft(EnabledAll(t, name, base, accepts, s.deferred), name);
  }

  // ----- a module goes -----

  /** While the module goes, its pending entries are among `todo`. */
  ghost predicate Leaving(s: State, name: string, todo: seq<nat>) {
    forall id :: id in s.pending && id in s.added && s.added[id].owner == Named(name) ==> id in todo
  }

  lemma DroppedOne(s: State, name: string, id: nat, todo: seq<nat>)
    requires Inv(s) && Leaving(s, name, [id] + todo) && id in s.pending
    ensures Inv(Dropped(s, name, id)) && Leaving(Dropped(s, name, id), name, todo)
  {
    OwnerMatches(s, name, id);
    if s.added[id].owner == Named(name) {
      OneLess(s.pending, id);
      Shrunk(s, Dropped(s, name, id), "", [], []);
    }
  }

  lemma {:induction false} StillPending(s: State, name: string, ids: seq<nat>, x: nat)
    requires x in s.pending && x !in ids
    ensures x in DroppedAll(s, name, ids).pending
  {
    if ids != [] {
      StillPending(s, name, ids[..|ids| - 1], x);
      WithoutHolds(DroppedAll(s, name, ids[..|ids| - 1]).pending, ids[|ids| - 1]);
    }
  }

  lemma DroppedNext(s: State, name: string, before: seq<nat>, id: nat, rest: seq<nat>)
    requires id in s.pending && id !in before
    requires var t := DroppedAll(s, name, before); Inv(t) && Leaving(t, name, [id] + rest)
    ensures var t := DroppedAll(s, name, before + [id]); Inv(t) && Leaving(t, name, rest)
  {
    StillPending(s, name, before, id);
    DroppedOne(DroppedAll(s, name, before), name, id, rest);
    assert (before + [id])[..|before|] == before;
  }

  lemma {:induction false} DroppedUpTo(s: State, name: string, ids: seq<nat>, k: nat)
    requires Inv(s) && Leaving(s, name, ids) && k <= |ids| && NoRepeat(ids) && ids == s.pending
    ensures var t := DroppedAll(s, name, ids[..k]); Inv(t) && Leaving(t, name, ids[k..])
  {
    if k == 0 {
      assert ids[..0] == [] && ids[0..] == ids;
    } else {
      DroppedUpTo(s, name, ids, k - 1);
      assert ids[..k] == ids[..k - 1] + [ids[k - 1]] && ids[k - 1..] == [ids[k - 1]] + ids[k..];
      assert ids[k - 1] in ids && ids[k - 1] !in ids[..k - 1];
      DroppedNext(s, name, ids[..k - 1], ids[k - 1], ids[k..]);
    }
  }

  lemma Unloaded(s: State, name: string)
    requires Inv(s) && Leaving(s, name, [])
    ensures Inv(s.(loaded := s.loaded - {name}))
  {
    var t := s.(loaded := s.loaded - {name});
    forall x | x in t.entries ensures EntryOk(t, x) {
      assert EntryOk(s, x);
    }
    forall x | x in t.deferred ensures Waits(t, "", [], x) {
      assert Waits(s, "", [], x);
    }
    forall x | x in t.pending ensures Placed(t, x) {
      assert Placed(s, x);
    }
  }

  lemma ModuleWent(s: State, name: string)
    requires Inv(s)
    ensures Inv(Step(s, Going(name)))
  {
    DroppedUpTo(s, name, s.pending, |s.pending|);
    assert s.pending[..|s.pending|] == s.pending && s.pending[|s.pending|..] == [];
    Unloaded(DroppedAll(s, name, s.pending), name);
  }

  // ----- every run -----

  lemma StepKeepsInv(s: State, e: Event)
    requires Inv(s) && Possible(s, e)
    ensures Inv(Step(s, e))
  {
    match e
    case Add(m, where, accepts) => Added(s, m, where, accepts);
    case Trigger(id) => Worked(s, id);
    case Read => WasRead(s);
    case Clear => Cleared(s);
    case Coming(name, base, accepts) => ModuleCame(s, name, base, accepts);
    case Going(name) => ModuleWent(s, name);
  }

  lemma StartOk()
    ensures Inv(START)
  {
  }

  /** In every run each live entry is on exactly one list, deferred ones belong to modules that are not
      loaded, pending ones to the kernel or a loaded module, and what was read is what was added, once. */
  lemma {:induction false} RunKeepsInv(events: seq<Event>)
    requires AllPossible(events)
    ensures Inv(Run(events))
  {
    if events == [] {
      StartOk();
    } else {
      RunKeepsInv(events[..|events| - 1]);
      StepKeepsInv(Run(events[..|events| - 1]), events[|events| - 1]);
    }
  }

  /** Each probe is read at most once, with the module and the offset it was added with. */
  lemma ReadOnce(events: seq<Event>, i: nat, j: nat)
    requires AllPossible(events) && i < |Run(events).shown| && j < |Run(events).shown|
    ensures var s := Run(events);
            && (i != j ==> s.shown[i].id != s.shown[j].id)
            && s.shown[i].id in s.added && s.added[s.shown[i].id] == Probe(s.shown[i].owner, s.shown[i].offset)
  {
    RunKeepsInv(events);
  }

  /** With the table full, new names share the index -1: a module that nobody named then enables the
      probe of one that was named. */
  lemma FullTableConfusesModules(s: State, wanted: string, other: string, where: nat, base: nat, accepts: nat -> bool)
    requires |s.names| == NAMES && wanted !in s.loaded && wanted != other
    requires Named(wanted) !in s.names && Named(other) !in s.names && accepts((where % U64 + base) % U64)
    ensures var t := Step(s, Add(Named(wanted), where, accepts));
            s.next in t.deferred && s.next in Step(t, Coming(other, base, accepts)).pending
  {
    IndexFinds(s.names, Named(wanted), 1);
    IndexFinds(s.names, Named(other), 1);
    var t := AddProbe(s, Named(wanted), where, accepts);
    assert t.deferred == [s.next] + s.deferred && t.names == s.names && t.deferred[0] == s.next;
    var u := t.(loaded := t.loaded[other := base]);
    var e := u.entries[s.next];
    assert e.nameIndex == -1 == NameIndex(u.names, Named(other)) && e.addr == where % U64;
    assert s.next in Enabled(u, other, base, accepts, s.next).pending;
    FirstIsEnabled(u, other, base, accepts, t.deferred);
  }

  lemma {:induction false} FirstIsEnabled(s: State, name: string, base: nat, accepts: nat -> bool, ids: seq<nat>)
    requires ids != [] && ids[0] in Enabled(s, name, base, accepts, ids[0]).pending
    ensures ids[0] in EnabledAll(s, name, base, accepts, ids).pending
  {
    var before := ids[..|ids| - 1];
    if before == [] {
      assert EnabledAll(s, name, base, accepts, before) == s;
    } else {
      FirstIsEnabled(s, name, base, accepts, before);
    }
  }

  function Filler(k: nat): string {
    seq(k, _ => 'm')
  }

  predicate Any(addr: nat) {
    true
  }

  function AddFiller(k: nat): Event {
    Add(Named(Filler(k)), 0, Any)
  }

  /** k names longer than n have come. */
  ghost predicate Filled(s: State, n: nat, k: nat) {
    && |s.names| == k + 1 && s.names[0] == Kernel && s.loaded == map[]
    && forall i :: 1 <= i <= k ==> s.names[i] == Named(Filler(n + i))
  }

  lemma Filling(s: State, n: nat, k: nat)
    requires Filled(s, n, k) && k + 1 < NAMES
    ensures Possible(s, AddFiller(n + k + 1)) && Filled(Step(s, AddFiller(n + k + 1)), n, k + 1)
  {
    var m := Named(Filler(n + k + 1));
    IndexFinds(s.names, m, 1);
    forall i | 1 <= i < |s.names| ensures s.names[i] != m {
      assert |Filler(n + i)| == n + i && |Filler(n + k + 1)| == n + k + 1;
    }
    assert Allocated(s.names, m) == (|s.names|, s.names + [m]);
  }

  lemma OneMoreEvent(events: seq<Event>, e: Event)
    requires AllPossible(events) && Possible(Run(events), e)
    ensures AllPossible(events + [e]) && Run(events + [e]) == Step(Run(events), e)
  {
    var more := events + [e];
    assert more[..|more| - 1] == events && more[|more| - 1] == e;
  }

  ghost predicate Fills(events: seq<Event>, n: nat, k: nat) {
    AllPossible(events) && Filled(Run(events), n, k)
  }

  lemma NothingFills(n: nat)
    ensures Fills([], n, 0)
  {
  }

  lemma OneMoreFills(events: seq<Event>, n: nat, k: nat)
    requires 0 < k < NAMES && Fills(events, n, k - 1)
    ensures Fills(events + [AddFiller(n + k)], n, k)
  {
    Filling(Run(events), n, k - 1);
    OneMoreEvent(events, AddFiller(n + k));
  }

  lemma {:induction false} TableFills(n: nat, k: nat) returns (events: seq<Event>)
    requires k < NAMES
    ensures Fills(events, n, k)
  {
    if k == 0 {
      events := [];
      NothingFills(n);
    } else {
      events := TableFills(n, k - 1);
      OneMoreFills(events, n, k);
      events := events + [AddFiller(n + k)];
    }
  }

  /** Such a state is reached by 31 probes for modules of other names. */
  lemma TableCanBeFull(wanted: string, other: string) returns (events: seq<Event>)
    ensures AllPossible(events)
    ensures var s := Run(events); |s.names| == NAMES && s.loaded == map[] && Named(wanted) !in s.names && Named(other) !in s.names
  {
    var n := |wanted| + |other|;
    events := TableFills(n, NAMES - 1);
    var s := Run(events);
    forall i | 0 <= i < |s.names| ensures s.names[i] != Named(wanted) && s.names[i] != Named(other) {
      assert i > 0 ==> |Filler(n + i)| == n + i;
    }
  }

  // ----- the object -----

  class KprobeCoverage {
    var entries: map<nat, Entry>
    var deferredList: seq<nat>
    var pendingList: seq<nat>
    var hitList: seq<nat>
    var moduleNames: seq<Module>
    var loaded: map<string, nat>
    var next: nat
    ghost var added: map<nat, Probe>
    ghost var shown: seq<Shown>

    ghost function View(): State
      reads this
    {
      State(entries, deferredList, pendingList, hitList, moduleNames, loaded, added, shown, next)
    }

    constructor ()
      ensures View() == START == Run([])
    {
      entries, deferredList, pendingList, hitList, moduleNames := map[], [], [], [], [Kernel];
      loaded, next, added, shown := map[], 0, map[], [];
    }

    method ModuleNameToIndex(m: Module) returns (index: int)
      ensures index == NameIndex(moduleNames, m)
    {
      if m.Kernel? {
        return 0;
      }
      var i := 1;
      while i < |moduleNames|
        invariant 1 <= i
        invariant IndexFrom(moduleNames, m, 1) == IndexFrom(moduleNames, m, i)
      {
        if moduleNames[i] == m {
          return i;
        }
        i := i + 1;
      }
      return -1;
    }

    method AllocateModuleNameIndex(m: Module) returns (index: int)
      modifies this`moduleNames
      ensures (index, moduleNames) == Allocated(old(moduleNames), m)
    {
      index := ModuleNameToIndex(m);
      if index < 0 && |moduleNames| < NAMES {
        index := |moduleNames|;
        moduleNames := moduleNames + [m];
      }
    }

    method AddProbe(m: Module, where: nat, accepts: nat -> bool)
      modifies this
      ensures View() == Step(old(View()), Add(m, where, accepts))
    {
      var isLoaded := m.Named? && m.name in loaded;
      var base := if isLoaded then loaded[m.name] else 0;
      var index := AllocateModuleNameIndex(m);
      var entry := Entry(index, base, (base + where) % U64);
      var id := next;
      assert (index, moduleNames) == Allocated(old(moduleNames), m);
      assert entry == NewEntry(old(View()), index, Base(loaded, m), where);
      added := added[id := Probe(m, where)];
      next := next + 1;
      if m.Named? && !isLoaded {
        entries := entries[id := entry];
        deferredList := [id] + deferredList;
      } else if accepts(entry.addr) {
        entries := entries[id := entry];
        pendingList := [id] + pendingList;
      }
    }

    method ProbeWork(id: nat)
      modifies this`deferredList, this`pendingList, this`hitList
      ensures View() == Step(old(View()), Trigger(id))
    {
      if id in entries {
        deferredList, pendingList := Without(deferredList, id), Without(pendingList, id);
        hitList := Without(hitList, id) + [id];
      }
    }

    /** One turn of the readout: unlink the first hit entry, print it and free it. */
    method ShowNext() returns (line: (Module, nat), any: bool)
      requires Inv(View())
      modifies this`hitList, this`entries, this`shown
      ensures View() == Step(old(View()), Read) && Inv(View())
      ensures any == (old(hitList) != [])
      ensures any ==> line == (old(added)[old(hitList)[0]].owner, old(added)[old(hitList)[0]].where)
    {
      any, line := hitList != [], (Kernel, 0);
      WasRead(View());
      if any {
        ReadShows(View());
        var id := hitList[0];
        var entry := entries[id];
        line := (moduleNames[entry.nameIndex], (entry.addr + U64 - entry.base) % U64);
        hitList := hitList[1..];
        entries := entries - {id};
        shown := shown + [Shown(id, line.0, line.1)];
      }
    }

    method ClearProbes()
      modifies this`entries, this`deferredList, this`pendingList, this`hitList, this`moduleNames
      ensures View() == Step(old(View()), Clear)
    {
      entries, deferredList, pendingList, hitList, moduleNames := map[], [], [], [], [Kernel];
    }

    method HandleComingModule(name: string, base: nat, accepts: nat -> bool)
      modifies this
      ensures View() == Step(old(View()), Coming(name, base, accepts))
    {
      loaded := loaded[name := base];
      ghost var start := View();
      var list := deferredList;
      for i := 0 to |list|
        invariant View() == EnabledAll(start, name, base, accepts, list[..i])
      {
        assert list[..i + 1][..i] == list[..i];
        EnableOne(name, base, accepts, list[i]);
      }
      assert list[..|list|] == list;
    }

    method EnableOne(name: string, base: nat, accepts: nat -> bool, id: nat)
      modifies this`entries, this`deferredList, this`pendingList
      ensures View() == Enabled(old(View()), name, base, accepts, id)
    {
      if id !in entries {
        return;
      }
      var index := ModuleNameToIndex(Named(name));
      if index != entries[id].nameIndex {
        return;
      }
      deferredList := Without(deferredList, id);
      var entry := entries[id].(base := base, addr := (entries[id].addr + base) % U64);
      if accepts(entry.addr) {
        entries := entries[id := entry];
        pendingList := [id] + pendingList;
      } else {
        entries := entries - {id};
      }
    }

    method HandleGoingModule(name: string)
      modifies this
      ensures View() == Step(old(View()), Going(name))
    {
      ghost var start := View();
      var list := pendingList;
      for i := 0 to |list|
        invariant View() == DroppedAll(start, name, list[..i])
      {
        assert list[..i + 1][..i] == list[..i];
        var id := list[i];
        var index := ModuleNameToIndex(Named(name));
        if id in entries && index == entries[id].nameIndex {
          pendingList := Without(pendingList, id);
          entries := entries - {id};
        }
      }
      assert list[..|list|] == list;
      loaded := loaded - {name};
    }
  }
}
