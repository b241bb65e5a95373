/** What every step of the reporter does to the counters of lines with one address each, as script engines
    report them: a counter is what databases stored for its line plus what was hit, and what is stored for a
    line not yet announced is waiting for it. */
module ReporterCounts {
  import opened Bytes
  import opened ReporterState
  import opened ReporterInvariants
  import opened ReporterRuns

  predicate Taken(env: Env, e: Event) {
    e.OnLine? && env.accepts(e.file)
  }

  function IdOf(env: Env, e: Event): nat
    requires e.OnLine?
  {
    LineId(env.hash(e.file), e.nr)
  }

  /** The line with this id has been announced, at this address. */
  ghost predicate AnnouncedAt(env: Env, events: seq<Event>, id: nat, addr: nat) {
    exists e :: e in events && Taken(env, e) && IdOf(env, e) == id && e.addr == addr
  }

  ghost predicate AnnouncedId(env: Env, events: seq<Event>, id: nat) {
    exists e :: e in events && Taken(env, e) && IdOf(env, e) == id
  }

  ghost predicate AnnouncedAddr(env: Env, events: seq<Event>, addr: nat) {
    exists e :: e in events && Taken(env, e) && e.addr == addr
  }

  /** Distinct lines have distinct ids, one address each, not shared; the database agrees. */
  ghost predicate Script(env: Env, events: seq<Event>) {
    && !env.singleShot
    && (forall e, f :: e in events && f in events && Taken(env, e) && Taken(env, f) ==>
          && (IdOf(env, e) == IdOf(env, f) ==> e.addr == f.addr && e.file == f.file && e.nr == f.nr)
          && (e.addr == f.addr ==> IdOf(env, e) == IdOf(env, f)))
    && (forall d, x :: d in events && d.ReadDatabase? && x in d.entries && x.hits != 0 ==> x.index == 0)
    && (forall d, x, e :: d in events && d.ReadDatabase? && x in d.entries && x.hits != 0 && e in events && Taken(env, e) ==>
          e.addr == x.addr ==> IdOf(env, e) == x.id)
  }

  // ----- what a counter should be -----

  function StoredIn(entries: seq<Entry>, id: nat): nat {
    if entries == [] then 0
    else StoredIn(entries[..|entries| - 1], id) + if entries[|entries| - 1].id == id then entries[|entries| - 1].hits else 0
  }

  /** The hits of the line in all databases read. */
  function Stored(events: seq<Event>, id: nat): nat {
    if events == [] then 0
    else
      var e := events[|events| - 1];
      Stored(events[..|events| - 1], id) + if e.ReadDatabase? then StoredIn(e.entries, id) else 0
  }

  /** The hits at the line's address since it is known. Earlier ones are not seen. */
  ghost function Live(env: Env, events: seq<Event>, id: nat): nat {
    if events == [] then 0
    else
      var before, e := events[..|events| - 1], events[|events| - 1];
      Live(env, before, id) + if e.OnAddressHit? && AnnouncedAt(env, before, id, e.addr) then e.hits else 0
  }

  function Waiting(hits: seq<Pending>): nat {
    if hits == [] then 0 else Waiting(hits[..|hits| - 1]) + hits[|hits| - 1].hits
  }

  // ----- the invariant -----

  function Low(n: nat): u32 {
    n % U32
  }

  /** The line has this address only, and its counter is c. */
  ghost predicate Single(l: Line, addr: nat, c: u32) {
    |l.addrs| == 1 && l.addrs[0].addr == addr && l.addrs[0].hits == c
  }

  ghost predicate LineOk(s: State, e: Event, id: nat, total: nat)
    requires e.OnLine?
  {
    && id in s.byId && s.byId[id] < |s.lines| && e.file in s.files
    && GetLine(s.files[e.file], e.nr) == At(s.byId[id])
    && e.addr in s.byAddr && s.byAddr[e.addr] == [s.byId[id]]
    && CounterAt(s, s.byId[id], e.addr, total)
  }

  ghost predicate PendingOk(s: State, id: nat, total: nat) {
    if id in s.pending
    then Waiting(s.pending[id]) == total && forall k :: 0 <= k < |s.pending[id]| ==> s.pending[id][k].index == 0
    else total == 0
  }

  /** Only announced lines have addresses. */
  ghost predicate Bare(s: State) {
    forall i :: 0 <= i < |s.lines| && s.lines[i].addrs != [] ==> s.lines[i].id in s.byId && s.byId[s.lines[i].id] == i
  }

  /** The indexes know exactly the announced lines and addresses. */
  ghost predicate IndexOk(env: Env, events: seq<Event>, s: State) {
    && (forall f :: f in s.files ==> s.files[f].hash == env.hash(f))
    && (forall id {:trigger AnnouncedId(env, events, id)} :: id in s.byId <==> AnnouncedId(env, events, id))
    && (forall a {:trigger AnnouncedAddr(env, events, a)} :: a in s.byAddr <==> AnnouncedAddr(env, events, a))
  }

  /** Each line's counter is its total. */
  ghost predicate LinesOk(env: Env, events: seq<Event>, s: State, total: nat -> nat) {
    forall e :: e in events && Taken(env, e) ==> LineOk(s, e, IdOf(env, e), total(IdOf(env, e)))
  }

  /** What is stored for lines not yet known is waiting. */
  ghost predicate WaitingOk(s: State, stored: nat -> nat) {
    && (forall id :: id !in s.byId ==> PendingOk(s, id, stored(id)))
    && (forall id :: id in s.byId && id in s.pending ==> s.pending[id] == [])
  }

  ghost predicate CountsOk(env: Env, events: seq<Event>, s: State, stored: nat -> nat, total: nat -> nat) {
    IdsOk(s) && Bare(s) && IndexOk(env, events, s) && LinesOk(env, events, s, total) && WaitingOk(s, stored)
  }

  /** What is stored so far; `extra` is the part of a database already read. */
  ghost function StoredBy(events: seq<Event>, extra: seq<Entry>): nat -> nat {
    (id: nat) => Stored(events, id) + StoredIn(extra, id)
  }

  ghost function TotalBy(env: Env, events: seq<Event>, extra: seq<Entry>): nat -> nat {
    (id: nat) => Stored(events, id) + StoredIn(extra, id) + Live(env, events, id)
  }

  lemma WrapsOnce(n: nat, h: nat)
    ensures (n % U32 + h) % U32 == (n + h) % U32
  {
  }

  /** Hitting the one address of a line. */
  lemma OneAddress(l: Line, addr: nat, total: nat, hits: nat)
    requires Single(l, addr, Low(total))
    ensures Single(RegisterHit(l, addr, hits, false), addr, Low(total + hits))
    ensures Single(RegisterHitIndex(l, 0, hits), addr, Low(total + hits))
  {
    WrapsOnce(total, hits);
  }

  ghost predicate CounterAt(t: State, i: nat, addr: nat, n: nat) {
    i < |t.lines| && Single(t.lines[i], addr, Low(n))
  }

  /** One line's counter moves; nothing else does. */
  ghost predicate OnlyLine(s: State, t: State, i: nat) {
    && i < |s.lines| == |t.lines| && t.files == s.files && t.byAddr == s.byAddr && t.byId == s.byId
    && t.pending == s.pending && t.lines[i].id == s.lines[i].id
    && forall j :: 0 <= j < |s.lines| && j != i ==> t.lines[j] == s.lines[j]
  }

  lemma CounterMoves(env: Env, s: State, i: nat, addr: nat, hits: nat)
    requires i < |s.lines| && !env.singleShot
    ensures HitLines(env, s, [i], addr, hits) == HitLine(env, s, i, addr, hits)
    ensures OnlyLine(s, HitLine(env, s, i, addr, hits), i)
    ensures HitLine(env, s, i, addr, hits).lines[i].addrs == RegisterHit(s.lines[i], addr, hits, false).addrs
  {
    assert [i][..0] == [];
    assert HitLines(env, s, [i][..0], addr, hits) == s;
  }

  ghost predicate SameLines(env: Env, events: seq<Event>, others: seq<Event>) {
    forall e :: Taken(env, e) ==> (e in events <==> e in others)
  }

  ghost predicate SameAddress(env: Env, events: seq<Event>, g: Event, id: nat)
    requires g.OnLine?
  {
    forall e :: e in events && Taken(env, e) && IdOf(env, e) == id ==> e.addr == g.addr
  }

  lemma IndexSame(env: Env, events: seq<Event>, others: seq<Event>, s: State, t: State)
    requires IndexOk(env, events, s) && SameLines(env, events, others)
    requires t.files == s.files && t.byId == s.byId && t.byAddr == s.byAddr
    ensures IndexOk(env, others, t)
  {
    forall id ensures AnnouncedId(env, events, id) <==> AnnouncedId(env, others, id) {
    }
    forall a ensures AnnouncedAddr(env, events, a) <==> AnnouncedAddr(env, others, a) {
    }
  }

  /** Only this line's total has grown. */
  ghost predicate Grown(total: nat -> nat, next: nat -> nat, id: nat, hits: nat) {
    forall x :: next(x) == total(x) + if x == id then hits else 0
  }

  /** The counter of g's line went up by `hits`, and so did what it should be. */
  lemma LinesStep(env: Env, events: seq<Event>, others: seq<Event>, s: State, t: State, total: nat -> nat, next: nat -> nat,
                  g: Event, id: nat, hits: nat)
    requires IdsOk(s) && LinesOk(env, events, s, total) && SameLines(env, events, others) && Grown(total, next, id, hits)
    requires g in events && Taken(env, g) && id == IdOf(env, g) && id in s.byId && OnlyLine(s, t, s.byId[id])
    requires CounterAt(t, s.byId[id], g.addr, total(id) + hits) && SameAddress(env, events, g, id)
    ensures LinesOk(env, others, t, next)
  {
    forall e | e in others && Taken(env, e) ensures LineOk(t, e, IdOf(env, e), next(IdOf(env, e))) {
      assert LineOk(s, e, IdOf(env, e), total(IdOf(env, e)));
    }
  }

  lemma BareStep(s: State, t: State, id: nat)
    requires IdsOk(s) && Bare(s) && id in s.byId && OnlyLine(s, t, s.byId[id])
    ensures IdsOk(t) && Bare(t)
  {
  }

  lemma WaitingSame(s: State, t: State, stored: nat -> nat, next: nat -> nat)
    requires WaitingOk(s, stored) && t.byId == s.byId && t.pending == s.pending
    requires forall id :: id !in s.byId ==> next(id) == stored(id)
    ensures WaitingOk(t, next)
  {
    forall id | id !in t.byId ensures PendingOk(t, id, next(id)) {
      assert PendingOk(s, id, stored(id));
    }
  }

  lemma CounterStep(env: Env, events: seq<Event>, others: seq<Event>, s: State, t: State, stored: nat -> nat, total: nat -> nat,
                    storedNext: nat -> nat, totalNext: nat -> nat, g: Event, id: nat, i: nat, hits: nat, n: nat)
    requires CountsOk(env, events, s, stored, total) && SameLines(env, events, others)
    requires g in events && Taken(env, g) && id == IdOf(env, g) && id in s.byId && i == s.byId[id] && OnlyLine(s, t, i)
    requires n == total(id) + hits && CounterAt(t, i, g.addr, n) && SameAddress(env, events, g, id)
    requires Grown(total, totalNext, id, hits) && forall x :: x !in s.byId ==> storedNext(x) == stored(x)
    ensures CountsOk(env, others, t, storedNext, totalNext)
  {
    IndexSame(env, events, others, s, t);
    LinesStep(env, events, others, s, t, total, totalNext, g, id, hits);
    BareStep(s, t, id);
    WaitingSame(s, t, stored, storedNext);
  }

  lemma LinesSame(env: Env, events: seq<Event>, others: seq<Event>, s: State, total: nat -> nat, next: nat -> nat)
    requires LinesOk(env, events, s, total) && SameLines(env, events, others) && Grown(total, next, 0, 0)
    ensures LinesOk(env, others, s, next)
  {
    forall e | e in others && Taken(env, e) ensures LineOk(s, e, IdOf(env, e), next(IdOf(env, e))) {
      assert LineOk(s, e, IdOf(env, e), total(IdOf(env, e)));
    }
  }

  /** Nothing moved, neither the counters nor what they should be. */
  lemma NothingStep(env: Env, events: seq<Event>, others: seq<Event>, s: State, stored: nat -> nat, total: nat -> nat,
                    storedNext: nat -> nat, totalNext: nat -> nat)
    requires CountsOk(env, events, s, stored, total) && SameLines(env, events, others)
    requires Grown(total, totalNext, 0, 0) && forall x :: x !in s.byId ==> storedNext(x) == stored(x)
    ensures CountsOk(env, others, s, storedNext, totalNext)
  {
    IndexSame(env, events, others, s, s);
    WaitingSame(s, s, stored, storedNext);
    LinesSame(env, events, others, s, total, totalNext);
  }

  lemma SoFarGrows(env: Env, events: seq<Event>, e: Event, id: nat)
    ensures Stored(events + [e], id) == Stored(events, id) + if e.ReadDatabase? then StoredIn(e.entries, id) else 0
    ensures Live(env, events + [e], id)
         == Live(env, events, id) + if e.OnAddressHit? && AnnouncedAt(env, events, id, e.addr) then e.hits else 0
  {
    assert (events + [e])[..|events|] == events;
  }

  lemma StoredInGrows(extra: seq<Entry>, x: Entry, id: nat)
    ensures StoredIn(extra + [x], id) == StoredIn(extra, id) + if x.id == id then x.hits else 0
  {
    assert (extra + [x])[..|extra|] == extra;
  }

  lemma NotALine(env: Env, events: seq<Event>, e: Event)
    requires !Taken(env, e)
    ensures SameLines(env, events, events + [e])
  {
  }

  lemma OneAddressEach(env: Env, events: seq<Event>, g: Event, id: nat)
    requires Script(env, events) && g in events && Taken(env, g) && id == IdOf(env, g)
    ensures SameAddress(env, events, g, id)
  {
  }

  // ----- a hit, live or from the database, at a known address -----

  lemma HitMoves(env: Env, s: State, g: Event, id: nat, i: nat, total: nat, hits: nat)
    requires g.OnLine? && LineOk(s, g, id, total) && !env.singleShot && i == s.byId[id]
    ensures OnlyLine(s, AddressHit(env, s, g.addr, hits), i)
    ensures CounterAt(AddressHit(env, s, g.addr, hits), i, g.addr, total + hits)
  {
    OneAddress(s.lines[i], g.addr, total, hits);
    CounterMoves(env, s, i, g.addr, hits);
  }

  lemma LineOf(env: Env, events: seq<Event>, s: State, total: nat -> nat, g: Event)
    requires LinesOk(env, events, s, total) && g in events && Taken(env, g)
    ensures LineOk(s, g, IdOf(env, g), total(IdOf(env, g)))
  {
  }

  lemma HitKnown(env: Env, events: seq<Event>, others: seq<Event>, s: State, stored: nat -> nat, total: nat -> nat,
                 storedNext: nat -> nat, totalNext: nat -> nat, g: Event, id: nat, hits: nat)
    requires CountsOk(env, events, s, stored, total) && SameLines(env, events, others) && !env.singleShot
    requires g in events && Taken(env, g) && id == IdOf(env, g) && SameAddress(env, events, g, id)
    requires Grown(total, totalNext, id, hits) && forall x :: x !in s.byId ==> storedNext(x) == stored(x)
    ensures CountsOk(env, others, AddressHit(env, s, g.addr, hits), storedNext, totalNext)
  {
    LineOf(env, events, s, total, g);
    var n, i := total(id), s.byId[id];
    HitMoves(env, s, g, id, i, n, hits);
    CounterStep(env, events, others, s, AddressHit(env, s, g.addr, hits), stored, total, storedNext, totalNext, g, id, i, hits, n + hits);
  }

  // ----- a live hit -----

  lemma OnlyOneThere(env: Env, events: seq<Event>, g: Event, id: nat)
    requires Script(env, events) && g in events && Taken(env, g)
    ensures AnnouncedAt(env, events, id, g.addr) <==> id == IdOf(env, g)
  {
  }

  lemma LiveGrows(env: Env, events: seq<Event>, e: Event, id: nat, hits: nat)
    requires e.OnAddressHit?
    requires forall x :: (if AnnouncedAt(env, events, x, e.addr) then e.hits else 0) == (if x == id then hits else 0)
    ensures Grown(TotalBy(env, events, []), TotalBy(env, events + [e], []), id, hits)
    ensures forall x :: StoredBy(events + [e], [])(x) == StoredBy(events, [])(x)
  {
    forall x: nat
      ensures Stored(events + [e], x) == Stored(events, x)
      ensures Live(env, events + [e], x) == Live(env, events, x) + if x == id then hits else 0
    {
      SoFarGrows(env, events, e, x);
    }
  }

  lemma HitCounts(env: Env, events: seq<Event>, s: State, e: Event)
    requires CountsOk(env, events, s, StoredBy(events, []), TotalBy(env, events, []))
    requires Script(env, events) && e.OnAddressHit?
    ensures CountsOk(env, events + [e], AddressHit(env, s, e.addr, e.hits), StoredBy(events + [e], []), TotalBy(env, events + [e], []))
  {
    NotALine(env, events, e);
    if AnnouncedAddr(env, events, e.addr) {
      var g :| g in events && Taken(env, g) && g.addr == e.addr;
      forall x ensures AnnouncedAt(env, events, x, e.addr) <==> x == IdOf(env, g) {
        OnlyOneThere(env, events, g, x);
      }
      LiveGrows(env, events, e, IdOf(env, g), e.hits);
      OneAddressEach(env, events, g, IdOf(env, g));
      HitKnown(env, events, events + [e], s, StoredBy(events, []), TotalBy(env, events, []),
               StoredBy(events + [e], []), TotalBy(env, events + [e], []), g, IdOf(env, g), e.hits);
    } else {
      LiveGrows(env, events, e, 0, 0);
      NothingStep(env, events, events + [e], s, StoredBy(events, []), TotalBy(env, events, []),
                  StoredBy(events + [e], []), TotalBy(env, events + [e], []));
    }
  }

  lemma ScriptBefore(env: Env, events: seq<Event>, e: Event)
    requires Script(env, events + [e])
    ensures Script(env, events)
  {
    assert forall x :: x in events ==> x in events + [e];
  }

  // ----- a row of the database -----

  ghost predicate RowOk(env: Env, events: seq<Event>, x: Entry) {
    x.hits != 0 ==> x.index == 0 && forall e :: e in events && Taken(env, e) && e.addr == x.addr ==> IdOf(env, e) == x.id
  }

  lemma IndexMoves(env: Env, s: State, g: Event, i: nat, total: nat, x: Entry)
    requires g.OnLine? && LineOk(s, g, x.id, total) && x.index == 0 && x.addr !in s.byAddr && x.hits != 0
    requires i == s.byId[x.id]
    ensures OnlyLine(s, Restored(env, s, x), i)
    ensures CounterAt(Restored(env, s, x), i, g.addr, total + x.hits)
  {
    OneAddress(s.lines[i], g.addr, total, x.hits);
  }

  /** The line is known, its address in this run is another one. */
  lemma RowById(env: Env, events: seq<Event>, s: State, stored: nat -> nat, total: nat -> nat,
                storedNext: nat -> nat, totalNext: nat -> nat, x: Entry, g: Event)
    requires CountsOk(env, events, s, stored, total) && x.index == 0
    requires g in events && Taken(env, g) && IdOf(env, g) == x.id && SameAddress(env, events, g, x.id)
    requires x.addr !in s.byAddr && x.hits != 0
    requires Grown(total, totalNext, x.id, x.hits) && forall y :: y !in s.byId ==> storedNext(y) == stored(y)
    ensures CountsOk(env, events, Restored(env, s, x), storedNext, totalNext)
  {
    LineOf(env, events, s, total, g);
    var n, i := total(x.id), s.byId[x.id];
    IndexMoves(env, s, g, i, n, x);
    CounterStep(env, events, events, s, Restored(env, s, x), stored, total, storedNext, totalNext, g, x.id, i, x.hits, n + x.hits);
  }

  /** The line is not known yet: its hits wait. */
  lemma RowWaits(env: Env, events: seq<Event>, s: State, stored: nat -> nat, total: nat -> nat,
                 storedNext: nat -> nat, totalNext: nat -> nat, x: Entry)
    requires CountsOk(env, events, s, stored, total) && x.index == 0
    requires x.id !in s.byId && x.addr !in s.byAddr && x.hits != 0
    requires Grown(total, totalNext, x.id, x.hits) && Grown(stored, storedNext, x.id, x.hits)
    ensures CountsOk(env, events, Restored(env, s, x), storedNext, totalNext)
  {
    PushedPending(env, s, stored, storedNext, x);
    IndexSame(env, events, events, s, Restored(env, s, x));
    forall e | e in events && Taken(env, e)
      ensures LineOk(Restored(env, s, x), e, IdOf(env, e), totalNext(IdOf(env, e)))
    {
      LineOf(env, events, s, total, e);
    }
  }

  lemma PushedPending(env: Env, s: State, stored: nat -> nat, storedNext: nat -> nat, x: Entry)
    requires WaitingOk(s, stored) && x.index == 0 && x.id !in s.byId && x.addr !in s.byAddr && x.hits != 0
    requires Grown(stored, storedNext, x.id, x.hits)
    ensures WaitingOk(Restored(env, s, x), storedNext)
  {
    var t := Restored(env, s, x);
    var was := if x.id in s.pending then s.pending[x.id] else [];
    assert PendingOk(s, x.id, stored(x.id));
    assert (was + [Pending(x.index, x.hits)])[..|was|] == was;
    assert t.pending == s.pending[x.id := was + [Pending(x.index, x.hits)]];
    forall id | id !in t.byId ensures PendingOk(t, id, storedNext(id)) {
      assert PendingOk(s, id, stored(id));
    }
  }

  lemma RowCounts(env: Env, events: seq<Event>, s: State, stored: nat -> nat, total: nat -> nat,
                  storedNext: nat -> nat, totalNext: nat -> nat, x: Entry)
    requires CountsOk(env, events, s, stored, total) && Script(env, events) && RowOk(env, events, x)
    requires Grown(total, totalNext, x.id, x.hits) && Grown(stored, storedNext, x.id, x.hits)
    ensures CountsOk(env, events, Restored(env, s, x), storedNext, totalNext)
  {
    if x.hits == 0 {
      NothingStep(env, events, events, s, stored, total, storedNext, totalNext);
    } else if x.addr in s.byAddr {
      assert AnnouncedAddr(env, events, x.addr);
      var g :| g in events && Taken(env, g) && g.addr == x.addr;
      OneAddressEach(env, events, g, x.id);
      HitKnown(env, events, events, s, stored, total, storedNext, totalNext, g, x.id, x.hits);
    } else if x.id in s.byId {
      assert AnnouncedId(env, events, x.id);
      var g :| g in events && Taken(env, g) && IdOf(env, g) == x.id;
      OneAddressEach(env, events, g, x.id);
      RowById(env, events, s, stored, total, storedNext, totalNext, x, g);
    } else {
      RowWaits(env, events, s, stored, total, storedNext, totalNext, x);
    }
  }

  lemma RowGrows(env: Env, events: seq<Event>, extra: seq<Entry>, x: Entry)
    ensures Grown(StoredBy(events, extra), StoredBy(events, extra + [x]), x.id, x.hits)
    ensures Grown(TotalBy(env, events, extra), TotalBy(env, events, extra + [x]), x.id, x.hits)
  {
    forall id: nat ensures StoredIn(extra + [x], id) == StoredIn(extra, id) + if id == x.id then x.hits else 0 {
      StoredInGrows(extra, x, id);
    }
  }

  lemma {:induction false} RowsCount(env: Env, events: seq<Event>, s: State, entries: seq<Entry>)
    requires CountsOk(env, events, s, StoredBy(events, []), TotalBy(env, events, [])) && Script(env, events)
    requires forall x :: x in entries ==> RowOk(env, events, x)
    ensures CountsOk(env, events, RestoredAll(env, s, entries), StoredBy(events, entries), TotalBy(env, events, entries))
  {
    if entries != [] {
      var before, x := entries[..|entries| - 1], entries[|entries| - 1];
      RowsCount(env, events, s, before);
      RowGrows(env, events, before, x);
      assert before + [x] == entries;
      RowCounts(env, events, RestoredAll(env, s, before), StoredBy(events, before), TotalBy(env, events, before),
                StoredBy(events, entries), TotalBy(env, events, entries), x);
    }
  }

  lemma ReadCounts(env: Env, events: seq<Event>, s: State, e: Event)
    requires CountsOk(env, events, s, StoredBy(events, []), TotalBy(env, events, [])) && Script(env, events)
    requires e.ReadDatabase? && forall x :: x in e.entries ==> RowOk(env, events, x)
    ensures CountsOk(env, events + [e], RestoredAll(env, s, e.entries), StoredBy(events + [e], []), TotalBy(env, events + [e], []))
  {
    NotALine(env, events, e);
    RowsCount(env, events, s, e.entries);
    forall id: nat
      ensures Stored(events + [e], id) == Stored(events, id) + StoredIn(e.entries, id)
      ensures Live(env, events + [e], id) == Live(env, events, id)
    {
      SoFarGrows(env, events, e, id);
    }
    NothingStep(env, events, events + [e], RestoredAll(env, s, e.entries), StoredBy(events, e.entries),
                TotalBy(env, events, e.entries), StoredBy(events + [e], []), TotalBy(env, events + [e], []));
  }

  // ----- a line -----

  /** Lines and files may have been added, without addresses and without touching an index. */
  ghost predicate Extends(env: Env, s: State, t: State) {
    && t.byAddr == s.byAddr && t.byId == s.byId && t.pending == s.pending && |s.lines| <= |t.lines|
    && (forall j :: 0 <= j < |s.lines| ==> t.lines[j] == s.lines[j])
    && (forall j :: |s.lines| <= j < |t.lines| ==> t.lines[j].addrs == [])
    && (forall f :: f in t.files ==> t.files[f].hash == env.hash(f))
    && (forall f :: f in s.files ==> f in t.files)
    && (forall f, k: nat {:trigger GetLine(t.files[f], k)} :: f in s.files && GetLine(s.files[f], k).At? ==>
          GetLine(t.files[f], k) == GetLine(s.files[f], k))
  }

  lemma NewLineExtends(env: Env, s: State, t: State, file: Name, nr: nat, unreachable: bool)
    requires Extends(env, s, t) && file in t.files && GetLine(t.files[file], nr).Null?
    ensures Extends(env, s, NewLine(t, file, nr, unreachable))
  {
    var u := NewLine(t, file, nr, unreachable);
    forall f, k: nat | f in s.files && GetLine(s.files[f], k).At?
      ensures GetLine(u.files[f], k) == GetLine(s.files[f], k)
    {
      assert GetLine(t.files[f], k) == GetLine(s.files[f], k);
    }
  }

  lemma {:induction false} UnreachablesExtend(env: Env, s: State, t: State, file: Name, marks: seq<bool>)
    requires Extends(env, s, t) && file in t.files && t.files[file].slots == []
    ensures var u := Unreachables(t, file, marks); Extends(env, s, u) && |u.files[file].slots| <= |marks| + 1
  {
    if marks != [] {
      UnreachablesExtend(env, s, t, file, marks[..|marks| - 1]);
      var u := Unreachables(t, file, marks[..|marks| - 1]);
      if !marks[|marks| - 1] {
        NewLineExtends(env, s, u, file, |marks|, true);
      }
    }
  }

  lemma EnsuredExtends(env: Env, s: State, file: Name, nr: nat, marks: seq<bool>)
    requires forall f :: f in s.files ==> s.files[f].hash == env.hash(f)
    ensures Extends(env, s, Ensured(env, s, file, nr, marks))
  {
    var t := s;
    if file !in s.files {
      var r := s.(files := s.files[file := File(env.hash(file), [], 0)]);
      UnreachablesExtend(env, s, r, file, marks);
      t := Unreachables(r, file, marks);
    }
    if GetLine(t.files[file], nr).Null? {
      NewLineExtends(env, s, t, file, nr, false);
    }
  }

  lemma ExtendedLine(env: Env, s: State, t: State, e: Event, id: nat, total: nat)
    requires Extends(env, s, t) && e.OnLine? && LineOk(s, e, id, total)
    ensures LineOk(t, e, id, total)
  {
    assert GetLine(t.files[e.file], e.nr) == GetLine(s.files[e.file], e.nr);
  }

  lemma ExtendedCounts(env: Env, events: seq<Event>, s: State, t: State, stored: nat -> nat, total: nat -> nat)
    requires CountsOk(env, events, s, stored, total) && Extends(env, s, t)
    ensures CountsOk(env, events, t, stored, total)
  {
    forall e | e in events && Taken(env, e) ensures LineOk(t, e, IdOf(env, e), total(IdOf(env, e))) {
      LineOf(env, events, s, total, e);
      ExtendedLine(env, s, t, e, IdOf(env, e), total(IdOf(env, e)));
    }
    WaitingSame(s, t, stored, stored);
  }

  lemma {:induction false} DeliveredSum(l: Line, addr: nat, n: nat, hits: seq<Pending>)
    requires Single(l, addr, Low(n)) && forall k :: 0 <= k < |hits| ==> hits[k].index == 0
    ensures Single(Delivered(l, hits), addr, Low(n + Waiting(hits)))
  {
    if hits != [] {
      var before := hits[..|hits| - 1];
      DeliveredSum(l, addr, n, before);
      OneAddress(Delivered(l, before), addr, n + Waiting(before), hits[|hits| - 1].hits);
    }
  }

  lemma {:induction false} NoneLive(env: Env, events: seq<Event>, id: nat)
    requires !AnnouncedId(env, events, id)
    ensures Live(env, events, id) == 0
  {
    if events != [] {
      var before := events[..|events| - 1];
      assert forall e :: e in before ==> e in events;
      NoneLive(env, before, id);
    }
  }

  /** A line announced again changes nothing. */
  lemma KnownAgain(s: State, e: Event, id: nat, total: nat, i: nat)
    requires e.OnLine? && LineOk(s, e, id, total) && i < |s.lines| && At(i) == GetLine(s.files[e.file], e.nr)
    requires s.lines[i].id == id && (id in s.pending ==> s.pending[id] == [])
    ensures Replayed(Indexed(s, i, e.addr), i) == s
  {
    HoldsAt(s.lines[i], 0);
    assert s.byAddr[e.addr][0] == i;
    assert Known(s, e.addr, id);
    assert s.lines[i := s.lines[i]] == s.lines;
    assert Indexed(s, i, e.addr) == s;
    assert Delivered(s.lines[i], []) == s.lines[i];
  }

  /** A new line is indexed, and what was waiting for it is its count. */
  lemma FirstTime(s: State, addr: nat, i: nat, id: nat, waiting: nat)
    requires i < |s.lines| && s.lines[i].id == id && s.lines[i].addrs == [] && addr !in s.byAddr && PendingOk(s, id, waiting)
    ensures var t := Replayed(Indexed(s, i, addr), i);
            && t.files == s.files && t.byId == s.byId[id := i] && t.byAddr == s.byAddr[addr := [i]]
            && t.pending == (if id in s.pending then s.pending[id := []] else s.pending)
            && |t.lines| == |s.lines| && t.lines[i].id == id && Single(t.lines[i], addr, Low(waiting))
            && forall j :: 0 <= j < |s.lines| && j != i ==> t.lines[j] == s.lines[j]
  {
    var u := Indexed(s, i, addr);
    assert [] + [i] == [i];
    assert Single(u.lines[i], addr, Low(0));
    if id in s.pending {
      DeliveredSum(u.lines[i], addr, 0, s.pending[id]);
      HitsDelivered(u.lines[i], s.pending[id]);
    }
  }

  lemma IndexGrows(env: Env, events: seq<Event>, e: Event, s: State, t: State)
    requires IndexOk(env, events, s) && Taken(env, e)
    requires t.byId.Keys == s.byId.Keys + {IdOf(env, e)} && t.byAddr.Keys == s.byAddr.Keys + {e.addr}
    requires t.files == s.files
    ensures IndexOk(env, events + [e], t)
  {
    assert forall x :: x in events + [e] <==> x in events || x == e;
    forall id ensures AnnouncedId(env, events + [e], id) <==> AnnouncedId(env, events, id) || id == IdOf(env, e) {
    }
    forall a ensures AnnouncedAddr(env, events + [e], a) <==> AnnouncedAddr(env, events, a) || a == e.addr {
    }
  }

  /** Its totals are those of before. */
  lemma SameTotals(env: Env, events: seq<Event>, e: Event)
    requires e.OnLine?
    ensures forall id :: StoredBy(events + [e], [])(id) == StoredBy(events, [])(id)
    ensures forall id :: TotalBy(env, events + [e], [])(id) == TotalBy(env, events, [])(id)
  {
    forall id: nat
      ensures Stored(events + [e], id) == Stored(events, id) && Live(env, events + [e], id) == Live(env, events, id)
    {
      SoFarGrows(env, events, e, id);
    }
  }

  lemma AgainCounts(env: Env, events: seq<Event>, s: State, e: Event, g: Event, i: nat, stored: nat -> nat, total: nat -> nat,
                    storedNext: nat -> nat, totalNext: nat -> nat)
    requires CountsOk(env, events, s, stored, total) && Taken(env, e) && g in events && Taken(env, g)
    requires g.file == e.file && g.nr == e.nr && g.addr == e.addr
    requires i < |s.lines| && e.file in s.files && At(i) == GetLine(s.files[e.file], e.nr) && s.lines[i].id == IdOf(env, e)
    requires (forall x :: storedNext(x) == stored(x)) && (forall x :: totalNext(x) == total(x))
    ensures CountsOk(env, events + [e], Replayed(Indexed(s, i, e.addr), i), storedNext, totalNext)
  {
    LineOf(env, events, s, total, g);
    KnownAgain(s, e, IdOf(env, e), total(IdOf(env, e)), i);
    IndexGrows(env, events, e, s, s);
    WaitingSame(s, s, stored, storedNext);
    forall x | x in events + [e] && Taken(env, x) ensures LineOk(s, x, IdOf(env, x), totalNext(IdOf(env, x))) {
      if x in events {
        LineOf(env, events, s, total, x);
      }
    }
  }

  lemma FirstLines(env: Env, events: seq<Event>, s: State, t: State, e: Event, i: nat, total: nat -> nat, totalNext: nat -> nat)
    requires LinesOk(env, events, s, total) && IdsOk(s) && Taken(env, e) && !AnnouncedId(env, events, IdOf(env, e))
    requires !AnnouncedAddr(env, events, e.addr) && IdOf(env, e) !in s.byId
    requires forall x :: totalNext(x) == total(x)
    requires i < |s.lines| == |t.lines| && e.file in s.files && At(i) == GetLine(s.files[e.file], e.nr)
    requires s.lines[i].id == IdOf(env, e)
    requires t.files == s.files && t.byId == s.byId[IdOf(env, e) := i] && t.byAddr == s.byAddr[e.addr := [i]]
    requires Single(t.lines[i], e.addr, Low(total(IdOf(env, e))))
    requires forall j :: 0 <= j < |s.lines| && j != i ==> t.lines[j] == s.lines[j]
    ensures LinesOk(env, events + [e], t, totalNext)
  {
    forall x | x in events + [e] && Taken(env, x) ensures LineOk(t, x, IdOf(env, x), totalNext(IdOf(env, x))) {
      if x in events {
        LineOf(env, events, s, total, x);
        assert IdOf(env, x) != IdOf(env, e) && x.addr != e.addr;
      }
    }
  }

  lemma FirstWaiting(s: State, t: State, id: nat, i: nat, stored: nat -> nat, storedNext: nat -> nat)
    requires WaitingOk(s, stored) && t.byId == s.byId[id := i] && id !in s.byId
    requires t.pending == if id in s.pending then s.pending[id := []] else s.pending
    requires forall x :: storedNext(x) == stored(x)
    ensures WaitingOk(t, storedNext)
  {
    forall x | x !in t.byId ensures PendingOk(t, x, storedNext(x)) {
      assert PendingOk(s, x, stored(x));
    }
  }

  lemma FirstBare(s: State, t: State, id: nat, i: nat)
    requires IdsOk(s) && Bare(s) && i < |s.lines| == |t.lines| && s.lines[i].id == t.lines[i].id == id && id !in s.byId
    requires t.byId == s.byId[id := i] && forall j :: 0 <= j < |s.lines| && j != i ==> t.lines[j] == s.lines[j]
    ensures IdsOk(t) && Bare(t)
  {
  }

  lemma FirstCounts(env: Env, events: seq<Event>, s: State, e: Event, i: nat, stored: nat -> nat, total: nat -> nat,
                    storedNext: nat -> nat, totalNext: nat -> nat)
    requires CountsOk(env, events, s, stored, total) && Taken(env, e)
    requires !AnnouncedId(env, events, IdOf(env, e)) && !AnnouncedAddr(env, events, e.addr)
    requires total(IdOf(env, e)) == stored(IdOf(env, e))
    requires i < |s.lines| && e.file in s.files && At(i) == GetLine(s.files[e.file], e.nr) && s.lines[i].id == IdOf(env, e)
    requires (forall x :: storedNext(x) == stored(x)) && (forall x :: totalNext(x) == total(x))
    ensures CountsOk(env, events + [e], Replayed(Indexed(s, i, e.addr), i), storedNext, totalNext)
  {
    var id := IdOf(env, e);
    assert id !in s.byId && e.addr !in s.byAddr;
    assert PendingOk(s, id, stored(id));
    FirstTime(s, e.addr, i, id, stored(id));
    var t := Replayed(Indexed(s, i, e.addr), i);
    FirstBare(s, t, id, i);
    FirstWaiting(s, t, id, i, stored, storedNext);
    FirstLines(env, events, s, t, e, i, total, totalNext);
    IndexGrows(env, events, e, s, t);
  }

  lemma LineCounts(env: Env, events: seq<Event>, s: State, e: Event)
    requires CountsOk(env, events, s, StoredBy(events, []), TotalBy(env, events, [])) && Inv(s)
    requires Script(env, events + [e]) && Taken(env, e)
    ensures CountsOk(env, events + [e], Step(env, s, e), StoredBy(events + [e], []), TotalBy(env, events + [e], []))
  {
    EnsuredExtends(env, s, e.file, e.nr, e.marks);
    EnsuredKeeps(env, s, e.file, e.nr, e.marks);
    var t := Ensured(env, s, e.file, e.nr, e.marks);
    ExtendedCounts(env, events, s, t, StoredBy(events, []), TotalBy(env, events, []));
    SlotCounts(env, events, t, e, GetLine(t.files[e.file], e.nr).line);
  }

  lemma SlotCounts(env: Env, events: seq<Event>, t: State, e: Event, i: nat)
    requires CountsOk(env, events, t, StoredBy(events, []), TotalBy(env, events, []))
    requires Script(env, events + [e]) && Taken(env, e) && e.file in t.files
    requires At(i) == GetLine(t.files[e.file], e.nr) && i < |t.lines| && t.lines[i].id == IdOf(env, e)
    ensures CountsOk(env, events + [e], Replayed(Indexed(t, i, e.addr), i), StoredBy(events + [e], []), TotalBy(env, events + [e], []))
  {
    SameTotals(env, events, e);
    var id := IdOf(env, e);
    assert e in events + [e] && forall x :: x in events ==> x in events + [e];
    if AnnouncedId(env, events, id) {
      var g :| g in events && Taken(env, g) && IdOf(env, g) == id;
      AgainCounts(env, events, t, e, g, i, StoredBy(events, []), TotalBy(env, events, []),
                  StoredBy(events + [e], []), TotalBy(env, events + [e], []));
    } else {
      NoneLive(env, events, id);
      assert !AnnouncedAddr(env, events, e.addr);
      FirstCounts(env, events, t, e, i, StoredBy(events, []), TotalBy(env, events, []),
                  StoredBy(events + [e], []), TotalBy(env, events + [e], []));
    }
  }

  lemma StepCounts(env: Env, events: seq<Event>, s: State, e: Event)
    requires CountsOk(env, events, s, StoredBy(events, []), TotalBy(env, events, [])) && Inv(s)
    requires Script(env, events + [e])
    ensures CountsOk(env, events + [e], Step(env, s, e), StoredBy(events + [e], []), TotalBy(env, events + [e], []))
  {
    ScriptBefore(env, events, e);
    match e
    case OnLine(_, _, _, _) =>
      if Taken(env, e) {
        LineCounts(env, events, s, e);
      } else {
        SameTotals(env, events, e);
        NotALine(env, events, e);
        NothingStep(env, events, events + [e], s, StoredBy(events, []), TotalBy(env, events, []),
                    StoredBy(events + [e], []), TotalBy(env, events + [e], []));
      }
    case OnAddressHit(_, _) => HitCounts(env, events, s, e);
    case ReadDatabase(entries) =>
      RowsOk(env, events, e);
      ReadCounts(env, events, s, e);
  }

  lemma RowsOk(env: Env, events: seq<Event>, e: Event)
    requires Script(env, events + [e]) && e.ReadDatabase?
    ensures forall x :: x in e.entries ==> RowOk(env, events, x)
  {
    assert e in events + [e] && forall x :: x in events ==> x in events + [e];
  }

  lemma {:induction false} RunCounts(env: Env, events: seq<Event>)
    requires Script(env, events)
    ensures CountsOk(env, events, Run(env, events), StoredBy(events, []), TotalBy(env, events, []))
  {
    if events != [] {
      var before, e := events[..|events| - 1], events[|events| - 1];
      assert before + [e] == events;
      ScriptBefore(env, before, e);
      RunCounts(env, before);
      RunKeepsInv(env, before);
      StepCounts(env, before, Run(env, before), e);
    }
  }
}
