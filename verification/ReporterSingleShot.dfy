/** Single-shot hits and what a database adds to them. */
module ReporterSingleShot {
  // A compiled line counts once for each address. Hits that the database holds are added all the same when they are
  // restored by index. This says what the counters of a line are after any run, and so when the line exceeds what is
  // possible. Lines may have any number of addresses and share them; only the line's id must be its own.

  import opened Bytes
  import opened ReporterState
  import opened ReporterInvariants
  import opened ReporterRuns
  import opened ReporterCounts

  // ----- the line followed: that of the announcement g -----

  ghost predicate OwnId(env: Env, events: seq<Event>, g: Event)
    requires g.OnLine?
  {
    forall e :: e in events && Taken(env, e) && IdOf(env, e) == IdOf(env, g) ==> e.file == g.file && e.nr == g.nr
  }

  /** The line's addresses in the order they were announced. */
  function AddrsOf(env: Env, events: seq<Event>, id: nat): seq<nat> {
    if events == [] then []
    else
      var before, e := AddrsOf(env, events[..|events| - 1], id), events[|events| - 1];
      if Taken(env, e) && IdOf(env, e) == id && e.addr !in before then before + [e.addr] else before
  }

  // ----- what a counter should be -----

  /** The slot the row's index names is there, or will be the first one of a line not yet announced. */
  predicate HasRoom(addrs: seq<nat>, j: nat) {
    j < |addrs| || (addrs == [] && j == 0)
  }

  /** A row whose address is known counts once, as a hit does; any other is added to the slot it names. */
  function RowValue(there: bool, addrs: seq<nat>, id: nat, j: nat, v: nat, x: Entry): nat {
    if x.hits == 0 then v
    else if there then if j < |addrs| && addrs[j] == x.addr then 1 else v
    else if x.id == id && x.index == j && HasRoom(addrs, j) then v + x.hits
    else v
  }

  ghost function RowsValue(known: nat -> bool, addrs: seq<nat>, id: nat, j: nat, v: nat, rows: seq<Entry>): nat {
    if rows == [] then v
    else
      var x := rows[|rows| - 1];
      RowValue(known(x.addr), addrs, id, j, RowsValue(known, addrs, id, j, v, rows[..|rows| - 1]), x)
  }

  ghost function KnownAddrs(env: Env, events: seq<Event>): nat -> bool {
    (a: nat) => AnnouncedAddr(env, events, a)
  }

  ghost function NextValue(known: nat -> bool, addrs: seq<nat>, id: nat, j: nat, v: nat, e: Event): nat {
    match e
    case OnLine(_, _, _, _) => v
    case OnAddressHit(addr, _) => if j < |addrs| && addrs[j] == addr then 1 else v
    case ReadDatabase(rows) => RowsValue(known, addrs, id, j, v, rows)
  }

  /** For slot j: the rows added by index since its address was last hit, and one for that hit. */
  ghost function Value(env: Env, events: seq<Event>, id: nat, j: nat): nat {
    if events == [] then 0
    else
      var before, e := events[..|events| - 1], events[|events| - 1];
      NextValue(KnownAddrs(env, before), AddrsOf(env, before, id), id, j, Value(env, before, id, j), e)
  }

  ghost function Values(env: Env, events: seq<Event>, id: nat): nat -> nat {
    (j: nat) => Value(env, events, id, j)
  }

  // ----- the invariant -----

  ghost predicate Counters(l: Line, addrs: seq<nat>, v: nat -> nat) {
    |l.addrs| == |addrs| && forall j: nat :: j < |addrs| ==> l.addrs[j] == Count(addrs[j], Low(v(j)))
  }

  /** Of what waits, only what is for the first slot will be delivered. */
  function ForFirst(hits: seq<Pending>): nat {
    if hits == [] then 0
    else ForFirst(hits[..|hits| - 1]) + if hits[|hits| - 1].index == 0 then hits[|hits| - 1].hits else 0
  }

  ghost predicate WaitsFor(s: State, id: nat, n: nat) {
    if id in s.pending then ForFirst(s.pending[id]) == n else n == 0
  }

  /** Of the lines with the id only the announced one has addresses. */
  ghost predicate OneLineWithId(s: State, id: nat) {
    forall j :: 0 <= j < |s.lines| && s.lines[j].id == id && s.lines[j].addrs != [] ==> id in s.byId && j == s.byId[id]
  }

  ghost predicate ListedAt(s: State, addrs: seq<nat>, i: nat) {
    forall a :: a in addrs ==> a in s.byAddr && i in s.byAddr[a]
  }

  ghost predicate IsAnnounced(s: State, g: Event, id: nat, addrs: seq<nat>, v: nat -> nat)
    requires g.OnLine?
  {
    && id in s.byId && s.byId[id] < |s.lines| && g.file in s.files && GetLine(s.files[g.file], g.nr) == At(s.byId[id])
    && Counters(s.lines[s.byId[id]], addrs, v) && ListedAt(s, addrs, s.byId[id])
    && (id in s.pending ==> s.pending[id] == [])
  }

  ghost predicate Follows(s: State, g: Event, id: nat, addrs: seq<nat>, v: nat -> nat)
    requires g.OnLine?
  {
    && OneLineWithId(s, id) && (forall j: nat :: !HasRoom(addrs, j) ==> v(j) == 0)
    && if addrs != [] then IsAnnounced(s, g, id, addrs, v) else id !in s.byId && WaitsFor(s, id, v(0))
  }

  ghost predicate Indexes(env: Env, events: seq<Event>, s: State) {
    && (forall f :: f in s.files ==> s.files[f].hash == env.hash(f))
    && (forall a {:trigger AnnouncedAddr(env, events, a)} :: a in s.byAddr <==> AnnouncedAddr(env, events, a))
  }

  lemma IndexesGrow(env: Env, events: seq<Event>, e: Event, s: State, t: State)
    requires Indexes(env, events, s)
    requires forall f :: f in t.files ==> t.files[f].hash == env.hash(f)
    requires forall a :: a in t.byAddr <==> a in s.byAddr || (Taken(env, e) && e.addr == a)
    ensures Indexes(env, events + [e], t)
  {
    assert forall x :: x in events + [e] <==> x in events || x == e;
    forall a ensures AnnouncedAddr(env, events + [e], a) <==> AnnouncedAddr(env, events, a) || (Taken(env, e) && e.addr == a) {
    }
  }

  // ----- other lines -----

  /** Whatever changed, it was not the line, its id or what waits for it, and it is still listed where it was. */
  ghost predicate Aside(s: State, t: State, id: nat) {
    && |s.lines| <= |t.lines| && t.files == s.files
    && (id in t.byId <==> id in s.byId) && (id in s.byId ==> t.byId[id] == s.byId[id])
    && (forall a :: a in s.byAddr ==> a in t.byAddr && forall k :: k in s.byAddr[a] ==> k in t.byAddr[a])
    && (id in t.pending <==> id in s.pending) && (id in s.pending ==> t.pending[id] == s.pending[id])
    && (forall j :: 0 <= j < |s.lines| && s.lines[j].id == id ==> t.lines[j] == s.lines[j])
    && (forall j :: 0 <= j < |t.lines| && t.lines[j].id == id ==> j < |s.lines| && s.lines[j].id == id)
  }

  lemma StaysAside(s: State, t: State, g: Event, id: nat, addrs: seq<nat>, v: nat -> nat)
    requires g.OnLine? && Follows(s, g, id, addrs, v) && Aside(s, t, id) && IdsOk(s)
    ensures Follows(t, g, id, addrs, v)
  {
  }

  lemma {:induction false} HitsOfOthers(env: Env, s: State, at: seq<nat>, addr: nat, hits: nat)
    ensures var t := HitLines(env, s, at, addr, hits);
            && |t.lines| == |s.lines|
            && (forall j :: 0 <= j < |s.lines| ==> t.lines[j].id == s.lines[j].id)
            && (forall j :: 0 <= j < |s.lines| && j !in at ==> t.lines[j] == s.lines[j])
  {
    if at != [] {
      HitsOfOthers(env, s, at[..|at| - 1], addr, hits);
      assert at == at[..|at| - 1] + [at[|at| - 1]];
    }
  }

  lemma HoldsIff(l: Line, addrs: seq<nat>, v: nat -> nat, addr: nat)
    requires Counters(l, addrs, v)
    ensures Holds(l, addr) <==> addr in addrs
  {
    if addr in addrs {
      var j :| 0 <= j < |addrs| && addrs[j] == addr;
      assert l.addrs[j] == Count(addrs[j], Low(v(j)));
      HoldsAt(l, j);
    }
    if Holds(l, addr) {
      var j := Find(l.addrs, addr);
      assert l.addrs[j] == Count(addrs[j], Low(v(j)));
    }
  }

  /** Which of the lines with the id hold an address. */
  lemma OnlyAnnouncedHolds(s: State, g: Event, id: nat, addrs: seq<nat>, v: nat -> nat, addr: nat, j: nat)
    requires g.OnLine? && Follows(s, g, id, addrs, v) && j < |s.lines| && s.lines[j].id == id
    ensures Holds(s.lines[j], addr) <==> addrs != [] && j == s.byId[id] && addr in addrs
  {
    if s.lines[j].addrs != [] && addrs != [] {
      HoldsIff(s.lines[j], addrs, v, addr);
    }
  }

  /** A hit at an address that is not the line's. */
  lemma HitAside(env: Env, s: State, g: Event, id: nat, addrs: seq<nat>, v: nat -> nat, addr: nat, hits: nat)
    requires g.OnLine? && Follows(s, g, id, addrs, v) && Inv(s) && addr !in addrs && addr in s.byAddr
    ensures Aside(s, AddressHit(env, s, addr, hits), id)
  {
    var at := s.byAddr[addr];
    HitsKeepIndexes(env, s, at, addr, hits);
    HitsOfOthers(env, s, at, addr, hits);
    forall j | 0 <= j < |s.lines| && s.lines[j].id == id ensures j !in at {
      OnlyAnnouncedHolds(s, g, id, addrs, v, addr, j);
      assert forall k :: 0 <= k < |at| ==> Holds(s.lines[at[k]], addr);
    }
  }

  // ----- hits -----

  lemma {:induction false} HitOnce(env: Env, s: State, at: seq<nat>, addr: nat, hits: nat, i: nat)
    requires i < |s.lines| && i in at && forall j, k :: 0 <= j < k < |at| ==> at[j] != at[k]
    ensures |HitLines(env, s, at, addr, hits).lines| == |s.lines|
    ensures HitLines(env, s, at, addr, hits).lines[i].addrs == RegisterHit(s.lines[i], addr, hits, env.singleShot).addrs
  {
    var before, last := at[..|at| - 1], at[|at| - 1];
    assert at == before + [last];
    HitsOfOthers(env, s, before, addr, hits);
    if last != i {
      HitOnce(env, s, before, addr, hits, i);
    } else {
      assert i !in before;
    }
  }

  lemma ShotCounters(l: Line, addrs: seq<nat>, v: nat -> nat, w: nat -> nat, addr: nat, hits: nat)
    requires Counters(l, addrs, v) && Distinct(l) && addr in addrs
    requires forall j: nat :: j < |addrs| ==> w(j) == if addrs[j] == addr then 1 else v(j)
    ensures Counters(RegisterHit(l, addr, hits, true), addrs, w)
  {
    HoldsIff(l, addrs, v, addr);
    var k := Find(l.addrs, addr);
    var m := RegisterHit(l, addr, hits, true);
    assert |m.addrs| == |l.addrs|;
    forall j: nat | j < |addrs| ensures m.addrs[j] == Count(addrs[j], Low(w(j))) {
      assert l.addrs[j] == Count(addrs[j], Low(v(j)));
    }
  }

  lemma HitOwn(env: Env, s: State, g: Event, id: nat, addrs: seq<nat>, v: nat -> nat, w: nat -> nat, addr: nat, hits: nat)
    requires env.singleShot && g.OnLine? && Follows(s, g, id, addrs, v) && Inv(s) && addr in addrs
    requires forall j: nat :: w(j) == if j < |addrs| && addrs[j] == addr then 1 else v(j)
    ensures Follows(AddressHit(env, s, addr, hits), g, id, addrs, w)
  {
    var at, i := s.byAddr[addr], s.byId[id];
    var t := AddressHit(env, s, addr, hits);
    HitsKeepIndexes(env, s, at, addr, hits);
    HitsOfOthers(env, s, at, addr, hits);
    assert ListOk(s.lines, at, addr);
    HitOnce(env, s, at, addr, hits, i);
    ShotCounters(s.lines[i], addrs, v, w, addr, hits);
    forall j | 0 <= j < |t.lines| && t.lines[j].id == id && t.lines[j].addrs != [] ensures j == t.byId[id] {
      OnlyAnnouncedHolds(s, g, id, addrs, v, addr, j);
      assert forall k :: 0 <= k < |at| ==> Holds(s.lines[at[k]], addr);
    }
  }

  lemma HitFollows(env: Env, s: State, g: Event, id: nat, addrs: seq<nat>, v: nat -> nat, w: nat -> nat, addr: nat, hits: nat)
    requires env.singleShot && g.OnLine? && Follows(s, g, id, addrs, v) && Inv(s)
    requires forall j: nat :: w(j) == if j < |addrs| && addrs[j] == addr then 1 else v(j)
    ensures Follows(AddressHit(env, s, addr, hits), g, id, addrs, w)
  {
    if addr in addrs {
      HitOwn(env, s, g, id, addrs, v, w, addr, hits);
    } else {
      SameValues(s, g, id, addrs, v, w);
      if addr in s.byAddr {
        HitAside(env, s, g, id, addrs, w, addr, hits);
        StaysAside(s, AddressHit(env, s, addr, hits), g, id, addrs, w);
      }
    }
  }

  lemma SameValues(s: State, g: Event, id: nat, addrs: seq<nat>, v: nat -> nat, w: nat -> nat)
    requires g.OnLine? && Follows(s, g, id, addrs, v) && forall j: nat :: w(j) == v(j)
    ensures Follows(s, g, id, addrs, w)
  {
  }

  // ----- rows -----

  lemma RowAside(env: Env, s: State, id: nat, x: Entry)
    requires IdsOk(s) && x.hits != 0 && x.addr !in s.byAddr && x.id != id
    ensures Aside(s, Restored(env, s, x), id)
  {
  }

  lemma AddedCounters(l: Line, addrs: seq<nat>, v: nat -> nat, w: nat -> nat, index: nat, hits: nat)
    requires Counters(l, addrs, v)
    requires forall j: nat :: j < |addrs| ==> w(j) == if j == index then v(j) + hits else v(j)
    ensures Counters(RegisterHitIndex(l, index, hits), addrs, w)
  {
    if index < |addrs| {
      assert l.addrs[index] == Count(addrs[index], Low(v(index)));
      WrapsOnce(v(index), hits);
    }
  }

  lemma RowOwn(env: Env, s: State, g: Event, id: nat, addrs: seq<nat>, v: nat -> nat, w: nat -> nat, x: Entry)
    requires g.OnLine? && Follows(s, g, id, addrs, v) && addrs != []
    requires x.hits != 0 && x.addr !in s.byAddr && x.id == id
    requires forall j: nat :: w(j) == if x.index == j && j < |addrs| then v(j) + x.hits else v(j)
    ensures Follows(Restored(env, s, x), g, id, addrs, w)
  {
    AddedCounters(s.lines[s.byId[id]], addrs, v, w, x.index, x.hits);
  }

  lemma RowWaiting(env: Env, s: State, g: Event, id: nat, v: nat -> nat, w: nat -> nat, x: Entry)
    requires g.OnLine? && Follows(s, g, id, [], v) && x.hits != 0 && x.addr !in s.byAddr && x.id == id
    requires forall j: nat :: w(j) == if x.index == j && j == 0 then v(j) + x.hits else v(j)
    ensures Follows(Restored(env, s, x), g, id, [], w)
  {
    var was := if id in s.pending then s.pending[id] else [];
    var now := was + [Pending(x.index, x.hits)];
    assert now[..|was|] == was && ForFirst(now) == w(0);
    assert Restored(env, s, x) == s.(pending := s.pending[id := now]);
  }

  lemma RowFollows(env: Env, s: State, g: Event, id: nat, addrs: seq<nat>, v: nat -> nat, w: nat -> nat, x: Entry)
    requires env.singleShot && g.OnLine? && Inv(s) && Follows(s, g, id, addrs, v)
    requires forall j: nat :: w(j) == RowValue(x.addr in s.byAddr, addrs, id, j, v(j), x)
    ensures Follows(Restored(env, s, x), g, id, addrs, w)
  {
    if x.hits == 0 {
      SameValues(s, g, id, addrs, v, w);
    } else if x.addr in s.byAddr {
      HitFollows(env, s, g, id, addrs, v, w, x.addr, x.hits);
    } else if x.id == id {
      if addrs != [] {
        RowOwn(env, s, g, id, addrs, v, w, x);
      } else {
        RowWaiting(env, s, g, id, v, w, x);
      }
    } else {
      SameValues(s, g, id, addrs, v, w);
      RowAside(env, s, id, x);
      StaysAside(s, Restored(env, s, x), g, id, addrs, w);
    }
  }

  lemma RowIndexes(env: Env, events: seq<Event>, s: State, x: Entry)
    requires Indexes(env, events, s)
    ensures Indexes(env, events, Restored(env, s, x))
  {
    if x.addr in s.byAddr {
      HitsKeepIndexes(env, s, s.byAddr[x.addr], x.addr, x.hits);
    }
  }

  ghost function AfterRows(known: nat -> bool, addrs: seq<nat>, id: nat, v: nat -> nat, rows: seq<Entry>): nat -> nat {
    (j: nat) => RowsValue(known, addrs, id, j, v(j), rows)
  }

  lemma {:induction false} RowsFollow(env: Env, events: seq<Event>, s: State, g: Event, id: nat, addrs: seq<nat>, v: nat -> nat,
                                      rows: seq<Entry>)
    requires env.singleShot && g.OnLine? && Inv(s) && Indexes(env, events, s) && Follows(s, g, id, addrs, v)
    ensures var t := RestoredAll(env, s, rows);
            Indexes(env, events, t) && Follows(t, g, id, addrs, AfterRows(KnownAddrs(env, events), addrs, id, v, rows))
  {
    var after := AfterRows(KnownAddrs(env, events), addrs, id, v, rows);
    if rows != [] {
      var before, x := rows[..|rows| - 1], rows[|rows| - 1];
      RowsFollow(env, events, s, g, id, addrs, v, before);
      RestoredAllKeeps(env, s, before);
      var t := RestoredAll(env, s, before);
      assert x.addr in t.byAddr <==> AnnouncedAddr(env, events, x.addr);
      RowFollows(env, t, g, id, addrs, AfterRows(KnownAddrs(env, events), addrs, id, v, before), after, x);
      RowIndexes(env, events, t, x);
    } else {
      SameValues(s, g, id, addrs, v, after);
    }
  }

  // ----- announcements -----

  lemma ExtendedFollows(env: Env, s: State, t: State, g: Event, id: nat, addrs: seq<nat>, v: nat -> nat)
    requires g.OnLine? && Extends(env, s, t) && Follows(s, g, id, addrs, v)
    ensures Follows(t, g, id, addrs, v)
  {
    if addrs != [] {
      assert GetLine(t.files[g.file], g.nr) == GetLine(s.files[g.file], g.nr);
    }
  }

  /** Another line is announced. */
  lemma OtherAnnounced(s: State, id: nat, i: nat, addr: nat)
    requires i < |s.lines| && s.lines[i].id != id
    ensures Aside(s, Replayed(Indexed(s, i, addr), i), id)
  {
    var u := Indexed(s, i, addr);
    AddressAdded(s.lines[i], addr);
    if u.lines[i].id in u.pending {
      HitsDelivered(u.lines[i], u.pending[u.lines[i].id]);
    }
  }

  /** The line is announced at an address it has. */
  lemma AnnouncedAgain(s: State, g: Event, id: nat, i: nat, addrs: seq<nat>, v: nat -> nat, addr: nat)
    requires g.OnLine? && Follows(s, g, id, addrs, v) && addr in addrs && i == s.byId[id] && s.lines[i].id == id
    ensures Replayed(Indexed(s, i, addr), i) == s
  {
    HoldsIff(s.lines[i], addrs, v, addr);
    var at := s.byAddr[addr];
    var j :| 0 <= j < |at| && at[j] == i;
    assert Known(s, addr, id);
    assert s.lines[i := s.lines[i]] == s.lines;
    assert s.byAddr[addr := at] == s.byAddr && s.byId[id := i] == s.byId;
    assert Delivered(s.lines[i], []) == s.lines[i];
    if id in s.pending {
      assert s.pending[id := []] == s.pending;
    }
  }

  /** No line with the id is listed at an address the line does not have. */
  lemma NotListed(s: State, g: Event, id: nat, addrs: seq<nat>, v: nat -> nat, addr: nat)
    requires g.OnLine? && Follows(s, g, id, addrs, v) && Inv(s) && addr !in addrs
    ensures !Known(s, addr, id)
  {
    if addr in s.byAddr {
      var at := s.byAddr[addr];
      assert ListOk(s.lines, at, addr);
      forall k | 0 <= k < |at| ensures s.lines[at[k]].id != id {
        if s.lines[at[k]].id == id {
          OnlyAnnouncedHolds(s, g, id, addrs, v, addr, at[k]);
        }
      }
    }
  }

  lemma MoreCounters(l: Line, addrs: seq<nat>, v: nat -> nat, addr: nat)
    requires Counters(l, addrs, v) && addr !in addrs && v(|addrs|) == 0
    ensures Counters(AddAddress(l, addr), addrs + [addr], v)
  {
    HoldsIff(l, addrs, v, addr);
  }

  /** The line gets one more address. */
  lemma AnnouncedAlso(s: State, g: Event, id: nat, i: nat, addrs: seq<nat>, v: nat -> nat, addr: nat)
    requires g.OnLine? && Follows(s, g, id, addrs, v) && addrs != [] && Inv(s) && addr !in addrs
    requires i == s.byId[id]
    ensures Follows(Replayed(Indexed(s, i, addr), i), g, id, addrs + [addr], v)
  {
    NotListed(s, g, id, addrs, v, addr);
    MoreCounters(s.lines[i], addrs, v, addr);
    var u := Indexed(s, i, addr);
    assert Delivered(u.lines[i], []) == u.lines[i];
    assert u.lines[i := u.lines[i]] == u.lines;
  }

  lemma {:induction false} FirstDelivered(l: Line, addr: nat, n: nat, hits: seq<Pending>)
    requires Single(l, addr, Low(n))
    ensures Single(Delivered(l, hits), addr, Low(n + ForFirst(hits)))
  {
    if hits != [] {
      var before, last := hits[..|hits| - 1], hits[|hits| - 1];
      FirstDelivered(l, addr, n, before);
      if last.index == 0 {
        OneAddress(Delivered(l, before), addr, n + ForFirst(before), last.hits);
      }
    }
  }

  /** The line is announced for the first time. */
  lemma AnnouncedFirst(s: State, g: Event, id: nat, i: nat, v: nat -> nat, addr: nat)
    requires g.OnLine? && Follows(s, g, id, [], v) && Inv(s) && g.file in s.files
    requires i < |s.lines| && s.lines[i].id == id && At(i) == GetLine(s.files[g.file], g.nr)
    ensures Follows(Replayed(Indexed(s, i, addr), i), g, id, [addr], v)
  {
    NotListed(s, g, id, [], v, addr);
    assert s.lines[i].addrs == [];
    var u := Indexed(s, i, addr);
    assert Single(u.lines[i], addr, Low(0));
    var t := Replayed(u, i);
    if id in s.pending {
      FirstDelivered(u.lines[i], addr, 0, s.pending[id]);
      HitsDelivered(u.lines[i], s.pending[id]);
    }
    assert Single(t.lines[i], addr, Low(v(0)));
    assert Counters(t.lines[i], [addr], v);
  }

  lemma OwnAnnounced(s: State, g: Event, id: nat, i: nat, addrs: seq<nat>, v: nat -> nat, addr: nat)
    requires g.OnLine? && Follows(s, g, id, addrs, v) && Inv(s) && g.file in s.files
    requires i < |s.lines| && At(i) == GetLine(s.files[g.file], g.nr) && s.lines[i].id == id
    ensures Follows(Replayed(Indexed(s, i, addr), i), g, id, if addr in addrs then addrs else addrs + [addr], v)
  {
    if addr in addrs {
      AnnouncedAgain(s, g, id, i, addrs, v, addr);
    } else if addrs != [] {
      AnnouncedAlso(s, g, id, i, addrs, v, addr);
    } else {
      AnnouncedFirst(s, g, id, i, v, addr);
      assert [] + [addr] == [addr];
    }
  }

  /** The slot that an announcement finds or makes. */
  lemma SlotOf(env: Env, s: State, e: Event) returns (t: State, i: nat)
    requires Taken(env, e) && Inv(s) && forall f :: f in s.files ==> s.files[f].hash == env.hash(f)
    ensures t == Ensured(env, s, e.file, e.nr, e.marks) && Extends(env, s, t) && Inv(t)
    ensures e.file in t.files && At(i) == GetLine(t.files[e.file], e.nr) && i < |t.lines| && t.lines[i].id == IdOf(env, e)
    ensures Step(env, s, e) == Replayed(Indexed(t, i, e.addr), i)
  {
    EnsuredExtends(env, s, e.file, e.nr, e.marks);
    EnsuredKeeps(env, s, e.file, e.nr, e.marks);
    t := Ensured(env, s, e.file, e.nr, e.marks);
    i := GetLine(t.files[e.file], e.nr).line;
  }

  lemma LineFollows(env: Env, events: seq<Event>, s: State, g: Event, e: Event, addrs: seq<nat>, v: nat -> nat)
    requires g.OnLine? && Taken(env, e) && Inv(s) && Indexes(env, events, s) && Follows(s, g, IdOf(env, g), addrs, v)
    requires IdOf(env, e) == IdOf(env, g) ==> e.file == g.file && e.nr == g.nr
    ensures var next := if IdOf(env, e) == IdOf(env, g) && e.addr !in addrs then addrs + [e.addr] else addrs;
            Follows(Step(env, s, e), g, IdOf(env, g), next, v) && Indexes(env, events + [e], Step(env, s, e))
  {
    var id := IdOf(env, g);
    var t, i := SlotOf(env, s, e);
    ExtendedFollows(env, s, t, g, id, addrs, v);
    if IdOf(env, e) == id {
      OwnAnnounced(t, g, id, i, addrs, v, e.addr);
    } else {
      OtherAnnounced(t, id, i, e.addr);
      StaysAside(t, Step(env, s, e), g, id, addrs, v);
    }
    IndexesGrow(env, events, e, s, Step(env, s, e));
  }

  // ----- every run -----

  lemma Grows(env: Env, events: seq<Event>, e: Event, id: nat)
    ensures var addrs := AddrsOf(env, events, id);
            && AddrsOf(env, events + [e], id)
               == (if Taken(env, e) && IdOf(env, e) == id && e.addr !in addrs then addrs + [e.addr] else addrs)
            && forall j: nat :: Values(env, events + [e], id)(j)
                                == NextValue(KnownAddrs(env, events), addrs, id, j, Values(env, events, id)(j), e)
  {
    assert (events + [e])[..|events|] == events;
  }

  lemma StepFollows(env: Env, events: seq<Event>, s: State, g: Event, e: Event, addrs: seq<nat>, v: nat -> nat, w: nat -> nat)
    requires env.singleShot && g.OnLine? && Inv(s) && Indexes(env, events, s) && Follows(s, g, IdOf(env, g), addrs, v)
    requires Taken(env, e) && IdOf(env, e) == IdOf(env, g) ==> e.file == g.file && e.nr == g.nr
    requires forall j: nat :: w(j) == NextValue(KnownAddrs(env, events), addrs, IdOf(env, g), j, v(j), e)
    ensures var next := if Taken(env, e) && IdOf(env, e) == IdOf(env, g) && e.addr !in addrs then addrs + [e.addr] else addrs;
            Follows(Step(env, s, e), g, IdOf(env, g), next, w) && Indexes(env, events + [e], Step(env, s, e))
  {
    var id := IdOf(env, g);
    match e
    case OnLine(_, _, _, _) =>
      SameValues(s, g, id, addrs, v, w);
      if Taken(env, e) {
        LineFollows(env, events, s, g, e, addrs, w);
      } else {
        IndexesGrow(env, events, e, s, s);
      }
    case OnAddressHit(addr, hits) =>
      HitFollows(env, s, g, id, addrs, v, w, addr, hits);
      if addr in s.byAddr {
        HitsKeepIndexes(env, s, s.byAddr[addr], addr, hits);
      }
      IndexesGrow(env, events, e, s, Step(env, s, e));
    case ReadDatabase(rows) =>
      RowsFollow(env, events, s, g, id, addrs, v, rows);
      SameValues(Step(env, s, e), g, id, addrs, AfterRows(KnownAddrs(env, events), addrs, id, v, rows), w);
      IndexesGrow(env, events, e, Step(env, s, e), Step(env, s, e));
  }

  lemma {:induction false} RunFollows(env: Env, events: seq<Event>, g: Event)
    requires env.singleShot && g.OnLine? && OwnId(env, events, g)
    ensures var s, id := Run(env, events), IdOf(env, g);
            Follows(s, g, id, AddrsOf(env, events, id), Values(env, events, id)) && Indexes(env, events, s)
  {
    if events != [] {
      var before, e := events[..|events| - 1], events[|events| - 1];
      var id := IdOf(env, g);
      assert events == before + [e] && e in events;
      assert forall x :: x in before ==> x in events;
      RunFollows(env, before, g);
      RunKeepsInv(env, before);
      Grows(env, before, e, id);
      StepFollows(env, before, Run(env, before), g, e, AddrsOf(env, before, id), Values(env, before, id), Values(env, events, id));
    }
  }

  // ----- what is possible -----

  /** The counters of slots 0 to n - 1 together. */
  ghost function Total(v: nat -> nat, n: nat): nat {
    if n == 0 then 0 else Total(v, n - 1) + v(n - 1) % U32
  }

  lemma {:induction false} SumIsTotal(counts: seq<Count>, v: nat -> nat)
    requires forall j: nat :: j < |counts| ==> counts[j].hits == v(j) % U32
    ensures Sum(counts) == Total(v, |counts|)
  {
    if counts != [] {
      SumIsTotal(counts[..|counts| - 1], v);
    }
  }

  lemma {:induction false} AnnouncedHasAddrs(env: Env, events: seq<Event>, g: Event)
    requires g in events && Taken(env, g)
    ensures AddrsOf(env, events, IdOf(env, g)) != []
  {
    var before, e := events[..|events| - 1], events[|events| - 1];
    assert events == before + [e];
    if g in before {
      AnnouncedHasAddrs(env, before, g);
    }
  }

  lemma FollowedHits(s: State, g: Event, id: nat, addrs: seq<nat>, v: nat -> nat)
    requires g.OnLine? && Follows(s, g, id, addrs, v) && addrs != []
    ensures id in s.byId && s.byId[id] < |s.lines|
    ensures var l := s.lines[s.byId[id]]; |l.addrs| == |addrs| && Hits(l) == Total(v, |addrs|) % U32
  {
    var l := s.lines[s.byId[id]];
    forall j: nat | j < |l.addrs| ensures l.addrs[j].hits == v(j) % U32 {
      assert l.addrs[j] == Count(addrs[j], Low(v(j)));
    }
    SumIsTotal(l.addrs, v);
  }

  /** After any single-shot run, the hits of a line are, slot by slot, the rows added by index since the slot's address
      was last hit, plus one if it was. So they stay within what is possible if and only if that comes to no more than
      the number of its addresses, in 32 bits. */
  lemma WithinPossibleIff(env: Env, events: seq<Event>, g: Event)
    requires env.singleShot && Taken(env, g) && OwnId(env, events, g) && g in events
    ensures var s, id := Run(env, events), IdOf(env, g); id in s.byId && s.byId[id] < |s.lines|
    ensures var s, id := Run(env, events), IdOf(env, g);
            var l, n := s.lines[s.byId[id]], |AddrsOf(env, events, id)|;
            Hits(l) <= |l.addrs| <==> Total(Values(env, events, id), n) % U32 <= n
  {
    RunFollows(env, events, g);
    AnnouncedHasAddrs(env, events, g);
    FollowedHits(Run(env, events), g, IdOf(env, g), AddrsOf(env, events, IdOf(env, g)), Values(env, events, IdOf(env, g)));
  }

  /** If no row names the line, each slot is hit or not. */
  lemma {:induction false} NothingAdded(env: Env, events: seq<Event>, id: nat, j: nat)
    requires forall d, x :: d in events && d.ReadDatabase? && x in d.entries ==> x.id != id
    ensures Value(env, events, id, j) <= 1
  {
    if events != [] {
      var before, e := events[..|events| - 1], events[|events| - 1];
      assert forall d :: d in before ==> d in events;
      assert e in events;
      NothingAdded(env, before, id, j);
      if e.ReadDatabase? {
        NoRowAdded(KnownAddrs(env, before), AddrsOf(env, before, id), id, j, Value(env, before, id, j), e.entries);
      }
    }
  }

  lemma {:induction false} NoRowAdded(known: nat -> bool, addrs: seq<nat>, id: nat, j: nat, v: nat, rows: seq<Entry>)
    requires v <= 1 && forall x :: x in rows ==> x.id != id
    ensures RowsValue(known, addrs, id, j, v, rows) <= 1
  {
    if rows != [] {
      NoRowAdded(known, addrs, id, j, v, rows[..|rows| - 1]);
    }
  }
}
