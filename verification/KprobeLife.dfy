/** Where every probe is, told by the events. */
module KprobeLife {
  // The lists are told by what happened alone: a probe waits for its module, is armed, was caught, or is gone. What was
  // caught is read out by as many reads as there are hits.

  import opened Kprobe

  datatype Option<T> = None | Some(value: T)

  datatype Place = Waiting | Armed | Caught | Gone

  // ----- what the events say -----

  /** How many probes were asked for; they are numbered in that order. */
  function Adds(events: seq<Event>): nat {
    if events == [] then 0 else Adds(events[..|events| - 1]) + if events[|events| - 1].Add? then 1 else 0
  }

  /** Where the module is, if it came and has not gone since. */
  function Loaded(events: seq<Event>, name: string): Option<nat> {
    if events == [] then None
    else
      var e := events[|events| - 1];
      if e.Coming? && e.name == name then Some(e.base)
      else if e.Going? && e.name == name then None
      else Loaded(events[..|events| - 1], name)
  }

  function Asked(events: seq<Event>, id: nat): Probe
    requires id < Adds(events)
  {
    var before, e := events[..|events| - 1], events[|events| - 1];
    if e.Add? && id == Adds(before) then Probe(e.owner, e.where) else Asked(before, id)
  }

  function Begins(before: seq<Event>, e: Event): Place
    requires e.Add?
  {
    if e.owner.Kernel? then
      if e.accepts(e.where % U64) then Armed else Gone
    else
      match Loaded(before, e.owner.name)
      case None => Waiting
      case Some(base) => if e.accepts((base + e.where) % U64) then Armed else Gone
  }

  /** A trigger catches the probe; its module coming arms it, if the kernel accepts it there; its module going frees it
      unless it was caught; clearing frees all. */
  function Moves(place: Place, probe: Probe, id: nat, e: Event): Place {
    match e
    case Trigger(x) => if x == id && place != Gone then Caught else place
    case Clear => Gone
    case Coming(name, base, accepts) =>
      if place == Waiting && probe.owner == Named(name) then
        if accepts((base + probe.where) % U64) then Armed else Gone
      else place
    case Going(name) => if place == Armed && probe.owner == Named(name) then Gone else place
    case _ => place
  }

  function PlaceOf(events: seq<Event>, id: nat): Place
    requires id < Adds(events)
  {
    var before, e := events[..|events| - 1], events[|events| - 1];
    if e.Add? && id == Adds(before) then Begins(before, e) else Moves(PlaceOf(before, id), Asked(before, id), id, e)
  }

  // ----- the lists -----

  predicate WasShown(s: State, id: nat) {
    exists i :: 0 <= i < |s.shown| && s.shown[i].id == id
  }

  /** A probe's place is the list it is on; what was caught is still on the hit list or was read. */
  ghost predicate Lies(s: State, id: nat, place: Place) {
    && (id in s.deferred <==> place == Waiting) && (id in s.pending <==> place == Armed)
    && (id in s.hit ==> place == Caught) && (place == Caught ==> id in s.hit || WasShown(s, id))
  }

  /** Nothing of x has changed. */
  ghost predicate SameFor(s: State, t: State, x: nat) {
    && (x in t.deferred <==> x in s.deferred) && (x in t.pending <==> x in s.pending) && (x in t.hit <==> x in s.hit)
    && (x in t.entries <==> x in s.entries) && (x in s.entries ==> t.entries[x] == s.entries[x])
    && t.names == s.names && t.shown == s.shown
  }

  lemma EnabledElse(s: State, name: string, base: nat, accepts: nat -> bool, id: nat, x: nat)
    requires x != id
    ensures SameFor(s, Enabled(s, name, base, accepts, id), x)
  {
    WithoutHolds(s.deferred, id);
  }

  /** The entries of the list are enabled one by one, each by itself. */
  lemma {:induction false} EnabledOthers(s: State, name: string, base: nat, accepts: nat -> bool, ids: seq<nat>, x: nat)
    requires x !in ids
    ensures SameFor(s, EnabledAll(s, name, base, accepts, ids), x)
  {
    if ids != [] {
      EnabledOthers(s, name, base, accepts, ids[..|ids| - 1], x);
      EnabledElse(EnabledAll(s, name, base, accepts, ids[..|ids| - 1]), name, base, accepts, ids[|ids| - 1], x);
    }
  }

  ghost predicate EnabledAs(s: State, t: State, name: string, base: nat, accepts: nat -> bool, x: nat)
    requires x in s.entries
  {
    if NameIndex(s.names, Named(name)) != s.entries[x].nameIndex then SameFor(s, t, x)
    else
      && x !in t.deferred && (x in t.hit <==> x in s.hit) && t.shown == s.shown
      && (x in t.pending <==> x in s.pending || accepts((s.entries[x].addr + base) % U64))
  }

  lemma EnabledItself(s: State, u: State, name: string, base: nat, accepts: nat -> bool, x: nat)
    requires x in s.entries && SameFor(s, u, x)
    ensures EnabledAs(s, Enabled(u, name, base, accepts, x), name, base, accepts, x)
  {
    WithoutHolds(u.deferred, x);
  }

  lemma EnabledBefore(s: State, u: State, name: string, base: nat, accepts: nat -> bool, last: nat, x: nat)
    requires x in s.entries && EnabledAs(s, u, name, base, accepts, x) && x != last
    ensures EnabledAs(s, Enabled(u, name, base, accepts, last), name, base, accepts, x)
  {
    EnabledElse(u, name, base, accepts, last, x);
  }

  lemma {:induction false} EnabledEach(s: State, name: string, base: nat, accepts: nat -> bool, ids: seq<nat>, x: nat)
    requires NoRepeat(ids) && x in ids && x in s.entries
    ensures EnabledAs(s, EnabledAll(s, name, base, accepts, ids), name, base, accepts, x)
  {
    var before, last := ids[..|ids| - 1], ids[|ids| - 1];
    assert ids == before + [last];
    if x == last {
      assert x !in before;
      EnabledOthers(s, name, base, accepts, before, x);
      EnabledItself(s, EnabledAll(s, name, base, accepts, before), name, base, accepts, x);
    } else {
      EnabledEach(s, name, base, accepts, before, x);
      EnabledBefore(s, EnabledAll(s, name, base, accepts, before), name, base, accepts, last, x);
    }
  }

  lemma DroppedElse(s: State, name: string, id: nat, x: nat)
    requires x != id
    ensures SameFor(s, Dropped(s, name, id), x)
  {
    WithoutHolds(s.pending, id);
  }

  lemma {:induction false} DroppedOthers(s: State, name: string, ids: seq<nat>, x: nat)
    requires x !in ids
    ensures SameFor(s, DroppedAll(s, name, ids), x)
  {
    if ids != [] {
      DroppedOthers(s, name, ids[..|ids| - 1], x);
      DroppedElse(DroppedAll(s, name, ids[..|ids| - 1]), name, ids[|ids| - 1], x);
    }
  }

  ghost predicate DroppedAs(s: State, t: State, name: string, x: nat)
    requires x in s.entries
  {
    if NameIndex(s.names, Named(name)) != s.entries[x].nameIndex then SameFor(s, t, x)
    else
      && x !in t.pending && (x in t.deferred <==> x in s.deferred) && (x in t.hit <==> x in s.hit) && t.shown == s.shown
  }

  lemma {:induction false} DroppedEach(s: State, name: string, ids: seq<nat>, x: nat)
    requires NoRepeat(ids) && x in ids && x in s.entries
    ensures DroppedAs(s, DroppedAll(s, name, ids), name, x)
  {
    var before, last := ids[..|ids| - 1], ids[|ids| - 1];
    assert ids == before + [last];
    var u := DroppedAll(s, name, before);
    if x == last {
      assert x !in before;
      DroppedOthers(s, name, before, x);
      WithoutHolds(u.pending, x);
    } else {
      DroppedEach(s, name, before, x);
      DroppedElse(u, name, last, x);
    }
  }

  // ----- one event -----

  lemma DeferredMoves(s: State, t: State, name: string, base: nat, accepts: nat -> bool, id: nat, place: Place)
    requires Inv(s) && id in s.deferred && id in s.entries && id in s.added && Lies(s, id, place)
    requires EnabledAs(s, t, name, base, accepts, id)
    ensures Lies(t, id, Moves(place, s.added[id], id, Coming(name, base, accepts)))
  {
    assert Waits(s, "", [], id) && EntryOk(s, id);
    OwnerMatches(s, name, id);
    WrappedSum(s.added[id].where, base);
  }

  lemma ComingMoves(s: State, name: string, base: nat, accepts: nat -> bool, id: nat, place: Place)
    requires Inv(s) && id in s.added && Lies(s, id, place)
    ensures Lies(Step(s, Coming(name, base, accepts)), id, Moves(place, s.added[id], id, Coming(name, base, accepts)))
  {
    var u := s.(loaded := s.loaded[name := base]);
    var t := Step(s, Coming(name, base, accepts));
    if id in s.deferred {
      assert id in s.entries;
      EnabledEach(u, name, base, accepts, s.deferred, id);
      assert EnabledAs(s, t, name, base, accepts, id);
      DeferredMoves(s, t, name, base, accepts, id, place);
    } else {
      EnabledOthers(u, name, base, accepts, s.deferred, id);
      assert SameFor(s, t, id);
    }
  }

  lemma GoingMoves(s: State, name: string, id: nat, place: Place)
    requires Inv(s) && id in s.added && Lies(s, id, place)
    ensures Lies(Step(s, Going(name)), id, Moves(place, s.added[id], id, Going(name)))
  {
    if id in s.pending {
      assert Placed(s, id);
      OwnerMatches(s, name, id);
      DroppedEach(s, name, s.pending, id);
    } else {
      DroppedOthers(s, name, s.pending, id);
    }
  }

  lemma TriggerMoves(s: State, x: nat, id: nat, place: Place)
    requires Inv(s) && id in s.added && Lies(s, id, place)
    ensures Lies(Step(s, Trigger(x)), id, Moves(place, s.added[id], id, Trigger(x)))
  {
    WithoutHolds(s.deferred, x);
    WithoutHolds(s.pending, x);
    WithoutHolds(s.hit, x);
    if x == id && x !in s.entries && WasShown(s, id) {
      assert place == Caught || place == Gone;
    }
  }

  lemma ReadMoves(s: State, id: nat, place: Place)
    requires Inv(s) && id in s.added && Lies(s, id, place)
    ensures Lies(Step(s, Read), id, Moves(place, s.added[id], id, Read))
  {
    if s.hit != [] {
      ReadShows(s);
      FirstTaken(s.hit);
      var t := Step(s, Read);
      if id == s.hit[0] {
        assert t.shown[|s.shown|].id == id;
      } else if WasShown(s, id) {
        var i :| 0 <= i < |s.shown| && s.shown[i].id == id;
        assert t.shown[i].id == id;
      }
    }
  }

  lemma OtherAdded(s: State, e: Event, id: nat, place: Place)
    requires Inv(s) && Possible(s, e) && e.Add? && id in s.added && Lies(s, id, place)
    ensures Lies(Step(s, e), id, place)
  {
    assert id != s.next;
  }

  lemma EventMoves(s: State, e: Event, id: nat, place: Place)
    requires Inv(s) && Possible(s, e) && id in s.added && Lies(s, id, place)
    ensures Lies(Step(s, e), id, Moves(place, s.added[id], id, e))
  {
    match e
    case Add(_, _, _) => OtherAdded(s, e, id, place);
    case Trigger(x) => TriggerMoves(s, x, id, place);
    case Read => ReadMoves(s, id, place);
    case Clear =>
    case Coming(name, base, accepts) => ComingMoves(s, name, base, accepts, id, place);
    case Going(name) => GoingMoves(s, name, id, place);
  }

  // ----- every run -----

  ghost predicate History(events: seq<Event>, s: State) {
    && s.next == Adds(events)
    && (forall name :: name in s.loaded <==> Loaded(events, name).Some?)
    && (forall name :: name in s.loaded ==> Loaded(events, name) == Some(s.loaded[name]))
    && (forall id: nat :: id in s.added <==> id < Adds(events))
    && (forall id: nat :: id < Adds(events) ==> s.added[id] == Asked(events, id))
  }

  lemma {:induction false} EnabledHistory(s: State, name: string, base: nat, accepts: nat -> bool, ids: seq<nat>)
    ensures var t := EnabledAll(s, name, base, accepts, ids); t.next == s.next && t.added == s.added && t.loaded == s.loaded
  {
    if ids != [] {
      EnabledHistory(s, name, base, accepts, ids[..|ids| - 1]);
    }
  }

  lemma {:induction false} DroppedHistory(s: State, name: string, ids: seq<nat>)
    ensures var t := DroppedAll(s, name, ids); t.next == s.next && t.added == s.added && t.loaded == s.loaded
  {
    if ids != [] {
      DroppedHistory(s, name, ids[..|ids| - 1]);
    }
  }

  lemma AskedGrows(events: seq<Event>, e: Event, id: nat)
    requires id < Adds(events + [e])
    ensures Adds(events + [e]) == Adds(events) + if e.Add? then 1 else 0
    ensures Asked(events + [e], id) == if e.Add? && id == Adds(events) then Probe(e.owner, e.where) else Asked(events, id)
  {
    assert (events + [e])[..|events|] == events;
  }

  lemma LoadedGrows(events: seq<Event>, e: Event, name: string)
    ensures Loaded(events + [e], name) == if e.Coming? && e.name == name then Some(e.base)
                                          else if e.Going? && e.name == name then None else Loaded(events, name)
    ensures Adds(events + [e]) == Adds(events) + if e.Add? then 1 else 0
  {
    assert (events + [e])[..|events|] == events;
  }

  lemma HistoryGrows(events: seq<Event>, e: Event, s: State, t: State)
    requires History(events, s)
    requires t.next == s.next + if e.Add? then 1 else 0
    requires t.added == if e.Add? then s.added[s.next := Probe(e.owner, e.where)] else s.added
    requires t.loaded == if e.Coming? then s.loaded[e.name := e.base] else if e.Going? then s.loaded - {e.name} else s.loaded
    ensures History(events + [e], t)
  {
    LoadedGrows(events, e, "");
    forall name ensures name in t.loaded <==> Loaded(events + [e], name).Some?
                ensures name in t.loaded ==> Loaded(events + [e], name) == Some(t.loaded[name]) {
      LoadedGrows(events, e, name);
    }
    forall id: nat | id < Adds(events + [e]) ensures t.added[id] == Asked(events + [e], id) {
      AskedGrows(events, e, id);
    }
  }

  lemma StepHistory(s: State, e: Event)
    ensures var t := Step(s, e);
            && t.next == s.next + (if e.Add? then 1 else 0)
            && t.added == (if e.Add? then s.added[s.next := Probe(e.owner, e.where)] else s.added)
            && t.loaded == if e.Coming? then s.loaded[e.name := e.base] else if e.Going? then s.loaded - {e.name} else s.loaded
  {
    match e
    case Coming(name, base, accepts) => EnabledHistory(s.(loaded := s.loaded[name := base]), name, base, accepts, s.deferred);
    case Going(name) => DroppedHistory(s, name, s.pending);
    case _ =>
  }

  lemma {:induction false} HistoryIs(events: seq<Event>)
    ensures History(events, Run(events))
  {
    if events != [] {
      var before, e := events[..|events| - 1], events[|events| - 1];
      HistoryIs(before);
      StepHistory(Run(before), e);
      assert events == before + [e];
      HistoryGrows(before, e, Run(before), Run(events));
    }
  }

  lemma NewlyAdded(s: State, before: seq<Event>, e: Event)
    requires Inv(s) && History(before, s) && Possible(s, e) && e.Add?
    ensures Lies(Step(s, e), s.next, Begins(before, e))
  {
    NextIsNew(s);
    assert s.next !in s.deferred && s.next !in s.pending && s.next !in s.hit;
  }

  /** In every run, each probe's place is what the events say: deferred, pending, or, once it was caught, on the hit list
      until it is read. */
  lemma {:induction false} PlacesAre(events: seq<Event>, id: nat)
    requires AllPossible(events) && id < Adds(events)
    ensures Lies(Run(events), id, PlaceOf(events, id))
  {
    var before, e := events[..|events| - 1], events[|events| - 1];
    var s := Run(before);
    RunKeepsInv(before);
    HistoryIs(before);
    if e.Add? && id == Adds(before) {
      NewlyAdded(s, before, e);
    } else {
      PlacesAre(before, id);
      EventMoves(s, e, id, PlaceOf(before, id));
    }
  }

  // ----- reading out -----

  function Reads(n: nat): seq<Event> {
    seq(n, _ => Read)
  }

  /** The lines the hit list reads out as. */
  function LinesOf(s: State, ids: seq<nat>): seq<Shown>
    requires forall id :: id in ids ==> id in s.added
  {
    seq(|ids|, k requires 0 <= k < |ids| => assert ids[k] in ids; Shown(ids[k], s.added[ids[k]].owner, s.added[ids[k]].where))
  }

  lemma OneRead(u: State)
    requires Inv(u) && u.hit != []
    ensures u.hit[0] in u.added
    ensures var t, id := Step(u, Read), u.hit[0];
            t.hit == u.hit[1..] && t.added == u.added && t.shown == u.shown + [Shown(id, u.added[id].owner, u.added[id].where)]
  {
    ReadShows(u);
  }

  lemma HitsWereAdded(s: State, id: nat)
    requires Inv(s) && id in s.hit
    ensures id in s.added
  {
    assert EntryOk(s, id);
  }

  lemma OneMoreLine(s: State, ids: seq<nat>, n: nat)
    requires n < |ids| && forall id :: id in ids ==> id in s.added
    ensures forall id :: id in ids[..n] ==> id in s.added
    ensures forall id :: id in ids[..n + 1] ==> id in s.added
    ensures LinesOf(s, ids[..n + 1]) == LinesOf(s, ids[..n]) + [Shown(ids[n], s.added[ids[n]].owner, s.added[ids[n]].where)]
  {
  }

  /** t is s with the first n hits taken off the list and printed, in order. */
  ghost predicate Taken(s: State, t: State, n: nat) {
    && n <= |s.hit| && (forall id :: id in s.hit ==> id in s.added)
    && t.hit == s.hit[n..] && t.added == s.added && t.shown == s.shown + LinesOf(s, s.hit[..n])
  }

  lemma OneMoreTaken(s: State, u: State, n: nat)
    requires Taken(s, u, n) && n < |s.hit| && Inv(u)
    ensures Taken(s, Step(u, Read), n + 1)
  {
    OneRead(u);
    OneMoreLine(s, s.hit, n);
  }

  lemma NoneTaken(s: State)
    requires Inv(s)
    ensures Taken(s, s, 0)
  {
    forall id | id in s.hit ensures id in s.added {
      HitsWereAdded(s, id);
    }
    assert LinesOf(s, s.hit[..0]) == [];
  }

  function AfterReads(s: State, n: nat): State {
    if n == 0 then s else Step(AfterReads(s, n - 1), Read)
  }

  lemma RunOneMore(events: seq<Event>, e: Event)
    ensures Run(events + [e]) == Step(Run(events), e)
  {
    assert (events + [e])[..|events|] == events;
  }

  lemma {:induction false} ReadsAre(events: seq<Event>, n: nat)
    ensures Run(events + Reads(n)) == AfterReads(Run(events), n)
  {
    if n == 0 {
      assert events + Reads(0) == events;
    } else {
      ReadsAre(events, n - 1);
      assert events + Reads(n) == events + Reads(n - 1) + [Read];
      RunOneMore(events + Reads(n - 1), Read);
    }
  }

  lemma {:induction false} ReadsTake(s: State, n: nat)
    requires Inv(s) && n <= |s.hit|
    ensures Taken(s, AfterReads(s, n), n) && Inv(AfterReads(s, n))
  {
    if n == 0 {
      NoneTaken(s);
    } else {
      ReadsTake(s, n - 1);
      OneMoreTaken(s, AfterReads(s, n - 1), n - 1);
      WasRead(AfterReads(s, n - 1));
    }
  }

  lemma TakenShows(s: State, t: State, id: nat)
    requires Taken(s, t, |s.hit|) && (id in s.hit || WasShown(s, id))
    ensures WasShown(t, id)
  {
    if id in s.hit {
      var k :| 0 <= k < |s.hit| && s.hit[k] == id;
      assert t.shown[|s.shown| + k] == LinesOf(s, s.hit[..|s.hit|])[k];
    } else {
      var i :| 0 <= i < |s.shown| && s.shown[i].id == id;
      assert t.shown[i].id == id;
    }
  }

  /** What was caught, and not cleared since, is read out by as many reads as there are hits. */
  lemma CaughtIsRead(events: seq<Event>, id: nat)
    requires AllPossible(events) && id < Adds(events) && PlaceOf(events, id) == Caught
    ensures WasShown(Run(events + Reads(|Run(events).hit|)), id)
  {
    PlacesAre(events, id);
    RunKeepsInv(events);
    var s := Run(events);
    ReadsAre(events, |s.hit|);
    ReadsTake(s, |s.hit|);
    TakenShows(s, AfterReads(s, |s.hit|), id);
  }

  // ----- the order of the hit list -----

  /** The last event that triggered the probe. */
  function LastTrigger(events: seq<Event>, id: nat): int {
    if events == [] then -1
    else
      var e := events[|events| - 1];
      if e.Trigger? && e.id == id then |events| - 1 else LastTrigger(events[..|events| - 1], id)
  }

  /** Ranks below the bound, each above those before it. */
  ghost predicate Rising(list: seq<nat>, rank: nat -> int, bound: int) {
    list == [] ||
    (rank(list[|list| - 1]) < bound && Rising(list[..|list| - 1], rank, rank(list[|list| - 1])))
  }

  lemma {:induction false} RisingBound(list: seq<nat>, rank: nat -> int, low: int, high: int)
    requires Rising(list, rank, low) && low <= high
    ensures Rising(list, rank, high)
    ensures forall x :: x in list ==> rank(x) < low
  {
    if list != [] {
      RisingBound(list[..|list| - 1], rank, rank(list[|list| - 1]), low);
      assert list == list[..|list| - 1] + [list[|list| - 1]];
    }
  }

  lemma {:induction false} RisingAt(list: seq<nat>, rank: nat -> int, bound: int, i: nat, j: nat)
    requires Rising(list, rank, bound) && i < j < |list|
    ensures rank(list[i]) < rank(list[j])
  {
    var before, last := list[..|list| - 1], list[|list| - 1];
    if j < |before| {
      RisingAt(before, rank, rank(last), i, j);
    } else {
      RisingBound(before, rank, rank(last), bound);
      assert list[i] == before[i] && before[i] in before;
    }
  }

  lemma RisingAppend(list: seq<nat>, x: nat, rank: nat -> int, bound: int)
    requires Rising(list, rank, rank(x)) && rank(x) < bound
    ensures Rising(list + [x], rank, bound)
  {
    assert (list + [x])[..|list|] == list;
  }

  lemma {:induction false} RisingWithout(list: seq<nat>, rank: nat -> int, bound: int, id: nat)
    requires Rising(list, rank, bound)
    ensures Rising(Without(list, id), rank, bound)
  {
    if list != [] {
      var before, last := list[..|list| - 1], list[|list| - 1];
      RisingWithout(before, rank, rank(last), id);
      WithoutLast(before, last, id);
      assert list == before + [last];
      if last == id {
        assert Without(list, id) == Without(before, id);
        RisingBound(Without(before, id), rank, rank(last), bound);
      } else {
        RisingAppend(Without(before, id), last, rank, bound);
      }
    }
  }

  lemma {:induction false} WithoutLast(list: seq<nat>, last: nat, id: nat)
    ensures Without(list + [last], id) == Without(list, id) + if last == id then [] else [last]
  {
    if list != [] {
      WithoutLast(list[1..], last, id);
      assert (list + [last])[1..] == list[1..] + [last];
    }
  }

  lemma {:induction false} RisingAlike(list: seq<nat>, rank: nat -> int, other: nat -> int, bound: int)
    requires Rising(list, rank, bound) && forall x :: x in list ==> other(x) == rank(x)
    ensures Rising(list, other, bound)
  {
    if list != [] {
      var before, last := list[..|list| - 1], list[|list| - 1];
      assert list == before + [last];
      assert last in list && forall x :: x in before ==> x in list;
      RisingAlike(before, rank, other, rank(last));
    }
  }

  ghost function Ranks(events: seq<Event>): nat -> int {
    (id: nat) => LastTrigger(events, id)
  }

  /** What module events leave alone. */
  ghost predicate SameHits(s: State, t: State) {
    t.hit == s.hit && t.names == s.names && t.shown == s.shown
  }

  lemma {:induction false} EnabledKeepsHits(s: State, name: string, base: nat, accepts: nat -> bool, ids: seq<nat>)
    ensures SameHits(s, EnabledAll(s, name, base, accepts, ids))
  {
    if ids != [] {
      EnabledKeepsHits(s, name, base, accepts, ids[..|ids| - 1]);
    }
  }

  lemma {:induction false} DroppedKeepsHits(s: State, name: string, ids: seq<nat>)
    ensures SameHits(s, DroppedAll(s, name, ids))
  {
    if ids != [] {
      DroppedKeepsHits(s, name, ids[..|ids| - 1]);
    }
  }

  lemma ModulesKeepHits(s: State, e: Event)
    requires e.Coming? || e.Going?
    ensures SameHits(s, Step(s, e))
  {
    match e
    case Coming(name, base, accepts) =>
      EnabledKeepsHits(s.(loaded := s.loaded[name := base]), name, base, accepts, s.deferred);
    case Going(name) => DroppedKeepsHits(s, name, s.pending);
  }

  lemma TriggeredLast(before: seq<Event>, events: seq<Event>, list: seq<nat>, id: nat)
    requires events != [] && before == events[..|events| - 1] && Rising(list, Ranks(before), |before|)
    requires events[|before|].Trigger? && events[|before|].id == id
    ensures Rising(Without(list, id) + [id], Ranks(events), |events|)
  {
    var rest := Without(list, id);
    RisingWithout(list, Ranks(before), |before|, id);
    WithoutHolds(list, id);
    RisingAlike(rest, Ranks(before), Ranks(events), |before|);
    assert Ranks(events)(id) == |before|;
    RisingAppend(rest, id, Ranks(events), |events|);
  }

  /** The id is not on the list. */
  lemma OthersInOrder(before: seq<Event>, events: seq<Event>, list: seq<nat>)
    requires events != [] && before == events[..|events| - 1] && Rising(list, Ranks(before), |before|)
    requires events[|before|].Trigger? ==> events[|before|].id !in list
    ensures Rising(list, Ranks(events), |events|)
  {
    RisingBound(list, Ranks(before), |before|, |events|);
    RisingAlike(list, Ranks(before), Ranks(events), |events|);
  }

  lemma {:induction false} HitsRise(events: seq<Event>)
    requires AllPossible(events)
    ensures Rising(Run(events).hit, Ranks(events), |events|)
  {
    if events != [] {
      var before, e := events[..|events| - 1], events[|events| - 1];
      var s := Run(before);
      HitsRise(before);
      RunKeepsInv(before);
      if e.Trigger? && e.id in s.entries {
        TriggeredLast(before, events, s.hit, e.id);
      } else {
        OthersInOrder(before, events, s.hit);
        if e.Coming? || e.Going? {
          ModulesKeepHits(s, e);
        } else if e.Read? && s.hit != [] {
          RisingTail(s.hit, Ranks(events), |events|);
        }
      }
    }
  }

  lemma {:induction false} RisingTail(list: seq<nat>, rank: nat -> int, bound: int)
    requires list != [] && Rising(list, rank, bound)
    ensures Rising(list[1..], rank, bound)
  {
    var before, last := list[..|list| - 1], list[|list| - 1];
    if before != [] {
      RisingTail(before, rank, rank(last));
      assert list[1..][..|list| - 2] == before[1..];
    }
  }

  /** Hits are read in the order in which they were last triggered. */
  lemma HitsInOrder(events: seq<Event>, i: nat, j: nat)
    requires AllPossible(events) && i < j < |Run(events).hit|
    ensures LastTrigger(events, Run(events).hit[i]) < LastTrigger(events, Run(events).hit[j])
  {
    HitsRise(events);
    RisingAt(Run(events).hit, Ranks(events), |events|, i, j);
  }

  // ----- the table of module names, and what was read -----

  /** A probe of the module was asked for, and nothing was cleared since. */
  ghost predicate NamedSince(events: seq<Event>, m: Module) {
    exists k :: 0 <= k < |events| && events[k].Add? && events[k].owner == m && forall j :: k < j < |events| ==> !events[j].Clear?
  }

  lemma NamedGrows(events: seq<Event>, m: Module)
    requires events != []
    ensures var e := events[|events| - 1];
            NamedSince(events, m)
            <==> (e.Add? && e.owner == m) || (!e.Clear? && NamedSince(events[..|events| - 1], m))
  {
    var before, e := events[..|events| - 1], events[|events| - 1];
    if NamedSince(events, m) {
      var k :| 0 <= k < |events| && events[k].Add? && events[k].owner == m && forall j :: k < j < |events| ==> !events[j].Clear?;
      if k < |before| {
        assert before[k].Add? && before[k].owner == m && forall j :: k < j < |before| ==> !before[j].Clear?;
      }
    }
    if e.Add? && e.owner == m {
      assert events[|before|].Add? && events[|before|].owner == m;
    } else if !e.Clear? && NamedSince(before, m) {
      var k :| 0 <= k < |before| && before[k].Add? && before[k].owner == m && forall j :: k < j < |before| ==> !before[j].Clear?;
      assert events[k].Add? && events[k].owner == m && forall j :: k < j < |events| ==> !events[j].Clear?;
    }
  }

  /** The table names the kernel and the modules asked for since it was last cleared. */
  lemma {:induction false} NamesAre(events: seq<Event>, m: Module)
    requires AllPossible(events)
    ensures m in Run(events).names <==> m.Kernel? || NamedSince(events, m)
  {
    if events != [] {
      var before, e := events[..|events| - 1], events[|events| - 1];
      NamesAre(before, m);
      NamedGrows(events, m);
      RunKeepsInv(before);
      if e.Coming? || e.Going? {
        ModulesKeepHits(Run(before), e);
      } else if e.Add? {
        NameAdded(Run(before), e.owner, m);
      }
    }
  }

  lemma NameAdded(s: State, owner: Module, m: Module)
    requires NamesOk(s.names) && (NameIndex(s.names, owner) >= 0 || |s.names| < NAMES)
    ensures m in Allocated(s.names, owner).1 <==> m in s.names || m == owner
  {
    if owner.Named? {
      IndexFinds(s.names, owner, 1);
    }
  }

  /** What was read stays read. */
  lemma {:induction false} ShownStays(events: seq<Event>, k: nat)
    requires k <= |events|
    ensures Run(events[..k]).shown <= Run(events).shown
  {
    if k == |events| {
      assert events[..k] == events;
    } else {
      var before, e := events[..|events| - 1], events[|events| - 1];
      ShownStays(before, k);
      assert before[..k] == events[..k];
      if e.Coming? || e.Going? {
        ModulesKeepHits(Run(before), e);
      }
    }
  }
}
