/** The orders of first hits. */
module ReporterOrder {
  // A line has an order exactly if it was hit, live or by a row of a database, at an address it was then found under;
  // and lines hit earlier have smaller orders.

  import opened ReporterState
  import opened ReporterInvariants
  import opened ReporterRuns

  // ----- one thing at a time -----

  /** Reading a database is reading its rows one by one. */
  function Moments(events: seq<Event>): seq<Event> {
    if events == [] then []
    else
      var e := events[|events| - 1];
      Moments(events[..|events| - 1]) + if e.ReadDatabase? then Rows(e.entries) else [e]
  }

  function Rows(entries: seq<Entry>): (r: seq<Event>)
    ensures |r| == |entries|
  {
    seq(|entries|, k requires 0 <= k < |entries| => ReadDatabase([entries[k]]))
  }

  predicate Single(e: Event) {
    e.ReadDatabase? ==> |e.entries| == 1
  }

  predicate AllSingle(m: seq<Event>) {
    forall k :: 0 <= k < |m| ==> Single(m[k])
  }

  lemma {:induction false} MomentsAreSingle(events: seq<Event>)
    ensures AllSingle(Moments(events))
  {
    if events != [] {
      MomentsAreSingle(events[..|events| - 1]);
    }
  }

  lemma OneRow(env: Env, s: State, x: Entry)
    ensures Step(env, s, ReadDatabase([x])) == Restored(env, s, x)
  {
    assert [x][..0] == [] && RestoredAll(env, s, []) == s;
  }

  lemma {:induction false} RunOfRows(env: Env, m: seq<Event>, entries: seq<Entry>)
    ensures Run(env, m + Rows(entries)) == RestoredAll(env, Run(env, m), entries)
  {
    if entries == [] {
      assert m + Rows(entries) == m;
    } else {
      var before, x := entries[..|entries| - 1], entries[|entries| - 1];
      RunOfRows(env, m, before);
      OneRow(env, Run(env, m + Rows(before)), x);
      assert (m + Rows(entries))[..|m| + |before|] == m + Rows(before);
    }
  }

  lemma {:induction false} RunOfMoments(env: Env, events: seq<Event>)
    ensures Run(env, Moments(events)) == Run(env, events)
  {
    if events != [] {
      var before, e := events[..|events| - 1], events[|events| - 1];
      RunOfMoments(env, before);
      if e.ReadDatabase? {
        RunOfRows(env, Moments(before), e.entries);
      } else {
        assert (Moments(before) + [e])[..|Moments(before)|] == Moments(before);
      }
    }
  }

  // ----- what a hit does to the orders -----

  /** A live hit at the address, or a row with hits there. */
  predicate HitsAt(e: Event, addr: nat) {
    || (e.OnAddressHit? && e.addr == addr)
    || (e.ReadDatabase? && |e.entries| == 1 && e.entries[0].addr == addr && e.entries[0].hits != 0)
  }

  ghost predicate Listed(s: State, addr: nat, i: nat) {
    addr in s.byAddr && i in s.byAddr[addr]
  }

  /** The line is found under an address that is hit. */
  ghost predicate HitHere(s: State, e: Event, i: nat) {
    exists a :: HitsAt(e, a) && Listed(s, a, i)
  }

  /** No order is given: lines keep theirs, and new lines have none. */
  ghost predicate SameOrders(s: State, t: State) {
    && t.order == s.order && |s.lines| <= |t.lines|
    && (forall i :: 0 <= i < |s.lines| ==> t.lines[i].order == s.lines[i].order)
    && (forall i :: |s.lines| <= i < |t.lines| ==> t.lines[i].order == 0)
  }

  lemma {:induction false} UnreachablesHaveNone(s: State, file: Name, marks: seq<bool>)
    requires file in s.files
    ensures SameOrders(s, Unreachables(s, file, marks))
  {
    if marks != [] {
      UnreachablesHaveNone(s, file, marks[..|marks| - 1]);
    }
  }

  lemma AnnouncedHasNone(env: Env, s: State, file: Name, nr: nat, addr: nat, marks: seq<bool>)
    ensures SameOrders(s, Announced(env, s, file, nr, addr, marks))
  {
    if env.accepts(file) {
      EnsuredHasNone(env, s, file, nr, marks);
      var t := Ensured(env, s, file, nr, marks);
      var slot := GetLine(t.files[file], nr);
      if slot.At? && slot.line < |t.lines| {
        IndexedKeepsOrders(t, slot.line, addr);
      }
    }
  }

  lemma EnsuredHasNone(env: Env, s: State, file: Name, nr: nat, marks: seq<bool>)
    ensures SameOrders(s, Ensured(env, s, file, nr, marks))
  {
    if file !in s.files {
      UnreachablesHaveNone(s.(files := s.files[file := File(env.hash(file), [], 0)]), file, marks);
    }
  }

  lemma IndexedKeepsOrders(s: State, i: nat, addr: nat)
    requires i < |s.lines|
    ensures SameOrders(s, Replayed(Indexed(s, i, addr), i))
  {
    var t := Indexed(s, i, addr);
    if t.lines[i].id in t.pending {
      HitsDelivered(t.lines[i], t.pending[t.lines[i].id]);
    }
  }

  /** A line that is hit for the first time gets an order above all given before. */
  lemma {:induction false} HitLinesOrder(env: Env, s: State, at: seq<nat>, addr: nat, hits: nat, i: nat)
    requires s.order >= 1 && i < |s.lines| && forall j :: 0 <= j < |at| ==> at[j] < |s.lines|
    ensures var t := HitLines(env, s, at, addr, hits);
            && |t.lines| == |s.lines| && s.order <= t.order
            && (if s.lines[i].order != 0 || i !in at then t.lines[i].order == s.lines[i].order
                else s.order <= t.lines[i].order < t.order)
  {
    if at != [] {
      var before, last := at[..|at| - 1], at[|at| - 1];
      assert at == before + [last];
      HitLinesOrder(env, s, before, addr, hits, i);
      HitLinesOrder(env, s, before, addr, hits, last);
      var u := HitLines(env, s, before, addr, hits);
      HitRegistered(u.lines[last], addr, hits, env.singleShot);
    }
  }

  /** Of two lines under one address, the one listed earlier is numbered earlier. */
  lemma {:induction false} HitInPlace(env: Env, s: State, at: seq<nat>, addr: nat, hits: nat, p: nat, q: nat)
    requires s.order >= 1 && (forall j :: 0 <= j < |at| ==> at[j] < |s.lines|) && p < q < |at|
    requires (forall j :: 0 <= j < q ==> at[j] != at[q]) && s.lines[at[p]].order == 0 && s.lines[at[q]].order == 0
    ensures var t := HitLines(env, s, at, addr, hits);
            |t.lines| == |s.lines| && 0 < t.lines[at[p]].order < t.lines[at[q]].order
  {
    var before, last := at[..|at| - 1], at[|at| - 1];
    HitLinesOrder(env, s, at, addr, hits, last);
    HitLinesOrder(env, s, before, addr, hits, last);
    var u := HitLines(env, s, before, addr, hits);
    HitRegistered(u.lines[last], addr, hits, env.singleShot);
    if q < |at| - 1 {
      HitInPlace(env, s, before, addr, hits, p, q);
    } else {
      assert before[p] == at[p];
      HitLinesOrder(env, s, before, addr, hits, at[p]);
      HitLinesOrder(env, s, before, addr, hits, at[q]);
    }
  }

  lemma AddressOrder(env: Env, s: State, addr: nat, hits: nat, i: nat)
    requires Inv(s) && i < |s.lines|
    ensures var t := AddressHit(env, s, addr, hits);
            && |t.lines| == |s.lines| && s.order <= t.order
            && (if s.lines[i].order != 0 || !Listed(s, addr, i) then t.lines[i].order == s.lines[i].order
                else s.order <= t.lines[i].order < t.order)
  {
    if addr in s.byAddr {
      assert ListOk(s.lines, s.byAddr[addr], addr);
      HitLinesOrder(env, s, s.byAddr[addr], addr, hits, i);
    }
  }

  lemma RowOrder(env: Env, s: State, x: Entry, i: nat)
    requires Inv(s) && i < |s.lines|
    ensures var t := Restored(env, s, x);
            && |t.lines| == |s.lines| && s.order <= t.order
            && (if s.lines[i].order != 0 || x.hits == 0 || !Listed(s, x.addr, i) then t.lines[i].order == s.lines[i].order
                else s.order <= t.lines[i].order < t.order)
  {
    if x.hits != 0 && x.addr in s.byAddr {
      AddressOrder(env, s, x.addr, x.hits, i);
    }
  }

  lemma StepOrder(env: Env, s: State, e: Event, i: nat)
    requires Inv(s) && Single(e)
    ensures var t := Step(env, s, e);
            && |s.lines| <= |t.lines| && s.order <= t.order
            && (i < |s.lines| ==>
                  if s.lines[i].order != 0 || !HitHere(s, e, i) then t.lines[i].order == s.lines[i].order
                  else s.order <= t.lines[i].order < t.order)
            && (|s.lines| <= i < |t.lines| ==> t.lines[i].order == 0)
  {
    match e
    case OnLine(file, nr, addr, marks) => AnnouncedHasNone(env, s, file, nr, addr, marks);
    case OnAddressHit(addr, hits) =>
      SameSize(env, s, if addr in s.byAddr then s.byAddr[addr] else [], addr, hits);
      if i < |s.lines| {
        AddressOrder(env, s, addr, hits, i);
        assert HitsAt(e, addr) && (Listed(s, addr, i) ==> HitHere(s, e, i));
      }
    case ReadDatabase(entries) =>
      var x := entries[0];
      assert entries == [x];
      OneRow(env, s, x);
      SameSize(env, s, if x.addr in s.byAddr then s.byAddr[x.addr] else [], x.addr, x.hits);
      if i < |s.lines| {
        RowOrder(env, s, x, i);
        assert x.hits != 0 ==> HitsAt(e, x.addr) && (Listed(s, x.addr, i) ==> HitHere(s, e, i));
      }
  }

  lemma {:induction false} SameSize(env: Env, s: State, at: seq<nat>, addr: nat, hits: nat)
    ensures var t := HitLines(env, s, at, addr, hits); |t.lines| == |s.lines| && t.order >= s.order
  {
    if at != [] {
      SameSize(env, s, at[..|at| - 1], addr, hits);
    }
  }

  // ----- over a run -----

  /** At moment k the line was hit. */
  ghost predicate HitAtMoment(env: Env, m: seq<Event>, k: nat, i: nat) {
    k < |m| && HitHere(Run(env, m[..k]), m[k], i)
  }

  ghost predicate EverHit(env: Env, m: seq<Event>, i: nat) {
    exists k: nat :: HitAtMoment(env, m, k, i)
  }

  lemma EverGrows(env: Env, m: seq<Event>, i: nat)
    requires m != []
    ensures var before := m[..|m| - 1];
            EverHit(env, m, i) <==> EverHit(env, before, i) || HitHere(Run(env, before), m[|m| - 1], i)
  {
    var before := m[..|m| - 1];
    forall k: nat | k < |before| ensures HitAtMoment(env, before, k, i) <==> HitAtMoment(env, m, k, i) {
      assert before[..k] == m[..k];
    }
    if HitHere(Run(env, before), m[|m| - 1], i) {
      assert HitAtMoment(env, m, |m| - 1, i);
    }
  }

  /** Nothing is listed that is not there. */
  lemma ListedIsThere(s: State, e: Event, i: nat)
    requires Inv(s) && HitHere(s, e, i)
    ensures i < |s.lines|
  {
    var a :| HitsAt(e, a) && Listed(s, a, i);
    assert ListOk(s.lines, s.byAddr[a], a);
  }

  lemma {:induction false} OrderIffHit(env: Env, m: seq<Event>, i: nat)
    requires AllSingle(m)
    ensures i < |Run(env, m).lines| ==> (Run(env, m).lines[i].order != 0 <==> EverHit(env, m, i))
    ensures i >= |Run(env, m).lines| ==> !EverHit(env, m, i)
  {
    if m != [] {
      var before, e := m[..|m| - 1], m[|m| - 1];
      OrderIffHit(env, before, i);
      RunKeepsInv(env, before);
      StepOrder(env, Run(env, before), e, i);
      EverGrows(env, m, i);
      if HitHere(Run(env, before), e, i) {
        ListedIsThere(Run(env, before), e, i);
      }
    }
  }

  /** What has no order yet gets none below the next one; what has one keeps it. */
  lemma {:induction false} LaterIsLarger(env: Env, m: seq<Event>, k: nat, i: nat)
    requires AllSingle(m) && k <= |m|
    ensures var s, t := Run(env, m[..k]), Run(env, m);
            && |s.lines| <= |t.lines| && s.order <= t.order
            && (i < |s.lines| && s.lines[i].order != 0 ==> t.lines[i].order == s.lines[i].order)
            && (i < |t.lines| && (i < |s.lines| ==> s.lines[i].order == 0) ==> t.lines[i].order == 0 || t.lines[i].order >= s.order)
  {
    if k == |m| {
      assert m[..k] == m;
    } else {
      var before := m[..|m| - 1];
      LaterIsLarger(env, before, k, i);
      assert before[..k] == m[..k];
      RunKeepsInv(env, before);
      StepOrder(env, Run(env, before), m[|m| - 1], i);
    }
  }

  /** A line has an order exactly if some hit, or some row of a database with hits, came at an address that the line was
      then found under. */
  lemma OrderedIffHit(env: Env, events: seq<Event>, i: nat)
    requires i < |Run(env, events).lines|
    ensures Run(env, events).lines[i].order != 0 <==> EverHit(env, Moments(events), i)
  {
    MomentsAreSingle(events);
    RunOfMoments(env, events);
    OrderIffHit(env, Moments(events), i);
  }

  /** Of two lines that were hit, the one hit first has the smaller order. */
  lemma FirstHitFirst(env: Env, events: seq<Event>, i: nat, j: nat, k: nat)
    requires i < |Run(env, events).lines| && j < |Run(env, events).lines|
    requires HitAtMoment(env, Moments(events), k, i) && EverHit(env, Moments(events), j)
    requires forall n: nat :: n <= k ==> !HitAtMoment(env, Moments(events), n, j)
    ensures 0 < Run(env, events).lines[i].order < Run(env, events).lines[j].order
  {
    var m := Moments(events);
    MomentsAreSingle(events);
    RunOfMoments(env, events);
    HitByThen(env, m, k, i);
    NotHitByThen(env, m, k + 1, j);
    LaterIsLarger(env, m, k + 1, i);
    LaterIsLarger(env, m, k + 1, j);
    OrderIffHit(env, m, j);
  }

  lemma HitByThen(env: Env, m: seq<Event>, k: nat, i: nat)
    requires AllSingle(m) && HitAtMoment(env, m, k, i)
    ensures var s := Run(env, m[..k + 1]); i < |s.lines| && 0 < s.lines[i].order < s.order
  {
    var upTo := m[..k + 1];
    assert upTo[..k] == m[..k] && upTo[..|upTo| - 1] == m[..k];
    RunKeepsInv(env, m[..k]);
    ListedIsThere(Run(env, m[..k]), m[k], i);
    StepOrder(env, Run(env, m[..k]), m[k], i);
    RunKeepsInv(env, upTo);
  }

  lemma NotHitByThen(env: Env, m: seq<Event>, k: nat, j: nat)
    requires AllSingle(m) && k <= |m| && forall n: nat :: n < k ==> !HitAtMoment(env, m, n, j)
    ensures var s := Run(env, m[..k]); j < |s.lines| ==> s.lines[j].order == 0
  {
    OrderIffHit(env, m[..k], j);
    if EverHit(env, m[..k], j) {
      var n: nat :| HitAtMoment(env, m[..k], n, j);
      assert m[..k][..n] == m[..n];
      assert HitAtMoment(env, m, n, j);
    }
  }

  /** Of two lines first hit at the same moment, the one found earlier under the address has the smaller order. */
  lemma FirstListedFirst(env: Env, events: seq<Event>, k: nat, addr: nat, p: nat, q: nat)
    requires k < |Moments(events)| && HitsAt(Moments(events)[k], addr)
    requires addr in Run(env, Moments(events)[..k]).byAddr && p < q < |Run(env, Moments(events)[..k]).byAddr[addr]|
    requires var at := Run(env, Moments(events)[..k]).byAddr[addr];
             forall n: nat :: n < k ==> !HitAtMoment(env, Moments(events), n, at[p]) && !HitAtMoment(env, Moments(events), n, at[q])
    ensures var at, t := Run(env, Moments(events)[..k]).byAddr[addr], Run(env, events);
            at[p] < |t.lines| && at[q] < |t.lines| && 0 < t.lines[at[p]].order < t.lines[at[q]].order
  {
    var m := Moments(events);
    MomentsAreSingle(events);
    RunOfMoments(env, events);
    var s := Run(env, m[..k]);
    var at := s.byAddr[addr];
    RunKeepsInv(env, m[..k]);
    assert ListOk(s.lines, at, addr);
    NotHitByThen(env, m, k, at[p]);
    NotHitByThen(env, m, k, at[q]);
    MomentIs(env, m, k, addr);
    HitInPlace(env, s, at, addr, if m[k].ReadDatabase? then m[k].entries[0].hits else m[k].hits, p, q);
    LaterIsLarger(env, m, k + 1, at[p]);
    LaterIsLarger(env, m, k + 1, at[q]);
  }

  lemma MomentIs(env: Env, m: seq<Event>, k: nat, addr: nat)
    requires k < |m| && HitsAt(m[k], addr) && addr in Run(env, m[..k]).byAddr
    ensures var s := Run(env, m[..k]);
            Run(env, m[..k + 1])
            == HitLines(env, s, s.byAddr[addr], addr, if m[k].ReadDatabase? then m[k].entries[0].hits else m[k].hits)
  {
    assert m[..k + 1][..k] == m[..k];
    if m[k].ReadDatabase? {
      assert m[k].entries == [m[k].entries[0]];
      OneRow(env, Run(env, m[..k]), m[k].entries[0]);
    }
  }
}
