/** What every step of the reporter keeps: addresses without repeats, indexes that lead to lines that hold the
    address or have the id, line counts that match, and hit orders numbered without gaps. Lines only ever grow, and
    each step changes few of them. */
module ReporterInvariants {
  import opened ReporterState

  /** (hash << 32) | line number, in 64 bits. */
  lemma IdsAgreeIff(h: nat, n: nat, g: nat, m: nat)
    ensures LineId(h, n) == h % 0x1_0000_0000 * 0x1_0000_0000 + n % 0x1_0000_0000
    ensures LineId(h, n) == LineId(g, m) <==> h % 0x1_0000_0000 == g % 0x1_0000_0000 && n % 0x1_0000_0000 == m % 0x1_0000_0000
  {
    PartsAgree(h % 0x1_0000_0000, n % 0x1_0000_0000, g % 0x1_0000_0000, m % 0x1_0000_0000);
  }

  lemma PartsAgree(h: nat, n: nat, g: nat, m: nat)
    requires n < 0x1_0000_0000 && m < 0x1_0000_0000
    ensures h * 0x1_0000_0000 + n == g * 0x1_0000_0000 + m <==> h == g && n == m
  {
  }

  // ----- lines only grow -----

  ghost predicate Distinct(l: Line) {
    forall j, k :: 0 <= j < k < |l.addrs| ==> l.addrs[j].addr != l.addrs[k].addr
  }

  lemma {:induction false} FindFirst(addrs: seq<Count>, addr: nat, j: nat)
    requires j < |addrs| && addrs[j].addr == addr
    ensures Find(addrs, addr) <= j
  {
    if addrs[0].addr != addr {
      FindFirst(addrs[1..], addr, j - 1);
    }
  }

  lemma HoldsAt(l: Line, j: nat)
    requires j < |l.addrs|
    ensures Holds(l, l.addrs[j].addr)
  {
    FindFirst(l.addrs, l.addrs[j].addr, j);
  }

  /** The line m is l some events later. */
  ghost predicate Later(l: Line, m: Line) {
    && m.id == l.id && m.unreachable == l.unreachable && (l.order != 0 ==> m.order == l.order)
    && |l.addrs| <= |m.addrs| && forall j :: 0 <= j < |l.addrs| ==> m.addrs[j].addr == l.addrs[j].addr
  }

  lemma LaterHolds(l: Line, m: Line, addr: nat)
    requires Later(l, m) && Holds(l, addr)
    ensures Holds(m, addr)
  {
    HoldsAt(m, Find(l.addrs, addr));
  }

  lemma AddressAdded(l: Line, addr: nat)
    ensures var m := AddAddress(l, addr);
            Later(l, m) && m.order == l.order && Holds(m, addr) && (Distinct(l) ==> Distinct(m))
  {
    var m := AddAddress(l, addr);
    if !Holds(l, addr) {
      HoldsAt(m, |l.addrs|);
    }
  }

  lemma HitRegistered(l: Line, addr: nat, hits: nat, singleShot: bool)
    ensures var m := RegisterHit(l, addr, hits, singleShot);
            Later(l, m) && m.order == l.order && Holds(m, addr) && (Distinct(l) ==> Distinct(m))
  {
    AddressAdded(l, addr);
    var m := RegisterHit(l, addr, hits, singleShot);
    HoldsAt(m, Find(l.addrs, addr));
  }

  lemma {:induction false} HitsDelivered(l: Line, hits: seq<Pending>)
    ensures var m := Delivered(l, hits); Later(l, m) && m.order == l.order && (Distinct(l) ==> Distinct(m))
  {
    if hits != [] {
      HitsDelivered(l, hits[..|hits| - 1]);
    }
  }

  // ----- the invariant -----

  /** The line of a slot is there and has the id of its place. */
  ghost predicate SlotsOk(lines: seq<Line>, f: File) {
    forall k :: 0 <= k < |f.slots| && f.slots[k].At? ==>
      f.slots[k].line < |lines| && lines[f.slots[k].line].id == LineId(f.hash, k)
  }

  function Reachable(lines: seq<Line>, slots: seq<Slot>): nat {
    if slots == [] then 0
    else
      var last := slots[|slots| - 1];
      Reachable(lines, slots[..|slots| - 1])
      + if last.At? && last.line < |lines| && !lines[last.line].unreachable then 1 else 0
  }

  ghost predicate FilesOk(s: State) {
    forall f :: f in s.files ==> SlotsOk(s.lines, s.files[f]) && s.files[f].nrLines == Reachable(s.lines, s.files[f].slots)
  }

  ghost predicate ListOk(lines: seq<Line>, at: seq<nat>, addr: nat) {
    && (forall j :: 0 <= j < |at| ==> at[j] < |lines| && Holds(lines[at[j]], addr))
    && (forall j, k :: 0 <= j < k < |at| ==> lines[at[j]].id != lines[at[k]].id)
  }

  ghost predicate AddrsOk(s: State) {
    && (forall i :: 0 <= i < |s.lines| ==> Distinct(s.lines[i]))
    && (forall a :: a in s.byAddr ==> ListOk(s.lines, s.byAddr[a], a))
  }

  ghost predicate IdsOk(s: State) {
    forall id :: id in s.byId ==> s.byId[id] < |s.lines| && s.lines[s.byId[id]].id == id
  }

  ghost predicate Given(lines: seq<Line>, order: nat) {
    exists i :: 0 <= i < |lines| && lines[i].order == order
  }

  /** The orders given out are 1 up to s.order - 1, each to one line. */
  ghost predicate OrdersOk(s: State) {
    && s.order >= 1
    && (forall i :: 0 <= i < |s.lines| ==> s.lines[i].order < s.order)
    && (forall i, j :: 0 <= i < j < |s.lines| && s.lines[i].order != 0 ==> s.lines[i].order != s.lines[j].order)
    && (forall o :: 1 <= o < s.order ==> Given(s.lines, o))
  }

  ghost predicate Inv(s: State) {
    FilesOk(s) && AddrsOk(s) && IdsOk(s) && OrdersOk(s)
  }

  // ----- a line changes -----

  ghost predicate AllLater(ls: seq<Line>, ms: seq<Line>) {
    |ls| <= |ms| && forall i :: 0 <= i < |ls| ==> Later(ls[i], ms[i])
  }

  lemma {:induction false} SameReachable(ls: seq<Line>, ms: seq<Line>, slots: seq<Slot>)
    requires AllLater(ls, ms) && forall k :: 0 <= k < |slots| && slots[k].At? ==> slots[k].line < |ls|
    ensures Reachable(ms, slots) == Reachable(ls, slots)
  {
    if slots != [] {
      SameReachable(ls, ms, slots[..|slots| - 1]);
    }
  }

  lemma FilesKept(s: State, t: State)
    requires FilesOk(s) && t.files == s.files && AllLater(s.lines, t.lines)
    ensures FilesOk(t)
  {
    forall f | f in t.files
      ensures SlotsOk(t.lines, t.files[f]) && t.files[f].nrLines == Reachable(t.lines, t.files[f].slots)
    {
      assert SlotsOk(s.lines, s.files[f]);
      SameReachable(s.lines, t.lines, s.files[f].slots);
    }
  }

  lemma ListKept(ls: seq<Line>, ms: seq<Line>, at: seq<nat>, addr: nat)
    requires ListOk(ls, at, addr) && AllLater(ls, ms)
    ensures ListOk(ms, at, addr)
  {
    forall j | 0 <= j < |at| ensures at[j] < |ms| && Holds(ms[at[j]], addr) {
      LaterHolds(ls[at[j]], ms[at[j]], addr);
    }
  }

  lemma AddrsKept(s: State, t: State)
    requires AddrsOk(s) && t.byAddr == s.byAddr && AllLater(s.lines, t.lines)
    requires forall i :: 0 <= i < |t.lines| ==> Distinct(t.lines[i])
    ensures AddrsOk(t)
  {
    forall a | a in t.byAddr ensures ListOk(t.lines, t.byAddr[a], a) {
      ListKept(s.lines, t.lines, s.byAddr[a], a);
    }
  }

  /** Replacing a line by a later version of itself with the same order. */
  lemma LineReplaced(s: State, i: nat, l: Line)
    requires Inv(s) && i < |s.lines| && Later(s.lines[i], l) && l.order == s.lines[i].order && Distinct(l)
    ensures Inv(WithLine(s, i, l))
  {
    var t := WithLine(s, i, l);
    FilesKept(s, t);
    AddrsKept(s, t);
    forall o | 1 <= o < t.order ensures Given(t.lines, o) {
      assert Given(s.lines, o);
      var j :| 0 <= j < |s.lines| && s.lines[j].order == o;
      assert t.lines[j].order == o;
    }
  }

  /** The first hit of a line takes the next number. */
  lemma Ordered(s: State, i: nat, l: Line)
    requires Inv(s) && i < |s.lines| && Later(s.lines[i], l) && l.order == 0 && Distinct(l)
    ensures Inv(WithLine(s, i, l.(order := s.order)).(order := s.order + 1))
  {
    var t := WithLine(s, i, l.(order := s.order)).(order := s.order + 1);
    assert AllLater(s.lines, t.lines);
    FilesKept(s, t);
    AddrsKept(s, t);
    forall o | 1 <= o < t.order ensures Given(t.lines, o) {
      if o == s.order {
        assert t.lines[i].order == o;
      } else {
        assert Given(s.lines, o);
        var j :| 0 <= j < |s.lines| && s.lines[j].order == o;
        assert t.lines[j].order == o;
      }
    }
  }

  // ----- hits -----

  lemma NumberedKeeps(s: State, i: nat, l: Line)
    requires Inv(s) && i < |s.lines| && Later(s.lines[i], l) && l.order == s.lines[i].order && Distinct(l)
    ensures Inv(Numbered(s, i, l))
  {
    if l.order != 0 {
      LineReplaced(s, i, l);
    } else {
      Ordered(s, i, l);
    }
  }

  lemma NumberedLater(s: State, i: nat, l: Line)
    requires i < |s.lines| && Later(s.lines[i], l) && l.order == s.lines[i].order
    ensures AllLater(s.lines, Numbered(s, i, l).lines)
  {
  }

  lemma HitLineKeeps(env: Env, s: State, i: nat, addr: nat, hits: nat)
    requires Inv(s)
    ensures Inv(HitLine(env, s, i, addr, hits)) && AllLater(s.lines, HitLine(env, s, i, addr, hits).lines)
  {
    if i < |s.lines| {
      HitRegistered(s.lines[i], addr, hits, env.singleShot);
      NumberedKeeps(s, i, RegisterHit(s.lines[i], addr, hits, env.singleShot));
      NumberedLater(s, i, RegisterHit(s.lines[i], addr, hits, env.singleShot));
    }
  }

  /** Hits change no index. */
  lemma {:induction false} HitsKeepIndexes(env: Env, s: State, at: seq<nat>, addr: nat, hits: nat)
    ensures var t := HitLines(env, s, at, addr, hits);
            t.byAddr == s.byAddr && t.byId == s.byId && t.pending == s.pending && t.files == s.files
  {
    if at != [] {
      HitsKeepIndexes(env, s, at[..|at| - 1], addr, hits);
    }
  }

  lemma LaterLater(a: seq<Line>, b: seq<Line>, c: seq<Line>)
    requires AllLater(a, b) && AllLater(b, c)
    ensures AllLater(a, c)
  {
  }

  lemma {:induction false} HitLinesKeep(env: Env, s: State, at: seq<nat>, addr: nat, hits: nat)
    requires Inv(s)
    ensures Inv(HitLines(env, s, at, addr, hits)) && AllLater(s.lines, HitLines(env, s, at, addr, hits).lines)
  {
    if at != [] {
      HitLinesKeep(env, s, at[..|at| - 1], addr, hits);
      var m := HitLines(env, s, at[..|at| - 1], addr, hits);
      HitLineKeeps(env, m, at[|at| - 1], addr, hits);
      LaterLater(s.lines, m.lines, HitLine(env, m, at[|at| - 1], addr, hits).lines);
    }
  }

  lemma {:induction false} RestoredAllKeeps(env: Env, s: State, entries: seq<Entry>)
    requires Inv(s)
    ensures Inv(RestoredAll(env, s, entries))
  {
    if entries != [] {
      var before, e := entries[..|entries| - 1], entries[|entries| - 1];
      RestoredAllKeeps(env, s, before);
      RestoredKeeps(env, RestoredAll(env, s, before), e);
    }
  }

  lemma RestoredKeeps(env: Env, s: State, e: Entry)
    requires Inv(s)
    ensures Inv(Restored(env, s, e))
  {
    if e.hits != 0 {
      if e.addr in s.byAddr {
        HitLinesKeep(env, s, s.byAddr[e.addr], e.addr, e.hits);
      } else if e.id in s.byId {
        LineReplaced(s, s.byId[e.id], RegisterHitIndex(s.lines[s.byId[e.id]], e.index, e.hits));
      }
    }
  }

  // ----- lines -----

  lemma {:induction false} MoreNulls(lines: seq<Line>, slots: seq<Slot>, n: nat)
    ensures Reachable(lines, slots + seq(n, _ => Null)) == Reachable(lines, slots)
  {
    var more := slots + seq(n, _ => Null);
    if n == 0 {
      assert more == slots;
    } else {
      assert more[..|more| - 1] == slots + seq(n - 1, _ => Null);
      MoreNulls(lines, slots, n - 1);
    }
  }

  lemma {:induction false} SlotFilled(lines: seq<Line>, slots: seq<Slot>, k: nat, line: nat)
    requires k < |slots| && slots[k].Null? && line < |lines|
    ensures Reachable(lines, slots[k := At(line)]) == Reachable(lines, slots) + if lines[line].unreachable then 0 else 1
  {
    var last := |slots| - 1;
    if k < last {
      assert slots[k := At(line)][..last] == slots[..last][k := At(line)];
      SlotFilled(lines, slots[..last], k, line);
    } else {
      assert slots[k := At(line)][..last] == slots[..last];
    }
  }

  lemma NewLineFiles(s: State, file: Name, nr: nat, unreachable: bool)
    requires FilesOk(s) && file in s.files && GetLine(s.files[file], nr).Null?
    ensures FilesOk(NewLine(s, file, nr, unreachable))
  {
    var t := NewLine(s, file, nr, unreachable);
    forall g | g in t.files
      ensures SlotsOk(t.lines, t.files[g]) && t.files[g].nrLines == Reachable(t.lines, t.files[g].slots)
    {
      assert SlotsOk(s.lines, s.files[g]);
      if g != file {
        SameReachable(s.lines, t.lines, s.files[g].slots);
      } else {
        NewSlot(s.lines, t.lines, s.files[file], nr, unreachable);
      }
    }
  }

  lemma NewSlot(ls: seq<Line>, ms: seq<Line>, f: File, nr: nat, unreachable: bool)
    requires SlotsOk(ls, f) && GetLine(f, nr).Null? && f.nrLines == Reachable(ls, f.slots)
    requires ms == ls + [Line(LineId(f.hash, nr), [], 0, unreachable)]
    ensures var g := WithSlot(f, nr, |ls|, unreachable);
            SlotsOk(ms, g) && g.nrLines == Reachable(ms, g.slots) && GetLine(g, nr) == At(|ls|)
  {
    var slots := if nr >= |f.slots| then f.slots + seq(nr + 1 - |f.slots|, _ => Null) else f.slots;
    if nr >= |f.slots| {
      MoreNulls(ms, f.slots, nr + 1 - |f.slots|);
    }
    SlotFilled(ms, slots, nr, |ls|);
    SameReachable(ls, ms, f.slots);
  }

  lemma NewLineAdds(s: State, file: Name, nr: nat, unreachable: bool)
    requires file in s.files
    ensures var t := NewLine(s, file, nr, unreachable);
            && AllLater(s.lines, t.lines) && t.byAddr == s.byAddr && t.byId == s.byId && t.pending == s.pending
            && GetLine(t.files[file], nr) == At(|s.lines|) && |t.lines| == |s.lines| + 1
            && |t.files[file].slots| == if nr >= |s.files[file].slots| then nr + 1 else |s.files[file].slots|
  {
  }

  lemma NewLineKeeps(s: State, file: Name, nr: nat, unreachable: bool)
    requires Inv(s) && file in s.files && GetLine(s.files[file], nr).Null?
    ensures Inv(NewLine(s, file, nr, unreachable))
  {
    var t := NewLine(s, file, nr, unreachable);
    NewLineFiles(s, file, nr, unreachable);
    NewLineAdds(s, file, nr, unreachable);
    AddrsKept(s, t);
    OrdersStay(s, t);
  }

  lemma OrdersStay(s: State, t: State)
    requires OrdersOk(s) && t.order == s.order && |t.lines| == |s.lines| + 1 && t.lines[|s.lines|].order == 0
    requires forall i :: 0 <= i < |s.lines| ==> t.lines[i] == s.lines[i]
    ensures OrdersOk(t)
  {
    forall o | 1 <= o < t.order ensures Given(t.lines, o) {
      assert Given(s.lines, o);
      var j :| 0 <= j < |s.lines| && s.lines[j].order == o;
      assert t.lines[j].order == o;
    }
  }

  lemma {:induction false} UnreachablesKeep(s: State, file: Name, marks: seq<bool>)
    requires Inv(s) && file in s.files && s.files[file].slots == []
    ensures var t := Unreachables(s, file, marks);
            && Inv(t) && |t.files[file].slots| <= |marks| + 1
            && t.byAddr == s.byAddr && t.byId == s.byId && t.pending == s.pending && AllLater(s.lines, t.lines)
  {
    if marks != [] {
      UnreachablesKeep(s, file, marks[..|marks| - 1]);
      var t := Unreachables(s, file, marks[..|marks| - 1]);
      if !marks[|marks| - 1] {
        NewLineKeeps(t, file, |marks|, true);
        NewLineAdds(t, file, |marks|, true);
        LaterLater(s.lines, t.lines, NewLine(t, file, |marks|, true).lines);
      }
    }
  }

  lemma EnsuredKeeps(env: Env, s: State, file: Name, nr: nat, marks: seq<bool>)
    requires Inv(s)
    ensures var t := Ensured(env, s, file, nr, marks); var slot := GetLine(t.files[file], nr);
            Inv(t) && slot.At? && slot.line < |t.lines| && t.lines[slot.line].id == LineId(t.files[file].hash, nr)
  {
    var r := s.(files := s.files[file := File(env.hash(file), [], 0)]);
    var t := s;
    if file !in s.files {
      EmptyFile(s, file, env.hash(file));
      UnreachablesKeep(r, file, marks);
      t := Unreachables(r, file, marks);
    }
    if GetLine(t.files[file], nr).Null? {
      NewLineKeeps(t, file, nr, false);
      NewLineAdds(t, file, nr, false);
    }
    var u := Ensured(env, s, file, nr, marks);
    assert SlotsOk(u.lines, u.files[file]);
  }

  lemma EmptyFile(s: State, file: Name, hash: nat)
    requires Inv(s)
    ensures Inv(s.(files := s.files[file := File(hash, [], 0)]))
  {
    var t := s.(files := s.files[file := File(hash, [], 0)]);
    forall f | f in t.files
      ensures SlotsOk(t.lines, t.files[f]) && t.files[f].nrLines == Reachable(t.lines, t.files[f].slots)
    {
      assert f != file ==> SlotsOk(s.lines, s.files[f]);
    }
  }

  lemma Appended(lines: seq<Line>, at: seq<nat>, addr: nat, i: nat)
    requires ListOk(lines, at, addr) && i < |lines| && Holds(lines[i], addr)
    requires forall j :: 0 <= j < |at| ==> lines[at[j]].id != lines[i].id
    ensures ListOk(lines, at + [i], addr)
  {
  }

  lemma Reindexed(s: State, addr: nat, at: seq<nat>, i: nat)
    requires Inv(s) && i < |s.lines| && ListOk(s.lines, at, addr)
    ensures Inv(s.(byAddr := s.byAddr[addr := at], byId := s.byId[s.lines[i].id := i]))
  {
    var t := s.(byAddr := s.byAddr[addr := at], byId := s.byId[s.lines[i].id := i]);
    FilesKept(s, t);
    assert OrdersOk(t);
    assert IdsOk(t);
    forall a | a in t.byAddr ensures ListOk(t.lines, t.byAddr[a], a) {
      assert a != addr ==> ListOk(s.lines, s.byAddr[a], a);
    }
  }

  lemma IndexedKeeps(s: State, i: nat, addr: nat)
    requires Inv(s) && i < |s.lines|
    ensures Inv(Indexed(s, i, addr))
  {
    var l := AddAddress(s.lines[i], addr);
    AddressAdded(s.lines[i], addr);
    LineReplaced(s, i, l);
    var u := WithLine(s, i, l);
    var before := if addr in s.byAddr then s.byAddr[addr] else [];
    var at := if Known(s, addr, l.id) then before else before + [i];
    NowListed(s, u, i, addr, before);
    Reindexed(u, addr, at, i);
    assert Indexed(s, i, addr) == u.(byAddr := u.byAddr[addr := at], byId := u.byId[l.id := i]);
  }

  lemma NowListed(s: State, u: State, i: nat, addr: nat, at: seq<nat>)
    requires Inv(u) && i < |s.lines| && u == WithLine(s, i, AddAddress(s.lines[i], addr))
    requires at == if addr in s.byAddr then s.byAddr[addr] else []
    ensures ListOk(u.lines, if Known(s, addr, s.lines[i].id) then at else at + [i], addr)
  {
    AddressAdded(s.lines[i], addr);
    assert ListOk(u.lines, at, addr) by {
      assert addr in s.byAddr ==> ListOk(u.lines, u.byAddr[addr], addr);
    }
    if !Known(s, addr, s.lines[i].id) {
      forall j | 0 <= j < |at| ensures u.lines[at[j]].id != u.lines[i].id {
        assert at[j] < |s.lines| && s.lines[at[j]].id == u.lines[at[j]].id;
      }
      Appended(u.lines, at, addr, i);
    }
  }

  lemma ReplayedKeeps(s: State, i: nat)
    requires Inv(s) && i < |s.lines|
    ensures Inv(Replayed(s, i))
  {
    var id := s.lines[i].id;
    if id in s.pending {
      HitsDelivered(s.lines[i], s.pending[id]);
      LineReplaced(s, i, Delivered(s.lines[i], s.pending[id]));
    }
  }

  lemma AnnouncedKeeps(env: Env, s: State, file: Name, nr: nat, addr: nat, marks: seq<bool>)
    requires Inv(s)
    ensures Inv(Announced(env, s, file, nr, addr, marks))
  {
    if env.accepts(file) {
      EnsuredKeeps(env, s, file, nr, marks);
      var t := Ensured(env, s, file, nr, marks);
      var slot := GetLine(t.files[file], nr);
      IndexedKeeps(t, slot.line, addr);
      ReplayedKeeps(Indexed(t, slot.line, addr), slot.line);
    }
  }
}
