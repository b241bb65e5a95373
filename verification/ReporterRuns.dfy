/** What every run of the reporter keeps. */
module ReporterRuns {
  import opened Bytes
  import opened ReporterState
  import opened ReporterInvariants

  /** Every run, of any announcements, hits and database reads in any order, keeps the invariant. */
  lemma {:induction false} RunKeepsInv(env: Env, events: seq<Event>)
    ensures Inv(Run(env, events))
  {
    if events != [] {
      var s, e := Run(env, events[..|events| - 1]), events[|events| - 1];
      RunKeepsInv(env, events[..|events| - 1]);
      match e
      case OnLine(file, nr, addr, marks) => AnnouncedKeeps(env, s, file, nr, addr, marks);
      case OnAddressHit(addr, hits) =>
        if addr in s.byAddr {
          HitLinesKeep(env, s, s.byAddr[addr], addr, hits);
        }
      case ReadDatabase(entries) => RestoredAllKeeps(env, s, entries);
    }
  }

  // ----- what the summary may say -----

  /** getExecutedLines. */
  function Executed(lines: seq<Line>, slots: seq<Slot>): nat {
    if slots == [] then 0
    else
      var last := slots[|slots| - 1];
      Executed(lines, slots[..|slots| - 1])
      + if last.At? && last.line < |lines| && !lines[last.line].unreachable && Hits(lines[last.line]) != 0 then 1 else 0
  }

  lemma {:induction false} ExecutedAreReachable(lines: seq<Line>, slots: seq<Slot>)
    ensures Executed(lines, slots) <= Reachable(lines, slots)
  {
    if slots != [] {
      ExecutedAreReachable(lines, slots[..|slots| - 1]);
    }
  }

  /** No file ever has more executed lines than lines. */
  lemma ExecutedWithinLines(env: Env, events: seq<Event>, file: Name)
    requires file in Run(env, events).files
    ensures var s := Run(env, events); Executed(s.lines, s.files[file].slots) <= s.files[file].nrLines
  {
    RunKeepsInv(env, events);
    var s := Run(env, events);
    ExecutedAreReachable(s.lines, s.files[file].slots);
  }

  // ----- single-shot hits -----

  ghost predicate Once(l: Line) {
    forall j :: 0 <= j < |l.addrs| ==> l.addrs[j].hits <= 1
  }

  ghost predicate AllOnce(s: State) {
    s.pending == map[] && forall i :: 0 <= i < |s.lines| ==> Once(s.lines[i])
  }

  lemma {:induction false} SumOfOnce(addrs: seq<Count>)
    requires forall j :: 0 <= j < |addrs| ==> addrs[j].hits <= 1
    ensures Sum(addrs) <= |addrs|
  {
    if addrs != [] {
      SumOfOnce(addrs[..|addrs| - 1]);
    }
  }

  lemma {:induction false} HitLinesOnce(env: Env, s: State, at: seq<nat>, addr: nat, hits: nat)
    requires AllOnce(s) && env.singleShot
    ensures AllOnce(HitLines(env, s, at, addr, hits))
  {
    if at != [] {
      HitLinesOnce(env, s, at[..|at| - 1], addr, hits);
    }
  }

  lemma {:induction false} UnreachablesOnce(s: State, file: Name, marks: seq<bool>)
    requires AllOnce(s) && file in s.files
    ensures AllOnce(Unreachables(s, file, marks))
  {
    if marks != [] {
      UnreachablesOnce(s, file, marks[..|marks| - 1]);
    }
  }

  lemma AnnouncedOnce(env: Env, s: State, file: Name, nr: nat, addr: nat, marks: seq<bool>)
    requires AllOnce(s)
    ensures AllOnce(Announced(env, s, file, nr, addr, marks))
  {
    if env.accepts(file) {
      var r := s.(files := s.files[file := File(env.hash(file), [], 0)]);
      UnreachablesOnce(r, file, marks);
      var t := Ensured(env, s, file, nr, marks);
      assert AllOnce(t);
    }
  }

  /** Without a database, a line of a single-shot parser is never hit more often than is possible. */
  lemma {:induction false} HitsWithinPossible(env: Env, events: seq<Event>, i: nat)
    requires env.singleShot && forall e :: e in events ==> !e.ReadDatabase?
    requires i < |Run(env, events).lines|
    ensures var l := Run(env, events).lines[i]; Hits(l) <= |l.addrs|
  {
    LiveRunOnce(env, events);
    SumOfOnce(Run(env, events).lines[i].addrs);
  }

  lemma {:induction false} LiveRunOnce(env: Env, events: seq<Event>)
    requires env.singleShot && forall e :: e in events ==> !e.ReadDatabase?
    ensures AllOnce(Run(env, events))
  {
    if events != [] {
      var s, e := Run(env, events[..|events| - 1]), events[|events| - 1];
      LiveRunOnce(env, events[..|events| - 1]);
      assert e in events;
      match e
      case OnLine(file, nr, addr, marks) => AnnouncedOnce(env, s, file, nr, addr, marks);
      case OnAddressHit(addr, hits) =>
        if addr in s.byAddr {
          HitLinesOnce(env, s, s.byAddr[addr], addr, hits);
        }
    }
  }

  /** Hits from a database do not know about single shots: a line can then exceed what is possible. */
  lemma DatabaseHitsAreNotCapped(env: Env, file: Name, nr: u32, addr: nat, hits: nat)
    requires env.singleShot && env.accepts(file) && 1 < hits < U32
    ensures var id := LineId(env.hash(file), nr);
            var s := Run(env, [ReadDatabase([Entry(addr, id, 0, hits)]), OnLine(file, nr, addr, [])]);
            && id in s.byId && s.byId[id] < |s.lines|
            && Hits(s.lines[s.byId[id]]) == hits > |s.lines[s.byId[id]].addrs|
  {
    var id := LineId(env.hash(file), nr);
    var entry := Entry(addr, id, 0, hits);
    var db, line := ReadDatabase([entry]), OnLine(file, nr, addr, []);
    var s := Restored(env, EMPTY, entry);
    assert Run(env, [db, line]) == Announced(env, s, file, nr, addr, []) by {
      RestoredOne(env, entry);
      assert [db, line][..1] == [db] && [db][..0] == [];
      assert Run(env, [db]) == Step(env, Run(env, []), db);
    }
    assert s.pending == map[id := [Pending(0, hits)]] by {
      assert [] + [Pending(0, hits)] == [Pending(0, hits)];
    }
    var t := Ensured(env, s, file, nr, []);
    var empty := s.(files := s.files[file := File(env.hash(file), [], 0)]);
    assert Unreachables(empty, file, []) == empty;
    assert t == NewLine(empty, file, nr, false);
    NewLineAdds(empty, file, nr, false);
    DeliveredOne(Line(id, [Count(addr, 0)], 0, false), addr, hits);
    var u := Indexed(t, 0, addr);
    assert u.lines[0].addrs == [Count(addr, 0)];
    assert Replayed(u, 0).lines == [Line(id, [Count(addr, hits)], 0, false)];
  }

  lemma RestoredOne(env: Env, e: Entry)
    ensures Step(env, EMPTY, ReadDatabase([e])) == Restored(env, EMPTY, e)
  {
    assert [e][..0] == [];
    assert RestoredAll(env, EMPTY, []) == EMPTY;
  }

  lemma DeliveredOne(l: Line, addr: nat, hits: nat)
    requires l.addrs == [Count(addr, 0)] && hits < U32
    ensures Delivered(l, [Pending(0, hits)]) == l.(addrs := [Count(addr, hits)])
    ensures Sum([Count(addr, hits)]) == hits
  {
    assert [Pending(0, hits)][..0] == [];
    assert [Count(addr, hits)][..0] == [];
  }
}
