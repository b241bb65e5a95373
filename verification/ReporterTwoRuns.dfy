/** One run's database read by the next run. */
module ReporterTwoRuns {
  // A first run writes its database, padding included; a second run reads the file at any time. The lines of both
  // are script lines, with one address each, and the two runs agree which line an address belongs to.

  import opened Bytes
  import opened ReporterState
  import opened ReporterCounts
  import opened ReporterDatabase
  import opened ReporterAccumulation

  // ----- the rows of the first run -----

  lemma {:induction false} InLine(l: Line, n: nat, x: Entry)
    requires n <= |l.addrs| && x in LineEntries(l, n)
    ensures exists k :: 0 <= k < n && x == Entry(l.addrs[k].addr, l.id, k, Extended(l.addrs[k].hits))
  {
    if x in LineEntries(l, n - 1) {
      InLine(l, n - 1, x);
    }
  }

  lemma {:induction false} InFile(lines: seq<Line>, slots: seq<Slot>, x: Entry)
    requires x in FileEntries(lines, slots)
    ensures exists i :: 0 <= i < |lines| && x in LineEntries(lines[i], |lines[i].addrs|)
  {
    var before, last := slots[..|slots| - 1], slots[|slots| - 1];
    if x in FileEntries(lines, before) {
      InFile(lines, before, x);
    } else {
      assert x in SlotEntries(lines, last);
    }
  }

  lemma {:induction false} InAll(s: State, names: seq<Name>, x: Entry)
    requires (forall f :: f in names ==> f in s.files) && x in AllEntries(s, names)
    ensures exists i :: 0 <= i < |s.lines| && x in LineEntries(s.lines[i], |s.lines[i].addrs|)
  {
    var before, last := names[..|names| - 1], names[|names| - 1];
    if x in AllEntries(s, before) {
      InAll(s, before, x);
    } else {
      InFile(s.lines, s.files[last].slots, x);
    }
  }

  /** The row is that of the announced line e. */
  ghost predicate RowFor(env: Env, e: Event, x: Entry) {
    Taken(env, e) && x.addr == e.addr && x.id == IdOf(env, e) && x.index == 0 && x.hits < U64
  }

  lemma RowIsOf(env: Env, events: seq<Event>, s: State, stored: nat -> nat, total: nat -> nat, names: seq<Name>, x: Entry)
    requires CountsOk(env, events, s, stored, total) && (forall f :: f in names ==> f in s.files) && x in AllEntries(s, names)
    ensures exists e :: e in events && RowFor(env, e, x)
  {
    InAll(s, names, x);
    var i :| 0 <= i < |s.lines| && x in LineEntries(s.lines[i], |s.lines[i].addrs|);
    var l := s.lines[i];
    InLine(l, |l.addrs|, x);
    assert AnnouncedId(env, events, l.id);
    var e :| e in events && Taken(env, e) && IdOf(env, e) == l.id;
    LineOf(env, events, s, total, e);
    assert RowFor(env, e, x);
  }

  lemma RowsAreOfLines(env: Env, first: seq<Event>, names: seq<Name>, x: Entry)
    requires Script(env, first) && Walks(Run(env, first), names) && x in AllEntries(Run(env, first), names)
    ensures exists e :: e in first && RowFor(env, e, x)
  {
    CountsOkFor(env, first);
    RowIsOf(env, first, Run(env, first), StoredBy(first, []), TotalBy(env, first, []), names, x);
  }

  // ----- the file -----

  /** Addresses are 64 bits wide. */
  ghost predicate WideEnough(env: Env, events: seq<Event>) {
    forall e :: e in events && Taken(env, e) ==> e.addr < U64
  }

  lemma RowsAreSmall(env: Env, first: seq<Event>, names: seq<Name>)
    requires Script(env, first) && Walks(Run(env, first), names) && WideEnough(env, first)
    ensures forall x :: x in AllEntries(Run(env, first), names) ==> Small(x)
  {
    forall x | x in AllEntries(Run(env, first), names) ensures Small(x) {
      RowsAreOfLines(env, first, names, x);
      var e :| e in first && RowFor(env, e, x);
    }
  }

  lemma {:induction false} PaddingStoresNothing(rows: seq<Entry>, n: nat, id: nat)
    requires n <= |rows| && forall i :: n <= i < |rows| ==> rows[i].hits == 0
    ensures StoredIn(rows, id) == StoredIn(rows[..n], id)
    decreases |rows|
  {
    if n < |rows| {
      PaddingStoresNothing(rows[..|rows| - 1], n, id);
      assert rows[..|rows| - 1][..n] == rows[..n];
    } else {
      assert rows[..n] == rows;
    }
  }

  /** The rows that a reader of the file gets. */
  function RowsOf(little: bool, m: seq<byte>): seq<Entry>
    requires |m| >= HEADER
  {
    ReadEntries(little, m, RowsIn(|m|))
  }

  /** The file holds the rows and padding. */
  ghost predicate Padded(rows: seq<Entry>, entries: seq<Entry>) {
    |rows| >= |entries| && rows[..|entries|] == entries && forall i :: |entries| <= i < |rows| ==> rows[i].hits == 0
  }

  lemma FileIsPadded(env: Env, first: seq<Event>, names: seq<Name>, little: bool, m: seq<byte>, checksum: nat)
    requires Script(env, first) && Walks(Run(env, first), names) && WideEnough(env, first) && checksum < U64
    requires IsDatabase(little, m, checksum, AllEntries(Run(env, first), names))
    ensures |m| >= HEADER && HeaderOk(little, m, checksum)
    ensures Padded(RowsOf(little, m), AllEntries(Run(env, first), names))
  {
    RowsAreSmall(env, first, names);
    DatabaseReads(little, m, checksum, AllEntries(Run(env, first), names));
  }

  // ----- the second run -----

  /** The runs agree which line an address belongs to. */
  ghost predicate Agree(env: Env, first: seq<Event>, second: seq<Event>) {
    forall e, g :: e in first && g in second && Taken(env, e) && Taken(env, g) && e.addr == g.addr ==> IdOf(env, e) == IdOf(env, g)
  }

  /** What a row of the first run is to a second run. */
  ghost predicate RowSuits(env: Env, second: seq<Event>, x: Entry) {
    x.hits != 0 ==> x.index == 0 && forall g :: g in second && Taken(env, g) && g.addr == x.addr ==> IdOf(env, g) == x.id
  }

  lemma RowsSuit(env: Env, first: seq<Event>, names: seq<Name>, rows: seq<Entry>, second: seq<Event>)
    requires Script(env, first) && Walks(Run(env, first), names) && Agree(env, first, second)
    requires Padded(rows, AllEntries(Run(env, first), names))
    ensures forall x :: x in rows ==> RowSuits(env, second, x)
  {
    var entries := AllEntries(Run(env, first), names);
    forall x | x in rows ensures RowSuits(env, second, x) {
      if x.hits != 0 {
        var i :| 0 <= i < |rows| && rows[i] == x;
        assert rows[..|entries|][i] == x;
        RowsAreOfLines(env, first, names, x);
        var e :| e in first && RowFor(env, e, x);
      }
    }
  }

  lemma SecondIsScript(env: Env, before: seq<Event>, rows: seq<Entry>, after: seq<Event>)
    requires Script(env, before + after) && forall x :: x in rows ==> RowSuits(env, before + after, x)
    ensures Script(env, before + [ReadDatabase(rows)] + after)
  {
    var d := ReadDatabase(rows);
    var all := before + [d] + after;
    assert forall e :: e in all <==> e in before + after || e == d;
    assert forall e :: e in all && Taken(env, e) ==> e in before + after;
    forall c, x, e | c in all && c.ReadDatabase? && x in c.entries && x.hits != 0 && e in all && Taken(env, e) && e.addr == x.addr
      ensures IdOf(env, e) == x.id
    {
      if c == d {
        assert RowSuits(env, before + after, x);
      }
    }
    forall c, x | c in all && c.ReadDatabase? && x in c.entries && x.hits != 0 ensures x.index == 0 {
      if c == d {
        assert RowSuits(env, before + after, x);
      }
    }
  }

  lemma OnlyThisDatabase(before: seq<Event>, rows: seq<Entry>, after: seq<Event>, id: nat)
    requires Stored(before + after, id) == 0
    ensures Stored(before + [ReadDatabase(rows)] + after, id) == StoredIn(rows, id)
  {
    var d := ReadDatabase(rows);
    StoredSums(before, after, id);
    StoredSums(before + [d], after, id);
    StoredSums(before, [d], id);
    assert [d][..0] == [] && Stored([d][..0], id) == 0;
  }

  /** What the second run starts from. */
  lemma Carried(env: Env, first: seq<Event>, names: seq<Name>, rows: seq<Entry>, e: Event)
    requires Script(env, first) && e in first && Taken(env, e) && Walks(Run(env, first), names)
    requires Padded(rows, AllEntries(Run(env, first), names))
    ensures SameCounter(StoredIn(rows, IdOf(env, e)), CountOf(env, first, IdOf(env, e)))
  {
    var entries := AllEntries(Run(env, first), names);
    PaddingStoresNothing(rows, |entries|, IdOf(env, e));
    StoredIsTheCount(env, first, names, e);
  }

  lemma GoesOn(env: Env, before: seq<Event>, rows: seq<Entry>, after: seq<Event>, g: Event, id: nat, earlier: nat, n: nat)
    requires Script(env, before + after) && forall x :: x in rows ==> RowSuits(env, before + after, x)
    requires g in before + after && Taken(env, g) && id == IdOf(env, g) && Stored(before + after, id) == 0
    requires SameCounter(StoredIn(rows, id), earlier) && n == earlier + Live(env, before + after, id)
    ensures CountIs(Run(env, before + [ReadDatabase(rows)] + after), id, n)
  {
    var second := before + [ReadDatabase(rows)] + after;
    SecondIsScript(env, before, rows, after);
    SecondSums(env, before, rows, after, g, id, second);
    CountGoesOn(env, second, g, id, earlier, n);
  }

  lemma SecondSums(env: Env, before: seq<Event>, rows: seq<Entry>, after: seq<Event>, g: Event, id: nat, second: seq<Event>)
    requires second == before + [ReadDatabase(rows)] + after && g in before + after && Stored(before + after, id) == 0
    ensures g in second && Stored(second, id) == StoredIn(rows, id) && Live(env, second, id) == Live(env, before + after, id)
  {
    OnlyThisDatabase(before, rows, after, id);
    LiveIgnoresDatabases(env, before, ReadDatabase(rows), after, id);
  }

  /** All that the second run has of the first. */
  lemma ReadBack(env: Env, first: seq<Event>, names: seq<Name>, little: bool, m: seq<byte>, checksum: nat,
                 second: seq<Event>, e: Event, id: nat)
    requires Script(env, first) && WideEnough(env, first) && Walks(Run(env, first), names) && checksum < U64
    requires IsDatabase(little, m, checksum, AllEntries(Run(env, first), names))
    requires Agree(env, first, second) && e in first && Taken(env, e) && id == IdOf(env, e)
    ensures |m| >= HEADER && HeaderOk(little, m, checksum)
    ensures forall x :: x in RowsOf(little, m) ==> RowSuits(env, second, x)
    ensures SameCounter(StoredIn(RowsOf(little, m), id), CountOf(env, first, id))
  {
    FileIsPadded(env, first, names, little, m, checksum);
    var rows := RowsOf(little, m);
    RowsSuit(env, first, names, rows, second);
    Carried(env, first, names, rows, e);
  }

  /** A first run writes its database; a second run reads the file, at any time. A line then counts what it counted
      in the first run, stored and live, and its live hits in the second, in 32 bits. */
  lemma CountsCarryOver(env: Env, first: seq<Event>, names: seq<Name>, little: bool, m: seq<byte>, checksum: nat,
                        before: seq<Event>, after: seq<Event>, e: Event, g: Event, id: nat, n: nat)
    requires Script(env, first) && WideEnough(env, first) && Walks(Run(env, first), names) && checksum < U64
    requires IsDatabase(little, m, checksum, AllEntries(Run(env, first), names))
    requires Script(env, before + after) && Agree(env, first, before + after)
    requires e in first && Taken(env, e) && g in before + after && Taken(env, g) && id == IdOf(env, e) == IdOf(env, g)
    requires Stored(before + after, id) == 0 && n == CountOf(env, first, id) + Live(env, before + after, id)
    ensures |m| >= HEADER && HeaderOk(little, m, checksum)
    ensures CountIs(Run(env, before + [ReadDatabase(RowsOf(little, m))] + after), id, n)
  {
    ReadBack(env, first, names, little, m, checksum, before + after, e, id);
    GoesOn(env, before, RowsOf(little, m), after, g, id, CountOf(env, first, id), n);
  }
}
