/** What depends on the order of a merge, exactly. */
module MergeOrder {
  // MergeIsUnion asks three things of the inputs. Without each of them the result can depend on the order. Here is,
  // for any inputs, which lines and hits are there in every order of them, and which in some order.

  import opened Bytes
  import opened MergeFile
  import opened MergeParser
  import opened MergeCounts

  // ----- lines, whatever the inputs are -----

  predicate Tells(e: Event, line: nat, addr: nat)
    requires e.OnFile?
  {
    exists r :: r in e.records && r.line == line && r.addr == addr
  }

  predicate Announces(env: Env, e: Event, file: Name, line: nat, addr: nat) {
    Taken(env, e) && e.file == file && e.line == line && addr == LineId(env, file, e.line)
  }

  ghost predicate LineIn(env: Env, events: seq<Event>, file: Name, line: nat, addr: nat) {
    events != [] &&
    var before, e := events[..|events| - 1], events[|events| - 1];
    || LineIn(env, before, file, line, addr)
    || Announces(env, e, file, line, addr)
    || (Accepts(env, before, e, file) && Tells(e, line, addr))
  }

  lemma SameLinesHave(s: State, t: State, file: Name, line: nat, addr: nat)
    requires SameLines(s, t)
    ensures HasLine(t, file, line, addr) <==> HasLine(s, file, line, addr)
  {
  }

  lemma AnnouncedLine(env: Env, s: State, e: Event, file: Name, line: nat, addr: nat)
    requires Taken(env, e)
    ensures HasLine(Announced(env, s, e.file, e.line, e.addr), file, line, addr)
            <==> HasLine(s, file, line, addr) || Announces(env, e, file, line, addr)
  {
    LineAdded(FileOf(env, s, e.file).(local := true), e.line, LineId(env, e.file, e.line), line, addr);
  }

  lemma TakenLine(env: Env, s: State, e: Event, file: Name, line: nat, addr: nat)
    requires Taken(env, e)
    ensures HasLine(Step(env, 0, s, e), file, line, addr) <==> HasLine(s, file, line, addr) || Announces(env, e, file, line, addr)
  {
    var t := Announced(env, s, e.file, e.line, e.addr);
    AnnouncedLine(env, s, e, file, line, addr);
    HitKeepsLines(t, e.addr, 1);
    SameLinesHave(t, Replayed(0, t, e.addr), file, line, addr);
  }

  lemma LineAdded(f: FileState, l: nat, a: nat, line: nat, addr: nat)
    ensures Lists(AddLine(f, l, a), line, addr) <==> Lists(f, line, addr) || (line == l && addr == a)
  {
  }

  lemma MetadataLine(env: Env, s: State, e: Event, file: Name, line: nat, addr: nat)
    requires e.OnFile? && (file in s.files ==> s.files[file].checksum == env.checksum(file))
    ensures HasLine(Step(env, 0, s, e), file, line, addr)
            <==> || HasLine(s, file, line, addr)
                 || (Read(env, e, file) && (e.checksum == env.checksum(file) || file !in s.files) && Tells(e, line, addr))
  {
    if env.mangle(e.file) == file {
      AllNoted(FileOf(env, s, file), e.records, line, addr);
    }
  }

  lemma LineStep(env: Env, events: seq<Event>, s: State, e: Event, file: Name, line: nat, addr: nat)
    requires FilesAre(env, events, s)
    ensures HasLine(Step(env, 0, s, e), file, line, addr)
            <==> || HasLine(s, file, line, addr) || Announces(env, e, file, line, addr)
                 || (Accepts(env, events, e, file) && Tells(e, line, addr))
  {
    match e
    case OnLine(_, _, _) =>
      if Taken(env, e) {
        TakenLine(env, s, e, file, line, addr);
      }
    case OnAddress(a, hits) =>
      HitKeepsLines(s, a, hits);
      SameLinesHave(s, Hit(0, s, a, hits), file, line, addr);
    case OnFile(_, _, _) =>
      assert file in s.files <==> Created(env, events, file);
      MetadataLine(env, s, e, file, line, addr);
  }

  /** For any inputs in any order: the lines are those announced and those of metadata accepted when it came. */
  lemma {:induction false} LinesAre(env: Env, events: seq<Event>, file: Name, line: nat, addr: nat)
    ensures FilesAre(env, events, Run(env, 0, events))
    ensures HasLine(Run(env, 0, events), file, line, addr) <==> LineIn(env, events, file, line, addr)
  {
    if events != [] {
      var before, e := events[..|events| - 1], events[|events| - 1];
      assert events == before + [e];
      LinesAre(env, before, file, line, addr);
      FilesStep(env, before, Run(env, 0, before), e);
      LineStep(env, before, Run(env, 0, before), e, file, line, addr);
    }
  }

  predicate IsLocal(s: State, file: Name) {
    file in s.files && s.files[file].local
  }

  ghost predicate AnnouncedIn(env: Env, events: seq<Event>, file: Name) {
    exists e :: e in events && Taken(env, e) && e.file == file
  }

  lemma LocalStep(env: Env, width: nat, s: State, e: Event, file: Name)
    ensures IsLocal(Step(env, width, s, e), file) <==> IsLocal(s, file) || (Taken(env, e) && e.file == file)
  {
    match e
    case OnLine(f, line, addr) => HitKeepsLocal(width, Announced(env, s, f, line, addr), addr, 1, file);
    case OnAddress(addr, hits) => HitKeepsLocal(width, s, addr, hits, file);
    case OnFile(f, checksum, records) => NotedKeepsLocal(width, FileOf(env, s, env.mangle(f)), records);
  }

  lemma HitKeepsLocal(width: nat, s: State, addr: nat, hits: positive, file: Name)
    ensures IsLocal(Hit(width, s, addr, hits), file) <==> IsLocal(s, file)
    ensures IsLocal(Replayed(width, s, addr), file) <==> IsLocal(s, file)
  {
  }

  lemma {:induction false} NotedKeepsLocal(width: nat, f: FileState, records: seq<Record>)
    ensures NotedAll(width, f, records).local == f.local
  {
    if records != [] {
      NotedKeepsLocal(width, f, records[..|records| - 1]);
    }
  }

  /** Outside merge mode a session writes the local files: those, and only those, that an accepted line announced. */
  lemma {:induction false} LocalIff(env: Env, width: nat, events: seq<Event>, file: Name)
    ensures IsLocal(Run(env, width, events), file) <==> AnnouncedIn(env, events, file)
  {
    if events != [] {
      var before, e := events[..|events| - 1], events[|events| - 1];
      assert forall x :: x in events <==> x in before || x == e;
      LocalIff(env, width, before, file);
      LocalStep(env, width, Run(env, width, before), e, file);
    }
  }

  lemma {:induction false} LineStays(env: Env, a: seq<Event>, b: seq<Event>, file: Name, line: nat, addr: nat)
    requires LineIn(env, a, file, line, addr)
    ensures LineIn(env, a + b, file, line, addr)
  {
    if b == [] {
      assert a + b == a;
    } else {
      assert (a + b)[..|a + b| - 1] == a + b[..|b| - 1];
      LineStays(env, a, b[..|b| - 1], file, line, addr);
    }
  }

  /** One input is enough for the line, wherever it comes. */
  ghost predicate SureLine(env: Env, events: seq<Event>, file: Name, line: nat, addr: nat) {
    exists e :: e in events && SureTeller(env, e, file, line, addr)
  }

  predicate SureTeller(env: Env, e: Event, file: Name, line: nat, addr: nat) {
    || Announces(env, e, file, line, addr)
    || (Read(env, e, file) && e.checksum == env.checksum(file) && Tells(e, line, addr))
  }

  /** Whatever makes the file known tells the line. */
  ghost predicate AllTell(env: Env, events: seq<Event>, file: Name, line: nat, addr: nat) {
    forall e :: e in events && Creates(env, e, file) ==> Names(env, e, file, line, addr)
  }

  lemma {:induction false} SureIsIn(env: Env, events: seq<Event>, file: Name, line: nat, addr: nat)
    requires SureLine(env, events, file, line, addr)
    ensures LineIn(env, events, file, line, addr)
  {
    var e :| e in events && SureTeller(env, e, file, line, addr);
    var before := events[..|events| - 1];
    assert events == before + [events[|events| - 1]];
    if e in before {
      SureIsIn(env, before, file, line, addr);
    }
  }

  lemma {:induction false} FirstIsIn(env: Env, events: seq<Event>, file: Name, line: nat, addr: nat)
    requires Created(env, events, file) && AllTell(env, events, file, line, addr)
    ensures LineIn(env, events, file, line, addr)
  {
    var before, e := events[..|events| - 1], events[|events| - 1];
    assert events == before + [e];
    CreatedGrows(env, before, e, file);
    assert e in events;
    if Created(env, before, file) {
      FirstIsIn(env, before, file, line, addr);
    }
  }

  lemma LineGrows(env: Env, events: seq<Event>, e: Event, file: Name, line: nat, addr: nat)
    ensures LineIn(env, events + [e], file, line, addr)
            <==> || LineIn(env, events, file, line, addr) || Announces(env, e, file, line, addr)
                 || (Accepts(env, events, e, file) && Tells(e, line, addr))
  {
    assert (events + [e])[..|events|] == events;
  }

  /** Once the file is known, only an announcement or its own metadata adds a line. */
  lemma {:induction false} NeverIn(env: Env, first: Event, rest: seq<Event>, file: Name, line: nat, addr: nat)
    requires Creates(env, first, file) && !Names(env, first, file, line, addr)
    requires forall e :: e in rest ==> !SureTeller(env, e, file, line, addr)
    ensures !LineIn(env, [first] + rest, file, line, addr)
  {
    if rest == [] {
      assert [first] + rest == [] + [first];
      LineGrows(env, [], first, file, line, addr);
    } else {
      var before, e := rest[..|rest| - 1], rest[|rest| - 1];
      assert rest == before + [e] && e in rest;
      assert [first] + rest == ([first] + before) + [e];
      NeverIn(env, first, before, file, line, addr);
      LineGrows(env, [first] + before, e, file, line, addr);
      NotNow(env, [first] + before, e, file, line, addr);
    }
  }

  lemma NotNow(env: Env, before: seq<Event>, e: Event, file: Name, line: nat, addr: nat)
    requires !SureTeller(env, e, file, line, addr)
    requires Names(env, e, file, line, addr) ==> before != [] && Creates(env, before[0], file)
    ensures !Announces(env, e, file, line, addr) && !(Accepts(env, before, e, file) && Tells(e, line, addr))
  {
    if before != [] && Creates(env, before[0], file) {
      assert before[0] in before;
    }
  }

  // ----- orders -----

  /** A session with just these inputs, in some order, ends in s. */
  ghost predicate Orders(env: Env, events: seq<Event>, s: State) {
    exists es: seq<Event> :: multiset(es) == multiset(events) && s == Run(env, 0, es)
  }

  lemma SameMembers(es: seq<Event>, events: seq<Event>)
    requires multiset(es) == multiset(events)
    ensures forall e :: e in es <==> e in events
  {
    assert forall e :: e in es <==> e in multiset(es);
    assert forall e :: e in events <==> e in multiset(events);
  }

  function Without(events: seq<Event>, e: Event): seq<Event> {
    if events == [] then []
    else if events[0] == e then events[1..]
    else [events[0]] + Without(events[1..], e)
  }

  lemma {:induction false} WithoutOne(events: seq<Event>, e: Event)
    ensures multiset(Without(events, e)) == multiset(events) - multiset{e}
  {
    if events != [] {
      assert events == [events[0]] + events[1..];
      WithoutOne(events[1..], e);
    }
  }

  function WithoutAll(events: seq<Event>, first: seq<Event>): seq<Event> {
    if first == [] then events else Without(WithoutAll(events, first[..|first| - 1]), first[|first| - 1])
  }

  lemma {:induction false} WithoutThese(events: seq<Event>, first: seq<Event>)
    ensures multiset(WithoutAll(events, first)) == multiset(events) - multiset(first)
  {
    if first != [] {
      var before, e := first[..|first| - 1], first[|first| - 1];
      assert first == before + [e];
      WithoutThese(events, before);
      WithoutOne(WithoutAll(events, before), e);
      assert multiset(first) == multiset(before) + multiset{e};
    }
  }

  /** Any of the inputs can come first. */
  lemma Rest(events: seq<Event>, first: seq<Event>) returns (rest: seq<Event>)
    requires multiset(first) <= multiset(events)
    ensures multiset(first + rest) == multiset(events)
  {
    rest := WithoutAll(events, first);
    WithoutThese(events, first);
    assert multiset(first + rest) == multiset(first) + multiset(rest);
  }

  lemma OneFirst(events: seq<Event>, e: Event) returns (rest: seq<Event>)
    requires e in events
    ensures multiset([e] + rest) == multiset(events)
  {
    assert multiset([e]) == multiset{e} && e in multiset(events);
    rest := Rest(events, [e]);
  }

  // ----- lines in every order -----

  /** A line is known in every order of the inputs if and only if some input tells it and is an announcement or
      has the file's checksum, or all inputs that make the file known tell it. In some order it is known if any
      input tells it. */
  lemma LineInEveryOrderIff(env: Env, events: seq<Event>, file: Name, line: nat, addr: nat)
    ensures (forall s :: Orders(env, events, s) ==> HasLine(s, file, line, addr))
            <==> SureLine(env, events, file, line, addr)
                 || (Created(env, events, file) && AllTell(env, events, file, line, addr))
    ensures (exists s :: Orders(env, events, s) && HasLine(s, file, line, addr)) <==> Known(env, events, file, line, addr)
  {
    if SureLine(env, events, file, line, addr) || (Created(env, events, file) && AllTell(env, events, file, line, addr)) {
      forall s | Orders(env, events, s) ensures HasLine(s, file, line, addr) {
        LineInThisOrder(env, events, s, file, line, addr);
      }
    } else {
      NotInSomeOrder(env, events, file, line, addr);
    }
    KnownInSomeOrder(env, events, file, line, addr);
  }

  lemma LineInThisOrder(env: Env, events: seq<Event>, s: State, file: Name, line: nat, addr: nat)
    requires SureLine(env, events, file, line, addr) || (Created(env, events, file) && AllTell(env, events, file, line, addr))
    requires Orders(env, events, s)
    ensures HasLine(s, file, line, addr)
  {
    var es: seq<Event> :| multiset(es) == multiset(events) && s == Run(env, 0, es);
    SameMembers(es, events);
    LinesAre(env, es, file, line, addr);
    if SureLine(env, events, file, line, addr) {
      assert SureLine(env, es, file, line, addr);
      SureIsIn(env, es, file, line, addr);
    } else {
      FirstIsIn(env, es, file, line, addr);
    }
  }

  lemma NotInSomeOrder(env: Env, events: seq<Event>, file: Name, line: nat, addr: nat)
    requires !SureLine(env, events, file, line, addr)
    requires !(Created(env, events, file) && AllTell(env, events, file, line, addr))
    ensures exists s :: Orders(env, events, s) && !HasLine(s, file, line, addr)
  {
    var es := events;
    if Created(env, events, file) {
      var g :| g in events && Creates(env, g, file) && !Names(env, g, file, line, addr);
      var rest := OneFirst(events, g);
      es := [g] + rest;
      SameMembers(es, events);
      assert forall e :: e in rest ==> e in es;
      NeverIn(env, g, rest, file, line, addr);
    } else {
      NothingIn(env, events, file, line, addr);
    }
    LinesAre(env, es, file, line, addr);
    assert Orders(env, events, Run(env, 0, es));
  }

  lemma {:induction false} NothingIn(env: Env, events: seq<Event>, file: Name, line: nat, addr: nat)
    requires !Created(env, events, file)
    ensures !LineIn(env, events, file, line, addr)
  {
    if events != [] {
      var before, e := events[..|events| - 1], events[|events| - 1];
      assert events == before + [e];
      CreatedGrows(env, before, e, file);
      NothingIn(env, before, file, line, addr);
    }
  }

  lemma {:induction false} InIsKnown(env: Env, events: seq<Event>, file: Name, line: nat, addr: nat)
    requires LineIn(env, events, file, line, addr)
    ensures Known(env, events, file, line, addr)
  {
    var before, e := events[..|events| - 1], events[|events| - 1];
    assert events == before + [e];
    KnownGrows(env, before, e, file, line, addr);
    if LineIn(env, before, file, line, addr) {
      InIsKnown(env, before, file, line, addr);
    }
  }

  lemma KnownFirst(env: Env, events: seq<Event>, e: Event, file: Name, line: nat, addr: nat)
    requires e in events && Names(env, e, file, line, addr)
    ensures exists s :: Orders(env, events, s) && HasLine(s, file, line, addr)
  {
    var rest := OneFirst(events, e);
    assert [e][..0] == [] && !Created(env, [], file);
    assert LineIn(env, [e], file, line, addr);
    LineStays(env, [e], rest, file, line, addr);
    LinesAre(env, [e] + rest, file, line, addr);
    assert Orders(env, events, Run(env, 0, [e] + rest));
  }

  lemma OnlyKnown(env: Env, events: seq<Event>, s: State, file: Name, line: nat, addr: nat)
    requires Orders(env, events, s) && HasLine(s, file, line, addr)
    ensures Known(env, events, file, line, addr)
  {
    var es: seq<Event> :| multiset(es) == multiset(events) && s == Run(env, 0, es);
    SameMembers(es, events);
    LinesAre(env, es, file, line, addr);
    InIsKnown(env, es, file, line, addr);
  }

  lemma KnownInSomeOrder(env: Env, events: seq<Event>, file: Name, line: nat, addr: nat)
    ensures (exists s :: Orders(env, events, s) && HasLine(s, file, line, addr)) <==> Known(env, events, file, line, addr)
  {
    if s :| Orders(env, events, s) && HasLine(s, file, line, addr) {
      OnlyKnown(env, events, s, file, line, addr);
    }
    if e :| e in events && Names(env, e, file, line, addr) {
      KnownFirst(env, events, e, file, line, addr);
    }
  }

  // ----- what the last claims say -----

  ghost predicate ClaimedAt(env: Env, events: seq<Event>, addr: nat, id: nat) {
    exists e :: e in events && IsClaim(env, e, id) && e.addr == addr
  }

  ghost predicate Claimed(env: Env, events: seq<Event>, file: Name, id: nat) {
    exists e :: e in events && LiesAt(env, e, file, id)
  }

  lemma {:induction false} LastIdIs(env: Env, events: seq<Event>, addr: nat)
    ensures LastId(env, events, addr).Some? ==> ClaimedAt(env, events, addr, LastId(env, events, addr).value)
    ensures LastId(env, events, addr).None? ==> !TakenAt(env, events, addr)
  {
    if events != [] {
      var before, e := events[..|events| - 1], events[|events| - 1];
      assert forall x :: x in events <==> x in before || x == e;
      LastIdIs(env, before, addr);
    }
  }

  lemma {:induction false} LastFileIs(env: Env, events: seq<Event>, id: nat)
    ensures LastFile(env, events, id).Some? ==> Claimed(env, events, LastFile(env, events, id).value, id)
    ensures LastFile(env, events, id).None? ==> forall e :: e in events ==> !IsClaim(env, e, id)
  {
    if events != [] {
      var before, e := events[..|events| - 1], events[|events| - 1];
      assert forall x :: x in events <==> x in before || x == e;
      LastFileIs(env, before, id);
    }
  }

  lemma {:induction false} LastHitsAre(events: seq<Event>, addr: nat)
    ensures LastHits(events, addr).Some? <==> HitAt(events, addr)
  {
    if events != [] {
      var before, e := events[..|events| - 1], events[|events| - 1];
      assert forall x :: x in events <==> x in before || x == e;
      LastHitsAre(before, addr);
    }
  }

  lemma {:induction false} MarkedIff(records: seq<Record>, id: nat)
    ensures Marked(records, id) > 0 <==> exists r :: r in records && r.hit && r.addr == id
  {
    if records != [] {
      var before, last := records[..|records| - 1], records[|records| - 1];
      assert forall r :: r in records <==> r in before || r == last;
      MarkedIff(before, id);
    }
  }

  // ----- hits in every order -----

  /** Metadata with the file's checksum says so. */
  ghost predicate ReadForSure(env: Env, events: seq<Event>, file: Name, id: nat) {
    exists e :: e in events && ReadHit(env, e, file, id) && e.checksum == env.checksum(file)
  }

  /** Whatever makes the file known is metadata that says so. */
  ghost predicate AllReadHit(env: Env, events: seq<Event>, file: Name, id: nat) {
    Created(env, events, file) && forall e :: e in events && Creates(env, e, file) ==> ReadHit(env, e, file, id)
  }

  /** The id is this file's alone, and there is a hit at an address that is this id's alone. */
  ghost predicate HitAlone(env: Env, events: seq<Event>, file: Name, id: nat) {
    && (forall e :: e in events && IsClaim(env, e, id) ==> e.file == file)
    && exists a :: HitAt(events, a) && Alone(env, events, a, id)
  }

  ghost predicate Alone(env: Env, events: seq<Event>, addr: nat, id: nat) {
    TakenAt(env, events, addr) && forall e :: e in events && Taken(env, e) && e.addr == addr ==> IsClaim(env, e, id)
  }

  ghost predicate SureHit(env: Env, events: seq<Event>, file: Name, id: nat) {
    ReadForSure(env, events, file, id) || AllReadHit(env, events, file, id) || HitAlone(env, events, file, id)
  }

  /** Some metadata says so, or the file claims the id and there is a hit at an address that claims the id. */
  ghost predicate MayBeHit(env: Env, events: seq<Event>, file: Name, id: nat) {
    || (exists e :: e in events && ReadHit(env, e, file, id))
    || (Claimed(env, events, file, id) && exists a :: HitAt(events, a) && ClaimedAt(env, events, a, id))
  }

  lemma {:induction false} ReadIsCounted(env: Env, events: seq<Event>, file: Name, id: nat)
    requires ReadForSure(env, events, file, id)
    ensures Counted(env, events, file, id) > 0
  {
    var e :| e in events && ReadHit(env, e, file, id) && e.checksum == env.checksum(file);
    var before, last := events[..|events| - 1], events[|events| - 1];
    assert events == before + [last];
    if e in before {
      ReadIsCounted(env, before, file, id);
    } else {
      MarkedIff(last.records, id);
    }
  }

  lemma {:induction false} FirstIsCounted(env: Env, events: seq<Event>, file: Name, id: nat)
    requires AllReadHit(env, events, file, id)
    ensures Counted(env, events, file, id) > 0
  {
    var before, e := events[..|events| - 1], events[|events| - 1];
    assert events == before + [e] && e in events;
    CreatedGrows(env, before, e, file);
    if Created(env, before, file) {
      assert forall x :: x in before ==> x in events;
      FirstIsCounted(env, before, file, id);
    } else {
      MarkedIff(e.records, id);
    }
  }

  lemma {:induction false} AloneIsCounted(env: Env, events: seq<Event>, file: Name, id: nat, addr: nat)
    requires forall e :: e in events && IsClaim(env, e, id) ==> e.file == file
    requires HitAt(events, addr) && Alone(env, events, addr, id)
    ensures Counted(env, events, file, id) > 0
  {
    var before, e := events[..|events| - 1], events[|events| - 1];
    assert events == before + [e] && e in events && forall x :: x in before ==> x in events;
    AtGrows(env, before, e, addr);
    if HitAt(before, addr) && TakenAt(env, before, addr) {
      AloneIsCounted(env, before, file, id, addr);
    } else if HitAt(before, addr) {
      LastIdIs(env, before, addr);
      LastHitsAre(before, addr);
      assert Gain(env, before, e, file, id) > 0;
    } else {
      LastIdIs(env, before, addr);
      LastFileIs(env, before, id);
      assert Gain(env, before, e, file, id) > 0;
    }
  }

  lemma SureIsCounted(env: Env, events: seq<Event>, file: Name, id: nat)
    requires SureHit(env, events, file, id)
    ensures Counted(env, events, file, id) > 0
  {
    if ReadForSure(env, events, file, id) {
      ReadIsCounted(env, events, file, id);
    } else if AllReadHit(env, events, file, id) {
      FirstIsCounted(env, events, file, id);
    } else {
      var a :| HitAt(events, a) && Alone(env, events, a, id);
      AloneIsCounted(env, events, file, id, a);
    }
  }

  // ----- an order that misses the hit -----

  /** Once the file is known, metadata out of date is refused; and without hits, or without a claim, no line is hit. */
  lemma {:induction false} StaysUnhit(env: Env, events: seq<Event>, file: Name, id: nat)
    requires events != [] && Creates(env, events[0], file) && !ReadHit(env, events[0], file, id)
    requires !ReadForSure(env, events, file, id)
    requires (forall e :: e in events ==> !e.OnAddress?) || !Claimed(env, events, file, id)
    ensures Counted(env, events, file, id) == 0
  {
    var before, e := events[..|events| - 1], events[|events| - 1];
    assert events == before + [e] && e in events && forall x :: x in before ==> x in events;
    if before == [] {
      assert e == events[0];
    } else {
      assert before[0] == events[0] && before[0] in before;
      StaysUnhit(env, before, file, id);
      assert Created(env, before, file);
    }
    NothingGained(env, before, e, file, id);
  }

  lemma NothingGained(env: Env, before: seq<Event>, e: Event, file: Name, id: nat)
    requires ReadHit(env, e, file, id) ==> Created(env, before, file) && e.checksum != env.checksum(file)
    requires (!e.OnAddress? && !exists x :: x in before && x.OnAddress?) || !Claimed(env, before + [e], file, id)
    ensures Gain(env, before, e, file, id) == 0
  {
    match e
    case OnAddress(_, _) =>
      LastFileIs(env, before, id);
      assert forall x :: x in before ==> x in before + [e];
    case OnLine(_, _, addr) =>
      LastHitsAre(before, addr);
      assert e in before + [e];
    case OnFile(_, _, records) => MarkedIff(records, id);
  }

  /** What of this file's id comes first, then all else but hits, then the hits. */
  function Turn(env: Env, e: Event, file: Name, id: nat): nat {
    if e.OnAddress? then 2 else if IsClaim(env, e, id) && e.file == file then 0 else 1
  }

  function Kept(env: Env, events: seq<Event>, file: Name, id: nat, turn: nat): (r: seq<Event>)
    ensures forall e :: e in r <==> e in events && Turn(env, e, file, id) == turn
  {
    if events == [] then []
    else
      var rest, e := Kept(env, events[..|events| - 1], file, id, turn), events[|events| - 1];
      assert events == events[..|events| - 1] + [e];
      if Turn(env, e, file, id) == turn then rest + [e] else rest
  }

  function Adverse(env: Env, events: seq<Event>, file: Name, id: nat): seq<Event> {
    Kept(env, events, file, id, 0) + Kept(env, events, file, id, 1) + Kept(env, events, file, id, 2)
  }

  lemma {:induction false} AdverseIsOrder(env: Env, events: seq<Event>, file: Name, id: nat)
    ensures multiset(Adverse(env, events, file, id)) == multiset(events)
  {
    if events != [] {
      var before, e := events[..|events| - 1], events[|events| - 1];
      assert events == before + [e];
      AdverseIsOrder(env, before, file, id);
    }
  }

  lemma {:induction false} LastOfTwo(env: Env, a: seq<Event>, b: seq<Event>, addr: nat, id: nat)
    ensures LastId(env, a + b, addr) == if LastId(env, b, addr).Some? then LastId(env, b, addr) else LastId(env, a, addr)
    ensures LastFile(env, a + b, id) == if LastFile(env, b, id).Some? then LastFile(env, b, id) else LastFile(env, a, id)
  {
    if b == [] {
      assert a + b == a;
    } else {
      assert (a + b)[..|a + b| - 1] == a + b[..|b| - 1];
      LastOfTwo(env, a, b[..|b| - 1], addr, id);
    }
  }

  lemma {:induction false} HitsGoElsewhere(env: Env, lines: seq<Event>, hits: seq<Event>, file: Name, id: nat)
    requires Counted(env, lines, file, id) == 0 && forall h :: h in hits ==> h.OnAddress?
    requires forall h :: h in hits ==> LastId(env, lines, h.addr) != Some(id) || LastFile(env, lines, id) != Some(file)
    ensures Counted(env, lines + hits, file, id) == 0
  {
    if hits == [] {
      assert lines + hits == lines;
    } else {
      var before, h := hits[..|hits| - 1], hits[|hits| - 1];
      assert hits == before + [h] && h in hits;
      assert (lines + hits)[..|lines + hits| - 1] == lines + before;
      HitsGoElsewhere(env, lines, before, file, id);
      LastOfTwo(env, lines, before, h.addr, id);
      LastIdIs(env, before, h.addr);
      LastFileIs(env, before, id);
    }
  }

  lemma LastInAdverse(env: Env, events: seq<Event>, file: Name, id: nat, addr: nat)
    requires !HitAlone(env, events, file, id) && HitAt(events, addr)
    ensures var lines := Kept(env, events, file, id, 0) + Kept(env, events, file, id, 1);
            LastId(env, lines, addr) != Some(id) || LastFile(env, lines, id) != Some(file)
  {
    var mine, others := Kept(env, events, file, id, 0), Kept(env, events, file, id, 1);
    LastOfTwo(env, mine, others, addr, id);
    LastIdIs(env, others, addr);
    LastFileIs(env, others, id);
    LastIdIs(env, mine, addr);
    if LastId(env, mine + others, addr) == Some(id) && LastFile(env, mine + others, id) == Some(file) {
      assert LastFile(env, others, id).None?;
      assert forall e :: e in events && IsClaim(env, e, id) ==> e in mine || e in others;
      assert LastId(env, others, addr).None?;
      assert forall e :: e in events && Taken(env, e) && e.addr == addr ==> e in mine || e in others;
      assert Alone(env, events, addr, id);
    }
  }

  lemma AdverseMisses(env: Env, events: seq<Event>, file: Name, id: nat)
    requires !SureHit(env, events, file, id) && Claimed(env, events, file, id)
    ensures Counted(env, Adverse(env, events, file, id), file, id) == 0
  {
    var mine, others := Kept(env, events, file, id, 0), Kept(env, events, file, id, 1);
    var hits := Kept(env, events, file, id, 2);
    var c :| c in events && LiesAt(env, c, file, id);
    assert c in mine && mine[0] in mine && (mine + others)[0] == mine[0];
    StaysUnhit(env, mine + others, file, id);
    forall h | h in hits
      ensures LastId(env, mine + others, h.addr) != Some(id) || LastFile(env, mine + others, id) != Some(file)
    {
      LastInAdverse(env, events, file, id, h.addr);
    }
    HitsGoElsewhere(env, mine + others, hits, file, id);
  }

  lemma {:induction false} NeverCreated(env: Env, events: seq<Event>, file: Name, id: nat)
    requires !Created(env, events, file)
    ensures Counted(env, events, file, id) == 0
  {
    if events != [] {
      var before, e := events[..|events| - 1], events[|events| - 1];
      assert events == before + [e] && e in events;
      CreatedGrows(env, before, e, file);
      NeverCreated(env, before, file, id);
      assert forall x :: x in events && LiesAt(env, x, file, id) ==> Creates(env, x, file);
      NothingGained(env, before, e, file, id);
    }
  }

  lemma MissingOrder(env: Env, events: seq<Event>, file: Name, id: nat) returns (es: seq<Event>)
    requires !SureHit(env, events, file, id)
    ensures multiset(es) == multiset(events) && Counted(env, es, file, id) == 0
  {
    if Claimed(env, events, file, id) {
      es := Adverse(env, events, file, id);
      AdverseIsOrder(env, events, file, id);
      AdverseMisses(env, events, file, id);
    } else if Created(env, events, file) {
      var g :| g in events && Creates(env, g, file) && !ReadHit(env, g, file, id);
      var rest := OneFirst(events, g);
      es := [g] + rest;
      SameMembers(es, events);
      StaysUnhit(env, es, file, id);
    } else {
      es := events;
      NeverCreated(env, events, file, id);
    }
  }

  // ----- an order that has the hit -----

  lemma {:induction false} CountedStays(env: Env, a: seq<Event>, b: seq<Event>, file: Name, id: nat)
    ensures Counted(env, a + b, file, id) >= Counted(env, a, file, id)
  {
    if b == [] {
      assert a + b == a;
    } else {
      assert (a + b)[..|a + b| - 1] == a + b[..|b| - 1];
      CountedStays(env, a, b[..|b| - 1], file, id);
    }
  }

  lemma ReadFirst(env: Env, e: Event, file: Name, id: nat)
    requires ReadHit(env, e, file, id)
    ensures Counted(env, [e], file, id) > 0
  {
    MarkedIff(e.records, id);
    CountedGrows(env, [], e, file, id);
    assert [] + [e] == [e];
  }

  /** The file claims the id last, the id claims the address last, and then the hit comes. */
  lemma HitFirst(env: Env, lines: seq<Event>, h: Event, file: Name, id: nat)
    requires h.OnAddress? && LastId(env, lines, h.addr) == Some(id) && LastFile(env, lines, id) == Some(file)
    ensures Counted(env, lines + [h], file, id) > 0
  {
    CountedGrows(env, lines, h, file, id);
  }

  /** The claims that come before the hit. */
  lemma ClaimsFirst(env: Env, events: seq<Event>, file: Name, id: nat, addr: nat) returns (lines: seq<Event>)
    requires Claimed(env, events, file, id) && ClaimedAt(env, events, addr, id)
    ensures LastId(env, lines, addr) == Some(id) && LastFile(env, lines, id) == Some(file)
    ensures multiset(lines) <= multiset(events) && forall e :: e in lines ==> !e.OnAddress?
  {
    var c :| c in events && LiesAt(env, c, file, id);
    var g :| g in events && IsClaim(env, g, id) && g.addr == addr;
    if c.addr == addr {
      lines := [c];
      assert multiset(lines) == multiset{c} && c in multiset(events);
    } else {
      lines := [g, c];
      assert lines[..1] == [g];
      assert multiset(lines) == multiset{g, c} && c in multiset(events) && g in multiset(events);
    }
  }

  lemma HittingOrder(env: Env, events: seq<Event>, file: Name, id: nat) returns (es: seq<Event>)
    requires MayBeHit(env, events, file, id)
    ensures multiset(es) == multiset(events) && Counted(env, es, file, id) > 0
  {
    if e :| e in events && ReadHit(env, e, file, id) {
      var rest := OneFirst(events, e);
      es := [e] + rest;
      ReadFirst(env, e, file, id);
      CountedStays(env, [e], rest, file, id);
    } else {
      var a :| HitAt(events, a) && ClaimedAt(env, events, a, id);
      var h :| h in events && h.OnAddress? && h.addr == a;
      var lines := ClaimsFirst(env, events, file, id, a);
      assert h in multiset(events) && h !in multiset(lines);
      var rest := Rest(events, lines + [h]);
      es := lines + [h] + rest;
      HitFirst(env, lines, h, file, id);
      CountedStays(env, lines + [h], rest, file, id);
    }
  }

  lemma SameMayBeHits(env: Env, events: seq<Event>, es: seq<Event>, file: Name, id: nat)
    requires MayBeHit(env, events, file, id) && forall e :: e in events ==> e in es
    ensures MayBeHit(env, es, file, id)
  {
    if e :| e in events && ReadHit(env, e, file, id) {
      assert e in es;
    } else {
      var a :| HitAt(events, a) && ClaimedAt(env, events, a, id);
      var c :| c in events && LiesAt(env, c, file, id);
      assert c in es && HitAt(es, a) && ClaimedAt(env, es, a, id);
    }
  }

  lemma {:induction false} CountedMayBe(env: Env, events: seq<Event>, file: Name, id: nat)
    requires Counted(env, events, file, id) > 0
    ensures MayBeHit(env, events, file, id)
  {
    var before, e := events[..|events| - 1], events[|events| - 1];
    assert events == before + [e] && e in events && forall x :: x in before ==> x in events;
    if Counted(env, before, file, id) > 0 {
      CountedMayBe(env, before, file, id);
      SameMayBeHits(env, before, events, file, id);
    } else {
      GainMayBe(env, before, e, file, id);
    }
  }

  lemma GainMayBe(env: Env, before: seq<Event>, e: Event, file: Name, id: nat)
    requires Gain(env, before, e, file, id) > 0
    ensures MayBeHit(env, before + [e], file, id)
  {
    assert e in before + [e] && forall x :: x in before ==> x in before + [e];
    match e
    case OnAddress(addr, _) =>
      LastIdIs(env, before, addr);
      LastFileIs(env, before, id);
      assert HitAt(before + [e], addr) && ClaimedAt(env, before + [e], addr, id);
    case OnLine(_, _, addr) =>
      LastHitsAre(before, addr);
      assert HitAt(before + [e], addr) && ClaimedAt(env, before + [e], addr, id) && LiesAt(env, e, file, id);
    case OnFile(_, _, records) => MarkedIff(records, id);
  }

  // ----- for any inputs -----

  /** Whatever the inputs are, a line's address is hit in every order of them if and only if metadata with the file's
      checksum says so, or all that makes the file known is metadata that says so, or a hit lies at an address that
      only the line claims, whose id no other file claims. */
  lemma HitInEveryOrderIff(env: Env, events: seq<Event>, file: Name, id: nat)
    ensures (forall s :: Orders(env, events, s) ==> IsHit(s, file, id)) <==> SureHit(env, events, file, id)
  {
    if SureHit(env, events, file, id) {
      forall s | Orders(env, events, s) ensures IsHit(s, file, id) {
        HitInThisOrder(env, events, s, file, id);
      }
    } else {
      var es := MissingOrder(env, events, file, id);
      CountsAre(env, es, file, id);
      assert Orders(env, events, Run(env, 0, es)) && !IsHit(Run(env, 0, es), file, id);
    }
  }

  lemma HitInThisOrder(env: Env, events: seq<Event>, s: State, file: Name, id: nat)
    requires Orders(env, events, s) && SureHit(env, events, file, id)
    ensures IsHit(s, file, id)
  {
    var es: seq<Event> :| multiset(es) == multiset(events) && s == Run(env, 0, es);
    SameMembers(es, events);
    SameSureHits(env, events, es, file, id);
    SureIsCounted(env, es, file, id);
    CountsAre(env, es, file, id);
  }

  lemma SameSureHits(env: Env, events: seq<Event>, es: seq<Event>, file: Name, id: nat)
    requires SureHit(env, events, file, id) && forall e :: e in es <==> e in events
    ensures SureHit(env, es, file, id)
  {
    if ReadForSure(env, events, file, id) {
      assert ReadForSure(env, es, file, id);
    } else if AllReadHit(env, events, file, id) {
      assert AllReadHit(env, es, file, id);
    } else {
      var a :| HitAt(events, a) && Alone(env, events, a, id);
      assert HitAt(es, a) && Alone(env, es, a, id);
    }
  }

  /** It is hit in some order if and only if some metadata says so, or the file claims its id and a hit lies at an
      address that claims this id too. */
  lemma HitInSomeOrderIff(env: Env, events: seq<Event>, file: Name, id: nat)
    ensures (exists s :: Orders(env, events, s) && IsHit(s, file, id)) <==> MayBeHit(env, events, file, id)
  {
    if MayBeHit(env, events, file, id) {
      var es := HittingOrder(env, events, file, id);
      CountsAre(env, es, file, id);
      assert Orders(env, events, Run(env, 0, es)) && IsHit(Run(env, 0, es), file, id);
    }
    if s :| Orders(env, events, s) && IsHit(s, file, id) {
      var es: seq<Event> :| multiset(es) == multiset(events) && s == Run(env, 0, es);
      SameMembers(es, events);
      CountsAre(env, es, file, id);
      CountedMayBe(env, es, file, id);
      SameMayBeHits(env, es, events, file, id);
    }
  }

  ghost predicate HitMatters(env: Env, events: seq<Event>, file: Name, id: nat) {
    exists s, t :: Orders(env, events, s) && Orders(env, events, t) && IsHit(s, file, id) && !IsHit(t, file, id)
  }

  /** So the order of the inputs decides whether it is hit if and only if it may be hit and is not surely hit. */
  lemma OrderMattersIff(env: Env, events: seq<Event>, file: Name, id: nat)
    ensures HitMatters(env, events, file, id) <==> MayBeHit(env, events, file, id) && !SureHit(env, events, file, id)
  {
    HitInEveryOrderIff(env, events, file, id);
    HitInSomeOrderIff(env, events, file, id);
  }

  // ----- one run for each condition -----

  /** Metadata of two versions of a file, as two earlier runs wrote them: only the first condition fails, and the line
      and the hit of the old version are there or not as the order has it. */
  lemma OnlyMetadataStale(env: Env, file: Name, line: u32, stale: nat, a: addr63, b: addr63)
    requires env.exist(file) && env.mangle(file) == file && stale != env.checksum(file) && a != b
    ensures var events := [OnFile(file, stale, [Record(line, a, true)]), OnFile(file, env.checksum(file), [Record(line, b, true)])];
            && !CurrentMetadata(env, events) && OneLinePerAddress(env, events) && OneFilePerId(env, events)
            && HitMatters(env, events, file, a)
            && exists s, t :: Orders(env, events, s) && Orders(env, events, t) && HasLine(s, file, line, a) && !HasLine(t, file, line, a)
  {
    var m, n := OnFile(file, stale, [Record(line, a, true)]), OnFile(file, env.checksum(file), [Record(line, b, true)]);
    var events := [m, n];
    assert m in events && n in events;
    assert m.records[0] in m.records && Names(env, m, file, line, a) && ReadHit(env, m, file, a);
    assert Creates(env, n, file) && !Names(env, n, file, line, a) && !ReadHit(env, n, file, a);
    LineInEveryOrderIff(env, events, file, line, a);
    OrderMattersIff(env, events, file, a);
  }

  /** Two files of the same contents, whose lines are announced under the same addresses: only the second condition
      fails, and a line of either is hit or not as the order has it. */
  lemma OnlyAddressesShared(env: Env, one: Name, other: Name, line: u32, addr: nat)
    requires env.exist(one) && env.accepts(one) && env.exist(other) && env.accepts(other)
    requires env.hash(one) != env.hash(other)
    ensures var events := [OnLine(one, line, addr), OnLine(other, line, addr), OnAddress(addr, 1)];
            && CurrentMetadata(env, events) && !OneLinePerAddress(env, events) && OneFilePerId(env, events)
            && HitMatters(env, events, one, LineId(env, one, line))
  {
    var a, b, h := OnLine(one, line, addr), OnLine(other, line, addr), OnAddress(addr, 1);
    var events, id := [a, b, h], LineId(env, one, line);
    IdsAgreeIff(env, one, line, other, line);
    assert a in events && b in events && h in events;
    assert LiesAt(env, a, one, id) && IsClaim(env, a, id) && !IsClaim(env, b, id);
    assert HitAt(events, addr) && ClaimedAt(env, events, addr, id);
    OrderMattersIff(env, events, one, id);
  }

  /** Whenever two files claim one id, and there is a hit at an address of that id, and no metadata. */
  lemma CollisionMatters(env: Env, events: seq<Event>, file: Name, other: Name, id: nat, addr: nat)
    requires forall e :: e in events ==> !e.OnFile?
    requires file != other && Claimed(env, events, file, id) && Claimed(env, events, other, id)
    requires HitAt(events, addr) && ClaimedAt(env, events, addr, id)
    ensures HitMatters(env, events, file, id)
  {
    var c :| c in events && LiesAt(env, c, file, id);
    assert Creates(env, c, file);
    var d :| d in events && LiesAt(env, d, other, id);
    assert IsClaim(env, d, id);
    OrderMattersIff(env, events, file, id);
  }

  lemma CollidingInputs(env: Env, events: seq<Event>, a: Event, b: Event, h: Event)
    requires events == [a, b, h] && Taken(env, a) && Taken(env, b) && h.OnAddress?
    requires a.addr != b.addr && a.file != b.file && LineId(env, a.file, a.line) == LineId(env, b.file, b.line)
    ensures CurrentMetadata(env, events) && OneLinePerAddress(env, events) && !OneFilePerId(env, events)
  {
    assert a in events && b in events;
  }

  /** Two files whose names hash alike: only the third condition fails, and a hit in one counts for the other or not as
      the order has it. */
  lemma OnlyHashesCollide(env: Env, one: Name, other: Name, line: u32, addr: nat, next: nat)
    requires env.exist(one) && env.accepts(one) && env.exist(other) && env.accepts(other)
    requires one != other && env.hash(one) == env.hash(other) && addr != next
    ensures var events := [OnLine(one, line, addr), OnLine(other, line, next), OnAddress(addr, 1)];
            && CurrentMetadata(env, events) && OneLinePerAddress(env, events) && !OneFilePerId(env, events)
            && HitMatters(env, events, one, LineId(env, one, line)) && HitMatters(env, events, other, LineId(env, one, line))
  {
    var a, b, h := OnLine(one, line, addr), OnLine(other, line, next), OnAddress(addr, 1);
    CollidingInputs(env, [a, b, h], a, b, h);
    CollidingHits(env, [a, b, h], a, b, h, LineId(env, one, line));
  }

  lemma CollidingHits(env: Env, events: seq<Event>, a: Event, b: Event, h: Event, id: nat)
    requires events == [a, b, h] && IsClaim(env, a, id) && IsClaim(env, b, id) && a.file != b.file
    requires h.OnAddress? && h.addr == a.addr
    ensures HitMatters(env, events, a.file, id) && HitMatters(env, events, b.file, id)
  {
    assert a in events && b in events && h in events;
    assert LiesAt(env, a, a.file, id) && LiesAt(env, b, b.file, id);
    assert HitAt(events, h.addr) && ClaimedAt(env, events, h.addr, id);
    CollisionMatters(env, events, a.file, b.file, id, h.addr);
    CollisionMatters(env, events, b.file, a.file, id, h.addr);
  }
}
