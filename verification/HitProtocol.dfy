/** The system-mode protocol. */
module HitProtocol {
  // Any number of forked tracers run reportIndex on shared memory while the daemon's output thread tests,
  // cleans, copies and writes it. Every load, compare-and-swap, add and store is one step, and steps
  // interleave freely.

  import opened HitWords

  /** The counters are 32-bit words of the shared mapping. */
  const COUNTER: nat := 0x1_0000_0000

  /** Where a tracer is inside reportIndex. */
  datatype Tracer =
    | Idle
    | Testing(index: nat)               // about to test the bit
    | Loading(index: nat)               // about to read the word
    | Swapping(index: nat, val: Bits)   // about to compare-and-swap
    | Counting(index: nat)              // bit set, dirtyCount not yet bumped

  /** Where the output thread is in the body for this file. */
  datatype Writer =
    | Asleep
    | Marking                                       // found dirty, about to read dirtyCount
    | Storing(seen: nat, ghost seenTotal: nat)      // about to store it in cleanCount
    | Copying(copy: map<nat, Bits>)                 // words of memoryToFile read so far
    | Stopped                                       // out of its loop for good

  datatype Shared = Shared(
    data: seq<Bits>,
    dirty: nat,
    clean: nat,
    tracers: map<nat, Tracer>,
    writer: Writer,
    file: seq<Bits>,              // words of the last file written, [] before the first
    doExit: bool,                 // the exit signal has arrived
    ghost reported: set<nat>,     // in-range indices passed to reportIndex
    ghost adds: nat,              // bumps of dirtyCount, unbounded
    ghost bumps: seq<nat>,        // the indices they were for, in order
    ghost cleanAt: nat,           // adds at the value last marked clean
    ghost credits: set<(nat, nat)>)  // (tracer, index) pairs that have bumped it

  function Pc(s: Shared, pid: nat): Tracer {
    if pid in s.tracers then s.tracers[pid] else Idle
  }

  ghost function Init(n: nat): Shared {
    Shared(seq(n, _ => {}), 0, 0, map[], Asleep, [], false, {}, 0, [], 0, {})
  }

  /** One atomic step. `Copy` names the word read next: memcpy may read in any order. */
  datatype Step =
    | Call(pid: nat, index: nat)
    | Test(pid: nat)
    | Load(pid: nat)
    | Cas(pid: nat)
    | Add(pid: nat)
    | CheckDirty
    | ReadDirty
    | StoreClean
    | Copy(word: nat)
    | Write
    | ExitSignal
    | Leave

  ghost function At(s: Shared, pid: nat, pc: Tracer): Shared {
    s.(tracers := s.tracers[pid := pc])
  }

  // A step that is not enabled leaves the state alone.

  ghost function CallStep(s: Shared, pid: nat, index: nat): Shared {
    if !Pc(s, pid).Idle? || index / 32 >= |s.data| then s
    else At(s, pid, Testing(index)).(reported := s.reported + {index})
  }

  ghost function TestStep(s: Shared, pid: nat): Shared {
    match Pc(s, pid)
    case Testing(index) => At(s, pid, if IsHit(s.data, index) then Idle else Loading(index))
    case _ => s
  }

  ghost function LoadStep(s: Shared, pid: nat): Shared {
    match Pc(s, pid)
    case Loading(index) =>
      if index / 32 >= |s.data| then s else At(s, pid, Swapping(index, s.data[index / 32]))
    case _ => s
  }

  ghost function CasStep(s: Shared, pid: nat): Shared {
    match Pc(s, pid)
    case Swapping(index, val) =>
      if index / 32 >= |s.data| then s
      else if s.data[index / 32] != val then At(s, pid, Loading(index))
      else At(s, pid, Counting(index)).(data := s.data[index / 32 := val + {index % 32}])
    case _ => s
  }

  ghost function AddStep(s: Shared, pid: nat): Shared {
    match Pc(s, pid)
    case Counting(index) =>
      At(s, pid, Idle).(dirty := (s.dirty + 1) % COUNTER, adds := s.adds + 1, bumps := s.bumps + [index],
                        credits := s.credits + {(pid, index)})
    case _ => s
  }

  ghost function CheckStep(s: Shared): Shared {
    if s.writer.Asleep? && s.dirty != s.clean then s.(writer := Marking) else s
  }

  ghost function ReadStep(s: Shared): Shared {
    if s.writer.Marking? then s.(writer := Storing(s.dirty, s.adds)) else s
  }

  ghost function CleanStep(s: Shared): Shared {
    match s.writer
    case Storing(seen, seenTotal) => s.(writer := Copying(map[]), clean := seen, cleanAt := seenTotal)
    case _ => s
  }

  ghost function CopyStep(s: Shared, word: nat): Shared {
    if s.writer.Copying? && word < |s.data|
    then s.(writer := Copying(s.writer.copy[word := s.data[word]])) else s
  }

  ghost predicate AllCopied(s: Shared) {
    s.writer.Copying? && forall w: nat :: w < |s.data| ==> w in s.writer.copy
  }

  ghost function WriteStep(s: Shared): Shared {
    if AllCopied(s)
    then s.(writer := Asleep, file := seq(|s.data|, w requires 0 <= w < |s.data| => s.writer.copy[w]))
    else s
  }

  /** The signal handler may run at any time; the test of doExit is in front of each pass. */
  ghost function SignalStep(s: Shared): Shared {
    s.(doExit := true)
  }

  ghost function LeaveStep(s: Shared): Shared {
    if s.writer.Asleep? && s.doExit then s.(writer := Stopped) else s
  }

  ghost function Next(s: Shared, step: Step): Shared {
    match step
    case Call(pid, index) => CallStep(s, pid, index)
    case Test(pid) => TestStep(s, pid)
    case Load(pid) => LoadStep(s, pid)
    case Cas(pid) => CasStep(s, pid)
    case Add(pid) => AddStep(s, pid)
    case CheckDirty => CheckStep(s)
    case ReadDirty => ReadStep(s)
    case StoreClean => CleanStep(s)
    case Copy(word) => CopyStep(s, word)
    case Write => WriteStep(s)
    case ExitSignal => SignalStep(s)
    case Leave => LeaveStep(s)
  }

  ghost function Run(s: Shared, steps: seq<Step>): Shared
    decreases |steps|
  {
    if steps == [] then s else Run(Next(s, steps[0]), steps[1..])
  }

  // ----- the invariant -----

  ghost predicate CopyHas(copy: map<nat, Bits>, i: nat) {
    i / 32 in copy && i % 32 in copy[i / 32]
  }

  /** i is set and its tracer has yet to bump dirtyCount. */
  ghost predicate Owned(s: Shared, i: nat) {
    exists pid :: Pc(s, pid) == Counting(i)
  }

  /** dirtyCount was bumped for i after the value last marked clean. */
  ghost predicate Uncleaned(s: Shared, i: nat) {
    exists k :: s.cleanAt <= k < |s.bumps| && s.bumps[k] == i
  }

  /** A set bit is in the file, or will be in the copy under way, or was announced by a bump not yet cleaned,
      or the tracer that set it is about to announce it. */
  ghost predicate Covered(s: Shared, i: nat) {
    || Uncleaned(s, i)
    || Owned(s, i)
    || match s.writer
       case Asleep => IsHit(s.file, i)
       case Stopped => IsHit(s.file, i)
       case Copying(copy) => i / 32 !in copy || CopyHas(copy, i)
       case _ => true
  }

  ghost predicate TracerOk(s: Shared, pid: nat) {
    match Pc(s, pid)
    case Idle => true
    case Testing(i) => i / 32 < |s.data| && i in s.reported
    case Loading(i) => i / 32 < |s.data| && i in s.reported && (pid, i) !in s.credits
    case Swapping(i, _) => i / 32 < |s.data| && i in s.reported && (pid, i) !in s.credits
    case Counting(i) => IsHit(s.data, i) && (pid, i) !in s.credits
  }

  /** reportIndex(i) is still running and i may not be set yet. */
  ghost predicate InFlight(s: Shared, i: nat) {
    exists pid :: var pc := Pc(s, pid); (pc.Testing? || pc.Loading? || pc.Swapping?) && pc.index == i
  }

  ghost predicate CountersOk(s: Shared) {
    && s.dirty == s.adds % COUNTER
    && s.clean == s.cleanAt % COUNTER
    && s.cleanAt <= s.adds
    && s.adds == |s.credits| == |s.bumps|
    && (s.writer.Storing? ==> s.writer.seen == s.writer.seenTotal % COUNTER && s.cleanAt <= s.writer.seenTotal <= s.adds)
  }

  ghost predicate WriterOk(s: Shared) {
    && (s.file == [] || |s.file| == |s.data|)
    && (forall i: nat :: IsHit(s.file, i) ==> IsHit(s.data, i))
    && (s.writer.Copying? ==>
          forall i: nat :: i / 32 in s.writer.copy ==>
            i / 32 < |s.data|
            && (CopyHas(s.writer.copy, i) ==> IsHit(s.data, i))
            && (IsHit(s.file, i) ==> CopyHas(s.writer.copy, i)))
  }

  ghost predicate Inv(s: Shared) {
    && (forall pid: nat :: TracerOk(s, pid))
    && CountersOk(s)
    && WriterOk(s)
    && (forall i: nat :: IsHit(s.data, i) ==> Covered(s, i))
    && (forall i: nat :: IsHit(s.data, i) ==> i in s.reported)
    && (forall i: nat :: i in s.reported ==> IsHit(s.data, i) || InFlight(s, i))
    && (forall p: (nat, nat) :: p in s.credits ==> IsHit(s.data, p.1))
    && (forall k :: 0 <= k < |s.bumps| ==> IsHit(s.data, s.bumps[k]))
  }

  lemma InitInv(n: nat)
    ensures Inv(Init(n))
  {
  }

  // ----- every step keeps the invariant -----

  /** t differs from s in what tracer pid is doing, and bits are only ever added. */
  ghost predicate OnlyTracer(s: Shared, t: Shared, pid: nat) {
    && (forall p: nat :: p != pid ==> Pc(t, p) == Pc(s, p))
    && |t.data| == |s.data|
    && (forall i: nat :: IsHit(s.data, i) ==> IsHit(t.data, i))
    && s.reported <= t.reported
    && t.writer == s.writer && t.file == s.file && t.clean == s.clean && t.cleanAt == s.cleanAt
    && s.bumps <= t.bumps
  }

  /** What other tracers and the writer know stays true when one tracer moves. */
  lemma OthersKeep(s: Shared, t: Shared, pid: nat)
    requires Inv(s) && OnlyTracer(s, t, pid)
    requires forall p: nat, i: nat :: (p, i) in t.credits ==> (p, i) in s.credits || p == pid
    ensures forall p: nat :: p != pid ==> TracerOk(t, p)
    ensures WriterOk(t)
    ensures forall i: nat :: Owned(s, i) && Pc(s, pid) != Counting(i) ==> Owned(t, i)
    ensures forall i: nat :: InFlight(s, i) && (Pc(s, pid).Idle? || Pc(s, pid).index != i) ==> InFlight(t, i)
  {
    forall p: nat | p != pid ensures TracerOk(t, p) {
      assert TracerOk(s, p);
    }
  }

  lemma CallKeepsInv(s: Shared, pid: nat, index: nat)
    requires Inv(s)
    ensures Inv(CallStep(s, pid, index))
  {
    var t := CallStep(s, pid, index);
    if t != s {
      assert Pc(t, pid) == Testing(index);
      OthersKeep(s, t, pid);
      assert TracerOk(t, pid);
    }
  }

  lemma TestKeepsInv(s: Shared, pid: nat)
    requires Inv(s)
    ensures Inv(TestStep(s, pid))
  {
    var t := TestStep(s, pid);
    if t != s {
      assert TracerOk(s, pid);
      OthersKeep(s, t, pid);
      assert TracerOk(t, pid);
    }
  }

  lemma LoadKeepsInv(s: Shared, pid: nat)
    requires Inv(s)
    ensures Inv(LoadStep(s, pid))
  {
    var t := LoadStep(s, pid);
    if t != s {
      assert TracerOk(s, pid);
      OthersKeep(s, t, pid);
      assert TracerOk(t, pid);
    }
  }

  lemma CasKeepsInv(s: Shared, pid: nat)
    requires Inv(s)
    ensures Inv(CasStep(s, pid))
  {
    var t := CasStep(s, pid);
    if t != s {
      assert TracerOk(s, pid);
      var index := Pc(s, pid).index;
      if Pc(t, pid).Counting? {
        assert t.data == WithHit(s.data, index);
        WithHitSets(s.data, index);
      }
      OthersKeep(s, t, pid);
      assert TracerOk(t, pid);
    }
  }

  lemma CounterStep(adds: nat)
    ensures (adds % COUNTER + 1) % COUNTER == (adds + 1) % COUNTER
  {
  }

  lemma AddCounts(s: Shared, pid: nat)
    requires CountersOk(s) && TracerOk(s, pid)
    ensures CountersOk(AddStep(s, pid))
  {
    CounterStep(s.adds);
  }

  lemma AddKeepsInv(s: Shared, pid: nat)
    requires Inv(s)
    ensures Inv(AddStep(s, pid))
  {
    var t := AddStep(s, pid);
    if t != s {
      assert TracerOk(s, pid);
      AddCounts(s, pid);
      OthersKeep(s, t, pid);
      assert TracerOk(t, pid);
      assert t.bumps[s.adds] == Pc(s, pid).index && Uncleaned(t, Pc(s, pid).index);
    }
  }

  /** The writer's steps leave the tracers and the bits alone. */
  ghost predicate OnlyWriter(s: Shared, t: Shared) {
    && t.tracers == s.tracers && t.data == s.data && t.dirty == s.dirty && t.adds == s.adds
    && t.reported == s.reported && t.credits == s.credits && t.bumps == s.bumps
  }

  lemma TracersKeep(s: Shared, t: Shared)
    requires Inv(s) && OnlyWriter(s, t)
    ensures forall p: nat :: TracerOk(t, p)
    ensures forall i: nat :: Owned(s, i) ==> Owned(t, i)
    ensures forall i: nat :: InFlight(s, i) ==> InFlight(t, i)
  {
    forall p: nat ensures TracerOk(t, p) {
      assert TracerOk(s, p);
    }
    assert forall p: nat :: Pc(t, p) == Pc(s, p);
  }

  lemma MarkKeepsInv(s: Shared)
    requires Inv(s)
    ensures Inv(CheckStep(s)) && Inv(ReadStep(s)) && Inv(CleanStep(s))
  {
    TracersKeep(s, CheckStep(s));
    TracersKeep(s, ReadStep(s));
    TracersKeep(s, CleanStep(s));
  }

  lemma ExitKeepsInv(s: Shared)
    requires Inv(s)
    ensures Inv(SignalStep(s)) && Inv(LeaveStep(s))
  {
    TracersKeep(s, SignalStep(s));
    TracersKeep(s, LeaveStep(s));
  }

  lemma CopyKeepsInv(s: Shared, word: nat)
    requires Inv(s)
    ensures Inv(CopyStep(s, word))
  {
    TracersKeep(s, CopyStep(s, word));
  }

  lemma WriteKeepsInv(s: Shared)
    requires Inv(s)
    ensures Inv(WriteStep(s))
  {
    var t := WriteStep(s);
    TracersKeep(s, t);
    if t != s {
      assert forall i: nat :: IsHit(t.file, i) <==> i / 32 < |s.data| && CopyHas(s.writer.copy, i);
    }
  }

  lemma NextKeepsInv(s: Shared, step: Step)
    requires Inv(s)
    ensures Inv(Next(s, step))
  {
    match step
    case Call(pid, index) => CallKeepsInv(s, pid, index);
    case Test(pid) => TestKeepsInv(s, pid);
    case Load(pid) => LoadKeepsInv(s, pid);
    case Cas(pid) => CasKeepsInv(s, pid);
    case Add(pid) => AddKeepsInv(s, pid);
    case Copy(word) => CopyKeepsInv(s, word);
    case Write => WriteKeepsInv(s);
    case ExitSignal => ExitKeepsInv(s);
    case Leave => ExitKeepsInv(s);
    case _ => MarkKeepsInv(s);
  }

  lemma {:induction false} RunKeepsInv(s: Shared, steps: seq<Step>)
    requires Inv(s)
    ensures Inv(Run(s, steps))
    decreases |steps|
  {
    if steps != [] {
      NextKeepsInv(s, steps[0]);
      RunKeepsInv(Next(s, steps[0]), steps[1..]);
    }
  }

  // ----- what the protocol is for -----

  /** Every call has returned, and the output thread is between passes or gone. */
  ghost predicate Quiet(s: Shared) {
    (s.writer.Asleep? || s.writer.Stopped?) && forall pid: nat :: Pc(s, pid).Idle?
  }

  /** s comes about from fresh memory of n words by some interleaving. */
  ghost predicate Reachable(n: nat, s: Shared) {
    exists steps: seq<Step> :: s == Run(Init(n), steps)
  }

  lemma ReachableInv(n: nat, s: Shared)
    requires Reachable(n, s)
    ensures Inv(s) && |s.data| == n
  {
    var steps: seq<Step> :| s == Run(Init(n), steps);
    InitInv(n);
    RunKeepsInv(Init(n), steps);
    RunKeepsLength(Init(n), steps);
  }

  lemma {:induction false} RunKeepsLength(s: Shared, steps: seq<Step>)
    ensures |Run(s, steps).data| == |s.data|
    decreases |steps|
  {
    if steps != [] {
      RunKeepsLength(Next(s, steps[0]), steps[1..]);
    }
  }

  /** No lost hit: at every moment of every interleaving a set bit is in the last file, still to be
      caught by the copy under way, announced by the counters, or owned by a tracer about to announce it. */
  lemma NoHitIsLost(n: nat, s: Shared, index: nat)
    requires Reachable(n, s) && IsHit(s.data, index)
    ensures Covered(s, index) && index in s.reported
  {
    ReachableInv(n, s);
  }

  ghost predicate FileIsExact(s: Shared) {
    forall i: nat :: IsHit(s.file, i) <==> i in s.reported
  }

  /** Every call has returned, the output thread writes nothing and the memory reads clean: then the file
      holds exactly the in-range indices that were reported, in whatever order the steps came.
      The counters are 32 bits wide, so fewer than 2^32 bumps may fall between two cleanings. */
  lemma QuietCleanFileIsExact(n: nat, s: Shared)
    requires Reachable(n, s) && Quiet(s) && s.dirty == s.clean && s.adds - s.cleanAt < COUNTER
    ensures FileIsExact(s)
  {
    ReachableInv(n, s);
    SameCounter(s.adds, s.cleanAt);
  }

  lemma SameCounter(a: nat, b: nat)
    requires b <= a && a % COUNTER == b % COUNTER && a - b < COUNTER
    ensures a == b
  {
  }

  /** isDirty on the 32-bit counters overlooks pending bumps exactly when their number is a multiple of 2^32. */
  lemma CleanMeansMultiple(n: nat, s: Shared)
    requires Reachable(n, s)
    ensures s.dirty == s.clean <==> (s.adds - s.cleanAt) % COUNTER == 0
  {
    ReachableInv(n, s);
    Congruent(s.adds, s.cleanAt);
  }

  lemma Congruent(a: nat, b: nat)
    requires b <= a
    ensures a % COUNTER == b % COUNTER <==> (a - b) % COUNTER == 0
  {
  }

  // ----- how many bumps there can be -----

  predicate ByTracersBelow(steps: seq<Step>, r: nat) {
    forall k :: 0 <= k < |steps| ==>
      match steps[k]
      case Call(pid, _) => pid < r
      case Test(pid) => pid < r
      case Load(pid) => pid < r
      case Cas(pid) => pid < r
      case Add(pid) => pid < r
      case _ => true
  }

  ghost predicate CreditsOf(s: Shared, r: nat, m: nat) {
    forall p: nat, i: nat :: (p, i) in s.credits ==> p < r && i < m
  }

  lemma {:induction false} PairsWithFirst(c: set<(nat, nat)>, p: nat, m: nat)
    requires forall x :: x in c ==> x.0 == p && x.1 < m
    ensures |c| <= m
  {
    if m == 0 {
      if x :| x in c { assert false; }
    } else {
      PairsWithFirst(c - {(p, m - 1)}, p, m - 1);
    }
  }

  lemma {:induction false} PairsBelow(c: set<(nat, nat)>, r: nat, m: nat)
    requires forall x :: x in c ==> x.0 < r && x.1 < m
    ensures |c| <= r * m
  {
    if r == 0 {
      if x :| x in c { assert false; }
    } else {
      var last := set x | x in c && x.0 == r - 1;
      PairsWithFirst(last, r - 1, m);
      PairsBelow(c - last, r - 1, m);
      assert (r - 1) * m + m == r * m;
    }
  }

  lemma NextKeepsCredits(s: Shared, step: Step, r: nat)
    requires Inv(s) && ByTracersBelow([step], r) && CreditsOf(s, r, 32 * |s.data|)
    ensures CreditsOf(Next(s, step), r, 32 * |s.data|) && |Next(s, step).data| == |s.data|
  {
    if step.Add? {
      assert step == [step][0];
      assert TracerOk(s, step.pid);
    }
  }

  lemma {:induction false} RunKeepsCredits(s: Shared, steps: seq<Step>, r: nat)
    requires Inv(s) && ByTracersBelow(steps, r) && CreditsOf(s, r, 32 * |s.data|)
    ensures CreditsOf(Run(s, steps), r, 32 * |Run(s, steps).data|)
    ensures |Run(s, steps).data| == |s.data|
    decreases |steps|
  {
    if steps != [] {
      NextKeepsInv(s, steps[0]);
      NextKeepsCredits(s, steps[0], r);
      RunKeepsCredits(Next(s, steps[0]), steps[1..], r);
    }
  }

  /** A tracer bumps the counter at most once for each index, so r tracers make at most 32*n*r bumps. */
  lemma BumpsAreBounded(n: nat, steps: seq<Step>, r: nat)
    requires ByTracersBelow(steps, r)
    ensures Run(Init(n), steps).adds <= r * (32 * n)
  {
    InitInv(n);
    RunKeepsInv(Init(n), steps);
    RunKeepsCredits(Init(n), steps, r);
    PairsBelow(Run(Init(n), steps).credits, r, 32 * n);
  }

  /** With few enough tracers the counters cannot be fooled, so quiet and clean alone make the file exact. */
  lemma FewTracersFileIsExact(n: nat, steps: seq<Step>, r: nat, s: Shared)
    requires ByTracersBelow(steps, r) && r * (32 * n) < COUNTER
    requires s == Run(Init(n), steps) && Quiet(s) && s.dirty == s.clean
    ensures FileIsExact(s)
  {
    BumpsAreBounded(n, steps, r);
    QuietCleanFileIsExact(n, s);
  }

  // ----- one more pass is enough -----

  lemma {:induction false} RunAppend(s: Shared, a: seq<Step>, b: seq<Step>)
    ensures Run(s, a + b) == Run(Run(s, a), b)
    decreases |a|
  {
    if a == [] {
      assert a + b == b;
    } else {
      assert (a + b)[1..] == a[1..] + b;
      RunAppend(Next(s, a[0]), a[1..], b);
    }
  }

  /** Reads of words k..n-1, in address order. */
  function Copies(k: nat, n: nat): seq<Step>
    requires k <= n
    decreases n - k
  {
    if k == n then [] else [Copy(k)] + Copies(k + 1, n)
  }

  /** The output thread's body for this file, undisturbed. */
  function Pass(n: nat): seq<Step> {
    [CheckDirty] + ([ReadDirty] + ([StoreClean] + (Copies(0, n) + [Write])))
  }

  lemma RunCons(s: Shared, step: Step, rest: seq<Step>)
    ensures Run(s, [step] + rest) == Run(Next(s, step), rest)
  {
    assert ([step] + rest)[1..] == rest;
  }

  lemma {:induction false} CopiesRead(s: Shared, k: nat)
    requires k <= |s.data| && s.writer.Copying?
    requires forall w: nat :: w < k ==> w in s.writer.copy && s.writer.copy[w] == s.data[w]
    ensures var t := Run(s, Copies(k, |s.data|));
            t == s.(writer := t.writer) && t.writer.Copying?
            && forall w: nat :: w < |s.data| ==> w in t.writer.copy && t.writer.copy[w] == s.data[w]
    decreases |s.data| - k
  {
    if k < |s.data| {
      var steps := Copies(k, |s.data|);
      assert steps[0] == Copy(k) && steps[1..] == Copies(k + 1, |s.data|);
      CopiesRead(Next(s, Copy(k)), k + 1);
    }
  }

  lemma RunOne(s: Shared, step: Step)
    ensures Run(s, [step]) == Next(s, step)
  {
    assert [step][1..] == [];
    assert Run(Next(s, step), []) == Next(s, step);
  }

  lemma IdlePass(s: Shared, n: nat)
    requires s.writer.Asleep? && s.dirty == s.clean
    ensures Run(s, Pass(n)) == s
  {
    var tail := Copies(0, n) + [Write];
    RunCons(s, CheckDirty, [ReadDirty] + ([StoreClean] + tail));
    RunCons(s, ReadDirty, [StoreClean] + tail);
    RunCons(s, StoreClean, tail);
    RunAppend(s, Copies(0, n), [Write]);
    IdleCopies(s, 0, n);
    RunOne(s, Write);
  }

  lemma {:induction false} IdleCopies(s: Shared, k: nat, n: nat)
    requires k <= n && s.writer.Asleep?
    ensures Run(s, Copies(k, n)) == s
    decreases n - k
  {
    if k < n {
      assert Copies(k, n)[1..] == Copies(k + 1, n);
      IdleCopies(s, k + 1, n);
    }
  }

  lemma DirtyPass(s: Shared)
    requires s.writer.Asleep? && s.dirty != s.clean
    ensures var t := Run(s, Pass(|s.data|));
            t == s.(clean := s.dirty, cleanAt := s.adds, file := t.file) && t.file == s.data
  {
    var n := |s.data|;
    var tail := Copies(0, n) + [Write];
    var a := CheckStep(s);
    var b := ReadStep(a);
    var c := CleanStep(b);
    RunCons(s, CheckDirty, [ReadDirty] + ([StoreClean] + tail));
    RunCons(a, ReadDirty, [StoreClean] + tail);
    RunCons(b, StoreClean, tail);
    RunAppend(c, Copies(0, n), [Write]);
    CopiesRead(c, 0);
    var d := Run(c, Copies(0, n));
    RunOne(d, Write);
    assert WriteStep(d).file == s.data;
  }

  /** Once the tracers have stopped, a single further pass leaves memory clean and the file exact. */
  lemma OnePassIsEnough(n: nat, s: Shared)
    requires Reachable(n, s) && Quiet(s) && s.writer.Asleep? && s.adds - s.cleanAt < COUNTER
    ensures var t := Run(s, Pass(n));
            Quiet(t) && t.dirty == t.clean && t.reported == s.reported && FileIsExact(t)
  {
    ReachableInv(n, s);
    if s.dirty == s.clean {
      IdlePass(s, n);
      QuietCleanFileIsExact(n, s);
    } else {
      DirtyPass(s);
      assert forall pid: nat :: Pc(Run(s, Pass(n)), pid) == Pc(s, pid);
    }
  }

  // ----- reportIndex run alone -----

  function ReportSteps(pid: nat, index: nat): seq<Step> {
    [Call(pid, index)] + ([Test(pid)] + ([Load(pid)] + ([Cas(pid)] + [Add(pid)])))
  }

  /** The five steps one after the other. */
  ghost function Reported(s: Shared, pid: nat, index: nat): Shared {
    AddStep(CasStep(LoadStep(TestStep(CallStep(s, pid, index), pid), pid), pid), pid)
  }

  lemma RunReport(s: Shared, pid: nat, index: nat)
    ensures Run(s, ReportSteps(pid, index)) == Reported(s, pid, index)
  {
    var a := CallStep(s, pid, index);
    var b := TestStep(a, pid);
    var c := LoadStep(b, pid);
    RunCons(s, Call(pid, index), [Test(pid)] + ([Load(pid)] + ([Cas(pid)] + [Add(pid)])));
    RunCons(a, Test(pid), [Load(pid)] + ([Cas(pid)] + [Add(pid)]));
    RunCons(b, Load(pid), [Cas(pid)] + [Add(pid)]);
    RunCons(c, Cas(pid), [Add(pid)]);
    RunOne(CasStep(c, pid), Add(pid));
  }

  lemma ReportTests(s: Shared, pid: nat, index: nat)
    requires Pc(s, pid).Idle? && index / 32 < |s.data|
    ensures TestStep(CallStep(s, pid, index), pid) ==
            At(s, pid, if IsHit(s.data, index) then Idle else Loading(index)).(reported := s.reported + {index})
  {
    var a := CallStep(s, pid, index);
    assert Pc(a, pid) == Testing(index);
    assert a.tracers[pid := Idle] == s.tracers[pid := Idle];
    assert a.tracers[pid := Loading(index)] == s.tracers[pid := Loading(index)];
  }

  lemma ReportSwaps(b: Shared, pid: nat, index: nat)
    requires Pc(b, pid) == Loading(index) && index / 32 < |b.data|
    ensures AddStep(CasStep(LoadStep(b, pid), pid), pid) ==
            At(b, pid, Idle).(data := WithHit(b.data, index), dirty := (b.dirty + 1) % COUNTER,
                              adds := b.adds + 1, bumps := b.bumps + [index], credits := b.credits + {(pid, index)})
  {
    var val := b.data[index / 32];
    var c := LoadStep(b, pid);
    assert c == At(b, pid, Swapping(index, val));
    assert Pc(c, pid) == Swapping(index, val);
    var d := CasStep(c, pid);
    assert c.tracers[pid := Counting(index)] == b.tracers[pid := Counting(index)];
    assert d == At(b, pid, Counting(index)).(data := WithHit(b.data, index));
    assert Pc(d, pid) == Counting(index);
    assert d.tracers[pid := Idle] == b.tracers[pid := Idle];
  }

  lemma FreshReport(s: Shared, pid: nat, index: nat)
    requires Pc(s, pid).Idle? && index / 32 < |s.data| && !IsHit(s.data, index)
    ensures Reported(s, pid, index) ==
            At(s, pid, Idle).(data := WithHit(s.data, index), dirty := (s.dirty + 1) % COUNTER,
                              reported := s.reported + {index},
                              adds := s.adds + 1, bumps := s.bumps + [index], credits := s.credits + {(pid, index)})
  {
    ReportTests(s, pid, index);
    var b := TestStep(CallStep(s, pid, index), pid);
    ReportSwaps(b, pid, index);
    assert b.tracers[pid := Idle] == s.tracers[pid := Idle];
  }

  lemma IdleReport(s: Shared, pid: nat, index: nat)
    requires Pc(s, pid).Idle? && !(index / 32 < |s.data| && !IsHit(s.data, index))
    ensures Reported(s, pid, index) ==
            if index / 32 < |s.data| then At(s, pid, Idle).(reported := s.reported + {index}) else s
  {
    if index / 32 < |s.data| {
      ReportTests(s, pid, index);
    }
    var b := TestStep(CallStep(s, pid, index), pid);
    assert Pc(b, pid).Idle?;
  }

  /** Undisturbed, reportIndex sets its bit and dirties the memory, unless the index is out of range
      or already hit; then it changes nothing. */
  lemma UndisturbedReport(s: Shared, pid: nat, index: nat)
    requires Pc(s, pid).Idle?
    ensures var t := Reported(s, pid, index);
            && (forall p: nat :: Pc(t, p) == Pc(s, p))
            && t.writer == s.writer && t.file == s.file && t.clean == s.clean
            && t.reported == (if index / 32 < |s.data| then s.reported + {index} else s.reported)
            && if index / 32 < |s.data| && !IsHit(s.data, index)
               then t.data == WithHit(s.data, index) && t.dirty == (s.dirty + 1) % COUNTER
               else t.data == s.data && t.dirty == s.dirty
  {
    if index / 32 < |s.data| && !IsHit(s.data, index) {
      FreshReport(s, pid, index);
    } else {
      IdleReport(s, pid, index);
    }
  }

  // ----- leaving the loop -----

  lemma {:induction false} StoppedForGood(s: Shared, steps: seq<Step>)
    requires s.writer.Stopped?
    ensures Run(s, steps).writer.Stopped? && Run(s, steps).file == s.file
    decreases |steps|
  {
    if steps != [] {
      StoppedForGood(Next(s, steps[0]), steps[1..]);
    }
  }

  ghost function Lost(s: Shared): set<nat> {
    set i | i in s.reported && !IsHit(s.file, i)
  }

  lemma {:induction false} ValuesOf(c: set<nat>, v: seq<nat>)
    requires forall i :: i in c ==> i in v
    ensures |c| <= |v|
  {
    if v == [] {
      assert c == {};
    } else {
      var x := v[|v| - 1];
      assert v == v[..|v| - 1] + [x];
      ValuesOf(c - {x}, v[..|v| - 1]);
    }
  }

  /** In a quiet state, with the output thread gone or not, a reported index is missing from the file only if its
      own bump came after the value last marked clean. So the file is exact if and only if the copy caught every
      such index, and no more can be missing than there are uncleaned bumps. */
  lemma LostAreUncleaned(n: nat, s: Shared)
    requires Reachable(n, s) && Quiet(s)
    ensures FileIsExact(s) <==> forall i: nat :: Uncleaned(s, i) ==> IsHit(s.file, i)
    ensures |Lost(s)| <= s.adds - s.cleanAt
  {
    ReachableInv(n, s);
    assert forall i: nat :: Uncleaned(s, i) ==> i in s.reported;
    assert forall i: nat :: i in s.reported && !Uncleaned(s, i) ==> IsHit(s.file, i);
    forall i | i in Lost(s) ensures i in s.bumps[s.cleanAt..] {
      assert Uncleaned(s, i);
      var k :| s.cleanAt <= k < |s.bumps| && s.bumps[k] == i;
      assert s.bumps[s.cleanAt..][k - s.cleanAt] == i;
    }
    ValuesOf(Lost(s), s.bumps[s.cleanAt..]);
  }

  /** One report, the signal, and the test of doExit. */
  function ReportAndExit(pid: nat, index: nat): seq<Step> {
    ReportSteps(pid, index) + ([ExitSignal] + [Leave])
  }

  lemma ExitRun(n: nat, pid: nat, index: nat)
    ensures Run(Init(n), ReportAndExit(pid, index)) == LeaveStep(SignalStep(Reported(Init(n), pid, index)))
  {
    var t := Reported(Init(n), pid, index);
    RunReport(Init(n), pid, index);
    RunAppend(Init(n), ReportSteps(pid, index), [ExitSignal] + [Leave]);
    RunCons(t, ExitSignal, [Leave]);
    RunOne(SignalStep(t), Leave);
  }

  /** The exit can lose a hit: it was reported before the signal, and whatever happens afterwards no file has it. */
  lemma ShutdownCanLoseAHit(n: nat, pid: nat, index: nat, after: seq<Step>)
    requires index / 32 < n
    ensures var s := Run(Init(n), ReportAndExit(pid, index));
            && Reachable(n, s) && Quiet(s) && s.writer.Stopped? && s.reported == {index} && s.adds - s.cleanAt == 1
            && !FileIsExact(s) && !IsHit(Run(s, after).file, index)
  {
    ExitRun(n, pid, index);
    FreshReport(Init(n), pid, index);
    var s := LeaveStep(SignalStep(Reported(Init(n), pid, index)));
    assert index in s.reported && !IsHit(s.file, index);
    StoppedForGood(s, after);
  }

  // ----- tracers enough to wrap the counter -----

  /** k tracers call for index i and find it unset. */
  function Starters(i: nat, k: nat): seq<Step> {
    if k == 0 then [] else Starters(i, k - 1) + [Call(k - 1, i), Test(k - 1)]
  }

  /** k tracers then set it, one after the other. */
  function Setters(k: nat): seq<Step> {
    if k == 0 then [] else Setters(k - 1) + [Load(k - 1), Cas(k - 1), Add(k - 1)]
  }

  /** Nothing was ever cleaned or written, and `adds` bumps were counted. */
  ghost predicate Unwritten(s: Shared, n: nat, adds: nat) {
    && |s.data| == n && s.writer.Asleep? && s.file == [] && s.clean == 0 && s.cleanAt == 0 && s.adds == adds
    && s.dirty == adds % COUNTER
  }

  /** The tracers from j to k - 1 are about to read the word of i, the others idle. */
  ghost predicate Lined(s: Shared, i: nat, j: nat, k: nat) {
    forall p: nat :: Pc(s, p) == if j <= p < k then Loading(i) else Idle
  }

  lemma OneMoves(s: Shared, t: Shared, pid: nat, pc: Tracer)
    requires t.tracers == s.tracers[pid := pc]
    ensures forall p: nat :: Pc(t, p) == if p == pid then pc else Pc(s, p)
  {
  }

  lemma RunTwo(s: Shared, a: Step, b: Step)
    ensures Run(s, [a, b]) == Next(Next(s, a), b)
  {
    assert [a, b] == [a] + [b];
    RunCons(s, a, [b]);
    RunOne(Next(s, a), b);
  }

  lemma RunThree(s: Shared, a: Step, b: Step, c: Step)
    ensures Run(s, [a, b, c]) == Next(Next(Next(s, a), b), c)
  {
    assert [a, b, c] == [a] + [b, c];
    RunCons(s, a, [b, c]);
    RunTwo(Next(s, a), b, c);
  }

  lemma StarterStep(s: Shared, n: nat, adds: nat, i: nat, k: nat)
    requires Unwritten(s, n, adds) && Lined(s, i, 0, k) && i / 32 < n && !IsHit(s.data, i)
    ensures var t := TestStep(CallStep(s, k, i), k);
            Unwritten(t, n, adds) && Lined(t, i, 0, k + 1) && t.data == s.data && t.reported == s.reported + {i}
  {
    assert Pc(s, k).Idle?;
    ReportTests(s, k, i);
    OneMoves(s, TestStep(CallStep(s, k, i), k), k, Loading(i));
  }

  lemma {:induction false} AllStart(s: Shared, n: nat, adds: nat, i: nat, k: nat)
    requires Unwritten(s, n, adds) && Lined(s, i, 0, 0) && i / 32 < n && !IsHit(s.data, i)
    ensures var t := Run(s, Starters(i, k));
            Unwritten(t, n, adds) && Lined(t, i, 0, k) && t.data == s.data
            && t.reported == if k == 0 then s.reported else s.reported + {i}
  {
    if k > 0 {
      AllStart(s, n, adds, i, k - 1);
      var t := Run(s, Starters(i, k - 1));
      RunAppend(s, Starters(i, k - 1), [Call(k - 1, i), Test(k - 1)]);
      RunTwo(t, Call(k - 1, i), Test(k - 1));
      StarterStep(t, n, adds, i, k - 1);
    }
  }

  ghost predicate AlsoHit(data: seq<Bits>, more: seq<Bits>, i: nat) {
    forall x: nat :: IsHit(more, x) <==> IsHit(data, x) || x == i
  }

  lemma SetterStep(s: Shared, n: nat, adds: nat, i: nat, j: nat, k: nat)
    requires Unwritten(s, n, adds) && Lined(s, i, j, k) && i / 32 < n && j < k
    ensures var t := AddStep(CasStep(LoadStep(s, j), j), j);
            Unwritten(t, n, adds + 1) && Lined(t, i, j + 1, k) && AlsoHit(s.data, t.data, i) && t.reported == s.reported
  {
    assert Pc(s, j) == Loading(i);
    ReportSwaps(s, j, i);
    OneMoves(s, AddStep(CasStep(LoadStep(s, j), j), j), j, Idle);
    CounterStep(adds);
    WithHitSets(s.data, i);
  }

  lemma ThenThree(s: Shared, steps: seq<Step>, a: Step, b: Step, c: Step, t: Shared)
    requires t == Run(s, steps)
    ensures Run(s, steps + [a, b, c]) == Next(Next(Next(t, a), b), c)
  {
    RunAppend(s, steps, [a, b, c]);
    RunThree(t, a, b, c);
  }

  /** t is s once j of the k tracers have set i. */
  ghost predicate SetBy(s: Shared, t: Shared, n: nat, adds: nat, i: nat, j: nat, k: nat) {
    && Unwritten(t, n, adds + j) && Lined(t, i, j, k) && t.reported == s.reported
    && if j == 0 then t.data == s.data else AlsoHit(s.data, t.data, i)
  }

  lemma SetMore(s: Shared, t: Shared, n: nat, adds: nat, i: nat, j: nat, k: nat)
    requires SetBy(s, t, n, adds, i, j, k) && i / 32 < n && j < k
    ensures SetBy(s, Next(Next(Next(t, Load(j)), Cas(j)), Add(j)), n, adds, i, j + 1, k)
  {
    SetterStep(t, n, adds + j, i, j, k);
  }

  lemma {:induction false} AllSet(s: Shared, n: nat, adds: nat, i: nat, j: nat, k: nat)
    requires Unwritten(s, n, adds) && Lined(s, i, 0, k) && i / 32 < n && j <= k
    ensures SetBy(s, Run(s, Setters(j)), n, adds, i, j, k)
  {
    if j > 0 {
      AllSet(s, n, adds, i, j - 1, k);
      var t := Run(s, Setters(j - 1));
      SetMore(s, t, n, adds, i, j - 1, k);
      ThenThree(s, Setters(j - 1), Load(j - 1), Cas(j - 1), Add(j - 1), t);
    }
  }

  /** k tracers bump the counter k times for one index. */
  lemma AllBump(s: Shared, n: nat, adds: nat, i: nat, k: nat)
    requires Unwritten(s, n, adds) && Lined(s, i, 0, 0) && i / 32 < n && !IsHit(s.data, i) && k > 0
    ensures var t := Run(s, Starters(i, k) + Setters(k));
            && Unwritten(t, n, adds + k) && Lined(t, i, 0, 0) && AlsoHit(s.data, t.data, i)
            && t.reported == s.reported + {i}
  {
    AllStart(s, n, adds, i, k);
    RunAppend(s, Starters(i, k), Setters(k));
    AllSet(Run(s, Starters(i, k)), n, adds, i, k, k);
  }

  /** The first q indices, each by all r tracers. */
  function Rounds(q: nat, r: nat): seq<Step> {
    if q == 0 then [] else Rounds(q - 1, r) + (Starters(q - 1, r) + Setters(r))
  }

  ghost predicate HitBelow(s: Shared, q: nat) {
    forall x: nat :: IsHit(s.data, x) ==> x < q
  }

  lemma {:induction false} RoundsBump(n: nat, q: nat, r: nat)
    requires q <= 32 * n && r > 0
    ensures var t := Run(Init(n), Rounds(q, r));
            Unwritten(t, n, q * r) && Lined(t, 0, 0, 0) && HitBelow(t, q) && (q > 0 ==> 0 in t.reported)
  {
    if q > 0 {
      RoundsBump(n, q - 1, r);
      var s := Run(Init(n), Rounds(q - 1, r));
      RunAppend(Init(n), Rounds(q - 1, r), Starters(q - 1, r) + Setters(r));
      assert (q - 1) * r + r == q * r;
      AllBump(s, n, (q - 1) * r, q - 1, r);
    }
  }

  lemma {:induction false} BelowAppend(a: seq<Step>, b: seq<Step>, r: nat)
    requires ByTracersBelow(a, r) && ByTracersBelow(b, r)
    ensures ByTracersBelow(a + b, r)
  {
  }

  lemma {:induction false} StepsBelow(i: nat, k: nat, r: nat)
    requires k <= r
    ensures ByTracersBelow(Starters(i, k), r) && ByTracersBelow(Setters(k), r)
  {
    if k > 0 {
      StepsBelow(i, k - 1, r);
      BelowAppend(Starters(i, k - 1), [Call(k - 1, i), Test(k - 1)], r);
      BelowAppend(Setters(k - 1), [Load(k - 1), Cas(k - 1), Add(k - 1)], r);
    }
  }

  lemma {:induction false} RoundsBelow(q: nat, r: nat)
    ensures ByTracersBelow(Rounds(q, r), r)
  {
    if q > 0 {
      RoundsBelow(q - 1, r);
      StepsBelow(q - 1, r, r);
      BelowAppend(Starters(q - 1, r), Setters(r), r);
      BelowAppend(Rounds(q - 1, r), Starters(q - 1, r) + Setters(r), r);
    }
  }

  /** Any number of bumps up to 32*n*r can be had from r tracers without a cleaning. */
  lemma BumpsCanBeHad(n: nat, r: nat, m: nat) returns (steps: seq<Step>)
    requires 0 < m <= r * (32 * n)
    ensures ByTracersBelow(steps, r)
    ensures var s := Run(Init(n), steps); Unwritten(s, n, m) && Lined(s, 0, 0, 0) && s.reported != {}
  {
    var q, k := m / r, m % r;
    assert m == q * r + k;
    Quotient(m, r, 32 * n, q, k);
    RoundsBump(n, q, r);
    RoundsBelow(q, r);
    steps := Rounds(q, r);
    if k > 0 {
      var s := Run(Init(n), steps);
      RunAppend(Init(n), steps, Starters(q, k) + Setters(k));
      AllBump(s, n, q * r, q, k);
      StepsBelow(q, k, r);
      BelowAppend(Starters(q, k), Setters(k), r);
      BelowAppend(steps, Starters(q, k) + Setters(k), r);
      steps := steps + (Starters(q, k) + Setters(k));
    }
  }

  lemma {:induction false} NotFewer(q: nat, r: nat, c: nat)
    ensures q > c ==> q * r >= c * r + r
  {
    if q > c + 1 {
      NotFewer(q - 1, r, c);
    }
  }

  lemma Quotient(m: nat, r: nat, c: nat, q: nat, k: nat)
    requires 0 < m <= r * c && m == q * r + k && k < r
    ensures q <= c && (k > 0 ==> q < c) && (k == 0 ==> q > 0)
  {
    NotFewer(q, r, c);
  }

  /** Clean-and-quiet can be trusted for every run of r tracers over n words if and only if they cannot bump the
      counter 2^32 times. */
  lemma TrustedIff(n: nat, r: nat)
    ensures r * (32 * n) < COUNTER <==>
            forall steps: seq<Step> :: ByTracersBelow(steps, r) ==> CleanIsExact(Run(Init(n), steps))
  {
    if r * (32 * n) < COUNTER {
      forall steps: seq<Step> | ByTracersBelow(steps, r) ensures CleanIsExact(Run(Init(n), steps)) {
        if Quiet(Run(Init(n), steps)) && Run(Init(n), steps).dirty == Run(Init(n), steps).clean {
          FewTracersFileIsExact(n, steps, r, Run(Init(n), steps));
        }
      }
    } else {
      var steps := BumpsCanBeHad(n, r, COUNTER);
      var s := Run(Init(n), steps);
      assert COUNTER % COUNTER == 0;
      var i :| i in s.reported;
      assert !IsHit(s.file, i);
      assert !CleanIsExact(s);
    }
  }

  ghost predicate CleanIsExact(s: Shared) {
    Quiet(s) && s.dirty == s.clean ==> FileIsExact(s)
  }
}
