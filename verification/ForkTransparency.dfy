/** Tracing a family of forks. */
module ForkTransparency {
  // A traced program forks, its children fork, and all of them run in any interleaving under one engine. Each
  // process is, from its fork on, a stuttering copy of the untraced child, and the reports are its first visits:
  // each address that is armed in its memory is reported once there.

  import opened PtraceWords
  import opened PtraceEngine
  import opened Transparency

  /** A process: its data, where it came from, and what happened in it since. */
  datatype Proc<D> = Proc(data: D, root: Cpu<D>, log: seq<Entry>)

  /** The engine, in whose registers the program counters are, and the processes. */
  datatype Family<D> = Family(e: State, procs: map<nat, Proc<D>>)

  /** One process takes a step, new lines being registered if it is a report; or it forks, the kernel choosing the
      child's process id and its data. */
  datatype Move<D> = Go(pid: nat, news: seq<nat>) | Forks(parent: nat, child: nat, space: nat, data: D)

  /** One process as if the engine had just stopped it. */
  ghost function Alone<D>(f: Family<D>, pid: nat): Traced<D>
    requires pid in f.procs
  {
    Traced(f.procs[pid].data, f.e.(active := pid), f.procs[pid].log)
  }

  ghost function PcOf<D>(f: Family<D>, pid: nat): int
    requires Attached(f.e, pid)
  {
    f.e.os.rip[pid]
  }

  ghost function MemOf(e: State, pid: nat): Memory
    requires Attached(e, pid)
  {
    e.os.spaces[e.os.spaceOf[pid]]
  }

  ghost predicate CanGo<D>(f: Family<D>, pid: nat, news: seq<nat>) {
    && pid in f.procs && Attached(f.e, pid) && Attached(f.e, f.e.active) && |MemOf(f.e, pid)| % 8 == 0
    && 0 <= PcOf(f, pid) < |MemOf(f.e, pid)| && forall a :: a in news ==> a < |MemOf(f.e, pid)|
  }

  /** The processor executes, or stops at the int3; then one turn of continueExecution follows, whichever process
      was active before. */
  ghost function Gone<D>(isa: Isa<D>, f: Family<D>, pid: nat, news: seq<nat>): Family<D>
    requires CanGo(f, pid, news)
  {
    var pc, m, proc := PcOf(f, pid), MemOf(f.e, pid), f.procs[pid];
    if m[pc] != INT3 then
      var c := isa.exec(m, Cpu(pc, proc.data));
      Family(f.e.(os := f.e.os.(rip := f.e.os.rip[pid := c.pc])),
             f.procs[pid := proc.(data := c.data, log := proc.log + [Exec(pc)])])
    else
      var os := f.e.os.(rip := f.e.os.rip[pid := pc + 1]);
      var t := Traced(proc.data, Continued(f.e, os, Stopped(pid, SIGTRAP, false)), proc.log + [Report(ReportedPc(pc + 1))]);
      var r := Rearmed(t, news);
      Family(r.e, f.procs[pid := proc.(log := r.log)])
  }

  /** What the child takes over: the addresses armed in its parent and not yet reported there. */
  ghost function Inherited(log: seq<Entry>, gone: set<int>): seq<Entry> {
    if log == [] then []
    else
      var rest, last := Inherited(log[..|log| - 1], gone), log[|log| - 1];
      if last.Arm? && last.at !in gone then rest + [last] else rest
  }

  ghost predicate CanFork<D>(f: Family<D>, parent: nat, child: nat, space: nat) {
    && parent in f.procs && Attached(f.e, parent) && Attached(f.e, f.e.active) && |MemOf(f.e, parent)| % 8 == 0
    && 0 < PcOf(f, parent) <= |MemOf(f.e, parent)| && space !in f.e.os.spaces && child !in f.e.os.spaceOf
  }

  /** The kernel copies the parent's memory, int3s and all, and stops the child before its first instruction. */
  ghost function Forked<D>(f: Family<D>, parent: nat, child: nat, space: nat, data: D): Family<D>
    requires CanFork(f, parent, child, space)
  {
    var e := Fork(f.e, parent, child, space);
    var log := f.procs[parent].log;
    Family(Continued(e, e.os, Stopped(child, SIGSTOP, false)),
           f.procs[child := Proc(data, Cpu(PcOf(f, parent), data), Inherited(log, ReportedIn(log)))])
  }

  /** Behind an instruction of more than one byte, as the system calls that fork are. */
  ghost predicate BehindALongOne<D>(isa: Isa<D>, orig: Memory, starts: set<nat>, pc: int) {
    exists q :: q in starts && isa.len(orig, q) > 1 && pc == q + isa.len(orig, q)
  }

  ghost predicate Possible<D>(isa: Isa<D>, orig: Memory, starts: set<nat>, f: Family<D>, move: Move<D>) {
    match move
    case Go(pid, news) => pid in f.procs && forall a :: a in news ==> a in starts
    case Forks(parent, child, space, _) =>
      && parent in f.procs && child !in f.e.os.spaceOf && child !in f.procs && space !in f.e.os.spaces
      && Attached(f.e, parent) && BehindALongOne(isa, orig, starts, PcOf(f, parent))
  }

  // ----- the invariant -----

  ghost predicate ProcOk<D>(isa: Isa<D>, orig: Memory, starts: set<nat>, f: Family<D>, pid: nat)
    requires pid in f.procs
  {
    Sound(isa, orig, starts, f.procs[pid].root, Alone(f, pid))
  }

  ghost predicate Apart(e: State) {
    forall p, q :: p in e.os.spaceOf && q in e.os.spaceOf && p != q ==> e.os.spaceOf[p] != e.os.spaceOf[q]
  }

  ghost predicate FamilyOk<D>(isa: Isa<D>, orig: Memory, starts: set<nat>, f: Family<D>) {
    && f.e.pending == [] && f.e.active in f.procs && f.e.os.spaceOf.Keys == f.procs.Keys && Apart(f.e)
    && forall pid :: pid in f.procs ==> ProcOk(isa, orig, starts, f, pid)
  }

  /** A process stands at an instruction of the program. */
  ghost predicate Stands<D>(orig: Memory, starts: set<nat>, f: Family<D>, pid: nat) {
    && pid in f.procs && Inv(f.e, orig) && Attached(f.e, pid) && |MemOf(f.e, pid)| == |orig|
    && PcOf(f, pid) in starts && 0 <= PcOf(f, pid) < |orig| && f.e.saved.Keys <= starts
  }

  lemma Standing<D(!new)>(isa: Isa<D>, orig: Memory, starts: set<nat>, f: Family<D>, pid: nat)
    requires WellFormed(isa, orig, starts) && pid in f.procs && ProcOk(isa, orig, starts, f, pid)
    ensures Stands(orig, starts, f, pid)
  {
    SameInv(f.e.(active := pid), f.e, orig);
    assert BytesOk(f.e, orig, MemOf(f.e, pid));
  }

  lemma SameInv(e: State, n: State, orig: Memory)
    requires Inv(e, orig) && n == e.(active := n.active)
    ensures Inv(n, orig)
  {
    forall s | s in n.os.spaces ensures BytesOk(n, orig, n.os.spaces[s]) {
      assert BytesOk(e, orig, e.os.spaces[s]);
    }
  }

  // ----- the process that goes -----

  /** Whichever process was active, a turn is that of the process that stopped. */
  lemma TurnIsItsOwn(e: State, os: Tracees, pid: nat)
    requires Attached(e, e.active) && e.pending == [] && pid in os.rip && os == e.os.(rip := e.os.rip[pid := os.rip[pid]])
    requires Attached(e, pid) && |MemOf(e, pid)| % 8 == 0 && 0 <= ReportedPc(os.rip[pid]) < |MemOf(e, pid)|
    ensures Continued(e, os, Stopped(pid, SIGTRAP, false)) == Continued(e.(active := pid), os, Stopped(pid, SIGTRAP, false))
  {
    assert Armed(Mem(e), []) == Mem(e) && SetupAll(e) == e;
    var n := e.(active := pid);
    assert Armed(Mem(n), []) == Mem(n) && SetupAll(n) == n;
  }

  ghost predicate SameStep<D>(f: Family<D>, g: Family<D>, pid: nat, n: Traced<D>)
    requires pid in f.procs
  {
    && g.procs == f.procs[pid := f.procs[pid].(data := n.data, log := n.log)]
    && n.e == g.e.(active := pid) && (g.e.active == pid || g.e.active == f.e.active)
  }

  lemma TrapIsShared<D>(f: Family<D>, pid: nat)
    requires CanGo(f, pid, []) && f.e.pending == []
    ensures var pc := PcOf(f, pid); var os := f.e.os.(rip := f.e.os.rip[pid := pc + 1]);
            && Trapped(Alone(f, pid)) == Traced(f.procs[pid].data, Continued(f.e, os, Stopped(pid, SIGTRAP, false)),
                                                f.procs[pid].log + [Report(ReportedPc(pc + 1))])
            && Trapped(Alone(f, pid)).e.active == pid
  {
    var pc := PcOf(f, pid);
    var os := f.e.os.(rip := f.e.os.rip[pid := pc + 1]);
    TurnIsItsOwn(f.e, os, pid);
    assert AtPc(f.e.(active := pid), pc + 1).os == os;
  }

  lemma GoIsNext<D>(isa: Isa<D>, f: Family<D>, pid: nat, news: seq<nat>)
    requires CanGo(f, pid, news) && f.e.pending == []
    ensures SameStep(f, Gone(isa, f, pid, news), pid, Transparency.Next(isa, Alone(f, pid), news))
  {
    if MemOf(f.e, pid)[PcOf(f, pid)] == INT3 {
      TrapIsShared(f, pid);
    }
  }

  /** A step of one process leaves the memory and the registers of all others alone, and forgets no saved word. */
  ghost predicate Touched(e: State, n: State, pid: nat)
    requires Attached(e, pid)
  {
    && n.os.spaceOf == e.os.spaceOf && n.os.spaces.Keys == e.os.spaces.Keys && n.os.rip.Keys == e.os.rip.Keys
    && (forall s :: s in e.os.spaces && s != e.os.spaceOf[pid] ==> n.os.spaces[s] == e.os.spaces[s])
    && (forall q :: q in e.os.rip && q != pid ==> n.os.rip[q] == e.os.rip[q])
    && e.saved.Keys <= n.saved.Keys
  }

  lemma NextTouches<D>(isa: Isa<D>, t: Traced<D>, news: seq<nat>)
    requires Runnable(t) && t.e.pending == []
    ensures Touched(t.e, Transparency.Next(isa, t, news).e, t.e.active)
  {
    if 0 <= Pc(t) < |Mem(t.e)| && (forall a :: a in news ==> a < |Mem(t.e)|) && Mem(t.e)[Pc(t)] == INT3 {
      TrapTouches(t);
      RearmTouches(Trapped(t), news);
    }
  }

  lemma TrapTouches<D>(t: Traced<D>)
    requires Runnable(t) && t.e.pending == [] && 0 <= Pc(t) < |Mem(t.e)|
    ensures Touched(t.e, Trapped(t).e, t.e.active) && Trapped(t).e.active == t.e.active && Runnable(Trapped(t))
  {
    assert Armed(Mem(t.e), []) == Mem(t.e) && SetupAll(t.e) == t.e;
  }

  lemma {:induction false} RegisterTouches<D>(t: Traced<D>, addrs: seq<nat>)
    requires Runnable(t) && forall a :: a in addrs ==> a < |Mem(t.e)|
    ensures t.e.saved.Keys <= RegisteredAll(t, addrs).e.saved.Keys
    decreases |addrs|
  {
    if addrs != [] {
      assert addrs[0] in addrs && forall b :: b in addrs[1..] ==> b in addrs;
      RegisterTouches(Registered(t, addrs[0]), addrs[1..]);
    }
  }

  lemma RearmTouches<D>(t: Traced<D>, news: seq<nat>)
    requires Runnable(t) && forall a :: a in news ==> a < |Mem(t.e)|
    ensures Touched(t.e, Rearmed(t, news).e, t.e.active)
  {
    RegisterTouches(t, news);
  }

  // ----- the others -----

  /** Another process's memory is as it was: what was registered meanwhile is not armed in it. */
  lemma StillOk(orig: Memory, starts: set<nat>, e: State, n: State, log: seq<Entry>)
    requires EngineOk(orig, starts, e, Unarmed(e, log)) && e.pending == [] && n.pending == []
    requires ReportedIn(log) <= ArmedIn(log) <= e.saved.Keys <= n.saved.Keys <= starts
    requires Inv(n, orig) && Attached(n, n.active) && Mem(n) == Mem(e)
    ensures EngineOk(orig, starts, n, Unarmed(n, log))
  {
    assert BytesOk(e, orig, Mem(e));
    forall a: nat | a in n.saved ensures a < |Mem(n)| && Mem(n)[a] == if a in Unarmed(n, log) then orig[a] else INT3 {
      if a in e.saved.Keys {
        assert a in Unarmed(n, log) <==> a in Unarmed(e, log);
      } else {
        assert a in n.saved.Keys && a !in ArmedIn(log);
      }
    }
  }

  lemma StillSound<D>(isa: Isa<D>, orig: Memory, starts: set<nat>, c: Cpu<D>, t: Traced<D>, n: State)
    requires Sound(isa, orig, starts, c, t) && t.e.pending == [] && n.pending == [] && n.active == t.e.active
    requires Inv(n, orig) && Attached(n, n.active) && Mem(n) == Mem(t.e) && n.os.rip[n.active] == Pc(t)
    requires t.e.saved.Keys <= n.saved.Keys <= starts
    ensures Sound(isa, orig, starts, c, t.(e := n))
  {
    StillOk(orig, starts, t.e, n, t.log);
  }

  /** What a step of one process leaves behind. */
  ghost predicate WentOn<D(!new)>(isa: Isa<D>, orig: Memory, starts: set<nat>, f: Family<D>, g: Family<D>, pid: nat) {
    && pid in f.procs && Attached(f.e, pid) && Touched(f.e, g.e, pid) && (g.e.active == pid || g.e.active == f.e.active)
    && Inv(g.e, orig) && g.e.pending == [] && g.e.saved.Keys <= starts
    && g.procs.Keys == f.procs.Keys && (forall q :: q in f.procs && q != pid ==> g.procs[q] == f.procs[q])
    && ProcOk(isa, orig, starts, g, pid)
  }

  lemma GoIsPossible<D(!new)>(isa: Isa<D>, orig: Memory, starts: set<nat>, f: Family<D>, pid: nat, news: seq<nat>)
    requires WellFormed(isa, orig, starts) && FamilyOk(isa, orig, starts, f) && pid in f.procs
    requires forall a :: a in news ==> a in starts
    ensures CanGo(f, pid, news)
  {
    Standing(isa, orig, starts, f, pid);
    Standing(isa, orig, starts, f, f.e.active);
  }

  lemma GoWentOn<D(!new)>(isa: Isa<D>, orig: Memory, starts: set<nat>, f: Family<D>, pid: nat, news: seq<nat>)
    requires WellFormed(isa, orig, starts) && CanGo(f, pid, news) && ProcOk(isa, orig, starts, f, pid) && f.e.pending == []
    requires forall a :: a in news ==> a in starts
    ensures var g := Gone(isa, f, pid, news);
            WentOn(isa, orig, starts, f, g, pid) && NonArms(g.procs[pid].log) == NonArms(f.procs[pid].log) + 1
  {
    var t := Alone(f, pid);
    StepSound(isa, orig, starts, f.procs[pid].root, t, news);
    GoIsNext(isa, f, pid, news);
    NextTouches(isa, t, news);
    PutBack(isa, orig, starts, f, Gone(isa, f, pid, news), pid, Transparency.Next(isa, t, news));
  }

  lemma PutBack<D(!new)>(isa: Isa<D>, orig: Memory, starts: set<nat>, f: Family<D>, g: Family<D>, pid: nat, n: Traced<D>)
    requires pid in f.procs && Attached(f.e, pid) && SameStep(f, g, pid, n) && Touched(f.e.(active := pid), n.e, pid)
    requires Sound(isa, orig, starts, f.procs[pid].root, n) && n.e.pending == []
    ensures WentOn(isa, orig, starts, f, g, pid)
  {
    assert Alone(g, pid) == n;
    SameInv(n.e, g.e, orig);
  }

  lemma OthersKeep<D(!new)>(isa: Isa<D>, orig: Memory, starts: set<nat>, f: Family<D>, g: Family<D>, pid: nat, q: nat)
    requires WentOn(isa, orig, starts, f, g, pid) && Apart(f.e) && f.e.pending == []
    requires q in f.procs && q != pid && ProcOk(isa, orig, starts, f, q)
    ensures ProcOk(isa, orig, starts, g, q)
  {
    var n := g.e.(active := q);
    SameInv(g.e, n, orig);
    StillSound(isa, orig, starts, f.procs[q].root, Alone(f, q), n);
  }

  lemma GoKeeps<D(!new)>(isa: Isa<D>, orig: Memory, starts: set<nat>, f: Family<D>, g: Family<D>, pid: nat)
    requires FamilyOk(isa, orig, starts, f) && WentOn(isa, orig, starts, f, g, pid)
    ensures FamilyOk(isa, orig, starts, g)
  {
    forall q | q in g.procs ensures ProcOk(isa, orig, starts, g, q) {
      assert q in f.procs;
      if q != pid {
        OthersKeep(isa, orig, starts, f, g, pid, q);
      }
    }
  }

  // ----- the fork -----

  lemma {:induction false} InheritedLog(log: seq<Entry>, gone: set<int>)
    ensures var l := Inherited(log, gone);
            ArmedIn(l) == ArmedIn(log) - gone && ReportedIn(l) == {} && Execs(l) == 0 && NonArms(l) == 0
  {
    if log != [] {
      var before, last := log[..|log| - 1], log[|log| - 1];
      InheritedLog(before, gone);
      var l := Inherited(before, gone);
      assert (l + [last])[..|l|] == l;
    }
  }

  lemma {:induction false} InheritedFaithful<D>(isa: Isa<D>, orig: Memory, c: Cpu<D>, child: Cpu<D>, log: seq<Entry>, gone: set<int>)
    requires Faithful(isa, orig, c, log)
    ensures Faithful(isa, orig, child, Inherited(log, gone))
  {
    if log != [] {
      var before, last := log[..|log| - 1], log[|log| - 1];
      InheritedFaithful(isa, orig, c, child, before, gone);
      InheritedLog(before, gone);
      if last.Arm? && last.at !in gone {
        Logged(isa, orig, child, Inherited(before, gone), last);
      }
    }
  }

  /** No instruction starts at the last byte of the one that forked, so the child's first stop is no breakpoint. */
  lemma FirstStop<D(!new)>(isa: Isa<D>, orig: Memory, starts: set<nat>, pc: int)
    requires WellFormed(isa, orig, starts) && BehindALongOne(isa, orig, starts, pc)
    ensures 0 < pc <= |orig| && forall a: nat :: a in starts ==> a != pc - 1
  {
    var q :| q in starts && isa.len(orig, q) > 1 && pc == q + isa.len(orig, q);
    forall a: nat | a in starts ensures a != pc - 1 {
      assert !(q < a < q + isa.len(orig, q));
    }
  }

  lemma ForkedEngine<D>(f: Family<D>, parent: nat, child: nat, space: nat, data: D)
    requires CanFork(f, parent, child, space)
    requires f.e.pending == [] && forall a: nat :: a in f.e.saved ==> a != PcOf(f, parent) - 1
    ensures Forked(f, parent, child, space, data).e == Fork(f.e, parent, child, space).(active := child)
  {
    var e := Fork(f.e, parent, child, space);
    assert Armed(Mem(e), []) == Mem(e) && SetupAll(e) == e;
    assert e.os.rip[child] == PcOf(f, parent);
  }

  /** What a fork leaves behind. */
  ghost predicate IsForked<D(!new)>(orig: Memory, f: Family<D>, g: Family<D>, parent: nat, child: nat, space: nat) {
    && parent in f.procs && Attached(f.e, parent) && child !in f.procs
    && space !in f.e.os.spaces && child !in f.e.os.spaceOf
    && g.e == Fork(f.e, parent, child, space).(active := child) && Inv(g.e, orig)
    && g.procs.Keys == f.procs.Keys + {child} && (forall q :: q in f.procs ==> g.procs[q] == f.procs[q])
    && g.procs[child].root == Cpu(PcOf(f, parent), g.procs[child].data)
    && g.procs[child].log == Inherited(f.procs[parent].log, ReportedIn(f.procs[parent].log))
  }

  lemma ParentsAndOthers<D(!new)>(isa: Isa<D>, orig: Memory, starts: set<nat>, f: Family<D>, g: Family<D>,
                                  parent: nat, child: nat, space: nat, q: nat)
    requires IsForked(orig, f, g, parent, child, space) && f.e.pending == []
    requires q in f.procs && ProcOk(isa, orig, starts, f, q)
    ensures ProcOk(isa, orig, starts, g, q)
  {
    var n := g.e.(active := q);
    SameInv(g.e, n, orig);
    StillSound(isa, orig, starts, f.procs[q].root, Alone(f, q), n);
  }

  lemma ChildIsUnarmed(e: State, n: State, log: seq<Entry>)
    requires n.saved == e.saved && ReportedIn(log) <= ArmedIn(log) <= e.saved.Keys
    ensures Unarmed(n, Inherited(log, ReportedIn(log))) == Unarmed(e, log)
  {
    InheritedLog(log, ReportedIn(log));
    assert forall a: int :: a in ArmedIn(log) ==> a in e.saved.Keys;
  }

  lemma ChildEngine(orig: Memory, starts: set<nat>, e: State, n: State, log: seq<Entry>)
    requires EngineOk(orig, starts, e, Unarmed(e, log)) && n.saved == e.saved && n.pending == e.pending == []
    requires ReportedIn(log) <= ArmedIn(log) <= e.saved.Keys
    requires Inv(n, orig) && Attached(n, n.active) && Mem(n) == Mem(e)
    ensures EngineOk(orig, starts, n, Unarmed(n, Inherited(log, ReportedIn(log))))
  {
    ChildIsUnarmed(e, n, log);
  }

  lemma ChildIsSound<D(!new)>(isa: Isa<D>, orig: Memory, starts: set<nat>, f: Family<D>, g: Family<D>,
                              parent: nat, child: nat, space: nat)
    requires IsForked(orig, f, g, parent, child, space) && ProcOk(isa, orig, starts, f, parent) && f.e.pending == []
    ensures ProcOk(isa, orig, starts, g, child)
  {
    var n, log := g.e.(active := child), f.procs[parent].log;
    SameInv(g.e, n, orig);
    InheritedLog(log, ReportedIn(log));
    InheritedFaithful(isa, orig, f.procs[parent].root, g.procs[child].root, log, ReportedIn(log));
    ChildEngine(orig, starts, f.e.(active := parent), n, log);
  }

  lemma CanForkNow<D(!new)>(isa: Isa<D>, orig: Memory, starts: set<nat>, f: Family<D>, parent: nat, child: nat, space: nat)
    requires WellFormed(isa, orig, starts) && Stands(orig, starts, f, parent) && Attached(f.e, f.e.active)
    requires child !in f.e.os.spaceOf && space !in f.e.os.spaces && BehindALongOne(isa, orig, starts, PcOf(f, parent))
    ensures CanFork(f, parent, child, space)
    ensures forall a: nat :: a in f.e.saved ==> a != PcOf(f, parent) - 1
  {
    FirstStop(isa, orig, starts, PcOf(f, parent));
    assert forall a: nat :: a in f.e.saved ==> a in f.e.saved.Keys;
  }

  lemma ForkIsForked<D(!new)>(orig: Memory, f: Family<D>, parent: nat, child: nat, space: nat, data: D)
    requires CanFork(f, parent, child, space) && Inv(f.e, orig) && f.e.pending == [] && child !in f.procs
    requires forall a: nat :: a in f.e.saved ==> a != PcOf(f, parent) - 1
    ensures IsForked(orig, f, Forked(f, parent, child, space, data), parent, child, space)
  {
    ForkedEngine(f, parent, child, space, data);
    NextKeepsInv(f.e, orig, DoFork(parent, child, space));
    SameInv(Fork(f.e, parent, child, space), Forked(f, parent, child, space, data).e, orig);
  }

  lemma ForkStaysApart<D(!new)>(orig: Memory, f: Family<D>, g: Family<D>, parent: nat, child: nat, space: nat)
    requires IsForked(orig, f, g, parent, child, space) && Apart(f.e) && Inv(f.e, orig) && f.e.os.spaceOf.Keys == f.procs.Keys
    ensures Apart(g.e) && g.e.os.spaceOf.Keys == g.procs.Keys
  {
  }

  lemma ForkKeeps<D(!new)>(isa: Isa<D>, orig: Memory, starts: set<nat>, f: Family<D>, g: Family<D>, parent: nat, child: nat, space: nat)
    requires FamilyOk(isa, orig, starts, f) && IsForked(orig, f, g, parent, child, space) && Inv(f.e, orig)
    ensures FamilyOk(isa, orig, starts, g)
  {
    ForkStaysApart(orig, f, g, parent, child, space);
    forall q | q in g.procs ensures ProcOk(isa, orig, starts, g, q) {
      ForkedProc(isa, orig, starts, f, g, parent, child, space, q);
    }
  }

  lemma ForkedProc<D(!new)>(isa: Isa<D>, orig: Memory, starts: set<nat>, f: Family<D>, g: Family<D>,
                            parent: nat, child: nat, space: nat, q: nat)
    requires IsForked(orig, f, g, parent, child, space) && q in g.procs && f.e.pending == []
    requires forall pid :: pid in f.procs ==> ProcOk(isa, orig, starts, f, pid)
    ensures ProcOk(isa, orig, starts, g, q)
  {
    if q == child {
      ChildIsSound(isa, orig, starts, f, g, parent, child, space);
    } else {
      assert q in f.procs.Keys;
      ParentsAndOthers(isa, orig, starts, f, g, parent, child, space, q);
    }
  }

  // ----- every run -----

  ghost function After<D(!new)>(isa: Isa<D>, f: Family<D>, move: Move<D>): Family<D> {
    match move
    case Go(pid, news) => if CanGo(f, pid, news) then Gone(isa, f, pid, news) else f
    case Forks(parent, child, space, data) =>
      if CanFork(f, parent, child, space) then Forked(f, parent, child, space, data) else f
  }

  ghost function Ran<D(!new)>(isa: Isa<D>, f: Family<D>, moves: seq<Move<D>>): Family<D> {
    if moves == [] then f else After(isa, Ran(isa, f, moves[..|moves| - 1]), moves[|moves| - 1])
  }

  ghost predicate AllPossible<D(!new)>(isa: Isa<D>, orig: Memory, starts: set<nat>, f: Family<D>, moves: seq<Move<D>>) {
    moves != [] ==>
      && AllPossible(isa, orig, starts, f, moves[..|moves| - 1])
      && Possible(isa, orig, starts, Ran(isa, f, moves[..|moves| - 1]), moves[|moves| - 1])
  }

  /** One process with its lines registered. */
  ghost function First<D>(orig: Memory, pid: nat, c: Cpu<D>, addrs: seq<nat>): Family<D>
    requires |orig| % 8 == 0 && forall a :: a in addrs ==> a < |orig|
  {
    var t := Start(orig, pid, c, addrs);
    Family(t.e, map[pid := Proc(c.data, c, t.log)])
  }

  lemma FirstOk<D(!new)>(isa: Isa<D>, orig: Memory, starts: set<nat>, pid: nat, c: Cpu<D>, addrs: seq<nat>)
    requires WellFormed(isa, orig, starts) && c.pc in starts && forall a :: a in addrs ==> a in starts && a < |orig|
    ensures var f := First(orig, pid, c, addrs);
            FamilyOk(isa, orig, starts, f) && forall p :: p in f.procs ==> NonArms(f.procs[p].log) == 0
  {
    StartSound(isa, orig, starts, pid, c, addrs);
    var f := First(orig, pid, c, addrs);
    assert Alone(f, pid) == Start(orig, pid, c, addrs);
  }

  lemma MoveKeeps<D(!new)>(isa: Isa<D>, orig: Memory, starts: set<nat>, f: Family<D>, move: Move<D>)
    requires WellFormed(isa, orig, starts) && FamilyOk(isa, orig, starts, f) && Possible(isa, orig, starts, f, move)
    ensures FamilyOk(isa, orig, starts, After(isa, f, move))
  {
    match move
    case Go(pid, news) =>
      GoIsPossible(isa, orig, starts, f, pid, news);
      GoWentOn(isa, orig, starts, f, pid, news);
      GoKeeps(isa, orig, starts, f, Gone(isa, f, pid, news), pid);
    case Forks(parent, child, space, data) =>
      Standing(isa, orig, starts, f, parent);
      Standing(isa, orig, starts, f, f.e.active);
      CanForkNow(isa, orig, starts, f, parent, child, space);
      ForkIsForked(orig, f, parent, child, space, data);
      ForkKeeps(isa, orig, starts, f, Forked(f, parent, child, space, data), parent, child, space);
  }

  lemma {:induction false} RanOk<D(!new)>(isa: Isa<D>, orig: Memory, starts: set<nat>, f: Family<D>, moves: seq<Move<D>>)
    requires WellFormed(isa, orig, starts) && FamilyOk(isa, orig, starts, f) && AllPossible(isa, orig, starts, f, moves)
    ensures FamilyOk(isa, orig, starts, Ran(isa, f, moves))
  {
    if moves != [] {
      RanOk(isa, orig, starts, f, moves[..|moves| - 1]);
      MoveKeeps(isa, orig, starts, Ran(isa, f, moves[..|moves| - 1]), moves[|moves| - 1]);
    }
  }

  lemma {:induction false} RegisteringLogs<D>(t: Traced<D>, addrs: seq<nat>)
    requires Runnable(t) && forall a :: a in addrs ==> a < |Mem(t.e)|
    ensures t.log <= RegisteredAll(t, addrs).log
    decreases |addrs|
  {
    if addrs != [] {
      assert addrs[0] in addrs && forall b :: b in addrs[1..] ==> b in addrs;
      RegisteringLogs(Registered(t, addrs[0]), addrs[1..]);
    }
  }

  lemma NextLogs<D>(isa: Isa<D>, t: Traced<D>, news: seq<nat>)
    requires Runnable(t) && 0 <= Pc(t) < |Mem(t.e)| && forall a :: a in news ==> a < |Mem(t.e)|
    ensures t.log <= Transparency.Next(isa, t, news).log
  {
    if Mem(t.e)[Pc(t)] == INT3 {
      RegisteringLogs(Trapped(t), news);
    }
  }

  /** What one move does to the processes. */
  ghost predicate MovedBy<D(!new)>(f: Family<D>, g: Family<D>, move: Move<D>) {
    match move
    case Go(pid, _) =>
      && pid in f.procs && g.procs.Keys == f.procs.Keys && (forall q :: q in f.procs && q != pid ==> g.procs[q] == f.procs[q])
      && g.procs[pid].root == f.procs[pid].root && f.procs[pid].log <= g.procs[pid].log
      && NonArms(g.procs[pid].log) == NonArms(f.procs[pid].log) + 1
    case Forks(parent, child, _, data) =>
      && parent in f.procs && Attached(f.e, parent) && child !in f.procs
      && g.procs.Keys == f.procs.Keys + {child} && (forall q :: q in f.procs ==> g.procs[q] == f.procs[q])
      && g.procs[child].root == Cpu(PcOf(f, parent), data)
      && g.procs[child].log == Inherited(f.procs[parent].log, ReportedIn(f.procs[parent].log))
  }

  lemma GoMoves<D(!new)>(isa: Isa<D>, f: Family<D>, pid: nat, news: seq<nat>)
    requires CanGo(f, pid, news) && f.e.pending == []
    requires NonArms(Gone(isa, f, pid, news).procs[pid].log) == NonArms(f.procs[pid].log) + 1
    ensures MovedBy(f, Gone(isa, f, pid, news), Go(pid, news))
  {
    GoIsNext(isa, f, pid, news);
    NextLogs(isa, Alone(f, pid), news);
  }

  lemma ForkMoves<D(!new)>(f: Family<D>, parent: nat, child: nat, space: nat, data: D)
    requires CanFork(f, parent, child, space) && child !in f.procs
    ensures MovedBy(f, Forked(f, parent, child, space, data), Forks(parent, child, space, data))
  {
  }

  lemma GoIs<D(!new)>(isa: Isa<D>, orig: Memory, starts: set<nat>, f: Family<D>, pid: nat, news: seq<nat>)
    requires WellFormed(isa, orig, starts) && CanGo(f, pid, news) && ProcOk(isa, orig, starts, f, pid) && f.e.pending == []
    requires forall a :: a in news ==> a in starts
    ensures MovedBy(f, Gone(isa, f, pid, news), Go(pid, news))
  {
    GoWentOn(isa, orig, starts, f, pid, news);
    GoMoves(isa, f, pid, news);
  }

  lemma MoveIs<D(!new)>(isa: Isa<D>, orig: Memory, starts: set<nat>, f: Family<D>, move: Move<D>)
    requires WellFormed(isa, orig, starts) && FamilyOk(isa, orig, starts, f) && Possible(isa, orig, starts, f, move)
    ensures MovedBy(f, After(isa, f, move), move)
  {
    if move.Go? {
      GoIsPossible(isa, orig, starts, f, move.pid, move.news);
      GoIs(isa, orig, starts, f, move.pid, move.news);
    } else {
      Standing(isa, orig, starts, f, move.parent);
      Standing(isa, orig, starts, f, f.e.active);
      CanForkNow(isa, orig, starts, f, move.parent, move.child, move.space);
      ForkMoves(f, move.parent, move.child, move.space, move.data);
    }
  }

  ghost predicate AllMoved<D(!new)>(isa: Isa<D>, f: Family<D>, moves: seq<Move<D>>) {
    moves != [] ==>
      && AllMoved(isa, f, moves[..|moves| - 1])
      && MovedBy(Ran(isa, f, moves[..|moves| - 1]), Ran(isa, f, moves), moves[|moves| - 1])
  }

  lemma {:induction false} PossibleMoves<D(!new)>(isa: Isa<D>, orig: Memory, starts: set<nat>, f: Family<D>, moves: seq<Move<D>>)
    requires WellFormed(isa, orig, starts) && FamilyOk(isa, orig, starts, f) && AllPossible(isa, orig, starts, f, moves)
    ensures AllMoved(isa, f, moves)
  {
    if moves != [] {
      var before := moves[..|moves| - 1];
      PossibleMoves(isa, orig, starts, f, before);
      RanOk(isa, orig, starts, f, before);
      MoveIs(isa, orig, starts, Ran(isa, f, before), moves[|moves| - 1]);
    }
  }

  // ----- what a child takes over, and keeps -----

  ghost predicate Grown<D>(f: Family<D>, g: Family<D>, q: nat) {
    q in f.procs ==> q in g.procs && g.procs[q].root == f.procs[q].root && f.procs[q].log <= g.procs[q].log
  }

  lemma OneMoveGrows<D(!new)>(f: Family<D>, g: Family<D>, move: Move<D>, q: nat)
    requires MovedBy(f, g, move)
    ensures Grown(f, g, q)
  {
  }

  lemma {:induction false} RunGrows<D(!new)>(isa: Isa<D>, f: Family<D>, before: seq<Move<D>>, after: seq<Move<D>>, q: nat)
    requires AllMoved(isa, f, before + after)
    ensures AllMoved(isa, f, before) && Grown(Ran(isa, f, before), Ran(isa, f, before + after), q)
  {
    if after == [] {
      assert before + after == before;
    } else {
      var rest, move := after[..|after| - 1], after[|after| - 1];
      assert (before + after)[..|before + after| - 1] == before + rest;
      RunGrows(isa, f, before, rest, q);
      OneMoveGrows(Ran(isa, f, before + rest), Ran(isa, f, before + after), move, q);
    }
  }

  /** A forked child starts where its parent stood, with the data the kernel gave it, and its log with the addresses
      armed in the parent's memory and not reported there: those, and none that the parent has reported. */
  lemma ChildTakesOver<D(!new)>(isa: Isa<D>, orig: Memory, starts: set<nat>, f: Family<D>, before: seq<Move<D>>,
                                parent: nat, child: nat, space: nat, data: D, after: seq<Move<D>>)
    requires WellFormed(isa, orig, starts) && FamilyOk(isa, orig, starts, f)
    requires AllPossible(isa, orig, starts, f, before + [Forks(parent, child, space, data)] + after)
    ensures var s, t := Ran(isa, f, before), Ran(isa, f, before + [Forks(parent, child, space, data)] + after);
            && parent in s.procs && Attached(s.e, parent) && child !in s.procs && child in t.procs
            && t.procs[child].root == Cpu(PcOf(s, parent), data)
            && exists start :: start <= t.procs[child].log && ReportedIn(start) == {} && Execs(start) == 0
                 && ArmedIn(start) == ArmedIn(s.procs[parent].log) - ReportedIn(s.procs[parent].log)
  {
    var fork := Forks(parent, child, space, data);
    PossibleMoves(isa, orig, starts, f, before + [fork] + after);
    RunGrows(isa, f, before + [fork], after, child);
    assert (before + [fork])[..|before|] == before;
    ChildStarts(Ran(isa, f, before), Ran(isa, f, before + [fork]), parent, child, space, data);
  }

  lemma ChildStarts<D(!new)>(s: Family<D>, t: Family<D>, parent: nat, child: nat, space: nat, data: D)
    requires MovedBy(s, t, Forks(parent, child, space, data))
    ensures parent in s.procs && Attached(s.e, parent) && child !in s.procs && child in t.procs
    ensures t.procs[child].root == Cpu(PcOf(s, parent), data)
    ensures var start := t.procs[child].log;
            && ReportedIn(start) == {} && Execs(start) == 0
            && ArmedIn(start) == ArmedIn(s.procs[parent].log) - ReportedIn(s.procs[parent].log)
  {
    InheritedLog(s.procs[parent].log, ReportedIn(s.procs[parent].log));
  }

  // ----- how many steps each process took -----

  function Turns<D>(moves: seq<Move<D>>, q: nat): nat {
    if moves == [] then 0
    else Turns(moves[..|moves| - 1], q) + if moves[|moves| - 1].Go? && moves[|moves| - 1].pid == q then 1 else 0
  }

  ghost predicate TurnsAre<D>(f: Family<D>, moves: seq<Move<D>>, q: nat) {
    Turns(moves, q) == if q in f.procs then NonArms(f.procs[q].log) else 0
  }

  lemma OneMoveCounts<D(!new)>(f: Family<D>, g: Family<D>, moves: seq<Move<D>>, move: Move<D>, q: nat)
    requires MovedBy(f, g, move) && TurnsAre(f, moves, q)
    ensures TurnsAre(g, moves + [move], q)
  {
    assert (moves + [move])[..|moves|] == moves;
    if move.Forks? {
      InheritedLog(f.procs[move.parent].log, ReportedIn(f.procs[move.parent].log));
    }
  }

  ghost predicate Trace<D(!new)>(fs: seq<Family<D>>, moves: seq<Move<D>>) {
    |fs| == |moves| + 1 && forall i :: 0 <= i < |moves| ==> MovedBy(fs[i], fs[i + 1], moves[i])
  }

  lemma {:induction false} TurnsAlong<D(!new)>(fs: seq<Family<D>>, moves: seq<Move<D>>, q: nat)
    requires Trace(fs, moves) && TurnsAre(fs[0], [], q)
    ensures TurnsAre(fs[|moves|], moves, q)
  {
    if moves != [] {
      var n := |moves| - 1;
      var before := moves[..n];
      assert Trace(fs[..|moves|], before);
      TurnsAlong(fs[..|moves|], before, q);
      assert moves == before + [moves[n]];
      OneMoveCounts(fs[n], fs[n + 1], before, moves[n], q);
    }
  }

  lemma {:induction false} MovedAt<D(!new)>(isa: Isa<D>, f: Family<D>, moves: seq<Move<D>>, i: nat)
    requires AllMoved(isa, f, moves) && i < |moves|
    ensures MovedBy(Ran(isa, f, moves[..i]), Ran(isa, f, moves[..i + 1]), moves[i])
  {
    if i < |moves| - 1 {
      var before := moves[..|moves| - 1];
      MovedAt(isa, f, before, i);
      assert before[..i] == moves[..i] && before[..i + 1] == moves[..i + 1];
    } else {
      assert moves[..i + 1] == moves;
    }
  }

  lemma TurnsCount<D(!new)>(isa: Isa<D>, f: Family<D>, moves: seq<Move<D>>, q: nat)
    requires AllMoved(isa, f, moves) && TurnsAre(f, [], q)
    ensures TurnsAre(Ran(isa, f, moves), moves, q)
  {
    var fs := seq(|moves| + 1, i requires 0 <= i <= |moves| => Ran(isa, f, moves[..i]));
    forall i | 0 <= i < |moves| ensures MovedBy(fs[i], fs[i + 1], moves[i]) {
      MovedAt(isa, f, moves, i);
    }
    assert moves[..0] == [] && moves[..|moves|] == moves;
    TurnsAlong(fs, moves, q);
  }

  // ----- what the traced program and its children can see -----

  /** What is armed in a memory is what was armed there and not yet reported. */
  lemma ArmedAre<D(!new)>(isa: Isa<D>, orig: Memory, starts: set<nat>, f: Family<D>, q: nat, a: nat)
    requires WellFormed(isa, orig, starts) && q in f.procs && ProcOk(isa, orig, starts, f, q) && f.e.pending == [] && a in f.e.saved
    ensures Attached(f.e, q) && a < |MemOf(f.e, q)|
    ensures MemOf(f.e, q)[a] == INT3 <==> a in ArmedIn(f.procs[q].log) && a !in ReportedIn(f.procs[q].log)
  {
    var e := f.e.(active := q);
    assert a in e.saved.Keys && a in starts && orig[a] != INT3;
    assert a in Unarmed(e, f.procs[q].log) <==> a !in ArmedIn(f.procs[q].log) || a in ReportedIn(f.procs[q].log);
  }

  /** f comes from s by possible moves, n of which were steps of process q. */
  ghost predicate Comes<D(!new)>(isa: Isa<D>, orig: Memory, starts: set<nat>, s: Family<D>, f: Family<D>, q: nat, n: nat) {
    exists moves :: AllPossible(isa, orig, starts, s, moves) && f == Ran(isa, s, moves) && n == Turns(moves, q)
  }

  /** In every run, each process is exactly where the untraced one is that starts as it did at its fork. All its steps
      that are no instructions are reports; each address armed in its memory is reported at most once there, before it
      executes there; and armed in it is just what was armed there and not yet reported. */
  lemma FamiliesAreTransparent<D(!new)>(isa: Isa<D>, orig: Memory, starts: set<nat>, pid: nat, c: Cpu<D>, addrs: seq<nat>,
                                        f: Family<D>, q: nat, n: nat)
    requires WellFormed(isa, orig, starts) && c.pc in starts && forall a :: a in addrs ==> a in starts && a < |orig|
    requires Comes(isa, orig, starts, First(orig, pid, c, addrs), f, q, n) && q in f.procs
    ensures Attached(f.e, q)
    ensures var proc := f.procs[q];
            && Cpu(PcOf(f, q), proc.data) == Untraced(isa, orig, proc.root, Execs(proc.log))
            && n == Execs(proc.log) + |ReportedIn(proc.log)|
            && Faithful(isa, orig, proc.root, proc.log) && ReportedIn(proc.log) <= ArmedIn(proc.log)
    ensures forall a: nat :: a in f.e.saved ==>
              a < |MemOf(f.e, q)|
              && (MemOf(f.e, q)[a] == INT3 <==> a in ArmedIn(f.procs[q].log) && a !in ReportedIn(f.procs[q].log))
  {
    var s := First(orig, pid, c, addrs);
    var moves :| AllPossible(isa, orig, starts, s, moves) && f == Ran(isa, s, moves) && n == Turns(moves, q);
    FirstOk(isa, orig, starts, pid, c, addrs);
    RanOk(isa, orig, starts, s, moves);
    PossibleMoves(isa, orig, starts, s, moves);
    TurnsCount(isa, s, moves, q);
    EachIsTransparent(isa, orig, starts, f, q);
  }

  lemma EachIsTransparent<D(!new)>(isa: Isa<D>, orig: Memory, starts: set<nat>, f: Family<D>, q: nat)
    requires WellFormed(isa, orig, starts) && FamilyOk(isa, orig, starts, f) && q in f.procs
    ensures Attached(f.e, q)
    ensures var proc := f.procs[q];
            && Cpu(PcOf(f, q), proc.data) == Untraced(isa, orig, proc.root, Execs(proc.log))
            && NonArms(proc.log) == Execs(proc.log) + |ReportedIn(proc.log)|
            && Faithful(isa, orig, proc.root, proc.log) && ReportedIn(proc.log) <= ArmedIn(proc.log)
    ensures forall a: nat :: a in f.e.saved ==>
              a < |MemOf(f.e, q)|
              && (MemOf(f.e, q)[a] == INT3 <==> a in ArmedIn(f.procs[q].log) && a !in ReportedIn(f.procs[q].log))
  {
    assert ProcOk(isa, orig, starts, f, q);
    ReportsAreDistinct(isa, orig, f.procs[q].root, f.procs[q].log);
    forall a: nat | a in f.e.saved
      ensures a < |MemOf(f.e, q)|
      ensures MemOf(f.e, q)[a] == INT3 <==> a in ArmedIn(f.procs[q].log) && a !in ReportedIn(f.procs[q].log)
    {
      ArmedAre(isa, orig, starts, f, q, a);
    }
  }
}
