/** Tracing changes nothing the program can see. */
module Transparency {
  // And it sees everything it should: the traced run of one process is a stuttering copy of the untraced run,
  // and the reports are its first visits.

  import opened PtraceWords
  import opened PtraceEngine

  /** A processor executing code it does not write: program counter and everything else. */
  datatype Cpu<D> = Cpu(pc: int, data: D)

  /** The instruction set: the effect of the instruction at the program counter, and its length. */
  datatype Isa<!D> = Isa(exec: (Memory, Cpu<D>) -> Cpu<D>, len: (Memory, int) -> nat)

  ghost predicate SameInstruction<D>(isa: Isa<D>, orig: Memory, m: Memory, pc: int) {
    && 0 <= pc <= pc + isa.len(orig, pc) <= |orig| == |m|
    && m[pc..pc + isa.len(orig, pc)] == orig[pc..pc + isa.len(orig, pc)]
  }

  /** The program's instructions start at `starts` and nowhere else it can reach; they do not overlap,
      none is an int3 of the program's own, and each depends on its own bytes only. */
  ghost predicate WellFormed<D(!new)>(isa: Isa<D>, orig: Memory, starts: set<nat>) {
    && |orig| % 8 == 0
    && (forall p :: p in starts ==> 0 < isa.len(orig, p) && p + isa.len(orig, p) <= |orig| && orig[p] != INT3)
    && (forall p, q :: p in starts && q in starts ==> !(p < q < p + isa.len(orig, p)))
    && (forall c: Cpu<D> :: c.pc in starts ==> isa.exec(orig, c).pc in starts)
    && (forall m: Memory, c: Cpu<D> :: c.pc in starts && SameInstruction(isa, orig, m, c.pc) ==>
          isa.exec(m, c) == isa.exec(orig, c))
  }

  // ----- the run without kcov -----

  ghost function Untraced<D>(isa: Isa<D>, orig: Memory, c: Cpu<D>, k: nat): Cpu<D> {
    if k == 0 then c else isa.exec(orig, Untraced(isa, orig, c, k - 1))
  }

  // ----- the run under kcov -----

  /** What happened, in order: an address was registered, reported, or the instruction there executed. */
  datatype Entry = Arm(at: int) | Report(at: int) | Exec(at: int)

  /** The process is the active tracee of the engine; its program counter is in the engine's registers. */
  datatype Traced<D> = Traced(data: D, e: State, log: seq<Entry>)

  ghost function Pc<D>(t: Traced<D>): int
    requires Attached(t.e, t.e.active)
  {
    t.e.os.rip[t.e.active]
  }

  ghost function AtPc(e: State, pc: int): State {
    e.(os := e.os.(rip := e.os.rip[e.active := pc]))
  }

  ghost predicate Runnable<D>(t: Traced<D>) {
    Attached(t.e, t.e.active) && |Mem(t.e)| % 8 == 0
  }

  ghost function Registered<D>(t: Traced<D>, addr: nat): (r: Traced<D>)
    requires Runnable(t) && addr < |Mem(t.e)|
    ensures r.e.os == t.e.os && r.e.active == t.e.active && r.data == t.data
  {
    var e := Register(t.e, addr);
    t.(e := e, log := if e == t.e then t.log else t.log + [Arm(addr)])
  }

  /** The line listeners register addresses, one by one. */
  ghost function RegisteredAll<D>(t: Traced<D>, addrs: seq<nat>): (r: Traced<D>)
    requires Runnable(t) && forall a :: a in addrs ==> a < |Mem(t.e)|
    ensures r.e.os == t.e.os && r.e.active == t.e.active && r.data == t.data
    decreases |addrs|
  {
    if addrs == [] then t else
      assert addrs[0] in addrs && forall b :: b in addrs[1..] ==> b in addrs;
      RegisteredAll(Registered(t, addrs[0]), addrs[1..])
  }

  /** What the processor or kcov does next. The int3 at the program counter stops the process one byte
      on; a turn of continueExecution reports it, clears it and goes round again, the line listeners
      having registered `news` in between. Any other instruction just executes. */
  ghost function Next<D>(isa: Isa<D>, t: Traced<D>, news: seq<nat>): Traced<D> {
    if !(Runnable(t) && 0 <= Pc(t) < |Mem(t.e)| && forall a :: a in news ==> a < |Mem(t.e)|) then t
    else if Mem(t.e)[Pc(t)] != INT3 then
      var c := isa.exec(Mem(t.e), Cpu(Pc(t), t.data));
      t.(data := c.data, e := AtPc(t.e, c.pc), log := t.log + [Exec(Pc(t))])
    else
      Rearmed(Trapped(t), news)
  }

  /** The stop at an int3, taken through one turn of continueExecution. */
  ghost function Trapped<D>(t: Traced<D>): (r: Traced<D>)
    requires Runnable(t) && 0 <= Pc(t) < |Mem(t.e)|
    ensures Attached(r.e, r.e.active) && Space(r.e) == Space(t.e) && |Mem(r.e)| == |Mem(t.e)|
  {
    var os := AtPc(t.e, Pc(t) + 1).os;
    var stop := Stopped(t.e.active, SIGTRAP, false);
    t.(e := Continued(t.e, os, stop), log := t.log + [Report(ReportedPc(os.rip[t.e.active]))])
  }

  ghost function Rearmed<D>(t: Traced<D>, news: seq<nat>): Traced<D>
    requires Runnable(t) && forall a :: a in news ==> a < |Mem(t.e)|
  {
    var r := RegisteredAll(t, news);
    r.(e := SetupAll(r.e))
  }

  /** A process just forked and stopped, with the program's lines registered. */
  ghost function Start<D>(orig: Memory, pid: nat, c: Cpu<D>, addrs: seq<nat>): Traced<D>
    requires |orig| % 8 == 0 && forall a :: a in addrs ==> a < |orig|
  {
    var e := State(map[], [], pid, Tracees(map[0 := orig], map[pid := 0], map[pid := c.pc]));
    Rearmed(Traced(c.data, e, []), addrs)
  }

  ghost function Run<D>(isa: Isa<D>, t: Traced<D>, sched: seq<seq<nat>>): Traced<D> {
    if sched == [] then t else Next(isa, Run(isa, t, sched[..|sched| - 1]), sched[|sched| - 1])
  }

  // ----- what the log must look like -----

  function Execs(log: seq<Entry>): nat {
    if log == [] then 0 else Execs(log[..|log| - 1]) + if log[|log| - 1].Exec? then 1 else 0
  }

  /** How many entries are not the arming of an address: one for each step of the run. */
  function NonArms(log: seq<Entry>): nat {
    if log == [] then 0 else NonArms(log[..|log| - 1]) + if log[|log| - 1].Arm? then 0 else 1
  }

  /** The addresses armed, and those reported, in a log. */
  function ArmedIn(log: seq<Entry>): set<int> {
    if log == [] then {} else
      ArmedIn(log[..|log| - 1]) + if log[|log| - 1].Arm? then {log[|log| - 1].at} else {}
  }

  function ReportedIn(log: seq<Entry>): set<int> {
    if log == [] then {} else
      ReportedIn(log[..|log| - 1]) + if log[|log| - 1].Report? then {log[|log| - 1].at} else {}
  }

  /** Both kinds of entry are where the untraced run stands after as many instructions. An armed address
      executes only once reported; a report is of an armed address, for the first time. */
  ghost predicate EntryOk<D>(isa: Isa<D>, orig: Memory, c: Cpu<D>, before: seq<Entry>, entry: Entry) {
    match entry
    case Arm(p) => p !in ArmedIn(before)
    case Report(p) => p == Untraced(isa, orig, c, Execs(before)).pc && p in ArmedIn(before) && p !in ReportedIn(before)
    case Exec(p) => p == Untraced(isa, orig, c, Execs(before)).pc && (p in ArmedIn(before) ==> p in ReportedIn(before))
  }

  ghost predicate Faithful<D>(isa: Isa<D>, orig: Memory, c: Cpu<D>, log: seq<Entry>) {
    log != [] ==>
      && Faithful(isa, orig, c, log[..|log| - 1])
      && EntryOk(isa, orig, c, log[..|log| - 1], log[|log| - 1])
  }

  lemma Logged<D>(isa: Isa<D>, orig: Memory, c: Cpu<D>, log: seq<Entry>, entry: Entry)
    ensures var next := log + [entry];
            && Execs(next) == Execs(log) + (if entry.Exec? then 1 else 0)
            && ArmedIn(next) == ArmedIn(log) + (if entry.Arm? then {entry.at} else {})
            && ReportedIn(next) == ReportedIn(log) + (if entry.Report? then {entry.at} else {})
            && (Faithful(isa, orig, c, log) && EntryOk(isa, orig, c, log, entry) ==> Faithful(isa, orig, c, next))
  {
    assert (log + [entry])[..|log|] == log;
  }

  lemma {:induction false} FaithfulAt<D>(isa: Isa<D>, orig: Memory, c: Cpu<D>, log: seq<Entry>, i: nat)
    requires Faithful(isa, orig, c, log) && i < |log|
    ensures EntryOk(isa, orig, c, log[..i], log[i])
    ensures log[i].Arm? ==> log[i].at in ArmedIn(log)
    ensures ReportedIn(log[..i]) <= ReportedIn(log)
  {
    if i < |log| - 1 {
      FaithfulAt(isa, orig, c, log[..|log| - 1], i);
      assert log[..|log| - 1][..i] == log[..i];
    }
  }

  /** Between the arming of an address and its report, the program has not executed it. */
  lemma {:induction false} ReportIsTheFirstVisit<D>(isa: Isa<D>, orig: Memory, c: Cpu<D>, log: seq<Entry>,
                                                    j: nat, m: nat, i: nat, p: int)
    requires Faithful(isa, orig, c, log) && j < m < i < |log|
    requires log[j] == Arm(p) && log[i] == Report(p)
    ensures log[m] != Exec(p)
  {
    if i < |log| - 1 {
      ReportIsTheFirstVisit(isa, orig, c, log[..|log| - 1], j, m, i, p);
    } else {
      var before := log[..i];
      FaithfulAt(isa, orig, c, before, m);
      FaithfulUpTo(isa, orig, c, before, m);
      FaithfulAt(isa, orig, c, before[..m], j);
    }
  }

  lemma {:induction false} FaithfulUpTo<D>(isa: Isa<D>, orig: Memory, c: Cpu<D>, log: seq<Entry>, i: nat)
    requires Faithful(isa, orig, c, log) && i <= |log|
    ensures Faithful(isa, orig, c, log[..i])
  {
    if i < |log| {
      FaithfulUpTo(isa, orig, c, log[..|log| - 1], i);
      assert log[..|log| - 1][..i] == log[..i];
    } else {
      assert log[..i] == log;
    }
  }

  // ----- the invariant -----

  /** Every registered address was armed in this process, as it is when there is no other. */
  ghost predicate AllArmed<D>(t: Traced<D>) {
    ArmedIn(t.log) == t.e.saved.Keys
  }

  /** What holds of the engine and the active process; `reported` are the registered addresses not armed in it,
      because they were reported or were armed in another process only. */
  ghost predicate EngineOk(orig: Memory, starts: set<nat>, e: State, reported: set<int>) {
    && Inv(e, orig) && Attached(e, e.active)
    && e.saved.Keys <= starts && reported <= e.saved.Keys
    && (forall a :: a in e.pending ==> a !in reported)
    && (forall a: nat :: a in e.saved && a !in e.pending ==>
          a < |Mem(e)| && Mem(e)[a] == if a in reported then orig[a] else INT3)
  }

  /** Registered, but not armed in this process: it was never armed here, or it was and has been reported. */
  ghost function Unarmed(e: State, log: seq<Entry>): set<int> {
    (set a: int | a in e.saved.Keys && a !in ArmedIn(log)) + ReportedIn(log)
  }

  ghost predicate Sound<D>(isa: Isa<D>, orig: Memory, starts: set<nat>, c: Cpu<D>, t: Traced<D>) {
    && EngineOk(orig, starts, t.e, Unarmed(t.e, t.log))
    && ReportedIn(t.log) <= ArmedIn(t.log) <= t.e.saved.Keys
    && Pc(t) in starts
    && Cpu(Pc(t), t.data) == Untraced(isa, orig, c, Execs(t.log))
    && Faithful(isa, orig, c, t.log)
  }

  /** Where an instruction is not trapped, memory holds its own bytes. */
  lemma InstructionIntact<D(!new)>(isa: Isa<D>, orig: Memory, starts: set<nat>, e: State, reported: set<int>, pc: nat)
    requires WellFormed(isa, orig, starts) && EngineOk(orig, starts, e, reported)
    requires pc in starts && |Mem(e)| == |orig| && Mem(e)[pc] != INT3
    ensures SameInstruction(isa, orig, Mem(e), pc)
  {
    var m := Mem(e);
    assert BytesOk(e, orig, m);
    forall i: nat | pc <= i < pc + isa.len(orig, pc) ensures m[i] == orig[i] {
      if i in e.saved && i > pc {
      }
    }
  }

  lemma Moved(orig: Memory, starts: set<nat>, e: State, reported: set<int>, pc: int)
    requires EngineOk(orig, starts, e, reported)
    ensures EngineOk(orig, starts, AtPc(e, pc), reported)
  {
    var n := AtPc(e, pc);
    forall s | s in n.os.spaces ensures BytesOk(n, orig, n.os.spaces[s]) {
      assert BytesOk(e, orig, e.os.spaces[s]);
    }
  }

  lemma NextIsTheInstruction<D(!new)>(isa: Isa<D>, orig: Memory, starts: set<nat>, t: Traced<D>, reported: set<int>, news: seq<nat>)
    requires WellFormed(isa, orig, starts) && EngineOk(orig, starts, t.e, reported) && Pc(t) in starts
    requires |Mem(t.e)| == |orig| && Mem(t.e)[Pc(t)] != INT3 && forall a :: a in news ==> a in starts
    ensures var c := isa.exec(orig, Cpu(Pc(t), t.data));
            && c.pc in starts
            && Next(isa, t, news) == t.(data := c.data, e := AtPc(t.e, c.pc), log := t.log + [Exec(Pc(t))])
  {
    InstructionIntact(isa, orig, starts, t.e, reported, Pc(t));
    assert isa.exec(Mem(t.e), Cpu(Pc(t), t.data)) == isa.exec(orig, Cpu(Pc(t), t.data));
  }

  /** What is not an int3 is not armed any more. */
  lemma ReportedFirst(orig: Memory, starts: set<nat>, e: State, log: seq<Entry>, pc: nat)
    requires EngineOk(orig, starts, e, Unarmed(e, log)) && e.pending == [] && pc < |Mem(e)| && Mem(e)[pc] != INT3
    requires ArmedIn(log) <= e.saved.Keys
    ensures pc in ArmedIn(log) ==> pc in ReportedIn(log)
  {
    if pc in ArmedIn(log) {
      var a: int := pc;
      assert a in e.saved.Keys && pc in e.saved;
    }
  }

  lemma ExecStep<D(!new)>(isa: Isa<D>, orig: Memory, starts: set<nat>, c: Cpu<D>, t: Traced<D>, news: seq<nat>)
    requires WellFormed(isa, orig, starts) && Sound(isa, orig, starts, c, t) && |Mem(t.e)| == |orig|
    requires t.e.pending == [] && Mem(t.e)[Pc(t)] != INT3 && forall a :: a in news ==> a in starts
    ensures var n := Next(isa, t, news);
            Sound(isa, orig, starts, c, n) && n.e.pending == [] && n.log == t.log + [Exec(Pc(t))]
            && n.e.saved == t.e.saved
  {
    NextIsTheInstruction(isa, orig, starts, t, Unarmed(t.e, t.log), news);
    ReportedFirst(orig, starts, t.e, t.log, Pc(t));
    Executed(isa, orig, starts, c, t, isa.exec(orig, Cpu(Pc(t), t.data)));
  }

  lemma Executed<D>(isa: Isa<D>, orig: Memory, starts: set<nat>, c: Cpu<D>, t: Traced<D>, next: Cpu<D>)
    requires Sound(isa, orig, starts, c, t) && next == isa.exec(orig, Cpu(Pc(t), t.data)) && next.pc in starts
    requires Pc(t) in ArmedIn(t.log) ==> Pc(t) in ReportedIn(t.log)
    ensures Sound(isa, orig, starts, c, t.(data := next.data, e := AtPc(t.e, next.pc), log := t.log + [Exec(Pc(t))]))
  {
    Moved(orig, starts, t.e, Unarmed(t.e, t.log), next.pc);
    Logged(isa, orig, c, t.log, Exec(Pc(t)));
    assert Unarmed(AtPc(t.e, next.pc), t.log + [Exec(Pc(t))]) == Unarmed(t.e, t.log);
  }

  /** Up to the report, the trap is a clear: the stop's step forward and singleStep's step back cancel. */
  lemma TrapIsClear<D>(t: Traced<D>)
    requires Runnable(t) && 0 <= Pc(t) < |Mem(t.e)| && t.e.pending == [] && Pc(t) in t.e.saved.Keys
    ensures Trapped(t) == t.(e := Clear(t.e, Pc(t)), log := t.log + [Report(Pc(t))])
  {
    assert Armed(Mem(t.e), []) == Mem(t.e);
    assert SetupAll(t.e) == t.e;
    var rip: map<nat, int> := t.e.os.rip;
    var up: map<nat, int> := rip[t.e.active := Pc(t) + 1];
    assert up[t.e.active := Pc(t)] == rip;
  }

  lemma TrapStep<D(!new)>(isa: Isa<D>, orig: Memory, starts: set<nat>, c: Cpu<D>, t: Traced<D>)
    requires WellFormed(isa, orig, starts) && Sound(isa, orig, starts, c, t) && |Mem(t.e)| == |orig|
    requires t.e.pending == [] && Mem(t.e)[Pc(t)] == INT3
    ensures var r := Trapped(t);
            && Sound(isa, orig, starts, c, r) && r.e.pending == [] && |Mem(r.e)| == |orig|
            && r.log == t.log + [Report(Pc(t))] && r.e.saved == t.e.saved
  {
    var pc := Pc(t);
    assert BytesOk(t.e, orig, Mem(t.e));
    assert Mem(t.e)[pc] != orig[pc];
    TrapIsClear(t);
    ClearKeepsInv(t.e, orig, pc);
    Logged(isa, orig, c, t.log, Report(pc));
    Cleared(orig, starts, t.e, Unarmed(t.e, t.log), pc);
    assert Unarmed(Clear(t.e, pc), t.log + [Report(pc)]) == Unarmed(t.e, t.log) + {pc};
  }

  lemma Cleared(orig: Memory, starts: set<nat>, e: State, reported: set<int>, pc: nat)
    requires EngineOk(orig, starts, e, reported) && e.pending == [] && |Mem(e)| == |orig| && pc in e.saved
    ensures EngineOk(orig, starts, Clear(e, pc), reported + {pc})
  {
    ClearKeepsInv(e, orig, pc);
  }

  lemma RegisterStep(orig: Memory, starts: set<nat>, e: State, reported: set<int>, a: nat)
    requires EngineOk(orig, starts, e, reported) && a in starts && a < |orig|
    ensures |Mem(e)| == |orig| && EngineOk(orig, starts, Register(e, a), reported)
    ensures var r := Register(e, a); r != e ==> a !in e.saved.Keys && r.saved.Keys == e.saved.Keys + {a}
  {
    RegisterKeepsInv(e, orig, a);
  }

  lemma RegisteredSound<D>(isa: Isa<D>, orig: Memory, starts: set<nat>, c: Cpu<D>, t: Traced<D>, a: nat)
    requires Sound(isa, orig, starts, c, t) && |Mem(t.e)| == |orig| && a in starts && a < |orig|
    ensures Sound(isa, orig, starts, c, Registered(t, a))
    ensures NonArms(Registered(t, a).log) == NonArms(t.log)
    ensures AllArmed(t) ==> AllArmed(Registered(t, a))
  {
    RegisterStep(orig, starts, t.e, Unarmed(t.e, t.log), a);
    var r := Registered(t, a);
    if r.e == t.e {
      assert r == t;
    } else {
      Logged(isa, orig, c, t.log, Arm(a));
      assert r.log[..|t.log|] == t.log;
      ArmedNow(t.e, r.e, t.log, a);
    }
  }

  lemma ArmedNow(e: State, r: State, log: seq<Entry>, a: nat)
    requires a !in e.saved.Keys && r.saved.Keys == e.saved.Keys + {a} && ArmedIn(log) <= e.saved.Keys
    ensures Unarmed(r, log + [Arm(a)]) == Unarmed(e, log)
  {
    assert (log + [Arm(a)])[..|log|] == log;
    assert ReportedIn(log + [Arm(a)]) == ReportedIn(log);
    assert forall x: int :: x in r.saved.Keys <==> x in e.saved.Keys || x == a;
  }

  lemma {:induction false} RegisteredAllSound<D>(isa: Isa<D>, orig: Memory, starts: set<nat>, c: Cpu<D>, t: Traced<D>, addrs: seq<nat>)
    requires Sound(isa, orig, starts, c, t) && |Mem(t.e)| == |orig| && |orig| % 8 == 0
    requires forall a :: a in addrs ==> a in starts && a < |orig|
    ensures Sound(isa, orig, starts, c, RegisteredAll(t, addrs))
    ensures NonArms(RegisteredAll(t, addrs).log) == NonArms(t.log)
    ensures AllArmed(t) ==> AllArmed(RegisteredAll(t, addrs))
    decreases |addrs|
  {
    if addrs != [] {
      RegisteredSound(isa, orig, starts, c, t, addrs[0]);
      RegisteredAllSound(isa, orig, starts, c, Registered(t, addrs[0]), addrs[1..]);
    }
  }

  lemma ArmedSound(orig: Memory, starts: set<nat>, e: State, reported: set<int>)
    requires EngineOk(orig, starts, e, reported)
    ensures EngineOk(orig, starts, SetupAll(e), reported)
  {
    SetupKeepsInv(e, orig);
  }

  lemma RearmedSound<D>(isa: Isa<D>, orig: Memory, starts: set<nat>, c: Cpu<D>, t: Traced<D>, news: seq<nat>)
    requires Sound(isa, orig, starts, c, t) && |Mem(t.e)| == |orig| && |orig| % 8 == 0
    requires forall a :: a in news ==> a in starts && a < |orig|
    ensures var r := Rearmed(t, news);
            && Sound(isa, orig, starts, c, r) && r.e.pending == [] && NonArms(r.log) == NonArms(t.log)
            && (AllArmed(t) ==> AllArmed(r))
  {
    RegisteredAllSound(isa, orig, starts, c, t, news);
    var r := RegisteredAll(t, news);
    ArmedSound(orig, starts, r.e, Unarmed(r.e, r.log));
  }

  lemma ReportStep<D(!new)>(isa: Isa<D>, orig: Memory, starts: set<nat>, c: Cpu<D>, t: Traced<D>, news: seq<nat>)
    requires WellFormed(isa, orig, starts) && Sound(isa, orig, starts, c, t) && |Mem(t.e)| == |orig|
    requires t.e.pending == [] && Mem(t.e)[Pc(t)] == INT3 && forall a :: a in news ==> a in starts && a < |orig|
    ensures var n := Rearmed(Trapped(t), news);
            && Sound(isa, orig, starts, c, n) && n.e.pending == [] && NonArms(n.log) == NonArms(t.log) + 1
            && (AllArmed(t) ==> AllArmed(n))
  {
    TrapStep(isa, orig, starts, c, t);
    var r := Trapped(t);
    assert r.log[..|t.log|] == t.log;
    Logged(isa, orig, c, t.log, Report(Pc(t)));
    RearmedSound(isa, orig, starts, c, r, news);
  }

  lemma InstructionStep<D(!new)>(isa: Isa<D>, orig: Memory, starts: set<nat>, c: Cpu<D>, t: Traced<D>, news: seq<nat>)
    requires WellFormed(isa, orig, starts) && Sound(isa, orig, starts, c, t) && |Mem(t.e)| == |orig|
    requires t.e.pending == [] && Mem(t.e)[Pc(t)] != INT3 && forall a :: a in news ==> a in starts
    ensures var n := Next(isa, t, news);
            && Sound(isa, orig, starts, c, n) && n.e.pending == [] && NonArms(n.log) == NonArms(t.log) + 1
            && (AllArmed(t) ==> AllArmed(n))
  {
    ExecStep(isa, orig, starts, c, t, news);
    assert Next(isa, t, news).log[..|t.log|] == t.log;
    Logged(isa, orig, c, t.log, Exec(Pc(t)));
  }

  /** One step of the traced run keeps everything, and is one instruction of the untraced run or one report. */
  lemma StepSound<D(!new)>(isa: Isa<D>, orig: Memory, starts: set<nat>, c: Cpu<D>, t: Traced<D>, news: seq<nat>)
    requires WellFormed(isa, orig, starts) && Sound(isa, orig, starts, c, t) && t.e.pending == []
    requires forall a :: a in news ==> a in starts
    ensures var n := Next(isa, t, news);
            && Sound(isa, orig, starts, c, n) && n.e.pending == [] && NonArms(n.log) == NonArms(t.log) + 1
            && (AllArmed(t) ==> AllArmed(n))
  {
    assert BytesOk(t.e, orig, Mem(t.e));
    if Mem(t.e)[Pc(t)] != INT3 {
      InstructionStep(isa, orig, starts, c, t, news);
    } else {
      ReportStep(isa, orig, starts, c, t, news);
    }
  }

  lemma StartSound<D(!new)>(isa: Isa<D>, orig: Memory, starts: set<nat>, pid: nat, c: Cpu<D>, addrs: seq<nat>)
    requires WellFormed(isa, orig, starts) && c.pc in starts && forall a :: a in addrs ==> a in starts
    ensures forall a :: a in addrs ==> a < |orig|
    ensures var t := Start(orig, pid, c, addrs);
            Sound(isa, orig, starts, c, t) && t.e.pending == [] && NonArms(t.log) == 0 && AllArmed(t)
  {
    var e := State(map[], [], pid, Tracees(map[0 := orig], map[pid := 0], map[pid := c.pc]));
    assert BytesOk(e, orig, orig);
    RearmedSound(isa, orig, starts, c, Traced(c.data, e, []), addrs);
  }

  lemma {:induction false} RunSound<D(!new)>(isa: Isa<D>, orig: Memory, starts: set<nat>, c: Cpu<D>, t: Traced<D>, sched: seq<seq<nat>>)
    requires WellFormed(isa, orig, starts) && Sound(isa, orig, starts, c, t) && t.e.pending == []
    requires forall i, a :: 0 <= i < |sched| && a in sched[i] ==> a in starts
    ensures var n := Run(isa, t, sched);
            && Sound(isa, orig, starts, c, n) && n.e.pending == [] && NonArms(n.log) == NonArms(t.log) + |sched|
            && (AllArmed(t) ==> AllArmed(n))
  {
    if sched != [] {
      RunSound(isa, orig, starts, c, t, sched[..|sched| - 1]);
      StepSound(isa, orig, starts, c, Run(isa, t, sched[..|sched| - 1]), sched[|sched| - 1]);
    }
  }

  lemma {:induction false} ReportsAreDistinct<D>(isa: Isa<D>, orig: Memory, c: Cpu<D>, log: seq<Entry>)
    requires Faithful(isa, orig, c, log)
    ensures NonArms(log) == Execs(log) + |ReportedIn(log)|
  {
    if log != [] {
      ReportsAreDistinct(isa, orig, c, log[..|log| - 1]);
    }
  }

  /** t comes n steps after s, new lines having been registered in any of them. */
  ghost predicate Reached<D(!new)>(isa: Isa<D>, starts: set<nat>, s: Traced<D>, t: Traced<D>, n: nat) {
    exists sched: seq<seq<nat>> ::
      && |sched| == n && t == Run(isa, s, sched)
      && forall i, a :: 0 <= i < |sched| && a in sched[i] ==> a in starts
  }

  /** The traced process is, after any number of steps, exactly where the untraced one is after its
      instructions; the steps that are not instructions are reports, at most one for each registered
      address; and the log is faithful: each report is an armed address at the untraced program
      counter, before anything there has executed, and no armed address executes unreported. */
  lemma TracingIsTransparent<D(!new)>(isa: Isa<D>, orig: Memory, starts: set<nat>, pid: nat, c: Cpu<D>,
                                      addrs: seq<nat>, t: Traced<D>, n: nat)
    requires WellFormed(isa, orig, starts) && c.pc in starts && forall a :: a in addrs ==> a in starts && a < |orig|
    requires Reached(isa, starts, Start(orig, pid, c, addrs), t, n)
    ensures Attached(t.e, t.e.active)
    ensures Cpu(Pc(t), t.data) == Untraced(isa, orig, c, Execs(t.log))
    ensures n == Execs(t.log) + |ReportedIn(t.log)|
    ensures ReportedIn(t.log) <= ArmedIn(t.log) == t.e.saved.Keys
    ensures Faithful(isa, orig, c, t.log)
  {
    var s := Start(orig, pid, c, addrs);
    StartSound(isa, orig, starts, pid, c, addrs);
    var sched: seq<seq<nat>> :|
      && |sched| == n && t == Run(isa, s, sched)
      && forall i, a :: 0 <= i < |sched| && a in sched[i] ==> a in starts;
    RunSound(isa, orig, starts, c, s, sched);
    ReportsAreDistinct(isa, orig, c, t.log);
  }
}
