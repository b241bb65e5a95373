/** Breakpoints in any number of processes and threads. */
module PtraceEngine {
  // The ptrace engine on x86-64: registration, arming and clearing in the memory of the tracees.

  import opened PtraceWords

  const SIGTRAP: nat := 5
  const SIGSTOP: nat := 19
  const SIGSYS: nat := 31

  /** What waitpid tells of a tracee. `forky` marks a clone, fork or vfork event stop. */
  datatype Status = WaitError
                  | Stopped(pid: nat, sig: nat, forky: bool)
                  | Signaled(pid: nat, sig: nat)
                  | Exited(pid: nat, code: int)

  datatype EventType = Error | Signal | SignalExit | BreakpointHit | Exit | ExitFirst

  datatype Event = Event(kind: EventType, data: int, addr: int)

  /** The tracees as the kernel keeps them: threads share an address space, forked children do not. */
  datatype Tracees = Tracees(spaces: map<nat, Memory>, spaceOf: map<nat, nat>, rip: map<nat, int>)

  /** The state of the engine that breakpoints depend on. */
  datatype State = State(saved: map<nat, bv64>, pending: seq<nat>, active: nat, os: Tracees)

  ghost predicate Attached(e: State, pid: nat) {
    pid in e.os.spaceOf && e.os.spaceOf[pid] in e.os.spaces && pid in e.os.rip
  }

  ghost function Space(e: State): nat
    requires Attached(e, e.active)
  {
    e.os.spaceOf[e.active]
  }

  /** The memory of the active tracee. */
  ghost function Mem(e: State): Memory
    requires Attached(e, e.active)
  {
    e.os.spaces[Space(e)]
  }

  ghost function WithMem(e: State, m: Memory): State
    requires Attached(e, e.active)
  {
    e.(os := e.os.(spaces := e.os.spaces[Space(e) := m]))
  }

  // ----- what the operations do to memory, byte by byte -----

  ghost function Register(e: State, addr: nat): State
    requires Attached(e, e.active) && |Mem(e)| % 8 == 0 && addr < |Mem(e)|
  {
    WordInside(Mem(e), addr);
    if addr == 0 || addr in e.saved then e
    else e.(saved := e.saved[addr := PeekWord(Mem(e), Aligned(addr))], pending := e.pending + [addr])
  }

  ghost function Armed(m: Memory, addrs: seq<nat>): (r: Memory)
    ensures |r| == |m|
    ensures forall i :: 0 <= i < |m| ==> r[i] == if i in addrs then INT3 else m[i]
  {
    seq(|m|, i requires 0 <= i < |m| => if i in addrs then INT3 else m[i])
  }

  ghost function SetupAll(e: State): State
    requires Attached(e, e.active)
  {
    WithMem(e, Armed(Mem(e), e.pending)).(pending := [])
  }

  ghost function Clear(e: State, addr: nat): State
    requires Attached(e, e.active) && addr < |Mem(e)|
  {
    if addr !in e.saved then e
    else WithMem(e, Mem(e)[addr := Bytes(e.saved[addr])[Offset(addr)]])
  }

  /** fork: the child gets a copy of the space, breakpoints and all; clone shares it. */
  ghost function Fork(e: State, parent: nat, child: nat, space: nat): State
    requires Attached(e, parent)
  {
    e.(os := e.os.(spaces := e.os.spaces[space := e.os.spaces[e.os.spaceOf[parent]]],
                   spaceOf := e.os.spaceOf[child := space], rip := e.os.rip[child := e.os.rip[parent]]))
  }

  // ----- the invariant -----

  ghost predicate BytesOk(e: State, orig: Memory, m: Memory) {
    && |m| == |orig|
    && forall i {:trigger m[i]} :: 0 <= i < |m| ==>
         m[i] == orig[i] || (m[i] == INT3 && i in e.saved && i !in e.pending)
  }

  /** Every byte of every space is the program's own or an int3 at a registered, armed address; and
      each saved word holds the program's own byte at its address, whatever its neighbours were. */
  ghost predicate Inv(e: State, orig: Memory) {
    && |orig| % 8 == 0
    && (forall pid :: pid in e.os.spaceOf ==> e.os.spaceOf[pid] in e.os.spaces && pid in e.os.rip)
    && (forall s :: s in e.os.spaces ==> BytesOk(e, orig, e.os.spaces[s]))
    && (forall a: nat :: a in e.saved ==> a < |orig| && Bytes(e.saved[a])[Offset(a)] == orig[a])
    && (forall a :: a in e.pending ==> a in e.saved)
    && (forall i, j :: 0 <= i < j < |e.pending| ==> e.pending[i] != e.pending[j])
  }

  /** One thing that happens to the engine or its tracees. */
  datatype Step =
    | DoRegister(addr: nat)
    | DoSetup
    | DoClear(addr: nat)
    | DoFork(parent: nat, child: nat, space: nat)
    | DoClone(parent: nat, child: nat)
    | DoSwitch(pid: nat)

  ghost predicate Possible(e: State, step: Step) {
    match step
    case DoRegister(addr) => Attached(e, e.active) && |Mem(e)| % 8 == 0 && addr < |Mem(e)|
    case DoSetup => Attached(e, e.active) && forall a :: a in e.pending ==> a < |Mem(e)|
    case DoClear(addr) => Attached(e, e.active) && addr < |Mem(e)|
    case DoFork(parent, child, space) => Attached(e, parent) && child !in e.os.spaceOf && space !in e.os.spaces
    case DoClone(parent, child) => Attached(e, parent) && child !in e.os.spaceOf
    case DoSwitch(pid) => Attached(e, pid)
  }

  ghost function Next(e: State, step: Step): State {
    if !Possible(e, step) then e else
    match step
    case DoRegister(addr) => Register(e, addr)
    case DoSetup => SetupAll(e)
    case DoClear(addr) => Clear(e, addr)
    case DoFork(parent, child, space) => Fork(e, parent, child, space)
    case DoClone(parent, child) => Fork(e, parent, child, e.os.spaceOf[parent])
    case DoSwitch(pid) => e.(active := pid)
  }

  ghost function Run(e: State, steps: seq<Step>): State
    decreases |steps|
  {
    if steps == [] then e else Run(Next(e, steps[0]), steps[1..])
  }

  lemma SavedIsOriginal(e: State, orig: Memory, addr: nat)
    requires Inv(e, orig) && Attached(e, e.active) && addr < |orig| && addr !in e.saved
    ensures |Mem(e)| == |orig| && Aligned(addr) + 8 <= |orig|
    ensures Bytes(PeekWord(Mem(e), Aligned(addr)))[Offset(addr)] == orig[addr]
  {
    assert BytesOk(e, orig, Mem(e));
    PeekedByte(Mem(e), addr);
  }

  lemma RegisterKeepsInv(e: State, orig: Memory, addr: nat)
    requires Inv(e, orig) && Attached(e, e.active) && addr < |orig|
    ensures |Mem(e)| == |orig| && Inv(Register(e, addr), orig)
  {
    assert BytesOk(e, orig, Mem(e));
    var t := Register(e, addr);
    if t != e {
      SavedIsOriginal(e, orig, addr);
      forall s | s in t.os.spaces ensures BytesOk(t, orig, t.os.spaces[s]) {
        assert BytesOk(e, orig, e.os.spaces[s]);
      }
    }
  }

  lemma SetupKeepsInv(e: State, orig: Memory)
    requires Inv(e, orig) && Attached(e, e.active)
    ensures |Mem(e)| == |orig| && Inv(SetupAll(e), orig)
  {
    assert BytesOk(e, orig, Mem(e));
    var t := SetupAll(e);
    forall s | s in t.os.spaces ensures BytesOk(t, orig, t.os.spaces[s]) {
      assert BytesOk(e, orig, e.os.spaces[s]);
    }
  }

  lemma ClearKeepsInv(e: State, orig: Memory, addr: nat)
    requires Inv(e, orig) && Attached(e, e.active) && addr < |orig|
    ensures |Mem(e)| == |orig| && Inv(Clear(e, addr), orig)
  {
    assert BytesOk(e, orig, Mem(e));
    var t := Clear(e, addr);
    forall s | s in t.os.spaces ensures BytesOk(t, orig, t.os.spaces[s]) {
      assert BytesOk(e, orig, e.os.spaces[s]);
    }
  }

  lemma NextKeepsInv(e: State, orig: Memory, step: Step)
    requires Inv(e, orig)
    ensures Inv(Next(e, step), orig)
  {
    if Possible(e, step) {
      match step
      case DoRegister(addr) =>
        assert BytesOk(e, orig, Mem(e));
        RegisterKeepsInv(e, orig, addr);
      case DoSetup => SetupKeepsInv(e, orig);
      case DoClear(addr) =>
        assert BytesOk(e, orig, Mem(e));
        ClearKeepsInv(e, orig, addr);
      case _ =>
        var t := Next(e, step);
        forall s | s in t.os.spaces ensures BytesOk(t, orig, t.os.spaces[s]) {
          assert s in e.os.spaces ==> BytesOk(e, orig, e.os.spaces[s]);
        }
    }
  }

  ghost predicate Fresh(e: State, orig: Memory, pid: nat) {
    && |orig| % 8 == 0 && e.saved == map[] && e.pending == [] && e.active == pid
    && e.os.spaces == map[0 := orig] && e.os.spaceOf == map[pid := 0] && e.os.rip.Keys == {pid}
  }

  /** In every run, over any number of forks, clones and switches: each code byte of each process is
      the program's own or an int3 at a registered address. */
  lemma {:induction false} RunKeepsInv(e: State, orig: Memory, steps: seq<Step>)
    requires Inv(e, orig)
    ensures Inv(Run(e, steps), orig)
    decreases |steps|
  {
    if steps != [] {
      NextKeepsInv(e, orig, steps[0]);
      RunKeepsInv(Next(e, steps[0]), orig, steps[1..]);
    }
  }

  lemma CodeIsOriginalOrInt3(e: State, orig: Memory, pid: nat, steps: seq<Step>, s: nat, i: nat)
    requires Fresh(e, orig, pid) && s in Run(e, steps).os.spaces && i < |orig|
    ensures var t := Run(e, steps); var m := t.os.spaces[s];
            |m| == |orig| && (m[i] == orig[i] || (m[i] == INT3 && i in t.saved))
  {
    RunKeepsInv(e, orig, steps);
    assert BytesOk(Run(e, steps), orig, Run(e, steps).os.spaces[s]);
  }

  /** After any run, clearing a registered address gives the active process its own byte back there
      and changes nothing else anywhere, even if neighbours in the word are armed. */
  lemma ClearRestoresItsByte(e: State, orig: Memory, pid: nat, steps: seq<Step>, addr: nat)
    requires Fresh(e, orig, pid)
    requires var t := Run(e, steps); Attached(t, t.active) && addr in t.saved
    ensures var t := Run(e, steps);
            addr < |orig| && |Mem(t)| == |orig| && Clear(t, addr) == WithMem(t, Mem(t)[addr := orig[addr]])
  {
    RunKeepsInv(e, orig, steps);
    var t := Run(e, steps);
    assert BytesOk(t, orig, Mem(t));
  }

  // ----- waiting for a tracee -----

  /** regs[RIP] - 1: an int3 leaves the program counter one past its own byte. */
  function ReportedPc(rip: int): int {
    rip - 1
  }

  /** The registers of a tracee that is gone read as zero, and 0 - 1 wraps in 64 bits. */
  const NO_PC: int := 0xFFFF_FFFF_FFFF_FFFF

  /** ptrace_sys::singleStep: the program counter back on the instruction. */
  ghost function SteppedBack(e: State, pid: nat): State
    requires pid in e.os.rip
  {
    e.(os := e.os.(rip := e.os.rip[pid := e.os.rip[pid] - 1]))
  }

  predicate IsTrap(sig: nat) {
    sig == SIGTRAP || sig == SIGSTOP || sig == SIGSYS
  }

  /** The stop of a status that reports a breakpoint, forks and clones excluded. */
  predicate IsBreakpointStop(status: Status) {
    status.Stopped? && !(status.sig == SIGTRAP && status.forky) && IsTrap(status.sig)
  }

  /** A stop at a registered address, the only kind that steps the tracee back. */
  ghost predicate AtBreakpoint(e: State, os: Tracees, status: Status)
    requires status.Stopped? ==> status.pid in os.rip
  {
    IsBreakpointStop(status) && ReportedPc(os.rip[status.pid]) in e.saved
  }

  /** The engine after waitEvent: the stopped tracee is active, and stepped back if its address is registered. */
  ghost function Waited(e: State, status: Status): State
    requires status.Stopped? ==> status.pid in e.os.rip
  {
    if status.WaitError? then e
    else if AtBreakpoint(e, e.os, status) then SteppedBack(e, status.pid).(active := status.pid)
    else e.(active := status.pid)
  }

  /** The event waitEvent returns. `last` is the address of the last signal seen, `left` whether
      the first child is still traced once the one that ended is gone. */
  function EventOf(status: Status, rip: int, last: int, isFirst: bool, left: bool): Event {
    match status
    case WaitError => Event(Error, -1, 0)
    case Stopped(_, sig, _) =>
      if IsBreakpointStop(status) then Event(BreakpointHit, -1, ReportedPc(rip))
      else Event(Signal, if sig == SIGTRAP then 0 else sig, ReportedPc(rip))
    case Signaled(_, sig) => Event(if left then Signal else SignalExit, sig, last)
    case Exited(_, code) => Event(if isFirst then ExitFirst else Exit, code, NO_PC)
  }

  /** The children known after waitEvent: those that stop are added, those that end are erased. */
  function Known(children: set<nat>, status: Status): set<nat> {
    match status
    case WaitError => children
    case Stopped(pid, _, _) => children + {pid}
    case _ => children - {status.pid}
  }

  /** The address the next terminating signal is said to have happened at. */
  function SignalAddress(status: Status, rip: int, last: int): int {
    if status.Stopped? && !IsBreakpointStop(status) then ReportedPc(rip) else last
  }

  /** The event of a status given the tracees at the stop, the children known before and the last signal. */
  function EventAt(os: Tracees, status: Status, children: set<nat>, first: nat, last: int): Event
    requires status.Stopped? ==> status.pid in os.rip
  {
    var rip := if status.Stopped? then os.rip[status.pid] else 0;
    EventOf(status, rip, last, !status.WaitError? && status.pid == first, first in Known(children, status))
  }

  /** What the engine keeps from turn to turn beside its breakpoints: whom it continues, with what signal. */
  datatype Control = Control(active: nat, children: set<nat>, last: int, signal: int)

  /** One turn as the kernel plays it: whether the active child could be continued, the tracees at the next stop, and
      what waitpid tells of it. */
  datatype Turn = Turn(continued: bool, os: Tracees, status: Status)

  predicate Told(turn: Turn) {
    turn.status.Stopped? ==> turn.status.pid in turn.os.rip
  }

  /** A child that cannot be continued is forgotten. */
  function Remaining(c: Control, turn: Turn): set<nat> {
    if turn.continued then c.children else c.children - {c.active}
  }

  /** The event of a turn, which the listener is called with. */
  function EventIn(c: Control, first: nat, turn: Turn): Event
    requires Told(turn)
  {
    EventAt(turn.os, turn.status, Remaining(c, turn), first, c.last)
  }

  function Turned(c: Control, first: nat, turn: Turn): Control
    requires Told(turn)
  {
    var ev := EventIn(c, first, turn);
    Control(if turn.status.WaitError? then c.active else turn.status.pid,
            Known(Remaining(c, turn), turn.status),
            SignalAddress(turn.status, if turn.status.Stopped? then turn.os.rip[turn.status.pid] else 0, c.last),
            if ev.kind == Signal then ev.data else 0)
  }

  /** What the kernel guarantees of a stop it reports. */
  ghost predicate Sensible(os: Tracees, status: Status) {
    status.Stopped? ==>
      && status.pid in os.rip && status.pid in os.spaceOf && os.spaceOf[status.pid] in os.spaces
      && |os.spaces[os.spaceOf[status.pid]]| % 8 == 0
      && (IsBreakpointStop(status) ==> 0 <= ReportedPc(os.rip[status.pid]) < |os.spaces[os.spaceOf[status.pid]]|)
  }

  /** One turn of continueExecution, the kernel having run the tracees to `os` before the stop. */
  ghost function Continued(e: State, os: Tracees, status: Status): State
    requires Attached(e, e.active) && Sensible(os, status)
  {
    var w := Waited(SetupAll(e).(os := os), status);
    if AtBreakpoint(e, os, status) then Clear(w, ReportedPc(os.rip[status.pid])) else w
  }

  class Ptrace {
    var instructionMap: map<nat, bv64>
    var pendingBreakpoints: seq<nat>
    var activeChild: nat
    var firstChild: nat
    var children: set<nat>
    var signal: int
    var firstBreakpoint: bool
    var lastSignalAddress: int
    var os: Tracees

    ghost function View(): State
      reads this
    {
      State(instructionMap, pendingBreakpoints, activeChild, os)
    }

    ghost function Controls(): Control
      reads this
    {
      Control(activeChild, children, lastSignalAddress, signal)
    }

    ghost predicate Running()
      reads this
    {
      Attached(View(), activeChild) && |Mem(View())| % 8 == 0
    }

    constructor (child: nat, memory: Memory, rip: int)
      ensures View() == State(map[], [], child, Tracees(map[0 := memory], map[child := 0], map[child := rip]))
      ensures Fresh(View(), memory, child) || |memory| % 8 != 0
      ensures Controls() == Control(child, {}, 0, 0) && firstChild == child && firstBreakpoint
    {
      instructionMap, pendingBreakpoints := map[], [];
      activeChild, firstChild, children, signal, lastSignalAddress, firstBreakpoint := child, child, {}, 0, 0, true;
      os := Tracees(map[0 := memory], map[child := 0], map[child := rip]);
    }

    method Peek(at: nat) returns (w: bv64)
      requires Attached(View(), activeChild) && at + 8 <= |Mem(View())|
      ensures w == PeekWord(Mem(View()), at)
    {
      w := PeekWord(os.spaces[os.spaceOf[activeChild]], at);
    }

    method Poke(at: nat, w: bv64)
      requires Attached(View(), activeChild) && at + 8 <= |Mem(View())|
      modifies this`os
      ensures View() == WithMem(old(View()), PokeWord(old(Mem(View())), at, w))
    {
      var space := os.spaceOf[activeChild];
      os := os.(spaces := os.spaces[space := PokeWord(os.spaces[space], at, w)]);
    }

    method RegisterBreakpoint(addr: nat) returns (rv: int)
      requires Running() && addr < |Mem(View())|
      modifies this`instructionMap, this`pendingBreakpoints
      ensures rv == if addr == 0 then -1 else 0
      ensures addr == 0 || addr in old(instructionMap) ==> View() == old(View())
      ensures addr != 0 && addr !in old(instructionMap) ==>
                instructionMap.Keys == old(instructionMap.Keys) + {addr} && pendingBreakpoints == old(pendingBreakpoints) + [addr]
      ensures View() == Register(old(View()), addr)
    {
      if addr == 0 {
        return -1;
      }
      if addr in instructionMap {
        return 0;
      }
      WordInside(Mem(View()), addr);
      var data := Peek(Aligned(addr));
      instructionMap := instructionMap[addr := data];
      pendingBreakpoints := pendingBreakpoints + [addr];
      return 0;
    }

    /** Each pending address through its aligned word; the words may overlap. */
    method SetupAllBreakpoints()
      requires Running() && forall a :: a in pendingBreakpoints ==> a < |Mem(View())|
      modifies this`os, this`pendingBreakpoints
      ensures View() == SetupAll(old(View()))
    {
      ghost var e := View();
      assert Armed(Mem(e), []) == Mem(e) && WithMem(e, Mem(e)) == e;
      for i := 0 to |pendingBreakpoints|
        invariant pendingBreakpoints == e.pending
        invariant View() == WithMem(e, Armed(Mem(e), e.pending[..i]))
      {
        var addr := pendingBreakpoints[i];
        assert addr in e.pending;
        PokeSetup(Mem(View()), addr);
        var cur := Peek(Aligned(addr));
        Poke(Aligned(addr), SetupBreakpoint(addr, cur));
        assert Mem(View()) == Armed(Mem(e), e.pending[..i + 1]);
        assert View() == WithMem(e, Mem(View()));
      }
      assert e.pending[..|e.pending|] == e.pending;
      pendingBreakpoints := [];
    }

    method ClearBreakpoint(addr: nat) returns (found: bool)
      requires addr in instructionMap ==> Running() && addr < |Mem(View())|
      modifies this`os
      ensures found == (addr in instructionMap)
      ensures View() == if found then Clear(old(View()), addr) else old(View())
    {
      if addr !in instructionMap {
        return false;
      }
      var val := instructionMap[addr];
      PokeClear(Mem(View()), addr, val);
      var cur := Peek(Aligned(addr));
      Poke(Aligned(addr), PtraceWords.ClearBreakpoint(addr, val, cur));
      return true;
    }

    /** `blocks` tells whether this is the stop that waits for the data of the shared libraries. */
    method WaitEvent(status: Status) returns (out: Event, blocks: bool)
      requires Sensible(os, status)
      modifies this`activeChild, this`children, this`lastSignalAddress, this`firstBreakpoint, this`os
      ensures View() == Waited(old(View()), status)
      ensures out == EventAt(old(os), status, old(children), firstChild, old(lastSignalAddress))
      ensures children == Known(old(children), status)
      ensures var rip := if status.Stopped? then old(os.rip)[status.pid] else 0;
              lastSignalAddress == SignalAddress(status, rip, old(lastSignalAddress))
      ensures blocks == (old(firstBreakpoint) && AtBreakpoint(old(View()), old(os), status))
      ensures firstBreakpoint == (old(firstBreakpoint) && !blocks)
    {
      blocks := false;
      if status.WaitError? {
        out := Event(Error, -1, 0);
        return;
      }
      children := children + {status.pid};
      activeChild := status.pid;
      match status
      case Stopped(who, sig, forky) =>
        var addr := ReportedPc(os.rip[who]);
        if sig == SIGTRAP && forky {
          out := Event(Signal, 0, addr);
        } else if IsTrap(sig) {
          out := Event(BreakpointHit, -1, addr);
          if addr in instructionMap {
            os := os.(rip := os.rip[who := os.rip[who] - 1]);
            blocks, firstBreakpoint := firstBreakpoint, false;
          }
          return;
        } else {
          out := Event(Signal, sig, addr);
        }
        lastSignalAddress := addr;
      case Signaled(who, sig) =>
        children := children - {who};
        out := Event(if |children| > 0 && firstChild in children then Signal else SignalExit, sig, lastSignalAddress);
      case Exited(who, code) =>
        children := children - {who};
        out := Event(if who == firstChild then ExitFirst else Exit, code, NO_PC);
    }

    /** `kernel` continues a tracee with a signal, or says that it cannot, and tells of the next stop. The event
        is the one the listener is called with before the breakpoint is cleared. */
    method ContinueExecution(kernel: (nat, int, Tracees) -> Turn) returns (goOn: bool, ev: Event, blocks: bool)
      requires Running() && forall a :: a in pendingBreakpoints ==> a < |Mem(View())|
      requires var turn := kernel(activeChild, signal, SetupAll(View()).os); Sensible(turn.os, turn.status)
      modifies this
      ensures firstChild == old(firstChild)
      ensures var turn := kernel(old(activeChild), old(signal), SetupAll(old(View())).os);
              && View() == Continued(old(View()), turn.os, turn.status)
              && ev == EventIn(old(Controls()), firstChild, turn)
              && Controls() == Turned(old(Controls()), firstChild, turn)
              && goOn == !turn.status.WaitError?
              && blocks == (old(firstBreakpoint) && AtBreakpoint(old(View()), turn.os, turn.status))
              && firstBreakpoint == (old(firstBreakpoint) && !blocks)
    {
      SetupAllBreakpoints();
      var turn := kernel(activeChild, signal, os);
      if !turn.continued {
        children := children - {activeChild};
      }
      os := turn.os;
      ev, blocks := WaitEvent(turn.status);
      signal := if ev.kind == Signal then ev.data else 0;
      if ev.kind == BreakpointHit {
        var _ := ClearBreakpoint(ev.addr);
      }
      goOn := ev.kind != Error;
    }
  }
}
