/** Signals, exits and children over turns. */
module PtraceTurns {
  // What continueExecution passes on and reports over any run of turns, told by what waitpid said: the signal and
  // process numbers of the stops, in order.

  import opened PtraceEngine

  predicate AllTold(turns: seq<Turn>) {
    forall i :: 0 <= i < |turns| ==> Told(turns[i])
  }

  function After(c: Control, first: nat, turns: seq<Turn>): Control
    requires AllTold(turns)
  {
    if turns == [] then c else Turned(After(c, first, turns[..|turns| - 1]), first, turns[|turns| - 1])
  }

  // ----- what the turns say -----

  /** The process that stopped or ended last, or else the one that was active before. */
  function LastPid(active: nat, turns: seq<Turn>): nat {
    if turns == [] then active
    else if turns[|turns| - 1].status.WaitError? then LastPid(active, turns[..|turns| - 1])
    else turns[|turns| - 1].status.pid
  }

  /** The process has stopped, and since then has neither ended nor failed to be continued. */
  predicate Traced(c: Control, turns: seq<Turn>, pid: nat) {
    if turns == [] then pid in c.children
    else
      var before, turn := turns[..|turns| - 1], turns[|turns| - 1];
      var still := Traced(c, before, pid) && (turn.continued || LastPid(c.active, before) != pid);
      match turn.status
      case WaitError => still
      case Stopped(q, _, _) => q == pid || still
      case Signaled(q, _) => q != pid && still
      case Exited(q, _) => q != pid && still
  }

  /** Where the last stop was that was no SIGTRAP, but for forks, no SIGSTOP and no SIGSYS. */
  function LastSignalPc(last: int, turns: seq<Turn>): int
    requires AllTold(turns)
  {
    if turns == [] then last
    else
      var before, turn := turns[..|turns| - 1], turns[|turns| - 1];
      match turn.status
      case Stopped(q, sig, forky) =>
        if sig == 19 || sig == 31 || (sig == 5 && !forky) then LastSignalPc(last, before) else turn.os.rip[q] - 1
      case _ => LastSignalPc(last, before)
  }

  /** After any run of turns: who is active, who is known, and where the last signal was. */
  lemma {:induction false} ControlIs(c: Control, first: nat, turns: seq<Turn>)
    requires AllTold(turns)
    ensures var d := After(c, first, turns);
            && d.active == LastPid(c.active, turns) && d.last == LastSignalPc(c.last, turns)
            && forall pid :: pid in d.children <==> Traced(c, turns, pid)
  {
    if turns != [] {
      ControlIs(c, first, turns[..|turns| - 1]);
    }
  }

  // ----- what is passed on -----

  /** The signal of a turn's stop that its process is continued with: what stopped it, unless that was SIGTRAP, SIGSTOP
      or SIGSYS; and what killed it, while the first process is traced. */
  function PassedBy(c: Control, first: nat, turns: seq<Turn>): int
    requires turns != []
  {
    match turns[|turns| - 1].status
    case WaitError => 0
    case Stopped(_, sig, _) => if sig == 5 || sig == 19 || sig == 31 then 0 else sig
    case Signaled(_, sig) => if Traced(c, turns, first) then sig else 0
    case Exited(_, _) => 0
  }

  /** The next turn continues the process that stopped, with just that signal. */
  lemma NextContinuesWith(c: Control, first: nat, turns: seq<Turn>)
    requires AllTold(turns) && turns != []
    ensures var d := After(c, first, turns);
            d.active == LastPid(c.active, turns) && d.signal == PassedBy(c, first, turns)
  {
    ControlIs(c, first, turns);
  }

  /** The signals other than 0 that the processes are continued with in the turns after these, in order. */
  function PassedOn(c: Control, first: nat, turns: seq<Turn>): seq<(nat, int)>
    requires AllTold(turns)
  {
    if turns == [] then []
    else
      var d := After(c, first, turns);
      PassedOn(c, first, turns[..|turns| - 1]) + if d.signal != 0 then [(d.active, d.signal)] else []
  }

  /** The processes that were stopped by other signals than SIGTRAP, SIGSTOP and SIGSYS, in order, with these. */
  function StoppedBy(turns: seq<Turn>): seq<(nat, int)> {
    if turns == [] then []
    else
      StoppedBy(turns[..|turns| - 1])
      + match turns[|turns| - 1].status
        case Stopped(pid, sig, _) => if sig == 0 || sig == 5 || sig == 19 || sig == 31 then [] else [(pid, sig as int)]
        case _ => []
  }

  /** While none is killed, the signals passed on are those that stopped tracees, to the same tracees and in order. */
  lemma {:induction false} SignalsArePassedOn(c: Control, first: nat, turns: seq<Turn>)
    requires AllTold(turns) && forall i :: 0 <= i < |turns| ==> !turns[i].status.Signaled?
    ensures PassedOn(c, first, turns) == StoppedBy(turns)
  {
    if turns != [] {
      SignalsArePassedOn(c, first, turns[..|turns| - 1]);
      NextContinuesWith(c, first, turns);
    }
  }

  // ----- what is reported -----

  /** The events: a breakpoint for the three signals unless they tell of a fork, one byte back; every other signal with
      its number, 0 for a fork; an exit with its code, told apart for the first process; a killed process with its
      signal at the last signal's address, the end being told exactly if the first process is gone. */
  lemma EventsAre(c: Control, first: nat, turns: seq<Turn>)
    requires AllTold(turns) && turns != []
    ensures var before, turn := turns[..|turns| - 1], turns[|turns| - 1];
            var ev := EventIn(After(c, first, before), first, turn);
            match turn.status
            case WaitError => ev.kind == Error
            case Stopped(pid, sig, forky) =>
              && ev.addr == turn.os.rip[pid] - 1
              && (if sig == 19 || sig == 31 || (sig == 5 && !forky) then ev.kind == BreakpointHit && ev.data == -1
                  else ev.kind == Signal && ev.data == if sig == 5 then 0 else sig)
            case Exited(pid, code) =>
              ev.kind == (if pid == first then ExitFirst else Exit) && ev.data == code && ev.addr == 0xFFFF_FFFF_FFFF_FFFF
            case Signaled(pid, sig) =>
              && ev.kind == (if Traced(c, turns, first) then Signal else SignalExit) && ev.data == sig
              && ev.addr == LastSignalPc(c.last, before)
  {
    ControlIs(c, first, turns);
    ControlIs(c, first, turns[..|turns| - 1]);
  }
}
