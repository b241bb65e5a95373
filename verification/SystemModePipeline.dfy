/** Record, run, report. */
module SystemModePipeline {
  // Addresses are recorded in a processed binary, tracers in the daemon turn breakpoints at them into indices of
  // the hit memory, and the report turns hit indices back.

  import opened Bytes
  import opened HitWords
  import opened HitProtocol
  import SystemModeFormat
  import SystemModeMemory
  import SystemModeFile

  // ----- the address tables -----

  /** m_indexByAddress after attach: a later entry for the same address replaces an earlier one. */
  function IndexByAddress(entries: seq<nat>): (m: map<nat, nat>)
    ensures forall a: nat :: a in m <==> a in entries
    ensures forall a: nat :: a in m ==> m[a] < |entries| && entries[m[a]] == a
    ensures forall a: nat, j: nat :: a in m && m[a] < j < |entries| ==> entries[j] != a
  {
    if entries == [] then map[]
    else IndexByAddress(entries[..|entries| - 1])[entries[|entries| - 1] := |entries| - 1]
  }

  /** The events of the first k bits of handleReadFile's loop. */
  function Replayed(addresses: seq<nat>, data: seq<Bits>, k: nat): (r: seq<nat>)
    requires forall i: nat :: IsHit(data, i) ==> i < |addresses|
  {
    if k == 0 then []
    else
      var before := Replayed(addresses, data, k - 1);
      if IsHit(data, k - 1) then before + [addresses[k - 1]] else before
  }

  lemma {:induction false} ReplayedContents(addresses: seq<nat>, data: seq<Bits>, k: nat)
    requires forall i: nat :: IsHit(data, i) ==> i < |addresses|
    ensures forall a: nat :: a in Replayed(addresses, data, k) <==>
              exists i: nat :: i < k && IsHit(data, i) && addresses[i] == a
  {
    if k > 0 {
      ReplayedContents(addresses, data, k - 1);
    }
  }

  /** These are the hit indices below k, in ascending order, and their addresses. */
  ghost predicate InOrder(addresses: seq<nat>, data: seq<Bits>, k: nat, indices: seq<nat>, replayed: seq<nat>) {
    && (forall i, j :: 0 <= i < j < |indices| ==> indices[i] < indices[j])
    && (forall i: nat :: i in indices <==> i < k && IsHit(data, i))
    && |replayed| == |indices|
    && forall j :: 0 <= j < |indices| ==> indices[j] < |addresses| && replayed[j] == addresses[indices[j]]
  }

  lemma OneMoreInOrder(addresses: seq<nat>, data: seq<Bits>, k: nat, indices: seq<nat>, replayed: seq<nat>)
    requires InOrder(addresses, data, k, indices, replayed) && (IsHit(data, k) ==> k < |addresses|)
    ensures if IsHit(data, k) then InOrder(addresses, data, k + 1, indices + [k], replayed + [addresses[k]])
            else InOrder(addresses, data, k + 1, indices, replayed)
  {
    assert forall j :: 0 <= j < |indices| ==> indices[j] in indices;
    assert forall i: nat :: i in indices + [k] <==> i in indices || i == k;
  }

  /** The report replays the addresses of the hit indices, each index once, in ascending order. */
  lemma {:induction false} ReplayedInOrder(addresses: seq<nat>, data: seq<Bits>, k: nat) returns (indices: seq<nat>)
    requires forall i: nat :: IsHit(data, i) ==> i < |addresses|
    ensures InOrder(addresses, data, k, indices, Replayed(addresses, data, k))
  {
    if k == 0 {
      indices := [];
    } else {
      indices := ReplayedInOrder(addresses, data, k - 1);
      OneMoreInOrder(addresses, data, k - 1, indices, Replayed(addresses, data, k - 1));
      if IsHit(data, k - 1) {
        indices := indices + [k - 1];
      }
    }
  }

  lemma HitsBelow(data: seq<Bits>, i: nat)
    requires IsHit(data, i)
    ensures i < 32 * |data|
  {
  }

  class SystemModeEngine {
    var indexToAddress: seq<nat>
    var breakpointIdx: nat

    constructor ()
      ensures indexToAddress == [] && breakpointIdx == 0
    {
      indexToAddress, breakpointIdx := [], 0;
    }

    method RegisterBreakpoint(addr: nat) returns (index: int)
      requires breakpointIdx == |indexToAddress|
      modifies this
      ensures indexToAddress == old(indexToAddress) + [addr] && breakpointIdx == |indexToAddress|
      ensures index == |old(indexToAddress)|
    {
      indexToAddress := indexToAddress + [addr];
      breakpointIdx := breakpointIdx + 1;
      index := breakpointIdx - 1;
    }

    /** The breakpoint events of handleReadFile. Nothing checks an index against the address list,
        so the results must come from the same list. */
    method HandleReadFile(results: SystemModeMemory.Memory) returns (events: seq<nat>)
      requires 32 * results.data.Length < U32
      requires forall i: nat :: IsHit(BitMap(results.data[..]), i) ==> i < |indexToAddress|
      ensures events == Replayed(indexToAddress, BitMap(results.data[..]), 32 * results.data.Length)
    {
      events := [];
      for i := 0 to results.data.Length * 32
        invariant events == Replayed(indexToAddress, BitMap(results.data[..]), i)
      {
        var hit := results.IndexIsHit(i);
        if hit {
          events := events + [indexToAddress[i]];
        }
      }
    }
  }

  class ProcessHandler {
    var indexByAddress: map<nat, nat>
    const output: SystemModeMemory.Memory

    constructor (output: SystemModeMemory.Memory)
      ensures this.output == output && indexByAddress == map[]
    {
      this.output := output;
      indexByAddress := map[];
    }

    /** The loop of attach over the entries of the processed file. */
    method Attach(entries: seq<nat>)
      requires indexByAddress == map[]
      modifies this
      ensures indexByAddress == IndexByAddress(entries)
    {
      for index := 0 to |entries|
        invariant indexByAddress == IndexByAddress(entries[..index])
      {
        assert entries[..index + 1][..index] == entries[..index];
        indexByAddress := indexByAddress[entries[index] := index];
      }
      assert entries[..|entries|] == entries;
    }

    /** A breakpoint elsewhere is none of our business. */
    method OnEvent(addr: nat)
      requires addr in indexByAddress ==> indexByAddress[addr] < U32
      modifies output`dirtyCount, output.data
      ensures addr in indexByAddress ==>
                var after := Reported(old(output.View()), 0, indexByAddress[addr]);
                BitMap(output.data[..]) == after.data && output.dirtyCount == after.dirty
      ensures addr !in indexByAddress ==>
                output.data[..] == old(output.data[..]) && output.dirtyCount == old(output.dirtyCount)
    {
      if addr in indexByAddress {
        output.ReportIndex(indexByAddress[addr]);
      }
    }
  }

  // ----- a whole run of the daemon -----

  /** What happens next: a traced process stops at an address, or a step of the protocol. */
  datatype Event = Breakpoint(pid: nat, addr: nat) | Proto(step: Step)

  /** A breakpoint starts reportIndex when its address was registered. */
  ghost function After(entries: seq<nat>, s: Shared, e: Event): Shared {
    match e
    case Breakpoint(pid, addr) =>
      var m := IndexByAddress(entries);
      if addr in m then Next(s, Call(pid, m[addr])) else s
    case Proto(step) => if step.Call? then s else Next(s, step)
  }

  ghost function Daemon(entries: seq<nat>, s: Shared, es: seq<Event>): Shared
    decreases |es|
  {
    if es == [] then s else Daemon(entries, After(entries, s, es[0]), es[1..])
  }

  /** A tracer takes no further breakpoint while it is inside reportIndex. */
  ghost predicate Paced(entries: seq<nat>, s: Shared, es: seq<Event>)
    decreases |es|
  {
    es != [] ==>
      && (es[0].Breakpoint? ==> Pc(s, es[0].pid).Idle?)
      && Paced(entries, After(entries, s, es[0]), es[1..])
  }

  /** The registered addresses at which a traced process stopped. */
  ghost function Hits(entries: seq<nat>, es: seq<Event>): set<nat> {
    set e | e in es && e.Breakpoint? && e.addr in entries :: e.addr
  }

  ghost function Indices(entries: seq<nat>, addrs: set<nat>): set<nat> {
    var m := IndexByAddress(entries);
    set a | a in addrs && a in m :: m[a]
  }

  lemma AfterKeepsLength(entries: seq<nat>, s: Shared, e: Event)
    ensures |After(entries, s, e).data| == |s.data|
  {
  }

  lemma NextReports(s: Shared, step: Step)
    ensures !step.Call? ==> Next(s, step).reported == s.reported
  {
  }

  lemma {:induction false} DaemonReports(entries: seq<nat>, s: Shared, es: seq<Event>)
    requires |s.data| == |entries| && Paced(entries, s, es)
    ensures Daemon(entries, s, es).reported == s.reported + Indices(entries, Hits(entries, es))
    decreases |es|
  {
    if es != [] {
      var t := After(entries, s, es[0]);
      AfterKeepsLength(entries, s, es[0]);
      DaemonReports(entries, t, es[1..]);
      assert es == [es[0]] + es[1..];
      if es[0].Breakpoint? && es[0].addr in entries {
        assert Hits(entries, es) == Hits(entries, es[1..]) + {es[0].addr};
        assert Indices(entries, Hits(entries, es)) ==
               Indices(entries, Hits(entries, es[1..])) + {IndexByAddress(entries)[es[0].addr]};
      } else {
        assert Hits(entries, es) == Hits(entries, es[1..]);
        assert t.reported == s.reported by {
          if es[0].Proto? { NextReports(s, es[0].step); }
        }
      }
    } else {
      assert Indices(entries, Hits(entries, es)) == {};
    }
  }

  lemma {:induction false} DaemonReachable(entries: seq<nat>, s: Shared, es: seq<Event>) returns (steps: seq<Step>)
    ensures Daemon(entries, s, es) == Run(s, steps)
    decreases |es|
  {
    if es == [] {
      steps := [];
    } else {
      var rest := DaemonReachable(entries, After(entries, s, es[0]), es[1..]);
      match es[0]
      case Breakpoint(pid, addr) =>
        if addr in IndexByAddress(entries) {
          RunCons(s, Call(pid, IndexByAddress(entries)[addr]), rest);
          steps := [Call(pid, IndexByAddress(entries)[addr])] + rest;
        } else {
          steps := rest;
        }
      case Proto(step) =>
        if step.Call? {
          steps := rest;
        } else {
          RunCons(s, step, rest);
          steps := [step] + rest;
        }
    }
  }

  /** Once the daemon is quiet and clean, reading the last file back replays exactly the registered
      addresses at which some traced process stopped, duplicates in the list notwithstanding. */
  lemma ReportReplaysTheHits(entries: seq<nat>, es: seq<Event>, s: Shared)
    requires Paced(entries, Init(|entries|), es) && s == Daemon(entries, Init(|entries|), es)
    requires Quiet(s) && s.dirty == s.clean && s.adds - s.cleanAt < COUNTER
    ensures forall i: nat :: IsHit(s.file, i) ==> i < |entries|
    ensures forall a: nat :: a in Replayed(entries, s.file, 32 * |s.file|) <==> a in Hits(entries, es)
  {
    var steps := DaemonReachable(entries, Init(|entries|), es);
    QuietCleanFileIsExact(|entries|, s);
    DaemonReports(entries, Init(|entries|), es);
    var m := IndexByAddress(entries);
    assert forall i: nat :: IsHit(s.file, i) <==> i in Indices(entries, Hits(entries, es));
    ReplayedContents(entries, s.file, 32 * |s.file|);
    forall a: nat | a in Hits(entries, es)
      ensures a in Replayed(entries, s.file, 32 * |s.file|)
    {
      assert m[a] in Indices(entries, Hits(entries, es));
      HitsBelow(s.file, m[a]);
    }
  }

  /** The three programs together: the list written into the processed binary m is the list the
      daemon attaches with, and the image its output thread wrote is what the report reads. */
  lemma RecordRunReport(little: bool, m: seq<byte>, binary: seq<byte>, recorded: SystemModeFile.Contents,
                        es: seq<Event>, s: Shared, words: seq<bv32>)
    requires SystemModeFile.Valid(recorded) && |recorded.entries| < U16
    requires SystemModeFile.IsProcessed(little, m, binary, recorded)
    requires Paced(recorded.entries, Init(|recorded.entries|), es)
    requires s == Daemon(recorded.entries, Init(|recorded.entries|), es)
    requires Quiet(s) && s.dirty == s.clean && s.adds - s.cleanAt < COUNTER
    requires s.file == BitMap(words)
    requires SystemModeFormat.FileSize(|words|, recorded.filename, recorded.options) < U32
    ensures SystemModeFile.Readable(little, m) && SystemModeFile.Parsed(little, m) == SystemModeFile.Some(recorded)
    ensures var image := SystemModeFormat.FileBytes(little, recorded.filename, recorded.options, SystemModeMemory.Values(words));
            && SystemModeFormat.Accepted(little, image)
            && SystemModeMemory.LoadWords(little, image, |words|) == words
    ensures forall i: nat :: IsHit(BitMap(words), i) ==> i < |recorded.entries|
    ensures forall a: nat :: a in Replayed(recorded.entries, BitMap(words), 32 * |words|) <==> a in Hits(recorded.entries, es)
  {
    SystemModeFile.AllSurvivesIff(little, m, binary, recorded);
    SystemModeMemory.MemoryRoundTrip(little, recorded.filename, recorded.options, words);
    ReportReplaysTheHits(recorded.entries, es, s);
  }
}
