/** Instructions and basic blocks. */
module Disassembler {
  // Which addresses are instructions is decided on demand, one section at a time. The decoder itself is a function
  // of the section and the offset.

  /** What decoding tells: the length, negative on failure, and the branch target or BT_INVALID. */
  datatype Insn = Insn(count: int, target: nat)

  type Decoder = (nat, nat) -> Insn

  const BT_INVALID: nat := 0xfffffffffffffffe

  datatype Section = Section(size: nat, done: bool)

  const NO_BLOCK: int := -1

  /** A decoded instruction; block is its place among the basic blocks. */
  datatype Instruction = Instruction(target: nat, leader: bool, block: int)

  // ----- ordered keys, as std::map walks them -----

  ghost predicate Ascending(s: seq<nat>) {
    forall i, j :: 0 <= i < j < |s| ==> s[i] < s[j]
  }

  /** How many keys lie below a: the place of a. */
  function Below(s: seq<nat>, a: nat): (i: nat)
    ensures i <= |s|
    ensures forall j :: 0 <= j < i ==> s[j] < a
    ensures i < |s| ==> a <= s[i]
  {
    if s == [] || a <= s[0] then 0 else 1 + Below(s[1..], a)
  }

  function Inserted(s: seq<nat>, a: nat): seq<nat> {
    if a in s then s else s[..Below(s, a)] + [a] + s[Below(s, a)..]
  }

  lemma InsertedElements(s: seq<nat>, a: nat, x: nat)
    ensures x in Inserted(s, a) <==> x in s || x == a
  {
    assert s == s[..Below(s, a)] + s[Below(s, a)..];
  }

  lemma Between(l: seq<nat>, a: nat, r: seq<nat>)
    requires Ascending(l) && Ascending(r)
    requires (forall i :: 0 <= i < |l| ==> l[i] < a) && (forall i :: 0 <= i < |r| ==> a < r[i])
    ensures Ascending(l + [a] + r)
  {
  }

  lemma InsertAscends(s: seq<nat>, a: nat)
    requires Ascending(s)
    ensures Ascending(Inserted(s, a))
  {
    if a !in s {
      var i := Below(s, a);
      assert i < |s| ==> a < s[i];
      Between(s[..i], a, s[i..]);
    }
  }

  lemma InsertKeeps(s: seq<nat>, a: nat)
    requires Ascending(s)
    ensures Ascending(Inserted(s, a))
    ensures forall x :: x in Inserted(s, a) <==> x in s || x == a
  {
    InsertAscends(s, a);
    forall x ensures x in Inserted(s, a) <==> x in s || x == a {
      InsertedElements(s, a, x);
    }
  }

  // ----- the sweep of one section -----

  /** The eager linear sweep: where it stops from offset pc on, as addresses. */
  function Sweep(decode: Decoder, base: nat, size: nat, pc: nat): seq<nat>
    decreases size - pc
  {
    var count := decode(base, pc).count;
    if count < 0 then []
    else if count == 0 || pc + count >= size then [base + pc]
    else [base + pc] + Sweep(decode, base, size, pc + count)
  }

  lemma {:induction false} SweepInside(decode: Decoder, base: nat, size: nat, pc: nat)
    requires pc < size
    ensures forall a :: a in Sweep(decode, base, size, pc) ==> base + pc <= a < base + size
    decreases size - pc
  {
    var count := decode(base, pc).count;
    if count > 0 && pc + count < size {
      SweepInside(decode, base, size, pc + count);
    }
  }

  /** Offsets from the start of the section on, each one instruction after the one before, inside the section. */
  ghost predicate Follow(decode: Decoder, base: nat, size: nat, path: seq<nat>) {
    && path != [] && path[0] == 0
    && forall i :: 0 <= i < |path| - 1 ==> path[i] < path[i + 1] == path[i] + decode(base, path[i]).count < size
  }

  ghost predicate Ends(decode: Decoder, base: nat, path: seq<nat>, a: nat) {
    path != [] && a == base + path[|path| - 1] && decode(base, path[|path| - 1]).count >= 0
  }

  lemma {:induction false} StopFollows(decode: Decoder, base: nat, size: nat, path: seq<nat>, pc: nat, a: nat)
    requires Follow(decode, base, size, path) && path[|path| - 1] == pc && a in Sweep(decode, base, size, pc)
    ensures exists p :: Follow(decode, base, size, p) && Ends(decode, base, p, a)
    decreases size - pc
  {
    var count := decode(base, pc).count;
    if a == base + pc {
      assert Ends(decode, base, path, a);
    } else {
      assert count > 0 && a in Sweep(decode, base, size, pc + count);
      StopFollows(decode, base, size, path + [pc + count], pc + count, a);
    }
  }

  lemma {:induction false} FollowStops(decode: Decoder, base: nat, size: nat, path: seq<nat>, k: nat, a: nat)
    requires Follow(decode, base, size, path) && k < |path| && a in Sweep(decode, base, size, path[k])
    ensures a in Sweep(decode, base, size, 0)
  {
    if k > 0 {
      assert Sweep(decode, base, size, path[k - 1]) == [base + path[k - 1]] + Sweep(decode, base, size, path[k]);
      FollowStops(decode, base, size, path, k - 1, a);
    }
  }

  /** The stops of a section, told without the sweep: where such a path ends, if the decoder knows what is there. */
  lemma StopsAre(decode: Decoder, base: nat, size: nat, a: nat)
    ensures a in Sweep(decode, base, size, 0) <==>
            exists path :: Follow(decode, base, size, path) && Ends(decode, base, path, a)
  {
    if a in Sweep(decode, base, size, 0) {
      StopFollows(decode, base, size, [0], 0, a);
    }
    if path :| Follow(decode, base, size, path) && Ends(decode, base, path, a) {
      FollowStops(decode, base, size, path, |path| - 1, a);
    }
  }

  predicate Contains(cache: map<nat, Section>, base: nat, a: nat) {
    base in cache && base <= a < base + cache[base].size
  }

  /** Sections that do not overlap, none empty. */
  ghost predicate Disjoint(cache: map<nat, Section>) {
    && (forall b :: b in cache ==> cache[b].size > 0)
    && (forall b, c :: b in cache && c in cache && b < c ==> b + cache[b].size <= c)
  }

  ghost predicate InSweep(decode: Decoder, cache: map<nat, Section>, base: nat, a: nat) {
    base in cache && a in Sweep(decode, base, cache[base].size, 0)
  }

  /** What verify answers: an address outside every section passes, inside one it must be a stop of
      that section's sweep. */
  ghost predicate Answer(decode: Decoder, cache: map<nat, Section>, a: nat) {
    forall b :: Contains(cache, b, a) ==> InSweep(decode, cache, b, a)
  }

  /** a is a stop of some section's sweep: an instruction. */
  ghost predicate IsStop(decode: Decoder, cache: map<nat, Section>, a: nat) {
    exists b :: InSweep(decode, cache, b, a)
  }

  /** The branch target the decoder gives for an address, in the section it is in. */
  ghost function TargetAt(decode: Decoder, cache: map<nat, Section>, a: nat): nat {
    if exists b: nat :: Contains(cache, b, a) then
      var b: nat :| Contains(cache, b, a);
      decode(b, a - b).target
    else BT_INVALID
  }

  // ----- basic blocks -----

  /** A leader: the first instruction, the one after a branch, or the target of one. The branch of the
      last instruction counts for neither. */
  ghost predicate Leads(order: seq<nat>, target: nat -> nat, a: nat) {
    || (order != [] && a == order[0])
    || exists i :: 0 <= i < |order| - 1 && target(order[i]) != BT_INVALID && (a == order[i + 1] || a == target(order[i]))
  }

  function Joined(blocks: seq<seq<nat>>): seq<nat> {
    if blocks == [] then [] else Joined(blocks[..|blocks| - 1]) + blocks[|blocks| - 1]
  }

  /** Consecutive runs of the order, each with its only leader in front. */
  ghost predicate AreBlocks(blocks: seq<seq<nat>>, order: seq<nat>, leads: nat -> bool) {
    && Joined(blocks) == order
    && (forall k :: 0 <= k < |blocks| ==> blocks[k] != [] && leads(blocks[k][0]))
    && (forall k, j :: 0 <= k < |blocks| && 0 < j < |blocks[k]| ==> !leads(blocks[k][j]))
  }

  /** Blocks made instruction by instruction: a leader starts one ... */
  lemma BlockStarts(blocks: seq<seq<nat>>, order: seq<nat>, leads: nat -> bool, a: nat)
    requires AreBlocks(blocks, order, leads) && leads(a)
    ensures AreBlocks(blocks + [[a]], order + [a], leads)
  {
    assert (blocks + [[a]])[..|blocks|] == blocks;
  }

  /** ... and anything else joins the last. */
  lemma BlockGrows(blocks: seq<seq<nat>>, order: seq<nat>, leads: nat -> bool, a: nat)
    requires AreBlocks(blocks, order, leads) && !leads(a) && blocks != []
    ensures AreBlocks(blocks[|blocks| - 1 := blocks[|blocks| - 1] + [a]], order + [a], leads)
  {
    var last := |blocks| - 1;
    var more := blocks[last := blocks[last] + [a]];
    assert more[..last] == blocks[..last];
    assert Joined(more) == Joined(blocks[..last]) + (blocks[last] + [a]) == Joined(blocks) + [a];
  }

  /** The leaders by the decoder's own branch targets. */
  ghost function Leaders(decode: Decoder, cache: map<nat, Section>, order: seq<nat>): nat -> bool {
    (a: nat) => Leads(order, TargetIn(decode, cache), a)
  }

  ghost function TargetIn(decode: Decoder, cache: map<nat, Section>): nat -> nat {
    (a: nat) => TargetAt(decode, cache, a)
  }

  /** order holds all instructions of all sections. */
  ghost predicate Lists(decode: Decoder, cache: map<nat, Section>, order: seq<nat>) {
    Ascending(order) && forall a :: a in order <==> IsStop(decode, cache, a)
  }

  ghost predicate BranchesTo(decode: Decoder, cache: map<nat, Section>, x: nat, a: nat) {
    IsStop(decode, cache, x) && TargetAt(decode, cache, x) != BT_INVALID && TargetAt(decode, cache, x) == a
  }

  /** Some branch goes to a, other than one from the last instruction. */
  ghost predicate BranchedTo(decode: Decoder, cache: map<nat, Section>, a: nat) {
    exists x, y :: BranchesTo(decode, cache, x, a) && IsStop(decode, cache, y) && x < y
  }

  ghost predicate OnlyStop(decode: Decoder, cache: map<nat, Section>, a: nat) {
    IsStop(decode, cache, a) && forall x :: IsStop(decode, cache, x) ==> x == a
  }

  // ----- what is known of the instructions -----

  /** a is a stop of a section disassembled so far. */
  ghost predicate Swept(decode: Decoder, cache: map<nat, Section>, a: nat) {
    exists b :: InSweep(decode, cache, b, a) && cache[b].done
  }

  /** Both maps hold the same instructions, none yet in a block. */
  ghost predicate IndexOk(instructions: map<nat, Instruction>, order: seq<nat>) {
    && Ascending(order) && (forall a :: a in order <==> a in instructions)
    && (forall a :: a in instructions ==> !instructions[a].leader && instructions[a].block == NO_BLOCK)
  }

  lemma Recorded(instructions: map<nat, Instruction>, order: seq<nat>, a: nat, target: nat)
    requires IndexOk(instructions, order)
    ensures IndexOk(instructions[a := Instruction(target, false, NO_BLOCK)], Inserted(order, a))
  {
    InsertKeeps(order, a);
  }

  /** What is recorded of an instruction is the target the decoder gave in its section. */
  ghost predicate TargetsOk(decode: Decoder, cache: map<nat, Section>, instructions: map<nat, Instruction>) {
    forall a, b: nat :: a in instructions && Contains(cache, b, a) ==> instructions[a].target == decode(b, a - b).target
  }

  lemma TargetRecorded(decode: Decoder, cache: map<nat, Section>, instructions: map<nat, Instruction>, base: nat, pc: nat)
    requires Disjoint(cache) && base in cache && pc < cache[base].size && TargetsOk(decode, cache, instructions)
    ensures TargetsOk(decode, cache, instructions[base + pc := Instruction(decode(base, pc).target, false, NO_BLOCK)])
  {
    var a := base + pc;
    assert Contains(cache, base, a);
    forall b | Contains(cache, b, a) ensures b == base {
    }
  }

  ghost predicate HoldsAlso(now: map<nat, Instruction>, start: map<nat, Instruction>, recorded: seq<nat>) {
    forall a :: a in now <==> a in start || a in recorded
  }

  lemma AlsoRecorded(now: map<nat, Instruction>, start: map<nat, Instruction>, recorded: seq<nat>, a: nat, i: Instruction)
    requires HoldsAlso(now, start, recorded)
    ensures HoldsAlso(now[a := i], start, recorded + [a])
  {
  }

  /** The whole sweep is what is recorded and, if it goes on, the sweep from pc. */
  ghost predicate Remains(decode: Decoder, base: nat, size: nat, recorded: seq<nat>, pc: nat, more: bool) {
    Sweep(decode, base, size, 0) == recorded + if more then Sweep(decode, base, size, pc) else []
  }

  lemma SweepStep(decode: Decoder, base: nat, size: nat, pc: nat, recorded: seq<nat>)
    requires Remains(decode, base, size, recorded, pc, true)
    ensures var count := decode(base, pc).count;
            if count < 0 then Remains(decode, base, size, recorded, pc, false)
            else Remains(decode, base, size, recorded + [base + pc], pc + count, count > 0 && pc + count < size)
  {
    var count := decode(base, pc).count;
    if count < 0 {
      assert recorded + Sweep(decode, base, size, pc) == recorded + [];
    } else if count > 0 && pc + count < size {
      assert recorded + Sweep(decode, base, size, pc) == recorded + [base + pc] + Sweep(decode, base, size, pc + count);
    } else {
      assert recorded + Sweep(decode, base, size, pc) == recorded + [base + pc] + [];
    }
  }

  lemma SweptMore(decode: Decoder, cache: map<nat, Section>, base: nat, a: nat)
    requires base in cache && !cache[base].done
    ensures Swept(decode, cache[base := Section(cache[base].size, true)], a)
            <==> Swept(decode, cache, a) || a in Sweep(decode, base, cache[base].size, 0)
  {
    var after := cache[base := Section(cache[base].size, true)];
    if Swept(decode, cache, a) {
      var b :| InSweep(decode, cache, b, a) && cache[b].done;
      assert InSweep(decode, after, b, a) && after[b].done;
    }
    if Swept(decode, after, a) {
      var b :| InSweep(decode, after, b, a) && after[b].done;
      assert b != base ==> InSweep(decode, cache, b, a) && cache[b].done;
    }
    if a in Sweep(decode, base, cache[base].size, 0) {
      assert InSweep(decode, after, base, a);
    }
  }

  lemma SweptSame(decode: Decoder, cache: map<nat, Section>, base: nat, size: nat, a: nat)
    requires base !in cache
    ensures Swept(decode, cache[base := Section(size, false)], a) <==> Swept(decode, cache, a)
  {
    var after := cache[base := Section(size, false)];
    if Swept(decode, cache, a) {
      var b :| InSweep(decode, cache, b, a) && cache[b].done;
      assert InSweep(decode, after, b, a) && after[b].done;
    }
    if Swept(decode, after, a) {
      var b :| InSweep(decode, after, b, a) && after[b].done;
      assert InSweep(decode, cache, b, a) && cache[b].done;
    }
  }

  /** An address of one section is no stop of another's sweep. */
  lemma OnlyOne(decode: Decoder, cache: map<nat, Section>, a: nat, p: nat)
    requires Disjoint(cache) && Contains(cache, p, a) && cache[p].done
    ensures Swept(decode, cache, a) <==> Answer(decode, cache, a)
  {
    forall b | Contains(cache, b, a) ensures b == p {
    }
    if Swept(decode, cache, a) {
      var b :| InSweep(decode, cache, b, a) && cache[b].done;
      SweepInside(decode, b, cache[b].size, 0);
      assert Contains(cache, b, a);
    }
    if Answer(decode, cache, a) {
      assert InSweep(decode, cache, p, a);
    }
  }

  /** Instructions of disassembled sections keep their targets when another section is added. */
  lemma TargetsStay(decode: Decoder, cache: map<nat, Section>, instructions: map<nat, Instruction>, base: nat, size: nat)
    requires base !in cache && Disjoint(cache) && Disjoint(cache[base := Section(size, false)])
    requires TargetsOk(decode, cache, instructions) && forall a :: a in instructions ==> Swept(decode, cache, a)
    ensures TargetsOk(decode, cache[base := Section(size, false)], instructions)
  {
    var after := cache[base := Section(size, false)];
    forall a, b: nat | a in instructions && Contains(after, b, a)
      ensures instructions[a].target == decode(b, a - b).target
    {
      var c :| InSweep(decode, cache, c, a) && cache[c].done;
      SweepInside(decode, c, cache[c].size, 0);
      assert Contains(cache, c, a) && Contains(after, c, a);
      assert b == c;
    }
  }

  lemma SameTargets(decode: Decoder, cache: map<nat, Section>, base: nat, instructions: map<nat, Instruction>)
    requires base in cache && TargetsOk(decode, cache, instructions)
    ensures TargetsOk(decode, cache[base := Section(cache[base].size, true)], instructions)
  {
    var after := cache[base := Section(cache[base].size, true)];
    forall a, b: nat ensures Contains(after, b, a) <==> Contains(cache, b, a) {
    }
  }

  /** With every section disassembled, what is recorded is what TargetAt says. */
  lemma TargetsAgree(decode: Decoder, cache: map<nat, Section>, instructions: map<nat, Instruction>, a: nat)
    requires Disjoint(cache) && TargetsOk(decode, cache, instructions) && a in instructions && IsStop(decode, cache, a)
    ensures instructions[a].target == TargetAt(decode, cache, a)
  {
    var c :| InSweep(decode, cache, c, a);
    SweepInside(decode, c, cache[c].size, 0);
    assert Contains(cache, c, a);
  }

  lemma AllDone(decode: Decoder, cache: map<nat, Section>, a: nat)
    requires forall b :: b in cache ==> cache[b].done
    ensures Swept(decode, cache, a) <==> IsStop(decode, cache, a)
  {
  }

  /** Which sections are disassembled makes no difference to what there is. */
  lemma SameStops(decode: Decoder, cache: map<nat, Section>, after: map<nat, Section>)
    requires after.Keys == cache.Keys && forall b :: b in cache ==> after[b].size == cache[b].size
    ensures forall a :: IsStop(decode, after, a) <==> IsStop(decode, cache, a)
    ensures Disjoint(cache) ==> forall a :: TargetAt(decode, after, a) == TargetAt(decode, cache, a)
  {
    forall a ensures IsStop(decode, after, a) <==> IsStop(decode, cache, a) {
      forall b ensures InSweep(decode, after, b, a) <==> InSweep(decode, cache, b, a) {
      }
    }
    forall a, b: nat ensures Contains(after, b, a) <==> Contains(cache, b, a) {
    }
    if Disjoint(cache) {
      forall a ensures TargetAt(decode, after, a) == TargetAt(decode, cache, a) {
        forall b: nat, c: nat | Contains(cache, b, a) && Contains(cache, c, a) ensures b == c {
        }
      }
    }
  }

  // ----- leaders and blocks -----

  /** makeLeader on a map entry, which is created if it is not there. */
  function MadeLeader(instructions: map<nat, Instruction>, a: nat): map<nat, Instruction> {
    if a in instructions then instructions[a := instructions[a].(leader := true)]
    else instructions[a := Instruction(0, true, NO_BLOCK)]
  }

  ghost function TargetOf(instructions: map<nat, Instruction>): nat -> nat {
    a => if a in instructions then instructions[a].target else BT_INVALID
  }

  /** Leaders found from the first i instructions. */
  ghost predicate LeadsUpTo(order: seq<nat>, target: nat -> nat, a: nat, i: nat) {
    || (order != [] && a == order[0])
    || exists j :: 0 <= j < i && j < |order| - 1 && target(order[j]) != BT_INVALID && (a == order[j + 1] || a == target(order[j]))
  }

  lemma LeadsStep(order: seq<nat>, target: nat -> nat, a: nat, i: nat)
    requires i < |order| - 1
    ensures LeadsUpTo(order, target, a, i + 1)
            <==> LeadsUpTo(order, target, a, i) || (target(order[i]) != BT_INVALID && (a == order[i + 1] || a == target(order[i])))
  {
  }

  predicate Flag(now: map<nat, Instruction>, a: nat) {
    a in now && now[a].leader
  }

  lemma LeaderMade(now: map<nat, Instruction>, t: nat)
    ensures var next := MadeLeader(now, t);
            && (forall a :: Flag(next, a) <==> Flag(now, a) || a == t)
            && (forall a :: a in now ==> a in next && next[a].target == now[a].target && next[a].block == now[a].block)
            && (forall a :: a in next && a !in now ==> next[a].block == NO_BLOCK)
  {
  }

  /** The code of the decoded instructions is as it was, and none is in a block. */
  ghost predicate CodeKept(now: map<nat, Instruction>, start: map<nat, Instruction>) {
    && (forall a :: a in start ==> a in now && now[a].target == start[a].target)
    && (forall a :: a in now ==> now[a].block == NO_BLOCK && (a in start || now[a].leader))
  }

  lemma CodeStays(now: map<nat, Instruction>, start: map<nat, Instruction>, t: nat)
    requires CodeKept(now, start)
    ensures CodeKept(MadeLeader(now, t), start)
  {
    LeaderMade(now, t);
  }

  /** The flags after i instructions. */
  ghost predicate FlagsOk(now: map<nat, Instruction>, target: nat -> nat, order: seq<nat>, i: nat) {
    forall a: nat :: Flag(now, a) <==> LeadsUpTo(order, target, a, i)
  }

  lemma FlagsStep(now: map<nat, Instruction>, next: map<nat, Instruction>, target: nat -> nat, order: seq<nat>, i: nat)
    requires FlagsOk(now, target, order, i) && i < |order| - 1
    requires var t := target(order[i]);
             next == if t != BT_INVALID then MadeLeader(MadeLeader(now, t), order[i + 1]) else now
    ensures FlagsOk(next, target, order, i + 1)
  {
    var t := target(order[i]);
    LeaderMade(now, t);
    LeaderMade(MadeLeader(now, t), order[i + 1]);
    forall a: nat ensures Flag(next, a) <==> LeadsUpTo(order, target, a, i + 1) {
      LeadsStep(order, target, a, i);
    }
  }

  ghost function LeadsIn(start: map<nat, Instruction>, order: seq<nat>): nat -> bool {
    (a: nat) => Leads(order, TargetOf(start), a)
  }

  /** The flags of the decoded instructions say which of them lead. */
  ghost predicate Marked(now: map<nat, Instruction>, order: seq<nat>, leads: nat -> bool) {
    forall j :: 0 <= j < |order| ==> order[j] in now && now[order[j]].leader == leads(order[j])
  }

  lemma FinalFlags(now: map<nat, Instruction>, start: map<nat, Instruction>, order: seq<nat>)
    requires order != [] && FlagsOk(now, TargetOf(start), order, |order| - 1) && CodeKept(now, start)
    requires forall a :: a in order ==> a in start
    ensures Marked(now, order, LeadsIn(start, order))
  {
    forall j | 0 <= j < |order| ensures order[j] in now && now[order[j]].leader == LeadsIn(start, order)(order[j]) {
      assert order[j] in order;
      LeadsAtTheEnd(order, TargetOf(start), order[j]);
      assert Flag(now, order[j]) <==> LeadsUpTo(order, TargetOf(start), order[j], |order| - 1);
    }
  }

  lemma SameLeaders(order: seq<nat>, target: nat -> nat, other: nat -> nat, a: nat)
    requires forall i :: 0 <= i < |order| ==> target(order[i]) == other(order[i])
    ensures Leads(order, target, a) <==> Leads(order, other, a)
  {
  }

  /** A leader that is no instruction is a target; and targets lead. */
  lemma OutsideLeaders(decode: Decoder, cache: map<nat, Section>, order: seq<nat>, a: nat)
    requires Lists(decode, cache, order)
    ensures Leads(order, TargetIn(decode, cache), a) && a !in order ==> BranchedTo(decode, cache, a)
    ensures BranchedTo(decode, cache, a) ==> Leads(order, TargetIn(decode, cache), a)
  {
    if Leads(order, TargetIn(decode, cache), a) && a !in order {
      LeadsByBranch(decode, cache, order, a);
    }
    if BranchedTo(decode, cache, a) {
      var x, y :| BranchesTo(decode, cache, x, a) && IsStop(decode, cache, y) && x < y;
      var i :| 0 <= i < |order| && order[i] == x;
      var j :| 0 <= j < |order| && order[j] == y;
      assert i < |order| - 1;
    }
  }

  lemma LeadsByBranch(decode: Decoder, cache: map<nat, Section>, order: seq<nat>, a: nat)
    requires Lists(decode, cache, order) && Leads(order, TargetIn(decode, cache), a) && a !in order
    ensures BranchedTo(decode, cache, a)
  {
    var i :| 0 <= i < |order| - 1 && TargetIn(decode, cache)(order[i]) != BT_INVALID
             && (a == order[i + 1] || a == TargetIn(decode, cache)(order[i]));
    assert order[i] in order && order[i + 1] in order;
    assert BranchesTo(decode, cache, order[i], a);
    assert IsStop(decode, cache, order[i + 1]);
  }

  /** The entries are the instructions, and the targets of branches from any but the last of them. */
  lemma EntriesAre(decode: Decoder, cache: map<nat, Section>, order: seq<nat>, now: map<nat, Instruction>, a: nat)
    requires Lists(decode, cache, order) && (a in order ==> a in now)
    requires a in now && a !in order ==> Leads(order, TargetIn(decode, cache), a)
    requires Leads(order, TargetIn(decode, cache), a) ==> a in now
    ensures a in now <==> a in order || BranchedTo(decode, cache, a)
  {
    OutsideLeaders(decode, cache, order, a);
  }

  lemma LeadsAtTheEnd(order: seq<nat>, target: nat -> nat, a: nat)
    requires order != []
    ensures LeadsUpTo(order, target, a, |order| - 1) <==> Leads(order, target, a)
  {
  }

  /** Every instruction placed so far is in the block it points to; block 0 is the null pointer. */
  ghost predicate PlacedOk(now: map<nat, Instruction>, order: seq<nat>, bbs: seq<seq<nat>>, i: nat) {
    i <= |order| && forall j :: 0 <= j < i ==>
      order[j] in now && 1 <= now[order[j]].block < |bbs| && order[j] in bbs[now[order[j]].block]
  }

  ghost predicate OthersKept(was: map<nat, Instruction>, now: map<nat, Instruction>, order: seq<nat>) {
    now.Keys == was.Keys && forall a :: a in was && a !in order ==> now[a] == was[a]
  }

  ghost predicate BlocksOk(bbs: seq<seq<nat>>, order: seq<nat>, leads: nat -> bool) {
    bbs != [] && bbs[0] == [] && AreBlocks(bbs[1..], order, leads) && (order != [] ==> |bbs| > 1)
  }

  lemma BlocksStep(bbs: seq<seq<nat>>, order: seq<nat>, leads: nat -> bool, a: nat)
    requires BlocksOk(bbs, order, leads) && (leads(a) || order != [])
    ensures var next := if leads(a) then bbs + [[a]] else bbs[|bbs| - 1 := bbs[|bbs| - 1] + [a]];
            BlocksOk(next, order + [a], leads)
  {
    if leads(a) {
      BlockStarts(bbs[1..], order, leads, a);
      assert (bbs + [[a]])[1..] == bbs[1..] + [[a]];
    } else {
      var last := |bbs| - 1;
      BlockGrows(bbs[1..], order, leads, a);
      assert bbs[last := bbs[last] + [a]][1..] == bbs[1..][last - 1 := bbs[1..][last - 1] + [a]];
    }
  }

  /** The flags by other targets that agree on the instructions. */
  lemma FlagsBy(now: map<nat, Instruction>, start: map<nat, Instruction>, order: seq<nat>, target: nat -> nat)
    requires order != [] && FlagsOk(now, TargetOf(start), order, |order| - 1) && CodeKept(now, start)
    requires forall a :: a in order <==> a in start
    requires forall i :: 0 <= i < |order| ==> TargetOf(start)(order[i]) == target(order[i])
    ensures Marked(now, order, (a: nat) => Leads(order, target, a))
    ensures forall x :: x in order ==> x in now
    ensures forall x :: x in now && x !in order ==> Leads(order, target, x)
    ensures forall x :: Leads(order, target, x) ==> x in now
  {
    FinalFlags(now, start, order);
    forall a: nat ensures Flag(now, a) <==> Leads(order, target, a) {
      LeadsAtTheEnd(order, TargetOf(start), a);
      SameLeaders(order, TargetOf(start), target, a);
    }
  }

  /** The crash condition by the number of instructions. */
  lemma FewStops(decode: Decoder, cache: map<nat, Section>, order: seq<nat>, a: nat)
    requires Lists(decode, cache, order)
    ensures OnlyStop(decode, cache, a) <==> a in order && |order| == 1
    ensures |order| < 2 ==> !BranchedTo(decode, cache, a)
  {
    if |order| >= 2 {
      assert order[0] in order && order[1] in order;
    }
    if BranchedTo(decode, cache, a) {
      var x, y :| BranchesTo(decode, cache, x, a) && IsStop(decode, cache, y) && x < y;
      assert x in order && y in order;
    }
  }

  lemma SameBranches(decode: Decoder, cache: map<nat, Section>, after: map<nat, Section>, a: nat)
    requires forall x :: IsStop(decode, after, x) <==> IsStop(decode, cache, x)
    requires forall x :: TargetAt(decode, after, x) == TargetAt(decode, cache, x)
    ensures BranchedTo(decode, after, a) <==> BranchedTo(decode, cache, a)
    ensures OnlyStop(decode, after, a) <==> OnlyStop(decode, cache, a)
  {
    forall x ensures BranchesTo(decode, after, x, a) <==> BranchesTo(decode, cache, x, a) {
    }
  }

  // ----- the object -----

  class BfdDisassembler {
    const decode: Decoder
    var bases: seq<nat>
    var cache: map<nat, Section>
    var instructions: map<nat, Instruction>
    var order: seq<nat>
    var bbs: seq<seq<nat>>

    /** The state as verify keeps it, before any basic block is made. */
    ghost predicate Valid()
      reads this
    {
      && Ascending(bases) && (forall b :: b in bases <==> b in cache) && Disjoint(cache)
      && IndexOk(instructions, order) && bbs == [] && TargetsOk(decode, cache, instructions)
      && (forall a :: a in instructions <==> Swept(decode, cache, a))
    }

    constructor (d: Decoder)
      ensures decode == d && Valid() && cache == map[]
    {
      decode := d;
      bases, cache, instructions, order, bbs := [], map[], map[], [], [];
    }

    method AddSection(size: nat, base: nat)
      requires Valid() && Disjoint(cache[base := Section(size, false)])
      modifies this`bases, this`cache
      ensures Valid() && cache == if base in old(cache) then old(cache) else old(cache)[base := Section(size, false)]
    {
      if base in cache {
        return;
      }
      InsertKeeps(bases, base);
      forall a ensures Swept(decode, cache[base := Section(size, false)], a) <==> Swept(decode, cache, a) {
        SweptSame(decode, cache, base, size, a);
      }
      TargetsStay(decode, cache, instructions, base, size);
      bases := Inserted(bases, base);
      cache := cache[base := Section(size, false)];
    }

    /** std::map::lower_bound, then one section back. The address must not lie below the first section. */
    method LookupSection(address: nat) returns (found: bool, base: nat)
      requires Valid() && bases != [] && bases[0] <= address
      ensures found ==> Contains(cache, base, address)
      ensures !found ==> forall b: nat :: !Contains(cache, b, address)
    {
      var it := Below(bases, address);
      if it < |bases| && bases[it] == address {
        assert bases[it] in bases;
        return true, address;
      }
      base := bases[it - 1];
      assert base in bases;
      forall b: nat | Contains(cache, b, address) ensures b == base {
        assert b in bases;
      }
      var end := base + cache[base].size - 1;
      found := address <= end;
    }

    /** Section::disassemble. */
    method Disassemble(base: nat)
      requires Valid() && base in cache
      modifies this`cache, this`instructions, this`order
      ensures Valid() && cache == old(cache)[base := Section(old(cache)[base].size, true)]
    {
      if cache[base].done {
        return;
      }
      forall a ensures Swept(decode, cache[base := Section(cache[base].size, true)], a)
                       <==> Swept(decode, cache, a) || a in Sweep(decode, base, cache[base].size, 0)
      {
        SweptMore(decode, cache, base, a);
      }
      SweepSection(base, cache[base].size);
      SameTargets(decode, cache, base, instructions);
      cache := cache[base := Section(cache[base].size, true)];
    }

    /** The do-while loop over the decoder. */
    method SweepSection(base: nat, size: nat)
      requires IndexOk(instructions, order) && TargetsOk(decode, cache, instructions)
      requires Disjoint(cache) && base in cache && cache[base].size == size
      modifies this`instructions, this`order
      ensures IndexOk(instructions, order) && TargetsOk(decode, cache, instructions)
      ensures HoldsAlso(instructions, old(instructions), Sweep(decode, base, size, 0))
    {
      ghost var start := instructions;
      ghost var recorded: seq<nat> := [];
      var pc: nat := 0;
      var more := true;
      while more
        invariant IndexOk(instructions, order) && HoldsAlso(instructions, start, recorded)
        invariant TargetsOk(decode, cache, instructions)
        invariant Remains(decode, base, size, recorded, pc, more) && (more ==> pc < size)
        decreases if more then size - pc + 1 else 0
      {
        SweepStep(decode, base, size, pc, recorded);
        var count := DecodeOne(base, pc, start, recorded);
        if count < 0 {
          more := false;
        } else {
          recorded := recorded + [base + pc];
          pc := pc + count;
          more := count > 0 && pc < size;
        }
      }
    }

    method DecodeOne(base: nat, pc: nat, ghost start: map<nat, Instruction>, ghost recorded: seq<nat>) returns (count: int)
      requires IndexOk(instructions, order) && HoldsAlso(instructions, start, recorded)
      requires Disjoint(cache) && base in cache && pc < cache[base].size && TargetsOk(decode, cache, instructions)
      modifies this`instructions, this`order
      ensures IndexOk(instructions, order) && count == decode(base, pc).count && TargetsOk(decode, cache, instructions)
      ensures HoldsAlso(instructions, start, if count < 0 then recorded else recorded + [base + pc])
    {
      var insn := decode(base, pc);
      count := insn.count;
      if count >= 0 {
        TargetRecorded(decode, cache, instructions, base, pc);
        Record(base + pc, insn.target, start, recorded);
      }
    }

    method Record(a: nat, target: nat, ghost start: map<nat, Instruction>, ghost recorded: seq<nat>)
      requires IndexOk(instructions, order) && HoldsAlso(instructions, start, recorded)
      modifies this`instructions, this`order
      ensures IndexOk(instructions, order) && HoldsAlso(instructions, start, recorded + [a])
      ensures instructions == old(instructions)[a := Instruction(target, false, NO_BLOCK)]
    {
      Recorded(instructions, order, a, target);
      AlsoRecorded(instructions, start, recorded, a, Instruction(target, false, NO_BLOCK));
      instructions := instructions[a := Instruction(target, false, NO_BLOCK)];
      order := Inserted(order, a);
    }

    /** Whatever was asked before, the answer is that of the eager sweep. */
    method Verify(address: nat) returns (ok: bool)
      requires Valid() && bases != [] && bases[0] <= address
      modifies this`cache, this`instructions, this`order
      ensures Valid() && (ok <==> Answer(decode, cache, address))
      ensures cache.Keys == old(cache).Keys && forall b :: b in cache ==> cache[b].size == old(cache)[b].size
    {
      var found, p := LookupSection(address);
      if !found {
        return true;
      }
      if !cache[p].done {
        Disassemble(p);
      }
      OnlyOne(decode, cache, address, p);
      ok := address in instructions;
    }

    method DisassembleAll()
      requires Valid()
      modifies this`cache, this`instructions, this`order
      ensures Valid() && cache.Keys == old(cache).Keys
      ensures forall b :: b in cache ==> cache[b] == Section(old(cache)[b].size, true)
    {
      for it := 0 to |bases|
        invariant Valid() && cache.Keys == old(cache).Keys
        invariant forall b :: b in cache ==> cache[b].size == old(cache)[b].size
        invariant forall k :: 0 <= k < it ==> cache[bases[k]].done
      {
        assert bases[it] in bases;
        Disassemble(bases[it]);
      }
      forall b | b in cache ensures cache[b].done {
        assert b in bases;
      }
    }

    /** The loop over pairs of neighbours. */
    method MarkLeaders()
      requires IndexOk(instructions, order) && |order| >= 2
      modifies this`instructions
      ensures CodeKept(instructions, old(instructions))
      ensures FlagsOk(instructions, TargetOf(old(instructions)), order, |order| - 1)
    {
      ghost var start := instructions;
      LeaderMade(instructions, order[0]);
      instructions := MadeLeader(instructions, order[0]);
      for cur := 0 to |order| - 1
        invariant order == old(order) && CodeKept(instructions, start)
        invariant FlagsOk(instructions, TargetOf(start), order, cur)
      {
        assert order[cur] in order;
        MarkPair(cur, start);
      }
    }

    method MarkPair(cur: nat, ghost start: map<nat, Instruction>)
      requires cur < |order| - 1 && order[cur] in start && CodeKept(instructions, start)
      requires FlagsOk(instructions, TargetOf(start), order, cur)
      modifies this`instructions
      ensures CodeKept(instructions, start) && FlagsOk(instructions, TargetOf(start), order, cur + 1)
    {
      var target := instructions[order[cur]].target;
      if target != BT_INVALID {
        CodeStays(instructions, start, target);
        instructions := MadeLeader(instructions, target);
        CodeStays(instructions, start, order[cur + 1]);
        instructions := MadeLeader(instructions, order[cur + 1]);
      }
      FlagsStep(old(instructions), instructions, TargetOf(start), order, cur);
    }

    /** The last loop: a new block at each leader. */
    method PlaceBlocks(ghost leads: nat -> bool)
      requires |order| >= 2 && bbs == [] && Ascending(order) && leads(order[0]) && Marked(instructions, order, leads)
      modifies this`instructions, this`bbs
      ensures BlocksOk(bbs, order, leads) && PlacedOk(instructions, order, bbs, |order|)
      ensures OthersKept(old(instructions), instructions, order)
    {
      bbs := [[]];
      for it := 0 to |order|
        invariant order == old(order) && OthersKept(old(instructions), instructions, order)
        invariant Marked(instructions, order, leads)
        invariant BlocksOk(bbs, order[..it], leads) && PlacedOk(instructions, order, bbs, it)
      {
        PlaceNext(it, leads);
      }
      assert order[..|order|] == order;
    }

    method PlaceNext(it: nat, ghost leads: nat -> bool)
      requires it < |order| && Ascending(order) && leads(order[0]) && Marked(instructions, order, leads)
      requires BlocksOk(bbs, order[..it], leads) && PlacedOk(instructions, order, bbs, it)
      modifies this`instructions, this`bbs
      ensures Marked(instructions, order, leads) && OthersKept(old(instructions), instructions, order)
      ensures BlocksOk(bbs, order[..it + 1], leads) && PlacedOk(instructions, order, bbs, it + 1)
    {
      assert order[..it + 1] == order[..it] + [order[it]];
      BlocksStep(bbs, order[..it], leads, order[it]);
      Place(it, order[it]);
    }

    method Place(ghost it: nat, a: nat)
      requires it < |order| && a == order[it] && a in instructions && Ascending(order)
      requires |bbs| > 1 || (|bbs| == 1 && instructions[a].leader)
      requires PlacedOk(instructions, order, bbs, it)
      modifies this`instructions, this`bbs
      ensures bbs == if old(instructions)[a].leader then old(bbs) + [[a]]
                     else old(bbs)[|old(bbs)| - 1 := old(bbs)[|old(bbs)| - 1] + [a]]
      ensures instructions == old(instructions)[a := old(instructions)[a].(block := |bbs| - 1)]
      ensures PlacedOk(instructions, order, bbs, it + 1)
    {
      ghost var was := bbs;
      if instructions[a].leader {
        bbs := bbs + [[]];
      }
      instructions := instructions[a := instructions[a].(block := |bbs| - 1)];
      bbs := bbs[|bbs| - 1 := bbs[|bbs| - 1] + [a]];
      if instructions[a].leader {
        assert [] + [a] == [a];
        assert bbs == was + [[a]];
      }
    }

    /** What setupBasicBlocks leaves: blocks for two instructions or more, else none; and no block for what
        is not an instruction. Leaders are told by the decoder's targets. */
    ghost predicate Built()
      reads this
    {
      && Lists(decode, cache, order) && (forall a :: a in order ==> a in instructions)
      && (if |order| >= 2 then BlocksBuilt() else bbs == [] && instructions.Keys == (set a | a in order))
      && (forall a :: a in instructions && (a !in order || |order| < 2) ==> instructions[a].block == NO_BLOCK)
    }

    ghost predicate BlocksBuilt()
      reads this
    {
      && BlocksOk(bbs, order, Leaders(decode, cache, order)) && PlacedOk(instructions, order, bbs, |order|)
      && (forall a: nat :: a in instructions <==> a in order || BranchedTo(decode, cache, a))
    }

    method SetupBasicBlocks()
      requires Valid()
      modifies this`cache, this`instructions, this`order, this`bbs
      ensures Built() && cache.Keys == old(cache).Keys && Disjoint(cache)
      ensures forall b :: b in cache ==> cache[b] == Section(old(cache)[b].size, true)
    {
      DisassembleAll();
      forall a ensures a in order <==> IsStop(decode, cache, a) {
        AllDone(decode, cache, a);
      }
      BuildBlocks();
    }

    method BuildBlocks()
      requires IndexOk(instructions, order) && bbs == [] && Disjoint(cache)
      requires Lists(decode, cache, order) && TargetsOk(decode, cache, instructions)
      modifies this`instructions, this`bbs
      ensures Built()
    {
      if order == [] {
        return;
      }
      if |order| == 1 {
        LeaderMade(instructions, order[0]);
        assert order[0] in order;
        instructions := MadeLeader(instructions, order[0]);
        return;
      }
      MarkByTargets();
      PlaceBlocks(Leaders(decode, cache, order));
    }

    /** The flags, and the entries, by the decoder's targets. */
    method MarkByTargets()
      requires IndexOk(instructions, order) && |order| >= 2 && Disjoint(cache)
      requires Lists(decode, cache, order) && TargetsOk(decode, cache, instructions)
      modifies this`instructions
      ensures Marked(instructions, order, Leaders(decode, cache, order))
      ensures forall a: nat :: a in instructions <==> a in order || BranchedTo(decode, cache, a)
      ensures forall a :: a in instructions ==> instructions[a].block == NO_BLOCK
    {
      ghost var start := instructions;
      MarkLeaders();
      forall i | 0 <= i < |order| ensures TargetOf(start)(order[i]) == TargetIn(decode, cache)(order[i]) {
        assert order[i] in order;
        TargetsAgree(decode, cache, start, order[i]);
      }
      FlagsBy(instructions, start, order, TargetIn(decode, cache));
      forall a: nat ensures a in instructions <==> a in order || BranchedTo(decode, cache, a) {
        EntriesAre(decode, cache, order, instructions, a);
      }
    }

    /** The block of an address; empty for an address unknown. `crash` is the null block dereferenced: at the
        only instruction there is, or at a branch target that is no instruction. */
    method GetBasicBlock(address: nat) returns (crash: bool, block: seq<nat>)
      requires Valid()
      modifies this`cache, this`instructions, this`order, this`bbs
      ensures Built() && cache.Keys == old(cache).Keys
      ensures crash <==> || OnlyStop(decode, old(cache), address)
                         || (!IsStop(decode, old(cache), address) && BranchedTo(decode, old(cache), address))
      ensures !IsStop(decode, old(cache), address) ==> block == []
      ensures IsStop(decode, old(cache), address) && !crash ==> bbs != [] && address in block && block in bbs[1..]
    {
      SetupBasicBlocks();
      SameStops(decode, old(cache), cache);
      FewStops(decode, cache, order, address);
      SameBranches(decode, old(cache), cache, address);
      crash, block := false, [];
      if address !in instructions {
        return;
      }
      var bb := instructions[address].block;
      if bb == NO_BLOCK {
        crash := true;
        return;
      }
      var j :| 0 <= j < |order| && order[j] == address;
      block := bbs[bb];
      assert bbs[1..][bb - 1] == block;
    }
  }

  // ----- what a partition into blocks means -----

  lemma {:induction false} BlockInOrder(blocks: seq<seq<nat>>, k: nat) returns (at: nat)
    requires k < |blocks|
    ensures at + |blocks[k]| <= |Joined(blocks)| && Joined(blocks)[at..at + |blocks[k]|] == blocks[k]
  {
    var last := |blocks| - 1;
    if k < last {
      at := BlockInOrder(blocks[..last], k);
    } else {
      at := |Joined(blocks[..last])|;
    }
  }

  ghost predicate Heads(blocks: seq<seq<nat>>, a: nat) {
    exists k :: 0 <= k < |blocks| && blocks[k] != [] && blocks[k][0] == a
  }

  lemma LeaderHeads(blocks: seq<seq<nat>>, order: seq<nat>, leads: nat -> bool, a: nat)
    requires AreBlocks(blocks, order, leads) && a in order && leads(a)
    ensures Heads(blocks, a)
  {
    var k, j := FindInBlocks(blocks, a);
    assert j == 0;
  }

  /** Where the decoder finds a branch that is not the last instruction, the next instruction heads a block,
      and so does the target, if it is an instruction. */
  lemma BranchesMakeBlocks(decode: Decoder, cache: map<nat, Section>, blocks: seq<seq<nat>>, order: seq<nat>, b: nat, i: nat)
    requires Disjoint(cache) && Lists(decode, cache, order) && AreBlocks(blocks, order, Leaders(decode, cache, order))
    requires i < |order| - 1 && Contains(cache, b, order[i]) && decode(b, order[i] - b).target != BT_INVALID
    ensures Heads(blocks, order[i + 1])
    ensures var t := decode(b, order[i] - b).target; IsStop(decode, cache, t) ==> Heads(blocks, t)
  {
    var t := decode(b, order[i] - b).target;
    assert TargetAt(decode, cache, order[i]) == t;
    assert Leads(order, TargetIn(decode, cache), order[i + 1]) && Leads(order, TargetIn(decode, cache), t);
    LeaderHeads(blocks, order, Leaders(decode, cache, order), order[i + 1]);
    if IsStop(decode, cache, t) {
      LeaderHeads(blocks, order, Leaders(decode, cache, order), t);
    }
  }

  /** And nothing else does but the first instruction. */
  lemma HeadsAreLeaders(decode: Decoder, cache: map<nat, Section>, blocks: seq<seq<nat>>, order: seq<nat>, a: nat)
    requires Lists(decode, cache, order) && AreBlocks(blocks, order, Leaders(decode, cache, order)) && Heads(blocks, a)
    ensures Leads(order, TargetIn(decode, cache), a)
  {
  }

  lemma {:induction false} SomeJoined(blocks: seq<seq<nat>>)
    requires blocks != [] && blocks[0] != []
    ensures Joined(blocks) != []
  {
    if |blocks| > 1 {
      SomeJoined(blocks[..|blocks| - 1]);
    }
  }

  /** A program without branches is one block. */
  lemma OneBlockWithoutBranches(decode: Decoder, cache: map<nat, Section>, blocks: seq<seq<nat>>, order: seq<nat>)
    requires Lists(decode, cache, order) && order != [] && AreBlocks(blocks, order, Leaders(decode, cache, order))
    requires forall i :: 0 <= i < |order| ==> TargetAt(decode, cache, order[i]) == BT_INVALID
    ensures blocks == [order]
  {
    var last := |blocks| - 1;
    var before := blocks[..last];
    assert Leads(order, TargetIn(decode, cache), blocks[last][0]);
    assert blocks[last][0] == order[0];
    assert order[|Joined(before)|] == blocks[last][0];
    if last > 0 {
      SomeJoined(before);
    } else {
      assert before == [] && [] + blocks[0] == blocks[0];
    }
  }

  /** A single instruction at the base of a section: there is no block to give. */
  lemma OneInstructionCrashes(base: nat)
    ensures OnlyStop((b, pc) => Insn(1, BT_INVALID), map[base := Section(1, false)], base)
  {
    var decode: Decoder := (b, pc) => Insn(1, BT_INVALID);
    var cache := map[base := Section(1, false)];
    assert Sweep(decode, base, 1, 0) == [base];
    assert InSweep(decode, cache, base, base);
    forall x | IsStop(decode, cache, x) ensures x == base {
    }
  }

  /** Two instructions, the first of which branches out of the code: the target is inserted without a block. */
  lemma OutsideTargetCrashes(base: nat, target: nat)
    requires target != BT_INVALID && target != base && target != base + 1
    ensures var decode: Decoder := (b, pc) => Insn(1, target); var cache := map[base := Section(2, false)];
            !IsStop(decode, cache, target) && BranchedTo(decode, cache, target)
  {
    var decode: Decoder := (b, pc) => Insn(1, target);
    var cache := map[base := Section(2, false)];
    assert Sweep(decode, base, 2, 1) == [base + 1];
    assert Sweep(decode, base, 2, 0) == [base] + [base + 1];
    assert InSweep(decode, cache, base, base) && InSweep(decode, cache, base, base + 1);
    assert Contains(cache, base, base);
    assert BranchesTo(decode, cache, base, target) && IsStop(decode, cache, base + 1);
  }

  lemma {:induction false} FindInBlocks(blocks: seq<seq<nat>>, a: nat) returns (k: nat, j: nat)
    requires a in Joined(blocks)
    ensures k < |blocks| && j < |blocks[k]| && blocks[k][j] == a
  {
    var last := |blocks| - 1;
    if a in blocks[last] {
      k := last;
      j :| 0 <= j < |blocks[last]| && blocks[last][j] == a;
    } else {
      k, j := FindInBlocks(blocks[..last], a);
    }
  }
}
