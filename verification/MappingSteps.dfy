/** Steps of a register mapping as changes of its table and use counts, with what the emitted moves carry:
    moving, sharing, saving, spilling and dropping locations, and separating entries that share them. */
module MappingSteps {
  import opened Machine
  import opened LocationPool
  import opened MappingTable
  import opened Conformance

  ghost function TableOf(prs: seq<PseudoRegister?>, regs: seq<int>, stks: seq<int>): (t: Table)
    requires |regs| == |stks| == |prs|
    ensures |t| == |prs|
    ensures forall i :: 0 <= i < |t| ==> t[i] == if prs[i] == null then Unused else Entry(prs[i], regs[i], stks[i])
  {
    seq(|prs|, i requires 0 <= i < |prs| => if prs[i] == null then Unused else Entry(prs[i], regs[i], stks[i]))
  }

  /** Moving an entry's register: the value goes along. */
  lemma MovedEntry(y: Layout, t: Table, u: seq<nat>, reserved: multiset<int>, i: nat, from: int, to: int)
    requires 1 <= y.nofRegisters <= MAX_USABLE_REGISTERS && Consistent(y, t, u, reserved, multiset{})
    requires i < |t| && t[i].Entry? && t[i].reg == from != NO_LOCATION
    requires y.IsRegister(to) && to < |u| && At(u, to) == 0
    ensures var t' := t[i := Entry(t[i].pr, to, t[i].stk)];
      && Consistent(y, t', Take(GiveUp(u, from), to), reserved, multiset{})
      && Preserves(y, t, t', [Movl(OperandOf(y, to), OperandOf(y, from))])
      && PRs(t') == PRs(t) && IndexOf(t', t[i].pr) == i
  {
    hide Consistent, Preserves, IndexOf, OperandOf;
    EntryFacts(y, t, u, reserved, multiset{}, i);
    UniqueIndex(y, t, u, reserved, multiset{}, t[i].pr);
    FreeNotReserved(y, t, u, reserved, multiset{}, to);
    UnheldBy(y, t, u, reserved, i, to);
    var e := Entry(t[i].pr, to, t[i].stk);
    assert from in Locs(t[i]);
    assert Swapped(u, Take(GiveUp(u, from), to), t[i], e);
    ConsistentSet(y, t, u, reserved, multiset{}, i, e, Take(GiveUp(u, from), to));
    RegisterChanged(y, t, u, Take(GiveUp(u, from), to), reserved, i, e, to, from);
  }

  /** Loading an entry that is on the stack only. */
  lemma LoadedEntry(y: Layout, t: Table, u: seq<nat>, reserved: multiset<int>, i: nat, to: int)
    requires 1 <= y.nofRegisters <= MAX_USABLE_REGISTERS && Consistent(y, t, u, reserved, multiset{})
    requires i < |t| && t[i].Entry? && t[i].reg == NO_LOCATION
    requires y.IsRegister(to) && to < |u| && At(u, to) == 0
    ensures var t' := t[i := Entry(t[i].pr, to, t[i].stk)];
      && Consistent(y, t', Take(u, to), reserved, multiset{})
      && Preserves(y, t, t', [Movl(OperandOf(y, to), OperandOf(y, t[i].stk))])
      && PRs(t') == PRs(t) && IndexOf(t', t[i].pr) == i && At(Take(u, to), to) == 1
  {
    hide Consistent, Preserves, IndexOf, OperandOf;
    EntryFacts(y, t, u, reserved, multiset{}, i);
    UniqueIndex(y, t, u, reserved, multiset{}, t[i].pr);
    FreeNotReserved(y, t, u, reserved, multiset{}, to);
    UnheldBy(y, t, u, reserved, i, to);
    var e := Entry(t[i].pr, to, t[i].stk);
    assert Swapped(u, Take(u, to), t[i], e);
    ConsistentSet(y, t, u, reserved, multiset{}, i, e, Take(u, to));
    RegisterChanged(y, t, u, Take(u, to), reserved, i, e, to, t[i].stk);
  }

  lemma UnheldBy(y: Layout, t: Table, u: seq<nat>, reserved: multiset<int>, i: nat, l: int)
    requires i < |t| && Consistent(y, t, u, reserved, multiset{}) && 0 <= l && At(u, l) == 0
    ensures l !in Locs(t[i])
  {
    hide OkTable, Alone, RefCount, Locs;
    UnusedHolder(t, u, reserved + multiset{}, i, l);
  }

  /** Setting slot i to hold `src`'s value in the unused location `dst` as well. */
  lemma RegisterChanged(y: Layout, t: Table, u: seq<nat>, u': seq<nat>, reserved: multiset<int>, i: nat, e: Entry,
                        dst: int, src: int)
    requires 1 <= y.nofRegisters <= MAX_USABLE_REGISTERS && Consistent(y, t, u, reserved, multiset{})
    requires i < |t| && Consistent(y, t[i := e], u', reserved, multiset{})
    requires t[i].Entry? && e.Entry? && e.pr == t[i].pr && 0 <= dst && At(u, dst) == 0
    requires Moved(t[i], e, dst, src) && (y.IsRegister(dst) || y.IsRegister(src))
    ensures Preserves(y, t, t[i := e], [Movl(OperandOf(y, dst), OperandOf(y, src))])
    ensures PRs(t[i := e]) == PRs(t) && IndexOf(t[i := e], e.pr) == i
  {
    hide Preserves, IndexOf, OperandOf, Counted, Alone;
    var t' := t[i := e];
    assert OkTable(y, |u'|, t');
    SamePRs(t, t');
    UniqueIndex(y, t', u', reserved, multiset{}, e.pr);
    if y.IsRegister(dst) { IsRegisterOperand(y, dst); } else { IsRegisterOperand(y, src); }
    hide Consistent, OkTable;
    forall j, k | 0 <= j < |t| && 0 <= k < |t'| && t[j].Entry? && t'[k].Entry? && t[j].pr == t'[k].pr
      ensures Moved(t[j], t'[k], dst, src)
    {
      UniqueIndex(y, t, u, reserved, multiset{}, t[j].pr);
      UnheldBy(y, t, u, reserved, j, dst);
    }
    MovedPreserves(y, |u'|, t, t', dst, src);
  }

  method TakeHintOrAny(locations: Locations, hint: int) returns (loc: int)
    requires locations.Valid() && locations.freeRegs != []
    requires (hint != NO_LOCATION ==> locations.layout.IsRegister(hint))
    modifies locations
    ensures locations.Valid() && |locations.freeList| == |old(locations.freeList)|
    ensures locations.layout.IsRegister(loc) && loc < |locations.freeList| && At(old(locations.Uses()), loc) == 0
    ensures locations.Uses() == Take(old(locations.Uses()), loc)
    ensures hint != NO_LOCATION && At(old(locations.Uses()), hint) == 0 ==> loc == hint
  {
    hide Sound, UseCounts, Take;
    locations.Facts();
    loc := NO_LOCATION;
    if hint != NO_LOCATION && locations.Uses()[hint] == 0 {
      locations.Allocate(hint);
      loc := hint;
    }
    if !locations.IsLocation(loc) {
      loc := locations.AllocateRegister();
    }
  }

  /** Pushes the value of an entry unless one of its locations conforms. */
  method PushDiffering(masm: MacroAssembler, locations: Locations, rloc: int, sloc: int, rwant: int, swant: int,
                       ghost e: Entry, ghost f: Entry)
    requires locations.Valid() && e.Entry? && e.reg == rloc && e.stk == sloc && f.Entry? && f.reg == rwant
    requires f.stk == swant
    requires OkEntry(locations.layout, |locations.Uses()|, e)
    modifies masm
    ensures masm.code == old(masm.code) + if NeedsPush(e, f) then [Pushl(OperandOf(locations.layout, Primary(e)))]
      else []
  {
    hide Sound, UseCounts, OperandOf;
    locations.Facts();
    if !(locations.IsLocation(rloc) && rloc == rwant) && !(locations.IsLocation(sloc) && sloc == swant) {
      masm.Pushl(OperandOf(locations.layout, if locations.IsLocation(rloc) then rloc else sloc));
    }
  }

  /** Gives up the locations of an entry that do not conform to those wanted for it. */
  method ReleaseDiffering(locations: Locations, rloc: int, sloc: int, rwant: int, swant: int, ghost e: Entry,
                          ghost f: Entry)
    requires locations.Valid() && e.Entry? && e.reg == rloc && e.stk == sloc && f.Entry? && f.reg == rwant
    requires f.stk == swant
    requires OkEntry(locations.layout, |locations.Uses()|, e)
    requires forall l :: l in Locs(e) ==> 0 <= l < |locations.Uses()| && locations.Uses()[l] >= 1
    modifies locations
    ensures locations.Valid() && |locations.Uses()| == |old(locations.Uses())|
    ensures locations.Uses() == Surrendered(old(locations.Uses()), e, f)
  {
    hide Sound, UseCounts, GiveUp;
    assert e.reg != NO_LOCATION ==> e.reg in Locs(e);
    assert e.stk != NO_LOCATION ==> e.stk in Locs(e);
    GiveUpNothing(locations.Uses());
    if locations.IsLocation(rloc) && rloc == rwant {
      if locations.IsLocation(sloc) {
        locations.Release(sloc);
      }
    } else if locations.IsLocation(sloc) && sloc == swant {
      if locations.IsLocation(rloc) {
        locations.Release(rloc);
      }
    } else {
      ReleaseEntry(locations, rloc, sloc, e);
    }
  }

  /** Takes one more use of each location of an entry. */
  method UseEntry(locations: Locations, rloc: int, sloc: int, ghost e: Entry)
    requires locations.Valid() && e.Entry? && e.reg == rloc && e.stk == sloc
    requires OkEntry(locations.layout, |locations.Uses()|, e)
    requires forall l :: l in Locs(e) ==> 0 <= l < |locations.Uses()| && locations.Uses()[l] >= 1
    modifies locations
    ensures locations.Valid() && |locations.Uses()| == |old(locations.Uses())|
    ensures locations.Uses() == TakeEntry(old(locations.Uses()), e)
  {
    hide Sound, UseCounts;
    if locations.IsLocation(rloc) {
      locations.Use(rloc);
    }
    if locations.IsLocation(sloc) {
      locations.Use(sloc);
    }
  }

  function TakeEntry(u: seq<nat>, e: Entry): seq<nat>
    requires e.Entry?
  {
    var u1 := if 0 <= e.reg < |u| then Take(u, e.reg) else u;
    if 0 <= e.stk < |u| then Take(u1, e.stk) else u1
  }

  lemma SharedConsistent(y: Layout, t: Table, u: seq<nat>, reserved: multiset<int>, i: nat, dst: PseudoRegister)
    requires i < |t| && Consistent(y, t, u, reserved, multiset{}) && t[i].Entry? && IndexOf(t, dst) == -1
    ensures Consistent(y, Added(t, Entry(dst, t[i].reg, t[i].stk)), TakeEntry(u, t[i]), reserved, multiset{})
  {
    hide Consistent, IndexOf, Added;
    EntryFacts(y, t, u, reserved, multiset{}, i);
    var e := Entry(dst, t[i].reg, t[i].stk);
    assert Locs(e) == Locs(t[i]);
    SwappedTake(y, u, t[i], e);
    AddedConsistent(y, t, u, reserved, e, TakeEntry(u, t[i]));
  }

  lemma SwappedTake(y: Layout, u: seq<nat>, e0: Entry, e: Entry)
    requires e0.Entry? && e.Entry? && e.reg == e0.reg && e.stk == e0.stk && OkEntry(y, |u|, e)
    requires forall l :: l in Locs(e) ==> 0 <= l < |u|
    ensures |TakeEntry(u, e0)| == |u| && Swapped(u, TakeEntry(u, e0), Unused, e)
  {}

  lemma KilledKeeps(y: Layout, t: Table, u: seq<nat>, reserved: multiset<int>, dst: PseudoRegister, src: PseudoRegister)
    requires Consistent(y, t, u, reserved, multiset{}) && dst != src && 0 <= IndexOf(t, src)
    ensures IndexOf(Killed(t, dst), src) == IndexOf(t, src) && Killed(t, dst)[IndexOf(t, src)] == t[IndexOf(t, src)]
  {
    hide Counted, Alone, IndexOf;
    var i, t' := IndexOf(t, src), Killed(t, dst);
    assert t'[i] == t[i];
    assert forall k :: 0 <= k < |t| && k != i && t'[k].Entry? ==> t'[k].pr != src;
  }

  /** Killing a pseudo register leaves the others alone. */
  lemma KilledFacts(y: Layout, t: Table, u: seq<nat>, reserved: multiset<int>, pr: PseudoRegister)
    requires Consistent(y, t, u, reserved, multiset{})
    ensures PRs(Killed(t, pr)) == PRs(t) - {pr}
  {
    UniqueIndex(y, t, u, reserved, multiset{}, pr);
    hide Consistent, IndexOf;
    var t' := Killed(t, pr);
    assert forall i :: 0 <= i < |t| && t[i].Entry? && t[i].pr != pr ==> t'[i] == t[i];
  }

  /** If only `pr` holds the register, it is free once `pr` is gone. */
  lemma HintFree(y: Layout, t: Table, u: seq<nat>, reserved: multiset<int>, pr: PseudoRegister, l: int, u': seq<nat>)
    requires Consistent(y, t, u, reserved, multiset{}) && y.IsRegister(l)
    requires At(u, l) == if 0 <= IndexOf(t, pr) && t[IndexOf(t, pr)].reg == l then 1 else 0
    requires Consistent(y, Killed(t, pr), u', reserved, multiset{})
    ensures At(u', l) == 0
  {
    hide IndexOf, RefCount, Alone, OkTable;
    var i := IndexOf(t, pr);
    if 0 <= i {
      RefCountSet(t, i, Unused, l);
    }
    assert At(u', l) == RefCount(Killed(t, pr), l) + (reserved + multiset{})[l];
  }

  /** A new entry for an absent pseudo register in a register taken after at most one spill. */
  lemma DefEntry(y: Layout, t1: Table, u1: seq<nat>, reserved: multiset<int>, t2: Table, code: Code, u: seq<nat>,
                 pr: PseudoRegister, loc: int)
    requires 1 <= y.nofRegisters <= MAX_USABLE_REGISTERS
    requires Consistent(y, t1, u1, reserved, multiset{}) && SpillStep(y, t1, u1, t2, code)
    requires Consistent(y, t2, u, reserved, multiset{}) && At(u, loc) == 0 && loc < |u| && y.IsRegister(loc)
    requires pr !in PRs(t1)
    ensures var t3 := Added(t2, Entry(pr, loc, NO_LOCATION));
      && Consistent(y, t3, Take(u, loc), reserved, multiset{}) && At(Take(u, loc), loc) == 1
      && Preserves(y, t1, t3, code) && PRs(t3) == PRs(t1) + {pr}
      && 0 <= IndexOf(t3, pr) && t3[IndexOf(t3, pr)] == Entry(pr, loc, NO_LOCATION)
  {
    hide Consistent, SpillStep, Preserves, IndexOf, PRs;
    var e := Entry(pr, loc, NO_LOCATION);
    SpillStepPreserves(y, t1, u1, reserved, t2, code);
    AbsentPR(t2, pr);
    FreeNotReserved(y, t2, u, reserved, multiset{}, loc);
    AddedOne(y, t2, u, reserved, e, loc);
    AddedPreserves(y, t1, t2, code, e);
    AddedAt(y, t2, Take(u, loc), reserved, e);
  }

  lemma AddedAt(y: Layout, t: Table, u: seq<nat>, reserved: multiset<int>, e: Entry)
    requires e.Entry? && Consistent(y, Added(t, e), u, reserved, multiset{})
    ensures 0 <= IndexOf(Added(t, e), e.pr) && Added(t, e)[IndexOf(Added(t, e), e.pr)] == e
  {
    hide Consistent, IndexOf, FreeIndex;
    var t' := Added(t, e);
    assert t'[if FreeIndex(t) < 0 then |t| else FreeIndex(t)] == e;
    UniqueIndex(y, t', u, reserved, multiset{}, e.pr);
  }

  lemma TakeOther(u: seq<nat>, l: int, k: int)
    requires 0 <= l <= |u| && k != l
    ensures At(Take(u, l), k) == At(u, k) && |Take(u, l)| == if l == |u| then |u| + 1 else |u|
  {}

  lemma GiveUpOne(u: seq<nat>, l: int, k: int)
    requires 0 <= l < |u| && u[l] >= 1 && k != l
    ensures At(GiveUp(u, l), l) == At(u, l) - 1 && At(GiveUp(u, l), k) == At(u, k) && |GiveUp(u, l)| == |u|
  {}

  lemma NotOnStack(y: Layout, t: Table, u: seq<nat>, reserved: multiset<int>, loc: int)
    requires Consistent(y, t, u, reserved, multiset{}) && y.IsRegister(loc)
    ensures forall i :: 0 <= i < |t| && t[i].Entry? ==> t[i].stk != loc
  {
    hide Counted, Alone;
  }

  const MANY_USES := 999999999

  predicate Spillable(y: Layout, e: Entry, u: seq<nat>, locked: set<PseudoRegister>) {
    e.Entry? && y.IsRegister(e.reg) && e.pr !in locked && At(u, e.reg) < MANY_USES
  }

  /** The slot whose register is spilled when none is free: an unlocked pseudo register in a least-used
      register, the highest such slot. */
  ghost predicate Victim(y: Layout, t: Table, u: seq<nat>, locked: set<PseudoRegister>, i: int) {
    && 0 <= i < |t| && Spillable(y, t[i], u, locked)
    && forall k :: 0 <= k < |t| && Spillable(y, t[k], u, locked) ==>
         At(u, t[k].reg) >= At(u, t[i].reg) + if i < k then 1 else 0
  }

  ghost predicate VictimRegister(y: Layout, t: Table, u: seq<nat>, locked: set<PseudoRegister>, r: int) {
    exists i :: Victim(y, t, u, locked, i) && t[i].reg == r
  }

  /** The code spills the victim's register `r`. */
  ghost predicate SpillsVictim(y: Layout, t: Table, u: seq<nat>, locked: set<PseudoRegister>, code: Code, r: int) {
    && VictimRegister(y, t, u, locked, r) && y.IsRegister(r)
    && exists spill {:trigger OperandOf(y, spill)} ::
         y.IsStackTmp(spill) && code == [Movl(OperandOf(y, spill), OperandOf(y, r))]
  }

  lemma VictimSpilled(y: Layout, t: Table, u: seq<nat>, locked: set<PseudoRegister>, i: int, spill: int)
    requires Victim(y, t, u, locked, i) && y.IsStackTmp(spill)
    ensures SpillsVictim(y, t, u, locked, [Movl(OperandOf(y, spill), OperandOf(y, t[i].reg))], t[i].reg)
  {}

  ghost predicate SomeFree(y: Layout, u: seq<nat>) {
    exists l :: y.IsRegister(l) && At(u, l) == 0
  }

  /** A register is free, or can be spilled. */
  ghost predicate FreesRegister(y: Layout, t: Table, u: seq<nat>, locked: set<PseudoRegister>) {
    SomeFree(y, u) || exists k :: 0 <= k < |t| && Spillable(y, t[k], u, locked)
  }

  /** The use counts without those of a pseudo register. */
  function KilledUses(t: Table, u: seq<nat>, pr: PseudoRegister): seq<nat> {
    var i := IndexOf(t, pr);
    if i < 0 then u else GiveUp(GiveUp(u, t[i].reg), t[i].stk)
  }

  lemma TakeSize(u: seq<nat>, l: int)
    requires 0 <= l <= |u|
    ensures |u| <= |Take(u, l)| && l < |Take(u, l)|
  {}

  /** Gives up the locations of an entry. */
  method ReleaseEntry(locations: Locations, rloc: int, sloc: int, ghost e: Entry)
    requires locations.Valid() && e.Entry? && e.reg == rloc && e.stk == sloc
    requires OkEntry(locations.layout, |locations.Uses()|, e)
    requires forall l :: l in Locs(e) ==> 0 <= l < |locations.Uses()| && locations.Uses()[l] >= 1
    modifies locations
    ensures locations.Valid() && |locations.Uses()| == |old(locations.Uses())|
    ensures locations.Uses() == GiveUp(GiveUp(old(locations.Uses()), rloc), sloc)
  {
    hide Sound, UseCounts;
    if locations.IsLocation(rloc) {
      locations.Release(rloc);
    }
    if locations.IsLocation(sloc) {
      locations.Release(sloc);
    }
  }

  /** From slot n on, every register-only pseudo register but `exception` has been given a stack
      location, and nothing else has changed. */
  ghost predicate AllSaved(t0: Table, t: Table, exception: PseudoRegister?, n: int) {
    && |t| == |t0|
    && forall k :: 0 <= k < |t| ==>
         && (t0[k].Unused? ==> t[k].Unused?)
         && (t0[k].Entry? ==> t[k].Entry? && t[k].pr == t0[k].pr && t[k].reg == t0[k].reg)
         && (t0[k].Entry? && t0[k].stk != NO_LOCATION ==> t[k].stk == t0[k].stk)
         && (t0[k].Entry? && n <= k && t0[k].pr != exception ==> t[k].stk != NO_LOCATION)
  }

  lemma SavedStep(y: Layout, t0: Table, t: Table, u: seq<nat>, reserved: multiset<int>, c0: Code, c: Code, loc: int,
                  spill: int,
                  c': Code, exception: PseudoRegister?, n: int)
    requires 1 <= y.nofRegisters <= MAX_USABLE_REGISTERS && Consistent(y, t, u, reserved, multiset{})
    requires y.IsRegister(loc) && y.IsStackTmp(spill) && At(u, spill) == 0
    requires c0 <= c && c' == c + [Movl(OperandOf(y, spill), OperandOf(y, loc))]
    requires Preserves(y, t0, t, c[|c0|..]) && AllSaved(t0, t, exception, n + 1)
    requires 0 <= n < |t| && t[n].Entry? && t[n].reg == loc
    ensures Preserves(y, t0, Saved(t, loc, spill), c'[|c0|..]) && PRs(Saved(t, loc, spill)) == PRs(t)
    ensures AllSaved(t0, Saved(t, loc, spill), exception, n)
  {
    hide Consistent, Preserves, OperandOf, PRs;
    SpilledPreserves(y, t, u, reserved, loc, spill);
    SpilledPRs(t, loc, spill);
    assert c'[|c|..] == [Movl(OperandOf(y, spill), OperandOf(y, loc))];
    Suffixes(c0, c, c');
    PreservesThrough(y, t0, t, Saved(t, loc, spill), c[|c0|..], c'[|c|..]);
  }

  function UnregisteredEntry(e: Entry): Entry {
    if e.Unused? || e.reg == NO_LOCATION then e
    else if e.stk == NO_LOCATION then Unused
    else Entry(e.pr, NO_LOCATION, e.stk)
  }

  function Unregistered(t: Table, exception: PseudoRegister?, n: int): (t': Table)
    ensures |t'| == |t|
    ensures forall k :: 0 <= k < |t| ==>
      t'[k] == if k < n || (t[k].Entry? && t[k].pr == exception) then t[k] else UnregisteredEntry(t[k])
  {
    seq(|t|, k requires 0 <= k < |t| =>
      if k < n || (t[k].Entry? && t[k].pr == exception) then t[k] else UnregisteredEntry(t[k]))
  }

  function AllKilled(t: Table, exception: PseudoRegister?, n: int): (t': Table)
    ensures |t'| == |t|
    ensures forall k ::
      0 <= k < |t| ==> t'[k] == if k < n || (t[k].Entry? && t[k].pr == exception) then t[k] else Unused
  {
    seq(|t|, k requires 0 <= k < |t| => if k < n || (t[k].Entry? && t[k].pr == exception) then t[k] else Unused)
  }

  lemma DroppedConsistent(y: Layout, t: Table, u: seq<nat>, reserved: multiset<int>, i: nat)
    requires i < |t| && Consistent(y, t, u, reserved, multiset{}) && t[i].Entry? && t[i].reg != NO_LOCATION
    ensures Consistent(y, t[i := UnregisteredEntry(t[i])], GiveUp(u, t[i].reg), reserved, multiset{})
    ensures 0 <= t[i].reg < |u| && u[t[i].reg] >= 1
  {
    hide Consistent, IndexOf;
    EntryFacts(y, t, u, reserved, multiset{}, i);
    assert t[i].reg in Locs(t[i]);
    UniqueIndex(y, t, u, reserved, multiset{}, t[i].pr);
    ConsistentSet(y, t, u, reserved, multiset{}, i, UnregisteredEntry(t[i]), GiveUp(u, t[i].reg));
  }

  /** A call site: saving and then dropping the registers leaves every pseudo register but the
      exception on the stack, in no register, and with the value it had. */
  lemma SaveThenKill(y: Layout, t0: Table, t1: Table, code: Code, exception: PseudoRegister?, i: nat)
    requires AllSaved(t0, t1, exception, 0) && Preserves(y, t0, t1, code)
    requires i < |t0| && t0[i].Entry? && t0[i].pr != exception
    ensures var t2 := Unregistered(t1, exception, 0);
      && t2[i].Entry? && t2[i].pr == t0[i].pr
      && t2[i].reg == NO_LOCATION && t2[i].stk != NO_LOCATION
      && From(y, code, t2[i].stk, t0[i])
  {
    hide From, Pushes;
    assert Carries(y, code, t0[i], t1[i]);
    assert t1[i].stk in Locs(t1[i]);
  }

  lemma ReserveConsistent(y: Layout, t: Table, u: seq<nat>, reserved: multiset<int>, l: int)
    requires Consistent(y, t, u, reserved, multiset{}) && y.IsRegister(l) && l < |u| && At(u, l) == 0
    ensures Consistent(y, t, Take(u, l), reserved + multiset{l}, multiset{})
  {
    hide RefCount;
  }

  lemma UnreserveConsistent(y: Layout, t: Table, u: seq<nat>, reserved: multiset<int>, l: int)
    requires Consistent(y, t, u, reserved + multiset{l}, multiset{})
    ensures Consistent(y, t, GiveUp(u, l), reserved, multiset{})
    ensures y.IsRegister(l) && l < |u| && u[l] == 1 && l !in reserved
  {
    hide RefCount;
    assert l in reserved + multiset{l};
    assert At(u, l) == 1;
    assert At(u, l) == RefCount(t, l) + (reserved + multiset{l} + multiset{})[l];
  }

  lemma UsedFrom(y: Layout, t0: Table, t1: Table, code: Code, i: nat, reg: int)
    requires i < |t0| == |t1| && Preserves(y, t0, t1, code) && t0[i].Entry? && t1[i].Entry? && t0[i].pr == t1[i].pr
    requires t1[i].reg == reg != NO_LOCATION
    ensures From(y, code, reg, t0[i])
  {
    hide From, Pushes;
    assert Carries(y, code, t0[i], t1[i]);
    assert reg in Locs(t1[i]);
  }

  lemma FromAfter(y: Layout, t0: Table, t1: Table, c1: Code, c2: Code, i: nat, l: int)
    requires i < |t0| == |t1| && Preserves(y, t0, t1, c1) && t0[i].Entry? && t1[i].Entry? && t0[i].pr == t1[i].pr
    requires From(y, c2, l, t1[i])
    ensures From(y, c1 + c2, l, t0[i])
  {
    hide From, Pushes;
    FromThrough(y, c1, c2, l, t0[i], t1[i]);
  }

  lemma UnregisteredPreserves(y: Layout, t: Table, u: seq<nat>, reserved: multiset<int>, i: nat, u': seq<nat>)
    requires i < |t| && Consistent(y, t, u, reserved, multiset{}) && t[i].Entry? && t[i].reg != NO_LOCATION
    requires Consistent(y, t[i := UnregisteredEntry(t[i])], u', reserved, multiset{})
    ensures Preserves(y, t, t[i := UnregisteredEntry(t[i])], []) && PRs(t[i := UnregisteredEntry(t[i])]) <= PRs(t)
    ensures forall l :: y.IsRegister(l) ==> At(u', l) == At(u, l) - if l == t[i].reg then 1 else 0
  {
    var t' := t[i := UnregisteredEntry(t[i])];
    forall l | y.IsRegister(l)
      ensures At(u', l) == At(u, l) - if l == t[i].reg then 1 else 0
    {
      hide OkTable, Alone, RefCount;
      NotOnStack(y, t, u, reserved, l);
      RefCountSet(t, i, UnregisteredEntry(t[i]), l);
      assert At(u', l) == RefCount(t', l) + (reserved + multiset{})[l];
    }
    hide Consistent, Preserves;
    assert forall k :: 0 <= k < |t| && t'[k].Entry? ==> t[k].Entry? && t[k].pr == t'[k].pr;
    forall j, k | 0 <= j < |t| && 0 <= k < |t'| && t[j].Entry? && t'[k].Entry? && t[j].pr == t'[k].pr
      ensures Kept(t[j], t'[k])
    {
      UniqueIndex(y, t, u, reserved, multiset{}, t[j].pr);
    }
    KeptPreserves(y, t, t');
  }

  /** Loading a reserved register disturbs no pseudo register. */
  lemma ReservedMove(y: Layout, t: Table, u: seq<nat>, reserved: multiset<int>, dst: int, src: int)
    requires 1 <= y.nofRegisters <= MAX_USABLE_REGISTERS && Consistent(y, t, u, reserved, multiset{})
    requires dst in reserved && y.IsRegister(src)
    ensures Preserves(y, t, t, [Movl(OperandOf(y, dst), OperandOf(y, src))])
  {
    ReservedRegisters(y, t, u, reserved, multiset{});
    IsRegisterOperand(y, src);
    hide Preserves, OperandOf, Counted, Alone;
    assert OkTable(y, |u|, t);
    hide OkTable, Consistent, IndexOf;
    forall j, k | 0 <= j < |t| && 0 <= k < |t| && t[j].Entry? && t[k].Entry? && t[j].pr == t[k].pr
      ensures Moved(t[j], t[k], dst, src)
    {
      UniqueIndex(y, t, u, reserved, multiset{}, t[j].pr);
      EntryFacts(y, t, u, reserved, multiset{}, k);
    }
    MovedPreserves(y, |u|, t, t, dst, src);
  }

  /** A register keeps its value over a spill, so it can be copied afterwards. */
  lemma CopiedAfterSpill(y: Layout, t0: Table, u0: seq<nat>, t1: Table, code: Code, e: Entry, dst: int, src: int)
    requires 1 <= y.nofRegisters <= MAX_USABLE_REGISTERS && SpillStep(y, t0, u0, t1, code)
    requires src in Locs(e) && y.IsRegister(src)
    ensures From(y, code + [Movl(OperandOf(y, dst), OperandOf(y, src))], dst, e)
  {
    var d, f := OperandOf(y, dst), OperandOf(y, src);
    hide Copies, Spilled;
    NoCode(f);
    if code != [] {
      var loc, spill :| y.IsRegister(loc) && y.IsStackTmp(spill) && code ==
        [Movl(OperandOf(y, spill), OperandOf(y, loc))];
      assert y.IsStackTmp(spill);
      OperandsDiffer(y, spill, src);
      hide OperandOf;
      assert [] + code == code;
      MovlKeeps([], OperandOf(y, spill), OperandOf(y, loc), f, f);
    }
    hide OperandOf;
    MovlCopies(code, d, f, f);
  }

  ghost predicate Sole(e: Entry, u: seq<nat>) {
    forall l :: l in Locs(e) ==> At(u, l) == 1
  }

  /** Slot i has come to hold its locations alone, and slots that did so before still do. */
  ghost predicate Separated(t: Table, i: int, t0: Table, u0: seq<nat>, u: seq<nat>) {
    && 0 <= i < |t| == |t0| && Sole(t[i], u)
    && forall k :: 0 <= k < |t| && Sole(t0[k], u0) ==> Sole(t[k], u)
  }

  /** Changing slot i so that it only takes unused locations leaves other lone holders alone. */
  lemma SoleKept(y: Layout, t: Table, u: seq<nat>, reserved: multiset<int>, i: nat, e: Entry, u': seq<nat>, k: nat)
    requires i < |t| && k < |t| && k != i && Consistent(y, t, u, reserved, multiset{})
    requires Consistent(y, t[i := e], u', reserved, multiset{})
    requires forall l :: l in Locs(e) ==> l in Locs(t[i]) || At(u, l) == 0
    requires Sole(t[k], u)
    ensures Sole(t[k], u')
  {
    forall l | l in Locs(t[k])
      ensures At(u', l) == 1
    {
      hide Alone, RefCount, IndexOf, Sole;
      assert OkEntry(y, |u|, t[k]) && 0 <= l;
      RefCountTwo(t, i, k, l);
      RefCountSet(t, i, e, l);
      assert At(u, l) == RefCount(t, l) + (reserved + multiset{})[l];
      assert At(u', l) == RefCount(t[i := e], l) + (reserved + multiset{})[l];
    }
  }

  /** A new stack location for an entry in a register, giving up what it had. */
  lemma StackMove(y: Layout, t: Table, u: seq<nat>, reserved: multiset<int>, i: nat, to: int)
    requires 1 <= y.nofRegisters <= MAX_USABLE_REGISTERS && i < |t| && Consistent(y, t, u, reserved, multiset{})
    requires t[i].Entry? && t[i].reg != NO_LOCATION
    requires y.IsStackTmp(to) && to <= |u| && At(u, to) == 0
    ensures var t' := t[i := Entry(t[i].pr, NO_LOCATION, to)];
      var u1 := Take(u, to);
      var u' := GiveUp(GiveUp(u1, t[i].reg), t[i].stk);
      && Consistent(y, t', u', reserved, multiset{})
      && Preserves(y, t, t', [Movl(OperandOf(y, to), OperandOf(y, t[i].reg))])
      && PRs(t') == PRs(t) && Separated(t', i, t, u, u')
      && OkEntry(y, |u1|, t[i]) && forall l :: l in Locs(t[i]) ==> 0 <= l < |u1| && u1[l] >= 1
  {
    hide Consistent, Preserves, IndexOf, OperandOf, PRs;
    EntryFacts(y, t, u, reserved, multiset{}, i);
    UniqueIndex(y, t, u, reserved, multiset{}, t[i].pr);
    ReservedRegisters(y, t, u, reserved, multiset{});
    UnheldBy(y, t, u, reserved, i, to);
    var e := Entry(t[i].pr, NO_LOCATION, to);
    var u1 := Take(u, to);
    var u' := GiveUp(GiveUp(u1, t[i].reg), t[i].stk);
    StackMoveCounts(u, t[i], e, to);
    ConsistentSet(y, t, u, reserved, multiset{}, i, e, u');
    RegisterChanged(y, t, u, u', reserved, i, e, to, t[i].reg);
    assert forall l :: l in Locs(e) ==> At(u', l) == 1;
    forall k | 0 <= k < |t| && Sole(t[k], u)
      ensures Sole(t[i := e][k], u')
    {
      if k != i {
        SoleKept(y, t, u, reserved, i, e, u', k);
      }
    }
  }

  lemma StackMoveCounts(u: seq<nat>, e0: Entry, e: Entry, to: int)
    requires e0.Entry? && e == Entry(e0.pr, NO_LOCATION, to) && 0 <= to <= |u| && At(u, to) == 0
    requires e0.reg != NO_LOCATION && e0.reg != e0.stk
    requires forall l :: l in Locs(e0) ==> 0 <= l < |u| && u[l] >= 1 && l != to
    ensures var u1 := Take(u, to);
      var u' := GiveUp(GiveUp(u1, e0.reg), e0.stk);
      && Swapped(u, u', e0, e) && |u| <= |u'| && to < |u'|
      && forall l :: l in Locs(e0) ==> 0 <= l < |u1| && u1[l] >= 1
  {
    assert e0.reg in Locs(e0);
    assert e0.stk != NO_LOCATION ==> e0.stk in Locs(e0);
  }

  predicate OnlyMoves(code: Code) {
    forall k :: 0 <= k < |code| ==> code[k].Movl?
  }

  lemma OneMove(c: Code, i: Instruction)
    requires i.Movl?
    ensures (c + [i])[|c|..] == [i] && OnlyMoves([i])
  {}

  lemma TwoMoves(c: Code, i: Instruction, j: Instruction)
    requires i.Movl? && j.Movl?
    ensures (c + [i] + [j])[|c|..] == [i, j] && OnlyMoves([i, j])
  {}

  function HalfOf(e: Entry, dropRegister: bool): Entry
    requires e.Entry?
  {
    if dropRegister then Entry(e.pr, NO_LOCATION, e.stk) else Entry(e.pr, e.reg, NO_LOCATION)
  }

  lemma HalfDropped(y: Layout, t: Table, u: seq<nat>, reserved: multiset<int>, i: nat, dropRegister: bool)
    requires i < |t| && Consistent(y, t, u, reserved, multiset{}) && t[i].Entry?
    requires t[i].reg != NO_LOCATION && t[i].stk != NO_LOCATION
    requires At(u, if dropRegister then t[i].stk else t[i].reg) == 1
    ensures var t', l := t[i := HalfOf(t[i], dropRegister)], if dropRegister then t[i].reg else t[i].stk;
      && 0 <= l < |u| && u[l] >= 1
      && Consistent(y, t', GiveUp(u, l), reserved, multiset{}) && Separated(t', i, t, u, GiveUp(u, l))
      && PRs(t') == PRs(t) && Preserves(y, t, t', [])
  {
    hide Consistent, Preserves, IndexOf, PRs;
    var e, l := HalfOf(t[i], dropRegister), if dropRegister then t[i].reg else t[i].stk;
    var t', u' := t[i := e], GiveUp(u, l);
    EntryFacts(y, t, u, reserved, multiset{}, i);
    assert l in Locs(t[i]);
    UniqueIndex(y, t, u, reserved, multiset{}, t[i].pr);
    ConsistentSet(y, t, u, reserved, multiset{}, i, e, u');
    SamePRs(t, t');
    forall j, k | 0 <= j < |t| && 0 <= k < |t'| && t[j].Entry? && t'[k].Entry? && t[j].pr == t'[k].pr
      ensures Kept(t[j], t'[k])
    {
      UniqueIndex(y, t, u, reserved, multiset{}, t[j].pr);
    }
    KeptPreserves(y, t, t');
    assert forall m :: m in Locs(e) ==> At(u', m) == 1;
    forall k | 0 <= k < |t| && Sole(t[k], u)
      ensures Sole(t'[k], u')
    {
      if k != i {
        SoleKept(y, t, u, reserved, i, e, u', k);
      }
    }
  }

  /** Copying a stack-only entry through a register: as if it were loaded and then moved. */
  lemma CopyByRegister(y: Layout, t: Table, u: seq<nat>, reserved: multiset<int>, i: nat, tmp: int, to: int)
    requires 1 <= y.nofRegisters <= MAX_USABLE_REGISTERS && i < |t| && Consistent(y, t, u, reserved, multiset{})
    requires t[i].Entry? && t[i].reg == NO_LOCATION
    requires y.IsRegister(tmp) && tmp < |u| && At(u, tmp) == 0 && y.IsStackTmp(to) && to <= |u|
    requires At(Take(u, tmp), to) == 0
    ensures var t', e := t[i := Entry(t[i].pr, NO_LOCATION, to)], Entry(t[i].pr, tmp, t[i].stk);
      var u1 := Take(Take(u, tmp), to);
      var u' := GiveUp(GiveUp(u1, tmp), t[i].stk);
      && Consistent(y, t', u', reserved, multiset{})
      && Preserves(y, t, t', [Movl(OperandOf(y, tmp), OperandOf(y, t[i].stk)),
           Movl(OperandOf(y, to), OperandOf(y, tmp))])
      && PRs(t') == PRs(t) && Separated(t', i, t, u, u')
      && OkEntry(y, |u1|, e) && forall l :: l in Locs(e) ==> 0 <= l < |u1| && u1[l] >= 1
  {
    hide Consistent, Preserves, IndexOf, OperandOf, PRs, Separated, Take, GiveUp;
    TakeOther(u, tmp, to);
    LoadedEntry(y, t, u, reserved, i, tmp);
    var e := Entry(t[i].pr, tmp, t[i].stk);
    var mid, um, t' := t[i := e], Take(u, tmp), t[i := Entry(t[i].pr, NO_LOCATION, to)];
    StackMove(y, mid, um, reserved, i, to);
    assert mid[i := Entry(t[i].pr, NO_LOCATION, to)] == t';
    var c1, c2 := [Movl(OperandOf(y, tmp), OperandOf(y, t[i].stk))], [Movl(OperandOf(y, to), OperandOf(y, tmp))];
    PreservesThrough(y, t, mid, t', c1, c2);
    assert c1 + c2 == [Movl(OperandOf(y, tmp), OperandOf(y, t[i].stk)), Movl(OperandOf(y, to), OperandOf(y, tmp))];
    LoadedSeparated(y, t, u, reserved, i, e, um, t', GiveUp(GiveUp(Take(um, to), tmp), t[i].stk));
  }

  lemma LoadedSeparated(y: Layout, t: Table, u: seq<nat>, reserved: multiset<int>, i: nat, e: Entry, um: seq<nat>,
                        t': Table, u': seq<nat>)
    requires i < |t| == |t'| && Consistent(y, t, u, reserved, multiset{})
    requires Consistent(y, t[i := e], um, reserved, multiset{})
    requires forall l :: l in Locs(e) ==> l in Locs(t[i]) || At(u, l) == 0
    requires Separated(t', i, t[i := e], um, u')
    ensures Separated(t', i, t, u, u')
  {
    hide Consistent;
    forall k | 0 <= k < |t| && Sole(t[k], u)
      ensures Sole(t'[k], u')
    {
      if k != i {
        SoleKept(y, t, u, reserved, i, e, um, k);
        assert Sole(t[i := e][k], um);
      }
    }
  }

  lemma SeparatedThrough(t2: Table, i: int, t1: Table, u1: seq<nat>, u2: seq<nat>, t0: Table, u0: seq<nat>)
    requires Separated(t2, i, t1, u1, u2) && |t0| == |t1|
    requires forall k :: 0 <= k < |t0| && Sole(t0[k], u0) ==> Sole(t1[k], u1)
    ensures Separated(t2, i, t0, u0, u2)
  {}

  // ---- lone holders and spills ---------------------------------------------------------------------

  lemma {:induction false} RefCountSpilled(t: Table, loc: int, spill: int, l: int)
    requires loc != spill && 0 <= loc && 0 <= spill
    requires forall i :: 0 <= i < |t| ==> spill !in Locs(t[i]) && (t[i].Entry? ==> t[i].stk != loc)
    ensures l != loc && l != spill ==> RefCount(Spilled(t, loc, spill), l) == RefCount(t, l)
    ensures RefCount(Spilled(t, loc, spill), spill) <= RefCount(t, loc)
  {
    if t != [] {
      var n := |t| - 1;
      assert Spilled(t, loc, spill)[..n] == Spilled(t[..n], loc, spill);
      RefCountSpilled(t[..n], loc, spill, l);
    }
  }

  /** A spill keeps lone holders lone. */
  lemma SpillStepSeparated(y: Layout, t0: Table, u0: seq<nat>, reserved: multiset<int>, t1: Table, u1: seq<nat>,
                           code: Code)
    requires Consistent(y, t0, u0, reserved, multiset{}) && Consistent(y, t1, u1, reserved, multiset{})
    requires SpillStep(y, t0, u0, t1, code)
    ensures |t1| == |t0| && forall k :: 0 <= k < |t0| && Sole(t0[k], u0) ==> Sole(t1[k], u1)
    ensures OnlyMoves(code)
  {
    hide Consistent, Sole;
    if t1 == t0 && code == [] {
      SameUses(y, t0, u0, reserved, u1);
    } else {
      hide Spilled;
      var loc, spill :| y.IsRegister(loc) && y.IsStackTmp(spill) && At(u0, spill) == 0 && t1 == Spilled(t0, loc, spill)
        && code == [Movl(OperandOf(y, spill), OperandOf(y, loc))];
      assert |t1| == |t0|;
      forall k | 0 <= k < |t0| && Sole(t0[k], u0)
        ensures Sole(t1[k], u1)
      {
        SpilledSole(y, t0, u0, reserved, loc, spill, u1, k);
      }
    }
  }

  lemma SameUses(y: Layout, t: Table, u0: seq<nat>, reserved: multiset<int>, u1: seq<nat>)
    requires Consistent(y, t, u0, reserved, multiset{}) && Consistent(y, t, u1, reserved, multiset{})
    ensures forall k :: 0 <= k < |t| && Sole(t[k], u0) ==> Sole(t[k], u1)
  {
    hide RefCount, Alone;
    forall k, l | 0 <= k < |t| && l in Locs(t[k])
      ensures At(u1, l) == At(u0, l)
    {
      assert OkEntry(y, |u0|, t[k]);
    }
  }

  lemma SpilledSole(y: Layout, t: Table, u: seq<nat>, reserved: multiset<int>, loc: int, spill: int, u': seq<nat>,
                    k: nat)
    requires Consistent(y, t, u, reserved, multiset{})
    requires Consistent(y, Spilled(t, loc, spill), u', reserved, multiset{})
    requires y.IsRegister(loc) && y.IsStackTmp(spill) && At(u, spill) == 0 && k < |t| && Sole(t[k], u)
    ensures Sole(Spilled(t, loc, spill)[k], u')
  {
    var t' := Spilled(t, loc, spill);
    forall i | 0 <= i < |t|
      ensures spill !in Locs(t[i]) && (t[i].Entry? ==> t[i].stk != loc)
    {
      hide Consistent, Sole;
      UnheldBy(y, t, u, reserved, i, spill);
      NotOnStack(y, t, u, reserved, loc);
    }
    forall l | l in Locs(t'[k])
      ensures At(u', l) == 1
    {
      hide Alone, RefCount, Spilled, IndexOf;
      assert OkEntry(y, |u'|, t'[k]);
      RefCountSpilled(t, loc, spill, l);
      RefCountTwo(t', k, k, l);
      ReservedRegisters(y, t, u, reserved, multiset{});
      assert At(u', l) == RefCount(t', l) + (reserved + multiset{})[l];
      if l == spill {
        assert loc in Locs(t[k]);
        assert At(u, loc) == RefCount(t, loc) + (reserved + multiset{})[loc];
      } else {
        assert l in Locs(t[k]) && l != loc;
        assert At(u, l) == RefCount(t, l) + (reserved + multiset{})[l];
      }
    }
  }

  ghost predicate SoleFrom(t: Table, u: seq<nat>, n: int) {
    forall k :: 0 <= k < |t| && n <= k ==> Sole(t[k], u)
  }

  /** Registers have at most been given up. */
  ghost predicate Dropping(t0: Table, t: Table) {
    && |t| == |t0|
    && forall k :: 0 <= k < |t| && t[k].Entry? ==>
         t0[k].Entry? && t[k].pr == t0[k].pr && (t[k].reg == NO_LOCATION || t[k].reg == t0[k].reg)
  }

  /** A register that is not reserved and holds no locked pseudo register. */
  ghost predicate Spareable(y: Layout, t: Table, reserved: multiset<int>, locked: set<PseudoRegister>, r: int) {
    && y.IsRegister(r) && r !in reserved
    && forall k :: 0 <= k < |t| && t[k].Entry? && t[k].reg == r ==> t[k].pr !in locked
  }

  lemma SpillStepDropping(y: Layout, t0: Table, u0: seq<nat>, t1: Table, code: Code)
    requires SpillStep(y, t0, u0, t1, code)
    ensures Dropping(t0, t1)
  {
    hide OperandOf;
  }

  lemma SoleStep(t: Table, i: int, t0: Table, u0: seq<nat>, u: seq<nat>)
    requires Separated(t, i, t0, u0, u) && SoleFrom(t0, u0, i + 1)
    ensures SoleFrom(t, u, i)
  {
    hide Sole;
  }

  lemma SoleUnused(t: Table, i: int, u: seq<nat>)
    requires 0 <= i < |t| && t[i].Unused? && SoleFrom(t, u, i + 1)
    ensures SoleFrom(t, u, i)
  {
    assert Sole(t[i], u);
    hide Sole;
  }

  /** The use counts of the locations of slot i are in range and positive. */
  lemma SlotUses(y: Layout, t: Table, u: seq<nat>, reserved: multiset<int>, i: nat)
    requires i < |t| && Consistent(y, t, u, reserved, multiset{}) && t[i].Entry?
    ensures t[i].reg != NO_LOCATION ==> 0 <= t[i].reg < |u| && u[t[i].reg] >= 1
    ensures t[i].stk != NO_LOCATION ==> 0 <= t[i].stk < |u| && u[t[i].stk] >= 1
  {
    hide Consistent;
    EntryFacts(y, t, u, reserved, multiset{}, i);
    assert t[i].reg != NO_LOCATION ==> t[i].reg in Locs(t[i]);
    assert t[i].stk != NO_LOCATION ==> t[i].stk in Locs(t[i]);
  }

  lemma AlreadySole(y: Layout, t: Table, u: seq<nat>, reserved: multiset<int>, i: nat)
    requires i < |t| && Consistent(y, t, u, reserved, multiset{}) && t[i].Entry?
    ensures Sole(t[i], u) ==> Separated(t, i, t, u, u)
    ensures Sole(t[i], u) <==> (forall l :: l in Locs(t[i]) ==> At(u, l) <= 1)
    ensures Preserves(y, t, t, []) && Dropping(t, t) && OnlyMoves([])
  {
    hide Consistent;
    EntryFacts(y, t, u, reserved, multiset{}, i);
    IdentityPreserves(y, t, u, reserved);
  }

  lemma SoleInjective(y: Layout, t: Table, u: seq<nat>, reserved: multiset<int>)
    requires Consistent(y, t, u, reserved, multiset{}) && SoleFrom(t, u, 0)
    ensures Injective(t)
  {
    hide Consistent;
    forall i, j | 0 <= i < j < |t|
      ensures Locs(t[i]) !! Locs(t[j])
    {
      forall l | l in Locs(t[i])
        ensures l !in Locs(t[j])
      {
        assert Sole(t[i], u);
        if l in Locs(t[j]) {
          SharedCount(y, t, u, reserved, i, j, l);
        }
      }
    }
  }

  lemma SharedCount(y: Layout, t: Table, u: seq<nat>, reserved: multiset<int>, i: nat, j: nat, l: int)
    requires i < |t| && j < |t| && i != j && Consistent(y, t, u, reserved, multiset{})
    requires l in Locs(t[i]) && l in Locs(t[j])
    ensures At(u, l) >= 2
  {
    hide Alone, RefCount, IndexOf;
    assert OkEntry(y, |u|, t[i]);
    RefCountTwo(t, i, j, l);
    assert At(u, l) == RefCount(t, l) + (reserved + multiset{})[l];
  }

  lemma SharedNotSole(y: Layout, t: Table, u: seq<nat>, reserved: multiset<int>)
    requires Consistent(y, t, u, reserved, multiset{})
    ensures forall i, l :: 0 <= i < |t| && l in Locs(t[i]) && At(u, l) > 1 ==> !Injective(t)
  {
    forall i, l | 0 <= i < |t| && l in Locs(t[i]) && At(u, l) > 1
      ensures !Injective(t)
    {
      hide RefCount, Alone, IndexOf, Injective;
      EntryFacts(y, t, u, reserved, multiset{}, i);
      assert At(u, l) == RefCount(t, l) + (reserved + multiset{})[l];
      var j := OtherHolder(t, i, l);
      NotInjective(t, i, j, l);
    }
  }

  lemma NotInjective(t: Table, i: nat, j: nat, l: int)
    requires i < |t| && j < |t| && i != j && l in Locs(t[i]) && l in Locs(t[j])
    ensures !Injective(t)
  {
    if i < j {
      assert !(Locs(t[i]) !! Locs(t[j]));
    } else {
      assert !(Locs(t[j]) !! Locs(t[i]));
    }
  }

  lemma OtherHolder(t: Table, i: nat, l: int) returns (j: nat)
    requires i < |t| && l in Locs(t[i]) && RefCount(t, l) > 1
    ensures j < |t| && j != i && l in Locs(t[j])
  {
    hide RefCount;
    RefCountSet(t, i, Unused, l);
    j := RefCountSome(t[i := Unused], l);
  }

  lemma {:induction false} RefCountBound(t: Table, l: int)
    ensures RefCount(t, l) <= |t|
  {
    if t != [] {
      RefCountBound(t[..|t| - 1], l);
    }
  }

  /** A used register that is not reserved is some pseudo register's. */
  lemma RegisterHolder(y: Layout, t: Table, u: seq<nat>, reserved: multiset<int>, r: int) returns (k: nat)
    requires Consistent(y, t, u, reserved, multiset{}) && y.IsRegister(r) && r !in reserved && At(u, r) != 0
    ensures k < |t| && t[k].Entry? && t[k].reg == r && At(u, r) <= |t|
  {
    hide RefCount, IndexOf;
    NotOnStack(y, t, u, reserved, r);
    assert At(u, r) == RefCount(t, r) + (reserved + multiset{})[r];
    RefCountBound(t, r);
    k := RefCountSome(t, r);
  }

  lemma GiveUpNothing(u: seq<nat>)
    ensures GiveUp(u, NO_LOCATION) == u
  {}

  lemma PassStart(y: Layout, n1: int, n2: int, t: Table, w: Table)
    requires OkTable(y, n1, t) && OkTable(y, n2, w)
    ensures Residual(t, w, |w|) == t && Pairs(t, w, [], [], |w|)
    ensures PushedFor(y, t, w, [], []) == []
  {
    hide IndexOf;
  }

  lemma PassOk(y: Layout, n: int, t: Table, i: nat)
    requires OkTable(y, n, t) && i < |t|
    ensures OkEntry(y, n, t[i])
  {}

  lemma InPRs(t: Table, i: nat)
    requires i < |t| && t[i].Entry?
    ensures t[i].pr in PRs(t)
  {}

  /** The code of the first pass after one more slot. */
  lemma PassCode(y: Layout, c0: Code, c: Code, c': Code, saved: seq<Operand>, e: Entry, f: Entry)
    requires e.Entry? && f.Entry? && c0 <= c
    requires c' == c + if NeedsPush(e, f) then [Pushl(OperandOf(y, Primary(e)))] else []
    requires KeepsAll(c[|c0|..]) && Pushes(c[|c0|..], saved)
    ensures c0 <= c' && KeepsAll(c'[|c0|..])
    ensures Pushes(c'[|c0|..], saved + if NeedsPush(e, f) then [OperandOf(y, Primary(e))] else [])
  {
    hide NeedsPush, OperandOf, Pushes, Copies;
    if NeedsPush(e, f) {
      var o := OperandOf(y, Primary(e));
      assert c'[|c0|..] == c[|c0|..] + [Pushl(o)];
      KeepsAllPush(c[|c0|..], o);
      PushlPushes(c[|c0|..], saved, o, o);
    } else {
      assert c' == c && saved + [] == saved;
    }
  }

  /** Emits the code that brings a value to its wanted locations. */
  method Deliver(masm: MacroAssembler, y: Layout, rloc: int, sloc: int, rwant: int, swant: int, ghost e: Entry,
                 ghost f: Entry)
    requires e.Entry? && e.reg == rloc && e.stk == sloc && f.Entry? && f.reg == rwant && f.stk == swant
    modifies masm
    ensures masm.code == old(masm.code) + Delivery(y, e, f)
  {
    hide OperandOf;
    if rloc != NO_LOCATION && rloc == rwant {
      if swant != NO_LOCATION {
        masm.Movl(OperandOf(y, swant), OperandOf(y, rloc));
      }
    } else if sloc != NO_LOCATION && sloc == swant {
      if rwant != NO_LOCATION {
        masm.Movl(OperandOf(y, rwant), OperandOf(y, sloc));
      }
    } else if rwant != NO_LOCATION {
      masm.Popl(OperandOf(y, rwant));
      if swant != NO_LOCATION {
        masm.Movl(OperandOf(y, swant), OperandOf(y, rwant));
      }
    } else {
      masm.Popl(OperandOf(y, swant));
    }
  }

  /** Takes the wanted locations that are not held yet. */
  method Acquire(locations: Locations, rloc: int, sloc: int, rwant: int, swant: int, ghost e: Entry, ghost f: Entry)
    requires locations.Valid() && e.Entry? && e.reg == rloc && e.stk == sloc && f.Entry? && f.reg == rwant
    requires f.stk == swant
    requires f.reg != f.stk && Differs(e, f)
    requires forall l :: l in Missing(e, f) ==>
      0 <= l < |locations.Uses()| && !locations.layout.IsArgument(l) && At(locations.Uses(), l) == 0
    modifies locations
    ensures locations.Valid() && |locations.Uses()| == |old(locations.Uses())|
    ensures locations.Uses() == Acquired(old(locations.Uses()), e, f)
  {
    hide Sound, UseCounts, Take;
    MissingLocs(e, f);
    if !(rloc != NO_LOCATION && rloc == rwant) && rwant != NO_LOCATION {
      if f.stk in Missing(e, f) { TakeKeeps(locations.Uses(), f.reg, f.stk); }
      locations.Allocate(rwant);
    }
    if !(sloc != NO_LOCATION && sloc == swant) && swant != NO_LOCATION {
      locations.Allocate(swant);
    }
  }

  lemma MissingLocs(e: Entry, f: Entry)
    requires e.Entry? && f.Entry? && f.reg != f.stk && Differs(e, f)
    ensures f.reg in Missing(e, f) <==> f.reg != NO_LOCATION && !RegisterConforms(e, f)
    ensures f.stk in Missing(e, f) <==> f.stk != NO_LOCATION && !StackConforms(e, f)
  {}

  lemma PairLengths(t: Table, w: Table, src: seq<int>, dst: seq<int>)
    requires Pairs(t, w, src, dst, 0)
    ensures |src| == |dst|
    ensures forall a, b :: 0 <= a < b < |src| ==> src[a] != src[b]
  {}

  lemma NoPushes(y: Layout, t: Table, w: Table)
    ensures PushedFor(y, t, w, [], []) == []
  {}

  /** What the second pass knows about its next pair. */
  lemma PassPair(y: Layout, n0: int, n: int, m: int, t: Table, w: Table, src: seq<int>, dst: seq<int>, k: nat)
    requires Pairs(t, w, src, dst, 0) && k < |src| && OkTable(y, n0, t) && OkTable(y, n, w) && n0 <= m && n <= m
    ensures |src| == |dst| && 0 <= src[k] < |t| && 0 <= dst[k] < |w|
    ensures t[src[k]].Entry? && w[dst[k]].Entry? && t[src[k]].pr == w[dst[k]].pr && Differs(t[src[k]], w[dst[k]])
    ensures Wanted(w, t[src[k]]) == w[dst[k]]
    ensures OkEntry(y, m, t[src[k]]) && OkEntry(y, m, w[dst[k]])
    ensures forall a, b :: 0 <= a < b < |src| ==> src[a] != src[b]
  {
    hide IndexOf;
    UniqueSlot(y, n, w, dst[k]);
    PassOk(y, n0, t, src[k]);
    PassOk(y, n, w, dst[k]);
  }

  lemma PassTop(y: Layout, t: Table, w: Table, src: seq<int>, dst: seq<int>, i: nat, j: nat)
    requires |src| == |dst| && i < |t| && j < |w| && t[i].Entry? && w[j].Entry?
    ensures var saved := PushedFor(y, t, w, src + [i], dst + [j]);
      && OnTop(y, saved, t[i], w[j])
      && PushedFor(y, t, w, src, dst) == if NeedsPush(t[i], w[j]) then saved[..|saved| - 1] else saved
  {
    hide OperandOf, NeedsPush, PushedFor;
    PushedForSnoc(y, t, w, src, dst, i, j);
  }

  /** One step of the second pass on the pair (i, j) that was pushed last. */
  lemma PassStep(y: Layout, n0: int, n: int, t: Table, w: Table, src0: seq<int>, dst0: seq<int>, src: seq<int>,
                 dst: seq<int>, i: int, j: int, u: seq<nat>, reserved: multiset<int>, c: Code)
    requires OkTable(y, n0, t) && OkTable(y, n, w) && n0 <= |u| && n <= |u|
    requires Pairs(t, w, src0, dst0, 0) && WantsOnly(y, t, w, reserved)
    requires |dst| == |src| < |src0| == |dst0| && src + [i] == src0[..|src| + 1] && dst + [j] == dst0[..|src| + 1]
    requires Resolving(y, t, w, Pending(t, w, src + [i]), u, reserved, c, PushedFor(y, t, w, src + [i], dst + [j]))
    ensures 0 <= i < |t| && 0 <= j < |w| && t[i].Entry? && w[j].Entry? && t[i].pr == w[j].pr && Differs(t[i], w[j])
    ensures OkEntry(y, |u|, t[i]) && OkEntry(y, |u|, w[j]) && Untouched(t, w, src + [i])[i] == t[i]
    ensures forall l :: l in Missing(t[i], w[j]) ==> 0 <= l < |u| && !y.IsArgument(l) && At(u, l) == 0
    ensures Untouched(t, w, src) == Untouched(t, w, src + [i])[i := w[j]] && |Acquired(u, t[i], w[j])| == |u|
    ensures Resolving(y, t, w, Pending(t, w, src), Acquired(u, t[i], w[j]), reserved, c + Delivery(y, t[i], w[j]),
                      PushedFor(y, t, w, src, dst))
  {
    hide OkTable, WantsOnly, IndexOf, Pairs, Pending, Untouched, PushedFor, NeedsPush, Resolving, Delivery, Acquired,
      Missing;
    var k := |src|;
    assert src0[..k] == src && src0[k] == i && dst0[k] == j;
    PassPair(y, n0, n, |u|, t, w, src0, dst0, k);
    PassTop(y, t, w, src, dst, i, j);
    PendingStep(t, w, src0, k);
    ResolveSlot(y, t, w, Pending(t, w, src0[..k + 1]), u, reserved, c, PushedFor(y, t, w, src + [i], dst + [j]), i);
  }

  function Stripped(t: Table, w: Table, n: int): (r: Table)
    ensures |r| == |t|
    ensures forall k ::
      0 <= k < |t| ==> r[k] == if n <= k && t[k].Entry? && IndexOf(w, t[k].pr) < 0 then Unused else t[k]
  {
    seq(|t|, k requires 0 <= k < |t| => if n <= k && t[k].Entry? && IndexOf(w, t[k].pr) < 0 then Unused else t[k])
  }

  lemma StrippedNothing(t: Table, w: Table)
    ensures Stripped(t, w, |t|) == t
  {}

  lemma StrippedStep(t: Table, w: Table, i: nat)
    requires i < |t|
    ensures Stripped(t, w, i + 1)[i] == t[i]
    ensures Stripped(t, w, i) == if t[i].Entry? && IndexOf(w, t[i].pr) < 0 then Stripped(t, w, i + 1)[i := Unused]
      else Stripped(t, w, i + 1)
  {
    hide IndexOf, Stripped;
  }

  lemma AllMatched(t: Table, w: Table)
    requires PRs(t) <= PRs(w)
    ensures forall i :: 0 <= i < |t| && t[i].Entry? ==> 0 <= IndexOf(w, t[i].pr)
  {
    hide IndexOf;
    forall i | 0 <= i < |t| && t[i].Entry?
      ensures 0 <= IndexOf(w, t[i].pr)
    {
      AbsentPR(w, t[i].pr);
      assert t[i].pr in PRs(t);
    }
  }

  lemma WantsUnreserved(y: Layout, t: Table, w: Table, reserved: multiset<int>)
    requires WantsOnly(y, t, w, reserved)
    ensures forall i, l :: 0 <= i < |t| && l in Locs(Wanted(w, t[i])) ==> l !in reserved
  {
    hide IndexOf;
    forall i, l | 0 <= i < |t| && l in Locs(Wanted(w, t[i]))
      ensures l !in reserved
    {
      assert Wanted(w, t[i]).Entry?;
    }
  }
}
