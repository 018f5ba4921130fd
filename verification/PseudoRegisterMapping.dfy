/** The mapping of pseudo registers to locations that the code generator keeps while it emits code. */
module RegisterMapping {
  import opened Machine
  import opened LocationPool
  import opened MappingTable
  import opened Conformance
  import opened MappingSteps
  import opened Temporaries

  class PseudoRegisterMapping {
    const masm: MacroAssembler
    const locations: Locations
    var nonLocalReturnInProgress: bool
    var pseudoRegisters: seq<PseudoRegister?>
    var registerLocations: seq<int>
    var stackLocations: seq<int>
    var temporaryLocations: seq<int>

    ghost predicate Shape()
      reads this
    {
      |registerLocations| == |stackLocations| == |pseudoRegisters|
    }

    ghost function Contents(): (t: Table)
      requires Shape()
      reads this
      ensures |t| == |pseudoRegisters|
    {
      TableOf(pseudoRegisters, registerLocations, stackLocations)
    }

    function Y(): Layout {
      locations.layout
    }

    function NonLocalReturnRegisters(): seq<int> {
      [Y().nofArguments + 0, Y().nofArguments + 4, Y().nofArguments + 5]
    }

    /** Registers in use by temporaries and by a non-local return in progress. */
    ghost function Reserved(): multiset<int>
      reads this
    {
      multiset(temporaryLocations) + if nonLocalReturnInProgress then multiset(NonLocalReturnRegisters())
        else multiset{}
    }

    twostate predicate KeepsReservations()
      reads this
    {
      && temporaryLocations == old(temporaryLocations)
      && nonLocalReturnInProgress == old(nonLocalReturnInProgress)
      && Reserved() == old(Reserved())
    }

    ghost predicate Valid()
      reads this, locations
    {
      && locations.Valid()
      && Shape()
      && Consistent(Y(), Contents(), locations.Uses(), Reserved(), multiset{})
    }

    constructor (assm: MacroAssembler, nofArgs: nat, nofRegs: nat, nofTemps: nat)
      requires 1 <= nofRegs <= MAX_USABLE_REGISTERS && 1 <= nofTemps
      requires nofArgs + nofRegs + nofTemps <= SENTINEL
      ensures Valid() && fresh(locations) && masm == assm
      ensures Contents() == [] && Reserved() == multiset{}
      ensures Y() == Layout(nofArgs, nofRegs) && locations.Uses() == Zeros(nofArgs + nofRegs + nofTemps)
      ensures |locations.freeList| == nofArgs + nofRegs + nofTemps
    {
      masm := assm;
      nonLocalReturnInProgress := false;
      locations := new Locations(nofArgs, nofRegs, nofTemps);
      pseudoRegisters, registerLocations, stackLocations, temporaryLocations := [], [], [], [];
    }

    function HasRegLoc(i: int): bool
      requires 0 <= i < |registerLocations|
      reads this, locations
    {
      locations.IsLocation(registerLocations[i])
    }

    function HasStkLoc(i: int): bool
      requires 0 <= i < |stackLocations|
      reads this, locations
    {
      locations.IsLocation(stackLocations[i])
    }

    /** The slot of a pseudo register, or -1; the cached slot only saves the search. */
    method Find(pr: PseudoRegister, ghost n: int) returns (i: int)
      requires Shape() && OkTable(Y(), n, Contents())
      modifies pr
      ensures i == IndexOf(Contents(), pr)
    {
      hide IndexOf, TableOf;
      i := pr.mapIndexCache;
      if i < |pseudoRegisters| && pseudoRegisters[i] == pr {
        UniqueSlot(Y(), n, Contents(), i);
        return;
      }
      i := |pseudoRegisters| - 1;
      while i >= 0 && pseudoRegisters[i] != pr
        invariant -1 <= i < |pseudoRegisters|
        invariant forall k :: i < k < |pseudoRegisters| ==> pseudoRegisters[k] != pr
      {
        i := i - 1;
      }
      if i >= 0 {
        UniqueSlot(Y(), n, Contents(), i);
        pr.mapIndexCache := i;
      }
    }

    method Index(pr: PseudoRegister) returns (i: int)
      requires Valid()
      modifies pr
      ensures Valid() && i == IndexOf(Contents(), pr)
    {
      hide IndexOf, TableOf, Counted, Alone, Sound, UseCounts, OkTable;
      i := Find(pr, |locations.Uses()|);
    }

    method SetEntry(i: int, pr: PseudoRegister, rloc: int, sloc: int)
      requires Shape() && 0 <= i < |pseudoRegisters|
      modifies this, pr
      ensures Shape() && Contents() == old(Contents())[i := Entry(pr, rloc, sloc)]
      ensures pr.mapIndexCache == i
      ensures KeepsReservations()
    {
      pseudoRegisters := pseudoRegisters[i := pr];
      registerLocations := registerLocations[i := rloc];
      stackLocations := stackLocations[i := sloc];
      pr.mapIndexCache := i;
    }

    /** An unused slot; the table grows if there is none. */
    method FreeSlot() returns (i: int)
      requires Shape()
      modifies this
      ensures Shape() && i == if FreeIndex(old(Contents())) < 0 then |old(Contents())| else FreeIndex(old(Contents()))
      ensures Contents() == if FreeIndex(old(Contents())) < 0 then old(Contents()) + [Unused] else old(Contents())
      ensures KeepsReservations()
    {
      hide FreeIndex;
      i := |pseudoRegisters| - 1;
      while i >= 0 && pseudoRegisters[i] != null
        invariant -1 <= i < |pseudoRegisters|
        invariant forall k :: i < k < |pseudoRegisters| ==> Contents()[k].Entry?
      {
        i := i - 1;
      }
      if i < 0 {
        pseudoRegisters := pseudoRegisters + [null];
        registerLocations := registerLocations + [NO_LOCATION];
        stackLocations := stackLocations + [NO_LOCATION];
        i := |pseudoRegisters| - 1;
      }
    }

    method KillSlot(i: int)
      requires Valid() && 0 <= i < |Contents()| && Contents()[i].Entry?
      modifies this, locations
      ensures Valid() && Contents() == old(Contents())[i := Unused]
      ensures locations.Uses() == GiveUp(GiveUp(old(locations.Uses()), old(Contents())[i].reg), old(Contents())[i].stk)
      ensures KeepsReservations() && |locations.freeList| == |old(locations.freeList)|
    {
      hide TableOf, Sound, UseCounts, Consistent, IndexOf, Locs, OkEntry, Swapped, GiveUp;
      ghost var t, u := Contents(), locations.Uses();
      EntryFacts(Y(), t, u, Reserved(), multiset{}, i);
      ReleaseEntry(locations, registerLocations[i], stackLocations[i], t[i]);
      pseudoRegisters := pseudoRegisters[i := null];
      assert Contents() == t[i := Unused];
      ClearedConsistent(Y(), t, u, Reserved(), i);
    }

    /** Removes a pseudo register and gives up its locations. */
    method Kill(pr: PseudoRegister)
      requires Valid()
      modifies this, locations, pr
      ensures Valid() && Contents() == Killed(old(Contents()), pr)
      ensures locations.Uses() == KilledUses(old(Contents()), old(locations.Uses()), pr)
      ensures KeepsReservations() && |locations.freeList| == |old(locations.freeList)|
    {
      hide TableOf, Sound, UseCounts, Consistent, IndexOf;
      var i := Index(pr);
      if i >= 0 {
        KillSlot(i);
      }
    }

    method AddEntry(pr: PseudoRegister, rloc: int, sloc: int)
      requires Shape()
      modifies this, pr
      ensures Shape() && Contents() == Added(old(Contents()), Entry(pr, rloc, sloc))
      ensures KeepsReservations()
    {
      hide FreeIndex;
      var i := FreeSlot();
      SetEntry(i, pr, rloc, sloc);
    }

    method MapToArgument(pr: PseudoRegister, argNo: int)
      requires Valid() && IndexOf(Contents(), pr) < 0 && 0 <= argNo < Y().nofArguments
      modifies this, locations, pr
      ensures Valid() && Contents() == Added(old(Contents()), Entry(pr, NO_LOCATION, argNo))
      ensures KeepsReservations() && |locations.freeList| == |old(locations.freeList)|
    {
      hide TableOf, Sound, UseCounts, Consistent, IndexOf, Added, Take;
      ghost var t, u := Contents(), locations.Uses();
      locations.Facts();
      ReservedRegisters(Y(), t, u, Reserved(), multiset{});
      locations.Use(argNo);
      AddEntry(pr, NO_LOCATION, argNo);
      TakeSize(u, argNo);
      AddedOne(Y(), t, u, Reserved(), Entry(pr, NO_LOCATION, argNo), argNo);
    }

    method MapToTemporary(pr: PseudoRegister, tempNo: int)
      requires Valid() && IndexOf(Contents(), pr) < 0 && 0 <= tempNo
      requires locations.IsLocation(Y().StackTmpsBeg() + tempNo)
      requires At(locations.Uses(), Y().StackTmpsBeg() + tempNo) == 0
      modifies this, locations, pr
      ensures Valid() && Contents() == Added(old(Contents()), Entry(pr, NO_LOCATION, Y().StackTmpsBeg() + tempNo))
      ensures KeepsReservations() && |locations.freeList| == |old(locations.freeList)|
    {
      hide TableOf, Sound, UseCounts, Consistent, IndexOf, Added, Take;
      ghost var t, u := Contents(), locations.Uses();
      var loc := Y().StackTmpsBeg() + tempNo;
      FreeNotReserved(Y(), t, u, Reserved(), multiset{}, loc);
      locations.Allocate(loc);
      AddEntry(pr, NO_LOCATION, loc);
      TakeSize(u, loc);
      AddedOne(Y(), t, u, Reserved(), Entry(pr, NO_LOCATION, loc), loc);
    }

    method MapToRegister(pr: PseudoRegister, loc: int)
      requires Valid() && IndexOf(Contents(), pr) < 0 && Y().IsRegister(loc) && At(locations.Uses(), loc) == 0
      modifies this, locations, pr
      ensures Valid() && Contents() == Added(old(Contents()), Entry(pr, loc, NO_LOCATION))
      ensures KeepsReservations() && |locations.freeList| == |old(locations.freeList)|
    {
      hide TableOf, Sound, UseCounts, Consistent, IndexOf, Added, Take;
      ghost var t, u := Contents(), locations.Uses();
      locations.Facts();
      FreeNotReserved(Y(), t, u, Reserved(), multiset{}, loc);
      locations.Allocate(loc);
      AddEntry(pr, loc, NO_LOCATION);
      TakeSize(u, loc);
      AddedOne(Y(), t, u, Reserved(), Entry(pr, loc, NO_LOCATION), loc);
    }

    /** Picks the slot to spill: an unlocked pseudo register in a least-used register, the highest
        such slot; -1 if there is none. */
    method SpillablePseudoRegisterIndex(locked: set<PseudoRegister>) returns (i0: int)
      requires Valid()
      ensures -1 <= i0 < |Contents()|
      ensures i0 < 0 ==> forall k :: 0 <= k < |Contents()| ==> !Spillable(Y(), Contents()[k], locations.Uses(), locked)
      ensures 0 <= i0 ==> Victim(Y(), Contents(), locations.Uses(), locked, i0)
    {
      hide TableOf, Sound, UseCounts, Consistent;
      locations.Facts();
      var uses := MANY_USES;
      i0 := -1;
      var i := |pseudoRegisters|;
      while i > 0
        invariant 0 <= i <= |pseudoRegisters| && (i0 == -1 || i <= i0 < |pseudoRegisters|)
        invariant i0 == -1 ==> uses == MANY_USES
        invariant 0 <= i0 ==>
          Spillable(Y(), Contents()[i0], locations.Uses(), locked) && uses == At(locations.Uses(), Contents()[i0].reg)
        invariant forall k :: i <= k < |pseudoRegisters| && Spillable(Y(), Contents()[k], locations.Uses(), locked) ==>
          At(locations.Uses(), Contents()[k].reg) >= uses + if i0 < k then 1 else 0
      {
        i := i - 1;
        var pr, rloc := pseudoRegisters[i], registerLocations[i];
        if pr != null && Y().IsRegister(rloc) && pr !in locked && locations.Uses()[rloc] < uses {
          uses := locations.Uses()[rloc];
          i0 := i;
        }
      }
    }

    ghost predicate Room(n: nat)
      reads locations
    {
      |locations.freeList| + n <= SENTINEL
    }

    method SpillSlot(i: int, loc: int, spillLoc: int)
      requires Shape() && locations.Valid()
      requires Consistent(Y(), Contents(), locations.Uses(), Reserved(), multiset{spillLoc})
      requires 0 <= i < |Contents()| && Contents()[i].Entry? && Contents()[i].reg == loc
      requires Y().IsRegister(loc) && Y().IsStackTmp(spillLoc)
      modifies this, locations
      ensures Shape() && locations.Valid()
      ensures Contents() == old(Contents())[i := SpilledEntry(old(Contents())[i], loc, spillLoc)]
      ensures Consistent(Y(), Contents(), locations.Uses(), Reserved(), multiset{spillLoc})
      ensures KeepsReservations()
      ensures At(old(locations.Uses()), loc) == At(locations.Uses(), loc) + 1
      ensures |locations.freeList| == |old(locations.freeList)|
      ensures locations.freeRegs == if At(locations.Uses(), loc) == 0 then [loc] + old(locations.freeRegs)
        else old(locations.freeRegs)
    {
      hide TableOf, Sound, UseCounts, Consistent, Take, GiveUp, RefCount;
      SpillOne(Y(), Contents(), locations.Uses(), Reserved(), i, loc, spillLoc);
      SlotToStack(i, loc, spillLoc);
    }

    /** Slot i gives its register up and takes the stack location, unless it has one already. */
    method SlotToStack(i: int, loc: int, spillLoc: int)
      requires Shape() && locations.Valid() && 0 <= i < |Contents()| && Contents()[i].Entry? && Contents()[i].reg == loc
      requires Y().IsRegister(loc) && Y().IsStackTmp(spillLoc)
      requires loc < |locations.Uses()| && locations.Uses()[loc] >= 1
      requires spillLoc < |locations.Uses()| && locations.Uses()[spillLoc] >= 1
      requires Contents()[i].stk == NO_LOCATION || 0 <= Contents()[i].stk < |locations.Uses()|
      modifies this, locations
      ensures Shape() && locations.Valid() && KeepsReservations()
      ensures Contents() == old(Contents())[i := SpilledEntry(old(Contents())[i], loc, spillLoc)]
      ensures locations.Uses() ==
        if old(Contents())[i].stk == NO_LOCATION then Take(GiveUp(old(locations.Uses()), loc), spillLoc)
        else GiveUp(old(locations.Uses()), loc)
      ensures At(old(locations.Uses()), loc) == At(locations.Uses(), loc) + 1
      ensures |locations.freeList| == |old(locations.freeList)|
      ensures locations.freeRegs == if At(locations.Uses(), loc) == 0 then [loc] + old(locations.freeRegs)
        else old(locations.freeRegs)
    {
      hide TableOf, Sound, UseCounts, Take, GiveUp;
      ghost var t, u := Contents(), locations.Uses();
      GiveUpOne(u, loc, spillLoc);
      locations.Release(loc);
      registerLocations := registerLocations[i := NO_LOCATION];
      if !HasStkLoc(i) {
        TakeOther(locations.Uses(), spillLoc, loc);
        locations.Use(spillLoc);
        stackLocations := stackLocations[i := spillLoc];
      }
      assert Contents() == t[i := SpilledEntry(t[i], loc, spillLoc)];
    }

    /** Moves every pseudo register out of register `loc` into a fresh stack location. */
    method SpillRegister(loc: int) returns (spillLoc: int)
      requires Valid() && Y().IsRegister(loc) && loc !in Reserved() && Room(1)
      modifies this, locations, masm
      ensures Valid() && KeepsReservations()
      ensures Y().IsStackTmp(spillLoc) && At(old(locations.Uses()), spillLoc) == 0
      ensures Contents() == Spilled(old(Contents()), loc, spillLoc)
      ensures masm.code == old(masm.code) + [Movl(OperandOf(Y(), spillLoc), OperandOf(Y(), loc))]
      ensures At(old(locations.Uses()), loc) > 0 ==> locations.freeRegs == [loc] + old(locations.freeRegs)
      ensures |old(locations.freeList)| <= |locations.freeList| <= |old(locations.freeList)| + 1
    {
      hide TableOf, Sound, UseCounts, Consistent, Take, GiveUp, OperandOf;
      ghost var t0, u0 := Contents(), locations.Uses();
      NotOnStack(Y(), t0, u0, Reserved(), loc);
      spillLoc := locations.AllocateStackTmp();
      StartFlight(Y(), t0, u0, Reserved(), spillLoc);
      TakeOther(u0, spillLoc, loc);
      SpillSlots(loc, spillLoc);
      SpilledGone(Y(), t0, locations.Uses(), Reserved(), loc, spillLoc);
      EndFlight(Y(), Contents(), locations.Uses(), Reserved(), spillLoc);
      locations.Release(spillLoc);
      masm.Movl(OperandOf(Y(), spillLoc), OperandOf(Y(), loc));
    }

    /** All slots in the register, from the last to the first. */
    method SpillSlots(loc: int, spillLoc: int)
      requires Shape() && locations.Valid() && Y().IsRegister(loc) && Y().IsStackTmp(spillLoc)
      requires Consistent(Y(), Contents(), locations.Uses(), Reserved(), multiset{spillLoc})
      modifies this, locations
      ensures Shape() && locations.Valid() && Contents() == Spilled(old(Contents()), loc, spillLoc)
      ensures Consistent(Y(), Contents(), locations.Uses(), Reserved(), multiset{spillLoc}) && KeepsReservations()
      ensures At(locations.Uses(), loc) <= At(old(locations.Uses()), loc)
      ensures |locations.freeList| == |old(locations.freeList)|
      ensures locations.freeRegs ==
        if At(locations.Uses(), loc) == 0 && At(old(locations.Uses()), loc) > 0 then [loc] + old(locations.freeRegs)
        else old(locations.freeRegs)
    {
      hide TableOf, Sound, UseCounts, Consistent;
      ghost var t0, u0, fr0 := Contents(), locations.Uses(), locations.freeRegs;
      var i := |pseudoRegisters|;
      while i > 0
        invariant 0 <= i <= |t0| && Shape() && locations.Valid()
        invariant Contents() == SpilledFrom(t0, loc, spillLoc, i)
        invariant Consistent(Y(), Contents(), locations.Uses(), Reserved(), multiset{spillLoc})
        invariant KeepsReservations() && At(locations.Uses(), loc) <= At(u0, loc)
        invariant locations.freeRegs == if At(locations.Uses(), loc) == 0 && At(u0, loc) > 0 then [loc] + fr0 else fr0
        invariant |locations.freeList| == |old(locations.freeList)|
      {
        i := i - 1;
        if pseudoRegisters[i] != null && registerLocations[i] == loc {
          SpillSlot(i, loc, spillLoc);
          assert Contents() == SpilledFrom(t0, loc, spillLoc, i);
        }
      }
    }

    /** Spills a register if none is free. It fails, changing nothing, exactly when no register is
        free and none can be spilled. */
    method EnsureOneFreeRegister(locked: set<PseudoRegister>) returns (ok: bool)
      requires Valid() && Room(1)
      modifies this, locations, masm
      ensures Valid() && KeepsReservations()
      ensures ok <==> old(CanFreeRegister(locked))
      ensures ok ==> locations.freeRegs != []
      ensures !ok ==> unchanged(this) && unchanged(locations) && unchanged(masm)
      ensures old(masm.code) <= masm.code
      ensures SpillStep(Y(), old(Contents()), old(locations.Uses()), Contents(), masm.code[|old(masm.code)|..])
      ensures old(locations.freeRegs) != [] ==> unchanged(this) && unchanged(locations) && unchanged(masm)
      ensures ok && old(locations.freeRegs) == [] ==>
        && |locations.freeRegs| == 1
        && SpillsVictim(Y(), old(Contents()), old(locations.Uses()), locked, masm.code[|old(masm.code)|..],
             locations.freeRegs[0])
      ensures |old(locations.freeList)| <= |locations.freeList| <= |old(locations.freeList)| + 1
    {
      hide TableOf, Sound, UseCounts, Consistent, Spilled, OperandOf, SpillsVictim;
      locations.Facts();
      ok := true;
      if !locations.FreeRegisters() {
        var i := SpillablePseudoRegisterIndex(locked);
        if i < 0 {
          return false;
        }
        SpillVictim(i, locked);
      }
    }

    method SpillVictim(i: int, ghost locked: set<PseudoRegister>)
      requires Valid() && Room(1) && Victim(Y(), Contents(), locations.Uses(), locked, i) && locations.freeRegs == []
      modifies this, locations, masm
      ensures Valid() && KeepsReservations() && old(masm.code) <= masm.code && |locations.freeRegs| == 1
      ensures SpillStep(Y(), old(Contents()), old(locations.Uses()), Contents(), masm.code[|old(masm.code)|..])
      ensures SpillsVictim(Y(), old(Contents()), old(locations.Uses()), locked, masm.code[|old(masm.code)|..],
        locations.freeRegs[0])
      ensures |old(locations.freeList)| <= |locations.freeList| <= |old(locations.freeList)| + 1
    {
      hide TableOf, Sound, UseCounts, Consistent, Spilled, OperandOf, SpillsVictim;
      ghost var t, u := Contents(), locations.Uses();
      assert Spillable(Y(), t[i], u, locked);
      EntryFacts(Y(), t, u, Reserved(), multiset{}, i);
      var spillLoc := SpillRegister(registerLocations[i]);
      assert masm.code[|old(masm.code)|..] == [Movl(OperandOf(Y(), spillLoc), OperandOf(Y(), t[i].reg))];
      VictimSpilled(Y(), t, u, locked, i, spillLoc);
    }

    ghost predicate CanFreeRegister(locked: set<PseudoRegister>)
      requires Shape()
      reads this, locations
    {
      || locations.freeRegs != []
      || exists k :: 0 <= k < |Contents()| && Spillable(Y(), Contents()[k], locations.Uses(), locked)
    }

    /** Takes the register `hint`, or any register if there is no hint. */
    method TakeRegister(hint: int, locked: set<PseudoRegister>) returns (ok: bool, loc: int, ghost u: seq<nat>)
      requires Valid() && Room(1)
      requires hint != NO_LOCATION ==> Y().IsRegister(hint) && At(locations.Uses(), hint) == 0
      modifies this, locations, masm
      ensures Shape() && locations.Valid() && KeepsReservations()
      ensures ok <==> hint != NO_LOCATION || old(CanFreeRegister(locked))
      ensures !ok ==> unchanged(this) && unchanged(locations) && unchanged(masm)
      ensures ok ==> Y().IsRegister(loc) && (hint != NO_LOCATION ==> loc == hint)
      ensures ok ==> Consistent(Y(), Contents(), u, Reserved(), multiset{}) && At(u, loc) == 0 && loc < |u|
      ensures ok ==> locations.Uses() == Take(u, loc)
      ensures hint != NO_LOCATION || old(locations.freeRegs) != [] ==>
        Contents() == old(Contents()) && masm.code == old(masm.code)
      ensures old(masm.code) <= masm.code
      ensures SpillStep(Y(), old(Contents()), old(locations.Uses()), Contents(), masm.code[|old(masm.code)|..])
      ensures |old(locations.freeList)| <= |locations.freeList| <= |old(locations.freeList)| + 1
    {
      hide TableOf, Sound, UseCounts, Consistent, Spilled, OperandOf, Take, SpillsVictim, Victim, Spillable, IndexOf;
      locations.Facts();
      ok := true;
      u := locations.Uses();
      if hint == NO_LOCATION {
        ok := EnsureOneFreeRegister(locked);
        if !ok {
          return false, NO_LOCATION, u;
        }
        u := locations.Uses();
        loc := locations.AllocateRegister();
      } else {
        loc := hint;
        locations.Allocate(loc);
        assert masm.code[|old(masm.code)|..] == [];
      }
    }

    /** Gives a pseudo register a register of its own for a new value; what it held is dropped. Without
        a hint it fails exactly if, with the old value gone, no register is free and none can be spilled. */
    method Def(pr: PseudoRegister, hint: int, locked: set<PseudoRegister>) returns (ok: bool, loc: int)
      requires Valid() && Room(1)
      requires hint != NO_LOCATION ==> Y().IsRegister(hint) && HeldOnlyBy(hint, pr)
      modifies this, locations, masm, pr
      ensures Valid() && KeepsReservations()
      ensures ok <==>
        || hint != NO_LOCATION
        || old(FreesRegister(Y(), Killed(Contents(), pr), KilledUses(Contents(), locations.Uses(), pr), locked))
      ensures !ok ==> Contents() == Killed(old(Contents()), pr) && masm.code == old(masm.code)
      ensures ok ==> Y().IsRegister(loc) && At(locations.Uses(), loc) == 1 && (hint != NO_LOCATION ==> loc == hint)
      ensures ok ==> 0 <= IndexOf(Contents(), pr) && Contents()[IndexOf(Contents(), pr)] == Entry(pr, loc, NO_LOCATION)
      ensures ok ==> PRs(Contents()) == PRs(old(Contents())) + {pr}
      ensures old(masm.code) <= masm.code
      ensures ok ==> Preserves(Y(), Killed(old(Contents()), pr), Contents(), masm.code[|old(masm.code)|..])
      ensures hint != NO_LOCATION || old(SomeFree(Y(), KilledUses(Contents(), locations.Uses(), pr))) ==>
        Contents() == Added(Killed(old(Contents()), pr), Entry(pr, loc, NO_LOCATION)) && masm.code == old(masm.code)
      ensures |locations.freeList| <= |old(locations.freeList)| + 1
    {
      hide TableOf, Sound, UseCounts, Consistent, Spilled, OperandOf, Take, IndexOf, Preserves, SpillStep, Added,
        Killed, PRs,
        SomeFree;
      ghost var t0, c0 := Contents(), masm.code;
      locations.Facts();
      ghost var u0 := locations.Uses();
      KilledFacts(Y(), t0, u0, Reserved(), pr);
      Kill(pr);
      ghost var t1, u1 := Contents(), locations.Uses();
      CanFree(locked);
      if hint != NO_LOCATION {
        HintFree(Y(), t0, u0, Reserved(), pr, hint, u1);
      }
      ghost var u;
      ok, loc, u := TakeRegister(hint, locked);
      if !ok {
        return;
      }
      DefEntry(Y(), t1, u1, Reserved(), Contents(), masm.code[|c0|..], u, pr, loc);
      AddEntry(pr, loc, NO_LOCATION);
    }

    /** Whether a register can be had, in terms of the use counts. */
    lemma CanFree(locked: set<PseudoRegister>)
      requires Valid()
      ensures locations.freeRegs != [] <==> SomeFree(Y(), locations.Uses())
      ensures CanFreeRegister(locked) <==> FreesRegister(Y(), Contents(), locations.Uses(), locked)
    {
      hide TableOf, Sound, UseCounts, Consistent;
      locations.Facts();
    }

    ghost predicate HeldOnlyBy(l: int, pr: PseudoRegister)
      requires Shape()
      reads this, locations
    {
      var i := IndexOf(Contents(), pr);
      At(locations.Uses(), l) == if 0 <= i && Contents()[i].reg == l then 1 else 0
    }

    /** Moves the register of slot i to `hint`. */
    method ChangeRegister(i: int, hint: int)
      requires Valid() && 0 <= i < |Contents()| && Contents()[i].Entry? && Contents()[i].reg != NO_LOCATION
      requires Y().IsRegister(hint) && At(locations.Uses(), hint) == 0
      modifies this, locations, masm
      ensures Valid() && KeepsReservations() && |locations.freeList| == |old(locations.freeList)|
      ensures Contents() == old(Contents())[i := Entry(old(Contents())[i].pr, hint, old(Contents())[i].stk)]
      ensures IndexOf(Contents(), Contents()[i].pr) == i && PRs(Contents()) == PRs(old(Contents()))
      ensures old(masm.code) <= masm.code
      ensures Preserves(Y(), old(Contents()), Contents(), masm.code[|old(masm.code)|..])
    {
      hide TableOf, Sound, UseCounts, Consistent, OperandOf, Take, GiveUp, IndexOf, Preserves, PRs;
      ghost var t, u, c := Contents(), locations.Uses(), masm.code;
      var oldLoc := registerLocations[i];
      locations.Facts();
      EntryFacts(Y(), t, u, Reserved(), multiset{}, i);
      MovedEntry(Y(), t, u, Reserved(), i, oldLoc, hint);
      GiveUpOne(u, oldLoc, hint);
      locations.Release(oldLoc);
      locations.Allocate(hint);
      registerLocations := registerLocations[i := hint];
      masm.Movl(OperandOf(Y(), hint), OperandOf(Y(), oldLoc));
      assert Contents() == t[i := Entry(t[i].pr, hint, t[i].stk)];
      assert masm.code[|c|..] == [Movl(OperandOf(Y(), hint), OperandOf(Y(), oldLoc))];
    }

    /** Copies slot i, which is on the stack only, into a register. */
    method LoadRegister(i: int, hint: int, locked: set<PseudoRegister>) returns (ok: bool, loc: int)
      requires Valid() && Room(1) && 0 <= i < |Contents()| && Contents()[i].Entry? && Contents()[i].reg == NO_LOCATION
      requires hint != NO_LOCATION ==> Y().IsRegister(hint) && At(locations.Uses(), hint) == 0
      modifies this, locations, masm
      ensures Valid() && KeepsReservations()
      ensures ok <==> hint != NO_LOCATION || old(CanFreeRegister(locked))
      ensures !ok ==> unchanged(this) && unchanged(locations) && unchanged(masm)
      ensures ok ==> Y().IsRegister(loc) && (hint != NO_LOCATION ==> loc == hint)
      ensures |Contents()| == |old(Contents())| && (ok ==> At(locations.Uses(), loc) == 1)
      ensures ok ==> Contents()[i] == Entry(old(Contents())[i].pr, loc, old(Contents())[i].stk)
      ensures ok ==> IndexOf(Contents(), Contents()[i].pr) == i && PRs(Contents()) == PRs(old(Contents()))
      ensures old(masm.code) <= masm.code
      ensures ok ==> Preserves(Y(), old(Contents()), Contents(), masm.code[|old(masm.code)|..])
      ensures |old(locations.freeList)| <= |locations.freeList| <= |old(locations.freeList)| + 1
    {
      hide TableOf, Sound, UseCounts, Consistent, OperandOf, Take, GiveUp, IndexOf, Preserves, SpillStep, PRs;
      ghost var t0, u0, c0 := Contents(), locations.Uses(), masm.code;
      locations.Facts();
      ghost var u;
      ok, loc, u := TakeRegister(hint, locked);
      if ok {
        ghost var t1, c1 := Contents(), masm.code;
        SpillStepPreserves(Y(), t0, u0, Reserved(), t1, c1[|c0|..]);
        LoadedEntry(Y(), t1, u, Reserved(), i, loc);
        registerLocations := registerLocations[i := loc];
        masm.Movl(OperandOf(Y(), loc), OperandOf(Y(), stackLocations[i]));
        assert Contents() == t1[i := Entry(t1[i].pr, loc, t1[i].stk)];
        assert masm.code[|c1|..] == [Movl(OperandOf(Y(), loc), OperandOf(Y(), stackLocations[i]))];
        Suffixes(c0, c1, masm.code);
        PreservesThrough(Y(), t0, t1, Contents(), c1[|c0|..], masm.code[|c1|..]);
      }
    }

    /** Makes sure a defined pseudo register is in a register (in `hint` if given), loading or moving
        its value if need be. */
    method Use(pr: PseudoRegister, hint: int, locked: set<PseudoRegister>) returns (ok: bool, loc: int)
      requires Valid() && Room(1) && 0 <= IndexOf(Contents(), pr)
      requires hint != NO_LOCATION ==> Y().IsRegister(hint)
      requires hint != NO_LOCATION ==>
        At(locations.Uses(), hint) == 0 || Contents()[IndexOf(Contents(), pr)].reg == hint
      modifies this, locations, masm, pr
      ensures Valid() && KeepsReservations()
      ensures ok <==>
        hint != NO_LOCATION || old(Contents()[IndexOf(Contents(), pr)].reg != NO_LOCATION || CanFreeRegister(locked))
      ensures ok ==> Y().IsRegister(loc) && (hint != NO_LOCATION ==> loc == hint)
      ensures IndexOf(Contents(), pr) == old(IndexOf(Contents(), pr))
      ensures var i := IndexOf(Contents(), pr);
        Contents()[i] == if ok then Entry(pr, loc, old(Contents())[i].stk) else old(Contents())[i]
      ensures PRs(Contents()) == PRs(old(Contents())) && |Contents()| == |old(Contents())|
      ensures ok && old(Contents()[IndexOf(Contents(), pr)].reg) == NO_LOCATION ==> At(locations.Uses(), loc) == 1
      ensures hint == NO_LOCATION && old(Contents()[IndexOf(Contents(), pr)].reg) != NO_LOCATION ==>
        unchanged(this) && unchanged(locations) && unchanged(masm)
      ensures old(masm.code) <= masm.code
      ensures Preserves(Y(), old(Contents()), Contents(), masm.code[|old(masm.code)|..])
      ensures |old(locations.freeList)| <= |locations.freeList| <= |old(locations.freeList)| + 1
    {
      hide TableOf, Sound, UseCounts, Consistent, IndexOf, Preserves, PRs;
      IdentityPreserves(Y(), Contents(), locations.Uses(), Reserved());
      assert forall c: Code {:trigger c[|c|..]} :: c[|c|..] == [];
      var i := Index(pr);
      locations.Facts();
      EntryFacts(Y(), Contents(), locations.Uses(), Reserved(), multiset{}, i);
      ok := true;
      if HasRegLoc(i) {
        if hint == NO_LOCATION || hint == registerLocations[i] {
          loc := registerLocations[i];
        } else {
          ChangeRegister(i, hint);
          loc := hint;
        }
      } else {
        ok, loc := LoadRegister(i, hint, locked);
      }
    }

    /** The destination comes to share all locations of the source; no code is needed. */
    method Move(dst: PseudoRegister, src: PseudoRegister)
      requires Valid() && dst != src && 0 <= IndexOf(Contents(), src)
      modifies this, locations, dst, src
      ensures Valid() && KeepsReservations()
      ensures var e := old(Contents()[IndexOf(Contents(), src)]);
        Contents() == Added(Killed(old(Contents()), dst), Entry(dst, e.reg, e.stk))
      ensures |locations.freeList| == |old(locations.freeList)|
    {
      hide TableOf, Sound, UseCounts, Consistent, IndexOf, Take, GiveUp, Added, PRs, Locs;
      ghost var t0 := Contents();
      KilledKeeps(Y(), t0, locations.Uses(), Reserved(), dst, src);
      KilledAbsent(Y(), t0, locations.Uses(), Reserved(), dst);
      Kill(dst);
      ghost var t, u := Contents(), locations.Uses();
      var i := Index(src);
      EntryFacts(Y(), t, u, Reserved(), multiset{}, i);
      SharedConsistent(Y(), t, u, Reserved(), i, dst);
      var rloc, sloc := registerLocations[i], stackLocations[i];
      UseEntry(locations, rloc, sloc, t[i]);
      AddEntry(dst, rloc, sloc);
    }

    method SaveSlot(i: int, loc: int, spillLoc: int)
      requires Shape() && locations.Valid()
      requires Consistent(Y(), Contents(), locations.Uses(), Reserved(), multiset{spillLoc})
      requires 0 <= i < |Contents()| && Contents()[i].Entry? && Contents()[i].reg == loc
      requires Contents()[i].stk == NO_LOCATION
      requires Y().IsRegister(loc) && Y().IsStackTmp(spillLoc)
      modifies this, locations
      ensures Shape() && locations.Valid()
      ensures Contents() == old(Contents())[i := SavedEntry(old(Contents())[i], loc, spillLoc)]
      ensures Consistent(Y(), Contents(), locations.Uses(), Reserved(), multiset{spillLoc})
      ensures KeepsReservations() && |locations.freeList| == |old(locations.freeList)|
      ensures locations.freeRegs == old(locations.freeRegs)
    {
      hide TableOf, Sound, UseCounts, Consistent, Take, GiveUp;
      ghost var t, u := Contents(), locations.Uses();
      SaveOne(Y(), t, u, Reserved(), i, loc, spillLoc);
      TakeOther(u, spillLoc, loc);
      locations.Use(spillLoc);
      stackLocations := stackLocations[i := spillLoc];
      assert Contents() == t[i := SavedEntry(t[i], loc, spillLoc)];
    }

    /** Stores register `loc` in a fresh stack location, for all its pseudo registers that have none. */
    method SaveRegister(loc: int) returns (spillLoc: int)
      requires Valid() && Y().IsRegister(loc) && Room(1)
      modifies this, locations, masm
      ensures Valid() && KeepsReservations()
      ensures Y().IsStackTmp(spillLoc) && At(old(locations.Uses()), spillLoc) == 0
      ensures Contents() == Saved(old(Contents()), loc, spillLoc)
      ensures masm.code == old(masm.code) + [Movl(OperandOf(Y(), spillLoc), OperandOf(Y(), loc))]
      ensures locations.freeRegs == old(locations.freeRegs)
      ensures |old(locations.freeList)| <= |locations.freeList| <= |old(locations.freeList)| + 1
    {
      hide TableOf, Sound, UseCounts, Consistent, Take, GiveUp, OperandOf;
      ghost var t0, u0 := Contents(), locations.Uses();
      spillLoc := locations.AllocateStackTmp();
      StartFlight(Y(), t0, u0, Reserved(), spillLoc);
      TakeOther(u0, spillLoc, loc);
      SaveSlots(loc, spillLoc);
      EndFlight(Y(), Contents(), locations.Uses(), Reserved(), spillLoc);
      locations.Release(spillLoc);
      masm.Movl(OperandOf(Y(), spillLoc), OperandOf(Y(), loc));
    }

    /** All slots in the register that have no place on the stack, from the last to the first. */
    method SaveSlots(loc: int, spillLoc: int)
      requires Shape() && locations.Valid() && Y().IsRegister(loc) && Y().IsStackTmp(spillLoc)
      requires Consistent(Y(), Contents(), locations.Uses(), Reserved(), multiset{spillLoc})
      modifies this, locations
      ensures Shape() && locations.Valid() && Contents() == Saved(old(Contents()), loc, spillLoc)
      ensures Consistent(Y(), Contents(), locations.Uses(), Reserved(), multiset{spillLoc}) && KeepsReservations()
      ensures locations.freeRegs == old(locations.freeRegs) && |locations.freeList| == |old(locations.freeList)|
    {
      hide TableOf, Sound, UseCounts, Consistent;
      ghost var t0 := Contents();
      var i := |pseudoRegisters|;
      while i > 0
        invariant 0 <= i <= |t0| && Shape() && locations.Valid()
        invariant Contents() == SavedFrom(t0, loc, spillLoc, i)
        invariant Consistent(Y(), Contents(), locations.Uses(), Reserved(), multiset{spillLoc})
        invariant KeepsReservations() && locations.freeRegs == old(locations.freeRegs)
        invariant |locations.freeList| == |old(locations.freeList)|
      {
        i := i - 1;
        if pseudoRegisters[i] != null && registerLocations[i] == loc {
          SlotLocations(i, multiset{spillLoc});
          if !HasStkLoc(i) {
            SaveSlot(i, loc, spillLoc);
          }
          assert Contents() == SavedFrom(t0, loc, spillLoc, i);
        }
      }
    }

    /** A slot's location tests agree with its entry. */
    lemma SlotLocations(i: int, flight: multiset<int>)
      requires Shape() && locations.Valid() && Consistent(Y(), Contents(), locations.Uses(), Reserved(), flight)
      requires 0 <= i < |Contents()| && Contents()[i].Entry?
      ensures HasRegLoc(i) <==> Contents()[i].reg != NO_LOCATION
      ensures HasStkLoc(i) <==> Contents()[i].stk != NO_LOCATION
      ensures HasRegLoc(i) ==> Y().IsRegister(registerLocations[i]) && registerLocations[i] !in Reserved()
      ensures HasRegLoc(i) || HasStkLoc(i)
    {
      hide TableOf, Sound, UseCounts, Consistent;
      EntryFacts(Y(), Contents(), locations.Uses(), Reserved(), flight, i);
      locations.Facts();
      assert Contents()[i].reg != NO_LOCATION ==> Contents()[i].reg in Locs(Contents()[i]);
      assert Contents()[i].stk != NO_LOCATION ==> Contents()[i].stk in Locs(Contents()[i]);
    }

    /** Stores every register-only pseudo register but `exception` on the stack. */
    method SaveRegisters(exception: PseudoRegister?)
      requires Valid() && Room(|pseudoRegisters|)
      modifies this, locations, masm
      ensures Valid() && KeepsReservations() && PRs(Contents()) == PRs(old(Contents()))
      ensures AllSaved(old(Contents()), Contents(), exception, 0)
      ensures old(masm.code) <= masm.code
      ensures Preserves(Y(), old(Contents()), Contents(), masm.code[|old(masm.code)|..])
      ensures locations.freeRegs == old(locations.freeRegs)
    {
      hide TableOf, Sound, UseCounts, Consistent, OperandOf, Preserves, PRs, Saved;
      ghost var t0, c0 := Contents(), masm.code;
      IdentityPreserves(Y(), t0, locations.Uses(), Reserved());
      assert masm.code[|c0|..] == [];
      var i := |pseudoRegisters|;
      while i > 0
        invariant 0 <= i <= |t0| && Valid() && KeepsReservations() && PRs(Contents()) == PRs(t0)
        invariant AllSaved(t0, Contents(), exception, i)
        invariant c0 <= masm.code && Preserves(Y(), t0, Contents(), masm.code[|c0|..])
        invariant locations.freeRegs == old(locations.freeRegs)
        invariant |locations.freeList| + i <= SENTINEL
      {
        i := i - 1;
        SaveIfNeeded(i, exception, t0, c0);
      }
    }

    /** One slot: saved if its pseudo register is in a register only and is not the exception. */
    method SaveIfNeeded(i: int, exception: PseudoRegister?, ghost t0: Table, ghost c0: Code)
      requires Valid() && Room(1) && 0 <= i < |Contents()| && PRs(Contents()) == PRs(t0)
      requires AllSaved(t0, Contents(), exception, i + 1)
      requires c0 <= masm.code && Preserves(Y(), t0, Contents(), masm.code[|c0|..])
      modifies this, locations, masm
      ensures Valid() && KeepsReservations() && |Contents()| == |old(Contents())| && PRs(Contents()) == PRs(t0)
      ensures AllSaved(t0, Contents(), exception, i) && locations.freeRegs == old(locations.freeRegs)
      ensures c0 <= masm.code && old(masm.code) <= masm.code && Preserves(Y(), t0, Contents(), masm.code[|c0|..])
      ensures |locations.freeList| <= |old(locations.freeList)| + 1
    {
      hide TableOf, Sound, UseCounts, Consistent, OperandOf, Preserves, PRs, Saved;
      if pseudoRegisters[i] != null {
        SlotLocations(i, multiset{});
        if HasRegLoc(i) && !HasStkLoc(i) && pseudoRegisters[i] != exception {
          ghost var t, u, c := Contents(), locations.Uses(), masm.code;
          locations.Facts();
          var spillLoc := SaveRegister(registerLocations[i]);
          SavedStep(Y(), t0, t, u, Reserved(), c0, c, t[i].reg, spillLoc, masm.code, exception, i);
        }
      }
    }

    /** Takes every pseudo register but `exception` out of its register; those that are nowhere
        else are dropped. */
    method KillRegisters(exception: PseudoRegister?)
      requires Valid()
      modifies this, locations
      ensures Valid() && KeepsReservations()
      ensures Contents() == Unregistered(old(Contents()), exception, 0)
      ensures |locations.freeList| == |old(locations.freeList)|
    {
      hide TableOf, Sound, UseCounts, Consistent, GiveUp;
      ghost var t0 := Contents();
      var i := |pseudoRegisters|;
      while i > 0
        invariant 0 <= i <= |t0| && Valid() && KeepsReservations()
        invariant Contents() == Unregistered(t0, exception, i)
        invariant |locations.freeList| == |old(locations.freeList)|
      {
        i := i - 1;
        if pseudoRegisters[i] != null {
          SlotLocations(i, multiset{});
          if HasRegLoc(i) && pseudoRegisters[i] != exception {
            DropSlotRegister(i);
          }
        }
        assert Contents() == Unregistered(t0, exception, i);
      }
    }

    method DropSlotRegister(i: int)
      requires Valid() && 0 <= i < |Contents()| && Contents()[i].Entry? && Contents()[i].reg != NO_LOCATION
      modifies this, locations
      ensures Valid() && KeepsReservations() && |locations.freeList| == |old(locations.freeList)|
      ensures Contents() == old(Contents())[i := UnregisteredEntry(old(Contents())[i])]
      ensures locations.Uses() == GiveUp(old(locations.Uses()), old(Contents())[i].reg)
    {
      hide TableOf, Sound, UseCounts, Consistent, GiveUp;
      ghost var t, u := Contents(), locations.Uses();
      SlotLocations(i, multiset{});
      DroppedConsistent(Y(), t, u, Reserved(), i);
      locations.Release(registerLocations[i]);
      registerLocations := registerLocations[i := NO_LOCATION];
      if !HasStkLoc(i) {
        pseudoRegisters := pseudoRegisters[i := null];
      }
      assert Contents() == t[i := UnregisteredEntry(t[i])];
    }

    method KillRegister(pr: PseudoRegister)
      requires Valid() && 0 <= IndexOf(Contents(), pr)
      modifies this, locations, pr
      ensures Valid() && KeepsReservations()
      ensures var i := old(IndexOf(Contents(), pr));
        && Contents() == old(Contents())[i := UnregisteredEntry(old(Contents())[i])]
        && locations.Uses() == if old(Contents())[i].reg == NO_LOCATION then old(locations.Uses())
             else GiveUp(old(locations.Uses()), old(Contents())[i].reg)
      ensures |locations.freeList| == |old(locations.freeList)|
    {
      hide TableOf, Sound, UseCounts, Consistent, IndexOf;
      var i := Index(pr);
      SlotLocations(i, multiset{});
      if HasRegLoc(i) {
        DropSlotRegister(i);
      }
    }

    /** Drops all pseudo registers but `exception`. */
    method KillAll(exception: PseudoRegister?)
      requires Valid()
      modifies this, locations
      ensures Valid() && KeepsReservations() && Contents() == AllKilled(old(Contents()), exception, 0)
    {
      hide TableOf, Sound, UseCounts, Consistent, GiveUp;
      ghost var t0 := Contents();
      var i := |pseudoRegisters|;
      while i > 0
        invariant 0 <= i <= |t0| && Valid() && KeepsReservations()
        invariant Contents() == AllKilled(t0, exception, i)
      {
        i := i - 1;
        if pseudoRegisters[i] != null && pseudoRegisters[i] != exception {
          KillSlot(i);
        }
        assert Contents() == AllKilled(t0, exception, i);
      }
    }

    /** Reserves the three registers that a non-local return needs. */
    method AcquireNonLocalReturnRegisters()
      requires Valid() && !nonLocalReturnInProgress && Y().nofRegisters == MAX_USABLE_REGISTERS
      requires forall l :: l in NonLocalReturnRegisters() ==> At(locations.Uses(), l) == 0
      modifies this, locations
      ensures Valid() && nonLocalReturnInProgress && Contents() == old(Contents())
      ensures Reserved() == old(Reserved()) + multiset(NonLocalReturnRegisters())
    {
      hide TableOf, Sound, UseCounts, Consistent, Take;
      ghost var u, res := locations.Uses(), Reserved();
      var regs := NonLocalReturnRegisters();
      locations.Facts();
      assert regs[0] in regs && regs[1] in regs && regs[2] in regs;
      assert multiset(regs) == multiset{regs[0]} + multiset{regs[1]} + multiset{regs[2]};
      TakeOther(u, regs[0], regs[1]);
      TakeOther(u, regs[0], regs[2]);
      ReserveOne(regs[0], res);
      TakeOther(locations.Uses(), regs[1], regs[2]);
      ReserveOne(regs[1], res + multiset{regs[0]});
      ReserveOne(regs[2], res + multiset{regs[0]} + multiset{regs[1]});
      nonLocalReturnInProgress := true;
      assert Reserved() == res + multiset{regs[0]} + multiset{regs[1]} + multiset{regs[2]};
    }

    method ReserveOne(l: int, ghost reserved: multiset<int>)
      requires Shape() && locations.Valid() && Consistent(Y(), Contents(), locations.Uses(), reserved, multiset{})
      requires Y().IsRegister(l) && l < |locations.Uses()| && At(locations.Uses(), l) == 0
      modifies locations
      ensures locations.Valid() && locations.Uses() == Take(old(locations.Uses()), l)
      ensures |locations.Uses()| == |old(locations.Uses())|
      ensures Consistent(Y(), Contents(), locations.Uses(), reserved + multiset{l}, multiset{})
    {
      hide TableOf, Sound, UseCounts, Consistent, Take;
      ReserveConsistent(Y(), Contents(), locations.Uses(), reserved, l);
      locations.Allocate(l);
    }

    method ReleaseNonLocalReturnRegisters()
      requires Valid() && nonLocalReturnInProgress
      modifies this, locations
      ensures Valid() && !nonLocalReturnInProgress && Contents() == old(Contents())
      ensures old(Reserved()) == Reserved() + multiset(NonLocalReturnRegisters())
    {
      hide TableOf, Sound, UseCounts, Consistent, GiveUp;
      var regs := NonLocalReturnRegisters();
      nonLocalReturnInProgress := false;
      ghost var res := Reserved();
      assert multiset(regs) == multiset{regs[0]} + multiset{regs[1]} + multiset{regs[2]};
      assert old(Reserved()) == (res + multiset{regs[2]}) + multiset{regs[1]} + multiset{regs[0]};
      UnreserveOne(regs[0], (res + multiset{regs[2]}) + multiset{regs[1]});
      UnreserveOne(regs[1], res + multiset{regs[2]});
      UnreserveOne(regs[2], res);
    }

    method UnreserveOne(l: int, ghost reserved: multiset<int>)
      requires Shape() && locations.Valid()
      requires Consistent(Y(), Contents(), locations.Uses(), reserved + multiset{l}, multiset{})
      modifies locations
      ensures locations.Valid() && Consistent(Y(), Contents(), locations.Uses(), reserved, multiset{})
    {
      hide TableOf, Sound, UseCounts, Consistent, GiveUp;
      UnreserveConsistent(Y(), Contents(), locations.Uses(), reserved, l);
      locations.Release(l);
    }

    /** A register for a temporary: the hint if it is free, else any. */
    method AllocateTemporary(hint: int, locked: set<PseudoRegister>) returns (ok: bool, loc: int)
      requires Valid() && Room(1) && (hint != NO_LOCATION ==> Y().IsRegister(hint))
      modifies this, locations, masm
      ensures Valid() && (ok <==> old(CanFreeRegister(locked)))
      ensures ok ==> Y().IsRegister(loc) && temporaryLocations == old(temporaryLocations) + [loc]
      ensures ok ==> Reserved() == old(Reserved()) + multiset{loc}
      ensures old(masm.code) <= masm.code
      ensures SpillStep(Y(), old(Contents()), old(locations.Uses()), Contents(), masm.code[|old(masm.code)|..])
      ensures old(locations.freeRegs) != [] ==> Contents() == old(Contents()) && masm.code == old(masm.code)
      ensures old(locations.freeRegs) != [] ==> At(old(locations.Uses()), loc) == 0
      ensures ok && old(locations.freeRegs) == [] ==>
        SpillsVictim(Y(), old(Contents()), old(locations.Uses()), locked, masm.code[|old(masm.code)|..], loc)
      ensures old(locations.freeRegs) != [] && hint != NO_LOCATION && At(old(locations.Uses()), hint) == 0 ==>
        loc == hint
    {
      hide TableOf, Sound, UseCounts, Consistent, Take, SpillStep;
      loc := NO_LOCATION;
      ok := EnsureOneFreeRegister(locked);
      if ok {
        locations.Facts();
        loc := ReserveRegister(hint);
      }
    }

    method ReserveRegister(hint: int) returns (loc: int)
      requires Valid() && locations.freeRegs != [] && (hint != NO_LOCATION ==> Y().IsRegister(hint))
      modifies this, locations
      ensures Valid() && Contents() == old(Contents()) && Y().IsRegister(loc) && At(old(locations.Uses()), loc) == 0
      ensures temporaryLocations == old(temporaryLocations) + [loc] && Reserved() == old(Reserved()) + multiset{loc}
      ensures hint != NO_LOCATION && At(old(locations.Uses()), hint) == 0 ==> loc == hint
      ensures |locations.freeList| == |old(locations.freeList)|
    {
      hide TableOf, Sound, UseCounts, Consistent, Take, At, RefCount;
      ghost var t, u, res := Contents(), locations.Uses(), Reserved();
      loc := TakeHintOrAny(locations, hint);
      ReserveConsistent(Y(), t, u, res, loc);
      temporaryLocations := temporaryLocations + [loc];
      assert Reserved() == res + multiset{loc} && Contents() == t && locations.Uses() == Take(u, loc);
    }

    /** Temporaries are released last in, first out. */
    method ReleaseTemporary(loc: int)
      requires Valid() && temporaryLocations != [] && temporaryLocations[|temporaryLocations| - 1] == loc
      modifies this, locations
      ensures Valid() && Contents() == old(Contents())
      ensures temporaryLocations == old(temporaryLocations)[..|old(temporaryLocations)| - 1]
      ensures old(Reserved()) == Reserved() + multiset{loc}
    {
      hide TableOf, Sound, UseCounts, Consistent, GiveUp, RefCount;
      ghost var t, u, res := Contents(), locations.Uses(), Reserved();
      var n := |temporaryLocations| - 1;
      assert temporaryLocations == temporaryLocations[..n] + [loc];
      temporaryLocations := temporaryLocations[..n];
      assert res == Reserved() + multiset{loc};
      UnreserveConsistent(Y(), t, u, Reserved(), loc);
      locations.Release(loc);
      assert Contents() == t && locations.Uses() == GiveUp(u, loc);
    }

    /** A temporary holding a copy of a pseudo register's value. If the pseudo register is on the
        stack as well, its register is given to the temporary instead of being copied; should other
        pseudo registers share that register, it stays theirs, and the temporary gets another
        register that nothing loads. */
    method TemporaryCopy(pr: PseudoRegister, locked: set<PseudoRegister>) returns (ok: bool, loc: int)
      requires Valid() && Room(2) && 0 <= IndexOf(Contents(), pr)
      modifies this, locations, masm, pr
      ensures Valid() && old(masm.code) <= masm.code
      ensures ok <==> old(CanCopy(pr, locked))
      ensures ok ==> Y().IsRegister(loc) && temporaryLocations == old(temporaryLocations) + [loc]
      ensures ok ==> Preserves(Y(), old(Contents()), Contents(), masm.code[|old(masm.code)|..])
      ensures ok ==>
        (Delivers(Y(), old(Contents()), old(IndexOf(Contents(), pr)), masm.code[|old(masm.code)|..], loc) <==>
          old(CopyHasValue(pr, locked)))
      ensures ok ==>
        (From(Y(), masm.code[|old(masm.code)|..], loc, old(Contents()[IndexOf(Contents(), pr)])) <==>
          old(CopyFromRegister(pr, locked)))
    {
      hide TableOf, Sound, UseCounts, Consistent, IndexOf, Preserves, PRs, SpillStep, OperandOf, From, FreesRegister,
        Delivers,
        SpillsVictim, VictimRegister, VictimLinked, CanFreeRegister, SomeFree, GiveUp, CanCopy, CopyHasValue,
        CopyFromRegister, KeepsSharedRegister;
      CopyCases(pr, locked);
      ghost var t0, u0, c0 := Contents(), locations.Uses(), masm.code;
      locations.Facts();
      CanFree(locked);
      ghost var i, shared := IndexOf(t0, pr), KeepsSharedRegister(pr);
      SlotLocations(i, multiset{});
      var reg, onStack;
      ok, reg, onStack := UseForCopy(pr, locked);
      if !ok {
        return false, NO_LOCATION;
      }
      if onStack {
        ok, loc := HandOverUsed(pr, reg, locked, t0, u0, c0, shared);
      } else {
        ok, loc := CopyOverUsed(pr, reg, locked, t0, c0);
      }
    }

    /** The first step of a copy: the pseudo register is in a register afterwards, alone unless it shared it
        before. */
    method UseForCopy(pr: PseudoRegister, locked: set<PseudoRegister>) returns (ok: bool, reg: int, onStack: bool)
      requires Valid() && Room(2) && 0 <= IndexOf(Contents(), pr)
      modifies this, locations, masm, pr
      ensures Valid() && KeepsReservations() && Room(1) && old(masm.code) <= masm.code
      ensures IndexOf(Contents(), pr) == old(IndexOf(Contents(), pr)) && |Contents()| == |old(Contents())|
      ensures ok <==> old(Contents()[IndexOf(Contents(), pr)].reg != NO_LOCATION || CanFreeRegister(locked))
      ensures ok ==>
        var e := old(Contents()[IndexOf(Contents(), pr)]);
        && Contents()[IndexOf(Contents(), pr)] == Entry(pr, reg, e.stk) && reg != NO_LOCATION
        && (onStack <==> e.stk != NO_LOCATION) && (e.reg == NO_LOCATION ==> onStack)
      ensures ok && old(Contents()[IndexOf(Contents(), pr)].reg != NO_LOCATION) ==>
        unchanged(this) && unchanged(locations) && unchanged(masm)
      ensures ok && onStack && !old(KeepsSharedRegister(pr)) ==> At(locations.Uses(), reg) == 1
      ensures Preserves(Y(), old(Contents()), Contents(), masm.code[|old(masm.code)|..])
      ensures ok ==> From(Y(), masm.code[|old(masm.code)|..], reg, old(Contents()[IndexOf(Contents(), pr)]))
    {
      hide TableOf, Sound, UseCounts, Consistent, IndexOf, Preserves, PRs, From, CanFreeRegister;
      ghost var t0, c0, i := Contents(), masm.code, IndexOf(Contents(), pr);
      SlotLocations(i, multiset{});
      ok, reg := Use(pr, NO_LOCATION, locked);
      onStack := false;
      if ok {
        SlotLocations(i, multiset{});
        UsedFrom(Y(), t0, Contents(), masm.code[|c0|..], i, reg);
        EntryFacts(Y(), Contents(), locations.Uses(), Reserved(), multiset{}, i);
        assert reg in Locs(Contents()[i]);
        var j := Index(pr);
        onStack := HasStkLoc(j);
      }
    }

    /** The conditions in terms of the entry. */
    lemma CopyCases(pr: PseudoRegister, locked: set<PseudoRegister>)
      requires Shape() && 0 <= IndexOf(Contents(), pr)
      ensures var i, u := IndexOf(Contents(), pr), locations.Uses();
        var e := Contents()[i];
        && (e.reg == NO_LOCATION || e.stk == NO_LOCATION ==>
              && (CanCopy(pr, locked) <==> FreesRegister(Y(), Contents(), u, locked))
              && !KeepsSharedRegister(pr))
        && (e.reg != NO_LOCATION && e.stk != NO_LOCATION ==>
              && (CanCopy(pr, locked) <==> FreesRegister(Y(), Unshared(Contents(), i), GiveUp(u, e.reg), locked))
              && (KeepsSharedRegister(pr) <==> At(u, e.reg) > 1))
        && (!KeepsSharedRegister(pr) ==> CopyHasValue(pr, locked) && CopyFromRegister(pr, locked))
        && (KeepsSharedRegister(pr) ==>
              && (CopyHasValue(pr, locked) <==>
                    locations.freeRegs == [] && VictimLinked(Y(), Contents(), u, locked, i))
              && (CopyFromRegister(pr, locked) <==>
                    locations.freeRegs == []
                    && VictimRegister(Y(), Unshared(Contents(), i), GiveUp(u, e.reg), locked, e.reg)))
    {
      hide IndexOf, FreesRegister, VictimLinked, VictimRegister, GiveUp;
    }

    /** Gives the register of a pseudo register that has just been used, and is on the stack as well, to a
        temporary; `t0`, `u0` and `c0` are from before the use, which did nothing if the register is shared. */
    method HandOverUsed(pr: PseudoRegister, reg: int, locked: set<PseudoRegister>, ghost t0: Table, ghost u0: seq<nat>,
                        ghost c0: Code, ghost shared: bool)
      returns (ok: bool, loc: int)
      requires Valid() && Room(1) && 0 <= IndexOf(Contents(), pr) && |t0| == |Contents()| && c0 <= masm.code
      requires var e := Contents()[IndexOf(Contents(), pr)]; e.reg == reg != NO_LOCATION && e.stk != NO_LOCATION
      requires Preserves(Y(), t0, Contents(), masm.code[|c0|..])
      requires if shared then t0 == Contents() && u0 == locations.Uses() && c0 == masm.code && At(u0, reg) > 1
        else At(locations.Uses(), reg) == 1 && From(Y(), masm.code[|c0|..], reg, t0[IndexOf(Contents(), pr)])
      modifies this, locations, masm, pr
      ensures Valid() && c0 <= masm.code && (!shared ==> ok)
      ensures ok <==>
        old(FreesRegister(Y(), Unshared(Contents(), IndexOf(Contents(), pr)), GiveUp(locations.Uses(), reg), locked))
      ensures ok ==> Y().IsRegister(loc) && temporaryLocations == old(temporaryLocations) + [loc]
      ensures Preserves(Y(), t0, Contents(), masm.code[|c0|..])
      ensures ok ==>
        var i, free, code := old(IndexOf(Contents(), pr)), old(locations.freeRegs) != [], masm.code[|c0|..];
        if shared then
          && (Delivers(Y(), t0, i, code, loc) <==> !free && VictimLinked(Y(), t0, u0, locked, i))
          && (From(Y(), code, loc, t0[i]) <==>
                !free && VictimRegister(Y(), Unshared(t0, i), GiveUp(u0, reg), locked, reg))
        else Delivers(Y(), t0, i, code, loc) && From(Y(), code, loc, t0[i])
    {
      hide TableOf, Sound, UseCounts, Consistent, IndexOf, Preserves, PRs, SpillStep, OperandOf, From, FreesRegister,
        Delivers,
        SpillsVictim, VictimRegister, VictimLinked, GiveUp;
      ghost var t1, c1, i := Contents(), masm.code, IndexOf(Contents(), pr);
      locations.Facts();
      ok, loc := HandOver(pr, reg, locked);
      Suffixes(c0, c1, masm.code);
      PreservesThrough(Y(), t0, t1, Contents(), c1[|c0|..], masm.code[|c1|..]);
      if ok {
        if shared {
          SharedOutcome(Y(), t0, u0, old(Reserved()), i, masm.code[|c0|..], loc, locked, old(locations.freeRegs) != []);
        } else {
          assert masm.code[|c0|..] == c1[|c0|..];
          FromDelivers(Y(), t0, i, masm.code[|c0|..], loc);
        }
      }
    }

    /** The pseudo register is on the stack and in a register that it shares. */
    ghost predicate KeepsSharedRegister(pr: PseudoRegister)
      requires Shape() && 0 <= IndexOf(Contents(), pr)
      reads this, locations
    {
      var e := Contents()[IndexOf(Contents(), pr)];
      e.reg != NO_LOCATION && e.stk != NO_LOCATION && At(locations.Uses(), e.reg) > 1
    }

    /** A register can be had, once that of a pseudo register that is on the stack as well is given up. */
    ghost predicate CanCopy(pr: PseudoRegister, locked: set<PseudoRegister>)
      requires Shape() && 0 <= IndexOf(Contents(), pr)
      reads this, locations
    {
      var e := Contents()[IndexOf(Contents(), pr)];
      if e.reg == NO_LOCATION || e.stk == NO_LOCATION then FreesRegister(Y(), Contents(), locations.Uses(), locked)
      else FreesRegister(Y(), Unshared(Contents(), IndexOf(Contents(), pr)), GiveUp(locations.Uses(), e.reg), locked)
    }

    /** The register is not shared, or none is free and the one that is spilled holds the value. */
    ghost predicate CopyHasValue(pr: PseudoRegister, locked: set<PseudoRegister>)
      requires Shape() && 0 <= IndexOf(Contents(), pr)
      reads this, locations
    {
      KeepsSharedRegister(pr) ==>
        && locations.freeRegs == []
        && VictimLinked(Y(), Contents(), locations.Uses(), locked, IndexOf(Contents(), pr))
    }

    /** The register is not shared, or none is free and it is spilled itself. */
    ghost predicate CopyFromRegister(pr: PseudoRegister, locked: set<PseudoRegister>)
      requires Shape() && 0 <= IndexOf(Contents(), pr)
      reads this, locations
    {
      var i := IndexOf(Contents(), pr);
      KeepsSharedRegister(pr) ==>
        && locations.freeRegs == []
        && VictimRegister(Y(), Unshared(Contents(), i), GiveUp(locations.Uses(), Contents()[i].reg), locked,
             Contents()[i].reg)
    }

    /** Gives the register of a pseudo register that is also on the stack to a new temporary. */
    method HandOver(pr: PseudoRegister, reg: int, locked: set<PseudoRegister>) returns (ok: bool, loc: int)
      requires Valid() && Room(1) && 0 <= IndexOf(Contents(), pr)
      requires var e := Contents()[IndexOf(Contents(), pr)]; e.reg == reg != NO_LOCATION && e.stk != NO_LOCATION
      modifies this, locations, masm, pr
      ensures Valid() && old(masm.code) <= masm.code && PRs(Contents()) <= PRs(old(Contents()))
      ensures ok <==>
        old(FreesRegister(Y(), Unshared(Contents(), IndexOf(Contents(), pr)), GiveUp(locations.Uses(), reg), locked))
      ensures At(old(locations.Uses()), reg) == 1 ==> ok
      ensures ok ==> Y().IsRegister(loc) && temporaryLocations == old(temporaryLocations) + [loc]
      ensures Preserves(Y(), old(Contents()), Contents(), masm.code[|old(masm.code)|..])
      ensures ok && At(old(locations.Uses()), reg) == 1 ==> loc == reg && masm.code == old(masm.code)
      ensures ok && At(old(locations.Uses()), reg) > 1 && old(locations.freeRegs) != [] ==>
        masm.code == old(masm.code) && At(old(locations.Uses()), loc) == 0
      ensures ok && At(old(locations.Uses()), reg) > 1 && old(locations.freeRegs) == [] ==>
        SpillsVictim(Y(), Unshared(old(Contents()), old(IndexOf(Contents(), pr))), GiveUp(old(locations.Uses()), reg),
          locked, masm.code[|old(masm.code)|..], loc)
    {
      hide TableOf, Sound, UseCounts, Consistent, IndexOf, Preserves, PRs, SpillStep, OperandOf, SpillsVictim,
        FreesRegister,
        SomeFree;
      ghost var t0, u0, c0, i := Contents(), locations.Uses(), masm.code, IndexOf(Contents(), pr);
      SlotLocations(i, multiset{});
      locations.Facts();
      KillRegister(pr);
      ghost var t1, u1 := Contents(), locations.Uses();
      UnregisteredPreserves(Y(), t0, u0, Reserved(), i, u1);
      assert u1 == locations.Uses();
      CanFree(locked);
      FreeNow(Y(), t1, u1, locked, reg);
      locations.Facts();
      ok, loc := AllocateTemporary(reg, locked);
      SpillStepPreserves(Y(), t1, u1, old(Reserved()), Contents(), masm.code[|c0|..]);
      PreservesThrough(Y(), t0, t1, Contents(), [], masm.code[|c0|..]);
      assert [] + masm.code[|c0|..] == masm.code[|c0|..];
    }

    /** Copies a register-only pseudo register to a new temporary. */
    method CopyOver(pr: PseudoRegister, reg: int, locked: set<PseudoRegister>) returns (ok: bool, loc: int)
      requires Valid() && Room(1) && 0 <= IndexOf(Contents(), pr)
      requires Contents()[IndexOf(Contents(), pr)] == Entry(pr, reg, NO_LOCATION)
      modifies this, locations, masm
      ensures Valid() && old(masm.code) <= masm.code && PRs(Contents()) <= PRs(old(Contents()))
      ensures ok <==> old(CanFreeRegister(locked))
      ensures ok ==> Y().IsRegister(loc) && temporaryLocations == old(temporaryLocations) + [loc]
      ensures Preserves(Y(), old(Contents()), Contents(), masm.code[|old(masm.code)|..])
      ensures ok ==> From(Y(), masm.code[|old(masm.code)|..], loc, old(Contents()[IndexOf(Contents(), pr)]))
    {
      hide TableOf, Sound, UseCounts, Consistent, IndexOf, Preserves, PRs, SpillStep, OperandOf, From;
      ghost var t0, u0, c0, i := Contents(), locations.Uses(), masm.code, IndexOf(Contents(), pr);
      locations.Facts();
      SlotLocations(i, multiset{});
      ok, loc := AllocateTemporary(NO_LOCATION, locked);
      ghost var t1, c1 := Contents(), masm.code;
      SpillStepPreserves(Y(), t0, u0, old(Reserved()), t1, c1[|c0|..]);
      if ok {
        masm.Movl(OperandOf(Y(), loc), OperandOf(Y(), reg));
        assert masm.code[|c1|..] == [Movl(OperandOf(Y(), loc), OperandOf(Y(), reg))];
        Suffixes(c0, c1, masm.code);
        ReservedMove(Y(), t1, locations.Uses(), Reserved(), loc, reg);
        PreservesThrough(Y(), t0, t1, t1, c1[|c0|..], masm.code[|c1|..]);
        CopiedAfterSpill(Y(), t0, u0, t1, c1[|c0|..], t0[i], loc, reg);
      }
    }

    /** Copies a pseudo register that has just been used and is in a register only; `t0` and `c0` are from
        before the use. */
    method CopyOverUsed(pr: PseudoRegister, reg: int, locked: set<PseudoRegister>, ghost t0: Table, ghost c0: Code)
      returns (ok: bool, loc: int)
      requires Valid() && Room(1) && 0 <= IndexOf(Contents(), pr) && |t0| == |Contents()| && c0 <= masm.code
      requires Contents()[IndexOf(Contents(), pr)] == Entry(pr, reg, NO_LOCATION)
      requires t0[IndexOf(Contents(), pr)].Entry? && t0[IndexOf(Contents(), pr)].pr == pr
      requires Preserves(Y(), t0, Contents(), masm.code[|c0|..])
      modifies this, locations, masm
      ensures Valid() && c0 <= masm.code && (ok <==> old(CanFreeRegister(locked)))
      ensures ok ==> Y().IsRegister(loc) && temporaryLocations == old(temporaryLocations) + [loc]
      ensures Preserves(Y(), t0, Contents(), masm.code[|c0|..])
      ensures ok ==> From(Y(), masm.code[|c0|..], loc, t0[old(IndexOf(Contents(), pr))])
      ensures ok ==> Delivers(Y(), t0, old(IndexOf(Contents(), pr)), masm.code[|c0|..], loc)
    {
      hide TableOf, Sound, UseCounts, Consistent, IndexOf, Preserves, PRs, OperandOf, From, Delivers, CanFreeRegister;
      ghost var t1, c1, i := Contents(), masm.code, IndexOf(Contents(), pr);
      ok, loc := CopyOver(pr, reg, locked);
      Suffixes(c0, c1, masm.code);
      PreservesThrough(Y(), t0, t1, Contents(), c1[|c0|..], masm.code[|c1|..]);
      if ok {
        FromAfter(Y(), t0, t1, c1[|c0|..], masm.code[|c1|..], i, loc);
        FromDelivers(Y(), t0, i, masm.code[|c0|..], loc);
      }
    }

    method PutLocations(i: int, rloc: int, sloc: int)
      requires Shape() && 0 <= i < |Contents()| && Contents()[i].Entry?
      modifies this
      ensures Shape() && Contents() == old(Contents())[i := Entry(old(Contents())[i].pr, rloc, sloc)]
      ensures KeepsReservations()
    {
      registerLocations := registerLocations[i := rloc];
      stackLocations := stackLocations[i := sloc];
      assert Contents() == old(Contents())[i := Entry(old(Contents())[i].pr, rloc, sloc)];
    }

    /** Moves slot i, which is in a register, to a fresh stack location of its own. */
    method MoveSlotToStack(i: int)
      requires Valid() && Room(1) && 0 <= i < |Contents()| && Contents()[i].Entry? && Contents()[i].reg != NO_LOCATION
      modifies this, locations, masm
      ensures Valid() && KeepsReservations()
      ensures Separated(Contents(), i, old(Contents()), old(locations.Uses()), locations.Uses())
      ensures old(masm.code) <= masm.code && OnlyMoves(masm.code[|old(masm.code)|..])
      ensures PRs(Contents()) == PRs(old(Contents()))
      ensures Preserves(Y(), old(Contents()), Contents(), masm.code[|old(masm.code)|..])
      ensures Dropping(old(Contents()), Contents()) && |locations.freeList| <= |old(locations.freeList)| + 1
    {
      hide TableOf, Sound, UseCounts, Consistent, Take, GiveUp, OperandOf, Preserves, PRs, Separated, Locs, OkEntry,
        OnlyMoves;
      ghost var t, u, c := Contents(), locations.Uses(), masm.code;
      var rloc, sloc := registerLocations[i], stackLocations[i];
      locations.Facts();
      var newLoc := locations.AllocateStackTmp();
      StackMove(Y(), t, u, Reserved(), i, newLoc);
      masm.Movl(OperandOf(Y(), newLoc), OperandOf(Y(), rloc));
      ReleaseEntry(locations, rloc, sloc, t[i]);
      PutLocations(i, NO_LOCATION, newLoc);
      OneMove(c, Movl(OperandOf(Y(), newLoc), OperandOf(Y(), rloc)));
    }

    /** Gives up one of the two locations of slot i. */
    method DropSlotLocation(i: int, dropRegister: bool)
      requires Valid() && 0 <= i < |Contents()| && Contents()[i].Entry?
      requires Contents()[i].reg != NO_LOCATION && Contents()[i].stk != NO_LOCATION
      requires At(locations.Uses(), if dropRegister then Contents()[i].stk else Contents()[i].reg) == 1
      modifies this, locations
      ensures Valid() && KeepsReservations()
      ensures Separated(Contents(), i, old(Contents()), old(locations.Uses()), locations.Uses())
      ensures PRs(Contents()) == PRs(old(Contents())) && Preserves(Y(), old(Contents()), Contents(), [])
      ensures Dropping(old(Contents()), Contents()) && |locations.freeList| == |old(locations.freeList)|
    {
      hide TableOf, Sound, UseCounts, Consistent, GiveUp, Preserves, PRs, Separated;
      ghost var t, u := Contents(), locations.Uses();
      SlotLocations(i, multiset{});
      EntryFacts(Y(), t, u, Reserved(), multiset{}, i);
      HalfDropped(Y(), t, u, Reserved(), i, dropRegister);
      DropHalf(i, dropRegister);
    }

    method DropHalf(i: int, dropRegister: bool)
      requires Shape() && locations.Valid() && 0 <= i < |Contents()| && Contents()[i].Entry?
      requires Contents()[i].reg in Locs(Contents()[i]) && Contents()[i].stk in Locs(Contents()[i])
      requires forall l :: l in Locs(Contents()[i]) ==> 0 <= l < |locations.Uses()| && locations.Uses()[l] >= 1
      modifies this, locations
      ensures Shape() && locations.Valid() && KeepsReservations() && |locations.freeList| == |old(locations.freeList)|
      ensures Contents() == old(Contents())[i := HalfOf(old(Contents())[i], dropRegister)]
      ensures locations.Uses() ==
        GiveUp(old(locations.Uses()), if dropRegister then old(Contents())[i].reg else old(Contents())[i].stk)
    {
      hide TableOf, Sound, UseCounts, GiveUp;
      ghost var t := Contents();
      if dropRegister {
        locations.Release(registerLocations[i]);
        registerLocations := registerLocations[i := NO_LOCATION];
      } else {
        locations.Release(stackLocations[i]);
        stackLocations := stackLocations[i := NO_LOCATION];
      }
      assert Contents() == t[i := HalfOf(t[i], dropRegister)];
    }

    /** Copies slot i, which is on the stack only, to a stack location of its own, by way of a
        register; it fails, changing nothing, only if no register can be freed. */
    method CopySlotOnStack(i: int, locked: set<PseudoRegister>) returns (ok: bool)
      requires Valid() && Room(2) && 0 <= i < |Contents()| && Contents()[i].Entry? && Contents()[i].reg == NO_LOCATION
      modifies this, locations, masm
      ensures Valid() && KeepsReservations()
      ensures ok <==> old(CanFreeRegister(locked))
      ensures !ok ==> unchanged(this) && unchanged(locations) && unchanged(masm)
      ensures ok ==> Separated(Contents(), i, old(Contents()), old(locations.Uses()), locations.Uses())
      ensures old(masm.code) <= masm.code && OnlyMoves(masm.code[|old(masm.code)|..])
      ensures ok ==>
        PRs(Contents()) == PRs(old(Contents()))
          && Preserves(Y(), old(Contents()), Contents(), masm.code[|old(masm.code)|..])
      ensures Dropping(old(Contents()), Contents()) && |locations.freeList| <= |old(locations.freeList)| + 2
    {
      hide TableOf, Sound, UseCounts, Consistent, Take, GiveUp, OperandOf, Preserves, PRs, Separated, SpillStep;
      ghost var t0, u0, c0 := Contents(), locations.Uses(), masm.code;
      locations.Facts();
      ok := EnsureOneFreeRegister(locked);
      if !ok {
        assert masm.code[|c0|..] == [];
        return;
      }
      ghost var t1, u1, c1 := Contents(), locations.Uses(), masm.code;
      SpillStepPreserves(Y(), t0, u0, Reserved(), t1, c1[|c0|..]);
      SpillStepSeparated(Y(), t0, u0, Reserved(), t1, u1, c1[|c0|..]);
      SpillStepDropping(Y(), t0, u0, t1, c1[|c0|..]);
      CopySlotByRegister(i);
      Suffixes(c0, c1, masm.code);
      PreservesThrough(Y(), t0, t1, Contents(), c1[|c0|..], masm.code[|c1|..]);
      SeparatedThrough(Contents(), i, t1, u1, locations.Uses(), t0, u0);
    }

    method CopySlotByRegister(i: int)
      requires Valid() && Room(1) && locations.freeRegs != []
      requires 0 <= i < |Contents()| && Contents()[i].Entry? && Contents()[i].reg == NO_LOCATION
      modifies this, locations, masm
      ensures Valid() && KeepsReservations()
      ensures Separated(Contents(), i, old(Contents()), old(locations.Uses()), locations.Uses())
      ensures old(masm.code) <= masm.code && OnlyMoves(masm.code[|old(masm.code)|..])
      ensures PRs(Contents()) == PRs(old(Contents()))
      ensures Preserves(Y(), old(Contents()), Contents(), masm.code[|old(masm.code)|..])
      ensures Dropping(old(Contents()), Contents()) && |locations.freeList| <= |old(locations.freeList)| + 1
    {
      hide TableOf, Sound, UseCounts, Consistent, Take, GiveUp, OperandOf, Preserves, PRs, Separated, Locs, OkEntry,
        OnlyMoves;
      ghost var t, u, c := Contents(), locations.Uses(), masm.code;
      var sloc := stackLocations[i];
      locations.Facts();
      var tmpLoc := locations.AllocateRegister();
      TakeOther(u, tmpLoc, -1);
      var newLoc := locations.AllocateStackTmp();
      masm.Movl(OperandOf(Y(), tmpLoc), OperandOf(Y(), sloc));
      masm.Movl(OperandOf(Y(), newLoc), OperandOf(Y(), tmpLoc));
      CopyByRegister(Y(), t, u, Reserved(), i, tmpLoc, newLoc);
      ReleaseEntry(locations, tmpLoc, sloc, Entry(t[i].pr, tmpLoc, sloc));
      PutLocations(i, NO_LOCATION, newLoc);
      TwoMoves(c, Movl(OperandOf(Y(), tmpLoc), OperandOf(Y(), sloc)),
        Movl(OperandOf(Y(), newLoc), OperandOf(Y(), tmpLoc)));
    }

    /** Gives slot i locations of its own, keeping one of them where it is not shared. */
    method IsolateSlot(i: int, locked: set<PseudoRegister>) returns (ok: bool)
      requires Valid() && Room(2) && 0 <= i < |Contents()| && Contents()[i].Entry?
      modifies this, locations, masm
      ensures Valid() && KeepsReservations()
      ensures !ok ==> !CanFreeRegister(locked) && unchanged(this) && unchanged(locations) && unchanged(masm)
      ensures ok ==> Separated(Contents(), i, old(Contents()), old(locations.Uses()), locations.Uses())
      ensures old(masm.code) <= masm.code && OnlyMoves(masm.code[|old(masm.code)|..])
      ensures ok ==>
        PRs(Contents()) == PRs(old(Contents()))
          && Preserves(Y(), old(Contents()), Contents(), masm.code[|old(masm.code)|..])
      ensures Dropping(old(Contents()), Contents()) && |locations.freeList| <= |old(locations.freeList)| + 2
    {
      hide TableOf, Sound, UseCounts, Consistent, Preserves, PRs, Separated, CanFreeRegister;
      ghost var t, u, c := Contents(), locations.Uses(), masm.code;
      assert c[|c|..] == [];
      var rloc, sloc := registerLocations[i], stackLocations[i];
      SlotLocations(i, multiset{});
      SlotUses(Y(), t, u, Reserved(), i);
      AlreadySole(Y(), t, u, Reserved(), i);
      ok := true;
      if rloc != NO_LOCATION && sloc != NO_LOCATION {
        if locations.Uses()[rloc] > 1 && locations.Uses()[sloc] > 1 {
          MoveSlotToStack(i);
        } else if locations.Uses()[rloc] > 1 {
          DropSlotLocation(i, true);
        } else if locations.Uses()[sloc] > 1 {
          DropSlotLocation(i, false);
        }
      } else if rloc != NO_LOCATION {
        if locations.Uses()[rloc] > 1 {
          MoveSlotToStack(i);
        }
      } else {
        if locations.Uses()[sloc] > 1 {
          ok := CopySlotOnStack(i, locked);
        }
      }
    }

    /** Makes every location belong to at most one pseudo register, with moves only. It gives up
        only when every register is reserved or holds a locked pseudo register. */
    method MakeInjective(locked: set<PseudoRegister>) returns (ok: bool)
      requires Valid() && Room(2 * |pseudoRegisters|)
      modifies this, locations, masm
      ensures Valid() && KeepsReservations()
      ensures ok ==> Injective(Contents())
      ensures !ok ==> forall r :: !Spareable(Y(), old(Contents()), Reserved(), locked, r)
      ensures old(masm.code) <= masm.code && OnlyMoves(masm.code[|old(masm.code)|..])
      ensures PRs(Contents()) == PRs(old(Contents()))
      ensures Preserves(Y(), old(Contents()), Contents(), masm.code[|old(masm.code)|..])
    {
      hide TableOf, Sound, UseCounts, Consistent, Preserves, PRs, Separated, CanFreeRegister, Spareable, Sole,
        Injective;
      ghost var t0, c0 := Contents(), masm.code;
      IdentityPreserves(Y(), t0, locations.Uses(), Reserved());
      assert c0[|c0|..] == [];
      ok := true;
      var i := |pseudoRegisters|;
      while i > 0 && ok
        invariant 0 <= i <= |pseudoRegisters| == |t0| && Valid() && KeepsReservations()
        invariant ok ==> SoleFrom(Contents(), locations.Uses(), i)
        invariant !ok ==> !CanFreeRegister(locked)
        invariant c0 <= masm.code && OnlyMoves(masm.code[|c0|..])
        invariant PRs(Contents()) == PRs(t0) && Preserves(Y(), t0, Contents(), masm.code[|c0|..])
        invariant Dropping(t0, Contents())
        invariant |locations.freeList| + 2 * i <= SENTINEL
      {
        i := i - 1;
        if pseudoRegisters[i] != null {
          ghost var t, u, c := Contents(), locations.Uses(), masm.code;
          ok := IsolateSlot(i, locked);
          if ok {
            Suffixes(c0, c, masm.code);
            PreservesThrough(Y(), t0, t, Contents(), c[|c0|..], masm.code[|c|..]);
            SoleStep(Contents(), i, t, u, locations.Uses());
          }
        } else {
          SoleUnused(Contents(), i, locations.Uses());
        }
      }
      if ok {
        SoleInjective(Y(), Contents(), locations.Uses(), Reserved());
      } else {
        NoneSpareable(locked, t0);
      }
    }

    lemma NoneSpareable(locked: set<PseudoRegister>, t0: Table)
      requires Valid() && !CanFreeRegister(locked) && Dropping(t0, Contents()) && 2 * |Contents()| <= SENTINEL
      ensures forall r :: !Spareable(Y(), t0, Reserved(), locked, r)
    {
      hide *;
      forall r
        ensures !Spareable(Y(), t0, Reserved(), locked, r)
      {
        if Spareable(Y(), t0, Reserved(), locked, r) {
          SpareableFrees(locked, t0, r);
        }
      }
    }

    /** A spareable register is free or can be spilled. */
    lemma SpareableFrees(locked: set<PseudoRegister>, t0: Table, r: int)
      requires Valid() && Dropping(t0, Contents()) && 2 * |Contents()| <= SENTINEL
      requires Spareable(Y(), t0, Reserved(), locked, r)
      ensures CanFreeRegister(locked)
    {
      hide TableOf, Sound, UseCounts, Consistent;
      locations.Facts();
      if locations.Uses()[r] != 0 {
        var k := RegisterHolder(Y(), Contents(), locations.Uses(), Reserved(), r);
        assert Spillable(Y(), Contents()[k], locations.Uses(), locked);
      }
    }

    /** Whether no location is used twice, by the use counts. */
    method IsInjective() returns (b: bool)
      requires Valid()
      ensures b <==> Injective(Contents())
    {
      hide TableOf, Sound, UseCounts, Consistent;
      SharedNotSole(Y(), Contents(), locations.Uses(), Reserved());
      var i := |pseudoRegisters|;
      while i > 0
        invariant 0 <= i <= |pseudoRegisters| && SoleFrom(Contents(), locations.Uses(), i)
      {
        i := i - 1;
        if pseudoRegisters[i] != null {
          SlotLocations(i, multiset{});
          SlotUses(Y(), Contents(), locations.Uses(), Reserved(), i);
          var rloc, sloc := registerLocations[i], stackLocations[i];
          if HasRegLoc(i) && locations.Uses()[rloc] > 1 {
            assert rloc in Locs(Contents()[i]) && At(locations.Uses(), rloc) > 1;
            return false;
          }
          if HasStkLoc(i) && locations.Uses()[sloc] > 1 {
            assert sloc in Locs(Contents()[i]) && At(locations.Uses(), sloc) > 1;
            return false;
          }
        }
      }
      SoleInjective(Y(), Contents(), locations.Uses(), Reserved());
      return true;
    }

    /** The two mappings can be merged: they are separate, laid out alike, the target is injective,
        wants no register that is reserved here, and wants an argument slot only where it is used
        already. */
    ghost predicate MergesInto(with: PseudoRegisterMapping)
      reads this, locations, with, with.locations
    {
      && Valid() && with.Valid() && with != this && with.locations != locations && Y() == with.Y()
      && Injective(with.Contents())
      && WantsOnly(Y(), Contents(), with.Contents(), Reserved())
    }

    /** First pass over one differing slot: pushes its value unless one of its locations conforms,
        and gives up the others. */
    method PushSlot(i: int, with: PseudoRegisterMapping, j: int, ghost r: Table)
      requires Shape() && with.Shape() && with != this && with.locations != locations && locations.Valid()
      requires with.locations.Valid()
      requires Y() == with.Y()
      requires 0 <= i < |Contents()| && 0 <= j < |with.Contents()| && Contents()[i].Entry? && with.Contents()[j].Entry?
      requires |r| == |Contents()| && r[i] == Contents()[i] && Differs(Contents()[i], with.Contents()[j])
      requires OkEntry(Y(), |locations.Uses()|, Contents()[i])
      requires OkEntry(Y(), |with.locations.Uses()|, with.Contents()[j])
      requires Counted(r, locations.Uses(), Reserved()) && Alone(Y(), locations.Uses(), Reserved())
      modifies locations, masm
      ensures locations.Valid() && |locations.Uses()| == |old(locations.Uses())|
      ensures Counted(r[i := Conforming(Contents()[i], with.Contents()[j])], locations.Uses(), Reserved())
      ensures Alone(Y(), locations.Uses(), Reserved())
      ensures masm.code == old(masm.code)
        + if NeedsPush(Contents()[i], with.Contents()[j]) then [Pushl(OperandOf(Y(), Primary(Contents()[i])))] else []
    {
      hide TableOf, Sound, UseCounts, Counted, Alone, OperandOf, Surrendered, Conforming, NeedsPush, OkEntry, Locs;
      ghost var e, f := Contents()[i], with.Contents()[j];
      ConformingCounts(Y(), Contents(), locations.Uses(), r, Reserved(), i, f);
      PushDiffering(masm, locations, registerLocations[i], stackLocations[i], with.registerLocations[j],
        with.stackLocations[j], e, f);
      ReleaseDiffering(locations, registerLocations[i], stackLocations[i], with.registerLocations[j],
        with.stackLocations[j], e, f);
    }

    /** First pass: looks at every target slot, from the end, whose pseudo register is here with other
        locations; saves its value and remembers the two slots. */
    method PushPass(with: PseudoRegisterMapping) returns (src: seq<int>, dst: seq<int>)
      requires MergesInto(with)
      modifies locations, masm, PRs(with.Contents())
      ensures locations.Valid() && |locations.Uses()| == |old(locations.Uses())|
      ensures Pairs(Contents(), with.Contents(), src, dst, 0)
      ensures Counted(Residual(Contents(), with.Contents(), 0), locations.Uses(), Reserved())
      ensures Alone(Y(), locations.Uses(), Reserved())
      ensures old(masm.code) <= masm.code && KeepsAll(masm.code[|old(masm.code)|..])
      ensures Pushes(masm.code[|old(masm.code)|..], PushedFor(Y(), Contents(), with.Contents(), src, dst))
    {
      hide TableOf, Sound, UseCounts, Counted, Alone, OkTable, Injective, WantsOnly, IndexOf, OperandOf, Pairs,
        Residual,
        KeepsAll, Pushes, PushedFor, PRs, NeedsPush, Conforming;
      ghost var t, w, c0 := Contents(), with.Contents(), masm.code;
      ghost var u0, n := locations.Uses(), |with.locations.Uses()|;
      src, dst := [], [];
      KeepsNothing();
      assert c0[|c0|..] == [];
      PassStart(Y(), |u0|, n, t, w);
      assert Reserved() + multiset{} == Reserved();
      var j := |with.pseudoRegisters|;
      while j > 0
        invariant 0 <= j <= |w| && with.Valid() && locations.Valid() && |locations.Uses()| == |u0|
        invariant |src| == |dst| && Pairs(t, w, src, dst, j)
        invariant Counted(Residual(t, w, j), locations.Uses(), Reserved()) && Alone(Y(), locations.Uses(), Reserved())
        invariant c0 <= masm.code && KeepsAll(masm.code[|c0|..])
        invariant Pushes(masm.code[|c0|..], PushedFor(Y(), t, w, src, dst))
      {
        j := j - 1;
        src, dst := PushIfDiffers(with, j, src, dst, t, w, c0, |u0|, n);
      }
    }

    /** One slot of the target: what it wants is pushed if it is not where it should be. */
    method PushIfDiffers(with: PseudoRegisterMapping, j: int, src0: seq<int>, dst0: seq<int>,
                         ghost t: Table, ghost w: Table, ghost c0: Code, ghost m: int,
                           ghost n: int) returns (src: seq<int>, dst: seq<int>)
      requires Shape() && with.Shape() && with != this && with.locations != locations && locations.Valid()
      requires with.locations.Valid() && Y() == with.Y()
      requires t == Contents() && w == with.Contents() && 0 <= j < |w| && m == |locations.Uses()|
      requires n == |with.locations.Uses()|
      requires OkTable(Y(), m, t) && OkTable(Y(), n, w) && |src0| == |dst0| && Pairs(t, w, src0, dst0, j + 1)
      requires Counted(Residual(t, w, j + 1), locations.Uses(), Reserved()) && Alone(Y(), locations.Uses(), Reserved())
      requires c0 <= masm.code && KeepsAll(masm.code[|c0|..])
      requires Pushes(masm.code[|c0|..], PushedFor(Y(), t, w, src0, dst0))
      modifies locations, masm, PRs(with.Contents())
      ensures locations.Valid() && |locations.Uses()| == m && |src| == |dst| && Pairs(t, w, src, dst, j)
      ensures Counted(Residual(t, w, j), locations.Uses(), Reserved()) && Alone(Y(), locations.Uses(), Reserved())
      ensures c0 <= masm.code && old(masm.code) <= masm.code && KeepsAll(masm.code[|c0|..])
      ensures Pushes(masm.code[|c0|..], PushedFor(Y(), t, w, src, dst))
    {
      hide TableOf, Sound, UseCounts, Counted, Alone, OkTable, IndexOf, OperandOf, Pairs, Residual, KeepsAll, Pushes,
        PushedFor,
        PRs, NeedsPush, Conforming;
      src, dst := src0, dst0;
      var i := -1;
      if with.pseudoRegisters[j] != null {
        InPRs(w, j);
        i := Find(with.pseudoRegisters[j], m);
      }
      if i >= 0 && (registerLocations[i] != with.registerLocations[j] || stackLocations[i] != with.stackLocations[j]) {
        ResidualStep(Y(), m, n, t, w, src, dst, j, i);
        PassOk(Y(), m, t, i);
        PassOk(Y(), n, w, j);
        ghost var c := masm.code;
        PushSlot(i, with, j, Residual(t, w, j + 1));
        PushedForSnoc(Y(), t, w, src, dst, i, j);
        PassCode(Y(), c0, c, masm.code, PushedFor(Y(), t, w, src, dst), t[i], w[j]);
        src, dst := src + [i], dst + [j];
      } else {
        ResidualSkip(Y(), m, n, t, w, src, dst, j);
      }
    }

    /** Second pass over one slot: its value goes to the wanted locations, which are taken. */
    method PopSlot(i: int, with: PseudoRegisterMapping, j: int, ghost e: Entry, ghost f: Entry)
      requires Shape() && with.Shape() && with != this && with.locations != locations && locations.Valid()
      requires Y() == with.Y()
      requires 0 <= i < |Contents()| && 0 <= j < |with.Contents()| && Contents()[i] == e && with.Contents()[j] == f
      requires e.Entry? && f.Entry? && e.pr == f.pr && Differs(e, f)
      requires OkEntry(Y(), |locations.Uses()|, e) && OkEntry(Y(), |locations.Uses()|, f)
      requires forall l ::
        l in Missing(e, f) ==> 0 <= l < |locations.Uses()| && !Y().IsArgument(l) && At(locations.Uses(), l) == 0
      modifies this, locations, masm
      ensures Shape() && locations.Valid() && KeepsReservations()
      ensures Contents() == old(Contents())[i := f]
      ensures locations.Uses() == Acquired(old(locations.Uses()), e, f) && |locations.Uses()| == |old(locations.Uses())|
      ensures masm.code == old(masm.code) + Delivery(Y(), e, f)
    {
      hide TableOf, Sound, UseCounts, OperandOf;
      Deliver(masm, Y(), registerLocations[i], stackLocations[i], with.registerLocations[j], with.stackLocations[j], e,
        f);
      Acquire(locations, registerLocations[i], stackLocations[i], with.registerLocations[j], with.stackLocations[j], e,
        f);
      PutLocations(i, with.registerLocations[j], with.stackLocations[j]);
    }

    method PopPass(with: PseudoRegisterMapping, src0: seq<int>, dst0: seq<int>, ghost t: Table, ghost n0: int,
                   ghost c0: Code)
      requires Shape() && locations.Valid() && with.Valid() && with != this && with.locations != locations
      requires Y() == with.Y()
      requires Contents() == t && OkTable(Y(), n0, t) && n0 <= |locations.Uses()|
      requires Pairs(t, with.Contents(), src0, dst0, 0) && WantsOnly(Y(), t, with.Contents(), Reserved())
      requires forall i :: 0 <= i < |t| && t[i].Entry? ==> 0 <= IndexOf(with.Contents(), t[i].pr)
      requires |with.locations.Uses()| <= |locations.Uses()| && c0 <= masm.code
      requires Resolving(Y(), t, with.Contents(), Residual(t, with.Contents(), 0), locations.Uses(), Reserved(),
                         masm.code[|c0|..], PushedFor(Y(), t, with.Contents(), src0, dst0))
      modifies this, locations, masm
      ensures Valid() && KeepsReservations() && c0 <= masm.code && |locations.Uses()| == |old(locations.Uses())|
      ensures Conformant(Contents(), with.Contents()) && PRs(Contents()) == PRs(t)
      ensures Preserves(Y(), t, Contents(), masm.code[|c0|..])
    {
      hide TableOf, Sound, UseCounts, Consistent, OkTable, WantsOnly, IndexOf, OperandOf, Pairs, Residual, Pending,
        Untouched,
        PushedFor,
           PRs, NeedsPush, Resolving, Delivery, Acquired, Missing, Preserves, Conformant;
      ghost var w, n := with.Contents(), |with.locations.Uses()|;
      PendingStart(t, w, src0, dst0);
      var src, dst := src0, dst0;
      assert src0[..|src0|] == src0 && dst0[..|dst0|] == dst0;
      PairLengths(t, w, src0, dst0);
      with.TableOk();
      while src != []
        invariant |src| <= |src0| && |dst| == |src| && src == src0[..|src|] && dst == dst0[..|dst|]
        invariant Shape() && locations.Valid() && with.Valid() && KeepsReservations() && c0 <= masm.code
        invariant |locations.Uses()| == |old(locations.Uses())| && Contents() == Untouched(t, w, src)
        invariant Resolving(Y(), t, w, Pending(t, w, src), locations.Uses(), Reserved(), masm.code[|c0|..],
          PushedFor(Y(), t, w, src, dst))
      {
        var k := |src| - 1;
        PopTop(with, src[..k], dst[..k], src[k], dst[k], src0, dst0, t, n0, c0);
        src, dst := src[..k], dst[..k];
      }
      NoPushes(Y(), t, w);
      FinishResolving(Y(), t, n0, w, n, locations.Uses(), Reserved(), masm.code[|c0|..]);
    }

    /** The value pushed last is brought home. */
    method PopTop(with: PseudoRegisterMapping, ghost src: seq<int>, ghost dst: seq<int>, i: int, j: int,
                  ghost src0: seq<int>, ghost dst0: seq<int>, ghost t: Table, ghost n0: int, ghost c0: Code)
      requires Shape() && locations.Valid() && with.Valid() && with != this && with.locations != locations
      requires Y() == with.Y() && OkTable(Y(), n0, t) && n0 <= |locations.Uses()| && c0 <= masm.code
      requires Pairs(t, with.Contents(), src0, dst0, 0) && WantsOnly(Y(), t, with.Contents(), Reserved())
      requires |with.locations.Uses()| <= |locations.Uses()|
      requires |dst| == |src| < |src0| == |dst0| && src + [i] == src0[..|src| + 1] && dst + [j] == dst0[..|src| + 1]
      requires Contents() == Untouched(t, with.Contents(), src + [i])
      requires Resolving(Y(), t, with.Contents(), Pending(t, with.Contents(), src + [i]), locations.Uses(), Reserved(),
                         masm.code[|c0|..], PushedFor(Y(), t, with.Contents(), src + [i], dst + [j]))
      modifies this, locations, masm
      ensures Shape() && locations.Valid() && with.Valid() && KeepsReservations() && c0 <= masm.code
      ensures |locations.Uses()| == |old(locations.Uses())| && Contents() == Untouched(t, with.Contents(), src)
      ensures Resolving(Y(), t, with.Contents(), Pending(t, with.Contents(), src), locations.Uses(), Reserved(),
                        masm.code[|c0|..], PushedFor(Y(), t, with.Contents(), src, dst))
    {
      hide TableOf, Sound, UseCounts, Consistent, OkTable, WantsOnly, IndexOf, OperandOf, Pairs, Residual, Pending,
        Untouched,
        PushedFor, PRs, NeedsPush, Resolving, Delivery, Acquired, Missing;
      ghost var w, n, c := with.Contents(), |with.locations.Uses()|, masm.code;
      with.TableOk();
      PassStep(Y(), n0, n, t, w, src0, dst0, src, dst, i, j, locations.Uses(), Reserved(), c[|c0|..]);
      PopSlot(i, with, j, t[i], w[j]);
      assert masm.code[|c0|..] == c[|c0|..] + Delivery(Y(), t[i], w[j]);
    }

    lemma TableOk()
      requires Valid()
      ensures OkTable(Y(), |locations.Uses()|, Contents())
    {}

    /** Merging over the push stack: after the emitted code every pseudo register that the target
        knows is exactly where the target has it, with its value, and the push stack is balanced. */
    method OldMakeConformant(with: PseudoRegisterMapping)
      requires MergesInto(with) && |with.locations.Uses()| <= |locations.Uses()|
      requires PRs(Contents()) <= PRs(with.Contents())
      modifies this, locations, masm, PRs(with.Contents())
      ensures Valid() && with.Valid() && with.Contents() == old(with.Contents()) && KeepsReservations()
      ensures Conformant(Contents(), with.Contents()) && PRs(Contents()) == PRs(old(Contents()))
      ensures old(masm.code) <= masm.code
      ensures Preserves(Y(), old(Contents()), Contents(), masm.code[|old(masm.code)|..])
    {
      hide TableOf, Sound, UseCounts, Consistent, OkTable, WantsOnly, IndexOf, OperandOf, Pairs, Residual, PushedFor,
           PRs, Resolving, Preserves, Conformant, Injective, KeepsAll, Pushes, Counted, Alone;
      ghost var t, w, c0, n0, n := Contents(), with.Contents(), masm.code, |locations.Uses()|, |with.locations.Uses()|;
      TableOk();
      with.TableOk();
      locations.Facts();
      AllMatched(t, w);
      assert forall i, l :: 0 <= i < |t| && l in Locs(Wanted(w, t[i])) ==> l !in Reserved() by {
        WantsUnreserved(Y(), t, w, Reserved());
      }
      var src, dst := PushPass(with);
      PairLengths(t, w, src, dst);
      locations.Facts();
      StartResolving(Y(), t, n0, w, n, locations.Uses(), Reserved(), masm.code[|c0|..], PushedFor(Y(), t, w, src, dst));
      PopPass(with, src, dst, t, n0, c0);
    }

    /** Drops the pseudo registers that the target does not know. */
    method Strip(with: PseudoRegisterMapping)
      requires Valid() && with.Valid() && with != this && with.locations != locations
      modifies this, locations, PRs(Contents())
      ensures Valid() && with.Valid() && with.Contents() == old(with.Contents()) && KeepsReservations()
      ensures Contents() == Stripped(old(Contents()), with.Contents(), 0)
      ensures |locations.freeList| == |old(locations.freeList)|
    {
      hide TableOf, Sound, UseCounts, Consistent, IndexOf, PRs, Stripped;
      ghost var t0, w := Contents(), with.Contents();
      var i := |pseudoRegisters|;
      StrippedNothing(t0, w);
      while i > 0
        invariant 0 <= i <= |pseudoRegisters| == |t0| && Valid() && with.Valid() && with.Contents() == w
        invariant KeepsReservations()
        invariant Contents() == Stripped(t0, w, i)
        invariant |locations.freeList| == |old(locations.freeList)|
      {
        i := i - 1;
        StrippedStep(t0, w, i);
        if pseudoRegisters[i] != null {
          var pr := pseudoRegisters[i];
          InPRs(t0, i);
          UniqueIndex(Y(), Contents(), locations.Uses(), Reserved(), multiset{}, pr);
          var j := with.Index(pr);
          if j < 0 {
            Kill(pr);
          }
        }
      }
    }

    /** Makes sure that a mapping that no longer describes the situation is not used again. */
    method Destroy()
      modifies this`pseudoRegisters
      ensures pseudoRegisters == []
    {
      pseudoRegisters := [];
    }
  }

  /** Two pseudo registers that share a register and a place on the stack. */
  method SharedOnStack()
    returns (m: PseudoRegisterMapping, pr: PseudoRegister, ghost q: PseudoRegister, ghost r: int, ghost spill: int)
    ensures m.Valid() && m.Room(2) && m.Y() == Layout(0, MAX_USABLE_REGISTERS) && m.Y().IsRegister(r)
    ensures m.Y().IsStackTmp(spill)
    ensures pr != q && m.Contents() == [Entry(pr, r, spill), Entry(q, r, spill)]
    ensures m.Reserved() == multiset{} && m.temporaryLocations == []
    ensures fresh(m) && fresh(m.locations) && fresh(m.masm) && fresh(pr)
  {
    hide TableOf, Sound, UseCounts, Consistent, OperandOf, Take, GiveUp, IndexOf, Added, Killed, KilledUses, Saved,
      Preserves;
    var masm := new MacroAssembler();
    m := new PseudoRegisterMapping(masm, 0, MAX_USABLE_REGISTERS, 1);
    pr := new PseudoRegister();
    var q' := new PseudoRegister();
    q := q';
    StartsFree(m.Y(), pr);
    var ok, r' := m.Def(pr, NO_LOCATION, {});
    r := r';
    FirstTwo(pr, q', r');
    m.Move(q', pr);
    spill := m.SaveRegister(r');
    SavedTwo(pr, q', r', spill);
  }

  /** A temporary copy does not always get the value: two pseudo registers share a register and are on
      the stack as well. The copy of one takes another register, and nothing is loaded into it. */
  method TemporaryLost()
    returns (m: PseudoRegisterMapping, pr: PseudoRegister, loc: int, ghost t: Table, ghost code: Code)
    ensures m.Valid() && m.Y().IsRegister(loc) && m.temporaryLocations == [loc] && code <= m.masm.code
    ensures |t| == 2 && t[0].Entry? && t[1].Entry? && t[0].pr == pr != t[1].pr && IndexOf(t, pr) == 0
    ensures t[0].reg == t[1].reg != NO_LOCATION && t[0].stk == t[1].stk != NO_LOCATION
    ensures Preserves(m.Y(), t, m.Contents(), m.masm.code[|code|..])
    ensures !Delivers(m.Y(), t, IndexOf(t, pr), m.masm.code[|code|..], loc)
  {
    hide TableOf, Sound, UseCounts, Consistent, Delivers, From, OperandOf, FreesRegister, Take, GiveUp, IndexOf, PRs,
      SomeFree,
      Preserves;
    ghost var q, r, spill;
    m, pr, q, r, spill := SharedOnStack();
    t, code := m.Contents(), m.masm.code;
    SharedPair(m.Y(), t, m.locations.Uses(), pr, q, r, spill);
    m.CanFree({});
    FreesRegisters(m.Y(), t[0 := UnregisteredEntry(t[0])], GiveUp(m.locations.Uses(), r));
    var ok;
    ok, loc := m.TemporaryCopy(pr, {});
  }
}
