/** Making a mapping conform with another by a set of simultaneous moves, and the choice between
    this and the version over the push stack. */
module Merging {
  import opened Machine
  import opened LocationPool
  import opened MappingTable
  import opened Conformance
  import opened RegisterMapping
  import opened MappingSteps
  import opened MoveTasks
  import Groups = MappingGroups
  import opened MapConformanceResolver

  function VariableOf(y: Layout, l: int): Variable {
    if l == NO_LOCATION then Absent else Place(OperandOf(y, l))
  }

  /** The task that takes the value of entry `e` to the locations of `f`. */
  function TaskFor(y: Layout, e: Entry, f: Entry): MappingTask
    requires e.Entry? && f.Entry?
  {
    MappingTask(VariableOf(y, e.reg), VariableOf(y, e.stk), VariableOf(y, f.reg), VariableOf(y, f.stk), -1, -1, false,
      Absent)
  }

  predicate Moves(t: Table, w: Table, i: int, j: int) {
    0 <= i < |t| && 0 <= j < |w| && t[i].Entry? && w[j].Entry? && t[i].pr == w[j].pr && Differs(t[i], w[j])
  }

  /** The tasks for the target slots from n on, last slot first. */
  function TasksFor(y: Layout, t: Table, w: Table, n: nat): seq<MappingTask>
    requires n <= |w|
    decreases |w| - n
  {
    if n == |w| then []
    else
      TasksFor(y, t, w, n + 1)
      + if w[n].Entry? && Moves(t, w, IndexOf(t, w[n].pr), n) then [TaskFor(y, t[IndexOf(t, w[n].pr)], w[n])] else []
  }

  lemma {:induction false} TaskOrigin(y: Layout, t: Table, w: Table, n: nat, k: nat) returns (i: nat, j: nat)
    requires n <= |w| && k < |TasksFor(y, t, w, n)|
    ensures n <= j && Moves(t, w, i, j) && TasksFor(y, t, w, n)[k] == TaskFor(y, t[i], w[j])
    decreases |w| - n
  {
    hide Moves;
    if k < |TasksFor(y, t, w, n + 1)| {
      i, j := TaskOrigin(y, t, w, n + 1, k);
    } else {
      assert Moves(t, w, IndexOf(t, w[n].pr), n);
      i, j := MoveSlots(t, w, IndexOf(t, w[n].pr), n);
    }
  }

  lemma MoveSlots(t: Table, w: Table, i: int, j: int) returns (i': nat, j': nat)
    requires Moves(t, w, i, j)
    ensures i' == i && j' == j
  {
    i', j' := i, j;
  }

  lemma {:induction false} MoveTask(y: Layout, t: Table, w: Table, n: nat, m: int, i: nat, j: nat) returns (k: nat)
    requires n <= j && Moves(t, w, i, j) && OkTable(y, m, t)
    ensures n <= |w| && k < |TasksFor(y, t, w, n)| && TasksFor(y, t, w, n)[k] == TaskFor(y, t[i], w[j])
    decreases |w| - n
  {
    hide IndexOf;
    UniqueSlot(y, m, t, i);
    if n == j {
      k := |TasksFor(y, t, w, n + 1)|;
    } else {
      k := MoveTask(y, t, w, n + 1, m, i, j);
    }
  }

  lemma TaskOps(y: Layout, e: Entry, f: Entry)
    requires e.Entry? && f.Entry?
    ensures forall o :: o in TaskFor(y, e, f).Srcs() <==> exists l :: l in Locs(e) && o == OperandOf(y, l)
    ensures forall o :: o in TaskFor(y, e, f).Dsts() <==> exists l :: l in Locs(f) && o == OperandOf(y, l)
  {
    hide OperandOf;
    forall o
      ensures o in TaskFor(y, e, f).Srcs() <==> exists l :: l in Locs(e) && o == OperandOf(y, l)
      ensures o in TaskFor(y, e, f).Dsts() <==> exists l :: l in Locs(f) && o == OperandOf(y, l)
    {
      if o in TaskFor(y, e, f).Srcs() {
        var l := if e.reg != NO_LOCATION && o == OperandOf(y, e.reg) then e.reg else e.stk;
        assert l in Locs(e) && o == OperandOf(y, l);
      }
      if o in TaskFor(y, e, f).Dsts() {
        var l := if f.reg != NO_LOCATION && o == OperandOf(y, f.reg) then f.reg else f.stk;
        assert l in Locs(f) && o == OperandOf(y, l);
      }
    }
  }

  lemma ApartOperands(y: Layout, n: int, e: Entry, f: Entry, o: Operand)
    requires 1 <= y.nofRegisters <= MAX_USABLE_REGISTERS && OkEntry(y, n, e) && OkEntry(y, n, f) && Locs(e) !! Locs(f)
    requires exists k :: k in Locs(e) && o == OperandOf(y, k)
    ensures !exists l :: l in Locs(f) && o == OperandOf(y, l)
  {
    var k :| k in Locs(e) && o == OperandOf(y, k);
    forall l | l in Locs(f)
      ensures o != OperandOf(y, l)
    {
      OperandsDiffer(y, k, l);
    }
  }

  /** Distinct tasks have disjoint destinations, as the target shares no location. */
  lemma {:induction false} TasksApart(y: Layout, t: Table, w: Table, n: nat, m: int, a: nat, b: nat)
    requires 1 <= y.nofRegisters <= MAX_USABLE_REGISTERS && n <= |w| && OkTable(y, m, w) && Injective(w)
    requires a < b < |TasksFor(y, t, w, n)|
    ensures TasksFor(y, t, w, n)[a].Dsts() !! TasksFor(y, t, w, n)[b].Dsts()
    decreases |w| - n
  {
    hide IndexOf, Moves, OperandOf;
    if b < |TasksFor(y, t, w, n + 1)| {
      TasksApart(y, t, w, n + 1, m, a, b);
    } else {
      var i, j := TaskOrigin(y, t, w, n + 1, a);
      OneTaskApart(y, t, w, n, m, i, j);
    }
  }

  lemma OneTaskApart(y: Layout, t: Table, w: Table, n: nat, m: int, i: nat, j: nat)
    requires 1 <= y.nofRegisters <= MAX_USABLE_REGISTERS && n < j && OkTable(y, m, w) && Injective(w)
    requires Moves(t, w, i, j) && n < |w| && w[n].Entry? && Moves(t, w, IndexOf(t, w[n].pr), n)
    ensures TaskFor(y, t[i], w[j]).Dsts() !! TaskFor(y, t[IndexOf(t, w[n].pr)], w[n]).Dsts()
  {
    hide IndexOf, OperandOf;
    var k := IndexOf(t, w[n].pr);
    TaskOps(y, t[i], w[j]);
    TaskOps(y, t[k], w[n]);
    forall o | o in TaskFor(y, t[i], w[j]).Dsts() && o in TaskFor(y, t[k], w[n]).Dsts()
      ensures false
    {
      ApartOperands(y, m, w[j], w[n], o);
    }
  }

  // ---- the spare register ------------------------------------------------------------------------------

  /** The registers free in both mappings, by number. */
  function BothFree(y: Layout, u: seq<nat>, v: seq<nat>): set<nat>
    requires y.StackTmpsBeg() <= |u| && y.StackTmpsBeg() <= |v|
  {
    FreeNumbers(y, u, y.StackTmpsBeg()) * FreeNumbers(y, v, y.StackTmpsBeg())
  }

  /** The spare register is the lowest numbered of them, if there are any. */
  ghost predicate IsSpare(both: set<nat>, spare: Variable) {
    if both == {} then spare == Absent
    else spare.Place? && spare.op.Reg? && spare.op.number in both && forall n :: n in both ==> spare.op.number <= n
  }

  method PickSpare(both: set<nat>) returns (spare: Variable)
    requires forall n :: n in both ==> n < 8
    ensures IsSpare(both, spare)
  {
    spare := Absent;
    if both != {} {
      var i := 0;
      while i !in both
        invariant forall n :: n in both ==> i <= n
        decreases 8 - i
      {
        i := i + 1;
      }
      spare := Place(Reg(i));
    }
  }

  /** The spare register is the operand of a location that neither mapping uses. */
  lemma SpareLocation(y: Layout, u: seq<nat>, v: seq<nat>, spare: Variable) returns (l: int)
    requires y.StackTmpsBeg() <= |u| && y.StackTmpsBeg() <= |v| && 1 <= y.nofRegisters <= MAX_USABLE_REGISTERS
    requires IsSpare(BothFree(y, u, v), spare) && spare.Place?
    ensures y.IsRegister(l) && spare.op == OperandOf(y, l) && u[l] == 0 && v[l] == 0
  {
    FreeNumber(y, u, y.StackTmpsBeg(), spare.op.number);
    FreeNumber(y, v, y.StackTmpsBeg(), spare.op.number);
    l := RegisterAsLocation(y, spare.op.number);
  }

  lemma NumbersBelow(y: Layout, u: seq<nat>, v: seq<nat>)
    requires y.StackTmpsBeg() <= |u| && y.StackTmpsBeg() <= |v| && 1 <= y.nofRegisters <= MAX_USABLE_REGISTERS
    ensures forall n :: n in BothFree(y, u, v) ==> n < 8
  {
    forall n | n in BothFree(y, u, v)
      ensures n < 8
    {
      FreeNumber(y, u, y.StackTmpsBeg(), n);
    }
  }

  // ---- what the moves achieve -----------------------------------------------------------------------------

  lemma MovedCarries(y: Layout, t: Table, w: Table, m: int, i: nat, j: nat, spare: Variable, code: Code)
    requires OkTable(y, m, t) && Moves(t, w, i, j) && Groups.Resolved(TasksFor(y, t, w, 0), spare, code)
    ensures Carries(y, code, t[i], w[j])
  {
    var k := MoveTask(y, t, w, 0, m, i, j);
    hide OperandOf, TasksFor, TaskFor, Copies, IndexOf, Pushes;
    TaskOps(y, t[i], w[j]);
    var task := TaskFor(y, t[i], w[j]);
    forall l | l in Locs(w[j])
      ensures From(y, code, l, t[i])
    {
      assert OperandOf(y, l) in task.Dsts();
      assert Delivered(code, OperandOf(y, l), task.Srcs());
    }
  }

  lemma UnmovedCarries(y: Layout, t: Table, w: Table, m: int, n: int, v: seq<nat>, reserved: multiset<int>, i: nat,
                       j: nat, l: int,
                       spare: Variable, free: int, code: Code)
    requires 1 <= y.nofRegisters <= MAX_USABLE_REGISTERS && OkTable(y, m, t) && OkTable(y, n, w) && Injective(w)
    requires i < |t| && j < |w| && t[i].Entry? && t[i] == w[j] && l in Locs(w[j])
    requires Groups.Resolved(TasksFor(y, t, w, 0), spare, code)
    requires spare.Place? ==> 0 <= free && spare.op == OperandOf(y, free) && free !in Locs(w[j])
    ensures From(y, code, l, t[i])
  {
    hide OperandOf, TasksFor, Copies, IndexOf, Pushes, TaskFor;
    var o := OperandOf(y, l);
    assert 0 <= l by { assert OkEntry(y, n, w[j]); }
    if spare.Place? {
      OperandsDiffer(y, l, free);
    }
    forall k | 0 <= k < |TasksFor(y, t, w, 0)|
      ensures o !in TasksFor(y, t, w, 0)[k].Dsts()
    {
      NotTargeted(y, t, w, m, n, i, j, l, k);
    }
    assert Copies(code, o, o);
  }

  lemma NotTargeted(y: Layout, t: Table, w: Table, m: int, n: int, i: nat, j: nat, l: int, k: nat)
    requires 1 <= y.nofRegisters <= MAX_USABLE_REGISTERS && OkTable(y, m, t) && OkTable(y, n, w) && Injective(w)
    requires i < |t| && j < |w| && t[i].Entry? && t[i] == w[j] && l in Locs(w[j]) && k < |TasksFor(y, t, w, 0)|
    ensures OperandOf(y, l) !in TasksFor(y, t, w, 0)[k].Dsts()
  {
    hide OperandOf, TasksFor, IndexOf, TaskFor;
    var i', j' := TaskOrigin(y, t, w, 0, k);
    TaskOps(y, t[i'], w[j']);
    if j' == j {
      UniqueSlot(y, m, t, i);
      UniqueSlot(y, m, t, i');
    } else {
      ApartOperands(y, n, w[j], w[j'], OperandOf(y, l));
    }
  }

  /** Carried out as one simultaneous assignment, the tasks give every pseudo register its value in
      every place the target has it. */
  lemma ResolvedPreserves(y: Layout, t: Table, w: Table, m: int, n: int, v: seq<nat>, reserved: multiset<int>,
                          spare: Variable, free: int, code: Code)
    requires 1 <= y.nofRegisters <= MAX_USABLE_REGISTERS && OkTable(y, m, t) && OkTable(y, n, w) && Injective(w)
    requires Groups.Resolved(TasksFor(y, t, w, 0), spare, code)
    requires spare.Place? ==> 0 <= free && spare.op == OperandOf(y, free) && Counted(w, v, reserved) && At(v, free) == 0
    ensures Preserves(y, t, w, code)
  {
    hide OperandOf, TasksFor, Copies, IndexOf, OkTable, Injective, Counted, RefCount, Pushes;
    forall i, j | 0 <= i < |t| && 0 <= j < |w| && t[i].Entry? && w[j].Entry? && t[i].pr == w[j].pr
      ensures Carries(y, code, t[i], w[j])
    {
      if Differs(t[i], w[j]) {
        MovedCarries(y, t, w, m, i, j, spare, code);
      } else {
        forall l | l in Locs(w[j])
          ensures From(y, code, l, t[i])
        {
          if spare.Place? {
            UnusedHolder(w, v, reserved, j, free);
          }
          UnmovedCarries(y, t, w, m, n, v, reserved, i, j, l, spare, free, code);
        }
      }
    }
  }

  /** Nothing differs: nothing has to be done. */
  lemma NothingMoved(y: Layout, t: Table, w: Table, m: int)
    requires OkTable(y, m, t) && TasksFor(y, t, w, 0) == []
    ensures Preserves(y, t, w, [])
  {
    hide OperandOf, TasksFor, IndexOf;
    forall i, j | 0 <= i < |t| && 0 <= j < |w| && t[i].Entry? && w[j].Entry? && t[i].pr == w[j].pr
      ensures t[i] == w[j]
    {
      if Differs(t[i], w[j]) {
        var k := MoveTask(y, t, w, 0, m, i, j);
      }
    }
    forall o: Operand
      ensures Copies([], o, o) && Pushes([], [])
    {
      NoCode(o);
    }
    assert Copies([], Reg(0), Reg(0));
    hide Copies, Pushes;
    forall i, j, l | 0 <= i < |t| && 0 <= j < |w| && t[i].Entry? && w[j].Entry? && t[i].pr == w[j].pr && l in Locs(w[j])
      ensures From(y, [], l, t[i])
    {
      assert Copies([], OperandOf(y, l), OperandOf(y, l));
    }
  }

  /** With a spare register and one location per differing entry, the tasks can be resolved. */
  lemma SpareResolvable(y: Layout, t: Table, w: Table, m: int, n: int, u: seq<nat>, v: seq<nat>, r: multiset<int>,
                        q: multiset<int>,
                        spare: Variable, rank: seq<nat>)
    requires 1 <= y.nofRegisters <= MAX_USABLE_REGISTERS && OkTable(y, m, t) && OkTable(y, n, w) && Injective(w)
    requires y.StackTmpsBeg() <= |u| && y.StackTmpsBeg() <= |v| && Counted(t, u, r) && Counted(w, v, q)
    requires IsSpare(BothFree(y, u, v), spare) && spare.Place? && |rank| == |TasksFor(y, t, w, 0)|
    requires forall i, j :: Moves(t, w, i, j) ==> t[i].reg == NO_LOCATION || t[i].stk == NO_LOCATION
    ensures Groups.Resolvable(TasksFor(y, t, w, 0), spare, rank)
  {
    var free := SpareLocation(y, u, v, spare);
    var tasks := TasksFor(y, t, w, 0);
    hide TasksFor, IndexOf, Counted, Moves, BothFree, OperandOf, Injective, OkTable;
    forall k | 0 <= k < |tasks|
      ensures Groups.Untouched(tasks[k]) && tasks[k].WellTyped() && Groups.SingleSource(tasks[k])
      ensures spare.op !in tasks[k].Dsts() + tasks[k].Srcs()
    {
      var i, j := TaskOrigin(y, t, w, 0, k);
      MovesFacts(t, w, i, j);
      UnusedHolder(t, u, r, i, free);
      UnusedHolder(w, v, q, j, free);
      OkEntryAt(y, m, t, i);
      OkEntryAt(y, n, w, j);
      TaskFacts(y, m, n, t[i], w[j], free);
    }
    forall a, b | 0 <= a < b < |tasks|
      ensures tasks[a].Dsts() !! tasks[b].Dsts()
    {
      TasksApart(y, t, w, 0, n, a, b);
    }
    Groups.SingleSourcesResolvable(tasks, spare, rank);
  }

  lemma MovesFacts(t: Table, w: Table, i: int, j: int)
    requires Moves(t, w, i, j)
    ensures 0 <= i < |t| && 0 <= j < |w| && t[i].Entry? && w[j].Entry?
  {}

  lemma OkEntryAt(y: Layout, n: int, t: Table, i: nat)
    requires OkTable(y, n, t) && i < |t|
    ensures OkEntry(y, n, t[i])
  {}

  lemma TaskFacts(y: Layout, m: int, n: int, e: Entry, f: Entry, free: int)
    requires 1 <= y.nofRegisters <= MAX_USABLE_REGISTERS && e.Entry? && f.Entry? && OkEntry(y, m, e) && OkEntry(y, n, f)
    requires 0 <= free && free !in Locs(e) && free !in Locs(f) && (e.reg == NO_LOCATION || e.stk == NO_LOCATION)
    ensures var task := TaskFor(y, e, f);
      && Groups.Untouched(task) && task.WellTyped() && Groups.SingleSource(task)
      && OperandOf(y, free) !in task.Dsts() + task.Srcs()
  {
    TaskOps(y, e, f);
    forall l | l in Locs(e) + Locs(f)
      ensures OperandOf(y, l) != OperandOf(y, free)
    {
      OperandsDiffer(y, l, free);
    }
  }

  // ---- the methods -------------------------------------------------------------------------------------------

  /** What the code calls the two mappings being fit to be merged. */
  ghost predicate Mergeable(from: PseudoRegisterMapping, with: PseudoRegisterMapping)
    reads from, from.locations, with, with.locations
  {
    && from.Valid() && with.Valid() && with != from && with.locations != from.locations && from.Y() == with.Y()
    && Injective(with.Contents())
  }

  /** Lists the moves for all slots of `with` whose entries differ here. */
  method AppendMoves(from: PseudoRegisterMapping, with: PseudoRegisterMapping, helper: MapConformance)
    requires Mergeable(from, with) && helper.mappings == []
    modifies helper`mappings, PRs(with.Contents())
    ensures helper.mappings == TasksFor(from.Y(), from.Contents(), with.Contents(), 0)
  {
    var y := from.Y();
    ghost var t, w, n := from.Contents(), with.Contents(), |from.locations.Uses()|;
    from.TableOk();
    hide IndexOf, OperandOf, OkTable, PRs, Sound, UseCounts, Consistent, Injective;
    var j := |with.pseudoRegisters|;
    while j > 0
      invariant 0 <= j <= |w| && helper.mappings == TasksFor(y, t, w, j)
    {
      j := j - 1;
      if with.pseudoRegisters[j] != null {
        InPRs(w, j);
        var i := from.Find(with.pseudoRegisters[j], n);
        if i < 0 {
          continue;
        }
        var rloc, sloc := from.registerLocations[i], from.stackLocations[i];
        var rwant, swant := with.registerLocations[j], with.stackLocations[j];
        if rloc != rwant || sloc != swant {
          helper.AppendMapping(VariableOf(y, rloc), VariableOf(y, sloc), VariableOf(y, rwant), VariableOf(y, swant));
        }
      }
    }
  }

  /** Takes the spare register in both mappings and gives it back: a check that it is free in both. */
  method CheckSpare(from: PseudoRegisterMapping, with: PseudoRegisterMapping, number: nat)
    requires Mergeable(from, with)
    requires from.Y().StackTmpsBeg() <= |from.locations.Uses()| && from.Y().StackTmpsBeg() <= |with.locations.Uses()|
    requires number in BothFree(from.Y(), from.locations.Uses(), with.locations.Uses())
    modifies from.locations, with.locations
    ensures from.locations.Valid() && with.locations.Valid()
    ensures from.locations.Uses() == old(from.locations.Uses()) && with.locations.Uses() == old(with.locations.Uses())
  {
    FreeNumber(from.Y(), from.locations.Uses(), from.Y().StackTmpsBeg(), number);
    FreeNumber(from.Y(), with.locations.Uses(), from.Y().StackTmpsBeg(), number);
    CheckFree(from.locations, number);
    CheckFree(with.locations, number);
  }

  method CheckFree(locations: Locations, number: nat)
    requires locations.Valid() && number in {0, 1, 2, 3, 6, 7}
    requires RegisterAsLocation(locations.layout, number) < locations.layout.StackTmpsBeg() <= |locations.Uses()|
    requires locations.Uses()[RegisterAsLocation(locations.layout, number)] == 0
    modifies locations
    ensures locations.Valid() && locations.Uses() == old(locations.Uses())
  {
    hide Sound, UseCounts;
    var l := RegisterAsLocation(locations.layout, number);
    locations.Allocate(l);
    locations.Release(l);
  }

  /** The moves needed between the two tables can be resolved, with the spare register there is. */
  ghost predicate CanResolve(y: Layout, t: Table, w: Table, u: seq<nat>, v: seq<nat>, rank: seq<nat>) {
    && y.StackTmpsBeg() <= |u| && y.StackTmpsBeg() <= |v|
    && forall spare :: IsSpare(BothFree(y, u, v), spare) ==> Groups.Resolvable(TasksFor(y, t, w, 0), spare, rank)
  }

  lemma CanResolveWith(y: Layout, t: Table, w: Table, u: seq<nat>, v: seq<nat>, rank: seq<nat>, spare: Variable)
    requires CanResolve(y, t, w, u, v, rank) && IsSpare(BothFree(y, u, v), spare)
    ensures Groups.Resolvable(TasksFor(y, t, w, 0), spare, rank)
  {}

  lemma SpareNumber(both: set<nat>, spare: Variable)
    requires IsSpare(both, spare) && spare.Place?
    ensures spare.op.Reg? && spare.op.number in both
  {}

  /** Picks the lowest numbered register that is free in both mappings. */
  method FindSpare(from: PseudoRegisterMapping, with: PseudoRegisterMapping) returns (spare: Variable, ghost free: int)
    requires Mergeable(from, with)
    modifies from.locations, with.locations
    ensures from.locations.Valid() && with.locations.Valid()
    ensures from.locations.Uses() == old(from.locations.Uses()) && with.locations.Uses() == old(with.locations.Uses())
    ensures from.Y().StackTmpsBeg() <= |from.locations.Uses()| && from.Y().StackTmpsBeg() <= |with.locations.Uses()|
    ensures IsSpare(BothFree(from.Y(), from.locations.Uses(), with.locations.Uses()), spare)
    ensures spare.Place? ==> 0 <= free && spare.op == OperandOf(from.Y(), free) && At(with.locations.Uses(), free) == 0
  {
    from.locations.Facts();
    hide Sound, UseCounts, Consistent, Injective, IsSpare, FreeNumbers, OperandOf;
    var mask1 := from.locations.FreeRegisterMask();
    var mask2 := with.locations.FreeRegisterMask();
    ghost var y, u, v := from.Y(), from.locations.Uses(), with.locations.Uses();
    assert mask1 * mask2 == BothFree(y, u, v);
    NumbersBelow(y, u, v);
    spare := PickSpare(mask1 * mask2);
    free := -1;
    if spare.Place? {
      free := SpareLocation(y, u, v, spare);
      SpareNumber(mask1 * mask2, spare);
      CheckSpare(from, with, spare.op.number);
    }
  }

  /** Resolves the moves that have been listed, emits them and retires this mapping. */
  method EmitMoves(from: PseudoRegisterMapping, with: PseudoRegisterMapping, helper: MapConformance, ghost t: Table,
                   ghost w: Table, ghost rank: seq<nat>)
    requires Mergeable(from, with) && from.Contents() == t && with.Contents() == w
    requires CanResolve(from.Y(), t, w, from.locations.Uses(), with.locations.Uses(), rank)
    requires helper.mappings == TasksFor(from.Y(), t, w, 0) && helper.masm.code == [] && helper.masm != from.masm
    modifies from, from.locations, from.masm, with.locations, helper, helper.masm
    ensures with.locations.Valid() && with.locations.Uses() == old(with.locations.Uses())
    ensures exists recorded :: from.masm.code == old(from.masm.code) + recorded && Preserves(from.Y(), t, w, recorded)
    ensures from.pseudoRegisters == []
  {
    ghost var y, m, v, q := from.Y(), |from.locations.Uses()|, with.locations.Uses(), with.Reserved();
    assert Counted(w, v, q + multiset{}) && q + multiset{} == q;
    assert OkTable(y, m, t) && OkTable(y, |v|, w);
    from.locations.Facts();
    hide *;
    var spare;
    ghost var free;
    spare, free := FindSpare(from, with);
    CanResolveWith(y, t, w, from.locations.Uses(), v, rank, spare);
    helper.Generate(spare, rank);
    ResolvedPreserves(y, t, w, m, |v|, v, q, spare, free, helper.masm.code);
    from.masm.Append(helper.masm.code);
    from.Destroy();
  }

  /** Merging by simultaneous moves. If any slot differs, the moves are resolved with the help of a
      register that is free in both mappings, and this mapping must not be used any more; `with`
      describes the situation after the emitted code. */
  method NewMakeConformant(from: PseudoRegisterMapping, with: PseudoRegisterMapping, ghost t: Table, ghost w: Table,
                           ghost rank: seq<nat>)
    requires Mergeable(from, with) && from.Contents() == t && with.Contents() == w
    requires CanResolve(from.Y(), t, w, from.locations.Uses(), with.locations.Uses(), rank)
    modifies from, from.locations, from.masm, with.locations, PRs(w)
    ensures with.Valid() && with.Contents() == w
    ensures old(from.masm.code) <= from.masm.code
    ensures Preserves(from.Y(), t, w, from.masm.code[|old(from.masm.code)|..])
    ensures TasksFor(from.Y(), t, w, 0) != [] ==> from.pseudoRegisters == []
  {
    hide Sound, UseCounts, Consistent, Injective, OkTable, CanResolve, TasksFor, Preserves, OperandOf;
    ghost var c0 := from.masm.code;
    from.TableOk();
    var recorder := new MacroAssembler();
    var helper := new MapConformance(recorder);
    AppendMoves(from, with, helper);
    if helper.mappings == [] {
      NothingMoved(from.Y(), t, w, |from.locations.Uses()|);
      assert from.masm.code[|c0|..] == [];
    } else {
      EmitMoves(from, with, helper, t, w, rank);
      ghost var recorded :| from.masm.code == c0 + recorded && Preserves(from.Y(), t, w, recorded);
      assert from.masm.code[|c0|..] == recorded;
    }
  }

  // ---- the choice between the two versions ------------------------------------------------------------------

  lemma ExtendedConsistent(y: Layout, t: Table, u: seq<nat>, r: multiset<int>, k: nat)
    requires Consistent(y, t, u, r, multiset{})
    ensures Consistent(y, t, u + Zeros(k), r, multiset{})
  {
    var u' := u + Zeros(k);
    forall l
      ensures At(u', l) == At(u, l)
    {}
    hide RefCount, At;
    forall i | 0 <= i < |t|
      ensures OkEntry(y, |u'|, t[i])
    {
      assert OkEntry(y, |u|, t[i]);
    }
  }

  /** Stripping drops exactly the pseudo registers the target does not know. */
  lemma StrippedFacts(t: Table, w: Table)
    ensures |Stripped(t, w, 0)| == |t|
    ensures forall i :: 0 <= i < |t| ==> Stripped(t, w, 0)[i] == t[i] || Stripped(t, w, 0)[i].Unused?
    ensures forall i, j ::
      0 <= i < |t| && 0 <= j < |w| && t[i].Entry? && w[j].Entry? && t[i].pr == w[j].pr ==> Stripped(t, w, 0)[i] == t[i]
    ensures PRs(Stripped(t, w, 0)) <= PRs(w)
  {
    hide IndexOf;
  }

  lemma StrippedWants(y: Layout, t: Table, w: Table, r: multiset<int>)
    requires WantsOnly(y, t, w, r)
    ensures WantsOnly(y, Stripped(t, w, 0), w, r)
  {
    StrippedFacts(t, w);
    hide Stripped, IndexOf;
  }

  lemma StrippedPreserves(y: Layout, t: Table, w: Table, code: Code)
    requires Preserves(y, Stripped(t, w, 0), w, code)
    ensures Preserves(y, t, w, code)
  {
    StrippedFacts(t, w);
    hide Stripped, Carries, Pushes;
  }

  lemma ConformantPreserves(y: Layout, t: Table, t': Table, w: Table, code: Code)
    requires Preserves(y, t, t', code) && Conformant(t', w) && PRs(t') == PRs(t)
    ensures Preserves(y, t, w, code)
  {
    hide Carries, Pushes;
    forall i, j | 0 <= i < |t| && 0 <= j < |w| && t[i].Entry? && w[j].Entry? && t[i].pr == w[j].pr
      ensures Carries(y, code, t[i], w[j])
    {
      assert t[i].pr in PRs(t');
      var k :| 0 <= k < |t'| && t'[k].Entry? && t'[k].pr == t[i].pr;
      assert t'[k] == w[j];
    }
  }

  lemma StrippedVacant(t: Table, w: Table, u: seq<nat>, u': seq<nat>, r: multiset<int>, l: nat)
    requires Counted(t, u, r) && Counted(Stripped(t, w, 0), u', r) && At(u, l) == 0
    ensures At(u', l) == 0
  {
    StrippedFacts(t, w);
    hide Stripped, RefCount;
    var s := Stripped(t, w, 0);
    if RefCount(s, l) > 0 {
      var i := RefCountSome(s, l);
      UnusedHolder(t, u, r, i, l);
    }
  }

  /** Every pseudo register that has to move has one location here, and some register is free in both. */
  ghost predicate SimplyMergeable(y: Layout, t: Table, w: Table, u: seq<nat>, v: seq<nat>) {
    && (forall i, j :: Moves(t, w, i, j) ==> t[i].reg == NO_LOCATION || t[i].stk == NO_LOCATION)
    && exists l :: y.IsRegister(l) && At(u, l) == 0 && At(v, l) == 0
  }

  lemma SimplyResolvable(y: Layout, t: Table, w: Table, u: seq<nat>, v: seq<nat>, r: multiset<int>, q: multiset<int>,
                         rank: seq<nat>)
    requires 1 <= y.nofRegisters <= MAX_USABLE_REGISTERS && OkTable(y, |u|, t) && OkTable(y, |v|, w) && Injective(w)
    requires y.StackTmpsBeg() <= |u| && y.StackTmpsBeg() <= |v| && Counted(t, u, r) && Counted(w, v, q)
    requires SimplyMergeable(y, t, w, u, v) && |rank| == |TasksFor(y, t, w, 0)|
    ensures CanResolve(y, t, w, u, v, rank)
  {
    SomeSpare(y, t, w, u, v);
    hide TasksFor, IndexOf, Counted, Moves, BothFree, OperandOf, Injective, OkTable, Groups.Resolvable;
    forall spare | IsSpare(BothFree(y, u, v), spare)
      ensures Groups.Resolvable(TasksFor(y, t, w, 0), spare, rank)
    {
      SpareResolvable(y, t, w, |u|, |v|, u, v, r, q, spare, rank);
    }
  }

  lemma SomeSpare(y: Layout, t: Table, w: Table, u: seq<nat>, v: seq<nat>)
    requires 1 <= y.nofRegisters <= MAX_USABLE_REGISTERS && y.StackTmpsBeg() <= |u| && y.StackTmpsBeg() <= |v|
    requires SimplyMergeable(y, t, w, u, v)
    ensures BothFree(y, u, v) != {}
  {
    hide Moves;
    var l :| y.IsRegister(l) && At(u, l) == 0 && At(v, l) == 0;
    var number := RegisterNumber(l - y.nofArguments);
    FreeNumber(y, u, y.StackTmpsBeg(), number);
    FreeNumber(y, v, y.StackTmpsBeg(), number);
    assert number in BothFree(y, u, v);
  }

  lemma StrippedMergeable(y: Layout, t: Table, w: Table, u: seq<nat>, u': seq<nat>, v: seq<nat>, r: multiset<int>)
    requires SimplyMergeable(y, t, w, u, v) && Counted(t, u, r) && Counted(Stripped(t, w, 0), u', r)
    ensures SimplyMergeable(y, Stripped(t, w, 0), w, u', v)
  {
    StrippedFacts(t, w);
    hide Stripped, Counted, RefCount;
    var l :| y.IsRegister(l) && At(u, l) == 0 && At(v, l) == 0;
    StrippedVacant(t, w, u, u', r, l);
    forall i, j | Moves(Stripped(t, w, 0), w, i, j)
      ensures Moves(t, w, i, j) && Stripped(t, w, 0)[i] == t[i]
    {}
  }

  /** Makes room for the stack locations of `with`. */
  method Extend(from: PseudoRegisterMapping, with: PseudoRegisterMapping)
    requires Mergeable(from, with)
    modifies from.locations
    ensures Mergeable(from, with) && |with.locations.Uses()| <= |from.locations.Uses()|
    ensures forall l :: At(from.locations.Uses(), l) == old(At(from.locations.Uses(), l))
  {
    hide Sound, UseCounts, Consistent, Injective;
    from.locations.Facts();
    with.locations.Facts();
    ghost var u := from.locations.Uses();
    from.locations.ExtendTo(with.locations.NofStackTmps());
    ExtendedConsistent(from.Y(), from.Contents(), u, from.Reserved(), |from.locations.Uses()| - |u|);
  }

  /** Strips the mapping and merges it by simultaneous moves. */
  method StripAndMove(from: PseudoRegisterMapping, with: PseudoRegisterMapping, ghost t: Table, ghost w: Table)
    requires Mergeable(from, with) && from.Contents() == t && with.Contents() == w
    requires SimplyMergeable(from.Y(), t, w, from.locations.Uses(), with.locations.Uses())
    modifies from, from.locations, from.masm, with.locations, PRs(t), PRs(w)
    ensures with.Valid() && with.Contents() == w && old(from.masm.code) <= from.masm.code
    ensures Preserves(from.Y(), t, w, from.masm.code[|old(from.masm.code)|..])
  {
    ghost var y, u, v, r, q := from.Y(), from.locations.Uses(), with.locations.Uses(), from.Reserved(), with.Reserved();
    CountsOf(from);
    CountsOf(with);
    hide *;
    from.Strip(with);
    assert from.Contents() == Stripped(t, w, 0);
    CountsOf(from);
    CountsOf(with);
    ghost var s, u' := from.Contents(), from.locations.Uses();
    StrippedMergeable(y, t, w, u, u', with.locations.Uses(), r);
    ghost var rank := seq(|TasksFor(y, s, w, 0)|, _ => 0);
    SimplyResolvable(y, s, w, u', with.locations.Uses(), r, q, rank);
    NewMakeConformant(from, with, s, w, rank);
    StrippedPreserves(y, t, w, from.masm.code[|old(from.masm.code)|..]);
  }

  lemma CountsOf(m: PseudoRegisterMapping)
    requires m.Valid()
    ensures Counted(m.Contents(), m.locations.Uses(), m.Reserved())
    ensures OkTable(m.Y(), |m.locations.Uses()|, m.Contents())
    ensures 1 <= m.Y().nofRegisters <= MAX_USABLE_REGISTERS && m.Y().StackTmpsBeg() <= |m.locations.Uses()|
  {
    assert m.Reserved() + multiset{} == m.Reserved();
    m.locations.Facts();
  }

  /** Strips the mapping and merges it over the push stack. */
  method StripAndPush(from: PseudoRegisterMapping, with: PseudoRegisterMapping, ghost t: Table, ghost w: Table)
    requires Mergeable(from, with) && from.Contents() == t && with.Contents() == w
    requires |with.locations.Uses()| <= |from.locations.Uses()| && WantsOnly(from.Y(), t, w, from.Reserved())
    modifies from, from.locations, from.masm, PRs(t), PRs(w)
    ensures from.Valid() && with.Valid() && with.Contents() == w && old(from.masm.code) <= from.masm.code
    ensures Conformant(from.Contents(), w) && PRs(from.Contents()) <= PRs(w)
    ensures Preserves(from.Y(), t, w, from.masm.code[|old(from.masm.code)|..])
  {
    StrippedWants(from.Y(), t, w, from.Reserved());
    StrippedFacts(t, w);
    CountsOf(from);
    CountsOf(with);
    hide *;
    from.Strip(with);
    ghost var s := from.Contents();
    from.OldMakeConformant(with);
    ghost var code := from.masm.code[|old(from.masm.code)|..];
    ConformantPreserves(from.Y(), s, from.Contents(), w, code);
    StrippedPreserves(from.Y(), t, w, code);
  }

  /** Makes `from` conform with `with` at a merge point: after the emitted code, every pseudo register
      that both know has its value in every location `with` has for it. */
  method MakeConformant(from: PseudoRegisterMapping, with: PseudoRegisterMapping, useNewMakeConformant: bool)
    requires Mergeable(from, with)
    requires if useNewMakeConformant
      then SimplyMergeable(from.Y(), from.Contents(), with.Contents(), from.locations.Uses(), with.locations.Uses())
      else WantsOnly(from.Y(), from.Contents(), with.Contents(), from.Reserved())
    modifies from, from.locations, from.masm, with.locations, PRs(from.Contents()), PRs(with.Contents())
    ensures with.Valid() && with.Contents() == old(with.Contents()) && old(from.masm.code) <= from.masm.code
    ensures Preserves(from.Y(), old(from.Contents()), with.Contents(), from.masm.code[|old(from.masm.code)|..])
    ensures !useNewMakeConformant ==> from.Valid() && Conformant(from.Contents(), with.Contents())
  {
    ghost var t, w, u := from.Contents(), with.Contents(), from.locations.Uses();
    hide *;
    Extend(from, with);
    if useNewMakeConformant {
      ExtendedMergeable(from.Y(), t, w, u, from.locations.Uses(), with.locations.Uses());
      StripAndMove(from, with, t, w);
    } else {
      StripAndPush(from, with, t, w);
    }
  }

  lemma ExtendedMergeable(y: Layout, t: Table, w: Table, u: seq<nat>, u': seq<nat>, v: seq<nat>)
    requires SimplyMergeable(y, t, w, u, v) && forall l :: At(u', l) == At(u, l)
    ensures SimplyMergeable(y, t, w, u', v)
  {
    hide Moves, At;
  }
}
