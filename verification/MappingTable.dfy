/** The contents of a register mapping as a value: one entry per slot, with the facts about use
    counts and about emitted code that the mapping operations share. */
module MappingTable {
  import opened Machine
  import opened LocationPool

  /** A pseudo register; the cache remembers the slot it was last found in. */
  class PseudoRegister {
    var mapIndexCache: nat

    constructor ()
      ensures mapIndexCache == 0
    {
      mapIndexCache := 0;
    }
  }

  datatype Entry =
    | Unused
    | Entry(pr: PseudoRegister, reg: int, stk: int)

  type Table = seq<Entry>

  function Locs(e: Entry): set<int> {
    if e.Unused? then {} else {e.reg, e.stk} - {NO_LOCATION}
  }

  ghost function PRs(t: Table): set<PseudoRegister> {
    set i | 0 <= i < |t| && t[i].Entry? :: t[i].pr
  }

  /** The slot of `pr`, found from the end as the mapping does, or -1. */
  function IndexOf(t: Table, pr: PseudoRegister): (i: int)
    ensures -1 <= i < |t|
    ensures 0 <= i ==> t[i].Entry? && t[i].pr == pr
    ensures forall k :: i < k < |t| && t[k].Entry? ==> t[k].pr != pr
  {
    if t == [] then -1
    else if t[|t| - 1].Entry? && t[|t| - 1].pr == pr then |t| - 1
    else IndexOf(t[..|t| - 1], pr)
  }

  // ---- well-formed tables ----------------------------------------------------------------------

  predicate OkEntry(y: Layout, n: int, e: Entry) {
    e.Entry? ==>
      && (e.reg == NO_LOCATION || y.IsRegister(e.reg))
      && (e.stk == NO_LOCATION || y.IsArgument(e.stk) || (y.IsStackTmp(e.stk) && e.stk < n))
      && (e.reg != NO_LOCATION || e.stk != NO_LOCATION)
  }

  ghost predicate OkTable(y: Layout, n: int, t: Table) {
    && (forall i :: 0 <= i < |t| ==> OkEntry(y, n, t[i]))
    && (forall i, j :: 0 <= i < j < |t| && t[i].Entry? && t[j].Entry? ==> t[i].pr != t[j].pr)
  }

  // ---- reference counts ------------------------------------------------------------------------

  function Count(e: Entry, l: int): nat {
    if l in Locs(e) then 1 else 0
  }

  function RefCount(t: Table, l: int): nat {
    if t == [] then 0 else RefCount(t[..|t| - 1], l) + Count(t[|t| - 1], l)
  }

  lemma {:induction false} RefCountSet(t: Table, i: nat, e: Entry, l: int)
    requires i < |t|
    ensures RefCount(t[i := e], l) == RefCount(t, l) - Count(t[i], l) + Count(e, l)
  {
    var n := |t| - 1;
    if i < n {
      assert t[i := e][..n] == t[..n][i := e];
      RefCountSet(t[..n], i, e, l);
    } else {
      assert t[i := e][..n] == t[..n];
    }
  }

  lemma RefCountSnoc(t: Table, e: Entry, l: int)
    ensures RefCount(t + [e], l) == RefCount(t, l) + Count(e, l)
  {
    assert (t + [e])[..|t|] == t;
  }

  lemma {:induction false} RefCountTwo(t: Table, i: nat, j: nat, l: int)
    requires i < |t| && j < |t|
    ensures RefCount(t, l) >= Count(t[i], l)
    ensures i != j ==> RefCount(t, l) >= Count(t[i], l) + Count(t[j], l)
  {
    var n := |t| - 1;
    if i < n && j < n {
      RefCountTwo(t[..n], i, j, l);
    } else if i < n {
      RefCountTwo(t[..n], i, i, l);
    } else if j < n {
      RefCountTwo(t[..n], j, j, l);
    }
  }

  lemma {:induction false} RefCountNone(t: Table, l: int)
    requires forall i :: 0 <= i < |t| ==> l !in Locs(t[i])
    ensures RefCount(t, l) == 0
  {
    if t != [] {
      RefCountNone(t[..|t| - 1], l);
    }
  }

  lemma {:induction false} RefCountSome(t: Table, l: int) returns (i: nat)
    requires RefCount(t, l) > 0
    ensures i < |t| && l in Locs(t[i])
  {
    var n := |t| - 1;
    if l in Locs(t[n]) {
      i := n;
    } else {
      i := RefCountSome(t[..n], l);
    }
  }

  function At(u: seq<nat>, l: int): nat {
    if 0 <= l < |u| then u[l] else 0
  }

  /** Every use of a location is an entry holding it or a reservation of it. */
  ghost predicate Counted(t: Table, u: seq<nat>, reserved: multiset<int>) {
    forall l :: 0 <= l ==> At(u, l) == RefCount(t, l) + reserved[l]
  }

  /** Reserved locations are registers that nothing else uses. */
  ghost predicate Alone(y: Layout, u: seq<nat>, reserved: multiset<int>) {
    forall l :: l in reserved ==> y.IsRegister(l) && At(u, l) == 1
  }

  /** `u1` is `u0` with the uses of `e0` given up and those of `e1` taken. */
  ghost predicate Swapped(u0: seq<nat>, u1: seq<nat>, e0: Entry, e1: Entry) {
    forall l :: 0 <= l ==> At(u1, l) == At(u0, l) - Count(e0, l) + Count(e1, l)
  }

  lemma CountedSet(t: Table, u: seq<nat>, reserved: multiset<int>, i: nat, e: Entry, u': seq<nat>)
    requires Counted(t, u, reserved) && i < |t| && Swapped(u, u', t[i], e)
    ensures Counted(t[i := e], u', reserved)
  {
    forall l | 0 <= l
      ensures At(u', l) == RefCount(t[i := e], l) + reserved[l]
    {
      RefCountSet(t, i, e, l);
    }
  }

  lemma CountedSnoc(t: Table, u: seq<nat>, reserved: multiset<int>)
    requires Counted(t, u, reserved)
    ensures Counted(t + [Unused], u, reserved)
  {
    forall l | 0 <= l
      ensures At(u, l) == RefCount(t + [Unused], l) + reserved[l]
    {
      RefCountSnoc(t, Unused, l);
    }
  }

  lemma HolderUsed(t: Table, u: seq<nat>, reserved: multiset<int>, i: nat, l: int)
    requires Counted(t, u, reserved) && i < |t| && l in Locs(t[i]) && 0 <= l
    ensures l < |u| && u[l] >= 1
  {
    RefCountTwo(t, i, i, l);
    assert At(u, l) >= 1;
  }

  lemma UnusedHolder(t: Table, u: seq<nat>, reserved: multiset<int>, i: nat, l: int)
    requires Counted(t, u, reserved) && i < |t| && 0 <= l && At(u, l) == 0
    ensures l !in Locs(t[i])
  {
    RefCountTwo(t, i, i, l);
  }

  /** The invariant of a mapping with layout `y`, entries `t`, use counts `u`, reserved registers and,
      in the middle of an operation, further uses `flight` that no entry accounts for yet. */
  ghost predicate Consistent(y: Layout, t: Table, u: seq<nat>, reserved: multiset<int>, flight: multiset<int>) {
    && OkTable(y, |u|, t)
    && Counted(t, u, reserved + flight)
    && Alone(y, u, reserved)
  }

  lemma UniqueIndex(y: Layout, t: Table, u: seq<nat>, reserved: multiset<int>, flight: multiset<int>,
                    pr: PseudoRegister)
    requires Consistent(y, t, u, reserved, flight)
    ensures forall i :: 0 <= i < |t| && t[i].Entry? && t[i].pr == pr ==> IndexOf(t, pr) == i
  {
    hide Counted, Alone;
  }

  /** What an operation needs to know about slot i. */
  lemma EntryFacts(y: Layout, t: Table, u: seq<nat>, reserved: multiset<int>, flight: multiset<int>, i: nat)
    requires Consistent(y, t, u, reserved, flight) && i < |t| && t[i].Entry?
    ensures OkEntry(y, |u|, t[i])
    ensures forall l :: l in Locs(t[i]) ==> 0 <= l < |u| && u[l] >= 1 && l !in reserved
  {
    hide Counted, RefCount;
    forall l | l in Locs(t[i])
      ensures 0 <= l < |u| && u[l] >= 1 && l !in reserved
    {
      HolderUsed(t, u, reserved + flight, i, l);
      if l in reserved {
        assert At(u, l) == 1;
        ReservedAlone(t, u, reserved + flight, i, l);
      }
    }
  }

  lemma ReservedAlone(t: Table, u: seq<nat>, reserved: multiset<int>, i: nat, l: int)
    requires Counted(t, u, reserved) && i < |t| && 0 <= l && l in Locs(t[i]) && l in reserved
    ensures At(u, l) > 1
  {
    RefCountTwo(t, i, i, l);
  }

  /** Replacing one entry, with the use counts following suit. */
  lemma ConsistentSet(y: Layout, t: Table, u: seq<nat>, reserved: multiset<int>, flight: multiset<int>, i: nat,
                      e: Entry, u': seq<nat>)
    requires Consistent(y, t, u, reserved, flight) && i < |t| && Swapped(u, u', t[i], e)
    requires |u| <= |u'| && OkEntry(y, |u'|, e)
    requires e.Entry? ==> IndexOf(t, e.pr) == i || IndexOf(t, e.pr) == -1
    requires forall l :: l in reserved ==> l !in Locs(e)
    ensures Consistent(y, t[i := e], u', reserved, flight)
  {
    hide RefCount;
    CountedSet(t, u, reserved + flight, i, e, u');
    forall l | l in reserved
      ensures y.IsRegister(l) && At(u', l) == 1
    {
      assert y.IsRegister(l) && At(u, l) == 1;
      RefCountTwo(t, i, i, l);
    }
    hide Counted, Alone, Swapped;
  }

  lemma GiveUpAll(y: Layout, u: seq<nat>, e: Entry)
    requires e.Entry? && OkEntry(y, |u|, e)
    requires forall l :: l in Locs(e) ==> 0 <= l < |u| && u[l] >= 1
    ensures Swapped(u, GiveUp(GiveUp(u, e.reg), e.stk), e, Unused)
  {}

  lemma ClearedConsistent(y: Layout, t: Table, u: seq<nat>, reserved: multiset<int>, i: nat)
    requires Consistent(y, t, u, reserved, multiset{}) && i < |t| && t[i].Entry?
    ensures Consistent(y, t[i := Unused], GiveUp(GiveUp(u, t[i].reg), t[i].stk), reserved, multiset{})
  {
    hide Consistent, Swapped;
    EntryFacts(y, t, u, reserved, multiset{}, i);
    GiveUpAll(y, u, t[i]);
    ConsistentSet(y, t, u, reserved, multiset{}, i, Unused, GiveUp(GiveUp(u, t[i].reg), t[i].stk));
  }

  // ---- adding and removing entries ------------------------------------------------------------

  function Killed(t: Table, pr: PseudoRegister): Table {
    var i := IndexOf(t, pr);
    if i < 0 then t else t[i := Unused]
  }

  /** The slot a new entry goes to, found from the end, or -1 if the table must grow. */
  function FreeIndex(t: Table): (i: int)
    ensures -1 <= i < |t|
    ensures 0 <= i ==> t[i].Unused?
    ensures forall k :: i < k < |t| ==> t[k].Entry?
  {
    if t == [] then -1
    else if t[|t| - 1].Unused? then |t| - 1
    else FreeIndex(t[..|t| - 1])
  }

  function Added(t: Table, e: Entry): Table {
    if FreeIndex(t) < 0 then t + [e] else t[FreeIndex(t) := e]
  }

  lemma AddedConsistent(y: Layout, t: Table, u: seq<nat>, reserved: multiset<int>, e: Entry, u': seq<nat>)
    requires Consistent(y, t, u, reserved, multiset{}) && e.Entry? && IndexOf(t, e.pr) == -1
    requires |u| <= |u'| && OkEntry(y, |u'|, e) && Swapped(u, u', Unused, e)
    requires forall l :: l in reserved ==> l !in Locs(e)
    ensures Consistent(y, Added(t, e), u', reserved, multiset{})
  {
    hide RefCount, Counted, Alone, Swapped, IndexOf, FreeIndex;
    if FreeIndex(t) < 0 {
      CountedSnoc(t, u, reserved + multiset{});
      var t' := t + [Unused];
      assert Consistent(y, t', u, reserved, multiset{});
      hide Consistent;
      AbsentSnoc(t, e.pr);
      ConsistentSet(y, t', u, reserved, multiset{}, |t|, e, u');
      assert t'[|t| := e] == t + [e];
    } else {
      hide Consistent;
      ConsistentSet(y, t, u, reserved, multiset{}, FreeIndex(t), e, u');
    }
  }

  lemma AbsentSnoc(t: Table, pr: PseudoRegister)
    requires IndexOf(t, pr) == -1
    ensures IndexOf(t + [Unused], pr) == -1
  {
    assert (t + [Unused])[..|t|] == t;
  }

  lemma KilledAbsent(y: Layout, t: Table, u: seq<nat>, reserved: multiset<int>, pr: PseudoRegister)
    requires Consistent(y, t, u, reserved, multiset{})
    ensures IndexOf(Killed(t, pr), pr) == -1
  {
    hide Counted, Alone, RefCount;
    var t' := Killed(t, pr);
    forall k | 0 <= k < |t'| && t'[k].Entry?
      ensures t'[k].pr != pr
    {
      UniqueIndex(y, t, u, reserved, multiset{}, pr);
    }
  }

  // ---- emitted code -------------------------------------------------------------------------------

  /** After the code, location `l` holds the start value of one of the locations of `e`. */
  ghost predicate From(y: Layout, code: Code, l: int, e: Entry) {
    exists k :: k in Locs(e) && Copies(code, OperandOf(y, l), OperandOf(y, k))
  }

  ghost predicate Carries(y: Layout, code: Code, e0: Entry, e1: Entry) {
    forall l :: l in Locs(e1) ==> From(y, code, l, e0)
  }

  /** The code runs, leaves the push stack as it was, and gives every location of every entry of
      `t1` the value its pseudo register had in `t0`. */
  ghost predicate Preserves(y: Layout, t0: Table, t1: Table, code: Code) {
    && Pushes(code, [])
    && forall i, j :: 0 <= i < |t0| && 0 <= j < |t1| && t0[i].Entry? && t1[j].Entry? && t0[i].pr == t1[j].pr
         ==> Carries(y, code, t0[i], t1[j])
  }

  /** All locations of every pseudo register hold the same value. */
  ghost predicate Agrees(y: Layout, t: Table, s: State)
    requires s.Running?
  {
    forall i, k, l :: 0 <= i < |t| && k in Locs(t[i]) && l in Locs(t[i]) ==>
      Read(s, OperandOf(y, k)) == Read(s, OperandOf(y, l))
  }

  /** What `Preserves` means on machine states: started where the table agrees, the code ends
      without fault, with the push stack unchanged and every location of a pseudo register in the
      new table holding the value that any of its old locations had. */
  lemma PreservesValues(y: Layout, t0: Table, t1: Table, code: Code, s: State, i: nat, j: nat, k: int, l: int)
    requires Preserves(y, t0, t1, code)
    requires s.Running? && Agrees(y, t0, s)
    requires i < |t0| && j < |t1| && t0[i].Entry? && t1[j].Entry? && t0[i].pr == t1[j].pr
    requires k in Locs(t0[i]) && l in Locs(t1[j])
    ensures Run(code, s).Running? && Run(code, s).stack == s.stack
    ensures Read(Run(code, s), OperandOf(y, l)) == Read(s, OperandOf(y, k))
  {
    hide Run, OperandOf;
    NoValues(s);
    assert Carries(y, code, t0[i], t1[j]);
    var m :| m in Locs(t0[i]) && Copies(code, OperandOf(y, l), OperandOf(y, m));
  }

  lemma CopiesThrough(c1: Code, c2: Code, u: Operand, v: Operand, w: Operand)
    requires Copies(c1, v, w) && Copies(c2, u, v) && Pushes(c1, [])
    ensures Copies(c1 + c2, u, w)
  {
    forall s: State | s.Running? && Run(c1 + c2, s).Running?
      ensures Read(Run(c1 + c2, s), u) == Read(s, w)
    {
      RunConcat(c1, c2, s);
      hide Run;
    }
  }

  lemma PushesNothing(c1: Code, c2: Code)
    requires Pushes(c1, []) && Pushes(c2, [])
    ensures Pushes(c1 + c2, [])
  {
    hide Run, Values;
    forall s: State | s.Running?
      ensures Run(c1 + c2, s).Running? && Run(c1 + c2, s).stack == s.stack + Values(s, [])
    {
      RunConcat(c1, c2, s);
      NoValues(s);
      NoValues(Run(c1, s));
    }
  }

  lemma FromThrough(y: Layout, c1: Code, c2: Code, l: int, e0: Entry, e1: Entry)
    requires Carries(y, c1, e0, e1) && From(y, c2, l, e1) && Pushes(c1, [])
    ensures From(y, c1 + c2, l, e0)
  {
    hide Copies, Pushes, OperandOf;
    var k :| k in Locs(e1) && Copies(c2, OperandOf(y, l), OperandOf(y, k));
    assert From(y, c1, k, e0);
    var m :| m in Locs(e0) && Copies(c1, OperandOf(y, k), OperandOf(y, m));
    CopiesThrough(c1, c2, OperandOf(y, l), OperandOf(y, k), OperandOf(y, m));
  }

  /** Two stretches of preserving code preserve together. */
  lemma PreservesThrough(y: Layout, t0: Table, t1: Table, t2: Table, c1: Code, c2: Code)
    requires Preserves(y, t0, t1, c1) && Preserves(y, t1, t2, c2)
    requires PRs(t2) <= PRs(t1)
    ensures Preserves(y, t0, t2, c1 + c2)
  {
    hide Copies, Pushes, From;
    PushesNothing(c1, c2);
    forall i, j | 0 <= i < |t0| && 0 <= j < |t2| && t0[i].Entry? && t2[j].Entry? && t0[i].pr == t2[j].pr
      ensures Carries(y, c1 + c2, t0[i], t2[j])
    {
      assert t2[j].pr in PRs(t2);
      var m :| 0 <= m < |t1| && t1[m].Entry? && t1[m].pr == t2[j].pr;
      assert Carries(y, c1, t0[i], t1[m]) && Carries(y, c2, t1[m], t2[j]);
      forall l | l in Locs(t2[j])
        ensures From(y, c1 + c2, l, t0[i])
      {
        FromThrough(y, c1, c2, l, t0[i], t1[m]);
      }
    }
  }

  // ---- single steps ---------------------------------------------------------------------------

  /** Every location of `e1` is one `e0` has, too. */
  predicate Kept(e0: Entry, e1: Entry) {
    Locs(e1) <= Locs(e0)
  }

  /** `e1` is `e0` after moving `src` to `dst`. */
  predicate Moved(e0: Entry, e1: Entry, dst: int, src: int) {
    forall l :: l in Locs(e1) ==> if l == dst then src in Locs(e0) else l in Locs(e0)
  }

  lemma KeptPreserves(y: Layout, t0: Table, t1: Table)
    requires forall i, j :: 0 <= i < |t0| && 0 <= j < |t1| && t0[i].Entry? && t1[j].Entry? && t0[i].pr == t1[j].pr
               ==> Kept(t0[i], t1[j])
    ensures Preserves(y, t0, t1, [])
  {
    hide OperandOf;
    NoCode(Frame(0));
    forall i, j, l | 0 <= i < |t0| && 0 <= j < |t1| && t0[i].Entry? && t1[j].Entry? && t0[i].pr ==
      t1[j].pr && l in Locs(t1[j])
      ensures From(y, [], l, t0[i])
    {
      NoCode(OperandOf(y, l));
    }
  }

  lemma MovedFrom(y: Layout, e0: Entry, e1: Entry, dst: int, src: int, l: int)
    requires y.nofRegisters <= MAX_USABLE_REGISTERS && 0 <= dst && l in Locs(e1) && 0 <= l
    requires Moved(e0, e1, dst, src)
    ensures From(y, [Movl(OperandOf(y, dst), OperandOf(y, src))], l, e0)
  {
    var d, f := OperandOf(y, dst), OperandOf(y, src);
    assert [] + [Movl(d, f)] == [Movl(d, f)];
    OperandsDiffer(y, l, dst);
    hide Copies, OperandOf;
    NoCode(f);
    NoCode(OperandOf(y, l));
    if l == dst {
      MovlCopies([], d, f, f);
    } else {
      MovlKeeps([], d, f, OperandOf(y, l), OperandOf(y, l));
    }
  }

  lemma MovedPreserves(y: Layout, n: int, t0: Table, t1: Table, dst: int, src: int)
    requires y.nofRegisters <= MAX_USABLE_REGISTERS && 0 <= dst && OkTable(y, n, t1)
    requires OperandOf(y, dst).Reg? || OperandOf(y, src).Reg?
    requires forall i, j :: 0 <= i < |t0| && 0 <= j < |t1| && t0[i].Entry? && t1[j].Entry? && t0[i].pr == t1[j].pr
               ==> Moved(t0[i], t1[j], dst, src)
    ensures Preserves(y, t0, t1, [Movl(OperandOf(y, dst), OperandOf(y, src))])
  {
    hide OperandOf, Copies, Pushes, From;
    var d, f := OperandOf(y, dst), OperandOf(y, src);
    NoCode(d);
    MovlPushes([], [], d, f);
    assert [] + [Movl(d, f)] == [Movl(d, f)];
    forall i, j, l | 0 <= i < |t0| && 0 <= j < |t1| && t0[i].Entry? && t1[j].Entry? && t0[i].pr ==
      t1[j].pr && l in Locs(t1[j])
      ensures From(y, [Movl(d, f)], l, t0[i])
    {
      assert OkEntry(y, n, t1[j]);
      MovedFrom(y, t0[i], t1[j], dst, src, l);
    }
  }

  // ---- spilling a register ----------------------------------------------------------------------

  /** An entry whose register `loc` has been spilled; it needs the new slot only if it has no stack
      location yet. */
  function SpilledEntry(e: Entry, loc: int, spill: int): Entry {
    if e.Entry? && e.reg == loc then Entry(e.pr, NO_LOCATION, if e.stk == NO_LOCATION then spill else e.stk) else e
  }

  function SpilledFrom(t: Table, loc: int, spill: int, n: int): (t': Table)
    ensures |t'| == |t|
    ensures forall k :: 0 <= k < |t| ==> t'[k] == if k < n then t[k] else SpilledEntry(t[k], loc, spill)
  {
    seq(|t|, k requires 0 <= k < |t| => if k < n then t[k] else SpilledEntry(t[k], loc, spill))
  }

  function Spilled(t: Table, loc: int, spill: int): Table {
    SpilledFrom(t, loc, spill, 0)
  }

  /** An entry whose register `loc` has been saved to the stack slot `spill`. */
  function SavedEntry(e: Entry, loc: int, spill: int): Entry {
    if e.Entry? && e.reg == loc && e.stk == NO_LOCATION then Entry(e.pr, loc, spill) else e
  }

  function SavedFrom(t: Table, loc: int, spill: int, n: int): (t': Table)
    ensures |t'| == |t|
    ensures forall k :: 0 <= k < |t| ==> t'[k] == if k < n then t[k] else SavedEntry(t[k], loc, spill)
  {
    seq(|t|, k requires 0 <= k < |t| => if k < n then t[k] else SavedEntry(t[k], loc, spill))
  }

  function Saved(t: Table, loc: int, spill: int): Table {
    SavedFrom(t, loc, spill, 0)
  }

  lemma SamePRs(t: Table, t': Table)
    requires |t'| == |t|
    requires forall i :: 0 <= i < |t| ==> t[i].Entry? == t'[i].Entry? && (t[i].Entry? ==> t'[i].pr == t[i].pr)
    ensures PRs(t') == PRs(t)
  {
    forall pr
      ensures pr in PRs(t) <==> pr in PRs(t')
    {
      if pr in PRs(t) {
        var i :| 0 <= i < |t| && t[i].Entry? && t[i].pr == pr;
        assert t'[i].pr == pr;
      }
      if pr in PRs(t') {
        var i :| 0 <= i < |t'| && t'[i].Entry? && t'[i].pr == pr;
        assert t[i].pr == pr;
      }
    }
  }

  lemma SpilledPRs(t: Table, loc: int, spill: int)
    ensures PRs(Spilled(t, loc, spill)) == PRs(t) && PRs(Saved(t, loc, spill)) == PRs(t)
  {
    SamePRs(t, Spilled(t, loc, spill));
    SamePRs(t, Saved(t, loc, spill));
  }

  /** The one move that spilling or saving emits carries every entry: the new slot was free. */
  lemma SpilledPreserves(y: Layout, t: Table, u: seq<nat>, reserved: multiset<int>, loc: int, spill: int)
    requires y.nofRegisters <= MAX_USABLE_REGISTERS && y.IsRegister(loc) && y.IsStackTmp(spill) && At(u, spill) == 0
    requires Consistent(y, t, u, reserved, multiset{})
    ensures Preserves(y, t, Spilled(t, loc, spill), [Movl(OperandOf(y, spill), OperandOf(y, loc))])
    ensures Preserves(y, t, Saved(t, loc, spill), [Movl(OperandOf(y, spill), OperandOf(y, loc))])
  {
    hide RefCount, Alone, Preserves, OperandOf;
    assert OperandOf(y, loc).Reg? by { IsRegisterOperand(y, loc); }
    var n := if |u| <= spill then spill + 1 else |u|;
    forall i | 0 <= i < |t|
      ensures OkEntry(y, n, t[i]) && spill !in Locs(t[i])
    {
      UnusedHolder(t, u, reserved + multiset{}, i, spill);
    }
    hide Consistent;
    forall i, j | 0 <= i < |t| && 0 <= j < |t| && t[i].Entry? && t[j].Entry? && t[i].pr == t[j].pr
      ensures i == j
    {
      UniqueIndex(y, t, u, reserved, multiset{}, t[i].pr);
    }
    var t1, t2 := Spilled(t, loc, spill), Saved(t, loc, spill);
    MovedPreserves(y, n, t, t1, spill, loc);
    MovedPreserves(y, n, t, t2, spill, loc);
  }

  lemma IsRegisterOperand(y: Layout, l: int)
    requires y.IsRegister(l)
    ensures OperandOf(y, l).Reg?
  {}

  /** What making sure of a free register does: nothing, or one spill to a fresh stack location. */
  ghost predicate SpillStep(y: Layout, t0: Table, u0: seq<nat>, t1: Table, code: Code) {
    || (t1 == t0 && code == [])
    || (exists loc, spill {:trigger Spilled(t0, loc, spill)} ::
          && y.IsRegister(loc) && y.IsStackTmp(spill) && At(u0, spill) == 0 && 0 < At(u0, loc)
          && t1 == Spilled(t0, loc, spill)
          && code == [Movl(OperandOf(y, spill), OperandOf(y, loc))])
  }

  lemma SpillStepPreserves(y: Layout, t0: Table, u0: seq<nat>, reserved: multiset<int>, t1: Table, code: Code)
    requires 1 <= y.nofRegisters <= MAX_USABLE_REGISTERS
    requires Consistent(y, t0, u0, reserved, multiset{}) && SpillStep(y, t0, u0, t1, code)
    ensures Preserves(y, t0, t1, code) && PRs(t1) == PRs(t0) && |t1| == |t0|
    ensures forall i :: 0 <= i < |t0| && t0[i].Entry? && t0[i].reg == NO_LOCATION ==> t1[i] == t0[i]
  {
    hide Preserves, OperandOf;
    if t1 == t0 && code == [] {
      IdentityPreserves(y, t0, u0, reserved);
    } else {
      var loc, spill :| y.IsRegister(loc) && y.IsStackTmp(spill) && At(u0, spill) == 0
        && t1 == Spilled(t0, loc, spill) && code == [Movl(OperandOf(y, spill), OperandOf(y, loc))];
      hide Consistent;
      SpilledPreserves(y, t0, u0, reserved, loc, spill);
      SpilledPRs(t0, loc, spill);
    }
  }

  lemma IdentityPreserves(y: Layout, t: Table, u: seq<nat>, reserved: multiset<int>)
    requires Consistent(y, t, u, reserved, multiset{})
    ensures Preserves(y, t, t, [])
  {
    hide Preserves, Consistent;
    forall i, j | 0 <= i < |t| && 0 <= j < |t| && t[i].Entry? && t[j].Entry? && t[i].pr == t[j].pr
      ensures i == j
    {
      UniqueIndex(y, t, u, reserved, multiset{}, t[i].pr);
    }
    KeptPreserves(y, t, t);
  }

  lemma AddedPreserves(y: Layout, t0: Table, t1: Table, code: Code, e: Entry)
    requires Preserves(y, t0, t1, code) && e.Entry? && e.pr !in PRs(t0)
    ensures Preserves(y, t0, Added(t1, e), code)
    ensures PRs(Added(t1, e)) == PRs(t1) + {e.pr}
  {
    hide Carries, Pushes, FreeIndex;
    var t2 := Added(t1, e);
    forall i, j | 0 <= i < |t0| && 0 <= j < |t2| && t0[i].Entry? && t2[j].Entry? && t0[i].pr == t2[j].pr
      ensures Carries(y, code, t0[i], t2[j])
    {
      assert t0[i].pr in PRs(t0);
      assert t2[j] == t1[j];
    }
    AddedPRs(t1, e);
  }

  lemma AddedPRs(t: Table, e: Entry)
    requires e.Entry?
    ensures PRs(Added(t, e)) == PRs(t) + {e.pr}
  {
    hide FreeIndex;
    var t', k := Added(t, e), if FreeIndex(t) < 0 then |t| else FreeIndex(t);
    assert t'[k] == e;
    forall pr
      ensures pr in PRs(t') <==> pr in PRs(t) + {e.pr}
    {
      if pr in PRs(t) {
        var i :| 0 <= i < |t| && t[i].Entry? && t[i].pr == pr;
        assert t'[i] == t[i];
      }
      if pr in PRs(t') && pr != e.pr {
        var i :| 0 <= i < |t'| && t'[i].Entry? && t'[i].pr == pr;
        assert t[i] == t'[i];
      }
    }
  }

  lemma FreeNotReserved(y: Layout, t: Table, u: seq<nat>, reserved: multiset<int>, flight: multiset<int>, l: int)
    requires Consistent(y, t, u, reserved, flight) && At(u, l) == 0
    ensures l !in reserved
  {
    hide Counted, OkTable;
  }

  lemma AddedOne(y: Layout, t: Table, u: seq<nat>, reserved: multiset<int>, e: Entry, l: int)
    requires Consistent(y, t, u, reserved, multiset{}) && e.Entry? && IndexOf(t, e.pr) == -1
    requires Locs(e) == {l} && 0 <= l <= |u| && OkEntry(y, |Take(u, l)|, e) && l !in reserved
    ensures Consistent(y, Added(t, e), Take(u, l), reserved, multiset{})
  {
    hide Consistent, IndexOf;
    assert Swapped(u, Take(u, l), Unused, e);
    AddedConsistent(y, t, u, reserved, e, Take(u, l));
  }

  lemma AbsentPR(t: Table, pr: PseudoRegister)
    ensures IndexOf(t, pr) == -1 <==> pr !in PRs(t)
  {
    hide IndexOf;
    if pr in PRs(t) {
      var i :| 0 <= i < |t| && t[i].Entry? && t[i].pr == pr;
    }
  }

  lemma Suffixes(c0: Code, c1: Code, c2: Code)
    requires c0 <= c1 <= c2
    ensures c2[|c0|..] == c1[|c0|..] + c2[|c1|..]
  {}

  lemma StartFlight(y: Layout, t: Table, u: seq<nat>, reserved: multiset<int>, l: int)
    requires Consistent(y, t, u, reserved, multiset{}) && 0 <= l <= |u| && At(u, l) == 0
    ensures Consistent(y, t, Take(u, l), reserved, multiset{l})
  {
    hide RefCount;
  }

  lemma EndFlight(y: Layout, t: Table, u: seq<nat>, reserved: multiset<int>, l: int)
    requires Consistent(y, t, u, reserved, multiset{l}) && 0 <= l && !y.IsRegister(l)
    ensures l < |u| && u[l] >= 1
    ensures Consistent(y, t, GiveUp(u, l), reserved, multiset{})
  {
    hide RefCount;
    assert At(u, l) >= 1;
  }

  /** One entry of a spilled register gives the register up and takes the stack location instead. */
  lemma SpillOne(y: Layout, t: Table, u: seq<nat>, reserved: multiset<int>, i: nat, loc: int, spill: int)
    requires Consistent(y, t, u, reserved, multiset{spill}) && i < |t| && t[i].Entry? && t[i].reg == loc
    requires y.IsRegister(loc) && y.IsStackTmp(spill)
    ensures loc < |u| && u[loc] >= 1 && spill < |u| && u[spill] >= 1
    ensures t[i].stk == NO_LOCATION || 0 <= t[i].stk < |u|
    ensures var u' := if t[i].stk == NO_LOCATION then Take(GiveUp(u, loc), spill) else GiveUp(u, loc);
      Consistent(y, t[i := SpilledEntry(t[i], loc, spill)], u', reserved, multiset{spill})
  {
    hide Consistent, IndexOf;
    EntryFacts(y, t, u, reserved, multiset{spill}, i);
    assert loc in Locs(t[i]);
    InFlight(y, t, u, reserved, spill);
    UniqueIndex(y, t, u, reserved, multiset{spill}, t[i].pr);
    ReservedRegisters(y, t, u, reserved, multiset{spill});
    var u' := if t[i].stk == NO_LOCATION then Take(GiveUp(u, loc), spill) else GiveUp(u, loc);
    ConsistentSet(y, t, u, reserved, multiset{spill}, i, SpilledEntry(t[i], loc, spill), u');
  }

  lemma SaveOne(y: Layout, t: Table, u: seq<nat>, reserved: multiset<int>, i: nat, loc: int, spill: int)
    requires Consistent(y, t, u, reserved, multiset{spill}) && i < |t| && t[i].Entry? && t[i].reg == loc
    requires y.IsRegister(loc) && y.IsStackTmp(spill) && t[i].stk == NO_LOCATION
    ensures spill < |u| && u[spill] >= 1
    ensures Consistent(y, t[i := SavedEntry(t[i], loc, spill)], Take(u, spill), reserved, multiset{spill})
  {
    hide Consistent, IndexOf;
    EntryFacts(y, t, u, reserved, multiset{spill}, i);
    assert loc in Locs(t[i]);
    InFlight(y, t, u, reserved, spill);
    ReservedRegisters(y, t, u, reserved, multiset{spill});
    UniqueIndex(y, t, u, reserved, multiset{spill}, t[i].pr);
    ConsistentSet(y, t, u, reserved, multiset{spill}, i, SavedEntry(t[i], loc, spill), Take(u, spill));
  }

  lemma InFlight(y: Layout, t: Table, u: seq<nat>, reserved: multiset<int>, l: int)
    requires Consistent(y, t, u, reserved, multiset{l}) && 0 <= l
    ensures l < |u| && u[l] >= 1
  {
    hide RefCount, OkTable, Alone;
    assert At(u, l) >= 1;
  }

  lemma ReservedRegisters(y: Layout, t: Table, u: seq<nat>, reserved: multiset<int>, flight: multiset<int>)
    requires Consistent(y, t, u, reserved, flight)
    ensures forall l :: l in reserved ==> y.IsRegister(l)
  {
    hide Counted, OkTable;
  }

  lemma SpilledGone(y: Layout, t: Table, u: seq<nat>, reserved: multiset<int>, loc: int, spill: int)
    requires Consistent(y, Spilled(t, loc, spill), u, reserved, multiset{spill})
    requires y.IsRegister(loc) && y.IsStackTmp(spill) && loc !in reserved
    requires forall i :: 0 <= i < |t| && t[i].Entry? ==> t[i].stk != loc
    ensures At(u, loc) == 0
  {
    RefCountNone(Spilled(t, loc, spill), loc);
  }
}
