/** What a temporary copy of a pseudo register holds after the code that makes it, and where spilling
    makes room for it. */
module Temporaries {
  import opened Machine
  import opened LocationPool
  import opened MappingTable
  import opened MappingSteps

  // ---- registers that can be had --------------------------------------------------------------------

  /** Only one slot is the one to be spilled. */
  lemma OneVictim(y: Layout, t: Table, u: seq<nat>, locked: set<PseudoRegister>, r: int, q: int)
    requires VictimRegister(y, t, u, locked, r) && VictimRegister(y, t, u, locked, q)
    ensures r == q
  {
    hide At;
    var i :| Victim(y, t, u, locked, i) && t[i].reg == r;
    var j :| Victim(y, t, u, locked, j) && t[j].reg == q;
    assert Spillable(y, t[i], u, locked) && Spillable(y, t[j], u, locked);
  }

  // ---- what a mapping says about values ------------------------------------------------------------

  /** Started where the table agrees, the code leaves the value of entry i in location `l`. */
  ghost predicate Delivers(y: Layout, t: Table, i: nat, code: Code, l: int)
    requires i < |t|
  {
    forall s: State, k {:trigger Run(code, s), OperandOf(y, k)} ::
      s.Running? && Agrees(y, t, s) && Run(code, s).Running? && k in Locs(t[i]) ==>
        Read(Run(code, s), OperandOf(y, l)) == Read(s, OperandOf(y, k))
  }

  lemma FromDelivers(y: Layout, t: Table, i: nat, code: Code, l: int)
    requires i < |t| && From(y, code, l, t[i])
    ensures Delivers(y, t, i, code, l)
  {
    hide Run, OperandOf;
  }

  /** One pseudo register has both locations. */
  ghost predicate Together(t: Table, a: int, b: int) {
    exists j :: 0 <= j < |t| && a in Locs(t[j]) && b in Locs(t[j])
  }

  ghost predicate IsPath(t: Table, p: seq<int>, a: int, b: int) {
    && p != [] && p[0] == a && p[|p| - 1] == b
    && forall n :: 0 <= n < |p| - 1 ==> Together(t, p[n], p[n + 1])
  }

  /** The table says that the two locations hold the same value: they are the same, or pseudo registers
      with several locations lead from one to the other. */
  ghost predicate Linked(t: Table, a: int, b: int) {
    exists p :: IsPath(t, p, a, b)
  }

  lemma LinkedSelf(t: Table, a: int)
    ensures Linked(t, a, a)
  {
    assert IsPath(t, [a], a, a);
  }

  lemma LinkedOn(t: Table, a: int, b: int, c: int)
    requires Linked(t, a, b) && Together(t, b, c)
    ensures Linked(t, a, c)
  {
    hide Together;
    var p :| IsPath(t, p, a, b);
    assert IsPath(t, p + [c], a, c);
  }

  lemma {:induction false} PathAgrees(y: Layout, t: Table, s: State, p: seq<int>, a: int, b: int)
    requires s.Running? && Agrees(y, t, s) && IsPath(t, p, a, b)
    ensures Read(s, OperandOf(y, a)) == Read(s, OperandOf(y, b))
    decreases |p|
  {
    hide OperandOf;
    if |p| > 1 {
      var q, n := p[..|p| - 1], |p| - 2;
      assert IsPath(t, q, a, p[n]);
      PathAgrees(y, t, s, q, a, p[n]);
      assert Together(t, p[n], p[n + 1]);
    }
  }

  lemma LinkedAgrees(y: Layout, t: Table, s: State, a: int, b: int)
    requires s.Running? && Agrees(y, t, s) && Linked(t, a, b)
    ensures Read(s, OperandOf(y, a)) == Read(s, OperandOf(y, b))
  {
    var p :| IsPath(t, p, a, b);
    PathAgrees(y, t, s, p, a, b);
  }

  ghost function AllLocs(t: Table): set<int> {
    set j, l | 0 <= j < |t| && l in Locs(t[j]) :: l
  }

  /** A state with one value in every location linked to `a`, and another one everywhere else. */
  lemma OneClass(y: Layout, t: Table, a: int) returns (s: State)
    requires y.nofRegisters <= MAX_USABLE_REGISTERS && 0 <= a && forall l :: l in AllLocs(t) ==> 0 <= l
    ensures s.Running? && Agrees(y, t, s) && s.stack == []
    ensures forall l {:trigger OperandOf(y, l)} ::
      l in AllLocs(t) || l == a ==> Read(s, OperandOf(y, l)) == if Linked(t, a, l) then 1 else 0
  {
    hide Linked, OperandOf;
    var ls := AllLocs(t) + {a};
    var os := set l | l in ls && Linked(t, a, l) :: OperandOf(y, l);
    s := Running(map o | o in os :: 1, []);
    forall l | l in ls
      ensures Read(s, OperandOf(y, l)) == if Linked(t, a, l) then 1 else 0
    {
      if OperandOf(y, l) in os {
        var k :| k in ls && Linked(t, a, k) && OperandOf(y, k) == OperandOf(y, l);
        OperandsDiffer(y, k, l);
      }
    }
    forall j, k, l | 0 <= j < |t| && k in Locs(t[j]) && l in Locs(t[j])
      ensures Read(s, OperandOf(y, k)) == Read(s, OperandOf(y, l))
    {
      assert Together(t, k, l) && Together(t, l, k) && k in AllLocs(t) && l in AllLocs(t);
      if Linked(t, a, k) { LinkedOn(t, a, k, l); }
      if Linked(t, a, l) { LinkedOn(t, a, l, k); }
    }
  }

  lemma LocsPositive(y: Layout, t: Table, u: seq<nat>, reserved: multiset<int>)
    requires Consistent(y, t, u, reserved, multiset{})
    ensures forall l :: l in AllLocs(t) ==> 0 <= l
  {
    hide Counted, Alone;
    assert forall i :: 0 <= i < |t| ==> OkEntry(y, |u|, t[i]);
  }

  /** A location that the code leaves alone has the value in the end if and only if the table says that
      it had it from the start. */
  lemma DeliversLinked(y: Layout, t: Table, u: seq<nat>, reserved: multiset<int>, i: nat, code: Code, l: int, k: int)
    requires 1 <= y.nofRegisters <= MAX_USABLE_REGISTERS && Consistent(y, t, u, reserved, multiset{})
    requires i < |t| && k in Locs(t[i]) && y.IsRegister(l)
    requires Copies(code, OperandOf(y, l), OperandOf(y, l)) && Pushes(code, [])
    ensures Delivers(y, t, i, code, l) <==> Linked(t, l, k)
  {
    hide Consistent, Linked, OperandOf, Run;
    LocsPositive(y, t, u, reserved);
    if Linked(t, l, k) {
      forall s: State, m | s.Running? && Agrees(y, t, s) && Run(code, s).Running? && m in Locs(t[i])
        ensures Read(Run(code, s), OperandOf(y, l)) == Read(s, OperandOf(y, m))
      {
        LinkedAgrees(y, t, s, l, k);
      }
    } else {
      var s := OneClass(y, t, l);
      LinkedSelf(t, l);
      assert k in AllLocs(t) && Run(code, s).Running?;
      assert Read(Run(code, s), OperandOf(y, l)) != Read(s, OperandOf(y, k));
    }
  }

  /** Nothing is linked to a location that no entry holds. */
  lemma UnheldUnlinked(y: Layout, t: Table, u: seq<nat>, reserved: multiset<int>, i: nat, l: int, k: int)
    requires Consistent(y, t, u, reserved, multiset{}) && i < |t| && k in Locs(t[i]) && 0 <= l && At(u, l) == 0
    ensures !Linked(t, l, k)
  {
    hide Consistent;
    forall j | 0 <= j < |t|
      ensures l !in Locs(t[j])
    {
      UnheldBy(y, t, u, reserved, j, l);
    }
    if Linked(t, l, k) {
      var p :| IsPath(t, p, l, k);
      PathStart(t, p, l, k);
    }
  }

  lemma PathStart(t: Table, p: seq<int>, a: int, b: int)
    requires IsPath(t, p, a, b) && a != b
    ensures exists j :: 0 <= j < |t| && a in Locs(t[j])
  {
    assert Together(t, p[0], p[0 + 1]);
  }

  // ---- handing a shared register over --------------------------------------------------------------------

  /** Spilling one register leaves all registers as they were. */
  lemma SpillKeeps(y: Layout, spill: int, r: int, l: int)
    requires y.nofRegisters <= MAX_USABLE_REGISTERS && y.IsStackTmp(spill) && y.IsRegister(r) && y.IsRegister(l)
    ensures var code := [Movl(OperandOf(y, spill), OperandOf(y, r))];
      Copies(code, OperandOf(y, l), OperandOf(y, l)) && Pushes(code, [])
  {
    hide Copies, Pushes;
    var d, f := OperandOf(y, spill), OperandOf(y, r);
    OperandsDiffer(y, spill, l);
    IsRegisterOperand(y, r);
    hide OperandOf;
    NoCode(OperandOf(y, l));
    assert [] + [Movl(d, f)] == [Movl(d, f)];
    MovlKeeps([], d, f, OperandOf(y, l), OperandOf(y, l));
    MovlPushes([], [], d, f);
  }

  /** Code that leaves a register alone copies another location there in no way. */
  lemma NotFrom(y: Layout, code: Code, l: int, e: Entry)
    requires y.nofRegisters <= MAX_USABLE_REGISTERS && y.IsRegister(l) && l !in Locs(e)
    requires forall k :: k in Locs(e) ==> 0 <= k
    requires Copies(code, OperandOf(y, l), OperandOf(y, l)) && Pushes(code, [])
    ensures !From(y, code, l, e)
  {
    hide OperandOf, Run;
    if From(y, code, l, e) {
      var k :| k in Locs(e) && Copies(code, OperandOf(y, l), OperandOf(y, k));
      OperandsDiffer(y, k, l);
      NotCopied(code, OperandOf(y, l), OperandOf(y, k));
    }
  }

  lemma NotCopied(code: Code, v: Operand, w: Operand)
    requires Copies(code, v, v) && Pushes(code, []) && v != w
    ensures !Copies(code, v, w)
  {
    hide Run;
    var s := Running(map[v := 1], []);
    assert Run(code, s).Running? && Read(s, v) != Read(s, w);
  }

  /** The temporary gets what is in the register spilled for it, or in one that was free: the value only
      if the table says that it is there. */
  lemma HandedOver(y: Layout, t: Table, u: seq<nat>, reserved: multiset<int>, i: nat, code: Code, l: int)
    requires 1 <= y.nofRegisters <= MAX_USABLE_REGISTERS && Consistent(y, t, u, reserved, multiset{})
    requires i < |t| && t[i].Entry? && t[i].reg != NO_LOCATION && y.IsRegister(l)
    requires code == [] || exists spill, r ::
      y.IsStackTmp(spill) && y.IsRegister(r) && code == [Movl(OperandOf(y, spill), OperandOf(y, r))]
    ensures Delivers(y, t, i, code, l) <==> Linked(t, l, t[i].reg)
    ensures From(y, code, l, t[i]) <==> l == t[i].reg
  {
    hide Consistent, Linked, Delivers, Copies, Pushes, OperandOf;
    EntryFacts(y, t, u, reserved, multiset{}, i);
    if code == [] {
      NoCode(OperandOf(y, l));
    } else {
      var spill, r :| y.IsStackTmp(spill) && y.IsRegister(r) && code == [Movl(OperandOf(y, spill), OperandOf(y, r))];
      SpillKeeps(y, spill, r, l);
    }
    DeliversLinked(y, t, u, reserved, i, code, l, t[i].reg);
    if l != t[i].reg {
      NotFrom(y, code, l, t[i]);
    }
  }

  /** The table without the register of slot i. */
  function Unshared(t: Table, i: int): Table
    requires 0 <= i < |t|
  {
    t[i := UnregisteredEntry(t[i])]
  }

  /** The register spilled once slot i has given up its own holds what slot i holds. */
  ghost predicate VictimLinked(y: Layout, t: Table, u: seq<nat>, locked: set<PseudoRegister>, i: int)
    requires 0 <= i < |t| && t[i].Entry?
  {
    exists r {:trigger Linked(t, r, t[i].reg)} ::
      VictimRegister(y, Unshared(t, i), GiveUp(u, t[i].reg), locked, r) && Linked(t, r, t[i].reg)
  }

  lemma FreeNow(y: Layout, t: Table, u: seq<nat>, locked: set<PseudoRegister>, l: int)
    ensures y.IsRegister(l) && At(u, l) == 0 ==> FreesRegister(y, t, u, locked)
  {}

  /** A shared register: what the temporary gets instead. */
  lemma SharedOutcome(y: Layout, t: Table, u: seq<nat>, reserved: multiset<int>, i: nat, code: Code, l: int,
                      locked: set<PseudoRegister>, free: bool)
    requires 1 <= y.nofRegisters <= MAX_USABLE_REGISTERS && Consistent(y, t, u, reserved, multiset{})
    requires i < |t| && t[i].Entry? && t[i].reg != NO_LOCATION && y.IsRegister(l)
    requires free ==> code == [] && At(u, l) == 0
    requires !free ==> SpillsVictim(y, Unshared(t, i), GiveUp(u, t[i].reg), locked, code, l)
    ensures Delivers(y, t, i, code, l) <==> !free && VictimLinked(y, t, u, locked, i)
    ensures From(y, code, l, t[i]) <==>
      !free && VictimRegister(y, Unshared(t, i), GiveUp(u, t[i].reg), locked, t[i].reg)
  {
    hide Consistent, Delivers, From, Linked, VictimRegister, OperandOf, Unshared;
    assert code == [] || exists spill, r ::
      y.IsStackTmp(spill) && y.IsRegister(r) && code == [Movl(OperandOf(y, spill), OperandOf(y, r))];
    HandedOver(y, t, u, reserved, i, code, l);
    if free {
      UnheldUnlinked(y, t, u, reserved, i, l, t[i].reg);
      LinkedSelf(t, l);
    } else {
      forall r | VictimRegister(y, Unshared(t, i), GiveUp(u, t[i].reg), locked, r)
        ensures r == l
      {
        OneVictim(y, Unshared(t, i), GiveUp(u, t[i].reg), locked, r, l);
      }
    }
  }

  /** Two pseudo registers in one register and one place on the stack, and nothing else. */
  lemma SharedPair(y: Layout, t: Table, u: seq<nat>, pr: PseudoRegister, q: PseudoRegister, r: int, spill: int)
    requires y == Layout(0, MAX_USABLE_REGISTERS) && Consistent(y, t, u, multiset{}, multiset{}) && pr != q
    requires t == [Entry(pr, r, spill), Entry(q, r, spill)] && y.IsRegister(r) && y.IsStackTmp(spill)
    ensures IndexOf(t, pr) == 0 && PRs(t) == {pr, q}
    ensures At(u, r) == 2 && SomeFree(y, u) && SomeFree(y, GiveUp(u, r))
  {
    var l := if r == 0 then 1 else 0;
    assert t == [] + [t[0]] + [t[1]];
    RefCountSnoc([], t[0], r);
    RefCountSnoc([] + [t[0]], t[1], r);
    RefCountSnoc([], t[0], l);
    RefCountSnoc([] + [t[0]], t[1], l);
    assert t[..1] == [] + [t[0]] && t[..1][..0] == [];
    assert At(u, r) == RefCount(t, r) + (multiset{} + multiset{})[r];
    assert At(u, l) == RefCount(t, l) + (multiset{} + multiset{})[l];
    assert y.IsRegister(l) && At(GiveUp(u, r), l) == At(u, l) == 0;
    assert t[0].pr in PRs(t) && t[1].pr in PRs(t);
  }

  lemma FreesRegisters(y: Layout, t: Table, u: seq<nat>)
    requires SomeFree(y, u)
    ensures FreesRegister(y, t, u, {})
  {}

  lemma StartsFree(y: Layout, pr: PseudoRegister)
    requires y == Layout(0, MAX_USABLE_REGISTERS)
    ensures SomeFree(y, KilledUses([], Zeros(MAX_USABLE_REGISTERS + 1), pr))
    ensures FreesRegister(y, Killed([], pr), KilledUses([], Zeros(MAX_USABLE_REGISTERS + 1), pr), {})
  {
    assert y.IsRegister(0) && At(Zeros(MAX_USABLE_REGISTERS + 1), 0) == 0;
  }

  lemma FirstTwo(pr: PseudoRegister, q: PseudoRegister, r: int)
    requires pr != q
    ensures Added(Killed([], pr), Entry(pr, r, NO_LOCATION)) == [Entry(pr, r, NO_LOCATION)]
    ensures IndexOf([Entry(pr, r, NO_LOCATION)], pr) == 0
    ensures Added(Killed([Entry(pr, r, NO_LOCATION)], q), Entry(q, r, NO_LOCATION)) ==
      [Entry(pr, r, NO_LOCATION), Entry(q, r, NO_LOCATION)]
  {}

  lemma SavedTwo(pr: PseudoRegister, q: PseudoRegister, r: int, spill: int)
    ensures Saved([Entry(pr, r, NO_LOCATION), Entry(q, r, NO_LOCATION)], r, spill) ==
      [Entry(pr, r, spill), Entry(q, r, spill)]
  {}
}
