/** What erasing and retargeting jumps means for execution: the code visits the same instructions as
    the program it was emitted for would, jumps to jumps and all. */
module JumpElimination {
  import opened Displacements
  import opened LabelChains
  import opened Assembly
  import opened LabelAssembler
  import opened LabelStates

  /** Every use of a label has its operand. */
  ghost predicate Complete(g: Asm) {
    Structured(g) && forall l :: l in g.chains ==> g.chains[l] == []
  }

  predicate IsJump(item: Item) {
    item.Use? && item.kind == AbsoluteJump
  }

  /** What lies behind an erased jump: the next instruction that is still there, or the end. */
  lemma {:induction false} SkipErased(g: Asm, j: nat) returns (e: nat)
    requires Structured(g) && j <= |g.items|
    ensures |g.items| == |g.pieces| && j <= e <= |g.items| && e !in g.erased && Addr(g.pieces, e) == Addr(g.pieces, j)
    ensures g.Leads(j, e)
    decreases |g.items| - j
  {
    if j in g.erased {
      assert j < |g.items| && ItemOk(g, j);
      var r := g.erased[j];
      ErasedFlat(g, j, r);
      e := SkipErased(g, r);
      hide Reaches, Flatten, Addr;
      ReachesThrough(g.items, g.bound, j, r, e);
    } else {
      e := j;
      ReachesSelf(g.items, g.bound, j);
    }
  }

  lemma {:induction false} ErasedFlat(g: Asm, j: nat, r: nat)
    requires Structured(g) && j <= r <= |g.items| && forall q :: j <= q < r ==> q in g.erased
    ensures Addr(g.pieces, r) == Addr(g.pieces, j)
    decreases r
  {
    hide Flatten, Addr, Reaches, ChainsOk;
    if j < r {
      ErasedFlat(g, j, r - 1);
      assert r - 1 in g.erased && ItemOk(g, r - 1);
      AddrStep(g.pieces, r - 1);
    }
  }

  /** An instruction that is still there takes room. */
  lemma LiveTakesRoom(g: Asm, m: nat)
    requires Structured(g) && m < |g.items| && m !in g.erased
    ensures |g.pieces[m]| > 0
  {
    hide Flatten, Addr, Reaches;
    assert ItemOk(g, m);
    if m !in g.resolved && g.items[m].Use? {
      var l := g.home[m];
      var k :| 0 <= k < |g.chains[l]| && g.chains[l][k] == m;
      assert ChainOk(g, l, g.chains[l]);
      FixBound(g, l, g.chains[l], k);
    }
  }

  /** An address belongs to one instruction only. */
  lemma LiveUnique(g: Asm, m: nat, n: nat)
    requires Structured(g) && m <= |g.items| && n <= |g.items| && m !in g.erased && n !in g.erased
    requires |g.items| == |g.pieces| && Addr(g.pieces, m) == Addr(g.pieces, n)
    ensures m == n
  {
    if m < n {
      LaterBehind(g, m, n);
    } else if n < m {
      LaterBehind(g, n, m);
    }
  }

  lemma LaterBehind(g: Asm, m: nat, n: nat)
    requires Structured(g) && m < n <= |g.items| && m !in g.erased
    ensures |g.items| == |g.pieces| && Addr(g.pieces, m) < Addr(g.pieces, n)
  {
    LiveTakesRoom(g, m);
    AddrStep(g.pieces, m);
    AddrMonotone(g.pieces, m + 1, n);
  }

  /** Every use that is still there decodes, from the bytes of the code, to the address of an
      instruction (or the end) that the binding of its label leads to by jumps alone. */
  lemma UseArrives(g: Asm, m: nat) returns (e: nat)
    requires Complete(g) && m < |g.items| && g.items[m].Use? && m !in g.erased
    ensures |g.items| == |g.pieces| && Addr(g.pieces, m) <= g.Size()
    ensures g.items[m].target in g.bound && e <= |g.items| && e !in g.erased && g.Leads(g.bound[g.items[m].target], e)
    ensures Decode(Flatten(g.pieces)[Addr(g.pieces, m)..], Addr(g.pieces, m)) ==
      Reference(g.items[m].kind, g.items[m].info, Addr(g.pieces, e))
  {
    hide Reaches, Flatten, Addr, Decode;
    assert ItemOk(g, m);
    var a, piece := Addr(g.pieces, m), g.pieces[m];
    e := SkipErased(g, g.resolved[m]);
    ReachesThrough(g.items, g.bound, g.bound[g.items[m].target], g.resolved[m], e);
    PieceInCode(g.pieces, m);
    var code := Flatten(g.pieces);
    assert code[a..] == piece + code[a + |piece|..];
    DecodePrefix(piece, code[a + |piece|..], a);
  }

  /** An erased jump would have led, by jumps alone, to the instruction now in its place. */
  lemma ErasedLeads(g: Asm, m: nat) returns (e: nat)
    requires Structured(g) && m in g.erased
    ensures m < e <= |g.items| == |g.pieces| && IsJump(g.items[m]) && g.Leads(m, e) && e !in g.erased
    ensures Addr(g.pieces, e) == Addr(g.pieces, m)
  {
    assert m < |g.items| && ItemOk(g, m);
    e := SkipErased(g, m);
  }

  // ---- execution ------------------------------------------------------------------------------------------

  /** Where execution goes after the instruction m of the program, which is not an unconditional jump;
      `taken` says whether it goes to the label, for a conditional jump, a call, or inline cache
      information that is used for a non-local return. */
  function NextItem(g: Asm, m: nat, taken: bool): int
    requires m < |g.items|
  {
    if g.items[m].Use? && taken && g.items[m].target in g.bound then g.bound[g.items[m].target] else m + 1
  }

  /** The same for the emitted bytes, by address. */
  function NextAddress(g: Asm, m: nat, taken: bool): int
    requires |g.items| == |g.pieces| && m < |g.items| && Addr(g.pieces, m) <= g.Size()
  {
    var a := Addr(g.pieces, m);
    var r := Decode(Flatten(g.pieces)[a..], a);
    if g.items[m].Use? && taken && r.Reference? then r.to else a + |g.pieces[m]|
  }

  /** The unconditional jump at address a goes to address b. */
  ghost predicate AddressJump(g: Asm, a: int, b: int)
    requires |g.items| == |g.pieces|
  {
    0 <= a <= g.Size() && Decode(Flatten(g.pieces)[a..], a) == Reference(AbsoluteJump, 0, b) && exists m ::
      JumpAt(g, m, a)
  }

  ghost predicate JumpAt(g: Asm, m: int, a: int)
    requires |g.items| == |g.pieces|
  {
    0 <= m < |g.items| && m !in g.erased && IsJump(g.items[m]) && Addr(g.pieces, m) == a
  }

  ghost predicate AddressPath(g: Asm, p: seq<int>)
    requires |g.items| == |g.pieces|
  {
    p != [] && forall k :: 0 <= k < |p| - 1 ==> AddressJump(g, p[k], p[k + 1])
  }

  /** Execution arriving at address a executes, after unconditional jumps, instruction e. */
  ghost predicate Lands(g: Asm, a: int, e: int)
    requires |g.items| == |g.pieces|
  {
    && 0 <= e < |g.items| && e !in g.erased && !IsJump(g.items[e])
    && exists p :: AddressPath(g, p) && p[0] == a && p[|p| - 1] == Addr(g.pieces, e)
  }

  /** The instructions, other than unconditional jumps, that the program executes from item i on, given
      the outcome of every choice. */
  ghost predicate ProgramRun(g: Asm, i: int, choices: seq<bool>, trace: seq<int>)
    decreases |choices|
  {
    && |trace| == |choices|
    && (choices != [] ==>
          && 0 <= trace[0] < |g.items| && !IsJump(g.items[trace[0]]) && g.Leads(i, trace[0])
          && ProgramRun(g, NextItem(g, trace[0], choices[0]), choices[1..], trace[1..]))
  }

  /** The same for the emitted code, started at address a. */
  ghost predicate CodeRun(g: Asm, a: int, choices: seq<bool>, trace: seq<int>)
    requires |g.items| == |g.pieces|
    decreases |choices|
  {
    && |trace| == |choices|
    && (choices != [] ==>
          && Lands(g, a, trace[0]) && Addr(g.pieces, trace[0]) <= g.Size()
          && CodeRun(g, NextAddress(g, trace[0], choices[0]), choices[1..], trace[1..]))
  }

  /** Item i of the program stands at address a: it leads to the instruction there. */
  ghost predicate Stands(g: Asm, i: int, a: int, e: nat)
    requires |g.items| == |g.pieces|
  {
    e <= |g.items| && e !in g.erased && Addr(g.pieces, e) == a && g.Leads(i, e)
  }

  lemma JumpOf(g: Asm, e: nat) returns (e': nat)
    requires Complete(g) && e < |g.items| && e !in g.erased && IsJump(g.items[e])
    ensures |g.items| == |g.pieces| && g.items[e].target in g.bound && e' <= |g.items| && e' !in g.erased
    ensures JumpsTo(g.items, g.bound, e, g.bound[g.items[e].target]) && g.Leads(g.bound[g.items[e].target], e')
    ensures AddressJump(g, Addr(g.pieces, e), Addr(g.pieces, e')) && g.items[e].info == 0
  {
    hide Reaches, Flatten, Addr, Decode;
    e' := UseArrives(g, e);
    JumpInfo(g, e);
    assert JumpAt(g, e, Addr(g.pieces, e));
  }

  lemma JumpInfo(g: Asm, e: nat)
    requires Complete(g) && e < |g.items| && e !in g.erased && IsJump(g.items[e])
    ensures g.items[e].info == 0
  {
    assert ItemOk(g, e);
  }

  /** Jumps in the code follow jumps of the program. */
  lemma {:induction false} LandsLeads(g: Asm, i: int, a: int, e: nat, p: seq<int>, end: nat)
    requires Complete(g) && |g.items| == |g.pieces| && Stands(g, i, a, e) && AddressPath(g, p) && p[0] == a
    requires end < |g.items| && end !in g.erased && p[|p| - 1] == Addr(g.pieces, end)
    ensures g.Leads(i, end)
    decreases |p|
  {
    hide Reaches, Flatten, Addr, Decode, Structured;
    if |p| == 1 {
      LiveUnique(g, e, end);
    } else {
      assert AddressJump(g, p[0], p[0 + 1]);
      var m :| JumpAt(g, m, p[0]);
      LiveUnique(g, m, e);
      var e' := JumpOf(g, e);
      ReachesStep(g.items, g.bound, e, g.bound[g.items[e].target]);
      ReachesThrough(g.items, g.bound, i, e, g.bound[g.items[e].target]);
      ReachesThrough(g.items, g.bound, i, g.bound[g.items[e].target], e');
      PathTail(g, p);
      LandsLeads(g, i, p[1], e', p[1..], end);
    }
  }

  lemma PathTail(g: Asm, p: seq<int>)
    requires |g.items| == |g.pieces| && AddressPath(g, p) && |p| > 1
    ensures AddressPath(g, p[1..]) && AddressJump(g, p[0], p[1])
  {
    hide AddressJump;
    assert AddressJump(g, p[0], p[0 + 1]);
    forall k | 0 <= k < |p[1..]| - 1
      ensures AddressJump(g, p[1..][k], p[1..][k + 1])
    {
      assert AddressJump(g, p[k + 1], p[k + 1 + 1]);
    }
  }

  lemma PathCons(g: Asm, a: int, p: seq<int>)
    requires |g.items| == |g.pieces| && AddressPath(g, p) && AddressJump(g, a, p[0])
    ensures AddressPath(g, [a] + p)
  {
    hide AddressJump;
    var q := [a] + p;
    forall k | 0 <= k < |q| - 1
      ensures AddressJump(g, q[k], q[k + 1])
    {
      if k > 0 {
        assert AddressJump(g, p[k - 1], p[k - 1 + 1]);
      }
    }
  }

  /** Jumps of the program are followed by jumps in the code. */
  lemma {:induction false} LeadsLands(g: Asm, e: nat, q: seq<int>, end: nat) returns (p: seq<int>)
    requires Complete(g) && |g.items| == |g.pieces| && e <= |g.items| && e !in g.erased && end < |g.items|
    requires !IsJump(g.items[end])
    requires Path(g.items, g.bound, q) && q[0] == e && q[|q| - 1] == end
    ensures AddressPath(g, p) && p[0] == Addr(g.pieces, e) && p[|p| - 1] == Addr(g.pieces, end)
    decreases |q|
  {
    hide Flatten, Addr, Decode, Structured;
    if |q| == 1 {
      p := [Addr(g.pieces, e)];
    } else {
      assert JumpsTo(g.items, g.bound, q[0], q[0 + 1]);
      var e' := JumpOf(g, e);
      var rest := ShorterPath(g, q, e');
      var p' := LeadsLands(g, e', rest, end);
      PathCons(g, Addr(g.pieces, e), p');
      p := [Addr(g.pieces, e)] + p';
    }
  }

  /** Going on from a place that the first jump leads to, the way is shorter. */
  lemma ShorterPath(g: Asm, q: seq<int>, e': nat) returns (rest: seq<int>)
    requires Path(g.items, g.bound, q) && |q| > 1 && g.Leads(q[1], e')
    requires 0 <= q[|q| - 1] < |g.items| && !IsJump(g.items[q[|q| - 1]])
    ensures Path(g.items, g.bound, rest) && rest[0] == e' && rest[|rest| - 1] == q[|q| - 1] && |rest| < |q|
  {
    var t := q[1..];
    forall k | 0 <= k < |t| - 1
      ensures JumpsTo(g.items, g.bound, t[k], t[k + 1])
    {
      assert JumpsTo(g.items, g.bound, q[k + 1], q[k + 1 + 1]);
    }
    var r :| Path(g.items, g.bound, r) && r[0] == q[1] && r[|r| - 1] == e';
    if |t| < |r| {
      JumpsOn(g.items, g.bound, r, t);
    } else {
      ReachesLinear(g.items, g.bound, r, t);
      rest := t[|r| - 1..];
      assert rest[0] == t[..|r|][|r| - 1];
      forall k | 0 <= k < |rest| - 1
        ensures JumpsTo(g.items, g.bound, rest[k], rest[k + 1])
      {
        var n := k + |r| - 1;
        assert rest[k] == t[n] && rest[k + 1] == t[n + 1] && JumpsTo(g.items, g.bound, t[n], t[n + 1]);
      }
    }
  }

  /** Arriving at a place of the program, or at its address in the code, is the same. */
  lemma SameLanding(g: Asm, i: int, a: int, e: nat, end: int)
    requires Complete(g) && |g.items| == |g.pieces| && Stands(g, i, a, e)
    ensures Lands(g, a, end) <==> 0 <= end < |g.items| && !IsJump(g.items[end]) && g.Leads(i, end)
  {
    hide Flatten, Addr, Decode, Structured;
    if Lands(g, a, end) {
      var p :| AddressPath(g, p) && p[0] == a && p[|p| - 1] == Addr(g.pieces, end);
      LandsLeads(g, i, a, e, p, end);
    }
    if 0 <= end < |g.items| && !IsJump(g.items[end]) && g.Leads(i, end) {
      NoJumpFrom(g, end);
      SameEnd(g.items, g.bound, i, e, end);
      var q :| Path(g.items, g.bound, q) && q[0] == e && q[|q| - 1] == end;
      var p := LeadsLands(g, e, q, end);
      NotErased(g, end);
    }
  }

  lemma NoJumpFrom(g: Asm, end: int)
    requires 0 <= end < |g.items| && !IsJump(g.items[end])
    ensures !exists j :: JumpsTo(g.items, g.bound, end, j)
  {}

  lemma NotErased(g: Asm, m: nat)
    requires Structured(g) && m < |g.items| && !IsJump(g.items[m])
    ensures m !in g.erased
  {
    assert ItemOk(g, m);
  }

  /** After the same instruction and choice, program and code are at the same place again. */
  lemma SameNext(g: Asm, m: nat, taken: bool) returns (e: nat)
    requires Complete(g) && |g.items| == |g.pieces| && m < |g.items| && m !in g.erased
    ensures Addr(g.pieces, m) <= g.Size()
    ensures Stands(g, NextItem(g, m, taken), NextAddress(g, m, taken), e)
  {
    hide Flatten, Addr, Decode, Structured, Reaches;
    AddrBound(g.pieces, m);
    if g.items[m].Use? && taken {
      e := UseArrives(g, m);
    } else {
      AddrStep(g.pieces, m);
      e := SkipErased(g, m + 1);
    }
  }

  /** Jump elimination preserves meaning over whole runs: for every sequence of choices, the emitted
      code executes exactly the instructions that the program with all its jumps would. */
  lemma {:induction false} SameRuns(g: Asm, i: int, a: int, e: nat, choices: seq<bool>, trace: seq<int>)
    requires Complete(g) && |g.items| == |g.pieces| && Stands(g, i, a, e)
    ensures CodeRun(g, a, choices, trace) <==> ProgramRun(g, i, choices, trace)
    decreases |choices|
  {
    hide Flatten, Addr, Decode, Structured, Lands, Stands, NextItem, NextAddress, Reaches, Complete;
    if choices != [] && |trace| == |choices| {
      var m := trace[0];
      SameLanding(g, i, a, e, m);
      if 0 <= m < |g.items| && !IsJump(g.items[m]) {
        CompleteStructured(g);
        NotErased(g, m);
        var e' := SameNext(g, m, choices[0]);
        SameRuns(g, NextItem(g, m, choices[0]), NextAddress(g, m, choices[0]), e', choices[1..], trace[1..]);
      }
    }
  }

  lemma CompleteStructured(g: Asm)
    requires Complete(g)
    ensures Structured(g)
  {}

  /** In particular from the start. */
  lemma SameRunsFromStart(g: Asm, choices: seq<bool>, trace: seq<int>)
    requires Complete(g)
    ensures |g.items| == |g.pieces| && (CodeRun(g, 0, choices, trace) <==> ProgramRun(g, 0, choices, trace))
  {
    hide CodeRun, ProgramRun, Flatten;
    var e := SkipErased(g, 0);
    AddrEnds(g.pieces);
    SameRuns(g, 0, 0, e, choices, trace);
  }

  // ---- finished code ----------------------------------------------------------------------------------------

  /** Once nothing is pending and every label has been bound, the bytes in the buffer run as the program. */
  lemma EmittedCodeRuns(a: Assembler, choices: seq<bool>, trace: seq<int>)
    requires a.Valid() && a.unboundLabel in a.g.chains && a.g.chains[a.unboundLabel] == []
    requires forall l :: l in a.g.chains && l != a.unboundLabel ==> l in a.g.bound
    ensures a.codePos <= a.buffer.Length && Flatten(a.g.pieces) == a.buffer[..a.codePos]
    ensures |a.g.items| == |a.g.pieces| && (CodeRun(a.g, 0, choices, trace) <==> ProgramRun(a.g, 0, choices, trace))
  {
    hide CodeRun, ProgramRun, Flatten, Shown, Waiting, Held, Structured;
    Whole(Flatten(a.g.pieces));
    SameRunsFromStart(a.g, choices, trace);
  }

  lemma HeldWitness(g: Asm, m: nat) returns (q: nat)
    requires Held(g) && m in g.resolved
    ensures q < |g.items| && !Erasable(g.items[q])
  {
    assert HeldAt(g, g.resolved[m]);
    var i :| g.resolved[m] <= i < |g.items| && !Erasable(g.items[i]);
    q := i;
  }

  /** A single jump that no chain holds any more has been erased. */
  lemma OnlyJumpErased(g: Asm)
    requires Structured(g) && Held(g) && |g.items| == 1 && Erasable(g.items[0]) && !TrailingJump(g, g.pending)
    requires forall l :: l in g.chains && l != g.pending ==> g.chains[l] == []
    ensures |g.pieces| == 1 && g.Size() == 0 && Addr(g.pieces, 1) == 0
  {
    hide Reaches, Flatten, Addr;
    assert ItemOk(g, 0);
    if 0 in g.resolved {
      var q := HeldWitness(g, 0);
    }
    AddrEnds(g.pieces);
    AddrStep(g.pieces, 0);
    if 0 !in g.erased {
      OnlyJumpTrails(g);
    }
  }

  lemma OnlyJumpTrails(g: Asm)
    requires Structured(g) && |g.items| == 1 && Erasable(g.items[0]) && 0 in g.home && g.home[0] == g.pending
    requires 0 in g.chains[g.pending]
    ensures TrailingJump(g, g.pending)
  {
    hide Reaches, Flatten, Addr;
    AddrEnds(g.pieces);
    AddrStep(g.pieces, 0);
    ChainMembers(g, g.pending);
    assert ChainOk(g, g.pending, g.chains[g.pending]);
    FixBound(g, g.pending, g.chains[g.pending], 0);
  }

  lemma LeadsByJump(g: Asm, i: int, j: int)
    requires g.Leads(i, j) && i != j
    ensures 0 <= i < |g.items| && g.items[i].Use? && g.items[i].target in g.bound
  {
    var p :| Path(g.items, g.bound, p) && p[0] == i && p[|p| - 1] == j;
    assert JumpsTo(g.items, g.bound, p[0], p[0 + 1]);
  }

  /** A jump to a label that is not bound cannot have been erased. */
  lemma JumpStays(g: Asm)
    requires Structured(g) && |g.items| == 1 && Erasable(g.items[0]) && g.items[0].target !in g.bound
    ensures |g.pieces| == 1 && g.Size() == 5 && Addr(g.pieces, 1) == 5
  {
    hide Flatten, Addr, Decode;
    assert ItemOk(g, 0);
    AddrEnds(g.pieces);
    AddrStep(g.pieces, 0);
    if 0 in g.erased {
      LeadsByJump(g, 0, g.erased[0]);
    } else {
      var l := g.home[0];
      var k :| 0 <= k < |g.chains[l]| && g.chains[l][k] == 0;
      assert ChainOk(g, l, g.chains[l]);
      FixBound(g, l, g.chains[l], k);
    }
  }

  lemma AfterJump(a: Assembler, l: Label, target: Label)
    requires a.Valid() && a.g.items == [Use(AbsoluteJump, 0, target, true)] && a.g.bound == map[l := 1] && target != l
    requires l !in a.stale
    ensures a.codePos == 5 && l.pos == -6
  {
    hide Flatten, Addr, Waiting, Held, ItemsOk, ChainsOk;
    JumpStays(a.g);
    CodeSize(a.g, []);
    Whole(Flatten(a.g.pieces));
    BoundKnown(a.g, l);
  }

  lemma StillUsable(a: Assembler, l: Label)
    requires a.Valid() && l in a.g.chains && l !in a.g.bound && l != a.unboundLabel
    ensures a.Usable(l) && !l.IsBound()
  {
    hide Flatten, Addr, Waiting, Held, ItemsOk, ChainsOk, Fix;
    PendingKnown(a.g);
  }

  lemma AfterErasure(a: Assembler, l: Label, target: Label)
    requires a.Valid() && a.g.items == [Use(AbsoluteJump, 0, target, true)] && a.g.bound == map[l := 1, target := 1]
    requires a.eliminateJumpsToJumps && !a.finalized && !TrailingJump(a.g, a.unboundLabel)
    requires a.g.chains.Keys == {a.unboundLabel, l, target}
    ensures a.codePos == 0 && |a.g.pieces| == 1 && Addr(a.g.pieces, 1) == 0
  {
    hide Flatten, Addr, Waiting, Held, ItemsOk, ChainsOk, TrailingJump;
    OnlyJumpErased(a.g);
    CodeSize(a.g, []);
    Whole(Flatten(a.g.pieces));
  }

  /** A label bound right behind a jump to another one. */
  method LabelBehindJump() returns (a: Assembler, l: Label, target: Label)
    ensures fresh(a) && fresh(a.buffer) && fresh(a.unboundLabel) && fresh(l) && fresh(target)
    ensures a.Valid() && a.Usable(target) && !target.IsBound()
    ensures a.eliminateJumpsToJumps && !a.finalized && a.stale == {}
    ensures a.g.items == [Use(AbsoluteJump, 0, target, true)] && a.g.bound == map[l := 1] && target != l
    ensures a.g.chains.Keys == {a.unboundLabel, l, target} && a.codePos == 5 && l.IsBound() && l.Pos() == 5
    ensures l != a.unboundLabel
  {
    hide a.Valid, TrailingJump, Flatten, Addr, Trail, Joined, Structured, Waiting, Held;
    a := new Assembler(100, true);
    l := new Label();
    target := new Label();
    a.Jmp(target);
    a.Bind(l);
    AfterJump(a, l, target);
    StillUsable(a, target);
  }

  /** Not every label is kept right: a label bound right behind a jump is left pointing behind the end
      of the code when binding the jump's own label takes the jump back. */
  method LabelLeftBehind() returns (a: Assembler, l: Label)
    ensures a.Valid() && l in a.g.bound && l in a.stale
    ensures a.codePos == 0 && l.IsBound() && l.Pos() == 5
    ensures |a.g.pieces| == 1 && a.g.bound[l] == 1 && Addr(a.g.pieces, 1) == 0
  {
    hide a.Valid, TrailingJump, Flatten, Addr, Trail, Joined, Structured, Waiting, Held;
    var target;
    a, l, target := LabelBehindJump();
    a.Bind(target);
    AfterErasure(a, l, target);
  }
}
