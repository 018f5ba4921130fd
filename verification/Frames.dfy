/** The stack frame of a compiled method as the caller and the prologue make it, and what the locations of
    arguments and temporaries, and those of registers with a fixed use, mean in it. */
module Frames {
  import opened Machine
  import opened LocationPool
  import opened MappingTable
  import opened MappingSteps
  import opened RegisterMapping

  /** Memory in words; the stack grows down, and its top is at `sp`. */
  datatype Memory = Memory(words: map<int, int>, sp: int)

  function Push(m: Memory, v: int): Memory {
    Memory(m.words[m.sp - 1 := v], m.sp - 1)
  }

  function PushAll(m: Memory, vs: seq<int>): Memory {
    if vs == [] then m else Push(PushAll(m, vs[..|vs| - 1]), vs[|vs| - 1])
  }

  /** The caller pushes the arguments, first to last; the call pushes the return address, and the prologue the
      caller's frame pointer. The new frame pointer is the top of the stack then. */
  function Enter(m: Memory, args: seq<int>, returnAddress: int, framePointer: int): Memory {
    Push(Push(PushAll(m, args), returnAddress), framePointer)
  }

  /** The frame, with words for temporaries below the saved frame pointer, first to last. */
  function Frame(m: Memory, args: seq<int>, returnAddress: int, framePointer: int, temps: seq<int>): Memory {
    PushAll(Enter(m, args, returnAddress, framePointer), temps)
  }

  lemma {:induction false} Pushed(m: Memory, vs: seq<int>, a: int)
    ensures PushAll(m, vs).sp == m.sp - |vs|
    ensures m.sp - |vs| <= a < m.sp ==> a in PushAll(m, vs).words && PushAll(m, vs).words[a] == vs[m.sp - 1 - a]
    ensures m.sp <= a && a in m.words ==> a in PushAll(m, vs).words && PushAll(m, vs).words[a] == m.words[a]
  {
    if vs != [] {
      Pushed(m, vs[..|vs| - 1], a);
    }
  }

  /** Relative to the frame pointer, the operand of argument k addresses the word that the caller pushed for
      it, and the operand of temporary i the i-th word below the saved frame pointer. */
  lemma LocationsInFrame(y: Layout, m: Memory, args: seq<int>, returnAddress: int, framePointer: int, temps: seq<int>)
    requires |args| == y.nofArguments
    ensures var f, fp := Frame(m, args, returnAddress, framePointer, temps),
        Enter(m, args, returnAddress, framePointer).sp;
      && (forall k :: 0 <= k < |args| ==> Addresses(f, fp, OperandOf(y, k), args[k]))
      && (forall i :: 0 <= i < |temps| ==> Addresses(f, fp, OperandOf(y, y.StackTmpsBeg() + i), temps[i]))
      && Addresses(f, fp, Operand.Frame(0), framePointer) && Addresses(f, fp, Operand.Frame(1), returnAddress)
  {
    var a, e := PushAll(m, args), Enter(m, args, returnAddress, framePointer);
    var f := Frame(m, args, returnAddress, framePointer, temps);
    Pushed(m, args, m.sp);
    forall k | 0 <= k < |args|
      ensures Addresses(f, e.sp, OperandOf(y, k), args[k])
    {
      Pushed(m, args, m.sp - 1 - k);
      Pushed(e, temps, m.sp - 1 - k);
    }
    forall i | 0 <= i < |temps|
      ensures Addresses(f, e.sp, OperandOf(y, y.StackTmpsBeg() + i), temps[i])
    {
      Pushed(e, temps, e.sp - 1 - i);
    }
    Pushed(e, temps, e.sp);
    Pushed(e, temps, e.sp + 1);
  }

  /** The word that a frame operand stands for, relative to the frame pointer. */
  predicate Addresses(m: Memory, fp: int, o: Operand, v: int) {
    o.Frame? && fp + o.wordOffset in m.words && m.words[fp + o.wordOffset] == v
  }

  /** The frame operands of the machine read what is in memory. */
  ghost predicate Runs(s: State, m: Memory, fp: int) {
    s.Running? && forall k {:trigger Operand.Frame(k)} :: fp + k in m.words ==>
      Read(s, Operand.Frame(k)) == m.words[fp + k]
  }

  /** The register that a pseudo register is used in has the argument that it was mapped to. */
  method UseArgument(m: PseudoRegisterMapping, pr: PseudoRegister, argNo: nat, locked: set<PseudoRegister>)
    returns (ok: bool, reg: int)
    requires m.Valid() && m.Room(1) && IndexOf(m.Contents(), pr) < 0 && argNo < m.Y().nofArguments
    modifies m, m.locations, m.masm, pr
    ensures m.Valid() && old(m.masm.code) <= m.masm.code && (ok ==> m.Y().IsRegister(reg))
    ensures ok ==> forall s: State, mem, args: seq<int>, ret, fp0, temps ::
      |args| == m.Y().nofArguments && Runs(s, Frame(mem, args, ret, fp0, temps), Enter(mem, args, ret, fp0).sp) ==>
        HasIn(m.masm.code[|old(m.masm.code)|..], s, OperandOf(m.Y(), reg), args[argNo])
  {
    hide Sound, UseCounts, Consistent, IndexOf, OperandOf, Preserves, Frame, Enter, Runs, HasIn, Added;
    m.MapToArgument(pr, argNo);
    ghost var t, c := m.Contents(), m.masm.code;
    Mapped(m, old(m.Contents()), Entry(pr, NO_LOCATION, argNo));
    ok, reg := m.Use(pr, NO_LOCATION, locked);
    if ok {
      Loaded(m.Y(), t, m.Contents(), m.masm.code[|c|..], IndexOf(t, pr), reg, argNo);
      forall s: State, mem, args: seq<int>, ret, fp0, temps |
        |args| == m.Y().nofArguments && Runs(s, Frame(mem, args, ret, fp0, temps), Enter(mem, args, ret, fp0).sp)
        ensures HasIn(m.masm.code[|c|..], s, OperandOf(m.Y(), reg), args[argNo])
      {
        LocationsInFrame(m.Y(), mem, args, ret, fp0, temps);
        ReadsWord(m.masm.code[|c|..], s, Frame(mem, args, ret, fp0, temps), Enter(mem, args, ret, fp0).sp,
          OperandOf(m.Y(), reg), OperandOf(m.Y(), argNo), args[argNo]);
      }
    }
  }

  /** The register that a pseudo register is used in has the temporary that it was mapped to. */
  method UseTemporary(m: PseudoRegisterMapping, pr: PseudoRegister, tempNo: nat, locked: set<PseudoRegister>)
    returns (ok: bool, reg: int)
    requires m.Valid() && m.Room(1) && IndexOf(m.Contents(), pr) < 0
    requires m.locations.IsLocation(m.Y().StackTmpsBeg() + tempNo)
    requires At(m.locations.Uses(), m.Y().StackTmpsBeg() + tempNo) == 0
    modifies m, m.locations, m.masm, pr
    ensures m.Valid() && old(m.masm.code) <= m.masm.code && (ok ==> m.Y().IsRegister(reg))
    ensures ok ==> forall s: State, mem, args: seq<int>, ret, fp0, temps: seq<int> ::
      |args| == m.Y().nofArguments && tempNo < |temps|
        && Runs(s, Frame(mem, args, ret, fp0, temps), Enter(mem, args, ret, fp0).sp) ==>
        HasIn(m.masm.code[|old(m.masm.code)|..], s, OperandOf(m.Y(), reg), temps[tempNo])
  {
    hide Sound, UseCounts, Consistent, IndexOf, OperandOf, Preserves, Frame, Enter, Runs, HasIn, Added;
    ghost var loc := m.Y().StackTmpsBeg() + tempNo;
    m.MapToTemporary(pr, tempNo);
    ghost var t, c := m.Contents(), m.masm.code;
    Mapped(m, old(m.Contents()), Entry(pr, NO_LOCATION, loc));
    ok, reg := m.Use(pr, NO_LOCATION, locked);
    if ok {
      Loaded(m.Y(), t, m.Contents(), m.masm.code[|c|..], IndexOf(t, pr), reg, loc);
      forall s: State, mem, args: seq<int>, ret, fp0, temps: seq<int> |
        |args| == m.Y().nofArguments && tempNo < |temps|
        && Runs(s, Frame(mem, args, ret, fp0, temps), Enter(mem, args, ret, fp0).sp)
        ensures HasIn(m.masm.code[|c|..], s, OperandOf(m.Y(), reg), temps[tempNo])
      {
        LocationsInFrame(m.Y(), mem, args, ret, fp0, temps);
        ReadsWord(m.masm.code[|c|..], s, Frame(mem, args, ret, fp0, temps), Enter(mem, args, ret, fp0).sp,
          OperandOf(m.Y(), reg), OperandOf(m.Y(), loc), temps[tempNo]);
      }
    }
  }

  /** The code runs and leaves the value in the operand. */
  predicate HasIn(code: Code, s: State, o: Operand, v: int) {
    Run(code, s).Running? && Read(Run(code, s), o) == v
  }

  lemma ReadsWord(code: Code, s: State, m: Memory, fp: int, to: Operand, from: Operand, v: int)
    requires Runs(s, m, fp) && Addresses(m, fp, from, v) && Copies(code, to, from) && Pushes(code, [])
    ensures HasIn(code, s, to, v)
  {
    hide Run;
    assert from == Operand.Frame(from.wordOffset);
  }

  /** A new entry is found, and is as it was made. */
  lemma Mapped(m: PseudoRegisterMapping, t: Table, e: Entry)
    requires m.Valid() && e.Entry? && m.Contents() == Added(t, e)
    ensures 0 <= IndexOf(m.Contents(), e.pr) && m.Contents()[IndexOf(m.Contents(), e.pr)] == e
  {
    hide Consistent, IndexOf, Added;
    AddedAt(m.Y(), t, m.locations.Uses(), m.Reserved(), e);
  }

  /** A pseudo register that is in one place only is copied from there. */
  lemma Loaded(y: Layout, t0: Table, t1: Table, code: Code, i: nat, reg: int, from: int)
    requires i < |t0| == |t1| && Preserves(y, t0, t1, code) && t0[i].Entry? && t1[i].Entry? && t0[i].pr == t1[i].pr
    requires t1[i].reg == reg != NO_LOCATION && Locs(t0[i]) == {from}
    ensures Copies(code, OperandOf(y, reg), OperandOf(y, from)) && Pushes(code, [])
  {
    hide OperandOf, Copies, Pushes, IndexOf;
    UsedFrom(y, t0, t1, code, i, reg);
    assert From(y, code, reg, t0[i]);
  }

  // ---- registers with a fixed use -----------------------------------------------------------------------------------

  const EAX := Reg(0)
  const ECX := Reg(1)
  const EDX := Reg(2)
  const EBX := Reg(3)
  const ESI := Reg(6)
  const EDI := Reg(7)

  /** The order in which registers are numbered as locations. */
  lemma RegistersAre(y: Layout)
    requires y.nofRegisters == MAX_USABLE_REGISTERS
    ensures forall k :: 0 <= k < MAX_USABLE_REGISTERS ==>
      OperandOf(y, y.nofArguments + k) == [EAX, EBX, ECX, EDX, EDI, ESI][k]
  {}

  /** A non-local return has its result in eax, the home frame in edi and the identity of the home in esi. */
  lemma NonLocalReturnAre(m: PseudoRegisterMapping)
    requires m.Y().nofRegisters == MAX_USABLE_REGISTERS
    ensures var rs := m.NonLocalReturnRegisters();
      |rs| == 3 && OperandOf(m.Y(), rs[0]) == EAX && OperandOf(m.Y(), rs[1]) == EDI && OperandOf(m.Y(), rs[2]) == ESI
  {}
}
