/** The target machine seen by the register mapper: registers, frame slots addressed off the
    frame pointer, and the push stack, with the three instructions the mapper emits. */
module Machine {

  datatype Operand =
    | Reg(number: nat)
    | Frame(wordOffset: int)

  datatype Instruction =
    | Movl(dst: Operand, src: Operand)
    | Pushl(src: Operand)
    | Popl(dst: Operand)

  /** `Fault` is reached by code the processor cannot run: a move between two memory operands,
      or a pop from the empty push stack. */
  datatype State =
    | Fault
    | Running(cells: map<Operand, int>, stack: seq<int>)

  type Code = seq<Instruction>

  function Read(s: State, o: Operand): int
    requires s.Running?
  {
    if o in s.cells then s.cells[o] else 0
  }

  function Step(i: Instruction, s: State): State {
    if s.Fault? then Fault else
    match i
    case Movl(dst, src) =>
      if dst.Reg? || src.Reg? then s.(cells := s.cells[dst := Read(s, src)]) else Fault
    case Pushl(src) =>
      s.(stack := s.stack + [Read(s, src)])
    case Popl(dst) =>
      if s.stack == [] then Fault
      else s.(cells := s.cells[dst := s.stack[|s.stack| - 1]], stack := s.stack[..|s.stack| - 1])
  }

  function Run(code: Code, s: State): State {
    if code == [] then s
    else Step(code[|code| - 1], Run(code[..|code| - 1], s))
  }

  lemma {:induction false} RunConcat(c1: Code, c2: Code, s: State)
    ensures Run(c1 + c2, s) == Run(c2, Run(c1, s))
  {
    if c2 == [] {
      assert c1 + c2 == c1;
    } else {
      var n := |c2| - 1;
      assert (c1 + c2)[..|c1 + c2| - 1] == c1 + c2[..n];
      RunConcat(c1, c2[..n], s);
    }
  }

  lemma RunSnoc(code: Code, i: Instruction, s: State)
    ensures Run(code + [i], s) == Step(i, Run(code, s))
  {
    assert (code + [i])[..|code + [i]| - 1] == code;
  }

  function Values(s: State, os: seq<Operand>): (vs: seq<int>)
    requires s.Running?
    ensures |vs| == |os|
  {
    seq(|os|, k requires 0 <= k < |os| => Read(s, os[k]))
  }

  /** The code never faults, and leaves on the push stack exactly the start values of `saved`. */
  ghost predicate Pushes(code: Code, saved: seq<Operand>) {
    forall s: State {:trigger Run(code, s)} :: s.Running? ==>
      Run(code, s).Running? && Run(code, s).stack == s.stack + Values(s, saved)
  }

  /** After the code, `v` holds what `w` held before it. */
  ghost predicate Copies(code: Code, v: Operand, w: Operand) {
    forall s: State {:trigger Run(code, s)} :: s.Running? && Run(code, s).Running? ==>
      Read(Run(code, s), v) == Read(s, w)
  }

  lemma NoValues(s: State)
    requires s.Running?
    ensures s.stack + Values(s, []) == s.stack
  {
    assert Values(s, []) == [];
  }

  lemma NoCode(v: Operand)
    ensures Pushes([], []) && Copies([], v, v)
  {
    forall s: State | s.Running?
      ensures Run([], s).stack == s.stack + Values(s, [])
    {
      assert Values(s, []) == [];
    }
  }

  lemma MovlPushes(code: Code, saved: seq<Operand>, dst: Operand, src: Operand)
    requires Pushes(code, saved)
    requires dst.Reg? || src.Reg?
    ensures Pushes(code + [Movl(dst, src)], saved)
  {
    hide Run;
    forall s: State | s.Running?
      ensures Run(code + [Movl(dst, src)], s).Running?
      ensures Run(code + [Movl(dst, src)], s).stack == Run(code, s).stack
    {
      RunSnoc(code, Movl(dst, src), s);
    }
  }

  lemma MovlCopies(code: Code, dst: Operand, src: Operand, w: Operand)
    requires Copies(code, src, w)
    ensures Copies(code + [Movl(dst, src)], dst, w)
  {
    hide Run;
    forall s: State | s.Running? && Run(code + [Movl(dst, src)], s).Running?
      ensures Read(Run(code + [Movl(dst, src)], s), dst) == Read(s, w)
    {
      RunSnoc(code, Movl(dst, src), s);
    }
  }

  lemma MovlKeeps(code: Code, dst: Operand, src: Operand, v: Operand, w: Operand)
    requires Copies(code, v, w)
    requires v != dst
    ensures Copies(code + [Movl(dst, src)], v, w)
  {
    hide Run;
    forall s: State | s.Running? && Run(code + [Movl(dst, src)], s).Running?
      ensures Read(Run(code + [Movl(dst, src)], s), v) == Read(s, w)
    {
      RunSnoc(code, Movl(dst, src), s);
    }
  }

  lemma ValuesSnoc(s: State, os: seq<Operand>, o: Operand)
    requires s.Running?
    ensures Values(s, os + [o]) == Values(s, os) + [Read(s, o)]
  {}

  lemma Assoc<T>(a: seq<T>, b: seq<T>, c: seq<T>)
    ensures (a + b) + c == a + (b + c)
  {}

  lemma PushlPushes(code: Code, saved: seq<Operand>, src: Operand, w: Operand)
    requires Pushes(code, saved)
    requires Copies(code, src, w)
    ensures Pushes(code + [Pushl(src)], saved + [w])
  {
    hide Run;
    forall s: State | s.Running?
      ensures Run(code + [Pushl(src)], s).Running?
      ensures Run(code + [Pushl(src)], s).stack == s.stack + Values(s, saved + [w])
    {
      RunSnoc(code, Pushl(src), s);
      ValuesSnoc(s, saved, w);
      Assoc(s.stack, Values(s, saved), [Read(s, w)]);
    }
  }

  lemma PushlKeeps(code: Code, src: Operand, v: Operand, w: Operand)
    requires Copies(code, v, w)
    ensures Copies(code + [Pushl(src)], v, w)
  {
    hide Run;
    forall s: State | s.Running? && Run(code + [Pushl(src)], s).Running?
      ensures Read(Run(code + [Pushl(src)], s), v) == Read(s, w)
    {
      RunSnoc(code, Pushl(src), s);
    }
  }

  lemma PoplPushes(code: Code, saved: seq<Operand>, dst: Operand)
    requires saved != []
    requires Pushes(code, saved)
    ensures Pushes(code + [Popl(dst)], saved[..|saved| - 1])
    ensures Copies(code + [Popl(dst)], dst, saved[|saved| - 1])
  {
    hide Run;
    var rest, w := saved[..|saved| - 1], saved[|saved| - 1];
    forall s: State | s.Running?
      ensures Run(code + [Popl(dst)], s).Running?
      ensures Run(code + [Popl(dst)], s).stack == s.stack + Values(s, rest)
      ensures Read(Run(code + [Popl(dst)], s), dst) == Read(s, w)
    {
      RunSnoc(code, Popl(dst), s);
      ValuesSnoc(s, rest, w);
      assert saved == rest + [w];
      var t := Run(code, s);
      var below := s.stack + Values(s, rest);
      assert t.stack == below + [Read(s, w)];
      assert t.stack[..|t.stack| - 1] == below;
    }
  }

  lemma PoplKeeps(code: Code, dst: Operand, v: Operand, w: Operand)
    requires Copies(code, v, w)
    requires v != dst
    ensures Copies(code + [Popl(dst)], v, w)
  {
    hide Run;
    forall s: State | s.Running? && Run(code + [Popl(dst)], s).Running?
      ensures Read(Run(code + [Popl(dst)], s), v) == Read(s, w)
    {
      RunSnoc(code, Popl(dst), s);
    }
  }

  /** The macro assembler as the mapper uses it: an instruction stream that only grows. */
  class MacroAssembler {
    var code: Code

    constructor ()
      ensures code == []
    {
      code := [];
    }

    method Movl(dst: Operand, src: Operand)
      modifies this
      ensures code == old(code) + [Instruction.Movl(dst, src)]
    {
      code := code + [Instruction.Movl(dst, src)];
    }

    method Pushl(src: Operand)
      modifies this
      ensures code == old(code) + [Instruction.Pushl(src)]
    {
      code := code + [Instruction.Pushl(src)];
    }

    method Popl(dst: Operand)
      modifies this
      ensures code == old(code) + [Instruction.Popl(dst)]
    {
      code := code + [Instruction.Popl(dst)];
    }

    method Append(more: Code)
      modifies this
      ensures code == old(code) + more
    {
      code := code + more;
    }
  }
}
