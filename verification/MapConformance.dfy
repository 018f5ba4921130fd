/** The recursive resolver that turns a set of simultaneous moves into a sequence of moves. */
module MapConformanceResolver {
  import opened Machine
  import opened MoveTasks
  import opened MappingGroups

  class MapConformance {
    const masm: MacroAssembler
    var freeRegister: Variable
    var mappings: seq<MappingTask>

    constructor (assm: MacroAssembler)
      ensures masm == assm && freeRegister == Absent && mappings == []
    {
      masm := assm;
      freeRegister := Absent;
      mappings := [];
    }

    method AppendMapping(srcReg: Variable, srcStack: Variable, dstReg: Variable, dstStack: Variable)
      modifies this`mappings
      ensures mappings == old(mappings) + [MappingTask(srcReg, srcStack, dstReg, dstStack, -1, -1, false, Absent)]
    {
      mappings := mappings + [MappingTask(srcReg, srcStack, dstReg, dstStack, -1, -1, false, Absent)];
    }

    /** Whether some task linked to `k` moves to the place `v`. */
    method TargetIncludes(k: nat, v: Operand, ghost p: Problem, ghost broken: int) returns (b: bool)
      requires p.Linked() && p.IsHead(k) && Tracks(p, mappings, broken)
      ensures b <==> v in p.Targets(k)
    {
      var current: int := k;
      ghost var m := 0;
      while current != -1
        invariant 0 <= m <= |p.groups[k]|
        invariant current == if m < |p.groups[k]| then p.groups[k][m] else -1
        invariant forall x :: 0 <= x < m ==> v !in p.tasks[p.groups[k][x]].Dsts()
        decreases |p.groups[k]| - m
      {
        Member(p, mappings, broken, k, m);
        var t := mappings[current];
        if t.dstReg == Place(v) || t.dstStack == Place(v) {
          return true;
        }
        current := t.next;
        m := m + 1;
      }
      return false;
    }

    /** Whether `task` is on the way up from `k`. */
    method InParentChain(k: nat, task: nat, ghost p: Problem, ghost chain: seq<nat>) returns (b: bool)
      requires p.Shaped() && |mappings| == |p.tasks| && Chain(p, mappings, chain)
      requires chain != [] && chain[|chain| - 1] == k
      ensures b <==> task in chain
    {
      var current: int := k;
      ghost var m := |chain| - 1;
      while current != -1
        invariant -1 <= m < |chain|
        invariant current == if m >= 0 then chain[m] else -1
        invariant forall x :: m < x < |chain| ==> chain[x] != task
        decreases m + 1
      {
        if current == task {
          return true;
        }
        ParentOf(p, mappings, chain, m);
        current := mappings[current].parent;
        m := m - 1;
      }
      return false;
    }

    /** Whether `task` has to be processed before `k`. Where that would close a cycle, the task's value
        is moved to the spare register instead. */
    method IsDependent(k: nat, task: nat, ghost p: Problem, ghost chain: seq<nat>, ghost broken: int)
      returns (r: bool, ghost broken': int)
      requires p.Solvable() && Progress(p, mappings, broken, freeRegister, masm.code)
      requires Chain(p, mappings, chain) && chain != [] && chain[|chain| - 1] == k && AtRoot(chain, broken)
      requires task < |mappings| && !mappings[task].processed
      modifies this, masm
      ensures Progress(p, mappings, broken', freeRegister, masm.code)
      ensures Chain(p, mappings, chain) && AtRoot(chain, broken')
      ensures broken != -1 ==> broken' == broken
      ensures SameFlags(old(mappings), mappings) && old(masm.code) <= masm.code
      ensures r ==>
        p.IsHead(task) && task !in chain && p.Threatens(k, task) && mappings == old(mappings) && broken' == broken
      ensures !r ==> task == k || task == broken' || p.Targets(k) !! p.Sources(task)
    {
      hide Progress, Chain, Tracks;
      broken' := broken;
      ProgressFacts(p, mappings, broken, freeRegister, masm.code, task);
      ChainFacts(p, mappings, chain);
      if k == task {
        return false, broken';
      }
      var regDependent, stackDependent := false, false;
      if mappings[task].srcReg.Place? {
        regDependent := TargetIncludes(k, mappings[task].srcReg.op, p, broken);
      }
      if mappings[task].srcStack.Place? {
        stackDependent := TargetIncludes(k, mappings[task].srcStack.op, p, broken);
      }
      r := regDependent || stackDependent;
      Overlap(p, mappings, broken, k, task, regDependent, stackDependent);
      if r {
        var inChain := InParentChain(k, task, p, chain);
        if inChain {
          ghost var m :| 0 <= m < |chain| && chain[m] == task;
          CycleAtRoot(p, mappings, chain, m);
          BreakAllowed(p, mappings, chain, broken, freeRegister, masm.code, m);
          BreakTask(p, mappings, freeRegister, masm.code, task);
          var source := if mappings[task].srcReg.Place? then mappings[task].srcReg.op else mappings[task].srcStack.op;
          var temp := freeRegister;
          freeRegister := Absent;
          masm.Movl(temp.op, source);
          mappings := mappings[task := mappings[task].(srcReg := temp, srcStack := Absent, variableToFree := temp)];
          assert mappings == Broken(p, old(mappings), task);
          BreakChain(p, old(mappings), chain, task);
          return false, task;
        }
      }
    }

    /** Moves the value in register `from` to every destination of the group, except to the group's own
        stack source `own`, and, if `skipSelf`, to the register itself. */
    method MoveAll(k: nat, from: Operand, own: Variable, skipSelf: bool, ghost p: Problem, ghost broken: int,
                   ghost c0: Code, ghost w: set<Operand>, ghost done0: set<Operand>) returns (ghost done: set<Operand>)
      requires p.Linked() && p.IsHead(k) && Tracks(p, mappings, broken) && from.Reg?
      requires Emitting(p.Sources(k), c0, masm.code, w, from, done0) && p.Targets(k) <= w
      requires OpOf(own) <= done0 && (skipSelf ==> from in done0)
      modifies masm
      ensures Emitting(p.Sources(k), c0, masm.code, w, from, done) && p.Targets(k) <= done
    {
      hide Tracks, Emitting;
      done := done0;
      var current: int := k;
      ghost var m := 0;
      while current != -1
        invariant 0 <= m <= |p.groups[k]|
        invariant current == if m < |p.groups[k]| then p.groups[k][m] else -1
        invariant Emitting(p.Sources(k), c0, masm.code, w, from, done) && done0 <= done
        invariant forall x :: 0 <= x < m ==> p.tasks[p.groups[k][x]].Dsts() <= done
        decreases |p.groups[k]| - m
      {
        Member(p, mappings, broken, k, m);
        var t := mappings[current];
        if t.dstReg.Place? && !(skipSelf && t.dstReg.op == from) {
          EmitMove(p.Sources(k), c0, masm.code, w, from, done, t.dstReg.op);
          masm.Movl(t.dstReg.op, from);
          done := done + {t.dstReg.op};
        }
        if t.dstStack.Place? && t.dstStack != own {
          EmitMove(p.Sources(k), c0, masm.code, w, from, done, t.dstStack.op);
          masm.Movl(t.dstStack.op, from);
          done := done + {t.dstStack.op};
        }
        current := t.next;
        m := m + 1;
      }
    }

    /** Copies the stack slot `from` to every destination of the group over the push stack. */
    method PushAll(k: nat, from: Operand, ghost p: Problem, ghost broken: int, ghost c0: Code, ghost w: set<Operand>)
      returns (ghost done: set<Operand>)
      requires p.Linked() && p.IsHead(k) && Tracks(p, mappings, broken) && from.Frame?
      requires Emitting(p.Sources(k), c0, masm.code, w, from, {from}) && p.Targets(k) <= w
      modifies masm
      ensures Emitting(p.Sources(k), c0, masm.code, w, from, done) && p.Targets(k) <= done
    {
      hide Tracks, Emitting;
      done := {from};
      var current: int := k;
      ghost var m := 0;
      while current != -1
        invariant 0 <= m <= |p.groups[k]|
        invariant current == if m < |p.groups[k]| then p.groups[k][m] else -1
        invariant Emitting(p.Sources(k), c0, masm.code, w, from, done) && from in done
        invariant forall x :: 0 <= x < m ==> p.tasks[p.groups[k][x]].Dsts() <= done
        decreases |p.groups[k]| - m
      {
        Member(p, mappings, broken, k, m);
        var t := mappings[current];
        if t.dstReg.Place? {
          EmitPushPop(p.Sources(k), c0, masm.code, w, from, done, t.dstReg.op);
          masm.Pushl(from);
          masm.Popl(t.dstReg.op);
          done := done + {t.dstReg.op};
        }
        if t.dstStack.Place? && t.dstStack.op != from {
          EmitPushPop(p.Sources(k), c0, masm.code, w, from, done, t.dstStack.op);
          masm.Pushl(from);
          masm.Popl(t.dstStack.op);
          done := done + {t.dstStack.op};
        }
        current := t.next;
        m := m + 1;
      }
    }

    /** A register among the destinations of the group, the last one linked. */
    method TargetRegister(k: nat, ghost p: Problem, ghost broken: int) returns (temp: Variable)
      requires p.Linked() && p.IsHead(k) && Tracks(p, mappings, broken)
      ensures temp.Place? ==> temp.op.Reg? && temp.op in p.Targets(k)
    {
      hide Tracks;
      temp := Absent;
      var current: int := k;
      ghost var m := 0;
      while current != -1
        invariant 0 <= m <= |p.groups[k]|
        invariant current == if m < |p.groups[k]| then p.groups[k][m] else -1
        invariant temp.Place? ==> temp.op.Reg? && temp.op in p.Targets(k)
        decreases |p.groups[k]| - m
      {
        Member(p, mappings, broken, k, m);
        if mappings[current].dstReg.Place? {
          temp := mappings[current].dstReg;
        }
        current := mappings[current].next;
        m := m + 1;
      }
    }

    /** Emits the moves of the group with head `k`. */
    method GenerateCode(k: nat, ghost p: Problem, ghost broken: int)
      requires p.Solvable() && p.IsHead(k) && Progress(p, mappings, broken, freeRegister, masm.code)
      requires k < |mappings| && !mappings[k].processed
      modifies this`freeRegister, masm
      ensures Emitted(p, k, broken, old(masm.code), masm.code) && old(masm.code) <= masm.code
      ensures freeRegister == old(freeRegister)
    {
      hide Progress, Tracks, Emitting, Emitted, Keeps, Delivered;
      ghost var c0, w := masm.code, Writable(p, k, broken);
      ProgressFacts(p, mappings, broken, freeRegister, c0, k);
      SourceHeld(p, mappings, broken, freeRegister, c0, k);
      ghost var srcs := p.Sources(k);
      var t := mappings[k];
      ghost var done;
      if t.srcReg.Place? {
        EmitStart(srcs, c0, w, t.srcReg.op, OpOf(t.srcStack));
        done := MoveAll(k, t.srcReg.op, t.srcStack, false, p, broken, c0, w, OpOf(t.srcStack));
        EmitDone(p, k, broken, c0, masm.code, t.srcReg.op, done);
      } else {
        var source := t.srcStack.op;
        EmitStart(srcs, c0, w, source, {source});
        var temp := TargetRegister(k, p, broken);
        var usesTemp := false;
        if temp.Absent? {
          usesTemp := true;
          temp := freeRegister;
          freeRegister := Absent;
        }
        if temp.Place? {
          EmitMove(srcs, c0, c0, w, source, {source}, temp.op);
          masm.Movl(temp.op, source);
          EmitSwitch(srcs, c0, masm.code, w, source, {source} + {temp.op}, temp.op);
          done := MoveAll(k, temp.op, t.srcStack, true, p, broken, c0, w, {source} + {temp.op});
          EmitDone(p, k, broken, c0, masm.code, temp.op, done);
          if usesTemp {
            freeRegister := temp;
          }
        } else {
          done := PushAll(k, source, p, broken, c0, w);
          EmitDone(p, k, broken, c0, masm.code, source, done);
        }
      }
    }

    /** Processes first all tasks whose source the group of `k` would overwrite, then `k` itself. A
        cycle leads back to the root of the recursion, whose value then waits in the spare register. */
    method ProcessTask(k: nat, parent: int, ghost p: Problem, ghost chain: seq<nat>, ghost broken: int)
      returns (ghost broken': int)
      requires p.Solvable() && Progress(p, mappings, broken, freeRegister, masm.code) && k < |mappings|
      requires |mappings| == |p.tasks| && Chain(p, mappings, chain) && AtRoot(chain, broken)
      requires parent == if chain == [] then -1 else chain[|chain| - 1]
      requires !mappings[k].processed ==> Extends(p, chain, k)
      modifies this, masm
      ensures Progress(p, mappings, broken', freeRegister, masm.code)
      ensures |mappings| == |p.tasks| && Chain(p, mappings, chain) && AtRoot(chain, broken')
      ensures broken != -1 ==> chain == [] || broken' == broken
      ensures MoreProcessed(old(mappings), mappings) && mappings[k].processed
      ensures old(masm.code) <= masm.code
      decreases Rest(|mappings|, chain), 0
    {
      hide Progress, Tracks, Chain, Emitted, Unthreatening, Extends;
      broken' := broken;
      if mappings[k].processed {
        return;
      }
      ChainExtended(p, mappings, chain, broken, k, parent);
      ParentProgress(p, mappings, broken, freeRegister, masm.code, k, parent);
      mappings := mappings[k := mappings[k].(parent := parent)];
      RestShrinks(|mappings|, chain, k);
      broken' := ProcessDependents(k, p, chain + [k], broken);
      ChainShortened(p, mappings, chain, k);
      ParentProgress(p, mappings, broken', freeRegister, masm.code, k, -1);
      ParentUnthreatening(p, mappings, broken', k);
      mappings := mappings[k := mappings[k].(parent := -1)];
      ghost var before, c := mappings, masm.code;
      GenerateCode(k, p, broken');
      FinishTask(p, mappings, broken', freeRegister, c, masm.code, k);
      FreedRegister(p, mappings, broken', freeRegister, c, k);
      if mappings[k].variableToFree.Place? && mappings[k].variableToFree.op.Reg? {
        freeRegister := mappings[k].variableToFree;
      }
      ChainFinished(p, mappings, chain, broken', k);
      mappings := mappings[k := mappings[k].(processed := true)];
      assert mappings == Finished(before, k);
      broken' := if k == broken' then -1 else broken';
    }

    /** The loop of `ProcessTask` over all tasks. */
    method ProcessDependents(k: nat, ghost p: Problem, ghost chain: seq<nat>, ghost broken: int)
      returns (ghost broken': int)
      requires p.Solvable() && Progress(p, mappings, broken, freeRegister, masm.code)
      requires |mappings| == |p.tasks| && Chain(p, mappings, chain) && AtRoot(chain, broken)
      requires chain != [] && chain[|chain| - 1] == k
      modifies this, masm
      ensures Progress(p, mappings, broken', freeRegister, masm.code)
      ensures |mappings| == |p.tasks| && Chain(p, mappings, chain) && AtRoot(chain, broken')
      ensures broken != -1 ==> broken' == broken
      ensures MoreProcessed(old(mappings), mappings) && old(masm.code) <= masm.code
      ensures p.IsHead(k) && Unthreatening(p, mappings, broken', k)
      decreases Rest(|mappings|, chain), 1
    {
      hide Progress, Tracks, Chain, Extends, Checked, MoreProcessed, SameFlags, Unthreatening;
      broken' := broken;
      ChainEnd(p, mappings, chain);
      CheckedNone(p, mappings, broken', k);
      MoreProcessedStep(mappings, mappings, mappings);
      var i := 0;
      while i < |mappings|
        invariant |mappings| == |old(mappings)| == |p.tasks| && i <= |mappings|
        invariant Progress(p, mappings, broken', freeRegister, masm.code)
        invariant Chain(p, mappings, chain) && AtRoot(chain, broken') && (broken != -1 ==> broken' == broken)
        invariant MoreProcessed(old(mappings), mappings) && old(masm.code) <= masm.code
        invariant Checked(p, mappings, broken', k, i)
        decreases |mappings| - i
      {
        ghost var was, broken0 := mappings, broken';
        if !mappings[i].processed {
          var r;
          r, broken' := IsDependent(k, i, p, chain, broken');
          MoreProcessedFlags(was, mappings);
          if r {
            ExtendsChain(p, mappings, chain, i);
            broken' := ProcessTask(i, k, p, chain, broken');
          }
        } else {
          MoreProcessedStep(was, was, was);
        }
        MoreProcessedStep(old(mappings), was, mappings);
        CheckedMore(p, was, mappings, broken0, broken', k, i);
        i := i + 1;
      }
      CheckedAll(p, mappings, broken', k);
    }

    /** A task whose destinations are among its sources has nothing to do. */
    method ReduceNoopTask(task: nat) returns (result: bool)
      requires task < |mappings|
      modifies this`mappings
      ensures result <==> old(mappings)[task].Noop()
      ensures mappings == if result then old(mappings)[task := old(mappings)[task].(processed := true)]
        else old(mappings)
    {
      result := true;
      var t := mappings[task];
      if t.dstReg.Place? && t.srcReg != t.dstReg {
        result := false;
      }
      if t.dstStack.Place? && t.srcStack != t.dstStack {
        result := false;
      }
      if result {
        mappings := mappings[task := t.(processed := true)];
      }
    }

    /** Links the tasks after `x` that share its source. */
    method LinkSame(x: nat, ghost t0: seq<MappingTask>, ghost groups0: seq<seq<nat>>, ghost home0: seq<int>)
      returns (ghost groups: seq<seq<nat>>, ghost home: seq<int>)
      requires Grouped(t0, mappings, groups0, home0) && Visited(mappings, home0, x) && AllSwept(t0, home0, x)
      requires x < |mappings| && !mappings[x].processed
      modifies this`mappings
      ensures |mappings| == |old(mappings)|
      ensures Grouped(t0, mappings, groups, home) && Visited(mappings, home, x + 1) && AllSwept(t0, home, x + 1)
    {
      Open(t0, mappings, groups0, home0, x);
      Sized(t0, mappings, groups0, home0);
      hide Grouped, Visited, AllSwept, Swept;
      groups, home := groups0[x := [x]], home0[x := x];
      var y := x + 1;
      while y < |mappings|
        invariant x < y <= |mappings| == |t0| == |home| == |groups| == |old(mappings)| && home[x] == x
        invariant Grouped(t0, mappings, groups, home) && Visited(mappings, home, x + 1)
        invariant AllSwept(t0, home, x) && Swept(t0, home, x, y)
        invariant forall j :: y <= j < |home| ==> home[j] != x
      {
        SameSources(t0, mappings, groups, home, x, y);
        ghost var home1 := home;
        if mappings[x].SameSource(mappings[y]) {
          Append(t0, mappings, groups, home, x, y);
          AppendKeeps(t0, mappings, home, x, y);
          ghost var t := mappings;
          mappings := mappings[y := mappings[y].(next := mappings[x].next, processed := true)];
          mappings := mappings[x := mappings[x].(next := y)];
          assert mappings == Appended(t, x, y);
          groups, home := groups[x := [x, y] + groups[x][1..]], home[y := x];
        }
        SweptMore(t0, home1, x, y);
        y := y + 1;
      }
      SweptThrough(t0, home, x);
    }

    /** Links tasks with the same source. */
    method Simplify() returns (ghost groups: seq<seq<nat>>, ghost home: seq<int>)
      requires forall i :: 0 <= i < |mappings| ==> Untouched(mappings[i])
      modifies this`mappings
      ensures Done(old(mappings), mappings, groups, home)
    {
      hide Grouped, Visited, AllSwept, Untouched;
      ghost var t0, n := mappings, |mappings|;
      groups, home := seq(n, _ => []), seq(n, _ => -1);
      Start(t0, groups, home);
      var x := 0;
      while x < |mappings|
        invariant x <= |mappings| == |t0|
        invariant Grouped(t0, mappings, groups, home) && Visited(mappings, home, x) && AllSwept(t0, home, x)
      {
        SameSources(t0, mappings, groups, home, x, x);
        if mappings[x].processed {
          PassOver(t0, mappings, groups, home, x);
          assert mappings[x := mappings[x].(processed := true)] == mappings;
        } else {
          ghost var t := mappings;
          var noop := ReduceNoopTask(x);
          if noop {
            PassOver(t0, t, groups, home, x);
          } else {
            groups, home := LinkSame(x, t0, groups, home);
          }
        }
        x := x + 1;
      }
    }

    method ProcessRoot(i: nat, ghost p: Problem)
      requires p.Solvable() && Progress(p, mappings, -1, freeRegister, masm.code) && i < |mappings|
      modifies this, masm
      ensures Progress(p, mappings, -1, freeRegister, masm.code) && |mappings| == |p.tasks|
      ensures MoreProcessed(old(mappings), mappings) && mappings[i].processed
    {
      TaskReady(p, mappings, freeRegister, masm.code, i);
      hide *;
      ghost var broken := ProcessTask(i, -1, p, [], -1);
      NoneBroken(broken);
    }

    method ProcessTasks(ghost p: Problem)
      requires p.Solvable() && Progress(p, mappings, -1, freeRegister, masm.code)
      modifies this, masm
      ensures Progress(p, mappings, -1, freeRegister, masm.code) && |mappings| == |p.tasks|
      ensures ProcessedBelow(mappings, |mappings|)
    {
      ProgressSize(p, mappings, -1, freeRegister, masm.code);
      SolvableShaped(p);
      hide *;
      var i := 0;
      while i < |mappings|
        invariant i <= |mappings| == |p.tasks|
        invariant Progress(p, mappings, -1, freeRegister, masm.code)
        invariant ProcessedBelow(mappings, i)
      {
        ghost var was := mappings;
        ProcessRoot(i, p);
        ProcessedMore(was, mappings, i);
        i := i + 1;
      }
    }

    /** The emitted moves carry out all tasks as one simultaneous assignment: every destination ends up
        with the value its task's source places had at the start, nothing else changes but the spare
        register, and the push stack is balanced. */
    method Generate(freeRegister1: Variable, ghost rank: seq<nat>)
      requires Resolvable(mappings, freeRegister1, rank) && masm.code == []
      modifies this, masm
      ensures Resolved(old(mappings), freeRegister1, masm.code)
    {
      ghost var t0 := mappings;
      assert forall i :: 0 <= i < |mappings| ==> Untouched(mappings[i]);
      hide Resolvable, Resolved, Progress, Done;
      freeRegister := freeRegister1;
      ghost var groups, home := Simplify();
      ghost var t := mappings;
      ghost var p := Problem(t, groups, freeRegister1, rank);
      GroupsSolvable(t0, t, groups, home, p);
      SolvableShaped(p);
      StartProgress(t0, t, groups, home, p);
      ProcessTasks(p);
      ProgressSize(p, mappings, -1, freeRegister, masm.code);
      AllProcessed(t0, t, groups, home, p, mappings, masm.code);
      freeRegister := Absent;
    }
  }

  lemma Sized(t0: seq<MappingTask>, t: seq<MappingTask>, groups: seq<seq<nat>>, home: seq<int>)
    requires Grouped(t0, t, groups, home)
    ensures |t| == |t0| == |groups| == |home|
  {}

  lemma SameSources(t0: seq<MappingTask>, t: seq<MappingTask>, groups: seq<seq<nat>>, home: seq<int>, x: nat, y: nat)
    requires Grouped(t0, t, groups, home) && x < |t| && y < |t|
    ensures |t| == |t0| == |groups| == |home|
    ensures t[x].SameSource(t[y]) <==> t0[x].SameSource(t0[y])
    ensures t[x].Noop() <==> t0[x].Noop()
  {}

  lemma SweptThrough(t0: seq<MappingTask>, home: seq<int>, x: nat)
    requires AllSwept(t0, home, x) && Swept(t0, home, x, |t0|)
    ensures AllSwept(t0, home, x + 1)
  {}

  lemma TaskReady(p: Problem, tasks: seq<MappingTask>, free: Variable, code: Code, i: nat)
    requires p.Solvable() && Progress(p, tasks, -1, free, code) && i < |tasks|
    ensures |tasks| == |p.tasks| && Chain(p, tasks, []) && AtRoot([], -1)
    ensures !tasks[i].processed ==> Extends(p, [], i)
  {}

  predicate ProcessedBelow(tasks: seq<MappingTask>, n: nat) {
    n <= |tasks| && forall i :: 0 <= i < n ==> tasks[i].processed
  }

  lemma ProcessedMore(was: seq<MappingTask>, tasks: seq<MappingTask>, n: nat)
    requires ProcessedBelow(was, n) && MoreProcessed(was, tasks) && n < |tasks| && tasks[n].processed
    ensures ProcessedBelow(tasks, n + 1)
  {}

  lemma NoneBroken(broken: int)
    requires AtRoot([], broken)
    ensures broken == -1
  {}

  lemma SolvableShaped(p: Problem)
    requires p.Solvable()
    ensures p.Shaped()
  {}

  lemma ProgressSize(p: Problem, tasks: seq<MappingTask>, broken: int, free: Variable, code: Code)
    requires p.Solvable() && Progress(p, tasks, broken, free, code)
    ensures |tasks| == |p.tasks| && free == if broken == -1 then p.free else Absent
  {}

  /** Same processed flags and parents. */
  predicate SameFlags(a: seq<MappingTask>, b: seq<MappingTask>) {
    |a| == |b| && forall i :: 0 <= i < |a| ==> a[i].processed == b[i].processed && a[i].parent == b[i].parent
  }

  lemma ProgressFacts(p: Problem, tasks: seq<MappingTask>, broken: int, free: Variable, code: Code, task: nat)
    requires p.Solvable() && Progress(p, tasks, broken, free, code) && task < |tasks| && !tasks[task].processed
    ensures Tracks(p, tasks, broken) && |tasks| == |p.tasks| && p.IsHead(task) && p.Linked()
    ensures free == if broken == -1 then p.free else Absent
  {}

  /** The m-th task of a group: its link, and its destinations as targets of the group. */
  lemma Member(p: Problem, tasks: seq<MappingTask>, broken: int, k: nat, m: nat)
    requires p.Linked() && p.IsHead(k) && Tracks(p, tasks, broken) && m < |p.groups[k]|
    ensures p.groups[k][m] < |tasks|
    ensures tasks[p.groups[k][m]].next == if m + 1 < |p.groups[k]| then p.groups[k][m + 1] else -1
    ensures tasks[p.groups[k][m]].Dsts() == p.tasks[p.groups[k][m]].Dsts() <= p.Targets(k)
    ensures tasks[p.groups[k][m]].dstReg == p.tasks[p.groups[k][m]].dstReg
    ensures tasks[p.groups[k][m]].dstStack == p.tasks[p.groups[k][m]].dstStack
    ensures p.tasks[p.groups[k][m]].WellTyped()
  {
    var i := p.groups[k][m];
    assert i < |p.tasks| && i in p.groups[k];
  }

  lemma ParentOf(p: Problem, tasks: seq<MappingTask>, chain: seq<nat>, m: nat)
    requires p.Shaped() && |tasks| == |p.tasks| && Chain(p, tasks, chain) && m < |chain|
    ensures chain[m] < |tasks| && tasks[chain[m]].parent == if m == 0 then -1 else chain[m - 1]
  {}

  lemma ChainFacts(p: Problem, tasks: seq<MappingTask>, chain: seq<nat>)
    requires p.Shaped() && |tasks| == |p.tasks| && Chain(p, tasks, chain)
    ensures forall k :: 0 <= k < |chain| ==> p.IsHead(chain[k]) && !tasks[chain[k]].processed
    ensures forall k, m :: 0 <= k < m < |chain| ==> chain[k] != chain[m]
  {}

  /** The overlap test of the code against the problem's own terms. */
  lemma Overlap(p: Problem, tasks: seq<MappingTask>, broken: int, k: nat, task: nat, reg: bool, stack: bool)
    requires p.Solvable() && Tracks(p, tasks, broken) && p.IsHead(k) && task < |tasks| && !tasks[task].processed
    requires reg <==> tasks[task].srcReg.Place? && tasks[task].srcReg.op in p.Targets(k)
    requires stack <==> tasks[task].srcStack.Place? && tasks[task].srcStack.op in p.Targets(k)
    ensures p.IsHead(task)
    ensures (reg || stack) ==> task != broken && p.Threatens(k, task)
    ensures !(reg || stack) ==> task == broken || p.Targets(k) !! p.Sources(task)
  {}

  lemma BreakAllowed(p: Problem, tasks: seq<MappingTask>, chain: seq<nat>, broken: int, free: Variable, code: Code,
                     m: nat)
    requires p.Solvable() && Progress(p, tasks, broken, free, code) && AtRoot(chain, broken)
    requires m < |chain| && m == 0 && chain[m] != broken && p.free.Place?
    ensures broken == -1 && free == p.free
  {}

  lemma BreakChain(p: Problem, tasks: seq<MappingTask>, chain: seq<nat>, task: nat)
    requires p.Shaped() && |tasks| == |p.tasks| && task < |tasks| && Chain(p, tasks, chain)
    ensures Chain(p, Broken(p, tasks, task), chain) && SameFlags(tasks, Broken(p, tasks, task))
  {}

  /** A head still to do finds its value in its source places. */
  lemma SourceHeld(p: Problem, tasks: seq<MappingTask>, broken: int, free: Variable, code: Code, k: nat)
    requires p.Solvable() && Progress(p, tasks, broken, free, code) && p.IsHead(k) && !tasks[k].processed
    ensures Pushes(code, []) && tasks[k].WellTyped()
    ensures tasks[k].srcReg.Place? ==> Delivered(code, tasks[k].srcReg.op, p.Sources(k))
    ensures tasks[k].srcStack.Place? ==> Delivered(code, tasks[k].srcStack.op, p.Sources(k))
    ensures free.Place? ==> free.op.Reg? && free.op in Writable(p, k, broken)
  {
    hide Pushes, Copies;
    if k != broken {
      var t := tasks[k];
      assert t.SameSource(p.tasks[k]) && p.tasks[k].WellTyped();
      forall s | s in p.Sources(k)
        ensures Copies(code, s, s)
      {}
    }
  }

  lemma EmitDone(p: Problem, k: nat, broken: int, c0: Code, code: Code, from: Operand, done: set<Operand>)
    requires p.Shaped() && p.IsHead(k) && Emitting(p.Sources(k), c0, code, Writable(p, k, broken), from, done)
    requires p.Targets(k) <= done
    ensures Emitted(p, k, broken, c0, code) && c0 <= code
  {
    hide Pushes, Keeps, Delivered;
  }

  ghost function Rest(n: nat, chain: seq<nat>): set<nat> {
    set i: nat | i < n && i !in chain
  }

  lemma RestShrinks(n: nat, chain: seq<nat>, k: nat)
    requires k < n && k !in chain
    ensures Rest(n, chain + [k]) < Rest(n, chain)
  {
    assert k in Rest(n, chain) && k !in Rest(n, chain + [k]);
  }

  /** `k` may be processed next, below the end of the chain. */
  ghost predicate Extends(p: Problem, chain: seq<nat>, k: nat)
    requires p.Shaped()
  {
    && p.IsHead(k) && k !in chain
    && (chain != [] ==> p.IsHead(chain[|chain| - 1]) && p.Threatens(chain[|chain| - 1], k))
  }

  lemma ExtendsChain(p: Problem, tasks: seq<MappingTask>, chain: seq<nat>, k: nat)
    requires p.Shaped() && |tasks| == |p.tasks| && Chain(p, tasks, chain) && chain != []
    requires p.IsHead(chain[|chain| - 1]) && p.IsHead(k) && k !in chain && p.Threatens(chain[|chain| - 1], k)
    ensures Extends(p, chain, k)
  {}

  lemma ChainEnd(p: Problem, tasks: seq<MappingTask>, chain: seq<nat>)
    requires p.Shaped() && |tasks| == |p.tasks| && Chain(p, tasks, chain) && chain != []
    ensures p.IsHead(chain[|chain| - 1]) && !tasks[chain[|chain| - 1]].processed
  {}

  /** No task has become unprocessed. */
  predicate MoreProcessed(a: seq<MappingTask>, b: seq<MappingTask>) {
    |a| == |b| && forall i :: 0 <= i < |a| && a[i].processed ==> b[i].processed
  }

  lemma MoreProcessedStep(a: seq<MappingTask>, b: seq<MappingTask>, c: seq<MappingTask>)
    requires a == b == c || (MoreProcessed(a, b) && MoreProcessed(b, c))
    ensures MoreProcessed(a, c)
  {}

  lemma MoreProcessedFlags(a: seq<MappingTask>, b: seq<MappingTask>)
    requires SameFlags(a, b)
    ensures MoreProcessed(a, b)
  {}

  /** Tasks below n are done or do not have to be done before `k`. */
  ghost predicate Checked(p: Problem, tasks: seq<MappingTask>, broken: int, k: nat, n: int)
    requires p.Shaped() && p.IsHead(k) && |tasks| == |p.tasks|
  {
    forall g :: p.IsHead(g) && g < n && !tasks[g].processed && g != k && g != broken ==> p.Targets(k) !! p.Sources(g)
  }

  lemma CheckedNone(p: Problem, tasks: seq<MappingTask>, broken: int, k: nat)
    requires p.Shaped() && p.IsHead(k) && |tasks| == |p.tasks|
    ensures Checked(p, tasks, broken, k, 0)
  {}

  lemma CheckedMore(p: Problem, a: seq<MappingTask>, b: seq<MappingTask>, broken: int, broken': int, k: nat, n: nat)
    requires p.Shaped() && p.IsHead(k) && |a| == |b| == |p.tasks| && MoreProcessed(a, b) && n < |a|
    requires Checked(p, a, broken, k, n) && (broken != -1 ==> broken' == broken)
    requires b[n].processed || n == k || n == broken' || (n < |p.tasks| && p.Targets(k) !! p.Sources(n))
    ensures Checked(p, b, broken', k, n + 1)
  {}

  lemma CheckedAll(p: Problem, tasks: seq<MappingTask>, broken: int, k: nat)
    requires p.Shaped() && p.IsHead(k) && |tasks| == |p.tasks| && Checked(p, tasks, broken, k, |tasks|)
    ensures Unthreatening(p, tasks, broken, k)
  {}

  lemma ParentTracks(p: Problem, tasks: seq<MappingTask>, broken: int, k: nat, parent: int)
    requires p.Shaped() && Tracks(p, tasks, broken) && k < |tasks|
    ensures Tracks(p, tasks[k := tasks[k].(parent := parent)], broken)
  {}

  lemma ParentProgress(p: Problem, tasks: seq<MappingTask>, broken: int, free: Variable, code: Code, k: nat,
                       parent: int)
    requires p.Shaped() && Progress(p, tasks, broken, free, code) && k < |tasks|
    ensures Progress(p, tasks[k := tasks[k].(parent := parent)], broken, free, code)
  {
    hide Pushes, Copies, Delivered, Tracks;
    ParentTracks(p, tasks, broken, k, parent);
    var tasks' := tasks[k := tasks[k].(parent := parent)];
    assert forall g :: 0 <= g < |tasks| ==> tasks'[g].processed == tasks[g].processed;
    TracksSize(p, tasks, broken);
  }

  lemma TracksSize(p: Problem, tasks: seq<MappingTask>, broken: int)
    requires Tracks(p, tasks, broken)
    ensures |tasks| == |p.tasks|
  {}

  lemma ParentUnthreatening(p: Problem, tasks: seq<MappingTask>, broken: int, k: nat)
    requires p.Shaped() && p.IsHead(k) && |tasks| == |p.tasks| && Unthreatening(p, tasks, broken, k)
    ensures Unthreatening(p, tasks[k := tasks[k].(parent := -1)], broken, k)
  {}

  lemma ChainExtended(p: Problem, tasks: seq<MappingTask>, chain: seq<nat>, broken: int, k: nat, parent: int)
    requires p.Shaped() && |tasks| == |p.tasks| && Chain(p, tasks, chain) && AtRoot(chain, broken)
    requires k < |tasks| && !tasks[k].processed && Extends(p, chain, k)
    requires parent == if chain == [] then -1 else chain[|chain| - 1]
    ensures var tasks' := tasks[k := tasks[k].(parent := parent)];
      Chain(p, tasks', chain + [k]) && AtRoot(chain + [k], broken) && MoreProcessed(tasks, tasks')
    ensures k !in chain && p.IsHead(k)
  {}

  lemma ChainShortened(p: Problem, tasks: seq<MappingTask>, chain: seq<nat>, k: nat)
    requires p.Shaped() && |tasks| == |p.tasks| && Chain(p, tasks, chain + [k])
    ensures k < |tasks| && p.IsHead(k) && !tasks[k].processed && k !in chain
    ensures var tasks' := tasks[k := tasks[k].(parent := -1)];
      Chain(p, tasks', chain) && MoreProcessed(tasks, tasks')
  {
    var longer := chain + [k];
    assert longer[|chain|] == k;
    forall m | 0 <= m < |chain|
      ensures chain[m] != k && p.IsHead(chain[m]) && !tasks[chain[m]].processed
      ensures tasks[chain[m]].parent == if m == 0 then -1 else chain[m - 1]
      ensures m > 0 ==> p.Threatens(chain[m - 1], chain[m])
    {
      assert longer[m] == chain[m] && (m > 0 ==> longer[m - 1] == chain[m - 1]);
    }
    forall a, m | 0 <= a < m < |chain|
      ensures chain[a] != chain[m]
    {
      assert longer[a] == chain[a] && longer[m] == chain[m];
    }
  }

  lemma FreedRegister(p: Problem, tasks: seq<MappingTask>, broken: int, free: Variable, code: Code, k: nat)
    requires p.Solvable() && Progress(p, tasks, broken, free, code) && p.IsHead(k) && k < |tasks| && !tasks[k].processed
    ensures tasks[k].variableToFree == (if k == broken then p.free else Absent)
    ensures k == broken ==> p.free.Place? && p.free.op.Reg?
  {}

  lemma ChainFinished(p: Problem, tasks: seq<MappingTask>, chain: seq<nat>, broken: int, k: nat)
    requires p.Shaped() && |tasks| == |p.tasks| && k < |tasks| && Chain(p, tasks, chain) && k !in chain
    requires AtRoot(chain + [k], broken)
    ensures Chain(p, Finished(tasks, k), chain) && MoreProcessed(tasks, Finished(tasks, k))
    ensures AtRoot(chain, if k == broken then -1 else broken)
  {}
}
