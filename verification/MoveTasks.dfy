/** Parallel moves as a list of tasks, each from one or two source places holding the same value to
    one or two destinations; and what it means for emitted code to have carried some of them out. */
module MoveTasks {
  import opened Machine

  datatype Variable = Absent | Place(op: Operand)

  function Ops(a: Variable, b: Variable): set<Operand> {
    (if a.Place? then {a.op} else {}) + (if b.Place? then {b.op} else {})
  }

  /** `next` links tasks with the same source, `parent` the tasks being processed; -1 ends both. */
  datatype MappingTask = MappingTask(
    srcReg: Variable, srcStack: Variable, dstReg: Variable, dstStack: Variable,
    next: int, parent: int, processed: bool, variableToFree: Variable)
  {
    function Srcs(): set<Operand> { Ops(srcReg, srcStack) }

    function Dsts(): set<Operand> { Ops(dstReg, dstStack) }

    predicate SameSource(other: MappingTask) {
      srcReg == other.srcReg && srcStack == other.srcStack
    }

    predicate WellTyped() {
      && (srcReg.Place? ==> srcReg.op.Reg?) && (srcStack.Place? ==> srcStack.op.Frame?)
      && (dstReg.Place? ==> dstReg.op.Reg?) && (dstStack.Place? ==> dstStack.op.Frame?)
      && (srcReg.Place? || srcStack.Place?)
    }

    /** The destination is a subset of the source. */
    predicate Noop() {
      && (dstReg.Place? ==> srcReg == dstReg)
      && (dstStack.Place? ==> srcStack == dstStack)
    }
  }

  /** Tasks grouped by source. `groups[h]` lists the tasks linked to head `h`, `h` first; it is empty
      for tasks that are no heads. `free` is a spare register, if there is one; otherwise `rank` shows
      that the moves are not cyclic. */
  datatype Problem = Problem(tasks: seq<MappingTask>, groups: seq<seq<nat>>, free: Variable, rank: seq<nat>)
  {
    predicate IsHead(h: int) {
      0 <= h < |tasks| && h < |groups| && groups[h] != []
    }

    ghost function Targets(h: nat): set<Operand>
      requires Shaped() && IsHead(h)
    {
      set m, o | m in groups[h] && o in tasks[m].Dsts() :: o
    }

    function Sources(h: nat): set<Operand>
      requires h < |tasks|
    {
      tasks[h].Srcs()
    }

    ghost predicate Shaped() {
      && |groups| == |tasks|
      && (forall h, k :: 0 <= h < |groups| && 0 <= k < |groups[h]| ==> groups[h][k] < |tasks|)
    }

    /** Moving to the targets of `g` overwrites a source of `h`. */
    ghost predicate Threatens(g: nat, h: nat)
      requires Shaped() && IsHead(g) && IsHead(h)
    {
      Targets(g) * Sources(h) != {}
    }

    ghost predicate Linked() {
      && Shaped()
      && (forall h :: IsHead(h) ==> groups[h][0] == h)
      && (forall h, k :: IsHead(h) && 0 <= k < |groups[h]| ==>
            tasks[groups[h][k]].next == if k + 1 < |groups[h]| then groups[h][k + 1] else -1)
      && (forall h :: 0 <= h < |tasks| ==> tasks[h].WellTyped())
    }

    ghost predicate Spare() {
      && Shaped()
      && (free.Place? ==> free.op.Reg?)
      && (forall h :: IsHead(h) && free.Place? ==> free.op !in Targets(h) && free.op !in Sources(h))
      && |rank| == |tasks|
      && (free.Absent? ==> forall g, h :: IsHead(g) && IsHead(h) && g != h && Threatens(g, h) ==> rank[h] < rank[g])
    }

    /** Targets of different heads are disjoint, and every head is threatened by at most one other. */
    ghost predicate Solvable() {
      && Linked() && Spare()
      && (forall g, h :: IsHead(g) && IsHead(h) && g != h ==> Targets(g) !! Targets(h))
      && (forall f, g, h ::
            IsHead(f) && IsHead(g) && IsHead(h) && f != h && g != h && Threatens(f, h) && Threatens(g, h) ==> f == g)
    }
  }

  /** `d` has been given the start value of one of the places `srcs`. */
  ghost predicate Delivered(code: Code, d: Operand, srcs: set<Operand>) {
    exists s :: s in srcs && Copies(code, d, s)
  }

  // ---- the state while tasks are being processed ------------------------------------------------

  /** The task list differs from the problem's only in flags, parents and in the source of the one
      broken head (if `broken` is not -1), whose value is kept in the spare register. */
  ghost predicate Tracks(p: Problem, tasks: seq<MappingTask>, broken: int) {
    && |tasks| == |p.tasks|
    && (forall k :: 0 <= k < |tasks| ==>
          && tasks[k].dstReg == p.tasks[k].dstReg && tasks[k].dstStack == p.tasks[k].dstStack
          && tasks[k].next == p.tasks[k].next
          && (k != broken && !tasks[k].processed ==>
               tasks[k].SameSource(p.tasks[k]) && tasks[k].variableToFree == Absent)
          && (!p.IsHead(k) ==> tasks[k].processed))
    && (broken != -1 ==>
          && p.free.Place? && p.IsHead(broken) && !tasks[broken].processed
          && tasks[broken].srcReg == p.free && tasks[broken].srcStack == Absent
          && tasks[broken].variableToFree == p.free)
  }

  /** What the code has done: processed heads are delivered, places no processed head targets are as
      at the start (but for the spare register), and no head still to do has lost its source. */
  ghost predicate Progress(p: Problem, tasks: seq<MappingTask>, broken: int, free: Variable, code: Code)
    requires p.Shaped()
  {
    && Tracks(p, tasks, broken)
    && free == (if broken == -1 then p.free else Absent)
    && Pushes(code, [])
    && (broken != -1 ==> Delivered(code, p.free.op, p.Sources(broken)))
    && (forall h, d :: p.IsHead(h) && tasks[h].processed && d in p.Targets(h) ==> Delivered(code, d, p.Sources(h)))
    && (forall v :: Place(v) != p.free && (forall h :: p.IsHead(h) && tasks[h].processed ==> v !in p.Targets(h)) ==>
         Copies(code, v, v))
    && (forall g, h :: p.IsHead(g) && p.IsHead(h) && tasks[g].processed && !tasks[h].processed && h != broken ==>
          p.Targets(g) !! p.Sources(h))
  }

  /** The tasks on the way down to the one being processed: each is overwritten by the one above it. */
  ghost predicate Chain(p: Problem, tasks: seq<MappingTask>, chain: seq<nat>)
    requires p.Shaped() && |tasks| == |p.tasks|
  {
    && (forall k :: 0 <= k < |chain| ==> p.IsHead(chain[k]) && !tasks[chain[k]].processed)
    && (forall k :: 0 <= k < |chain| ==> tasks[chain[k]].parent == if k == 0 then -1 else chain[k - 1])
    && (forall k, m :: 0 <= k < m < |chain| ==> chain[k] != chain[m])
    && (forall k :: 0 < k < |chain| ==> p.Threatens(chain[k - 1], chain[k]))
  }

  ghost predicate AtRoot(chain: seq<nat>, broken: int) {
    broken == -1 || (chain != [] && broken == chain[0])
  }

  lemma PreviousThreat(p: Problem, tasks: seq<MappingTask>, chain: seq<nat>, k: nat)
    requires p.Shaped() && |tasks| == |p.tasks| && Chain(p, tasks, chain) && 0 < k < |chain|
    ensures p.IsHead(chain[k - 1]) && p.IsHead(chain[k]) && p.Threatens(chain[k - 1], chain[k])
    ensures forall m :: k <= m < |chain| ==> chain[k - 1] != chain[m]
  {}

  /** Only the root of the chain can be threatened from its end: the cycle closes there, and only
      where there is a spare register. */
  lemma CycleAtRoot(p: Problem, tasks: seq<MappingTask>, chain: seq<nat>, k: nat)
    requires p.Solvable() && |tasks| == |p.tasks| && Chain(p, tasks, chain)
    requires chain != [] && k < |chain| - 1 && p.Threatens(chain[|chain| - 1], chain[k])
    ensures k == 0 && p.free.Place?
  {
    if k > 0 {
      PreviousThreat(p, tasks, chain, k);
    }
    if p.free.Absent? {
      RankFalls(p, tasks, chain, 0, |chain| - 1);
    }
  }

  lemma {:induction false} RankFalls(p: Problem, tasks: seq<MappingTask>, chain: seq<nat>, i: nat, j: nat)
    requires p.Solvable() && |tasks| == |p.tasks| && Chain(p, tasks, chain)
    requires i <= j < |chain| && p.free.Absent?
    ensures p.IsHead(chain[i]) && p.IsHead(chain[j]) && p.rank[chain[j]] <= p.rank[chain[i]]
    ensures i < j ==> p.rank[chain[j]] < p.rank[chain[i]]
    decreases j
  {
    if i < j {
      RankFalls(p, tasks, chain, i, j - 1);
      assert p.Threatens(chain[j - 1], chain[j]);
    }
  }

  // ---- emitting the code of one group ---------------------------------------------------------------

  /** Every copy that `c0` had made is still there after `c1`, except in the places `w`. */
  ghost predicate Keeps(c0: Code, c1: Code, w: set<Operand>) {
    forall v, s: Operand {:trigger Copies(c0, v, s)} {:trigger Copies(c1, v, s)} :: v !in w && Copies(c0, v, s) ==>
      Copies(c1, v, s)
  }

  /** `from` holds a value of `srcs`, which has been delivered to `done`; only `w` has been written. */
  ghost predicate Emitting(srcs: set<Operand>, c0: Code, code: Code, w: set<Operand>, from: Operand,
                           done: set<Operand>) {
    && c0 <= code && Pushes(code, []) && Keeps(c0, code, w)
    && Delivered(code, from, srcs)
    && forall d :: d in done ==> Delivered(code, d, srcs)
  }

  lemma DeliveredMovl(code: Code, d: Operand, srcs: set<Operand>, dst: Operand, src: Operand)
    requires Delivered(code, if d == dst then src else d, srcs)
    ensures Delivered(code + [Movl(dst, src)], d, srcs)
  {
    hide Copies;
    if d == dst {
      var s :| s in srcs && Copies(code, src, s);
      MovlCopies(code, dst, src, s);
    } else {
      var s :| s in srcs && Copies(code, d, s);
      MovlKeeps(code, dst, src, d, s);
    }
  }

  lemma KeepsMovl(c0: Code, code: Code, w: set<Operand>, dst: Operand, src: Operand)
    requires Keeps(c0, code, w) && dst in w
    ensures Keeps(c0, code + [Movl(dst, src)], w)
  {
    hide Copies;
    forall v, s: Operand | v !in w && Copies(c0, v, s)
      ensures Copies(code + [Movl(dst, src)], v, s)
    {
      MovlKeeps(code, dst, src, v, s);
    }
  }

  /** One more move from the place that holds the value. */
  lemma EmitMove(srcs: set<Operand>, c0: Code, code: Code, w: set<Operand>, from: Operand, done: set<Operand>,
                 dst: Operand)
    requires Emitting(srcs, c0, code, w, from, done) && dst in w && (dst.Reg? || from.Reg?)
    ensures Emitting(srcs, c0, code + [Movl(dst, from)], w, from, done + {dst})
  {
    hide Delivered, Keeps, Pushes;
    MovlPushes(code, [], dst, from);
    KeepsMovl(c0, code, w, dst, from);
    DeliveredMovl(code, from, srcs, dst, from);
    forall d | d in done + {dst}
      ensures Delivered(code + [Movl(dst, from)], d, srcs)
    {
      DeliveredMovl(code, d, srcs, dst, from);
    }
  }

  /** One more copy over the push stack, for want of a register. */
  lemma EmitPushPop(srcs: set<Operand>, c0: Code, code: Code, w: set<Operand>, from: Operand, done: set<Operand>,
                    dst: Operand)
    requires Emitting(srcs, c0, code, w, from, done) && dst in w && dst != from
    ensures Emitting(srcs, c0, code + [Pushl(from)] + [Popl(dst)], w, from, done + {dst})
  {
    hide Keeps, Pushes, Copies;
    var c1 := code + [Pushl(from)];
    var s :| s in srcs && Copies(code, from, s);
    PushlPushes(code, [], from, s);
    assert [] + [s] == [s];
    PoplPushes(c1, [s], dst);
    assert [s][..0] == [];
    PushPopKeeps(c0, code, w, from, dst);
    forall d | d in done + {dst, from} && d != dst
      ensures Delivered(c1 + [Popl(dst)], d, srcs)
    {
      var x :| x in srcs && Copies(code, d, x);
      PushlKeeps(code, from, d, x);
      PoplKeeps(c1, dst, d, x);
    }
  }

  lemma PushPopKeeps(c0: Code, code: Code, w: set<Operand>, from: Operand, dst: Operand)
    requires Keeps(c0, code, w) && dst in w
    ensures Keeps(c0, code + [Pushl(from)] + [Popl(dst)], w)
  {
    hide Copies;
    var c1 := code + [Pushl(from)];
    forall v, s: Operand | v !in w && Copies(c0, v, s)
      ensures Copies(c1 + [Popl(dst)], v, s)
    {
      PushlKeeps(code, from, v, s);
      PoplKeeps(c1, dst, v, s);
    }
  }

  lemma EmitStart(srcs: set<Operand>, c0: Code, w: set<Operand>, from: Operand, done: set<Operand>)
    requires Pushes(c0, []) && Delivered(c0, from, srcs) && forall d :: d in done ==> Delivered(c0, d, srcs)
    ensures Emitting(srcs, c0, c0, w, from, done)
  {}

  lemma EmitSwitch(srcs: set<Operand>, c0: Code, code: Code, w: set<Operand>, from: Operand, done: set<Operand>,
                   from': Operand)
    requires Emitting(srcs, c0, code, w, from, done) && from' in done
    ensures Emitting(srcs, c0, code, w, from', done)
  {}

  // ---- progress from task to task --------------------------------------------------------------------

  function OpOf(v: Variable): set<Operand> {
    if v.Place? then {v.op} else {}
  }

  /** What emitting the code of head `h` may write: its targets, and the spare register while it does
      not keep a broken head's value. */
  ghost function Writable(p: Problem, h: nat, broken: int): set<Operand>
    requires p.Shaped() && p.IsHead(h)
  {
    p.Targets(h) + if broken == -1 then OpOf(p.free) else {}
  }

  /** No other head still to do has its source among the targets of `h`. */
  ghost predicate Unthreatening(p: Problem, tasks: seq<MappingTask>, broken: int, h: nat)
    requires p.Shaped() && p.IsHead(h) && |tasks| == |p.tasks|
  {
    forall g :: p.IsHead(g) && !tasks[g].processed && g != h && g != broken ==> p.Targets(h) !! p.Sources(g)
  }

  ghost predicate Emitted(p: Problem, h: nat, broken: int, c0: Code, code: Code)
    requires p.Shaped() && p.IsHead(h)
  {
    && Pushes(code, []) && Keeps(c0, code, Writable(p, h, broken))
    && forall d :: d in p.Targets(h) ==> Delivered(code, d, p.Sources(h))
  }

  function Finished(tasks: seq<MappingTask>, h: nat): seq<MappingTask>
    requires h < |tasks|
  {
    tasks[h := tasks[h].(processed := true, parent := -1)]
  }

  lemma DeliveredKept(c0: Code, c1: Code, w: set<Operand>, d: Operand, srcs: set<Operand>)
    requires Keeps(c0, c1, w) && d !in w && Delivered(c0, d, srcs)
    ensures Delivered(c1, d, srcs)
  {
    hide Copies;
  }

  /** After its code, a head is done and progress is kept. */
  lemma FinishTask(p: Problem, tasks: seq<MappingTask>, broken: int, free: Variable, c0: Code, code: Code, h: nat)
    requires p.Solvable() && Progress(p, tasks, broken, free, c0) && p.IsHead(h) && !tasks[h].processed
    requires Unthreatening(p, tasks, broken, h) && Emitted(p, h, broken, c0, code)
    ensures Progress(p, Finished(tasks, h), if h == broken then -1 else broken, if h == broken then p.free
      else free, code)
  {
    hide Copies, Pushes, Delivered, Keeps;
    var tasks', broken' := Finished(tasks, h), if h == broken then -1 else broken;
    FinishTracks(p, tasks, broken, h);
    var w := Writable(p, h, broken);
    if broken' != -1 {
      DeliveredKept(c0, code, w, p.free.op, p.Sources(broken'));
    }
    forall g, d | p.IsHead(g) && tasks'[g].processed && d in p.Targets(g)
      ensures Delivered(code, d, p.Sources(g))
    {
      if g != h {
        assert p.Targets(g) !! p.Targets(h);
        DeliveredKept(c0, code, w, d, p.Sources(g));
      }
    }
    FinishUntouched(p, tasks, broken, free, c0, code, h);
  }

  lemma FinishTracks(p: Problem, tasks: seq<MappingTask>, broken: int, h: nat)
    requires p.Shaped() && Tracks(p, tasks, broken) && p.IsHead(h) && !tasks[h].processed
    ensures Tracks(p, Finished(tasks, h), if h == broken then -1 else broken)
  {}

  lemma FinishUntouched(p: Problem, tasks: seq<MappingTask>, broken: int, free: Variable, c0: Code, code: Code, h: nat)
    requires p.Solvable() && Progress(p, tasks, broken, free, c0) && p.IsHead(h) && !tasks[h].processed
    requires Emitted(p, h, broken, c0, code)
    ensures forall v ::
      Place(v) != p.free && (forall g :: p.IsHead(g) && Finished(tasks, h)[g].processed ==> v !in p.Targets(g)) ==>
        Copies(code, v, v)
  {
    hide Copies, Pushes, Delivered;
    var tasks' := Finished(tasks, h);
    forall v | Place(v) != p.free && (forall g :: p.IsHead(g) && tasks'[g].processed ==> v !in p.Targets(g))
      ensures Copies(code, v, v)
    {
      assert v !in p.Targets(h) by { assert tasks'[h].processed; }
      forall g | p.IsHead(g) && tasks[g].processed
        ensures v !in p.Targets(g)
      {
        assert tasks'[g].processed;
      }
      assert Copies(c0, v, v);
    }
  }

  /** The place a broken head's value is saved from. */
  function SavedFrom(t: MappingTask): Operand
    requires t.srcReg.Place? || t.srcStack.Place?
  {
    if t.srcReg.Place? then t.srcReg.op else t.srcStack.op
  }

  function Broken(p: Problem, tasks: seq<MappingTask>, i: nat): seq<MappingTask>
    requires i < |tasks|
  {
    tasks[i := tasks[i].(srcReg := p.free, srcStack := Absent, variableToFree := p.free)]
  }

  /** Breaking a cycle: the head's value moves to the spare register. */
  lemma BreakTask(p: Problem, tasks: seq<MappingTask>, free: Variable, code: Code, i: nat)
    requires p.Solvable() && Progress(p, tasks, -1, free, code) && p.IsHead(i) && !tasks[i].processed && p.free.Place?
    ensures tasks[i].srcReg.Place? || tasks[i].srcStack.Place?
    ensures Progress(p, Broken(p, tasks, i), i, Absent, code + [Movl(p.free.op, SavedFrom(tasks[i]))])
  {
    var s, f := SavedFrom(tasks[i]), p.free.op;
    assert tasks[i].SameSource(p.tasks[i]) && p.tasks[i].WellTyped();
    assert s in p.Sources(i);
    hide Pushes, Copies;
    assert Copies(code, s, s);
    assert Delivered(code, s, p.Sources(i));
    DeliveredMovl(code, f, p.Sources(i), f, s);
    MovlPushes(code, [], f, s);
    hide Delivered;
    var code' := code + [Movl(f, s)];
    forall h, d | p.IsHead(h) && tasks[h].processed && d in p.Targets(h)
      ensures Delivered(code', d, p.Sources(h))
    {
      DeliveredMovl(code, d, p.Sources(h), f, s);
    }
    forall v | Copies(code, v, v) && v != f
      ensures Copies(code', v, v)
    {
      MovlKeeps(code, f, s, v, v);
    }
  }
}
