/** Linking tasks with the same source into groups: the invariant of `MapConformance::simplify`, and
    why its result can be resolved by moving group after group. */
module MappingGroups {
  import opened Machine
  import opened MoveTasks

  predicate Untouched(t: MappingTask) {
    t.next == -1 && t.parent == -1 && !t.processed && t.variableToFree == Absent
  }

  predicate Overwrites(a: MappingTask, c: MappingTask) {
    a.Dsts() * c.Srcs() != {}
  }

  /** What the resolver may be asked to do: destinations are pairwise disjoint; at most one other source
      has its moves overwrite a given source (always so if every task has a single source place); and
      there is a spare register that no task names, or else `rank` shows that the moves are not cyclic. */
  ghost predicate Resolvable(tasks: seq<MappingTask>, free: Variable, rank: seq<nat>) {
    && (forall i :: 0 <= i < |tasks| ==> Untouched(tasks[i]) && tasks[i].WellTyped())
    && (forall i, j :: 0 <= i < j < |tasks| ==> tasks[i].Dsts() !! tasks[j].Dsts())
    && (forall a, b, c :: 0 <= a < |tasks| && 0 <= b < |tasks| && 0 <= c < |tasks|
          && Overwrites(tasks[a], tasks[c]) && Overwrites(tasks[b], tasks[c])
          && !tasks[a].SameSource(tasks[c]) && !tasks[b].SameSource(tasks[c])
          ==> tasks[a].SameSource(tasks[b]))
    && (free.Place? ==> free.op.Reg? && forall i :: 0 <= i < |tasks| ==> free.op !in tasks[i].Dsts() + tasks[i].Srcs())
    && |rank| == |tasks|
    && (free.Absent? ==> forall a, c :: 0 <= a < |tasks| && 0 <= c < |tasks| ==>
          && (tasks[a].SameSource(tasks[c]) ==> rank[a] == rank[c])
          && (Overwrites(tasks[a], tasks[c]) && !tasks[a].SameSource(tasks[c]) ==> rank[c] < rank[a]))
  }

  predicate SingleSource(t: MappingTask) {
    t.srcReg.Absent? || t.srcStack.Absent?
  }

  /** With one source place per task and a spare register, disjoint destinations are all it takes. */
  lemma SingleSourcesResolvable(tasks: seq<MappingTask>, free: Variable, rank: seq<nat>)
    requires forall i :: 0 <= i < |tasks| ==> Untouched(tasks[i]) && tasks[i].WellTyped() && SingleSource(tasks[i])
    requires forall i, j :: 0 <= i < j < |tasks| ==> tasks[i].Dsts() !! tasks[j].Dsts()
    requires free.Place? && free.op.Reg? && |rank| == |tasks|
    requires forall i :: 0 <= i < |tasks| ==> free.op !in tasks[i].Dsts() + tasks[i].Srcs()
    ensures Resolvable(tasks, free, rank)
  {
    forall a, b, c | 0 <= a < |tasks| && 0 <= b < |tasks| && 0 <= c < |tasks|
        && Overwrites(tasks[a], tasks[c]) && Overwrites(tasks[b], tasks[c])
      ensures tasks[a].SameSource(tasks[b])
    {
      var o := if tasks[c].srcReg.Place? then tasks[c].srcReg.op else tasks[c].srcStack.op;
      assert tasks[c].Srcs() == {o};
      assert o in tasks[a].Dsts() && o in tasks[b].Dsts();
    }
  }

  /** The lists being linked: `groups[h]` is the list with head `h`, and `home[i]` the head of the list
      that task `i` is on, or -1. */
  ghost predicate Grouped(t0: seq<MappingTask>, t: seq<MappingTask>, groups: seq<seq<nat>>, home: seq<int>) {
    && |t| == |t0| == |groups| == |home|
    && (forall i :: 0 <= i < |t| ==> t[i] == t0[i].(next := t[i].next, processed := t[i].processed))
    && (forall h :: 0 <= h < |groups| ==> List(t0, t, home, groups[h], h))
    && (forall i :: 0 <= i < |t| ==> Placed(t0, t, groups, home, i))
  }

  /** A list is empty, or starts with its head and links tasks with the same source. */
  ghost predicate List(t0: seq<MappingTask>, t: seq<MappingTask>, home: seq<int>, list: seq<nat>, h: nat)
    requires |t| == |t0| == |home| && h < |t|
  {
    && (list != [] ==> !t[h].processed)
    && forall k :: 0 <= k < |list| ==> Node(t0, t, home, list, h, k)
  }

  /** The link of the k-th task of a list. */
  function NextOf(list: seq<nat>, k: nat): int
    requires k < |list|
  {
    if k + 1 < |list| then list[k + 1] else -1
  }

  ghost predicate Node(t0: seq<MappingTask>, t: seq<MappingTask>, home: seq<int>, list: seq<nat>, h: nat, k: nat)
    requires |t| == |t0| == |home| && h < |t| && k < |list|
  {
    && list[k] < |t| && home[list[k]] == h && t0[h].SameSource(t0[list[k]])
    && (list[k] == h <==> k == 0)
    && t[list[k]].next == NextOf(list, k)
  }

  ghost predicate Placed(t0: seq<MappingTask>, t: seq<MappingTask>, groups: seq<seq<nat>>, home: seq<int>, i: nat)
    requires |t| == |t0| == |groups| == |home| && i < |t|
  {
    if home[i] == -1 then
      (t[i].processed ==> t0[i].Noop()) && (!t[i].processed ==> t[i].next == -1)
    else
      && 0 <= home[i] < |groups| && groups[home[i]] != [] && i in groups[home[i]]
      && (t[i].processed <==> home[i] != i)
  }

  lemma ListFacts(t0: seq<MappingTask>, t: seq<MappingTask>, groups: seq<seq<nat>>, home: seq<int>)
    requires Grouped(t0, t, groups, home)
    ensures forall h, k :: 0 <= h < |groups| && 0 <= k < |groups[h]| ==>
      groups[h][k] < |t| && home[groups[h][k]] == h && (groups[h][k] == h <==> k == 0)
    ensures forall h, k :: 0 <= h < |groups| && 0 <= k < |groups[h]| ==> t0[h].SameSource(t0[groups[h][k]])
    ensures forall h :: 0 <= h < |groups| ==> (groups[h] != [] <==> home[h] == h)
  {
    forall h, k | 0 <= h < |groups| && 0 <= k < |groups[h]|
      ensures groups[h][k] < |t| && home[groups[h][k]] == h && (groups[h][k] == h <==> k == 0)
      ensures t0[h].SameSource(t0[groups[h][k]])
    {
      assert Node(t0, t, home, groups[h], h, k);
    }
    forall h | 0 <= h < |groups|
      ensures groups[h] != [] <==> home[h] == h
    {
      assert Placed(t0, t, groups, home, h);
      if groups[h] != [] {
        assert Node(t0, t, home, groups[h], h, 0);
      }
    }
  }

  /** Tasks before n have been visited, the others not. */
  ghost predicate Visited(t: seq<MappingTask>, home: seq<int>, n: nat) {
    && n <= |t| == |home|
    && (forall h :: 0 <= h < n ==> t[h].processed || home[h] == h)
    && (forall h :: n <= h < |t| ==> home[h] < n && (t[h].processed ==> home[h] != -1))
  }

  /** Head `g` has collected every task before n that shares its source. */
  ghost predicate Swept(t0: seq<MappingTask>, home: seq<int>, g: int, n: int) {
    |t0| == |home| && 0 <= g && forall j :: g < j < n && j < |t0| && t0[g].SameSource(t0[j]) ==> home[j] == g
  }

  ghost predicate AllSwept(t0: seq<MappingTask>, home: seq<int>, n: int) {
    |t0| == |home| && forall g :: 0 <= g < n && g < |home| && home[g] == g ==> Swept(t0, home, g, |t0|)
  }

  lemma Start(t0: seq<MappingTask>, groups: seq<seq<nat>>, home: seq<int>)
    requires |groups| == |home| == |t0|
    requires forall i :: 0 <= i < |t0| ==> groups[i] == [] && home[i] == -1 && Untouched(t0[i])
    ensures Grouped(t0, t0, groups, home) && Visited(t0, home, 0) && AllSwept(t0, home, 0)
  {}

  /** A task that has been linked, or reduced to nothing, is passed over. */
  lemma PassOver(t0: seq<MappingTask>, t: seq<MappingTask>, groups: seq<seq<nat>>, home: seq<int>, x: nat)
    requires Grouped(t0, t, groups, home) && Visited(t, home, x) && AllSwept(t0, home, x) && x < |t|
    requires t[x].processed || t0[x].Noop()
    ensures var t' := t[x := t[x].(processed := true)];
      Grouped(t0, t', groups, home) && Visited(t', home, x + 1) && AllSwept(t0, home, x + 1)
  {
    assert Placed(t0, t, groups, home, x);
    ListFacts(t0, t, groups, home);
    var t' := t[x := t[x].(processed := true)];
    forall h | 0 <= h < |groups|
      ensures List(t0, t', home, groups[h], h)
    {
      forall k | 0 <= k < |groups[h]|
        ensures Node(t0, t', home, groups[h], h, k)
      {
        assert Node(t0, t, home, groups[h], h, k);
      }
    }
    forall i | 0 <= i < |t|
      ensures Placed(t0, t', groups, home, i)
    {
      assert Placed(t0, t, groups, home, i);
    }
  }

  /** A task opens its list. */
  lemma Open(t0: seq<MappingTask>, t: seq<MappingTask>, groups: seq<seq<nat>>, home: seq<int>, x: nat)
    requires Grouped(t0, t, groups, home) && Visited(t, home, x) && AllSwept(t0, home, x) && x < |t|
    requires !t[x].processed
    ensures home[x] == -1 && Grouped(t0, t, groups[x := [x]], home[x := x])
    ensures Visited(t, home[x := x], x + 1) && AllSwept(t0, home[x := x], x) && Swept(t0, home[x := x], x, x + 1)
  {
    assert Placed(t0, t, groups, home, x);
    ListFacts(t0, t, groups, home);
    var groups', home' := groups[x := [x]], home[x := x];
    forall i | 0 <= i < |t|
      ensures Placed(t0, t, groups', home', i)
    {
      assert Placed(t0, t, groups, home, i);
      if i == x {
        assert [x][0] == x;
      }
    }
    forall h | 0 <= h < |groups'|
      ensures List(t0, t, home', groups'[h], h)
    {
      if h != x {
        ListKept(t0, t, t, home, groups[h], h, x, x, x);
      } else {
        assert Node(t0, t, home', [x], x, 0);
      }
    }
    forall g | 0 <= g < x && home'[g] == g
      ensures Swept(t0, home', g, |t0|)
    {
      assert Swept(t0, home, g, |t0|);
    }
  }

  /** `MappingTask::append` on the task list. */
  function Appended(t: seq<MappingTask>, x: nat, y: nat): seq<MappingTask>
    requires x < y < |t|
  {
    t[y := t[y].(next := t[x].next, processed := true)][x := t[x].(next := y)]
  }

  /** Task `y` shares the source of `x`: it is untouched so far, and comes right after `x`. */
  lemma Append(t0: seq<MappingTask>, t: seq<MappingTask>, groups: seq<seq<nat>>, home: seq<int>, x: nat, y: nat)
    requires Grouped(t0, t, groups, home) && x < y < |t| && home[x] == x && t0[x].SameSource(t0[y])
    requires Visited(t, home, x + 1) && home[y] != x && AllSwept(t0, home, x)
    ensures !t[x].processed && !t[y].processed && home[y] == -1 && groups[x] != []
    ensures Grouped(t0, Appended(t, x, y), groups[x := [x, y] + groups[x][1..]], home[y := x])
  {
    assert Placed(t0, t, groups, home, x) && Placed(t0, t, groups, home, y);
    Unclaimed(t0, t, groups, home, x, y);
    var t', groups', home' := Appended(t, x, y), groups[x := [x, y] + groups[x][1..]], home[y := x];
    AppendLists(t0, t, groups, home, x, y);
    ListFacts(t0, t, groups, home);
    forall i | 0 <= i < |t|
      ensures Placed(t0, t', groups', home', i)
    {
      assert Placed(t0, t, groups, home, i);
      if home[i] == x && i != x {
        var k :| 0 <= k < |groups[x]| && groups[x][k] == i;
        assert groups[x][1..][k - 1] == i;
      }
      if i == y {
        assert groups'[x][1] == y;
      }
    }
  }

  lemma Unclaimed(t0: seq<MappingTask>, t: seq<MappingTask>, groups: seq<seq<nat>>, home: seq<int>, x: nat, y: nat)
    requires Grouped(t0, t, groups, home) && x < y < |t| && home[x] == x && t0[x].SameSource(t0[y])
    requires Visited(t, home, x + 1) && home[y] != x && AllSwept(t0, home, x)
    ensures home[y] == -1
  {
    if home[y] != -1 {
      HomeIsHead(t0, t, groups, home, y);
    }
  }

  lemma HomeIsHead(t0: seq<MappingTask>, t: seq<MappingTask>, groups: seq<seq<nat>>, home: seq<int>, y: nat)
    requires Grouped(t0, t, groups, home) && y < |t| && home[y] != -1
    ensures 0 <= home[y] < |t| && home[home[y]] == home[y] && t0[home[y]].SameSource(t0[y])
  {
    assert Placed(t0, t, groups, home, y);
    var g := home[y];
    assert Node(t0, t, home, groups[g], g, 0);
    var k :| 0 <= k < |groups[g]| && groups[g][k] == y;
    assert Node(t0, t, home, groups[g], g, k);
  }

  /** A list stays as it is when tasks that are not on it are changed. */
  lemma ListKept(t0: seq<MappingTask>, t: seq<MappingTask>, t': seq<MappingTask>, home: seq<int>, list: seq<nat>,
                 h: nat, x: nat, y: nat, v: int)
    requires |t| == |t'| == |t0| == |home| && h < |t| && x < |t| && y < |t| && h != x && h != y
    requires List(t0, t, home, list, h) && home[y] == -1 && (home[x] == x || x == y)
    requires forall i :: 0 <= i < |t| && i != x && i != y ==> t'[i] == t[i]
    ensures List(t0, t', home[y := v], list, h)
  {
    var home' := home[y := v];
    forall k: nat | k < |list|
      ensures Node(t0, t', home', list, h, k)
    {
      assert Node(t0, t, home, list, h, k);
    }
  }

  lemma AppendLists(t0: seq<MappingTask>, t: seq<MappingTask>, groups: seq<seq<nat>>, home: seq<int>, x: nat, y: nat)
    requires Grouped(t0, t, groups, home) && x < y < |t| && home[x] == x && home[y] == -1 && groups[x] != []
    requires t0[x].SameSource(t0[y])
    ensures var groups' := groups[x := [x, y] + groups[x][1..]];
      forall h :: 0 <= h < |groups| ==> List(t0, Appended(t, x, y), home[y := x], groups'[h], h)
  {
    ListFacts(t0, t, groups, home);
    hide Node;
    var groups' := groups[x := [x, y] + groups[x][1..]];
    forall h | 0 <= h < |groups|
      ensures List(t0, Appended(t, x, y), home[y := x], groups'[h], h)
    {
      if h == x {
        AppendList(t0, t, home, groups[x], x, y);
      } else {
        if h == y {
          assert groups'[h] == [];
        } else {
          ListKept(t0, t, Appended(t, x, y), home, groups[h], h, x, y, x);
        }
      }
    }
  }

  lemma AppendList(t0: seq<MappingTask>, t: seq<MappingTask>, home: seq<int>, list: seq<nat>, x: nat, y: nat)
    requires |t| == |t0| == |home| && x < y < |t| && home[x] == x && home[y] == -1 && list != []
    requires List(t0, t, home, list, x) && t0[x].SameSource(t0[y])
    ensures List(t0, Appended(t, x, y), home[y := x], [x, y] + list[1..], x)
  {
    var list', t', home' := [x, y] + list[1..], Appended(t, x, y), home[y := x];
    assert Node(t0, t, home, list, x, 0);
    forall k: nat | k < |list'|
      ensures Node(t0, t', home', list', x, k)
    {
      if k > 1 {
        assert Node(t0, t, home, list, x, k - 1);
        assert list'[k] == list[k - 1];
      }
    }
  }

  lemma SweptMore(t0: seq<MappingTask>, home: seq<int>, x: nat, y: nat)
    requires Swept(t0, home, x, y) && x < y < |t0|
    requires home[y] == -1 || home[y] == x || !t0[x].SameSource(t0[y])
    ensures t0[x].SameSource(t0[y]) ==> Swept(t0, home[y := x], x, y + 1)
    ensures !t0[x].SameSource(t0[y]) ==> Swept(t0, home, x, y + 1)
  {}

  lemma AppendKeeps(t0: seq<MappingTask>, t: seq<MappingTask>, home: seq<int>, x: nat, y: nat)
    requires |t| == |t0| && Visited(t, home, x + 1) && x < y < |t| && home[y] == -1 && AllSwept(t0, home, x)
    ensures Visited(Appended(t, x, y), home[y := x], x + 1) && AllSwept(t0, home[y := x], x)
  {
    forall g | 0 <= g < x && home[g] == g
      ensures Swept(t0, home[y := x], g, |t0|)
    {
      assert Swept(t0, home, g, |t0|);
    }
  }

  // ---- the finished lists ----------------------------------------------------------------------------

  ghost predicate Done(t0: seq<MappingTask>, t: seq<MappingTask>, groups: seq<seq<nat>>, home: seq<int>) {
    Grouped(t0, t, groups, home) && Visited(t, home, |t|) && AllSwept(t0, home, |t|)
  }

  /** What a head is: on its own list, with its tasks' destinations as targets. */
  lemma HeadFacts(t0: seq<MappingTask>, t: seq<MappingTask>, groups: seq<seq<nat>>, home: seq<int>, p: Problem, h: nat)
    requires Done(t0, t, groups, home) && p.tasks == t && p.groups == groups
    ensures p.Shaped()
    ensures p.IsHead(h) <==> h < |t| && home[h] == h
    ensures p.IsHead(h) ==> p.Sources(h) == t0[h].Srcs()
  {
    ListFacts(t0, t, groups, home);
  }

  lemma TargetTask(t0: seq<MappingTask>, t: seq<MappingTask>, groups: seq<seq<nat>>, home: seq<int>, p: Problem, h: nat,
                   o: Operand)
    returns (m: nat)
    requires Done(t0, t, groups, home) && p.tasks == t && p.groups == groups
    requires p.Shaped() && p.IsHead(h) && o in p.Targets(h)
    ensures m < |t0| && o in t0[m].Dsts() && home[m] == h && t0[h].SameSource(t0[m])
  {
    ListFacts(t0, t, groups, home);
    m :| m in groups[h] && o in t[m].Dsts();
    var k :| 0 <= k < |groups[h]| && groups[h][k] == m;
  }

  lemma DistinctHeads(t0: seq<MappingTask>, t: seq<MappingTask>, groups: seq<seq<nat>>, home: seq<int>, g: nat, h: nat)
    requires Done(t0, t, groups, home) && g < |t| && h < |t| && home[g] == g && home[h] == h && g != h
    ensures !t0[g].SameSource(t0[h])
  {
    assert Swept(t0, home, if g < h then g else h, |t0|);
  }

  lemma TargetsApart(t0: seq<MappingTask>, t: seq<MappingTask>, groups: seq<seq<nat>>, home: seq<int>, p: Problem,
                     g: nat, h: nat)
    requires Done(t0, t, groups, home) && p.tasks == t && p.groups == groups && Resolvable(t0, p.free, p.rank)
    requires p.Shaped() && p.IsHead(g) && p.IsHead(h) && g != h
    ensures p.Targets(g) !! p.Targets(h)
  {
    hide Done;
    forall o | o in p.Targets(g) && o in p.Targets(h)
      ensures false
    {
      var a := TargetTask(t0, t, groups, home, p, g, o);
      var b := TargetTask(t0, t, groups, home, p, h, o);
    }
  }

  lemma ThreatTask(t0: seq<MappingTask>, t: seq<MappingTask>, groups: seq<seq<nat>>, home: seq<int>, p: Problem, g: nat,
                   h: nat)
    returns (m: nat)
    requires Done(t0, t, groups, home) && p.tasks == t && p.groups == groups
    requires p.Shaped() && p.IsHead(g) && p.IsHead(h) && g != h && p.Threatens(g, h)
    ensures g < |t0| && h < |t0| && m < |t0|
    ensures Overwrites(t0[m], t0[h]) && t0[g].SameSource(t0[m]) && !t0[m].SameSource(t0[h])
  {
    hide Done;
    HeadFacts(t0, t, groups, home, p, g);
    HeadFacts(t0, t, groups, home, p, h);
    var o :| o in p.Targets(g) * p.Sources(h);
    m := TargetTask(t0, t, groups, home, p, g, o);
    Sizes(t0, t, groups, home);
    assert o in t0[m].Dsts() * t0[h].Srcs();
    DistinctHeads(t0, t, groups, home, g, h);
  }

  lemma Sizes(t0: seq<MappingTask>, t: seq<MappingTask>, groups: seq<seq<nat>>, home: seq<int>)
    requires Done(t0, t, groups, home)
    ensures |t| == |t0| == |groups| == |home|
  {}

  lemma OneThreat(t0: seq<MappingTask>, t: seq<MappingTask>, groups: seq<seq<nat>>, home: seq<int>, p: Problem, f: nat,
                  g: nat, h: nat)
    requires Done(t0, t, groups, home) && p.tasks == t && p.groups == groups && Resolvable(t0, p.free, p.rank)
    requires p.Shaped() && p.IsHead(f) && p.IsHead(g) && p.IsHead(h) && f != h && g != h
    requires p.Threatens(f, h) && p.Threatens(g, h)
    ensures f == g
  {
    hide Done, p.Threatens, p.IsHead;
    var a := ThreatTask(t0, t, groups, home, p, f, h);
    var b := ThreatTask(t0, t, groups, home, p, g, h);
    assert t0[a].SameSource(t0[b]);
    if f != g {
      HeadFacts(t0, t, groups, home, p, f);
      HeadFacts(t0, t, groups, home, p, g);
      Sizes(t0, t, groups, home);
      DistinctHeads(t0, t, groups, home, f, g);
    }
  }

  lemma SpareKept(t0: seq<MappingTask>, t: seq<MappingTask>, groups: seq<seq<nat>>, home: seq<int>, p: Problem)
    requires Done(t0, t, groups, home) && p.tasks == t && p.groups == groups && Resolvable(t0, p.free, p.rank)
    ensures p.Spare()
  {
    HeadFacts(t0, t, groups, home, p, 0);
    hide Done;
    Sizes(t0, t, groups, home);
    forall h | p.IsHead(h) && p.free.Place?
      ensures p.free.op !in p.Targets(h) && p.free.op !in p.Sources(h)
    {
      HeadFacts(t0, t, groups, home, p, h);
      if p.free.op in p.Targets(h) {
        var m := TargetTask(t0, t, groups, home, p, h, p.free.op);
      }
    }
    forall g, h | p.free.Absent? && p.IsHead(g) && p.IsHead(h) && g != h && p.Threatens(g, h)
      ensures p.rank[h] < p.rank[g]
    {
      var m := ThreatTask(t0, t, groups, home, p, g, h);
    }
  }

  lemma LinkedKept(t0: seq<MappingTask>, t: seq<MappingTask>, groups: seq<seq<nat>>, home: seq<int>, p: Problem)
    requires Done(t0, t, groups, home) && p.tasks == t && p.groups == groups
    requires forall i :: 0 <= i < |t0| ==> t0[i].WellTyped()
    ensures p.Linked()
  {
    forall h, k | 0 <= h < |groups| && 0 <= k < |groups[h]|
      ensures groups[h][k] < |t| && (k == 0 ==> groups[h][0] == h)
      ensures t[groups[h][k]].next == NextOf(groups[h], k)
    {
      assert Node(t0, t, home, groups[h], h, k);
    }
    forall h | 0 <= h < |t|
      ensures t[h].WellTyped()
    {
      assert t0[h].WellTyped();
    }
  }

  /** Linking turns resolvable tasks into a solvable problem. */
  lemma GroupsSolvable(t0: seq<MappingTask>, t: seq<MappingTask>, groups: seq<seq<nat>>, home: seq<int>, p: Problem)
    requires Done(t0, t, groups, home) && p.tasks == t && p.groups == groups && Resolvable(t0, p.free, p.rank)
    ensures p.Solvable()
  {
    LinkedKept(t0, t, groups, home, p);
    SpareKept(t0, t, groups, home, p);
    hide Done, Resolvable, p.Spare, p.Targets, p.Threatens;
    forall g, h | p.IsHead(g) && p.IsHead(h) && g != h
      ensures p.Targets(g) !! p.Targets(h)
    {
      TargetsApart(t0, t, groups, home, p, g, h);
    }
    forall f, g, h | p.IsHead(f) && p.IsHead(g) && p.IsHead(h) && f != h && g != h && p.Threatens(f, h)
      && p.Threatens(g, h)
      ensures f == g
    {
      OneThreat(t0, t, groups, home, p, f, g, h);
    }
  }

  lemma StartProgress(t0: seq<MappingTask>, t: seq<MappingTask>, groups: seq<seq<nat>>, home: seq<int>, p: Problem)
    requires Done(t0, t, groups, home) && p.tasks == t && p.groups == groups && Resolvable(t0, p.free, p.rank)
    requires p.Shaped()
    ensures Progress(p, t, -1, p.free, [])
  {
    hide Resolvable;
    StartTracks(t0, t, groups, home, p);
    hide Tracks;
    NoCode(Reg(0));
    forall v: Operand
      ensures Copies([], v, v)
    {
      NoCode(v);
    }
    forall h | p.IsHead(h)
      ensures !t[h].processed
    {
      HeadFacts(t0, t, groups, home, p, h);
    }
  }

  lemma StartTracks(t0: seq<MappingTask>, t: seq<MappingTask>, groups: seq<seq<nat>>, home: seq<int>, p: Problem)
    requires Done(t0, t, groups, home) && p.tasks == t && p.groups == groups && Resolvable(t0, p.free, p.rank)
    ensures Tracks(p, t, -1)
  {
    forall k | 0 <= k < |t|
      ensures t[k].variableToFree == Absent
      ensures !p.IsHead(k) ==> t[k].processed
    {
      HeadFacts(t0, t, groups, home, p, k);
      assert Untouched(t0[k]);
    }
  }

  /** The tasks have been carried out as one simultaneous assignment, with the spare register lost. */
  ghost predicate Resolved(tasks: seq<MappingTask>, free: Variable, code: Code) {
    && Pushes(code, [])
    && (forall i, d :: 0 <= i < |tasks| && d in tasks[i].Dsts() ==> Delivered(code, d, tasks[i].Srcs()))
    && (forall v :: Place(v) != free && (forall i :: 0 <= i < |tasks| ==> v !in tasks[i].Dsts()) ==> Copies(code, v, v))
  }

  lemma TargetsCover(t0: seq<MappingTask>, t: seq<MappingTask>, groups: seq<seq<nat>>, home: seq<int>, p: Problem,
                     i: nat, d: Operand)
    requires Done(t0, t, groups, home) && p.tasks == t && p.groups == groups && p.Shaped() && i < |t0|
    requires d in t0[i].Dsts()
    ensures |home| == |t0|
    ensures (home[i] != -1 ==> p.IsHead(home[i]) && d in p.Targets(home[i]) && p.Sources(home[i]) == t0[i].Srcs())
    ensures home[i] == -1 ==> t0[i].Noop()
  {
    assert Placed(t0, t, groups, home, i);
    ListFacts(t0, t, groups, home);
    if home[i] != -1 {
      var h := home[i];
      var k :| 0 <= k < |groups[h]| && groups[h][k] == i;
      assert t0[h].SameSource(t0[i]);
      assert t[i].Dsts() == t0[i].Dsts() && t[h].Srcs() == t0[h].Srcs();
    }
  }

  lemma AllProcessed(t0: seq<MappingTask>, t: seq<MappingTask>, groups: seq<seq<nat>>, home: seq<int>, p: Problem,
                     tasks: seq<MappingTask>, code: Code)
    requires Done(t0, t, groups, home) && p.tasks == t && p.groups == groups && Resolvable(t0, p.free, p.rank)
    requires p.Shaped() && Progress(p, tasks, -1, p.free, code) && |tasks| == |t|
    requires forall i :: 0 <= i < |tasks| ==> tasks[i].processed
    ensures Resolved(t0, p.free, code)
  {
    hide Done, Tracks, Pushes, Copies;
    forall v | Place(v) != p.free && forall h :: p.IsHead(h) ==> v !in p.Targets(h)
      ensures Copies(code, v, v)
    {}
    forall v | Place(v) != p.free && (forall i :: 0 <= i < |t0| ==> v !in t0[i].Dsts())
      ensures Copies(code, v, v)
    {
      Untargeted(t0, t, groups, home, p, v);
    }
    forall i, d | 0 <= i < |t0| && d in t0[i].Dsts()
      ensures Delivered(code, d, t0[i].Srcs())
    {
      TargetsCover(t0, t, groups, home, p, i, d);
      if home[i] == -1 {
        NoopUntargeted(t0, t, groups, home, p, i, d);
        assert Copies(code, d, d);
      }
    }
  }

  lemma Untargeted(t0: seq<MappingTask>, t: seq<MappingTask>, groups: seq<seq<nat>>, home: seq<int>, p: Problem,
                   v: Operand)
    requires Done(t0, t, groups, home) && p.tasks == t && p.groups == groups && p.Shaped()
    requires forall i :: 0 <= i < |t0| ==> v !in t0[i].Dsts()
    ensures forall h :: p.IsHead(h) ==> v !in p.Targets(h)
  {
    hide Done;
    forall h | p.IsHead(h)
      ensures v !in p.Targets(h)
    {
      if v in p.Targets(h) {
        var m := TargetTask(t0, t, groups, home, p, h, v);
      }
    }
  }

  /** What a reduced task leaves in place, nothing overwrites. */
  lemma NoopUntargeted(t0: seq<MappingTask>, t: seq<MappingTask>, groups: seq<seq<nat>>, home: seq<int>, p: Problem,
                       i: nat, d: Operand)
    requires Done(t0, t, groups, home) && p.tasks == t && p.groups == groups && Resolvable(t0, p.free, p.rank)
    requires p.Shaped() && i < |t0| && d in t0[i].Dsts() && |home| == |t0| && home[i] == -1 && t0[i].Noop()
    ensures d in t0[i].Srcs() && Place(d) != p.free
    ensures forall h :: p.IsHead(h) ==> d !in p.Targets(h)
  {
    hide Done;
    forall h | p.IsHead(h)
      ensures d !in p.Targets(h)
    {
      if d in p.Targets(h) {
        var m := TargetTask(t0, t, groups, home, p, h, d);
      }
    }
  }
}
