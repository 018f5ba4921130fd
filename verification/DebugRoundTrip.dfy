/** What the recorder writes the reader reads: every visible scope, in preorder, as it was recorded. */
module DebugRoundTrip {
  import opened Basics
  import opened DebugEncoding
  import opened DebugRecorder
  import opened DebugReader
  import opened DebugLists

  // ---- visibility ---------------------------------------------------------------------------------------------

  predicate Needed(n: ScopeNode, used: set<nat>, generateLite: bool) {
    (n.id in used && generateLite) || !n.lite
  }

  /** `computeVisibility`: a scope is visible if it is needed or one nested in it is visible. */
  function ComputeVisibility(n: ScopeNode, used: set<nat>, generateLite: bool): ScopeNode
    decreases n, 1
  {
    var ns := ComputeAll(n, n.nested, used, generateLite);
    n.(nested := ns, visible := (exists i :: 0 <= i < |ns| && ns[i].visible) || Needed(n, used, generateLite))
  }

  function ComputeAll(ghost parent: ScopeNode, ns: seq<ScopeNode>, used: set<nat>,
                      generateLite: bool): (r: seq<ScopeNode>)
    requires forall i :: 0 <= i < |ns| ==> ns[i] < parent
    ensures |r| == |ns|
    decreases parent, 0, |ns|
  {
    if ns == [] then []
    else [ComputeVisibility(ns[0], used, generateLite)] + ComputeAll(parent, ns[1..], used, generateLite)
  }

  /** All scopes of a tree that are needed, visible or not. */
  function NeededIds(n: ScopeNode, used: set<nat>, generateLite: bool): set<nat>
    decreases n, 1
  {
    (if Needed(n, used, generateLite) then {n.id} else {}) + NeededAll(n, n.nested, used, generateLite)
  }

  function NeededAll(ghost parent: ScopeNode, ns: seq<ScopeNode>, used: set<nat>, generateLite: bool): set<nat>
    requires forall i :: 0 <= i < |ns| ==> ns[i] < parent
    decreases parent, 0, |ns|
  {
    if ns == [] then {} else NeededIds(ns[0], used, generateLite) + NeededAll(parent, ns[1..], used, generateLite)
  }

  /** No needed scope is hidden, and nothing is visible without need. */
  lemma {:induction false} NothingNeededHidden(n: ScopeNode, used: set<nat>, generateLite: bool)
    ensures var r := ComputeVisibility(n, used, generateLite);
      NeededIds(n, used, generateLite) <= Ids(r) && (r.visible <==> NeededIds(n, used, generateLite) != {})
    decreases n, 1
  {
    var ns := ComputeAll(n, n.nested, used, generateLite);
    var r := ComputeVisibility(n, used, generateLite);
    NothingNeededHiddenAll(n, n.nested, r, ns, used, generateLite);
    assert Ids(r) == {n.id} + IdsAll(r, ns);
  }

  lemma {:induction false} NothingNeededHiddenAll(parent: ScopeNode, ns: seq<ScopeNode>, parent': ScopeNode,
                                                  rs: seq<ScopeNode>,
                                                  used: set<nat>, generateLite: bool)
    requires (forall i :: 0 <= i < |ns| ==> ns[i] < parent) && (forall i :: 0 <= i < |rs| ==> rs[i] < parent')
    requires rs == ComputeAll(parent, ns, used, generateLite)
    ensures NeededAll(parent, ns, used, generateLite) <= IdsAll(parent', rs)
    ensures (exists i :: 0 <= i < |rs| && rs[i].visible) <==> NeededAll(parent, ns, used, generateLite) != {}
    decreases parent, 0, |ns|
  {
    if ns != [] {
      var rest := ComputeAll(parent, ns[1..], used, generateLite);
      assert rs == [ComputeVisibility(ns[0], used, generateLite)] + rest && rs[1..] == rest;
      TailBelow(rs, parent');
      NothingNeededHidden(ns[0], used, generateLite);
      NothingNeededHiddenAll(parent, ns[1..], parent', rest, used, generateLite);
      VisibleInTail(rs);
    }
  }

  lemma VisibleInTail(rs: seq<ScopeNode>)
    requires rs != []
    ensures (exists i :: 0 <= i < |rs| && rs[i].visible) <==>
      rs[0].visible || exists i :: 0 <= i < |rs[1..]| && rs[1..][i].visible
  {
    if i :| 0 <= i < |rs[1..]| && rs[1..][i].visible {
      assert rs[i + 1].visible;
    }
    if i :| 0 < i < |rs| && rs[i].visible {
      assert rs[1..][i - 1].visible;
    }
  }

  lemma TailBelow(ns: seq<ScopeNode>, parent: ScopeNode)
    requires ns != [] && forall i :: 0 <= i < |ns| ==> ns[i] < parent
    ensures forall i :: 0 <= i < |ns[1..]| ==> ns[1..][i] < parent
  {
    forall i | 0 <= i < |ns[1..]|
      ensures ns[1..][i] < parent
    {
      assert ns[1..][i] == ns[i + 1];
    }
  }

  /** All scopes of a tree. */
  function Scopes(n: ScopeNode): set<ScopeNode>
    decreases n, 1
  {
    {n} + ScopesIn(n, n.nested)
  }

  function ScopesIn(ghost parent: ScopeNode, ns: seq<ScopeNode>): set<ScopeNode>
    requires forall i :: 0 <= i < |ns| ==> ns[i] < parent
    decreases parent, 0, |ns|
  {
    if ns == [] then {} else Scopes(ns[0]) + ScopesIn(parent, ns[1..])
  }

  /** Which scopes are recorded: all that are not lite, or that are used when lite scopes are wanted; and no
      other than the root and those around such scopes. */
  lemma VisibleAre(n: ScopeNode, used: set<nat>, generateLite: bool)
    ensures var r := ComputeVisibility(n, used, generateLite);
      && (forall m :: m in Scopes(n) && (!m.lite || (generateLite && m.id in used)) ==> m.id in Ids(r))
      && (forall id :: id in Ids(r) && id != n.id ==>
            exists m :: m in Scopes(n) && m.id == id && Wanted(m, used, generateLite))
      && (r.visible <==> Wanted(n, used, generateLite))
  {
    hide ComputeVisibility, Scopes, Ids;
    NothingNeededHidden(n, used, generateLite);
    NeededAre(n, used, generateLite);
    VisibleWanted(n, used, generateLite);
  }

  /** In the scope or in one nested in it, something is not lite, or is used when lite scopes are wanted. */
  ghost predicate Wanted(n: ScopeNode, used: set<nat>, generateLite: bool) {
    exists m :: m in Scopes(n) && (!m.lite || (generateLite && m.id in used))
  }

  lemma {:induction false} NeededAre(n: ScopeNode, used: set<nat>, generateLite: bool)
    ensures forall m :: m in Scopes(n) && (!m.lite || (generateLite && m.id in used)) ==>
      m.id in NeededIds(n, used, generateLite)
    ensures NeededIds(n, used, generateLite) != {} <==> Wanted(n, used, generateLite)
    decreases n, 1
  {
    NeededAreIn(n, n.nested, used, generateLite);
    if id :| id in NeededIds(n, used, generateLite) {
      assert n in Scopes(n);
    }
  }

  lemma {:induction false} NeededAreIn(parent: ScopeNode, ns: seq<ScopeNode>, used: set<nat>, generateLite: bool)
    requires forall i :: 0 <= i < |ns| ==> ns[i] < parent
    ensures forall m :: m in ScopesIn(parent, ns) && (!m.lite || (generateLite && m.id in used)) ==>
      m.id in NeededAll(parent, ns, used, generateLite)
    ensures NeededAll(parent, ns, used, generateLite) != {} <==>
      exists m :: m in ScopesIn(parent, ns) && (!m.lite || (generateLite && m.id in used))
    decreases parent, 0, |ns|
  {
    hide Scopes, NeededIds;
    if ns != [] {
      NeededAre(ns[0], used, generateLite);
      NeededAreIn(parent, ns[1..], used, generateLite);
      var a, b := NeededIds(ns[0], used, generateLite), NeededAll(parent, ns[1..], used, generateLite);
      assert a + b != {} <==> a != {} || b != {} by {
        if a != {} { var x :| x in a; assert x in a + b; }
        if b != {} { var x :| x in b; assert x in a + b; }
      }
    }
  }

  lemma {:induction false} VisibleWanted(n: ScopeNode, used: set<nat>, generateLite: bool)
    ensures forall id :: id in Ids(ComputeVisibility(n, used, generateLite)) && id != n.id ==>
      exists m :: m in Scopes(n) && m.id == id && Wanted(m, used, generateLite)
    decreases n, 1
  {
    hide Wanted;
    var r := ComputeVisibility(n, used, generateLite);
    VisibleWantedIn(n, n.nested, r, r.nested, used, generateLite);
  }

  lemma {:induction false} VisibleWantedIn(parent: ScopeNode, ns: seq<ScopeNode>, parent': ScopeNode,
                                           rs: seq<ScopeNode>, used: set<nat>, generateLite: bool)
    requires (forall i :: 0 <= i < |ns| ==> ns[i] < parent) && (forall i :: 0 <= i < |rs| ==> rs[i] < parent')
    requires rs == ComputeAll(parent, ns, used, generateLite)
    ensures forall id :: id in IdsAll(parent', rs) ==>
      exists m :: m in ScopesIn(parent, ns) && m.id == id && Wanted(m, used, generateLite)
    decreases parent, 0, |ns|
  {
    hide Wanted, ComputeVisibility, Ids, Scopes, NeededIds;
    if ns != [] {
      var rest := ComputeAll(parent, ns[1..], used, generateLite);
      assert rs == [ComputeVisibility(ns[0], used, generateLite)] + rest && rs[1..] == rest;
      TailBelow(rs, parent');
      VisibleWanted(ns[0], used, generateLite);
      VisibleWantedIn(parent, ns[1..], parent', rest, used, generateLite);
      NothingNeededHidden(ns[0], used, generateLite);
      NeededAre(ns[0], used, generateLite);
      SelfScope(ns[0]);
      SameId(ns[0], used, generateLite);
    }
  }

  lemma SelfScope(n: ScopeNode)
    ensures n in Scopes(n)
  {}

  lemma SameId(n: ScopeNode, used: set<nat>, generateLite: bool)
    ensures ComputeVisibility(n, used, generateLite).id == n.id
  {}

  // ---- preorder -----------------------------------------------------------------------------------------------

  /** The visible scopes of a tree in preorder. */
  function Preorder(n: ScopeNode): (s: seq<ScopeNode>)
    decreases n, 1
  {
    [n] + PreorderAll(n, n.nested)
  }

  function PreorderAll(ghost parent: ScopeNode, ns: seq<ScopeNode>): seq<ScopeNode>
    requires forall i :: 0 <= i < |ns| ==> ns[i] < parent
    decreases parent, 0, |ns|
  {
    if ns == [] then [] else (if ns[0].visible then Preorder(ns[0]) else []) + PreorderAll(parent, ns[1..])
  }

  function NodesOf(ps: seq<Placed>): (s: seq<ScopeNode>)
    ensures |s| == |ps| && forall i :: 0 <= i < |ps| ==> s[i] == ps[i].node
  {
    seq(|ps|, i requires 0 <= i < |ps| => ps[i].node)
  }

  lemma {:induction false} LaidPreorder(e: Env, n: ScopeNode, at: int, sender: int)
    ensures NodesOf(Laid(e, n, at, sender)) == Preorder(n)
    decreases n, 1
  {
    hide ScopeBytes;
    LaidAllPreorder(e, n, n.nested, at + |ScopeBytes(e, n, at, sender)|, at);
  }

  lemma {:induction false} LaidAllPreorder(e: Env, parent: ScopeNode, ns: seq<ScopeNode>, at: int, sender: int)
    requires forall i :: 0 <= i < |ns| ==> ns[i] < parent
    ensures NodesOf(LaidAll(e, parent, ns, at, sender)) == PreorderAll(parent, ns)
    decreases parent, 0, |ns|
  {
    hide Laid, Flat, Preorder;
    if ns == [] {
    } else if ns[0].visible {
      LaidPreorder(e, ns[0], at, sender);
      LaidAllPreorder(e, parent, ns[1..], at + |Flat(e, Laid(e, ns[0], at, sender))|, sender);
    } else {
      LaidAllPreorder(e, parent, ns[1..], at, sender);
    }
  }

  /** Scope i is nested directly in scope j, and names its offset as that of its sender. */
  ghost predicate SentBy(ps: seq<Placed>, i: int, j: int) {
    0 <= j < i < |ps| && ps[i].node in ps[j].node.nested && ps[i].sender == ps[j].at
  }

  lemma {:induction false} LaidSenders(e: Env, n: ScopeNode, at: int, sender: int, i: nat) returns (j: int)
    requires i < |Laid(e, n, at, sender)|
    ensures i > 0 ==> SentBy(Laid(e, n, at, sender), i, j)
    decreases n, 1
  {
    hide ScopeBytes;
    j := 0;
    if i > 0 {
      var rest := LaidAll(e, n, n.nested, at + |ScopeBytes(e, n, at, sender)|, at);
      j := LaidAllSenders(e, n, n.nested, at + |ScopeBytes(e, n, at, sender)|, at, i - 1);
      assert Laid(e, n, at, sender)[i] == rest[i - 1];
      if j >= 0 { assert Laid(e, n, at, sender)[j + 1] == rest[j]; }
      j := j + 1;
    }
  }

  /** The sender of scope i of a stretch of siblings is within the stretch, or i is one of the siblings. */
  lemma {:induction false} LaidAllSenders(e: Env, parent: ScopeNode, ns: seq<ScopeNode>, at: int, sender: int, i: nat)
    returns (j: int)
    requires (forall k :: 0 <= k < |ns| ==> ns[k] < parent) && i < |LaidAll(e, parent, ns, at, sender)|
    ensures -1 <= j && (j >= 0 ==> SentBy(LaidAll(e, parent, ns, at, sender), i, j))
    ensures j == -1 ==>
      LaidAll(e, parent, ns, at, sender)[i].node in ns && LaidAll(e, parent, ns, at, sender)[i].sender == sender
    decreases parent, 0, |ns|
  {
    hide Flat, ScopeBytes;
    var all := LaidAll(e, parent, ns, at, sender);
    if !ns[0].visible {
      j := LaidAllSenders(e, parent, ns[1..], at, sender, i);
    } else {
      var first := Laid(e, ns[0], at, sender);
      if i < |first| {
        j := LaidSenders(e, ns[0], at, sender, i);
        if i == 0 { j := -1; } else { assert all[j] == first[j]; }
        assert all[i] == first[i];
      } else {
        var rest := LaidAll(e, parent, ns[1..], at + |Flat(e, first)|, sender);
        j := LaidAllSenders(e, parent, ns[1..], at + |Flat(e, first)|, sender, i - |first|);
        assert all[i] == rest[i - |first|];
        if j >= 0 {
          assert all[j + |first|] == rest[j];
          j := j + |first|;
        }
      }
    }
  }

  // ---- round trip -------------------------------------------------------------------------------------------------

  /** The recorded bytes hold the scopes one after the other. */
  lemma RecordedConsecutive(s: NativeMethodScopes, e: Env, root: ScopeNode) returns (end: nat)
    requires Recorded(s.codes, e, root)
    ensures Consecutive(s, e, Laid(e, root, 0, 0), 0, end) && |s.codes| % 4 == 0
    ensures end <= |s.codes| && (|s.codes| - end < 4 || s.codes[end] == NON_INLINED_BLOCK_CODE)
  {
    hide Flat, Laid, Consecutive, InPlace, ScopeBytes;
    var ps := Laid(e, root, 0, 0);
    end := |Flat(e, ps)|;
    LaidInPlace(e, root, 0, 0);
    AtStart(s, Flat(e, ps));
    hide At;
    PlacesConsecutive(s, e, ps, 0);
  }

  lemma AtStart(s: NativeMethodScopes, bytes: seq<int>)
    requires bytes <= s.codes
    ensures At(s, 0, bytes)
  {
    assert s.codes[0..0 + |bytes|] == bytes;
  }

  /** Recording a method's dependents and its tree of scopes and reading all scopes gives the visible ones
      in preorder, each with all that was recorded of it; offsets of senders and parents lead to them, and
      every scope that is needed is among them. The tables must be small enough for indices of 15 bits. The
      dependents before the end mark are all of them only if there are none. Every block that was not inlined
      is read with its method, and the distance leads back to the scope that is its parent. */
  method RecordAndRead(tree: ScopeNode, used: set<nat>, generateLite: bool, nonInlined: seq<NonInlinedBlock>,
                       dependents: seq<int>, pc: int)
    returns (ds: seq<ScopeDescriptor>, s: NativeMethodScopes, e: Env, dependentsEnd: nat,
             blocks: seq<NonInlinedBlockDescriptor>)
    requires var root := ComputeVisibility(tree, used, generateLite);
      Closed(root, {}) && forall i :: 0 <= i < |nonInlined| ==> nonInlined[i].parent in Ids(root)
    ensures s.oops == e.oops && s.values == e.values
    ensures NeededIds(tree, used, generateLite) <= Ids(ComputeVisibility(tree, used, generateLite))
    ensures var root := ComputeVisibility(tree, used, generateLite);
      && Recorded(s.codes, e, root) && Registered(e, Laid(e, root, 0, 0))
      && NodesOf(Laid(e, root, 0, 0)) == Preorder(root)
      && (|s.oops| + 1 <= 0x8000 && |s.values| + MAX_INLINE_VALUE + 1 <= 0x8000 ==>
            |ds| == |Preorder(root)| && forall i :: 0 <= i < |ds| ==> Shows(ds[i], e, Laid(e, root, 0, 0)[i], pc))
      && (|s.oops| + 1 <= 0x8000 && |s.values| + MAX_INLINE_VALUE + 1 <= 0x8000 ==>
            && |blocks| == |nonInlined|
            && forall i :: 0 <= i < |blocks| ==>
                 && blocks[i].methodOop == nonInlined[i].methodOop
                 && LeadsTo(blocks[i], ds, Preorder(root), nonInlined[i].parent))
    ensures dependentsEnd <= |s.oops|
    ensures ((forall i :: 0 <= i < |dependents| ==> dependents[i] in s.oops[..dependentsEnd]) <==> dependents == [])
    ensures forall i ::
      0 <= i < |dependents| ==> dependentsEnd < |s.oops| && dependents[i] in s.oops[..dependentsEnd + 1]
  {
    hide Shows, Laid, Recorded, Registered, Consecutive, Preorder, Closed, ComputeVisibility, NeededIds, Ids, BlocksAt;
    var rec := new ScopeDescriptorRecorder();
    dependentsEnd := rec.GenerateDependencies(dependents);
    LastDependentLeftOut(dependents, rec.oops, dependentsEnd);
    ghost var oops := rec.oops;
    var root := ComputeVisibility(tree, used, generateLite);
    NothingNeededHidden(tree, used, generateLite);
    var blockOffsets := rec.GenerateAll(root, nonInlined);
    e := rec.Now();
    s := NativeMethodScopes(rec.codes, rec.oops, rec.values);
    PrefixSame(oops, s.oops, dependentsEnd);
    LaidPreorder(e, root, 0, 0);
    ds, blocks := [], [];
    if |s.oops| + 1 <= 0x8000 && |s.values| + MAX_INLINE_VALUE + 1 <= 0x8000 {
      ghost var end := RecordedConsecutive(s, e, root);
      ds := AllScopes(s, pc, e, Laid(e, root, 0, 0), end);
      blocks := ReadBlocks(s, blockOffsets, e, nonInlined);
      BlocksLead(e, root, ds, pc, nonInlined, blocks);
    }
  }

  /** Reads all blocks that were not inlined. */
  method ReadBlocks(s: NativeMethodScopes, blockOffsets: seq<nat>, ghost e: Env, ghost nonInlined: seq<NonInlinedBlock>)
    returns (blocks: seq<NonInlinedBlockDescriptor>)
    requires Backed(s, e) && BlocksAt(s.codes, e, nonInlined, blockOffsets)
    ensures |blocks| == |nonInlined| && forall i :: 0 <= i < |blocks| ==> BlockShows(blocks[i], e, nonInlined[i])
  {
    hide Backed, BlockAt;
    blocks := [];
    var i := 0;
    while i < |blockOffsets|
      invariant i <= |blockOffsets| && |blocks| == i
      invariant forall k :: 0 <= k < i ==> BlockShows(blocks[k], e, nonInlined[k])
    {
      var d := NonInlinedBlockScopeAt(s, blockOffsets[i], e, nonInlined[i]);
      blocks := blocks + [d.value];
      i := i + 1;
    }
  }

  /** The offset of a block less the distance in it is that of the scope with this identity. */
  predicate LeadsTo(d: NonInlinedBlockDescriptor, ds: seq<ScopeDescriptor>, ns: seq<ScopeNode>, id: nat)
    requires |ds| == |ns|
  {
    exists j :: 0 <= j < |ds| && ns[j].id == id && ds[j].offset == d.offset - d.parentScopeOffset
  }

  ghost predicate BlockShows(d: NonInlinedBlockDescriptor, e: Env, b: NonInlinedBlock) {
    && d.methodOop == b.methodOop
    && b.parent in e.offsets && d.offset - d.parentScopeOffset == e.offsets[b.parent]
  }

  /** The distance in a block leads to where its parent has been read. */
  lemma BlocksLead(e: Env, root: ScopeNode, ds: seq<ScopeDescriptor>, pc: int, nonInlined: seq<NonInlinedBlock>,
                   blocks: seq<NonInlinedBlockDescriptor>)
    requires Registered(e, Laid(e, root, 0, 0)) && NodesOf(Laid(e, root, 0, 0)) == Preorder(root)
    requires |ds| == |Preorder(root)| && forall i :: 0 <= i < |ds| ==> Shows(ds[i], e, Laid(e, root, 0, 0)[i], pc)
    requires |blocks| == |nonInlined| && forall i :: 0 <= i < |blocks| ==> BlockShows(blocks[i], e, nonInlined[i])
    requires forall i :: 0 <= i < |nonInlined| ==> nonInlined[i].parent in Ids(root)
    ensures forall i :: 0 <= i < |blocks| ==>
      blocks[i].methodOop == nonInlined[i].methodOop && LeadsTo(blocks[i], ds, Preorder(root), nonInlined[i].parent)
  {
    hide Laid, Preorder, Ids, Shows;
    forall i | 0 <= i < |blocks|
      ensures blocks[i].methodOop == nonInlined[i].methodOop
      ensures LeadsTo(blocks[i], ds, Preorder(root), nonInlined[i].parent)
    {
      var j := IdPlaced(e, root, 0, 0, nonInlined[i].parent);
      assert NodesOf(Laid(e, root, 0, 0))[j] == Laid(e, root, 0, 0)[j].node;
      assert BlockShows(blocks[i], e, nonInlined[i]);
      ShownOffset(ds[j], e, Laid(e, root, 0, 0)[j], pc);
    }
  }

  lemma ShownOffset(d: ScopeDescriptor, e: Env, p: Placed, pc: int)
    requires Shows(d, e, p, pc)
    ensures d.offset == p.at
  {
    hide ShowsKind;
  }

  /** Every visible scope has been placed. */
  lemma {:induction false} IdPlaced(e: Env, n: ScopeNode, at: int, sender: int, id: nat) returns (j: nat)
    requires id in Ids(n)
    ensures j < |Laid(e, n, at, sender)| && Laid(e, n, at, sender)[j].node.id == id
    decreases n, 1
  {
    hide ScopeBytes;
    if id == n.id {
      j := 0;
    } else {
      j := IdPlacedIn(e, n, n.nested, at + |ScopeBytes(e, n, at, sender)|, at, id);
      j := j + 1;
    }
  }

  lemma {:induction false} IdPlacedIn(e: Env, parent: ScopeNode, ns: seq<ScopeNode>, at: int, sender: int, id: nat)
    returns (j: nat)
    requires (forall k :: 0 <= k < |ns| ==> ns[k] < parent) && id in IdsAll(parent, ns)
    ensures j < |LaidAll(e, parent, ns, at, sender)| && LaidAll(e, parent, ns, at, sender)[j].node.id == id
    decreases parent, 0, |ns|
  {
    hide Laid, Flat, Ids;
    if !ns[0].visible {
      j := IdPlacedIn(e, parent, ns[1..], at, sender, id);
    } else {
      var first := Laid(e, ns[0], at, sender);
      if id in Ids(ns[0]) {
        j := IdPlaced(e, ns[0], at, sender, id);
      } else {
        j := IdPlacedIn(e, parent, ns[1..], at + |Flat(e, first)|, sender, id);
        j := j + |first|;
      }
    }
  }

  lemma PrefixSame(a: seq<int>, b: seq<int>, n: nat)
    requires a <= b && n <= |a|
    ensures a[..n] == b[..n] && (n < |a| ==> a[..n + 1] == b[..n + 1])
  {}

  /** The name at pc of an element of a list, if there is such an element. */
  function Recall(e: Env, list: seq<Address>, index: int, pc: int): Option<NameDescriptor> {
    if 0 <= index < |list| then Some(Describe(e, NameAt(list[index], pc))) else None
  }

  function RecallSparse(e: Env, list: seq<Option<Address>>, index: int, pc: int): Option<NameDescriptor> {
    if 0 <= index < |list| && list[index].Some? then Some(Describe(e, NameAt(list[index].value, pc))) else None
  }

  /** From the tree to one temporary, one context temporary and one element of the expression stack of a
      scope: what is read is what was recorded of the scope, unless arguments were recorded too. */
  method RecordAndReadElements(tree: ScopeNode, used: set<nat>, generateLite: bool, nonInlined: seq<NonInlinedBlock>,
                               dependents: seq<int>, pc: int, i: nat, index: int)
    returns (temporary: Option<NameDescriptor>, contextTemporary: Option<NameDescriptor>,
             stackElement: Option<NameDescriptor>, s: NativeMethodScopes, e: Env)
    requires var root := ComputeVisibility(tree, used, generateLite);
      Closed(root, {}) && forall j :: 0 <= j < |nonInlined| ==> nonInlined[j].parent in Ids(root)
    ensures s.oops == e.oops && s.values == e.values
    ensures Recorded(s.codes, e, ComputeVisibility(tree, used, generateLite))
    ensures var ns := Preorder(ComputeVisibility(tree, used, generateLite));
      |s.oops| + 1 <= 0x8000 && |s.values| + MAX_INLINE_VALUE + 1 <= 0x8000 && i < |ns| ==>
        && (!ns[i].lite && ns[i].args == [] ==>
              && temporary == Recall(e, ns[i].temps, index, pc)
              && contextTemporary == Recall(e, ns[i].contextTemps, index, pc)
              && stackElement == RecallSparse(e, ns[i].exprStack, index, pc))
        && (ns[i].lite ==> temporary == None && contextTemporary == None && stackElement == None)
        && temporary == Element(e, TemporariesRead(ns[i]), index, pc)
        && contextTemporary == Element(e, ContextTemporariesRead(ns[i]), index, pc)
  {
    hide Shows, Laid, Recorded, Registered, Consecutive, Preorder, Closed, ComputeVisibility, NeededIds, Ids, Element,
      Recall, RecallSparse;
    var ds, dependentsEnd, blocks;
    ds, s, e, dependentsEnd, blocks := RecordAndRead(tree, used, generateLite, nonInlined, dependents, pc);
    temporary, contextTemporary, stackElement := None, None, None;
    var root := ComputeVisibility(tree, used, generateLite);
    if |s.oops| + 1 <= 0x8000 && |s.values| + MAX_INLINE_VALUE + 1 <= 0x8000 && i < |ds| {
      ghost var end := RecordedConsecutive(s, e, root);
      ghost var ps := Laid(e, root, 0, 0);
      var n := Preorder(root)[i];
      assert NodesOf(ps)[i] == ps[i].node == n;
      temporary, contextTemporary, stackElement := ReadElements(s, ds[i], index, pc, e, ps, end, i, n);
    }
  }

  method ReadElements(s: NativeMethodScopes, d: ScopeDescriptor, index: int, pc: int, ghost e: Env,
                      ghost ps: seq<Placed>, ghost end: int, ghost i: nat, n: ScopeNode)
    returns (temporary: Option<NameDescriptor>, contextTemporary: Option<NameDescriptor>,
             stackElement: Option<NameDescriptor>)
    requires Backed(s, e) && ps != [] && Consecutive(s, e, ps, 0, end) && i < |ps| && Shows(d, e, ps[i], pc)
    requires n == ps[i].node
    ensures !n.lite && n.args == [] ==>
      && temporary == Recall(e, n.temps, index, pc)
      && contextTemporary == Recall(e, n.contextTemps, index, pc)
      && stackElement == RecallSparse(e, n.exprStack, index, pc)
    ensures n.lite ==> temporary == None && contextTemporary == None && stackElement == None
    ensures temporary == Element(e, TemporariesRead(n), index, pc)
    ensures contextTemporary == Element(e, ContextTemporariesRead(n), index, pc)
  {
    hide Shows, Consecutive, At, NameListBytes, Backed, Describe, NameAt;
    NamesPlaced(s, e, ps, i, end, d, pc);
    temporary := Temporary(s, d, index, pc, e, n);
    contextTemporary := ContextTemporary(s, d, index, pc, e, n);
    stackElement := None;
    if n.lite || n.args == [] {
      stackElement := ExprStackElem(s, d, index, pc, e, n);
    }
  }

  /** A descriptor points to the names of its scope. */
  lemma NamesPlaced(s: NativeMethodScopes, e: Env, ps: seq<Placed>, i: nat, end: int, d: ScopeDescriptor, pc: int)
    requires ps != [] && Consecutive(s, e, ps, 0, end) && i < |ps| && Shows(d, e, ps[i], pc)
    ensures At(s, d.namesOffset, NameListBytes(e, ps[i].node)) && d.hasTemps == ps[i].node.HasTemps()
    ensures d.hasContextTemps == ps[i].node.HasContextTemps() && d.hasExprStack == ps[i].node.HasExprStack()
  {
    hide At, ScopeBytes, NameListBytes, ShowsKind;
    assert At(s, ps[i].at, ScopeOf(e, ps, i));
    ScopeParts(s, e, ps[i]);
  }

  /** `sender`: the scope at the sender's offset; the root has none. */
  method SenderOf(s: NativeMethodScopes, d: ScopeDescriptor, pc: int, ghost e: Env, ghost ps: seq<Placed>, ghost i: nat,
                  ghost j: nat)
    returns (r: Option<ScopeDescriptor>)
    requires Backed(s, e) && i < |ps| && Shows(d, e, ps[i], pc) && (i > 0 ==> SentBy(ps, i, j) && ps[j].at < ps[i].at)
    requires ps[0].at == 0
    requires forall k :: 0 <= k < |ps| ==> ps[k].at >= 0 && At(s, ps[k].at, ScopeOf(e, ps, k))
    ensures i == 0 ==> r == None
    ensures i > 0 ==> r.Some? && Shows(r.value, e, ps[j], pc)
  {
    hide At, ScopeBytes, Backed, ShowsKind, NameListBytes;
    if d.senderScopeOffset == 0 {
      return None;
    }
    assert At(s, ps[j].at, ScopeOf(e, ps, j));
    r := ScopeAt(s, d.offset - d.senderScopeOffset, pc, e, Some(ps[j]));
  }

  /** `parent` of an inlined block: the scope that was recorded as its parent. */
  method ParentOf(s: NativeMethodScopes, d: ScopeDescriptor, pc: int, ghost e: Env, ghost ps: seq<Placed>, ghost i: nat,
                  ghost j: nat)
    returns (r: Option<ScopeDescriptor>)
    requires Backed(s, e) && i < |ps| && Shows(d, e, ps[i], pc) && ps[i].node.kind.BlockScope? && Registered(e, ps)
    requires j < |ps| && ps[j].node.id == ps[i].node.kind.parent && ps[j].at != ps[i].at
    requires forall k :: 0 <= k < |ps| ==> ps[k].at >= 0 && At(s, ps[k].at, ScopeOf(e, ps, k))
    ensures r.Some? && Shows(r.value, e, ps[j], pc)
  {
    hide At, ScopeBytes, Backed, NameListBytes;
    assert At(s, ps[j].at, ScopeOf(e, ps, j)) && e.offsets[ps[j].node.id] == ps[j].at;
    if d.parentScopeOffset == 0 {
      return None;
    }
    r := ScopeAt(s, d.offset - d.parentScopeOffset, pc, e, Some(ps[j]));
  }

  // ---- dependencies ---------------------------------------------------------------------------------------------

  /** The end mark is the index of the last class but is used as a length: one class is left out, so that
      all classes are reached exactly if there are none. */
  lemma LastDependentLeftOut(dependents: seq<int>, oops: seq<int>, end: nat)
    requires (forall i :: 0 <= i < |dependents| ==> dependents[i] in oops)
    requires (forall k :: 0 <= k < |oops| ==> oops[k] in dependents)
    requires (forall i, j :: 0 <= i < j < |oops| ==> oops[i] != oops[j])
    requires end == if dependents == [] then 0 else |oops| - 1
    ensures end <= |oops|
    ensures ((forall i :: 0 <= i < |dependents| ==> dependents[i] in oops[..end]) <==> dependents == [])
    ensures forall i :: 0 <= i < |dependents| ==> end < |oops| && dependents[i] in oops[..end + 1]
    ensures forall i :: 0 <= i < |dependents| ==> (dependents[i] in oops[..end] <==> dependents[i] != oops[end])
  {
    if dependents != [] {
      assert dependents[0] in oops && oops[..end + 1] == oops;
      assert oops[end] in dependents;
      var i :| 0 <= i < |dependents| && dependents[i] == oops[end];
      assert dependents[i] !in oops[..end];
    }
  }
}
