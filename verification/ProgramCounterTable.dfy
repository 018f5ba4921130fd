/** The table from code positions to scopes and byte codes: how the compiler fills it, what is left of
    its entries in the 16-bit records of a finished method, and how it is searched. */
module ProgramCounterTable {
  import opened Basics

  datatype Scope = Scope(id: nat, lite: bool)

  datatype Node = Node(pc: int, scope: Scope, byteCode: int)

  datatype Place = Place(scope: Scope, byteCode: int)

  // ---- meaning ---------------------------------------------------------------------------------------------

  predicate Increasing(s: seq<Node>) {
    forall i, j :: 0 <= i < j < |s| ==> s[i].pc < s[j].pc
  }

  predicate Ascending(s: seq<Node>) {
    forall i, j :: 0 <= i < j < |s| ==> s[i].pc <= s[j].pc
  }

  /** How many entries are at or before pc. */
  function Reached(s: seq<Node>, pc: int): (n: nat)
    ensures n <= |s|
  {
    if s == [] then 0 else if s[|s| - 1].pc <= pc then |s| else Reached(s[..|s| - 1], pc)
  }

  /** The place that the table gives for pc: that of the last entry at or before it. */
  function PlaceAt(s: seq<Node>, pc: int): Option<Place> {
    var n := Reached(s, pc);
    if n == 0 then None else Some(Place(s[n - 1].scope, s[n - 1].byteCode))
  }

  lemma {:induction false} ReachedIs(s: seq<Node>, pc: int, n: nat)
    requires Ascending(s) && n <= |s| && (n > 0 ==> s[n - 1].pc <= pc) && (n < |s| ==> pc < s[n].pc)
    ensures Reached(s, pc) == n
    decreases |s|
  {
    if n < |s| {
      assert s[n].pc <= s[|s| - 1].pc;
      ReachedIs(s[..|s| - 1], pc, n);
    }
  }

  lemma {:induction false} ReachedSplits(s: seq<Node>, pc: int)
    requires Ascending(s)
    ensures var n := Reached(s, pc);
      (forall i :: 0 <= i < n ==> s[i].pc <= pc) && (forall i :: n <= i < |s| ==> pc < s[i].pc)
    decreases |s|
  {
    if s != [] && s[|s| - 1].pc > pc {
      ReachedSplits(s[..|s| - 1], pc);
    }
  }

  // ---- filling the table ---------------------------------------------------------------------------------------

  class ProgramCounterDescriptorInfo {
    var nodes: array<Node>
    var end: nat

    ghost predicate Valid()
      reads this, nodes
    {
      0 < nodes.Length && end <= nodes.Length
    }

    ghost function Contents(): seq<Node>
      requires Valid()
      reads this, nodes
    {
      nodes[..end]
    }

    constructor (size: nat)
      requires 0 < size
      ensures Valid() && fresh(nodes) && Contents() == []
    {
      nodes := new Node[size](_ => Node(0, Scope(0, false), 0));
      end := 0;
    }

    method Extend(newSize: nat)
      requires Valid() && end <= newSize && 0 < newSize
      modifies this`nodes
      ensures Valid() && fresh(nodes) && nodes.Length == newSize && Contents() == old(Contents())
    {
      var newNodes := new Node[newSize](_ => Node(0, Scope(0, false), 0));
      var i := 0;
      while i < end
        invariant i <= end && nodes == old(nodes) && nodes[..] == old(nodes[..]) && newNodes[..i] == nodes[..i]
      {
        newNodes[i] := nodes[i];
        i := i + 1;
      }
      nodes := newNodes;
    }

    /** `add`: from pc on the table gives this place, below pc what it gave before; with compression
        it stays strictly increasing. */
    method Add(pc: int, scope: Scope, byteCode: int, generateLite: bool, compress: bool)
      requires Valid() && Ascending(Contents())
      modifies this, nodes
      ensures Valid() && Ascending(Contents()) && (nodes == old(nodes) || fresh(nodes))
      ensures scope.lite && !generateLite ==> Contents() == old(Contents())
      ensures !scope.lite || generateLite ==> forall q ::
        PlaceAt(Contents(), q) == if q < pc then PlaceAt(old(Contents()), q) else Some(Place(scope, byteCode))
      ensures compress && Increasing(old(Contents())) ==> Increasing(Contents())
      ensures (!scope.lite || generateLite) && Behind(old(Contents()), pc, byteCode) ==>
        Contents() == old(Contents()) + [Node(pc, scope, byteCode)]
      ensures !scope.lite || generateLite ==> EndsBy(old(Contents()), Contents(), Node(pc, scope, byteCode))
    {
      hide Ascending, Increasing, PlaceAt, EndsBy;
      if scope.lite && !generateLite {
        return;
      }
      ghost var s := Contents();
      if end == nodes.Length {
        Extend(nodes.Length * 2);
      }
      Truncate(pc);
      Append(pc, scope, byteCode, compress, s);
    }

    /** The new entry, unless compression makes it unnecessary or puts it in the place of the last. */
    method Append(pc: int, scope: Scope, byteCode: int, compress: bool, ghost s: seq<Node>)
      requires Valid() && end < nodes.Length && end <= |s| && Contents() == s[..end] && Ascending(s)
      requires (end > 0 ==> s[end - 1].pc <= pc) && (end < |s| ==> pc < s[end].pc)
      modifies this`end, nodes
      ensures Valid() && Ascending(Contents()) && (compress && Increasing(s) ==> Increasing(Contents()))
      ensures forall q :: PlaceAt(Contents(), q) == if q < pc then PlaceAt(s, q) else Some(Place(scope, byteCode))
      ensures Behind(s, pc, byteCode) ==> Contents() == s + [Node(pc, scope, byteCode)]
      ensures EndsBy(s, Contents(), Node(pc, scope, byteCode))
    {
      hide Ascending, Increasing, PlaceAt, EndsBy;
      ghost var n := end;
      AllBehind(s, n, pc, byteCode);
      if compress && end > 0 {
        assert nodes[end - 1] == s[end - 1];
        if scope == nodes[end - 1].scope && byteCode == nodes[end - 1].byteCode {
          Skipped(s, end, pc);
          Ends(s, end, Node(pc, scope, byteCode));
          return;
        }
        if pc == nodes[end - 1].pc {
          end := end - 1;
        }
      }
      ghost var k := end;
      assert Contents() == s[..k];
      Put(Node(pc, scope, byteCode));
      Appended(s, n, k, pc, scope, byteCode);
      Ends(s, k, Node(pc, scope, byteCode));
      StaysIncreasing(s, n, k, pc, scope, byteCode);
    }

    method Put(node: Node)
      requires Valid() && end < nodes.Length
      modifies this`end, nodes
      ensures Valid() && Contents() == old(Contents()) + [node]
    {
      nodes[end] := node;
      end := end + 1;
    }

    /** Entries behind pc describe code that jump elimination has erased. */
    method Truncate(pc: int)
      requires Valid() && end < nodes.Length
      modifies this`end
      ensures end <= old(end) && Contents() == old(Contents())[..end]
      ensures (end > 0 ==> nodes[end - 1].pc <= pc) && (end < old(end) ==> pc < nodes[end].pc)
    {
      while end > 0 && pc < nodes[end - 1].pc
        invariant end <= old(end) && (end < old(end) ==> pc < nodes[end].pc)
        decreases end
      {
        end := end - 1;
      }
    }

    /** `copy_to`: the entries as records of three 16-bit fields; scopes are given by their offset. */
    method CopyTo(offsets: map<nat, int>) returns (records: seq<Record>)
      requires Valid() && Scoped(Contents(), offsets)
      ensures RecordsOf(Contents(), offsets, records)
    {
      records := [];
      var i := 0;
      while i < end
        invariant i <= end && |records| == i
        invariant forall k :: 0 <= k < i ==> records[k] == RecordOf(Contents()[k], offsets)
      {
        assert Contents()[i] == nodes[i];
        records := records + [RecordOf(nodes[i], offsets)];
        i := i + 1;
      }
    }
  }

  /** Dropping the entries behind pc changes nothing before it. */
  lemma Dropped(s: seq<Node>, n: nat, pc: int)
    requires Ascending(s) && n <= |s| && (n < |s| ==> pc < s[n].pc) && (n > 0 ==> s[n - 1].pc <= pc)
    ensures Ascending(s[..n]) && (Increasing(s) ==> Increasing(s[..n]))
    ensures forall q :: q <= pc ==> Reached(s[..n], q) == Reached(s, q)
    ensures forall q :: q >= pc ==> Reached(s[..n], q) == n
  {
    forall q
      ensures q <= pc ==> Reached(s[..n], q) == Reached(s, q)
      ensures q >= pc ==> Reached(s[..n], q) == n
    {
      if q <= pc {
        ReachedSplits(s, q);
        var r := Reached(s, q);
        assert r <= n;
        ReachedIs(s[..n], q, r);
      } else {
        ReachedIs(s[..n], q, n);
      }
    }
  }

  lemma Skipped(s: seq<Node>, n: nat, pc: int)
    requires Ascending(s) && 0 < n <= |s| && (n < |s| ==> pc < s[n].pc) && s[n - 1].pc <= pc
    ensures Ascending(s[..n]) && (Increasing(s) ==> Increasing(s[..n]))
    ensures forall q ::
      PlaceAt(s[..n], q) == if q < pc then PlaceAt(s, q) else Some(Place(s[n - 1].scope, s[n - 1].byteCode))
  {
    Dropped(s, n, pc);
  }

  lemma Appended(s: seq<Node>, n: nat, k: nat, pc: int, scope: Scope, byteCode: int)
    requires Ascending(s) && n <= |s| && (n < |s| ==> pc < s[n].pc) && (n > 0 ==> s[n - 1].pc <= pc)
    requires k == n || (k == n - 1 && s[n - 1].pc == pc)
    ensures var t := s[..k] + [Node(pc, scope, byteCode)];
      Ascending(t) && forall q :: PlaceAt(t, q) == if q < pc then PlaceAt(s, q) else Some(Place(scope, byteCode))
  {
    var t := s[..k] + [Node(pc, scope, byteCode)];
    forall q
      ensures PlaceAt(t, q) == if q < pc then PlaceAt(s, q) else Some(Place(scope, byteCode))
    {
      if q < pc {
        ReachedSplits(s, q);
        var r := Reached(s, q);
        assert r <= k;
        ReachedIs(t, q, r);
      } else {
        ReachedIs(t, q, k + 1);
      }
    }
  }

  /** Compression writes over an entry for the same position. */
  lemma StaysIncreasing(s: seq<Node>, n: nat, k: nat, pc: int, scope: Scope, byteCode: int)
    requires Ascending(s) && n <= |s| && (n > 0 ==> s[n - 1].pc <= pc)
    requires if n > 0 && s[n - 1].pc == pc then k == n - 1 || k == n else k == n
    ensures Increasing(s) && (n > 0 && s[n - 1].pc == pc ==> k == n - 1) ==>
      Increasing(s[..k] + [Node(pc, scope, byteCode)])
  {}

  /** The new table is a part of the old one from its start, possibly with the new entry, up to the position
      of this. */
  ghost predicate EndsBy(s: seq<Node>, t: seq<Node>, n: Node) {
    && t != [] && t[|t| - 1].pc <= n.pc
    && exists k :: 0 <= k <= |s| && (t == s[..k] || t == s[..k] + [n])
  }

  lemma Ends(s: seq<Node>, k: nat, n: Node)
    requires k <= |s|
    ensures EndsBy(s, s[..k] + [n], n) && (k > 0 && s[k - 1].pc <= n.pc ==> EndsBy(s, s[..k], n))
  {}

  lemma AllBehind(s: seq<Node>, n: nat, pc: int, byteCode: int)
    requires Ascending(s) && n <= |s| && (n < |s| ==> pc < s[n].pc)
    ensures Behind(s, pc, byteCode) ==> n == |s|
  {}

  /** Nothing at or behind pc, and another place at the end. */
  predicate Behind(s: seq<Node>, pc: int, byteCode: int) {
    s == [] || (s[|s| - 1].pc < pc && s[|s| - 1].byteCode != byteCode)
  }

  // ---- records ---------------------------------------------------------------------------------------------------

  type Half = x: int | 0 <= x < 0x10000

  datatype Record = Record(pc: Half, scope: Half, byteCode: Half)

  function RecordOf(n: Node, offsets: map<nat, int>): Record
    requires n.scope.id in offsets
  {
    Record(n.pc % 0x10000, offsets[n.scope.id] % 0x10000, n.byteCode % 0x10000)
  }

  predicate RecordsAscending(r: seq<Record>) {
    forall i, j :: 0 <= i < j < |r| ==> r[i].pc <= r[j].pc
  }

  predicate Scoped(s: seq<Node>, offsets: map<nat, int>) {
    forall i :: 0 <= i < |s| ==> s[i].scope.id in offsets
  }

  predicate RecordsOf(s: seq<Node>, offsets: map<nat, int>, r: seq<Record>)
    requires Scoped(s, offsets)
  {
    |r| == |s| && forall i :: 0 <= i < |s| ==> r[i] == RecordOf(s[i], offsets)
  }

  /** Each field is kept in all records exactly if it fits into 16 bits in all entries. */
  lemma RecordsExact(s: seq<Node>, offsets: map<nat, int>, r: seq<Record>)
    requires Scoped(s, offsets) && RecordsOf(s, offsets, r)
    ensures (forall i :: 0 <= i < |s| ==> r[i].pc == s[i].pc) <==> (forall i :: 0 <= i < |s| ==> 0 <= s[i].pc < 0x10000)
    ensures (forall i :: 0 <= i < |s| ==> r[i].scope == offsets[s[i].scope.id]) <==>
      (forall i :: 0 <= i < |s| ==> 0 <= offsets[s[i].scope.id] < 0x10000)
    ensures (forall i :: 0 <= i < |s| ==> r[i].byteCode == s[i].byteCode) <==>
      (forall i :: 0 <= i < |s| ==> 0 <= s[i].byteCode < 0x10000)
  {
    forall i | 0 <= i < |s|
      ensures r[i].pc == s[i].pc <==> 0 <= s[i].pc < 0x10000
      ensures r[i].scope == offsets[s[i].scope.id] <==> 0 <= offsets[s[i].scope.id] < 0x10000
      ensures r[i].byteCode == s[i].byteCode <==> 0 <= s[i].byteCode < 0x10000
    {
      assert r[i] == RecordOf(s[i], offsets);
    }
  }

  /** From each entry to the next it is at least 64K for every multiple of 64K that is passed. */
  predicate FarOverBoundaries(s: seq<Node>) {
    forall i :: 0 <= i < |s| - 1 ==> FarOver(s[i].pc, s[i + 1].pc)
  }

  predicate FarOver(a: int, b: int) {
    b - a >= 0x10000 * (b / 0x10000 - a / 0x10000)
  }

  lemma RemaindersOrdered(a: int, b: int)
    ensures a % 0x10000 <= b % 0x10000 <==> FarOver(a, b)
  {
    var q, p := a / 0x10000, b / 0x10000;
    assert a == 0x10000 * q + a % 0x10000 && b == 0x10000 * p + b % 0x10000;
  }

  /** The records are in order exactly if that is so; in particular if all positions are below 64K. */
  lemma RecordsKeepOrder(s: seq<Node>, offsets: map<nat, int>, r: seq<Record>)
    requires Scoped(s, offsets) && RecordsOf(s, offsets, r)
    ensures RecordsAscending(r) <==> FarOverBoundaries(s)
  {
    hide FarOver;
    forall i | 0 <= i < |s| - 1
      ensures r[i].pc <= r[i + 1].pc <==> FarOver(s[i].pc, s[i + 1].pc)
    {
      assert r[i] == RecordOf(s[i], offsets) && r[i + 1] == RecordOf(s[i + 1], offsets);
      RemaindersOrdered(s[i].pc, s[i + 1].pc);
    }
    if forall i :: 0 <= i < |s| - 1 ==> FarOver(s[i].pc, s[i + 1].pc) {
      forall i, j | 0 <= i < j < |r|
        ensures r[i].pc <= r[j].pc
      {
        StepsAscend(r, i, j);
      }
    }
  }

  lemma {:induction false} StepsAscend(r: seq<Record>, i: nat, j: nat)
    requires i <= j < |r| && forall k :: 0 <= k < |r| - 1 ==> r[k].pc <= r[k + 1].pc
    ensures r[i].pc <= r[j].pc
    decreases j
  {
    if i < j {
      StepsAscend(r, i, j - 1);
    }
  }

  /** A method of more than 64K: an increasing table whose records are out of order, since 65536 wraps
      around to 0. */
  method RecordsOutOfOrder() returns (info: ProgramCounterDescriptorInfo, offsets: map<nat, int>, records: seq<Record>)
    ensures info.Valid() && Increasing(info.Contents()) && Scoped(info.Contents(), offsets)
    ensures RecordsOf(info.Contents(), offsets, records) && !RecordsAscending(records)
  {
    info := new ProgramCounterDescriptorInfo(2);
    var scope := Scope(0, false);
    offsets := map[0 := 0];
    info.Add(1, scope, 0, false, true);
    info.Add(0x10000, scope, 1, false, true);
    records := info.CopyTo(offsets);
    assert records[0].pc == 1 && records[1].pc == 0;
  }

  // ---- searching -------------------------------------------------------------------------------------------------

  /** `containingProgramCounterDescriptorOrNULL`: with several records the last one at or before the
      offset, none if there is none; a single record is returned whatever the offset is. */
  method Containing(pcs: array<Record>, start: nat, offset: int) returns (r: Option<nat>)
    requires start < pcs.Length
    ensures start == pcs.Length - 1 ==> r == Some(start)
    ensures r.Some? ==> start <= r.value < pcs.Length
    ensures start < pcs.Length - 1 && RecordsAscending(pcs[start..]) ==> (r == None <==> offset < pcs[start].pc)
    ensures start < pcs.Length - 1 && RecordsAscending(pcs[start..]) && r.Some? ==>
      pcs[r.value].pc <= offset && forall i :: r.value < i < pcs.Length ==> offset < pcs[i].pc
    ensures (forall i :: start <= i < pcs.Length ==> pcs[i].pc <= offset) ==> r == Some(pcs.Length - 1)
  {
    var end := pcs.Length - 1;
    if start == end {
      return Some(start);
    }
    ghost var ascending := RecordsAscending(pcs[start..]);
    SliceAscending(pcs[..], start);
    var middle := Bisect(pcs, start, offset);
    while pcs[middle].pc <= offset && middle < end
      invariant start <= middle <= end
      invariant ascending ==> forall i :: start <= i < middle ==> pcs[i].pc <= offset || pcs[middle].pc > offset
      decreases end - middle
    {
      middle := middle + 1;
    }
    while pcs[middle].pc > offset && middle > start
      invariant start <= middle <= end
      invariant ascending ==> forall i :: middle < i <= end ==> offset < pcs[i].pc
      invariant (forall i :: start <= i <= end ==> pcs[i].pc <= offset) ==> middle == end
      decreases middle
    {
      middle := middle - 1;
    }
    if pcs[middle].pc > offset {
      return None;
    }
    return Some(middle);
  }

  lemma SliceAscending(r: seq<Record>, start: nat)
    requires start <= |r|
    ensures RecordsAscending(r[start..]) ==> forall i, j :: start <= i < j < |r| ==> r[i].pc <= r[j].pc
  {
    forall i, j | RecordsAscending(r[start..]) && start <= i < j < |r|
      ensures r[i].pc <= r[j].pc
    {
      assert r[start..][i - start] == r[i] && r[start..][j - start] == r[j];
    }
  }

  /** The binary search: it ends on some record, which only has to be near the one wanted. */
  method Bisect(pcs: array<Record>, start: nat, offset: int) returns (middle: nat)
    requires start < pcs.Length - 1
    ensures start <= middle < pcs.Length
  {
    var l, h := 0, pcs.Length - 1 - start;
    var m := l + (h - l) / 2;
    middle := start + m;
    if pcs[middle].pc < offset { l := m + 1; } else { h := m - 1; }
    while pcs[middle].pc != offset && l < h
      invariant start <= middle < pcs.Length && 0 <= l && h < pcs.Length - start
      decreases h - l
    {
      m := l + (h - l) / 2;
      middle := start + m;
      if pcs[middle].pc < offset { l := m + 1; } else { h := m - 1; }
    }
  }

  /** The last entry at or before the offset is the one that the table means. */
  lemma SearchFindsPlace(s: seq<Node>, offset: int, r: Option<nat>)
    requires Ascending(s) && s != []
    requires match r
      case None => offset < s[0].pc
      case Some(k) => k < |s| && s[k].pc <= offset && forall i :: k < i < |s| ==> offset < s[i].pc
    ensures Reached(s, offset) == match r case None => 0 case Some(k) => k + 1
  {
    ReachedIs(s, offset, match r case None => 0 case Some(k) => k + 1);
  }

  // ---- from the table to the record found ----------------------------------------------------------------------

  /** Finishing the table and looking an offset up. With several entries the record of the right entry
      is found for every offset exactly if the last position fits into 16 bits: otherwise already the
      offset before the last entry is given the last record. */
  method CopyAndFind(info: ProgramCounterDescriptorInfo, offsets: map<nat, int>, offset: int)
    returns (pcs: array<Record>, k: Option<nat>)
    requires info.Valid() && info.Contents() != [] && Increasing(info.Contents()) && Scoped(info.Contents(), offsets)
    requires info.Contents()[0].pc >= 0
    ensures RecordsOf(info.Contents(), offsets, pcs[..]) && (k.Some? ==> k.value < |info.Contents()|)
    ensures var s := info.Contents();
      && (|s| == 1 ==> k == Some(0))
      && (|s| > 1 && s[|s| - 1].pc < 0x10000 ==>
           k == if Reached(s, offset) == 0 then None else Some(Reached(s, offset) - 1))
      && (|s| > 1 && s[|s| - 1].pc >= 0x10000 && offset == s[|s| - 1].pc - 1 ==>
           k == Some(|s| - 1) && Reached(s, offset) == |s| - 1)
  {
    hide Increasing, RecordsAscending, Reached;
    var records := info.CopyTo(offsets);
    ghost var s := info.Contents();
    pcs := new Record[|records|](i requires 0 <= i < |records| => records[i]);
    assert pcs[..] == records && pcs[0..] == records;
    k := Containing(pcs, 0, offset);
    RecordFound(s, offsets, records, offset, k);
  }

  lemma RecordFound(s: seq<Node>, offsets: map<nat, int>, r: seq<Record>, offset: int, k: Option<nat>)
    requires Increasing(s) && s != [] && s[0].pc >= 0 && Scoped(s, offsets) && RecordsOf(s, offsets, r)
    requires |r| > 1 && RecordsAscending(r) ==> match k
      case None => offset < r[0].pc
      case Some(i) => i < |r| && r[i].pc <= offset && forall j :: i < j < |r| ==> offset < r[j].pc
    requires (forall i :: 0 <= i < |r| ==> r[i].pc <= offset) ==> k == Some(|r| - 1)
    ensures |s| > 1 && s[|s| - 1].pc < 0x10000 ==>
      k == if Reached(s, offset) == 0 then None else Some(Reached(s, offset) - 1)
    ensures |s| > 1 && s[|s| - 1].pc >= 0x10000 && offset == s[|s| - 1].pc - 1 ==>
      k == Some(|s| - 1) && Reached(s, offset) == |s| - 1
  {
    hide RecordOf;
    Narrow(s, offsets, r);
    if |s| > 1 && s[|s| - 1].pc < 0x10000 {
      SearchFindsPlace(s, offset, k);
    } else if |s| > 1 && offset == s[|s| - 1].pc - 1 {
      ReachedIs(s, offset, |s| - 1);
    }
  }

  lemma Narrow(s: seq<Node>, offsets: map<nat, int>, r: seq<Record>)
    requires Increasing(s) && s != [] && s[0].pc >= 0 && Scoped(s, offsets) && RecordsOf(s, offsets, r)
    ensures Ascending(s) && forall i :: 0 <= i < |s| ==> s[0].pc <= s[i].pc <= s[|s| - 1].pc && r[i].pc < 0x10000
    ensures s[|s| - 1].pc < 0x10000 ==> RecordsAscending(r) && forall i :: 0 <= i < |s| ==> r[i].pc == s[i].pc
  {
    forall i | 0 <= i < |s|
      ensures s[0].pc <= s[i].pc <= s[|s| - 1].pc
    {}
    RecordsExact(s, offsets, r);
  }

  /** Adding a position, finishing the table and looking an offset up: from the position on the record
      found shows the place added, below it what the table meant before. */
  method AddCopyAndFind(info: ProgramCounterDescriptorInfo, pc: int, scope: Scope, byteCode: int,
                        offsets: map<nat, int>, offset: int)
    returns (pcs: array<Record>, k: Option<nat>)
    requires info.Valid() && Increasing(info.Contents()) && !scope.lite && 0 <= pc < 0x10000
    requires (forall n :: n in info.Contents() ==> n.scope.id in offsets && n.pc >= 0) && scope.id in offsets
    modifies info, info.nodes
    ensures info.Valid() && |info.Contents()| == pcs.Length && Increasing(info.Contents())
    ensures pcs.Length > 1 ==>
      match (if offset < pc then old(PlaceAt(info.Contents(), offset)) else Some(Place(scope, byteCode)))
      case None => k == None
      case Some(p) => k.Some? && k.value < pcs.Length && p.scope.id in offsets && ShowsPlace(pcs[k.value], p, offsets)
  {
    hide Increasing, Ascending, Reached, RecordOf;
    ghost var s0 := info.Contents();
    IncreasingAscends(s0);
    info.Add(pc, scope, byteCode, false, true);
    ghost var s := info.Contents();
    assert PlaceAt(s, offset) == if offset < pc then PlaceAt(s0, offset) else Some(Place(scope, byteCode));
    StillScoped(s0, s, Node(pc, scope, byteCode), offsets);
    pcs, k := CopyAndFind(info, offsets, offset);
    assert pcs[..] == pcs[..pcs.Length];
    if k.Some? && pcs.Length > 1 {
      RecordShows(s[k.value], offsets, pcs[..][k.value]);
    }
  }

  lemma IncreasingAscends(s: seq<Node>)
    requires Increasing(s)
    ensures Ascending(s)
  {}

  predicate ShowsPlace(r: Record, p: Place, offsets: map<nat, int>)
    requires p.scope.id in offsets
  {
    r.scope == offsets[p.scope.id] % 0x10000 && r.byteCode == p.byteCode % 0x10000
  }

  lemma RecordShows(n: Node, offsets: map<nat, int>, r: Record)
    requires n.scope.id in offsets && r == RecordOf(n, offsets)
    ensures ShowsPlace(r, Place(n.scope, n.byteCode), offsets)
  {}

  lemma StillScoped(s: seq<Node>, t: seq<Node>, n: Node, offsets: map<nat, int>)
    requires EndsBy(s, t, n) && n.scope.id in offsets && n.pc >= 0
    requires forall m :: m in s ==> m.scope.id in offsets && m.pc >= 0
    ensures Scoped(t, offsets) && t[0].pc >= 0
  {
    forall i | 0 <= i < |t|
      ensures t[i].scope.id in offsets && t[i].pc >= 0
    {
      assert t[i] in s || t[i] == n;
    }
  }

  /** A lone record is found even for an offset before it, for which the table means nothing. */
  method LoneRecordFound() returns (info: ProgramCounterDescriptorInfo, offset: int, k: Option<nat>)
    ensures info.Valid() && Increasing(info.Contents()) && PlaceAt(info.Contents(), offset) == None && k == Some(0)
  {
    info := new ProgramCounterDescriptorInfo(1);
    info.Add(5, Scope(0, false), 0, false, true);
    offset := 3;
    var pcs;
    pcs, k := CopyAndFind(info, map[0 := 0], offset);
  }
}
