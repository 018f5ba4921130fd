/** Reference counts and free lists of argument, register and stack locations, all kept in one
    integer array: a negative entry is a use count, a non-negative one a link to the next free
    location of the same kind. */
module LocationPool {
  import opened Machine

  const SENTINEL := 999999999
  const NO_LOCATION := -1
  const MAX_USABLE_REGISTERS := 6

  /** The number of arguments and registers, which fix the numbering of locations. */
  datatype Layout = Layout(nofArguments: nat, nofRegisters: nat) {
    predicate IsArgument(l: int) { 0 <= l < nofArguments }
    predicate IsRegister(l: int) { nofArguments <= l < nofArguments + nofRegisters }
    predicate IsStackTmp(l: int) { nofArguments + nofRegisters <= l }
    function StackTmpsBeg(): nat { nofArguments + nofRegisters }
  }

  // ---- locations as machine operands ---------------------------------------------------------

  /** eax, ebx, ecx, edx, edi, esi in that order, by their hardware numbers. */
  function RegisterNumber(k: int): nat {
    match k
    case 0 => 0
    case 1 => 3
    case 2 => 1
    case 3 => 2
    case 4 => 7
    case _ => 6
  }

  /** The register, or the frame slot off the frame pointer, that a location stands for. */
  function OperandOf(y: Layout, l: int): Operand {
    if y.IsArgument(l) then Frame(2 + (y.nofArguments - 1 - l))
    else if y.IsRegister(l) then Reg(RegisterNumber(l - y.nofArguments))
    else Frame(-1 - (l - y.StackTmpsBeg()))
  }

  function RegisterAsLocation(y: Layout, number: nat): int {
    y.nofArguments + match number
      case 0 => 0
      case 3 => 1
      case 1 => 2
      case 2 => 3
      case 7 => 4
      case _ => 5
  }

  lemma OperandsDiffer(y: Layout, k: int, l: int)
    requires y.nofRegisters <= MAX_USABLE_REGISTERS && 0 <= k && 0 <= l
    ensures OperandOf(y, k) == OperandOf(y, l) ==> k == l
  {}

  // ---- a free list threaded through the array -------------------------------------------------

  /** The element after position k, or the end marker. */
  function Next(c: seq<int>, k: int): int
    requires 0 <= k + 1
  {
    if k + 1 < |c| then c[k + 1] else SENTINEL
  }

  /** `c` lists, in order and without repetition, the free locations of `[lo, hi)`: the list starts
      at `first`, follows the links in `fl` and ends in the sentinel; nothing free is left out. */
  ghost predicate Threads(fl: seq<int>, first: int, c: seq<int>, lo: int, hi: int) {
    && 0 <= lo <= hi <= |fl| <= SENTINEL
    && first == Next(c, -1)
    && (forall k :: 0 <= k < |c| ==> lo <= c[k] < hi && fl[c[k]] == Next(c, k))
    && (forall a, b :: 0 <= a < b < |c| ==> c[a] != c[b])
    && (forall i :: lo <= i < hi ==> (fl[i] >= 0 <==> i in c))
  }

  lemma ThreadsPop(fl: seq<int>, first: int, c: seq<int>, lo: int, hi: int)
    requires Threads(fl, first, c, lo, hi) && c != []
    ensures Threads(fl[first := -1], fl[first], c[1..], lo, hi)
  {
    assert c == [first] + c[1..];
  }

  lemma ThreadsPush(fl: seq<int>, first: int, c: seq<int>, lo: int, hi: int, i: int)
    requires Threads(fl, first, c, lo, hi) && lo <= i < hi && fl[i] < 0
    ensures Threads(fl[i := first], i, [i] + c, lo, hi)
  {}

  function Without(c: seq<int>, k: nat): (d: seq<int>)
    requires k < |c|
    ensures |d| == |c| - 1
    ensures forall m :: 0 <= m < |d| ==> d[m] == c[if m < k then m else m + 1]
  {
    c[..k] + c[k + 1..]
  }

  lemma InWithout(c: seq<int>, k: nat, i: int)
    requires k < |c| && forall a, b :: 0 <= a < b < |c| ==> c[a] != c[b]
    ensures i in Without(c, k) <==> i in c && i != c[k]
  {
    if i in c && i != c[k] {
      var m :| 0 <= m < |c| && c[m] == i;
      assert Without(c, k)[if m < k then m else m - 1] == i;
    }
  }

  lemma WithoutDistinct(c: seq<int>, k: nat)
    requires k < |c| && forall a, b :: 0 <= a < b < |c| ==> c[a] != c[b]
    ensures forall a, b :: 0 <= a < b < |c| - 1 ==> Without(c, k)[a] != Without(c, k)[b]
  {}

  function Unlinked(fl: seq<int>, c: seq<int>, k: nat): seq<int>
    requires 0 < k < |c| && 0 <= c[k - 1] < |fl| && 0 <= c[k] < |fl|
  {
    fl[c[k - 1] := fl[c[k]]][c[k] := -1]
  }

  lemma UnlinkedLink(fl: seq<int>, first: int, c: seq<int>, lo: int, hi: int, k: nat, m: nat)
    requires Threads(fl, first, c, lo, hi) && 0 < k < |c| && m < |c| - 1
    ensures Unlinked(fl, c, k)[Without(c, k)[m]] == Next(Without(c, k), m)
  {
    hide Without;
    var n := if m < k then m else m + 1;
    assert Without(c, k)[m] == c[n] != c[k];
    assert fl[c[n]] == Next(c, n) && fl[c[k]] == Next(c, k);
    if m == k - 1 {
      assert Unlinked(fl, c, k)[c[n]] == Next(c, k);
    } else {
      assert c[n] != c[k - 1];
    }
  }

  /** Removing the k-th element of the list by redirecting its predecessor's link. */
  lemma ThreadsUnlink(fl: seq<int>, first: int, c: seq<int>, lo: int, hi: int, k: nat)
    requires Threads(fl, first, c, lo, hi) && 0 < k < |c|
    ensures Threads(Unlinked(fl, c, k), first, Without(c, k), lo, hi)
  {
    hide Without;
    var d := Without(c, k);
    forall m | 0 <= m < |d|
      ensures lo <= d[m] < hi && Unlinked(fl, c, k)[d[m]] == Next(d, m)
    {
      UnlinkedLink(fl, first, c, lo, hi, k, m);
    }
    WithoutDistinct(c, k);
    forall j | lo <= j < hi
      ensures Unlinked(fl, c, k)[j] >= 0 <==> j in d
    {
      InWithout(c, k, j);
      assert fl[c[k]] == Next(c, k) >= 0;
    }
  }

  lemma ThreadsElsewhere(fl: seq<int>, first: int, c: seq<int>, lo: int, hi: int, j: int, v: int)
    requires Threads(fl, first, c, lo, hi) && 0 <= j < |fl|
    requires j < lo || hi <= j || (fl[j] < 0 && v < 0)
    ensures Threads(fl[j := v], first, c, lo, hi)
  {}

  lemma ThreadsAgree(fl: seq<int>, first: int, c: seq<int>, lo: int, hi: int, fl': seq<int>)
    requires Threads(fl, first, c, lo, hi) && |fl'| == |fl|
    requires forall j :: lo <= j < hi ==> fl'[j] == fl[j]
    ensures Threads(fl', first, c, lo, hi)
  {}

  lemma ThreadsGrow(fl: seq<int>, first: int, c: seq<int>, lo: int)
    requires Threads(fl, first, c, lo, |fl|) && |fl| < SENTINEL
    ensures Threads(fl + [first], |fl|, [|fl|] + c, lo, |fl| + 1)
  {}

  lemma ThreadsKeptByGrowth(fl: seq<int>, first: int, c: seq<int>, lo: int, hi: int, v: int)
    requires Threads(fl, first, c, lo, hi) && |fl| < SENTINEL
    ensures Threads(fl + [v], first, c, lo, hi)
  {}

  // ---- use counts ------------------------------------------------------------------------------

  /** How often each location is in use. */
  function UseCounts(fl: seq<int>): (u: seq<nat>)
    ensures |u| == |fl|
    ensures forall i :: 0 <= i < |fl| ==> u[i] == if fl[i] < 0 then -fl[i] else 0
  {
    seq(|fl|, i requires 0 <= i < |fl| => if fl[i] < 0 then -fl[i] else 0)
  }

  function Total(u: seq<nat>): nat {
    if u == [] then 0 else Total(u[..|u| - 1]) + u[|u| - 1]
  }

  function Zeros(n: nat): (z: seq<nat>)
    ensures |z| == n && forall i :: 0 <= i < n ==> z[i] == 0
  {
    seq(n, _ => 0)
  }

  /** The whole pool is sound: both free lists are complete and argument entries are counts. */
  ghost predicate Sound(y: Layout, fl: seq<int>, freeReg: int, freeTmp: int, regs: seq<int>, tmps: seq<int>) {
    && 1 <= y.nofRegisters <= MAX_USABLE_REGISTERS
    && Threads(fl, freeReg, regs, y.nofArguments, y.StackTmpsBeg())
    && Threads(fl, freeTmp, tmps, y.StackTmpsBeg(), |fl|)
    && forall i :: 0 <= i < y.nofArguments ==> fl[i] <= 0
  }

  lemma SoundFacts(y: Layout, fl: seq<int>, freeReg: int, freeTmp: int, regs: seq<int>, tmps: seq<int>)
    requires Sound(y, fl, freeReg, freeTmp, regs, tmps)
    ensures 1 <= y.nofRegisters <= MAX_USABLE_REGISTERS && y.StackTmpsBeg() <= |fl| <= SENTINEL
    ensures freeReg == Next(regs, -1) && freeTmp == Next(tmps, -1)
    ensures regs != [] ==> y.IsRegister(freeReg) && 0 <= fl[freeReg] == Next(regs, 0)
    ensures tmps != [] ==> y.IsStackTmp(freeTmp) && freeTmp < |fl| && 0 <= fl[freeTmp] == Next(tmps, 0)
    ensures forall i :: y.IsRegister(i) ==> (fl[i] >= 0 <==> i in regs)
    ensures forall i :: y.IsStackTmp(i) && i < |fl| ==> (fl[i] >= 0 <==> i in tmps)
  {}

  lemma TakeRegister(y: Layout, fl: seq<int>, freeReg: int, freeTmp: int, regs: seq<int>, tmps: seq<int>)
    requires Sound(y, fl, freeReg, freeTmp, regs, tmps) && regs != []
    ensures Sound(y, fl[freeReg := -1], fl[freeReg], freeTmp, regs[1..], tmps)
    ensures UseCounts(fl)[freeReg] == 0 && UseCounts(fl[freeReg := -1]) == UseCounts(fl)[freeReg := 1]
  {
    hide Threads;
    SoundFacts(y, fl, freeReg, freeTmp, regs, tmps);
    ThreadsPop(fl, freeReg, regs, y.nofArguments, y.StackTmpsBeg());
    ThreadsElsewhere(fl, freeTmp, tmps, y.StackTmpsBeg(), |fl|, freeReg, -1);
  }

  lemma TakeStackTmp(y: Layout, fl: seq<int>, freeReg: int, freeTmp: int, regs: seq<int>, tmps: seq<int>)
    requires Sound(y, fl, freeReg, freeTmp, regs, tmps) && tmps != []
    ensures Sound(y, fl[freeTmp := -1], freeReg, fl[freeTmp], regs, tmps[1..])
    ensures UseCounts(fl)[freeTmp] == 0 && UseCounts(fl[freeTmp := -1]) == UseCounts(fl)[freeTmp := 1]
  {
    hide Threads;
    SoundFacts(y, fl, freeReg, freeTmp, regs, tmps);
    ThreadsPop(fl, freeTmp, tmps, y.StackTmpsBeg(), |fl|);
    ThreadsElsewhere(fl, freeReg, regs, y.nofArguments, y.StackTmpsBeg(), freeTmp, -1);
  }

  /** Growing the array by one location that is already free. */
  lemma Grow(y: Layout, fl: seq<int>, freeReg: int, freeTmp: int, regs: seq<int>, tmps: seq<int>)
    requires Sound(y, fl, freeReg, freeTmp, regs, tmps) && |fl| < SENTINEL
    ensures Sound(y, fl + [freeTmp], freeReg, |fl|, regs, [|fl|] + tmps)
    ensures UseCounts(fl + [freeTmp]) == UseCounts(fl) + [0]
  {
    hide Threads;
    SoundFacts(y, fl, freeReg, freeTmp, regs, tmps);
    ThreadsGrow(fl, freeTmp, tmps, y.StackTmpsBeg());
    ThreadsKeptByGrowth(fl, freeReg, regs, y.nofArguments, y.StackTmpsBeg(), freeTmp);
  }

  /** Changing the use count of a location that stays in use (or of an argument). */
  lemma Recount(y: Layout, fl: seq<int>, freeReg: int, freeTmp: int, regs: seq<int>, tmps: seq<int>, i: int, v: int)
    requires Sound(y, fl, freeReg, freeTmp, regs, tmps) && 0 <= i < |fl|
    requires if y.IsArgument(i) then v <= 0 else fl[i] < 0 && v < 0
    ensures Sound(y, fl[i := v], freeReg, freeTmp, regs, tmps)
    ensures UseCounts(fl[i := v]) == UseCounts(fl)[i := -v]
  {
    hide Threads;
    SoundFacts(y, fl, freeReg, freeTmp, regs, tmps);
    ThreadsElsewhere(fl, freeReg, regs, y.nofArguments, y.StackTmpsBeg(), i, v);
    ThreadsElsewhere(fl, freeTmp, tmps, y.StackTmpsBeg(), |fl|, i, v);
  }

  lemma Uncount(y: Layout, fl: seq<int>, freeReg: int, freeTmp: int, regs: seq<int>, tmps: seq<int>, i: int)
    requires Sound(y, fl, freeReg, freeTmp, regs, tmps) && 0 <= i < |fl| && fl[i] < 0
    requires !y.IsArgument(i) ==> fl[i] < -1
    ensures Sound(y, fl[i := fl[i] + 1], freeReg, freeTmp, regs, tmps)
    ensures UseCounts(fl[i := fl[i] + 1]) == GiveUp(UseCounts(fl), i)
    ensures !y.IsArgument(i) ==> UseCounts(fl[i := fl[i] + 1])[i] > 0
  {
    hide Sound;
    Recount(y, fl, freeReg, freeTmp, regs, tmps, i, fl[i] + 1);
  }

  lemma GiveRegister(y: Layout, fl: seq<int>, freeReg: int, freeTmp: int, regs: seq<int>, tmps: seq<int>, i: int)
    requires Sound(y, fl, freeReg, freeTmp, regs, tmps) && y.IsRegister(i) && i < |fl| && fl[i] == -1
    ensures Sound(y, fl[i := freeReg], i, freeTmp, [i] + regs, tmps)
    ensures UseCounts(fl[i := freeReg]) == GiveUp(UseCounts(fl), i) && UseCounts(fl[i := freeReg])[i] == 0
  {
    hide Threads;
    SoundFacts(y, fl, freeReg, freeTmp, regs, tmps);
    ThreadsPush(fl, freeReg, regs, y.nofArguments, y.StackTmpsBeg(), i);
    ThreadsElsewhere(fl, freeTmp, tmps, y.StackTmpsBeg(), |fl|, i, freeReg);
    assert freeReg >= 0;
  }

  lemma GiveStackTmp(y: Layout, fl: seq<int>, freeReg: int, freeTmp: int, regs: seq<int>, tmps: seq<int>, i: int)
    requires Sound(y, fl, freeReg, freeTmp, regs, tmps) && y.IsStackTmp(i) && i < |fl| && fl[i] == -1
    ensures Sound(y, fl[i := freeTmp], freeReg, i, regs, [i] + tmps)
    ensures UseCounts(fl[i := freeTmp]) == GiveUp(UseCounts(fl), i) && UseCounts(fl[i := freeTmp])[i] == 0
  {
    hide Threads;
    SoundFacts(y, fl, freeReg, freeTmp, regs, tmps);
    ThreadsPush(fl, freeTmp, tmps, y.StackTmpsBeg(), |fl|, i);
    ThreadsElsewhere(fl, freeReg, regs, y.nofArguments, y.StackTmpsBeg(), i, freeTmp);
    assert freeTmp >= 0;
  }

  /** The use counts after one more use of `l`, which may be one past the end. */
  function Take(u: seq<nat>, l: int): seq<nat> {
    if 0 <= l < |u| then u[l := u[l] + 1] else if l == |u| then u + [1] else u
  }

  /** The use counts after one use of `l` less. */
  function GiveUp(u: seq<nat>, l: int): seq<nat> {
    if 0 <= l < |u| && u[l] > 0 then u[l := u[l] - 1] else u
  }

  /** The numbers of the registers before location n that have no uses. */
  function FreeNumbers(y: Layout, u: seq<nat>, n: nat): set<nat>
    requires n <= |u|
  {
    if n <= y.nofArguments then {}
    else FreeNumbers(y, u, n - 1) + if u[n - 1] == 0 then {RegisterNumber(n - 1 - y.nofArguments)} else {}
  }

  lemma {:induction false} FreeNumber(y: Layout, u: seq<nat>, n: nat, number: nat)
    requires n <= |u| && n <= y.StackTmpsBeg() && y.nofRegisters <= MAX_USABLE_REGISTERS
    ensures number in FreeNumbers(y, u, n) <==>
      number in {0, 1, 2, 3, 6, 7} && RegisterAsLocation(y, number) < n && u[RegisterAsLocation(y, number)] == 0
  {
    if n > y.nofArguments {
      FreeNumber(y, u, n - 1, number);
    }
  }

  class Locations {
    const layout: Layout
    var freeList: seq<int>
    var firstFreeRegister: int
    var firstFreeStackTmp: int

    // The two free lists, front first.
    ghost var freeRegs: seq<int>
    ghost var freeTmps: seq<int>

    ghost predicate Valid()
      reads this
    {
      Sound(layout, freeList, firstFreeRegister, firstFreeStackTmp, freeRegs, freeTmps)
    }

    function Uses(): (u: seq<nat>)
      reads this
      ensures |u| == |freeList|
    {
      UseCounts(freeList)
    }

    lemma Facts()
      requires Valid()
      ensures 1 <= layout.nofRegisters <= MAX_USABLE_REGISTERS && layout.StackTmpsBeg() <= |freeList| <= SENTINEL
      ensures firstFreeRegister == Next(freeRegs, -1) && firstFreeStackTmp == Next(freeTmps, -1)
      ensures freeRegs != [] ==> layout.IsRegister(firstFreeRegister)
      ensures freeTmps != [] ==> layout.IsStackTmp(firstFreeStackTmp) && firstFreeStackTmp < |freeList|
      ensures forall i :: layout.IsRegister(i) ==> (Uses()[i] == 0 <==> i in freeRegs)
      ensures forall i :: layout.IsStackTmp(i) && i < |freeList| ==> (Uses()[i] == 0 <==> i in freeTmps)
    {
      SoundFacts(layout, freeList, firstFreeRegister, firstFreeStackTmp, freeRegs, freeTmps);
      hide Sound;
    }

    predicate IsLocation(l: int)
      reads this
    {
      0 <= l < |freeList|
    }

    function NofStackTmps(): int
      reads this
    {
      |freeList| - layout.StackTmpsBeg()
    }

    /** The constructor; `nofRegs` and `nofInitialStackTmps` must be positive, or it would write an
        end marker outside the range it belongs to. */
    constructor (nofArgs: nat, nofRegs: nat, nofInitialStackTmps: nat)
      requires 1 <= nofRegs <= MAX_USABLE_REGISTERS && 1 <= nofInitialStackTmps
      requires nofArgs + nofRegs + nofInitialStackTmps <= SENTINEL
      ensures Valid() && layout == Layout(nofArgs, nofRegs)
      ensures Uses() == Zeros(nofArgs + nofRegs + nofInitialStackTmps)
    {
      hide Threads;
      var beg, end := nofArgs + nofRegs, nofArgs + nofRegs + nofInitialStackTmps;
      var fl: seq<int> := Zeros(0);
      var i := 0;
      while i < nofArgs
        invariant 0 <= i <= nofArgs && fl == Initial(nofArgs, -1, -1, i)
      {
        fl := fl + [0];
        i := i + 1;
      }
      while i < beg
        invariant nofArgs <= i <= beg && fl == Initial(nofArgs, -1, -1, i)
      {
        fl := fl + [i - 1];
        i := i + 1;
      }
      fl := fl[nofArgs := SENTINEL];
      firstFreeRegister := i - 1;
      assert fl == Initial(nofArgs, nofArgs, -1, i);
      while i < end
        invariant beg <= i <= end && fl == Initial(nofArgs, nofArgs, -1, i)
      {
        fl := fl + [i - 1];
        i := i + 1;
      }
      fl := fl[beg := SENTINEL];
      firstFreeStackTmp := i - 1;
      assert fl == Initial(nofArgs, nofArgs, beg, end);
      freeList := fl;
      freeRegs := Downto(nofArgs, beg);
      freeTmps := Downto(beg, end);
      layout := Layout(nofArgs, nofRegs);
      InitialThreads(fl, nofArgs, beg);
      InitialThreads(fl, beg, end);
      assert UseCounts(fl) == Zeros(end);
    }

    method ExtendTo(newValue: int)
      requires Valid() && layout.StackTmpsBeg() + newValue <= SENTINEL
      modifies this
      ensures Valid() && freeRegs == old(freeRegs)
      ensures NofStackTmps() == if old(NofStackTmps()) < newValue then newValue else old(NofStackTmps())
      ensures |old(freeList)| <= |freeList| && Uses() == old(Uses()) + Zeros(|freeList| - |old(freeList)|)
    {
      hide Sound, UseCounts;
      assert Uses() == old(Uses()) + Zeros(0);
      while NofStackTmps() < newValue
        invariant Valid() && freeRegs == old(freeRegs)
        invariant |old(freeList)| <= |freeList|
        invariant NofStackTmps() <= if old(NofStackTmps()) < newValue then newValue else old(NofStackTmps())
        invariant Uses() == old(Uses()) + Zeros(|freeList| - |old(freeList)|)
      {
        Grow(layout, freeList, firstFreeRegister, firstFreeStackTmp, freeRegs, freeTmps);
        ZerosSnoc(old(Uses()), |freeList| - |old(freeList)|);
        freeTmps := [|freeList|] + freeTmps;
        freeList := freeList + [firstFreeStackTmp];
        firstFreeStackTmp := |freeList| - 1;
      }
    }

    method AllocateRegister() returns (i: int)
      requires Valid() && freeRegs != []
      modifies this
      ensures Valid() && i == old(freeRegs)[0] && layout.IsRegister(i)
      ensures freeRegs == old(freeRegs)[1..] && freeTmps == old(freeTmps)
      ensures i < |old(freeList)| == |freeList| && old(Uses())[i] == 0 && Uses() == Take(old(Uses()), i)
    {
      hide Sound, UseCounts;
      Facts();
      TakeRegister(layout, freeList, firstFreeRegister, firstFreeStackTmp, freeRegs, freeTmps);
      i := firstFreeRegister;
      firstFreeRegister := freeList[i];
      freeList := freeList[i := -1];
      freeRegs := freeRegs[1..];
    }

    method AllocateStackTmp() returns (i: int)
      requires Valid() && (freeTmps != [] || |freeList| < SENTINEL)
      modifies this
      ensures Valid() && layout.IsStackTmp(i) && i < |freeList|
      ensures i == if old(freeTmps) != [] then old(freeTmps)[0] else |old(freeList)|
      ensures freeTmps == if old(freeTmps) != [] then old(freeTmps)[1..] else []
      ensures freeRegs == old(freeRegs)
      ensures |old(freeList)| <= |freeList| <= |old(freeList)| + 1
      ensures i < |old(freeList)| ==> old(Uses())[i] == 0
      ensures i <= |old(freeList)| && Uses() == Take(old(Uses()), i)
    {
      hide Sound, UseCounts;
      Facts();
      i := firstFreeStackTmp;
      if !(layout.IsStackTmp(i) && i < |freeList|) {
        Grow(layout, freeList, firstFreeRegister, firstFreeStackTmp, freeRegs, freeTmps);
        ZerosSnoc(old(Uses()), 0);
        freeList := freeList + [SENTINEL];
        i := |freeList| - 1;
        firstFreeStackTmp, freeTmps := i, [i] + freeTmps;
      }
      TakeStackTmp(layout, freeList, firstFreeRegister, firstFreeStackTmp, freeRegs, freeTmps);
      firstFreeStackTmp := freeList[i];
      freeList := freeList[i := -1];
      freeTmps := freeTmps[1..];
      assert old(Uses()) + Zeros(0) == old(Uses());
    }

    /** Takes one given free location out of its list. */
    method Allocate(i: int)
      requires Valid() && IsLocation(i) && !layout.IsArgument(i) && Uses()[i] == 0
      modifies this
      ensures Valid() && |freeList| == |old(freeList)| && Uses() == Take(old(Uses()), i)
      ensures layout.IsRegister(i) ==> freeTmps == old(freeTmps) && Dropped(old(freeRegs), i, freeRegs)
      ensures layout.IsStackTmp(i) ==> freeRegs == old(freeRegs) && Dropped(old(freeTmps), i, freeTmps)
    {
      ghost var k;
      if layout.IsRegister(i) {
        hide Threads, Without, UseCounts;
        Facts();
        ghost var fl := freeList;
        freeList, firstFreeRegister, k :=
          Unlink(freeList, firstFreeRegister, i, freeRegs, layout.nofArguments, layout.StackTmpsBeg());
        ThreadsAgree(fl, firstFreeStackTmp, freeTmps, layout.StackTmpsBeg(), |fl|, freeList);
        freeRegs := Without(freeRegs, k);
      } else {
        hide Threads, Without, UseCounts;
        Facts();
        ghost var fl := freeList;
        freeList, firstFreeStackTmp, k :=
          Unlink(freeList, firstFreeStackTmp, i, freeTmps, layout.StackTmpsBeg(), |freeList|);
        ThreadsAgree(fl, firstFreeRegister, freeRegs, layout.nofArguments, layout.StackTmpsBeg(), freeList);
        freeTmps := Without(freeTmps, k);
      }
    }

    method Use(i: int)
      requires Valid() && IsLocation(i) && (layout.IsArgument(i) || Uses()[i] > 0)
      modifies this
      ensures Valid() && |freeList| == |old(freeList)| && Uses() == Take(old(Uses()), i)
      ensures freeRegs == old(freeRegs) && freeTmps == old(freeTmps)
    {
      CountIs(i);
      hide Sound, UseCounts;
      Recount(layout, freeList, firstFreeRegister, firstFreeStackTmp, freeRegs, freeTmps, i, freeList[i] - 1);
      freeList := freeList[i := freeList[i] - 1];
    }

    /** Drops one use; an unused register or stack location goes to the front of its free list. */
    method Release(i: int)
      requires Valid() && IsLocation(i) && Uses()[i] > 0
      modifies this
      ensures Valid() && |freeList| == |old(freeList)| && Uses() == GiveUp(old(Uses()), i)
      ensures freeRegs == if layout.IsRegister(i) && old(Uses())[i] == 1 then [i] + old(freeRegs) else old(freeRegs)
      ensures freeTmps == if layout.IsStackTmp(i) && old(Uses())[i] == 1 then [i] + old(freeTmps) else old(freeTmps)
    {
      CountIs(i);
      hide Sound, UseCounts, GiveUp;
      var count := freeList[i] + 1;
      if count == 0 && layout.IsRegister(i) {
        GiveRegister(layout, freeList, firstFreeRegister, firstFreeStackTmp, freeRegs, freeTmps, i);
        freeList := freeList[i := firstFreeRegister];
        firstFreeRegister, freeRegs := i, [i] + freeRegs;
      } else if count == 0 && layout.IsStackTmp(i) {
        GiveStackTmp(layout, freeList, firstFreeRegister, firstFreeStackTmp, freeRegs, freeTmps, i);
        freeList := freeList[i := firstFreeStackTmp];
        firstFreeStackTmp, freeTmps := i, [i] + freeTmps;
      } else {
        Uncount(layout, freeList, firstFreeRegister, firstFreeStackTmp, freeRegs, freeTmps, i);
        freeList := freeList[i := count];
      }
    }

    lemma CountIs(i: int)
      requires Valid() && IsLocation(i) && (layout.IsArgument(i) || Uses()[i] > 0)
      ensures freeList[i] == -(Uses()[i] as int)
    {}

    predicate FreeRegisters()
      reads this
    {
      firstFreeRegister != SENTINEL
    }

    /** The numbers of the registers that are not in use. */
    method FreeRegisterMask() returns (mask: set<nat>)
      requires Valid()
      ensures layout.StackTmpsBeg() <= |Uses()| && mask == FreeNumbers(layout, Uses(), layout.StackTmpsBeg())
    {
      Facts();
      hide Sound, RegisterNumber;
      mask := {};
      var i := layout.nofArguments;
      while i < layout.StackTmpsBeg()
        invariant layout.nofArguments <= i <= layout.StackTmpsBeg()
        invariant mask == FreeNumbers(layout, Uses(), i)
      {
        if freeList[i] >= 0 {
          mask := mask + {RegisterNumber(i - layout.nofArguments)};
        }
        i := i + 1;
      }
    }

    method NofTotalUses() returns (totalUses: nat)
      ensures totalUses == Total(Uses())
    {
      totalUses := 0;
      for i := 0 to |freeList|
        invariant totalUses == Total(Uses()[..i])
      {
        assert Uses()[..i + 1][..i] == Uses()[..i];
        totalUses := totalUses + if freeList[i] < 0 then -freeList[i] else 0;
      }
      assert Uses()[..|freeList|] == Uses();
    }

    method NofFreeRegisters() returns (n: nat)
      requires Valid()
      ensures n == |freeRegs|
    {
      var i := firstFreeRegister;
      n := 0;
      while layout.IsRegister(i)
        invariant 0 <= n <= |freeRegs| && i == Next(freeRegs, n - 1)
        decreases |freeRegs| - n
      {
        i := freeList[i];
        n := n + 1;
      }
    }
  }

  /** `after` is `before` with the one occurrence of `i` taken out. */
  ghost predicate Dropped(before: seq<int>, i: int, after: seq<int>) {
    exists k: nat | k < |before| :: before[k] == i && after == Without(before, k)
  }

  /** Walks the list to `i` and takes it out. */
  method Unlink(freeList: seq<int>, first: int, i: int, ghost c: seq<int>, ghost lo: int, ghost hi: int)
    returns (fl: seq<int>, first': int, ghost k: nat)
    requires Threads(freeList, first, c, lo, hi) && i in c
    ensures k < |c| && c[k] == i && lo <= i < hi <= |freeList|
    ensures Threads(fl, first', Without(c, k), lo, hi)
    ensures |fl| == |freeList| && UseCounts(fl) == UseCounts(freeList)[i := 1]
    ensures forall j :: 0 <= j < |fl| && !(lo <= j < hi) ==> fl[j] == freeList[j]
  {
    hide UseCounts, Without, Threads;
    Members(freeList, first, c, lo, hi);
    if first == i {
      k := 0;
      first' := freeList[i];
      fl := freeList[i := -1];
      ThreadsPop(freeList, first, c, lo, hi);
      WithoutFirst(c);
    } else {
      first' := first;
      var j;
      j, k := Predecessor(freeList, first, i, c, lo, hi);
      ThreadsUnlink(freeList, first, c, lo, hi, k);
      fl := freeList[j := freeList[i]];
      fl := fl[i := -1];
    }
    UnlinkCounts(freeList, fl, i);
  }

  lemma Members(fl: seq<int>, first: int, c: seq<int>, lo: int, hi: int)
    requires Threads(fl, first, c, lo, hi)
    ensures 0 <= lo <= hi <= |fl| && first == Next(c, -1)
    ensures forall k :: 0 <= k < |c| ==> lo <= c[k] < hi && 0 <= fl[c[k]]
  {}

  /** Follows the links from `first` to the element whose link is `i`. */
  method Predecessor(freeList: seq<int>, first: int, i: int, ghost c: seq<int>, ghost lo: int, ghost hi: int)
    returns (j: int, ghost k: nat)
    requires Threads(freeList, first, c, lo, hi) && i in c && i != first
    ensures 0 < k < |c| && c[k] == i && c[k - 1] == j
  {
    k := 1;
    j := first;
    while freeList[j] != i
      invariant 1 <= k <= |c| && j == c[k - 1] && i !in c[..k]
      decreases |c| - k
    {
      j := freeList[j];
      k := k + 1;
    }
  }

  lemma WithoutFirst(c: seq<int>)
    requires c != []
    ensures Without(c, 0) == c[1..]
  {}

  lemma UnlinkCounts(fl: seq<int>, fl': seq<int>, i: int)
    requires |fl'| == |fl| && 0 <= i < |fl| && fl[i] >= 0 && fl'[i] == -1
    requires forall j :: 0 <= j < |fl| && j != i && fl'[j] != fl[j] ==> fl[j] >= 0 && fl'[j] >= 0
    ensures UseCounts(fl') == UseCounts(fl)[i := 1]
  {}

  /** The array the constructor builds: zeros for arguments, then links to the previous location,
      with end markers at `end1` and `end2`. */
  function Initial(nofArgs: nat, end1: int, end2: int, n: nat): (fl: seq<int>)
    ensures |fl| == n
    ensures forall k ::
      0 <= k < n ==> fl[k] == if k == end1 || k == end2 then SENTINEL else if k < nofArgs then 0 else k - 1
  {
    seq(n, k => if k == end1 || k == end2 then SENTINEL else if k < nofArgs then 0 else k - 1)
  }

  ghost function Downto(lo: int, hi: int): (c: seq<int>)
    requires lo <= hi
    ensures |c| == hi - lo && forall k :: 0 <= k < |c| ==> c[k] == hi - 1 - k
  {
    seq(hi - lo, k => hi - 1 - k)
  }

  lemma ZerosSnoc(u: seq<nat>, n: nat)
    ensures (u + Zeros(n)) + [0] == u + Zeros(n + 1)
  {}

  lemma InitialThreads(fl: seq<int>, lo: int, hi: int)
    requires 0 <= lo < hi <= |fl| <= SENTINEL
    requires forall k :: lo <= k < hi ==> fl[k] == if k == lo then SENTINEL else k - 1
    ensures Threads(fl, hi - 1, Downto(lo, hi), lo, hi)
  {
    forall i | lo <= i < hi
      ensures i in Downto(lo, hi)
    {
      assert Downto(lo, hi)[hi - 1 - i] == i;
    }
  }
}
