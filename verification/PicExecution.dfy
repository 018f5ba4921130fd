/** What the code of a polymorphic inline cache does for a receiver, instruction by instruction. */
module PicExecution {
  import opened Basics
  import opened Displacements
  import opened PicCode
  import opened PicIteration

  /** A receiver; small integers have no class field in memory, so only the test tells them apart. */
  datatype Receiver = Receiver(smi: bool, klass: Word)

  datatype Outcome = Jump(target: Word) | Invoke(methodOop: Word) | Miss | MegamorphicLookup(selector: Word) | Stuck

  // ---- the machine ------------------------------------------------------------------------------------------------

  /** The number of methods that the stub at an address serves, or 0 if there is no stub. */
  function StubNumber(s: System, address: Word): nat
    requires |s.stubs| == MAX_ENTRIES + 1
  {
    if address == s.stubs[1] then 1 else if address == s.stubs[2] then 2
    else if address == s.stubs[3] then 3 else if address == s.stubs[4] then 4 else 0
  }

  /** The stub compares the class with that of each of n entries in turn. */
  function RunStub(code: seq<Byte>, r: Receiver, pos: nat, n: nat): Outcome
    decreases n
  {
    if n == 0 then Miss
    else if pos + METHOD_ENTRY_SIZE > |code| then Stuck
    else if WordAt(code, pos) == r.klass then Invoke(WordAt(code, pos + 4))
    else RunStub(code, r, pos + METHOD_ENTRY_SIZE, n - 1)
  }

  function Goto(code: seq<Byte>, s: System, entry: Word, r: Receiver, pos: nat, edx: Word, zero: bool,
                target: Word): Outcome
    requires pos <= |code| && |s.stubs| == MAX_ENTRIES + 1
    decreases |code| - pos, 0
  {
    if entry <= target < entry + |code| then
      if target - entry > pos then Run(code, s, entry, r, target - entry, edx, zero) else Stuck
    else if target == s.normalLookup then Miss
    else Jump(target)
  }

  /** Runs the code from a position on, with the class register and the zero flag as given. */
  function Run(code: seq<Byte>, s: System, entry: Word, r: Receiver, pos: nat, edx: Word, zero: bool): Outcome
    requires pos <= |code| && |s.stubs| == MAX_ENTRIES + 1
    decreases |code| - pos, 1
  {
    if pos + 2 <= |code| && code[pos] == TEST_OPCODE && code[pos + 1] == MEMOOP_TAG then
      Run(code, s, entry, r, pos + 2, edx, r.smi)
    else if pos + 6 <= |code| && code[pos] == 0x0f && code[pos + 1] == 0x84 then
      if zero then Goto(code, s, entry, r, pos, edx, zero, TargetOf(WordAt(code, pos + 2), entry + pos + 2))
      else Run(code, s, entry, r, pos + 6, edx, zero)
    else if pos + 3 <= |code| && code[pos] == 0x8b && code[pos + 1] == 0x50 && code[pos + 2] == KLASS_OFFSET then
      if r.smi then Stuck else Run(code, s, entry, r, pos + 3, r.klass, zero)
    else if pos + 6 <= |code| && code[pos] == 0x81 && code[pos + 1] == 0xfa then
      Run(code, s, entry, r, pos + 6, edx, edx == WordAt(code, pos + 2))
    else if pos + 5 <= |code| && code[pos] == CALL_OPCODE then
      var target := TargetOf(WordAt(code, pos + 1), entry + pos + 1);
      if StubNumber(s, target) > 0 then RunStub(code, r, pos + 5, StubNumber(s, target))
      else if target == s.megamorphic && pos + 9 <= |code| then MegamorphicLookup(WordAt(code, pos + 5))
      else Stuck
    else if pos + 5 <= |code| && code[pos] == JMP_OPCODE then
      Goto(code, s, entry, r, pos, edx, zero, TargetOf(WordAt(code, pos + 1), entry + pos + 1))
    else Stuck
  }

  // ---- what it should do --------------------------------------------------------------------------------------------

  /** The entry of a class in a list of entries. */
  function Dispatch(es: seq<Entry>, klass: Word): Outcome {
    if es == [] then Miss
    else if es[0].klass == klass then (match es[0] case Compiled(_, t) => Jump(t) case Interpreted(_, m) => Invoke(m))
    else Dispatch(es[1..], klass)
  }

  /** Compiled targets are neither the lookup nor within the code. */
  ghost predicate Outside(c: Contents, s: System, entry: Word, size: nat) {
    && !(entry <= s.normalLookup < entry + size) && c.smiNative != s.normalLookup
    && !(entry <= c.smiNative < entry + size)
    && forall i :: 0 <= i < |c.natives| ==>
         c.natives[i].target != s.normalLookup && !(entry <= c.natives[i].target < entry + size)
  }

  lemma StubFound(s: System, n: nat)
    requires s.Valid() && 1 <= n <= MAX_ENTRIES
    ensures StubNumber(s, s.stubs[n]) == n
  {}

  lemma {:induction false} StubRuns(code: seq<Byte>, c: Contents, s: System, entry: Word, r: Receiver, i: nat)
    requires c.Valid(s) && code == Code(c, s, entry) && i <= c.InterpretedTargets()
    ensures RunStub(code, r, TailAt(c) + METHODS_ONLY_OFFSET + i * METHOD_ENTRY_SIZE, c.InterpretedTargets() - i)
      == Dispatch(MethodOopEntries(PicCode.Interpreted(c, s)[i..]), r.klass)
    decreases c.InterpretedTargets() - i
  {
    hide Code, WordAt, PicCode.Interpreted;
    var ms := PicCode.Interpreted(c, s);
    if i < |ms| {
      MethodParts(code, c, s, entry, i);
      StubRuns(code, c, s, entry, r, i + 1);
      assert ms[i..][0] == ms[i] && ms[i..][1..] == ms[i + 1..];
      assert MethodOopEntries(ms[i..])[1..] == MethodOopEntries(ms[i + 1..]);
    }
  }

  /** From the call of the stub, or the jump to the lookup, on. */
  lemma TailRuns(code: seq<Byte>, c: Contents, s: System, entry: Word, r: Receiver, edx: Word, zero: bool)
    requires c.Valid(s) && code == Code(c, s, entry) && Outside(c, s, entry, |code|)
    ensures TailAt(c) <= |code|
    ensures Run(code, s, entry, r, TailAt(c), edx, zero) ==
      Dispatch(MethodOopEntries(PicCode.Interpreted(c, s)), r.klass)
  {
    hide Code, WordAt, PicCode.Interpreted, Unsigned, StubNumber;
    TailParts(code, c, s, entry);
    if c.InterpretedTargets() > 0 {
      StubFound(s, c.InterpretedTargets());
      StubRuns(code, c, s, entry, r, 0);
      assert PicCode.Interpreted(c, s)[0..] == PicCode.Interpreted(c, s);
    }
  }

  lemma {:induction false} NativesRun(code: seq<Byte>, c: Contents, s: System, entry: Word, r: Receiver, zero: bool,
                                      i: nat)
    requires c.Valid(s) && code == Code(c, s, entry) && Outside(c, s, entry, |code|) && c.HasNatives()
    requires i <= |c.natives|
    ensures NATIVE_ENTRY_OFFSET + i * NATIVE_ENTRY_SIZE <= |code|
    ensures Run(code, s, entry, r, NATIVE_ENTRY_OFFSET + i * NATIVE_ENTRY_SIZE, r.klass, zero)
      == Dispatch(CompiledEntries(c.natives[i..]) + MethodOopEntries(PicCode.Interpreted(c, s)), r.klass)
    decreases |c.natives| - i
  {
    hide Code, WordAt, PicCode.Interpreted, Unsigned, TargetOf, StubNumber;
    var ms := MethodOopEntries(PicCode.Interpreted(c, s));
    if i == |c.natives| {
      TailRuns(code, c, s, entry, r, r.klass, zero);
      assert c.natives[i..] == [] && CompiledEntries(c.natives[i..]) + ms == ms;
    } else {
      NativeParts(code, c, s, entry, i);
      var k := c.natives[i].klass;
      NativesRun(code, c, s, entry, r, r.klass == k, i + 1);
      OneNative(code, s, entry, r, NATIVE_ENTRY_OFFSET + i * NATIVE_ENTRY_SIZE, zero, c.natives[i]);
      var es := CompiledEntries(c.natives[i..]) + ms;
      assert es[0] == Compiled(k, c.natives[i].target);
      assert c.natives[i..][1..] == c.natives[i + 1..];
      assert es[1..] == CompiledEntries(c.natives[i + 1..]) + ms;
    }
  }

  /** A compare and a jump. */
  lemma OneNative(code: seq<Byte>, s: System, entry: Word, r: Receiver, pos: nat, zero: bool, p: Pair)
    requires |s.stubs| == MAX_ENTRIES + 1 && pos + 12 <= |code| && code[pos] == 0x81 && code[pos + 1] == 0xfa
    requires WordAt(code, pos + 2) == p.klass
    requires code[pos + 6] == 0x0f && code[pos + 7] == 0x84
    requires TargetOf(WordAt(code, pos + 8), entry + pos + 8) == p.target
    requires p.target != s.normalLookup && !(entry <= p.target < entry + |code|)
    ensures Run(code, s, entry, r, pos, r.klass, zero) == if p.klass == r.klass then Jump(p.target)
      else Run(code, s, entry, r, pos + 12, r.klass, false)
  {
    hide WordAt, TargetOf, StubNumber;
    var z := r.klass == WordAt(code, pos + 2);
    assert Run(code, s, entry, r, pos, r.klass, zero) == Run(code, s, entry, r, pos + 6, r.klass, z);
    var q := pos + 6;
    assert code[q] == 0x0f && code[q + 1] == 0x84;
    assert Run(code, s, entry, r, q, r.klass, z) ==
      if z then Goto(code, s, entry, r, q, r.klass, z, TargetOf(WordAt(code, q + 2), entry + q + 2))
        else Run(code, s, entry, r, q + 6, r.klass, z);
  }

  lemma {:induction false} NoneOf(es: seq<Entry>, fs: seq<Entry>, klass: Word)
    requires forall i :: 0 <= i < |es| ==> es[i].klass != klass
    ensures Dispatch(es + fs, klass) == Dispatch(fs, klass)
    decreases |es|
  {
    if es == [] {
      assert es + fs == fs;
    } else {
      assert (es + fs)[1..] == es[1..] + fs;
      NoneOf(es[1..], fs, klass);
    }
  }

  /** Running the code on a receiver leads to the entry of its class, or to a lookup if it has none. */
  lemma CodeDispatches(code: seq<Byte>, c: Contents, s: System, entry: Word, r: Receiver, edx: Word, zero: bool)
    requires c.Valid(s) && code == Code(c, s, entry) && entry + |code| <= WORD && Outside(c, s, entry, |code|)
    requires r.smi <==> r.klass == s.smiKlass
    ensures Run(code, s, entry, r, 0, edx, zero) == Dispatch(Entries(c, s), r.klass)
  {
    hide Code, WordAt, PicCode.Interpreted, TargetOf, StubNumber, Unsigned;
    if !c.HasNatives() {
      TailRuns(code, c, s, entry, r, edx, zero);
      assert Entries(c, s) == MethodOopEntries(PicCode.Interpreted(c, s));
    } else {
      SmiParts(code, c, s, entry);
      SmiTestRuns(code, c, s, entry, r, edx, zero);
      if r.smi {
        SmiDispatches(code, c, s, entry, r, edx);
      } else {
        NativesRun(code, c, s, entry, r, false, 0);
        assert c.natives[0..] == c.natives;
        var es := CompiledEntries(c.natives) + MethodOopEntries(PicCode.Interpreted(c, s));
        if c.smiNative != 0 {
          assert Entries(c, s) == [Compiled(s.smiKlass, c.smiNative)] + es;
          NoneOf([Compiled(s.smiKlass, c.smiNative)], es, r.klass);
        } else {
          assert Entries(c, s) == es;
        }
      }
    }
  }

  /** The test for small integers and, for others, the load of the class. */
  lemma SmiTestRuns(code: seq<Byte>, c: Contents, s: System, entry: Word, r: Receiver, edx: Word, zero: bool)
    requires |s.stubs| == MAX_ENTRIES + 1 && NATIVE_ENTRY_OFFSET <= |code| && code[0] == TEST_OPCODE
    requires code[1] == MEMOOP_TAG && code[2] == 0x0f && code[3] == 0x84
    requires code[8] == 0x8b && code[9] == 0x50 && code[10] == KLASS_OFFSET
    ensures r.smi ==>
      Run(code, s, entry, r, 0, edx, zero) ==
        Goto(code, s, entry, r, 2, edx, true, TargetOf(WordAt(code, SMI_NATIVE_OFFSET), entry + SMI_NATIVE_OFFSET))
    ensures !r.smi ==>
      Run(code, s, entry, r, 0, edx, zero) == Run(code, s, entry, r, NATIVE_ENTRY_OFFSET, r.klass, false)
  {
    hide WordAt, TargetOf, StubNumber;
    assert Run(code, s, entry, r, 0, edx, zero) == Run(code, s, entry, r, 2, edx, r.smi);
    if !r.smi {
      assert Run(code, s, entry, r, 2, edx, false) == Run(code, s, entry, r, 8, edx, false);
    }
  }

  lemma SmiDispatches(code: seq<Byte>, c: Contents, s: System, entry: Word, r: Receiver, edx: Word)
    requires c.Valid(s) && code == Code(c, s, entry) && entry + |code| <= WORD && Outside(c, s, entry, |code|)
    requires r.smi && r.klass == s.smiKlass && c.HasNatives() && 2 <= |code|
    ensures Goto(code, s, entry, r, 2, edx, true, SmiTarget(c, s, entry)) == Dispatch(Entries(c, s), r.klass)
  {
    hide Code, WordAt, TargetOf, StubNumber, Run;
    var ns, ms := CompiledEntries(c.natives), MethodOopEntries(PicCode.Interpreted(c, s));
    if c.smiNative != 0 {
      assert Entries(c, s)[0] == Compiled(s.smiKlass, c.smiNative);
    } else {
      assert Entries(c, s) == ns + ms;
      NoneOf(ns, ms, r.klass);
      if c.smiMethod != 0 {
        TailRuns(code, c, s, entry, r, edx, true);
        TailParts(code, c, s, entry);
        assert SmiTarget(c, s, entry) == entry + TailAt(c);
      } else {
        assert ms + [] == ms;
        NoneOf(ms, [], r.klass);
      }
    }
  }

  /** A megamorphic cache goes to the lookup for its selector, whatever the receiver. */
  lemma MegamorphicLooksUp(code: seq<Byte>, s: System, entry: Word, selector: Word, r: Receiver, edx: Word, zero: bool)
    requires s.Valid() && code == MegamorphicCode(s, entry, selector)
    ensures Run(code, s, entry, r, 0, edx, zero) == MegamorphicLookup(selector)
  {
    hide WordAt, DispBytes, WordBytes, Unsigned;
    assert StubNumber(s, s.megamorphic) == 0;
    hide StubNumber;
    assert Has(code, 0, code);
    HasSplit(code, 0, [CALL_OPCODE] + DispBytes(s.megamorphic, entry + 1), WordBytes(selector));
    HasSplit(code, 0, [CALL_OPCODE], DispBytes(s.megamorphic, entry + 1));
    HasByte(code, 0, CALL_OPCODE);
    HasDisp(code, 1, entry, s.megamorphic);
    HasWord(code, 5, selector);
  }
}
