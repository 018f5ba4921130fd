/** The inline cache of a send: empty, linked to one compiled method, to a polymorphic cache, or to a
    megamorphic one. How it grows with every miss, and how it is brought up to date with the lookup. */
module InlineCaches {
  import opened Displacements
  import opened PicCode
  import opened PicIteration
  import opened PicIterator
  import opened PicEntries
  import opened PicExecution

  datatype NativeMethod = NativeMethod(klass: Word, entryPoint: Word, methodOop: Word)

  datatype LookupResult = NotFound | FoundMethod(methodOop: Word) | FoundNative(nativeMethod: NativeMethod)

  /** What the caches rely on: the lookup for the selector of the send, the compiled method at an entry
      point, and the heap of the caches, [low, high), in which no compiled method and no stub lies. */
  datatype World = World(system: System, low: Word, high: Word, lookup: Word -> LookupResult,
    methodAt: Word -> NativeMethod) {
    ghost predicate Valid() {
      && system.Valid() && 0 < low <= high && system.normalLookup != 0 && !(low <= system.normalLookup < high)
      && forall k :: GoodResult(k, lookup(k))
    }

    ghost predicate GoodTarget(t: Word) {
      t != 0 && t != system.normalLookup && !(low <= t < high)
    }

    ghost predicate GoodNative(nm: NativeMethod) {
      GoodTarget(nm.entryPoint) && methodAt(nm.entryPoint) == nm
    }

    ghost predicate GoodResult(k: Word, r: LookupResult) {
      match r
      case NotFound => true
      case FoundMethod(m) => m != 0
      case FoundNative(nm) => nm.klass == k && GoodNative(nm)
    }

    ghost predicate GoodEntry(e: Entry) {
      && Value(e) != 0
      && (e.Compiled? ==>
            var nm := methodAt(e.target);
            nm.klass == e.klass && nm.entryPoint == e.target && GoodNative(nm))
    }

    /** One entry for each class, and all of them good. */
    ghost predicate GoodEntries(es: seq<Entry>) {
      Distinct(es) && Sane(es) && forall i :: 0 <= i < |es| ==> GoodEntry(es[i])
    }

    /** A place for a cache in its heap. */
    ghost predicate Place(at: Word) { low <= at && at + MAX_CODE_SIZE <= high }
  }

  function EntryFor(klass: Word, r: LookupResult): Entry
    requires r != NotFound
  {
    match r
    case FoundMethod(m) => Entry.Interpreted(klass, m)
    case FoundNative(nm) => Compiled(klass, nm.entryPoint)
  }

  function Result(e: Entry): Outcome {
    match e case Compiled(_, t) => Jump(t) case Interpreted(_, m) => Invoke(m)
  }

  lemma {:induction false} DispatchFinds(es: seq<Entry>, e: Entry)
    requires Distinct(es) && e in es
    ensures Dispatch(es, e.klass) == Result(e)
    decreases |es|
  {
    if es[0] != e {
      var i :| 0 <= i < |es| && es[i] == e;
      assert es[1..][i - 1] == e;
      DispatchFinds(es[1..], e);
    }
  }

  /** A cache that is worth its code: several targets, or one that has to be interpreted. */
  predicate Worthwhile(es: seq<Entry>) {
    |es| >= 2 || exists i :: 0 <= i < |es| && es[i].Interpreted?
  }

  /** A polymorphic cache that can be dispatched on. */
  ghost predicate Sound(w: World, pic: PolymorphicInlineCache)
    reads pic, pic.code
  {
    && pic.Valid() && pic.system == w.system && w.Place(pic.entry)
    && (!pic.IsMegamorphic() ==>
         w.GoodEntries(EntriesOf(pic)) && 1 <= |EntriesOf(pic)| <= MAX_ENTRIES && Worthwhile(EntriesOf(pic)))
  }

  ghost function EntriesOf(pic: PolymorphicInlineCache): seq<Entry>
    reads pic
  {
    if pic.IsMegamorphic() then [] else Entries(pic.contents, pic.system)
  }

  lemma GoodSame(w: World, a: seq<Entry>, b: seq<Entry>)
    requires w.GoodEntries(a) && Same(a, b)
    ensures w.GoodEntries(b) && (Worthwhile(a) ==> Worthwhile(b))
  {
    forall i | 0 <= i < |b|
      ensures Value(b[i]) != 0 && w.GoodEntry(b[i])
    {
      assert b[i] in a;
    }
    if i :| 0 <= i < |a| && a[i].Interpreted? {
      assert a[i] in b;
      var j :| 0 <= j < |b| && b[j] == a[i];
    }
  }

  lemma GoodSnoc(w: World, es: seq<Entry>, e: Entry)
    requires w.GoodEntries(es) && w.GoodEntry(e) && Fresh(es, e.klass)
    ensures w.GoodEntries(es + [e])
  {
    hide World.GoodNative;
    DistinctSnoc(es, e);
  }

  lemma DistinctSnoc(es: seq<Entry>, e: Entry)
    requires Distinct(es) && Fresh(es, e.klass)
    ensures Distinct(es + [e])
  {}

  /** A new cache for these entries. */
  method NewCache(w: World, at: Word, selector: Word, contents: Contents, ghost es: seq<Entry>)
    returns (pic: PolymorphicInlineCache)
    requires w.Valid() && w.Place(at) && w.GoodEntries(es) && 1 <= |es| <= MAX_ENTRIES
    requires contents == ContentsOf(es, w.system) && Worthwhile(es)
    ensures fresh(pic) && fresh(pic.code) && Sound(w, pic) && !pic.IsMegamorphic() && Same(es, EntriesOf(pic))
    ensures pic.selector == selector
  {
    hide Entries, ContentsOf, Same, Worthwhile, Distinct;
    Prepare(w, at, es);
    pic := new PolymorphicInlineCache(w.system, at, selector, contents);
    GoodSame(w, es, Entries(contents, w.system));
  }

  lemma Prepare(w: World, at: Word, es: seq<Entry>)
    requires w.Valid() && w.Place(at) && w.GoodEntries(es) && 1 <= |es| <= MAX_ENTRIES
    ensures var c := ContentsOf(es, w.system);
      && c.Valid(w.system) && c.Targets() == |es| && at + c.CodeSize() <= WORD && Same(es, Entries(c, w.system))
      && |Entries(c, w.system)| == |es|
      && c.smiNative != w.system.normalLookup && !(at <= c.smiNative < at + c.CodeSize())
      && !(at <= w.system.normalLookup < at + c.CodeSize())
  {
    hide ContentsOf;
    ContentsValid(es, w.system);
    var c := ContentsOf(es, w.system);
    if c.smiNative != 0 {
      assert Entries(c, w.system)[0] == Compiled(w.system.smiKlass, c.smiNative);
      assert Entries(c, w.system)[0] in es;
    }
  }

  // ---- growing ------------------------------------------------------------------------------------------------

  /** The old entries behind the given ones. */
  method Collect(pic: PolymorphicInlineCache, first: Contents, ghost es: seq<Entry>) returns (contents: Contents)
    requires pic.Valid() && !pic.IsMegamorphic() && first == ContentsOf(es, pic.system)
    ensures contents == ContentsOf(es + EntriesOf(pic), pic.system)
  {
    hide Entries, ContentsOf, Code;
    contents := first;
    var it := new PolymorphicInlineCacheIterator(pic);
    ghost var j, all := 0, EntriesOf(pic);
    assert es + all[..0] == es;
    while !it.AtEnd()
      invariant it.pic == pic && it.At(j) && !pic.IsMegamorphic() && j <= |all| && all == EntriesOf(pic)
      invariant contents == ContentsOf(es + all[..j], pic.system)
      decreases |all| - j
    {
      var e := it.Current(j);
      contents := Appended(contents, e, pic.system);
      ContentsSnoc(es + all[..j], e, pic.system);
      assert es + all[..j] + [e] == es + all[..j + 1];
      it.Advance(j);
      j := j + 1;
    }
    assert all[..j] == all;
  }

  // ---- replacing --------------------------------------------------------------------------------------------------

  /** `replace`: the entry of the class gets the new compiled method, in the code if it was compiled
      before, otherwise in a new cache. */
  method Replace(w: World, pic: PolymorphicInlineCache, nm: NativeMethod, at: Word) returns (r: PolymorphicInlineCache)
    requires w.Valid() && Sound(w, pic) && w.Place(at) && w.GoodNative(nm)
    requires !pic.IsMegamorphic() ==>
      |EntriesOf(pic)| >= 2 && exists i :: 0 <= i < |EntriesOf(pic)| && EntriesOf(pic)[i].klass == nm.klass
    modifies pic, pic.code
    ensures Sound(w, r) && (r == pic || (fresh(r) && fresh(r.code)))
    ensures (r.IsMegamorphic() <==> old(pic.IsMegamorphic())) && r.selector == pic.selector
    ensures !r.IsMegamorphic() ==> Same(Updated(old(EntriesOf(pic)), nm), EntriesOf(r))
  {
    hide Entries, ContentsOf, Code, Same, Distinct, Worthwhile, World.GoodEntries, Updated, Contents.Valid;
    if pic.IsMegamorphic() {
      return pic;
    }
    ghost var es := EntriesOf(pic);
    UpdatedGood(w, es, nm);
    var it := new PolymorphicInlineCacheIterator(pic);
    ghost var j := 0;
    var klass := it.GetKlass(j);
    while klass != nm.klass
      invariant it.pic == pic && !pic.IsMegamorphic() && j < |es| && it.At(j) && es == EntriesOf(pic)
      invariant klass == es[j].klass && !it.AtEnd()
      invariant forall i :: 0 <= i < j ==> es[i].klass != nm.klass
      decreases |es| - j
    {
      NotLast(es, j, nm.klass);
      it.Advance(j);
      j := j + 1;
      klass := it.GetKlass(j);
    }
    UpdatedIs(es, nm, j);
    if it.IsCompiled() {
      it.SetNativeMethod(j, nm.entryPoint);
      r := pic;
    } else {
      var contents := CollectUpdated(pic, nm);
      r := NewCache(w, at, pic.selector, contents, Updated(es, nm));
    }
  }

  function UpdatedEntry(e: Entry, nm: NativeMethod): Entry {
    if e.klass == nm.klass then Compiled(nm.klass, nm.entryPoint) else e
  }

  function Updated(es: seq<Entry>, nm: NativeMethod): (r: seq<Entry>)
    ensures |r| == |es| && forall i :: 0 <= i < |es| ==> r[i] == UpdatedEntry(es[i], nm)
  {
    seq(|es|, i requires 0 <= i < |es| => UpdatedEntry(es[i], nm))
  }

  lemma UpdatedGood(w: World, es: seq<Entry>, nm: NativeMethod)
    requires w.GoodEntries(es) && w.GoodNative(nm)
    ensures Distinct(es) && w.GoodEntries(Updated(es, nm)) && Same(Updated(es, nm), Updated(es, nm))
    ensures (|es| >= 2 ==> Worthwhile(Updated(es, nm)))
  {}

  lemma NotLast(es: seq<Entry>, j: nat, klass: Word)
    requires j < |es| && es[j].klass != klass && (forall i :: 0 <= i < j ==> es[i].klass != klass)
    requires exists i :: 0 <= i < |es| && es[i].klass == klass
    ensures j + 1 < |es|
  {}

  lemma UpdatedIs(es: seq<Entry>, nm: NativeMethod, j: nat)
    requires Distinct(es) && j < |es| && es[j].klass == nm.klass
    ensures Updated(es, nm) == es[j := Compiled(es[j].klass, nm.entryPoint)]
  {}

  /** All entries, that of the class replaced. */
  method CollectUpdated(pic: PolymorphicInlineCache, nm: NativeMethod) returns (contents: Contents)
    requires pic.Valid() && !pic.IsMegamorphic()
    ensures contents == ContentsOf(Updated(EntriesOf(pic), nm), pic.system)
  {
    hide Entries, ContentsOf, Code;
    contents := NOTHING;
    var it := new PolymorphicInlineCacheIterator(pic);
    ghost var j, all := 0, Updated(EntriesOf(pic), nm);
    assert all[..0] == [] && ContentsOf([], pic.system) == NOTHING by { NothingCollected(pic.system); }
    while !it.AtEnd()
      invariant it.pic == pic && it.At(j) && !pic.IsMegamorphic() && j <= |all| && all == Updated(EntriesOf(pic), nm)
      invariant contents == ContentsOf(all[..j], pic.system)
      decreases |all| - j
    {
      var e := it.Current(j);
      contents := Appended(contents, UpdatedEntry(e, nm), pic.system);
      ContentsSnoc(all[..j], all[j], pic.system);
      assert all[..j] + [all[j]] == all[..j + 1];
      it.Advance(j);
      j := j + 1;
    }
    assert all[..j] == all;
  }

  lemma NothingCollected(s: System)
    ensures ContentsOf([], s) == NOTHING
  {}

  // ---- cleaning up --------------------------------------------------------------------------------------------------

  /** What has become of an entry: what the lookup finds now, or nothing. An interpreted entry of a
      super send stays, since its lookup cannot be repeated. */
  function Refresh(w: World, e: Entry, superSend: bool): seq<Entry> {
    if e.Interpreted? && superSend then [e]
    else if w.lookup(e.klass) == NotFound then []
    else [EntryFor(e.klass, w.lookup(e.klass))]
  }

  function Refreshed(w: World, es: seq<Entry>, superSend: bool): seq<Entry> {
    if es == [] then [] else Refreshed(w, es[..|es| - 1], superSend) + Refresh(w, es[|es| - 1], superSend)
  }

  /** Every entry is still there and of the same kind. */
  predicate Kept(w: World, es: seq<Entry>, superSend: bool) {
    forall i :: 0 <= i < |es| ==>
      |Refresh(w, es[i], superSend)| == 1 && Refresh(w, es[i], superSend)[0].Compiled? == es[i].Compiled?
  }

  lemma RefreshedSnoc(w: World, es: seq<Entry>, j: nat, superSend: bool)
    requires j < |es|
    ensures Refreshed(w, es[..j + 1], superSend) == Refreshed(w, es[..j], superSend) + Refresh(w, es[j], superSend)
    ensures Kept(w, es[..j + 1], superSend) <==> Kept(w, es[..j], superSend) && Kept(w, [es[j]], superSend)
    ensures es[j..] == [es[j]] + es[j + 1..]
  {
    assert es[..j + 1][..j] == es[..j];
    assert es[..j + 1] == es[..j] + [es[j]];
  }

  lemma RefreshOne(w: World, e: Entry, superSend: bool)
    requires w.Valid() && w.GoodEntry(e)
    ensures var r := Refresh(w, e, superSend);
      |r| <= 1 && (r != [] ==> r == [r[0]] && r[0].klass == e.klass && w.GoodEntry(r[0]))
  {
    assert w.GoodResult(e.klass, w.lookup(e.klass));
  }

  lemma KeptOne(w: World, e: Entry, superSend: bool)
    ensures Kept(w, [e], superSend) <==>
      |Refresh(w, e, superSend)| == 1 && Refresh(w, e, superSend)[0].Compiled? == e.Compiled?
  {
    assert [e][0] == e;
  }

  /** The refreshed entries are good, and of the old classes. */
  lemma {:induction false} RefreshedGood(w: World, es: seq<Entry>, superSend: bool)
    requires w.Valid() && w.GoodEntries(es)
    ensures w.GoodEntries(Refreshed(w, es, superSend)) && |Refreshed(w, es, superSend)| <= |es|
    ensures Kept(w, es, superSend) ==>
      |Refreshed(w, es, superSend)| == |es| && (Worthwhile(es) ==> Worthwhile(Refreshed(w, es, superSend)))
    decreases |es|
  {
    hide Refresh, Refreshed, World.GoodEntries, Kept, Worthwhile, World.Valid, World.GoodEntry;
    if es == [] {
      NothingRefreshed(w, es, superSend);
    } else {
      var init, e := es[..|es| - 1], es[|es| - 1];
      GoodUnsnoc(w, es);
      RefreshedGood(w, init, superSend);
      RefreshedSnoc(w, es, |init|, superSend);
      assert es[..|init| + 1] == es;
      var r, f := Refreshed(w, init, superSend), Refresh(w, e, superSend);
      RefreshOne(w, e, superSend);
      KeptOne(w, e, superSend);
      FreshRefreshed(w, init, e.klass, superSend);
      if f == [] {
        assert r + f == r;
      } else {
        GoodSnoc(w, r, f[0]);
        KeptSnoc(w, init, e, r, f[0]);
      }
    }
  }

  lemma GoodUnsnoc(w: World, es: seq<Entry>)
    requires w.GoodEntries(es) && es != []
    ensures w.GoodEntries(es[..|es| - 1]) && w.GoodEntry(es[|es| - 1]) && Fresh(es[..|es| - 1], es[|es| - 1].klass)
    ensures es == es[..|es| - 1] + [es[|es| - 1]]
  {}

  lemma KeptSnoc(w: World, init: seq<Entry>, e: Entry, r: seq<Entry>, f: Entry)
    ensures |r| == |init| && f.Compiled? == e.Compiled? && Worthwhile(init + [e]) ==> Worthwhile(r + [f])
  {
    if |r| == |init| && f.Compiled? == e.Compiled? && Worthwhile(init + [e]) && |r| == 0 {
      var i :| 0 <= i < |init + [e]| && (init + [e])[i].Interpreted?;
      assert (r + [f])[0] == f;
    }
  }

  /** The lookup decides: a class keeps an entry if and only if the lookup finds something, and then that. */
  lemma {:induction false} RefreshedMeans(w: World, es: seq<Entry>, e: Entry)
    requires e in es && Distinct(es)
    ensures w.lookup(e.klass) == NotFound ==> Fresh(Refreshed(w, es, false), e.klass)
    ensures w.lookup(e.klass) != NotFound ==> EntryFor(e.klass, w.lookup(e.klass)) in Refreshed(w, es, false)
    decreases |es|
  {
    var init, last := es[..|es| - 1], es[|es| - 1];
    if e == last {
      FreshRefreshed(w, init, e.klass, false);
    } else {
      assert e in init;
      RefreshedMeans(w, init, e);
    }
  }

  lemma {:induction false} FreshRefreshed(w: World, es: seq<Entry>, klass: Word, superSend: bool)
    requires Fresh(es, klass)
    ensures Fresh(Refreshed(w, es, superSend), klass)
    decreases |es|
  {
    if es != [] {
      FreshRefreshed(w, es[..|es| - 1], klass, superSend);
    }
  }

  datatype CleanupResult = StillCache(pic: PolymorphicInlineCache) | OneMethod(nativeMethod: NativeMethod) | NoTargets

  /** What one entry contributes, and whether its kind stays. */
  method RefreshEntry(w: World, e: Entry, superSend: bool) returns (r: LookupResult, kept: bool)
    requires w.Valid() && w.GoodEntry(e)
    ensures Refresh(w, e, superSend) == if r == NotFound then [] else [EntryFor(e.klass, r)]
    ensures kept <==> Kept(w, [e], superSend)
    ensures kept ==> if e.Compiled? then r.FoundNative? else r.FoundMethod?
    ensures w.GoodResult(e.klass, r)
  {
    KeptOne(w, e, superSend);
    if e.Interpreted? && superSend {
      r, kept := FoundMethod(e.methodOop), true;
    } else {
      r := w.lookup(if e.Compiled? then w.methodAt(e.target).klass else e.klass);
      kept := if e.Compiled? then r.FoundNative? else r.FoundMethod?;
    }
  }

  /** `cleanup`: entries are brought up to date in the code as long as none changes its kind or goes;
      otherwise there is a new cache, or only one compiled method, or nothing. */
  method Cleanup(w: World, pic: PolymorphicInlineCache, superSend: bool, at: Word) returns (r: CleanupResult)
    requires w.Valid() && Sound(w, pic) && w.Place(at)
    modifies pic, pic.code
    ensures old(pic.IsMegamorphic()) ==> r == StillCache(pic) && pic.IsMegamorphic() && Sound(w, pic)
    ensures !old(pic.IsMegamorphic()) ==> match r
      case StillCache(p) =>
        && Sound(w, p) && !p.IsMegamorphic() && (p == pic || (fresh(p) && fresh(p.code))) && p.selector == pic.selector
        && Same(Refreshed(w, old(EntriesOf(pic)), superSend), EntriesOf(p))
      case OneMethod(nm) => w.GoodNative(nm) && Refreshed(w, old(EntriesOf(pic)), superSend) ==
        [Compiled(nm.klass, nm.entryPoint)]
      case NoTargets => Refreshed(w, old(EntriesOf(pic)), superSend) == []
  {
    hide Entries, ContentsOf, Code, Same, Distinct, Worthwhile, World.GoodEntries, Kept, Refresh, Refreshed,
      Contents.Valid;
    if pic.IsMegamorphic() {
      return StillCache(pic);
    }
    ghost var es := EntriesOf(pic);
    RefreshedGood(w, es, superSend);
    var contents, changed := CleanEntries(w, pic, superSend);
    if !changed {
      SelfSame(w, EntriesOf(pic));
      return StillCache(pic);
    }
    CollectedCounts(w, Refreshed(w, es, superSend));
    if contents.Targets() == 0 {
      return NoTargets;
    }
    if contents.Targets() == 1 && contents.HasNatives() {
      OnlyNative(w, Refreshed(w, es, superSend));
      return OneMethod(w.methodAt(if contents.HasSmiCase() then contents.smiNative else contents.natives[0].target));
    }
    WorthACache(w, Refreshed(w, es, superSend));
    var p := NewCache(w, at, pic.selector, contents, Refreshed(w, es, superSend));
    r := StillCache(p);
  }

  /** The entry gets its new target, in the code. */
  method PatchEntry(w: World, it: PolymorphicInlineCacheIterator, ghost j: nat, e: Entry, r: LookupResult)
    requires it.At(j) && !it.AtEnd() && (e.Compiled? <==> it.IsCompiled())
    requires e.klass == Entries(it.pic.contents, it.pic.system)[j].klass
    requires w.Valid() && it.pic.system == w.system && w.Place(it.pic.entry) && it.pic.contents.Targets() <= MAX_ENTRIES
    requires (if e.Compiled? then r.FoundNative? else r.FoundMethod?) && w.GoodResult(e.klass, r)
    modifies it.pic, it.pic.code
    ensures it.At(j) && it.pic.numberOfTargets == old(it.pic.numberOfTargets)
    ensures Entries(it.pic.contents, it.pic.system) ==
      old(Entries(it.pic.contents, it.pic.system))[j := EntryFor(e.klass, r)]
  {
    hide Entries, Code;
    if e.Compiled? {
      SmallCode(it.pic);
      it.SetNativeMethod(j, r.nativeMethod.entryPoint);
    } else {
      it.SetMethodOop(j, r.methodOop);
    }
  }

  lemma SmallCode(pic: PolymorphicInlineCache)
    requires pic.Valid() && !pic.IsMegamorphic() && pic.contents.Targets() <= MAX_ENTRIES
    ensures pic.code.Length <= MAX_CODE_SIZE
  {}

  lemma MoreToDo(it: PolymorphicInlineCacheIterator, j: nat)
    requires it.At(j) && !it.AtEnd()
    ensures j < |EntriesOf(it.pic)|
  {}

  /** One entry: what becomes of it is collected, and put into the code if its kind stays. */
  method CleanOne(w: World, it: PolymorphicInlineCacheIterator, contents0: Contents, superSend: bool, ghost j: nat,
                  ghost entry: Entry)
    returns (contents: Contents, kept: bool)
    requires it.At(j) && !it.AtEnd() && j < |EntriesOf(it.pic)| && EntriesOf(it.pic)[j] == entry && w.GoodEntry(entry)
    requires w.Valid() && it.pic.system == w.system && w.Place(it.pic.entry) && |EntriesOf(it.pic)| <= MAX_ENTRIES
    modifies it.pic, it.pic.code
    ensures it.At(j) && it.pic.numberOfTargets == old(it.pic.numberOfTargets) && (kept <==> Kept(w, [entry], superSend))
    ensures contents == if Refresh(w, entry, superSend) == [] then contents0
      else Appended(contents0, Refresh(w, entry, superSend)[0], w.system)
    ensures var now, after := old(EntriesOf(it.pic)), EntriesOf(it.pic);
      && (after == now || (Refresh(w, entry, superSend) != [] && after == now[j := Refresh(w, entry, superSend)[0]]))
      && (after == now ==> !Kept(w, [entry], superSend) || Refresh(w, entry, superSend) == [entry])
  {
    hide Entries, Code, Kept, Refresh, Contents.Valid, Appended, World.GoodEntry;
    KeptOne(w, entry, superSend);
    contents := contents0;
    var e := it.Current(j);
    var result;
    result, kept := RefreshEntry(w, e, superSend);
    if result != NotFound {
      contents := Appended(contents, EntryFor(e.klass, result), w.system);
    }
    if kept && EntryFor(e.klass, result) != e {
      PatchEntry(w, it, j, e, result);
    }
  }

  /** The pass over the entries. */
  method CleanEntries(w: World, pic: PolymorphicInlineCache, superSend: bool)
    returns (contents: Contents, changed: bool)
    requires w.Valid() && Sound(w, pic) && !pic.IsMegamorphic()
    modifies pic, pic.code
    ensures pic.Valid() && !pic.IsMegamorphic() && pic.numberOfTargets == old(pic.numberOfTargets)
    ensures contents == ContentsOf(Refreshed(w, old(EntriesOf(pic)), superSend), w.system)
    ensures changed <==> !Kept(w, old(EntriesOf(pic)), superSend)
    ensures !changed ==> EntriesOf(pic) == Refreshed(w, old(EntriesOf(pic)), superSend)
  {
    hide Entries, ContentsOf, Code, Same, Distinct, Worthwhile, Kept, Refresh, Refreshed, Contents.Valid, Appended;
    ghost var es, j := EntriesOf(pic), 0;
    contents, changed := NOTHING, false;
    var it := new PolymorphicInlineCacheIterator(pic);
    NothingRefreshed(w, es, superSend);
    while !it.AtEnd()
      invariant it.pic == pic && it.At(j) && !pic.IsMegamorphic() && j <= |es| == |EntriesOf(pic)|
      invariant pic.numberOfTargets == old(pic.numberOfTargets)
      invariant contents == ContentsOf(Refreshed(w, es[..j], superSend), w.system)
      invariant (changed <==> !Kept(w, es[..j], superSend))
      invariant EntriesOf(pic)[j..] == es[j..]
      invariant (!changed ==> EntriesOf(pic) == Refreshed(w, es[..j], superSend) + es[j..])
      decreases |es| - j
    {
      contents, changed := CleanNext(w, it, contents, changed, superSend, j, es);
      j := j + 1;
    }
    assert es[..j] == es && es[j..] == [];
  }

  /** One step of the pass. */
  method CleanNext(w: World, it: PolymorphicInlineCacheIterator, contents0: Contents, changed0: bool, superSend: bool,
                   ghost j: nat, ghost es: seq<Entry>)
    returns (contents: Contents, changed: bool)
    requires w.Valid() && it.At(j) && !it.AtEnd() && j <= |es| == |EntriesOf(it.pic)| <= MAX_ENTRIES
    requires it.pic.system == w.system && w.Place(it.pic.entry) && w.GoodEntries(es)
    requires contents0 == ContentsOf(Refreshed(w, es[..j], superSend), w.system)
    requires changed0 <==> !Kept(w, es[..j], superSend)
    requires EntriesOf(it.pic)[j..] == es[j..]
    requires !changed0 ==> EntriesOf(it.pic) == Refreshed(w, es[..j], superSend) + es[j..]
    modifies it, it.pic, it.pic.code
    ensures j < |es| && it.At(j + 1) && it.pic.numberOfTargets == old(it.pic.numberOfTargets)
    ensures |EntriesOf(it.pic)| == |es|
    ensures contents == ContentsOf(Refreshed(w, es[..j + 1], superSend), w.system)
    ensures changed <==> !Kept(w, es[..j + 1], superSend)
    ensures EntriesOf(it.pic)[j + 1..] == es[j + 1..]
    ensures !changed ==> EntriesOf(it.pic) == Refreshed(w, es[..j + 1], superSend) + es[j + 1..]
  {
    hide Entries, ContentsOf, Code, Same, Distinct, Worthwhile, Kept, Refresh, Refreshed, Contents.Valid, Appended;
    ghost var now := EntriesOf(it.pic);
    MoreToDo(it, j);
    Tails(now, es, j);
    RefreshedSnoc(w, es, j, superSend);
    CollectOne(w, es, j, superSend);
    var kept;
    contents, kept := CleanOne(w, it, contents0, superSend, j, es[j]);
    changed := changed0 || !kept;
    PatchedTail(w, now, EntriesOf(it.pic), es, j, superSend);
    it.Advance(j);
  }

  lemma NothingRefreshed(w: World, es: seq<Entry>, superSend: bool)
    ensures es[..0] == [] && es[0..] == es && Refreshed(w, [], superSend) == [] && ContentsOf([], w.system) == NOTHING
    ensures Kept(w, [], superSend)
  {}

  lemma CollectOne(w: World, es: seq<Entry>, j: nat, superSend: bool)
    requires j < |es| && w.Valid() && w.GoodEntry(es[j])
    ensures var before, f := ContentsOf(Refreshed(w, es[..j], superSend), w.system), Refresh(w, es[j], superSend);
      ContentsOf(Refreshed(w, es[..j + 1], superSend), w.system) == if f == [] then before
        else Appended(before, f[0], w.system)
  {
    hide ContentsOf, Refresh, Refreshed, Kept;
    var r, f := Refreshed(w, es[..j], superSend), Refresh(w, es[j], superSend);
    RefreshedSnoc(w, es, j, superSend);
    RefreshOne(w, es[j], superSend);
    if f == [] {
      assert r + f == r;
    } else {
      ContentsSnoc(r, f[0], w.system);
    }
  }

  lemma Tails(now: seq<Entry>, es: seq<Entry>, j: nat)
    requires j < |es| == |now| && now[j..] == es[j..]
    ensures now[j] == es[j] && now[j + 1..] == es[j + 1..]
  {
    assert now[j..][0] == es[j..][0] && now[j..][1..] == es[j..][1..];
  }

  /** After an entry that kept its kind has been patched, one more entry is up to date. */
  lemma PatchedTail(w: World, now: seq<Entry>, after: seq<Entry>, es: seq<Entry>, j: nat, superSend: bool)
    requires j < |es| == |now| == |after| && now[j..] == es[j..]
    requires after == now || (Refresh(w, es[j], superSend) != [] && after == now[j := Refresh(w, es[j], superSend)[0]])
    requires after == now ==> !Kept(w, [es[j]], superSend) || Refresh(w, es[j], superSend) == [es[j]]
    ensures after[j + 1..] == es[j + 1..]
    ensures now == Refreshed(w, es[..j], superSend) + es[j..] && Kept(w, [es[j]], superSend) ==>
      after == Refreshed(w, es[..j + 1], superSend) + es[j + 1..]
  {
    hide Refreshed;
    Tails(now, es, j);
    RefreshedSnoc(w, es, j, superSend);
    if now == Refreshed(w, es[..j], superSend) + es[j..] && Kept(w, [es[j]], superSend) {
      var r, f := Refreshed(w, es[..j], superSend), Refresh(w, es[j], superSend);
      assert |r| == j;
      assert |[es[j]]| == 1 && [es[j]][0] == es[j] && |f| == 1;
      assert f == [f[0]];
      assert after == r + [f[0]] + es[j + 1..];
    }
  }

  lemma SelfSame(w: World, es: seq<Entry>)
    requires w.GoodEntries(es)
    ensures Same(es, es)
  {}

  lemma CollectedCounts(w: World, es: seq<Entry>)
    requires w.GoodEntries(es)
    ensures ContentsOf(es, w.system).Targets() == |es|
  {
    hide ContentsOf, Entries;
    ContentsEntries(es, w.system);
  }

  /** A single compiled target is found in the contents. */
  lemma OnlyNative(w: World, es: seq<Entry>)
    requires w.GoodEntries(es) && |es| == 1 && ContentsOf(es, w.system).HasNatives()
    ensures var c := ContentsOf(es, w.system);
      && (!c.HasSmiCase() ==> |c.natives| > 0)
      && var t := if c.HasSmiCase() then c.smiNative else c.natives[0].target;
         w.GoodNative(w.methodAt(t)) && es == [Compiled(w.methodAt(t).klass, w.methodAt(t).entryPoint)]
  {
    assert es[..0] == [];
    NothingCollected(w.system);
    assert ContentsOf(es, w.system) == Appended(NOTHING, es[0], w.system);
    assert w.GoodEntry(es[0]);
  }

  lemma WorthACache(w: World, es: seq<Entry>)
    requires w.GoodEntries(es) && es != [] && !(|es| == 1 && ContentsOf(es, w.system).HasNatives())
    ensures Worthwhile(es)
  {
    if |es| == 1 {
      assert es[..0] == [];
      NothingCollected(w.system);
      assert ContentsOf(es, w.system) == Appended(NOTHING, es[0], w.system);
    }
  }
}
