/** The inline cache of a send in compiled code, as it goes through its states: empty, one compiled
    method, a polymorphic cache, a megamorphic one. */
module SendCaches {
  import opened Displacements
  import opened PicCode
  import opened PicIteration
  import opened PicIterator
  import opened PicEntries
  import opened PicExecution
  import opened InlineCaches
  import opened CacheRuns

  /** Where the call goes. A compiled method can be entered behind the test of the receiver's class, which
      is verified beforehand when the receiver is static. */
  datatype Destination = Unlinked | Direct(nativeMethod: NativeMethod,
    verified: bool) | Linked(pic: PolymorphicInlineCache)

  class CompiledInlineCache {
    const selector: Word
    const superSend: bool
    const receiverStatic: bool
    var destination: Destination
    var dirty: bool
    var optimized: bool
    var megamorphic: bool

    ghost function Repr(): set<object>
      reads this
    {
      match destination
      case Linked(p) => {p, p.code}
      case _ => {}
    }

    /** No class is listed twice, there are at most four before the cache is megamorphic, every target is
        good, a polymorphic cache is for the selector of the send, and a cache that is not empty is dirty. */
    ghost predicate Valid(w: World)
      reads this, Repr()
    {
      && w.Valid() && (destination != Unlinked ==> dirty)
      && match destination
         case Unlinked => true
         case Direct(nm, verified) => w.GoodNative(nm) && (verified ==> receiverStatic)
         case Linked(p) => Sound(w, p) && (p.IsMegamorphic() ==> megamorphic) && p.selector == selector
    }

    /** What is cached, class by class. */
    ghost function Cached(): seq<Entry>
      reads this, Repr()
    {
      match destination
      case Unlinked => []
      case Direct(nm, _) => [Compiled(nm.klass, nm.entryPoint)]
      case Linked(p) => EntriesOf(p)
    }

    ghost function Now(): Cache
      reads this, Repr()
    {
      Cache(Cached(), IsMegamorphic())
    }

    /** Where a send to a receiver of this class goes: into the code of the polymorphic cache, or to the
        compiled method, which tests the class unless it is entered behind the test. */
    ghost function Goes(w: World, r: Receiver): Outcome
      requires w.Valid()
      reads this, Repr()
    {
      match destination
      case Unlinked => Miss
      case Direct(nm, verified) => if verified || r.klass == nm.klass then Jump(nm.entryPoint) else Miss
      case Linked(p) => Run(p.code[..], w.system, p.entry, r, 0, 0, false)
    }

    /** Receivers go where the entry of their class says, provided that a static receiver is of the class that
        was verified. */
    lemma Sends(w: World, r: Receiver)
      requires Valid(w) && !IsMegamorphic() && (r.smi <==> r.klass == w.system.smiKlass)
      requires destination.Direct? && destination.verified ==> r.klass == destination.nativeMethod.klass
      ensures Goes(w, r) == Dispatch(Cached(), r.klass)
    {
      hide Sound, Run;
      if destination.Linked? {
        SoundRuns(w, destination.pic, r, 0, false);
      }
    }

    /** Once the cache is megamorphic, receivers of every class are looked up under the selector of the send. */
    lemma MegamorphicSends(w: World)
      requires Valid(w) && IsMegamorphic()
      ensures forall r :: Goes(w, r) == MegamorphicLookup(selector)
    {
      hide Run;
      forall r
        ensures Goes(w, r) == MegamorphicLookup(selector)
      {
        var p := destination.pic;
        MegamorphicLooksUp(p.code[..], w.system, p.entry, selector, r, 0, false);
      }
    }

    /** A cache stays valid when the lookup changes. */
    lemma Outlives(w: World, v: World)
      requires Valid(w) && Later(w, v, Cached())
      ensures Valid(v)
    {
      if destination.Linked? && !destination.pic.IsMegamorphic() {
        LaterGood(w, v, Cached());
      } else if destination.Direct? {
        var nm := destination.nativeMethod;
        assert Compiled(nm.klass, nm.entryPoint) in Cached();
      }
    }

    lemma CachedGood(w: World)
      requires Valid(w)
      ensures w.GoodEntries(Cached()) && |Cached()| <= MAX_ENTRIES
      ensures (!IsMegamorphic() ==> (Cached() == [] <==> destination == Unlinked))
    {
      hide Entries;
      if destination.Direct? {
        SingleGood(w, Compiled(destination.nativeMethod.klass, destination.nativeMethod.entryPoint));
      }
    }

    predicate IsMegamorphic()
      reads this, Repr()
    {
      destination.Linked? && destination.pic.IsMegamorphic()
    }

    predicate IsMonomorphic()
      reads this, Repr()
    {
      destination.Direct? || (destination.Linked? && destination.pic.numberOfTargets == 1)
    }

    constructor (sel: Word, super: bool, staticReceiver: bool)
      ensures destination == Unlinked && !dirty && !optimized && selector == sel && superSend == super
      ensures receiverStatic == staticReceiver
      ensures Now() == Cache([], false) && forall w: World :: w.Valid() ==> Valid(w)
    {
      selector, superSend, receiverStatic := sel, super, staticReceiver;
      destination, dirty, optimized, megamorphic := Unlinked, false, false, false;
    }

    /** `clear`: the next send does a lookup again; the flags stay. */
    method Clear(w: World)
      requires w.Valid()
      modifies this`destination
      ensures Valid(w) && destination == Unlinked && Cached() == [] && Step(w, old(Now()), Cleared, superSend, w, Now())
    {
      destination := Unlinked;
    }

    /** `allocate`: a cache for the new entry and the old ones. With four old ones it is megamorphic, or
        there is none if such caches are not wanted. */
    method Allocate(w: World, klass: Word, r: LookupResult, at: Word, useMICs: bool)
      returns (pic: PolymorphicInlineCache?)
      requires Valid(w) && !IsMegamorphic() && w.Place(at) && r != NotFound && w.GoodResult(klass, r)
      requires Fresh(Cached(), klass)
      requires destination == Unlinked ==> r.FoundMethod?
      modifies this`optimized
      ensures pic == null <==> |Cached()| >= MAX_ENTRIES && !useMICs
      ensures pic == null ==> !optimized
      ensures pic != null ==>
        && fresh(pic) && fresh(pic.code) && Sound(w, pic) && (pic.IsMegamorphic() <==> |Cached()| >= MAX_ENTRIES)
        && pic.selector == selector
      ensures pic != null && !pic.IsMegamorphic() ==> Same([EntryFor(klass, r)] + Cached(), EntriesOf(pic))
    {
      hide Entries, ContentsOf, Code, Same, Worthwhile, Distinct, World.GoodEntries, Contents.Valid;
      var first := Appended(NOTHING, EntryFor(klass, r), w.system);
      FirstCollected(w, EntryFor(klass, r));
      CachedGood(w);
      GrownGood(w, Cached(), klass, r);
      ghost var es := [EntryFor(klass, r)] + Cached();
      if destination.Linked? {
        if destination.pic.numberOfTargets >= MAX_ENTRIES {
          if useMICs {
            pic := new PolymorphicInlineCache.Megamorphic(w.system, at, selector);
          } else {
            optimized := false;
            pic := null;
          }
        } else {
          var contents := Collect(destination.pic, first, [EntryFor(klass, r)]);
          pic := NewCache(w, at, selector, contents, es);
        }
      } else if destination.Direct? {
        var e := Compiled(destination.nativeMethod.klass, destination.nativeMethod.entryPoint);
        SecondCollected(w, EntryFor(klass, r), e);
        pic := NewCache(w, at, selector, Appended(first, e, w.system), es);
      } else {
        assert es == [EntryFor(klass, r)];
        pic := NewCache(w, at, selector, first, es);
      }
    }

    /** The send is linked directly: it was empty, or gives up its four entries. */
    ghost predicate GivesWay(useMICs: bool)
      reads this, Repr()
    {
      destination == Unlinked || (|Cached()| >= MAX_ENTRIES && !useMICs)
    }

    /** `normalLookup`, on a miss for a class that is not cached: afterwards its receivers go where the
        lookup leads, and all other classes keep their entries, unless there were four already. If the send
        is optimized and the lookup finds an interpreted method, this is compiled first: `v` is what the
        caches rely on afterwards. */
    method NormalLookup(w: World, v: World, klass: Word, at: Word, useMICs: bool)
      requires Valid(w) && !IsMegamorphic() && w.Place(at) && Fresh(Cached(), klass) && Later(w, v, Cached())
      requires SameLookups(w, v, Cached())
      requires if optimized && w.lookup(klass).FoundMethod? then v.lookup(klass).FoundNative?
        else v.lookup(klass) == w.lookup(klass)
      modifies this
      ensures Valid(v) && (fresh(Repr() - old(Repr()))) && Step(w, old(Now()), Missed(klass), superSend, v, Now())
      ensures v.lookup(klass) == NotFound ==> destination == old(destination)
      ensures v.lookup(klass) != NotFound ==>
        dirty && (IsMegamorphic() <==> |old(Cached())| >= MAX_ENTRIES && useMICs) && (IsMegamorphic() ==> megamorphic)
      ensures v.lookup(klass).FoundNative? && old(GivesWay(useMICs)) ==>
        destination == Direct(v.lookup(klass).nativeMethod, receiverStatic)
      ensures !IsMegamorphic() && v.lookup(klass) != NotFound ==>
        Dispatch(Cached(), klass) == Result(EntryFor(klass, v.lookup(klass)))
      ensures !IsMegamorphic() && (v.lookup(klass) == NotFound || |old(Cached())| < MAX_ENTRIES) ==>
        forall k :: k != klass ==> Dispatch(Cached(), k) == old(Dispatch(Cached(), k))
      ensures IsMegamorphic() ==> forall r :: Goes(v, r) == MegamorphicLookup(selector)
    {
      hide Entries, ContentsOf, Code, Same, Worthwhile, Distinct, World.GoodEntries, Contents.Valid, Dispatch, Goes;
      var r := w.lookup(klass);
      if r == NotFound {
        Outlives(w, v);
        return;
      }
      if optimized && r.FoundMethod? {
        r := v.lookup(klass);
      }
      Outlives(w, v);
      Enter(v, klass, r, at, useMICs);
      if IsMegamorphic() {
        MegamorphicSends(v);
      }
    }

    /** The entry for the class that missed. */
    method Enter(w: World, klass: Word, r: LookupResult, at: Word, useMICs: bool)
      requires Valid(w) && !IsMegamorphic() && w.Place(at) && w.GoodResult(klass, r) && r != NotFound
      requires Fresh(Cached(), klass)
      modifies this
      ensures Valid(w) && (fresh(Repr() - old(Repr()))) && dirty
      ensures |old(Cached())| < MAX_ENTRIES ==> !IsMegamorphic() && Same([EntryFor(klass, r)] + old(Cached()), Cached())
      ensures |old(Cached())| >= MAX_ENTRIES && useMICs ==> IsMegamorphic() && megamorphic && Cached() == []
      ensures |old(Cached())| >= MAX_ENTRIES && !useMICs ==> !IsMegamorphic() && Same([EntryFor(klass, r)], Cached())
      ensures r.FoundNative? && old(GivesWay(useMICs)) ==> destination == Direct(r.nativeMethod, receiverStatic)
      ensures !IsMegamorphic() ==> Dispatch(Cached(), klass) == Result(EntryFor(klass, r))
      ensures |old(Cached())| < MAX_ENTRIES ==>
        forall k :: k != klass ==> Dispatch(Cached(), k) == old(Dispatch(Cached(), k))
    {
      hide Entries, ContentsOf, Code, Same, Worthwhile, Distinct, World.GoodEntries, Contents.Valid, Dispatch;
      ghost var es := [EntryFor(klass, r)] + Cached();
      CachedGood(w);
      GrownGood(w, Cached(), klass, r);
      var empty := destination == Unlinked;
      if empty {
        dirty := true;
      }
      if !empty || r.FoundMethod? {
        var pic := Allocate(w, klass, r, at, useMICs);
        if pic == null {
          Clear(w);
          AloneGood(w, klass, r);
          if r.FoundNative? {
            destination := Direct(r.nativeMethod, receiverStatic);
          } else {
            pic := Allocate(w, klass, r, at, useMICs);
            destination := Linked(pic);
            assert [EntryFor(klass, r)] + [] == [EntryFor(klass, r)];
          }
        } else {
          if pic.IsMegamorphic() {
            megamorphic := true;
          }
          destination := Linked(pic);
        }
      } else {
        destination := Direct(r.nativeMethod, receiverStatic);
        assert es == Cached();
      }
      if !IsMegamorphic() {
        Dispatches(w, if |es| <= MAX_ENTRIES then es else [EntryFor(klass, r)], Cached(), EntryFor(klass, r));
        if |es| <= MAX_ENTRIES {
          OthersDispatch(w, old(Cached()), EntryFor(klass, r), Cached());
        }
      }
    }

    /** `replace`: the entry of the class gets the new compiled method. */
    method Replace(w: World, nm: NativeMethod, at: Word)
      requires Valid(w) && w.Place(at) && w.GoodNative(nm) && destination != Unlinked
      requires !IsMegamorphic() ==> exists i :: 0 <= i < |Cached()| && Cached()[i].klass == nm.klass
      modifies this`destination, Repr()
      ensures Valid(w) && fresh(Repr() - old(Repr())) && (IsMegamorphic() <==> old(IsMegamorphic()))
      ensures !IsMegamorphic() ==> Same(Updated(old(Cached()), nm), Cached())
      ensures Step(w, old(Now()), Replaced(nm), superSend, w, Now())
      ensures !IsMegamorphic() ==> Dispatch(Cached(), nm.klass) == Jump(nm.entryPoint)
      ensures !IsMegamorphic() ==> forall k :: k != nm.klass ==> Dispatch(Cached(), k) == old(Dispatch(Cached(), k))
      ensures IsMegamorphic() ==> forall r :: Goes(w, r) == MegamorphicLookup(selector)
    {
      hide Entries, ContentsOf, Code, Same, Worthwhile, Distinct, World.GoodEntries, Contents.Valid, Goes, Dispatch;
      ghost var es := Cached();
      CachedGood(w);
      if IsMonomorphic() {
        SingleUpdated(es, nm);
        destination := Direct(nm, false);
      } else {
        var r := InlineCaches.Replace(w, destination.pic, nm, at);
        if r != destination.pic {
          destination := Linked(r);
        }
      }
      if IsMegamorphic() {
        MegamorphicSends(w);
      } else {
        UpdatedDispatches(w, es, nm, Cached());
      }
    }

    /** `cleanup`: every entry is brought up to date with the lookup, or dropped when there is none any
        more. A lone compiled method whose lookup now finds an interpreted one is dropped as well. */
    method Cleanup(w: World, at: Word)
      requires Valid(w) && w.Place(at)
      modifies this`destination, Repr()
      ensures Valid(w) && fresh(Repr() - old(Repr())) && (IsMegamorphic() <==> old(IsMegamorphic()))
      ensures !IsMegamorphic() ==>
        if old(destination.Direct?) && w.lookup(old(destination).nativeMethod.klass).FoundMethod? then Cached() == []
        else Same(Refreshed(w, old(Cached()), superSend), Cached())
      ensures Step(w, old(Now()), CleanedUp, superSend, w, Now())
      ensures !IsMegamorphic() && !superSend && !old(destination.Direct?) ==>
        forall k :: Dispatch(Cached(), k) == Renewed(w, old(Cached()), k)
      ensures IsMegamorphic() ==> forall r :: Goes(w, r) == MegamorphicLookup(selector)
    {
      hide Entries, ContentsOf, Code, Same, Worthwhile, Distinct, World.GoodEntries, Contents.Valid, Refreshed, Goes,
        Dispatch, Renewed;
      ghost var es := Cached();
      CachedGood(w);
      CleanAny(w, at);
      if IsMegamorphic() {
        MegamorphicSends(w);
      } else if !superSend && !old(destination.Direct?) {
        RefreshedDispatches(w, es, Cached());
      }
    }

    method CleanAny(w: World, at: Word)
      requires Valid(w) && w.Place(at)
      modifies this`destination, Repr()
      ensures Valid(w) && fresh(Repr() - old(Repr())) && (IsMegamorphic() <==> old(IsMegamorphic()))
      ensures !IsMegamorphic() ==>
        if old(destination.Direct?) && w.lookup(old(destination).nativeMethod.klass).FoundMethod? then Cached() == []
        else Same(Refreshed(w, old(Cached()), superSend), Cached())
    {
      hide Entries, ContentsOf, Code, Same, Worthwhile, Distinct, World.GoodEntries, Contents.Valid, Refreshed;
      match destination {
        case Unlinked =>
          NothingRefreshed(w, [], superSend);
          SelfSame(w, []) by { EmptyGood(w); }
        case Direct(nm, _) =>
          CleanDirect(w, nm);
        case Linked(pic) =>
          if pic.numberOfTargets == 1 {
            CleanSingle(w, pic);
          } else {
            CleanMany(w, pic, at);
          }
      }
    }

    method CleanDirect(w: World, nm: NativeMethod)
      requires Valid(w) && destination.Direct? && destination.nativeMethod == nm
      modifies this`destination
      ensures Valid(w) && Repr() == {}
      ensures w.lookup(nm.klass).FoundMethod? ==> Cached() == []
      ensures !w.lookup(nm.klass).FoundMethod? ==>
        Same(Refreshed(w, [Compiled(nm.klass, nm.entryPoint)], superSend), Cached())
    {
      hide Entries;
      assert w.GoodResult(nm.klass, w.lookup(nm.klass));
      SingleRefreshed(w, Compiled(nm.klass, nm.entryPoint), superSend);
      match w.lookup(nm.klass) {
        case NotFound => destination := Unlinked;
        case FoundMethod(m) => destination := Unlinked;
        case FoundNative(nm2) =>
          if nm2 != nm {
            destination := Direct(nm2, false);
          }
      }
    }

    /** A polymorphic cache with one entry, which is interpreted. */
    method CleanSingle(w: World, pic: PolymorphicInlineCache)
      requires Valid(w) && destination == Linked(pic) && pic.numberOfTargets == 1
      modifies this`destination, pic, pic.code
      ensures Valid(w) && Repr() <= old(Repr()) && !IsMegamorphic()
      ensures Same(Refreshed(w, old(Cached()), superSend), Cached())
    {
      hide Entries, Code, Distinct, Contents.Valid, Refreshed, Same;
      ghost var es := EntriesOf(pic);
      var it := new PolymorphicInlineCacheIterator(pic);
      var e := it.Current(0);
      SingleRefreshed(w, e, superSend);
      assert es == [e];
      SelfSame(w, es);
      if superSend {
        return;
      }
      assert w.GoodResult(e.klass, w.lookup(e.klass));
      match w.lookup(e.klass) {
        case NotFound =>
          destination := Unlinked;
          SelfSame(w, []) by { EmptyGood(w); }
        case FoundMethod(m) =>
          if m != e.methodOop {
            it.SetMethodOop(0, m);
            SingleGood(w, Entry.Interpreted(e.klass, m));
            assert EntriesOf(pic) == [Entry.Interpreted(e.klass, m)];
            assert EntriesOf(pic)[0].Interpreted?;
          }
        case FoundNative(nm) =>
          destination := Direct(nm, false);
          SingleGood(w, Compiled(nm.klass, nm.entryPoint));
      }
    }

    method CleanMany(w: World, pic: PolymorphicInlineCache, at: Word)
      requires Valid(w) && w.Place(at) && destination == Linked(pic) && pic.numberOfTargets != 1
      modifies this`destination, pic, pic.code
      ensures Valid(w) && fresh(Repr() - old(Repr())) && (IsMegamorphic() <==> old(IsMegamorphic()))
      ensures !IsMegamorphic() ==> Same(Refreshed(w, old(Cached()), superSend), Cached())
    {
      hide Entries, Code, Distinct, Contents.Valid, Refreshed, Same, World.GoodEntries;
      var result := InlineCaches.Cleanup(w, pic, superSend, at);
      match result {
        case StillCache(p) =>
          if p != pic {
            destination := Linked(p);
          }
        case OneMethod(nm) =>
          destination := Direct(nm, false);
          SingleGood(w, Compiled(nm.klass, nm.entryPoint));
        case NoTargets =>
          destination := Unlinked;
          SelfSame(w, []) by { EmptyGood(w); }
      }
    }
  }

  // ---- facts -----------------------------------------------------------------------------------------------------

  lemma EmptyGood(w: World)
    ensures w.GoodEntries([])
  {}

  lemma SingleGood(w: World, e: Entry)
    requires w.GoodEntry(e)
    ensures w.GoodEntries([e]) && Same([e], [e])
  {}

  lemma FirstCollected(w: World, e: Entry)
    ensures ContentsOf([e], w.system) == Appended(NOTHING, e, w.system)
  {
    assert [] + [e] == [e];
    ContentsSnoc([], e, w.system);
  }

  lemma SecondCollected(w: World, e: Entry, f: Entry)
    ensures ContentsOf([e] + [f], w.system) == Appended(ContentsOf([e], w.system), f, w.system)
  {
    ContentsSnoc([e], f, w.system);
  }

  /** One more entry, for a class that had none. */
  lemma GrownGood(w: World, es: seq<Entry>, klass: Word, r: LookupResult)
    requires w.GoodEntries(es) && r != NotFound && w.GoodResult(klass, r) && Fresh(es, klass)
    ensures w.GoodEntry(EntryFor(klass, r)) && w.GoodEntries([EntryFor(klass, r)] + es)
    ensures Same([EntryFor(klass, r)] + es, [EntryFor(klass, r)] + es)
    ensures es != [] || r.FoundMethod? ==> Worthwhile([EntryFor(klass, r)] + es)
  {
    var all := [EntryFor(klass, r)] + es;
    assert all[0] == EntryFor(klass, r);
  }

  lemma AloneGood(w: World, klass: Word, r: LookupResult)
    requires r != NotFound && w.GoodResult(klass, r)
    ensures w.GoodEntries([EntryFor(klass, r)]) && Same([EntryFor(klass, r)], [EntryFor(klass, r)])
  {}

  lemma Dispatches(w: World, es: seq<Entry>, fs: seq<Entry>, e: Entry)
    requires Same(es, fs) && e in es
    ensures Dispatch(fs, e.klass) == Result(e)
  {
    DispatchFinds(fs, e);
  }

  /** Where a class goes does not depend on the order of the entries. */
  lemma SameDispatch(a: seq<Entry>, b: seq<Entry>, k: Word)
    requires Distinct(a) && Same(a, b)
    ensures Dispatch(a, k) == Dispatch(b, k)
  {
    hide Dispatch;
    if Fresh(a, k) {
      assert Fresh(b, k) by {
        forall i | 0 <= i < |b|
          ensures b[i].klass != k
        {
          assert b[i] in a;
        }
      }
      FreshMisses(a, k);
      FreshMisses(b, k);
    } else {
      var i :| 0 <= i < |a| && a[i].klass == k;
      assert a[i] in a && a[i] in b;
      DispatchFinds(a, a[i]);
      DispatchFinds(b, a[i]);
    }
  }

  lemma OthersDispatch(w: World, es: seq<Entry>, e: Entry, fs: seq<Entry>)
    requires w.GoodEntries([e] + es) && Same([e] + es, fs)
    ensures forall k :: k != e.klass ==> Dispatch(fs, k) == Dispatch(es, k)
  {
    forall k | k != e.klass
      ensures Dispatch(fs, k) == Dispatch(es, k)
    {
      SameDispatch([e] + es, fs, k);
      assert ([e] + es)[1..] == es;
    }
  }

  lemma UpdatedDispatches(w: World, es: seq<Entry>, nm: NativeMethod, fs: seq<Entry>)
    requires w.GoodEntries(es) && w.GoodNative(nm) && Same(Updated(es, nm), fs) && !Fresh(es, nm.klass)
    ensures Dispatch(fs, nm.klass) == Jump(nm.entryPoint)
    ensures forall k :: k != nm.klass ==> Dispatch(fs, k) == Dispatch(es, k)
  {
    UpdatedGood(w, es, nm);
    var i :| 0 <= i < |es| && es[i].klass == nm.klass;
    assert Updated(es, nm)[i] in Updated(es, nm);
    DispatchFinds(Updated(es, nm), Updated(es, nm)[i]);
    SameDispatch(Updated(es, nm), fs, nm.klass);
    forall k | k != nm.klass
      ensures Dispatch(fs, k) == Dispatch(es, k)
    {
      SameDispatch(Updated(es, nm), fs, k);
      UpdatedElsewhere(es, nm, k);
    }
  }

  lemma {:induction false} UpdatedElsewhere(es: seq<Entry>, nm: NativeMethod, k: Word)
    requires k != nm.klass
    ensures Dispatch(Updated(es, nm), k) == Dispatch(es, k)
    decreases |es|
  {
    if es != [] {
      assert Updated(es, nm)[1..] == Updated(es[1..], nm);
      UpdatedElsewhere(es[1..], nm, k);
    }
  }

  /** Where a class goes that was cached: where the lookup leads now, if it finds anything. */
  ghost function Renewed(w: World, es: seq<Entry>, k: Word): Outcome {
    if Fresh(es, k) || w.lookup(k) == NotFound then Miss else Result(EntryFor(k, w.lookup(k)))
  }

  lemma RefreshedDispatches(w: World, es: seq<Entry>, fs: seq<Entry>)
    requires w.Valid() && w.GoodEntries(es) && Same(Refreshed(w, es, false), fs)
    ensures forall k :: Dispatch(fs, k) == Renewed(w, es, k)
  {
    hide Refreshed, Dispatch;
    RefreshedGood(w, es, false);
    var rs := Refreshed(w, es, false);
    forall k
      ensures Dispatch(fs, k) == Renewed(w, es, k)
    {
      SameDispatch(rs, fs, k);
      if Fresh(es, k) {
        FreshRefreshed(w, es, k, false);
        FreshMisses(rs, k);
      } else {
        var i :| 0 <= i < |es| && es[i].klass == k;
        assert es[i] in es;
        RefreshedMeans(w, es, es[i]);
        if w.lookup(k) == NotFound {
          FreshMisses(rs, k);
        } else {
          DispatchFinds(rs, EntryFor(k, w.lookup(k)));
        }
      }
    }
  }

  lemma SingleUpdated(es: seq<Entry>, nm: NativeMethod)
    requires |es| == 1 && exists i :: 0 <= i < |es| && es[i].klass == nm.klass
    ensures Updated(es, nm) == [Compiled(nm.klass, nm.entryPoint)]
    ensures Same(Updated(es, nm), [Compiled(nm.klass, nm.entryPoint)])
  {}

  lemma SingleRefreshed(w: World, e: Entry, superSend: bool)
    ensures Refreshed(w, [e], superSend) == Refresh(w, e, superSend)
  {
    assert [e][..0] == [];
    assert Refreshed(w, [], superSend) == [];
  }

  /** The code of a sound cache sends every receiver to the entry of its class, or to a lookup. */
  lemma SoundRuns(w: World, pic: PolymorphicInlineCache, r: Receiver, edx: Word, zero: bool)
    requires w.Valid() && Sound(w, pic) && !pic.IsMegamorphic() && (r.smi <==> r.klass == w.system.smiKlass)
    ensures Run(pic.code[..], w.system, pic.entry, r, 0, edx, zero) == Dispatch(EntriesOf(pic), r.klass)
  {
    hide Code, Run, Dispatch;
    var c, s := pic.contents, w.system;
    SmallCode(pic);
    forall i | 0 <= i < |c.natives|
      ensures w.GoodTarget(c.natives[i].target)
    {
      EntryIs(c, s, i + SmiNatives(c));
      assert w.GoodEntry(Entries(c, s)[i + SmiNatives(c)]);
    }
    CodeDispatches(pic.code[..], c, s, pic.entry, r, edx, zero);
  }

  /** A cache linked to one compiled method is emptied when the lookup comes to find an interpreted method,
      although cleaning up would keep such a method in a polymorphic cache. */
  method LoneMethodGivenUp() returns (c: CompiledInlineCache, w: World, v: World, klass: Word)
    ensures c.Valid(v) && v.lookup(klass).FoundMethod? && c.destination == Unlinked
    ensures w.Valid() && w.lookup(klass).FoundNative? && Later(w, v, [EntryFor(klass, w.lookup(klass))])
    ensures Refreshed(v, [EntryFor(klass, w.lookup(klass))], false) == [EntryFor(klass, v.lookup(klass))]
  {
    hide Refreshed, Refresh, Same, Dispatch;
    klass := 3;
    var nm := NativeMethod(3, 50, 9);
    w := World(System(100, [0, 1, 2, 3, 4], 5, 7), 1000, 2000, k => if k == 3 then FoundNative(nm)
      else NotFound, _ => nm);
    v := w.(lookup := k => if k == 3 then FoundMethod(9) else NotFound);
    c := new CompiledInlineCache(8, false, false);
    c.NormalLookup(w, w, klass, 1000, true);
    assert c.destination == Direct(nm, false);
    c.Outlives(w, v);
    c.Cleanup(v, 1000);
    OneRefreshed(v, Compiled(3, 50));
  }

  lemma OneRefreshed(w: World, e: Entry)
    requires w.lookup(e.klass) != NotFound
    ensures Refreshed(w, [e], false) == [EntryFor(e.klass, w.lookup(e.klass))]
  {
    SingleRefreshed(w, e, false);
  }
}
