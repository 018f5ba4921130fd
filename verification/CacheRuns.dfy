/** The life of an inline cache as a state machine: misses, replaced methods, cleaning up and clearing, while
    the lookup changes as methods are defined and compiled. What holds over every run. */
module CacheRuns {
  import opened PicCode
  import opened PicIteration
  import opened PicEntries
  import opened PicExecution
  import opened InlineCaches

  datatype Cache = Cache(entries: seq<Entry>, megamorphic: bool)

  datatype Event = Missed(klass: Word) | Replaced(nativeMethod: NativeMethod) | CleanedUp | Cleared | LookupChanged

  /** The lookup may have changed, but the caches' heap and the compiled methods in use have not. */
  ghost predicate Later(w: World, v: World, es: seq<Entry>) {
    && v.Valid() && v.system == w.system && v.low == w.low && v.high == w.high
    && forall e :: e in es && e.Compiled? ==> v.methodAt(e.target) == w.methodAt(e.target)
  }

  ghost predicate SameLookups(w: World, v: World, es: seq<Entry>) {
    forall e :: e in es ==> v.lookup(e.klass) == w.lookup(e.klass)
  }

  /** A miss for a class that is not cached; the lookup of other classes is as before. */
  ghost predicate MissStep(w: World, s: Cache, klass: Word, v: World, t: Cache) {
    var r, es := v.lookup(klass), s.entries;
    && !s.megamorphic && Fresh(es, klass) && SameLookups(w, v, es)
    && if r == NotFound then t == s
       else if |es| < MAX_ENTRIES then !t.megamorphic && Same([EntryFor(klass, r)] + es, t.entries)
       else if t.megamorphic then t.entries == []
       else Same([EntryFor(klass, r)], t.entries)
  }

  ghost predicate ReplaceStep(w: World, s: Cache, nm: NativeMethod, t: Cache) {
    && w.GoodNative(nm) && t.megamorphic == s.megamorphic
    && if s.megamorphic then t.entries == []
       else !Fresh(s.entries, nm.klass) && Same(Updated(s.entries, nm), t.entries)
  }

  /** A lone compiled method whose lookup finds an interpreted one is given up. */
  ghost predicate CleanupStep(w: World, s: Cache, superSend: bool, t: Cache) {
    && t.megamorphic == s.megamorphic
    && (s.megamorphic ==> t.entries == [])
    && (!s.megamorphic ==>
          || Same(Refreshed(w, s.entries, superSend), t.entries)
          || (GivenUp(w, s.entries) && t.entries == []))
  }

  predicate GivenUp(w: World, es: seq<Entry>) {
    |es| == 1 && es[0].Compiled? && w.lookup(es[0].klass).FoundMethod?
  }

  ghost predicate Step(w: World, s: Cache, event: Event, superSend: bool, v: World, t: Cache) {
    && Later(w, v, s.entries)
    && match event
       case Missed(k) => MissStep(w, s, k, v, t)
       case Replaced(nm) => v == w && ReplaceStep(w, s, nm, t)
       case CleanedUp => v == w && CleanupStep(w, s, superSend, t)
       case Cleared => v == w && t == Cache([], false)
       case LookupChanged => t == s
  }

  // ---- one step -----------------------------------------------------------------------------------------------

  /** No class is listed twice, there are at most four, all entries are good, and a megamorphic cache has none. */
  ghost predicate Ordered(w: World, s: Cache) {
    w.Valid() && w.GoodEntries(s.entries) && |s.entries| <= MAX_ENTRIES && (s.megamorphic ==> s.entries == [])
  }

  /** Every entry is what the lookup finds. */
  ghost predicate UpToDate(w: World, es: seq<Entry>) {
    forall e :: e in es ==> w.lookup(e.klass) != NotFound && e == EntryFor(e.klass, w.lookup(e.klass))
  }

  lemma LaterGood(w: World, v: World, es: seq<Entry>)
    requires w.GoodEntries(es) && Later(w, v, es)
    ensures v.GoodEntries(es)
  {
    forall i | 0 <= i < |es|
      ensures v.GoodEntry(es[i])
    {
      assert es[i] in es && w.GoodEntry(es[i]);
    }
  }

  lemma StepKeeps(w: World, s: Cache, event: Event, superSend: bool, v: World, t: Cache)
    requires Ordered(w, s) && Step(w, s, event, superSend, v, t)
    ensures Ordered(v, t)
  {
    hide Same, Worthwhile, World.GoodEntries, World.GoodResult, Refreshed, Updated;
    LaterGood(w, v, s.entries);
    match event {
      case Missed(k) =>
        var r := v.lookup(k);
        if r != NotFound {
          assert v.GoodResult(k, r);
          MissedGood(v, s.entries, k, r);
          forall es | es == [EntryFor(k, r)] + s.entries || es == [EntryFor(k, r)]
            ensures Same(es, t.entries) ==> v.GoodEntries(t.entries) && |t.entries| == |es|
          {
            if Same(es, t.entries) { SameGood(v, es, t.entries); }
          }
          if t.megamorphic { NoneGood(v); }
        }
      case Replaced(nm) =>
        if !s.megamorphic {
          UpdatedGood(w, s.entries, nm);
          SameGood(v, Updated(s.entries, nm), t.entries);
        } else { NoneGood(v); }
      case CleanedUp =>
        NoneGood(v);
        if !s.megamorphic && Same(Refreshed(w, s.entries, superSend), t.entries) {
          RefreshedGood(w, s.entries, superSend);
          SameGood(v, Refreshed(w, s.entries, superSend), t.entries);
        }
      case Cleared => NoneGood(v);
      case LookupChanged =>
    }
  }

  lemma NoneGood(w: World)
    ensures w.GoodEntries([])
  {}

  lemma SameGood(w: World, a: seq<Entry>, b: seq<Entry>)
    requires w.GoodEntries(a) && Same(a, b)
    ensures w.GoodEntries(b) && |b| == |a|
  {
    GoodSame(w, a, b);
  }

  lemma MissedGood(w: World, es: seq<Entry>, k: Word, r: LookupResult)
    requires w.GoodEntries(es) && r != NotFound && w.GoodResult(k, r) && Fresh(es, k)
    ensures w.GoodEntries([EntryFor(k, r)] + es) && w.GoodEntries([EntryFor(k, r)])
  {}

  /** Nothing happens that the lookup does not agree with. */
  ghost predicate Agrees(w: World, event: Event) {
    event != LookupChanged && (event.Replaced? ==>
      w.lookup(event.nativeMethod.klass) == FoundNative(event.nativeMethod))
  }

  /** A cache that is up to date stays so as long as the lookup does not change. */
  lemma StepCurrent(w: World, s: Cache, event: Event, superSend: bool, v: World, t: Cache)
    requires UpToDate(w, s.entries) && Step(w, s, event, superSend, v, t) && Agrees(w, event)
    requires (superSend ==> event != CleanedUp)
    ensures UpToDate(v, t.entries)
  {
    hide World.GoodEntries, World.GoodResult, Distinct, World.Valid;
    match event {
      case Missed(k) =>
      case Replaced(nm) =>
        if !s.megamorphic {
          forall e | e in t.entries
            ensures w.lookup(e.klass) != NotFound && e == EntryFor(e.klass, w.lookup(e.klass))
          {
            var i :| 0 <= i < |s.entries| && e == UpdatedEntry(s.entries[i], nm);
            assert s.entries[i] in s.entries;
          }
        }
      case CleanedUp => CleanupCurrent(w, s, t);
      case Cleared =>
    }
  }

  /** Cleaning up brings every entry up to date. */
  lemma CleanupCurrent(w: World, s: Cache, t: Cache)
    requires CleanupStep(w, s, false, t)
    ensures UpToDate(w, t.entries)
  {
    if !s.megamorphic && Same(Refreshed(w, s.entries, false), t.entries) {
      RefreshedCurrent(w, s.entries);
    }
  }

  lemma {:induction false} RefreshedCurrent(w: World, es: seq<Entry>)
    ensures UpToDate(w, Refreshed(w, es, false))
    decreases |es|
  {
    if es != [] {
      RefreshedCurrent(w, es[..|es| - 1]);
    }
  }

  /** A cache that is up to date sends a cached class where the lookup leads, and others to the lookup. */
  lemma CurrentDispatches(w: World, es: seq<Entry>, klass: Word)
    requires Distinct(es) && UpToDate(w, es)
    ensures Fresh(es, klass) ==> Dispatch(es, klass) == Miss
    ensures !Fresh(es, klass) ==>
      w.lookup(klass) != NotFound && Dispatch(es, klass) == Result(EntryFor(klass, w.lookup(klass)))
  {
    if Fresh(es, klass) {
      FreshMisses(es, klass);
    } else {
      var i :| 0 <= i < |es| && es[i].klass == klass;
      assert es[i] in es;
      DispatchFinds(es, es[i]);
    }
  }

  lemma {:induction false} FreshMisses(es: seq<Entry>, klass: Word)
    requires Fresh(es, klass)
    ensures Dispatch(es, klass) == Miss
    decreases |es|
  {
    if es != [] {
      FreshMisses(es[1..], klass);
    }
  }

  // ---- all runs ---------------------------------------------------------------------------------------------------

  ghost predicate IsRun(ws: seq<World>, ss: seq<Cache>, events: seq<Event>, superSend: bool) {
    && |ws| == |ss| == |events| + 1 && ws[0].Valid() && ss[0] == Cache([], false)
    && forall i :: 0 <= i < |events| ==> Step(ws[i], ss[i], events[i], superSend, ws[i + 1], ss[i + 1])
  }

  /** Through every run from an empty cache on, however the lookup changes. */
  lemma {:induction false} AlwaysOrdered(ws: seq<World>, ss: seq<Cache>, events: seq<Event>, superSend: bool, n: nat)
    requires IsRun(ws, ss, events, superSend) && n <= |events|
    ensures Ordered(ws[n], ss[n])
    decreases n
  {
    hide Step;
    if n > 0 {
      AlwaysOrdered(ws, ss, events, superSend, n - 1);
      assert Step(ws[n - 1], ss[n - 1], events[n - 1], superSend, ws[n - 1 + 1], ss[n - 1 + 1]);
      StepKeeps(ws[n - 1], ss[n - 1], events[n - 1], superSend, ws[n], ss[n]);
    } else {
      NoneGood(ws[0]);
    }
  }

  /** At the start, or after cleaning up or clearing, everything is up to date, and stays so until the lookup
      changes: then every cached class goes where the lookup leads. */
  lemma {:induction false} CurrentSinceCleanup(ws: seq<World>, ss: seq<Cache>, events: seq<Event>, m: nat, n: nat,
                                               klass: Word)
    requires IsRun(ws, ss, events, false) && m <= n <= |events|
    requires m == 0 || events[m - 1] == CleanedUp || events[m - 1] == Cleared
    requires forall i :: m <= i < n ==> Agrees(ws[i], events[i])
    ensures UpToDate(ws[n], ss[n].entries)
    ensures !Fresh(ss[n].entries, klass) ==>
      ws[n].lookup(klass) != NotFound && Dispatch(ss[n].entries, klass) == Result(EntryFor(klass, ws[n].lookup(klass)))
    decreases n
  {
    hide Step, UpToDate, Dispatch;
    if m < n {
      CurrentSinceCleanup(ws, ss, events, m, n - 1, klass);
      assert Step(ws[n - 1], ss[n - 1], events[n - 1], false, ws[n - 1 + 1], ss[n - 1 + 1]);
      StepCurrent(ws[n - 1], ss[n - 1], events[n - 1], false, ws[n], ss[n]);
    } else if n > 0 {
      assert Step(ws[n - 1], ss[n - 1], events[n - 1], false, ws[n - 1 + 1], ss[n - 1 + 1]);
      CleanedOrCleared(ws[n - 1], ss[n - 1], events[n - 1], ws[n], ss[n]);
    } else {
      NothingOld(ws[0]);
    }
    AlwaysOrdered(ws, ss, events, false, n);
    CurrentDispatches(ws[n], ss[n].entries, klass);
  }

  lemma NothingOld(w: World)
    ensures UpToDate(w, [])
  {}

  lemma CleanedOrCleared(w: World, s: Cache, event: Event, v: World, t: Cache)
    requires Step(w, s, event, false, v, t) && (event == CleanedUp || event == Cleared)
    ensures UpToDate(v, t.entries)
  {
    hide Same, Refreshed, UpToDate;
    if event == CleanedUp {
      CleanupCurrent(w, s, t);
    } else {
      NothingOld(v);
    }
  }
}
