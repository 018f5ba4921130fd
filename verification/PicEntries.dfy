/** Collecting entries into the contents of a new cache. */
module PicEntries {
  import opened Displacements
  import opened PicCode
  import opened PicIteration

  /** One entry more; a target for small integers has its own place. */
  function Appended(c: Contents, e: Entry, s: System): Contents {
    match e
    case Compiled(k, t) => if k == s.smiKlass then c.(smiNative := t) else c.(natives := c.natives + [Pair(k, t)])
    case Interpreted(k, m) => if k == s.smiKlass then c.(smiMethod := m) else c.(methods := c.methods + [Pair(k, m)])
  }

  const NOTHING := Contents(0, 0, [], [])

  function ContentsOf(es: seq<Entry>, s: System): Contents {
    if es == [] then NOTHING else Appended(ContentsOf(es[..|es| - 1], s), es[|es| - 1], s)
  }

  function Value(e: Entry): Word {
    match e case Compiled(_, t) => t case Interpreted(_, m) => m
  }

  ghost predicate Distinct(es: seq<Entry>) {
    forall i, j :: 0 <= i < j < |es| ==> es[i].klass != es[j].klass
  }

  ghost predicate Sane(es: seq<Entry>) {
    forall i :: 0 <= i < |es| ==> Value(es[i]) != 0
  }

  /** Whether the place for small integers is free. */
  ghost predicate SmiFree(c: Contents) { c.smiNative == 0 && c.smiMethod == 0 }

  /** The same entries in some order, one for each class. */
  ghost predicate Same(a: seq<Entry>, b: seq<Entry>) {
    |a| == |b| && Distinct(b) && forall e :: e in a <==> e in b
  }

  ghost predicate Fresh(es: seq<Entry>, klass: Word) {
    forall i :: 0 <= i < |es| ==> es[i].klass != klass
  }

  lemma Inserted(x: seq<Entry>, y: seq<Entry>, e: Entry)
    requires Distinct(x + y) && Fresh(x + y, e.klass)
    ensures Distinct(x + [e] + y) && forall f :: f in x + [e] + y <==> f in x + y || f == e
  {
    var b, a := x + [e] + y, x + y;
    forall i, j | 0 <= i < j < |b|
      ensures b[i].klass != b[j].klass
    {
      var i' := if i < |x| then i else i - 1;
      var j' := if j < |x| then j else j - 1;
      if i != |x| { assert b[i] == a[i']; }
      if j != |x| { assert b[j] == a[j']; }
    }
  }

  /** Where the new entry goes. */
  lemma AppendedParts(c: Contents, e: Entry, s: System) returns (x: seq<Entry>, y: seq<Entry>)
    requires Value(e) != 0 && (e.klass == s.smiKlass ==> SmiFree(c))
    ensures Entries(c, s) == x + y && Entries(Appended(c, e, s), s) == x + [e] + y
  {
    hide PicCode.Interpreted;
    var d := Appended(c, e, s);
    var p := if c.smiNative != 0 then [Compiled(s.smiKlass, c.smiNative)] else [];
    var ns, ms := CompiledEntries(c.natives), MethodOopEntries(PicCode.Interpreted(c, s));
    assert Entries(c, s) == p + ns + ms;
    AppendedMethods(c, e, s);
    match e {
      case Compiled(k, t) =>
        if k == s.smiKlass {
          x, y := [], ns + ms;
        } else {
          assert CompiledEntries(d.natives) == ns + [e];
          x, y := p + ns, ms;
        }
      case Interpreted(k, m) =>
        if k == s.smiKlass {
          x, y := p + ns, ms;
        } else {
          x, y := p + ns + ms, [];
        }
    }
  }

  lemma AppendedMethods(c: Contents, e: Entry, s: System)
    requires Value(e) != 0 && (e.klass == s.smiKlass ==> SmiFree(c))
    ensures var a, b := MethodOopEntries(PicCode.Interpreted(c, s)),
      MethodOopEntries(PicCode.Interpreted(Appended(c, e, s), s));
      && (e.Compiled? ==> b == a)
      && (e.Interpreted? ==> b == if e.klass == s.smiKlass then [e] + a else a + [e])
  {
    var d := Appended(c, e, s);
    if e.Compiled? {
      assert PicCode.Interpreted(d, s) == PicCode.Interpreted(c, s);
    } else if e.klass == s.smiKlass {
      assert PicCode.Interpreted(d, s) == [Pair(e.klass, e.methodOop)] + PicCode.Interpreted(c, s);
    } else {
      assert PicCode.Interpreted(d, s) == PicCode.Interpreted(c, s) + [Pair(e.klass, e.methodOop)];
    }
  }

  /** Nothing is lost and nothing invented. */
  lemma {:induction false} ContentsEntries(es: seq<Entry>, s: System)
    requires Distinct(es) && Sane(es)
    ensures Same(es, Entries(ContentsOf(es, s), s)) && Separate(ContentsOf(es, s), s)
    ensures SmiFree(ContentsOf(es, s)) <==> Fresh(es, s.smiKlass)
    decreases |es|
  {
    hide Entries, Separate, SmiFree, Appended, Same, Distinct, Fresh, Sane, ContentsOf;
    Collected(es, s);
    if es == [] {
      var c := ContentsOf(es, s);
      NoEntries(c, s);
      SameEmpty(es, Entries(c, s), s.smiKlass);
    } else {
      var init, e := es[..|es| - 1], es[|es| - 1];
      Unsnoc(es, s.smiKlass);
      ContentsEntries(init, s);
      var c := ContentsOf(init, s);
      AppendedSeparate(c, e, s);
      var x, y := AppendedParts(c, e, s);
      SameSnoc(init, e, x, y);
    }
  }

  lemma Collected(es: seq<Entry>, s: System)
    ensures var c := ContentsOf(es, s);
      if es == [] then |c.natives| == 0 && |c.methods| == 0 && c.smiNative == 0 && c.smiMethod == 0
      else c == Appended(ContentsOf(es[..|es| - 1], s), es[|es| - 1], s)
  {}

  lemma SameEmpty(a: seq<Entry>, b: seq<Entry>, klass: Word)
    requires |a| == 0 && |b| == 0
    ensures Same(a, b) && Fresh(a, klass)
  {}

  lemma Unsnoc(es: seq<Entry>, klass: Word)
    requires Distinct(es) && Sane(es) && es != []
    ensures var init, e := es[..|es| - 1], es[|es| - 1];
      && Distinct(init) && Sane(init) && Value(e) != 0 && Fresh(init, e.klass) && es == init + [e]
      && (Fresh(es, klass) <==> Fresh(init, klass) && e.klass != klass)
      && (e.klass == klass ==> Fresh(init, klass))
  {
    assert es == es[..|es| - 1] + [es[|es| - 1]];
  }

  lemma SameSnoc(a: seq<Entry>, e: Entry, x: seq<Entry>, y: seq<Entry>)
    requires Same(a, x + y) && Fresh(a, e.klass)
    ensures Same(a + [e], x + [e] + y)
  {
    FreshSame(a, x + y, e.klass);
    Inserted(x, y, e);
  }

  lemma FreshSame(a: seq<Entry>, b: seq<Entry>, klass: Word)
    requires Same(a, b) && Fresh(a, klass)
    ensures Fresh(b, klass)
  {
    forall i | 0 <= i < |b|
      ensures b[i].klass != klass
    {
      assert b[i] in a;
    }
  }

  /** Small integers are apart, with at most one target. */
  ghost predicate Separate(c: Contents, s: System) {
    && (c.smiNative == 0 || c.smiMethod == 0)
    && (forall i :: 0 <= i < |c.natives| ==> c.natives[i].klass != s.smiKlass)
    && (forall i :: 0 <= i < |c.methods| ==> c.methods[i].klass != s.smiKlass)
  }

  lemma AppendedSeparate(c: Contents, e: Entry, s: System)
    requires Separate(c, s) && Value(e) != 0 && (e.klass == s.smiKlass ==> SmiFree(c))
    ensures Separate(Appended(c, e, s), s)
    ensures SmiFree(Appended(c, e, s)) <==> SmiFree(c) && e.klass != s.smiKlass
  {}

  lemma NoEntries(c: Contents, s: System)
    requires |c.natives| == 0 && |c.methods| == 0 && c.smiNative == 0 && c.smiMethod == 0
    ensures |Entries(c, s)| == 0 && Separate(c, s) && SmiFree(c)
  {
    hide Entries;
  }

  lemma ContentsValid(es: seq<Entry>, s: System)
    requires Distinct(es) && Sane(es) && 1 <= |es| <= MAX_ENTRIES && s.Valid()
    ensures ContentsOf(es, s).Valid(s) && ContentsOf(es, s).CodeSize() <= MAX_CODE_SIZE
    ensures Same(es, Entries(ContentsOf(es, s), s)) && ContentsOf(es, s).Targets() == |es|
  {
    ContentsEntries(es, s);
  }

  const MAX_CODE_SIZE := 64

  lemma ContentsSnoc(es: seq<Entry>, e: Entry, s: System)
    ensures ContentsOf(es + [e], s) == Appended(ContentsOf(es, s), e, s)
  {
    assert (es + [e])[..|es|] == es;
  }
}
