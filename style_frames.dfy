/** How the lambda-call logs of module Styles depend on the store: a log only reads the
    objects its styles can reach, whatever their ranks, and `add` extends a chainable
    style's log by the new child sheet's. */
module StyleFrames {
  import opened Wrappers
  import opened Swing
  import opened Selectors
  import opened Styles

  /** st and st' hold the same objects at every reference in A; their ranks may differ. */
  predicate Agree(st: Store, st': Store, A: set<ChainRef>) {
    forall x :: x in A ==> x in st.objects && x in st'.objects && st'.objects[x] == st.objects[x]
  }

  /** st' is st changed only outside the closed set A. */
  predicate FrameOk(st: Store, st': Store, A: set<ChainRef>) {
    StoreOk(st) && StoreOk(st') && Closed(st, A) && Agree(st, st', A)
  }

  predicate SheetsIn(sheets: seq<seq<Style>>, A: set<ChainRef>) {
    forall i :: 0 <= i < |sheets| ==> StylesIn(sheets[i], A)
  }

  /** Applying a sheet whose styles refer into A reads only the objects in A: the calls do
      not depend on the rest of the store, nor on the ranks (b and b' bound them in st and
      st'). */
  lemma {:induction false} FrameSheet(st: Store, st': Store, A: set<ChainRef>, styles: seq<Style>, b: int, b': int, top: Comp, p: Path)
    requires FrameOk(st, st', A) && StylesIn(styles, A) && ValidPath(top, p)
    requires st.low <= b && AllBelow(st, styles, b) && st'.low <= b' && AllBelow(st', styles, b')
    ensures SheetLog(st', styles, b', top, p) == SheetLog(st, styles, b, top, p)
    decreases b - st.low, NodeAt(top, p), 2, 0
  {
    var node := NodeAt(top, p);
    if IsContainer(node.cls) {
      FrameChildren(st, st', A, styles, b, b', top, p, |node.children|);
    }
    FrameStyles(st, st', A, styles, b, b', top, p);
  }

  lemma {:induction false} FrameChildren(st: Store, st': Store, A: set<ChainRef>, styles: seq<Style>, b: int, b': int, top: Comp, p: Path, k: nat)
    requires FrameOk(st, st', A) && StylesIn(styles, A) && ValidPath(top, p)
    requires st.low <= b && AllBelow(st, styles, b) && st'.low <= b' && AllBelow(st', styles, b')
    requires k <= |NodeAt(top, p).children|
    ensures ChildrenLog(st', styles, b', top, p, k) == ChildrenLog(st, styles, b, top, p, k)
    decreases b - st.low, NodeAt(top, p), 1, k
  {
    if k > 0 {
      ChildPath(top, p, k - 1);
      FrameChildren(st, st', A, styles, b, b', top, p, k - 1);
      FrameSheet(st, st', A, styles, b, b', top, p + [k - 1]);
    }
  }

  lemma {:induction false} FrameStyles(st: Store, st': Store, A: set<ChainRef>, styles: seq<Style>, b: int, b': int, top: Comp, p: Path)
    requires FrameOk(st, st', A) && StylesIn(styles, A) && ValidPath(top, p)
    requires st.low <= b && AllBelow(st, styles, b) && st'.low <= b' && AllBelow(st', styles, b')
    ensures StylesLog(st', styles, b', top, p) == StylesLog(st, styles, b, top, p)
    decreases b - st.low, NodeAt(top, p), 1, |styles|
  {
    if styles != [] {
      var n := |styles| - 1;
      var s := styles[n];
      FrameStyles(st, st', A, styles[..n], b, b', top, p);
      assert Below(st, s, b) && Below(st', s, b') && StyleIn(s, A);
      assert Passes(st'.objects, s, top, p) == Passes(st.objects, s, top, p);
      if Passes(st.objects, s, top, p) {
        FrameStyle(st, st', A, s, b, b', top, p);
      }
    }
  }

  lemma {:induction false} FrameStyle(st: Store, st': Store, A: set<ChainRef>, s: Style, b: int, b': int, top: Comp, p: Path)
    requires FrameOk(st, st', A) && StyleIn(s, A) && ValidPath(top, p)
    requires st.low <= b && Below(st, s, b) && st'.low <= b' && Below(st', s, b')
    ensures StyleLog(st', s, b', top, p) == StyleLog(st, s, b, top, p)
    decreases b - st.low, NodeAt(top, p), 0, 0
  {
    if s.Chained? {
      FrameChain(st, st', A, s.ref, top, p);
    }
  }

  /** A chainable style in A does the same in both stores. */
  lemma {:induction false} FrameChain(st: Store, st': Store, A: set<ChainRef>, r: ChainRef, top: Comp, p: Path)
    requires FrameOk(st, st', A) && r in A && ValidPath(top, p)
    ensures r in st.objects && r in st'.objects
    ensures ChainLog(st', r, top, p) == ChainLog(st, r, top, p)
    decreases st.rank[r] - st.low, NodeAt(top, p), 4, 0
  {
    var o := st.objects[r];
    assert o == st'.objects[r];
    assert ObjectIn(o, A) && ObjectBelow(st, o, st.rank[r]) && ObjectBelow(st', o, st'.rank[r]);
    if o.wrapped.Some? {
      FrameStyle(st, st', A, o.wrapped.value, st.rank[r], st'.rank[r], top, p);
    }
    FrameSheets(st, st', A, o.childSheets, st.rank[r], st'.rank[r], top, p);
  }

  lemma {:induction false} FrameSheets(st: Store, st': Store, A: set<ChainRef>, sheets: seq<seq<Style>>, b: int, b': int, top: Comp, p: Path)
    requires FrameOk(st, st', A) && SheetsIn(sheets, A) && ValidPath(top, p)
    requires st.low <= b && SheetsBelow(st, sheets, b) && st'.low <= b' && SheetsBelow(st', sheets, b')
    ensures SheetsLog(st', sheets, b', top, p) == SheetsLog(st, sheets, b, top, p)
    decreases b - st.low, NodeAt(top, p), 3, |sheets|
  {
    if sheets != [] {
      var n := |sheets| - 1;
      FrameSheets(st, st', A, sheets[..n], b, b', top, p);
      FrameSheet(st, st', A, sheets[n], b, b', top, p);
    }
  }

  /** A top-level stylesheet whose styles refer into the closed set A makes the same calls
      in any store that agrees with this one on A. */
  lemma LogFrame(st: Store, st': Store, A: set<ChainRef>, styles: seq<Style>, top: Comp, p: Path)
    requires FrameOk(st, st', A)
    requires AllKnown(st.objects, styles) && StylesIn(styles, A) && ValidPath(top, p)
    ensures AllKnown(st'.objects, styles)
    ensures Log(st', styles, top, p) == Log(st, styles, top, p)
  {
    assert AllKnown(st'.objects, styles) by {
      forall i | 0 <= i < |styles|
        ensures Known(st'.objects, styles[i])
      {
        assert Known(st.objects, styles[i]) && StyleIn(styles[i], A);
      }
    }
    KnownBelowHigh(st, styles);
    KnownBelowHigh(st', styles);
    FrameSheet(st, st', A, styles, st.high, st'.high, top, p);
  }

  /** The objects ranked below r's rank: a closed set that does not hold r. */
  function Lower(st: Store, r: ChainRef): (A: set<ChainRef>)
    requires StoreOk(st) && r in st.objects
    ensures r !in A && Closed(st, A)
    ensures forall x :: x in A <==> x in st.objects && st.rank[x] < st.rank[r]
  {
    var A := set x | x in st.objects && st.rank[x] < st.rank[r];
    forall x | x in A
      ensures ObjectIn(st.objects[x], A)
    {
      var o := st.objects[x];
      assert ObjectBelow(st, o, st.rank[x]);
      forall i, j | 0 <= i < |o.childSheets| && 0 <= j < |o.childSheets[i]|
        ensures StyleIn(o.childSheets[i][j], A)
      {
        assert Below(st, o.childSheets[i][j], st.rank[x]);
      }
    }
    A
  }

  /** Everything r refers to lies below r. */
  lemma ObjectInLower(st: Store, r: ChainRef)
    requires StoreOk(st) && r in st.objects
    ensures ObjectIn(st.objects[r], Lower(st, r))
  {
    var o := st.objects[r];
    var A := Lower(st, r);
    assert ObjectBelow(st, o, st.rank[r]);
    forall i, j | 0 <= i < |o.childSheets| && 0 <= j < |o.childSheets[i]|
      ensures StyleIn(o.childSheets[i][j], A)
    {
      assert Below(st, o.childSheets[i][j], st.rank[r]);
    }
  }

  /** After `c.add(style)` registered w in a new child sheet, applying c does what it did
      before and then applies the new sheet (holding only w) to the same component. */
  lemma AddExtendsChainLog(st: Store, st': Store, c: ChainRef, w: ChainRef, top: Comp, p: Path)
    requires StoreOk(st) && StoreOk(st') && AddedChild(st, st', c, w) && ValidPath(top, p)
    ensures AllBelow(st', [Chained(w)], st'.rank[c])
    ensures ChainLog(st', c, top, p) == ChainLog(st, c, top, p) + SheetLog(st', [Chained(w)], st'.rank[c], top, p)
  {
    var o, o' := st.objects[c], st'.objects[c];
    var sheets := o.childSheets;
    assert o'.childSheets == sheets + [[Chained(w)]];
    assert ObjectBelow(st', o', st'.rank[c]);
    assert o'.childSheets[|sheets|] == [Chained(w)];
    ExtendedSheets(st, st', c, w, top, p);
  }

  /** Ranks decide reachability one way: nothing ranked below c can reach c. */
  lemma BelowCannotReach(st: Store, w: ChainRef, c: ChainRef)
    requires StoreOk(st) && c in st.objects && w in st.objects && st.rank[w] < st.rank[c]
    ensures CannotReach(st, w, c)
  {
    var A := Lower(st, c);
    assert Closed(st, A) && w in A && c !in A;
  }

  /** The requirement of `add` on a chainable w is exactly the absence of a cycle: if the
      store with a sheet holding w appended to c can be ranked at all, c could not be
      reached from w before. */
  lemma RankableNeedsNoPath(st: Store, st': Store, c: ChainRef, w: ChainRef)
    requires c in st.objects && w in st.objects
    requires st'.objects == st.objects[c := st.objects[c].(childSheets := st.objects[c].childSheets + [[Chained(w)]])]
    requires StoreOk(st')
    ensures CannotReach(st, w, c)
  {
    var o' := st'.objects[c];
    var A := Lower(st', c);
    assert ObjectBelow(st', o', st'.rank[c]);
    assert o'.childSheets[|o'.childSheets| - 1] == [Chained(w)];
    assert AllBelow(st', [Chained(w)], st'.rank[c]);
    assert Below(st', [Chained(w)][0], st'.rank[c]);
    assert w in A;
    forall x | x in A
      ensures x in st.objects && ObjectIn(st.objects[x], A)
    {
      assert x != c && st'.objects[x] == st.objects[x];
    }
  }

  /** No add may register c under itself. */
  lemma NoSelfAdd(st: Store, c: ChainRef)
    ensures !CannotReach(st, c, c)
  {
  }

  /** `add` on c leaves everything ranked below c as it was. */
  lemma LowerAgrees(st: Store, st': Store, c: ChainRef, w: ChainRef)
    requires StoreOk(st) && StoreOk(st') && AddedChild(st, st', c, w)
    ensures FrameOk(st, st', Lower(st, c))
  {
  }

  /** `add` on c changes neither what c wraps nor what its earlier child sheets do. */
  lemma OldPartsAgree(st: Store, st': Store, c: ChainRef, w: ChainRef, top: Comp, p: Path)
    requires StoreOk(st) && StoreOk(st') && AddedChild(st, st', c, w) && ValidPath(top, p)
    ensures ObjectBelow(st, st.objects[c], st.rank[c]) && ObjectBelow(st', st.objects[c], st'.rank[c])
    ensures var o := st.objects[c];
      o.wrapped.Some? ==> StyleLog(st', o.wrapped.value, st'.rank[c], top, p) == StyleLog(st, o.wrapped.value, st.rank[c], top, p)
    ensures SheetsLog(st', st.objects[c].childSheets, st'.rank[c], top, p) == SheetsLog(st, st.objects[c].childSheets, st.rank[c], top, p)
  {
    var o, o' := st.objects[c], st'.objects[c];
    var b, b' := st.rank[c], st'.rank[c];
    var A := Lower(st, c);
    ObjectInLower(st, c);
    LowerAgrees(st, st', c, w);
    assert ObjectBelow(st, o, b) && ObjectBelow(st', o', b');
    assert forall i :: 0 <= i < |o.childSheets| ==> o'.childSheets[i] == o.childSheets[i];
    assert ObjectBelow(st', o, b');
    if o.wrapped.Some? {
      FrameStyle(st, st', A, o.wrapped.value, b, b', top, p);
    }
    FrameSheets(st, st', A, o.childSheets, b, b', top, p);
  }

  /** The part of the proof of AddExtendsChainLog that unfolds ChainLog. */
  lemma ExtendedSheets(st: Store, st': Store, c: ChainRef, w: ChainRef, top: Comp, p: Path)
    requires StoreOk(st) && StoreOk(st') && AddedChild(st, st', c, w) && ValidPath(top, p)
    requires AllBelow(st', [Chained(w)], st'.rank[c])
    ensures ChainLog(st', c, top, p) == ChainLog(st, c, top, p) + SheetLog(st', [Chained(w)], st'.rank[c], top, p)
  {
    var o := st.objects[c];
    var b, b' := st.rank[c], st'.rank[c];
    var sheets := o.childSheets;
    var sheets' := sheets + [[Chained(w)]];
    OldPartsAgree(st, st', c, w, top, p);
    var wrapped := if o.wrapped.Some? then StyleLog(st, o.wrapped.value, b, top, p) else [];
    assert ChainLog(st, c, top, p) == wrapped + SheetsLog(st, sheets, b, top, p);
    assert ChainLog(st', c, top, p) == wrapped + SheetsLog(st', sheets', b', top, p);
    SheetsLogSnoc(st', sheets, [Chained(w)], b', top, p);
    var old_ := SheetsLog(st, sheets, b, top, p);
    var added := SheetLog(st', [Chained(w)], b', top, p);
    assert ChainLog(st', c, top, p) == wrapped + (old_ + added);
    LogAssoc(wrapped, old_, added);
  }

  lemma LogAssoc(a: seq<Fired>, b: seq<Fired>, c: seq<Fired>)
    ensures a + (b + c) == (a + b) + c
  {
  }

  /** Applying one more child sheet appends its calls. */
  lemma SheetsLogSnoc(st: Store, sheets: seq<seq<Style>>, x: seq<Style>, b: int, top: Comp, p: Path)
    requires StoreOk(st) && st.low <= b && SheetsBelow(st, sheets + [x], b) && ValidPath(top, p)
    ensures SheetsBelow(st, sheets, b) && AllBelow(st, x, b)
    ensures SheetsLog(st, sheets + [x], b, top, p) == SheetsLog(st, sheets, b, top, p) + SheetLog(st, x, b, top, p)
  {
    var s := sheets + [x];
    assert s[..|s| - 1] == sheets && s[|s| - 1] == x;
    assert forall i :: 0 <= i < |sheets| ==> s[i] == sheets[i];
  }
}
