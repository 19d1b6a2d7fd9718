/** Chaining `add` calls: `a.add(b).add(x)` is meant to put x under b's scope, which is
    itself under a's. With `add` as written, when b is a plain style the handle returned is
    not the wrapper registered under a, so x is attached to an object nothing applies.
    With the intended `add` (module Styles, StyleStore.AddIntended) x is reached from a. */
module ChainAdd {
  import opened Wrappers
  import opened Swing
  import opened Selectors
  import opened Styles
  import opened StyleFrames

  /** As written: once `add` has returned a handle h that nothing refers to (the case of a
      plain style, StyleStore.AddPlain), a further `h.add(x)` changes no stylesheet that
      does not hold h itself: x never runs through them. */
  lemma AddToHandleIsLost(st: Store, st': Store, h: ChainRef, w: ChainRef, styles: seq<Style>, top: Comp, p: Path)
    requires StoreOk(st) && StoreOk(st') && AddedChild(st, st', h, w)
    requires Closed(st, st.objects.Keys - {h})
    requires AllKnown(st.objects, styles) && StylesIn(styles, st.objects.Keys - {h}) && ValidPath(top, p)
    ensures AllKnown(st'.objects, styles)
    ensures Log(st', styles, top, p) == Log(st, styles, top, p)
  {
    var A := st.objects.Keys - {h};
    assert Agree(st, st', A);
    LogFrame(st, st', A, styles, top, p);
  }

  /** As written: the object a that `a.add(b)` was called on does exactly what it did
      before the `h.add(x)` on the detached handle. */
  lemma ParentUnchangedByHandleAdd(st: Store, st': Store, h: ChainRef, w: ChainRef, a: ChainRef, top: Comp, p: Path)
    requires StoreOk(st) && StoreOk(st') && AddedChild(st, st', h, w)
    requires Closed(st, st.objects.Keys - {h}) && a in st.objects && a != h && ValidPath(top, p)
    ensures a in st'.objects
    ensures ChainLog(st', a, top, p) == ChainLog(st, a, top, p)
  {
    var A := st.objects.Keys - {h};
    assert Agree(st, st', A);
    FrameChain(st, st', A, a, top, p);
  }

  /** Two adds in a row, the second on the new object the first registered under c, amount
      to registering that object under c in the store after both. */
  lemma ChainedAdds(st0: Store, st1: Store, st2: Store, c: ChainRef, h: ChainRef, w: ChainRef)
    requires AddedChild(st0, st1, c, h) && AddedChild(st1, st2, h, w) && h !in st0.objects
    ensures AddedChild(st0, st2, c, h)
  {
  }

  /** Intended: after `h := a.add(b)` registers h under a and `h.add(x)` registers w under
      h, applying a does what it did before the two adds and then applies h's sheet, and
      applying h does what it did before and then applies w's sheet. */
  lemma ChainedAddReaches(st0: Store, st1: Store, st2: Store, c: ChainRef, h: ChainRef, w: ChainRef, top: Comp, p: Path)
    requires StoreOk(st0) && StoreOk(st1) && StoreOk(st2) && ValidPath(top, p)
    requires AddedChild(st0, st1, c, h) && AddedChild(st1, st2, h, w) && h !in st0.objects
    ensures AllBelow(st2, [Chained(h)], st2.rank[c]) && AllBelow(st2, [Chained(w)], st2.rank[h])
    ensures ChainLog(st2, c, top, p) == ChainLog(st0, c, top, p) + SheetLog(st2, [Chained(h)], st2.rank[c], top, p)
    ensures ChainLog(st2, h, top, p) == ChainLog(st1, h, top, p) + SheetLog(st2, [Chained(w)], st2.rank[h], top, p)
  {
    ChainedAdds(st0, st1, st2, c, h, w);
    AddExtendsChainLog(st0, st2, c, h, top, p);
    AddExtendsChainLog(st1, st2, h, w, top, p);
  }

  /** Intended: wherever h passes (its target class and selector), every call x's sheet
      makes is also made when a is applied at that component. */
  lemma ChainedAddFires(st0: Store, st1: Store, st2: Store, c: ChainRef, h: ChainRef, w: ChainRef, top: Comp, p: Path, e: Fired)
    requires StoreOk(st0) && StoreOk(st1) && StoreOk(st2) && ValidPath(top, p)
    requires AddedChild(st0, st1, c, h) && AddedChild(st1, st2, h, w) && h !in st0.objects
    requires Passes(st2.objects, Chained(h), top, p)
    requires AllBelow(st2, [Chained(w)], st2.rank[h]) && e in SheetLog(st2, [Chained(w)], st2.rank[h], top, p)
    ensures e in ChainLog(st2, c, top, p)
  {
    ChainedAddReaches(st0, st1, st2, c, h, w, top, p);
    var b := st2.rank[c];
    var hs := [Chained(h)];
    assert hs[..0] == [];
    assert StylesLog(st2, hs, b, top, p) == StyleLog(st2, Chained(h), b, top, p);
    assert e in ChainLog(st2, h, top, p);
    assert e in StylesLog(st2, hs, b, top, p);
    assert e in SheetLog(st2, hs, b, top, p);
  }

  /** `b = ChainableStyle(..); a = ChainableStyle(..); a.add(b); b.add(x)`: objects may be
      added to one another in any creation order as long as no cycle forms, and the later
      `b.add(x)` is reached from a. */
  method AddInEitherOrder(store: StyleStore, t: JClass, sel: Selector, x: Style) returns (a: ChainRef, b: ChainRef)
    requires store.Valid() && x.Lambda?
    modifies store
    ensures store.Valid() && a != b && a in store.objects && b in store.objects
    ensures store.objects[a].childSheets == [[Chained(b)]]
    ensures |store.objects[b].childSheets| == 1
  {
    b := store.NewChainable(t, sel);
    a := store.NewChainable(t, sel);
    assert Closed(store.Snap(), {b});
    var h, r := store.Add(a, Chained(b));
    var h', r' := store.Add(b, x);
  }
}
