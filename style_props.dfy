/** What applying a stylesheet does, stated over the lambda-call logs of module Styles:
    the walk is a post-order traversal, styles run in registration order, only styles whose
    target class and selector pass at a component run on it, and a chained style only
    reaches the subtree of the component it was applied to. */
module StyleProps {
  import opened Wrappers
  import opened Text
  import opened Swing
  import opened Selectors
  import opened Traversal
  import opened Styles

  /** The style loops at the components qs, one after the other. */
  function NodesLog(st: Store, styles: seq<Style>, b: int, top: Comp, qs: seq<Path>): seq<Fired>
    requires StoreOk(st) && st.low <= b && AllBelow(st, styles, b)
  {
    if qs == [] then []
    else
      var q := qs[|qs| - 1];
      NodesLog(st, styles, b, top, qs[..|qs| - 1])
        + (if ValidPath(top, q) then StylesLog(st, styles, b, top, q) else [])
  }

  /** The style loops at two lists of components, one after the other. */
  lemma {:induction false} NodesLogAppend(st: Store, styles: seq<Style>, b: int, top: Comp, xs: seq<Path>, ys: seq<Path>)
    requires StoreOk(st) && st.low <= b && AllBelow(st, styles, b)
    ensures NodesLog(st, styles, b, top, xs + ys) == NodesLog(st, styles, b, top, xs) + NodesLog(st, styles, b, top, ys)
    decreases |ys|
  {
    if ys == [] {
      assert xs + ys == xs;
    } else {
      var y := ys[|ys| - 1];
      var tail := if ValidPath(top, y) then StylesLog(st, styles, b, top, y) else [];
      assert (xs + ys)[..|xs + ys| - 1] == xs + ys[..|ys| - 1];
      calc {
        NodesLog(st, styles, b, top, xs + ys);
        NodesLog(st, styles, b, top, xs + ys[..|ys| - 1]) + tail;
        { NodesLogAppend(st, styles, b, top, xs, ys[..|ys| - 1]); }
        NodesLog(st, styles, b, top, xs) + NodesLog(st, styles, b, top, ys[..|ys| - 1]) + tail;
        NodesLog(st, styles, b, top, xs) + NodesLog(st, styles, b, top, ys);
      }
    }
  }

  /** `Stylesheet.apply(root)` on a well-formed hierarchy runs the style loop at every
      component of root's subtree, in post-order. */
  lemma {:induction false} SheetLogIsPostOrder(st: Store, styles: seq<Style>, b: int, top: Comp, p: Path)
    requires StoreOk(st) && st.low <= b && AllBelow(st, styles, b) && ValidPath(top, p)
    requires WellFormed(NodeAt(top, p))
    ensures SheetLog(st, styles, b, top, p) == NodesLog(st, styles, b, top, PostOrder(top, p))
    decreases NodeAt(top, p), 1, 0
  {
    var node := NodeAt(top, p);
    var n := |node.children|;
    ChildrenLogIsSubtrees(st, styles, b, top, p, n);
    assert NodesLog(st, styles, b, top, [p]) == StylesLog(st, styles, b, top, p);
    NodesLogAppend(st, styles, b, top, SubtreesOrder(top, p, n), [p]);
  }

  /** The children loop of `Stylesheet.apply` runs the style loops of the children's
      subtrees, one subtree after the other. */
  lemma {:induction false} ChildrenLogIsSubtrees(st: Store, styles: seq<Style>, b: int, top: Comp, p: Path, k: nat)
    requires StoreOk(st) && st.low <= b && AllBelow(st, styles, b) && ValidPath(top, p)
    requires WellFormed(NodeAt(top, p)) && k <= |NodeAt(top, p).children|
    ensures ChildrenLog(st, styles, b, top, p, k) == NodesLog(st, styles, b, top, SubtreesOrder(top, p, k))
    decreases NodeAt(top, p), 0, k
  {
    if k > 0 {
      ChildWellFormed(top, p, k - 1);
      var c := p + [k - 1];
      var before := SubtreesOrder(top, p, k - 1);
      assert ChildrenLog(st, styles, b, top, p, k) == ChildrenLog(st, styles, b, top, p, k - 1) + SheetLog(st, styles, b, top, c);
      assert SubtreesOrder(top, p, k) == before + PostOrder(top, c);
      ChildrenLogIsSubtrees(st, styles, b, top, p, k - 1);
      SheetLogIsPostOrder(st, styles, b, top, c);
      assert ChildrenLog(st, styles, b, top, p, k) == NodesLog(st, styles, b, top, before) + NodesLog(st, styles, b, top, PostOrder(top, c));
      NodesLogAppend(st, styles, b, top, before, PostOrder(top, c));
    }
  }

  /** The style loop over two lists of styles is the loop over the first, then the loop over
      the second: styles run in the order they were registered. */
  lemma {:induction false} StylesAppend(st: Store, xs: seq<Style>, ys: seq<Style>, b: int, top: Comp, p: Path)
    requires StoreOk(st) && st.low <= b && AllBelow(st, xs, b) && AllBelow(st, ys, b) && ValidPath(top, p)
    ensures AllBelow(st, xs + ys, b)
    ensures StylesLog(st, xs + ys, b, top, p) == StylesLog(st, xs, b, top, p) + StylesLog(st, ys, b, top, p)
    decreases |ys|
  {
    var s := xs + ys;
    AllBelowAppend(st, xs, ys, b);
    if ys == [] {
      assert s == xs;
    } else {
      var y := ys[|ys| - 1];
      var init := ys[..|ys| - 1];
      var tail := if Passes(st.objects, y, top, p) then StyleLog(st, y, b, top, p) else [];
      assert s[..|s| - 1] == xs + init;
      AllBelowAppend(st, xs, init, b);
      StylesAppend(st, xs, init, b, top, p);
      assert StylesLog(st, s, b, top, p) == StylesLog(st, xs + init, b, top, p) + tail;
    }
  }

  lemma AllBelowAppend(st: Store, xs: seq<Style>, ys: seq<Style>, b: int)
    requires AllBelow(st, xs, b) && AllBelow(st, ys, b)
    ensures AllBelow(st, xs + ys, b)
  {
    var s := xs + ys;
    forall i | 0 <= i < |s|
      ensures Below(st, s[i], b)
    {
      if i < |xs| {
        assert s[i] == xs[i];
      } else {
        assert s[i] == ys[i - |xs|];
      }
    }
  }

  /** A style that does not pass at a component (its target class is not assignable from
      the component's class, or its selector does not match) adds nothing there. */
  lemma StyleThatFailsIsSkipped(st: Store, xs: seq<Style>, s: Style, ys: seq<Style>, b: int, top: Comp, p: Path)
    requires StoreOk(st) && st.low <= b && AllBelow(st, xs, b) && Below(st, s, b) && AllBelow(st, ys, b)
    requires ValidPath(top, p) && !Passes(st.objects, s, top, p)
    ensures AllBelow(st, xs + [s] + ys, b) && AllBelow(st, xs + ys, b)
    ensures StylesLog(st, xs + [s] + ys, b, top, p) == StylesLog(st, xs + ys, b, top, p)
  {
    assert StylesLog(st, [s], b, top, p) == [] by {
      assert [s][..0] == [];
    }
    StylesAppend(st, xs, [s], b, top, p);
    StylesAppend(st, xs + [s], ys, b, top, p);
    StylesAppend(st, xs, ys, b, top, p);
  }

  /** A sheet with no styles makes no calls anywhere in the subtree. */
  lemma {:induction false} EmptySheetQuiet(st: Store, b: int, top: Comp, p: Path)
    requires StoreOk(st) && st.low <= b && ValidPath(top, p)
    ensures SheetLog(st, [], b, top, p) == []
    decreases NodeAt(top, p), 1, 0
  {
    EmptySheetChildrenQuiet(st, b, top, p, |NodeAt(top, p).children|);
  }

  lemma {:induction false} EmptySheetChildrenQuiet(st: Store, b: int, top: Comp, p: Path, k: nat)
    requires StoreOk(st) && st.low <= b && ValidPath(top, p) && k <= |NodeAt(top, p).children|
    ensures ChildrenLog(st, [], b, top, p, k) == []
    decreases NodeAt(top, p), 0, k
  {
    if k > 0 {
      ChildPath(top, p, k - 1);
      EmptySheetChildrenQuiet(st, b, top, p, k - 1);
      EmptySheetQuiet(st, b, top, p + [k - 1]);
    }
  }

  /** A sheet all of whose styles were made by `register(selector, cls, fn)`. */
  predicate LambdaOnly(styles: seq<Style>) {
    forall i :: 0 <= i < |styles| ==> styles[i].Lambda?
  }

  /** Some style of a lambda-only sheet with lambda a passes at the component at q. */
  predicate Fires(objects: map<ChainRef, ChainableStyle>, styles: seq<Style>, top: Comp, q: Path, a: ActionId)
    requires LambdaOnly(styles) && ValidPath(top, q)
  {
    exists i :: 0 <= i < |styles| && styles[i].action == a && Passes(objects, styles[i], top, q)
  }

  /** At one component, a lambda-only sheet calls exactly the lambdas of the styles that
      pass there. */
  lemma {:induction false} LambdaStylesLog(st: Store, styles: seq<Style>, b: int, top: Comp, q: Path, e: Fired)
    requires StoreOk(st) && st.low <= b && AllBelow(st, styles, b) && ValidPath(top, q)
    requires LambdaOnly(styles)
    ensures e in StylesLog(st, styles, b, top, q) <==> e.path == q && Fires(st.objects, styles, top, q, e.action)
    decreases |styles|
  {
    if styles != [] {
      var init := styles[..|styles| - 1];
      var s := styles[|styles| - 1];
      LambdaStylesLog(st, init, b, top, q, e);
      if Fires(st.objects, styles, top, q, e.action) {
        var i :| 0 <= i < |styles| && styles[i].action == e.action && Passes(st.objects, styles[i], top, q);
        if i < |init| {
          assert init[i] == styles[i];
        }
      }
      if e.path == q && Fires(st.objects, init, top, q, e.action) {
        var i :| 0 <= i < |init| && init[i].action == e.action && Passes(st.objects, init[i], top, q);
        assert styles[i] == init[i];
      }
    }
  }

  /** The style loops at the components qs call exactly the lambdas of the styles that
      pass at one of those components. */
  lemma {:induction false} LambdaNodesLog(st: Store, styles: seq<Style>, b: int, top: Comp, qs: seq<Path>, e: Fired)
    requires StoreOk(st) && st.low <= b && AllBelow(st, styles, b) && LambdaOnly(styles)
    ensures e in NodesLog(st, styles, b, top, qs) <==>
      e.path in qs && ValidPath(top, e.path) && Fires(st.objects, styles, top, e.path, e.action)
    decreases |qs|
  {
    if qs != [] {
      var q := qs[|qs| - 1];
      var init := qs[..|qs| - 1];
      LambdaNodesLog(st, styles, b, top, init, e);
      if ValidPath(top, q) {
        LambdaStylesLog(st, styles, b, top, q, e);
      }
      assert e.path in qs <==> e.path in init || e.path == q by {
        assert qs == init + [q];
      }
    }
  }

  /** On a well-formed hierarchy, `apply(root)` on a sheet of `register(selector, cls, fn)`
      styles calls lambda a on component q exactly when q is root or one of its
      descendants and some style with lambda a passes at q: its target class is assignable
      from q's class and its selector matches q. */
  lemma LambdaSheetFires(st: Store, styles: seq<Style>, b: int, top: Comp, p: Path, e: Fired)
    requires StoreOk(st) && st.low <= b && AllBelow(st, styles, b) && ValidPath(top, p)
    requires WellFormed(NodeAt(top, p)) && LambdaOnly(styles)
    ensures e in SheetLog(st, styles, b, top, p) <==>
      && ValidPath(top, e.path) && p <= e.path
      && Fires(st.objects, styles, top, e.path, e.action)
  {
    SheetLogIsPostOrder(st, styles, b, top, p);
    LambdaNodesLog(st, styles, b, top, PostOrder(top, p), e);
    PostOrderMembers(top, p, e.path);
  }

  /** The style `register(cls, fn)` makes (selector `*`) passes at exactly the components
      whose class cls is assignable from. */
  lemma EveryComponentStyle(objects: map<ChainRef, ChainableStyle>, cls: JClass, a: ActionId, top: Comp, q: Path)
    requires ValidPath(top, q)
    ensures Passes(objects, Lambda(cls, Parse("*"), a), top, q) <==> IsAssignableFrom(cls, NodeAt(top, q).cls)
  {
    assert "*"[..1] == "*";
    GlobMatchesEverything("*", top, q);
  }
}
