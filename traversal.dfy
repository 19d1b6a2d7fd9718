/** The order in which `Stylesheet.apply` visits a component hierarchy: post-order, children
    in index order, each child's whole subtree before the next child, and a component after
    all of its descendants. */
module Traversal {
  import opened Swing

  /** The components of the subtree at p, in post-order. */
  function PostOrder(top: Comp, p: Path): seq<Path>
    requires ValidPath(top, p)
    decreases NodeAt(top, p), 1, 0
  {
    SubtreesOrder(top, p, |NodeAt(top, p).children|) + [p]
  }

  /** The subtrees of the first k children of the component at p, one after the other. */
  function SubtreesOrder(top: Comp, p: Path, k: nat): seq<Path>
    requires ValidPath(top, p) && k <= |NodeAt(top, p).children|
    decreases NodeAt(top, p), 0, k
  {
    if k == 0 then []
    else
      ChildPath(top, p, k - 1);
      SubtreesOrder(top, p, k - 1) + PostOrder(top, p + [k - 1])
  }

  /** The children of a well-formed component are well formed. */
  lemma ChildWellFormed(top: Comp, p: Path, i: nat)
    requires ValidPath(top, p) && i < |NodeAt(top, p).children| && WellFormed(NodeAt(top, p))
    ensures ValidPath(top, p + [i]) && NodeAt(top, p + [i]) == NodeAt(top, p).children[i]
    ensures WellFormed(NodeAt(top, p + [i]))
  {
    ChildPath(top, p, i);
  }

  /** q is a proper descendant of p. */
  predicate Descendant(q: Path, p: Path) {
    |p| < |q| && q[..|p|] == p
  }

  /** a comes before b in a post-order walk: a is a descendant of b, or at the first index
      where they differ a takes the earlier child. */
  predicate PostBefore(a: Path, b: Path) {
    || Descendant(a, b)
    || exists d :: 0 <= d < |a| && d < |b| && a[..d] == b[..d] && a[d] < b[d]
  }

  /** A sequence in strict post-order. */
  predicate InPostOrder(s: seq<Path>) {
    forall i, j :: 0 <= i < j < |s| ==> PostBefore(s[i], s[j])
  }

  /** The subtree at p holds exactly the components at or below p. */
  lemma {:induction false} PostOrderMembers(top: Comp, p: Path, q: Path)
    requires ValidPath(top, p)
    ensures q in PostOrder(top, p) <==> ValidPath(top, q) && p <= q
    decreases NodeAt(top, p), 1, 0
  {
    var n := |NodeAt(top, p).children|;
    SubtreesMembers(top, p, n, q);
    if ValidPath(top, q) && p <= q && q != p {
      assert Descendant(q, p);
      var c := q[..|p| + 1];
      assert c <= q;
      PrefixValid(top, c, q);
      assert Parent(c) == p;
      assert q[|p|] < n;
    }
  }

  /** The subtrees of the first k children hold exactly the components strictly below p
      whose first step from p is a child index below k. */
  lemma {:induction false} SubtreesMembers(top: Comp, p: Path, k: nat, q: Path)
    requires ValidPath(top, p) && k <= |NodeAt(top, p).children|
    ensures q in SubtreesOrder(top, p, k) <==> ValidPath(top, q) && Descendant(q, p) && q[|p|] < k
    decreases NodeAt(top, p), 0, k
  {
    if k > 0 {
      ChildPath(top, p, k - 1);
      var c := p + [k - 1];
      SubtreesMembers(top, p, k - 1, q);
      PostOrderMembers(top, c, q);
      if Descendant(q, p) && q[|p|] == k - 1 {
        assert q[..|p| + 1] == c;
      }
    }
  }

  /** Appending two post-ordered sequences, when everything in the first comes before
      everything in the second, gives a post-ordered sequence. */
  lemma AppendInPostOrder(a: seq<Path>, b: seq<Path>)
    requires InPostOrder(a) && InPostOrder(b)
    requires forall x, y :: x in a && y in b ==> PostBefore(x, y)
    ensures InPostOrder(a + b)
  {
    var s := a + b;
    forall i, j | 0 <= i < j < |s|
      ensures PostBefore(s[i], s[j])
    {
      if j < |a| {
        assert s[i] == a[i] && s[j] == a[j];
      } else if i >= |a| {
        assert s[i] == b[i - |a|] && s[j] == b[j - |a|];
      } else {
        assert s[i] in a && s[j] in b;
      }
    }
  }

  /** A component of an earlier child's subtree comes before one of a later child's. */
  lemma SiblingsBefore(p: Path, x: Path, y: Path)
    requires Descendant(x, p) && Descendant(y, p) && x[|p|] < y[|p|]
    ensures PostBefore(x, y)
  {
    assert x[..|p|] == y[..|p|];
  }

  /** PostOrder lists the subtree at p in strict post-order. */
  lemma {:induction false} PostOrderSorted(top: Comp, p: Path)
    requires ValidPath(top, p)
    ensures InPostOrder(PostOrder(top, p))
    decreases NodeAt(top, p), 1, 0
  {
    var n := |NodeAt(top, p).children|;
    var s := SubtreesOrder(top, p, n);
    SubtreesSorted(top, p, n);
    forall x, y | x in s && y in [p]
      ensures PostBefore(x, y)
    {
      SubtreesMembers(top, p, n, x);
    }
    AppendInPostOrder(s, [p]);
  }

  /** The subtrees of the first k children are listed in strict post-order. */
  lemma {:induction false} SubtreesSorted(top: Comp, p: Path, k: nat)
    requires ValidPath(top, p) && k <= |NodeAt(top, p).children|
    ensures InPostOrder(SubtreesOrder(top, p, k))
    decreases NodeAt(top, p), 0, k
  {
    if k > 0 {
      ChildPath(top, p, k - 1);
      var c := p + [k - 1];
      var a, b := SubtreesOrder(top, p, k - 1), PostOrder(top, c);
      SubtreesSorted(top, p, k - 1);
      PostOrderSorted(top, c);
      forall x, y | x in a && y in b
        ensures PostBefore(x, y)
      {
        SubtreesMembers(top, p, k - 1, x);
        PostOrderMembers(top, c, y);
        assert y[..|p|] == p && y[|p|] == k - 1;
        SiblingsBefore(p, x, y);
      }
      AppendInPostOrder(a, b);
    }
  }

  /** Every component of the subtree at p is visited exactly once, and each one after all
      of its descendants and after the subtrees of its earlier siblings; the walk ends at p. */
  lemma VisitsEachOnce(top: Comp, p: Path)
    requires ValidPath(top, p)
    ensures PostOrder(top, p)[|PostOrder(top, p)| - 1] == p
    ensures forall q :: q in PostOrder(top, p) <==> ValidPath(top, q) && p <= q
    ensures forall i, j :: 0 <= i < j < |PostOrder(top, p)| ==> PostOrder(top, p)[i] != PostOrder(top, p)[j]
    ensures InPostOrder(PostOrder(top, p))
  {
    forall q
      ensures q in PostOrder(top, p) <==> ValidPath(top, q) && p <= q
    {
      PostOrderMembers(top, p, q);
    }
    PostOrderSorted(top, p);
    var s := PostOrder(top, p);
    forall i, j | 0 <= i < j < |s|
      ensures s[i] != s[j]
    {
      assert PostBefore(s[i], s[j]);
      assert !PostBefore(s[i], s[i]);
    }
  }
}
