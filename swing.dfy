/** The part of the AWT/Swing object model the library reads: Java classes with their
    superclass chains, and a component hierarchy with names, the "cssClasses" client
    property and ordered children. A component is identified by its path of child indices
    from the top of its hierarchy, so the parent of path p is p without its last index. */
module Swing {
  import opened Wrappers

  /** A Java class: its name, its superclass (absent only for java.lang.Object) and the
      interfaces it declares. */
  datatype JClass = JClass(name: string, superclass: Option<JClass>, interfaces: set<string>)

  /** `target.isAssignableFrom(cls)` for a target that is a class: target is cls or one of
      cls's superclasses. */
  predicate IsAssignableFrom(target: JClass, cls: JClass)
    decreases cls
  {
    target == cls || (cls.superclass.Some? && IsAssignableFrom(target, cls.superclass.value))
  }

  /** `x is I` for an interface I: cls or one of its superclasses declares I. */
  predicate Implements(cls: JClass, iface: string)
    ensures Implements(cls, iface) <==> exists s :: s in Supers(cls) && iface in s.interfaces
    decreases cls
  {
    iface in cls.interfaces || (cls.superclass.Some? && Implements(cls.superclass.value, iface))
  }

  /** The class followed by its superclasses, nearest first, ending at java.lang.Object. */
  function Supers(cls: JClass): (r: seq<JClass>)
    ensures |r| == Depth(cls) + 1 && r[0] == cls
    decreases cls
  {
    [cls] + if cls.superclass.None? then [] else Supers(cls.superclass.value)
  }

  /** isAssignableFrom, seen through the superclass chain: target is assignable from cls
      exactly when it is cls or one of the classes above it. */
  lemma {:induction false} AssignableInSupers(target: JClass, cls: JClass)
    ensures IsAssignableFrom(target, cls) <==> target in Supers(cls)
    decreases cls
  {
    if cls.superclass.Some? {
      AssignableInSupers(target, cls.superclass.value);
    }
  }

  /** Number of superclasses above a class. */
  function Depth(cls: JClass): nat
    decreases cls
  {
    if cls.superclass.None? then 0 else 1 + Depth(cls.superclass.value)
  }

  /** isAssignableFrom is transitive. */
  lemma {:induction false} AssignableTransitive(a: JClass, b: JClass, c: JClass)
    requires IsAssignableFrom(a, b) && IsAssignableFrom(b, c)
    ensures IsAssignableFrom(a, c)
    decreases c
  {
    if b != c {
      AssignableTransitive(a, b, c.superclass.value);
    }
  }

  /** A supertype never sits deeper than its subtype, and only the class itself sits as deep. */
  lemma {:induction false} AssignableDepth(a: JClass, b: JClass)
    requires IsAssignableFrom(a, b)
    ensures Depth(a) <= Depth(b)
    ensures Depth(a) == Depth(b) ==> a == b
    decreases b
  {
    if a != b {
      AssignableDepth(a, b.superclass.value);
    }
  }

  /** isAssignableFrom is antisymmetric, so with reflexivity and transitivity it is a partial order. */
  lemma AssignableAntisymmetric(a: JClass, b: JClass)
    requires IsAssignableFrom(a, b) && IsAssignableFrom(b, a)
    ensures a == b
  {
    AssignableDepth(a, b);
    AssignableDepth(b, a);
  }

  // The classes the library and its tests name.
  const Object := JClass("java.lang.Object", None, {})
  const Component := JClass("java.awt.Component", Some(Object), {})
  const Container := JClass("java.awt.Container", Some(Component), {})
  const AwtButton := JClass("java.awt.Button", Some(Component), {})
  const JComponent := JClass("javax.swing.JComponent", Some(Container), {})
  const JPanel := JClass("javax.swing.JPanel", Some(JComponent), {})
  const AbstractButton := JClass("javax.swing.AbstractButton", Some(JComponent), {})
  const JButton := JClass("javax.swing.JButton", Some(AbstractButton), {})
  const JLabel := JClass("javax.swing.JLabel", Some(JComponent), {})
  const JTextComponent := JClass("javax.swing.text.JTextComponent", Some(JComponent), {})
  const JTextField := JClass("javax.swing.JTextField", Some(JTextComponent), {})
  const JSplitPane := JClass("javax.swing.JSplitPane", Some(JComponent), {})
  const AutoAddDisabled := "ca.weblite.ktswing.AutoAddDisabled"
  const BorderPane := JClass("ca.weblite.ktswing.BorderPane", Some(JPanel), {AutoAddDisabled})

  const BorderLayout := JClass("java.awt.BorderLayout", Some(Object), {"java.awt.LayoutManager2"})
  const CardLayout := JClass("java.awt.CardLayout", Some(Object), {"java.awt.LayoutManager2"})
  const GridBagLayout := JClass("java.awt.GridBagLayout", Some(Object), {"java.awt.LayoutManager2"})
  const FlowLayout := JClass("java.awt.FlowLayout", Some(Object), {"java.awt.LayoutManager"})
  const GridLayout := JClass("java.awt.GridLayout", Some(Object), {"java.awt.LayoutManager"})

  predicate IsComponent(cls: JClass) { IsAssignableFrom(Component, cls) }
  predicate IsContainer(cls: JClass) { IsAssignableFrom(Container, cls) }
  predicate IsJComponent(cls: JClass) { IsAssignableFrom(JComponent, cls) }

  /** A component as the library sees it: `name`, runtime class, the "cssClasses" client
      property as its `toString()` (absent when null; only JComponents have client
      properties) and, for a Container, its children in index order. */
  datatype Comp = Comp(name: Option<string>, cls: JClass, cssClasses: Option<string>, children: seq<Comp>)

  /** The path of child indices from the top of the hierarchy to a component. */
  type Path = seq<nat>

  function Parent(p: Path): Path
    requires p != []
  {
    p[..|p| - 1]
  }

  predicate ValidPath(top: Comp, p: Path)
    decreases |p|, 0
  {
    p == [] || (ValidPath(top, Parent(p)) && p[|p| - 1] < |NodeAt(top, Parent(p)).children|)
  }

  function NodeAt(top: Comp, p: Path): Comp
    requires ValidPath(top, p)
    decreases |p|, 1
  {
    if p == [] then top else NodeAt(top, Parent(p)).children[p[|p| - 1]]
  }

  /** Every node of a hierarchy is a Component, and only Containers have children. */
  predicate WellFormed(c: Comp)
    decreases c
  {
    && IsComponent(c.cls)
    && (c.children != [] ==> IsContainer(c.cls))
    && forall i :: 0 <= i < |c.children| ==> WellFormed(c.children[i])
  }

  /** An argument of `matches(target: Any)`: a component of the hierarchy, or some other object. */
  datatype Target = Node(path: Path) | NotAComponent

  /** Every prefix of a valid path is valid: ancestors exist. */
  lemma {:induction false} PrefixValid(top: Comp, p: Path, q: Path)
    requires ValidPath(top, q) && p <= q
    ensures ValidPath(top, p)
    decreases |q|
  {
    if |p| < |q| {
      assert p <= Parent(q);
      PrefixValid(top, p, Parent(q));
    } else {
      assert p == q;
    }
  }

  /** The j-th ancestor of the component at p (the component itself for j = 0). */
  function Ancestor(top: Comp, p: Path, j: nat): (a: Path)
    requires ValidPath(top, p) && j <= |p|
    ensures ValidPath(top, a) && a <= p && |a| == |p| - j
  {
    PrefixValid(top, p[..|p| - j], p);
    p[..|p| - j]
  }

  /** Appending a child index to a valid path reaches that child. */
  lemma ChildPath(top: Comp, p: Path, i: nat)
    requires ValidPath(top, p) && i < |NodeAt(top, p).children|
    ensures ValidPath(top, p + [i]) && NodeAt(top, p + [i]) == NodeAt(top, p).children[i]
  {
    assert Parent(p + [i]) == p;
  }
}
