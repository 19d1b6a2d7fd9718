/** The Container extensions: whether a container adds the components built inside its
    block automatically, and the per-container factories that `getFactoryForComponent`
    looks up along the parent chain. */
module Containers {
  import opened Wrappers
  import opened Swing

  /** `layoutRequiresParameters(layout)`: the layout is a BorderLayout, CardLayout or
      GridBagLayout, or a subclass of one of them. */
  predicate LayoutRequiresParameters(layout: JClass)
    ensures LayoutRequiresParameters(layout) <==>
      exists s :: s in Supers(layout) && (s == BorderLayout || s == CardLayout || s == GridBagLayout)
  {
    AssignableInSupers(BorderLayout, layout);
    AssignableInSupers(CardLayout, layout);
    AssignableInSupers(GridBagLayout, layout);
    || IsAssignableFrom(BorderLayout, layout)
    || IsAssignableFrom(CardLayout, layout)
    || IsAssignableFrom(GridBagLayout, layout)
  }

  /** The three constrained layouts need parameters; the two others here do not. */
  lemma LayoutsNeedingParameters()
    ensures LayoutRequiresParameters(BorderLayout)
    ensures LayoutRequiresParameters(CardLayout)
    ensures LayoutRequiresParameters(GridBagLayout)
    ensures !LayoutRequiresParameters(FlowLayout)
    ensures !LayoutRequiresParameters(GridLayout)
  {
  }

  /** A subclass of a layout that requires parameters requires them too. */
  lemma LayoutRequiresParametersInherited(layout: JClass, sub: JClass)
    requires IsAssignableFrom(layout, sub) && LayoutRequiresParameters(layout)
    ensures LayoutRequiresParameters(sub)
  {
    if IsAssignableFrom(BorderLayout, layout) {
      AssignableTransitive(BorderLayout, layout, sub);
    } else if IsAssignableFrom(CardLayout, layout) {
      AssignableTransitive(CardLayout, layout, sub);
    } else {
      AssignableTransitive(GridBagLayout, layout, sub);
    }
  }

  /** `isAutoAddEnabled()` on a container of class cls whose layout is `layout` (None for a
      null layout, on which the non-null parameter of `layoutRequiresParameters` fails). */
  function IsAutoAddEnabled(cls: JClass, layout: Option<JClass>): (r: Result<bool, string>)
    ensures r.Failure? <==> layout.None?
    ensures layout.Some? && LayoutRequiresParameters(layout.value) ==> r == Success(false)
  {
    if layout.None? then Failure("layout is null")
    else if LayoutRequiresParameters(layout.value) then Success(false)
    else if IsAssignableFrom(JSplitPane, cls) then Success(false)
    else if Implements(cls, AutoAddDisabled) then Success(false)
    else Success(true)
  }

  /** A container adds automatically exactly when its layout is set and takes no
      parameters, and the container is neither a JSplitPane nor marked AutoAddDisabled. */
  lemma AutoAddExactly(cls: JClass, layout: Option<JClass>)
    ensures IsAutoAddEnabled(cls, layout) == Success(true) <==>
      && layout.Some? && !LayoutRequiresParameters(layout.value)
      && !IsAssignableFrom(JSplitPane, cls) && !Implements(cls, AutoAddDisabled)
  {
  }

  /** A BorderPane, or any subclass of it, never adds automatically, whatever its layout. */
  lemma BorderPaneNeverAutoAdds(cls: JClass, layout: Option<JClass>)
    requires IsAssignableFrom(BorderPane, cls)
    ensures IsAutoAddEnabled(cls, layout) != Success(true)
  {
    ImplementsInherited(BorderPane, cls, AutoAddDisabled);
  }

  /** An interface a class declares is implemented by all its subclasses. */
  lemma {:induction false} ImplementsInherited(c: JClass, sub: JClass, iface: string)
    requires IsAssignableFrom(c, sub) && Implements(c, iface)
    ensures Implements(sub, iface)
    decreases sub
  {
    if c != sub {
      ImplementsInherited(c, sub.superclass.value, iface);
    }
  }

  /** A plain JPanel adds automatically with a FlowLayout and not with a BorderLayout; a
      JSplitPane never does. */
  lemma JPanelAutoAdd()
    ensures IsAutoAddEnabled(JPanel, Some(FlowLayout)) == Success(true)
    ensures IsAutoAddEnabled(JPanel, Some(BorderLayout)) == Success(false)
    ensures IsAutoAddEnabled(JSplitPane, Some(FlowLayout)) == Success(false)
  {
    assert !IsAssignableFrom(JSplitPane, JPanel) by {
      assert !IsAssignableFrom(JSplitPane, JComponent);
    }
    assert !Implements(JPanel, AutoAddDisabled);
  }

  /** The lambda `() -> Component` a factory entry holds; its body is not modelled. */
  type Factory = nat

  /** A container, by its path in the hierarchy; its parent is the path without its last
      index, and the top container has no parent. */
  type ContainerId = Path

  /** The factories the containers hold: the map the `factory` property returns, keyed by
      exact component class. */
  type FactoryMaps = map<ContainerId, map<JClass, Factory>>

  /** The factory container p itself holds for cls, if any. */
  function Own(fs: FactoryMaps, p: ContainerId, cls: JClass): Option<Factory> {
    if p in fs && cls in fs[p] then Some(fs[p][cls]) else None
  }

  /** `getFactoryForComponent(cls)` as a value: the container's own factory for cls, else
      its parent's lookup, else none at the top. */
  function Lookup(fs: FactoryMaps, p: ContainerId, cls: JClass): Option<Factory>
    decreases |p|
  {
    if Own(fs, p, cls).Some? then Own(fs, p, cls)
    else if p == [] then None
    else Lookup(fs, Parent(p), cls)
  }

  /** The lookup finds nothing exactly when no container on the chain (p's prefixes) holds
      a factory for cls; otherwise it finds the one held by the nearest such container. */
  lemma {:induction false} LookupNearest(fs: FactoryMaps, p: ContainerId, cls: JClass)
    ensures Lookup(fs, p, cls).None? <==> forall k :: 0 <= k <= |p| ==> Own(fs, p[..k], cls).None?
    ensures Lookup(fs, p, cls).Some? ==>
      exists j :: 0 <= j <= |p| && Own(fs, p[..j], cls) == Lookup(fs, p, cls) &&
        forall k :: j < k <= |p| ==> Own(fs, p[..k], cls).None?
    decreases |p|
  {
    assert p[..|p|] == p;
    if Own(fs, p, cls).None? && p != [] {
      var q := Parent(p);
      LookupNearest(fs, q, cls);
      assert forall k :: 0 <= k <= |q| ==> q[..k] == p[..k];
      if Lookup(fs, p, cls).Some? {
        var j :| 0 <= j <= |q| && Own(fs, q[..j], cls) == Lookup(fs, q, cls) &&
          forall k :: j < k <= |q| ==> Own(fs, q[..k], cls).None?;
        assert Own(fs, p[..j], cls) == Lookup(fs, p, cls);
      }
    }
  }

  /** A container's own factory shadows every ancestor's. */
  lemma LookupOwnFirst(fs: FactoryMaps, p: ContainerId, cls: JClass, f: Factory)
    requires p in fs && cls in fs[p] && fs[p][cls] == f
    ensures Lookup(fs, p, cls) == Some(f)
  {
  }

  /** Lookups only see the maps' entries: adding an empty map for a container changes none. */
  lemma {:induction false} LookupIgnoresEmpty(fs: FactoryMaps, q: ContainerId, p: ContainerId, cls: JClass)
    requires q !in fs
    ensures Lookup(fs[q := map[]], p, cls) == Lookup(fs, p, cls)
    decreases |p|
  {
    assert Own(fs[q := map[]], p, cls) == Own(fs, p, cls);
    if p != [] {
      LookupIgnoresEmpty(fs, q, Parent(p), cls);
    }
  }

  /** The registry behind the `factory` property: one map per container that has been
      asked for it. */
  class FactoryRegistry {
    var maps: FactoryMaps

    constructor()
      ensures maps == map[]
    {
      maps := map[];
    }

    /** The `factory` property: the container's map, created empty on first access and the
        same one on every later access. */
    method Factories(p: ContainerId) returns (m: map<JClass, Factory>)
      modifies this
      ensures p in old(maps) ==> m == old(maps)[p] && maps == old(maps)
      ensures p !in old(maps) ==> m == map[] && maps == old(maps)[p := map[]]
    {
      if p !in maps {
        maps := maps[p := map[]];
      }
      m := maps[p];
    }

    /** `factory(cls, f)`: sets this container's entry for cls and nothing else. */
    method SetFactory(p: ContainerId, cls: JClass, f: Factory)
      modifies this
      ensures p in maps && maps[p] == (if p in old(maps) then old(maps)[p] else map[])[cls := f]
      ensures forall q :: q in maps && q != p ==> q in old(maps) && maps[q] == old(maps)[q]
      ensures forall q :: q in old(maps) ==> q in maps
    {
      var m := Factories(p);
      maps := maps[p := m[cls := f]];
    }

    /** `getFactoryForComponent(cls)`: the nearest factory for cls from this container up.
        Reading the `factory` property on the way creates empty maps for the containers it
        visits, which changes no lookup. */
    method GetFactoryForComponent(p: ContainerId, cls: JClass) returns (r: Option<Factory>)
      modifies this
      ensures r == Lookup(old(maps), p, cls)
      ensures forall q, k :: Lookup(maps, q, k) == Lookup(old(maps), q, k)
      ensures p in maps && old(maps).Keys <= maps.Keys
      ensures forall q :: q in old(maps) ==> maps[q] == old(maps)[q]
      ensures forall q :: q in maps && q !in old(maps) ==> maps[q] == map[] && q <= p
      decreases |p|
    {
      ghost var fs0 := maps;
      var local := Factories(p);
      LookupAfterAccess(fs0, maps, p);
      if cls in local {
        r := Some(local[cls]);
      } else if p == [] {
        r := None;
      } else {
        ghost var fs1 := maps;
        r := GetFactoryForComponent(Parent(p), cls);
        assert forall q :: q in maps && q !in fs1 ==> q <= Parent(p) <= p;
      }
    }
  }

  /** The `factory` property's first access leaves every lookup as it was. */
  lemma LookupAfterAccess(fs: FactoryMaps, fs': FactoryMaps, p: ContainerId)
    requires p in fs ==> fs' == fs
    requires p !in fs ==> fs' == fs[p := map[]]
    ensures forall q, k :: Lookup(fs', q, k) == Lookup(fs, q, k)
  {
    if p !in fs {
      forall q, k
        ensures Lookup(fs', q, k) == Lookup(fs, q, k)
      {
        LookupIgnoresEmpty(fs, p, q, k);
      }
    }
  }

  /** After `factory(cls, f)` on p: the lookup from p finds f; lookups of any other class,
      and every lookup from a container that is not p or below it, are unchanged. */
  lemma {:induction false} SetFactoryEffect(fs: FactoryMaps, fs': FactoryMaps, p: ContainerId, cls: JClass, f: Factory, q: ContainerId, k: JClass)
    requires p in fs' && fs'[p] == (if p in fs then fs[p] else map[])[cls := f]
    requires forall x :: x in fs' && x != p ==> x in fs && fs'[x] == fs[x]
    requires forall x :: x in fs ==> x in fs'
    ensures Lookup(fs', p, cls) == Some(f)
    ensures k != cls || !(p <= q) ==> Lookup(fs', q, k) == Lookup(fs, q, k)
    decreases |q|
  {
    assert Own(fs', p, cls) == Some(f);
    assert q != p && (k != cls || !(p <= q)) ==> Own(fs', q, k) == Own(fs, q, k);
    assert p == q ==> Own(fs', q, k) == Own(fs, q, k) || k == cls;
    if q != [] && Own(fs', q, k).None? {
      assert !(p <= q) ==> !(p <= Parent(q));
      SetFactoryEffect(fs, fs', p, cls, f, Parent(q), k);
    }
  }

  /** After `factory(cls, f)` on p, a container below p finds f unless a container between
      them (or itself) holds its own factory for cls. */
  lemma {:induction false} SetFactoryReachesBelow(fs: FactoryMaps, fs': FactoryMaps, p: ContainerId, cls: JClass, f: Factory, q: ContainerId)
    requires p in fs' && fs'[p] == (if p in fs then fs[p] else map[])[cls := f]
    requires forall x :: x in fs' && x != p ==> x in fs && fs'[x] == fs[x]
    requires p <= q && forall k :: |p| < k <= |q| ==> Own(fs, q[..k], cls).None?
    ensures Lookup(fs', q, cls) == Some(f)
    decreases |q|
  {
    if q != p {
      assert q[..|q|] == q;
      assert Own(fs', q, cls).None?;
      var r := Parent(q);
      assert p <= r;
      assert forall k :: |p| < k <= |r| ==> r[..k] == q[..k];
      SetFactoryReachesBelow(fs, fs', p, cls, f, r);
    }
  }
}
