/** Stylesheets and chainable styles.

    A style has a target class, a selector and an `apply` action. The styles a program builds
    come in two kinds: the anonymous AbstractStyle that `Stylesheet.register(selector, cls, fn)`
    creates, whose `apply` calls the user's lambda, and ChainableStyle objects. A
    ChainableStyle may be shared (the same object registered in several places and extended
    later through `add`), so ChainableStyle objects live in a store, keyed by reference.
    Applying a stylesheet to a component is recorded as the sequence of lambda calls it makes:
    `Fired(path, action)` says the lambda `action` ran on the component at `path`. */
module Styles {
  import opened Wrappers
  import opened Swing
  import opened Selectors

  /** Identifies a user lambda `(T) -> Unit`; its body is not modelled. */
  type ActionId = nat

  /** The identity of a ChainableStyle object. */
  type ChainRef = nat

  /** A `Style<T>` object. `Lambda` is the AbstractStyle subclass made by
      `Stylesheet.register(selector, cls, fn)`: target class, selector, and an `apply` that
      forwards to the lambda. `Chained` is a reference to a ChainableStyle. */
  datatype Style =
    | Lambda(target: JClass, selector: Selector, action: ActionId)
    | Chained(ref: ChainRef)

  /** A ChainableStyle object: the AbstractStyle fields (target class and selector), the
      wrapped style (absent after the primary constructor) and the styles of the child
      stylesheets, one list per child sheet, in insertion order. */
  datatype ChainableStyle = ChainableStyle(
    target: JClass, selector: Selector, wrapped: Option<Style>, childSheets: seq<seq<Style>>)

  /** The lambda `action` ran on the component at `path`. */
  datatype Fired = Fired(path: Path, action: ActionId)

  /** The ChainableStyle objects with a ranking used only for reasoning: every reference
      held by an object points to an object of lower rank, so the reference graph has no
      cycles and applying a style terminates. All ranks lie in [low, high). */
  datatype Store = Store(objects: map<ChainRef, ChainableStyle>, rank: map<ChainRef, int>, low: int, high: int)

  /** `getTargetClass()`: the class given at construction. */
  function GetTargetClass(objects: map<ChainRef, ChainableStyle>, s: Style): JClass
    requires Known(objects, s)
  {
    match s
    case Lambda(t, _, _) => t
    case Chained(r) => objects[r].target
  }

  /** `getSelector()`: the selector given at construction. */
  function GetSelector(objects: map<ChainRef, ChainableStyle>, s: Style): Selector
    requires Known(objects, s)
  {
    match s
    case Lambda(_, sel, _) => sel
    case Chained(r) => objects[r].selector
  }

  /** A style whose reference, if any, is to an existing object. */
  predicate Known(objects: map<ChainRef, ChainableStyle>, s: Style) {
    s.Chained? ==> s.ref in objects
  }

  predicate AllKnown(objects: map<ChainRef, ChainableStyle>, styles: seq<Style>) {
    forall i :: 0 <= i < |styles| ==> Known(objects, styles[i])
  }

  /** A style whose reference, if any, is to an object ranked below b. */
  predicate Below(st: Store, s: Style, b: int) {
    s.Chained? ==> s.ref in st.objects && s.ref in st.rank && st.rank[s.ref] < b
  }

  predicate AllBelow(st: Store, styles: seq<Style>, b: int) {
    forall i :: 0 <= i < |styles| ==> Below(st, styles[i], b)
  }

  predicate SheetsBelow(st: Store, sheets: seq<seq<Style>>, b: int) {
    forall i :: 0 <= i < |sheets| ==> AllBelow(st, sheets[i], b)
  }

  /** Every reference an object holds is to an object ranked below b. */
  predicate ObjectBelow(st: Store, o: ChainableStyle, b: int) {
    && (o.wrapped.Some? ==> Below(st, o.wrapped.value, b))
    && SheetsBelow(st, o.childSheets, b)
  }

  predicate StoreOk(st: Store) {
    && st.low <= st.high
    && st.rank.Keys == st.objects.Keys
    && forall r :: r in st.objects ==>
         && st.low <= st.rank[r] < st.high
         && ObjectBelow(st, st.objects[r], st.rank[r])
  }

  /** A style whose reference, if any, is into A. */
  predicate StyleIn(s: Style, A: set<ChainRef>) {
    s.Chained? ==> s.ref in A
  }

  predicate StylesIn(styles: seq<Style>, A: set<ChainRef>) {
    forall i :: 0 <= i < |styles| ==> StyleIn(styles[i], A)
  }

  /** Every reference the object holds is into A. */
  predicate ObjectIn(o: ChainableStyle, A: set<ChainRef>) {
    && (o.wrapped.Some? ==> StyleIn(o.wrapped.value, A))
    && forall i :: 0 <= i < |o.childSheets| ==> StylesIn(o.childSheets[i], A)
  }

  /** The objects in A exist and refer only to objects in A. */
  predicate Closed(st: Store, A: set<ChainRef>) {
    forall r :: r in A ==> r in st.objects && ObjectIn(st.objects[r], A)
  }

  /** st' is st after `add` appended a sheet holding w to c: c has one more child sheet,
      every other object of st is unchanged and new objects may exist. The ranks, which
      exist only for reasoning, may be different. */
  predicate AddedChild(st: Store, st': Store, c: ChainRef, w: ChainRef) {
    && c in st.objects && c in st'.objects && w in st'.objects
    && st'.objects[c] == st.objects[c].(childSheets := st.objects[c].childSheets + [[Chained(w)]])
    && (forall x :: x in st.objects && x != c ==> x in st'.objects && st'.objects[x] == st.objects[x])
  }

  /** c cannot be reached from w by following wrapped styles and child sheets: some set of
      objects that holds w and is closed under references leaves c out (the objects
      reachable from w form such a set). Registering w under c then makes no cycle. */
  ghost predicate CannotReach(st: Store, w: ChainRef, c: ChainRef) {
    exists A :: Closed(st, A) && w in A && c !in A
  }

  /** The ranks with every object outside A lifted by d. */
  function Lift(rank: map<ChainRef, int>, A: set<ChainRef>, d: int): map<ChainRef, int> {
    map x | x in rank :: if x in A then rank[x] else rank[x] + d
  }

  /** The test `Stylesheet.apply` makes before calling a style on a component: the style's
      target class is assignable from the component's class and its selector matches. */
  predicate Passes(objects: map<ChainRef, ChainableStyle>, s: Style, top: Comp, p: Path)
    requires Known(objects, s) && ValidPath(top, p)
    ensures Passes(objects, s, top, p) <==>
      IsAssignableFrom(GetTargetClass(objects, s), NodeAt(top, p).cls) && ChainHolds(GetSelector(objects, s), top, p)
  {
    MatchesChain(GetSelector(objects, s), top, p);
    IsAssignableFrom(GetTargetClass(objects, s), NodeAt(top, p).cls)
    && Matches(GetSelector(objects, s), top, Node(p))
  }

  /** Every call in the log is on the component at p or one of its descendants. */
  predicate WithinSubtree(log: seq<Fired>, top: Comp, p: Path) {
    forall e :: e in log ==> ValidPath(top, e.path) && p <= e.path
  }

  /** Calls on the subtree of a child are calls on the subtree of its parent. */
  lemma WithinChild(log: seq<Fired>, top: Comp, p: Path, i: nat)
    requires WithinSubtree(log, top, p + [i])
    ensures WithinSubtree(log, top, p)
  {
    forall e | e in log
      ensures p <= e.path
    {
      assert (p + [i])[..|p|] == p;
      assert e.path[..|p| + 1] == p + [i];
      assert e.path[..|p|] == (p + [i])[..|p|];
    }
  }

  /** The lambda calls `Stylesheet.apply(root)` makes for a sheet with these styles and
      root the component at p: first the whole subtree of every child in index order (only a
      Container is descended into), then the styles that pass at p, in list order. b bounds
      the ranks of the objects the styles refer to. */
  function SheetLog(st: Store, styles: seq<Style>, b: int, top: Comp, p: Path): (r: seq<Fired>)
    requires StoreOk(st) && st.low <= b && AllBelow(st, styles, b) && ValidPath(top, p)
    ensures WithinSubtree(r, top, p)
    decreases b - st.low, NodeAt(top, p), 2, 0
  {
    var node := NodeAt(top, p);
    (if IsContainer(node.cls) then ChildrenLog(st, styles, b, top, p, |node.children|) else [])
      + StylesLog(st, styles, b, top, p)
  }

  /** The lambda calls of applying the sheet to the first k children of the component at p. */
  function ChildrenLog(st: Store, styles: seq<Style>, b: int, top: Comp, p: Path, k: nat): (r: seq<Fired>)
    requires StoreOk(st) && st.low <= b && AllBelow(st, styles, b) && ValidPath(top, p)
    requires k <= |NodeAt(top, p).children|
    ensures WithinSubtree(r, top, p)
    decreases b - st.low, NodeAt(top, p), 1, k
  {
    if k == 0 then []
    else
      ChildPath(top, p, k - 1);
      var child := SheetLog(st, styles, b, top, p + [k - 1]);
      WithinChild(child, top, p, k - 1);
      ChildrenLog(st, styles, b, top, p, k - 1) + child
  }

  /** The lambda calls of the style loop at the component at p itself. */
  function StylesLog(st: Store, styles: seq<Style>, b: int, top: Comp, p: Path): (r: seq<Fired>)
    requires StoreOk(st) && st.low <= b && AllBelow(st, styles, b) && ValidPath(top, p)
    ensures WithinSubtree(r, top, p)
    decreases b - st.low, NodeAt(top, p), 1, |styles|
  {
    if styles == [] then []
    else
      var s := styles[|styles| - 1];
      StylesLog(st, styles[..|styles| - 1], b, top, p)
        + (if Passes(st.objects, s, top, p) then StyleLog(st, s, b, top, p) else [])
  }

  /** The lambda calls of `style.apply(target)`: a lambda style calls its lambda once; a
      chainable style does what ChainLog says. */
  function StyleLog(st: Store, s: Style, b: int, top: Comp, p: Path): (r: seq<Fired>)
    requires StoreOk(st) && st.low <= b && Below(st, s, b) && ValidPath(top, p)
    ensures WithinSubtree(r, top, p)
    decreases b - st.low, NodeAt(top, p), 0, 0
  {
    match s
    case Lambda(_, _, a) => [Fired(p, a)]
    case Chained(r) => ChainLog(st, r, top, p)
  }

  /** The lambda calls of `ChainableStyle.apply(target)`: the wrapped style's, if there is
      one, then each child stylesheet applied to the target, in insertion order. */
  function ChainLog(st: Store, r: ChainRef, top: Comp, p: Path): (log: seq<Fired>)
    requires StoreOk(st) && r in st.objects && ValidPath(top, p)
    ensures WithinSubtree(log, top, p)
    decreases st.rank[r] - st.low, NodeAt(top, p), 4, 0
  {
    var o := st.objects[r];
    (if o.wrapped.Some? then StyleLog(st, o.wrapped.value, st.rank[r], top, p) else [])
      + SheetsLog(st, o.childSheets, st.rank[r], top, p)
  }

  /** The lambda calls of applying these child stylesheets, in order, to the component at p. */
  function SheetsLog(st: Store, sheets: seq<seq<Style>>, b: int, top: Comp, p: Path): (r: seq<Fired>)
    requires StoreOk(st) && st.low <= b && SheetsBelow(st, sheets, b) && ValidPath(top, p)
    ensures WithinSubtree(r, top, p)
    decreases b - st.low, NodeAt(top, p), 3, |sheets|
  {
    if sheets == [] then []
    else
      SheetsLog(st, sheets[..|sheets| - 1], b, top, p)
        + SheetLog(st, sheets[|sheets| - 1], b, top, p)
  }

  /** The lambda calls of applying a top-level stylesheet to the component at p. */
  function Log(st: Store, styles: seq<Style>, top: Comp, p: Path): (r: seq<Fired>)
    requires StoreOk(st) && AllKnown(st.objects, styles) && ValidPath(top, p)
    ensures WithinSubtree(r, top, p)
  {
    KnownBelowHigh(st, styles);
    SheetLog(st, styles, st.high, top, p)
  }

  /** In a well-ranked store every known style is below `high`. */
  lemma KnownBelowHigh(st: Store, styles: seq<Style>)
    requires StoreOk(st) && AllKnown(st.objects, styles)
    ensures AllBelow(st, styles, st.high)
  {
  }

  /** The ChainableStyle objects of a program. */
  class StyleStore {
    var objects: map<ChainRef, ChainableStyle>
    var next: ChainRef
    ghost var rank: map<ChainRef, int>
    ghost var low: int
    ghost var high: int

    ghost function Snap(): Store
      reads this
    {
      Store(objects, rank, low, high)
    }

    ghost predicate Valid()
      reads this
    {
      StoreOk(Snap()) && forall r :: r in objects ==> r < next
    }

    constructor ()
      ensures Valid() && objects == map[]
    {
      objects := map[];
      next := 0;
      rank := map[];
      low := 0;
      high := 0;
    }

    /** `ChainableStyle(targetType, selector)`: a new object with no wrapped style and no
        child sheets. */
    method NewChainable(target: JClass, selector: Selector) returns (r: ChainRef)
      requires Valid()
      modifies this
      ensures Valid() && r !in old(objects)
      ensures objects == old(objects)[r := ChainableStyle(target, selector, None, [])]
      ensures rank == old(rank)[r := low] && low == old(low) - 1 && high == old(high)
    {
      r := next;
      next := next + 1;
      ghost var st := Snap();
      objects := objects[r := ChainableStyle(target, selector, None, [])];
      rank := rank[r := low - 1];
      low := low - 1;
      Grown(st, Snap());
    }

    /** `ChainableStyle(wrappedStyle)`: a new object that copies the wrapped style's target
        class and selector and wraps it. */
    method Wrap(style: Style) returns (r: ChainRef)
      requires Valid() && Known(objects, style)
      modifies this
      ensures Valid() && r !in old(objects)
      ensures objects == old(objects)[r := ChainableStyle(
        GetTargetClass(old(objects), style), GetSelector(old(objects), style), Some(style), [])]
      ensures forall x :: x in old(rank) ==> x in rank && rank[x] == old(rank)[x]
      ensures style.Lambda? ==> rank[r] == low == old(low) - 1 && high == old(high)
      ensures low <= old(low)
    {
      var o := ChainableStyle(GetTargetClass(objects, style), GetSelector(objects, style), Some(style), []);
      r := next;
      next := next + 1;
      ghost var st := Snap();
      ghost var k := if style.Chained? then high else low - 1;
      objects := objects[r := o];
      rank := rank[r := k];
      if style.Chained? {
        high := high + 1;
      } else {
        low := low - 1;
      }
      WrapperBelow(st, Snap(), style, k);
      Grown(st, Snap());
    }

    /** `asChainable(style)`: the style itself when it is a ChainableStyle, else a new
        wrapper around it. */
    method AsChainable(style: Style) returns (r: ChainRef)
      requires Valid() && Known(objects, style)
      modifies this
      ensures Valid()
      ensures style.Chained? ==> r == style.ref && objects == old(objects) && rank == old(rank) && low == old(low)
      ensures style.Lambda? ==> r !in old(objects) && objects == old(objects)[r := ChainableStyle(
        style.target, style.selector, Some(style), [])]
      ensures style.Lambda? ==> rank == old(rank)[r := low] && low == old(low) - 1
      ensures high == old(high) && low <= old(low)
      ensures forall x :: x in old(objects) ==> x in objects && objects[x] == old(objects)[x]
      ensures forall x :: x in old(rank) ==> x in rank && rank[x] == old(rank)[x]
    {
      if style.Chained? {
        r := style.ref;
      } else {
        r := Wrap(style);
      }
    }

    /** `add(style)` on the ChainableStyle c: a new child sheet holding `asChainable(style)`
        is appended to c's child sheets, and a second `asChainable(style)` is returned. For a
        chainable argument both are that object. For any other argument they are two
        different new wrappers: the handle returned is not the one registered.
        An existing chainable may be added to c unless c can be reached from it, since the
        new reference would close a cycle (`s.add(s)` makes `apply` recurse forever). */
    method Add(c: ChainRef, style: Style) returns (handle: ChainRef, ghost registered: ChainRef)
      requires Valid() && c in objects && Known(objects, style)
      requires style.Chained? ==> CannotReach(Snap(), style.ref, c)
      modifies this
      ensures Valid()
      ensures AddedChild(old(Snap()), Snap(), c, registered)
      ensures handle in objects
      ensures GetTargetClass(objects, Chained(handle)) == GetTargetClass(old(objects), style)
      ensures GetSelector(objects, Chained(handle)) == GetSelector(old(objects), style)
      ensures style.Chained? ==> handle == registered == style.ref && objects.Keys == old(objects).Keys
      ensures style.Lambda? ==> handle != registered && handle !in old(objects) && registered !in old(objects)
      ensures style.Lambda? ==> objects.Keys == old(objects).Keys + {handle, registered}
      ensures style.Lambda? ==> objects[handle] == objects[registered] == ChainableStyle(style.target, style.selector, Some(style), [])
      ensures style.Lambda? ==> Closed(Snap(), objects.Keys - {handle})
    {
      if style.Chained? {
        handle := AddExisting(c, style);
        registered := handle;
      } else {
        handle, registered := AddPlain(c, style);
      }
    }

    /** `add` with a ChainableStyle: both `asChainable` calls give the object itself. */
    method AddExisting(c: ChainRef, style: Style) returns (handle: ChainRef)
      requires Valid() && c in objects && style.Chained? && style.ref in objects
      requires CannotReach(Snap(), style.ref, c)
      modifies this
      ensures Valid()
      ensures AddedChild(old(Snap()), Snap(), c, handle)
      ensures handle == style.ref && objects.Keys == old(objects).Keys
    {
      handle := AsChainable(style);
      var sheetStyle := AsChainable(style);
      AppendChildSheet(c, sheetStyle);
    }

    /** `add` with a plain style: two new wrappers, the second registered in the new child
        sheet, the first returned. */
    method AddPlain(c: ChainRef, style: Style) returns (handle: ChainRef, ghost registered: ChainRef)
      requires Valid() && c in objects && style.Lambda?
      modifies this
      ensures Valid()
      ensures AddedChild(old(Snap()), Snap(), c, registered)
      ensures handle != registered && handle !in old(objects) && registered !in old(objects)
      ensures objects.Keys == old(objects).Keys + {handle, registered}
      ensures objects[handle] == objects[registered] == ChainableStyle(style.target, style.selector, Some(style), [])
      ensures Closed(Snap(), objects.Keys - {handle})
    {
      ghost var st0 := Snap();
      handle := AsChainable(style);
      ghost var st1 := Snap();
      var sheetStyle := AsChainable(style);
      registered := sheetStyle;
      ghost var st2 := Snap();
      assert Closed(st2, {sheetStyle});
      AppendChildSheet(c, sheetStyle);
      PlainAdded(st0, st1, st2, Snap(), c, style, handle, registered);
    }

    /** `add` as evidently intended: the wrapper that is returned is the one registered in
        the new child sheet, so a later `add` on the handle is reached from c. */
    method AddIntended(c: ChainRef, style: Style) returns (handle: ChainRef)
      requires Valid() && c in objects && Known(objects, style)
      requires style.Chained? ==> CannotReach(Snap(), style.ref, c)
      modifies this
      ensures Valid()
      ensures AddedChild(old(Snap()), Snap(), c, handle)
      ensures style.Chained? ==> handle == style.ref && objects.Keys == old(objects).Keys
      ensures style.Lambda? ==> handle !in old(objects) && objects.Keys == old(objects).Keys + {handle}
      ensures style.Lambda? ==> objects[handle] == ChainableStyle(style.target, style.selector, Some(style), [])
    {
      ghost var st0 := Snap();
      handle := AsChainable(style);
      ghost var st := Snap();
      if style.Lambda? {
        assert Closed(st, {handle});
      }
      AppendChildSheet(c, handle);
      AddedChildAfterGrowth(st0, st, Snap(), c, handle);
    }

    /** `childStyleSheets.add(sheet)` on the object c, for a sheet holding only w. The ranks
        of c and of everything outside a closed set around w are lifted above w's. */
    method AppendChildSheet(c: ChainRef, w: ChainRef)
      requires Valid() && c in objects && w in objects && CannotReach(Snap(), w, c)
      modifies this
      ensures Valid() && AddedChild(old(Snap()), Snap(), c, w)
      ensures objects == old(objects)[c := old(objects[c]).(childSheets := old(objects[c]).childSheets + [[Chained(w)]])]
      ensures objects.Keys == old(objects).Keys
    {
      ghost var st := Snap();
      ghost var A :| Closed(st, A) && w in A && c !in A;
      ghost var d := if rank[w] < rank[c] then 0 else rank[w] - rank[c] + 1;
      var o := objects[c];
      objects := objects[c := o.(childSheets := o.childSheets + [[Chained(w)]])];
      rank := Lift(rank, A, d);
      high := high + d;
      Reranked(st, Snap(), c, w, A, d);
    }
  }

  /** A sheet appended after the store grew is appended to the store before it grew. */
  lemma AddedChildAfterGrowth(st0: Store, st: Store, st': Store, c: ChainRef, w: ChainRef)
    requires c in st0.objects
    requires forall x :: x in st0.objects ==> x in st.objects && st.objects[x] == st0.objects[x]
    requires AddedChild(st, st', c, w)
    ensures AddedChild(st0, st', c, w)
  {
  }

  /** A wrapper ranked at `high` (around a chainable) or below `low` (around a plain
      style) refers only to lower ranks. */
  lemma WrapperBelow(st: Store, st': Store, style: Style, k: int)
    requires StoreOk(st) && Known(st.objects, style)
    requires forall x :: x in st.rank ==> x in st'.rank && st'.rank[x] == st.rank[x]
    requires forall x :: x in st.objects ==> x in st'.objects
    requires k == (if style.Chained? then st.high else st.low - 1)
    ensures Below(st', style, k)
  {
  }

  /** A store that keeps every object and rank and adds objects that refer only to lower
      ranks is still well ranked. */
  lemma Grown(st: Store, st': Store)
    requires StoreOk(st)
    requires st'.low <= st.low && st'.high >= st.high && st'.low <= st'.high
    requires st'.rank.Keys == st'.objects.Keys
    requires forall r :: r in st.objects ==> r in st'.objects && st'.objects[r] == st.objects[r] && st'.rank[r] == st.rank[r]
    requires forall r :: r in st'.objects && r !in st.objects ==>
      && st'.low <= st'.rank[r] < st'.high
      && ObjectBelow(st', st'.objects[r], st'.rank[r])
    ensures StoreOk(st')
  {
    forall r | r in st.objects
      ensures ObjectBelow(st', st'.objects[r], st'.rank[r])
    {
      BelowGrown(st, st', st.objects[r], st.rank[r]);
    }
  }

  /** A reference to a lower-ranked object stays one when the store grows. */
  lemma BelowGrown(st: Store, st': Store, o: ChainableStyle, b: int)
    requires st.rank.Keys == st.objects.Keys && st'.rank.Keys == st'.objects.Keys
    requires forall r :: r in st.objects ==> r in st'.objects && st'.rank[r] == st.rank[r]
    requires ObjectBelow(st, o, b)
    ensures ObjectBelow(st', o, b)
  {
    forall i, j | 0 <= i < |o.childSheets| && 0 <= j < |o.childSheets[i]|
      ensures Below(st', o.childSheets[i][j], b)
    {
      assert Below(st, o.childSheets[i][j], b);
    }
  }

  /** A reference to an object in B stays below the referrer when no rank in B rises by
      more than the referrer's bound does. */
  lemma BelowRaised(st: Store, st': Store, o: ChainableStyle, b: int, b': int, B: set<ChainRef>)
    requires st.rank.Keys == st.objects.Keys && st'.rank.Keys == st'.objects.Keys
    requires forall r :: r in st.objects ==> r in st'.objects
    requires ObjectBelow(st, o, b) && ObjectIn(o, B)
    requires forall r :: r in B && r in st.rank ==> st'.rank[r] - st.rank[r] <= b' - b
    ensures ObjectBelow(st', o, b')
  {
    forall i, j | 0 <= i < |o.childSheets| && 0 <= j < |o.childSheets[i]|
      ensures Below(st', o.childSheets[i][j], b')
    {
      assert Below(st, o.childSheets[i][j], b) && StyleIn(o.childSheets[i][j], B);
    }
  }

  /** Appending a sheet holding w to c keeps the store well ranked once every object outside
      a closed set around w that leaves c out is lifted by d, enough to put c above w. */
  lemma Reranked(st: Store, st': Store, c: ChainRef, w: ChainRef, A: set<ChainRef>, d: int)
    requires StoreOk(st) && c in st.objects && w in st.objects
    requires Closed(st, A) && w in A && c !in A
    requires d >= 0 && st.rank[w] < st.rank[c] + d
    requires st'.objects == st.objects[c := st.objects[c].(childSheets := st.objects[c].childSheets + [[Chained(w)]])]
    requires st'.rank == Lift(st.rank, A, d) && st'.low == st.low && st'.high == st.high + d
    ensures StoreOk(st')
  {
    forall r | r in st.objects
      ensures ObjectBelow(st', st.objects[r], st'.rank[r])
    {
      var o := st.objects[r];
      assert ObjectBelow(st, o, st.rank[r]);
      if r in A {
        BelowRaised(st, st', o, st.rank[r], st'.rank[r], A);
      } else {
        ObjectRefsExist(st, r);
        BelowRaised(st, st', o, st.rank[r], st'.rank[r], st.objects.Keys);
      }
    }
    var o, o' := st.objects[c], st'.objects[c];
    assert ObjectBelow(st', o, st'.rank[c]);
    assert forall i :: 0 <= i < |o.childSheets| ==> o'.childSheets[i] == o.childSheets[i];
    assert o'.childSheets[|o.childSheets|] == [Chained(w)];
    assert ObjectBelow(st', o', st'.rank[c]);
  }

  /** References into A are references into any superset of A. */
  lemma ObjectInGrown(o: ChainableStyle, A: set<ChainRef>, B: set<ChainRef>)
    requires ObjectIn(o, A) && A <= B
    ensures ObjectIn(o, B)
  {
    forall i, j | 0 <= i < |o.childSheets| && 0 <= j < |o.childSheets[i]|
      ensures StyleIn(o.childSheets[i][j], B)
    {
      assert StyleIn(o.childSheets[i][j], A);
    }
  }

  /** In a well-ranked store every object refers only to existing objects. */
  lemma ObjectRefsExist(st: Store, r: ChainRef)
    requires StoreOk(st) && r in st.objects
    ensures ObjectIn(st.objects[r], st.objects.Keys)
  {
    var o := st.objects[r];
    assert ObjectBelow(st, o, st.rank[r]);
    forall i, j | 0 <= i < |o.childSheets| && 0 <= j < |o.childSheets[i]|
      ensures StyleIn(o.childSheets[i][j], st.objects.Keys)
    {
      assert Below(st, o.childSheets[i][j], st.rank[r]);
    }
  }

  /** The effect of `add` with a plain style, from the three steps it takes: wrap into h,
      wrap into w, append a sheet holding w to c. */
  lemma PlainAdded(st0: Store, st1: Store, st2: Store, st3: Store, c: ChainRef, style: Style, h: ChainRef, w: ChainRef)
    requires StoreOk(st0) && c in st0.objects && style.Lambda?
    requires h !in st0.objects && st1.objects == st0.objects[h := ChainableStyle(style.target, style.selector, Some(style), [])]
    requires st1.rank == st0.rank[h := st1.low] && st1.low == st0.low - 1 && st1.high == st0.high
    requires w !in st1.objects && st2.objects == st1.objects[w := ChainableStyle(style.target, style.selector, Some(style), [])]
    requires st2.rank == st1.rank[w := st2.low] && st2.low == st1.low - 1 && st2.high == st1.high
    requires AddedChild(st2, st3, c, w) && st3.objects.Keys == st2.objects.Keys
    ensures AddedChild(st0, st3, c, w)
    ensures h != w && st3.objects.Keys == st0.objects.Keys + {h, w}
    ensures st3.objects[h] == st3.objects[w] == ChainableStyle(style.target, style.selector, Some(style), [])
    ensures Closed(st3, st3.objects.Keys - {h})
  {
    var o := ChainableStyle(style.target, style.selector, Some(style), []);
    assert h != w && h != c && w != c;
    assert st2.objects.Keys == st0.objects.Keys + {h, w};
    assert st2.objects[h] == o && st2.objects[w] == o;
    assert st3.objects[h] == o && st3.objects[w] == o;
    AddedChildAfterGrowth(st0, st2, st3, c, w);
    NoOneRefersToHandle(st0, st3, c, h, w);
  }

  /** After `add` with a plain style, the handle it returns is new and nothing refers to
      it: the object registered in the child sheet is the other new wrapper. */
  lemma NoOneRefersToHandle(st: Store, st': Store, c: ChainRef, h: ChainRef, w: ChainRef)
    requires StoreOk(st) && c in st.objects && h !in st.objects && w !in st.objects && h != w
    requires h in st'.objects && w in st'.objects
    requires st'.objects[w].wrapped.Some? && st'.objects[w].wrapped.value.Lambda? && st'.objects[w].childSheets == []
    requires AddedChild(st, st', c, w) && st'.objects.Keys == st.objects.Keys + {h, w}
    ensures Closed(st', st'.objects.Keys - {h})
  {
    var A := st'.objects.Keys - {h};
    assert st.objects.Keys <= A;
    forall r | r in A
      ensures ObjectIn(st'.objects[r], A)
    {
      if r == c {
        var o := st.objects[c];
        ObjectRefsExist(st, c);
        ObjectInGrown(o, st.objects.Keys, A);
        var o' := st'.objects[c];
        assert forall i :: 0 <= i < |o.childSheets| ==> o'.childSheets[i] == o.childSheets[i];
        assert o'.childSheets[|o.childSheets|] == [Chained(w)];
      } else if r != w {
        ObjectRefsExist(st, r);
        ObjectInGrown(st.objects[r], st.objects.Keys, A);
      }
    }
  }

  /** `Stylesheet.apply(root)` on a sheet with these styles, root the component at p. */
  method ApplySheet(store: StyleStore, styles: seq<Style>, ghost b: int, top: Comp, p: Path)
    returns (fired: seq<Fired>)
    requires store.Valid() && store.low <= b && AllBelow(store.Snap(), styles, b) && ValidPath(top, p)
    ensures fired == SheetLog(store.Snap(), styles, b, top, p)
    decreases b - store.low, NodeAt(top, p), 2, 0
  {
    var node := NodeAt(top, p);
    fired := [];
    if IsContainer(node.cls) {
      fired := ApplyChildren(store, styles, b, top, p);
    }
    var own := ApplyStyles(store, styles, b, top, p);
    fired := fired + own;
  }

  /** The loop of `Stylesheet.apply` over the children of the component at p. */
  method ApplyChildren(store: StyleStore, styles: seq<Style>, ghost b: int, top: Comp, p: Path)
    returns (fired: seq<Fired>)
    requires store.Valid() && store.low <= b && AllBelow(store.Snap(), styles, b) && ValidPath(top, p)
    ensures fired == ChildrenLog(store.Snap(), styles, b, top, p, |NodeAt(top, p).children|)
    decreases b - store.low, NodeAt(top, p), 1, |NodeAt(top, p).children|
  {
    ghost var st := store.Snap();
    var node := NodeAt(top, p);
    fired := [];
    for i := 0 to |node.children|
      invariant fired == ChildrenLog(st, styles, b, top, p, i)
    {
      ChildPath(top, p, i);
      var f := ApplySheet(store, styles, b, top, p + [i]);
      fired := fired + f;
    }
  }

  /** The loop of `Stylesheet.apply` over the styles, at the component at p. */
  method ApplyStyles(store: StyleStore, styles: seq<Style>, ghost b: int, top: Comp, p: Path)
    returns (fired: seq<Fired>)
    requires store.Valid() && store.low <= b && AllBelow(store.Snap(), styles, b) && ValidPath(top, p)
    ensures fired == StylesLog(store.Snap(), styles, b, top, p)
    decreases b - store.low, NodeAt(top, p), 1, |styles|
  {
    ghost var st := store.Snap();
    fired := [];
    for j := 0 to |styles|
      invariant fired == StylesLog(st, styles[..j], b, top, p)
    {
      assert styles[..j + 1][..j] == styles[..j];
      var s := styles[j];
      if Passes(store.objects, s, top, p) {
        var f := ApplyStyle(store, s, b, top, p);
        fired := fired + f;
      }
    }
    assert styles[..|styles|] == styles;
  }

  /** `style.apply(target)` for the component at p. */
  method ApplyStyle(store: StyleStore, s: Style, ghost b: int, top: Comp, p: Path)
    returns (fired: seq<Fired>)
    requires store.Valid() && store.low <= b && Below(store.Snap(), s, b) && ValidPath(top, p)
    ensures fired == StyleLog(store.Snap(), s, b, top, p)
    decreases b - store.low, NodeAt(top, p), 0, 0
  {
    match s
    case Lambda(_, _, a) =>
      fired := [Fired(p, a)];
    case Chained(r) =>
      fired := ApplyChainable(store, r, top, p);
  }

  /** `ChainableStyle.apply(target)` for the component at p. */
  method ApplyChainable(store: StyleStore, r: ChainRef, top: Comp, p: Path)
    returns (fired: seq<Fired>)
    requires store.Valid() && r in store.objects && ValidPath(top, p)
    ensures fired == ChainLog(store.Snap(), r, top, p)
    decreases store.rank[r] - store.low, NodeAt(top, p), 4, 0
  {
    var o := store.objects[r];
    fired := [];
    if o.wrapped.Some? {
      fired := ApplyStyle(store, o.wrapped.value, store.rank[r], top, p);
    }
    var rest := ApplySheets(store, o.childSheets, store.rank[r], top, p);
    fired := fired + rest;
  }

  /** The `forEach` of `ChainableStyle.apply` over the child stylesheets. */
  method ApplySheets(store: StyleStore, sheets: seq<seq<Style>>, ghost b: int, top: Comp, p: Path)
    returns (fired: seq<Fired>)
    requires store.Valid() && store.low <= b && SheetsBelow(store.Snap(), sheets, b) && ValidPath(top, p)
    ensures fired == SheetsLog(store.Snap(), sheets, b, top, p)
    decreases b - store.low, NodeAt(top, p), 3, |sheets|
  {
    ghost var st := store.Snap();
    fired := [];
    for k := 0 to |sheets|
      invariant fired == SheetsLog(st, sheets[..k], b, top, p)
    {
      assert sheets[..k + 1][..k] == sheets[..k];
      var f := ApplySheet(store, sheets[k], b, top, p);
      fired := fired + f;
    }
    assert sheets[..|sheets|] == sheets;
  }

  /** A `Stylesheet`: its list of styles, in registration order. */
  class Stylesheet {
    var styles: seq<Style>

    constructor ()
      ensures styles == []
    {
      styles := [];
    }

    /** `register(style)`: appends the style. */
    method Register(style: Style)
      modifies this
      ensures styles == old(styles) + [style]
    {
      styles := styles + [style];
    }

    /** `register(selectorString, targetClass, apply)`: appends a style with that target
        class, the parsed selector, and the lambda as its action. */
    method RegisterSelector(selectorText: string, targetClass: JClass, action: ActionId)
      modifies this
      ensures styles == old(styles) + [Lambda(targetClass, Parse(selectorText), action)]
    {
      Register(Lambda(targetClass, Parse(selectorText), action));
    }

    /** `register(targetClass, apply)`: `register("*", targetClass, apply)`. */
    method RegisterClass(targetClass: JClass, action: ActionId)
      modifies this
      ensures styles == old(styles) + [Lambda(targetClass, Parse("*"), action)]
    {
      RegisterSelector("*", targetClass, action);
    }

    /** `apply(root)` for the root at p: the lambda calls it makes, which only depend on
        the store, the hierarchy and the styles, so a second call makes the same ones. */
    method Apply(store: StyleStore, top: Comp, p: Path) returns (fired: seq<Fired>)
      requires store.Valid() && AllKnown(store.objects, styles) && ValidPath(top, p)
      ensures fired == Log(store.Snap(), styles, top, p)
    {
      KnownBelowHigh(store.Snap(), styles);
      fired := ApplySheet(store, styles, store.high, top, p);
    }
  }
}
