/** The `onMouse*` extensions. The unkeyed forms attach a new MouseAdapter each time. The
    keyed forms keep, per component, per event key (`"mouseEntered"`, …) and per caller-given
    id, the adapter they attached last: a new call with the same event key and id detaches
    that adapter before attaching and recording the new one. */
module MouseListeners {
  import opened Wrappers

  /** The identity of a component. */
  type ComponentId = nat

  /** The user's `(MouseEvent) -> Unit` lambda; its body is not modelled. */
  type Handler = nat

  /** The MouseAdapter method an adapter overrides. */
  datatype MouseKind = Entered | Exited | Pressed | Released | Clicked

  /** A MouseAdapter object: its identity, the one event it reacts to and the lambda it
      calls for that event. */
  datatype Adapter = Adapter(serial: nat, kind: MouseKind, handler: Handler)

  /** The event key a keyed `onMouse*` groups its listeners under. */
  function EventKey(kind: MouseKind): (r: string)
    ensures |r| > 6 && r[..5] == "mouse"
  {
    match kind
    case Entered => "mouseEntered"
    case Exited => "mouseExited"
    case Pressed => "mousePressed"
    case Released => "mouseReleased"
    case Clicked => "mouseClicked"
  }

  /** The five keyed functions use five different keys, so their maps are separate. */
  lemma EventKeysDistinct(k1: MouseKind, k2: MouseKind)
    ensures EventKey(k1) == EventKey(k2) <==> k1 == k2
  {
    if k1 != k2 {
      assert EventKey(k1)[5] != EventKey(k2)[5] || EventKey(k1)[6] != EventKey(k2)[6];
    }
  }

  /** The lambdas a mouse event of this kind runs on a component with these listeners, in
      attachment order: each adapter reacts only to the event it overrides. */
  function Dispatch(ls: seq<Adapter>, kind: MouseKind): (r: seq<Handler>)
    ensures |r| <= |ls|
    ensures forall h :: h in r <==> exists a :: a in ls && a.kind == kind && a.handler == h
  {
    if ls == [] then []
    else
      var last := ls[|ls| - 1];
      assert forall a :: a in ls <==> a in ls[..|ls| - 1] || a == last by {
        assert ls == ls[..|ls| - 1] + [last];
      }
      Dispatch(ls[..|ls| - 1], kind) + (if last.kind == kind then [last.handler] else [])
  }

  /** Attaching one more adapter adds its lambda at the end, for its own event only. */
  lemma DispatchAttach(ls: seq<Adapter>, a: Adapter, kind: MouseKind)
    ensures Dispatch(ls + [a], kind) == Dispatch(ls, kind) + (if a.kind == kind then [a.handler] else [])
  {
    assert (ls + [a])[..|ls|] == ls;
  }

  /** An adapter in front runs before the rest. */
  lemma {:induction false} DispatchCons(x: Adapter, ls: seq<Adapter>, kind: MouseKind)
    ensures Dispatch([x] + ls, kind) == (if x.kind == kind then [x.handler] else []) + Dispatch(ls, kind)
  {
    if ls == [] {
      assert ([x] + ls)[..0] == [];
    } else {
      var init := ls[..|ls| - 1];
      assert ([x] + ls)[..|ls|] == [x] + init;
      DispatchCons(x, init, kind);
    }
  }

  /** Detaching an adapter that reacts to another event leaves this event's lambdas as
      they were. */
  lemma {:induction false} DispatchDetachOther(ls: seq<Adapter>, b: Adapter, kind: MouseKind)
    requires b.kind != kind
    ensures Dispatch(Detach(ls, b), kind) == Dispatch(ls, kind)
  {
    if ls != [] {
      assert ls == [ls[0]] + ls[1..];
      DispatchDetachOther(ls[1..], b, kind);
      DispatchCons(ls[0], ls[1..], kind);
      if ls[0] != b {
        DispatchCons(ls[0], Detach(ls[1..], b), kind);
      }
    }
  }

  /** What a mouse event runs after a keyed call: the lambdas of the list without the
      adapter recorded before, then the new lambda when the event is the call's own; and
      an event the old adapter did not react to runs what it ran before, plus the new
      lambda when it is the call's own. */
  lemma KeyedDispatch<Id>(ls: seq<Adapter>, m: map<Id, Adapter>, id: Id, a: Adapter, kind: MouseKind)
    ensures Dispatch(DetachRecorded(ls, m, id) + [a], kind) ==
      Dispatch(DetachRecorded(ls, m, id), kind) + (if a.kind == kind then [a.handler] else [])
    ensures id !in m || m[id].kind != kind ==>
      Dispatch(DetachRecorded(ls, m, id) + [a], kind) == Dispatch(ls, kind) + (if a.kind == kind then [a.handler] else [])
  {
    DispatchAttach(DetachRecorded(ls, m, id), a, kind);
    if id in m && m[id].kind != kind {
      DispatchDetachOther(ls, m[id], kind);
    }
  }

  /** `removeMouseListener(a)`: the list without a. */
  function Detach(ls: seq<Adapter>, a: Adapter): (r: seq<Adapter>)
    ensures forall b :: b in r <==> b in ls && b != a
    ensures |r| <= |ls|
  {
    if ls == [] then []
    else
      var rest := Detach(ls[1..], a);
      assert forall b :: b in ls <==> b == ls[0] || b in ls[1..] by {
        assert ls == [ls[0]] + ls[1..];
      }
      if ls[0] == a then rest else [ls[0]] + rest
  }

  /** The keyed adapters recorded for component c under an event key (empty when none). */
  function Recorded<Id>(registry: map<ComponentId, map<string, map<Id, Adapter>>>, c: ComponentId, key: string): map<Id, Adapter> {
    if c in registry && key in registry[c] then registry[c][key] else map[]
  }

  /** The registry with the map for (c, key) set to m, creating c's entry if needed. */
  function Register<Id>(registry: map<ComponentId, map<string, map<Id, Adapter>>>, c: ComponentId, key: string, m: map<Id, Adapter>)
    : (r: map<ComponentId, map<string, map<Id, Adapter>>>)
    ensures forall x, k :: Recorded(r, x, k) == if x == c && k == key then m else Recorded(registry, x, k)
  {
    registry[c := (if c in registry then registry[c] else map[])[key := m]]
  }

  /** Setting the same entry twice keeps the second value. */
  lemma RegisterTwice<Id>(registry: map<ComponentId, map<string, map<Id, Adapter>>>, c: ComponentId, key: string, m: map<Id, Adapter>, m': map<Id, Adapter>)
    ensures Register(Register(registry, c, key, m), c, key, m') == Register(registry, c, key, m')
  {
    var r1 := Register(registry, c, key, m);
    assert r1[c][key := m'] == (if c in registry then registry[c] else map[])[key := m'];
  }

  /** a is the adapter the registry holds for the triple t, and t names component c. */
  predicate RecordedAt<Id>(registry: map<ComponentId, map<string, map<Id, Adapter>>>, c: ComponentId, t: (ComponentId, string, Id), a: Adapter) {
    t.0 == c && t.2 in Recorded(registry, c, t.1) && Recorded(registry, c, t.1)[t.2] == a
  }

  /** The registry and the listener lists agree: every serial in use is below `next`, and
      an attached adapter that a keyed call recorded (its origin: component, event key, id)
      is the one currently recorded for that triple. */
  ghost predicate RegistryOk<Id>(
    registry: map<ComponentId, map<string, map<Id, Adapter>>>,
    listeners: map<ComponentId, seq<Adapter>>,
    origin: map<nat, (ComponentId, string, Id)>,
    next: nat)
  {
    && (forall c, a :: c in listeners && a in listeners[c] ==> a.serial < next)
    && (forall s :: s in origin ==> s < next)
    && (forall c, a :: c in listeners && a in listeners[c] && a.serial in origin ==> RecordedAt(registry, c, origin[a.serial], a))
  }

  /** At most one adapter a keyed call recorded for a (component, event key, id) is
      attached to the component. */
  lemma AtMostOneKeyedListener<Id>(
    registry: map<ComponentId, map<string, map<Id, Adapter>>>,
    listeners: map<ComponentId, seq<Adapter>>,
    origin: map<nat, (ComponentId, string, Id)>,
    next: nat, c: ComponentId, a: Adapter, b: Adapter)
    requires RegistryOk(registry, listeners, origin, next)
    requires c in listeners && a in listeners[c] && b in listeners[c]
    requires a.serial in origin && b.serial in origin && origin[a.serial] == origin[b.serial]
    ensures a == b
  {
    assert RecordedAt(registry, c, origin[a.serial], a);
    assert RecordedAt(registry, c, origin[b.serial], b);
  }

  /** The listeners attached to component c in the map l. */
  function ListOf(l: map<ComponentId, seq<Adapter>>, c: ComponentId): seq<Adapter> {
    if c in l then l[c] else []
  }

  /** The listener list after a keyed call detached the adapter recorded under id, if any. */
  function DetachRecorded<Id>(ls: seq<Adapter>, m: map<Id, Adapter>, id: Id): (r: seq<Adapter>)
    ensures forall b :: b in r <==> b in ls && (id in m ==> b != m[id])
  {
    if id in m then Detach(ls, m[id]) else ls
  }

  /** The listener lists of the components and the registry of keyed adapters. */
  class MouseRegistry<Id(==)> {
    var registry: map<ComponentId, map<string, map<Id, Adapter>>>
    var listeners: map<ComponentId, seq<Adapter>>
    var next: nat
    ghost var origin: map<nat, (ComponentId, string, Id)>

    ghost predicate Valid()
      reads this
    {
      RegistryOk(registry, listeners, origin, next)
    }

    constructor()
      ensures Valid() && registry == map[] && listeners == map[]
    {
      registry := map[];
      listeners := map[];
      next := 0;
      origin := map[];
    }

    /** `addMouseListener(a)` on component c. */
    method AddMouseListener(c: ComponentId, a: Adapter)
      modifies this
      ensures listeners == old(listeners)[c := ListOf(old(listeners), c) + [a]]
      ensures registry == old(registry) && next == old(next) && origin == old(origin)
    {
      listeners := listeners[c := ListOf(listeners, c) + [a]];
    }

    /** `removeMouseListener(a)` on component c. */
    method RemoveMouseListener(c: ComponentId, a: Adapter)
      modifies this
      ensures listeners == old(listeners)[c := Detach(ListOf(old(listeners), c), a)]
      ensures registry == old(registry) && next == old(next) && origin == old(origin)
    {
      listeners := listeners[c := Detach(ListOf(listeners, c), a)];
    }

    /** `getMouseListenerMapFor(eventKey)` on component c: the map for that key, created
        empty (together with c's map of keys) when absent. */
    method GetMouseListenerMapFor(c: ComponentId, key: string) returns (m: map<Id, Adapter>)
      modifies this
      ensures m == Recorded(old(registry), c, key) && registry == Register(old(registry), c, key, m)
      ensures c in old(registry) && key in old(registry)[c] ==> registry == old(registry)
      ensures listeners == old(listeners) && next == old(next) && origin == old(origin)
    {
      var forComponent := if c in registry then registry[c] else map[];
      if key !in forComponent {
        forComponent := forComponent[key := map[]];
      }
      m := forComponent[key];
      assert forComponent == (if c in registry then registry[c] else map[])[key := m];
      assert c in registry && key in registry[c] ==> registry[c := forComponent] == registry;
      registry := registry[c := forComponent];
    }

    /** The unkeyed `onMouseEntered(action)` and its four siblings: a new adapter is
        attached; nothing is detached and the registry is not touched. */
    method OnMouse(c: ComponentId, kind: MouseKind, handler: Handler) returns (a: Adapter)
      requires Valid()
      modifies this
      ensures Valid()
      ensures a.kind == kind && a.handler == handler && a.serial == old(next)
      ensures forall x :: x in old(listeners) ==> a !in old(listeners)[x]
      ensures listeners == old(listeners)[c := ListOf(old(listeners), c) + [a]]
      ensures registry == old(registry) && origin == old(origin)
    {
      a := Adapter(next, kind, handler);
      next := next + 1;
      AddMouseListener(c, a);
    }

    /** The keyed `onMouseEntered(id, action)` and its four siblings: the adapter recorded
        for (c, event key, id), if any, is detached; a new adapter is recorded there and
        attached. */
    method OnMouseKeyed(c: ComponentId, kind: MouseKind, id: Id, handler: Handler) returns (a: Adapter)
      requires Valid()
      modifies this
      ensures Valid()
      ensures a.kind == kind && a.handler == handler && a.serial == old(next)
      ensures forall x :: x in old(listeners) ==> a !in old(listeners)[x]
      ensures registry == Register(old(registry), c, EventKey(kind), Recorded(old(registry), c, EventKey(kind))[id := a])
      ensures listeners == old(listeners)[c := DetachRecorded(ListOf(old(listeners), c), Recorded(old(registry), c, EventKey(kind)), id) + [a]]
      ensures origin == old(origin)[a.serial := (c, EventKey(kind), id)]
      ensures Dispatch(listeners[c], kind) ==
        Dispatch(DetachRecorded(ListOf(old(listeners), c), Recorded(old(registry), c, EventKey(kind)), id), kind) + [handler]
    {
      ghost var r0, l0, o0, n0 := registry, listeners, origin, next;
      var key := EventKey(kind);
      var m := GetMouseListenerMapFor(c, key);
      if id in m {
        RemoveMouseListener(c, m[id]);
      }
      ghost var l1 := listeners;
      a := Adapter(next, kind, handler);
      next := next + 1;
      registry := Register(registry, c, key, m[id := a]);
      origin := origin[a.serial := (c, key, id)];
      AddMouseListener(c, a);
      KeyedStep(r0, l0, o0, n0, c, key, id, a, m, l1, listeners);
      KeyedDispatch(ListOf(l0, c), m, id, a, kind);
    }
  }

  /** The effect of the steps of a keyed call taken together: the registry, the listener
      lists and the origins end consistent, and the new adapter was attached nowhere
      before. */
  lemma KeyedStep<Id>(
    r0: map<ComponentId, map<string, map<Id, Adapter>>>,
    l0: map<ComponentId, seq<Adapter>>,
    o0: map<nat, (ComponentId, string, Id)>,
    n0: nat, c: ComponentId, key: string, id: Id, a: Adapter, m: map<Id, Adapter>,
    l1: map<ComponentId, seq<Adapter>>, l2: map<ComponentId, seq<Adapter>>)
    requires RegistryOk(r0, l0, o0, n0) && a.serial == n0 && m == Recorded(r0, c, key)
    requires l1 == if id in m then l0[c := Detach(ListOf(l0, c), m[id])] else l0
    requires l2 == l1[c := ListOf(l1, c) + [a]]
    ensures l2 == l0[c := DetachRecorded(ListOf(l0, c), m, id) + [a]]
    ensures Register(Register(r0, c, key, m), c, key, m[id := a]) == Register(r0, c, key, m[id := a])
    ensures RegistryOk(Register(r0, c, key, m[id := a]), l2, o0[a.serial := (c, key, id)], n0 + 1)
    ensures forall x :: x in l0 ==> a !in l0[x]
  {
    assert ListOf(l1, c) == DetachRecorded(ListOf(l0, c), m, id);
    RegisterTwice(r0, c, key, m, m[id := a]);
    KeyedPreserves(r0, l0, o0, n0, c, key, id, a, l2, o0[a.serial := (c, key, id)]);
  }

  /** Creating empty maps for (c, key) keeps the registry consistent. */
  lemma RegisterGrows<Id>(
    registry: map<ComponentId, map<string, map<Id, Adapter>>>, c: ComponentId, key: string,
    listeners: map<ComponentId, seq<Adapter>>, origin: map<nat, (ComponentId, string, Id)>, next: nat)
    requires RegistryOk(registry, listeners, origin, next)
    ensures RegistryOk(Register(registry, c, key, Recorded(registry, c, key)), listeners, origin, next)
  {
    var r := Register(registry, c, key, Recorded(registry, c, key));
    forall x, k | true
      ensures Recorded(r, x, k) == Recorded(registry, x, k)
    {
    }
  }

  /** The registry after a keyed call is consistent again: the old adapter for the triple
      is gone from c's list, and the new one is the one recorded. */
  lemma KeyedPreserves<Id>(
    registry: map<ComponentId, map<string, map<Id, Adapter>>>,
    listeners: map<ComponentId, seq<Adapter>>,
    origin: map<nat, (ComponentId, string, Id)>,
    next: nat, c: ComponentId, key: string, id: Id, a: Adapter,
    listeners': map<ComponentId, seq<Adapter>>,
    origin': map<nat, (ComponentId, string, Id)>)
    requires RegistryOk(registry, listeners, origin, next) && a.serial == next
    requires origin' == origin[a.serial := (c, key, id)]
    requires listeners' == listeners[c := DetachRecorded(ListOf(listeners, c), Recorded(registry, c, key), id) + [a]]
    ensures RegistryOk(Register(registry, c, key, Recorded(registry, c, key)[id := a]), listeners', origin', next + 1)
  {
    var r' := Register(registry, c, key, Recorded(registry, c, key)[id := a]);
    forall x, b | x in listeners' && b in listeners'[x] && b.serial in origin'
      ensures RecordedAt(r', x, origin'[b.serial], b)
    {
      if b != a {
        assert x in listeners && b in listeners[x];
        var t := origin[b.serial];
        assert RecordedAt(registry, x, t, b);
        assert x == c && t.1 == key ==> t.2 != id;
      }
    }
  }
}
