/** An abstract stand-in for the `entt::registry` the systems of
    include/GravityGame.h and include/Systems.h work on: a list of live
    entities, one map per component type, a set for the `Grounded` tag and
    the `Gravity` context value. A view is the list of live entities that
    have (and lack) the requested components, in one fixed order. */
module Ecs {
  import opened Common
  import opened Components

  /** An entity id. */
  type Entity = nat

  predicate Distinct(s: seq<Entity>)
  {
    forall i, j :: 0 <= i < j < |s| ==> s[i] != s[j]
  }

  /** The entities of `order` that lie in `s`, in the order of `order`: the
      iteration order of a view. */
  function Select(order: seq<Entity>, s: set<Entity>): (r: seq<Entity>)
    ensures |r| <= |order|
    ensures forall e :: e in r <==> e in order && e in s
  {
    if order == [] then []
    else
      var n := |order| - 1;
      Select(order[..n], s) + (if order[n] in s then [order[n]] else [])
  }

  /** A view visits each entity at most once. */
  lemma {:induction false} SelectDistinct(order: seq<Entity>, s: set<Entity>)
    requires Distinct(order)
    ensures Distinct(Select(order, s))
  {
    if order != [] {
      var n := |order| - 1;
      assert Distinct(order[..n]);
      SelectDistinct(order[..n], s);
      assert order[n] !in order[..n];
    }
  }

  /** A view is a subsequence: two entities it visits are visited in the
      order of the registry. */
  lemma {:induction false} SelectOrdered(order: seq<Entity>, s: set<Entity>, i: nat, j: nat)
    requires Distinct(order)
    requires i < j < |Select(order, s)|
    ensures exists a, b ::
      0 <= a < b < |order| && order[a] == Select(order, s)[i] && order[b] == Select(order, s)[j]
  {
    var n := |order| - 1;
    var prev := Select(order[..n], s);
    if j < |prev| {
      SelectOrdered(order[..n], s, i, j);
      var a, b :| 0 <= a < b < n && order[..n][a] == prev[i] && order[..n][b] == prev[j];
      assert order[a] == Select(order, s)[i] && order[b] == Select(order, s)[j];
    } else {
      assert Select(order, s)[j] == order[n];
      assert prev[i] in order[..n];
      var a :| 0 <= a < n && order[..n][a] == prev[i];
      assert order[a] == Select(order, s)[i];
    }
  }

  /** Everything a registry holds, as one value. */
  datatype World = World(
    order: seq<Entity>,
    rects: map<Entity, Rect>,
    droppables: map<Entity, Droppable>,
    bodies: map<Entity, RigidBody>,
    collidables: map<Entity, Collidable>,
    grounded: set<Entity>,
    mouse: map<Entity, MouseInteractible>,
    texts: map<Entity, Text>,
    drawables: map<Entity, Drawable>,
    gravity: Option<Gravity>)

  /** Live entities are listed once, and only live entities carry
      components. */
  predicate WellFormed(w: World)
  {
    && Distinct(w.order)
    && (forall e :: e in w.rects ==> e in w.order)
    && (forall e :: e in w.droppables ==> e in w.order)
    && (forall e :: e in w.bodies ==> e in w.order)
    && (forall e :: e in w.collidables ==> e in w.order)
    && (forall e :: e in w.grounded ==> e in w.order)
    && (forall e :: e in w.mouse ==> e in w.order)
    && (forall e :: e in w.texts ==> e in w.order)
    && (forall e :: e in w.drawables ==> e in w.order)
  }

  /** A registry with no entity and no context value. */
  const EMPTY_WORLD: World := World([], map[], map[], map[], map[], {}, map[], map[], map[], None)

  class Registry {
    var world: World
    /** The next fresh id; ids are never reused here. */
    var next: Entity

    ghost predicate Valid()
      reads this
    {
      WellFormed(world) && forall i :: 0 <= i < |world.order| ==> world.order[i] < next
    }

    constructor()
      ensures Valid() && world == EMPTY_WORLD && next == 0
    {
      world := EMPTY_WORLD;
      next := 0;
    }

    /** `registry.create()`: a new entity without any component, placed last
        in the iteration order. */
    method Create() returns (e: Entity)
      requires Valid()
      modifies this
      ensures Valid()
      ensures e !in old(world.order)
      ensures world == old(world).(order := old(world.order) + [e])
    {
      e := next;
      world := world.(order := world.order + [e]);
      next := next + 1;
    }

    /** `registry.clear()`: every entity and component goes; the context
        (the gravity value) stays. */
    method Clear()
      requires Valid()
      modifies this
      ensures Valid()
      ensures world == EMPTY_WORLD.(gravity := old(world.gravity))
    {
      world := EMPTY_WORLD.(gravity := world.gravity);
    }
  }
}
