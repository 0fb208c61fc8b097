/** The game of include/GravityGame.h: the physics and collision systems,
    the input handler, the scene built by `Init` and the system loop of
    `Update`, over the abstract registry of module `Ecs`. */
module GravityGame {
  import opened Common
  import opened Components
  import opened Ecs
  import opened Systems

  /* ---------------------------------------------------------------------
     Editing the velocities of many bodies
     --------------------------------------------------------------------- */

  /** The two velocity edits the game applies to a whole view of bodies. */
  datatype BodyEdit = AddVy(dv: real) | SetVx(vx: real)

  function Edited(b: RigidBody, ed: BodyEdit): RigidBody
  {
    match ed
    case AddVy(dv) => b.(velocity := b.velocity.(y := b.velocity.y + dv))
    case SetVx(vx) => b.(velocity := b.velocity.(x := vx))
  }

  /** The bodies after a loop over `es` has applied `ed` to each, in turn. */
  function EditEach(m: map<Entity, RigidBody>, es: seq<Entity>, ed: BodyEdit): (r: map<Entity, RigidBody>)
    ensures r.Keys == m.Keys
  {
    if es == [] then m
    else
      var n := |es| - 1;
      var p := EditEach(m, es[..n], ed);
      if es[n] in p then p[es[n] := Edited(p[es[n]], ed)] else p
  }

  /** The bodies after `ed` has been applied once to each body in `s`. */
  function EditWhere(m: map<Entity, RigidBody>, s: set<Entity>, ed: BodyEdit): map<Entity, RigidBody>
  {
    map e | e in m :: if e in s then Edited(m[e], ed) else m[e]
  }

  /** A loop over a list without repetitions edits each listed body exactly
      once and leaves the others alone. */
  lemma {:induction false} EditEachPointwise(m: map<Entity, RigidBody>, es: seq<Entity>, ed: BodyEdit)
    requires Distinct(es)
    ensures forall e :: e in m ==> EditEach(m, es, ed)[e] == if e in es then Edited(m[e], ed) else m[e]
  {
    if es != [] {
      var n := |es| - 1;
      assert Distinct(es[..n]);
      EditEachPointwise(m, es[..n], ed);
      assert es[n] !in es[..n];
      assert forall e :: e in es <==> e in es[..n] || e == es[n];
    }
  }

  /** A loop over the view of `s` is the same as editing every body of `s`. */
  lemma EditView(w: World, s: set<Entity>, ed: BodyEdit)
    requires WellFormed(w)
    ensures EditEach(w.bodies, Select(w.order, s), ed) == EditWhere(w.bodies, s, ed)
  {
    SelectDistinct(w.order, s);
    EditEachPointwise(w.bodies, Select(w.order, s), ed);
  }

  /* ---------------------------------------------------------------------
     PhysicsSystem
     --------------------------------------------------------------------- */

  /** The view of `PhysicsSystem`: bodies with a rectangle and no `Grounded`. */
  function Falling(w: World): set<Entity>
  {
    (w.bodies.Keys * w.rects.Keys) - w.grounded
  }

  /** The change of vertical velocity in one tick of `dt` seconds. */
  function Impulse(g: Gravity, dt: real): real
  {
    g.value * dt
  }

  /** The registry after one `PhysicsSystem` tick: every falling body gains
      `gravity * dt` of downward velocity. */
  function Gravitated(w: World, dt: real): World
    requires w.gravity.Some?
  {
    w.(bodies := EditWhere(w.bodies, Falling(w), AddVy(Impulse(w.gravity.value, dt))))
  }

  /** Exactly the falling bodies speed up, by `g * dt` and only vertically;
      every other component and entity stays as it was. */
  lemma GravitatedEffect(w: World, dt: real)
    requires w.gravity.Some?
    ensures Gravitated(w, dt) == w.(bodies := Gravitated(w, dt).bodies)
    ensures Gravitated(w, dt).bodies.Keys == w.bodies.Keys
    ensures forall e :: e in w.bodies ==>
      var b, b' := w.bodies[e], Gravitated(w, dt).bodies[e];
      && b'.velocity.x == b.velocity.x
      && b' == b.(velocity := b'.velocity)
      && (e in w.rects && e !in w.grounded ==> b'.velocity.y == b.velocity.y + w.gravity.value.value * dt)
      && (e !in w.rects || e in w.grounded ==> b' == b)
  {
  }

  lemma GravitatedWellFormed(w: World, dt: real)
    requires WellFormed(w) && w.gravity.Some?
    ensures WellFormed(Gravitated(w, dt))
  {
    assert Gravitated(w, dt).bodies.Keys == w.bodies.Keys;
  }

  /** The `each` loop of `PhysicsSystem::OnUpdate` over `view`. */
  method Accelerate(reg: Registry, view: seq<Entity>, gravity: Gravity, deltaTime: real)
    requires forall i :: 0 <= i < |view| ==> view[i] in reg.world.bodies
    modifies reg
    ensures reg.next == old(reg.next)
    ensures reg.world == old(reg.world).(bodies := EditEach(old(reg.world).bodies, view, AddVy(Impulse(gravity, deltaTime))))
  {
    ghost var w0 := reg.world;
    var i := 0;
    while i < |view|
      invariant 0 <= i <= |view|
      invariant reg.next == old(reg.next)
      invariant reg.world == w0.(bodies := EditEach(w0.bodies, view[..i], AddVy(Impulse(gravity, deltaTime))))
    {
      var e := view[i];
      TakeSnoc(view, i);
      var body := reg.world.bodies[e];
      ghost var before := body;
      body := body.(velocity := body.velocity.(y := body.velocity.y + gravity.value * deltaTime));
      assert body == Edited(before, AddVy(Impulse(gravity, deltaTime)));
      reg.world := reg.world.(bodies := reg.world.bodies[e := body]);
      i := i + 1;
    }
    assert view[..i] == view;
  }

  /** `PhysicsSystem::OnUpdate`. It needs the `Gravity` context value and
      always reports an update. */
  method PhysicsOnUpdate(reg: Registry, deltaTime: real) returns (updated: bool)
    requires reg.Valid() && reg.world.gravity.Some?
    modifies reg
    ensures reg.Valid() && reg.next == old(reg.next)
    ensures reg.world == Gravitated(old(reg.world), deltaTime)
    ensures updated
  {
    ghost var w0 := reg.world;
    var gravity := reg.world.gravity.value;
    var view := Select(reg.world.order, Falling(reg.world));
    assert forall i :: 0 <= i < |view| ==> view[i] in Falling(w0);
    Accelerate(reg, view, gravity, deltaTime);
    EditView(w0, Falling(w0), AddVy(Impulse(gravity, deltaTime)));
    GravitatedWellFormed(w0, deltaTime);
    updated := true;
  }

  /* ---------------------------------------------------------------------
     CollisionSystem
     --------------------------------------------------------------------- */

  /** The outer view of `CollisionSystem`: droppable bodies that collide. */
  function Droppers(w: World): seq<Entity>
  {
    Select(w.order, w.droppables.Keys * w.rects.Keys * w.bodies.Keys * w.collidables.Keys)
  }

  /** The inner view: colliding bodies that are not droppable. */
  function Obstacles(w: World): seq<Entity>
  {
    Select(w.order, (w.collidables.Keys * w.rects.Keys * w.bodies.Keys) - w.droppables.Keys)
  }

  predicate ObstaclesReady(w: World, cs: seq<Entity>)
  {
    forall i :: 0 <= i < |cs| ==> cs[i] in w.rects && cs[i] in w.bodies && cs[i] in w.collidables
  }

  /** The last of `cs` whose rectangle overlaps `r`: the obstacle whose
      horizontal velocity a droppable ends up with. */
  function LastHit(rects: map<Entity, Rect>, r: Rect, cs: seq<Entity>, overlaps: (Rect, Rect) -> bool): (h: Option<Entity>)
    requires forall i :: 0 <= i < |cs| ==> cs[i] in rects
    ensures h.Some? ==> h.value in cs && overlaps(r, rects[h.value])
    ensures h.None? ==> forall i :: 0 <= i < |cs| ==> !overlaps(r, rects[cs[i]])
  {
    if cs == [] then None
    else
      var n := |cs| - 1;
      if overlaps(r, rects[cs[n]]) then Some(cs[n]) else LastHit(rects, r, cs[..n], overlaps)
  }

  /** No obstacle after the one `LastHit` names overlaps `r`. */
  lemma {:induction false} LastHitIsLast(rects: map<Entity, Rect>, r: Rect, cs: seq<Entity>, overlaps: (Rect, Rect) -> bool)
    requires forall i :: 0 <= i < |cs| ==> cs[i] in rects
    requires LastHit(rects, r, cs, overlaps).Some?
    ensures exists i ::
      0 <= i < |cs| && cs[i] == LastHit(rects, r, cs, overlaps).value &&
      forall j :: i < j < |cs| ==> !overlaps(r, rects[cs[j]])
  {
    var n := |cs| - 1;
    var front := cs[..n];
    if !overlaps(r, rects[cs[n]]) {
      assert LastHit(rects, r, cs, overlaps) == LastHit(rects, r, front, overlaps);
      LastHitIsLast(rects, r, front, overlaps);
      var i :| 0 <= i < n && front[i] == LastHit(rects, r, front, overlaps).value &&
        forall j :: i < j < n ==> !overlaps(r, rects[front[j]]);
      forall j | i < j < |cs|
        ensures !overlaps(r, rects[cs[j]])
      {
        if j < n {
          assert front[j] == cs[j];
        }
      }
      assert front[i] == cs[i];
    } else {
      assert cs[n] == LastHit(rects, r, cs, overlaps).value;
    }
  }

  /** Some droppable of `ds` overlaps obstacle `c`. */
  predicate HitByAny(rects: map<Entity, Rect>, ds: seq<Entity>, c: Entity, overlaps: (Rect, Rect) -> bool)
    requires forall i :: 0 <= i < |ds| ==> ds[i] in rects
    requires c in rects
  {
    exists i :: 0 <= i < |ds| && overlaps(rects[ds[i]], rects[c])
  }

  lemma HitByAnySnoc(rects: map<Entity, Rect>, ds: seq<Entity>, d: Entity, c: Entity, overlaps: (Rect, Rect) -> bool)
    requires forall i :: 0 <= i < |ds| ==> ds[i] in rects
    requires d in rects && c in rects
    ensures forall i :: 0 <= i < |ds + [d]| ==> (ds + [d])[i] in rects
    ensures HitByAny(rects, ds + [d], c, overlaps) <==> HitByAny(rects, ds, c, overlaps) || overlaps(rects[d], rects[c])
  {
    if HitByAny(rects, ds + [d], c, overlaps) && !overlaps(rects[d], rects[c]) {
      var i :| 0 <= i < |ds + [d]| && overlaps(rects[(ds + [d])[i]], rects[c]);
      assert i < |ds| && (ds + [d])[i] == ds[i];
    }
    if HitByAny(rects, ds, c, overlaps) {
      var i :| 0 <= i < |ds| && overlaps(rects[ds[i]], rects[c]);
      assert (ds + [d])[i] == ds[i];
    }
    assert (ds + [d])[|ds|] == d;
  }

  /** A droppable that lands on an obstacle stops falling and moves along
      with it: vertical velocity first set to 0, then horizontal velocity
      copied. */
  function Landed(b: RigidBody, vx: real): RigidBody
  {
    b.(velocity := Vec2(vx, 0.0))
  }

  /** The colliding flags after droppable `d` has been checked against
      each of `cs`: every obstacle it overlaps is marked. */
  function Flagged(w: World, d: Entity, cs: seq<Entity>, overlaps: (Rect, Rect) -> bool): (r: map<Entity, Collidable>)
    requires d in w.rects && ObstaclesReady(w, cs)
    ensures r.Keys == w.collidables.Keys
  {
    map e | e in w.collidables ::
      if e in cs && overlaps(w.rects[d], w.rects[e]) then w.collidables[e].(isColliding := true) else w.collidables[e]
  }

  /** The body of droppable `d` after it has been checked against each of
      `cs`: it has landed on the last obstacle it overlaps, if any. */
  function Landing(w: World, d: Entity, cs: seq<Entity>, overlaps: (Rect, Rect) -> bool): RigidBody
    requires d in w.rects && d in w.bodies && ObstaclesReady(w, cs)
  {
    match LastHit(w.rects, w.rects[d], cs, overlaps)
    case None => w.bodies[d]
    case Some(c) => Landed(w.bodies[d], w.bodies[c].velocity.x)
  }

  /** The registry after the inner loop has checked droppable `d` against
      each of `cs`. */
  function InnerResult(w: World, d: Entity, cs: seq<Entity>, overlaps: (Rect, Rect) -> bool): World
    requires d in w.rects && d in w.bodies && ObstaclesReady(w, cs)
  {
    w.(collidables := Flagged(w, d, cs, overlaps), bodies := w.bodies[d := Landing(w, d, cs, overlaps)])
  }

  lemma ObstaclesPrefix(w: World, cs: seq<Entity>, c: Entity)
    requires ObstaclesReady(w, cs + [c])
    ensures ObstaclesReady(w, cs) && c in w.rects && c in w.bodies && c in w.collidables
  {
    assert forall i :: 0 <= i < |cs| ==> cs[i] == (cs + [c])[i];
    assert (cs + [c])[|cs|] == c;
  }

  lemma FlaggedNone(w: World, d: Entity, overlaps: (Rect, Rect) -> bool)
    requires d in w.rects
    ensures Flagged(w, d, [], overlaps) == w.collidables
  {
  }

  /** One more obstacle: it is marked colliding exactly when it overlaps `d`. */
  lemma FlaggedStep(w: World, d: Entity, cs: seq<Entity>, c: Entity, overlaps: (Rect, Rect) -> bool)
    requires d in w.rects && ObstaclesReady(w, cs + [c])
    ensures ObstaclesReady(w, cs) && c in w.collidables && c in w.rects
    ensures var p := Flagged(w, d, cs, overlaps);
      Flagged(w, d, cs + [c], overlaps) ==
        if overlaps(w.rects[d], w.rects[c]) then p[c := p[c].(isColliding := true)] else p
  {
    ObstaclesPrefix(w, cs, c);
    assert forall e :: e in cs + [c] <==> e in cs || e == c;
  }

  /** One more obstacle: if it overlaps `d`, `d` lands on it. */
  lemma LandingStep(w: World, d: Entity, cs: seq<Entity>, c: Entity, overlaps: (Rect, Rect) -> bool)
    requires d in w.rects && d in w.bodies && ObstaclesReady(w, cs + [c])
    ensures ObstaclesReady(w, cs) && c in w.bodies && c in w.rects
    ensures Landing(w, d, cs + [c], overlaps) ==
      if overlaps(w.rects[d], w.rects[c]) then Landed(Landing(w, d, cs, overlaps), w.bodies[c].velocity.x)
      else Landing(w, d, cs, overlaps)
  {
    ObstaclesPrefix(w, cs, c);
    assert (cs + [c])[..|cs|] == cs;
  }

  /** The `Grounded` update after the inner loop: `d` is grounded exactly
      when its own `Collidable` says it collides. */
  function Grounding(w: World, d: Entity): World
    requires d in w.collidables
  {
    w.(grounded := if w.collidables[d].isColliding then w.grounded + {d} else w.grounded - {d})
  }

  predicate DroppersReady(w: World, ds: seq<Entity>)
  {
    forall i :: 0 <= i < |ds| ==> ds[i] in w.rects && ds[i] in w.bodies && ds[i] in w.collidables
  }

  /** The colliding flags after the outer loop has visited `ds`: an obstacle
      is marked once any of them overlaps it. */
  function HitFlags(w: World, ds: seq<Entity>, cs: seq<Entity>, overlaps: (Rect, Rect) -> bool): (r: map<Entity, Collidable>)
    requires DroppersReady(w, ds) && ObstaclesReady(w, cs)
    ensures r.Keys == w.collidables.Keys
  {
    map e | e in w.collidables ::
      if e in cs && HitByAny(w.rects, ds, e, overlaps) then w.collidables[e].(isColliding := true) else w.collidables[e]
  }

  /** The bodies after the outer loop has visited `ds`: each of them has
      landed on the last obstacle it overlaps, if any. */
  function LandedBodies(w: World, ds: seq<Entity>, cs: seq<Entity>, overlaps: (Rect, Rect) -> bool): (r: map<Entity, RigidBody>)
    requires DroppersReady(w, ds) && ObstaclesReady(w, cs)
    ensures r.Keys == w.bodies.Keys
  {
    map e | e in w.bodies :: if e in ds then Landing(w, e, cs, overlaps) else w.bodies[e]
  }

  /** `Grounded` after the outer loop has visited `ds`: each of them is
      grounded exactly when its own flag is set. */
  function GroundedAfter(w: World, ds: seq<Entity>): set<Entity>
    requires DroppersReady(w, ds)
  {
    (w.grounded - (set d | d in ds)) + (set d | d in ds && w.collidables[d].isColliding)
  }

  /** The registry after the outer loop has visited the droppables `ds`. */
  function Collided(w: World, ds: seq<Entity>, cs: seq<Entity>, overlaps: (Rect, Rect) -> bool): World
    requires DroppersReady(w, ds) && ObstaclesReady(w, cs)
  {
    w.(collidables := HitFlags(w, ds, cs, overlaps),
       bodies := LandedBodies(w, ds, cs, overlaps),
       grounded := GroundedAfter(w, ds))
  }

  lemma DroppersPrefix(w: World, ds: seq<Entity>, d: Entity)
    requires DroppersReady(w, ds + [d])
    ensures DroppersReady(w, ds) && d in w.rects && d in w.bodies && d in w.collidables
  {
    assert forall i :: 0 <= i < |ds| ==> ds[i] == (ds + [d])[i];
    assert (ds + [d])[|ds|] == d;
  }

  lemma CollidedNone(w: World, cs: seq<Entity>, overlaps: (Rect, Rect) -> bool)
    requires ObstaclesReady(w, cs)
    ensures Collided(w, [], cs, overlaps) == w
  {
    assert HitFlags(w, [], cs, overlaps) == w.collidables;
    assert LandedBodies(w, [], cs, overlaps) == w.bodies;
  }

  /** Landing reads only rectangles and the bodies of `d` and the obstacles. */
  lemma LandingFrame(w: World, q: World, d: Entity, cs: seq<Entity>, overlaps: (Rect, Rect) -> bool)
    requires d in w.rects && d in w.bodies && ObstaclesReady(w, cs)
    requires q.rects == w.rects && d in q.bodies && q.bodies[d] == w.bodies[d] && ObstaclesReady(q, cs)
    requires forall i :: 0 <= i < |cs| ==> q.bodies[cs[i]] == w.bodies[cs[i]]
    ensures Landing(q, d, cs, overlaps) == Landing(w, d, cs, overlaps)
  {
  }

  lemma HitFlagsStep(w: World, ds: seq<Entity>, d: Entity, cs: seq<Entity>, overlaps: (Rect, Rect) -> bool)
    requires DroppersReady(w, ds + [d]) && ObstaclesReady(w, cs)
    ensures DroppersReady(w, ds) && d in w.rects
    ensures HitFlags(w, ds + [d], cs, overlaps) == Flagged(Collided(w, ds, cs, overlaps), d, cs, overlaps)
  {
    DroppersPrefix(w, ds, d);
    forall e | e in cs
      ensures e in w.rects && (HitByAny(w.rects, ds + [d], e, overlaps) <==> HitByAny(w.rects, ds, e, overlaps) || overlaps(w.rects[d], w.rects[e]))
    {
      HitByAnySnoc(w.rects, ds, d, e, overlaps);
    }
  }

  lemma LandedBodiesStep(w: World, ds: seq<Entity>, d: Entity, cs: seq<Entity>, overlaps: (Rect, Rect) -> bool)
    requires DroppersReady(w, ds + [d]) && ObstaclesReady(w, cs)
    requires d !in ds && forall i :: 0 <= i < |cs| ==> cs[i] !in ds
    ensures DroppersReady(w, ds) && d in w.rects && d in w.bodies
    ensures var q := Collided(w, ds, cs, overlaps);
      LandedBodies(w, ds + [d], cs, overlaps) == q.bodies[d := Landing(q, d, cs, overlaps)]
  {
    DroppersPrefix(w, ds, d);
    var q := Collided(w, ds, cs, overlaps);
    var before := LandedBodies(w, ds, cs, overlaps);
    assert q.bodies == before && q.rects == w.rects;
    assert forall i :: 0 <= i < |cs| ==> before[cs[i]] == w.bodies[cs[i]];
    LandingFrame(w, q, d, cs, overlaps);
    var after := LandedBodies(w, ds + [d], cs, overlaps);
    forall e | e in w.bodies
      ensures after[e] == before[d := Landing(w, d, cs, overlaps)][e]
    {
      assert e in ds + [d] <==> e in ds || e == d;
    }
  }

  lemma GroundedAfterStep(w: World, ds: seq<Entity>, d: Entity)
    requires DroppersReady(w, ds + [d])
    ensures DroppersReady(w, ds) && d in w.collidables
    ensures GroundedAfter(w, ds + [d]) ==
      if w.collidables[d].isColliding then GroundedAfter(w, ds) + {d} else GroundedAfter(w, ds) - {d}
  {
    DroppersPrefix(w, ds, d);
    assert forall e :: e in ds + [d] <==> e in ds || e == d;
  }

  lemma ObstaclesTake(w: World, cs: seq<Entity>, j: nat)
    requires ObstaclesReady(w, cs) && j <= |cs|
    ensures ObstaclesReady(w, cs[..j])
  {
    assert forall i :: 0 <= i < j ==> cs[..j][i] == cs[i];
  }

  lemma DroppersTake(w: World, ds: seq<Entity>, j: nat)
    requires DroppersReady(w, ds) && j <= |ds|
    ensures DroppersReady(w, ds[..j])
  {
    assert forall i :: 0 <= i < j ==> ds[..j][i] == ds[i];
  }

  /** The body of the inner loop: if droppable `d` overlaps obstacle `c`,
      the obstacle is marked colliding and `d` lands on it. */
  method CheckObstacle(reg: Registry, d: Entity, c: Entity, overlaps: (Rect, Rect) -> bool)
    requires d in reg.world.rects && d in reg.world.bodies && d != c
    requires c in reg.world.rects && c in reg.world.bodies && c in reg.world.collidables
    modifies reg
    ensures reg.next == old(reg.next)
    ensures var w := old(reg.world);
      reg.world ==
        if overlaps(w.rects[d], w.rects[c]) then
          w.(collidables := w.collidables[c := w.collidables[c].(isColliding := true)],
             bodies := w.bodies[d := Landed(w.bodies[d], w.bodies[c].velocity.x)])
        else w
  {
    if overlaps(reg.world.rects[d], reg.world.rects[c]) {
      var collidable := reg.world.collidables[c];
      collidable := collidable.(isColliding := true);
      reg.world := reg.world.(collidables := reg.world.collidables[c := collidable]);
      var body := reg.world.bodies[d];
      body := body.(velocity := body.velocity.(y := 0.0));
      body := body.(velocity := body.velocity.(x := reg.world.bodies[c].velocity.x));
      reg.world := reg.world.(bodies := reg.world.bodies[d := body]);
    }
  }

  lemma LandedTwice(b: RigidBody, u: real, v: real)
    ensures Landed(Landed(b, u), v) == Landed(b, v)
  {
  }

  /** One more obstacle, on the whole registry: exactly what the loop body
      does to the state the previous obstacles left. */
  lemma InnerStep(w: World, d: Entity, cs: seq<Entity>, c: Entity, overlaps: (Rect, Rect) -> bool)
    requires d in w.rects && d in w.bodies && ObstaclesReady(w, cs + [c]) && d != c
    ensures ObstaclesReady(w, cs)
    ensures var p := InnerResult(w, d, cs, overlaps);
      && c in p.rects && c in p.bodies && c in p.collidables
      && InnerResult(w, d, cs + [c], overlaps) ==
        if overlaps(p.rects[d], p.rects[c]) then
          p.(collidables := p.collidables[c := p.collidables[c].(isColliding := true)],
             bodies := p.bodies[d := Landed(p.bodies[d], p.bodies[c].velocity.x)])
        else p
  {
    FlaggedStep(w, d, cs, c, overlaps);
    LandingStep(w, d, cs, c, overlaps);
    var p := InnerResult(w, d, cs, overlaps);
    var L := Landing(w, d, cs, overlaps);
    if overlaps(p.rects[d], p.rects[c]) {
      LandedTwice(w.bodies[d], w.bodies[c].velocity.x, w.bodies[c].velocity.x);
      assert p.bodies[d := Landed(p.bodies[d], p.bodies[c].velocity.x)] == w.bodies[d := Landed(L, w.bodies[c].velocity.x)];
    }
  }

  /** The inner `each` loop of `CollisionSystem::OnUpdate` for droppable `d`. */
  method CollideOne(reg: Registry, d: Entity, cs: seq<Entity>, overlaps: (Rect, Rect) -> bool)
    requires d in reg.world.rects && d in reg.world.bodies && ObstaclesReady(reg.world, cs) && d !in cs
    modifies reg
    ensures reg.next == old(reg.next)
    ensures reg.world == InnerResult(old(reg.world), d, cs, overlaps)
  {
    ghost var w := reg.world;
    FlaggedNone(w, d, overlaps);
    assert w.bodies[d := Landing(w, d, [], overlaps)] == w.bodies;
    var j := 0;
    while j < |cs|
      invariant 0 <= j <= |cs|
      invariant reg.next == old(reg.next)
      invariant ObstaclesReady(w, cs[..j])
      invariant reg.world == InnerResult(w, d, cs[..j], overlaps)
    {
      var c := cs[j];
      TakeSnoc(cs, j);
      ObstaclesTake(w, cs, j + 1);
      InnerStep(w, d, cs[..j], c, overlaps);
      CheckObstacle(reg, d, c, overlaps);
      j := j + 1;
    }
    assert cs[..j] == cs;
  }

  /** What the two loops of `CollisionSystem::OnUpdate` need: each droppable
      is visited once, has every component read and is no obstacle. */
  predicate CollisionReady(w: World, ds: seq<Entity>, cs: seq<Entity>)
  {
    && Distinct(ds)
    && DroppersReady(w, ds)
    && ObstaclesReady(w, cs)
    && forall i :: 0 <= i < |ds| ==> ds[i] !in cs
  }

  lemma ReadyTake(w: World, ds: seq<Entity>, cs: seq<Entity>, j: nat)
    requires CollisionReady(w, ds, cs) && j <= |ds|
    ensures CollisionReady(w, ds[..j], cs)
  {
    DroppersTake(w, ds, j);
    assert forall i :: 0 <= i < j ==> ds[..j][i] == ds[i];
  }

  /** One more droppable: exactly the inner loop and the `Grounded` update
      applied to the state the previous droppables left. */
  lemma CollidedStep(w: World, ds: seq<Entity>, d: Entity, cs: seq<Entity>, overlaps: (Rect, Rect) -> bool)
    requires CollisionReady(w, ds + [d], cs)
    ensures DroppersReady(w, ds) && d in w.rects && d in w.bodies && d in w.collidables && d !in cs
    ensures var q := Collided(w, ds, cs, overlaps);
      && d in q.rects && d in q.bodies && ObstaclesReady(q, cs)
      && d in InnerResult(q, d, cs, overlaps).collidables
      && Collided(w, ds + [d], cs, overlaps) == Grounding(InnerResult(q, d, cs, overlaps), d)
  {
    DroppersPrefix(w, ds, d);
    assert (ds + [d])[|ds|] == d;
    assert forall i :: 0 <= i < |ds| ==> ds[i] == (ds + [d])[i];
    assert d !in ds;
    HitFlagsStep(w, ds, d, cs, overlaps);
    LandedBodiesStep(w, ds, d, cs, overlaps);
    GroundedAfterStep(w, ds, d);
  }

  /** The outer `each` loop of `CollisionSystem::OnUpdate`. */
  method CollideAll(reg: Registry, ds: seq<Entity>, cs: seq<Entity>, overlaps: (Rect, Rect) -> bool)
    requires CollisionReady(reg.world, ds, cs)
    modifies reg
    ensures reg.next == old(reg.next)
    ensures reg.world == Collided(old(reg.world), ds, cs, overlaps)
  {
    ghost var w := reg.world;
    CollidedNone(w, cs, overlaps);
    var i := 0;
    while i < |ds|
      invariant 0 <= i <= |ds|
      invariant reg.next == old(reg.next)
      invariant CollisionReady(w, ds[..i], cs)
      invariant reg.world == Collided(w, ds[..i], cs, overlaps)
    {
      var d := ds[i];
      TakeSnoc(ds, i);
      ReadyTake(w, ds, cs, i + 1);
      CollidedStep(w, ds[..i], d, cs, overlaps);
      CollideOne(reg, d, cs, overlaps);
      if reg.world.collidables[d].isColliding {
        reg.world := reg.world.(grounded := reg.world.grounded + {d});
      } else {
        reg.world := reg.world.(grounded := reg.world.grounded - {d});
      }
      i := i + 1;
    }
    assert ds[..i] == ds;
  }

  /** The views of a well-formed registry are ready for the two loops. */
  lemma ReadyViews(w: World)
    requires WellFormed(w)
    ensures CollisionReady(w, Droppers(w), Obstacles(w))
  {
    SelectDistinct(w.order, w.droppables.Keys * w.rects.Keys * w.bodies.Keys * w.collidables.Keys);
    var ds, cs := Droppers(w), Obstacles(w);
    forall i | 0 <= i < |ds|
      ensures ds[i] in w.droppables && ds[i] !in cs
    {
      assert ds[i] in ds;
    }
    forall i | 0 <= i < |cs|
      ensures cs[i] in w.rects && cs[i] in w.bodies && cs[i] in w.collidables
    {
      assert cs[i] in cs;
    }
  }

  /** The registry after one `CollisionSystem` tick. */
  function CollisionResult(w: World, overlaps: (Rect, Rect) -> bool): World
    requires WellFormed(w)
  {
    ReadyViews(w);
    Collided(w, Droppers(w), Obstacles(w), overlaps)
  }

  lemma CollisionWellFormed(w: World, overlaps: (Rect, Rect) -> bool)
    requires WellFormed(w)
    ensures WellFormed(CollisionResult(w, overlaps))
  {
    var r := CollisionResult(w, overlaps);
    assert r.collidables.Keys == w.collidables.Keys && r.bodies.Keys == w.bodies.Keys;
    assert forall e :: e in r.grounded ==> e in w.grounded || e in Droppers(w);
  }

  /** `CollisionSystem::OnUpdate`; it always reports an update. */
  method CollisionOnUpdate(reg: Registry, deltaTime: real, overlaps: (Rect, Rect) -> bool) returns (updated: bool)
    requires reg.Valid()
    modifies reg
    ensures reg.Valid() && reg.next == old(reg.next)
    ensures reg.world == CollisionResult(old(reg.world), overlaps)
    ensures updated
  {
    ghost var w0 := reg.world;
    var droppables := Select(reg.world.order, reg.world.droppables.Keys * reg.world.rects.Keys * reg.world.bodies.Keys * reg.world.collidables.Keys);
    var collidables := Select(reg.world.order, (reg.world.collidables.Keys * reg.world.rects.Keys * reg.world.bodies.Keys) - reg.world.droppables.Keys);
    ReadyViews(w0);
    CollideAll(reg, droppables, collidables, overlaps);
    CollisionWellFormed(w0, overlaps);
    updated := true;
  }

  /** Colliding flags only ever go from false to true, only obstacles are
      marked, and an obstacle is marked exactly when some droppable overlaps
      it. */
  lemma CollisionFlags(w: World, overlaps: (Rect, Rect) -> bool)
    requires WellFormed(w)
    ensures CollisionReady(w, Droppers(w), Obstacles(w))
    ensures var r := CollisionResult(w, overlaps);
      && r == w.(collidables := r.collidables, bodies := r.bodies, grounded := r.grounded)
      && r.collidables.Keys == w.collidables.Keys
      && (forall e :: e in w.collidables && w.collidables[e].isColliding ==> r.collidables[e].isColliding)
      && (forall e :: e in w.collidables && e !in Obstacles(w) ==> r.collidables[e] == w.collidables[e])
      && (forall e :: e in Obstacles(w) ==>
            (r.collidables[e].isColliding <==> w.collidables[e].isColliding || HitByAny(w.rects, Droppers(w), e, overlaps)))
  {
    ReadyViews(w);
  }

  /** After the tick a droppable is grounded exactly when its own flag is
      set, and that flag is not changed by the tick; `Grounded` of every
      other entity is untouched. */
  lemma CollisionGrounded(w: World, overlaps: (Rect, Rect) -> bool)
    requires WellFormed(w)
    ensures var r := CollisionResult(w, overlaps);
      && (forall d :: d in Droppers(w) ==> d in w.collidables && r.collidables[d] == w.collidables[d])
      && (forall d :: d in Droppers(w) ==> (d in r.grounded <==> w.collidables[d].isColliding))
      && (forall e :: e !in Droppers(w) ==> (e in r.grounded <==> e in w.grounded))
  {
    ReadyViews(w);
  }

  /** A droppable that overlaps some obstacle stops falling and takes the
      horizontal velocity of the last one it overlaps; one that overlaps
      none, and every other body, keeps its velocity. */
  lemma CollisionVelocities(w: World, overlaps: (Rect, Rect) -> bool)
    requires WellFormed(w)
    ensures ObstaclesReady(w, Obstacles(w))
    ensures var r := CollisionResult(w, overlaps);
      && r.bodies.Keys == w.bodies.Keys
      && (forall e :: e in w.bodies && e !in Droppers(w) ==> r.bodies[e] == w.bodies[e])
      && (forall d :: d in Droppers(w) ==>
            d in w.rects && d in w.bodies &&
            match LastHit(w.rects, w.rects[d], Obstacles(w), overlaps)
            case None => r.bodies[d] == w.bodies[d]
            case Some(c) =>
              && c in w.bodies
              && r.bodies[d].velocity == Vec2(w.bodies[c].velocity.x, 0.0)
              && r.bodies[d] == w.bodies[d].(velocity := r.bodies[d].velocity))
  {
    ReadyViews(w);
  }

  /* ---------------------------------------------------------------------
     SPACE: dropping the box
     --------------------------------------------------------------------- */

  /** The view of the SPACE handler: grounded droppable bodies. */
  function DropCandidates(w: World): set<Entity>
  {
    w.droppables.Keys * w.bodies.Keys * w.grounded
  }

  /** The candidates not dropped yet: the ones the handler launches. */
  function Launchable(w: World): set<Entity>
  {
    set e | e in DropCandidates(w) && !w.droppables[e].dropped
  }

  /** A dropped box is given an initial vertical velocity of 9. */
  function Launched(b: RigidBody): RigidBody
  {
    b.(velocity := b.velocity.(y := 9.0))
  }

  /** `Droppable` after the loop over `es`: each not-yet-dropped one is
      marked dropped. */
  function MarkedDroppables(w: World, es: seq<Entity>): (r: map<Entity, Droppable>)
    ensures r.Keys == w.droppables.Keys
  {
    map e | e in w.droppables :: if e in es && !w.droppables[e].dropped then w.droppables[e].(dropped := true) else w.droppables[e]
  }

  /** The bodies after the loop over `es`: each not-yet-dropped one is
      launched. */
  function LaunchedBodies(w: World, es: seq<Entity>): (r: map<Entity, RigidBody>)
    ensures r.Keys == w.bodies.Keys
  {
    map e | e in w.bodies :: if e in es && e in w.droppables && !w.droppables[e].dropped then Launched(w.bodies[e]) else w.bodies[e]
  }

  /** The side list `removeEntities` after the loop over `es`: the entities
      it launched, in visiting order. */
  function Removals(w: World, es: seq<Entity>): (r: seq<Entity>)
    requires forall i :: 0 <= i < |es| ==> es[i] in w.droppables
    ensures forall e :: e in r <==> e in es && !w.droppables[e].dropped
  {
    if es == [] then []
    else
      var n := |es| - 1;
      Removals(w, es[..n]) + (if !w.droppables[es[n]].dropped then [es[n]] else [])
  }

  lemma MarkedStep(w: World, es: seq<Entity>, e: Entity)
    requires e in w.droppables && e !in es
    ensures MarkedDroppables(w, es)[e] == w.droppables[e]
    ensures MarkedDroppables(w, es + [e]) ==
      if !w.droppables[e].dropped then MarkedDroppables(w, es)[e := w.droppables[e].(dropped := true)] else MarkedDroppables(w, es)
  {
    assert forall x :: x in es + [e] <==> x in es || x == e;
  }

  lemma LaunchedStep(w: World, es: seq<Entity>, e: Entity)
    requires e in w.droppables && e in w.bodies && e !in es
    ensures LaunchedBodies(w, es)[e] == w.bodies[e]
    ensures LaunchedBodies(w, es + [e]) ==
      if !w.droppables[e].dropped then LaunchedBodies(w, es)[e := Launched(w.bodies[e])] else LaunchedBodies(w, es)
  {
    assert forall x :: x in es + [e] <==> x in es || x == e;
  }

  lemma RemovalsStep(w: World, es: seq<Entity>, e: Entity)
    requires e in w.droppables
    requires forall i :: 0 <= i < |es| ==> es[i] in w.droppables
    ensures forall i :: 0 <= i < |es + [e]| ==> (es + [e])[i] in w.droppables
    ensures Removals(w, es + [e]) == Removals(w, es) + if !w.droppables[e].dropped then [e] else []
  {
    assert (es + [e])[..|es|] == es;
    assert (es + [e])[|es|] == e;
  }

  /** The `each` loop of the SPACE handler over `boxView`. */
  method MarkDropped(reg: Registry, view: seq<Entity>) returns (wasDropped: bool, removeEntities: seq<Entity>)
    requires Distinct(view)
    requires forall i :: 0 <= i < |view| ==> view[i] in reg.world.droppables && view[i] in reg.world.bodies
    modifies reg
    ensures reg.next == old(reg.next)
    ensures reg.world == old(reg.world).(droppables := MarkedDroppables(old(reg.world), view),
                                         bodies := LaunchedBodies(old(reg.world), view))
    ensures removeEntities == Removals(old(reg.world), view)
    ensures wasDropped <==> |view| > 0
  {
    ghost var w := reg.world;
    assert MarkedDroppables(w, []) == w.droppables;
    assert LaunchedBodies(w, []) == w.bodies;
    wasDropped := false;
    removeEntities := [];
    var i := 0;
    while i < |view|
      invariant 0 <= i <= |view|
      invariant reg.next == old(reg.next)
      invariant reg.world == w.(droppables := MarkedDroppables(w, view[..i]), bodies := LaunchedBodies(w, view[..i]))
      invariant removeEntities == Removals(w, view[..i])
      invariant wasDropped <==> i > 0
    {
      var e := view[i];
      TakeSnoc(view, i);
      assert e !in view[..i];
      MarkedStep(w, view[..i], e);
      LaunchedStep(w, view[..i], e);
      RemovalsStep(w, view[..i], e);
      var droppable := reg.world.droppables[e];
      if !droppable.dropped {
        droppable := droppable.(dropped := true);
        var body := reg.world.bodies[e];
        body := body.(velocity := body.velocity.(y := 9.0));
        reg.world := reg.world.(droppables := reg.world.droppables[e := droppable], bodies := reg.world.bodies[e := body]);
        wasDropped := true;
        removeEntities := removeEntities + [e];
      } else {
        wasDropped := true;
      }
      i := i + 1;
    }
    assert view[..i] == view;
  }

  /** The loop removing `Grounded` from every entity of the side list. */
  method RemoveGrounded(reg: Registry, removeEntities: seq<Entity>)
    modifies reg
    ensures reg.next == old(reg.next)
    ensures reg.world == old(reg.world).(grounded := old(reg.world).grounded - set e | e in removeEntities)
  {
    ghost var w := reg.world;
    var k := 0;
    while k < |removeEntities|
      invariant 0 <= k <= |removeEntities|
      invariant reg.next == old(reg.next)
      invariant reg.world == w.(grounded := w.grounded - set e | e in removeEntities[..k])
    {
      TakeSnoc(removeEntities, k);
      assert forall x :: x in removeEntities[..k + 1] <==> x in removeEntities[..k] || x == removeEntities[k];
      reg.world := reg.world.(grounded := reg.world.grounded - {removeEntities[k]});
      k := k + 1;
    }
    assert removeEntities[..k] == removeEntities;
  }

  /** The loop over `platformView`: every listed body moves right at 2. */
  method PushPlatforms(reg: Registry, view: seq<Entity>)
    requires forall i :: 0 <= i < |view| ==> view[i] in reg.world.bodies
    modifies reg
    ensures reg.next == old(reg.next)
    ensures reg.world == old(reg.world).(bodies := EditEach(old(reg.world).bodies, view, SetVx(2.0)))
  {
    ghost var w0 := reg.world;
    var i := 0;
    while i < |view|
      invariant 0 <= i <= |view|
      invariant reg.next == old(reg.next)
      invariant reg.world == w0.(bodies := EditEach(w0.bodies, view[..i], SetVx(2.0)))
    {
      var e := view[i];
      TakeSnoc(view, i);
      var body := reg.world.bodies[e];
      body := body.(velocity := body.velocity.(x := 2.0));
      reg.world := reg.world.(bodies := reg.world.bodies[e := body]);
      i := i + 1;
    }
    assert view[..i] == view;
  }

  /** The registry after the launch loop and the removal loop: every
      launchable entity is marked dropped, launched and no longer grounded. */
  function AfterDrop(w: World): World
  {
    var u := Launchable(w);
    w.(droppables := map e | e in w.droppables :: if e in u then w.droppables[e].(dropped := true) else w.droppables[e],
       bodies := map e | e in w.bodies :: if e in u then Launched(w.bodies[e]) else w.bodies[e],
       grounded := w.grounded - u)
  }

  /** The registry after SPACE: the drop, and then, if the view of grounded
      droppable bodies was not empty, every body without `Droppable` moves
      right at 2. */
  function SpaceResult(w: World): World
  {
    var w1 := AfterDrop(w);
    if DropCandidates(w) != {} then w1.(bodies := EditWhere(w1.bodies, w1.bodies.Keys - w1.droppables.Keys, SetVx(2.0)))
    else w1
  }

  /** Within the droppables, the view holds exactly the candidates. */
  lemma CandidatesView(w: World, view: seq<Entity>)
    requires WellFormed(w) && view == Select(w.order, DropCandidates(w))
    ensures forall i :: 0 <= i < |view| ==> view[i] in w.droppables && view[i] in w.bodies
    ensures forall e :: e in w.droppables ==> (e in view <==> e in DropCandidates(w))
  {
    assert forall i :: 0 <= i < |view| ==> view[i] in view;
  }

  lemma DropPhaseDroppables(w: World, view: seq<Entity>)
    requires forall e :: e in w.droppables ==> (e in view <==> e in DropCandidates(w))
    ensures MarkedDroppables(w, view) == AfterDrop(w).droppables
  {
  }

  lemma DropPhaseBodies(w: World, view: seq<Entity>)
    requires forall e :: e in w.droppables ==> (e in view <==> e in DropCandidates(w))
    ensures LaunchedBodies(w, view) == AfterDrop(w).bodies
  {
  }

  lemma DropPhaseGrounded(w: World, view: seq<Entity>)
    requires forall i :: 0 <= i < |view| ==> view[i] in w.droppables
    requires forall e :: e in w.droppables ==> (e in view <==> e in DropCandidates(w))
    ensures w.grounded - (set e | e in Removals(w, view)) == AfterDrop(w).grounded
  {
    assert (set e | e in Removals(w, view)) == Launchable(w);
  }

  /** The two loops over the view compose to `AfterDrop`. */
  lemma DropPhases(w: World, view: seq<Entity>)
    requires WellFormed(w) && view == Select(w.order, DropCandidates(w))
    ensures forall i :: 0 <= i < |view| ==> view[i] in w.droppables && view[i] in w.bodies
    ensures w.(droppables := MarkedDroppables(w, view), bodies := LaunchedBodies(w, view),
               grounded := w.grounded - set e | e in Removals(w, view)) == AfterDrop(w)
  {
    CandidatesView(w, view);
    DropPhaseDroppables(w, view);
    DropPhaseBodies(w, view);
    DropPhaseGrounded(w, view);
  }

  lemma AfterDropWellFormed(w: World)
    requires WellFormed(w)
    ensures WellFormed(AfterDrop(w))
    ensures AfterDrop(w).bodies.Keys == w.bodies.Keys && AfterDrop(w).droppables.Keys == w.droppables.Keys
  {
    assert AfterDrop(w).bodies.Keys == w.bodies.Keys;
    assert AfterDrop(w).droppables.Keys == w.droppables.Keys;
  }

  lemma SpaceWellFormed(w: World)
    requires WellFormed(w)
    ensures WellFormed(SpaceResult(w))
  {
    AfterDropWellFormed(w);
    var w1 := AfterDrop(w);
    if DropCandidates(w) != {} {
      EditWhereWellFormed(w1, w1.bodies.Keys - w1.droppables.Keys, SetVx(2.0));
    }
  }

  /** Editing bodies in place keeps the registry well formed. */
  lemma EditWhereWellFormed(w: World, s: set<Entity>, ed: BodyEdit)
    requires WellFormed(w)
    ensures WellFormed(w.(bodies := EditWhere(w.bodies, s, ed)))
  {
    assert EditWhere(w.bodies, s, ed).Keys == w.bodies.Keys;
  }

  /** The view is empty exactly when no entity qualifies. */
  lemma CandidatesViewEmpty(w: World)
    requires WellFormed(w)
    ensures |Select(w.order, DropCandidates(w))| > 0 <==> DropCandidates(w) != {}
  {
    var view := Select(w.order, DropCandidates(w));
    if |view| > 0 {
      assert view[0] in view;
    }
    if DropCandidates(w) != {} {
      var e :| e in DropCandidates(w);
      assert e in view;
    }
  }

  /** The first part of the SPACE branch: the loop over `boxView` and the
      removal of `Grounded` through the side list. */
  method LaunchBoxes(reg: Registry) returns (wasDropped: bool)
    requires reg.Valid()
    modifies reg
    ensures reg.Valid() && reg.next == old(reg.next)
    ensures reg.world == AfterDrop(old(reg.world))
    ensures wasDropped <==> DropCandidates(old(reg.world)) != {}
  {
    ghost var w0 := reg.world;
    var boxView := Select(reg.world.order, reg.world.droppables.Keys * reg.world.bodies.Keys * reg.world.grounded);
    SelectDistinct(w0.order, DropCandidates(w0));
    DropPhases(w0, boxView);
    CandidatesViewEmpty(w0);
    var removeEntities;
    wasDropped, removeEntities := MarkDropped(reg, boxView);
    RemoveGrounded(reg, removeEntities);
    AfterDropWellFormed(w0);
  }

  /** The SPACE branch of `GravityGame::HandleInput`. */
  method DropBoxes(reg: Registry)
    requires reg.Valid()
    modifies reg
    ensures reg.Valid() && reg.next == old(reg.next)
    ensures reg.world == SpaceResult(old(reg.world))
  {
    ghost var w0 := reg.world;
    var wasDropped := LaunchBoxes(reg);
    ghost var w1 := reg.world;
    if wasDropped {
      var platformView := Select(reg.world.order, reg.world.bodies.Keys - reg.world.droppables.Keys);
      EditView(w1, w1.bodies.Keys - w1.droppables.Keys, SetVx(2.0));
      assert forall i :: 0 <= i < |platformView| ==> platformView[i] in platformView;
      PushPlatforms(reg, platformView);
    }
    SpaceWellFormed(w0);
  }

  /** What SPACE does to `Droppable` and `Grounded`: each grounded
      droppable body that was not dropped yet is marked dropped and loses
      `Grounded`; one already dropped keeps both; nothing but droppables,
      bodies and `Grounded` changes. */
  lemma SpaceDroppables(w: World)
    requires WellFormed(w)
    ensures var r := SpaceResult(w);
      && r == w.(droppables := r.droppables, bodies := r.bodies, grounded := r.grounded)
      && r.grounded == w.grounded - Launchable(w)
      && r.droppables.Keys == w.droppables.Keys
      && (forall e :: e in Launchable(w) ==> r.droppables[e].dropped)
      && (forall e :: e in w.droppables && e !in Launchable(w) ==> r.droppables[e] == w.droppables[e])
  {
    assert SpaceResult(w).droppables == AfterDrop(w).droppables;
  }

  /** What SPACE does to the bodies: each launched box is thrown with
      vertical velocity 9; other droppable bodies keep theirs; if there was
      any candidate at all, every body without `Droppable` moves right at
      2, and otherwise it is untouched. */
  lemma SpaceBodies(w: World)
    requires WellFormed(w)
    ensures var r := SpaceResult(w);
      && r.bodies.Keys == w.bodies.Keys
      && (forall e :: e in Launchable(w) ==> r.bodies[e] == Launched(w.bodies[e]))
      && (forall e :: e in w.bodies && e in w.droppables && e !in Launchable(w) ==> r.bodies[e] == w.bodies[e])
      && (forall e :: e in w.bodies && e !in w.droppables ==>
            r.bodies[e] == if DropCandidates(w) != {} then Edited(w.bodies[e], SetVx(2.0)) else w.bodies[e])
  {
    AfterDropWellFormed(w);
    var w1 := AfterDrop(w);
    assert forall e :: e in w.bodies && e !in w.droppables ==> e !in Launchable(w) && w1.bodies[e] == w.bodies[e];
  }

  /** Pressing SPACE a second time drops nothing new: the boxes dropped by
      the first press are no longer grounded, hence no candidates. */
  lemma SpaceTwiceLaunchesNothing(w: World)
    requires WellFormed(w)
    ensures Launchable(SpaceResult(w)) == {}
  {
    SpaceDroppables(w);
    var r := SpaceResult(w);
    forall e | e in DropCandidates(r)
      ensures r.droppables[e].dropped
    {
      assert e in w.grounded && e !in Launchable(w);
      assert e in w.droppables && e in w.bodies;
      assert w.droppables[e].dropped;
    }
  }

  /* ---------------------------------------------------------------------
     Arrow keys: the grid size
     --------------------------------------------------------------------- */

  /** `m_gridSize` after the arrow keys: RIGHT grows it by 5 and, once it
      reaches a quarter of the screen width, resets it to a quarter of the
      screen height (truncated); otherwise LEFT shrinks it by 5, never
      below 5. */
  function GridSizeAfter(gridSize: int, screenWidth: int, screenHeight: int, right: bool, left: bool): int
  {
    if right then
      var g := gridSize + 5;
      if g as real >= screenWidth as real * 0.25 then Trunc(screenHeight as real * 0.25) else g
    else if left then
      var g := gridSize - 5;
      if g <= 5 then 5 else g
    else gridSize
  }

  /** LEFT never takes the size below 5 and is exact above 10; RIGHT is
      exact below the width cap and gives the height-based size at the cap;
      RIGHT wins over LEFT; no key changes nothing. */
  lemma GridSizeKeys(gridSize: int, screenWidth: int, screenHeight: int)
    requires screenHeight >= 0
    ensures GridSizeAfter(gridSize, screenWidth, screenHeight, false, false) == gridSize
    ensures GridSizeAfter(gridSize, screenWidth, screenHeight, false, true) >= 5
    ensures gridSize > 10 ==> GridSizeAfter(gridSize, screenWidth, screenHeight, false, true) == gridSize - 5
    ensures GridSizeAfter(gridSize, screenWidth, screenHeight, true, true) == GridSizeAfter(gridSize, screenWidth, screenHeight, true, false)
    ensures (gridSize + 5) as real < screenWidth as real * 0.25 ==>
      GridSizeAfter(gridSize, screenWidth, screenHeight, true, false) == gridSize + 5
    ensures (gridSize + 5) as real >= screenWidth as real * 0.25 ==>
      var r := GridSizeAfter(gridSize, screenWidth, screenHeight, true, false);
      r >= 0 && r as real <= screenHeight as real * 0.25 < r as real + 1.0
  {
  }

  /** The size the grid jumps to at the cap for the default 800 x 600
      window: 150, a quarter of the height, not of the width. */
  lemma GridCapDefaultWindow()
    ensures GridSizeAfter(195, 800, 600, true, false) == 150
  {
    assert 600.0 * 0.25 == 150.0;
  }

  /* ---------------------------------------------------------------------
     The scene, the system list and the game
     --------------------------------------------------------------------- */

  const INITIAL_ALTITUDE: int := 0
  const HORIZONTAL_OFFSET: int := 600
  const BOX_WIDTH: int := 20
  const BOX_HEIGHT: int := 20
  const PLATFORM_WIDTH: int := 100
  const PROMPT: string := "Press SPACE to drop the box"

  /** The `Gravity` context is put in place only when there is none yet. */
  function WithGravity(w: World): World
  {
    w.(gravity := if w.gravity.None? then Some(DEFAULT_GRAVITY) else w.gravity)
  }

  /** The falling box: a new entity with a rectangle at the initial
      altitude, a `Droppable`, a default body, a `Collidable`, the `Grounded`
      tag and a `MouseInteractible`. */
  function WithBox(w: World, box: Entity): World
  {
    w.(order := w.order + [box],
       rects := w.rects[box := Rect(HORIZONTAL_OFFSET as real, INITIAL_ALTITUDE as real, BOX_WIDTH as real, BOX_HEIGHT as real)],
       droppables := w.droppables[box := DEFAULT_DROPPABLE],
       bodies := w.bodies[box := DEFAULT_RIGID_BODY],
       collidables := w.collidables[box := DEFAULT_COLLIDABLE],
       grounded := w.grounded + {box},
       mouse := w.mouse[box := DEFAULT_MOUSE_INTERACTIBLE])
  }

  /** The platform: a new entity along the bottom edge of the screen, with a
      body, a `Collidable` and a `MouseInteractible` but no `Droppable`. */
  function WithPlatform(w: World, platform: Entity, screenHeight: int): World
  {
    w.(order := w.order + [platform],
       rects := w.rects[platform := Rect(0.0, (screenHeight - BOX_HEIGHT) as real, PLATFORM_WIDTH as real, BOX_HEIGHT as real)],
       bodies := w.bodies[platform := DEFAULT_RIGID_BODY],
       collidables := w.collidables[platform := DEFAULT_COLLIDABLE],
       mouse := w.mouse[platform := DEFAULT_MOUSE_INTERACTIBLE])
  }

  /** The prompt: a new entity with nothing but a `Text`. */
  function WithPrompt(w: World, text: Entity): World
  {
    w.(order := w.order + [text],
       texts := w.texts[text := Text(PROMPT, Vec2(10.0, 10.0), 20, BLACK)])
  }

  /** The registry after `Init`. */
  function Scene(w: World, box: Entity, platform: Entity, text: Entity, screenHeight: int): World
  {
    WithPrompt(WithPlatform(WithBox(WithGravity(w), box), platform, screenHeight), text)
  }

  /** What `Init` puts in the registry: a gravity context, the three new
      entities last in the iteration order, and their components. */
  lemma SceneComponents(w: World, box: Entity, platform: Entity, text: Entity, screenHeight: int)
    requires WellFormed(w)
    requires box !in w.order && platform !in w.order && text !in w.order
    requires box != platform && platform != text && box != text
    ensures var r := Scene(w, box, platform, text, screenHeight);
      && r.gravity.Some?
      && (w.gravity.Some? ==> r.gravity == w.gravity)
      && r.order == w.order + [box, platform, text]
      && box in r.grounded && platform !in r.grounded && text !in r.grounded
      && platform in r.collidables && platform !in r.droppables
      && r.rects[platform].y == (screenHeight - BOX_HEIGHT) as real
      && r.rects[box] == Rect(600.0, 0.0, 20.0, 20.0)
      && r.bodies[box].velocity == ZERO
      && ((text in NeedsDrawable(r)) <==> text !in w.drawables)
  {
    var r := Scene(w, box, platform, text, screenHeight);
    assert w.order + [box] + [platform] + [text] == w.order + [box, platform, text];
  }

  /** Creating the scene keeps the registry well formed when the ids are
      new. */
  lemma SceneWellFormed(w: World, box: Entity, platform: Entity, text: Entity, screenHeight: int)
    requires WellFormed(w)
    requires box !in w.order && platform !in w.order && text !in w.order
    requires box != platform && platform != text && box != text
    ensures WellFormed(Scene(w, box, platform, text, screenHeight))
  {
    var w0 := WithGravity(w);
    var w1 := WithBox(w0, box);
    var w2 := WithPlatform(w1, platform, screenHeight);
    NewEntityDistinct(w0.order, box);
    NewEntityDistinct(w1.order, platform);
    NewEntityDistinct(w2.order, text);
  }

  /** Appending an id not yet in use keeps the order free of repeats. */
  lemma NewEntityDistinct(order: seq<Entity>, e: Entity)
    requires Distinct(order) && e !in order
    ensures Distinct(order + [e])
  {
    var r := order + [e];
    forall i, j | 0 <= i < j < |r|
      ensures r[i] != r[j]
    {
      if j == |order| {
        assert r[i] in order;
      }
    }
  }

  method CreateBox(reg: Registry) returns (box: Entity)
    requires reg.Valid()
    modifies reg
    ensures reg.Valid() && box !in old(reg.world.order)
    ensures reg.world == WithBox(old(reg.world), box)
  {
    box := reg.Create();
    var w := reg.world;
    reg.world := w.(
      rects := w.rects[box := Rect(HORIZONTAL_OFFSET as real, INITIAL_ALTITUDE as real, BOX_WIDTH as real, BOX_HEIGHT as real)],
      droppables := w.droppables[box := DEFAULT_DROPPABLE],
      bodies := w.bodies[box := DEFAULT_RIGID_BODY],
      collidables := w.collidables[box := DEFAULT_COLLIDABLE],
      grounded := w.grounded + {box},
      mouse := w.mouse[box := DEFAULT_MOUSE_INTERACTIBLE]);
  }

  method CreatePlatform(reg: Registry, screenHeight: int) returns (platform: Entity)
    requires reg.Valid()
    modifies reg
    ensures reg.Valid() && platform !in old(reg.world.order)
    ensures reg.world == WithPlatform(old(reg.world), platform, screenHeight)
  {
    platform := reg.Create();
    var w := reg.world;
    reg.world := w.(
      rects := w.rects[platform := Rect(0.0, (screenHeight - BOX_HEIGHT) as real, PLATFORM_WIDTH as real, BOX_HEIGHT as real)],
      bodies := w.bodies[platform := DEFAULT_RIGID_BODY],
      collidables := w.collidables[platform := DEFAULT_COLLIDABLE],
      mouse := w.mouse[platform := DEFAULT_MOUSE_INTERACTIBLE]);
  }

  method CreatePrompt(reg: Registry) returns (text: Entity)
    requires reg.Valid()
    modifies reg
    ensures reg.Valid() && text !in old(reg.world.order)
    ensures reg.world == WithPrompt(old(reg.world), text)
  {
    text := reg.Create();
    reg.world := reg.world.(texts := reg.world.texts[text := Text(PROMPT, Vec2(10.0, 10.0), 20, BLACK)]);
  }

  /** The scene of `Init`, built on the registry. */
  method CreateScene(reg: Registry, screenHeight: int) returns (box: Entity, platform: Entity, text: Entity)
    requires reg.Valid()
    modifies reg
    ensures reg.Valid()
    ensures box !in old(reg.world.order) && platform !in old(reg.world.order) && text !in old(reg.world.order)
    ensures box != platform && platform != text && box != text
    ensures reg.world == Scene(old(reg.world), box, platform, text, screenHeight)
  {
    if reg.world.gravity.None? {
      reg.world := reg.world.(gravity := Some(DEFAULT_GRAVITY));
    }
    box := CreateBox(reg);
    platform := CreatePlatform(reg, screenHeight);
    text := CreatePrompt(reg);
  }

  /** One of the game's systems; the text system is an object with state. */
  datatype System = Physics | Collision | TextSystem(text: TextInterface)

  function TextObjects(systems: seq<System>): set<TextInterface>
  {
    set s | s in systems && s.TextSystem? :: s.text
  }

  /** The registry after one system has run. */
  function RunSystem(w: World, s: System, deltaTime: real, overlaps: (Rect, Rect) -> bool): (r: World)
    requires WellFormed(w) && (s == Physics ==> w.gravity.Some?)
    reads if s.TextSystem? then {s.text} else {}
    ensures WellFormed(r) && r.gravity == w.gravity && r.order == w.order
  {
    match s
    case Physics => GravitatedWellFormed(w, deltaTime); Gravitated(w, deltaTime)
    case Collision => CollisionWellFormed(w, overlaps); CollisionResult(w, overlaps)
    case TextSystem(t) => TextSyncWellFormed(w); if t.enabled then WithTextDrawables(w) else w
  }

  /** The registry after the systems have run once each, in list order. */
  function Pipeline(w: World, systems: seq<System>, deltaTime: real, overlaps: (Rect, Rect) -> bool): (r: World)
    requires WellFormed(w) && (Physics in systems ==> w.gravity.Some?)
    reads TextObjects(systems)
    ensures WellFormed(r) && r.gravity == w.gravity && r.order == w.order
  {
    if systems == [] then w
    else
      var n := |systems| - 1;
      assert systems == systems[..n] + [systems[n]];
      RunSystem(Pipeline(w, systems[..n], deltaTime, overlaps), systems[n], deltaTime, overlaps)
  }

  /** The keys `HandleInput` polls. */
  datatype GameKeys = GameKeys(space: bool, g: bool, right: bool, left: bool)

  /** Runs one system on the registry; the flag it returns is not used by
      `Update`. */
  method RunSystemOn(reg: Registry, s: System, deltaTime: real, overlaps: (Rect, Rect) -> bool) returns (updated: bool)
    requires reg.Valid() && (s == Physics ==> reg.world.gravity.Some?)
    modifies reg
    ensures reg.Valid()
    ensures reg.world == RunSystem(old(reg.world), s, deltaTime, overlaps)
    ensures !s.TextSystem? ==> updated
  {
    match s
    case Physics => updated := PhysicsOnUpdate(reg, deltaTime);
    case Collision => updated := CollisionOnUpdate(reg, deltaTime, overlaps);
    case TextSystem(t) => updated := t.OnUpdate(reg, deltaTime);
  }

  lemma PipelineSnoc(w: World, systems: seq<System>, i: nat, deltaTime: real, overlaps: (Rect, Rect) -> bool)
    requires i < |systems|
    requires WellFormed(w) && (Physics in systems ==> w.gravity.Some?)
    ensures Physics in systems[..i] ==> w.gravity.Some?
    ensures Physics in systems[..i + 1] ==> w.gravity.Some?
    ensures systems[i] == Physics ==> Pipeline(w, systems[..i], deltaTime, overlaps).gravity.Some?
    ensures Pipeline(w, systems[..i + 1], deltaTime, overlaps)
         == RunSystem(Pipeline(w, systems[..i], deltaTime, overlaps), systems[i], deltaTime, overlaps)
  {
    assert systems[..i + 1][..i] == systems[..i];
    assert systems[i] in systems;
  }

  /** The loop of `Update`: the systems run on the registry in list order. */
  method RunAll(reg: Registry, systems: seq<System>, deltaTime: real, overlaps: (Rect, Rect) -> bool)
    requires reg.Valid() && (Physics in systems ==> reg.world.gravity.Some?)
    modifies reg
    ensures reg.Valid()
    ensures reg.world == Pipeline(old(reg.world), systems, deltaTime, overlaps)
  {
    ghost var w0 := reg.world;
    var i := 0;
    while i < |systems|
      invariant 0 <= i <= |systems|
      invariant reg.Valid()
      invariant reg.world == Pipeline(w0, systems[..i], deltaTime, overlaps)
    {
      ghost var before := reg.world;
      assert systems[i] in systems;
      var _ := RunSystemOn(reg, systems[i], deltaTime, overlaps);
      assert unchanged(TextObjects(systems[..i]));
      assert Pipeline(w0, systems[..i], deltaTime, overlaps) == before;
      PipelineSnoc(w0, systems, i, deltaTime, overlaps);
      i := i + 1;
    }
    assert systems[..i] == systems;
  }

  /** No droppable has its own colliding flag set. */
  predicate DroppableFlagsClear(w: World)
  {
    forall d :: d in w.droppables && d in w.collidables ==> !w.collidables[d].isColliding
  }

  /** Since the collision system only ever marks obstacles, and droppables
      are never obstacles, it keeps every droppable's flag clear; so with
      clear flags every droppable it visits leaves without `Grounded`,
      whether it overlaps something or not. */
  lemma CollisionUngrounds(w: World, overlaps: (Rect, Rect) -> bool)
    requires WellFormed(w) && DroppableFlagsClear(w)
    ensures var r := CollisionResult(w, overlaps);
      && DroppableFlagsClear(r)
      && forall d :: d in Droppers(w) ==> d !in r.grounded
  {
    CollisionFlags(w, overlaps);
    CollisionGrounded(w, overlaps);
    var r := CollisionResult(w, overlaps);
    forall d | d in r.droppables && d in r.collidables
      ensures !r.collidables[d].isColliding
    {
      assert d !in Obstacles(w);
    }
  }

  /** The other systems leave every colliding flag alone. */
  lemma RunSystemKeepsFlagsClear(w: World, s: System, deltaTime: real, overlaps: (Rect, Rect) -> bool)
    requires WellFormed(w) && (s == Physics ==> w.gravity.Some?) && DroppableFlagsClear(w)
    ensures DroppableFlagsClear(RunSystem(w, s, deltaTime, overlaps))
  {
    match s
    case Physics =>
    case Collision => CollisionUngrounds(w, overlaps);
    case TextSystem(t) =>
  }

  /** A droppable's own flag is never set by any run of the systems. */
  lemma {:induction false} PipelineKeepsFlagsClear(w: World, systems: seq<System>, deltaTime: real, overlaps: (Rect, Rect) -> bool)
    requires WellFormed(w) && (Physics in systems ==> w.gravity.Some?) && DroppableFlagsClear(w)
    ensures DroppableFlagsClear(Pipeline(w, systems, deltaTime, overlaps))
  {
    if systems != [] {
      var n := |systems| - 1;
      assert systems == systems[..n] + [systems[n]];
      PipelineKeepsFlagsClear(w, systems[..n], deltaTime, overlaps);
      RunSystemKeepsFlagsClear(Pipeline(w, systems[..n], deltaTime, overlaps), systems[n], deltaTime, overlaps);
    }
  }

  /** The scene of `Init` starts with no droppable flag set, given a registry
      in which none was. */
  lemma SceneFlagsClear(w: World, box: Entity, platform: Entity, text: Entity, screenHeight: int)
    requires WellFormed(w) && DroppableFlagsClear(w)
    requires box !in w.order && platform !in w.order && text !in w.order
    ensures DroppableFlagsClear(Scene(w, box, platform, text, screenHeight))
  {
  }

  /** The three systems of `Init`, run once each. */
  lemma InitPipeline(w: World, t: TextInterface, deltaTime: real, overlaps: (Rect, Rect) -> bool)
    requires WellFormed(w) && w.gravity.Some?
    ensures WellFormed(Gravitated(w, deltaTime))
    ensures var w2 := CollisionResult(Gravitated(w, deltaTime), overlaps);
      Pipeline(w, [Physics, Collision, TextSystem(t)], deltaTime, overlaps)
        == if t.enabled then WithTextDrawables(w2) else w2
  {
    GravitatedWellFormed(w, deltaTime);
    var systems := [Physics, Collision, TextSystem(t)];
    assert systems[..2] == [Physics, Collision] && systems[..3] == systems;
    PhysicsThenCollision(w, deltaTime, overlaps);
    PipelineSnoc(w, systems, 2, deltaTime, overlaps);
    var w2 := CollisionResult(Gravitated(w, deltaTime), overlaps);
    calc {
      Pipeline(w, systems, deltaTime, overlaps);
      Pipeline(w, systems[..3], deltaTime, overlaps);
      RunSystem(Pipeline(w, systems[..2], deltaTime, overlaps), TextSystem(t), deltaTime, overlaps);
      RunSystem(w2, TextSystem(t), deltaTime, overlaps);
    }
  }

  /** The first two systems of `Init`. */
  lemma PhysicsThenCollision(w: World, deltaTime: real, overlaps: (Rect, Rect) -> bool)
    requires WellFormed(w) && w.gravity.Some?
    ensures Pipeline(w, [Physics, Collision], deltaTime, overlaps)
         == CollisionResult(Gravitated(w, deltaTime), overlaps)
  {
    var systems := [Physics, Collision];
    assert systems[..0] == [] && systems[..1] == [Physics] && systems[..2] == systems;
    PipelineSnoc(w, systems, 0, deltaTime, overlaps);
    PipelineSnoc(w, systems, 1, deltaTime, overlaps);
  }

  /** What physics does to the scene: the box (grounded) keeps its
      velocity, the platform falls. */
  lemma SceneGravitated(w: World, box: Entity, platform: Entity, text: Entity, screenHeight: int, deltaTime: real)
    requires WellFormed(w)
    requires box !in w.order && platform !in w.order && text !in w.order
    requires box != platform && platform != text && box != text
    ensures var s := Scene(w, box, platform, text, screenHeight);
      var w1 := Gravitated(s, deltaTime);
      && box in Droppers(w1) && platform !in Droppers(w1)
      && w1.bodies[platform].velocity.y == s.gravity.value.value * deltaTime
      && w1.grounded == s.grounded
  {
    SceneComponents(w, box, platform, text, screenHeight);
    var s := Scene(w, box, platform, text, screenHeight);
    GravitatedEffect(s, deltaTime);
    var w1 := Gravitated(s, deltaTime);
    assert box in w1.order;
    assert box in w1.droppables.Keys * w1.rects.Keys * w1.bodies.Keys * w1.collidables.Keys;
  }

  /** The first `Update` after `Init`: the box, grounded by `Init`, is not
      grounded afterwards, even if it overlaps the platform; the platform,
      which is never grounded, has gained one tick of gravity, since
      collision writes only the droppable's body; the prompt has its `Drawable` when the text system is
      enabled. */
  lemma FirstUpdate(w: World, box: Entity, platform: Entity, text: Entity, t: TextInterface,
                    screenHeight: int, deltaTime: real, overlaps: (Rect, Rect) -> bool)
    requires WellFormed(w) && DroppableFlagsClear(w)
    requires box !in w.order && platform !in w.order && text !in w.order
    requires box != platform && platform != text && box != text
    ensures WellFormed(Scene(w, box, platform, text, screenHeight))
    ensures var s := Scene(w, box, platform, text, screenHeight);
      var r := Pipeline(s, [Physics, Collision, TextSystem(t)], deltaTime, overlaps);
      && box in s.grounded && box !in r.grounded
      && platform !in r.grounded
      && platform in r.bodies && r.bodies[platform].velocity.y == s.gravity.value.value * deltaTime
      && (t.enabled ==> text in r.drawables && r.drawables[text].defaultTint == BLACK)
  {
    SceneWellFormed(w, box, platform, text, screenHeight);
    SceneComponents(w, box, platform, text, screenHeight);
    SceneFlagsClear(w, box, platform, text, screenHeight);
    var s := Scene(w, box, platform, text, screenHeight);
    InitPipeline(s, t, deltaTime, overlaps);
    SceneGravitated(w, box, platform, text, screenHeight, deltaTime);
    var w1 := Gravitated(s, deltaTime);
    CollisionUngrounds(w1, overlaps);
    CollisionVelocities(w1, overlaps);
    CollisionGrounded(w1, overlaps);
  }

  class Game {
    const registry: Registry
    var systems: seq<System>
    var isPaused: bool
    var boxDropped: bool
    var drawGrid: bool
    var gridSize: int
    const screenWidth: int
    const screenHeight: int

    ghost predicate Valid()
      reads this, registry
    {
      registry.Valid() && (Physics in systems ==> registry.world.gravity.Some?)
    }

    /** `GravityGame(screenWidth, screenHeight, ...)`: paused, no box dropped,
        grid shown with size 20, no system yet and an empty registry. */
    constructor(screenWidth: int, screenHeight: int)
      ensures Valid() && fresh(registry)
      ensures this.screenWidth == screenWidth && this.screenHeight == screenHeight
      ensures isPaused && !boxDropped && drawGrid && gridSize == 20
      ensures systems == [] && registry.world == EMPTY_WORLD
    {
      registry := new Registry();
      this.screenWidth := screenWidth;
      this.screenHeight := screenHeight;
      systems := [];
      isPaused := true;
      boxDropped := false;
      drawGrid := true;
      gridSize := 20;
    }

    /** `CreateSystem<T>()`: the new system goes last. */
    method CreateSystem(s: System)
      modifies this
      ensures systems == old(systems) + [s]
      ensures unchanged(this`isPaused, this`boxDropped, this`drawGrid, this`gridSize)
    {
      systems := systems + [s];
    }

    /** `GravityGame::Init`. The three new entities and the text system are
        returned so that the contract can name them. */
    method Init() returns (box: Entity, platform: Entity, text: Entity, textSystem: TextInterface)
      requires Valid()
      modifies this, registry
      ensures Valid()
      ensures box !in old(registry.world.order) && platform !in old(registry.world.order) && text !in old(registry.world.order)
      ensures box != platform && platform != text && box != text
      ensures registry.world == Scene(old(registry.world), box, platform, text, screenHeight)
      ensures fresh(textSystem) && textSystem.enabled
      ensures systems == old(systems) + [Physics] + [Collision] + [TextSystem(textSystem)]
      ensures unchanged(this`isPaused, this`boxDropped, this`drawGrid, this`gridSize)
    {
      box, platform, text := CreateScene(registry, screenHeight);
      CreateSystem(Physics);
      CreateSystem(Collision);
      textSystem := new TextInterface();
      CreateSystem(TextSystem(textSystem));
    }

    /** `GravityGame::HandleInput`: SPACE drops the grounded boxes, G toggles
        the grid, RIGHT or else LEFT resizes it. */
    method HandleInput(keys: GameKeys)
      requires Valid()
      modifies this, registry
      ensures Valid()
      ensures registry.world == if keys.space then SpaceResult(old(registry.world)) else old(registry.world)
      ensures drawGrid == (old(drawGrid) != keys.g)
      ensures gridSize == GridSizeAfter(old(gridSize), screenWidth, screenHeight, keys.right, keys.left)
      ensures systems == old(systems) && isPaused == old(isPaused) && boxDropped == old(boxDropped)
    {
      if keys.space {
        DropBoxes(registry);
      }
      if keys.g {
        drawGrid := !drawGrid;
      }
      ResizeGrid(keys.right, keys.left);
    }

    /** The arrow keys: RIGHT grows the grid by 5 up to the cap, otherwise
        LEFT shrinks it by 5 down to 5. */
    method ResizeGrid(right: bool, left: bool)
      modifies this`gridSize
      ensures gridSize == GridSizeAfter(old(gridSize), screenWidth, screenHeight, right, left)
    {
      if right {
        gridSize := gridSize + 5;
        if gridSize as real >= screenWidth as real * 0.25 {
          gridSize := Trunc(screenHeight as real * 0.25);
        }
      } else if left {
        gridSize := gridSize - 5;
        if gridSize <= 5 {
          gridSize := 5;
        }
      }
    }

    /** `GravityGame::Update`: every system runs once, in the order of
        creation. */
    method Update(deltaTime: real, overlaps: (Rect, Rect) -> bool)
      requires Valid()
      modifies registry
      ensures Valid()
      ensures registry.world == Pipeline(old(registry.world), systems, deltaTime, overlaps)
    {
      RunAll(registry, systems, deltaTime, overlaps);
    }

    /** `GravityGame::Cleanup`: the registry is emptied; the gravity context
        stays. */
    method Cleanup()
      requires Valid()
      modifies registry
      ensures Valid()
      ensures registry.world == EMPTY_WORLD.(gravity := old(registry.world.gravity))
    {
      registry.Clear();
    }
  }
}
