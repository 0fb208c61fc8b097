/** The component records of include/Components.h (and the game-specific
    `Droppable` of include/GravityGame.h), with the raylib value types they
    use. Floats are modelled as reals. */
module Components {
  import opened Common

  /** raylib `Vector2` and `ecs::Vec2D`. */
  datatype Vec2 = Vec2(x: real, y: real)

  /** raylib `Rectangle`: top-left corner and extent. */
  datatype Rect = Rect(x: real, y: real, width: real, height: real)

  type Channel = c: int | 0 <= c < 256

  /** raylib `Color`. */
  datatype Color = Color(r: Channel, g: Channel, b: Channel, a: Channel)

  const WHITE: Color := Color(255, 255, 255, 255)
  const BLACK: Color := Color(0, 0, 0, 255)
  const RED: Color := Color(230, 41, 55, 255)
  const GREEN: Color := Color(0, 228, 48, 255)
  const BLUE: Color := Color(0, 121, 241, 255)
  const LIGHTGRAY: Color := Color(200, 200, 200, 255)

  const ZERO: Vec2 := Vec2(0.0, 0.0)

  /** Linear and angular motion state of a body. */
  datatype RigidBody = RigidBody(
    velocity: Vec2,
    acceleration: Vec2,
    mass: real,
    inverseMass: real,
    angularVelocity: real,
    angularAcceleration: real,
    momentOfInertia: real,
    inverseMomentOfInertia: real)

  /** A default-constructed `RigidBody{}`: at rest, unit mass and inertia. */
  const DEFAULT_RIGID_BODY: RigidBody :=
    RigidBody(ZERO, ZERO, 1.0, 1.0, 0.0, 0.0, 1.0, 1.0)

  /** `RigidBody::setMass`: the inverse mass is kept in step with the mass,
      and a zero mass gets a zero inverse instead of a division by zero. */
  function SetMass(b: RigidBody, m: real): (r: RigidBody)
    ensures r.mass == m
    ensures m == 0.0 ==> r.inverseMass == 0.0
    ensures m != 0.0 ==> r.mass * r.inverseMass == 1.0
    ensures r.(mass := b.mass, inverseMass := b.inverseMass) == b
  {
    b.(mass := m, inverseMass := if m == 0.0 then 0.0 else 1.0 / m)
  }

  /** Setting the mass twice is the same as setting it once to the second value. */
  lemma SetMassLastWins(b: RigidBody, m1: real, m2: real)
    ensures SetMass(SetMass(b, m1), m2) == SetMass(b, m2)
  {
  }

  /** The default body already obeys the invariant `setMass` keeps. */
  lemma DefaultBodyConsistent()
    ensures SetMass(DEFAULT_RIGID_BODY, DEFAULT_RIGID_BODY.mass) == DEFAULT_RIGID_BODY
  {
  }

  /** `ecs::Tile`: an empty tile by default. */
  datatype Tile = Tile(value: int)
  const DEFAULT_TILE: Tile := Tile(0)

  /** `ecs::Collidable`: set when something lands on the entity. */
  datatype Collidable = Collidable(isColliding: bool)
  const DEFAULT_COLLIDABLE: Collidable := Collidable(false)

  /** `ecs::Gravity`, kept as a registry context value. */
  datatype Gravity = Gravity(value: real)
  const DEFAULT_GRAVITY: Gravity := Gravity(9.81)

  /** `ecs::MouseInteractible`. */
  datatype MouseInteractible = MouseInteractible(hovered: bool, wasClicked: bool, selected: bool)
  const DEFAULT_MOUSE_INTERACTIBLE: MouseInteractible := MouseInteractible(false, false, false)

  /** `ecs::Droppable` (declared in include/GravityGame.h). */
  datatype Droppable = Droppable(dropped: bool)
  const DEFAULT_DROPPABLE: Droppable := Droppable(false)

  /** `ecs::Drawable`: both tints default to white. */
  datatype Drawable = Drawable(defaultTint: Color, tint: Color)

  /** Aggregate initialisation `Drawable{c}`: only the first member is given,
      the second keeps its default. */
  function DrawableOf(c: Color): (d: Drawable)
    ensures d.defaultTint == c && d.tint == WHITE
  {
    Drawable(c, WHITE)
  }

  /** `ecs::Text`. */
  datatype Text = Text(content: string, position: Vec2, fontSize: int, color: Color)

  /** `ecs::Animation` without its texture. */
  datatype Animation = Animation(currentFrame: int, frameCount: int, frameTime: real, elapsedTime: real)

  /** The `Animation` constructor: a non-positive frame count ends the
      process, which is `None` here; otherwise the animation starts at its
      first frame with no time elapsed. */
  function NewAnimation(frameCount: int, frameTime: real): (r: Option<Animation>)
    ensures r.Some? <==> frameCount > 0
    ensures r.Some? ==> r.value.currentFrame == 0 && r.value.elapsedTime == 0.0
    ensures r.Some? ==> r.value.frameCount == frameCount && r.value.frameTime == frameTime
  {
    if frameCount <= 0 then None else Some(Animation(0, frameCount, frameTime, 0.0))
  }
}
