/** The player's ship: flap impulse, gravity, tilt and its collision sprite. */
module Ships {
  import opened Config
  import opened Geometry
  import opened Collision

  /** Vertical velocity after one tick of gravity; only falling is capped. */
  function FallVelocity(vy: real, dt: real): (v: real)
    ensures v <= MAX_VY
    ensures v <= vy + GRAVITY * dt
    ensures v == vy + GRAVITY * dt || v == MAX_VY
  {
    if vy + GRAVITY * dt < MAX_VY then vy + GRAVITY * dt else MAX_VY
  }

  /** With a non-negative tick, gravity and the cap never push the ship upward. */
  lemma FallNeverRises(vy: real, dt: real)
    requires 0.0 <= dt && vy <= MAX_VY
    ensures vy <= FallVelocity(vy, dt)
  {
  }

  /**
   * The flap speed lies outside the tilt window: only the angle saturates,
   * while the velocity itself is never clipped upward.
   */
  lemma FlapSpeedNotClipped(dt: real)
    requires 0.0 <= dt <= 0.5
    ensures FallVelocity(FLAP_VY, dt) == FLAP_VY + GRAVITY * dt
    ensures FLAP_VY < -TILT_VY && Tilt(FLAP_VY) == MAX_TILT
  {
  }

  /**
   * Tilt in degrees for a velocity: the velocity is clamped to
   * [-TILT_VY, TILT_VY] and mapped linearly onto [MAX_TILT, -MAX_TILT]
   * (nose up while climbing, nose down while falling).
   */
  function Tilt(vy: real): (deg: real)
    ensures -MAX_TILT <= deg <= MAX_TILT
    ensures TILT_VY <= vy ==> deg == -MAX_TILT
    ensures vy <= -TILT_VY ==> deg == MAX_TILT
    ensures vy > 0.0 ==> deg < 0.0
    ensures vy < 0.0 ==> deg > 0.0
    ensures vy == 0.0 ==> deg == 0.0
  {
    var clamped := if TILT_VY < vy then TILT_VY else if vy < -TILT_VY then -TILT_VY else vy;
    -clamped / TILT_VY * MAX_TILT
  }

  /** Falling faster never tilts the nose further up. */
  lemma TiltAntitone(v1: real, v2: real)
    requires v1 <= v2
    ensures Tilt(v2) <= Tilt(v1)
  {
  }

  /** Position after moving at velocity vy for dt seconds. */
  function Advance(y: real, vy: real, dt: real): (r: real) {
    y + vy * dt
  }

  class Ship {
    var x: real
    var y: real
    var vy: real
    /** Rotation of the sprite in degrees. */
    var angle: real
    /** Time left on the thrust flame. */
    var thrust: real
    /** The rotated sprite's rectangle and its opacity mask, regenerated together. */
    var rect: Rect
    var mask: Mask

    ghost predicate Valid()
      reads this
    {
      x == SHIP_X && vy <= MAX_VY && -MAX_TILT <= angle <= MAX_TILT &&
      mask.WellFormed() && rect == Centered(Trunc(x), Trunc(y), mask.w, mask.h)
    }

    /** A fresh ship at the start position, at rest, with the unrotated sprite. */
    constructor (sprite: Mask)
      requires sprite.WellFormed()
      ensures Valid()
      ensures x == SHIP_X && y == SHIP_Y && vy == 0.0 && angle == 0.0 && thrust == 0.0
      ensures mask == sprite && rect == Centered(120, 360, sprite.w, sprite.h)
    {
      x, y, vy := SHIP_X, SHIP_Y, 0.0;
      mask := sprite;
      rect := Centered(Trunc(SHIP_X), Trunc(SHIP_Y), sprite.w, sprite.h);
      angle, thrust := 0.0, 0.0;
    }

    /** Overwrite the velocity with the flap impulse and restart the flame. */
    method Flap()
      requires Valid()
      modifies this
      ensures Valid()
      ensures vy == FLAP_VY && thrust == THRUST_TIME
      ensures x == old(x) && y == old(y) && angle == old(angle)
      ensures rect == old(rect) && mask == old(mask)
    {
      vy := FLAP_VY;
      thrust := THRUST_TIME;
    }

    /**
     * One tick of physics. rotated is the sprite's opacity mask after
     * rotation by the new angle, supplied by the image library.
     */
    method Update(dt: real, rotated: Mask)
      requires Valid() && rotated.WellFormed()
      modifies this
      ensures Valid()
      ensures vy == FallVelocity(old(vy), dt)
      ensures y == Advance(old(y), vy, dt)
      ensures thrust == if old(thrust) > 0.0 then old(thrust) - dt else old(thrust)
      ensures angle == Tilt(vy)
      ensures x == old(x)
      ensures mask == rotated && rect == Centered(Trunc(x), Trunc(y), rotated.w, rotated.h)
    {
      vy := FallVelocity(vy, dt);
      var moved := Advance(y, vy, dt);
      y := moved;
      if thrust > 0.0 {
        thrust := thrust - dt;
      }
      angle := Tilt(vy);
      mask := rotated;
      var cx, cy := Trunc(x), Trunc(moved);
      rect := Centered(cx, cy, rotated.w, rotated.h);
    }
  }
}
