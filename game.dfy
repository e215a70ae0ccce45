/** The run state and one iteration of the frame loop of main() (main.py:360-386). */
module Simulation {
  import opened Config
  import opened Geometry
  import opened Collision
  import opened Ships
  import opened Gates

  /** A pixel row outside the playfield. */
  predicate OffField(py: int) {
    py < 0 || H <= py
  }

  /** Boundary termination: the ship's rectangle reaches above row 0 or below row H. */
  predicate OutOfBounds(r: Rect) {
    r.y < 0 || r.Bottom() > H
  }

  /**
   * A rectangle with height is out of bounds exactly when one of its pixel
   * rows lies outside the playfield rows [0, H); touching row 0 or ending
   * at H is still inside.
   */
  lemma OutOfBoundsIffRowOutside(r: Rect)
    requires r.h > 0
    ensures OutOfBounds(r) <==> exists py :: r.y <= py < r.Bottom() && OffField(py)
  {
    if OutOfBounds(r) {
      if r.y < 0 {
        assert r.y <= r.y < r.Bottom() && OffField(r.y);
      } else {
        assert r.y <= r.Bottom() - 1 < r.Bottom() && OffField(r.Bottom() - 1);
      }
    }
  }

  /** The random gap draws of reset_game, all inside the spawn range. */
  predicate ResetDraws(gaps: seq<int>) {
    |gaps| == GATE_COUNT && forall k :: 0 <= k < |gaps| ==> InSpawnRange(gaps[k])
  }

  /** A fresh run's gate row is a valid queue: four evenly spaced gates in range, none passed. */
  lemma FreshGatesValid(gaps: seq<int>)
    requires ResetDraws(gaps)
    ensures |FreshRow(gaps)| == GATE_COUNT && Spaced(FreshRow(gaps)) && GapsInRange(FreshRow(gaps))
    ensures FreshRow(gaps)[0].x == 600.0 && FreshRow(gaps)[1].x == 850.0
    ensures FreshRow(gaps)[2].x == 1100.0 && FreshRow(gaps)[3].x == 1350.0
    ensures PassedExactly(FreshRow(gaps), SHIP_X)
  {
  }

  class Game {
    /** The ship sprite's unrotated opacity mask, loaded once at startup. */
    const sprite: Mask
    var ship: Ship
    var gates: seq<Gate>
    var score: nat
    var best: nat
    var started: bool
    var running: bool

    /**
     * Invariant of the run: a queue of four evenly spaced gates whose passed
     * flags are exactly the gates behind the ship, best at least score, and a
     * not-started run is a fresh, running one.
     */
    ghost predicate Valid()
      reads this, ship
    {
      sprite.WellFormed() && ship.Valid() &&
      |gates| == GATE_COUNT && Spaced(gates) && GapsInRange(gates) &&
      PassedExactly(gates, ship.x) &&
      score <= best &&
      (!started ==> running && score == 0 && ship.y == SHIP_Y && ship.vy == 0.0)
    }

    /** The state main() enters before the first frame: reset_game with best 0. */
    constructor (shipSprite: Mask, gaps: seq<int>)
      requires shipSprite.WellFormed() && shipSprite.w == SHIP_SIZE && shipSprite.h == SHIP_SIZE
      requires ResetDraws(gaps)
      ensures Valid()
      ensures sprite == shipSprite && gates == FreshRow(gaps)
      ensures score == 0 && best == 0 && !started && running
      ensures ship.rect == Rect(84, 324, SHIP_SIZE, SHIP_SIZE) && !OutOfBounds(ship.rect)
      ensures ship.y == SHIP_Y && ship.vy == 0.0
      ensures ship.angle == 0.0 && ship.thrust == 0.0 && ship.mask == shipSprite
    {
      var row := SpawnGates(gaps);
      FreshGatesValid(gaps);
      sprite := shipSprite;
      ship := new Ship(shipSprite);
      gates := row;
      score, best, started, running := 0, 0, false, true;
    }

    /** reset_game: a fresh ship and gate row, score 0, not started, running. */
    method Reset(gaps: seq<int>)
      requires Valid() && ResetDraws(gaps)
      modifies this
      ensures Valid()
      ensures fresh(ship)
      ensures ship.x == SHIP_X && ship.y == SHIP_Y && ship.vy == 0.0
      ensures ship.angle == 0.0 && ship.thrust == 0.0 && ship.mask == sprite
      ensures gates == FreshRow(gaps)
      ensures score == 0 && !started && running && best == old(best)
    {
      ship := new Ship(sprite);
      gates := SpawnGates(gaps);
      score, started, running := 0, false, true;
      FreshGatesValid(gaps);
    }

    /**
     * The input half of a frame: the restart key resets; then a flap starts
     * the run and flaps while it is running, and otherwise resets it.
     */
    method HandleInput(flap: bool, restart: bool, gaps: seq<int>)
      requires Valid() && ResetDraws(gaps)
      modifies this, ship
      ensures Valid()
      ensures best == old(best)
      ensures running == (old(running) || restart || flap)
      ensures started == if restart then flap else if flap then old(running) else old(started)
      ensures restart || (flap && !old(running)) ==>
                fresh(ship) && gates == FreshRow(gaps) && score == 0 &&
                ship.y == SHIP_Y && ship.angle == 0.0 && ship.mask == sprite
      ensures (restart && !flap) || (!restart && flap && !old(running)) ==>
                ship.vy == 0.0 && ship.thrust == 0.0
      ensures !restart && !(flap && !old(running)) ==>
                ship == old(ship) && gates == old(gates) && score == old(score) &&
                ship.y == old(ship.y) && ship.angle == old(ship.angle) && ship.rect == old(ship.rect)
      ensures flap && (restart || old(running)) ==> ship.vy == FLAP_VY && ship.thrust == THRUST_TIME
      ensures !restart && flap && old(running) ==> ship.mask == old(ship.mask)
      ensures !flap && !restart ==> unchanged(ship)
    {
      if restart {
        Reset(gaps);
      }
      if flap {
        if running {
          started := true;
          ship.Flap();
        } else {
          Reset(gaps);
        }
      }
    }

    /**
     * The gate half of a tick: scroll every gate, recycle at most the head
     * gate, then score the gates that have newly crossed the ship.
     */
    method AdvanceGates(dt: real, newGap: int)
      requires Valid() && started && 0.0 <= dt && InSpawnRange(newGap)
      modifies this`gates, this`score, this`best
      ensures Valid()
      ensures gates == MarkPassed(Recycle(ScrollAll(old(gates), dt), newGap), ship.x)
      ensures score == old(score) + Flips(Recycle(ScrollAll(old(gates), dt), newGap), ship.x)
      ensures best == Max(old(best), score)
      ensures score - old(score) ==
              PassedCount(gates) - PassedCount(Recycle(ScrollAll(old(gates), dt), newGap))
    {
      var moved := ScrollGates(gates, dt);
      ScrollKeepsSpacing(gates, dt);
      RecycleKeepsQueue(moved, newGap);
      TickKeepsPassedExact(gates, dt, newGap, ship.x);
      moved := Recycle(moved, newGap);
      FlipsArePassedDelta(moved, ship.x);
      gates, score, best := ScoreGates(moved, ship.x, score, best);
    }

    /**
     * The termination half of a tick: the boundary check, then the gate
     * collision loop, which stops at the first confirmed hit.
     */
    method CheckTermination()
      requires Valid() && started
      modifies this`running
      ensures Valid()
      ensures running == (old(running) && !OutOfBounds(ship.rect) &&
                          forall k :: 0 <= k < |gates| ==> !GateHit(ship.rect, ship.mask, gates[k]))
    {
      if OutOfBounds(ship.rect) {
        running := false;
      }
      var hit, _ := FirstGateHit(ship.rect, ship.mask, gates);
      if hit {
        running := false;
      }
    }

    /**
     * One simulation tick of a started, running game: ship physics, gate
     * scroll, at most one recycle, scoring, then boundary and gate collision.
     */
    method Tick(dt: real, newGap: int, rotated: Mask)
      requires Valid() && started && running
      requires 0.0 <= dt && InSpawnRange(newGap) && rotated.WellFormed()
      modifies this, ship
      ensures Valid()
      ensures ship == old(ship) && started
      ensures ship.vy == FallVelocity(old(ship.vy), dt) && ship.y == Advance(old(ship.y), ship.vy, dt)
      ensures ship.thrust == if old(ship.thrust) > 0.0 then old(ship.thrust) - dt else old(ship.thrust)
      ensures ship.angle == Tilt(ship.vy) && ship.mask == rotated
      ensures ship.rect == Centered(Trunc(SHIP_X), Trunc(ship.y), rotated.w, rotated.h)
      ensures gates == MarkPassed(Recycle(ScrollAll(old(gates), dt), newGap), ship.x)
      ensures score == old(score) + Flips(Recycle(ScrollAll(old(gates), dt), newGap), ship.x)
      ensures best == Max(old(best), score)
      ensures !running <==> OutOfBounds(ship.rect) ||
                            exists k :: 0 <= k < |gates| && GateHit(ship.rect, ship.mask, gates[k])
    {
      ship.Update(dt, rotated);
      assert Valid();
      AdvanceGates(dt, newGap);
      CheckTermination();
    }

    /**
     * One frame of main(): decoded inputs, the elapsed time, the random gap
     * draws a reset or a recycle would make, and the rotated sprite's mask.
     */
    method Step(flap: bool, restart: bool, dt: real, gaps: seq<int>, newGap: int, rotated: Mask)
      requires Valid() && 0.0 <= dt
      requires ResetDraws(gaps) && InSpawnRange(newGap) && rotated.WellFormed()
      modifies this, ship
      ensures Valid()
      ensures best >= old(best)
      ensures !running ==> started
      // a stopped game runs again only with a fresh ship, that is after a reset
      ensures running && !old(running) ==> fresh(ship)
      // the restart key alone, or a flap after game over: a fresh, unstarted run
      ensures (restart && !flap) || (!restart && flap && !old(running)) ==>
                fresh(ship) && !started && running && score == 0 && best == old(best) &&
                gates == FreshRow(gaps) && ship.y == SHIP_Y && ship.vy == 0.0 &&
                ship.angle == 0.0 && ship.thrust == 0.0 && ship.mask == sprite
      // the restart key with a flap: a fresh run that starts, flaps and ticks at once
      ensures restart && flap ==>
                fresh(ship) && started && score == Flips(Recycle(ScrollAll(FreshRow(gaps), dt), newGap), SHIP_X) &&
                ship.vy == FallVelocity(FLAP_VY, dt) && ship.y == Advance(SHIP_Y, ship.vy, dt) &&
                ship.thrust == THRUST_TIME - dt && ship.angle == Tilt(ship.vy) && ship.mask == rotated &&
                ship.rect == Centered(Trunc(SHIP_X), Trunc(ship.y), rotated.w, rotated.h) &&
                gates == MarkPassed(Recycle(ScrollAll(FreshRow(gaps), dt), newGap), SHIP_X) &&
                best == Max(old(best), score) &&
                (!running <==> OutOfBounds(ship.rect) ||
                               exists k :: 0 <= k < |gates| && GateHit(ship.rect, ship.mask, gates[k]))
      // a live run, already started or started by this flap, ticks once
      ensures !restart && old(running) && (old(started) || flap) ==>
                started && ship == old(ship) &&
                ship.vy == FallVelocity(if flap then FLAP_VY else old(ship.vy), dt) &&
                ship.y == Advance(old(ship.y), ship.vy, dt) &&
                ship.thrust == (if flap then THRUST_TIME - dt
                                else if old(ship.thrust) > 0.0 then old(ship.thrust) - dt
                                else old(ship.thrust)) &&
                ship.angle == Tilt(ship.vy) && ship.mask == rotated &&
                ship.rect == Centered(Trunc(SHIP_X), Trunc(ship.y), rotated.w, rotated.h) &&
                gates == MarkPassed(Recycle(ScrollAll(old(gates), dt), newGap), SHIP_X) &&
                score == old(score) + Flips(Recycle(ScrollAll(old(gates), dt), newGap), SHIP_X) &&
                best == Max(old(best), score) &&
                (!running <==> OutOfBounds(ship.rect) ||
                               exists k :: 0 <= k < |gates| && GateHit(ship.rect, ship.mask, gates[k]))
      // without input, an idle or finished game does not change
      ensures !restart && !flap && !(old(started) && old(running)) ==>
                running == old(running) && started == old(started) &&
                ship == old(ship) && unchanged(ship) &&
                gates == old(gates) && score == old(score) && best == old(best)
      ensures old(running) && !restart ==> score >= old(score)
    {
      HandleInput(flap, restart, gaps);
      if started && running {
        Tick(dt, newGap, rotated);
      }
    }
  }
}
