/** Tunable constants of the game (main.py, "Config" block and ship constants). */
module Config {
  /** Playfield size in pixels. */
  const W: int := 480
  const H: int := 720

  /** Ship physics, in pixels and seconds. */
  const GRAVITY: real := 1400.0
  const FLAP_VY: real := -460.0
  const MAX_VY: real := 900.0
  const THRUST_TIME: real := 0.18

  /** The velocity window that drives the tilt, and the tilt's extreme in degrees. */
  const TILT_VY: real := 420.0
  const MAX_TILT: real := 12.0

  /** Gate geometry and stream. */
  const GATE_W: int := 92
  const GATE_GAP: int := 200
  const GATE_MIN: int := 70
  const GATE_MAX: int := H - 230
  const GATE_SPACING: int := 250
  const SCROLL_SPEED: real := 260.0
  const GATE_COUNT: int := 4

  /** Inclusive range of gap centres that spawning may draw. */
  const GAP_LO: int := GATE_MIN + GATE_GAP / 2
  const GAP_HI: int := GATE_MAX - GATE_GAP / 2

  /** x of the first gate of a fresh run. */
  const SPAWN_X: int := W + 120

  /** Gates are recycled once their trailing edge is left of this x. */
  const RECYCLE_EDGE: real := -20.0

  /** Where a fresh ship starts, and the size its sprite is scaled to. */
  const SHIP_X: real := W as real * 0.25
  const SHIP_Y: real := H as real * 0.5
  const SHIP_SIZE: int := 72

  predicate InSpawnRange(gapY: int) {
    GAP_LO <= gapY <= GAP_HI
  }
}
