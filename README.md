# Gate-runner game core in Dafny

A model of the per-frame game logic of a side-scrolling arcade game (`main.py`).
The player's ship flaps against gravity through a stream of gates. Each gate is a
pair of columns with a gap between them. The run scores one point per gate whose
trailing edge passes the ship. It ends when the ship leaves the playfield rows or
when its sprite's opacity mask overlaps a gate column.

Modules, one per component of `main.py`:

- `Config` (`config.dfy`): the game's constants (playfield 480x720, gravity, flap
  impulse, speed cap, gate width, gap, spacing, scroll speed, spawn range 170..390).
- `Geometry` (`geometry.dfy`): Python's `int()` truncation, `clamp8`, `lerp`,
  pygame rectangles, `get_rect(center=...)` and `colliderect`.
- `Collision` (`collision.dfy`): the opacity mask as a 2D boolean grid,
  `mask_rect_overlap` as a scan of that grid, and the broad-then-narrow test the
  frame loop runs for one gate column.
- `Ships` (`ship.dfy`): class `Ship` with `Flap` and `Update`. The pure physics
  steps are functions: capped fall velocity and velocity-to-tilt.
- `Gates` (`gates.dfy`): the `Gate` record with its two column rectangles, and the
  gate queue. The queue has specification functions (`ScrollAll`, `Recycle`,
  `MarkPassed`, `Flips`). The source's `for` loops are methods proved against them
  (`SpawnGates`, `ScrollGates`, `ScoreGates`, `FirstGateHit`).
- `Simulation` (`game.dfy`): class `Game`, holding the run state (ship, gates,
  score, best, started, running). `Step` is one frame of `main()`: input handling,
  then a tick when the run is started and running.

Inputs that the source takes from the environment are parameters. The random gap
centres come in as `gaps` (four draws for a reset) and `newGap` (one draw for a
recycle), each constrained to the spawn range. The elapsed time is `dt`. The
decoded key and mouse events are `flap` and `restart`. The rotated sprite's mask
is `rotated`, supplied by the image library. Positions and velocities are `real`.

`Game.Valid()` is the invariant of a run. It holds after every `Step` and states:

- there are exactly four gates, each `GATE_SPACING` beyond the one before;
- every gap centre is in the spawn range;
- a gate is flagged passed exactly when its trailing edge is left of the ship;
- `score <= best`;
- a run that has not started is running, has score 0 and a ship at rest at the
  start height.

Where a plain reading of the game and `main.py` differ, the model follows the code:

- The thrust timer is decremented only while positive. It is not floored at 0,
  so it can end slightly negative.
- A flap while the game is over only resets the run. The new run is not started
  and the ship does not flap; a second flap starts it. A flap in the same frame
  as the restart key does start the new run.
- The lowest gap centre that spawning can draw (170) leaves a top column 70
  pixels high, not 0. Both columns of every spawned gate have positive height.
- After the boundary check ends the run, the gate collision loop still runs in
  the same tick. It can only set `running` to false again.

## Model

| member | source | states |
|---|---|---|
| `Geometry.Trunc` | main.py:291 | `int()` truncates toward zero: the result is within one of x, on x's side of zero |
| `Geometry.TruncVersusFloor` | main.py:291 | for every x: `int(x)` equals the floor when x >= 0 or x is whole, and the floor plus one when x is negative with a fraction (`int(-0.5) == 0`) |
| `Geometry.Clamp8` | main.py:91 | result lies in 0..255, equals `int(x)` inside that range and saturates outside it |
| `Geometry.Lerp` | main.py:90 | returns a at t = 0, b at t = 1, and a when a == b |
| `Geometry.Centered` | main.py:265 | rectangle has the image size and (cx, cy) at its middle; an odd extra pixel falls right of and below the centre |
| `Geometry.CollideRect` | main.py:379 | strict overlap of two rectangles with area, as `colliderect`; its meaning is stated by the next three rows |
| `Geometry.CollideRectSharesPixel` | main.py:379 | `colliderect` holds exactly when the two rectangles share a pixel; touching edges do not collide |
| `Geometry.CollideRectTranslate` | main.py:379 | moving both rectangles by the same amount leaves `colliderect` unchanged |
| `Geometry.CollideRectSymmetric` | main.py:383 | `colliderect` does not depend on argument order |
| `Collision.RowHits` | main.py:88 | the row scan is true exactly when a set pixel of the row lies in the column window |
| `Collision.WindowHits` | main.py:88 | the row-by-row scan is true exactly when a set pixel lies in the window `[dx,dx+w) x [dy,dy+h)` |
| `Collision.MaskRectOverlap` | main.py:82-88 | false for a rectangle with width or height <= 0; otherwise true iff some set mask pixel lies in the rectangle placed at the offset |
| `Collision.HitsRect` | main.py:379-385 | one column test of the frame loop: `colliderect`, then `mask_rect_overlap` with the offset `gate.x - ship.x, gate.y - ship.y` |
| `Collision.NarrowPhaseOnScreen` | main.py:380-381 | with the origin difference as offset, the narrow phase holds iff a set mask pixel, drawn at the ship rectangle, covers a screen pixel of the gate column |
| `Collision.HitsRectTranslate` | main.py:379-385 | translating ship rectangle and gate rectangle together does not change the collision verdict |
| `Collision.BroadPhaseIsSound` | main.py:379-385 | when the mask has the ship rectangle's size, the broad phase never discards a narrow-phase hit |
| `Ships.FallVelocity` | main.py:257 | velocity after gravity is at most `MAX_VY`, at most `vy + GRAVITY*dt`, and equal to one of the two |
| `Ships.FallNeverRises` | main.py:257 | with dt >= 0 the update never makes the ship climb faster |
| `Ships.FlapSpeedNotClipped` | main.py:257-262 | for ticks up to 0.5 s after a flap the velocity is exactly `-460 + 1400*dt`, unclipped, although -460 lies outside the tilt window of 420 where the tilt saturates at +12 |
| `Ships.Tilt` | main.py:261-262 | tilt lies in [-12, 12]; it is -12 from 420 down, +12 from -420 up, negative when falling, positive when climbing, 0 at rest |
| `Ships.TiltAntitone` | main.py:261-262 | a faster fall never gives a higher nose |
| `Ships.Advance` | main.py:258 | `y + vy*dt`, the position update that `Ship.Update` states its new `y` with |
| `Ships.Ship.constructor` | main.py:218-238 | ship at (120, 360), at rest, angle 0, timer 0, with the unrotated mask and a rectangle centred on (120, 360) |
| `Ships.Ship.Flap` | main.py:243-245 | velocity becomes exactly -460 and the timer 0.18; position, angle, rectangle and mask are unchanged |
| `Ships.Ship.Update` | main.py:256-266 | capped fall velocity, `y += vy*dt`, timer reduced by dt only when positive, tilt from the new velocity, mask and rectangle regenerated together; keeps `vy <= 900` and the tilt within 12 degrees |
| `Gates.Gate.TopRect` | main.py:290-291 | x = `int(x)`, width 92, from row 0 down to the top of the gap at `gap_y-100` |
| `Gates.Gate.BotRect` | main.py:292-295 | x = `int(x)`, width 92, from the bottom of the gap at `gap_y+100` down to row 720 |
| `Gates.Gate.Crossed` | main.py:374 | the gate's trailing edge `x+92` is left of the ship's x; `MarkPassed` and `Game.Valid` tie the passed flag to it |
| `Gates.GateHit` | main.py:378-386 | the ship hits the gate's top column or its bottom column; `FirstGateHit` finds the first gate for which it holds |
| `Gates.GateRectsShape` | main.py:290-295 | both columns have x = `int(x)` and width 92; the top column ends at `gap_y-100`; the bottom column starts 200 rows lower and ends at row 720; the heights sum to 520 |
| `Gates.SpawnedGateRectsNonEmpty` | main.py:305-306 | for every gap centre spawning can draw, the top column is at least 70 and the bottom column at least 230 pixels high |
| `Gates.GateColumnPartition` | main.py:290-295 | inside the playfield, a pixel is in a column iff it is in the gate's x range and outside the 200-pixel gap |
| `Gates.SpacedAscending` | main.py:371-372 | evenly spaced gates are strictly ascending, with x differing by a multiple of 250 |
| `Gates.FreshRow` | main.py:309-312 | the fresh gate row: one unpassed gate per gap draw, with that draw as its gap centre, the first at x = 600, evenly spaced 250 apart |
| `Gates.SpawnGates` | main.py:309-312 | the add_gate loop of reset_game builds exactly the fresh row `FreshRow(gaps)` |
| `Gates.ScrollAll` | main.py:297-298 | every gate moves left by `SCROLL_SPEED*dt`; gap and passed flag are unchanged |
| `Gates.ScrollGates` | main.py:370 | the update loop over the gates computes `ScrollAll` |
| `Gates.ScrollKeepsSpacing` | main.py:370 | scrolling keeps the gates evenly spaced |
| `Gates.NeedsRecycle` | main.py:371 | the queue is non-empty and the head gate's trailing edge is left of -20 |
| `Gates.Recycle` | main.py:371-372 | keeps the length; unchanged unless the head needs recycling, in which case the head is dropped and an unpassed gate with the new gap is appended 250 beyond the last |
| `Gates.RecycleKeepsQueue` | main.py:371-372 | recycling a spaced queue of two or more gates with an in-range draw keeps it evenly spaced and every gap centre in range |
| `Gates.MarkPassed` | main.py:373-375 | passed flags only go from false to true, exactly for gates whose trailing edge is left of the ship; x and gap are unchanged |
| `Gates.Flips` | main.py:373-375 | the number of flags flipped in a tick is at most the number of gates |
| `Gates.FlipsArePassedDelta` | main.py:373-375 | marking raises the number of passed gates by exactly the number of flips |
| `Gates.TickKeepsPassedExact` | main.py:370-375 | after scroll, recycle and scoring, a gate is passed exactly when it has crossed the ship |
| `Gates.ScoreGates` | main.py:373-375 | the scoring loop marks the gates, adds one point per flip, and raises best to the new score when a flip happened |
| `Gates.FirstGateHit` | main.py:378-386 | the collision loop reports a hit iff some gate's top or bottom column hits, and stops at the first such gate |
| `Simulation.OutOfBounds` | main.py:376-377 | the ship rectangle's top is above row 0 or its bottom below row 720; its meaning is stated by the next row |
| `Simulation.OutOfBoundsIffRowOutside` | main.py:376-377 | the boundary check holds iff the ship rectangle covers a row above 0 or at/below 720; top == 0 and bottom == 720 do not end the run |
| `Simulation.FreshGatesValid` | main.py:311-313 | a fresh gate row is four unpassed gates at 600, 850, 1100 and 1350, evenly spaced, with gaps in range |
| `Simulation.Game.constructor` | main.py:347-348 | initial state: fresh gates, score 0, best 0, not started, running, ship at rest at (120, 360) with angle 0, timer 0 and the unrotated sprite mask, ship rectangle (84, 324, 72, 72) inside the playfield |
| `Simulation.Game.Reset` | main.py:309-313 | fresh ship at rest at (120, 360), fresh gates, score 0, not started, running; best kept |
| `Simulation.Game.HandleInput` | main.py:360-366 | restart resets (fresh ship at rest with angle 0, timer 0 and the sprite mask, fresh gates, score 0); a flap while running starts the run and flaps, keeping the ship's position, angle, rectangle and mask; a flap while over resets and leaves the run not started; with no input nothing changes |
| `Simulation.Game.AdvanceGates` | main.py:370-375 | gates scroll, recycle and get marked; score grows by exactly the number of newly passed flags; best = max(best, score) |
| `Simulation.Game.CheckTermination` | main.py:376-386 | running stays true only if the ship is inside the rows and hits no gate column |
| `Simulation.Game.Tick` | main.py:368-386 | one tick in source order: the ship's whole new state (velocity, position, timer, tilt, mask, rectangle), then scroll, recycle and scoring, then termination iff out of bounds or a gate hit; `Valid()` is preserved |
| `Simulation.Game.Step` | main.py:360-386 | one frame: the restart key alone or a flap after game over gives a fresh, unstarted run (four fresh gates, score 0, ship at rest with angle 0, timer 0 and the sprite mask); restart with a flap starts the fresh run, flaps and ticks it in the same frame (ship velocity, position, timer, tilt, mask and rectangle, the fresh row scrolled, recycled and scored, the running verdict); a live run (already started, or started by this flap) ticks once with the ship's new velocity, position, timer, tilt, mask and rectangle and the tick's gate, score, best and running outcome; without input an idle or finished game does not change; a stopped game runs again only with a fresh ship; best never decreases |

## Left out

- Rendering (`draw_soft_fill`, `draw_scan_band`, `draw_label_vertical`, `draw_panel`, `Gate.draw`, `Ship.draw`, `draw_background`, `draw_hud`): pixel and colour effects with no effect on the game state.
- `load_image` and the exit on a missing ship sprite: file I/O at startup. The model starts from a given sprite mask.
- Event polling, `clock.tick`, the window and the endless loop: `Step` takes the decoded `flap` and `restart`, and `dt`. Several restart key presses in one frame are modelled as one reset. Quit and Escape are not modelled.
- `pygame.transform.rotozoom`, `smoothscale`, `mask.from_surface` and `get_bounding_rects`: image library calls. The rotated sprite's mask is an input to `Ship.Update`, and its size is the ship rectangle's size.
- `nozzle_pos` and the flame: trigonometry used only for drawing. The thrust timer is modelled, but nothing reads it.
- `random.randint`: the draws are inputs constrained to the spawn range 170..390.
- IEEE floating-point rounding: positions, velocities and `dt` are exact reals. So the gate spacing stays exactly 250, where floats could drift by rounding. `int()` truncation of gate and ship positions is modelled exactly.
- Geometry.CollideRect: pygame normalises rectangles of negative size; the model lets such rectangles collide with nothing. Neither the ship rectangle nor any spawned gate column has a non-positive size.
- Geometry.Lerp: the contract gives the endpoints only. That the result lies between a and b for t in [0, 1] is not proved, because the solver's nonlinear real arithmetic does not close it reliably; nothing in the game state depends on `lerp`, which only places the decorative scan band.
- Gates.Recycle: a queue of exactly one gate is excluded, because the source would then read the last gate of an empty list. The queue always holds four gates.
- The number of ticks until an unflapped ship leaves the playfield is not derived. It depends on float rounding and on the rotated sprite's size, which the model takes as input.
