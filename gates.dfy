/** Gates and the scrolling queue of gates (Gate, add_gate, reset_game and the gate part of the frame loop). */
module Gates {
  import opened Config
  import opened Geometry
  import opened Collision

  /** A gate: scroll position, centre of its gap, and whether it has been scored. */
  datatype Gate = Gate(x: real, gapY: int, passed: bool) {
    /** The column above the gap: from row 0 down to the top of the gap. */
    function TopRect(): (r: Rect)
      ensures r.x == Trunc(x) && r.w == GATE_W
      ensures r.y == 0 && r.Bottom() == gapY - GATE_GAP / 2
    {
      Rect(Trunc(x), 0, GATE_W, gapY - GATE_GAP / 2)
    }

    /** The column below the gap: from the bottom of the gap down to row H. */
    function BotRect(): (r: Rect)
      ensures r.x == Trunc(x) && r.w == GATE_W
      ensures r.y == gapY + GATE_GAP / 2 && r.Bottom() == H
    {
      var below := gapY + GATE_GAP / 2;
      Rect(Trunc(x), below, GATE_W, H - below)
    }

    /** The gate's trailing edge is left of the ship's x. */
    predicate Crossed(shipX: real) {
      x + GATE_W as real < shipX
    }
  }

  /** Both columns share x and width; between them lies exactly the gap. */
  lemma GateRectsShape(g: Gate)
    ensures g.TopRect().x == g.BotRect().x == Trunc(g.x)
    ensures g.TopRect().w == g.BotRect().w == GATE_W
    ensures g.TopRect().y == 0 && g.TopRect().Bottom() == g.gapY - GATE_GAP / 2
    ensures g.BotRect().y - g.TopRect().Bottom() == GATE_GAP
    ensures g.BotRect().Bottom() == H
    ensures g.TopRect().h + g.BotRect().h == H - GATE_GAP
  {
  }

  /** A gap centre that spawning can draw leaves both columns with positive height. */
  lemma SpawnedGateRectsNonEmpty(g: Gate)
    requires InSpawnRange(g.gapY)
    ensures g.TopRect().h >= GATE_MIN && g.BotRect().h >= 230
    ensures 0 < g.TopRect().h && 0 < g.BotRect().h
  {
  }

  /**
   * Within the playfield's rows, a pixel is covered by one of the gate's
   * columns exactly when it lies in the gate's x range and outside the gap.
   */
  lemma GateColumnPartition(g: Gate, px: int, py: int)
    requires InSpawnRange(g.gapY) && 0 <= py < H
    ensures (g.TopRect().Contains(px, py) || g.BotRect().Contains(px, py)) <==>
            (Trunc(g.x) <= px < Trunc(g.x) + GATE_W &&
             !(g.gapY - GATE_GAP / 2 <= py < g.gapY + GATE_GAP / 2))
  {
  }

  /** Collision of the ship (rectangle and mask) with either column of a gate. */
  predicate GateHit(ship: Rect, m: Mask, g: Gate) {
    HitsRect(ship, m, g.TopRect()) || HitsRect(ship, m, g.BotRect())
  }

  /** Consecutive gates are exactly GATE_SPACING apart. */
  predicate Spaced(gs: seq<Gate>) {
    forall k :: 0 < k < |gs| ==> gs[k].x == gs[k - 1].x + GATE_SPACING as real
  }

  predicate GapsInRange(gs: seq<Gate>) {
    forall k :: 0 <= k < |gs| ==> InSpawnRange(gs[k].gapY)
  }

  /** Evenly spaced gates are strictly ascending in x, and apart by a multiple of the spacing. */
  lemma {:induction false} SpacedAscending(gs: seq<Gate>, i: nat, j: nat)
    requires Spaced(gs) && i <= j < |gs|
    ensures gs[j].x == gs[i].x + ((j - i) * GATE_SPACING) as real
    ensures i < j ==> gs[i].x < gs[j].x
    decreases j - i
  {
    if i < j {
      SpacedAscending(gs, i, j - 1);
    }
  }

  /**
   * The gate row of a fresh run: add_gate at W+120, W+120+GATE_SPACING, ...,
   * one gate per gap draw, none passed, the first at the spawn column.
   */
  function FreshRow(gaps: seq<int>): (r: seq<Gate>)
    ensures |r| == |gaps| && Spaced(r)
    ensures forall k :: 0 <= k < |r| ==> r[k].gapY == gaps[k] && !r[k].passed
    ensures |r| > 0 ==> r[0].x == SPAWN_X as real
  {
    seq(|gaps|, k requires 0 <= k < |gaps| => Gate((SPAWN_X + k * GATE_SPACING) as real, gaps[k], false))
  }

  /** reset_game's add_gate loop, building the fresh row one gate at a time. */
  method SpawnGates(gaps: seq<int>) returns (gs: seq<Gate>)
    ensures gs == FreshRow(gaps)
  {
    gs := [];
    var spawn := SPAWN_X;
    for i := 0 to |gaps|
      invariant |gs| == i
      invariant forall k :: 0 <= k < i ==>
                  gs[k] == Gate((spawn + k * GATE_SPACING) as real, gaps[k], false)
    {
      gs := gs + [Gate((spawn + i * GATE_SPACING) as real, gaps[i], false)];
    }
  }

  /** Every gate moved left by SCROLL_SPEED * dt, nothing else changed. */
  function ScrollAll(gs: seq<Gate>, dt: real): (r: seq<Gate>)
    ensures |r| == |gs|
    ensures forall k :: 0 <= k < |gs| ==>
              r[k].x == gs[k].x - SCROLL_SPEED * dt && r[k].gapY == gs[k].gapY && r[k].passed == gs[k].passed
  {
    seq(|gs|, k requires 0 <= k < |gs| => gs[k].(x := gs[k].x - SCROLL_SPEED * dt))
  }

  /** Gate.update applied to each gate in turn. */
  method ScrollGates(gs: seq<Gate>, dt: real) returns (out: seq<Gate>)
    ensures out == ScrollAll(gs, dt)
  {
    out := gs;
    for i := 0 to |out|
      invariant |out| == |gs|
      invariant forall k :: 0 <= k < i ==> out[k] == gs[k].(x := gs[k].x - SCROLL_SPEED * dt)
      invariant forall k :: i <= k < |gs| ==> out[k] == gs[k]
    {
      out := out[i := out[i].(x := out[i].x - SCROLL_SPEED * dt)];
    }
  }

  lemma ScrollKeepsSpacing(gs: seq<Gate>, dt: real)
    requires Spaced(gs)
    ensures Spaced(ScrollAll(gs, dt))
  {
  }

  /** The head gate's trailing edge has left the screen by more than 20 pixels. */
  predicate NeedsRecycle(gs: seq<Gate>) {
    |gs| > 0 && gs[0].x + GATE_W as real < RECYCLE_EDGE
  }

  /**
   * Drop the head gate and append a fresh one GATE_SPACING behind the last.
   * A queue of one gate is excluded: after the pop there is no last gate to
   * measure from.
   */
  function Recycle(gs: seq<Gate>, newGap: int): (r: seq<Gate>)
    requires |gs| != 1
    ensures |r| == |gs|
    ensures !NeedsRecycle(gs) ==> r == gs
    ensures NeedsRecycle(gs) ==>
              r[..|gs| - 1] == gs[1..] &&
              r[|gs| - 1] == Gate(gs[|gs| - 1].x + GATE_SPACING as real, newGap, false)
  {
    if NeedsRecycle(gs) then
      var rest := gs[1..];
      rest + [Gate(rest[|rest| - 1].x + GATE_SPACING as real, newGap, false)]
    else gs
  }

  /** Recycling keeps the queue evenly spaced and every gap centre in range. */
  lemma RecycleKeepsQueue(gs: seq<Gate>, newGap: int)
    requires |gs| >= 2 && Spaced(gs) && GapsInRange(gs) && InSpawnRange(newGap)
    ensures Spaced(Recycle(gs, newGap)) && GapsInRange(Recycle(gs, newGap))
  {
  }

  /** Every gate flagged passed has its trailing edge left of shipX. */
  predicate PassedOnlyIfCrossed(gs: seq<Gate>, shipX: real) {
    forall k :: 0 <= k < |gs| ==> gs[k].passed ==> gs[k].Crossed(shipX)
  }

  /** A gate is flagged passed exactly when its trailing edge is left of shipX. */
  predicate PassedExactly(gs: seq<Gate>, shipX: real) {
    forall k :: 0 <= k < |gs| ==> (gs[k].passed <==> gs[k].Crossed(shipX))
  }

  /** Mark every unpassed gate whose trailing edge is left of shipX. */
  function MarkPassed(gs: seq<Gate>, shipX: real): (r: seq<Gate>)
    ensures |r| == |gs|
    ensures forall k :: 0 <= k < |gs| ==> r[k].x == gs[k].x && r[k].gapY == gs[k].gapY
    ensures forall k :: 0 <= k < |gs| ==> (r[k].passed <==> gs[k].passed || gs[k].Crossed(shipX))
  {
    seq(|gs|, k requires 0 <= k < |gs| => gs[k].(passed := gs[k].passed || gs[k].Crossed(shipX)))
  }

  /** Number of gates MarkPassed flips from unpassed to passed. */
  function Flips(gs: seq<Gate>, shipX: real): (n: nat)
    ensures n <= |gs|
  {
    if gs == [] then 0
    else
      var last := gs[|gs| - 1];
      Flips(gs[..|gs| - 1], shipX) + if !last.passed && last.Crossed(shipX) then 1 else 0
  }

  /** Number of gates already passed. */
  function PassedCount(gs: seq<Gate>): (n: nat)
    ensures n <= |gs|
  {
    if gs == [] then 0
    else PassedCount(gs[..|gs| - 1]) + if gs[|gs| - 1].passed then 1 else 0
  }

  /** MarkPassed raises the number of passed gates by exactly the number of flips. */
  lemma {:induction false} FlipsArePassedDelta(gs: seq<Gate>, shipX: real)
    ensures PassedCount(MarkPassed(gs, shipX)) == PassedCount(gs) + Flips(gs, shipX)
  {
    if gs != [] {
      var n := |gs| - 1;
      assert MarkPassed(gs, shipX)[..n] == MarkPassed(gs[..n], shipX);
      FlipsArePassedDelta(gs[..n], shipX);
    }
  }

  /**
   * Scrolling left (dt >= 0) and recycling keep every passed gate left of the
   * ship, so after scoring the passed flags are exactly the crossed gates.
   */
  lemma TickKeepsPassedExact(gs: seq<Gate>, dt: real, newGap: int, shipX: real)
    requires |gs| >= 2 && 0.0 <= dt && PassedOnlyIfCrossed(gs, shipX)
    ensures PassedOnlyIfCrossed(Recycle(ScrollAll(gs, dt), newGap), shipX)
    ensures PassedExactly(MarkPassed(Recycle(ScrollAll(gs, dt), newGap), shipX), shipX)
  {
  }

  /**
   * The scoring loop: each unpassed gate whose trailing edge is left of the
   * ship is marked passed, adds one to the score and raises best to the score.
   */
  method ScoreGates(gs: seq<Gate>, shipX: real, score: nat, best: nat)
    returns (out: seq<Gate>, score': nat, best': nat)
    ensures out == MarkPassed(gs, shipX)
    ensures score' == score + Flips(gs, shipX)
    ensures best' == if score' == score then best else Max(best, score')
  {
    out, score', best' := gs, score, best;
    for i := 0 to |gs|
      invariant |out| == |gs|
      invariant out[..i] == MarkPassed(gs[..i], shipX)
      invariant forall k :: i <= k < |gs| ==> out[k] == gs[k]
      invariant score' == score + Flips(gs[..i], shipX)
      invariant best' == if score' == score then best else Max(best, score')
    {
      assert gs[..i + 1][..i] == gs[..i];
      assert gs[..i + 1][i] == gs[i];
      var g := out[i];
      if !g.passed && g.Crossed(shipX) {
        out := out[i := g.(passed := true)];
        score' := score' + 1;
        best' := Max(best', score');
      }
      assert out[..i + 1] == out[..i] + [out[i]];
    }
    assert gs[..|gs|] == gs;
    assert out[..|gs|] == out;
  }

  function Max(a: nat, b: nat): (m: nat)
    ensures m >= a && m >= b && (m == a || m == b)
  {
    if a >= b then a else b
  }

  /**
   * The collision loop: the gates are tested in order, each top column then
   * bottom column, and the loop stops at the first confirmed hit.
   */
  method FirstGateHit(ship: Rect, m: Mask, gs: seq<Gate>) returns (hit: bool, k: nat)
    ensures hit ==> k < |gs| && GateHit(ship, m, gs[k])
    ensures hit ==> forall j :: 0 <= j < k ==> !GateHit(ship, m, gs[j])
    ensures !hit <==> forall j :: 0 <= j < |gs| ==> !GateHit(ship, m, gs[j])
  {
    hit, k := false, 0;
    while k < |gs|
      invariant k <= |gs|
      invariant forall j :: 0 <= j < k ==> !GateHit(ship, m, gs[j])
    {
      var g := gs[k];
      if CollideRect(ship, g.TopRect()) {
        var top := g.TopRect();
        if MaskRectOverlap(m, top, top.x - ship.x, top.y - ship.y) {
          hit := true;
          break;
        }
      }
      if CollideRect(ship, g.BotRect()) {
        var bot := g.BotRect();
        if MaskRectOverlap(m, bot, bot.x - ship.x, bot.y - ship.y) {
          hit := true;
          break;
        }
      }
      k := k + 1;
    }
  }
}
