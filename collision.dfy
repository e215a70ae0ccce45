/**
 * Pixel-accurate collision between the ship's mask and a gate rectangle
 * (mask_rect_overlap plus the broad phase of the frame loop in main.py).
 */
module Collision {
  import opened Geometry

  /**
   * An opacity mask: bits[j][i] is the pixel in column i of row j. The mask
   * of an image is as wide and as high as the image.
   */
  datatype Mask = Mask(w: nat, h: nat, bits: seq<seq<bool>>) {
    predicate WellFormed() {
      |bits| == h && forall j :: 0 <= j < |bits| ==> |bits[j]| == w
    }

    /** Pixel (i, j) is set; pixels outside the grid are never set. */
    predicate Bit(i: int, j: int) {
      0 <= j < |bits| && 0 <= i < |bits[j]| && bits[j][i]
    }
  }

  /** Some set pixel of row from column i on lies in columns [lo, hi). */
  function RowHits(row: seq<bool>, lo: int, hi: int, i: nat): (b: bool)
    decreases |row| - i
    ensures b <==> exists k :: i <= k < |row| && lo <= k < hi && row[k]
  {
    if i >= |row| then false
    else (lo <= i < hi && row[i]) || RowHits(row, lo, hi, i + 1)
  }

  /** Some set pixel of rows j.. of m lies in the window [dx, dx+w) x [dy, dy+h). */
  function WindowHits(m: Mask, dx: int, dy: int, w: int, h: int, j: nat): (b: bool)
    decreases |m.bits| - j
    ensures b <==> exists i, k :: j <= k && dx <= i < dx + w && dy <= k < dy + h && m.Bit(i, k)
  {
    if j >= |m.bits| then false
    else
      var here := dy <= j < dy + h && RowHits(m.bits[j], dx, dx + w, 0);
      assert here ==> exists i :: dx <= i < dx + w && m.Bit(i, j) by {
        if here {
          var k :| 0 <= k < |m.bits[j]| && dx <= k < dx + w && m.bits[j][k];
          assert m.Bit(k, j);
        }
      }
      here || WindowHits(m, dx, dy, w, h, j + 1)
  }

  /**
   * mask_rect_overlap: does the mask overlap a solid rectangle r placed at
   * offset (dx, dy) relative to the mask? An empty or negative-size
   * rectangle overlaps nothing.
   */
  function MaskRectOverlap(m: Mask, r: Rect, dx: int, dy: int): (b: bool)
    ensures b <==> r.w > 0 && r.h > 0 &&
                   exists i, j :: dx <= i < dx + r.w && dy <= j < dy + r.h && m.Bit(i, j)
  {
    if r.w <= 0 || r.h <= 0 then false
    else WindowHits(m, dx, dy, r.w, r.h, 0)
  }

  /**
   * One rectangle test of the frame loop: broad phase colliderect, then the
   * narrow phase with the offset taken as the difference of the origins.
   */
  predicate HitsRect(ship: Rect, m: Mask, r: Rect) {
    CollideRect(ship, r) && MaskRectOverlap(m, r, r.x - ship.x, r.y - ship.y)
  }

  /**
   * With the origin difference as offset, the narrow phase asks whether some
   * set pixel of the mask, drawn at the ship rectangle's origin, falls on
   * a screen pixel of r.
   */
  lemma NarrowPhaseOnScreen(ship: Rect, m: Mask, r: Rect)
    ensures MaskRectOverlap(m, r, r.x - ship.x, r.y - ship.y) <==>
            exists i, j :: m.Bit(i, j) && r.Contains(ship.x + i, ship.y + j)
  {
  }

  /** Translating ship and gate rectangle together does not change the verdict. */
  lemma HitsRectTranslate(ship: Rect, m: Mask, r: Rect, tx: int, ty: int)
    ensures HitsRect(ship.Translate(tx, ty), m, r.Translate(tx, ty)) == HitsRect(ship, m, r)
  {
  }

  /**
   * When the mask has the size of the ship rectangle, the broad phase never
   * rejects a pair the narrow phase would accept: the test is the narrow
   * phase alone.
   */
  lemma BroadPhaseIsSound(ship: Rect, m: Mask, r: Rect)
    requires m.WellFormed() && m.w == ship.w && m.h == ship.h
    ensures HitsRect(ship, m, r) == MaskRectOverlap(m, r, r.x - ship.x, r.y - ship.y)
  {
  }
}
