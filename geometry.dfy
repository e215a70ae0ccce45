/** Integer rectangles and the small numeric helpers of main.py. */
module Geometry {

  /** Python's int() on a float: truncation toward zero (not the floor). */
  function Trunc(x: real): (n: int)
    ensures 0.0 <= x ==> n as real <= x < n as real + 1.0
    ensures x < 0.0 ==> n as real - 1.0 < x <= n as real
  {
    if x >= 0.0 then x.Floor else -((-x).Floor)
  }

  /**
   * Truncation and the floor agree on non-negative inputs and on whole
   * numbers; on a negative input with a fraction, truncation is one above
   * the floor (int(-0.5) == 0 while the floor is -1).
   */
  lemma TruncVersusFloor(x: real)
    ensures 0.0 <= x || x == x.Floor as real ==> Trunc(x) == x.Floor
    ensures x < 0.0 && x != x.Floor as real ==> Trunc(x) == x.Floor + 1
  {
  }

  /** clamp8: truncate to an int and saturate into a colour channel. */
  function Clamp8(x: real): (r: int)
    ensures 0 <= r <= 255
    ensures 0 <= Trunc(x) <= 255 ==> r == Trunc(x)
    ensures Trunc(x) < 0 ==> r == 0
    ensures 255 < Trunc(x) ==> r == 255
  {
    if Trunc(x) < 0 then 0 else if Trunc(x) > 255 then 255 else Trunc(x)
  }

  /** lerp: linear interpolation from a (at t = 0) to b (at t = 1). */
  function Lerp(a: real, b: real, t: real): (r: real)
    ensures t == 0.0 ==> r == a
    ensures t == 1.0 ==> r == b
    ensures a == b ==> r == a
  {
    a + (b - a) * t
  }

  /** A pygame Rect: origin (x, y), width w, height h; y grows downward. */
  datatype Rect = Rect(x: int, y: int, w: int, h: int) {
    function Right(): (r: int) { x + w }
    function Bottom(): (r: int) { y + h }

    /** Pixel (px, py) lies in the rectangle's half-open area. */
    predicate Contains(px: int, py: int) {
      x <= px < x + w && y <= py < y + h
    }

    function Translate(tx: int, ty: int): (r: Rect)
      ensures r.w == w && r.h == h
      ensures forall px, py :: r.Contains(px + tx, py + ty) == Contains(px, py)
    {
      Rect(x + tx, y + ty, w, h)
    }
  }

  /** get_rect(center=(cx, cy)) of an image of size w by h. */
  function Centered(cx: int, cy: int, w: nat, h: nat): (r: Rect)
    ensures r.w == w && r.h == h
    ensures r.x <= cx <= r.Right() && r.y <= cy <= r.Bottom()
    ensures r.Right() - cx - (cx - r.x) in {0, 1}
    ensures r.Bottom() - cy - (cy - r.y) in {0, 1}
  {
    Rect(cx - w / 2, cy - h / 2, w, h)
  }

  /**
   * colliderect: strict overlap of two rectangles; touching edges do not
   * collide and a rectangle without area collides with nothing.
   */
  predicate CollideRect(a: Rect, b: Rect) {
    a.w > 0 && a.h > 0 && b.w > 0 && b.h > 0 &&
    a.x < b.Right() && b.x < a.Right() && a.y < b.Bottom() && b.y < a.Bottom()
  }

  /** Two rectangles collide exactly when they share a pixel. */
  lemma CollideRectSharesPixel(a: Rect, b: Rect)
    ensures CollideRect(a, b) <==> exists px, py :: a.Contains(px, py) && b.Contains(px, py)
  {
    if CollideRect(a, b) {
      var px := if a.x < b.x then b.x else a.x;
      var py := if a.y < b.y then b.y else a.y;
      assert a.Contains(px, py) && b.Contains(px, py);
    }
  }

  /** Moving both rectangles by the same amount does not change the verdict. */
  lemma CollideRectTranslate(a: Rect, b: Rect, tx: int, ty: int)
    ensures CollideRect(a.Translate(tx, ty), b.Translate(tx, ty)) == CollideRect(a, b)
  {
  }

  lemma CollideRectSymmetric(a: Rect, b: Rect)
    ensures CollideRect(a, b) == CollideRect(b, a)
  {
  }
}
