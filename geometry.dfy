/** Axis-aligned integer rectangles and the overlap test that java.awt.Rectangle.intersects
    performs, without the overflow-guarding arithmetic of the library. */
module Geometry {

  /** A rectangle with top-left corner (x, y); y grows downwards as on screen. */
  datatype Rect = Rect(x: int, y: int, width: int, height: int)

  /** Rectangle.intersects: an empty rectangle (non-positive width or height) meets nothing;
      otherwise the two rectangles overlap strictly along both axes (touching edges do not count). */
  predicate Intersects(a: Rect, b: Rect)
    ensures Intersects(a, b) ==>
              var px := if a.x < b.x then b.x else a.x;
              var py := if a.y < b.y then b.y else a.y;
              Covers(a, px, py) && Covers(b, px, py)
  {
    && a.width > 0 && a.height > 0 && b.width > 0 && b.height > 0
    && b.x + b.width > a.x && b.y + b.height > a.y
    && a.x + a.width > b.x && a.y + a.height > b.y
  }

  /** The pixel (px, py) lies inside r. */
  predicate Covers(r: Rect, px: int, py: int)
  {
    r.x <= px < r.x + r.width && r.y <= py < r.y + r.height
  }

  /** Two rectangles intersect exactly when some pixel lies inside both; in particular the
      test does not depend on the order of its arguments. */
  lemma IntersectsIffSharedPixel(a: Rect, b: Rect)
    ensures Intersects(a, b) <==> exists px, py :: Covers(a, px, py) && Covers(b, px, py)
    ensures Intersects(a, b) <==> Intersects(b, a)
  {
    if Intersects(a, b) {
      var px := if a.x < b.x then b.x else a.x;
      var py := if a.y < b.y then b.y else a.y;
      assert Covers(a, px, py) && Covers(b, px, py);
    }
  }
}
