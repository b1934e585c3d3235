/** Integer rectangles and the overlap test the game uses for collisions. */
module Geometry {
  /** A rectangle with top-left corner (x, y), width w and height h, as a pygame Rect. */
  datatype Rect = Rect(x: int, y: int, w: int, h: int)

  /**
   * Rect.colliderect for rectangles of non-negative size: an empty rectangle
   * collides with nothing, and rectangles that only share an edge do not collide.
   */
  predicate Overlaps(a: Rect, b: Rect) {
    a.w > 0 && a.h > 0 && b.w > 0 && b.h > 0 &&
    a.x < b.x + b.w && b.x < a.x + a.w &&
    a.y < b.y + b.h && b.y < a.y + a.h
  }

  /** The pixel (px, py) lies inside the rectangle. */
  predicate Contains(r: Rect, px: int, py: int) {
    r.x <= px < r.x + r.w && r.y <= py < r.y + r.h
  }

  /**
   * Two rectangles overlap exactly when some pixel lies in both: rectangles
   * that only share an edge have no common pixel, and an empty rectangle has
   * no pixel at all.
   */
  lemma OverlapsIffSharedPixel(a: Rect, b: Rect)
    ensures Overlaps(a, b) <==> exists px, py :: Contains(a, px, py) && Contains(b, px, py)
  {
    if Overlaps(a, b) {
      var px := if a.x < b.x then b.x else a.x;
      var py := if a.y < b.y then b.y else a.y;
      assert Contains(a, px, py) && Contains(b, px, py);
    }
  }
}
