/** Axis-aligned integer rectangles, standing in for pygame.Rect. */
module Rects {

  datatype Rect = Rect(x: int, y: int, w: int, h: int)

  /** Whether the pixel (px, py) lies in the half-open box [x, x+w) x [y, y+h). */
  predicate Contains(r: Rect, px: int, py: int) {
    r.x <= px < r.x + r.w && r.y <= py < r.y + r.h
  }

  /** The overlap test assumed for pygame's Rect.colliderect: the half-open
      x-intervals and the half-open y-intervals both intersect. */
  predicate Collide(a: Rect, b: Rect) {
    a.x < b.x + b.w && b.x < a.x + a.w && a.y < b.y + b.h && b.y < a.y + a.h
  }

  predicate Positive(r: Rect) {
    r.w > 0 && r.h > 0
  }

  function Max(a: int, b: int): int {
    if a < b then b else a
  }

  /** For rectangles of positive size the interval test means exactly that the
      two boxes share a pixel; the witness is the top-left corner of the
      intersection. */
  lemma CollideIffSharedPixel(a: Rect, b: Rect)
    requires Positive(a) && Positive(b)
    ensures Collide(a, b) <==> exists px, py :: Contains(a, px, py) && Contains(b, px, py)
  {
    if Collide(a, b) {
      var px, py := Max(a.x, b.x), Max(a.y, b.y);
      assert Contains(a, px, py) && Contains(b, px, py);
    }
  }
}
