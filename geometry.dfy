/** Face boxes as the recognition service reports them and rectangles as the canvas draws them. */
module Geometry {

  /** A face box in the JSON shape `{top, right, bottom, left}` (pixels of the frame). */
  datatype Box = Box(top: int, right: int, bottom: int, left: int)

  /** A canvas rectangle `(x, y, width, height)`, the arguments of `strokeRect`/`fillRect`. */
  datatype Rect = Rect(x: int, y: int, w: int, h: int)

  /** A canvas point, the position argument of `fillText`. */
  datatype Point = Point(x: int, y: int)

  /** What the canvas transform `translate(width, 0); scale(-1, 1)` does to a rectangle. */
  function FlipRect(width: int, r: Rect): (f: Rect)
    ensures f.y == r.y && f.w == r.w && f.h == r.h
    ensures f.x + f.w == width - r.x
  {
    Rect(width - r.x - r.w, r.y, r.w, r.h)
  }

  /** Flipping is its own inverse. */
  lemma FlipRectInvolution(width: int, r: Rect)
    ensures FlipRect(width, FlipRect(width, r)) == r
  {}
}
