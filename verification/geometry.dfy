/** Integer screen coordinates, and the translation that moves a glyph's
    unscaled offsets to an origin. */
module Geometry {

  /** An `(x, y)` pair: an unscaled offset inside the glyph cell, or a pixel
      position on the screen. Python integers are unbounded, and so are these. */
  datatype Point = Point(x: int, y: int)

  /** Every point moved right by `dx` and down by `dy`; count and order are kept. */
  function Translate(ps: seq<Point>, dx: int, dy: int): (r: seq<Point>)
    ensures |r| == |ps|
    ensures forall i :: 0 <= i < |ps| ==> r[i].x == ps[i].x + dx && r[i].y == ps[i].y + dy
  {
    if ps == [] then [] else [Point(ps[0].x + dx, ps[0].y + dy)] + Translate(ps[1..], dx, dy)
  }

  /** Translating by `(0, 0)` gives the points back unchanged. */
  lemma TranslateZero(ps: seq<Point>)
    ensures Translate(ps, 0, 0) == ps
  {
  }

  /** Translating back by `(-dx, -dy)` undoes a translation by `(dx, dy)`. */
  lemma TranslateInverse(ps: seq<Point>, dx: int, dy: int)
    ensures Translate(Translate(ps, dx, dy), -dx, -dy) == ps
  {
  }
}
