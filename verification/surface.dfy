/** The drawing surface, seen only through the calls made to it. The real
    surface paints its pixel buffer; here each call is recorded, so drawing
    becomes a function from a glyph to the sequence of calls it makes. */
module Surface {

  /** One `fill_rect(x, y, width, height, color)` call: a solid rectangle whose
      top-left corner is `(x, y)`. The colour is opaque and passed through. */
  datatype FillRect = FillRect(x: int, y: int, w: int, h: int, color: int)

  /** Whether the screen pixel `(px, py)` lies inside the rectangle `r`. */
  predicate Covers(r: FillRect, px: int, py: int) {
    r.x <= px < r.x + r.w && r.y <= py < r.y + r.h
  }
}
