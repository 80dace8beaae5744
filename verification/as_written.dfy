/** The two places where the Python code differs from what it evidently means,
    modelled as written next to the corrected definitions in `Glyph`. */
module AsWritten {
  import opened Results
  import opened Geometry
  import opened Font
  import opened Surface
  import opened Glyph

  /** `get_pixel_positions` as written: the comprehension reads the bare name
      `OFFSETS`, which is bound only in the class body and not in the method's
      scope, so every call raises NameError before the table is consulted. */
  function GetPixelPositionsAsWritten(c: Character, x: int := 0, y: int := 0): Result<seq<Point>> {
    Err(NameError("OFFSETS"))
  }

  /** Every symbol of the shipped table fails as written, while the class-table
      lookup answers it. */
  lemma BareNameLookupFails(c: Character, x: int, y: int)
    requires c.symbol in SourceFont
    ensures GetPixelPositions(SourceFont, c, x, y).Ok?
    ensures GetPixelPositionsAsWritten(c, x, y) == Err(NameError("OFFSETS"))
    ensures GetPixelPositionsAsWritten(c, x, y) != GetPixelPositions(SourceFont, c, x, y)
  {
  }

  /** `draw` as written, with the table lookup taken as corrected. The loop body
      scales `pixel_positions[0]`, the first `(x, y)` tuple, not the loop's
      `position`: `tuple * size` repeats the tuple and `x + tuple` raises
      TypeError in the first iteration, before any `fill_rect` call. Only an
      empty entry, which runs the loop zero times, succeeds. */
  function DrawAsWritten(font: FontTable, c: Character, x: int, y: int, color: int := DefaultColor): Result<seq<FillRect>> {
    var positions :- GetPixelPositions(font, c);
    if positions == [] then Ok([]) else Err(TypeError)
  }

  /** The code as written draws what it evidently means exactly when there is
      nothing to draw: a missing key or an unauthored glyph. */
  lemma DrawAsWrittenAgreesOnlyWhenBlank(font: FontTable, c: Character, x: int, y: int, color: int)
    ensures DrawAsWritten(font, c, x, y, color) == Draw(font, c, x, y, color)
            <==> c.symbol !in font || font[c.symbol] == []
  {
  }

  /** The witness: with the entry `"." -> [(3, 7)]`, `Character(".", 3)` drawn
      at `(100, 50)` raises TypeError as written, where one rectangle is meant. */
  lemma DrawAsWrittenWitness()
    ensures DrawAsWritten(SourceFont["." := [Point(3, 7)]], Character(".", 3), 100, 50, 0xFFFF) == Err(TypeError)
    ensures Draw(SourceFont["." := [Point(3, 7)]], Character(".", 3), 100, 50, 0xFFFF)
            == Ok([FillRect(109, 71, 3, 3, 0xFFFF)])
  {
    DrawExamples();
  }
}
