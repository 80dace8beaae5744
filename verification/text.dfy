/** The `Text` class: a string at one scale. Only construction, `str` and an
    empty `draw` exist; multi-character layout is not written yet. */
module Text {
  import opened Results
  import opened Surface
  import Glyph

  /** Default of `draw`'s `color`, written `0x000` in the Python code. */
  const DefaultColor: int := 0x000

  /** A constructed `Text`; the string itself is not checked. */
  datatype TextLine = TextLine(text: string, size: int)

  /** `Text(text, size)`: the same size check as `Character`, nothing else. */
  function NewText(text: string, size: int := Glyph.DefaultSize): (r: Result<TextLine>)
    ensures r.Err? <==> size <= 0
    ensures r.Err? ==> r.error == ValueError
    ensures r.Ok? ==> r.value.text == text && r.value.size == size
  {
    if !Glyph.PositiveSize(size) then Err(ValueError) else Ok(TextLine(text, size))
  }

  /** `str(text)`. */
  function Str(t: TextLine): string {
    t.text
  }

  /** `draw(screen, x, y, color)`: a stub that makes no call on the screen. */
  function Draw(t: TextLine, x: int, y: int, color: int := DefaultColor): (calls: seq<FillRect>)
    ensures |calls| == 0
  {
    []
  }

  /** Any string, the empty one included, constructs at a positive size, and
      `str` gives it back. */
  lemma NewTextStrRoundTrip(text: string, size: int)
    ensures NewText(text, size).Ok? <==> size > 0
    ensures NewText(text, size).Ok? ==> Str(NewText(text, size).value) == text
  {
  }

  /** `Text` and `Character` accept and reject exactly the same sizes. */
  lemma SizeCheckShared(symbol: string, size: int)
    requires |symbol| == 1
    ensures NewText(symbol, size).Ok? <==> Glyph.NewCharacter(symbol, size).Ok?
    ensures NewText(symbol, size).Err? ==> NewText(symbol, size).error == Glyph.NewCharacter(symbol, size).error
  {
  }
}
