/** The `Character` class: one symbol at an integer scale, its pixel positions
    and the rectangles it draws. The font table is a parameter, so every
    property holds for any table; `Font.SourceFont` is the one that ships. */
module Glyph {
  import opened Results
  import opened Geometry
  import opened Font
  import opened Surface

  /** Defaults of the constructor's `size` and of `draw`'s `color`. */
  const DefaultSize: int := 1
  const DefaultColor: int := 0x0000

  /** A constructed `Character`: `symbol` is the Python attribute `char`, the string form of the input and
      `size` the side, in screen pixels, of one glyph pixel. */
  datatype Character = Character(symbol: string, size: int)

  /** What the constructor establishes about every `Character` it returns. */
  predicate Valid(c: Character) {
    |c.symbol| == 1 && PositiveSize(c.size)
  }

  /** The size check shared by `Character` and `Text`. */
  predicate PositiveSize(size: int) {
    size > 0
  }

  /** `Character(char, size)`, with `input` already in its string form. The
      length is checked before the size, so an input wrong on both counts
      reports the LengthError. */
  function NewCharacter(input: string, size: int := DefaultSize): (r: Result<Character>)
    ensures (r.Err? && r.error.LengthError?) <==> |input| != 1
    ensures r.Err? && r.error.LengthError? ==> r.error.length == |input|
    ensures (r.Err? && r.error == ValueError) <==> |input| == 1 && size <= 0
    ensures r.Ok? ==> Valid(r.value) && r.value.symbol == input && r.value.size == size
  {
    if |input| != 1 then Err(LengthError(|input|))
    else if !PositiveSize(size) then Err(ValueError)
    else Ok(Character(input, size))
  }

  /** `str(character)`. */
  function Str(c: Character): string {
    c.symbol
  }

  /** Construction succeeds exactly on a one-symbol input with a positive size,
      and `str` then gives the input back. */
  lemma NewCharacterStrRoundTrip(input: string, size: int)
    ensures NewCharacter(input, size).Ok? <==> |input| == 1 && size > 0
    ensures NewCharacter(input, size).Ok? ==> Str(NewCharacter(input, size).value) == input
  {
  }

  /** Every symbol of the shipped alphabet can be constructed at every positive
      size, and its string form is that symbol. */
  lemma AlphabetConstructs(i: nat, size: int)
    requires i < |Alphabet| && size > 0
    ensures NewCharacter([Alphabet[i]], size).Ok?
    ensures Str(NewCharacter([Alphabet[i]], size).value) == [Alphabet[i]]
    ensures [Alphabet[i]] in SourceFont
  {
    SourceFontShape();
  }

  /** `get_pixel_positions(x, y)`: the table entry of the character, each
      offset shifted by `(x, y)`. The Python code reads the bare name `OFFSETS`
      (src/text.py:118), which is unbound inside a method; this is the lookup
      in the class table that the code evidently means. */
  function GetPixelPositions(font: FontTable, c: Character, x: int := 0, y: int := 0): (r: Result<seq<Point>>)
    ensures r.Err? <==> c.symbol !in font
    ensures r.Err? ==> r.error == KeyError(c.symbol)
    ensures r.Ok? ==> |r.value| == |font[c.symbol]|
    ensures r.Ok? ==> forall i :: 0 <= i < |r.value| ==>
                        r.value[i] == Point(font[c.symbol][i].x + x, font[c.symbol][i].y + y)
  {
    var offsets :- Lookup(font, c.symbol);
    Ok(Translate(offsets, x, y))
  }

  /** At the default origin the positions are the table entry itself; shifted
      positions shifted back are the table entry again. */
  lemma PixelPositionsAtOrigin(font: FontTable, c: Character, x: int, y: int)
    requires c.symbol in font
    ensures GetPixelPositions(font, c) == Ok(font[c.symbol])
    ensures Translate(GetPixelPositions(font, c, x, y).value, -x, -y) == font[c.symbol]
  {
    TranslateZero(font[c.symbol]);
    TranslateInverse(font[c.symbol], x, y);
  }

  /** One `fill_rect` per position, in order, each `size` by `size` in `color`,
      its corner at `(x + px * size, y + py * size)`. */
  function ScaledRects(positions: seq<Point>, x: int, y: int, size: int, color: int): (r: seq<FillRect>)
    ensures |r| == |positions|
    ensures forall i :: 0 <= i < |r| ==>
              r[i] == FillRect(x + positions[i].x * size, y + positions[i].y * size, size, size, color)
  {
    if positions == [] then []
    else [FillRect(x + positions[0].x * size, y + positions[0].y * size, size, size, color)]
         + ScaledRects(positions[1..], x, y, size, color)
  }

  /** `draw(screen, x, y, color)`, returning the `fill_rect` calls it makes on
      the screen. The loop follows src/text.py:134-142 in count, size, colour
      and order. The rectangle corner scales the loop's own `position`; the
      code as written scales `pixel_positions[0]` and `pixel_positions[1]`
      (src/text.py:137-138) instead, see `AsWritten.DrawAsWritten`. */
  function Draw(font: FontTable, c: Character, x: int, y: int, color: int := DefaultColor): (r: Result<seq<FillRect>>)
    ensures r.Err? <==> c.symbol !in font
    ensures r.Err? ==> r.error == KeyError(c.symbol)
    ensures r.Ok? ==> |r.value| == |font[c.symbol]|
    ensures r.Ok? ==> forall i :: 0 <= i < |r.value| ==>
                        && r.value[i].x == x + font[c.symbol][i].x * c.size
                        && r.value[i].y == y + font[c.symbol][i].y * c.size
                        && r.value[i].w == c.size
                        && r.value[i].h == c.size
                        && r.value[i].color == color
  {
    var positions :- GetPixelPositions(font, c);
    Ok(ScaledRects(positions, x, y, c.size, color))
  }

  /** With the default colour every rectangle is drawn in `0x0000`. */
  lemma DrawDefaultColor(font: FontTable, c: Character, x: int, y: int)
    requires c.symbol in font
    ensures Draw(font, c, x, y).Ok?
    ensures forall r :: r in Draw(font, c, x, y).value ==> r.color == 0x0000
  {
  }

  /** An unauthored glyph, one whose entry is empty, draws nothing. */
  lemma DrawEmptyGlyph(font: FontTable, c: Character, x: int, y: int, color: int)
    requires c.symbol in font && font[c.symbol] == []
    ensures Draw(font, c, x, y, color) == Ok([])
  {
  }

  /** Every glyph of the shipped table is unauthored: its positions are `[]`
      at any origin and drawing it makes no call. Any other symbol fails with
      a KeyError. */
  lemma SourceGlyphsBlank(c: Character, x: int, y: int, color: int)
    requires |c.symbol| == 1
    ensures c.symbol[0] in Alphabet ==> GetPixelPositions(SourceFont, c, x, y) == Ok([])
    ensures c.symbol[0] in Alphabet ==> Draw(SourceFont, c, x, y, color) == Ok([])
    ensures c.symbol[0] !in Alphabet ==> Draw(SourceFont, c, x, y, color) == Err(KeyError(c.symbol))
    ensures c.symbol[0] !in Alphabet ==> GetPixelPositions(SourceFont, c, x, y) == Err(KeyError(c.symbol))
  {
    SourceFontShape();
  }

  /** Rectangles of distinct offsets are distinct: drawing never merges two
      glyph pixels into one call. */
  lemma DrawDistinct(font: FontTable, c: Character, x: int, y: int, color: int, i: nat, j: nat)
    requires Valid(c) && c.symbol in font
    requires i < |font[c.symbol]| && j < |font[c.symbol]|
    requires font[c.symbol][i] != font[c.symbol][j]
    ensures Draw(font, c, x, y, color).value[i] != Draw(font, c, x, y, color).value[j]
  {
  }

  /** The glyph offset a rectangle of `Draw` stands for, read back from its
      corner: its distance from the origin in units of `size`. */
  function OffsetOf(r: FillRect, x: int, y: int, size: int): Point
    requires size > 0
  {
    Point((r.x - x) / size, (r.y - y) / size)
  }

  /** `OffsetOf` on each rectangle in turn. */
  function OffsetsOf(rs: seq<FillRect>, x: int, y: int, size: int): (ps: seq<Point>)
    requires size > 0
    ensures |ps| == |rs|
    ensures forall i :: 0 <= i < |rs| ==> ps[i] == OffsetOf(rs[i], x, y, size)
  {
    if rs == [] then [] else [OffsetOf(rs[0], x, y, size)] + OffsetsOf(rs[1..], x, y, size)
  }

  /** Dividing a multiple of a positive `s` by `s`. */
  lemma MulDiv(a: int, s: int)
    requires s > 0
    ensures (a * s) / s == a
    ensures (a * s) % s == 0
  {
    DivIsUnique(a * s, s, a);
  }

  /** A strict inequality between multiples of a positive `s` holds between
      the factors. */
  lemma MulLessCancel(a: int, b: int, s: int)
    requires s > 0
    ensures a * s < b * s ==> a < b
  {
  }

  /** `d / s` is the unique `q` with `q * s <= d < q * s + s`, for positive `s`;
      Dafny's division floors for a positive divisor, as Python's does. */
  lemma DivIsUnique(d: int, s: int, q: int)
    requires s > 0
    ensures q * s <= d < q * s + s <==> d / s == q
  {
    var p := d / s;
    assert p * s <= d < p * s + s;
    assert (p + 1) * s == p * s + s;
    assert (q + 1) * s == q * s + s;
    MulLessCancel(p, q + 1, s);
    MulLessCancel(q, p + 1, s);
  }

  /** The rectangles determine the glyph: every corner lies a whole number of
      glyph pixels from the origin, and reading the offsets back from the
      corners gives the table entry. */
  lemma DrawRecoversOffsets(font: FontTable, c: Character, x: int, y: int, color: int)
    requires Valid(c) && c.symbol in font
    ensures forall i :: 0 <= i < |Draw(font, c, x, y, color).value| ==>
              && (Draw(font, c, x, y, color).value[i].x - x) % c.size == 0
              && (Draw(font, c, x, y, color).value[i].y - y) % c.size == 0
    ensures OffsetsOf(Draw(font, c, x, y, color).value, x, y, c.size) == font[c.symbol]
  {
    var o := font[c.symbol];
    var r := Draw(font, c, x, y, color).value;
    var back := OffsetsOf(r, x, y, c.size);
    forall i | 0 <= i < |r|
      ensures (r[i].x - x) % c.size == 0 && (r[i].y - y) % c.size == 0
      ensures back[i] == o[i]
    {
      var dx, dy := r[i].x - x, r[i].y - y;
      assert dx == o[i].x * c.size && dy == o[i].y * c.size;
      MulDiv(o[i].x, c.size);
      MulDiv(o[i].y, c.size);
    }
  }

  /** The drawing is the glyph scaled up: a screen pixel is painted exactly
      when the glyph pixel it falls in, at scale `size` from `(x, y)`, is an
      offset of the table entry. */
  lemma DrawCoverage(font: FontTable, c: Character, x: int, y: int, color: int, px: int, py: int)
    requires Valid(c) && c.symbol in font
    ensures (exists i :: 0 <= i < |Draw(font, c, x, y, color).value|
                         && Covers(Draw(font, c, x, y, color).value[i], px, py))
            <==> Point((px - x) / c.size, (py - y) / c.size) in font[c.symbol]
  {
    var o := font[c.symbol];
    var r := Draw(font, c, x, y, color).value;
    var cell := Point((px - x) / c.size, (py - y) / c.size);
    forall i | 0 <= i < |r| ensures Covers(r[i], px, py) <==> o[i] == cell {
      DivIsUnique(px - x, c.size, o[i].x);
      DivIsUnique(py - y, c.size, o[i].y);
    }
    if cell in o {
      var i :| 0 <= i < |o| && o[i] == cell;
      assert Covers(r[i], px, py);
    }
  }

  /** The worked example: with the entry `"." -> [(3, 7)]`, `Character(".", 3)`
      drawn at `(100, 50)` in `0xFFFF` makes the single call
      `fill_rect(109, 71, 3, 3, 0xFFFF)`. With the shipped table,
      `Character("A", 2)` drawn at `(10, 20)` makes none. */
  lemma DrawExamples()
    ensures NewCharacter(".", 3).Ok?
    ensures Draw(SourceFont["." := [Point(3, 7)]], NewCharacter(".", 3).value, 100, 50, 0xFFFF)
            == Ok([FillRect(109, 71, 3, 3, 0xFFFF)])
    ensures NewCharacter("A", 2).Ok?
    ensures Draw(SourceFont, NewCharacter("A", 2).value, 10, 20) == Ok([])
  {
    var dot := NewCharacter(".", 3).value;
    var font := SourceFont["." := [Point(3, 7)]];
    assert dot.symbol in font && font[dot.symbol] == [Point(3, 7)];
    var r := Draw(font, dot, 100, 50, 0xFFFF);
    assert r.Ok? && |r.value| == 1;
    assert r.value[0] == FillRect(109, 71, 3, 3, 0xFFFF);
    assert r.value == [FillRect(109, 71, 3, 3, 0xFFFF)];
    assert 'A' == Alphabet[0];
    SourceGlyphsBlank(NewCharacter("A", 2).value, 10, 20, DefaultColor);
  }
}
