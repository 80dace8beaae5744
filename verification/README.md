# Scaled bitmap glyphs for a framebuffer

A Dafny model of `src/text.py`, a small library that draws fixed-size bitmap
characters onto a MicroPython `framebuf` screen at an integer scale. A glyph is
a list of unscaled `(x, y)` offsets inside an 8x8 cell, looked up in the class
table `Character.OFFSETS`. A `Character` holds one symbol and a `size`. Drawing
it at `(x, y)` paints one `size` by `size` rectangle per offset. `Text` holds a
string and a size; its `draw` is a stub.

The screen is seen only through the `fill_rect(x, y, w, h, color)` calls made
on it. Each call is a `Surface.FillRect` record, so `draw` is a pure function
from the glyph, the origin and the colour to the sequence of calls. Each
exception becomes an `Err` value of `Results.Result`, named after the Python
exception: `LengthError`, `ValueError` and a dict's `KeyError`.

Modules:
- `Results` (results.dfy): the exceptions and the result type.
- `Geometry` (geometry.dfy): points and translation.
- `Surface` (surface.dfy): the `fill_rect` record and the pixels it covers.
- `Font` (font.dfy): the font table, its alphabet and lookup.
- `Glyph` (glyph.dfy): the `Character` class.
- `Text` (text.dfy): the `Text` class.
- `AsWritten` (as_written.dfy): two defects, modelled as the code is written.

The font table is a parameter of `GetPixelPositions` and `Draw`, so every
drawing property holds for any table. `Font.SourceFont` is the table the
repository ships. The table at src/text.py:25-92 lists 66 symbols: A-Z, a-z,
1-9, 0, `.`, `,`, `:` and `°`. Every entry is still the empty list.

Two lines of the code do not do what they evidently mean; see "## Findings".
`Glyph` models the intended behaviour, and `AsWritten` models the code as
written.

## Model

| member | source | states |
|---|---|---|
| Font.Lookup | src/text.py:118 | `OFFSETS[key]` yields the entry exactly when the key is in the table; otherwise it fails with KeyError for that key |
| Font.AlphabetDistinct | src/text.py:25-92 | the table lists 66 symbols, none of them twice |
| Font.SourceFontShape | src/text.py:25-92 | the shipped table has exactly 66 keys, namely the one-symbol strings of the alphabet, and every entry is empty |
| Glyph.NewCharacter | src/text.py:94-105 | LengthError, carrying the input length, exactly when the string form's length is not 1. ValueError exactly when the length is 1 and `size <= 0`, so the length is checked first. On success the string and size are stored unchanged |
| Glyph.NewCharacterStrRoundTrip | src/text.py:144-145 | construction succeeds iff the length is 1 and the size is positive; `str` of the result is the original input |
| Glyph.AlphabetConstructs | src/text.py:94-105 | every supported symbol constructs at every positive size, its `str` is that symbol, and it is a key of the table |
| Glyph.GetPixelPositions | src/text.py:107-120 | KeyError exactly for a symbol missing from the table. Otherwise the list has the entry's length and order, and element i is offset i shifted by `(x, y)` |
| Glyph.PixelPositionsAtOrigin | src/text.py:107-120 | at the default origin `(0, 0)` the positions are the table entry itself; shifting the positions back by `(-x, -y)` recovers the entry |
| Glyph.ScaledRects | src/text.py:134-142 | one rectangle per position, in order: corner at the origin plus the position times `size`, side `size`, colour passed through |
| Glyph.Draw | src/text.py:122-142 | fails with KeyError exactly when the lookup does. Otherwise one `fill_rect` per table offset, in order: corner `(x + ox*size, y + oy*size)`, width and height `size`, `color` unchanged |
| Glyph.DrawDefaultColor | src/text.py:122 | without a colour argument every rectangle is drawn in `0x0000` |
| Glyph.DrawEmptyGlyph | src/text.py:134-142 | an empty table entry draws no rectangle |
| Glyph.SourceGlyphsBlank | src/text.py:25-92 | with the shipped table, every alphabet symbol has no positions and draws nothing. Every other symbol fails with KeyError, with no fallback glyph |
| Glyph.DrawDistinct | src/text.py:136-140 | distinct offsets give distinct rectangles |
| Glyph.DrawRecoversOffsets | src/text.py:136-140 | each rectangle corner's offset from the origin is a multiple of `size` on both axes, and dividing those offsets by `size` gives back the table entry, in order |
| Glyph.DrawCoverage | src/text.py:122-142 | a screen pixel is painted iff its cell at scale `size`, measured from `(x, y)`, is an offset of the entry. So the drawing is the glyph scaled up by `size` |
| Glyph.DrawExamples | src/text.py:134-142 | with the entry `"." -> [(3, 7)]`, `Character(".", 3)` at `(100, 50)` in `0xFFFF` draws exactly `fill_rect(109, 71, 3, 3, 0xFFFF)`; `Character("A", 2)` with the shipped table draws nothing |
| Text.NewText | src/text.py:149-153 | ValueError exactly when `size <= 0`; otherwise the text and size are stored unchanged |
| Text.NewTextStrRoundTrip | src/text.py:159-160 | any string, including the empty one, constructs at a positive size, and `str` gives it back |
| Text.SizeCheckShared | src/text.py:150-151 | on a one-symbol string, `Text` and `Character` accept the same sizes and reject the rest with the same error |
| Text.Draw | src/text.py:155-157 | the stub makes no call on the screen |
| AsWritten.BareNameLookupFails | src/text.py:117-119 | as written, the lookup fails with NameError for every symbol of the shipped table, though the class table answers it |
| AsWritten.DrawAsWrittenAgreesOnlyWhenBlank | src/text.py:134-142 | as written, the loop gives the intended result iff there is nothing to draw: a missing key or an empty entry |
| AsWritten.DrawAsWrittenWitness | src/text.py:137-138 | the `"."` example raises TypeError as written, but one rectangle is intended |

## Left out

- The real `framebuf` surface, the pixel buffer and the transfer to the display are external. `fill_rect` is modelled as an emitted record.
- Python's coercion `str(char)` of an integer or other object is not modelled. The constructor takes the string form directly.
- `size` and the coordinates are modelled as integers. A float `size`, which Python would accept, is not modelled.
- `Text` stores any object as `text`; the model stores a string.
- The message formatting of `LengthError.__init__` and `__str__` (src/text.py:4-11) is not modelled. The error carries only the offending length.
- Multi-character layout in `Text.draw` is not modelled; it is an unwritten stub.
- Glyph bitmaps are not modelled: the shipped table has none. All drawing lemmas range over an arbitrary table.
- Repeated calls to `get_pixel_positions` cannot differ, because the model is pure and the table is an immutable value. No lemma states this separately.
- `AsWritten.DrawAsWritten` models only the indexing defect and takes the table lookup as corrected. Taken fully as written, `draw` raises NameError from its first line on every call.

## Findings

| source | as written | input that shows it | evidently intended | confidence | as-written member | corrected member |
|---|---|---|---|---|---|---|
| src/text.py:118 | the comprehension reads the bare name `OFFSETS`, which is unbound in the method's scope, so it raises NameError | `Character("A").get_pixel_positions()` | look up `Character.OFFSETS[self.char]`, failing with KeyError only for a missing symbol | high; not executed | AsWritten.BareNameLookupFails | Glyph.GetPixelPositions |
| src/text.py:137-138 | the corner uses `pixel_positions[0] * self.size` and `pixel_positions[1] * self.size`, not the loop's `position`. A tuple times an int repeats the tuple, so `x + tuple` raises TypeError | entry `"." -> [(3, 7)]`, `Character(".", 3).draw(screen, 100, 50, 0xFFFF)` | corner `(x + ox*size, y + oy*size)` for each offset `(ox, oy)` | high; not executed | AsWritten.DrawAsWrittenAgreesOnlyWhenBlank | Glyph.Draw |
