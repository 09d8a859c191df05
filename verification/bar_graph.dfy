/** One column of the bar graph (`print_at_pos` in src/main.c). A level from 0
    to 15 is split over the column's two character cells: below 8 the upper cell
    is blank and the lower cell shows glyph `level`; from 8 the upper cell shows
    code `level` and the lower cell the fully lit glyph 7. Levels from 16 up
    are not drawn at all. */
module BarGraph {
  import opened CInt
  import opened Lcd
  import Glyphs

  /** Character code of the blank (`' '`) drawn above a short bar. */
  const Blank: Byte := 0x20

  /** Custom glyph code of the fully lit cell. */
  const FullGlyph: Byte := 7

  /** The first level the renderer does not draw: two cells of eight pixel rows. */
  const LevelLimit := 16

  /** The first level that reaches into the upper cell. */
  const UpperStart := 8

  /** `print_at_pos(pos, val)`: the writes for column `pos` at level `val`. */
  function PrintAtPos(pos: Byte, val: int): (ws: seq<LcdWrite>)
    ensures val >= LevelLimit <==> ws == []
    ensures val < LevelLimit ==> |ws| == 2 && ws[0].addr == pos && ws[1].addr == ToByte(pos + SecondRow)
  {
    if val < LevelLimit then
      [ LcdWrite(pos, if val < UpperStart then Blank else ToByte(val)),
        LcdWrite(ToByte(pos + SecondRow), if val < UpperStart then ToByte(val) else FullGlyph) ]
    else
      []
  }

  /** What a cell shows, counted in lit pixel rows, for the codes the renderer
      writes: the blank shows none, and a code below 16 shows custom glyph
      `code % 8` (the display maps codes 8 to 15 onto the same eight glyphs). */
  function CellRows(code: Byte): nat
    requires code == Blank || code < LevelLimit
  {
    if code == Blank then 0 else Glyphs.LitRows(Glyphs.Cc[code % 8])
  }

  /** For a level the renderer draws, every code it writes is the blank or a glyph code. */
  lemma WrittenCodes(pos: Byte, val: int)
    requires 0 <= val
    ensures forall w :: w in PrintAtPos(pos, val) ==> w.code == Blank || 0 <= w.code < LevelLimit
  {
  }

  /** The upper cell is blank exactly for levels below 8, so levels 7 and 8 differ
      there. The level itself is the code of the lower cell below 8 and of the
      upper cell from 8 up; the other cell is the blank or the full glyph. */
  lemma UpperCellSplit(pos: Byte, val: int)
    requires 0 <= val < LevelLimit
    ensures PrintAtPos(pos, val)[0].code == Blank <==> val < UpperStart
    ensures PrintAtPos(pos, val)[1].code == FullGlyph <==> val >= UpperStart - 1
    ensures val < UpperStart ==> PrintAtPos(pos, val)[1].code == val
    ensures val >= UpperStart ==> PrintAtPos(pos, val)[0].code == val && PrintAtPos(pos, val)[1].code == FullGlyph
  {
  }

  /** A glyph code shows glyph `code % 8`, which has `code % 8 + 1` lit rows:
      `code + 1` rows below 8 and `code - 7` rows from 8 up. */
  lemma GlyphCellRows(code: Byte)
    requires code < LevelLimit
    ensures CellRows(code) == code % 8 + 1
    ensures CellRows(code) == if code < UpperStart then code + 1 else code - 7
  {
    if code < UpperStart {
      DivModUnique(code, 8, 0, code);
    } else {
      DivModUnique(code, 8, 1, code - 8);
    }
    Glyphs.GlyphHeight(code % 8);
  }

  /** A drawn column lights `val + 1` pixel rows in total, one more per level. */
  lemma BarHeight(pos: Byte, val: int)
    requires 0 <= val < LevelLimit
    ensures var ws := PrintAtPos(pos, val);
      CellRows(ws[0].code) + CellRows(ws[1].code) == val + 1
  {
    var ws := PrintAtPos(pos, val);
    var upper, lower := ws[0].code, ws[1].code;
    if val < UpperStart {
      assert upper == Blank && lower == val;
      GlyphCellRows(lower);
    } else {
      assert upper == val && lower == FullGlyph;
      GlyphCellRows(upper);
      GlyphCellRows(lower);
    }
  }
}
