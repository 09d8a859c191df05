/** The eight custom glyphs uploaded to the display's character generator RAM
    (`cc` in src/main.c). Glyph `k` lights its bottom `k + 1` pixel rows, so the
    glyphs draw a bar that grows by one row per glyph. */
module Glyphs {
  import opened CInt

  /** A pixel row of a glyph with all five pixels lit. */
  const Full: Byte := 0xFF

  /** A pixel row of a glyph with no pixel lit. */
  const Empty: Byte := 0x00

  /** The glyph table as the firmware declares it: row 0 is the top pixel row. */
  const Cc: seq<seq<Byte>> := [
    [0x00, 0x00, 0x00, 0x00, 0x00, 0x00, 0x00, 0xFF],
    [0x00, 0x00, 0x00, 0x00, 0x00, 0x00, 0xFF, 0xFF],
    [0x00, 0x00, 0x00, 0x00, 0x00, 0xFF, 0xFF, 0xFF],
    [0x00, 0x00, 0x00, 0x00, 0xFF, 0xFF, 0xFF, 0xFF],
    [0x00, 0x00, 0x00, 0xFF, 0xFF, 0xFF, 0xFF, 0xFF],
    [0x00, 0x00, 0xFF, 0xFF, 0xFF, 0xFF, 0xFF, 0xFF],
    [0x00, 0xFF, 0xFF, 0xFF, 0xFF, 0xFF, 0xFF, 0xFF],
    [0xFF, 0xFF, 0xFF, 0xFF, 0xFF, 0xFF, 0xFF, 0xFF]
  ]

  /** An eight-row glyph whose bottom `h` rows are lit and whose other rows are dark. */
  function BottomFilled(h: int): (g: seq<Byte>)
    ensures |g| == 8
  {
    seq(8, r requires 0 <= r < 8 => if r >= 8 - h then Full else Empty)
  }

  /** Number of fully lit rows of a glyph. */
  function LitRows(g: seq<Byte>): nat
    decreases |g|
  {
    if g == [] then 0 else (if g[0] == Full then 1 else 0) + LitRows(g[1..])
  }

  /** Every row of the table is either dark or lit, and glyph `k` lights
      exactly its last `k + 1` rows. */
  lemma CcIsBottomFilled()
    ensures |Cc| == 8
    ensures forall k :: 0 <= k < 8 ==> |Cc[k]| == 8 && Cc[k] == BottomFilled(k + 1)
  {
    forall k | 0 <= k < 8
      ensures Cc[k] == BottomFilled(k + 1)
    {
      assert forall r :: 0 <= r < 8 ==> Cc[k][r] == BottomFilled(k + 1)[r];
    }
  }

  /** A glyph of `z` dark rows on top of `h` lit rows has `h` lit rows. */
  lemma {:induction false} LitRowsOfBlock(g: seq<Byte>, z: nat, h: nat)
    requires |g| == z + h
    requires forall r :: 0 <= r < z ==> g[r] == Empty
    requires forall r :: z <= r < z + h ==> g[r] == Full
    ensures LitRows(g) == h
    decreases |g|
  {
    if g != [] {
      if z > 0 {
        LitRowsOfBlock(g[1..], z - 1, h);
      } else {
        LitRowsOfBlock(g[1..], 0, h - 1);
      }
    }
  }

  /** Glyph `k` lights `k + 1` rows: one more than the glyph before it, and glyph 7 lights all eight. */
  lemma GlyphHeight(k: int)
    requires 0 <= k < 8
    ensures LitRows(Cc[k]) == k + 1
  {
    CcIsBottomFilled();
    LitRowsOfBlock(Cc[k], 7 - k, k + 1);
  }
}
