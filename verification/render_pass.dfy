/** One pass of the main loop's drawing step (src/main.c, `main`): each display
    bin's magnitude is clamped to 15, multiplied by the gain index `scale` and
    drawn by `print_at_pos` in the column `nb_bins-1-i`, so bin 0 ends up in the
    rightmost column. A level of 16 or more is not drawn, and that column keeps
    whatever the display showed before. */
module RenderPass {
  import opened CInt
  import opened Lcd
  import opened BarGraph
  import Binning
  import ScaleControl

  /** The largest magnitude kept by the clamp. */
  const MaxMag := 15

  /** `if (mag > 15) mag = 15;`: the clamp applied before scaling. */
  function Clamp(mag: int): (c: int)
    ensures c <= MaxMag
    ensures c == mag || (c == MaxMag && mag > MaxMag)
  {
    if mag > MaxMag then MaxMag else mag
  }

  /** `nb_bins-1-i`: the column of display bin `i`; it is also the bin of column `i`. */
  function Column(nbBins: int, i: int): int {
    nbBins - 1 - i
  }

  /** `mag*(scale)`: the level handed to `print_at_pos`. */
  function Level(mag: int, scale: int): int {
    Clamp(mag) * scale
  }

  /** Display bin `k` is drawn in this pass. */
  predicate Drawn(mags: seq<int>, scale: int, k: int)
    requires 0 <= k < |mags|
  {
    Level(mags[k], scale) < LevelLimit
  }

  /** The writes of `print_at_pos` for display bin `k`. */
  function BinWrites(mags: seq<int>, scale: int, k: int): seq<LcdWrite>
    requires 0 <= k < |mags|
  {
    PrintAtPos(ToByte(Column(|mags|, k)), Level(mags[k], scale))
  }

  /** The display bin whose cell is at address `a`, or -1 outside the graph. */
  function BinAt(nbBins: int, a: int): int {
    if 0 <= a < nbBins then Column(nbBins, a)
    else if SecondRow <= a < SecondRow + nbBins then Column(nbBins, a - SecondRow)
    else -1
  }

  /** The drawing loop from display bin `i` on: bins `i`, `i+1`, ... in that order. */
  function RenderFrom(mags: seq<int>, scale: int, i: nat): (ws: seq<LcdWrite>)
    requires i <= |mags| <= SecondRow
    ensures forall w :: w in ws ==> i <= BinAt(|mags|, w.addr) < |mags|
    decreases |mags| - i
  {
    if i == |mags| then [] else BinWrites(mags, scale, i) + RenderFrom(mags, scale, i + 1)
  }

  /** The whole drawing loop of one main-loop iteration. */
  function Render(mags: seq<int>, scale: int): seq<LcdWrite>
    requires |mags| <= SecondRow
  {
    RenderFrom(mags, scale, 0)
  }

  /** Address `a` is a cell of a bin the pass draws. */
  predicate DrawnCell(mags: seq<int>, scale: int, a: int) {
    0 <= BinAt(|mags|, a) < |mags| && Drawn(mags, scale, BinAt(|mags|, a))
  }

  /** The code the column renderer puts into a drawn cell. */
  function CellCode(mags: seq<int>, scale: int, a: int): Byte
    requires DrawnCell(mags, scale, a)
  {
    var ws := BinWrites(mags, scale, BinAt(|mags|, a));
    if a < SecondRow then ws[0].code else ws[1].code
  }

  /** The display the pass should leave: drawn cells show their bin's column,
      every other address keeps its old contents. */
  function Shown(screen: Screen, mags: seq<int>, scale: int): Screen {
    map a: Byte | 0 <= a < 256 && (a in screen || DrawnCell(mags, scale, a)) ::
      if DrawnCell(mags, scale, a) then CellCode(mags, scale, a) else screen[a]
  }

  /** What the writes of display bin `i` leave at one address. */
  lemma BinWritesEffect(screen: Screen, mags: seq<int>, scale: int, i: nat, a: Byte)
    requires i < |mags| <= SecondRow
    ensures var mid := Apply(screen, BinWrites(mags, scale, i));
      if DrawnCell(mags, scale, a) && BinAt(|mags|, a) == i then
        a in mid && mid[a] == CellCode(mags, scale, a)
      else
        (a in mid <==> a in screen) && (a in screen ==> mid[a] == screen[a])
  {
    var here := BinWrites(mags, scale, i);
    if here != [] {
      ApplyTwo(screen, here[0], here[1]);
      assert here == [here[0], here[1]];
    }
  }

  /** What the drawing loop from bin `i` on leaves at one address. */
  lemma {:induction false} RenderFromEffect(screen: Screen, mags: seq<int>, scale: int, i: nat, a: Byte)
    requires i <= |mags| <= SecondRow
    ensures var after := Apply(screen, RenderFrom(mags, scale, i));
      if DrawnCell(mags, scale, a) && BinAt(|mags|, a) >= i then
        a in after && after[a] == CellCode(mags, scale, a)
      else
        (a in after <==> a in screen) && (a in screen ==> after[a] == screen[a])
    decreases |mags| - i
  {
    if i < |mags| {
      var here := BinWrites(mags, scale, i);
      var mid := Apply(screen, here);
      ApplyAppend(screen, here, RenderFrom(mags, scale, i + 1));
      RenderFromEffect(mid, mags, scale, i + 1, a);
      BinWritesEffect(screen, mags, scale, i, a);
    }
  }

  /** One pass leaves exactly the display `Shown` describes: the drawn columns
      show their bars and nothing else changes. */
  lemma RenderShows(screen: Screen, mags: seq<int>, scale: int)
    requires |mags| <= SecondRow
    ensures Apply(screen, Render(mags, scale)) == Shown(screen, mags, scale)
  {
    var after := Apply(screen, Render(mags, scale));
    var shown := Shown(screen, mags, scale);
    forall a: Byte
      ensures (a in after <==> a in shown) && (a in after ==> after[a] == shown[a])
    {
      RenderFromEffect(screen, mags, scale, 0, a);
    }
    assert after.Keys == shown.Keys;
  }

  /** Bin `i` goes to column `nb_bins-1-i`: a bijection of the columns onto
      themselves (applying it twice gives back the bin), with bin 0 rightmost. */
  lemma ColumnBijection(nbBins: int, i: int)
    requires 0 <= i < nbBins
    ensures 0 <= Column(nbBins, i) < nbBins
    ensures Column(nbBins, Column(nbBins, i)) == i
    ensures forall k :: 0 <= k < nbBins && Column(nbBins, k) == Column(nbBins, i) ==> k == i
    ensures Column(Binning.NbBins, 0) == 15
  {
  }

  /** After the clamp a non-negative magnitude is in `[0, 15]`, so in a reachable
      gain state the level is in `[0, 15*(divs-1)]`. */
  lemma LevelBounds(mag: int, st: ScaleControl.ScaleState)
    requires 0 <= mag && ScaleControl.Valid(st)
    ensures 0 <= Clamp(mag) <= MaxMag
    ensures 0 <= Level(mag, st.scale) <= MaxMag * (st.divs - 1)
  {
    MulMono(st.scale, st.divs - 1, Clamp(mag));
    MulMono(Clamp(mag), MaxMag, st.divs - 1);
  }

  /** The clamp comes before the gain: with gain index 2 or more, a magnitude of
      8 or more gives a level of 16 or more, which is not drawn. */
  lemma LoudBinNotDrawn(mags: seq<int>, scale: int, k: int)
    requires 0 <= k < |mags| && scale >= 2 && mags[k] >= 8
    ensures !Drawn(mags, scale, k)
    ensures BinWrites(mags, scale, k) == []
  {
    MulMono(2, scale, Clamp(mags[k]));
  }

  /** A bin with a non-negative magnitude is drawn at gain index 0 or 1: the clamp alone keeps it below 16. */
  lemma LowGainAlwaysDrawn(mags: seq<int>, scale: int, k: int)
    requires 0 <= k < |mags| && 0 <= scale <= 1 && mags[k] >= 0
    ensures Drawn(mags, scale, k)
    ensures Level(mags[k], scale) == if scale == 0 then 0 else Clamp(mags[k])
  {
  }

  /** A silent input (every magnitude 0) draws every column as a blank upper cell
      over glyph 0, whatever the gain. */
  lemma SilentSpectrum(screen: Screen, mags: seq<int>, scale: int, c: int)
    requires |mags| == Binning.NbBins
    requires forall k :: 0 <= k < |mags| ==> mags[k] == 0
    requires 0 <= c < |mags|
    ensures var after := Apply(screen, Render(mags, scale));
      c in after && after[c] == Blank && c + SecondRow in after && after[c + SecondRow] == 0
  {
    RenderShows(screen, mags, scale);
    assert DrawnCell(mags, scale, c);
    assert DrawnCell(mags, scale, c + SecondRow);
  }

  /** One main-loop iteration after the transform: bin the spectrum and draw it. */
  function Iteration<T>(fout: seq<T>, magOf: seq<T> -> int, st: ScaleControl.ScaleState): seq<LcdWrite>
    requires |fout| == Binning.N
  {
    Render(Binning.BinMagnitudes(fout, Binning.N, Binning.NbBins, magOf), st.scale)
  }

  /** An iteration writes only the 32 cells of the graph: columns 0 to 15 of both rows. */
  lemma IterationStaysInGraph<T>(fout: seq<T>, magOf: seq<T> -> int, st: ScaleControl.ScaleState)
    requires |fout| == Binning.N
    ensures forall w :: w in Iteration(fout, magOf, st) ==>
      w.addr < 16 || SecondRow <= w.addr < SecondRow + 16
  {
  }
}
