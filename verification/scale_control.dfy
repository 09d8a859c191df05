/** The display-scale ("volume") control: the external interrupt handler of the
    button (`ISR(INT0_vect)` in src/main.c) as a step function over the two
    globals it uses. The busy-wait delays around the pin check are left out;
    the pin level after the settle delay is an input. */
module ScaleControl {
  import opened CInt
  import opened Lcd

  /** The globals `scale` (the gain index the renderer multiplies by) and
      `divs` (the number of gain steps). */
  datatype ScaleState = ScaleState(scale: int, divs: int)

  /** The values the globals start with. */
  const Init := ScaleState(1, 4)

  /** The states the handler can reach from `Init`: a gain index below `divs`. */
  predicate Valid(st: ScaleState) {
    st.divs > 0 && 0 <= st.scale < st.divs
  }

  /** Display address of the first readout character. */
  const ReadoutAddr: Byte := 0x05

  /** The text before the number of the readout. */
  const ReadoutLabel := "Volume: "

  /** `PIND & (1 << 2)` is non-zero: the button pin reads high, so the button is released. */
  predicate PinReleased(pind: Byte) {
    (pind / 4) % 2 == 1
  }

  /** `scale * (100/divs)`: the percentage shown for gain index `scale`. */
  function Volume(scale: int, divs: int): int
    requires divs != 0
  {
    scale * CDiv(100, divs)
  }

  /** `lcd_goto(0x05); lcd_puts("Volume: "); lcd_putd(vol); lcd_putc('%')`. */
  function Readout(vol: int): seq<LcdWrite> {
    PutsAt(ReadoutAddr, ReadoutLabel + Decimal(vol) + "%")
  }

  /** What one run of the handler leaves behind: the new globals and the display writes. */
  datatype Step = Step(state: ScaleState, writes: seq<LcdWrite>)

  /** One run of the button handler, given port D as read after the settle delay.
      A pin found released is a glitch: nothing changes and nothing is written.
      Otherwise the gain index advances cyclically and the new percentage is shown. */
  function OnButtonEdge(st: ScaleState, pind: Byte): (r: Step)
    requires st.divs != 0
    ensures r.state.divs == st.divs
    ensures PinReleased(pind) ==> r == Step(st, [])
    ensures !PinReleased(pind) ==> r.writes == Readout(Volume(r.state.scale, st.divs))
    ensures Valid(st) ==> Valid(r.state)
    ensures Valid(st) && !PinReleased(pind) ==> r.state.scale == (st.scale + 1) % st.divs
    ensures !PinReleased(pind) ==> r.state == Press(st)
  {
    if PinReleased(pind) then
      Step(st, [])
    else
      var next := Press(st);
      Step(next, Readout(Volume(next.scale, st.divs)))
  }

  /** The globals after one confirmed press: `scale = (scale + 1) % divs` with C's `%`. */
  function Press(st: ScaleState): (next: ScaleState)
    requires st.divs != 0
    ensures next.divs == st.divs
    ensures Valid(st) ==> Valid(next)
    ensures Valid(st) ==> next == st.(scale := (st.scale + 1) % st.divs)
  {
    st.(scale := CRem(st.scale + 1, st.divs))
  }

  /** The state after `k` confirmed presses. */
  function Presses(st: ScaleState, k: nat): (r: ScaleState)
    requires st.divs != 0
    ensures r.divs == st.divs
  {
    if k == 0 then st else Press(Presses(st, k - 1))
  }

  /** `(x % d + 1) % d == (x + 1) % d` for a positive modulus. */
  lemma ModSucc(x: int, d: int)
    requires d > 0
    ensures (x % d + 1) % d == (x + 1) % d
  {
    var q := x / d;
    if x % d + 1 < d {
      DivModUnique(x + 1, d, q, x % d + 1);
      DivModUnique(x % d + 1, d, 0, x % d + 1);
    } else {
      DivModUnique(x + 1, d, q + 1, 0);
      DivModUnique(x % d + 1, d, 1, 0);
    }
  }

  /** `k` confirmed presses advance the gain index by `k`, cyclically. */
  lemma {:induction false} PressesAdvance(st: ScaleState, k: nat)
    requires Valid(st)
    ensures Valid(Presses(st, k))
    ensures Presses(st, k) == st.(scale := (st.scale + k) % st.divs)
  {
    if k > 0 {
      PressesAdvance(st, k - 1);
      ModSucc(st.scale + k - 1, st.divs);
    }
  }

  /** `divs` confirmed presses bring the gain index back to where it started. */
  lemma PressesCycle(st: ScaleState)
    requires Valid(st)
    ensures Presses(st, st.divs) == st
  {
    PressesAdvance(st, st.divs);
    DivModUnique(st.scale + st.divs, st.divs, 1, st.scale);
  }

  /** The globals start in a valid state, and a valid state stays valid. */
  lemma InitValid(k: nat)
    ensures Valid(Init)
    ensures Valid(Presses(Init, k))
  {
    PressesAdvance(Init, k);
  }

  /** The readout is a multiple of `100/divs` and stays below 100 percent. */
  lemma VolumeBounds(scale: int, divs: int)
    requires divs > 0 && 0 <= scale < divs
    ensures 0 <= Volume(scale, divs) < 100
    ensures 100 / divs == 0 || Volume(scale, divs) % (100 / divs) == 0
  {
    var step := CDiv(100, divs);
    assert step == 100 / divs;
    assert Volume(scale, divs) == scale * step;
    MulMono(0, scale, step);
    MulMono(scale, divs - 1, step);
    assert divs * step <= 100;
    assert (divs - 1) * step == divs * step - step;
    if step > 0 {
      DivModUnique(step * scale, step, scale, 0);
    }
  }

  /** With four steps the readout takes exactly the values 0, 25, 50 and 75. */
  lemma VolumeFourSteps()
    ensures (set s | 0 <= s < 4 :: Volume(s, 4)) == {0, 25, 50, 75}
  {
    var vs := set s | 0 <= s < 4 :: Volume(s, 4);
    assert Volume(0, 4) == 0 && Volume(1, 4) == 25 && Volume(2, 4) == 50 && Volume(3, 4) == 75;
    assert 0 in vs && 25 in vs && 50 in vs && 75 in vs;
  }

  /** The readout stores the label, the decimal text of the percentage and '%'. */
  lemma ReadoutText(vol: int)
    ensures TextOf(Readout(vol)) == ReadoutLabel + Decimal(vol) + "%"
  {
    var text := ReadoutLabel + Decimal(vol) + "%";
    assert forall k :: 0 <= k < |text| ==> text[k] as int < 256 by {
      DecimalAscii(vol);
    }
    PutsAtText(ReadoutAddr, text);
  }

  /** A readout below 100 percent fits in the first display row (addresses 0x05 to 0x0F),
      and its digits read back as the percentage. */
  lemma ReadoutReadsBack(vol: int)
    requires 0 <= vol < 100
    ensures var ws := Readout(vol);
      && 10 <= |ws| <= 11
      && (forall k :: 0 <= k < |ws| ==> ws[k].addr == ReadoutAddr + k <= 0x0F)
      && TextOf(ws)[..|ReadoutLabel|] == ReadoutLabel
      && TextOf(ws)[|ws| - 1] == '%'
      && ParseDecimal(TextOf(ws)[|ReadoutLabel|..|ws| - 1]) == vol
  {
    var text := ReadoutLabel + Decimal(vol) + "%";
    DecimalTwoDigits(vol);
    ReadoutText(vol);
    assert text[|ReadoutLabel|..|text| - 1] == Decimal(vol);
    DecimalRoundTrip(vol);
  }

  /** Starting from index 0 with four steps, a confirmed press gives index 1 and shows "Volume: 25%". */
  lemma PressFromZero(pind: Byte)
    requires !PinReleased(pind)
    ensures OnButtonEdge(ScaleState(0, 4), pind).state.scale == 1
    ensures TextOf(OnButtonEdge(ScaleState(0, 4), pind).writes) == "Volume: 25%"
  {
    assert Volume(1, 4) == 25;
    assert Digits(25) == Digits(2) + ['5'];
    PutsAtText(ReadoutAddr, "Volume: 25%");
  }

  /** From the initial index 1, a confirmed press gives index 2 and shows "Volume: 50%". */
  lemma PressFromInit(pind: Byte)
    requires !PinReleased(pind)
    ensures OnButtonEdge(Init, pind).state.scale == 2
    ensures TextOf(OnButtonEdge(Init, pind).writes) == "Volume: 50%"
  {
    assert Volume(2, 4) == 50;
    assert Digits(50) == Digits(5) + ['0'];
    PutsAtText(ReadoutAddr, "Volume: 50%");
  }
}
