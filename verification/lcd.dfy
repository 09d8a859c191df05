/** The character display as the firmware sees it: a list of writes into the
    display data RAM. Positioning the cursor (`lcd_goto`) and writing one
    character (`lcd_putc`) together form one `LcdWrite`; writing a string
    (`lcd_puts`) writes its characters at consecutive addresses, because the
    controller advances its address after every character. */
module Lcd {
  import opened CInt

  /** Character code `code` stored at display address `addr`. */
  datatype LcdWrite = LcdWrite(addr: Byte, code: Byte)

  /** Display data RAM contents: address to character code. */
  type Screen = map<Byte, Byte>

  /** The first address of the second display row. */
  const SecondRow: Byte := 0x40

  /** Character code of a text character, as `char` is passed to `lcd_putc`. */
  function CharCode(c: char): Byte {
    ToByte(c as int)
  }

  /** `lcd_goto(addr); lcd_puts(text)`: one write per character, at consecutive addresses. */
  function PutsAt(addr: int, text: string): (ws: seq<LcdWrite>)
    ensures |ws| == |text|
    ensures forall k :: 0 <= k < |ws| ==> ws[k] == LcdWrite(ToByte(addr + k), CharCode(text[k]))
    ensures (forall k :: 0 <= k < |text| ==> text[k] as int < 256) ==> TextOf(ws) == text
  {
    seq(|text|, k requires 0 <= k < |text| => LcdWrite(ToByte(addr + k), CharCode(text[k])))
  }

  /** The characters a list of writes stores, in order. */
  function TextOf(ws: seq<LcdWrite>): (t: string)
    ensures |t| == |ws|
  {
    seq(|ws|, k requires 0 <= k < |ws| => ws[k].code as char)
  }

  /** Text of single-byte characters is stored unchanged, so it reads back. */
  lemma PutsAtText(addr: int, text: string)
    requires forall k :: 0 <= k < |text| ==> text[k] as int < 256
    ensures TextOf(PutsAt(addr, text)) == text
  {
  }

  /** The display after a list of writes, applied in order. */
  function Apply(screen: Screen, ws: seq<LcdWrite>): Screen
    decreases |ws|
  {
    if ws == [] then screen else Apply(screen[ws[0].addr := ws[0].code], ws[1..])
  }

  /** Two writes: the second lands after the first. */
  lemma ApplyTwo(screen: Screen, w0: LcdWrite, w1: LcdWrite)
    ensures Apply(screen, [w0, w1]) == screen[w0.addr := w0.code][w1.addr := w1.code]
  {
    var s1 := screen[w0.addr := w0.code];
    assert [w0, w1][1..] == [w1];
    assert Apply(screen, [w0, w1]) == Apply(s1, [w1]);
    assert [w1][1..] == [];
    assert Apply(s1, [w1]) == Apply(s1[w1.addr := w1.code], []);
  }

  /** Writing two lists one after the other is writing their concatenation. */
  lemma {:induction false} ApplyAppend(screen: Screen, xs: seq<LcdWrite>, ys: seq<LcdWrite>)
    ensures Apply(screen, xs + ys) == Apply(Apply(screen, xs), ys)
    decreases |xs|
  {
    if xs != [] {
      assert (xs + ys)[1..] == xs[1..] + ys;
      ApplyAppend(screen[xs[0].addr := xs[0].code], xs[1..], ys);
    } else {
      assert xs + ys == ys;
    }
  }

  /** An address that no write targets keeps its contents. */
  lemma {:induction false} ApplyUntouched(screen: Screen, ws: seq<LcdWrite>, a: Byte)
    requires forall k :: 0 <= k < |ws| ==> ws[k].addr != a
    ensures a in Apply(screen, ws) <==> a in screen
    ensures a in screen ==> Apply(screen, ws)[a] == screen[a]
    decreases |ws|
  {
    if ws != [] {
      ApplyUntouched(screen[ws[0].addr := ws[0].code], ws[1..], a);
    }
  }

  /** The last write to an address decides what it shows. */
  lemma {:induction false} ApplyLastWrite(screen: Screen, ws: seq<LcdWrite>, k: int)
    requires 0 <= k < |ws|
    requires forall l :: k < l < |ws| ==> ws[l].addr != ws[k].addr
    ensures ws[k].addr in Apply(screen, ws)
    ensures Apply(screen, ws)[ws[k].addr] == ws[k].code
    decreases |ws|
  {
    if k == 0 {
      ApplyUntouched(screen[ws[0].addr := ws[0].code], ws[1..], ws[0].addr);
    } else {
      ApplyLastWrite(screen[ws[0].addr := ws[0].code], ws[1..], k - 1);
    }
  }

  /** Decimal digit character of `d`. */
  function DigitChar(d: int): char
    requires 0 <= d < 10
  {
    ('0' as int + d) as char
  }

  /** Value of a decimal digit character. */
  function DigitValue(c: char): int {
    if '0' <= c <= '9' then c as int - '0' as int else -1
  }

  /** Base-ten digits of a natural number, most significant first, no leading zero. */
  function Digits(n: nat): (s: string)
    ensures |s| >= 1
    ensures forall k :: 0 <= k < |s| ==> 0 <= DigitValue(s[k]) < 10
    ensures n < 10 <==> |s| == 1
    ensures |s| > 1 ==> s[0] != '0'
  {
    if n < 10 then [DigitChar(n)] else Digits(n / 10) + [DigitChar(n % 10)]
  }

  /** `itoa(n, buffer, 10)`: the decimal text of `n`, with a minus sign when negative. */
  function Decimal(n: int): (s: string)
    ensures |s| >= 1
    ensures n < 0 <==> s[0] == '-'
  {
    if n < 0 then "-" + Digits(-n) else Digits(n)
  }

  /** The decimal text is made of single-byte characters. */
  lemma DecimalAscii(n: int)
    ensures forall k :: 0 <= k < |Decimal(n)| ==> Decimal(n)[k] as int < 128
  {
  }

  /** Reads back a string of decimal digits. */
  function ParseDigits(s: string): int
    decreases |s|
  {
    if s == [] then 0 else ParseDigits(s[..|s| - 1]) * 10 + DigitValue(s[|s| - 1])
  }

  /** Reads back the text `Decimal` produces: an optional minus sign, then digits. */
  function ParseDecimal(s: string): int {
    if s != [] && s[0] == '-' then -ParseDigits(s[1..]) else ParseDigits(s)
  }

  lemma {:induction false} DigitsRoundTrip(n: nat)
    ensures ParseDigits(Digits(n)) == n
  {
    var s := Digits(n);
    if n >= 10 {
      var front := Digits(n / 10);
      assert s == front + [DigitChar(n % 10)];
      assert s[..|s| - 1] == front;
      DigitsRoundTrip(n / 10);
      assert ParseDigits(s) == (n / 10) * 10 + n % 10;
    }
  }

  /** The decimal readout reads back as the number it renders. */
  lemma DecimalRoundTrip(n: int)
    ensures ParseDecimal(Decimal(n)) == n
  {
    if n < 0 {
      DigitsRoundTrip(-n);
      assert Decimal(n)[1..] == Digits(-n);
    } else {
      DigitsRoundTrip(n);
    }
  }

  /** Numbers below one hundred need at most two characters of text. */
  lemma {:induction false} DecimalTwoDigits(n: int)
    requires 0 <= n < 100
    ensures 1 <= |Decimal(n)| <= 2
  {
    if n >= 10 {
      assert Digits(n) == Digits(n / 10) + [DigitChar(n % 10)];
    }
  }
}
