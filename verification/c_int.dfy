/** Integer conventions of the AVR C compiler that the firmware relies on:
    `uint8_t` truncation and `/`, `%` on `int` rounding toward zero.
    Dafny's own `/` and `%` are Euclidean, so the C operators are written out.
    The module ends with the facts about products and remainders that the
    other proofs use. */
module CInt {

  /** An 8-bit unsigned value: a display address or a character code. */
  type Byte = b: int | 0 <= b < 256

  function Abs(x: int): nat {
    if x < 0 then -x else x
  }

  /** Conversion of an `int` to `uint8_t`: keeps the value modulo 256. */
  function ToByte(x: int): (b: Byte)
    ensures (x - b) % 256 == 0
    ensures 0 <= x < 256 ==> b == x
  {
    x % 256
  }

  /** C's `a / b`: the exact quotient truncated toward zero. */
  function CDiv(a: int, b: int): (q: int)
    requires b != 0
    ensures Abs(a - b * q) < Abs(b)
    ensures a - b * q == 0 || (a - b * q < 0 <==> a < 0)
    ensures a >= 0 && b > 0 ==> q == a / b
  {
    var aa, bb := Abs(a), Abs(b);
    var m, rest := aa / bb, aa % bb;
    assert aa == bb * m + rest && 0 <= rest < bb;
    var q := if (a < 0) == (b < 0) then m else -m;
    SignedProduct(a, b, m, rest, q);
    q
  }

  /** The sign bookkeeping of `CDiv`: `b * q` is `Abs(b) * m` with the sign of `a`. */
  lemma SignedProduct(a: int, b: int, m: int, rest: int, q: int)
    requires b != 0 && Abs(a) == Abs(b) * m + rest
    requires q == if (a < 0) == (b < 0) then m else -m
    ensures a - b * q == (if a < 0 then -rest else rest)
  {
    var bm := Abs(b) * m;
    if b < 0 {
      if q == m {
        assert b * q == -bm;
      } else {
        assert b * q == bm;
      }
    } else {
      if q == m {
        assert b * q == bm;
      } else {
        assert b * q == -bm;
      }
    }
  }

  /** C's `a % b`: the remainder that goes with `CDiv`, carrying the sign of `a`. */
  function CRem(a: int, b: int): (r: int)
    requires b != 0
    ensures a == b * CDiv(a, b) + r
    ensures Abs(r) < Abs(b)
    ensures r == 0 || (r < 0 <==> a < 0)
    ensures a >= 0 && b > 0 ==> r == a % b
  {
    a - b * CDiv(a, b)
  }

  /** Euclidean division is determined by its defining equation. */
  lemma DivModUnique(x: int, d: int, q: int, r: int)
    requires d > 0 && 0 <= r < d && x == d * q + r
    ensures x / d == q && x % d == r
  {
    var k := x / d - q;
    assert d * k == d * (x / d) - d * q;
    assert d * k == r - x % d;
    ProductAwayFromZero(k, d);
  }

  /** A non-zero multiple of `d` is at least `d` away from zero. */
  lemma ProductAwayFromZero(k: int, d: int)
    requires d >= 0
    ensures k >= 1 ==> d * k >= d
    ensures k <= -1 ==> d * k <= -d
  {
    if k >= 1 {
      MulMono(1, k, d);
    } else if k <= -1 {
      MulMono(k, -1, d);
    }
  }

  /** Multiplying by a natural number keeps order. */
  lemma MulMono(a: int, b: int, c: nat)
    requires a <= b
    ensures a * c <= b * c
  {
  }
}
