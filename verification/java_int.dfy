/** Java `int` arithmetic: 32-bit two's complement wrap-around and division that truncates toward zero. */
module JavaInt {

  const IntMin: int := -0x8000_0000
  const IntMax: int := 0x7FFF_FFFF

  predicate IsInt32(x: int) {
    IntMin <= x <= IntMax
  }

  /** The value a Java `int` expression yields for the mathematical result `x`. */
  function Wrap32(x: int): (r: int)
    ensures IsInt32(r)
    ensures (r - x) % 0x1_0000_0000 == 0
    ensures IsInt32(x) ==> r == x
  {
    var m := (x - IntMin) % 0x1_0000_0000;
    m + IntMin
  }

  /** Java's `/` on ints (overflow of `IntMin / -1` aside): the quotient rounded toward zero. */
  function Div(a: int, b: int): (q: int)
    requires b != 0
    ensures a >= 0 && b > 0 ==> q == a / b
    ensures (a >= 0 && b > 0) || (a <= 0 && b < 0) ==> q >= 0
    ensures (a >= 0 && b < 0) || (a <= 0 && b > 0) ==> q <= 0
  {
    if a >= 0 && b > 0 then QuotientNat(a, b); a / b
    else if a >= 0 then QuotientNat(a, -b); -(a / -b)
    else if b > 0 then QuotientNat(-a, b); -((-a) / b)
    else QuotientNat(-a, -b); (-a) / (-b)
  }

  lemma QuotientNat(a: int, b: int)
    requires a >= 0 && b > 0
    ensures a / b >= 0
  {
  }

  /** Java's `%` on ints: the remainder takes the sign of the dividend. */
  function Rem(a: int, b: int): (r: int)
    requires b != 0
    ensures a == Div(a, b) * b + r
    ensures a >= 0 ==> 0 <= r < (if b > 0 then b else -b)
    ensures a < 0 ==> -(if b > 0 then b else -b) < r <= 0
  {
    a - Div(a, b) * b
  }
}
