/** Java's 32-bit integer arithmetic and the exceptions the widget throws.
    Dafny's integers are unbounded and its `/` and `%` are Euclidean; Java's `int`
    wraps around at 32 bits and its `/` and `%` truncate toward zero. */
module Java {

  const INT_MIN: int := -0x8000_0000
  const INT_MAX: int := 0x7fff_ffff
  const TWO_32: int := 0x1_0000_0000

  /** A Java `int` */
  type int32 = x: int | INT_MIN <= x <= INT_MAX

  /** An array length or index bound: Java arrays hold at most `Integer.MAX_VALUE` elements */
  type IntArray = s: seq<int32> | |s| <= INT_MAX

  datatype Option<+T> = None | Some(value: T)

  /** The unchecked exceptions the modelled code can throw */
  datatype Exception = IllegalArgument | ArrayIndexOutOfBounds

  /** A value, or the exception thrown instead of returning it */
  datatype Result<+T> = Ok(value: T) | Throws(error: Exception)

  /** The two's-complement result of a Java `int` operation whose exact value is `x` */
  function Wrap(x: int): (r: int32)
    ensures (x - r) % TWO_32 == 0
    ensures INT_MIN <= x <= INT_MAX ==> r == x
  {
    (x - INT_MIN) % TWO_32 + INT_MIN
  }

  function Abs(x: int): nat
  {
    if x < 0 then -x else x
  }

  /** Java's `a / b` for a positive divisor: the quotient truncated toward zero */
  function Div(a: int, b: int): int
    requires b > 0
  {
    if a >= 0 then a / b else -((-a) / b)
  }

  /** Java's `a % b` for a positive divisor: the remainder takes the sign of `a` */
  function Rem(a: int, b: int): (r: int)
    requires b > 0
    ensures 0 <= a ==> 0 <= r < b
    ensures a < 0 ==> -b < r <= 0
  {
    if a >= 0 then a % b else -((-a) % b)
  }

  /** Java's division identity `(a / b) * b + a % b == a`, where the quotient is the
      exact one truncated toward zero: its magnitude is `|a|` divided by `b`, rounded down */
  lemma DivRem(a: int, b: int)
    requires b > 0
    ensures Div(a, b) * b + Rem(a, b) == a
    ensures Abs(Div(a, b)) == Abs(a) / b
  {
    var m := Abs(a);
    var q, r := m / b, m % b;
    assert q * b + r == m;
    assert q >= 0 by {
      if q < 0 { MulNeg(q, b); }
    }
    if a < 0 {
      assert Div(a, b) == -q && Rem(a, b) == -r;
      NegMul(q, b);
    }
  }

  lemma MulNeg(q: int, b: int)
    requires q < 0 && b > 0
    ensures q * b <= -b
  {
  }

  lemma NegMul(q: int, b: int)
    ensures (-q) * b == -(q * b)
  {
  }
}
