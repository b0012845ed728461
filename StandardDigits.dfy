/** `StandardDigits`: the hidden-number sentinel and the factory that makes a new
    glyph for a number. */
module StandardDigits {
  import opened Java
  import Glyphs

  /** The number that stands for "show nothing" */
  const HIDE_NUMBER: int32 := -1

  /** The numbers `forNumber` accepts: 0 to 9 and the hidden number */
  predicate IsGlyphNumber(n: int)
  {
    n == HIDE_NUMBER || 0 <= n <= 9
  }

  /** The glyph class `forNumber` instantiates for `digit`; `None` where it throws */
  function ShapeFor(digit: int): (r: Option<Glyphs.Shape>)
    ensures r.Some? <==> IsGlyphNumber(digit)
    ensures r.Some? ==> Glyphs.Identity(r.value) == digit
  {
    if digit == 0 then Some(Glyphs.Zero)
    else if digit == 1 then Some(Glyphs.One)
    else if digit == 2 then Some(Glyphs.Two)
    else if digit == 3 then Some(Glyphs.Three)
    else if digit == 4 then Some(Glyphs.Four)
    else if digit == 5 then Some(Glyphs.Five)
    else if digit == 6 then Some(Glyphs.Six)
    else if digit == 7 then Some(Glyphs.Seven)
    else if digit == 8 then Some(Glyphs.Eight)
    else if digit == 9 then Some(Glyphs.Nine)
    else if digit == HIDE_NUMBER then Some(Glyphs.Empty)
    else None
  }

  /** Every glyph class is reached from exactly the number it is drawn for */
  lemma ShapeForIdentity(s: Glyphs.Shape)
    ensures ShapeFor(Glyphs.Identity(s)) == Some(s)
  {
  }

  /** `forNumber`: a new glyph of the class for `digit`, or `IllegalArgumentException` */
  method ForNumber(digit: int) returns (r: Result<Glyphs.Digit>)
    ensures r.Ok? <==> IsGlyphNumber(digit)
    ensures r.Ok? ==> fresh(r.value) && Some(r.value.shape) == ShapeFor(digit)
    ensures r.Ok? ==> r.value.ch == Glyphs.CharOf(r.value.shape)
    ensures r.Throws? ==> r.error == IllegalArgument
  {
    var shape := ShapeFor(digit);
    if shape.None? {
      return Throws(IllegalArgument);
    }
    var d := new Glyphs.Digit(shape.value, Glyphs.CharOf(shape.value));
    return Ok(d);
  }

  /** `empty()`: a new `Empty` glyph, obtained as `forNumber(HIDE_NUMBER)` */
  method Empty() returns (d: Glyphs.Digit)
    ensures fresh(d) && d.shape == Glyphs.Empty && d.ch == '\0'
  {
    var r := ForNumber(HIDE_NUMBER);
    d := r.value;
  }
}
