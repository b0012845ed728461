/** The `Digit` interface and its eleven glyph classes. A glyph is kept opaque: the
    model records which class it is and the character it reports, not its Bézier
    tables or width. */
module Glyphs {

  /** The glyph classes `Zero` … `Nine` and `Empty` */
  datatype Shape = Zero | One | Two | Three | Four | Five | Six | Seven | Eight | Nine | Empty

  /** The number a shape is drawn for: its digit, or -1 (the hidden number) for `Empty` */
  function Identity(s: Shape): (n: int)
    ensures -1 <= n <= 9
    ensures n == -1 <==> s == Empty
  {
    match s
    case Zero => 0
    case One => 1
    case Two => 2
    case Three => 3
    case Four => 4
    case Five => 5
    case Six => 6
    case Seven => 7
    case Eight => 8
    case Nine => 9
    case Empty => -1
  }

  /** The character `getChar()` reports for a glyph class: `'\0'` for `Empty`,
      the digit's own character otherwise */
  function CharOf(s: Shape): (c: char)
    ensures s == Empty <==> c == '\0'
    ensures s != Empty ==> c as int - '0' as int == Identity(s)
  {
    if s == Empty then '\0' else ('0' as int + Identity(s)) as char
  }

  /** One glyph object: an instance of one of the `Digit` classes */
  class Digit {
    const shape: Shape
    const ch: char

    constructor (shape: Shape, ch: char)
      ensures this.shape == shape && this.ch == ch
    {
      this.shape := shape;
      this.ch := ch;
    }
  }
}
