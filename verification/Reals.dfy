/** Small facts about real numbers that the pose filters share. */
module Reals {

  function Abs(x: real): real {
    if x < 0.0 then -x else x
  }

  function Max(a: real, b: real): real {
    if a < b then b else a
  }

  function Min(a: real, b: real): real {
    if b < a then b else a
  }

  lemma Product(a: real, b: real)
    requires a >= 0.0 && b >= 0.0
    ensures a * b >= 0.0
  {
  }

  lemma Squares(x: real, y: real)
    requires x > y >= 0.0
    ensures x * x > y * y
  {
    var d := x - y;
    assert d * d > 0.0;
    Product(d, y);
    assert x * x == y * y + 2.0 * (d * y) + d * d;
  }

  /** The chords of x * x * (3 - 2 * x) on the unit interval do not fall. */
  lemma SlopeSign(x: real, y: real)
    requires 0.0 <= x <= 1.0 && 0.0 <= y <= 1.0
    ensures 3.0 * (x + y) - 2.0 * (x * x + x * y + y * y) >= 0.0
  {
    Product(x, 1.0 - x);
    Product(y, 1.0 - y);
    Product(x, 1.0 - y);
    Product(y, 1.0 - x);
  }

  lemma CubicMonotone(x: real, y: real)
    requires 0.0 <= x <= y <= 1.0
    ensures x * x * (3.0 - 2.0 * x) <= y * y * (3.0 - 2.0 * y)
  {
    var k := 3.0 * (x + y) - 2.0 * (x * x + x * y + y * y);
    SlopeSign(x, y);
    Product(y - x, k);
    assert y * y * (3.0 - 2.0 * y) - x * x * (3.0 - 2.0 * x) == (y - x) * k;
  }

  /** Square roots are monotone, hence unique. */
  lemma RootMonotone(x: real, y: real)
    requires x >= 0.0 && y >= 0.0 && x * x <= y * y
    ensures x <= y
  {
    if x > y {
      Squares(x, y);
    }
  }
}
