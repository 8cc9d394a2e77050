/** Python's `round(x)`: to the nearest integer, ties to the even one. */
module Rounding {

  function RoundHalfEven(y: real): int {
    var f := y.Floor;
    var d := y - f as real;
    if d < 0.5 || (d == 0.5 && f % 2 == 0) then f else f + 1
  }

  lemma HalfEvenMonotone(x: real, y: real)
    requires x <= y
    ensures RoundHalfEven(x) <= RoundHalfEven(y)
  {
    assert x.Floor <= y.Floor;
  }

  lemma HalfEvenIsNearest(y: real)
    ensures y - 0.5 <= RoundHalfEven(y) as real <= y + 0.5
  {}

  lemma HalfEvenExactly(y: real, n: int)
    ensures n == RoundHalfEven(y) <==>
      n as real - 0.5 <= y <= n as real + 0.5 && (y in {n as real - 0.5, n as real + 0.5} ==> n % 2 == 0)
  {}

  lemma HalfEvenOfInteger(n: int)
    ensures RoundHalfEven(n as real) == n
  {}
}
