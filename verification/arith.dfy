/** Rounding divisions (`Math.floor(a / b)`, `Math.ceil(a / b)`) and the clamps `Math.min`/`Math.max` on integers. */
module Arith {

  function Min(a: int, b: int): (r: int)
    ensures r <= a && r <= b && (r == a || r == b)
  {
    if a <= b then a else b
  }

  function Max(a: int, b: int): (r: int)
    ensures r >= a && r >= b && (r == a || r == b)
  {
    if a >= b then a else b
  }

  /** `Math.floor(a / b)` for a positive divisor: the greatest `q` with `b * q <= a`. */
  function FloorDiv(a: int, b: int): (q: int)
    requires b > 0
    ensures b * q <= a < b * (q + 1)
  {
    a / b
  }

  /** `Math.ceil(a / b)` for a positive divisor: the least `q` with `a <= b * q`. */
  function CeilDiv(a: int, b: int): (q: int)
    requires b > 0
    ensures b * (q - 1) < a <= b * q
  {
    var f := (-a) / b;
    assert b * f <= -a < b * (f + 1);
    -f
  }

  /** Cancelling a positive factor keeps a strict order. */
  lemma CancelLt(b: int, x: int, y: int)
    requires b > 0 && b * x < b * y
    ensures x < y
  {
  }

  /** The characterisation of FloorDiv pins it down. */
  lemma FloorDivUnique(a: int, b: int, q: int)
    requires b > 0 && b * q <= a < b * (q + 1)
    ensures q == FloorDiv(a, b)
  {
    var f := FloorDiv(a, b);
    CancelLt(b, q, f + 1);
    CancelLt(b, f, q + 1);
  }

  /** The characterisation of CeilDiv pins it down. */
  lemma CeilDivUnique(a: int, b: int, q: int)
    requires b > 0 && b * (q - 1) < a <= b * q
    ensures q == CeilDiv(a, b)
  {
    var c := CeilDiv(a, b);
    CancelLt(b, q - 1, c);
    CancelLt(b, c - 1, q);
  }
}
