/** Python's `round(x, n)` on reals: to the nearest multiple of ten to the minus n, ties to even. */
module Rounding {
  import opened Reals

  /** The nearest integer, the even one of two equally near. */
  function RoundInt(x: real): int {
    var f := x.Floor;
    var rest := x - f as real;
    if rest < 0.5 || (rest == 0.5 && f % 2 == 0) then f else f + 1
  }

  lemma RoundIntNear(x: real)
    ensures -0.5 <= RoundInt(x) as real - x <= 0.5
  {
  }

  lemma RoundIntMonotone(x: real, y: real)
    requires x <= y
    ensures RoundInt(x) <= RoundInt(y)
  {
  }

  /** `round(x, n)` where `scale` is ten to the n. */
  function Round(x: real, scale: real): real
    requires scale > 0.0
  {
    RoundInt(x * scale) as real / scale
  }

  lemma RoundNear(x: real, scale: real)
    requires scale > 0.0
    ensures -0.5 / scale <= Round(x, scale) - x <= 0.5 / scale
  {
    var r := RoundInt(x * scale) as real;
    RoundIntNear(x * scale);
    assert r / scale - x == (r - x * scale) / scale;
    DivideMonotone(-0.5, r - x * scale, scale);
    DivideMonotone(r - x * scale, 0.5, scale);
  }

  lemma RoundMonotone(x: real, y: real, scale: real)
    requires scale > 0.0 && x <= y
    ensures Round(x, scale) <= Round(y, scale)
  {
    MultiplyMonotone(x, y, scale);
    RoundIntMonotone(x * scale, y * scale);
    DivideMonotone(RoundInt(x * scale) as real, RoundInt(y * scale) as real, scale);
  }
}
