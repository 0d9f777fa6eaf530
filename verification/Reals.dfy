/** The few facts about products of reals that the bounds rest on. */
module Reals {

  function AtLeastZero(x: real): real {
    if x < 0.0 then 0.0 else x
  }

  function Scaled(x: real, scale: real): real {
    x * scale
  }

  lemma MultiplyMonotone(x: real, y: real, scale: real)
    requires scale >= 0.0 && x <= y
    ensures x * scale <= y * scale
    ensures Scaled(x, scale) <= Scaled(y, scale)
  {
  }

  lemma ScaledSum(x: real, y: real, scale: real)
    ensures Scaled(x + y, scale) == Scaled(x, scale) + Scaled(y, scale)
  {
  }

  lemma DivideMonotone(x: real, y: real, scale: real)
    requires scale > 0.0 && x <= y
    ensures x / scale <= y / scale
  {
  }

  function Multiple(count: int, x: real): real {
    count as real * x
  }

  lemma NoMultiple(x: real)
    ensures Multiple(0, x) == 0.0
  {
  }

  lemma MultipleStep(count: int, x: real)
    ensures Multiple(count + 1, x) == Multiple(count, x) + x
  {
  }

  lemma MultipleMonotone(m: int, n: int, x: real)
    requires m <= n && x >= 0.0
    ensures Multiple(m, x) <= Multiple(n, x)
  {
    MultiplyMonotone(m as real, n as real, x);
  }
}
