/** C++ `int` operations that the evaluation relies on, written out on
    mathematical integers: `std::abs`, division that truncates toward zero,
    and `std::clamp`. Overflow is not modelled (see README). */
module CppInt {

  /** `std::abs` */
  function Abs(x: int): (r: nat)
    ensures r == x || r == -x
  {
    if x < 0 then -x else x
  }

  /** C++ `a / d` for a positive divisor: the quotient is rounded toward
      zero, unlike Dafny's Euclidean `/`, which rounds toward negative
      infinity for a negative dividend. */
  function TDiv(a: int, d: int): (q: int)
    requires d > 0
    ensures d * Abs(q) <= Abs(a) < d * (Abs(q) + 1)
    ensures q == 0 || (q < 0 <==> a < 0)
  {
    var n: nat := Abs(a);
    NatDivBounds(n, d);
    if a >= 0 then n / d else -(n / d)
  }

  lemma NatDivBounds(n: nat, d: int)
    requires d > 0
    ensures 0 <= n / d
    ensures d * (n / d) <= n < d * (n / d + 1)
  {
    assert n == d * (n / d) + n % d;
  }

  /** `std::clamp(x, lo, hi)`, defined only when `lo <= hi`. */
  function Clamp(x: int, lo: int, hi: int): (r: int)
    requires lo <= hi
    ensures lo <= r <= hi
    ensures lo <= x <= hi ==> r == x
    ensures x < lo ==> r == lo
    ensures hi < x ==> r == hi
  {
    if x < lo then lo else if hi < x then hi else x
  }

  lemma MulMonotone(k: int, x: int, y: int)
    requires k >= 0 && x <= y
    ensures k * x <= k * y
  {
  }

  /** The magnitude of a truncated quotient grows with the magnitude of the
      dividend. */
  lemma TDivAbsMonotone(a: int, b: int, d: int)
    requires d > 0
    requires Abs(a) <= Abs(b)
    ensures Abs(TDiv(a, d)) <= Abs(TDiv(b, d))
  {
    var qa, qb := Abs(TDiv(a, d)), Abs(TDiv(b, d));
    if qa > qb {
      MulMonotone(d, qb + 1, qa);
      assert false;
    }
  }

  /** `Abs(x * k) == Abs(x) * k` for a non-negative factor. */
  lemma AbsMulNonNegative(x: int, k: int)
    requires k >= 0
    ensures Abs(x * k) == Abs(x) * k
  {
    if x < 0 {
      assert x * k == -((-x) * k);
    }
  }
}
