/**
 * Go's integer division and remainder. Go truncates the quotient toward zero,
 * so the remainder takes the sign of the dividend; Dafny's `/` and `%` are
 * Euclidean instead. Both agree when the dividend is non-negative.
 */
module GoInt {

  function Abs(x: int): nat { if x < 0 then -x else x }

  /** The pair (a / b, a % b) as Go computes it. */
  function QuotRem(a: int, b: int): (qr: (int, int))
    requires b != 0
    ensures qr.0 * b + qr.1 == a
    ensures Abs(qr.1) < Abs(b)
    ensures qr.1 != 0 ==> (qr.1 < 0 <==> a < 0)
    ensures a >= 0 ==> qr.0 == a / b && qr.1 == a % b
  {
    var q, r := a / b, a % b;
    if a < 0 && r != 0 then
      (if b > 0 then (q + 1, r - b) else (q - 1, r + b))
    else
      (q, r)
  }
}
