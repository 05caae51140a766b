/** C integer division: it truncates toward zero, where Dafny's `/` rounds so that the
    remainder is never negative. */
module CArithmetic {
  function TruncDiv(a: int, b: int): int
    requires b != 0
  {
    if a >= 0 then
      if b > 0 then a / b else -(a / -b)
    else
      if b > 0 then -(-a / b) else -a / -b
  }

  /** The quotient is the one with the remainder of the dividend's sign and less than the divisor. */
  lemma TruncDivMeaning(a: int, b: int)
    requires b > 0
    ensures var q := TruncDiv(a, b);
            && (a >= 0 ==> q * b <= a < q * b + b)
            && (a < 0 ==> q * b - b < a <= q * b)
  {
  }
}
