/** What determines a quotient and a remainder. */
module Division {

  lemma AtLeastOnce(k: int, divisor: int)
    requires k >= 1 && divisor >= 0
    ensures k * divisor >= divisor
  {
  }

  /** A number is divided in one way only. */
  lemma DivisionIsUnique(x: int, quotient: int, remainder: int, divisor: int)
    requires 0 <= remainder < divisor && x == quotient * divisor + remainder
    ensures x / divisor == quotient && x % divisor == remainder
  {
    var other := x / divisor;
    assert x == other * divisor + x % divisor;
    assert (other - quotient) * divisor == remainder - x % divisor;
    if other > quotient {
      AtLeastOnce(other - quotient, divisor);
    } else if other < quotient {
      AtLeastOnce(quotient - other, divisor);
    }
  }
}
