/** Powers of ten and the exact rescaling of amounts in a currency reform. */
module Money {
  import opened Options
  import opened Division

  datatype Error =
    | InvalidInput | Forbidden | NotFound | Capacity | InsufficientFunds | Overflow | Conflict | Disabled

  /** An amount with its decimal point moved `e` places to the right. */
  function Scale(x: real, e: int): (y: real)
    decreases if e < 0 then -e else e
  {
    if e == 0 then x else if e > 0 then 10.0 * Scale(x, e - 1) else Scale(x, e + 1) / 10.0
  }

  lemma ScaleNext(x: real, e: int)
    ensures Scale(x, e + 1) == 10.0 * Scale(x, e)
  {
  }

  /** Moving the point twice is moving it by the sum. */
  lemma {:induction false} ScaleTwice(x: real, a: int, b: int)
    ensures Scale(Scale(x, a), b) == Scale(x, a + b)
    decreases if b < 0 then -b else b
  {
    if b > 0 {
      ScaleTwice(x, a, b - 1);
      ScaleNext(x, a + b - 1);
      ScaleNext(Scale(x, a), b - 1);
    } else if b < 0 {
      ScaleTwice(x, a, b + 1);
      ScaleNext(x, a + b);
      ScaleNext(Scale(x, a), b);
    }
  }

  lemma {:induction false} ScaleSum(x: real, y: real, e: int)
    ensures Scale(x + y, e) == Scale(x, e) + Scale(y, e)
    ensures Scale(x - y, e) == Scale(x, e) - Scale(y, e)
    decreases if e < 0 then -e else e
  {
    if e > 0 {
      ScaleSum(x, y, e - 1);
    } else if e < 0 {
      ScaleSum(x, y, e + 1);
    }
  }

  lemma {:induction false} ScaleSign(x: real, e: int)
    ensures x > 0.0 <==> Scale(x, e) > 0.0
    ensures x == 0.0 <==> Scale(x, e) == 0.0
    decreases if e < 0 then -e else e
  {
    if e > 0 {
      ScaleSign(x, e - 1);
    } else if e < 0 {
      ScaleSign(x, e + 1);
    }
  }

  function IntPow10(e: nat): (p: nat)
    ensures p >= 1
  {
    if e == 0 then 1 else 10 * IntPow10(e - 1)
  }

  /** The largest exponent whose power of ten fits the wide integers used here. */
  const MAX_EXPONENT := 38

  /** An amount in new units: exact, or refused. */
  function Rescale(value: int, exponent: int, limit: int): (r: Result<int, Error>) {
    if value == 0 then Ok(0)
    else if exponent > MAX_EXPONENT || exponent < -MAX_EXPONENT then Err(Overflow)
    else if exponent >= 0 then Bounded(value * IntPow10(exponent), limit)
    else if value % IntPow10(-exponent) != 0 then Err(Conflict)
    else Bounded(value / IntPow10(-exponent), limit)
  }

  function Bounded(value: int, limit: int): (r: Result<int, Error>) {
    if -limit <= value <= limit then Ok(value) else Err(Overflow)
  }

  /** The new value is the old one with its point moved, and nothing rounded. */
  ghost predicate IsRescaled(value: int, exponent: int, r: int) {
    r as real == Scale(value as real, exponent)
  }

  lemma {:induction false} ScaleByPower(value: int, e: nat)
    ensures Scale(value as real, e) == (value * IntPow10(e)) as real
  {
    if e > 0 {
      ScaleByPower(value, e - 1);
      assert value * IntPow10(e) == 10 * (value * IntPow10(e - 1));
    }
  }

  lemma {:induction false} RescaledUp(value: int, exponent: nat, r: int)
    ensures IsRescaled(value, exponent, r) <==> r == value * IntPow10(exponent)
  {
    ScaleByPower(value, exponent);
  }

  lemma {:induction false} RescaledDown(value: int, exponent: int, r: int)
    requires exponent < 0
    ensures IsRescaled(value, exponent, r) <==> value == r * IntPow10(-exponent)
  {
    ScaleByPower(r, -exponent);
    ScaleTwice(value as real, exponent, -exponent);
    ScaleTwice(r as real, -exponent, exponent);
  }

  lemma DividesExactly(value: int, r: int, p: int)
    requires p >= 1
    ensures value == r * p <==> value % p == 0 && value / p == r
  {
    assert value == value / p * p + value % p;
    if value == r * p {
      DivisionIsUnique(value, r, 0, p);
    }
  }

  /**
    Within the exponents supported, an amount is rescaled exactly when its new value is a
    whole number within the limit, and then it is that number.
   */
  lemma RescaleIsExact(value: int, exponent: int, limit: int, r: int)
    requires -MAX_EXPONENT <= exponent <= MAX_EXPONENT && limit >= 0
    ensures Rescale(value, exponent, limit) == Ok(r) <==> IsRescaled(value, exponent, r) && -limit <= r <= limit
  {
    if value == 0 {
      ScaleSign(0.0, exponent);
    } else if exponent >= 0 {
      RescaledUp(value, exponent, r);
    } else {
      RescaledDown(value, exponent, r);
      DividesExactly(value, r, IntPow10(-exponent));
    }
  }

  /** An amount is in conflict with its new units exactly when moving its point leaves a fraction. */
  lemma {:induction false} ConflictExactly(value: int, exponent: int, limit: int)
    requires -MAX_EXPONENT <= exponent <= MAX_EXPONENT && limit >= 0
    ensures Rescale(value, exponent, limit) == Err(Conflict) <==> forall r: int :: !IsRescaled(value, exponent, r)
  {
    if value == 0 {
      ScaleSign(0.0, exponent);
      assert IsRescaled(value, exponent, 0);
    } else if exponent >= 0 {
      RescaledUp(value, exponent, value * IntPow10(exponent));
      assert IsRescaled(value, exponent, value * IntPow10(exponent));
    } else {
      var p := IntPow10(-exponent);
      forall r: int
        ensures IsRescaled(value, exponent, r) <==> value % p == 0 && value / p == r
      {
        RescaledDown(value, exponent, r);
        DividesExactly(value, r, p);
      }
      assert value % p == 0 ==> IsRescaled(value, exponent, value / p);
    }
  }

  /** Beyond the exponents supported, nothing but zero is rescaled. */
  lemma RescaleBeyond(value: int, exponent: int, limit: int)
    requires exponent < -38 || 38 < exponent
    ensures Rescale(value, exponent, limit) == if value == 0 then Ok(0) else Err(Overflow)
  {
  }

  /** Rescaling keeps the sign of an amount. */
  lemma RescaledSign(value: int, exponent: int, limit: int)
    requires Rescale(value, exponent, limit).Ok? && limit >= 0
    ensures var r := Rescale(value, exponent, limit).value;
            && IsRescaled(value, exponent, r) && -limit <= r <= limit
            && (value > 0 <==> r > 0) && (value == 0 <==> r == 0)
  {
    var r := Rescale(value, exponent, limit).value;
    ScaleSign(value as real, exponent);
    if value != 0 {
      RescaleIsExact(value, exponent, limit, r);
    }
  }

  /** A larger limit never changes the result of a rescaling that the smaller one allowed. */
  lemma RescaleWithin(value: int, exponent: int, limit: int, larger: int)
    requires Rescale(value, exponent, limit).Ok? && limit <= larger
    ensures Rescale(value, exponent, larger) == Rescale(value, exponent, limit)
  {
  }
}
