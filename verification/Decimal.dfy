/** Reading an exact quantity, in thousandths, from a decimal numeral. */
module Decimal {
  import opened Options
  import opened Text
  import opened Numerals

  const MAX_U32 := 0xFFFF_FFFF
  const MAX_MILLI := 1_000_000_000

  datatype Error = InvalidInput

  /** The text before the first point and after it; all of it when there is no point. */
  function SplitOnce(s: string): (parts: (string, string))
    ensures '.' !in parts.0
    ensures s == parts.0 + "." + parts.1 || (s == parts.0 && parts.1 == "")
  {
    if s == "" then ("", "")
    else if s[0] == '.' then ("", s[1..])
    else
      var rest := SplitOnce(s[1..]);
      assert s == [s[0]] + s[1..];
      ([s[0]] + rest.0, rest.1)
  }

  function Scale(digits: nat): (scale: nat)
    requires digits <= 3
  {
    if digits == 0 then 1000 else if digits == 1 then 100 else if digits == 2 then 10 else 1
  }

  function QuantityMilli(s: string): (r: Result<nat, Error>) {
    var (whole, fraction) := SplitOnce(s);
    if whole == "" || !AllDigits(whole) || |fraction| > 3 || !AllDigits(fraction) then Err(InvalidInput)
    else
      var units := ParseUnsigned(whole, MAX_U32);
      var parts := if fraction == "" then Some(0) else ParseUnsigned(fraction, MAX_U32);
      if units.None? || parts.None? then Err(InvalidInput)
      else if units.value * 1000 > MAX_U32 then Err(InvalidInput)
      else
        var n := units.value * 1000 + parts.value * Scale(|fraction|);
        if n <= MAX_U32 && 1 <= n <= MAX_MILLI then Ok(n) else Err(InvalidInput)
  }

  // ----- what the text says

  /** A numeral of digits, with a point and up to three more digits if any. */
  predicate Written(s: string, whole: string, fraction: string) {
    && whole != "" && AllDigits(whole) && AllDigits(fraction) && |fraction| <= 3
    && (s == whole + "." + fraction || (s == whole && fraction == ""))
  }

  /** The value of the digits after a point: each place is worth a tenth of the one before. */
  function PlaceValue(fraction: string): (v: real)
    requires AllDigits(fraction)
  {
    if fraction == "" then 0.0 else (Digit(fraction[0]) as real + PlaceValue(fraction[1..])) / 10.0
  }

  function DecimalValue(whole: string, fraction: string): (v: real)
    requires AllDigits(whole) && AllDigits(fraction)
  {
    Value(whole) as real + PlaceValue(fraction)
  }

  lemma {:induction false} SplitWritten(s: string, whole: string, fraction: string)
    requires Written(s, whole, fraction)
    ensures SplitOnce(s) == (whole, fraction)
  {
    SplitAtPoint(s, whole, fraction);
  }

  lemma {:induction false} SplitAtPoint(s: string, whole: string, fraction: string)
    requires AllDigits(whole) && (s == whole + "." + fraction || (s == whole && fraction == ""))
    ensures SplitOnce(s) == (whole, fraction)
    decreases |whole|
  {
    if whole == "" {
      assert s == "" || s[1..] == fraction;
    } else {
      assert s[0] == whole[0] && IsDigit(whole[0]);
      assert s[1..] == whole[1..] + "." + fraction || (s[1..] == whole[1..] && fraction == "");
      SplitAtPoint(s[1..], whole[1..], fraction);
      assert whole == [whole[0]] + whole[1..];
    }
  }

  lemma {:induction false} OneDigit(s: string)
    requires |s| == 1 && AllDigits(s)
    ensures Value(s) == Digit(s[0]) && PlaceValue(s) == Digit(s[0]) as real / 10.0
  {
    assert s[..0] == "" && s[1..] == "";
  }

  lemma {:induction false} TwoDigits(s: string)
    requires |s| == 2 && AllDigits(s)
    ensures Value(s) == 10 * Digit(s[0]) + Digit(s[1])
    ensures PlaceValue(s) == (Digit(s[0]) as real + Digit(s[1]) as real / 10.0) / 10.0
  {
    OneDigit(s[..1]);
    OneDigit(s[1..]);
  }

  lemma {:induction false} ThreeDigits(s: string)
    requires |s| == 3 && AllDigits(s)
    ensures Value(s) == 100 * Digit(s[0]) + 10 * Digit(s[1]) + Digit(s[2])
    ensures PlaceValue(s) == (Digit(s[0]) as real + (Digit(s[1]) as real + Digit(s[2]) as real / 10.0) / 10.0) / 10.0
  {
    TwoDigits(s[..2]);
    TwoDigits(s[1..]);
  }

  lemma FractionIsPlaceValue(fraction: string)
    requires AllDigits(fraction) && |fraction| <= 3
    ensures Value(fraction) <= 999
    ensures (Value(fraction) * Scale(|fraction|)) as real == 1000.0 * PlaceValue(fraction)
  {
    if |fraction| == 1 {
      OneDigit(fraction);
    } else if |fraction| == 2 {
      TwoDigits(fraction);
    } else if |fraction| == 3 {
      ThreeDigits(fraction);
    }
  }

  lemma {:induction false} ParsedDigits(s: string)
    requires s != "" && AllDigits(s)
    ensures ParseUnsigned(s, MAX_U32) == if Value(s) > MAX_U32 then None else Some(Value(s))
  {
    assert IsDigit(s[0]);
  }

  function Thousandths(whole: string, fraction: string): (n: nat)
    requires AllDigits(whole) && AllDigits(fraction) && |fraction| <= 3
  {
    Value(whole) * 1000 + Value(fraction) * Scale(|fraction|)
  }

  lemma ReadQuantity(s: string, whole: string, fraction: string)
    requires Written(s, whole, fraction)
    ensures var n := Thousandths(whole, fraction);
            QuantityMilli(s) == if 1 <= n <= MAX_MILLI then Ok(n) else Err(InvalidInput)
  {
    SplitWritten(s, whole, fraction);
    FractionIsPlaceValue(fraction);
    ParsedDigits(whole);
    if fraction != "" {
      ParsedDigits(fraction);
    }
  }

  lemma SumOfParts(units: nat, parts: nat, v: real)
    requires parts as real == 1000.0 * v
    ensures (units * 1000 + parts) as real == 1000.0 * (units as real + v)
  {
  }

  lemma ThousandthsAreExact(whole: string, fraction: string)
    requires AllDigits(whole) && AllDigits(fraction) && |fraction| <= 3
    ensures Thousandths(whole, fraction) as real == 1000.0 * DecimalValue(whole, fraction)
  {
    FractionIsPlaceValue(fraction);
    SumOfParts(Value(whole), Value(fraction) * Scale(|fraction|), PlaceValue(fraction));
  }

  lemma WrittenQuantity(s: string, whole: string, fraction: string, n: nat)
    requires Written(s, whole, fraction)
    ensures QuantityMilli(s) == Ok(n) <==>
            1 <= n <= 1_000_000_000 && n as real == 1000.0 * DecimalValue(whole, fraction)
  {
    ReadQuantity(s, whole, fraction);
    ThousandthsAreExact(whole, fraction);
    var exact: nat := Thousandths(whole, fraction);
    assert n as real == exact as real <==> n == exact;
  }

  /**
    A text is accepted exactly when it is digits, with a point and up to three more digits
    if any, for 0.001 up to 1000000; and then the result is that value, exactly.
   */
  lemma QuantityIsExact(s: string, n: nat)
    ensures QuantityMilli(s) == Ok(n) <==>
            && 1 <= n <= 1_000_000_000
            && exists whole, fraction ::
                 Written(s, whole, fraction) && n as real == 1000.0 * DecimalValue(whole, fraction)
  {
    var (whole, fraction) := SplitOnce(s);
    if QuantityMilli(s) == Ok(n) {
      assert Written(s, whole, fraction);
      WrittenQuantity(s, whole, fraction, n);
    }
    forall whole, fraction | Written(s, whole, fraction)
      ensures QuantityMilli(s) == Ok(n) <==>
              1 <= n <= 1_000_000_000 && n as real == 1000.0 * DecimalValue(whole, fraction)
    {
      WrittenQuantity(s, whole, fraction, n);
    }
  }
}
