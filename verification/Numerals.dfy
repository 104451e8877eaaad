/** Decimal numerals: printing a number, and reading one back as Rust's integer parsing does. */
module Numerals {
  import opened Options
  import opened Text

  predicate AllDigits(s: string) {
    forall i | 0 <= i < |s| :: IsDigit(s[i])
  }

  function Digit(c: char): (d: nat)
    requires IsDigit(c)
    ensures d < 10
  {
    c as int - '0' as int
  }

  function Value(s: string): (n: nat)
    requires AllDigits(s)
  {
    if s == "" then 0 else 10 * Value(s[..|s| - 1]) + Digit(s[|s| - 1])
  }

  /** The number without leading zeros. */
  function Digits(n: nat): (s: string)
    ensures s != "" && AllDigits(s)
  {
    if n < 10 then ['0' + n as char] else Digits(n / 10) + ['0' + (n % 10) as char]
  }

  /** Reading an unsigned number no greater than a maximum; a plus sign may stand before it. */
  function ParseUnsigned(s: string, max: nat): (n: Option<nat>) {
    var digits := if |s| > 1 && s[0] == '+' then s[1..] else s;
    if digits == "" || !AllDigits(digits) || Value(digits) > max then None else Some(Value(digits))
  }

  lemma {:induction false} ValueOfDigits(n: nat)
    ensures Value(Digits(n)) == n
  {
    var s := Digits(n);
    if n >= 10 {
      ValueOfDigits(n / 10);
      assert s[..|s| - 1] == Digits(n / 10);
    }
  }

  /** A number printed is read back exactly when the type holds it. */
  lemma {:induction false} ParsePrinted(n: nat, max: nat)
    ensures ParseUnsigned(Digits(n), max) == if n <= max then Some(n) else None
  {
    ValueOfDigits(n);
    assert IsDigit(Digits(n)[0]);
  }

  /** Digits, perhaps behind a plus sign, that are worth a number. */
  predicate Writes(text: string, digits: string, n: nat) {
    digits != "" && AllDigits(digits) && (text == digits || text == "+" + digits) && Value(digits) == n
  }

  /** Exactly which texts are read as a number, and as which. */
  lemma {:induction false} ParseExactly(text: string, max: nat, n: nat)
    ensures ParseUnsigned(text, max) == Some(n) <==> n <= max && exists digits :: Writes(text, digits, n)
  {
    var read := if |text| > 1 && text[0] == '+' then text[1..] else text;
    if ParseUnsigned(text, max) == Some(n) {
      assert read == text || text == "+" + read;
      assert Writes(text, read, n);
    }
    if exists digits :: Writes(text, digits, n) {
      var digits :| Writes(text, digits, n);
      assert IsDigit(digits[0]);
      assert text == "+" + digits ==> text[1..] == digits;
    }
  }

  function Power(k: nat): (p: nat)
    ensures p > 0
  {
    if k == 0 then 1 else 10 * Power(k - 1)
  }

  lemma {:induction false} DigitsLength(n: nat, k: nat)
    requires k > 0
    ensures |Digits(n)| <= k <==> n < Power(k)
    decreases k
  {
    if k > 1 {
      if n >= 10 {
        DigitsLength(n / 10, k - 1);
      } else {
        assert Power(k) >= 10 by { PowerGrows(k); }
      }
    }
  }

  lemma {:induction false} PowerGrows(k: nat)
    requires k > 0
    ensures Power(k) >= 10
  {
    if k > 1 { PowerGrows(k - 1); }
  }
}
