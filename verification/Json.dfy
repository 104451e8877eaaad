/**
  The surrogate normaliser in front of the single-escape JSON decoder.

  `Normalize` says what the in-place rewrite computes. `Lex` is the reference: it
  reads JSON text (section 7 of RFC 8259) either joining surrogate pairs or, like
  the decoder behind the normaliser, knowing single escapes only.
 */
module Json {
  import opened Options
  import opened Unicode

  const BUFFER := 1024
  const BACKSLASH: byte := 0x5C
  const QUOTE: byte := 0x22
  const LETTER_U: byte := 0x75

  function HexDigit(b: byte): (digit: Option<int>)
    ensures digit.Some? ==> 0 <= digit.value < 16 && b != BACKSLASH
  {
    if 0x30 <= b <= 0x39 then Some(b - 0x30)
    else if 0x61 <= b <= 0x66 then Some(b - 0x61 + 10)
    else if 0x41 <= b <= 0x46 then Some(b - 0x41 + 10)
    else None
  }

  predicate NoBackslash(s: seq<byte>) {
    forall i | 0 <= i < |s| :: s[i] != BACKSLASH
  }

  /** The value of a string of hexadecimal digits, most significant first. */
  function HexValue(s: seq<byte>): (value: Option<int>)
    ensures value.Some? ==> value.value >= 0 && NoBackslash(s)
  {
    if s == [] then Some(0)
    else
      var front, digit := HexValue(s[..|s| - 1]), HexDigit(s[|s| - 1]);
      if front.Some? && digit.Some? then Some(front.value * 16 + digit.value) else None
  }

  method Hex(bytes: seq<byte>) returns (r: Option<int>)
    ensures r == HexValue(bytes)
  {
    var n, i := 0, 0;
    while i < |bytes|
      invariant 0 <= i <= |bytes|
      invariant HexValue(bytes[..i]) == Some(n)
    {
      assert bytes[..i + 1][..i] == bytes[..i];
      var digit := HexDigit(bytes[i]);
      if digit.None? {
        NoHexValue(bytes, i);
        return None;
      }
      n := n * 16 + digit.value;
      i := i + 1;
    }
    assert bytes[..i] == bytes;
    return Some(n);
  }

  lemma {:induction false} NoHexValue(s: seq<byte>, i: nat)
    requires i < |s| && HexDigit(s[i]).None?
    ensures HexValue(s).None?
  {
    if i < |s| - 1 {
      NoHexValue(s[..|s| - 1], i);
    }
  }

  const LOWER_DIGITS := "0123456789abcdef"
  const UPPER_DIGITS := "0123456789ABCDEF"

  /** The digit of a value below sixteen, in either case. */
  function DigitOf(k: nat, upper: bool): (b: byte)
    requires k < 16
  {
    var c := if upper then UPPER_DIGITS[k] else LOWER_DIGITS[k];
    c as int % 0x100
  }

  /** The digits are those sixteen bytes in either case, each with the value of its place, and no others. */
  lemma DigitsAreRead(k: nat, upper: bool)
    requires k < 16
    ensures HexDigit(DigitOf(k, upper)) == Some(k)
  {
  }

  lemma DigitIsPrinted(b: byte, k: nat)
    requires k < 16 && HexDigit(b) == Some(k)
    ensures b == DigitOf(k, false) || b == DigitOf(k, true)
  {
  }

  /** A sixteen-bit number as a Unicode escape, each of its four digits in either case. */
  function PrintUnit(n: nat, upper: seq<bool>): (s: seq<byte>)
    requires n < 0x1_0000 && |upper| == 4
    ensures |s| == 6
  {
    [BACKSLASH, LETTER_U,
     DigitOf(n / 0x1000, upper[0]), DigitOf(n / 0x100 % 0x10, upper[1]),
     DigitOf(n / 0x10 % 0x10, upper[2]), DigitOf(n % 0x10, upper[3])]
  }

  /** Digits of values given, most significant first. */
  lemma {:induction false} FourDigits(s: seq<byte>, a: nat, b: nat, c: nat, d: nat)
    requires |s| == 4 && a < 16 && b < 16 && c < 16 && d < 16
    requires HexDigit(s[0]) == Some(a) && HexDigit(s[1]) == Some(b)
    requires HexDigit(s[2]) == Some(c) && HexDigit(s[3]) == Some(d)
    ensures HexValue(s) == Some(((a * 16 + b) * 16 + c) * 16 + d)
  {
    assert s[..3][..2] == s[..2] && s[..2][..1] == s[..1] && s[..1][..0] == [];
    assert HexValue(s[..1]) == Some(a);
    assert HexValue(s[..2]) == Some(a * 16 + b);
    assert HexValue(s[..3]) == Some((a * 16 + b) * 16 + c);
  }

  predicate IsUnicodeEscape(s: seq<byte>) {
    |s| >= 2 && s[0] == BACKSLASH && s[1] == LETTER_U
  }

  /** What the four digits after a leading backslash-u say, if there are four and they are digits. */
  function EscapedUnit(s: seq<byte>): (unit: Option<int>)
    ensures unit.Some? ==> |s| >= 6
  {
    if IsUnicodeEscape(s) && |s| >= 6 then HexValue(s[2..6]) else None
  }

  /** The four digits of a sixteen-bit number. */
  lemma FourPlaces(a: nat, b: nat, c: nat, d: nat, n: nat)
    requires a < 16 && b < 16 && c < 16 && d < 16
    ensures n == ((a * 16 + b) * 16 + c) * 16 + d <==>
            a == n / 0x1000 && b == n / 0x100 % 0x10 && c == n / 0x10 % 0x10 && d == n % 0x10
  {
  }

  lemma PrefixAt<T>(front: seq<T>, s: seq<T>)
    requires front <= s
    ensures forall i | 0 <= i < |front| :: s[i] == front[i]
  {
  }

  /** The digits of a printed number have its four places. */
  lemma PrintedDigits(n: nat, upper: seq<bool>)
    requires n < 0x1_0000 && |upper| == 4
    ensures var s := PrintUnit(n, upper);
            && HexDigit(s[2]) == Some(n / 0x1000) && HexDigit(s[3]) == Some(n / 0x100 % 0x10)
            && HexDigit(s[4]) == Some(n / 0x10 % 0x10) && HexDigit(s[5]) == Some(n % 0x10)
            && s[0] == BACKSLASH && s[1] == LETTER_U
  {
    DigitsAreRead(n / 0x1000, upper[0]);
    DigitsAreRead(n / 0x100 % 0x10, upper[1]);
    DigitsAreRead(n / 0x10 % 0x10, upper[2]);
    DigitsAreRead(n % 0x10, upper[3]);
  }

  /** A printed number is read back, whatever follows it. */
  lemma {:induction false} PrintedUnit(s: seq<byte>, n: nat, upper: seq<bool>)
    requires n < 0x1_0000 && |upper| == 4 && PrintUnit(n, upper) <= s
    ensures EscapedUnit(s) == Some(n)
  {
    var a, b, c, d := n / 0x1000, n / 0x100 % 0x10, n / 0x10 % 0x10, n % 0x10;
    FourPlaces(a, b, c, d, n);
    PrintedDigits(n, upper);
    PrefixAt(PrintUnit(n, upper), s);
    FourDigits(s[2..6], a, b, c, d);
  }

  /** Digits as they stand in a text, and in which case. */
  lemma {:induction false} FourAreDigits(s: seq<byte>)
    requires |s| == 4 && HexValue(s).Some?
    ensures forall i | 0 <= i < 4 :: HexDigit(s[i]).Some?
  {
    forall i | 0 <= i < 4
      ensures HexDigit(s[i]).Some?
    {
      if HexDigit(s[i]).None? {
        NoHexValue(s, i);
      }
    }
  }

  lemma {:induction false} UnitIsPrinted(s: seq<byte>) returns (upper: seq<bool>)
    requires EscapedUnit(s).Some?
    ensures EscapedUnit(s).value < 0x1_0000 && |upper| == 4 && PrintUnit(EscapedUnit(s).value, upper) <= s
  {
    var digits := s[2..6];
    FourAreDigits(digits);
    var a, b, c, d := HexDigit(s[2]).value, HexDigit(s[3]).value, HexDigit(s[4]).value, HexDigit(s[5]).value;
    FourDigits(digits, a, b, c, d);
    var n := EscapedUnit(s).value;
    FourPlaces(a, b, c, d, n);
    upper := [s[2] == DigitOf(a, true), s[3] == DigitOf(b, true), s[4] == DigitOf(c, true), s[5] == DigitOf(d, true)];
    DigitIsPrinted(s[2], a);
    DigitIsPrinted(s[3], b);
    DigitIsPrinted(s[4], c);
    DigitIsPrinted(s[5], d);
    assert s[..6] == PrintUnit(n, upper);
  }

  /** A text that starts with a number printed as a Unicode escape. */
  ghost predicate ShowsUnit(s: seq<byte>, n: int) {
    0 <= n < 0x1_0000 && exists upper: seq<bool> :: |upper| == 4 && PrintUnit(n, upper) <= s
  }

  /** An escape is read as a number exactly when it is that number printed. */
  lemma {:induction false} ShownExactly(s: seq<byte>, n: int)
    ensures EscapedUnit(s) == Some(n) <==> ShowsUnit(s, n)
  {
    if ShowsUnit(s, n) {
      var upper: seq<bool> :| |upper| == 4 && PrintUnit(n, upper) <= s;
      PrintedUnit(s, n, upper);
    }
    if EscapedUnit(s) == Some(n) {
      var upper := UnitIsPrinted(s);
    }
  }

  predicate StartsWithHigh(s: seq<byte>) {
    EscapedUnit(s).Some? && IsHighSurrogate(EscapedUnit(s).value)
  }

  /** The character of the surrogate pair that `s` starts with, if it starts with one. */
  function LeadingPair(s: seq<byte>): (c: Option<int>)
    ensures c.Some? ==> |s| >= 12 && 0x1_0000 <= c.value < 0x11_0000 && StartsWithHigh(s)
  {
    if !StartsWithHigh(s) then None
    else
      var low := EscapedUnit(s[6..]);
      if low.Some? && IsLowSurrogate(low.value)
      then Some(JoinSurrogates(EscapedUnit(s).value, low.value))
      else None
  }

  function Prepend<T>(front: seq<T>, tail: Option<seq<T>>): (r: Option<seq<T>>) {
    match tail
    case None => None
    case Some(t) => Some(front + t)
  }

  lemma {:induction false} PrependNothing(s: seq<byte>)
    ensures Prepend([], Normalize(s)) == Normalize(s) == Normalize(s[0..])
  {
    assert s[0..] == s;
    if Normalize(s).Some? {
      assert [] + Normalize(s).value == Normalize(s).value;
    }
  }

  lemma PrependTwice<T>(a: seq<T>, b: seq<T>, tail: Option<seq<T>>)
    ensures Prepend(a + b, tail) == Prepend(a, Prepend(b, tail))
  {
    if tail.Some? {
      assert (a + b) + tail.value == a + (b + tail.value);
    }
  }

  /**
    What one turn of the normaliser writes and how many bytes it reads for it; none
    when the turn meets a malformed Unicode escape.
   */
  function Step(s: seq<byte>): (r: Option<(seq<byte>, nat)>)
    requires s != []
    ensures r.Some? ==> 1 <= r.value.1 <= |s| && |r.value.0| <= r.value.1
  {
    if IsUnicodeEscape(s) && EscapedUnit(s).None? then None
    else if StartsWithHigh(s) then
      var c := LeadingPair(s);
      if c.None? then None else Some((EncodeUtf8(c.value), 12))
    else if s[0] == BACKSLASH && |s| >= 2 then Some((s[..2], 2))
    else Some((s[..1], 1))
  }

  /** The normalised form of a byte string; none when a Unicode escape in it is malformed. */
  function Normalize(s: seq<byte>): (n: Option<seq<byte>>)
    decreases |s|
  {
    if s == [] then Some([])
    else
      var step := Step(s);
      if step.None? then None else Prepend(step.value.0, Normalize(s[step.value.1..]))
  }

  /** How many surrogate pairs the normaliser joins. */
  function Pairs(s: seq<byte>): (count: nat) {
    if s == [] then 0
    else if LeadingPair(s).Some? then 1 + Pairs(s[12..])
    else if s[0] == BACKSLASH && |s| >= 2 then Pairs(s[2..])
    else Pairs(s[1..])
  }

  predicate IsWhitespace(b: byte) { b == 0x20 || (9 <= b <= 13 && b != 11) }

  /** One turn of the loop: what was written so far, then `front`, then the rest of the text. */
  ghost predicate Progress(input: seq<byte>, written: seq<byte>, read: nat) {
    read <= |input| && Normalize(input) == Prepend(written, Normalize(input[read..]))
  }

  lemma {:induction false} ProgressStep(input: seq<byte>, written: seq<byte>, read: nat)
    requires Progress(input, written, read) && read < |input|
    ensures var step := Step(input[read..]);
            if step.None? then Normalize(input).None?
            else Progress(input, written + step.value.0, read + step.value.1)
  {
    var step := Step(input[read..]);
    if step.Some? {
      var (front, used) := step.value;
      assert input[read..][used..] == input[read + used..];
      PrependTwice(written, front, Normalize(input[read + used..]));
    }
  }

  /** Reads the second half of a surrogate pair whose first half is `high`. */
  method ReadLow(input: seq<byte>, read: nat, high: int) returns (c: Option<int>)
    requires read + 6 <= |input|
    requires EscapedUnit(input[read..]) == Some(high) && IsHighSurrogate(high)
    ensures c == LeadingPair(input[read..])
  {
    if |input| < read + 12 || input[read + 6] != BACKSLASH || input[read + 7] != LETTER_U {
      return None;
    }
    assert input[read..][6..][2..6] == input[read + 8..read + 12];
    var low := Hex(input[read + 8..read + 12]);
    if low.None? || !IsLowSurrogate(low.value) {
      return None;
    }
    return Some(JoinSurrogates(high, low.value));
  }

  /** The body of the rewriting loop: joins one pair, or copies one byte or one escape's first two. */
  method Turn(input: seq<byte>, read: nat, normalized: array<byte>, written: nat) returns (r: Option<(nat, nat)>)
    requires written <= read < |input| <= BUFFER == normalized.Length
    modifies normalized
    ensures var step := Step(input[read..]);
            if step.None? then r.None?
            else
              && r == Some((read + step.value.1, written + |step.value.0|))
              && normalized[..written + |step.value.0|] == old(normalized[..written]) + step.value.0
  {
    ghost var rest := input[read..];
    if input[read] == BACKSLASH && read + 1 < |input| && input[read + 1] == LETTER_U {
      if |input| < read + 6 {
        return None;
      }
      assert rest[2..6] == input[read + 2..read + 6];
      var high := Hex(input[read + 2..read + 6]);
      if high.None? {
        return None;
      }
      if IsHighSurrogate(high.value) {
        var c := ReadLow(input, read, high.value);
        if c.None? {
          return None;
        }
        var utf8 := EncodeUtf8(c.value);
        forall k | 0 <= k < |utf8| {
          normalized[written + k] := utf8[k];
        }
        return Some((read + 12, written + |utf8|));
      }
    }
    normalized[written] := input[read];
    if input[read] == BACKSLASH && read + 1 < |input| {
      normalized[written + 1] := input[read + 1];
      assert normalized[..written + 2] == old(normalized[..written]) + rest[..2];
      return Some((read + 2, written + 2));
    }
    assert normalized[..written + 1] == old(normalized[..written]) + rest[..1];
    return Some((read + 1, written + 1));
  }

  /**
    The rewrite itself: one pass with a reading and a writing cursor into a fixed
    buffer. The writing cursor never overtakes the reading one.
   */
  method Rewrite(input: seq<byte>, normalized: array<byte>) returns (r: Option<nat>)
    requires |input| <= BUFFER == normalized.Length
    modifies normalized
    ensures r.Some? <==> Normalize(input).Some?
    ensures r.Some? ==> r.value <= |input| && normalized[..r.value] == Normalize(input).value
  {
    var read, written := 0, 0;
    PrependNothing(input);
    while read < |input|
      invariant 0 <= written <= read <= |input|
      invariant Progress(input, normalized[..written], read)
    {
      ProgressStep(input, normalized[..written], read);
      var turn := Turn(input, read, normalized, written);
      if turn.None? {
        return None;
      }
      read, written := turn.value.0, turn.value.1;
    }
    assert input[read..] == [];
    assert Normalize(input).value == normalized[..written];
    return Some(written);
  }

  predicate WhitespaceFrom(s: seq<byte>, start: nat) {
    forall i | start <= i < |s| :: s[i] in {0x20, 0x09, 0x0A, 0x0C, 0x0D}
  }

  method OnlyWhitespace(s: seq<byte>, start: nat) returns (ok: bool)
    ensures ok == WhitespaceFrom(s, start)
  {
    var i := start;
    while i < |s|
      invariant start <= i
      invariant forall k | start <= k < i && k < |s| :: IsWhitespace(s[k])
    {
      if !IsWhitespace(s[i]) {
        return false;
      }
      i := i + 1;
    }
    return true;
  }

  /** A parser of the text that follows; it says how many bytes it used. */
  type Parser<!V> = seq<byte> -> Option<(V, nat)>

  /**
    The rewrite, then the single-escape parser, then the check that only whitespace
    follows. The parser belongs to a library and is a parameter.
   */
  method Decode<V>(input: seq<byte>, parse: Parser<V>) returns (r: Option<V>)
    ensures r.Some? <==>
            && |input| <= 1024
            && Normalize(input).Some?
            && parse(Normalize(input).value).Some?
            && WhitespaceFrom(Normalize(input).value, parse(Normalize(input).value).value.1)
    ensures r.Some? ==> r.value == parse(Normalize(input).value).value.0
  {
    if |input| > BUFFER {
      return None;
    }
    var normalized := new byte[BUFFER](_ => 0);
    var written := Rewrite(input, normalized);
    if written.None? {
      return None;
    }
    var text := normalized[..written.value];
    var parsed := parse(text);
    if parsed.None? {
      return None;
    }
    var ok := OnlyWhitespace(text, parsed.value.1);
    return if ok then Some(parsed.value.0) else None;
  }

  /** Each joined pair shortens the text by eight bytes; nothing else changes its length. */
  lemma {:induction false} NormalizedLength(s: seq<byte>)
    requires Normalize(s).Some?
    ensures |Normalize(s).value| + 8 * Pairs(s) == |s|
  {
    if s != [] {
      if LeadingPair(s).Some? {
        NormalizedLength(s[12..]);
      } else if s[0] == BACKSLASH && |s| >= 2 {
        NormalizedLength(s[2..]);
      } else {
        NormalizedLength(s[1..]);
      }
    }
  }

  /** A byte that is not a backslash is copied. */
  lemma {:induction false} PlainByte(s: seq<byte>)
    requires s != [] && s[0] != BACKSLASH
    ensures Normalize(s) == Prepend([s[0]], Normalize(s[1..]))
  {
    assert s[..1] == [s[0]];
  }

  /** Bytes that are not backslashes are copied one by one. */
  lemma {:induction false} PlainPrefix(plain: seq<byte>, tail: seq<byte>)
    requires NoBackslash(plain)
    ensures Normalize(plain + tail) == Prepend(plain, Normalize(tail))
  {
    if plain == [] {
      assert plain + tail == tail;
      if Normalize(tail).Some? {
        assert plain + Normalize(tail).value == Normalize(tail).value;
      }
    } else {
      PlainPrefix(plain[1..], tail);
      assert (plain + tail)[1..] == plain[1..] + tail;
      PlainByte(plain + tail);
      assert [plain[0]] + plain[1..] == plain;
      PrependTwice([plain[0]], plain[1..], Normalize(tail));
    }
  }

  /** An escape that is neither malformed nor a surrogate pair is copied with all its digits. */
  lemma {:induction false} CopiedEscape(s: seq<byte>)
    requires EscapedUnit(s).Some? && !StartsWithHigh(s)
    ensures Normalize(s) == Prepend(s[..6], Normalize(s[6..]))
  {
    assert s[2..] == s[2..6] + s[6..];
    PlainPrefix(s[2..6], s[6..]);
    assert s[..2] + s[2..6] == s[..6];
    PrependTwice(s[..2], s[2..6], Normalize(s[6..]));
  }

  /** A printed surrogate pair becomes the bytes of its character, whatever the case of its digits. */
  lemma {:induction false} PrintedPair(c: int, upperHigh: seq<bool>, upperLow: seq<bool>, rest: seq<byte>)
    requires 0x1_0000 <= c < 0x11_0000 && |upperHigh| == 4 && |upperLow| == 4
    ensures var (high, low) := SplitSurrogates(c);
            Normalize(PrintUnit(high, upperHigh) + PrintUnit(low, upperLow) + rest) ==
            Prepend(EncodeUtf8(c), Normalize(rest))
  {
    var (high, low) := SplitSurrogates(c);
    var first, second := PrintUnit(high, upperHigh), PrintUnit(low, upperLow);
    var s := first + second + rest;
    assert s == first + (second + rest) && s[6..] == second + rest && s[12..] == rest;
    PrintedUnit(s, high, upperHigh);
    PrintedUnit(s[6..], low, upperLow);
    SurrogatesRoundTrip(c, high, low);
  }

  lemma {:induction false} ShowsNone(s: seq<byte>)
    ensures EscapedUnit(s).None? <==> forall n :: !ShowsUnit(s, n)
  {
    if EscapedUnit(s).Some? {
      ShownExactly(s, EscapedUnit(s).value);
    } else {
      forall n
        ensures !ShowsUnit(s, n)
      {
        ShownExactly(s, n);
      }
    }
  }

  /** A low surrogate is shown. */
  ghost predicate ShowsLow(s: seq<byte>) {
    exists low :: ShowsUnit(s, low) && 0xDC00 <= low <= 0xDFFF
  }

  lemma {:induction false} LowIsShown(s: seq<byte>)
    ensures EscapedUnit(s).Some? && IsLowSurrogate(EscapedUnit(s).value) <==> ShowsLow(s)
  {
    if ShowsLow(s) {
      var low :| ShowsUnit(s, low) && 0xDC00 <= low <= 0xDFFF;
      ShownExactly(s, low);
    } else if EscapedUnit(s).Some? {
      ShownExactly(s, EscapedUnit(s).value);
    }
  }

  /**
    A Unicode escape is an error exactly when it shows no number, or shows a high surrogate
    and what follows shows no low one.
   */
  lemma {:induction false} MalformedEscape(s: seq<byte>, n: int)
    requires |s| >= 2 && s[0] == 0x5C && s[1] == 0x75
    ensures (forall k :: !ShowsUnit(s, k)) ==> Normalize(s).None?
    ensures ShowsUnit(s, n) && |s| >= 6 && Step(s).None? <==>
            ShowsUnit(s, n) && |s| >= 6 && 0xD800 <= n <= 0xDBFF && !ShowsLow(s[6..])
    ensures Step(s).None? ==> Normalize(s).None?
  {
    ShowsNone(s);
    ShownExactly(s, n);
    if |s| >= 6 {
      LowIsShown(s[6..]);
    }
  }

  /** Normalising text that is already normalised leaves it as it is. */
  lemma {:induction false} NormalizeIsIdempotent(s: seq<byte>)
    requires Normalize(s).Some?
    ensures Normalize(Normalize(s).value) == Normalize(s)
  {
    if s != [] {
      var n := Normalize(s).value;
      if StartsWithHigh(s) {
        NormalizeIsIdempotent(s[12..]);
        PlainPrefix(EncodeUtf8(LeadingPair(s).value), Normalize(s[12..]).value);
      } else if IsUnicodeEscape(s) {
        CopiedEscape(s);
        NormalizeIsIdempotent(s[6..]);
        assert n[..6] == s[..6] && n[2..6] == s[2..6] && n[6..] == Normalize(s[6..]).value;
        CopiedEscape(n);
      } else if s[0] == BACKSLASH && |s| >= 2 {
        NormalizeIsIdempotent(s[2..]);
        assert n[..2] == s[..2] && n[2..] == Normalize(s[2..]).value;
      } else {
        NormalizeIsIdempotent(s[1..]);
        assert n[..1] == s[..1] && n[1..] == Normalize(s[1..]).value;
        if s[0] == BACKSLASH {
          assert |s| == 1 && s[1..] == [];
        }
      }
    }
  }

  // ----- the reference reader

  /** A byte of JSON text outside strings, a string delimiter, or a byte of string content. */
  datatype Token = Structure(b: byte) | Delimiter | Text(b: byte)

  function TextTokens(bytes: seq<byte>): (tokens: seq<Token>)
    ensures |tokens| == |bytes|
  {
    seq(|bytes|, i requires 0 <= i < |bytes| => Text(bytes[i]))
  }

  /** The two-character escapes. */
  function SimpleEscape(b: byte): (r: Option<byte>) {
    if b == QUOTE || b == BACKSLASH || b == 0x2F then Some(b)
    else if b == 0x62 then Some(0x08)
    else if b == 0x66 then Some(0x0C)
    else if b == 0x6E then Some(0x0A)
    else if b == 0x72 then Some(0x0D)
    else if b == 0x74 then Some(0x09)
    else None
  }

  /** The escapes of section 7 of RFC 8259: the character itself, or the control character its letter stands for. */
  lemma SimpleEscapes(k: nat)
    requires k < 8
    ensures var letters, codes := "\"\\/bfnrt", [0x22, 0x5C, 0x2F, 0x08, 0x0C, 0x0A, 0x0D, 0x09];
            SimpleEscape(letters[k] as int % 0x100) == Some(codes[k])
  {
  }

  /** The content that the escape at the head of `s` stands for, and its length in `s`. */
  function Unescape(s: seq<byte>, joins: bool): (r: Option<(seq<byte>, nat)>)
    requires |s| > 0 && s[0] == BACKSLASH
    ensures r.Some? ==> 2 <= r.value.1 <= |s|
  {
    if IsUnicodeEscape(s) then
      if joins && LeadingPair(s).Some? then Some((EncodeUtf8(LeadingPair(s).value), 12))
      else if EscapedUnit(s).Some? && IsScalar(EscapedUnit(s).value)
      then Some((EncodeUtf8(EscapedUnit(s).value), 6))
      else None
    else if |s| >= 2 && SimpleEscape(s[1]).Some? then Some(([SimpleEscape(s[1]).value], 2))
    else None
  }

  /**
    JSON text as tokens; none when it is not JSON text at this level: a backslash or
    a byte beyond ASCII outside strings, a bad escape, an unfinished string, or a byte
    that `raw` does not admit unescaped inside one. `joins` selects the full reader,
    its negation the one that knows single escapes only.
   */
  function Lex(s: seq<byte>, inside: bool, joins: bool, raw: byte -> bool): (r: Option<seq<Token>>)
    decreases |s|
  {
    if s == [] then if inside then None else Some([])
    else if s[0] == QUOTE then Prepend([Delimiter], Lex(s[1..], !inside, joins, raw))
    else if !inside then
      if s[0] == BACKSLASH || s[0] >= 0x80 then None
      else Prepend([Structure(s[0])], Lex(s[1..], false, joins, raw))
    else if s[0] != BACKSLASH then
      if raw(s[0]) then Prepend([Text(s[0])], Lex(s[1..], true, joins, raw)) else None
    else
      var content := Unescape(s, joins);
      if content.None? then None
      else Prepend(TextTokens(content.value.0), Lex(s[content.value.1..], true, joins, raw))
  }

  /** Bytes beyond ASCII are string content as they stand, and nothing else. */
  lemma {:induction false} LexRaw(bytes: seq<byte>, tail: seq<byte>, raw: byte -> bool)
    requires forall b: byte | b >= 0x80 :: raw(b)
    requires forall i | 0 <= i < |bytes| :: bytes[i] >= 0x80
    ensures Lex(bytes + tail, true, false, raw) == Prepend(TextTokens(bytes), Lex(tail, true, false, raw))
    ensures bytes != [] ==> Lex(bytes + tail, false, false, raw).None?
  {
    var rest := Lex(tail, true, false, raw);
    if bytes == [] {
      assert bytes + tail == tail;
      if rest.Some? {
        assert TextTokens(bytes) + rest.value == rest.value;
      }
    } else {
      LexRaw(bytes[1..], tail, raw);
      assert (bytes + tail)[1..] == bytes[1..] + tail;
      assert [Text(bytes[0])] + TextTokens(bytes[1..]) == TextTokens(bytes);
      PrependTwice([Text(bytes[0])], TextTokens(bytes[1..]), rest);
    }
  }

  /**
    The main result: the single-escape reader behind the normaliser accepts exactly the
    texts the full reader accepts, and reads the same content from them.
   */
  lemma {:induction false} NormalizeThenSingleIsFull(s: seq<byte>, inside: bool, raw: byte -> bool)
    requires forall b: byte | b >= 0x80 :: raw(b)
    ensures Lex(s, inside, true, raw) ==
            if Normalize(s).None? then None else Lex(Normalize(s).value, inside, false, raw)
    decreases |s|
  {
    if s == [] {
    } else if s[0] == BACKSLASH {
      if inside {
        EscapeStep(s, raw);
      } else {
        BackslashOutside(s, raw);
      }
    } else {
      NormalizeThenSingleIsFull(s[1..], if s[0] == QUOTE then !inside else inside, raw);
      assert s[..1] == [s[0]];
      if Normalize(s).Some? {
        assert Normalize(s).value[1..] == Normalize(s[1..]).value;
      }
    }
  }

  lemma {:induction false} BackslashOutside(s: seq<byte>, raw: byte -> bool)
    requires forall b: byte | b >= 0x80 :: raw(b)
    requires |s| > 0 && s[0] == BACKSLASH
    ensures Normalize(s).Some? ==> Lex(Normalize(s).value, false, false, raw).None?
  {
    if LeadingPair(s).Some? && Normalize(s[12..]).Some? {
      LexRaw(EncodeUtf8(LeadingPair(s).value), Normalize(s[12..]).value, raw);
    }
  }

  lemma {:induction false} EscapeStep(s: seq<byte>, raw: byte -> bool)
    requires forall b: byte | b >= 0x80 :: raw(b)
    requires |s| > 0 && s[0] == BACKSLASH
    ensures Lex(s, true, true, raw) ==
            if Normalize(s).None? then None else Lex(Normalize(s).value, true, false, raw)
    decreases |s|, 0
  {
    if LeadingPair(s).Some? {
      NormalizeThenSingleIsFull(s[12..], true, raw);
      if Normalize(s).Some? {
        LexRaw(EncodeUtf8(LeadingPair(s).value), Normalize(s[12..]).value, raw);
      }
    } else if EscapedUnit(s).Some? && !StartsWithHigh(s) {
      NormalizeThenSingleIsFull(s[6..], true, raw);
      CopiedEscape(s);
      if Normalize(s).Some? {
        var n := Normalize(s).value;
        assert n[..6] == s[..6] && n[2..6] == s[2..6] && n[6..] == Normalize(s[6..]).value;
      }
    } else if !IsUnicodeEscape(s) && |s| >= 2 {
      NormalizeThenSingleIsFull(s[2..], true, raw);
      if Normalize(s).Some? {
        var n := Normalize(s).value;
        assert n[..2] == s[..2] && n[2..] == Normalize(s[2..]).value;
      }
    }
  }

  /** The escaped backslash before a `u` is literal text: no pair is joined across it. */
  lemma {:induction false} LiteralBackslash(s: seq<byte>)
    requires |s| >= 2 && s[0] == BACKSLASH && s[1] == BACKSLASH
    ensures Normalize(s) == Prepend([BACKSLASH, BACKSLASH], Normalize(s[2..]))
    ensures Pairs(s) == Pairs(s[2..])
  {
    assert s[..2] == [BACKSLASH, BACKSLASH];
  }
}
