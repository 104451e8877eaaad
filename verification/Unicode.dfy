/**
  Bytes, UTF-8 and surrogate pairs.

  UTF-8 follows section 3 of RFC 3629 and surrogate pairs follow section 2.2 of
  RFC 2781. Shifts and masks are written as division and remainder.
 */
module Unicode {
  import opened Options

  type byte = b: int | 0 <= b < 0x100

  predicate IsHighSurrogate(unit: int) { 0xD800 <= unit <= 0xDBFF }

  predicate IsLowSurrogate(unit: int) { 0xDC00 <= unit <= 0xDFFF }

  predicate IsScalar(c: int) {
    0 <= c < 0x11_0000 && !IsHighSurrogate(c) && !IsLowSurrogate(c)
  }

  /** The supplementary character that a high and a low surrogate stand for. */
  function JoinSurrogates(high: int, low: int): (c: int)
    requires IsHighSurrogate(high) && IsLowSurrogate(low)
    ensures 0x1_0000 <= c < 0x11_0000
  {
    0x1_0000 + (high - 0xD800) * 0x400 + low - 0xDC00
  }

  /** The surrogate pair of a supplementary character. */
  function SplitSurrogates(c: int): (pair: (int, int))
    requires 0x1_0000 <= c < 0x11_0000
    ensures IsHighSurrogate(pair.0) && IsLowSurrogate(pair.1)
  {
    (0xD800 + (c - 0x1_0000) / 0x400, 0xDC00 + (c - 0x1_0000) % 0x400)
  }

  /** Joining and splitting are inverse to each other, in both directions. */
  lemma SurrogatesRoundTrip(c: int, high: int, low: int)
    requires 0x1_0000 <= c < 0x11_0000
    requires IsHighSurrogate(high) && IsLowSurrogate(low)
    ensures var pair := SplitSurrogates(c); JoinSurrogates(pair.0, pair.1) == c
    ensures SplitSurrogates(JoinSurrogates(high, low)) == (high, low)
  {
    var offset := (high - 0xD800) * 0x400 + (low - 0xDC00);
    assert offset / 0x400 == high - 0xD800 && offset % 0x400 == low - 0xDC00;
  }

  function EncodeUtf8(c: int): (bytes: seq<byte>)
    requires IsScalar(c)
    ensures c >= 0x80 ==> forall i | 0 <= i < |bytes| :: bytes[i] >= 0x80
    ensures c >= 0x1_0000 ==> |bytes| == 4
  {
    if c < 0x80 then [c]
    else if c < 0x800 then [0xC0 + c / 0x40, 0x80 + c % 0x40]
    else if c < 0x1_0000 then [0xE0 + c / 0x1000, 0x80 + c / 0x40 % 0x40, 0x80 + c % 0x40]
    else [0xF0 + c / 0x4_0000, 0x80 + c / 0x1000 % 0x40, 0x80 + c / 0x40 % 0x40, 0x80 + c % 0x40]
  }

  predicate IsContinuation(b: byte) { 0x80 <= b < 0xC0 }

  /** The number made of the six payload bits of each of the first `count` bytes after the lead. */
  function Payload(lead: int, s: seq<byte>, count: nat): (c: int)
    requires count < |s|
  {
    if count == 0 then lead else Payload(lead, s, count - 1) * 0x40 + (s[count] as int - 0x80)
  }

  /** The first character of a byte string and its length in bytes; none for malformed input. */
  function DecodeUtf8(s: seq<byte>): (r: Option<(int, nat)>)
  {
    if |s| == 0 then None
    else
      var lead: int := s[0];
      if lead < 0x80 then Some((lead, 1))
      else if 0xC2 <= lead < 0xE0 && |s| >= 2 && IsContinuation(s[1]) then
        Some((Payload(lead - 0xC0, s, 1), 2))
      else if 0xE0 <= lead < 0xF0 && |s| >= 3 && IsContinuation(s[1]) && IsContinuation(s[2]) then
        var c := Payload(lead - 0xE0, s, 2);
        if c >= 0x800 && IsScalar(c) then Some((c, 3)) else None
      else if 0xF0 <= lead < 0xF5 && |s| >= 4
              && IsContinuation(s[1]) && IsContinuation(s[2]) && IsContinuation(s[3]) then
        var c := Payload(lead - 0xF0, s, 3);
        if 0x1_0000 <= c < 0x11_0000 then Some((c, 4)) else None
      else None
  }

  /** Whatever follows an encoded character, decoding reads that character back and stops there. */
  lemma Utf8RoundTrip(c: int, rest: seq<byte>)
    requires IsScalar(c)
    ensures DecodeUtf8(EncodeUtf8(c) + rest) == Some((c, |EncodeUtf8(c)|))
  {
    var s := EncodeUtf8(c) + rest;
    assert forall i | 0 <= i < |EncodeUtf8(c)| :: s[i] == EncodeUtf8(c)[i];
    assert c / 0x1000 == c / 0x40 / 0x40 && c / 0x4_0000 == c / 0x1000 / 0x40;
    if c >= 0x1_0000 {
      assert Payload(c / 0x4_0000, s, 1) == c / 0x1000;
      assert Payload(c / 0x4_0000, s, 2) == c / 0x40;
      assert Payload(c / 0x4_0000, s, 3) == c;
    } else if c >= 0x800 {
      assert Payload(c / 0x1000, s, 1) == c / 0x40;
      assert Payload(c / 0x1000, s, 2) == c;
    } else if c >= 0x80 {
      assert Payload(c / 0x40, s, 1) == c;
    }
  }
}
