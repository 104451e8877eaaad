/** Text helpers of Rust's standard library that several source files call. */
module Text {

  /** The characters with the Unicode White_Space property. */
  predicate IsWhitespace(c: char) {
    var n := c as int;
    9 <= n <= 13 || n in {0x20, 0x85, 0xA0, 0x1680, 0x2028, 0x2029, 0x202F, 0x205F, 0x3000} || 0x2000 <= n <= 0x200A
  }

  /** Text that trimming leaves nothing of. */
  predicate IsBlank(s: string) {
    forall i | 0 <= i < |s| :: IsWhitespace(s[i])
  }

  /** The length of the longest prefix without whitespace. */
  function WordLength(s: string): (n: nat)
    ensures n <= |s|
    ensures forall i | 0 <= i < n :: !IsWhitespace(s[i])
    ensures n < |s| ==> IsWhitespace(s[n])
  {
    if s == "" || IsWhitespace(s[0]) then 0 else 1 + WordLength(s[1..])
  }

  /** The maximal runs of characters that are not whitespace. */
  function Words(s: string): (words: seq<string>)
    ensures forall w | w in words :: w != "" && forall i | 0 <= i < |w| :: !IsWhitespace(w[i]) && w[i] in s
    decreases |s|
  {
    if s == "" then []
    else if IsWhitespace(s[0]) then Words(s[1..])
    else
      var n := WordLength(s);
      [s[..n]] + Words(s[n..])
  }

  /** A word on its own. */
  predicate IsSolid(w: string) {
    w != "" && forall i | 0 <= i < |w| :: !IsWhitespace(w[i])
  }

  /** Words with whitespace before, between and after them. */
  function Spaced(words: seq<string>, gaps: seq<string>): (s: string)
    requires |gaps| == |words| + 1
  {
    if words == [] then gaps[0] else gaps[0] + words[0] + Spaced(words[1..], gaps[1..])
  }

  lemma {:induction false} SkipGap(gap: string, rest: string)
    requires IsBlank(gap)
    ensures Words(gap + rest) == Words(rest)
  {
    if gap == "" {
      assert gap + rest == rest;
    } else {
      assert (gap + rest)[1..] == gap[1..] + rest;
      SkipGap(gap[1..], rest);
    }
  }

  lemma {:induction false} TakeWord(w: string, rest: string)
    requires IsSolid(w) && (rest == "" || IsWhitespace(rest[0]))
    ensures Words(w + rest) == [w] + Words(rest)
  {
    var n := WordLength(w + rest);
    assert forall i | 0 <= i < |w| :: (w + rest)[i] == w[i];
    assert rest != "" ==> (w + rest)[|w|] == rest[0];
    assert (w + rest)[..n] == w && (w + rest)[n..] == rest;
  }

  /** Splitting gives back the words, however much whitespace stands around and between them. */
  lemma {:induction false} WordsOfSpaced(words: seq<string>, gaps: seq<string>)
    requires |gaps| == |words| + 1
    requires forall i | 0 <= i < |words| :: IsSolid(words[i])
    requires forall i | 0 <= i < |gaps| :: IsBlank(gaps[i]) && (0 < i < |words| ==> gaps[i] != "")
    ensures Words(Spaced(words, gaps)) == words
  {
    if words == [] {
      assert gaps[0] + "" == gaps[0];
      SkipGap(gaps[0], "");
    } else {
      var rest := Spaced(words[1..], gaps[1..]);
      WordsOfSpaced(words[1..], gaps[1..]);
      assert gaps[0] + words[0] + rest == gaps[0] + (words[0] + rest);
      SkipGap(gaps[0], words[0] + rest);
      TakeWord(words[0], rest);
      assert words[1..] == Words(rest);
    }
  }

  function Upper(c: char): char {
    if 'a' <= c <= 'z' then (c as int - 32) as char else c
  }

  function UpperCase(s: string): (u: string)
    ensures |u| == |s| && forall i | 0 <= i < |s| :: u[i] == Upper(s[i])
  {
    seq(|s|, i requires 0 <= i < |s| => Upper(s[i]))
  }

  predicate IsDigit(c: char) { '0' <= c <= '9' }
}
