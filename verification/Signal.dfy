/**
  What a Morse light shows, as pulses in time, and a receiver that reads it back.

  A dot lasts one unit and a dash three; the gaps inside a character, between
  characters and between words last one, three and seven (Recommendation ITU-R
  M.1677-1, Annex 1, Part I, section 2).
 */
module Signal {
  import opened Options
  import opened Morse

  /** A lit interval of `len` units after a dark one of `gap` units. */
  datatype Pulse = Pulse(gap: nat, len: nat)

  function CodePulses(code: Marks, gap: nat): (ps: seq<Pulse>)
    ensures code != End ==> ps != [] && ps[0].gap == gap
  {
    if code == End then [] else [Pulse(gap, Length(code))] + CodePulses(code.next, 1)
  }

  /** A word as the codes of its letters; a phrase as its words. */
  type Spelling = seq<Marks>

  predicate IsSpelling(word: Spelling) {
    word != [] && forall i | 0 <= i < |word| :: word[i] != End
  }

  predicate AreSpellings(words: seq<Spelling>) {
    forall i | 0 <= i < |words| :: IsSpelling(words[i])
  }

  function LetterPulses(word: Spelling, gap: nat): (ps: seq<Pulse>) {
    if word == [] then [] else CodePulses(word[0], gap) + LetterPulses(word[1..], 3)
  }

  /** The pulses of a phrase, given as its words. */
  function PhrasePulses(words: seq<Spelling>, gap: nat): (ps: seq<Pulse>) {
    if words == [] then [] else LetterPulses(words[0], gap) + PhrasePulses(words[1..], 7)
  }

  function Duration(ps: seq<Pulse>): (units: nat) {
    if ps == [] then 0 else ps[0].gap + ps[0].len + Duration(ps[1..])
  }

  lemma {:induction false} DurationConcat(a: seq<Pulse>, b: seq<Pulse>)
    ensures Duration(a + b) == Duration(a) + Duration(b)
  {
    if a == [] {
      assert a + b == b;
    } else {
      assert (a + b)[1..] == a[1..] + b;
      DurationConcat(a[1..], b);
    }
  }

  /** The start and end of every lit interval, counted from `t`. */
  function Intervals(ps: seq<Pulse>, t: nat): (marks: seq<(nat, nat)>)
    ensures |marks| == |ps|
  {
    if ps == [] then []
    else
      var start := t + ps[0].gap;
      [(start, start + ps[0].len)] + Intervals(ps[1..], start + ps[0].len)
  }

  function FirstPulse(ps: seq<Pulse>): nat
    requires ps != []
  {
    ps[0].gap + ps[0].len
  }

  /** Marks are in order, disjoint and not empty, from `t` on and up to the end of the message. */
  lemma {:induction false} IntervalsInOrder(ps: seq<Pulse>, t: nat, i: nat, j: nat)
    requires Lit(ps)
    requires i < |ps| && j < |ps|
    ensures var marks := Intervals(ps, t);
            && t <= marks[i].0 < marks[i].1 <= t + Duration(ps)
            && (i < j ==> marks[i].1 <= marks[j].0)
            && (i == |ps| - 1 ==> marks[i].1 == t + Duration(ps))
  {
    var after := t + FirstPulse(ps);
    if i > 0 {
      IntervalsInOrder(ps[1..], after, i - 1, if j > 0 then j - 1 else 0);
    } else if j > 0 {
      IntervalsInOrder(ps[1..], after, j - 1, j - 1);
    }
  }

  ghost predicate Lit(ps: seq<Pulse>) {
    forall i | 0 <= i < |ps| :: ps[i].len > 0
  }

  // ----- the light over time

  function Constant(on: bool, n: nat): (bits: seq<bool>)
    ensures |bits| == n
  {
    seq(n, _ => on)
  }

  /** Whether the light is on in each unit. */
  function Track(ps: seq<Pulse>): (bits: seq<bool>)
    ensures |bits| == Duration(ps)
  {
    if ps == [] then []
    else Constant(false, ps[0].gap) + Constant(true, ps[0].len) + Track(ps[1..])
  }

  predicate Covered(marks: seq<(nat, nat)>, t: nat) {
    exists i | 0 <= i < |marks| :: marks[i].0 <= t < marks[i].1
  }

  /** A unit is lit exactly when one of the marks covers it. */
  lemma {:induction false} TrackIsCover(ps: seq<Pulse>, start: nat, t: nat)
    requires Lit(ps)
    requires start <= t < start + Duration(ps)
    ensures Track(ps)[t - start] == Covered(Intervals(ps, start), t)
  {
    var after := start + FirstPulse(ps);
    CoverFirstOrRest(ps, start, t);
    if t < after {
      NotYetCovered(ps[1..], after, t);
    } else {
      TrackIsCover(ps[1..], after, t);
      assert Track(ps)[t - start] == Track(ps[1..])[t - after];
    }
  }

  lemma {:induction false} NotYetCovered(ps: seq<Pulse>, start: nat, t: nat)
    requires Lit(ps) && t < start
    ensures !Covered(Intervals(ps, start), t)
  {
    forall i | 0 <= i < |ps|
      ensures start <= Intervals(ps, start)[i].0
    {
      IntervalsInOrder(ps, start, i, i);
    }
  }

  lemma CoverFirstOrRest(ps: seq<Pulse>, start: nat, t: nat)
    requires ps != []
    ensures var after := start + FirstPulse(ps);
            Covered(Intervals(ps, start), t) <==>
            start + ps[0].gap <= t < after || Covered(Intervals(ps[1..], after), t)
  {
    var after := start + FirstPulse(ps);
    var marks, rest := Intervals(ps, start), Intervals(ps[1..], after);
    assert marks == [(start + ps[0].gap, after)] + rest;
    if Covered(rest, t) {
      var i :| 0 <= i < |rest| && rest[i].0 <= t < rest[i].1;
      assert marks[i + 1] == rest[i];
    }
    if Covered(marks, t) {
      var i :| 0 <= i < |marks| && marks[i].0 <= t < marks[i].1;
      assert i > 0 ==> rest[i - 1] == marks[i];
    }
    assert marks[0] == (start + ps[0].gap, after);
  }

  // ----- the receiver: units to pulses

  /** The pulses seen in a track, given the dark and lit units just before it. */
  function Scan(bits: seq<bool>, off: nat, on: nat): (ps: seq<Pulse>) {
    if bits == [] then if on > 0 then [Pulse(off, on)] else []
    else if bits[0] then Scan(bits[1..], off, on + 1)
    else if on > 0 then [Pulse(off, on)] + Scan(bits[1..], 1, 0)
    else Scan(bits[1..], off + 1, 0)
  }

  lemma {:induction false} ScanConstant(on: bool, n: nat, bits: seq<bool>, dark: nat, lit: nat)
    requires on || lit == 0
    ensures Scan(Constant(on, n) + bits, dark, lit) ==
            if on then Scan(bits, dark, lit + n) else Scan(bits, dark + n, 0)
  {
    if n == 0 {
      assert Constant(on, n) + bits == bits;
    } else {
      assert (Constant(on, n) + bits)[1..] == Constant(on, n - 1) + bits;
      ScanConstant(on, n - 1, bits, if on then dark else dark + 1, if on then lit + 1 else 0);
    }
  }

  /** Only the first pulse may follow on at once. */
  ghost predicate Separate(ps: seq<Pulse>) {
    Lit(ps) && forall i | 1 <= i < |ps| :: ps[i].gap > 0
  }

  /** A pulse followed by the dark of another pulse, or by the dark after the message. */
  lemma {:induction false} ScanOne(p: Pulse, after: seq<bool>, off: nat)
    requires p.len > 0 && after != [] && !after[0]
    ensures Scan(Constant(false, p.gap) + Constant(true, p.len) + after, off, 0) ==
            [Pulse(off + p.gap, p.len)] + Scan(after[1..], 1, 0)
  {
    var lit := Constant(true, p.len) + after;
    assert Constant(false, p.gap) + Constant(true, p.len) + after == Constant(false, p.gap) + lit;
    ScanConstant(false, p.gap, lit, off, 0);
    ScanConstant(true, p.len, after, off + p.gap, 0);
  }

  lemma ScanDark(tail: nat)
    ensures Scan(Constant(false, tail), 1, 0) == []
  {
    ScanConstant(false, tail, [], 1, 0);
    assert Constant(false, tail) + [] == Constant(false, tail);
  }

  /** Without its first dark unit a track is that of a shorter gap. */
  lemma {:induction false} TrackOneLater(ps: seq<Pulse>)
    requires ps != [] && ps[0].gap > 0
    ensures var shorter := [Pulse(ps[0].gap - 1, ps[0].len)] + ps[1..];
            Track(ps) != [] && !Track(ps)[0] && Track(ps)[1..] == Track(shorter) && shorter[1..] == ps[1..]
  {
    assert ([Pulse(ps[0].gap - 1, ps[0].len)] + ps[1..])[1..] == ps[1..];
    assert Constant(false, ps[0].gap)[1..] == Constant(false, ps[0].gap - 1);
  }

  lemma {:induction false} ScanFirst(ps: seq<Pulse>, off: nat, tail: nat)
    requires Separate(ps) && ps != [] && tail > 0
    ensures var after := Track(ps[1..]) + Constant(false, tail);
            && after != []
            && Scan(Track(ps) + Constant(false, tail), off, 0) ==
               [Pulse(off + ps[0].gap, ps[0].len)] + Scan(after[1..], 1, 0)
  {
    var dark, rest := Constant(false, tail), ps[1..];
    var after := Track(rest) + dark;
    assert Track(ps) + dark == Constant(false, ps[0].gap) + Constant(true, ps[0].len) + after;
    if rest != [] {
      TrackOneLater(rest);
    }
    ScanOne(ps[0], after, off);
  }

  /** Scanning a track that ends in the dark gives back its pulses. */
  lemma {:induction false} ScanTrack(ps: seq<Pulse>, off: nat, tail: nat)
    requires Separate(ps) && ps != [] && tail > 0
    ensures Scan(Track(ps) + Constant(false, tail), off, 0) == [Pulse(off + ps[0].gap, ps[0].len)] + ps[1..]
    decreases |ps|
  {
    var dark, rest := Constant(false, tail), ps[1..];
    ScanFirst(ps, off, tail);
    if rest == [] {
      assert (Track(rest) + dark)[1..] == Constant(false, tail - 1);
      ScanDark(tail - 1);
    } else {
      var shorter := [Pulse(rest[0].gap - 1, rest[0].len)] + rest[1..];
      TrackOneLater(rest);
      assert (Track(rest) + dark)[1..] == Track(shorter) + dark;
      ScanTrack(shorter, 1, tail);
      assert [rest[0]] + rest[1..] == rest;
    }
  }

  // ----- the receiver: pulses to words

  /** What has been read: whole words, the letters of the current word, the code of the current letter. */
  datatype Reading = Reading(words: seq<Spelling>, letters: Spelling, code: Marks)

  const NOTHING := Reading([], [], End)

  function Append(code: Marks, dash: bool): (longer: Marks) {
    match code
    case End => if dash then Dash(End) else Dot(End)
    case Dot(next) => Dot(Append(next, dash))
    case Dash(next) => Dash(Append(next, dash))
  }

  /** Finishes the current letter. */
  function CloseLetter(r: Reading): (closed: Reading) {
    Reading(r.words, r.letters + [r.code], End)
  }

  /** Finishes the current word as well. */
  function CloseWord(r: Reading): (closed: Reading) {
    Reading(r.words + [r.letters + [r.code]], [], End)
  }

  /** The reading that the dark before a pulse leaves: a new letter, a new word, or neither. */
  function AfterGap(r: Reading, gap: nat): (next: Option<Reading>) {
    if r == NOTHING || gap == 1 then Some(r)
    else if gap == 3 then Some(CloseLetter(r))
    else if gap == 7 then Some(CloseWord(r))
    else None
  }

  function ReadPulse(r: Reading, p: Pulse): (next: Option<Reading>) {
    var separated := AfterGap(r, p.gap);
    if separated.None? || p.len !in {1, 3} then None
    else Some(separated.value.(code := Append(separated.value.code, p.len == 3)))
  }

  function Read(ps: seq<Pulse>, r: Reading): (next: Option<Reading>) {
    if ps == [] then Some(r)
    else
      var next := ReadPulse(r, ps[0]);
      if next.None? then None else Read(ps[1..], next.value)
  }

  /** The words that a track of lit and dark units spells, if it spells any. */
  function Receive(bits: seq<bool>): (words: Option<seq<Spelling>>) {
    var r := Read(Scan(bits, 0, 0), NOTHING);
    if r.None? then None else Some(CloseWord(r.value).words)
  }

  lemma {:induction false} ReadConcat(a: seq<Pulse>, b: seq<Pulse>, r: Reading)
    ensures Read(a + b, r) == if Read(a, r).None? then None else Read(b, Read(a, r).value)
  {
    if a == [] {
      assert a + b == b;
    } else {
      assert (a + b)[1..] == a[1..] + b;
      var next := ReadPulse(r, a[0]);
      if next.Some? {
        ReadConcat(a[1..], b, next.value);
      }
    }
  }

  function Join(a: Marks, b: Marks): (joined: Marks) {
    match a
    case End => b
    case Dot(next) => Dot(Join(next, b))
    case Dash(next) => Dash(Join(next, b))
  }

  lemma {:induction false} JoinAppend(a: Marks, b: Marks)
    requires b != End
    ensures Join(Append(a, b.Dash?), b.next) == Join(a, b)
  {
    if a != End {
      JoinAppend(a.next, b);
    }
  }

  lemma {:induction false} JoinEnd(a: Marks)
    ensures Join(a, End) == a
  {
    if a != End {
      JoinEnd(a.next);
    }
  }

  /** The further marks of a letter are appended to its code. */
  lemma {:induction false} ReadMarks(code: Marks, r: Reading)
    requires r.code != End
    ensures Read(CodePulses(code, 1), r) == Some(r.(code := Join(r.code, code)))
    decreases code
  {
    if code == End {
      JoinEnd(r.code);
    } else {
      var ps := CodePulses(code, 1);
      JoinAppend(r.code, code);
      assert Append(r.code, code.Dash?) != End;
      assert ps[1..] == CodePulses(code.next, 1);
      ReadMarks(code.next, r.(code := Append(r.code, code.Dash?)));
    }
  }

  lemma {:induction false} ReadCode(code: Marks, gap: nat, r: Reading)
    requires code != End
    requires AfterGap(r, gap).Some? && AfterGap(r, gap).value.code == End
    ensures Read(CodePulses(code, gap), r) == Some(AfterGap(r, gap).value.(code := code))
  {
    assert CodePulses(code, gap)[1..] == CodePulses(code.next, 1);
    var first := if code.Dash? then Dash(End) else Dot(End);
    ReadMarks(code.next, AfterGap(r, gap).value.(code := first));
  }

  /** The letters of a word but the last are read; the last is still open. */
  lemma {:induction false} ReadWord(word: Spelling, gap: nat, r: Reading)
    requires IsSpelling(word)
    requires AfterGap(r, gap).Some? && AfterGap(r, gap).value.code == End
    ensures var start, last := AfterGap(r, gap).value, |word| - 1;
            Read(LetterPulses(word, gap), r) == Some(Reading(start.words, start.letters + word[..last], word[last]))
    decreases |word|
  {
    var start, rest := AfterGap(r, gap).value, word[1..];
    ReadCode(word[0], gap, r);
    ReadConcat(CodePulses(word[0], gap), LetterPulses(rest, 3), r);
    if rest != [] {
      ReadWord(rest, 3, start.(code := word[0]));
      assert start.letters + [word[0]] + rest[..|rest| - 1] == start.letters + word[..|word| - 1];
    } else {
      assert start.letters + word[..0] == start.letters;
    }
  }

  /** The words read before a phrase, or before its next word. */
  function ReadSoFar(r: Reading, gap: nat): (words: seq<Spelling>) {
    if gap == 0 then [] else CloseWord(r).words
  }

  lemma {:induction false} ReadOneWord(word: Spelling, gap: nat, r: Reading)
    requires IsSpelling(word)
    requires if gap == 0 then r == NOTHING else gap == 7 && r.code != End
    ensures var end := Read(LetterPulses(word, gap), r);
            end.Some? && end.value.code != End && CloseWord(end.value).words == ReadSoFar(r, gap) + [word]
  {
    ReadWord(word, gap, r);
    assert [] + word[..|word| - 1] + [word[|word| - 1]] == word;
  }

  lemma {:induction false} ReadPhrase(words: seq<Spelling>, gap: nat, r: Reading)
    requires AreSpellings(words) && words != []
    requires if gap == 0 then r == NOTHING else gap == 7 && r.code != End
    ensures var end := Read(PhrasePulses(words, gap), r);
            end.Some? && CloseWord(end.value).words == ReadSoFar(r, gap) + words
    decreases |words|
  {
    var word, rest := words[0], words[1..];
    ReadOneWord(word, gap, r);
    var end := Read(LetterPulses(word, gap), r).value;
    ReadConcat(LetterPulses(word, gap), PhrasePulses(rest, 7), r);
    if rest != [] {
      ReadPhrase(rest, 7, end);
    }
    assert ReadSoFar(r, gap) + [word] + rest == ReadSoFar(r, gap) + words;
  }

  ghost predicate AllGaps(ps: seq<Pulse>) {
    Lit(ps) && forall i | 0 <= i < |ps| :: ps[i].gap > 0
  }

  lemma {:induction false} CodePulsesSeparate(code: Marks, gap: nat)
    ensures Separate(CodePulses(code, gap))
    ensures gap > 0 ==> AllGaps(CodePulses(code, gap))
  {
    if code != End {
      CodePulsesSeparate(code.next, 1);
    }
  }

  lemma {:induction false} LetterPulsesSeparate(word: Spelling, gap: nat)
    requires forall i | 0 <= i < |word| :: word[i] != End
    ensures Separate(LetterPulses(word, gap))
    ensures gap > 0 ==> AllGaps(LetterPulses(word, gap))
    ensures word != [] ==> LetterPulses(word, gap) != [] && LetterPulses(word, gap)[0].gap == gap
  {
    if word != [] {
      CodePulsesSeparate(word[0], gap);
      LetterPulsesSeparate(word[1..], 3);
    }
  }

  lemma {:induction false} PhrasePulsesSeparate(words: seq<Spelling>, gap: nat)
    requires AreSpellings(words)
    ensures Separate(PhrasePulses(words, gap))
    ensures gap > 0 ==> AllGaps(PhrasePulses(words, gap))
    ensures words != [] ==> PhrasePulses(words, gap) != [] && PhrasePulses(words, gap)[0].gap == gap
  {
    if words != [] {
      LetterPulsesSeparate(words[0], gap);
      PhrasePulsesSeparate(words[1..], 7);
    }
  }

  /** The receiver recovers the words of a phrase from its track and the dark after it. */
  lemma {:induction false} ReceivePhrase(words: seq<Spelling>, tail: nat)
    requires AreSpellings(words) && words != [] && tail > 0
    ensures Receive(Track(PhrasePulses(words, 0)) + Constant(false, tail)) == Some(words)
  {
    var ps := PhrasePulses(words, 0);
    PhrasePulsesSeparate(words, 0);
    ScanTrack(ps, 0, tail);
    assert [ps[0]] + ps[1..] == ps;
    ReadPhrase(words, 0, NOTHING);
    assert [] + words == words;
  }
}
