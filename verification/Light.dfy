/** The status light: a phrase compiled into timed marks, and three phrases played in rotation. */
module Light {
  import opened Options
  import opened Division
  import opened Text
  import opened Morse
  import opened Signal

  const UNIT_MS := 200
  const SIXTEEN_BITS := 0x1_0000

  datatype Color = Color(red: nat, green: nat, blue: nat)
  const CYAN := Color(0, 5, 8)
  const GREEN := Color(0, 8, 0)
  const DARK := Color(0, 0, 0)

  /** The spelling of a word all of whose characters have codes. */
  function Spell(word: string): (spelling: Spelling)
    requires forall i | 0 <= i < |word| :: Code(word[i]).Some?
    ensures |spelling| == |word|
    ensures forall i | 0 <= i < |word| :: spelling[i] == Code(word[i]).value && spelling[i] != End
  {
    if word == "" then []
    else
      CodeShape(word[0]);
      [Code(word[0]).value] + Spell(word[1..])
  }

  predicate IsWord(word: string) {
    word != "" && forall i | 0 <= i < |word| :: Code(word[i]).Some?
  }

  predicate AreWords(words: seq<string>) {
    forall i | 0 <= i < |words| :: IsWord(words[i])
  }

  function SpellWords(words: seq<string>): (spellings: seq<Spelling>)
    requires AreWords(words)
    ensures |spellings| == |words| && AreSpellings(spellings)
    ensures forall i | 0 <= i < |words| :: spellings[i] == Spell(words[i])
  {
    if words == [] then []
    else
      var first, rest := Spell(words[0]), SpellWords(words[1..]);
      assert IsSpelling(first);
      [first] + rest
  }

  /** A valid phrase has words, and every word can be spelt. */
  lemma {:induction false} PhraseWords(phrase: string)
    requires ValidPhrase(phrase)
    ensures Words(phrase) != [] && AreWords(Words(phrase))
  {
    var words := Words(phrase);
    var i :| 0 <= i < |phrase| && !IsWhitespace(phrase[i]);
    NotBlank(phrase, i);
    forall k | 0 <= k < |words|
      ensures IsWord(words[k])
    {
      assert words[k] in words;
    }
  }

  lemma {:induction false} NotBlank(s: string, i: nat)
    requires i < |s| && !IsWhitespace(s[i])
    ensures Words(s) != []
  {
    if IsWhitespace(s[0]) {
      NotBlank(s[1..], i - 1);
    }
  }

  /** The phrase that is played: the one given, if it is valid. */
  function Played(phrase: string): (played: string)
    ensures ValidPhrase(played)
  {
    if ValidPhrase(phrase) then phrase else
      DefaultIsValid();
      DEFAULT_PHRASE
  }

  /**
    A phrase is played as it is given exactly when it has at most eighty characters, each a
    space or one with a code, and not only spaces; the default is played in place of others.
   */
  lemma PlayedExactly(phrase: string)
    ensures var asGiven :=
              && |phrase| <= 80
              && (forall i | 0 <= i < |phrase| :: phrase[i] == ' ' || HasCode(phrase[i]))
              && exists i | 0 <= i < |phrase| :: phrase[i] != ' ';
            && Played(phrase) == (if asGiven then phrase else DEFAULT_PHRASE)
            && (Played(phrase) == phrase <==> asGiven)
  {
    ValidExactly(phrase);
    DefaultIsValid();
  }

  function Pulses(phrase: string): (ps: seq<Pulse>)
    requires ValidPhrase(phrase)
  {
    PhraseWords(phrase);
    PhrasePulses(SpellWords(Words(phrase)), 0)
  }

  // ----- the compiled pattern

  datatype MorsePattern = MorsePattern(marks: seq<(nat, nat)>, messageEnd: nat, cycle: nat)
  {
    /** The colour shown at a time since the start of playback. */
    function ColorAt(elapsedMs: nat): (color: Color)
      requires cycle > 0
    {
      var t := elapsedMs / UNIT_MS % cycle;
      if t < messageEnd then
        if Covered(marks, t) then CYAN else DARK
      else if messageEnd + 7 <= t < messageEnd + 7 + 18 && (t - messageEnd - 7) % 6 < 3 then GREEN
      else DARK
    }

    /** One whole cycle, looked at once in every unit. */
    function Observe(): (colors: seq<Color>)
      requires cycle > 0
      ensures |colors| == cycle
    {
      seq(cycle, t requires 0 <= t < cycle => ColorAt(t * UNIT_MS))
    }
  }

  /** The pattern that plays some pulses: their marks, the end of the message, room for the flashes. */
  function Compile(ps: seq<Pulse>): (p: MorsePattern)
    ensures p.messageEnd == Duration(ps) && p.cycle == p.messageEnd + 32
  {
    MorsePattern(Intervals(ps, 0), Duration(ps), Duration(ps) + 7 + 3 * 6 + 7)
  }

  function PatternOf(phrase: string): (p: MorsePattern)
    requires ValidPhrase(phrase)
    ensures p.cycle == p.messageEnd + 32
  {
    Compile(Pulses(phrase))
  }

  /** A time as the sixteen bits a mark stores it in. */
  function Narrow(t: nat): (bits: nat) { t % SIXTEEN_BITS }

  /** Marks with those of further pulses added, each stored in sixteen bits. */
  function Extend(marks: seq<(nat, nat)>, ps: seq<Pulse>, t: nat): (longer: seq<(nat, nat)>)
    decreases |ps|
  {
    if ps == [] then marks
    else
      var start := t + ps[0].gap;
      var end := start + ps[0].len;
      Extend(marks + [(Narrow(start), Narrow(end))], ps[1..], end)
  }

  lemma {:induction false} ExtendConcat(marks: seq<(nat, nat)>, a: seq<Pulse>, b: seq<Pulse>, t: nat)
    ensures Extend(marks, a + b, t) == Extend(Extend(marks, a, t), b, t + Duration(a))
    decreases |a|
  {
    if a == [] {
      assert a + b == b;
    } else {
      assert (a + b)[1..] == a[1..] + b;
      var start := t + a[0].gap;
      var end := start + a[0].len;
      ExtendConcat(marks + [(Narrow(start), Narrow(end))], a[1..], b, end);
    }
  }

  /** Nothing is lost in sixteen bits as long as the message ends within them. */
  lemma {:induction false} ExtendIsIntervals(marks: seq<(nat, nat)>, ps: seq<Pulse>, t: nat)
    requires t + Duration(ps) < SIXTEEN_BITS
    ensures Extend(marks, ps, t) == marks + Intervals(ps, t)
    decreases |ps|
  {
    if ps != [] {
      var start := t + ps[0].gap;
      var end := start + ps[0].len;
      ExtendIsIntervals(marks + [(start, end)], ps[1..], end);
      assert marks + [(start, end)] + Intervals(ps[1..], end) == marks + Intervals(ps, t);
    }
  }

  /** A gap before the first mark is the same as a later start. */
  lemma LaterStart(marks: seq<(nat, nat)>, ps: seq<Pulse>, t: nat)
    requires ps != []
    ensures var now := [Pulse(0, ps[0].len)] + ps[1..];
            && Extend(marks, ps, t) == Extend(marks, now, t + ps[0].gap)
            && Duration(ps) == ps[0].gap + Duration(now)
  {
    var now := [Pulse(0, ps[0].len)] + ps[1..];
    assert now[1..] == ps[1..];
  }

  lemma {:induction false} StartCode(code: Marks, gap: nat)
    requires code != End
    ensures CodePulses(code, gap) == [Pulse(gap, Length(code))] + CodePulses(code, 0)[1..]
  {
    assert CodePulses(code, gap)[1..] == CodePulses(code.next, 1) == CodePulses(code, 0)[1..];
  }

  lemma TailFirst(a: seq<Pulse>, b: seq<Pulse>)
    requires a != []
    ensures (a + b)[1..] == a[1..] + b
  {
  }

  lemma Regroup(p: Pulse, a: seq<Pulse>, b: seq<Pulse>)
    ensures [p] + a + b == [p] + (a + b)
  {
  }

  lemma {:induction false} StartWord(word: Spelling, gap: nat)
    requires IsSpelling(word)
    ensures LetterPulses(word, gap) == [Pulse(gap, Length(word[0]))] + LetterPulses(word, 0)[1..]
  {
    var first, code, rest := Pulse(gap, Length(word[0])), CodePulses(word[0], 0), LetterPulses(word[1..], 3);
    StartCode(word[0], gap);
    TailFirst(code, rest);
    Regroup(first, code[1..], rest);
  }

  lemma {:induction false} StartsNow(word: Spelling)
    requires IsSpelling(word)
    ensures LetterPulses(word, 0) == [Pulse(0, Length(word[0]))] + LetterPulses(word, 0)[1..]
  {
    StartWord(word, 0);
  }

  /** The innermost loop: the marks of one character. */
  method AddCode(marks: seq<(nat, nat)>, start: nat, code: Marks) returns (longer: seq<(nat, nat)>, t: nat)
    ensures longer == Extend(marks, CodePulses(code, 0), start)
    ensures t == start + Duration(CodePulses(code, 0))
  {
    longer, t := marks, start;
    var rest, first := code, true;
    while rest != End
      invariant Extend(longer, CodePulses(rest, if first then 0 else 1), t) ==
                Extend(marks, CodePulses(code, 0), start)
      invariant t + Duration(CodePulses(rest, if first then 0 else 1)) == start + Duration(CodePulses(code, 0))
      decreases rest
    {
      ghost var ps := CodePulses(rest, if first then 0 else 1);
      assert ps[1..] == CodePulses(rest.next, 1);
      if !first {
        t := t + 1;
      }
      first := false;
      var end := t + if rest.Dot? then 1 else 3;
      longer := longer + [(Narrow(t), Narrow(end))];
      t := end;
      rest := rest.next;
    }
  }

  lemma LetterStep(marks: seq<(nat, nat)>, t: nat, word: Spelling, i: nat)
    requires i < |word| && word[i] != End
    ensures var gap, rest := if i == 0 then 0 else 3, LetterPulses(word[i + 1..], 3);
            var code, end := CodePulses(word[i], 0), t + gap + Duration(CodePulses(word[i], 0));
            && Extend(marks, LetterPulses(word[i..], gap), t) == Extend(Extend(marks, code, t + gap), rest, end)
            && t + Duration(LetterPulses(word[i..], gap)) == end + Duration(rest)
  {
    var gap, rest := if i == 0 then 0 else 3, LetterPulses(word[i + 1..], 3);
    var code := CodePulses(word[i], gap);
    assert word[i..][1..] == word[i + 1..];
    StartCode(word[i], gap);
    StartCode(word[i], 0);
    LaterStart(marks, code, t);
    assert [Pulse(0, code[0].len)] + code[1..] == CodePulses(word[i], 0);
    ExtendConcat(marks, code, rest, t);
    DurationConcat(code, rest);
  }

  /** The middle loop: the characters of one word, each by its code. */
  method AddWord(marks: seq<(nat, nat)>, start: nat, word: Spelling) returns (longer: seq<(nat, nat)>, t: nat)
    requires IsSpelling(word)
    ensures longer == Extend(marks, LetterPulses(word, 0), start)
    ensures t == start + Duration(LetterPulses(word, 0))
  {
    longer, t := marks, start;
    assert word[0..] == word;
    for i := 0 to |word|
      invariant Extend(longer, LetterPulses(word[i..], if i == 0 then 0 else 3), t) ==
                Extend(marks, LetterPulses(word, 0), start)
      invariant t + Duration(LetterPulses(word[i..], if i == 0 then 0 else 3)) ==
                start + Duration(LetterPulses(word, 0))
    {
      LetterStep(longer, t, word, i);
      if i > 0 {
        t := t + 3;
      }
      longer, t := AddCode(longer, t, word[i]);
    }
    assert word[|word|..] == [];
  }

  lemma WordStep(marks: seq<(nat, nat)>, t: nat, words: seq<Spelling>, w: nat)
    requires w < |words| && IsSpelling(words[w])
    ensures var gap, rest := if w == 0 then 0 else 7, PhrasePulses(words[w + 1..], 7);
            var word, end := LetterPulses(words[w], 0), t + gap + Duration(LetterPulses(words[w], 0));
            && Extend(marks, PhrasePulses(words[w..], gap), t) == Extend(Extend(marks, word, t + gap), rest, end)
            && t + Duration(PhrasePulses(words[w..], gap)) == end + Duration(rest)
  {
    var gap, rest := if w == 0 then 0 else 7, PhrasePulses(words[w + 1..], 7);
    var word := LetterPulses(words[w], gap);
    assert words[w..][1..] == words[w + 1..];
    StartWord(words[w], gap);
    StartsNow(words[w]);
    LaterStart(marks, word, t);
    assert [Pulse(0, word[0].len)] + word[1..] == LetterPulses(words[w], 0);
    ExtendConcat(marks, word, rest, t);
    DurationConcat(word, rest);
  }

  /** The outer loop: the words of a phrase. */
  method AddWords(words: seq<Spelling>) returns (marks: seq<(nat, nat)>, t: nat)
    requires AreSpellings(words)
    ensures marks == Extend([], PhrasePulses(words, 0), 0)
    ensures t == Duration(PhrasePulses(words, 0))
  {
    marks, t := [], 0;
    var firstWord := true;
    assert words[0..] == words;
    for w := 0 to |words|
      invariant firstWord == (w == 0)
      invariant Extend(marks, PhrasePulses(words[w..], if w == 0 then 0 else 7), t) ==
                Extend([], PhrasePulses(words, 0), 0)
      invariant t + Duration(PhrasePulses(words[w..], if w == 0 then 0 else 7)) == Duration(PhrasePulses(words, 0))
    {
      WordStep(marks, t, words, w);
      if !firstWord {
        t := t + 7;
      }
      firstWord := false;
      marks, t := AddWord(marks, t, words[w]);
    }
    assert words[|words|..] == [];
  }

  /** Compiles a phrase; an invalid one is replaced by the default. */
  method New(phrase: string) returns (p: MorsePattern)
    ensures p == PatternOf(Played(phrase))
  {
    var played := Played(phrase);
    PhraseWords(played);
    var marks, t := AddWords(SpellWords(Words(played)));
    MessageEnd(played);
    ExtendIsIntervals([], Pulses(played), 0);
    assert [] + Intervals(Pulses(played), 0) == Intervals(Pulses(played), 0);
    p := MorsePattern(marks, t, t + 7 + 3 * 6 + 7);
  }

  // ----- durations

  /** The characters of some words, with one character between each two. */
  function Size(words: seq<string>): (n: nat) {
    if words == [] then 0
    else if |words| == 1 then |words[0]|
    else |words[0]| + 1 + Size(words[1..])
  }

  lemma {:induction false} SizeOfWords(s: string)
    ensures Size(Words(s)) <= |s|
    decreases |s|
  {
    if s != "" {
      if IsWhitespace(s[0]) {
        SizeOfWords(s[1..]);
      } else {
        var n := WordLength(s);
        var rest := s[n..];
        if rest != "" {
          SizeOfWords(rest[1..]);
          assert Words(rest) == Words(rest[1..]);
        }
        assert Words(s)[1..] == Words(rest);
      }
    }
  }

  lemma {:induction false} CodeDuration(code: Marks, gap: nat)
    requires code != End
    ensures Duration(CodePulses(code, gap)) == gap + code.Units()
  {
    assert CodePulses(code, gap)[1..] == CodePulses(code.next, 1);
    if code.next != End {
      CodeDuration(code.next, 1);
    }
  }

  lemma {:induction false} WordDuration(word: string, gap: nat)
    requires IsWord(word)
    ensures Duration(LetterPulses(Spell(word), gap)) <= gap + 22 * |word| - 3
    decreases |word|
  {
    var code := Code(word[0]).value;
    CodeUnits(word[0]);
    CodeDuration(code, gap);
    DurationConcat(CodePulses(code, gap), LetterPulses(Spell(word)[1..], 3));
    assert Spell(word)[1..] == Spell(word[1..]);
    if |word| > 1 {
      WordDuration(word[1..], 3);
    }
  }

  lemma {:induction false} PhraseDuration(words: seq<string>, gap: nat)
    requires AreWords(words) && words != []
    ensures Duration(PhrasePulses(SpellWords(words), gap)) <= gap + 22 * Size(words) - 3
    decreases |words|
  {
    var spelled := SpellWords(words);
    WordDuration(words[0], gap);
    DurationConcat(LetterPulses(spelled[0], gap), PhrasePulses(spelled[1..], 7));
    assert spelled[1..] == SpellWords(words[1..]);
    if |words| > 1 {
      PhraseDuration(words[1..], 7);
    }
  }

  /** A message ends within 22 units for each character, less three. */
  lemma MessageEnd(phrase: string)
    requires ValidPhrase(phrase)
    ensures PatternOf(phrase).messageEnd <= 22 * |phrase| - 3
    ensures PatternOf(phrase).messageEnd < SIXTEEN_BITS
  {
    PhraseWords(phrase);
    PhraseDuration(Words(phrase), 0);
    SizeOfWords(phrase);
  }

  lemma PulsesAreLit(phrase: string)
    requires ValidPhrase(phrase)
    ensures Separate(Pulses(phrase)) && Pulses(phrase) != []
  {
    PhraseWords(phrase);
    PhrasePulsesSeparate(SpellWords(Words(phrase)), 0);
  }

  /** Marks are in order, disjoint and not empty, the last one ends the message, and sixteen bits hold them all. */
  lemma MarksInOrder(phrase: string, i: nat, j: nat)
    requires ValidPhrase(phrase)
    requires i < |PatternOf(phrase).marks| && j < |PatternOf(phrase).marks|
    ensures var p := PatternOf(phrase);
            && p.marks[i].0 < p.marks[i].1 <= p.messageEnd < SIXTEEN_BITS
            && (i < j ==> p.marks[i].1 <= p.marks[j].0)
            && (i == |p.marks| - 1 ==> p.marks[i].1 == p.messageEnd)
  {
    PulsesAreLit(phrase);
    IntervalsInOrder(Pulses(phrase), 0, i, j);
    MessageEnd(phrase);
  }

  // ----- what an observer sees

  /** What the light shows at any time is what it shows in that unit of the cycle. */
  lemma ColorIsObserved(p: MorsePattern, elapsedMs: nat)
    requires p.cycle > 0
    ensures p.ColorAt(elapsedMs) == p.Observe()[elapsedMs / 200 % p.cycle]
  {
    var t := elapsedMs / UNIT_MS % p.cycle;
    assert t * UNIT_MS / UNIT_MS == t && t % p.cycle == t;
  }

  /** Playback repeats itself. */
  lemma ColorRepeats(p: MorsePattern, elapsedMs: nat, cycles: nat)
    requires p.cycle > 0
    ensures p.ColorAt(elapsedMs + cycles * p.cycle * 200) == p.ColorAt(elapsedMs)
  {
    var units := elapsedMs / UNIT_MS;
    assert (elapsedMs + cycles * p.cycle * UNIT_MS) / UNIT_MS == units + cycles * p.cycle;
    AddCycles(units, cycles, p.cycle);
  }

  lemma AddCycles(units: nat, cycles: nat, cycle: nat)
    requires cycle > 0
    ensures (units + cycles * cycle) % cycle == units % cycle
  {
    assert units + cycles * cycle == (units / cycle + cycles) * cycle + units % cycle;
    DivisionIsUnique(units + cycles * cycle, units / cycle + cycles, units % cycle, cycle);
  }

  /** The words shown in cyan during one cycle, if they can be read. */
  function Decode(colors: seq<Color>): (words: Option<seq<string>>) {
    var spellings := Receive(CyanTrack(colors));
    if spellings.None? then None else ReadWords(spellings.value)
  }

  function ReadLetters(spelling: Spelling): (word: Option<string>) {
    if spelling == [] then Some("")
    else
      var letter, rest := Letter(spelling[0]), ReadLetters(spelling[1..]);
      if letter.None? || rest.None? then None else Some([letter.value] + rest.value)
  }

  function ReadWords(spellings: seq<Spelling>): (words: Option<seq<string>>) {
    if spellings == [] then Some([])
    else
      var word, rest := ReadLetters(spellings[0]), ReadWords(spellings[1..]);
      if word.None? || rest.None? then None else Some([word.value] + rest.value)
  }

  function UpperWords(words: seq<string>): (upper: seq<string>)
    ensures |upper| == |words|
  {
    seq(|words|, i requires 0 <= i < |words| => UpperCase(words[i]))
  }

  lemma {:induction false} LettersRoundTrip(word: string)
    requires forall i | 0 <= i < |word| :: Code(word[i]).Some?
    ensures ReadLetters(Spell(word)) == Some(UpperCase(word))
  {
    if word == "" {
      assert UpperCase(word) == "";
    } else {
      LetterOfCode(word[0]);
      LettersRoundTrip(word[1..]);
      assert Spell(word)[1..] == Spell(word[1..]);
      assert [Upper(word[0])] + UpperCase(word[1..]) == UpperCase(word);
    }
  }

  lemma {:induction false} WordsRoundTrip(words: seq<string>)
    requires AreWords(words)
    ensures ReadWords(SpellWords(words)) == Some(UpperWords(words))
  {
    if words == [] {
      assert UpperWords(words) == [];
    } else {
      LettersRoundTrip(words[0]);
      WordsRoundTrip(words[1..]);
      assert SpellWords(words)[1..] == SpellWords(words[1..]);
      assert [UpperCase(words[0])] + UpperWords(words[1..]) == UpperWords(words);
    }
  }

  lemma InFirstCycle(p: MorsePattern, t: nat)
    requires t < p.cycle
    ensures t * UNIT_MS / UNIT_MS % p.cycle == t
  {
    DivisionIsUnique(t, 0, t, p.cycle);
  }

  /** The cyan of one cycle is the track of the pulses and then darkness. */
  lemma {:induction false} ObservedTrack(ps: seq<Pulse>, t: nat)
    requires Separate(ps)
    requires t < Compile(ps).cycle
    ensures (Compile(ps).Observe()[t] == CYAN) == (Track(ps) + Constant(false, 32))[t]
  {
    InFirstCycle(Compile(ps), t);
    if t < Duration(ps) {
      TrackIsCover(ps, 0, t);
    }
  }

  function CyanTrack(colors: seq<Color>): (bits: seq<bool>)
    ensures |bits| == |colors|
  {
    seq(|colors|, t requires 0 <= t < |colors| => colors[t] == CYAN)
  }

  lemma {:induction false} ObservedTracks(ps: seq<Pulse>)
    requires Separate(ps)
    ensures CyanTrack(Compile(ps).Observe()) == Track(ps) + Constant(false, 32)
  {
    var colors := Compile(ps).Observe();
    forall t | 0 <= t < |colors|
      ensures CyanTrack(colors)[t] == (Track(ps) + Constant(false, 32))[t]
    {
      ObservedTrack(ps, t);
    }
  }

  /** The main result: watching one cycle gives back the phrase, in capitals and with its spaces collapsed. */
  lemma {:induction false} MorseRoundTrip(phrase: string)
    requires ValidPhrase(phrase)
    ensures Decode(PatternOf(phrase).Observe()) == Some(UpperWords(Words(phrase)))
  {
    PulsesAreLit(phrase);
    ObservedTracks(Pulses(phrase));
    PhraseWords(phrase);
    ReceivePhrase(SpellWords(Words(phrase)), 32);
    WordsRoundTrip(Words(phrase));
  }

  lemma SameCode(a: char, b: char)
    requires Upper(a) == Upper(b)
    ensures Code(a) == Code(b)
  {
  }

  lemma {:induction false} SameWord(a: string, b: string)
    requires IsWord(a) && IsWord(b) && UpperCase(a) == UpperCase(b)
    ensures Spell(a) == Spell(b)
  {
    assert |a| == |UpperCase(a)| == |b|;
    forall i | 0 <= i < |a|
      ensures Spell(a)[i] == Spell(b)[i]
    {
      assert Upper(a[i]) == UpperCase(a)[i] == Upper(b[i]);
      SameCode(a[i], b[i]);
    }
  }

  lemma {:induction false} SameSpelling(a: seq<string>, b: seq<string>)
    requires AreWords(a) && AreWords(b) && UpperWords(a) == UpperWords(b)
    ensures SpellWords(a) == SpellWords(b)
  {
    assert |a| == |UpperWords(a)| == |b|;
    forall i | 0 <= i < |a|
      ensures SpellWords(a)[i] == SpellWords(b)[i]
    {
      assert UpperWords(a)[i] == UpperCase(a[i]) && UpperWords(b)[i] == UpperCase(b[i]);
      SameWord(a[i], b[i]);
    }
  }

  /** Two phrases look the same exactly when they differ in nothing but case and spacing. */
  lemma {:induction false} SameSignal(a: string, b: string)
    requires ValidPhrase(a) && ValidPhrase(b)
    ensures PatternOf(a).Observe() == PatternOf(b).Observe() <==> UpperWords(Words(a)) == UpperWords(Words(b))
  {
    MorseRoundTrip(a);
    MorseRoundTrip(b);
    PhraseWords(a);
    PhraseWords(b);
    if UpperWords(Words(a)) == UpperWords(Words(b)) {
      SameSpelling(Words(a), Words(b));
    }
  }

  /** After the message come seven dark units and exactly three green flashes of three units, six apart. */
  lemma ThreeFlashes(ps: seq<Pulse>, t: nat)
    requires t < Compile(ps).cycle
    ensures var p := Compile(ps);
            p.Observe()[t] == GREEN <==>
            exists k: nat :: k < 3 && p.messageEnd + 7 + 6 * k <= t < p.messageEnd + 7 + 6 * k + 3
  {
    var p := Compile(ps);
    InFirstCycle(p, t);
    assert p.Observe()[t] == p.ColorAt(t * UNIT_MS);
    if p.Observe()[t] == GREEN {
      var k := (t - p.messageEnd - 7) / 6;
      assert 0 <= k < 3 && p.messageEnd + 7 + 6 * k <= t < p.messageEnd + 7 + 6 * k + 3;
    }
  }

  // ----- three phrases in rotation

  function CycleMs(patterns: seq<MorsePattern>): (ms: nat) {
    if patterns == [] then 0 else patterns[0].cycle * UNIT_MS + CycleMs(patterns[1..])
  }

  predicate Playable(patterns: seq<MorsePattern>) {
    forall i | 0 <= i < |patterns| :: patterns[i].cycle > 0
  }

  /** What a list of patterns played one after another shows at `t`; dark when all are over. */
  function PlayAt(patterns: seq<MorsePattern>, t: nat): (color: Color)
    requires Playable(patterns)
  {
    if patterns == [] then DARK
    else
      var length := patterns[0].cycle * UNIT_MS;
      if t < length then patterns[0].ColorAt(t) else PlayAt(patterns[1..], t - length)
  }

  datatype Rotation = Rotation(patterns: seq<MorsePattern>, cycleMs: nat)
  {
    ghost predicate Valid() {
      |patterns| == 3 && Playable(patterns) && cycleMs == CycleMs(patterns) > 0
    }

    method ColorAt(elapsedMs: nat) returns (color: Color)
      requires Valid()
      ensures color == PlayAt(patterns, elapsedMs % cycleMs)
    {
      var t := elapsedMs % cycleMs;
      assert patterns[0..] == patterns;
      for i := 0 to |patterns|
        invariant 0 <= t
        invariant PlayAt(patterns[i..], t) == PlayAt(patterns, elapsedMs % cycleMs)
      {
        var length := patterns[i].cycle * UNIT_MS;
        if t < length {
          return patterns[i].ColorAt(t);
        }
        assert patterns[i..][1..] == patterns[i + 1..];
        t := t - length;
      }
      return DARK;
    }
  }

  lemma ThreeCycles(a: MorsePattern, b: MorsePattern, c: MorsePattern)
    ensures CycleMs([a, b, c]) == a.cycle * UNIT_MS + b.cycle * UNIT_MS + c.cycle * UNIT_MS
  {
    assert CycleMs([c]) == c.cycle * UNIT_MS + CycleMs([]);
    assert [b, c][1..] == [c];
    assert CycleMs([b, c]) == b.cycle * UNIT_MS + CycleMs([c]);
    assert [a, b, c][1..] == [b, c];
  }

  function Assemble(a: MorsePattern, b: MorsePattern, c: MorsePattern): (r: Rotation)
    requires a.cycle > 0 && b.cycle > 0 && c.cycle > 0
    ensures r.Valid() && r.patterns == [a, b, c]
  {
    ThreeCycles(a, b, c);
    Rotation([a, b, c], a.cycle * UNIT_MS + b.cycle * UNIT_MS + c.cycle * UNIT_MS)
  }

  /** The light's configured phrases, each compiled on its own. */
  method NewRotation(phrases: seq<string>) returns (r: Rotation)
    requires |phrases| == 3
    ensures r.Valid()
    ensures r.patterns ==
            [PatternOf(Played(phrases[0])), PatternOf(Played(phrases[1])), PatternOf(Played(phrases[2]))]
  {
    var first := New(phrases[0]);
    var second := New(phrases[1]);
    var third := New(phrases[2]);
    return Assemble(first, second, third);
  }

  /** Every pattern is played in full, in its turn, from its own start. */
  lemma {:induction false} PlaysInTurn(patterns: seq<MorsePattern>, i: nat, t: nat)
    requires Playable(patterns) && i < |patterns| && t < patterns[i].cycle * UNIT_MS
    ensures var start := CycleMs(patterns[..i]);
            start + t < CycleMs(patterns) && PlayAt(patterns, start + t) == patterns[i].ColorAt(t)
  {
    if i > 0 {
      PlaysInTurn(patterns[1..], i - 1, t);
      assert patterns[..i][1..] == patterns[1..][..i - 1];
    }
  }

  /** Every time within the rotation belongs to a pattern, so the dark after the last is never shown. */
  lemma {:induction false} AlwaysPlaying(patterns: seq<MorsePattern>, t: nat) returns (i: nat, offset: nat)
    requires Playable(patterns) && t < CycleMs(patterns)
    ensures i < |patterns| && offset < patterns[i].cycle * UNIT_MS
    ensures t == CycleMs(patterns[..i]) + offset
    ensures PlayAt(patterns, t) == patterns[i].ColorAt(offset)
  {
    var length := patterns[0].cycle * UNIT_MS;
    if t < length {
      i, offset := 0, t;
    } else {
      i, offset := AlwaysPlaying(patterns[1..], t - length);
      i := i + 1;
      assert patterns[..i][1..] == patterns[1..][..i - 1];
    }
  }

  /** What the rotation shows while pattern `i` has its turn, looked at once in every unit. */
  function ObserveTurn(r: Rotation, i: nat): (colors: seq<Color>)
    requires r.Valid() && i < 3
  {
    seq(r.patterns[i].cycle, (t: nat) => PlayAt(r.patterns, CycleMs(r.patterns[..i]) + t * UNIT_MS))
  }

  lemma TurnIsPattern(r: Rotation, i: nat)
    requires r.Valid() && i < 3
    ensures ObserveTurn(r, i) == r.patterns[i].Observe()
  {
    forall t: nat | t < r.patterns[i].cycle
      ensures ObserveTurn(r, i)[t] == r.patterns[i].Observe()[t]
    {
      PlaysInTurn(r.patterns, i, t * UNIT_MS);
    }
  }

  /** Each of the three phrases can be read off the rotation during its turn. */
  lemma {:induction false} RotationRoundTrip(r: Rotation, i: nat, phrase: string)
    requires r.Valid() && i < 3 && ValidPhrase(phrase) && r.patterns[i] == PatternOf(phrase)
    ensures Decode(ObserveTurn(r, i)) == Some(UpperWords(Words(phrase)))
  {
    TurnIsPattern(r, i);
    MorseRoundTrip(phrase);
  }

  /** The rotation repeats itself. */
  lemma RotationRepeats(r: Rotation, elapsedMs: nat, rounds: nat)
    requires r.Valid()
    ensures PlayAt(r.patterns, (elapsedMs + rounds * r.cycleMs) % r.cycleMs) ==
            PlayAt(r.patterns, elapsedMs % r.cycleMs)
  {
    AddCycles(elapsedMs, rounds, r.cycleMs);
  }
}
