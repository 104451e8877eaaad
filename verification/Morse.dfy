/** The Morse code table, forwards and backwards, and the phrases it admits. */
module Morse {
  import opened Options
  import opened Text

  const MAX_PHRASE := 80
  const DEFAULT_PHRASE := "Katie, do " + "you really " + "need all of " + "those drugs?"

  /** The dots and dashes of one character, first mark outermost. */
  datatype Marks = End | Dot(next: Marks) | Dash(next: Marks)
  {
    /** How long the marks and the gaps between them last, in units. */
    function Units(): (units: nat) {
      match this
      case End => 0
      case Dot(next) => 1 + (if next.End? then 0 else 1 + next.Units())
      case Dash(next) => 3 + (if next.End? then 0 else 1 + next.Units())
    }
  }

  /** The code of a character. */
  function Code(c: char): (code: Option<Marks>) {
    Table(Upper(c))
  }

  function Table(c: char): (code: Option<Marks>) {
    match c
    case 'A' => Some(Dot(Dash(End)))
    case 'B' => Some(Dash(Dot(Dot(Dot(End)))))
    case 'C' => Some(Dash(Dot(Dash(Dot(End)))))
    case 'D' => Some(Dash(Dot(Dot(End))))
    case 'E' => Some(Dot(End))
    case 'F' => Some(Dot(Dot(Dash(Dot(End)))))
    case 'G' => Some(Dash(Dash(Dot(End))))
    case 'H' => Some(Dot(Dot(Dot(Dot(End)))))
    case 'I' => Some(Dot(Dot(End)))
    case 'J' => Some(Dot(Dash(Dash(Dash(End)))))
    case 'K' => Some(Dash(Dot(Dash(End))))
    case 'L' => Some(Dot(Dash(Dot(Dot(End)))))
    case 'M' => Some(Dash(Dash(End)))
    case 'N' => Some(Dash(Dot(End)))
    case 'O' => Some(Dash(Dash(Dash(End))))
    case 'P' => Some(Dot(Dash(Dash(Dot(End)))))
    case 'Q' => Some(Dash(Dash(Dot(Dash(End)))))
    case 'R' => Some(Dot(Dash(Dot(End))))
    case 'S' => Some(Dot(Dot(Dot(End))))
    case 'T' => Some(Dash(End))
    case 'U' => Some(Dot(Dot(Dash(End))))
    case 'V' => Some(Dot(Dot(Dot(Dash(End)))))
    case 'W' => Some(Dot(Dash(Dash(End))))
    case 'X' => Some(Dash(Dot(Dot(Dash(End)))))
    case 'Y' => Some(Dash(Dot(Dash(Dash(End)))))
    case 'Z' => Some(Dash(Dash(Dot(Dot(End)))))
    case '0' => Some(Dash(Dash(Dash(Dash(Dash(End))))))
    case '1' => Some(Dot(Dash(Dash(Dash(Dash(End))))))
    case '2' => Some(Dot(Dot(Dash(Dash(Dash(End))))))
    case '3' => Some(Dot(Dot(Dot(Dash(Dash(End))))))
    case '4' => Some(Dot(Dot(Dot(Dot(Dash(End))))))
    case '5' => Some(Dot(Dot(Dot(Dot(Dot(End))))))
    case '6' => Some(Dash(Dot(Dot(Dot(Dot(End))))))
    case '7' => Some(Dash(Dash(Dot(Dot(Dot(End))))))
    case '8' => Some(Dash(Dash(Dash(Dot(Dot(End))))))
    case '9' => Some(Dash(Dash(Dash(Dash(Dot(End))))))
    case '.' => Some(Dot(Dash(Dot(Dash(Dot(Dash(End)))))))
    case ',' => Some(Dash(Dash(Dot(Dot(Dash(Dash(End)))))))
    case '?' => Some(Dot(Dot(Dash(Dash(Dot(Dot(End)))))))
    case '!' => Some(Dash(Dot(Dash(Dot(Dash(Dash(End)))))))
    case '-' => Some(Dash(Dot(Dot(Dot(Dot(Dash(End)))))))
    case '/' => Some(Dash(Dot(Dot(Dash(Dot(End))))))
    case '\'' => Some(Dot(Dash(Dash(Dash(Dash(Dot(End)))))))
    case '"' => Some(Dot(Dash(Dot(Dot(Dash(Dot(End)))))))
    case '(' => Some(Dash(Dot(Dash(Dash(Dot(End))))))
    case ')' => Some(Dash(Dot(Dash(Dash(Dot(Dash(End)))))))
    case ':' => Some(Dash(Dash(Dash(Dot(Dot(Dot(End)))))))
    case ';' => Some(Dash(Dot(Dash(Dot(Dash(Dot(End)))))))
    case '=' => Some(Dash(Dot(Dot(Dot(Dash(End))))))
    case '+' => Some(Dot(Dash(Dot(Dash(Dot(End))))))
    case '@' => Some(Dot(Dash(Dash(Dot(Dash(Dot(End)))))))
    case '_' => Some(Dot(Dot(Dash(Dash(Dot(Dash(End)))))))
    case _ => None
  }

  /** The reading table: the character each pattern of dots and dashes stands for. */
  function Letter(code: Marks): (c: Option<char>) {
    match code
    case Dot(End) => Some('E')
    case Dash(End) => Some('T')
    case Dot(Dot(rest)) => AfterDotDot(rest)
    case Dot(Dash(rest)) => AfterDotDash(rest)
    case Dash(Dot(rest)) => AfterDashDot(rest)
    case Dash(Dash(rest)) => AfterDashDash(rest)
    case End => None
  }

  function AfterDotDot(rest: Marks): (c: Option<char>) {
    match rest
    case End => Some('I')
    case Dash(End) => Some('U')
    case Dot(End) => Some('S')
    case Dash(Dot(End)) => Some('F')
    case Dot(Dash(End)) => Some('V')
    case Dot(Dot(End)) => Some('H')
    case Dash(Dash(Dash(End))) => Some('2')
    case Dot(Dash(Dash(End))) => Some('3')
    case Dot(Dot(Dash(End))) => Some('4')
    case Dot(Dot(Dot(End))) => Some('5')
    case Dash(Dash(Dot(Dash(End)))) => Some('_')
    case Dash(Dash(Dot(Dot(End)))) => Some('?')
    case _ => None
  }

  function AfterDotDash(rest: Marks): (c: Option<char>) {
    match rest
    case End => Some('A')
    case Dash(End) => Some('W')
    case Dot(End) => Some('R')
    case Dash(Dash(End)) => Some('J')
    case Dash(Dot(End)) => Some('P')
    case Dot(Dot(End)) => Some('L')
    case Dash(Dash(Dash(End))) => Some('1')
    case Dot(Dash(Dot(End))) => Some('+')
    case Dash(Dash(Dash(Dot(End)))) => Some('\'')
    case Dash(Dot(Dash(Dot(End)))) => Some('@')
    case Dot(Dash(Dot(Dash(End)))) => Some('.')
    case Dot(Dot(Dash(Dot(End)))) => Some('"')
    case _ => None
  }

  function AfterDashDot(rest: Marks): (c: Option<char>) {
    match rest
    case End => Some('N')
    case Dash(End) => Some('K')
    case Dot(End) => Some('D')
    case Dash(Dash(End)) => Some('Y')
    case Dash(Dot(End)) => Some('C')
    case Dot(Dash(End)) => Some('X')
    case Dot(Dot(End)) => Some('B')
    case Dash(Dash(Dot(End))) => Some('(')
    case Dot(Dash(Dot(End))) => Some('/')
    case Dot(Dot(Dash(End))) => Some('=')
    case Dot(Dot(Dot(End))) => Some('6')
    case Dash(Dash(Dot(Dash(End)))) => Some(')')
    case Dash(Dot(Dash(Dash(End)))) => Some('!')
    case Dash(Dot(Dash(Dot(End)))) => Some(';')
    case Dot(Dot(Dot(Dash(End)))) => Some('-')
    case _ => None
  }

  function AfterDashDash(rest: Marks): (c: Option<char>) {
    match rest
    case End => Some('M')
    case Dash(End) => Some('O')
    case Dot(End) => Some('G')
    case Dot(Dash(End)) => Some('Q')
    case Dot(Dot(End)) => Some('Z')
    case Dash(Dash(Dash(End))) => Some('0')
    case Dash(Dash(Dot(End))) => Some('9')
    case Dash(Dot(Dot(End))) => Some('8')
    case Dot(Dot(Dot(End))) => Some('7')
    case Dash(Dot(Dot(Dot(End)))) => Some(':')
    case Dot(Dot(Dash(Dash(End)))) => Some(',')
    case _ => None
  }

  lemma ReadsDotDot(c: char)
    requires Table(c).Some? && Table(c).value.Dot? && Table(c).value.next.Dot?
    ensures AfterDotDot(Table(c).value.next.next) == Some(c)
  {
  }

  lemma ReadsDotDash(c: char)
    requires Table(c).Some? && Table(c).value.Dot? && Table(c).value.next.Dash?
    ensures AfterDotDash(Table(c).value.next.next) == Some(c)
  {
  }

  lemma ReadsDashDot(c: char)
    requires Table(c).Some? && Table(c).value.Dash? && Table(c).value.next.Dot?
    ensures AfterDashDot(Table(c).value.next.next) == Some(c)
  {
  }

  lemma ReadsDashDash(c: char)
    requires Table(c).Some? && Table(c).value.Dash? && Table(c).value.next.Dash?
    ensures AfterDashDash(Table(c).value.next.next) == Some(c)
  {
  }

  lemma LetterOfTable(c: char)
    requires Table(c).Some?
    ensures Letter(Table(c).value) == Some(c)
  {
    var code := Table(c).value;
    if code.next.End? {
    } else if code.Dot? && code.next.Dot? {
      ReadsDotDot(c);
    } else if code.Dot? {
      ReadsDotDash(c);
    } else if code.next.Dot? {
      ReadsDashDot(c);
    } else {
      ReadsDashDash(c);
    }
  }

  /** Reading a character's code gives the character back, in upper case: no two share a code. */
  lemma LetterOfCode(c: char)
    requires Code(c).Some?
    ensures Letter(Code(c).value) == Some(Upper(c))
  {
    LetterOfTable(Upper(c));
  }

  lemma WritesDotDot(rest: Marks)
    requires AfterDotDot(rest).Some?
    ensures Table(AfterDotDot(rest).value) == Some(Dot(Dot(rest)))
  {
  }

  lemma WritesDotDash(rest: Marks)
    requires AfterDotDash(rest).Some?
    ensures Table(AfterDotDash(rest).value) == Some(Dot(Dash(rest)))
  {
  }

  lemma WritesDashDot(rest: Marks)
    requires AfterDashDot(rest).Some?
    ensures Table(AfterDashDot(rest).value) == Some(Dash(Dot(rest)))
  {
  }

  lemma WritesDashDash(rest: Marks)
    requires AfterDashDash(rest).Some?
    ensures Table(AfterDashDash(rest).value) == Some(Dash(Dash(rest)))
  {
  }

  /** Every entry of the reading table is the code of its character: no code is missing or altered. */
  lemma CodeOfLetter(code: Marks)
    requires Letter(code).Some?
    ensures Code(Letter(code).value) == Some(code)
  {
    if code.next.End? {
    } else if code.Dot? && code.next.Dot? {
      WritesDotDot(code.next.next);
    } else if code.Dot? {
      WritesDotDash(code.next.next);
    } else if code.next.Dot? {
      WritesDashDot(code.next.next);
    } else {
      WritesDashDash(code.next.next);
    }
    CodedExactly(Letter(code).value);
  }

  /** The letters of both cases, the digits and sixteen marks. */
  predicate HasCode(c: char) {
    || 'A' <= c <= 'Z' || 'a' <= c <= 'z' || '0' <= c <= '9'
    || c in {'.', ',', '?', '!', '-', '/', '\'', '"', '(', ')', ':', ';', '=', '+', '@', '_'}
  }

  lemma CodedExactly(c: char)
    ensures Code(c).Some? <==> HasCode(c)
  {
  }

  /** Every code has a mark. */
  lemma CodeShape(c: char)
    requires Code(c).Some?
    ensures Code(c).value != End
  {
  }

  function Length(mark: Marks): (units: nat) {
    if mark.Dash? then 3 else 1
  }

  /** The duration of at most four marks, spelt out. */
  lemma {:induction false} FourMarks(m: Marks)
    ensures m != End && m.next == End ==> m.Units() == Length(m)
    ensures m != End && m.next != End && m.next.next == End ==> m.Units() == Length(m) + 1 + Length(m.next)
    ensures m != End && m.next != End && m.next.next != End && m.next.next.next == End ==>
              m.Units() == Length(m) + Length(m.next) + Length(m.next.next) + 2
    ensures m != End && m.next != End && m.next.next != End && m.next.next.next != End
            && m.next.next.next.next == End ==>
              m.Units() == Length(m) + Length(m.next) + Length(m.next.next) + Length(m.next.next.next) + 3
  {
    if m != End && m.next != End && m.next.next != End {
      assert m.Units() == Length(m) + 1 + m.next.Units();
      assert m.next.Units() == Length(m.next) + 1 + m.next.next.Units();
    }
  }

  lemma UnitsDotDot(c: char)
    requires Table(c).Some? && Table(c).value.Dot? && Table(c).value.next.Dot?
    ensures Table(c).value.next.next.Units() <= 15
  {
    FourMarks(Table(c).value.next.next);
  }

  lemma UnitsDotDash(c: char)
    requires Table(c).Some? && Table(c).value.Dot? && Table(c).value.next.Dash?
    ensures Table(c).value.next.next.Units() <= 13
  {
    FourMarks(Table(c).value.next.next);
  }

  lemma UnitsDashDot(c: char)
    requires Table(c).Some? && Table(c).value.Dash? && Table(c).value.next.Dot?
    ensures Table(c).value.next.next.Units() <= 13
  {
    FourMarks(Table(c).value.next.next);
  }

  lemma UnitsDashDash(c: char)
    requires Table(c).Some? && Table(c).value.Dash? && Table(c).value.next.Dash?
    ensures Table(c).value.next.next.Units() <= 11
  {
    FourMarks(Table(c).value.next.next);
  }

  /** No code lasts longer than the five dashes of zero. */
  lemma CodeUnits(c: char)
    requires Code(c).Some?
    ensures Code(c).value.Units() <= 19
  {
    var upper := Upper(c);
    var code := Table(upper).value;
    CodeShape(c);
    if code.next == End {
    } else if code.Dot? && code.next.Dot? {
      UnitsDotDot(upper);
    } else if code.Dot? {
      UnitsDotDash(upper);
    } else if code.next.Dot? {
      UnitsDashDot(upper);
    } else {
      UnitsDashDash(upper);
    }
  }

  predicate IsPlayable(c: char) {
    c == ' ' || Code(c).Some?
  }

  predicate ValidPhrase(phrase: string) {
    && !IsBlank(phrase)
    && |phrase| <= MAX_PHRASE
    && forall i | 0 <= i < |phrase| :: IsPlayable(phrase[i])
  }

  /** Which phrases are valid: at most eighty characters, each a space or one with a code, and not only spaces. */
  lemma ValidExactly(phrase: string)
    ensures ValidPhrase(phrase) <==>
            && |phrase| <= 80
            && (forall i | 0 <= i < |phrase| :: phrase[i] == ' ' || HasCode(phrase[i]))
            && exists i | 0 <= i < |phrase| :: phrase[i] != ' '
  {
    forall i | 0 <= i < |phrase|
      ensures IsPlayable(phrase[i]) <==> phrase[i] == ' ' || HasCode(phrase[i])
      ensures HasCode(phrase[i]) ==> !IsWhitespace(phrase[i])
    {
      CodedExactly(phrase[i]);
    }
  }

  lemma LettersArePlayable(c: char)
    requires 'A' <= c <= 'Z' || 'a' <= c <= 'z' || c in {' ', ',', '?'}
    ensures IsPlayable(c)
  {
  }

  lemma DefaultIsValid()
    ensures ValidPhrase(DEFAULT_PHRASE)
  {
    var a, b, c, d := "Katie, do ", "you really ", "need all of ", "those drugs?";
    assert DEFAULT_PHRASE[0] == a[0] == 'K';
    forall i | 0 <= i < |DEFAULT_PHRASE|
      ensures IsPlayable(DEFAULT_PHRASE[i])
    {
      var ch :=
        if i < 10 then a[i] else if i < 21 then b[i - 10] else if i < 33 then c[i - 21] else d[i - 33];
      assert DEFAULT_PHRASE[i] == ch;
      LettersArePlayable(ch);
    }
  }
}
