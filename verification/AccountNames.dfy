/** The names of accounts and records on the wire, and reading them back. */
module AccountNames {
  import opened Options
  import opened Limits
  import opened Text
  import opened Numerals

  const MAX_MEMBER := 255
  const NAME_SIZE := 32

  const ACCOUNT := "account-"
  const USD := "-usd"

  datatype Error = InvalidInput

  function StripPrefix(s: string, prefix: string): (rest: Option<string>) {
    if prefix <= s then Some(s[|prefix|..]) else None
  }

  function StripSuffix(s: string, suffix: string): (rest: Option<string>) {
    if |suffix| <= |s| && s[|s| - |suffix|..] == suffix then Some(s[..|s| - |suffix|]) else None
  }

  /** A prefix and a number in the name buffer; absent when they do not fit. */
  function Id(prefix: string, number: nat): (name: Option<string>) {
    var name := prefix + Digits(number);
    if |name| <= NAME_SIZE then Some(name) else None
  }

  function Number(s: string, prefix: string): (r: Result<nat, Error>) {
    var rest := StripPrefix(s, prefix);
    if rest.None? then Err(InvalidInput)
    else
      var n := ParseUnsigned(rest.value, MAX_U64);
      if n.None? then Err(InvalidInput) else Ok(n.value)
  }

  function MemberId(s: string, prefix: string): (r: Result<nat, Error>) {
    var rest := StripPrefix(s, prefix);
    if rest.None? then Err(InvalidInput)
    else
      var n := ParseUnsigned(rest.value, MAX_MEMBER);
      if n.None? || n.value == 0 then Err(InvalidInput) else Ok(n.value)
  }

  function Account(member: nat): (name: string)
    requires member <= MAX_MEMBER
  {
    if member == ESCROW then "account:lotto-escrow"
    else if member == ISSUER then "account:system-issuance"
    else ACCOUNT + Digits(member)
  }

  function CurrencyAccount(member: nat, usd: bool): (name: string)
    requires member <= MAX_MEMBER
  {
    if !usd then Account(member)
    else if member == ISSUER then "account:usd-issuance"
    else Account(member) + USD
  }

  function ParseAccount(s: string): (r: Result<(nat, bool), Error>) {
    if s == "account:system-issuance" then Ok((ISSUER, false))
    else if s == "account:usd-issuance" then Ok((ISSUER, true))
    else
      var stripped := StripSuffix(s, USD);
      var name := if stripped.Some? then stripped.value else s;
      var member := MemberId(name, ACCOUNT);
      if member.Err? then Err(member.error) else Ok((member.value, stripped.Some?))
  }

  // ----- names that fit and read back

  /** The widest number takes twenty digits. */
  lemma {:induction false} WidestNumber(n: nat)
    ensures n <= MAX_U64 ==> |Digits(n)| <= 20
    ensures n == MAX_U64 ==> |Digits(n)| == 20
  {
    DigitsLength(n, 20);
    DigitsLength(n, 19);
    PowerOfNineteen();
  }

  lemma PowerOfNineteen()
    ensures Power(19) == 10_000_000_000_000_000_000
    ensures Power(20) == 100_000_000_000_000_000_000
  {
    assert Power(5) == 100_000;
    assert Power(10) == 10_000_000_000;
    assert Power(15) == 1_000_000_000_000_000;
  }

  /** Every number fits behind a prefix exactly when the prefix leaves twenty characters. */
  lemma NamesFit(prefix: string)
    ensures (forall n | 0 <= n <= MAX_U64 :: Id(prefix, n).Some?) <==> |prefix| <= 12
  {
    forall n | 0 <= n <= MAX_U64
      ensures |Digits(n)| <= 20
    {
      WidestNumber(n);
    }
    WidestNumber(MAX_U64);
    assert Id(prefix, MAX_U64).Some? <==> |prefix| <= 12;
  }

  /** A number printed behind a prefix is read back. */
  lemma NumberRoundTrip(prefix: string, n: nat)
    requires n <= MAX_U64 && Id(prefix, n).Some?
    ensures Number(Id(prefix, n).value, prefix) == Ok(n)
  {
    var name := prefix + Digits(n);
    assert name[|prefix|..] == Digits(n);
    ParsePrinted(n, MAX_U64);
  }

  lemma Stripped(prefix: string, text: string, suffix: string)
    ensures StripPrefix(prefix + text, prefix) == Some(text)
    ensures StripSuffix(text + suffix, suffix) == Some(text)
  {
    assert (prefix + text)[|prefix|..] == text;
    assert (text + suffix)[|text|..] == suffix && (text + suffix)[..|text|] == text;
  }

  lemma NotStripped(s: string, suffix: string)
    requires s != "" && suffix != "" && s[|s| - 1] != suffix[|suffix| - 1]
    ensures StripSuffix(s, suffix) == None
  {
    if |suffix| <= |s| {
      assert s[|s| - |suffix|..][|suffix| - 1] == s[|s| - 1];
    }
  }

  lemma NotSpecial(s: string)
    requires |s| > 7 && s[7] == '-'
    ensures s != "account:system-issuance" && s != "account:usd-issuance"
  {
  }

  /** Any text that reads as a member's number names that member's accounts. */
  lemma ReadsAccount(text: string, member: nat, usd: bool)
    requires text != "" && IsDigit(text[|text| - 1])
    requires ParseUnsigned(text, MAX_MEMBER) == Some(member) && member != 0
    ensures ParseAccount(if usd then ACCOUNT + text + USD else ACCOUNT + text) == Ok((member, usd))
  {
    var name := ACCOUNT + text;
    assert name[7] == '-' == (name + USD)[7];
    NotSpecial(name);
    NotSpecial(name + USD);
    Stripped(ACCOUNT, text, USD);
    Stripped(ACCOUNT, name, USD);
    assert name[|name| - 1] == text[|text| - 1] != USD[|USD| - 1];
    NotStripped(name, USD);
  }

  lemma {:induction false} LastDigit(n: nat)
    ensures IsDigit(Digits(n)[|Digits(n)| - 1])
  {
  }

  lemma EscrowIsNotRead(usd: bool)
    ensures ParseAccount(CurrencyAccount(ESCROW, usd)).Err?
  {
    var plain := Account(ESCROW);
    Stripped(ACCOUNT, plain, USD);
    assert plain[|plain| - 1] == 'w' && USD[|USD| - 1] == 'd';
    NotStripped(plain, USD);
    assert plain[7] == ':' && ACCOUNT[7] == '-';
    assert !(ACCOUNT <= plain);
    assert |plain| == 20 && |plain + USD| == 24;
  }

  /** An account name is read back exactly when the account is not the escrow. */
  lemma AccountRoundTrip(member: nat, usd: bool)
    requires member <= MAX_MEMBER
    ensures ParseAccount(CurrencyAccount(member, usd)) == Ok((member, usd)) <==> member != ESCROW
  {
    if member == ESCROW {
      EscrowIsNotRead(usd);
    } else if member != ISSUER {
      ParsePrinted(member, MAX_MEMBER);
      LastDigit(member);
      ReadsAccount(Digits(member), member, usd);
    }
  }

  /** Every account's name fits the name buffer. */
  lemma AccountsFit(member: nat, usd: bool)
    requires member <= MAX_MEMBER
    ensures |CurrencyAccount(member, usd)| <= NAME_SIZE
  {
    WidestNumber(member);
  }

  /** No two accounts share a name. */
  lemma NamesAreDistinct(member: nat, usd: bool, other: nat, otherUsd: bool)
    requires member <= MAX_MEMBER && other <= MAX_MEMBER
    requires CurrencyAccount(member, usd) == CurrencyAccount(other, otherUsd)
    ensures member == other && usd == otherUsd
  {
    AccountRoundTrip(member, usd);
    AccountRoundTrip(other, otherUsd);
    if member == ESCROW && other == ESCROW {
      assert |CurrencyAccount(member, true)| == |CurrencyAccount(member, false)| + 4;
    }
  }

  /** A text that names a member's account: the member's number after the prefix, and the suffix for dollars. */
  ghost predicate NamesMember(s: string, member: nat, usd: bool) {
    exists text, digits ::
      && Writes(text, digits, member) && 1 <= member <= 255
      && s == if usd then "account-" + text + "-usd" else "account-" + text
  }

  lemma {:induction false} NamedIsRead(text: string, digits: string, member: nat, usd: bool)
    requires Writes(text, digits, member) && 1 <= member <= 255
    ensures ParseAccount(if usd then ACCOUNT + text + USD else ACCOUNT + text) == Ok((member, usd))
  {
    ParseExactly(text, MAX_MEMBER, member);
    assert text[|text| - 1] == digits[|digits| - 1];
    ReadsAccount(text, member, usd);
  }

  lemma {:induction false} ReadIsNamed(s: string, member: nat, usd: bool)
    requires ParseAccount(s) == Ok((member, usd)) && s != "account:system-issuance" && s != "account:usd-issuance"
    ensures NamesMember(s, member, usd)
  {
    var name := if usd then s[..|s| - |USD|] else s;
    var text := name[|ACCOUNT|..];
    ParseExactly(text, MAX_MEMBER, member);
    var digits :| Writes(text, digits, member);
    assert name == ACCOUNT + text;
    assert usd ==> s == name + USD;
  }

  /**
    Exactly which texts are read as an account: the two names of issuance, and a member's
    number from 1 to 255 behind the prefix, with the suffix for dollars.
   */
  lemma {:induction false} ReadExactly(s: string, member: nat, usd: bool)
    ensures ParseAccount(s) == Ok((member, usd)) <==>
            || (s == "account:system-issuance" && member == 0 && !usd)
            || (s == "account:usd-issuance" && member == 0 && usd)
            || NamesMember(s, member, usd)
  {
    var special := s == "account:system-issuance" || s == "account:usd-issuance";
    if NamesMember(s, member, usd) {
      var text, digits :|
        && Writes(text, digits, member) && 1 <= member <= 255
        && s == if usd then "account-" + text + "-usd" else "account-" + text;
      NamedIsRead(text, digits, member, usd);
    } else if !special && ParseAccount(s) == Ok((member, usd)) {
      ReadIsNamed(s, member, usd);
    }
  }

  /** Exactly which texts are read as a record's number. */
  lemma {:induction false} NumberExactly(s: string, prefix: string, n: nat)
    ensures Number(s, prefix) == Ok(n) <==>
            n <= 0xFFFF_FFFF_FFFF_FFFF && exists text, digits :: Writes(text, digits, n) && s == prefix + text
  {
    if prefix <= s {
      ParseExactly(s[|prefix|..], MAX_U64, n);
      assert s == prefix + s[|prefix|..];
    }
    forall text, digits | Writes(text, digits, n) && s == prefix + text
      ensures prefix <= s && s[|prefix|..] == text
    {
    }
  }

  /** Reading accepts more than printing gives: the escrow has a name that is read, and every member a second one. */
  lemma {:induction false} OtherNames(member: nat, usd: bool)
    requires 0 < member <= MAX_MEMBER
    ensures var signed, end := ACCOUNT + ("+" + Digits(member)), if usd then USD else "";
            && ParseAccount(signed + end) == Ok((member, usd))
            && ParseAccount(ACCOUNT + Digits(member) + end) == Ok((member, usd))
  {
    ParsePrinted(member, MAX_MEMBER);
    LastDigit(member);
    ReadsAccount(Digits(member), member, usd);
    var signed := "+" + Digits(member);
    assert signed[1..] == Digits(member) && |signed| > 1;
    assert signed[|signed| - 1] == Digits(member)[|Digits(member)| - 1];
    assert IsDigit(Digits(member)[0]);
    ReadsAccount(signed, member, usd);
    if !usd {
      assert ACCOUNT + signed + "" == ACCOUNT + signed;
      assert ACCOUNT + Digits(member) + "" == ACCOUNT + Digits(member);
    }
  }
}
