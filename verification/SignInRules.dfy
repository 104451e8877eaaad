/**
  What the login operations answer after any run, spelt out on members, characters and
  seconds: when a sign-in succeeds, what a failure adds, and whom a code or a token admits.
 */
module SignInRules {
  import opened Options
  import opened Limits
  import opened Login
  import opened LoginRuns
  import opened Lockout

  // ----- members and requests

  /** The first member with an id. */
  predicate FirstById(members: seq<Member>, i: nat, id: nat) {
    i < |members| && members[i].id == id && forall k | 0 <= k < i :: members[k].id != id
  }

  /** The first member with a name who has a password. */
  predicate FirstByName(members: seq<Member>, u: nat, username: string) {
    && u < |members| && members[u].username == username && members[u].password.Some?
    && forall k | 0 <= k < u :: members[k].username != username || members[k].password.None?
  }

  /** The member is there, is not disabled, and has a password. */
  predicate MaySignIn(members: seq<Member>, id: nat) {
    exists i | 0 <= i < |members| ::
      FirstById(members, i, id) && !members[i].disabled && members[i].password.Some?
  }

  predicate HasPassword(m: Member, password: string) {
    m.password == Some(Verifier(password, 1000))
  }

  lemma {:induction false} EnabledExactly(members: seq<Member>, id: nat)
    ensures Enabled(members, id) <==> MaySignIn(members, id)
  {
    var i := MemberPlace(members, id);
    MemberPlaceIsFirst(members, id);
    if i < |members| {
      assert FirstById(members, i, id);
    }
  }

  lemma {:induction false} MemberPlaceIsFirst(members: seq<Member>, id: nat)
    ensures var i := MemberPlace(members, id);
            && (forall k | 0 <= k < i :: members[k].id != id)
            && (i < |members| ==> members[i].id == id)
            && (forall k | 0 <= k < |members| && FirstById(members, k, id) :: k == i)
  {
    var i := MemberPlace(members, id);
    forall k | 0 <= k < i
      ensures members[k].id != id
    {
    }
  }

  lemma {:induction false} UserPlaceIsFirst(members: seq<Member>, username: string)
    ensures var u := UserPlace(members, username);
            && (u < |members| ==> FirstByName(members, u, username))
            && (forall k | 0 <= k < |members| && FirstByName(members, k, username) :: k == u)
  {
    var u := UserPlace(members, username);
    forall k | 0 <= k < u
      ensures members[k].username != username || members[k].password.None?
    {
    }
  }

  /** Letters, digits, and what else a request or a verifier may hold. */
  predicate MadeOf(s: string, extra: set<char>) {
    forall i | 0 <= i < |s| :: 'a' <= s[i] <= 'z' || 'A' <= s[i] <= 'Z' || '0' <= s[i] <= '9' || s[i] in extra
  }

  predicate WellFormed(a: Attempt) {
    a.codeMethod == "S256" && |a.pkce| == 43 && MadeOf(a.pkce, {'-', '_'}) && 1 <= |a.redirect| <= 256
  }

  /** The password presented is that of the first member with the name, if one has a password at all. */
  predicate KnowsPassword(members: seq<Member>, a: Attempt) {
    exists u | 0 <= u < |members| :: FirstByName(members, u, a.username) && HasPassword(members[u], a.password)
  }

  predicate NameIsDisabled(members: seq<Member>, username: string) {
    exists u | 0 <= u < |members| :: FirstByName(members, u, username) && members[u].disabled
  }

  lemma {:induction false} KnowsExactly(members: seq<Member>, a: Attempt)
    ensures RightPassword(members, a) <==> KnowsPassword(members, a)
    ensures RightPassword(members, a) ==>
              (members[UserPlace(members, a.username)].disabled <==> NameIsDisabled(members, a.username))
  {
    var u := UserPlace(members, a.username);
    UserPlaceIsFirst(members, a.username);
    if u < |members| {
      assert FirstByName(members, u, a.username);
    }
  }

  /** Five failures in a row, the last under 300 s ago, and five of them after any loss of the name's entry. */
  ghost predicate IsBlocked(s256: string -> string, h: Run, username: string, now: nat) {
    var name := Sha256(username);
    var s := StreakOf(s256, h, name);
    && s.Some? && s.value.count == 5 && now < s.value.until
    && forall i | s.value.first < i < |h| && Evicts(s256, h, i, name) :: FailuresFrom(s256, h, name, i) >= 5
  }

  // ----- checking a password

  /** What confirming a password answers after any run. */
  lemma {:induction false} ConfirmedExactly(
    s256: string -> string, h: Run, members: seq<Member>, member: nat, password: string, now: nat)
    ensures var answer := ConfirmPassword(After(s256, h), members, member, password, now).1;
            && (answer.None? <==>
                  exists i | 0 <= i < |members| ::
                    && FirstById(members, i, member)
                    && !IsBlocked(s256, h, members[i].username, now) && HasPassword(members[i], password))
            && (answer == Some(NotFound) <==> forall i | 0 <= i < |members| :: members[i].id != member)
            && (answer == Some(RateLimited) <==>
                  exists i | 0 <= i < |members| ::
                    FirstById(members, i, member) && IsBlocked(s256, h, members[i].username, now))
            && (answer == Some(InvalidCredentials) <==>
                  exists i | 0 <= i < |members| ::
                    && FirstById(members, i, member)
                    && !IsBlocked(s256, h, members[i].username, now) && !HasPassword(members[i], password))
  {
    var i := MemberPlace(members, member);
    MemberPlaceIsFirst(members, member);
    if i < |members| {
      assert FirstById(members, i, member);
      BlockedExactly(s256, h, Sha256(members[i].username), now);
    }
  }

  /** What a sign-in answers after any run, with every refusal in its turn. */
  lemma {:induction false} AuthorizedExactly(
    s256: string -> string, h: Run, members: seq<Member>, a: Attempt, random: Option<string>, now: nat)
    ensures var t := After(s256, h);
            var answer, blocked := Authorize(t, members, a, random, now).1, IsBlocked(s256, h, a.username, now);
            var full := forall k | 0 <= k < |t.codes| :: t.codes[k].Some? && now < t.codes[k].value.expires;
            answer ==
              if !WellFormed(a) then Err(InvalidInput)
              else if blocked then Err(RateLimited)
              else if !KnowsPassword(members, a) then Err(InvalidCredentials)
              else if NameIsDisabled(members, a.username) then Err(Disabled)
              else if full then Err(Capacity)
              else if random.None? then Err(Unavailable)
              else Ok(random.value)
  {
    var t := After(s256, h);
    BlockedExactly(s256, h, Sha256(a.username), now);
    KnowsExactly(members, a);
    var slot := CodeSlot(t.codes, now);
    assert ValidRequest(a.pkce, a.codeMethod, a.redirect) <==> WellFormed(a);
    FullExactly(t.codes, now);
  }

  lemma {:induction false} FullExactly(codes: seq<Option<Code>>, now: nat)
    ensures CodeSlot(codes, now) == |codes| <==>
            forall k | 0 <= k < |codes| :: codes[k].Some? && now < codes[k].value.expires
  {
    var slot := CodeSlot(codes, now);
    forall k | 0 <= k < slot
      ensures codes[k].Some? && now < codes[k].value.expires
    {
      assert !FreeCode(codes[k], now);
    }
    if slot < |codes| {
      assert FreeCode(codes[slot], now);
    }
  }

  // ----- what an attempt adds to the count

  /** The count after one more failure, by the numbers. */
  predicate OneMoreFailure(before: Option<Streak>, after: Option<Streak>, now: nat, event: nat) {
    var goesOn := before.Some? && now < before.value.until;
    && after.Some?
    && after.value.count == (if !goesOn then 1 else if before.value.count >= 4 then 5 else before.value.count + 1)
    && after.value.until == (if now + 300 <= 0xFFFF_FFFF_FFFF_FFFF then now + 300 else 0xFFFF_FFFF_FFFF_FFFF)
    && after.value.first == (if goesOn then before.value.first else event)
  }

  lemma {:induction false} StreakAfter(s256: string -> string, h: Run, e: Event, username: Digest)
    ensures StreakOf(s256, h + [e], username) ==
            StreakStep(StreakOf(s256, h, username), EffectOf(After(s256, h), e), username, e.now, |h|)
  {
    assert (h + [e])[..|h|] == h;
  }

  /** A password that an unblocked confirmation finds wrong counts as a failure; a right one changes nothing. */
  lemma {:induction false} ConfirmationCounts(
    s256: string -> string, h: Run, members: seq<Member>, i: nat, password: string, now: nat)
    requires i < |members| && FirstById(members, i, members[i].id)
    ensures var e, name := Event(DoConfirm(members, members[i].id, password), now), Sha256(members[i].username);
            var before, after := StreakOf(s256, h, name), StreakOf(s256, h + [e], name);
            if !IsBlocked(s256, h, members[i].username, now) && !HasPassword(members[i], password)
            then OneMoreFailure(before, after, now, |h|) else after == before
  {
    var e := Event(DoConfirm(members, members[i].id, password), now);
    ConfirmedExactly(s256, h, members, members[i].id, password, now);
    MemberPlaceIsFirst(members, members[i].id);
    StreakAfter(s256, h, e, Sha256(members[i].username));
  }

  /**
    A well-formed, unblocked sign-in with a wrong password counts as a failure of its name;
    one with the right password of an active member forgives them; any other changes nothing.
   */
  lemma {:induction false} SignInCounts(
    s256: string -> string, h: Run, members: seq<Member>, a: Attempt, random: Option<string>, now: nat)
    ensures var e, name := Event(DoAuthorize(members, a, random), now), Sha256(a.username);
            var before, after := StreakOf(s256, h, name), StreakOf(s256, h + [e], name);
            if !WellFormed(a) || IsBlocked(s256, h, a.username, now) then after == before
            else if !KnowsPassword(members, a) then OneMoreFailure(before, after, now, |h|)
            else if NameIsDisabled(members, a.username) then after == before
            else after == None
  {
    AuthorizedExactly(s256, h, members, a, random, now);
    StreakAfter(s256, h, Event(DoAuthorize(members, a, random), now), Sha256(a.username));
  }

  // ----- redeeming and looking up

  /** Some seconds later, on a clock that stops at its last value. */
  function SecondsAfter(now: nat, seconds: nat): (t: nat) {
    if now + seconds <= 0xFFFF_FFFF_FFFF_FFFF then now + seconds else 0xFFFF_FFFF_FFFF_FFFF
  }

  /** An event that presents a code, drops its member's codes, or clears the tables. */
  predicate TakesBack(e: Event, code: string, member: nat) {
    match e.op
    case DoRedeem(_, presented, _, _, _) => presented == code
    case DoRevokeMember(dropped) => dropped == member
    case DoClear => true
    case _ => false
  }

  /** The sign-in at `i` issued a code for a member, and what is presented at `now` answers it. */
  ghost predicate Answers(s256: string -> string, h: Run, i: nat, op: Op, member: nat, now: nat)
    requires op.DoRedeem?
  {
    && i < |h| && h[i].op.DoAuthorize? && CodeIssuedAt(s256, h, i) == Some(op.code)
    && (exists u | 0 <= u < |h[i].op.members| ::
          && FirstByName(h[i].op.members, u, h[i].op.attempt.username)
          && HasPassword(h[i].op.members[u], h[i].op.attempt.password)
          && h[i].op.members[u].id == member)
    && 43 <= |op.verifier| <= 128 && MadeOf(op.verifier, {'-', '.', '_', '~'})
    && h[i].op.attempt.pkce == s256(op.verifier) && h[i].op.attempt.redirect == op.redirect
    && now < SecondsAfter(h[i].now, 60)
    && forall j | i < j < |h| :: !TakesBack(h[j], op.code, member)
  }

  /** The sign-in at `i` left an entry that is good for what is presented. */
  ghost predicate LeftGoodCode(s256: string -> string, h: Run, i: nat, op: Op, member: nat, now: nat)
    requires op.DoRedeem?
  {
    exists c ::
      && CodeKept(s256, h, i, c) && c.hash.text == op.code && c.member == member
      && GoodCode(c, s256, op.verifier, op.redirect, now)
  }

  lemma {:induction false} AnswersIsGood(s256: string -> string, h: Run, i: nat, op: Op, member: nat, now: nat)
    requires op.DoRedeem?
    ensures Answers(s256, h, i, op, member, now) <==> LeftGoodCode(s256, h, i, op, member, now)
  {
    if i < |h| && h[i].op.DoAuthorize? {
      var members, a := h[i].op.members, h[i].op.attempt;
      KnowsExactly(members, a);
      UserPlaceIsFirst(members, a.username);
      if Answers(s256, h, i, op, member, now) {
        var c := NewCode(members, a, op.code, h[i].now);
        assert CodeKept(s256, h, i, c) && GoodCode(c, s256, op.verifier, op.redirect, now);
      }
    }
  }

  lemma {:induction false} RedeemedByEntry(s256: string -> string, h: Run, e: Event, member: nat)
    requires Orderly(h) && e.op.DoRedeem? && e.now >= LastTime(h)
    requires SessionSlot(After(s256, h).sessions, e.now) < MAX_SESSIONS && e.op.random.Some?
    ensures TokenIssued(After(s256, h), s256, e) == Some((e.op.random.value, member)) <==>
            Enabled(e.op.members, member) && exists i :: LeftGoodCode(s256, h, i, e.op, member, e.now)
  {
    RedeemMeaning(s256, h, e, member);
    forall i: nat, c | CodeKept(s256, h, i, c) && c.hash.text == e.op.code && c.member == member
                       && GoodCode(c, s256, e.op.verifier, e.op.redirect, e.now)
      ensures LeftGoodCode(s256, h, i, e.op, member, e.now)
    {
    }
  }

  /**
    A code presented after any orderly run yields a session for a member exactly when that
    member's sign-in issued it and it answers what is presented, the member may still sign
    in, some session slot is free or over, and there is a secret, which is then the token.
   */
  lemma {:induction false} RedeemedExactly(s256: string -> string, h: Run, e: Event, token: string, member: nat)
    requires Orderly(h) && e.op.DoRedeem? && e.now >= LastTime(h)
    ensures var sessions := After(s256, h).sessions;
            TokenIssued(After(s256, h), s256, e) == Some((token, member)) <==>
            && MaySignIn(e.op.members, member)
            && (exists i :: Answers(s256, h, i, e.op, member, e.now))
            && (exists k | 0 <= k < |sessions| :: sessions[k].None? || sessions[k].value.expires <= e.now)
            && e.op.random == Some(token)
  {
    var sessions := After(s256, h).sessions;
    RoomExactly(sessions, e.now);
    if SessionSlot(sessions, e.now) < MAX_SESSIONS && e.op.random.Some? {
      RedeemedByEntry(s256, h, e, member);
      EnabledExactly(e.op.members, member);
      forall i: nat
        ensures Answers(s256, h, i, e.op, member, e.now) <==> LeftGoodCode(s256, h, i, e.op, member, e.now)
      {
        AnswersIsGood(s256, h, i, e.op, member, e.now);
      }
    }
    if TokenIssued(After(s256, h), s256, e).Some? {
      TokenIsSecret(After(s256, h), s256, e);
    }
  }

  lemma TokenIsSecret(t: Tables, s256: string -> string, e: Event)
    requires Sized(t) && TokenIssued(t, s256, e).Some?
    ensures e.op.random == Some(TokenIssued(t, s256, e).value.0)
  {
  }

  lemma {:induction false} RoomExactly(sessions: seq<Option<Session>>, now: nat)
    ensures SessionSlot(sessions, now) < |sessions| <==>
            exists k | 0 <= k < |sessions| :: sessions[k].None? || sessions[k].value.expires <= now
  {
    var slot := SessionSlot(sessions, now);
    forall k | 0 <= k < slot
      ensures !FreeSession(sessions[k], now)
    {
    }
    if slot < |sessions| {
      assert FreeSession(sessions[slot], now);
    }
  }

  /** A redemption at `i` issued a token to a member, for eight hours, and nothing has revoked it since. */
  ghost predicate Admits(s256: string -> string, h: Run, i: nat, token: string, member: nat, now: nat) {
    && i < |h| && TokenIssuedAt(s256, h, i) == Some((token, member))
    && now < SecondsAfter(h[i].now, 28_800)
    && forall j | i < j < |h| ::
         h[j].op != DoRevoke(token) && h[j].op != DoRevokeMember(member) && h[j].op != DoClear
  }

  /** After any orderly run a token is a member's exactly when it admits that member, who may still sign in. */
  lemma {:induction false} LookedUpExactly(
    s256: string -> string, h: Run, members: seq<Member>, token: string, now: nat, member: nat)
    requires Orderly(h) && now >= LastTime(h)
    ensures Lookup(After(s256, h), members, token, now) == Ok(member) <==>
            MaySignIn(members, member) && exists i :: Admits(s256, h, i, token, member, now)
  {
    LookupMeaning(s256, h, members, token, now, member);
    EnabledExactly(members, member);
    forall i: nat | Admits(s256, h, i, token, member, now)
      ensures IssuedAndKept(s256, h, i, token, Grant(member, Later(h[i].now, SESSION_TTL)))
    {
    }
    forall i: nat, g | IssuedAndKept(s256, h, i, token, g) && g.member == member && now < g.expires
      ensures Admits(s256, h, i, token, member, now)
    {
      assert TokenIssuedAt(s256, h, i) == Some((token, member));
    }
  }
}
