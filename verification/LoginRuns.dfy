/** Runs of login operations, and what the sessions and codes of any run mean. */
module LoginRuns {
  import opened Options
  import opened Login

  datatype Op =
    | DoAuthorize(members: seq<Member>, attempt: Attempt, random: Option<string>)
    | DoRedeem(members: seq<Member>, code: string, verifier: string, redirect: string, random: Option<string>)
    | DoConfirm(members: seq<Member>, member: nat, password: string)
    | DoRevoke(token: string)
    | DoRevokeMember(member: nat)
    | DoClear

  datatype Event = Event(op: Op, now: nat)

  type Run = seq<Event>

  function Next(t: Tables, s256: string -> string, e: Event): (after: Tables)
    requires Sized(t)
    ensures Sized(after)
  {
    match e.op
    case DoAuthorize(members, attempt, random) => Authorize(t, members, attempt, random, e.now).0
    case DoRedeem(members, code, verifier, redirect, random) =>
      Redeem(t, s256, members, code, verifier, redirect, random, e.now).0
    case DoConfirm(members, member, password) => ConfirmPassword(t, members, member, password, e.now).0
    case DoRevoke(token) => Revoke(t, token)
    case DoRevokeMember(member) => RevokeMember(t, member)
    case DoClear => NoTables()
  }

  /** The tables after a run that began with empty ones. */
  function After(s256: string -> string, h: Run): (t: Tables)
    ensures Sized(t)
  {
    if h == [] then NoTables() else Next(After(s256, h[..|h| - 1]), s256, h[|h| - 1])
  }

  /** The token and member that an event issues a session for, if it does. */
  function TokenIssued(t: Tables, s256: string -> string, e: Event): (issued: Option<(string, nat)>)
    requires Sized(t)
  {
    if !e.op.DoRedeem? then None
    else
      var r := Redeem(t, s256, e.op.members, e.op.code, e.op.verifier, e.op.redirect, e.op.random, e.now).1;
      if r.Ok? then Some(r.value) else None
  }

  /** The code that an event issues, if it does. */
  function CodeIssued(t: Tables, e: Event): (issued: Option<string>)
    requires Sized(t)
  {
    if !e.op.DoAuthorize? then None
    else
      var r := Authorize(t, e.op.members, e.op.attempt, e.op.random, e.now).1;
      if r.Ok? then Some(r.value) else None
  }

  function TokenIssuedAt(s256: string -> string, h: Run, i: nat): (issued: Option<(string, nat)>)
    requires i < |h|
  {
    TokenIssued(After(s256, h[..i]), s256, h[i])
  }

  function CodeIssuedAt(s256: string -> string, h: Run, i: nat): (issued: Option<string>)
    requires i < |h|
  {
    CodeIssued(After(s256, h[..i]), h[i])
  }

  function SecretOf(e: Event): (secret: Option<string>) {
    match e.op
    case DoAuthorize(_, _, random) => random
    case DoRedeem(_, _, _, _, random) => random
    case _ => None
  }

  /** The clock never goes back, and no secret is drawn twice. */
  ghost predicate Orderly(h: Run) {
    && (forall i, j | 0 <= i < j < |h| :: h[i].now <= h[j].now)
    && (forall i, j | 0 <= i < j < |h| :: SecretOf(h[i]).Some? ==> SecretOf(h[j]) != SecretOf(h[i]))
  }

  function LastTime(h: Run): (now: nat) {
    if h == [] then 0 else h[|h| - 1].now
  }

  lemma OrderlyPrefix(h: Run, n: nat)
    requires Orderly(h) && n <= |h|
    ensures Orderly(h[..n])
  {
  }

  // ----- sessions: a table without limits

  datatype Grant = Grant(member: nat, expires: nat)

  function WithoutMember(m: map<string, Grant>, member: nat): (after: map<string, Grant>) {
    map token | token in m && m[token].member != member :: m[token]
  }

  /** What happens to the sessions of a table that never runs out of slots and never reuses one. */
  function IdealStep(m: map<string, Grant>, issued: Option<(string, nat)>, e: Event): (after: map<string, Grant>) {
    match e.op
    case DoRedeem(_, _, _, _, _) =>
      if issued.Some? then m[issued.value.0 := Grant(issued.value.1, Later(e.now, SESSION_TTL))] else m
    case DoRevoke(token) => m - {token}
    case DoRevokeMember(member) => WithoutMember(m, member)
    case DoClear => map[]
    case _ => m
  }

  /** The sessions issued in a run and not revoked since. */
  function Ideal(s256: string -> string, h: Run): (m: map<string, Grant>) {
    if h == [] then map[]
    else
      var before, e := h[..|h| - 1], h[|h| - 1];
      IdealStep(Ideal(s256, before), TokenIssued(After(s256, before), s256, e), e)
  }

  /** Every slot holds an ideal session, and every ideal session that is not over by `now` has a slot. */
  ghost predicate Simulates(sessions: seq<Option<Session>>, m: map<string, Grant>, now: nat) {
    && (forall i | 0 <= i < |sessions| && sessions[i].Some? ::
          var s := sessions[i].value;
          s.hash.text in m && m[s.hash.text] == Grant(s.member, s.expires))
    && (forall token | token in m && now < m[token].expires ::
          Some(Session(Sha256(token), m[token].member, m[token].expires)) in sessions)
  }

  ghost predicate KeysAreSecrets(m: map<string, Grant>, h: Run) {
    forall token | token in m :: exists i | 0 <= i < |h| :: SecretOf(h[i]) == Some(token)
  }

  lemma StaysIn<T>(s: seq<T>, i: nat, x: T, y: T)
    requires i < |s| && y in s && s[i] != y
    ensures y in s[i := x]
  {
    var k :| 0 <= k < |s| && s[k] == y;
    assert s[i := x][k] == y;
  }

  lemma IssueSimulates(
    sessions: seq<Option<Session>>, m: map<string, Grant>, slot: nat, token: string, g: Grant, now: nat)
    requires Simulates(sessions, m, now) && slot < |sessions| && FreeSession(sessions[slot], now)
    requires token !in m
    ensures Simulates(sessions[slot := Some(Session(Sha256(token), g.member, g.expires))], m[token := g], now)
  {
    var s := Some(Session(Sha256(token), g.member, g.expires));
    var after, grown := sessions[slot := s], m[token := g];
    assert after[slot] == s;
    forall other | other in grown && now < grown[other].expires
      ensures Some(Session(Sha256(other), grown[other].member, grown[other].expires)) in after
    {
      if other != token {
        StaysIn(sessions, slot, s, Some(Session(Sha256(other), m[other].member, m[other].expires)));
      }
    }
  }

  lemma DropSimulates(
    sessions: seq<Option<Session>>, m: map<string, Grant>, after: seq<Option<Session>>, left: map<string, Grant>,
    now: nat)
    requires Simulates(sessions, m, now) && |after| == |sessions|
    requires forall token :: token in left ==> token in m && left[token] == m[token]
    requires forall i | 0 <= i < |sessions| ::
               after[i] == if sessions[i].Some? && sessions[i].value.hash.text !in left then None else sessions[i]
    ensures Simulates(after, left, now)
  {
    forall token | token in left && now < left[token].expires
      ensures Some(Session(Sha256(token), left[token].member, left[token].expires)) in after
    {
      var s := Some(Session(Sha256(token), m[token].member, m[token].expires));
      var k :| 0 <= k < |sessions| && sessions[k] == s;
      assert after[k] == s;
    }
  }

  lemma LaterSimulates(sessions: seq<Option<Session>>, m: map<string, Grant>, now: nat, later: nat)
    requires Simulates(sessions, m, now) && now <= later
    ensures Simulates(sessions, m, later)
  {
  }

  lemma RedeemOutcome(t: Tables, s256: string -> string, e: Event)
    requires Sized(t) && e.op.DoRedeem?
    ensures var issued, after := TokenIssued(t, s256, e), Next(t, s256, e);
            if issued.None? then after.sessions == t.sessions
            else
              var slot := SessionSlot(t.sessions, e.now);
              && slot < |t.sessions| && FreeSession(t.sessions[slot], e.now)
              && SecretOf(e) == Some(issued.value.0)
              && after.sessions == t.sessions[slot := Some(
                   Session(Sha256(issued.value.0), issued.value.1, Later(e.now, SESSION_TTL)))]
  {
  }

  lemma RevokeSimulates(sessions: seq<Option<Session>>, m: map<string, Grant>, token: string, now: nat)
    requires Simulates(sessions, m, now)
    ensures Simulates(DropToken(sessions, Sha256(token)), m - {token}, now)
  {
    DropSimulates(sessions, m, DropToken(sessions, Sha256(token)), m - {token}, now);
  }

  lemma RevokeMemberSimulates(sessions: seq<Option<Session>>, m: map<string, Grant>, member: nat, now: nat)
    requires Simulates(sessions, m, now)
    ensures Simulates(DropMember(sessions, member), WithoutMember(m, member), now)
  {
    DropSimulates(sessions, m, DropMember(sessions, member), WithoutMember(m, member), now);
  }

  lemma StepSimulates(t: Tables, s256: string -> string, e: Event, m: map<string, Grant>)
    requires Sized(t) && Simulates(t.sessions, m, e.now)
    requires var issued := TokenIssued(t, s256, e); issued.Some? ==> issued.value.0 !in m
    ensures Simulates(Next(t, s256, e).sessions, IdealStep(m, TokenIssued(t, s256, e), e), e.now)
  {
    match e.op
    case DoRedeem(_, _, _, _, _) =>
      RedeemOutcome(t, s256, e);
      var issued := TokenIssued(t, s256, e);
      if issued.Some? {
        IssueSimulates(t.sessions, m, SessionSlot(t.sessions, e.now), issued.value.0,
                       Grant(issued.value.1, Later(e.now, SESSION_TTL)), e.now);
      }
    case DoRevoke(token) => RevokeSimulates(t.sessions, m, token, e.now);
    case DoRevokeMember(member) => RevokeMemberSimulates(t.sessions, m, member, e.now);
    case _ =>
  }

  lemma IssuedIsSecret(t: Tables, s256: string -> string, e: Event)
    requires Sized(t) && TokenIssued(t, s256, e).Some?
    ensures SecretOf(e) == Some(TokenIssued(t, s256, e).value.0)
  {
    RedeemOutcome(t, s256, e);
  }

  /** The fixed table behaves as one without limits: reusing a slot never loses a session that is not over. */
  lemma {:induction false} TableSimulatesIdeal(s256: string -> string, h: Run)
    requires Orderly(h)
    ensures Simulates(After(s256, h).sessions, Ideal(s256, h), LastTime(h))
    ensures KeysAreSecrets(Ideal(s256, h), h)
  {
    if h != [] {
      var before, e := h[..|h| - 1], h[|h| - 1];
      OrderlyPrefix(h, |h| - 1);
      TableSimulatesIdeal(s256, before);
      var t, m := After(s256, before), Ideal(s256, before);
      var issued := TokenIssued(t, s256, e);
      LaterSimulates(t.sessions, m, LastTime(before), e.now);
      if issued.Some? {
        IssuedIsSecret(t, s256, e);
        FreshToken(m, h, issued.value.0);
      }
      StepSimulates(t, s256, e, m);
      KeysStaySecrets(m, Ideal(s256, h), h, issued);
    }
  }

  lemma FreshToken(m: map<string, Grant>, h: Run, token: string)
    requires h != [] && Orderly(h) && KeysAreSecrets(m, h[..|h| - 1]) && SecretOf(h[|h| - 1]) == Some(token)
    ensures token !in m
  {
    assert forall i | 0 <= i < |h| - 1 :: h[..|h| - 1][i] == h[i];
  }

  lemma KeysStaySecrets(m: map<string, Grant>, after: map<string, Grant>, h: Run, issued: Option<(string, nat)>)
    requires h != [] && KeysAreSecrets(m, h[..|h| - 1])
    requires issued.Some? ==> SecretOf(h[|h| - 1]) == Some(issued.value.0)
    requires forall token :: token in after ==> token in m || (issued.Some? && token == issued.value.0)
    ensures KeysAreSecrets(after, h)
  {
    forall token | token in after
      ensures exists i | 0 <= i < |h| :: SecretOf(h[i]) == Some(token)
    {
      if token in m {
        var i :| 0 <= i < |h[..|h| - 1]| && SecretOf(h[..|h| - 1][i]) == Some(token);
        assert SecretOf(h[i]) == Some(token);
      } else {
        assert SecretOf(h[|h| - 1]) == Some(token);
      }
    }
  }

  // ----- what the ideal sessions mean

  /** Whether an event takes a member's session away. */
  predicate Revokes(e: Event, token: string, member: nat) {
    match e.op
    case DoRevoke(revoked) => revoked == token
    case DoRevokeMember(revoked) => revoked == member
    case DoClear => true
    case _ => false
  }

  /** A session was issued at `i` and has not been revoked since. */
  ghost predicate IssuedAndKept(s256: string -> string, h: Run, i: nat, token: string, g: Grant) {
    && i < |h|
    && TokenIssuedAt(s256, h, i) == Some((token, g.member))
    && g.expires == Later(h[i].now, SESSION_TTL)
    && forall j | i < j < |h| :: !Revokes(h[j], token, g.member)
  }

  lemma KeptInPrefix(s256: string -> string, h: Run, i: nat, token: string, g: Grant)
    requires h != [] && i < |h| - 1
    ensures IssuedAndKept(s256, h, i, token, g) <==>
            IssuedAndKept(s256, h[..|h| - 1], i, token, g) && !Revokes(h[|h| - 1], token, g.member)
  {
    var before := h[..|h| - 1];
    assert before[..i] == h[..i];
    if IssuedAndKept(s256, before, i, token, g) && !Revokes(h[|h| - 1], token, g.member) {
      forall j | i < j < |h|
        ensures !Revokes(h[j], token, g.member)
      {
        assert j < |before| ==> before[j] == h[j];
      }
    }
  }

  /** A session that an event leaves and did not issue was there before, and the event does not revoke it. */
  lemma IdealStepBack(m: map<string, Grant>, issued: Option<(string, nat)>, e: Event, token: string)
    requires token in IdealStep(m, issued, e)
    requires !(e.op.DoRedeem? && issued.Some? && issued.value.0 == token)
    ensures token in m && IdealStep(m, issued, e)[token] == m[token] && !Revokes(e, token, m[token].member)
  {
  }

  lemma {:induction false} IssuedLast(s256: string -> string, h: Run, token: string)
    requires h != [] && token in Ideal(s256, h) && h[|h| - 1].op.DoRedeem?
    requires TokenIssuedAt(s256, h, |h| - 1).Some? && TokenIssuedAt(s256, h, |h| - 1).value.0 == token
    ensures IssuedAndKept(s256, h, |h| - 1, token, Ideal(s256, h)[token])
  {
  }

  lemma IdealToHistory(s256: string -> string, h: Run, token: string) returns (i: nat)
    requires Orderly(h) && token in Ideal(s256, h)
    ensures IssuedAndKept(s256, h, i, token, Ideal(s256, h)[token])
  {
    var n := |h| - 1;
    var issued := TokenIssuedAt(s256, h, n);
    if issued.Some? && issued.value.0 == token && h[n].op.DoRedeem? {
      IssuedLast(s256, h, token);
      i := n;
    } else {
      OrderlyPrefix(h, n);
      IdealStepBack(Ideal(s256, h[..n]), issued, h[n], token);
      i := IdealToHistory(s256, h[..n], token);
      KeptInPrefix(s256, h, i, token, Ideal(s256, h)[token]);
    }
  }

  lemma IdealStepKeeps(m: map<string, Grant>, issued: Option<(string, nat)>, e: Event, token: string)
    requires token in m && !Revokes(e, token, m[token].member)
    requires issued.Some? ==> issued.value.0 != token
    ensures token in IdealStep(m, issued, e) && IdealStep(m, issued, e)[token] == m[token]
  {
  }

  lemma LaterTokenDiffers(s256: string -> string, h: Run, i: nat, k: nat, token: string, member: nat)
    requires Orderly(h) && i < k < |h| && TokenIssuedAt(s256, h, i) == Some((token, member))
    ensures TokenIssuedAt(s256, h, k).Some? ==> TokenIssuedAt(s256, h, k).value.0 != token
  {
    IssuedIsSecret(After(s256, h[..i]), s256, h[i]);
    if TokenIssuedAt(s256, h, k).Some? {
      IssuedIsSecret(After(s256, h[..k]), s256, h[k]);
    }
  }

  lemma {:induction false} HistoryToIdeal(s256: string -> string, h: Run, i: nat, token: string, g: Grant)
    requires Orderly(h) && IssuedAndKept(s256, h, i, token, g)
    ensures token in Ideal(s256, h) && Ideal(s256, h)[token] == g
    decreases |h|
  {
    var n := |h| - 1;
    if i < n {
      var before := h[..n];
      KeptInPrefix(s256, h, i, token, g);
      OrderlyPrefix(h, n);
      HistoryToIdeal(s256, before, i, token, g);
      LaterTokenDiffers(s256, h, i, n, token, g.member);
      IdealStepKeeps(Ideal(s256, before), TokenIssuedAt(s256, h, n), h[n], token);
    }
  }

  /** Looking a token up finds the ideal session's member, as long as it is not over and the member may sign in. */
  lemma LookupIdeal(t: Tables, m: map<string, Grant>, members: seq<Member>, token: string, now: nat, member: nat)
    requires Simulates(t.sessions, m, now)
    ensures Lookup(t, members, token, now) == Ok(member) <==>
            token in m && m[token].member == member && now < m[token].expires && Enabled(members, member)
  {
    var i := SessionPlace(t.sessions, Sha256(token), now);
    if token in m && now < m[token].expires {
      var s := Some(Session(Sha256(token), m[token].member, m[token].expires));
      var k :| 0 <= k < |t.sessions| && t.sessions[k] == s;
      assert IsLive(t.sessions[k], Sha256(token), now);
      assert i <= k;
    }
  }

  /** A redemption issued the token to a member, it is not over or revoked, and the member may still sign in. */
  ghost predicate SignedInAs(
    s256: string -> string, h: Run, members: seq<Member>, token: string, now: nat, member: nat)
  {
    && Enabled(members, member)
    && exists i, g :: IssuedAndKept(s256, h, i, token, g) && g.member == member && now < g.expires
  }

  /**
    The main result for sessions: at any time after any orderly run, a token is a member's
    exactly when some redemption issued it to that member, it is not over, nothing revoked
    it since, and the member may still sign in.
   */
  lemma {:induction false} LookupMeaning(
    s256: string -> string, h: Run, members: seq<Member>, token: string, now: nat, member: nat)
    requires Orderly(h) && now >= LastTime(h)
    ensures Lookup(After(s256, h), members, token, now) == Ok(member) <==>
            SignedInAs(s256, h, members, token, now, member)
  {
    TableSimulatesIdeal(s256, h);
    var t, m := After(s256, h), Ideal(s256, h);
    LaterSimulates(t.sessions, m, LastTime(h), now);
    LookupIdeal(t, m, members, token, now, member);
    if token in m {
      var i := IdealToHistory(s256, h, token);
    }
    forall i, g | IssuedAndKept(s256, h, i, token, g)
      ensures token in m && m[token] == g
    {
      HistoryToIdeal(s256, h, i, token, g);
    }
  }

  // ----- codes

  /** Whether an event presents a code. */
  predicate Presents(e: Event, code: string) {
    e.op.DoRedeem? && e.op.code == code
  }

  /** Whether an event takes a code away: it is presented, or its member's codes are dropped. */
  predicate Withdraws(e: Event, c: Code) {
    Presents(e, c.hash.text) || e.op == DoRevokeMember(c.member) || e.op == DoClear
  }

  /** An entry was issued at `i`, for what was presented there, and nothing has withdrawn it since. */
  ghost predicate CodeKept(s256: string -> string, h: Run, i: nat, c: Code) {
    && i < |h|
    && CodeIssuedAt(s256, h, i) == Some(c.hash.text)
    && h[i].op.DoAuthorize?
    && RightPassword(h[i].op.members, h[i].op.attempt)
    && c == NewCode(h[i].op.members, h[i].op.attempt, c.hash.text, h[i].now)
    && forall j | i < j < |h| :: !Withdraws(h[j], c)
  }

  ghost predicate CodesKept(s256: string -> string, h: Run, codes: seq<Option<Code>>) {
    && (forall k | 0 <= k < |codes| && codes[k].Some? :: exists i :: CodeKept(s256, h, i, codes[k].value))
    && DistinctHashes(codes)
  }

  ghost predicate DistinctHashes(codes: seq<Option<Code>>) {
    forall k, l | 0 <= k < l < |codes| && codes[k].Some? && codes[l].Some? ::
      codes[k].value.hash != codes[l].value.hash
  }

  lemma AuthorizeOutcome(t: Tables, s256: string -> string, e: Event)
    requires Sized(t) && e.op.DoAuthorize?
    ensures var issued, after := CodeIssued(t, e), Next(t, s256, e);
            if issued.None? then after.codes == t.codes
            else
              var slot := CodeSlot(t.codes, e.now);
              && slot < |t.codes|
              && SecretOf(e) == issued
              && RightPassword(e.op.members, e.op.attempt)
              && after.codes ==
                 t.codes[slot := Some(NewCode(e.op.members, e.op.attempt, issued.value, e.now))]
  {
  }

  lemma RedeemTakesCode(t: Tables, s256: string -> string, e: Event)
    requires Sized(t) && e.op.DoRedeem?
    ensures var i, after := CodePlace(t.codes, Sha256(e.op.code)), Next(t, s256, e);
            after.codes == if i == |t.codes| then t.codes else t.codes[i := None]
  {
  }

  lemma CodeKeptOneMore(s256: string -> string, h: Run, i: nat, c: Code)
    requires h != [] && CodeKept(s256, h[..|h| - 1], i, c) && !Withdraws(h[|h| - 1], c)
    ensures CodeKept(s256, h, i, c)
  {
    var before := h[..|h| - 1];
    assert before[..i] == h[..i];
    forall j | i < j < |h|
      ensures !Withdraws(h[j], c)
    {
      assert j < |before| ==> before[j] == h[j];
    }
  }

  lemma CodesKeptOneMore(s256: string -> string, h: Run, codes: seq<Option<Code>>, after: seq<Option<Code>>)
    requires h != [] && CodesKept(s256, h[..|h| - 1], codes) && |after| == |codes|
    requires forall k | 0 <= k < |codes| && after[k].Some? ::
               after[k] == codes[k] && !Withdraws(h[|h| - 1], after[k].value)
    ensures CodesKept(s256, h, after)
  {
    forall k | 0 <= k < |after| && after[k].Some?
      ensures exists i :: CodeKept(s256, h, i, after[k].value)
    {
      var i :| CodeKept(s256, h[..|h| - 1], i, codes[k].value);
      CodeKeptOneMore(s256, h, i, codes[k].value);
    }
  }

  /** A code issued earlier has another hash than a code issued now. */
  lemma FreshCode(s256: string -> string, h: Run, earlier: Code, c: Code, i: nat)
    requires h != [] && Orderly(h) && CodeKept(s256, h[..|h| - 1], i, earlier)
    requires SecretOf(h[|h| - 1]) == Some(c.hash.text)
    ensures earlier.hash != c.hash
  {
    var before := h[..|h| - 1];
    AuthorizeOutcome(After(s256, before[..i]), s256, before[i]);
    assert before[i] == h[i];
  }

  lemma CodeIssueKept(s256: string -> string, h: Run, codes: seq<Option<Code>>, slot: nat, c: Code)
    requires h != [] && Orderly(h) && CodesKept(s256, h[..|h| - 1], codes) && slot < |codes|
    requires h[|h| - 1].op.DoAuthorize? && CodeKept(s256, h, |h| - 1, c)
    requires SecretOf(h[|h| - 1]) == Some(c.hash.text)
    ensures CodesKept(s256, h, codes[slot := Some(c)])
  {
    var freed, after := codes[slot := None], codes[slot := Some(c)];
    CodesKeptOneMore(s256, h, codes, freed);
    forall k | 0 <= k < |codes| && k != slot && codes[k].Some?
      ensures codes[k].value.hash != c.hash
    {
      var i :| CodeKept(s256, h[..|h| - 1], i, codes[k].value);
      FreshCode(s256, h, codes[k].value, c, i);
    }
    assert forall k | 0 <= k < |codes| && k != slot :: after[k] == freed[k] == codes[k];
  }

  lemma OthersKeepCodes(t: Tables, s256: string -> string, e: Event)
    requires Sized(t) && !e.op.DoAuthorize? && !e.op.DoRedeem?
    ensures forall k | 0 <= k < |t.codes| ::
              Next(t, s256, e).codes[k] ==
              if t.codes[k].Some? && Withdraws(e, t.codes[k].value) then None else t.codes[k]
  {
  }

  lemma {:induction false} CodesAfterAuthorize(s256: string -> string, h: Run)
    requires h != [] && Orderly(h) && h[|h| - 1].op.DoAuthorize?
    requires CodesKept(s256, h[..|h| - 1], After(s256, h[..|h| - 1]).codes)
    ensures CodesKept(s256, h, After(s256, h).codes)
  {
    var before, e := h[..|h| - 1], h[|h| - 1];
    var t := After(s256, before);
    AuthorizeOutcome(t, s256, e);
    var issued := CodeIssued(t, e);
    if issued.Some? {
      var c := NewCode(e.op.members, e.op.attempt, issued.value, e.now);
      CodeIssueKept(s256, h, t.codes, CodeSlot(t.codes, e.now), c);
    } else {
      CodesKeptOneMore(s256, h, t.codes, t.codes);
    }
  }

  lemma RedeemLeavesOthers(t: Tables, s256: string -> string, e: Event)
    requires Sized(t) && e.op.DoRedeem? && DistinctHashes(t.codes)
    ensures forall k | 0 <= k < |t.codes| && Next(t, s256, e).codes[k].Some? ::
              Next(t, s256, e).codes[k] == t.codes[k] && !Withdraws(e, t.codes[k].value)
  {
    RedeemTakesCode(t, s256, e);
  }

  lemma {:induction false} CodesAfterOthers(s256: string -> string, h: Run)
    requires h != [] && Orderly(h) && !h[|h| - 1].op.DoAuthorize?
    requires CodesKept(s256, h[..|h| - 1], After(s256, h[..|h| - 1]).codes)
    ensures CodesKept(s256, h, After(s256, h).codes)
  {
    var before, e := h[..|h| - 1], h[|h| - 1];
    var t := After(s256, before);
    if e.op.DoRedeem? {
      RedeemLeavesOthers(t, s256, e);
    } else {
      OthersKeepCodes(t, s256, e);
    }
    CodesKeptOneMore(s256, h, t.codes, Next(t, s256, e).codes);
  }

  /** Every entry of the code table is a code issued earlier and not withdrawn since. */
  lemma {:induction false} CodeTableMeaning(s256: string -> string, h: Run)
    requires Orderly(h)
    ensures CodesKept(s256, h, After(s256, h).codes)
  {
    if h != [] {
      OrderlyPrefix(h, |h| - 1);
      CodeTableMeaning(s256, h[..|h| - 1]);
      if h[|h| - 1].op.DoAuthorize? {
        CodesAfterAuthorize(s256, h);
      } else {
        CodesAfterOthers(s256, h);
      }
    }
  }

  lemma KeptInPrefixToo(s256: string -> string, h: Run, i: nat, c: Code)
    requires h != [] && i < |h| - 1 && CodeKept(s256, h, i, c)
    ensures CodeKept(s256, h[..|h| - 1], i, c)
  {
    var before := h[..|h| - 1];
    assert before[..i] == h[..i];
    assert forall j | i < j < |before| :: before[j] == h[j];
  }

  /** One more event leaves a code in the table unless it withdraws it or the code is over. */
  lemma CodeStays(t: Tables, s256: string -> string, e: Event, k: nat)
    requires Sized(t) && k < |t.codes| && t.codes[k].Some?
    requires !Withdraws(e, t.codes[k].value) && e.now < t.codes[k].value.expires
    ensures Next(t, s256, e).codes[k] == t.codes[k]
  {
    if e.op.DoAuthorize? {
      AuthorizeOutcome(t, s256, e);
    } else if e.op.DoRedeem? {
      RedeemTakesCode(t, s256, e);
    } else {
      OthersKeepCodes(t, s256, e);
    }
  }

  lemma {:induction false} IssuedIsThere(s256: string -> string, h: Run, c: Code)
    requires h != [] && CodeKept(s256, h, |h| - 1, c)
    ensures Some(c) in After(s256, h).codes
  {
    var t, e := After(s256, h[..|h| - 1]), h[|h| - 1];
    AuthorizeOutcome(t, s256, e);
    assert After(s256, h).codes[CodeSlot(t.codes, e.now)] == Some(c);
  }

  /** A code that is neither withdrawn nor over is in the table: its slot was not reused. */
  lemma {:induction false} KeptCodeIsThere(s256: string -> string, h: Run, i: nat, c: Code)
    requires Orderly(h) && CodeKept(s256, h, i, c) && LastTime(h) < c.expires
    ensures Some(c) in After(s256, h).codes
    decreases |h|
  {
    var n := |h| - 1;
    if i == n {
      IssuedIsThere(s256, h, c);
    } else {
      var t := After(s256, h[..n]);
      OrderlyPrefix(h, n);
      KeptInPrefixToo(s256, h, i, c);
      KeptCodeIsThere(s256, h[..n], i, c);
      var k :| 0 <= k < |t.codes| && t.codes[k] == Some(c);
      CodeStays(t, s256, h[n], k);
    }
  }

  /** What a successful redemption had in front of it. */
  lemma RedeemedCode(t: Tables, s256: string -> string, e: Event)
    requires Sized(t) && TokenIssued(t, s256, e).Some?
    ensures var i := CodePlace(t.codes, Sha256(e.op.code));
            && i < |t.codes|
            && t.codes[i].value.hash == Sha256(e.op.code)
            && t.codes[i].value.member == TokenIssued(t, s256, e).value.1
            && GoodCode(t.codes[i].value, s256, e.op.verifier, e.op.redirect, e.now)
            && Enabled(e.op.members, t.codes[i].value.member)
  {
  }

  /** The sign-in that a session goes back to. */
  ghost predicate SignedIn(s256: string -> string, h: Run, i: nat, k: nat) {
    && i < k < |h| && h[i].op.DoAuthorize? && h[k].op.DoRedeem?
    && var a := h[i].op.attempt;
       && RightPassword(h[i].op.members, a)
       && CodeIssuedAt(s256, h, i) == Some(h[k].op.code)
       && TokenIssuedAt(s256, h, k).Some?
       && TokenIssuedAt(s256, h, k).value.1 == h[i].op.members[UserPlace(h[i].op.members, a.username)].id
       && a.pkce == s256(h[k].op.verifier)
       && a.redirect == h[k].op.redirect
       && h[k].now < Later(h[i].now, CODE_TTL)
       && forall j | i < j < k :: !Presents(h[j], h[k].op.code)
  }

  lemma {:induction false} EntryWasSignIn(s256: string -> string, h: Run, i: nat, k: nat, c: Code)
    requires k < |h| && CodeKept(s256, h[..k], i, c) && h[k].op.DoRedeem? && c.hash == Sha256(h[k].op.code)
    requires TokenIssuedAt(s256, h, k).Some? && TokenIssuedAt(s256, h, k).value.1 == c.member
    requires GoodCode(c, s256, h[k].op.verifier, h[k].op.redirect, h[k].now)
    ensures SignedIn(s256, h, i, k)
  {
    assert h[..k][..i] == h[..i];
    forall j | i < j < k
      ensures !Presents(h[j], h[k].op.code)
    {
      assert !Withdraws(h[..k][j], c);
    }
  }

  /**
    Every session of an orderly run goes back to one earlier check of the same member's
    password, less than a minute before, with the matching challenge and redirect, whose
    code was presented for the first time.
   */
  lemma SessionHasSignIn(s256: string -> string, h: Run, k: nat) returns (i: nat)
    requires Orderly(h) && k < |h| && TokenIssuedAt(s256, h, k).Some?
    ensures SignedIn(s256, h, i, k)
  {
    var before := h[..k];
    OrderlyPrefix(h, k);
    CodeTableMeaning(s256, before);
    var t := After(s256, before);
    RedeemedCode(t, s256, h[k]);
    var place := CodePlace(t.codes, Sha256(h[k].op.code));
    i :| CodeKept(s256, before, i, t.codes[place].value);
    EntryWasSignIn(s256, h, i, k, t.codes[place].value);
  }

  /** What a redemption answers, from the entry it finds. */
  lemma RedeemAnswer(t: Tables, s256: string -> string, e: Event, c: Code)
    requires Sized(t) && e.op.DoRedeem? && CodePlace(t.codes, Sha256(e.op.code)) < |t.codes|
    requires t.codes[CodePlace(t.codes, Sha256(e.op.code))] == Some(c)
    requires GoodCode(c, s256, e.op.verifier, e.op.redirect, e.now) && Enabled(e.op.members, c.member)
    requires SessionSlot(t.sessions, e.now) < |t.sessions| && e.op.random.Some?
    ensures TokenIssued(t, s256, e) == Some((e.op.random.value, c.member))
  {
  }

  /**
    The main result for codes: with a free slot and a secret to hand, presenting a code
    after any orderly run yields a session for a member exactly when an earlier sign-in of
    that member issued the code, nothing withdrew it since, less than a minute has passed,
    challenge and redirect match, and the member may still sign in.
   */
  lemma {:induction false} RedeemMeaning(s256: string -> string, h: Run, e: Event, member: nat)
    requires Orderly(h) && e.op.DoRedeem? && e.now >= LastTime(h)
    requires SessionSlot(After(s256, h).sessions, e.now) < MAX_SESSIONS && e.op.random.Some?
    ensures TokenIssued(After(s256, h), s256, e) == Some((e.op.random.value, member)) <==>
            && Enabled(e.op.members, member)
            && exists i, c ::
                 && CodeKept(s256, h, i, c) && c.hash.text == e.op.code && c.member == member
                 && GoodCode(c, s256, e.op.verifier, e.op.redirect, e.now)
  {
    CodeTableMeaning(s256, h);
    var t := After(s256, h);
    var place := CodePlace(t.codes, Sha256(e.op.code));
    if TokenIssued(t, s256, e) == Some((e.op.random.value, member)) {
      RedeemedCode(t, s256, e);
      var i :| CodeKept(s256, h, i, t.codes[place].value);
    }
    forall i, c | CodeKept(s256, h, i, c) && c.hash.text == e.op.code && c.member == member
                  && GoodCode(c, s256, e.op.verifier, e.op.redirect, e.now) && Enabled(e.op.members, member)
      ensures TokenIssued(t, s256, e) == Some((e.op.random.value, member))
    {
      KeptCodeIsThere(s256, h, i, c);
      OnlyPlace(t.codes, c);
      RedeemAnswer(t, s256, e, c);
    }
  }

  lemma OnlyPlace(codes: seq<Option<Code>>, c: Code)
    requires Some(c) in codes
    requires DistinctHashes(codes)
    ensures CodePlace(codes, c.hash) < |codes| && codes[CodePlace(codes, c.hash)] == Some(c)
  {
    var k :| 0 <= k < |codes| && codes[k] == Some(c);
    assert IsCode(codes[k], c.hash);
  }

  /** A code yields at most one session in any orderly run, whatever else is tried with it. */
  lemma OneSessionPerCode(s256: string -> string, h: Run, k: nat, l: nat)
    requires Orderly(h) && k < |h| && l < |h|
    requires TokenIssuedAt(s256, h, k).Some? && TokenIssuedAt(s256, h, l).Some?
    requires h[k].op.DoRedeem? && h[l].op.DoRedeem? && h[k].op.code == h[l].op.code
    ensures k == l
  {
    var i := SessionHasSignIn(s256, h, k);
    var j := SessionHasSignIn(s256, h, l);
    AuthorizeOutcome(After(s256, h[..i]), s256, h[i]);
    AuthorizeOutcome(After(s256, h[..j]), s256, h[j]);
    assert SecretOf(h[i]) == SecretOf(h[j]) == Some(h[k].op.code);
    assert i == j;
    assert Presents(h[k], h[l].op.code) && Presents(h[l], h[k].op.code);
  }

  /** After a code has been presented once, even in vain, it never yields a session. */
  lemma PresentedCodeIsSpent(s256: string -> string, h: Run, i: nat, j: nat, k: nat)
    requires Orderly(h) && i < j < k < |h|
    requires CodeIssuedAt(s256, h, i).Some? && h[i].op.DoAuthorize?
    requires Presents(h[j], CodeIssuedAt(s256, h, i).value) && Presents(h[k], CodeIssuedAt(s256, h, i).value)
    ensures TokenIssuedAt(s256, h, k).None?
  {
    if TokenIssuedAt(s256, h, k).Some? {
      var first := SessionHasSignIn(s256, h, k);
      AuthorizeOutcome(After(s256, h[..i]), s256, h[i]);
      AuthorizeOutcome(After(s256, h[..first]), s256, h[first]);
      assert false;
    }
  }
}
