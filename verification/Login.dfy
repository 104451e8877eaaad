/**
  The login tables: one-use codes, sessions and failed attempts in fixed arrays.

  The functions here say what each operation leaves and answers. The digest is idealised
  as injective, a password verifier as accepting one password, and random secrets are
  parameters, absent when the random source fails.
 */
module Login {
  import opened Options
  import opened Collections
  import opened Limits

  const SESSION_TTL := 28_800
  const CODE_TTL := 60
  const LOCKOUT := 300
  const MAX_SESSIONS := 64
  const MAX_CODES := 16
  const MAX_FAILURES := 64
  const PASSWORD_ROUNDS := 1000

  datatype Error =
    | InvalidInput | Unauthorized | NotFound | Capacity | InvalidCredentials | Disabled | RateLimited | Unavailable

  datatype Digest = Sha256(text: string)

  datatype Verifier = Verifier(password: string, rounds: nat)
  {
    predicate Accepts(attempt: string) {
      rounds == PASSWORD_ROUNDS && attempt == password
    }
  }

  datatype Member = Member(id: nat, username: string, password: Option<Verifier>, disabled: bool)

  datatype Session = Session(hash: Digest, member: nat, expires: nat)
  datatype Code = Code(hash: Digest, challenge: Digest, redirect: Digest, member: nat, expires: nat)
  datatype Failure = Failure(username: Digest, count: nat, until: nat)

  datatype Tables = Tables(
    sessions: seq<Option<Session>>, codes: seq<Option<Code>>, failures: seq<Option<Failure>>)

  predicate Sized(t: Tables) {
    |t.sessions| == MAX_SESSIONS && |t.codes| == MAX_CODES && |t.failures| == MAX_FAILURES
  }

  function Empty<T>(n: nat): (slots: seq<Option<T>>)
    ensures |slots| == n && forall i | 0 <= i < n :: slots[i].None?
  {
    seq(n, _ => None)
  }

  function NoTables(): (t: Tables)
    ensures Sized(t)
  {
    Tables(Empty(MAX_SESSIONS), Empty(MAX_CODES), Empty(MAX_FAILURES))
  }

  /** A time some seconds later, on a clock that stops at its last value. */
  function Later(now: nat, seconds: nat): (t: nat) {
    if now + seconds <= MAX_U64 then now + seconds else MAX_U64
  }

  // ----- members

  function MemberPlace(members: seq<Member>, id: nat): (i: nat)
    ensures i <= |members|
    ensures i < |members| ==> members[i].id == id
  {
    Place(members, (m: Member) => m.id == id)
  }

  /** The first member with a name and a password. */
  function UserPlace(members: seq<Member>, username: string): (i: nat)
    ensures i <= |members|
    ensures i < |members| ==> members[i].username == username && members[i].password.Some?
  {
    Place(members, (m: Member) => m.username == username && m.password.Some?)
  }

  /** A member that may sign in: there, not disabled, with a password. */
  predicate Enabled(members: seq<Member>, id: nat) {
    var i := MemberPlace(members, id);
    i < |members| && !members[i].disabled && members[i].password.Some?
  }

  // ----- failed attempts

  predicate IsFailureOf(f: Option<Failure>, username: Digest) {
    f.Some? && f.value.username == username
  }

  predicate Blocked(failures: seq<Option<Failure>>, username: Digest, now: nat) {
    exists i | 0 <= i < |failures| ::
      IsFailureOf(failures[i], username) && failures[i].value.count >= 5 && now < failures[i].value.until
  }

  function FailurePlace(failures: seq<Option<Failure>>, username: Digest): (i: nat)
    ensures i <= |failures|
    ensures i < |failures| ==> IsFailureOf(failures[i], username)
    ensures forall k | 0 <= k < i :: !IsFailureOf(failures[k], username)
  {
    Place(failures, (f: Option<Failure>) => IsFailureOf(f, username))
  }

  function UntilOf(f: Option<Failure>): (until: nat) {
    if f.None? then 0 else f.value.until
  }

  /** The slot whose window ends first, empty slots before all; the first of these. */
  function OldestFailure(failures: seq<Option<Failure>>): (i: nat)
    requires failures != []
    ensures i < |failures|
    ensures forall k | 0 <= k < |failures| :: UntilOf(failures[i]) <= UntilOf(failures[k])
    ensures forall k | 0 <= k < i :: UntilOf(failures[i]) < UntilOf(failures[k])
  {
    if |failures| == 1 then 0
    else
      var rest := failures[1..];
      var i := OldestFailure(rest);
      assert forall k | 1 <= k < |failures| :: failures[k] == rest[k - 1];
      if UntilOf(failures[0]) <= UntilOf(rest[i]) then 0 else i + 1
  }

  /** The slot a failed attempt goes to. */
  function FailureSlot(failures: seq<Option<Failure>>, username: Digest): (i: nat)
    requires failures != []
    ensures i < |failures|
  {
    var matching := FailurePlace(failures, username);
    if matching < |failures| then matching else OldestFailure(failures)
  }

  function NextCount(f: Option<Failure>, username: Digest, now: nat): (count: nat) {
    if IsFailureOf(f, username) && now < f.value.until then if f.value.count + 1 < 5 then f.value.count + 1 else 5
    else 1
  }

  function RecordFailure(failures: seq<Option<Failure>>, username: Digest, now: nat): (after: seq<Option<Failure>>)
    requires failures != []
    ensures |after| == |failures|
  {
    var i := FailureSlot(failures, username);
    failures[i := Some(Failure(username, NextCount(failures[i], username, now), Later(now, LOCKOUT)))]
  }

  function ForgetFailures(failures: seq<Option<Failure>>, username: Digest): (after: seq<Option<Failure>>)
    ensures |after| == |failures|
    ensures forall i | 0 <= i < |failures| ::
              after[i] == if IsFailureOf(failures[i], username) then None else failures[i]
  {
    seq(|failures|, i requires 0 <= i < |failures| => if IsFailureOf(failures[i], username) then None else failures[i])
  }

  // ----- codes

  predicate IsAlphanumeric(c: char) {
    '0' <= c <= '9' || 'a' <= c <= 'z' || 'A' <= c <= 'Z'
  }

  /** A well-formed challenge method, challenge and redirect. */
  predicate ValidRequest(pkce: string, codeMethod: string, redirect: string) {
    && codeMethod == "S256"
    && |pkce| == 43 && (forall i | 0 <= i < |pkce| :: IsAlphanumeric(pkce[i]) || pkce[i] in {'-', '_'})
    && 0 < |redirect| <= 256
  }

  predicate ValidVerifier(verifier: string) {
    && 43 <= |verifier| <= 128
    && forall i | 0 <= i < |verifier| :: IsAlphanumeric(verifier[i]) || verifier[i] in {'-', '.', '_', '~'}
  }

  predicate FreeCode(c: Option<Code>, now: nat) { c.None? || now >= c.value.expires }

  function CodeSlot(codes: seq<Option<Code>>, now: nat): (i: nat)
    ensures i <= |codes|
    ensures i < |codes| ==> FreeCode(codes[i], now)
  {
    Place(codes, (c: Option<Code>) => FreeCode(c, now))
  }

  predicate IsCode(c: Option<Code>, hash: Digest) { c.Some? && c.value.hash == hash }

  function CodePlace(codes: seq<Option<Code>>, hash: Digest): (i: nat)
    ensures i <= |codes|
    ensures i < |codes| ==> IsCode(codes[i], hash)
    ensures forall k | 0 <= k < i :: !IsCode(codes[k], hash)
  {
    Place(codes, (c: Option<Code>) => IsCode(c, hash))
  }

  /** What a sign-in attempt presents. */
  datatype Attempt = Attempt(username: string, password: string, pkce: string, codeMethod: string, redirect: string)

  /** Whether the name and password are right. */
  predicate RightPassword(members: seq<Member>, a: Attempt) {
    var u := UserPlace(members, a.username);
    u < |members| && members[u].password.value.Accepts(a.password)
  }

  function NewCode(members: seq<Member>, a: Attempt, secret: string, now: nat): (c: Code)
    requires RightPassword(members, a)
  {
    Code(Sha256(secret), Sha256(a.pkce), Sha256(a.redirect), members[UserPlace(members, a.username)].id,
         Later(now, CODE_TTL))
  }

  function Authorize(t: Tables, members: seq<Member>, a: Attempt, random: Option<string>, now: nat)
    : (r: (Tables, Result<string, Error>))
    requires Sized(t)
    ensures Sized(r.0)
  {
    if !ValidRequest(a.pkce, a.codeMethod, a.redirect) then (t, Err(InvalidInput))
    else if Blocked(t.failures, Sha256(a.username), now) then (t, Err(RateLimited))
    else if !RightPassword(members, a) then
      (t.(failures := RecordFailure(t.failures, Sha256(a.username), now)), Err(InvalidCredentials))
    else if members[UserPlace(members, a.username)].disabled then (t, Err(Disabled))
    else
      var forgiven := t.(failures := ForgetFailures(t.failures, Sha256(a.username)));
      var slot := CodeSlot(t.codes, now);
      if slot == |t.codes| then (forgiven, Err(Capacity))
      else if random.None? then (forgiven, Err(Unavailable))
      else
        (forgiven.(codes := t.codes[slot := Some(NewCode(members, a, random.value, now))]), Ok(random.value))
  }

  // ----- sessions

  predicate FreeSession(s: Option<Session>, now: nat) { s.None? || now >= s.value.expires }

  function SessionSlot(sessions: seq<Option<Session>>, now: nat): (i: nat)
    ensures i <= |sessions|
    ensures i < |sessions| ==> FreeSession(sessions[i], now)
  {
    Place(sessions, (s: Option<Session>) => FreeSession(s, now))
  }

  predicate IsLive(s: Option<Session>, hash: Digest, now: nat) {
    s.Some? && s.value.hash == hash && now < s.value.expires
  }

  function SessionPlace(sessions: seq<Option<Session>>, hash: Digest, now: nat): (i: nat)
    ensures i <= |sessions|
    ensures i < |sessions| ==> IsLive(sessions[i], hash, now)
    ensures forall k | 0 <= k < i :: !IsLive(sessions[k], hash, now)
  {
    Place(sessions, (s: Option<Session>) => IsLive(s, hash, now))
  }

  /** Whether a taken code is good for what is presented with it. `s256` turns a verifier into its challenge. */
  predicate GoodCode(c: Code, s256: string -> string, verifier: string, redirect: string, now: nat) {
    && ValidVerifier(verifier)
    && now < c.expires
    && c.challenge == Sha256(s256(verifier))
    && c.redirect == Sha256(redirect)
  }

  function Redeem(
    t: Tables, s256: string -> string, members: seq<Member>, code: string, verifier: string, redirect: string,
    random: Option<string>, now: nat)
    : (r: (Tables, Result<(string, nat), Error>))
    requires Sized(t)
    ensures Sized(r.0)
  {
    var i := CodePlace(t.codes, Sha256(code));
    if i == |t.codes| then (t, Err(Unauthorized))
    else
      var c, taken := t.codes[i].value, t.(codes := t.codes[i := None]);
      if !GoodCode(c, s256, verifier, redirect, now) then (taken, Err(Unauthorized))
      else if MemberPlace(members, c.member) == |members| then (taken, Err(NotFound))
      else if !Enabled(members, c.member) then (taken, Err(Unauthorized))
      else
        var slot := SessionSlot(t.sessions, now);
        if slot == |t.sessions| then (taken, Err(Capacity))
        else if random.None? then (taken, Err(Unavailable))
        else
          var s := Session(Sha256(random.value), c.member, Later(now, SESSION_TTL));
          (taken.(sessions := t.sessions[slot := Some(s)]), Ok((random.value, c.member)))
  }

  function Lookup(t: Tables, members: seq<Member>, token: string, now: nat): (r: Result<nat, Error>) {
    var i := SessionPlace(t.sessions, Sha256(token), now);
    if i == |t.sessions| then Err(Unauthorized)
    else
      var m := t.sessions[i].value.member;
      if MemberPlace(members, m) == |members| then Err(NotFound)
      else if !Enabled(members, m) then Err(Unauthorized)
      else Ok(members[MemberPlace(members, m)].id)
  }

  function ConfirmPassword(t: Tables, members: seq<Member>, member: nat, password: string, now: nat)
    : (r: (Tables, Option<Error>))
    requires Sized(t)
    ensures Sized(r.0)
  {
    var i := MemberPlace(members, member);
    if i == |members| then (t, Some(NotFound))
    else
      var username := Sha256(members[i].username);
      if Blocked(t.failures, username, now) then (t, Some(RateLimited))
      else if members[i].password.None? || !members[i].password.value.Accepts(password) then
        (t.(failures := RecordFailure(t.failures, username, now)), Some(InvalidCredentials))
      else (t, None)
  }

  function DropToken(sessions: seq<Option<Session>>, hash: Digest): (after: seq<Option<Session>>)
    ensures |after| == |sessions|
    ensures forall i | 0 <= i < |sessions| ::
              after[i] == if sessions[i].Some? && sessions[i].value.hash == hash then None else sessions[i]
  {
    seq(|sessions|, i requires 0 <= i < |sessions| =>
      if sessions[i].Some? && sessions[i].value.hash == hash then None else sessions[i])
  }

  function DropMember(sessions: seq<Option<Session>>, member: nat): (after: seq<Option<Session>>)
    ensures |after| == |sessions|
    ensures forall i | 0 <= i < |sessions| ::
              after[i] == if sessions[i].Some? && sessions[i].value.member == member then None else sessions[i]
  {
    seq(|sessions|, i requires 0 <= i < |sessions| =>
      if sessions[i].Some? && sessions[i].value.member == member then None else sessions[i])
  }

  function DropCodes(codes: seq<Option<Code>>, member: nat): (after: seq<Option<Code>>)
    ensures |after| == |codes|
    ensures forall i | 0 <= i < |codes| ::
              after[i] == if codes[i].Some? && codes[i].value.member == member then None else codes[i]
  {
    seq(|codes|, i requires 0 <= i < |codes| =>
      if codes[i].Some? && codes[i].value.member == member then None else codes[i])
  }

  function Revoke(t: Tables, token: string): (after: Tables) {
    t.(sessions := DropToken(t.sessions, Sha256(token)))
  }

  function RevokeMember(t: Tables, member: nat): (after: Tables) {
    t.(sessions := DropMember(t.sessions, member), codes := DropCodes(t.codes, member))
  }
}
