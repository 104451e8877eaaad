/** The login tables as fixed arrays updated in place, each operation against its function. */
module LoginTables {
  import opened Options
  import opened Login
  import opened LoginRuns

  /** There is one first place. */
  lemma SamePlace<T>(i: nat, k: nat, s: seq<T>, test: T -> bool)
    requires i <= |s| && k <= |s|
    requires (i < |s| ==> test(s[i])) && forall j | 0 <= j < i :: !test(s[j])
    requires (k < |s| ==> test(s[k])) && forall j | 0 <= j < k :: !test(s[j])
    ensures i == k
  {
  }

  class Auth {
    const sessions: array<Option<Session>>
    const codes: array<Option<Code>>
    const failures: array<Option<Failure>>

    ghost predicate Valid() {
      && sessions.Length == MAX_SESSIONS && codes.Length == MAX_CODES && failures.Length == MAX_FAILURES
      && codes as object != sessions && failures as object != sessions && failures as object != codes
    }

    function Snapshot(): (t: Tables)
      reads sessions, codes, failures
    {
      Tables(sessions[..], codes[..], failures[..])
    }

    constructor ()
      ensures Valid() && fresh(sessions) && fresh(codes) && fresh(failures)
      ensures Snapshot() == NoTables()
    {
      sessions := new Option<Session>[MAX_SESSIONS](_ => None);
      codes := new Option<Code>[MAX_CODES](_ => None);
      failures := new Option<Failure>[MAX_FAILURES](_ => None);
      new;
      assert sessions[..] == NoTables().sessions;
      assert codes[..] == NoTables().codes;
      assert failures[..] == NoTables().failures;
    }

    /** Whether any entry blocks a name. */
    method NameIsBlocked(username: Digest, now: nat) returns (blocked: bool)
      ensures blocked == Blocked(failures[..], username, now)
    {
      for i := 0 to failures.Length
        invariant forall k | 0 <= k < i ::
                    !(IsFailureOf(failures[k], username) && failures[k].value.count >= 5
                      && now < failures[k].value.until)
      {
        var f := failures[i];
        if f.Some? && f.value.username == username && f.value.count >= 5 && now < f.value.until {
          assert failures[..][i] == f;
          return true;
        }
      }
      return false;
    }

    method FindFailure(username: Digest) returns (i: nat)
      ensures i == FailurePlace(failures[..], username)
    {
      i := 0;
      while i < failures.Length && !(failures[i].Some? && failures[i].value.username == username)
        invariant i <= failures.Length
        invariant forall k | 0 <= k < i :: !IsFailureOf(failures[k], username)
      {
        i := i + 1;
      }
      SamePlace(i, FailurePlace(failures[..], username), failures[..], f => IsFailureOf(f, username));
    }

    /** The first of the slots whose window ends soonest; an empty slot's has ended. */
    method SoonestSlot() returns (best: nat)
      requires failures.Length > 0
      ensures best == OldestFailure(failures[..])
    {
      best := 0;
      for i := 1 to failures.Length
        invariant best < i
        invariant forall k | 0 <= k < i :: UntilOf(failures[best]) <= UntilOf(failures[k])
        invariant forall k | 0 <= k < best :: UntilOf(failures[best]) < UntilOf(failures[k])
      {
        if UntilOf(failures[i]) < UntilOf(failures[best]) {
          best := i;
        }
      }
      var oldest := OldestFailure(failures[..]);
      assert UntilOf(failures[..][oldest]) <= UntilOf(failures[..][best]);
    }

    method FindFreeCode(now: nat) returns (i: nat)
      ensures i == CodeSlot(codes[..], now)
    {
      i := 0;
      while i < codes.Length && !(codes[i].None? || now >= codes[i].value.expires)
        invariant i <= codes.Length
        invariant forall k | 0 <= k < i :: !FreeCode(codes[k], now)
      {
        i := i + 1;
      }
      SamePlace(i, CodeSlot(codes[..], now), codes[..], c => FreeCode(c, now));
    }

    method FindCode(hash: Digest) returns (i: nat)
      ensures i == CodePlace(codes[..], hash)
    {
      i := 0;
      while i < codes.Length && !(codes[i].Some? && codes[i].value.hash == hash)
        invariant i <= codes.Length
        invariant forall k | 0 <= k < i :: !IsCode(codes[k], hash)
      {
        i := i + 1;
      }
      SamePlace(i, CodePlace(codes[..], hash), codes[..], c => IsCode(c, hash));
    }

    method FindFreeSession(now: nat) returns (i: nat)
      ensures i == SessionSlot(sessions[..], now)
    {
      i := 0;
      while i < sessions.Length && !(sessions[i].None? || now >= sessions[i].value.expires)
        invariant i <= sessions.Length
        invariant forall k | 0 <= k < i :: !FreeSession(sessions[k], now)
      {
        i := i + 1;
      }
      SamePlace(i, SessionSlot(sessions[..], now), sessions[..], c => FreeSession(c, now));
    }

    method FindSession(hash: Digest, now: nat) returns (i: nat)
      ensures i == SessionPlace(sessions[..], hash, now)
    {
      i := 0;
      while i < sessions.Length
        && !(sessions[i].Some? && sessions[i].value.hash == hash && now < sessions[i].value.expires)
        invariant i <= sessions.Length
        invariant forall k | 0 <= k < i :: !IsLive(sessions[k], hash, now)
      {
        i := i + 1;
      }
      SamePlace(i, SessionPlace(sessions[..], hash, now), sessions[..], c => IsLive(c, hash, now));
    }

    static method FindMember(members: seq<Member>, id: nat) returns (i: nat)
      ensures i == MemberPlace(members, id)
    {
      i := 0;
      while i < |members| && members[i].id != id
        invariant i <= |members|
        invariant forall k | 0 <= k < i :: members[k].id != id
      {
        i := i + 1;
      }
      SamePlace(i, MemberPlace(members, id), members, (m: Member) => m.id == id);
    }

    static method FindUser(members: seq<Member>, username: string) returns (i: nat)
      ensures i == UserPlace(members, username)
    {
      i := 0;
      while i < |members| && !(members[i].username == username && members[i].password.Some?)
        invariant i <= |members|
        invariant forall k | 0 <= k < i :: !(members[k].username == username && members[k].password.Some?)
      {
        i := i + 1;
      }
      SamePlace(i, UserPlace(members, username), members, (m: Member) => m.username == username && m.password.Some?);
    }

    method Clear()
      requires Valid()
      modifies sessions, codes, failures
      ensures Snapshot() == NoTables()
    {
      forall i | 0 <= i < sessions.Length { sessions[i] := None; }
      forall i | 0 <= i < codes.Length { codes[i] := None; }
      forall i | 0 <= i < failures.Length { failures[i] := None; }
      assert sessions[..] == NoTables().sessions;
      assert codes[..] == NoTables().codes;
      assert failures[..] == NoTables().failures;
    }

    method ForgetFailures(username: Digest)
      requires Valid()
      modifies failures
      ensures failures[..] == Login.ForgetFailures(old(failures[..]), username)
    {
      for i := 0 to failures.Length
        invariant forall k | 0 <= k < i ::
                    failures[k] == if IsFailureOf(old(failures[k]), username) then None else old(failures[k])
        invariant forall k | i <= k < failures.Length :: failures[k] == old(failures[k])
      {
        if IsFailureOf(failures[i], username) {
          failures[i] := None;
        }
      }
      assert failures[..] == Login.ForgetFailures(old(failures[..]), username);
    }

    method RecordFailure(username: Digest, now: nat)
      requires Valid()
      modifies failures
      ensures failures[..] == Login.RecordFailure(old(failures[..]), username, now)
    {
      var index := FindFailure(username);
      if index == failures.Length {
        index := SoonestSlot();
      }
      var count := 1;
      if IsFailureOf(failures[index], username) && now < failures[index].value.until {
        count := if failures[index].value.count + 1 < 5 then failures[index].value.count + 1 else 5;
      }
      failures[index] := Some(Failure(username, count, Later(now, LOCKOUT)));
    }

    method Authorize(members: seq<Member>, a: Attempt, random: Option<string>, now: nat)
      returns (r: Result<string, Error>)
      requires Valid()
      modifies codes, failures
      ensures (Snapshot(), r) == Login.Authorize(old(Snapshot()), members, a, random, now)
    {
      if !ValidRequest(a.pkce, a.codeMethod, a.redirect) {
        return Err(InvalidInput);
      }
      var username := Sha256(a.username);
      var blocked := NameIsBlocked(username, now);
      if blocked {
        return Err(RateLimited);
      }
      var user := FindUser(members, a.username);
      if user == |members| || !members[user].password.value.Accepts(a.password) {
        RecordFailure(username, now);
        return Err(InvalidCredentials);
      }
      if members[user].disabled {
        return Err(Disabled);
      }
      ForgetFailures(username);
      var slot := FindFreeCode(now);
      if slot == codes.Length {
        return Err(Capacity);
      }
      if random.None? {
        return Err(Unavailable);
      }
      codes[slot] := Some(Code(Sha256(random.value), Sha256(a.pkce), Sha256(a.redirect), members[user].id,
                               Later(now, CODE_TTL)));
      return Ok(random.value);
    }

    method Redeem(
      s256: string -> string, members: seq<Member>, code: string, verifier: string, redirect: string,
      random: Option<string>, now: nat)
      returns (r: Result<(string, nat), Error>)
      requires Valid()
      modifies sessions, codes
      ensures (Snapshot(), r) == Login.Redeem(old(Snapshot()), s256, members, code, verifier, redirect, random, now)
    {
      var index := FindCode(Sha256(code));
      if index == codes.Length {
        return Err(Unauthorized);
      }
      var c := codes[index].value;
      codes[index] := None;
      if !ValidVerifier(verifier) || now >= c.expires
        || c.challenge != Sha256(s256(verifier)) || c.redirect != Sha256(redirect) {
        return Err(Unauthorized);
      }
      var m := FindMember(members, c.member);
      if m == |members| {
        return Err(NotFound);
      }
      if members[m].disabled || members[m].password.None? {
        return Err(Unauthorized);
      }
      var slot := FindFreeSession(now);
      if slot == sessions.Length {
        return Err(Capacity);
      }
      if random.None? {
        return Err(Unavailable);
      }
      sessions[slot] := Some(Session(Sha256(random.value), c.member, Later(now, SESSION_TTL)));
      return Ok((random.value, c.member));
    }

    /** Whose token it is; `h` is any run that may have left the tables as they are. */
    method Lookup(
      members: seq<Member>, token: string, now: nat, ghost s256: string -> string, ghost h: Run)
      returns (r: Result<nat, Error>)
      requires Valid()
      ensures r == Login.Lookup(Snapshot(), members, token, now)
      ensures Orderly(h) && now >= LastTime(h) && Snapshot() == After(s256, h) ==>
                forall member: nat :: r == Ok(member) <==> SignedInAs(s256, h, members, token, now, member)
    {
      if Orderly(h) && now >= LastTime(h) && Snapshot() == After(s256, h) {
        forall member: nat
          ensures Login.Lookup(Snapshot(), members, token, now) == Ok(member) <==>
                  SignedInAs(s256, h, members, token, now, member)
        {
          LookupMeaning(s256, h, members, token, now, member);
        }
      }
      var i := FindSession(Sha256(token), now);
      if i == sessions.Length {
        return Err(Unauthorized);
      }
      var m := FindMember(members, sessions[i].value.member);
      if m == |members| {
        return Err(NotFound);
      }
      if members[m].disabled || members[m].password.None? {
        return Err(Unauthorized);
      }
      return Ok(members[m].id);
    }

    method ConfirmPassword(members: seq<Member>, member: nat, password: string, now: nat) returns (error: Option<Error>)
      requires Valid()
      modifies failures
      ensures (Snapshot(), error) == Login.ConfirmPassword(old(Snapshot()), members, member, password, now)
    {
      var i := FindMember(members, member);
      if i == |members| {
        return Some(NotFound);
      }
      var username := Sha256(members[i].username);
      var blocked := NameIsBlocked(username, now);
      if blocked {
        return Some(RateLimited);
      }
      if members[i].password.None? || !members[i].password.value.Accepts(password) {
        RecordFailure(username, now);
        return Some(InvalidCredentials);
      }
      return None;
    }

    method Revoke(token: string)
      requires Valid()
      modifies sessions
      ensures Snapshot() == Login.Revoke(old(Snapshot()), token)
    {
      var hash := Sha256(token);
      for i := 0 to sessions.Length
        invariant forall k | 0 <= k < i ::
                    sessions[k] ==
                    if old(sessions[k]).Some? && old(sessions[k]).value.hash == hash then None else old(sessions[k])
        invariant forall k | i <= k < sessions.Length :: sessions[k] == old(sessions[k])
      {
        if sessions[i].Some? && sessions[i].value.hash == hash {
          sessions[i] := None;
        }
      }
      assert sessions[..] == DropToken(old(sessions[..]), hash);
    }

    method RevokeMember(member: nat)
      requires Valid()
      modifies sessions, codes
      ensures Snapshot() == Login.RevokeMember(old(Snapshot()), member)
    {
      for i := 0 to sessions.Length
        invariant codes[..] == old(codes[..])
        invariant forall k | 0 <= k < i ::
                    sessions[k] ==
                    if old(sessions[k]).Some? && old(sessions[k]).value.member == member then None else old(sessions[k])
        invariant forall k | i <= k < sessions.Length :: sessions[k] == old(sessions[k])
      {
        if sessions[i].Some? && sessions[i].value.member == member {
          sessions[i] := None;
        }
      }
      assert sessions[..] == DropMember(old(sessions[..]), member);
      for i := 0 to codes.Length
        invariant sessions[..] == DropMember(old(sessions[..]), member)
        invariant forall k | 0 <= k < i ::
                    codes[k] ==
                    if old(codes[k]).Some? && old(codes[k]).value.member == member then None else old(codes[k])
        invariant forall k | i <= k < codes.Length :: codes[k] == old(codes[k])
      {
        if codes[i].Some? && codes[i].value.member == member {
          codes[i] := None;
        }
      }
      assert codes[..] == DropCodes(old(codes[..]), member);
    }
  }
}
