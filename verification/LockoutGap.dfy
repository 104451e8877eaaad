/**
  A run that shows why the lockout must count the other names from the first failure of a
  streak: five failures in a row, no other name failing after the last, and no lockout.
 */
module LockoutGap {
  import opened Options
  import opened Login
  import opened LoginRuns
  import opened Lockout

  function Letters(n: nat): (s: string)
    ensures |s| == n && forall i | 0 <= i < n :: s[i] == 'a'
  {
    seq(n, _ => 'a')
  }

  function Name(k: nat): (d: Digest)
    ensures |d.text| == k
  {
    Sha256(Letters(k))
  }

  /** Who makes the `i`th attempt: four by the empty name, one each by 64 others, a fifth by the empty name. */
  function NameAt(i: nat): (k: nat) {
    if i < 4 || i == 68 then 0 else i - 3
  }

  function TimeAt(i: nat): (now: nat) {
    if i == 68 then 1 else 0
  }

  function Try(k: nat, now: nat): (e: Event) {
    Event(DoAuthorize([], Attempt(Letters(k), "", Letters(43), "S256", Letters(1)), None), now)
  }

  function Attempts(n: nat): (h: Run)
    ensures |h| == n && forall i | 0 <= i < n :: h[i] == Try(NameAt(i), TimeAt(i))
  {
    seq(n, i requires 0 <= i < n => Try(NameAt(i), TimeAt(i)))
  }

  function SlotAt(n: nat, k: nat): (f: Option<Failure>) {
    if k == 0 then if n == 0 then None else Some(Failure(Name(0), if n < 4 then n else 4, 300))
    else if k + 3 < n then Some(Failure(Name(k), 1, 300)) else None
  }

  /** The failure table after the first attempts. */
  function Slots(n: nat): (failures: seq<Option<Failure>>)
    ensures |failures| == MAX_FAILURES && forall k | 0 <= k < MAX_FAILURES :: failures[k] == SlotAt(n, k)
  {
    seq(MAX_FAILURES, k requires 0 <= k < MAX_FAILURES => SlotAt(n, k))
  }

  lemma RecordsAt(failures: seq<Option<Failure>>, username: Digest, now: nat, slot: nat)
    requires slot < |failures| && forall k | 0 <= k < |failures| :: !IsFailureOf(failures[k], username)
    requires forall k | 0 <= k < |failures| :: UntilOf(failures[slot]) <= UntilOf(failures[k])
    requires forall k | 0 <= k < slot :: UntilOf(failures[slot]) < UntilOf(failures[k])
    ensures RecordFailure(failures, username, now) == failures[slot := Some(Failure(username, 1, Later(now, LOCKOUT)))]
  {
    assert FailurePlace(failures, username) == |failures|;
    assert OldestFailure(failures) == slot;
  }

  lemma EarlyStep(n: nat)
    requires n < 4
    ensures RecordFailure(Slots(n), Name(0), 0) == Slots(n + 1)
  {
    if n == 0 {
      RecordsAt(Slots(n), Name(0), 0, 0);
    } else {
      assert IsFailureOf(Slots(n)[0], Name(0));
      assert FailureSlot(Slots(n), Name(0)) == 0;
    }
  }

  lemma OtherStep(n: nat)
    requires 4 <= n < 67
    ensures RecordFailure(Slots(n), Name(n - 3), 0) == Slots(n + 1)
  {
    RecordsAt(Slots(n), Name(n - 3), 0, n - 3);
  }

  /** Where the 64th other name goes: over the first. */
  function Crowded(n: nat): (failures: seq<Option<Failure>>)
    requires n >= 3
    ensures |failures| == MAX_FAILURES
  {
    Slots(n)[0 := Some(Failure(Name(n - 3), 1, 300))]
  }

  lemma CrowdingStep(n: nat)
    requires n == 67
    ensures RecordFailure(Slots(n), Name(n - 3), 0) == Crowded(n)
  {
    RecordsAt(Slots(n), Name(n - 3), 0, 0);
  }

  lemma LastStep(n: nat)
    requires n == 67
    ensures RecordFailure(Crowded(n), Name(0), 1) == Crowded(n)[0 := Some(Failure(Name(0), 1, 301))]
  {
    RecordsAt(Crowded(n), Name(0), 1, 0);
  }

  lemma TryFails(t: Tables, k: nat, now: nat)
    requires Sized(t) && !Blocked(t.failures, Name(k), now)
    ensures EffectOf(t, Try(k, now)) == Fails(Name(k))
  {
    var a := Try(k, now).op.attempt;
    assert ValidRequest(a.pkce, a.codeMethod, a.redirect);
  }

  /** One more attempt, by a name that is not blocked. */
  lemma OneMore(s256: string -> string, n: nat, failures: seq<Option<Failure>>)
    requires After(s256, Attempts(n)).failures == failures && failures != []
    requires forall k | 0 <= k < |failures| :: failures[k].Some? ==> failures[k].value.count < 5
    ensures EffectAt(s256, Attempts(n + 1), n) == Fails(Name(NameAt(n)))
    ensures After(s256, Attempts(n + 1)).failures == RecordFailure(failures, Name(NameAt(n)), TimeAt(n))
    ensures StreakOf(s256, Attempts(n + 1), Name(0)) ==
            StreakStep(StreakOf(s256, Attempts(n), Name(0)), Fails(Name(NameAt(n))), Name(0), TimeAt(n), n)
  {
    var h, t := Attempts(n + 1), After(s256, Attempts(n));
    assert h[..n] == Attempts(n);
    TryFails(t, NameAt(n), TimeAt(n));
    TableStep(t, s256, h[n]);
  }

  lemma FewCounted(n: nat)
    ensures forall k | 0 <= k < MAX_FAILURES :: Slots(n)[k].Some? ==> Slots(n)[k].value.count < 5
  {
  }

  lemma {:induction false} FirstTables(s256: string -> string, n: nat)
    requires n <= 67
    ensures After(s256, Attempts(n)).failures == Slots(n)
  {
    if n == 0 {
      assert NoTables().failures == Slots(n);
    } else {
      FirstTables(s256, n - 1);
      FewCounted(n - 1);
      OneMore(s256, n - 1, Slots(n - 1));
      if n - 1 < 4 {
        EarlyStep(n - 1);
      } else {
        OtherStep(n - 1);
      }
    }
  }

  lemma StreakAfterOneMore(s256: string -> string, n: nat)
    requires n <= 67
    ensures StreakOf(s256, Attempts(n + 1), Name(0)) ==
            StreakStep(StreakOf(s256, Attempts(n), Name(0)), Fails(Name(NameAt(n))), Name(0), TimeAt(n), n)
  {
    FirstTables(s256, n);
    FewCounted(n);
    OneMore(s256, n, Slots(n));
  }

  function StreakAt(n: nat): (s: Option<Streak>) {
    if n == 0 then None else Some(Streak(if n < 4 then n else 4, 300, 0))
  }

  lemma NextStreak(n: nat)
    requires n <= 67
    ensures StreakStep(StreakAt(n), Fails(Name(NameAt(n))), Name(0), TimeAt(n), n) == StreakAt(n + 1)
  {
  }

  lemma {:induction false} FirstStreaks(s256: string -> string, n: nat)
    requires n <= 68
    ensures StreakOf(s256, Attempts(n), Name(0)) == StreakAt(n)
  {
    if n != 0 {
      FirstStreaks(s256, n - 1);
      StreakAfterOneMore(s256, n - 1);
      NextStreak(n - 1);
    }
  }

  lemma CrowdedTable(s256: string -> string, n: nat)
    requires n == 67
    ensures After(s256, Attempts(n + 1)).failures == Crowded(n)
  {
    FirstTables(s256, n);
    FewCounted(n);
    OneMore(s256, n, Slots(n));
    CrowdingStep(n);
  }

  lemma FewInTheCrowd(n: nat)
    requires n == 67
    ensures forall k | 0 <= k < MAX_FAILURES :: Crowded(n)[k].Some? ==> Crowded(n)[k].value.count < 5
    ensures !Blocked(Crowded(n)[0 := Some(Failure(Name(0), 1, 301))], Name(0), 1)
  {
    FewCounted(n);
  }

  lemma AllAttempts(s256: string -> string, n: nat)
    requires n == 67
    ensures EffectAt(s256, Attempts(n + 2), n + 1) == Fails(Name(0))
    ensures After(s256, Attempts(n + 2)).failures == Crowded(n)[0 := Some(Failure(Name(0), 1, 301))]
    ensures StreakOf(s256, Attempts(n + 2), Name(0)) == Some(Streak(5, 301, 0))
  {
    CrowdedTable(s256, n);
    FirstStreaks(s256, n + 1);
    FewInTheCrowd(n);
    OneMore(s256, n + 1, Crowded(n));
    LastStep(n);
  }

  lemma AttemptsAreOrderly(n: nat)
    requires n <= 69
    ensures Orderly(Attempts(n))
    ensures forall i | 0 <= i < n && i < 68 :: Later(Attempts(n)[i].now, LOCKOUT) == 300
  {
  }

  /** Five failures in a row, none by another name at or after the last, and the name is not blocked. */
  lemma EvictionRestartsTheCount(s256: string -> string) returns (h: Run, name: Digest)
    ensures Orderly(h)
    ensures StreakOf(s256, h, name) == Some(Streak(5, 301, 0))
    ensures Others(s256, h, name, 301) == {}
    ensures !Blocked(After(s256, h).failures, name, 1)
  {
    var n: nat :| n == 67;
    h, name := Attempts(n + 2), Name(0);
    AllAttempts(s256, n);
    AttemptsAreOrderly(n + 2);
    FewInTheCrowd(n);
  }
}
