/**
  The failure table over whole runs: what blocks a name, and when the table forgets.

  `StreakOf` counts a name's failed attempts from the history alone. `Held` is the same
  count on a table that may also lose the name's entry to another name's failure.
 */
module Lockout {
  import opened Options
  import opened Collections
  import opened Login
  import opened LoginRuns

  /** What an event does to the failure table, told from its answer. */
  datatype Effect = Fails(username: Digest) | Forgives(username: Digest) | Clears | Leaves

  function EffectOf(t: Tables, e: Event): (effect: Effect)
    requires Sized(t)
  {
    match e.op
    case DoAuthorize(members, attempt, random) =>
      var answer := Authorize(t, members, attempt, random, e.now).1;
      if answer == Err(InvalidCredentials) then Fails(Sha256(attempt.username))
      else if answer.Ok? || answer.error in {Capacity, Unavailable} then Forgives(Sha256(attempt.username))
      else Leaves
    case DoConfirm(members, member, password) =>
      var i := MemberPlace(members, member);
      if i < |members| && ConfirmPassword(t, members, member, password, e.now).1 == Some(InvalidCredentials) then
        Fails(Sha256(members[i].username))
      else Leaves
    case DoClear => Clears
    case _ => Leaves
  }

  function EffectAt(s256: string -> string, h: Run, i: nat): (effect: Effect)
    requires i < |h|
  {
    EffectOf(After(s256, h[..i]), h[i])
  }

  function Affected(failures: seq<Option<Failure>>, effect: Effect, now: nat): (after: seq<Option<Failure>>)
    requires failures != []
    ensures |after| == |failures|
  {
    match effect
    case Fails(username) => RecordFailure(failures, username, now)
    case Forgives(username) => ForgetFailures(failures, username)
    case Clears => Empty(|failures|)
    case Leaves => failures
  }

  /** The failure table after an event depends on its effect only. */
  lemma TableStep(t: Tables, s256: string -> string, e: Event)
    requires Sized(t)
    ensures Next(t, s256, e).failures == Affected(t.failures, EffectOf(t, e), e.now)
  {
    assert NoTables().failures == Empty(|t.failures|);
  }

  /** The events of a prefix have the same effects. */
  lemma PrefixEffect(s256: string -> string, h: Run, n: nat, i: nat)
    requires i < n <= |h|
    ensures EffectAt(s256, h[..n], i) == EffectAt(s256, h, i)
  {
    assert h[..n][..i] == h[..i];
  }

  // ----- one entry per name

  ghost predicate OneEach(failures: seq<Option<Failure>>) {
    forall i, k | 0 <= i < k < |failures| && failures[i].Some? && failures[k].Some? ::
      failures[i].value.username != failures[k].value.username
  }

  function Entry(failures: seq<Option<Failure>>, username: Digest): (f: Option<Failure>) {
    var i := FailurePlace(failures, username);
    if i < |failures| then failures[i] else None
  }

  lemma EntryIs(failures: seq<Option<Failure>>, username: Digest, i: nat)
    requires OneEach(failures) && i < |failures| && IsFailureOf(failures[i], username)
    ensures Entry(failures, username) == failures[i]
  {
  }

  lemma NoEntry(failures: seq<Option<Failure>>, username: Digest)
    requires forall i | 0 <= i < |failures| :: !IsFailureOf(failures[i], username)
    ensures Entry(failures, username) == None
  {
  }

  /** Recording a failure under one name takes away another's entry. */
  predicate TakesSlotOf(failures: seq<Option<Failure>>, failing: Digest, username: Digest)
    requires failures != []
  {
    && failing != username && Entry(failures, failing).None?
    && IsFailureOf(failures[OldestFailure(failures)], username)
  }

  lemma RecordingCounts(failures: seq<Option<Failure>>, username: Digest, now: nat)
    requires failures != [] && OneEach(failures)
    ensures OneEach(RecordFailure(failures, username, now))
    ensures Entry(RecordFailure(failures, username, now), username) ==
            Some(Failure(username, NextCount(Entry(failures, username), username, now), Later(now, LOCKOUT)))
  {
    EntryIs(RecordFailure(failures, username, now), username, FailureSlot(failures, username));
  }

  lemma RecordingOthers(failures: seq<Option<Failure>>, failing: Digest, username: Digest, now: nat)
    requires failures != [] && OneEach(failures) && failing != username
    ensures Entry(RecordFailure(failures, failing, now), username) ==
            if TakesSlotOf(failures, failing, username) then None else Entry(failures, username)
  {
    var after, slot := RecordFailure(failures, failing, now), FailureSlot(failures, failing);
    RecordingCounts(failures, failing, now);
    var i := FailurePlace(failures, username);
    if i < |failures| && i != slot {
      EntryIs(after, username, i);
      EntryIs(failures, username, i);
    } else {
      NoEntry(after, username);
    }
  }

  lemma ForgettingEntries(failures: seq<Option<Failure>>, forgiven: Digest, username: Digest)
    requires OneEach(failures)
    ensures OneEach(ForgetFailures(failures, forgiven))
    ensures Entry(ForgetFailures(failures, forgiven), username) ==
            if forgiven == username then None else Entry(failures, username)
  {
    var after := ForgetFailures(failures, forgiven);
    var i := FailurePlace(failures, username);
    if i < |failures| && forgiven != username {
      EntryIs(after, username, i);
    } else {
      NoEntry(after, username);
    }
  }

  // ----- counts

  /** Failed attempts in a row: how many, up to five, when the window ends, and the event that began them. */
  datatype Streak = Streak(count: nat, until: nat, first: nat)

  function Counted(s: Option<Streak>, now: nat, event: nat): (after: Streak) {
    if s.Some? && now < s.value.until then
      Streak(if s.value.count + 1 < 5 then s.value.count + 1 else 5, Later(now, LOCKOUT), s.value.first)
    else Streak(1, Later(now, LOCKOUT), event)
  }

  function StreakStep(s: Option<Streak>, effect: Effect, username: Digest, now: nat, event: nat)
    : (after: Option<Streak>)
  {
    match effect
    case Fails(name) => if name == username then Some(Counted(s, now, event)) else s
    case Forgives(name) => if name == username then None else s
    case Clears => None
    case Leaves => s
  }

  /** A name's failed attempts in a row, from the history alone. */
  function StreakOf(s256: string -> string, h: Run, username: Digest): (s: Option<Streak>)
    ensures s.Some? ==> s.value.first < |h|
  {
    if h == [] then None
    else
      var n := |h| - 1;
      StreakStep(StreakOf(s256, h[..n], username), EffectAt(s256, h, n), username, h[n].now, n)
  }

  /** The event takes a name's entry away for another name's failure. */
  predicate Evicts(s256: string -> string, h: Run, i: nat, username: Digest)
    requires i < |h|
  {
    var effect := EffectAt(s256, h, i);
    effect.Fails? && TakesSlotOf(After(s256, h[..i]).failures, effect.username, username)
  }

  /** A name's failed attempts in a row since its entry was last taken away. */
  function Held(s256: string -> string, h: Run, username: Digest): (s: Option<Streak>) {
    if h == [] then None
    else
      var n := |h| - 1;
      if Evicts(s256, h, n, username) then None
      else StreakStep(Held(s256, h[..n], username), EffectAt(s256, h, n), username, h[n].now, n)
  }

  function AsEntry(username: Digest, s: Option<Streak>): (f: Option<Failure>) {
    if s.None? then None else Some(Failure(username, s.value.count, s.value.until))
  }

  lemma EffectHolds(
    failures: seq<Option<Failure>>, effect: Effect, now: nat, s: Option<Streak>, username: Digest, event: nat)
    requires failures != [] && OneEach(failures) && Entry(failures, username) == AsEntry(username, s)
    ensures OneEach(Affected(failures, effect, now))
    ensures Entry(Affected(failures, effect, now), username) ==
            if effect.Fails? && TakesSlotOf(failures, effect.username, username) then None
            else AsEntry(username, StreakStep(s, effect, username, now, event))
  {
    match effect
    case Fails(name) =>
      RecordingCounts(failures, name, now);
      if name != username {
        RecordingOthers(failures, name, username, now);
      }
    case Forgives(name) => ForgettingEntries(failures, name, username);
    case Clears => NoEntry(Affected(failures, effect, now), username);
    case Leaves =>
  }

  /** After any run there is at most one entry for a name, and it is the count that `Held` gives. */
  lemma {:induction false} TableHoldsCounts(s256: string -> string, h: Run, username: Digest)
    ensures OneEach(After(s256, h).failures)
    ensures Entry(After(s256, h).failures, username) == AsEntry(username, Held(s256, h, username))
  {
    if h == [] {
      NoEntry(NoTables().failures, username);
    } else {
      var n := |h| - 1;
      TableHoldsCounts(s256, h[..n], username);
      TableStep(After(s256, h[..n]), s256, h[n]);
      var t, held := After(s256, h[..n]), Held(s256, h[..n], username);
      EffectHolds(t.failures, EffectAt(s256, h, n), h[n].now, held, username, n);
    }
  }

  lemma {:induction false} BlockedByHeld(s256: string -> string, h: Run, username: Digest, now: nat)
    ensures Blocked(After(s256, h).failures, username, now) <==>
            var s := Held(s256, h, username); s.Some? && s.value.count >= 5 && now < s.value.until
  {
    TableHoldsCounts(s256, h, username);
    var failures := After(s256, h).failures;
    forall i | 0 <= i < |failures| && IsFailureOf(failures[i], username)
      ensures failures[i] == Entry(failures, username)
    {
      EntryIs(failures, username, i);
    }
  }

  /** Losing an entry only ever lowers a count. */
  lemma {:induction false} HeldIsWithin(s256: string -> string, h: Run, username: Digest)
    ensures var held, s := Held(s256, h, username), StreakOf(s256, h, username);
            held.Some? ==> s.Some? && held.value.until == s.value.until && held.value.count <= s.value.count <= 5
  {
    if h != [] {
      HeldIsWithin(s256, h[..|h| - 1], username);
    }
  }

  /** A name is never blocked without five failed attempts in a row, the last less than 300 s ago. */
  lemma {:induction false} NeverBlockedForLess(s256: string -> string, h: Run, username: Digest, now: nat)
    requires Blocked(After(s256, h).failures, username, now)
    ensures var s := StreakOf(s256, h, username); s.Some? && s.value.count == 5 && now < s.value.until
  {
    BlockedByHeld(s256, h, username, now);
    HeldIsWithin(s256, h, username);
  }

  // ----- what a streak is

  function FailuresFrom(s256: string -> string, h: Run, username: Digest, from: nat): (n: nat) {
    if |h| <= from then 0
    else
      var n := |h| - 1;
      FailuresFrom(s256, h[..n], username, from) + if EffectAt(s256, h, n) == Fails(username) then 1 else 0
  }

  lemma {:induction false} NoFailuresBefore(s256: string -> string, h: Run, username: Digest)
    ensures FailuresFrom(s256, h, username, |h|) == 0
  {
  }

  lemma StreakMoves(s: Option<Streak>, effect: Effect, username: Digest, now: nat, event: nat)
    requires s.Some? ==> s.value.first < event
    requires StreakStep(s, effect, username, now, event).Some?
    ensures var after, fails := StreakStep(s, effect, username, now, event).value, effect == Fails(username);
            if after.first == event then fails && after.count == 1
            else
              && s.Some? && after.first == s.value.first && effect != Forgives(username) && effect != Clears
              && after.count ==
                 if fails && s.value.count < 4 then s.value.count + 1 else if fails then 5 else s.value.count
  {
  }

  predicate Spares(effect: Effect, username: Digest) {
    effect != Forgives(username) && effect != Clears
  }

  ghost predicate Unforgiven(s256: string -> string, h: Run, username: Digest, first: nat) {
    forall i | first < i < |h| :: Spares(EffectAt(s256, h, i), username)
  }

  lemma SparedEarlier(s256: string -> string, h: Run, n: nat, username: Digest, first: nat, i: nat)
    requires first < i < n <= |h| && Unforgiven(s256, h[..n], username, first)
    ensures Spares(EffectAt(s256, h, i), username)
  {
    PrefixEffect(s256, h, n, i);
    assert Spares(EffectAt(s256, h[..n], i), username);
  }

  lemma UnforgivenOneMore(s256: string -> string, h: Run, username: Digest, first: nat)
    requires h != [] && Unforgiven(s256, h[..|h| - 1], username, first)
    requires Spares(EffectAt(s256, h, |h| - 1), username)
    ensures Unforgiven(s256, h, username, first)
  {
    forall i | first < i < |h|
      ensures Spares(EffectAt(s256, h, i), username)
    {
      if i < |h| - 1 {
        SparedEarlier(s256, h, |h| - 1, username, first, i);
      }
    }
  }

  /** A streak counts the failures since the first, among which nothing forgave the name. */
  lemma {:induction false} StreakCounts(s256: string -> string, h: Run, username: Digest)
    requires StreakOf(s256, h, username).Some?
    ensures var s, n := StreakOf(s256, h, username).value,
                        FailuresFrom(s256, h, username, StreakOf(s256, h, username).value.first);
            && n >= 1 && s.count == (if n < 5 then n else 5)
            && EffectAt(s256, h, s.first) == Fails(username)
            && Unforgiven(s256, h, username, s.first)
  {
    var n, s := |h| - 1, StreakOf(s256, h, username).value;
    var before := h[..n];
    StreakMoves(StreakOf(s256, before, username), EffectAt(s256, h, n), username, h[n].now, n);
    if s.first < n {
      StreakCounts(s256, before, username);
      PrefixEffect(s256, h, n, s.first);
      UnforgivenOneMore(s256, h, username, s.first);
    } else {
      NoFailuresBefore(s256, before, username);
    }
  }

  // ----- when the table forgets

  /** The other names that failed with a window ending no sooner than a time. */
  ghost function Others(s256: string -> string, h: Run, username: Digest, until: nat): (names: set<Digest>) {
    set i | 0 <= i < |h| && EffectAt(s256, h, i).Fails? && EffectAt(s256, h, i).username != username
            && Later(h[i].now, LOCKOUT) >= until :: EffectAt(s256, h, i).username
  }

  /** Each entry is the trace of a failed attempt. */
  ghost predicate Recorded(s256: string -> string, h: Run, f: Option<Failure>) {
    f.Some? ==> exists i | 0 <= i < |h| ::
      EffectAt(s256, h, i) == Fails(f.value.username) && f.value.until == Later(h[i].now, LOCKOUT)
  }

  lemma RecordedLater(s256: string -> string, h: Run, f: Option<Failure>)
    requires h != [] && Recorded(s256, h[..|h| - 1], f)
    ensures Recorded(s256, h, f)
  {
    if f.Some? {
      var before := h[..|h| - 1];
      var i :| 0 <= i < |before| && EffectAt(s256, before, i) == Fails(f.value.username)
               && f.value.until == Later(before[i].now, LOCKOUT);
      assert before[..i] == h[..i] && before[i] == h[i];
      assert EffectAt(s256, h, i) == Fails(f.value.username);
    }
  }

  lemma AffectedSlot(failures: seq<Option<Failure>>, effect: Effect, now: nat, k: nat)
    requires k < |failures|
    ensures var f := Affected(failures, effect, now)[k];
            || f.None? || f == failures[k]
            || (effect == Fails(f.value.username) && f.value.until == Later(now, LOCKOUT))
  {
  }

  lemma {:induction false} EntriesAreRecorded(s256: string -> string, h: Run)
    ensures forall k | 0 <= k < MAX_FAILURES :: Recorded(s256, h, After(s256, h).failures[k])
  {
    if h != [] {
      var n := |h| - 1;
      var t, e := After(s256, h[..n]), h[n];
      EntriesAreRecorded(s256, h[..n]);
      TableStep(t, s256, e);
      var effect := EffectAt(s256, h, n);
      var after := Affected(t.failures, effect, e.now);
      forall k | 0 <= k < MAX_FAILURES
        ensures Recorded(s256, h, after[k])
      {
        RecordedLater(s256, h, t.failures[k]);
        AffectedSlot(t.failures, effect, e.now, k);
      }
    }
  }

  ghost function Names(failures: seq<Option<Failure>>): (names: set<Digest>) {
    set i | 0 <= i < |failures| && failures[i].Some? :: failures[i].value.username
  }

  lemma {:induction false} DistinctNames(failures: seq<Option<Failure>>)
    requires OneEach(failures) && forall i | 0 <= i < |failures| :: failures[i].Some?
    ensures |Names(failures)| == |failures|
  {
    if failures != [] {
      var n := |failures| - 1;
      var init, last := failures[..n], failures[n].value.username;
      DistinctNames(init);
      assert Names(failures) == Names(init) + {last} by {
        assert forall i | 0 <= i < n :: init[i] == failures[i];
      }
      assert last !in Names(init);
    }
  }

  lemma OtherName(s256: string -> string, h: Run, username: Digest, until: nat, i: nat)
    requires i < |h| && EffectAt(s256, h, i).Fails? && EffectAt(s256, h, i).username != username
    requires Later(h[i].now, LOCKOUT) >= until
    ensures EffectAt(s256, h, i).username in Others(s256, h, username, until)
  {
  }

  /** The names of a full table other than one, none of whose windows ends sooner. */
  lemma {:induction false} FullTableOthers(s256: string -> string, h: Run, username: Digest, until: nat)
    requires forall k | 0 <= k < MAX_FAILURES ::
               After(s256, h).failures[k].Some? && After(s256, h).failures[k].value.until >= until
    ensures Names(After(s256, h).failures) - {username} <= Others(s256, h, username, until)
  {
    EntriesAreRecorded(s256, h);
    var failures := After(s256, h).failures;
    forall name | name in Names(failures) - {username}
      ensures name in Others(s256, h, username, until)
    {
      var k :| 0 <= k < |failures| && failures[k].Some? && failures[k].value.username == name;
      assert Recorded(s256, h, failures[k]);
      var i :| 0 <= i < |h| && EffectAt(s256, h, i) == Fails(name)
               && failures[k].value.until == Later(h[i].now, LOCKOUT);
      OtherName(s256, h, username, until, i);
    }
  }

  lemma OthersGrow(s256: string -> string, h: Run, n: nat, username: Digest, until: nat, sooner: nat)
    requires n <= |h| && sooner <= until
    ensures Others(s256, h[..n], username, until) <= Others(s256, h, username, sooner)
  {
    assert forall i | 0 <= i < n :: h[..n][..i] == h[..i] && h[..n][i] == h[i];
  }

  /** As many others as a full table has entries: its names, with one exchanged for another. */
  lemma CrowdSize(failures: seq<Option<Failure>>, username: Digest, failing: Digest, others: set<Digest>)
    requires OneEach(failures) && forall i | 0 <= i < |failures| :: failures[i].Some?
    requires username in Names(failures) && failing !in Names(failures)
    requires Names(failures) - {username} <= others && failing in others
    ensures |others| >= |failures|
  {
    DistinctNames(failures);
    SubsetSize(Names(failures) - {username} + {failing}, others);
  }

  lemma NamesInTable(failures: seq<Option<Failure>>, failing: Digest, i: nat)
    requires Entry(failures, failing).None? && i < |failures| && failures[i].Some?
    ensures failing !in Names(failures) && failures[i].value.username in Names(failures)
  {
  }

  /** What an eviction finds: a full table, in which the name's window is among the first to end. */
  lemma {:induction false} EvictedTable(s256: string -> string, h: Run, i: nat, username: Digest)
    requires i < |h| && Evicts(s256, h, i, username)
    ensures var failures, s := After(s256, h[..i]).failures, Held(s256, h[..i], username);
            && OneEach(failures) && s.Some? && s.value.until > 0
            && Some(Failure(username, s.value.count, s.value.until)) == failures[OldestFailure(failures)]
            && forall k | 0 <= k < MAX_FAILURES :: failures[k].Some? && failures[k].value.until >= s.value.until
  {
    var failures := After(s256, h[..i]).failures;
    TableHoldsCounts(s256, h[..i], username);
    var oldest := OldestFailure(failures);
    EntryIs(failures, username, oldest);
    EntryUntilPositive(s256, h[..i], failures[oldest]);
    assert forall k | 0 <= k < MAX_FAILURES :: UntilOf(failures[k]) >= UntilOf(failures[oldest]) > 0;
  }

  /** A name's entry is taken only once 64 other names have failed, with windows ending no sooner than its own. */
  lemma {:induction false} EvictionNeedsOthers(s256: string -> string, h: Run, i: nat, username: Digest)
    requires Orderly(h) && i < |h| && Evicts(s256, h, i, username)
    ensures var s := Held(s256, h[..i], username);
            s.Some? && |Others(s256, h[..i + 1], username, s.value.until)| >= MAX_FAILURES
  {
    var before, upto := h[..i], h[..i + 1];
    var failures, failing := After(s256, before).failures, EffectAt(s256, h, i).username;
    EvictedTable(s256, h, i, username);
    var until := Held(s256, before, username).value.until;
    NamesInTable(failures, failing, OldestFailure(failures));
    FullTableOthers(s256, before, username, until);
    assert upto[..i] == before;
    OthersGrow(s256, upto, i, username, until, until);
    UntilIsPast(s256, before, failures[OldestFailure(failures)], h[i].now, upto);
    OtherName(s256, upto, username, until, i);
    CrowdSize(failures, username, failing, Others(s256, upto, username, until));
  }

  lemma {:induction false} EntryUntilPositive(s256: string -> string, h: Run, f: Option<Failure>)
    requires f.Some? && f in After(s256, h).failures
    ensures f.value.until > 0
  {
    EntriesAreRecorded(s256, h);
  }

  lemma {:induction false} UntilIsPast(s256: string -> string, before: Run, f: Option<Failure>, now: nat, upto: Run)
    requires Orderly(upto) && |upto| == |before| + 1 && upto[..|before|] == before && upto[|before|].now == now
    requires f.Some? && f in After(s256, before).failures
    ensures f.value.until <= Later(now, LOCKOUT)
  {
    EntriesAreRecorded(s256, before);
    assert Recorded(s256, before, f);
    var i :| 0 <= i < |before| && f.value.until == Later(before[i].now, LOCKOUT);
    assert upto[..|before|][i] == upto[i];
  }

  lemma {:induction false} StreakGoesBack(s256: string -> string, h: Run, username: Digest, n: nat)
    requires StreakOf(s256, h, username).Some? && StreakOf(s256, h, username).value.first < n <= |h|
    ensures StreakOf(s256, h[..n], username).Some?
    ensures StreakOf(s256, h[..n], username).value.first == StreakOf(s256, h, username).value.first
    decreases |h|
  {
    if n == |h| {
      assert h[..n] == h;
    } else {
      StreakGoesBack(s256, h[..|h| - 1], username, n);
      assert h[..|h| - 1][..n] == h[..n];
    }
  }

  lemma {:induction false} UntilFollowsFirst(s256: string -> string, h: Run, username: Digest)
    requires Orderly(h) && StreakOf(s256, h, username).Some?
    ensures StreakOf(s256, h, username).value.until >= Later(h[StreakOf(s256, h, username).value.first].now, LOCKOUT)
  {
    var n := |h| - 1;
    OrderlyPrefix(h, n);
    var s := StreakOf(s256, h[..n], username);
    if s.Some? {
      UntilFollowsFirst(s256, h[..n], username);
      assert h[..n][s.value.first] == h[s.value.first];
    }
  }

  /** Without an eviction since a streak began, the table holds the streak. */
  lemma {:induction false} HeldSinceFirst(s256: string -> string, h: Run, username: Digest)
    requires StreakOf(s256, h, username).Some?
    requires forall i | StreakOf(s256, h, username).value.first < i < |h| :: !Evicts(s256, h, i, username)
    ensures Held(s256, h, username) == StreakOf(s256, h, username)
  {
    var n, s := |h| - 1, StreakOf(s256, h, username).value;
    var before := h[..n];
    HeldIsWithin(s256, before, username);
    if s.first < n {
      StreakGoesBack(s256, h, username, n);
      forall i | s.first < i < n
        ensures !Evicts(s256, before, i, username)
      {
        PrefixEffect(s256, h, n, i);
        assert before[..i] == h[..i];
        assert !Evicts(s256, h, i, username);
      }
      HeldSinceFirst(s256, before, username);
    }
  }

  // ----- exactly when a name is blocked

  lemma {:induction false} FailuresFromEarlier(s256: string -> string, h: Run, username: Digest, i: nat, k: nat)
    requires i <= k
    ensures FailuresFrom(s256, h, username, k) <= FailuresFrom(s256, h, username, i)
  {
    if |h| > k {
      FailuresFromEarlier(s256, h[..|h| - 1], username, i, k);
    }
  }

  /** The last mark after an index; the index itself when there is none. */
  ghost function LastMark(marks: seq<bool>, first: nat, n: nat): (i: nat)
    requires first < n <= |marks|
    ensures first <= i < n
    ensures i != first ==> marks[i]
    ensures forall k | i < k < n :: !marks[k]
  {
    if first == n - 1 || marks[n - 1] then n - 1 else LastMark(marks, first, n - 1)
  }

  function CountOf(s: Option<Streak>): (count: nat) {
    if s.None? then 0 else s.value.count
  }

  /** After its entry was taken away, the table counts a name's failures anew. */
  lemma {:induction false} HeldSinceEviction(s256: string -> string, h: Run, username: Digest, i: nat)
    requires StreakOf(s256, h, username).Some? && StreakOf(s256, h, username).value.first < i < |h|
    requires Evicts(s256, h, i, username)
    requires forall k | i < k < |h| :: !Evicts(s256, h, k, username)
    ensures var n := FailuresFrom(s256, h, username, i);
            CountOf(Held(s256, h, username)) == if n < 5 then n else 5
    decreases |h|
  {
    var n := |h| - 1;
    var before := h[..n];
    if i == n {
      NoFailuresBefore(s256, before, username);
    } else {
      StreakGoesBack(s256, h, username, n);
      PrefixEvicts(s256, h, n, i, username);
      forall k | i < k < n
        ensures !Evicts(s256, before, k, username)
      {
        PrefixEvicts(s256, h, n, k, username);
      }
      HeldSinceEviction(s256, before, username, i);
      HeldIsWithin(s256, before, username);
      HeldMoves(s256, h, username);
    }
  }

  lemma PrefixEvicts(s256: string -> string, h: Run, n: nat, i: nat, username: Digest)
    requires i < n <= |h|
    ensures Evicts(s256, h[..n], i, username) == Evicts(s256, h, i, username)
  {
    assert h[..n][..i] == h[..i];
  }

  lemma {:induction false} HeldMoves(s256: string -> string, h: Run, username: Digest)
    requires h != [] && StreakOf(s256, h, username).Some? && StreakOf(s256, h, username).value.first < |h| - 1
    requires !Evicts(s256, h, |h| - 1, username)
    requires var held, s := Held(s256, h[..|h| - 1], username), StreakOf(s256, h[..|h| - 1], username);
             held.Some? ==> s.Some? && held.value.until == s.value.until && held.value.count <= 5
    ensures var before, fails := CountOf(Held(s256, h[..|h| - 1], username)),
                                 EffectAt(s256, h, |h| - 1) == Fails(username);
            CountOf(Held(s256, h, username)) == if fails && before < 4 then before + 1 else if fails then 5 else before
  {
    var n := |h| - 1;
    StreakMoves(StreakOf(s256, h[..n], username), EffectAt(s256, h, n), username, h[n].now, n);
  }

  /**
    When a name is blocked, for every run: five of its attempts in a row failed, each
    within 300 s of the one before, the last less than 300 s ago, and whenever its entry
    was taken away in the meantime five of the failures came after that.
   */
  lemma {:induction false} BlockedExactly(s256: string -> string, h: Run, username: Digest, now: nat)
    ensures Blocked(After(s256, h).failures, username, now) <==>
            var s := StreakOf(s256, h, username);
            && s.Some? && s.value.count == 5 && now < s.value.until
            && forall i | s.value.first < i < |h| && Evicts(s256, h, i, username) ::
                 FailuresFrom(s256, h, username, i) >= 5
  {
    BlockedByHeld(s256, h, username, now);
    HeldIsWithin(s256, h, username);
    var s := StreakOf(s256, h, username);
    if s.Some? {
      var evictions := seq(|h|, i requires 0 <= i < |h| => Evicts(s256, h, i, username));
      var last := LastMark(evictions, s.value.first, |h|);
      assert forall k | 0 <= k < |h| :: evictions[k] == Evicts(s256, h, k, username);
      if last == s.value.first {
        HeldSinceFirst(s256, h, username);
      } else {
        HeldSinceEviction(s256, h, username, last);
        forall i | s.value.first < i < |h| && Evicts(s256, h, i, username)
          ensures FailuresFrom(s256, h, username, i) >= FailuresFrom(s256, h, username, last)
        {
          FailuresFromEarlier(s256, h, username, i, last);
        }
      }
    }
  }

  lemma {:induction false} EvictionFillsOthers(s256: string -> string, h: Run, username: Digest, i: nat)
    requires Orderly(h) && StreakOf(s256, h, username).Some?
    requires StreakOf(s256, h, username).value.first < i < |h| && Evicts(s256, h, i, username)
    ensures var first := StreakOf(s256, h, username).value.first;
            |Others(s256, h, username, Later(h[first].now, LOCKOUT))| >= MAX_FAILURES
  {
    var first, before := StreakOf(s256, h, username).value.first, h[..i];
    OrderlyPrefix(h, i);
    EvictionNeedsOthers(s256, h, i, username);
    HeldIsWithin(s256, before, username);
    StreakGoesBack(s256, h, username, i);
    UntilFollowsFirst(s256, before, username);
    var until := Held(s256, before, username).value.until;
    OthersGrow(s256, h, i + 1, username, until, Later(h[first].now, LOCKOUT));
    SubsetSize(Others(s256, h[..i + 1], username, until), Others(s256, h, username, Later(h[first].now, LOCKOUT)));
  }

  /**
    The main result for lockout: unless 64 other names have failed since its streak began,
    a name is blocked exactly when five of its attempts in a row failed, each within 300 s
    of the one before, and until 300 s after the last.
   */
  lemma {:induction false} FiveFailuresBlock(s256: string -> string, h: Run, username: Digest, now: nat)
    requires Orderly(h)
    requires var s := StreakOf(s256, h, username);
             s.Some? ==> |Others(s256, h, username, Later(h[s.value.first].now, LOCKOUT))| < MAX_FAILURES
    ensures Blocked(After(s256, h).failures, username, now) <==>
            var s := StreakOf(s256, h, username); s.Some? && s.value.count == 5 && now < s.value.until
  {
    BlockedExactly(s256, h, username, now);
    var s := StreakOf(s256, h, username);
    if s.Some? {
      forall i | s.value.first < i < |h|
        ensures !Evicts(s256, h, i, username)
      {
        if Evicts(s256, h, i, username) {
          EvictionFillsOthers(s256, h, username, i);
        }
      }
    }
  }
}
