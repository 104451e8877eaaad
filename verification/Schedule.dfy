/**
  Catching up on a schedule, one occurrence at a time.

  However the work is split, by budgets and by clock readings on the way, the occurrences
  are the same: the start and every interval after it, up to the last reading.
 */
module Schedule {
  import opened Options
  import opened Division
  import opened Limits

  datatype Error = Unavailable | InvalidInput | Overflow

  datatype Occurrence = Occurrence(dueAt: nat, nextDueAt: nat)

  predicate ValidTime(t: nat) { MIN_CLOCK <= t <= MAX_SEQUENCE }

  predicate ValidPlan(nextDueAt: nat, interval: nat) {
    ValidTime(nextDueAt) && 1 <= interval <= MAX_SEQUENCE
  }

  function DueOccurrence(nextDueAt: nat, interval: nat, now: nat): (r: Result<Option<Occurrence>, Error>) {
    if !ValidTime(now) then Err(Unavailable)
    else if !ValidPlan(nextDueAt, interval) then Err(InvalidInput)
    else if now < nextDueAt then Ok(None)
    else if nextDueAt + interval > MAX_SEQUENCE then Err(Overflow)
    else Ok(Some(Occurrence(nextDueAt, nextDueAt + interval)))
  }

  /**
    What is answered for every schedule and clock: a clock before 2020 or past the largest
    exact number is not believed; a schedule must lie in that range and repeat after at
    least a second; an occurrence whose successor does not is an overflow once it is due.
   */
  lemma DueExactly(nextDueAt: nat, interval: nat, now: nat)
    ensures var r := DueOccurrence(nextDueAt, interval, now);
            var clock := 1_577_836_800 <= now <= 9_007_199_254_740_991;
            var plan := 1_577_836_800 <= nextDueAt <= 9_007_199_254_740_991 && 1 <= interval <= 9_007_199_254_740_991;
            && (r == Err(Unavailable) <==> !clock)
            && (r == Err(InvalidInput) <==> clock && !plan)
            && (r == Ok(None) <==> clock && plan && now < nextDueAt)
            && (r == Err(Overflow) <==>
                  clock && plan && nextDueAt <= now && nextDueAt + interval > 9_007_199_254_740_991)
            && (r.Ok? && r.value.Some? <==>
                  clock && plan && nextDueAt <= now && nextDueAt + interval <= 9_007_199_254_740_991)
            && (r.Ok? && r.value.Some? ==> r.value.value == Occurrence(nextDueAt, nextDueAt + interval))
  {
  }

  /** Where a schedule stands, what was settled on the way, and what stopped it. */
  datatype Progress = Progress(next: nat, visited: seq<nat>, stopped: Option<Error>)

  /** Settles what is due, up to a budget. */
  function CatchUp(next: nat, interval: nat, now: nat, budget: nat): (p: Progress)
    decreases budget
  {
    if budget == 0 then Progress(next, [], None)
    else
      match DueOccurrence(next, interval, now)
      case Err(error) => Progress(next, [], Some(error))
      case Ok(None) => Progress(next, [], None)
      case Ok(Some(o)) =>
        var rest := CatchUp(o.nextDueAt, interval, now, budget - 1);
        Progress(rest.next, [o.dueAt] + rest.visited, rest.stopped)
  }

  // ----- which occurrences

  function Times(k: nat, interval: nat): (t: nat) { k * interval }

  /** The first occurrences of a schedule. */
  function Grid(start: nat, interval: nat, n: nat): (due: seq<nat>) {
    seq(n, k requires 0 <= k < n => start + Times(k, interval))
  }

  /** How many occurrences a clock has reached. */
  function Periods(start: nat, interval: nat, now: nat): (n: nat)
    requires interval > 0
  {
    if now < start then 0 else (now - start) / interval + 1
  }

  /** The last occurrence reached has no successor in range. */
  predicate Overflows(start: nat, interval: nat, now: nat)
    requires interval > 0
  {
    var n := Periods(start, interval, now);
    n > 0 && start + Times(n, interval) > MAX_SEQUENCE
  }

  function Settled(start: nat, interval: nat, now: nat): (n: nat)
    requires interval > 0
  {
    if Overflows(start, interval, now) then Periods(start, interval, now) - 1 else Periods(start, interval, now)
  }

  lemma TimesNext(k: nat, interval: nat)
    ensures Times(k + 1, interval) == Times(k, interval) + interval
  {
  }

  lemma TimesSum(j: nat, k: nat, interval: nat)
    ensures Times(j + k, interval) == Times(j, interval) + Times(k, interval)
  {
  }

  lemma OnePeriodLess(start: nat, interval: nat, now: nat)
    requires interval > 0 && start <= now
    ensures Periods(start + interval, interval, now) == Periods(start, interval, now) - 1
  {
    var x := now - start;
    if x < interval {
      DivisionIsUnique(x, 0, x, interval);
    } else {
      var q, r := (x - interval) / interval, (x - interval) % interval;
      TimesNext(q, interval);
      DivisionIsUnique(x, q + 1, r, interval);
    }
  }

  /** The periods reached are those up to the clock. */
  lemma {:induction false} PeriodsReach(start: nat, interval: nat, now: nat)
    requires interval > 0 && start <= now
    ensures var n := Periods(start, interval, now);
            start + Times(n - 1, interval) <= now < start + Times(n, interval)
    decreases now - start
  {
    OnePeriodLess(start, interval, now);
    var n := Periods(start, interval, now);
    TimesNext(n - 1, interval);
    if start + interval <= now {
      PeriodsReach(start + interval, interval, now);
      TimesNext(n - 2, interval);
    } else {
      assert n == 1;
    }
  }

  lemma SettledNext(start: nat, interval: nat, now: nat)
    requires ValidPlan(start, interval) && ValidTime(now) && start <= now
    ensures start + interval > MAX_SEQUENCE ==> Settled(start, interval, now) == 0 && Overflows(start, interval, now)
    ensures start + interval <= MAX_SEQUENCE ==>
              && Settled(start + interval, interval, now) == Settled(start, interval, now) - 1
              && Overflows(start + interval, interval, now) == Overflows(start, interval, now)
  {
    OnePeriodLess(start, interval, now);
    var n := Periods(start, interval, now);
    TimesNext(n - 1, interval);
  }

  lemma GridStep(start: nat, interval: nat, n: nat)
    requires n > 0
    ensures Grid(start, interval, n) == [start] + Grid(start + interval, interval, n - 1)
  {
    forall k | 0 < k < n
      ensures Grid(start, interval, n)[k] == Grid(start + interval, interval, n - 1)[k - 1]
    {
      TimesNext(k - 1, interval);
    }
  }

  /**
    A run with any budget visits the start and every interval after it, each once and in
    order, as far as the budget and the clock allow, and is stopped by an overflow exactly
    when it had the budget to reach an occurrence without a successor.
   */
  lemma {:induction false} CatchUpVisits(start: nat, interval: nat, now: nat, budget: nat)
    requires ValidPlan(start, interval) && ValidTime(now)
    ensures var p, all := CatchUp(start, interval, now, budget), Settled(start, interval, now);
            var n := if budget < all then budget else all;
            && p.visited == Grid(start, interval, n)
            && p.next == start + Times(n, interval)
            && p.stopped == if Overflows(start, interval, now) && budget > all then Some(Overflow) else None
    decreases budget
  {
    if budget > 0 && start <= now {
      SettledNext(start, interval, now);
      if start + interval <= MAX_SEQUENCE {
        CatchUpVisits(start + interval, interval, now, budget - 1);
        var all := Settled(start, interval, now);
        var n := if budget < all then budget else all;
        GridStep(start, interval, n);
        TimesNext(n - 1, interval);
      }
    }
  }

  /** With budget enough, every occurrence reached is settled exactly when the last has a successor. */
  lemma {:induction false} AllAreSettled(start: nat, interval: nat, now: nat, budget: nat)
    requires ValidPlan(start, interval) && ValidTime(now) && budget >= Periods(start, interval, now)
    ensures var p := CatchUp(start, interval, now, budget);
            var n := Periods(start, interval, now);
            && (p.visited == Grid(start, interval, n) <==> n == 0 || start + Times(n, interval) <= MAX_SEQUENCE)
            && (p.visited == Grid(start, interval, n) || p.visited == Grid(start, interval, n - 1))
            && (p.stopped == None <==> p.visited == Grid(start, interval, n))
  {
    CatchUpVisits(start, interval, now, budget);
    var n := Periods(start, interval, now);
    if n > 0 {
      assert |Grid(start, interval, n)| != |Grid(start, interval, n - 1)|;
    }
  }

  // ----- any split into ticks

  datatype Tick = Tick(now: nat, budget: nat)

  /** Catching up at some clock readings, each with a budget. */
  function RunTicks(next: nat, interval: nat, ticks: seq<Tick>): (p: Progress) {
    if ticks == [] then Progress(next, [], None)
    else
      var n := |ticks| - 1;
      var before := RunTicks(next, interval, ticks[..n]);
      var p := CatchUp(before.next, interval, ticks[n].now, ticks[n].budget);
      Progress(p.next, before.visited + p.visited, p.stopped)
  }

  lemma {:induction false} SettledAfter(start: nat, interval: nat, now: nat, m: nat)
    requires ValidPlan(start, interval) && ValidTime(now) && m <= Settled(start, interval, now)
    ensures ValidPlan(start + Times(m, interval), interval)
    ensures Settled(start + Times(m, interval), interval, now) == Settled(start, interval, now) - m
    decreases m
  {
    if m == 0 {
      assert Times(m, interval) == 0;
    } else {
      SettledNext(start, interval, now);
      SettledAfter(start + interval, interval, now, m - 1);
      TimesNext(m - 1, interval);
    }
  }

  lemma MorePeriods(start: nat, interval: nat, now: nat, later: nat)
    requires interval > 0 && now <= later
    ensures Periods(start, interval, now) <= Periods(start, interval, later)
  {
    if start <= now {
      PeriodsReach(start, interval, now);
      PeriodsReach(start, interval, later);
      var n, m := Periods(start, interval, now), Periods(start, interval, later);
      if m < n {
        TimesSum(m, n - 1 - m, interval);
      }
    }
  }

  lemma MoreSettled(start: nat, interval: nat, now: nat, later: nat)
    requires interval > 0 && now <= later
    ensures Settled(start, interval, now) <= Settled(start, interval, later)
  {
    MorePeriods(start, interval, now, later);
  }

  lemma GridSum(start: nat, interval: nat, m: nat, n: nat)
    ensures Grid(start, interval, m) + Grid(start + Times(m, interval), interval, n) == Grid(start, interval, m + n)
  {
    forall k | 0 <= k < n
      ensures start + Times(m, interval) + Times(k, interval) == start + Times(m + k, interval)
    {
      TimesSum(m, k, interval);
    }
  }

  /** Whatever the ticks, the occurrences settled so far are the first ones, none past the last reading. */
  lemma {:induction false} TicksVisit(start: nat, interval: nat, ticks: seq<Tick>, now: nat) returns (m: nat)
    requires ValidPlan(start, interval) && ValidTime(now)
    requires forall i | 0 <= i < |ticks| :: ticks[i].now <= now
    ensures m <= Settled(start, interval, now)
    ensures RunTicks(start, interval, ticks).visited == Grid(start, interval, m)
    ensures RunTicks(start, interval, ticks).next == start + Times(m, interval)
  {
    m := 0;
    if ticks != [] {
      var n := |ticks| - 1;
      var t := ticks[n];
      var before := RunTicks(start, interval, ticks[..n]);
      m := TicksVisit(start, interval, ticks[..n], now);
      if ValidTime(t.now) {
        SettledAfter(start, interval, now, m);
        CatchUpVisits(before.next, interval, t.now, t.budget);
        MoreSettled(before.next, interval, t.now, now);
        var all := Settled(before.next, interval, t.now);
        var more := if t.budget < all then t.budget else all;
        GridSum(start, interval, m, more);
        TimesSum(m, more, interval);
        m := m + more;
      }
    }
  }

  lemma {:induction false} OverflowsAfter(start: nat, interval: nat, now: nat, m: nat)
    requires ValidPlan(start, interval) && ValidTime(now) && m <= Settled(start, interval, now)
    ensures ValidPlan(start + Times(m, interval), interval)
    ensures Overflows(start + Times(m, interval), interval, now) == Overflows(start, interval, now)
    decreases m
  {
    if m == 0 {
      assert Times(m, interval) == 0;
    } else {
      SettledNext(start, interval, now);
      OverflowsAfter(start + interval, interval, now, m - 1);
      TimesNext(m - 1, interval);
    }
  }

  /** A catch-up that starts after some occurrences visits the rest of them. */
  lemma RestIsTheSame(start: nat, interval: nat, now: nat, budget: nat, m: nat)
    requires ValidPlan(start, interval) && ValidTime(now)
    requires m <= Settled(start, interval, now) && Periods(start, interval, now) <= budget
    ensures var all, rest := CatchUp(start, interval, now, budget),
                             CatchUp(start + Times(m, interval), interval, now, budget);
            all == Progress(rest.next, Grid(start, interval, m) + rest.visited, rest.stopped)
  {
    var next := start + Times(m, interval);
    SettledAfter(start, interval, now, m);
    OverflowsAfter(start, interval, now, m);
    CatchUpVisits(next, interval, now, budget);
    CatchUpVisits(start, interval, now, budget);
    var more: nat := Settled(start, interval, now) - m;
    GridSum(start, interval, m, more);
    TimesSum(m, more, interval);
  }

  /**
    The main result for schedules: any ticks before the last, with any budgets and any
    readings that are not later, settle together what one run at the last reading settles.
   */
  lemma {:induction false} AnySplitIsTheSame(start: nat, interval: nat, ticks: seq<Tick>, last: Tick)
    requires ValidPlan(start, interval) && ValidTime(last.now)
    requires forall i | 0 <= i < |ticks| :: ticks[i].now <= last.now
    requires last.budget >= Periods(start, interval, last.now)
    ensures RunTicks(start, interval, ticks + [last]) == CatchUp(start, interval, last.now, last.budget)
  {
    var m := TicksVisit(start, interval, ticks, last.now);
    assert (ticks + [last])[..|ticks|] == ticks;
    RestIsTheSame(start, interval, last.now, last.budget, m);
  }
}
