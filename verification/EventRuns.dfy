/**
  Runs of events. Each is validated, planned, stored and applied; a correction names an
  earlier recorded transaction. Over any run nothing trips, the books are those of a bank
  that posts each event straight away, and what the bank checks of itself keeps holding.
 */
module EventRuns {
  import opened Options
  import opened Limits
  import opened Posting
  import opened Publishing
  import opened Events

  /** The books, the members whose credit is blocked, and every transaction so far. */
  datatype State = State(books: Books, mask: nat, recorded: seq<Posting>)

  type PlainEvent = e: Event | !e.Correct? witness Other

  /** A command, with the members who are disabled at the time; a correction may be refused for other reasons. */
  datatype Command =
    | Do(event: PlainEvent, disabled: set<nat>)
    | Undo(original: nat, amount: int, overdraft: bool, disabled: set<nat>)

  /** The event of a command: a correction sends an earlier transaction's money back, in its currency. */
  function EventOf(recorded: seq<Posting>, c: Command): (r: Result<Event, Error>) {
    match c
    case Do(event, _) => Ok(event)
    case Undo(original, amount, overdraft, _) =>
      if original >= |recorded| then Err(NotFound)
      else
        var tx := recorded[original];
        Ok(Correct(tx.to, tx.from, amount, tx.usd, overdraft))
  }

  datatype Outcome = Refused(error: Error) | Applied(next: State) | Tripped

  /** An event as the bank performs it: validated, planned, and its plan applied. */
  function Perform(s: State, c: Command): (o: Outcome) {
    var event := EventOf(s.recorded, c);
    if event.Err? then Refused(event.error)
    else
      var e := event.value;
      var refusal := Validate(s.books, c.disabled, e);
      if refusal.Some? then Refused(refusal.value)
      else
        var plan := Prepare(s.books, s.mask, e.Loan?, e);
        if plan.Err? then Refused(plan.error)
        else
          var end := ApplyPlan(s.books, s.mask, e, plan.value);
          if end.None? then Tripped else Applied(State(end.value.0, end.value.1, s.recorded + end.value.2))
  }

  /** The reference: a validated event is posted straight away. */
  function PostDirectly(s: State, c: Command): (o: Outcome) {
    var event := EventOf(s.recorded, c);
    if event.Err? then Refused(event.error)
    else
      var e := event.value;
      var refusal := Validate(s.books, c.disabled, e);
      if refusal.Some? then Refused(refusal.value)
      else
        var books, moves := AddMember(s.books, e, NextId(s.books)), Moves(s.books, e);
        if !AllKnown(books, moves) then Tripped
        else
          var posted := PostAll(books, moves);
          if posted.Err? then Refused(posted.error)
          else Applied(State(posted.value, MaskAfter(s.mask, moves, e.Loan?), s.recorded + moves))
  }

  /** A run of commands, each performed the same way; none when one of them trips. */
  function Run(perform: (State, Command) -> Outcome, s: State, commands: seq<Command>): (end: Option<State>)
    decreases |commands|
  {
    if commands == [] then Some(s)
    else
      match perform(s, commands[0])
      case Refused(_) => Run(perform, s, commands[1..])
      case Applied(next) => Run(perform, next, commands[1..])
      case Tripped => None
  }

  /** What every step keeps: members in order and within the limits, and no dollars recorded into or out of escrow. */
  predicate Sound(s: State) {
    Numbered(s.books) && WithinLimits(s.books.members) && AllKeepEscrow(s.recorded)
  }

  // ----- one step

  /** Adding a member with nothing changes neither sum and no wallet. */
  lemma {:induction false} AddingKeepsSums(b: Books, e: Event, id: nat)
    ensures CoinSum(AddMember(b, e, id)) == CoinSum(b) && DollarSum(AddMember(b, e, id)) == DollarSum(b)
    ensures WithinLimits(b.members) ==> WithinLimits(AddMember(b, e, id).members)
  {
    if e.CreateMember? {
      var m := Member(id, 0, 0);
      HeldConcat(b.members, [m]);
      assert CoinsHeld([m]) == m.balance + CoinsHeld([]) && CentsHeld([m]) == m.usdCents + CentsHeld([]);
    }
  }

  lemma {:induction false} SameNumbers(a: Books, b: Books)
    requires Numbered(a) && Ids(a.members) == Ids(b.members)
    ensures Numbered(b)
  {
    assert |Ids(a.members)| == |Ids(b.members)|;
    forall i | 0 <= i < |b.members|
      ensures b.members[i].id == i + 1
    {
      assert Ids(a.members)[i] == Ids(b.members)[i];
    }
  }

  /**
    One command in any sound state: the bank does just what posting directly does, trips
    nothing, refuses only what validation refuses, keeps both sums, and stays sound.
   */
  lemma {:induction false} StepIsPosted(s: State, c: Command)
    requires Sound(s)
    ensures Perform(s, c) == PostDirectly(s, c) && !Perform(s, c).Tripped?
    ensures Perform(s, c).Refused? <==>
            EventOf(s.recorded, c).Err? || Validate(s.books, c.disabled, EventOf(s.recorded, c).value).Some?
    ensures Perform(s, c).Applied? ==>
              var next := Perform(s, c).next;
              && Sound(next) && s.recorded <= next.recorded
              && CoinSum(next.books) == CoinSum(s.books) && DollarSum(next.books) == DollarSum(s.books)
  {
    var event := EventOf(s.recorded, c);
    if event.Ok? && Validate(s.books, c.disabled, event.value).None? {
      var e := event.value;
      var books, moves := AddMember(s.books, e, NextId(s.books)), Moves(s.books, e);
      EventIsPosted(s.books, c.disabled, s.mask, e.Loan?, e);
      ValidatedIsPosted(s.books, c.disabled, e);
      AddingKeepsSums(s.books, e, NextId(s.books));
      PostingsKeepIds(books, moves);
      SameNumbers(books, PostAll(books, moves).value);
      PostingsKeepLimits(books, moves);
    }
  }

  // ----- any run

  /**
    The main result: from any sound state, every run of commands is performed as posting
    directly performs it. Nothing trips, only more is recorded, both currencies' sums stay as
    they were, and the state stays sound: no dollars are ever recorded into or out of escrow,
    although a correction takes its parties and its currency from what was recorded.
   */
  lemma {:induction false} RunIsPosted(s: State, commands: seq<Command>)
    requires Sound(s)
    ensures var end := Run(Perform, s, commands);
            && end == Run(PostDirectly, s, commands)
            && end.Some? && Sound(end.value) && s.recorded <= end.value.recorded
            && CoinSum(end.value.books) == CoinSum(s.books) && DollarSum(end.value.books) == DollarSum(s.books)
    decreases |commands|
  {
    if commands != [] {
      StepIsPosted(s, commands[0]);
      match Perform(s, commands[0]) {
        case Refused(_) => RunIsPosted(s, commands[1..]);
        case Applied(next) => RunIsPosted(next, commands[1..]);
      }
    }
  }

  /** A bank before its first event. */
  function Empty(): (s: State) {
    State(Books(0, 0, 0, []), 0, [])
  }

  /** So the bank's own check of its books never fails: after any run they balance, in both currencies. */
  lemma {:induction false} BooksAlwaysBalance(commands: seq<Command>)
    ensures var end := Run(Perform, Empty(), commands);
            && end.Some? && |end.value.books.members| <= MEMBERS && FitsI64(end.value.books.usdIssuance)
            && CoinSum(end.value.books) == 0 && DollarSum(end.value.books) == 0
            && WithinLimits(end.value.books.members)
  {
    RunIsPosted(Empty(), commands);
    HeldIsBounded(Run(Perform, Empty(), commands).value.books.members);
  }
}
