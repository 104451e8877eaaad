/**
  Every event that moves money: how it is validated, the postings it plans, the
  transactions it records, and what follows for all of them. What validation accepts is
  planned, and planning and applying does what posting does, trips nothing, and keeps the
  books balanced.
 */
module Events {
  import opened Options
  import opened Limits
  import opened Posting
  import opened Publishing

  /** An event by what it moves; parties and amounts that a listing, an offer or a plan chose are given. */
  datatype Event =
    | Issue(to: nat, amount: int)
    | Retire(from: nat, amount: int)
    | Transfer(actor: nat, to: nat, amount: int)
    | CreateMember(grant: int)
    | Buy(payer: nat, payee: nat, price: int)
    | Correct(payer: nat, payee: nat, amount: int, usd: bool, overdraft: bool)
    | IssueUsd(to: nat, cents: int)
    | TakeQuote(seller: nat, buyer: nat, coins: int, cents: int)
    | AcceptOffer(payer: nat, payee: nat, amount: int)
    | UnacceptOffer(payee: nat, payer: nat, amount: int)
    | Contribute(actor: nat, owner: nat, amount: int)
    | BuyArt(actor: nat, seller: nat, amount: int)
    | Loan(draw: int, drawAmount: int, principal: int, interest: int, lender: nat, borrower: nat)
    | BuyTickets(actor: nat, amount: int)
    | PayPrize(to: nat, prize: nat)
    | PayInterest(house: nat, to: nat, remaining: nat)
    | IssueInterest(to: nat, remaining: nat)
    | Other

  /** Members are numbered from one, in the order they were created. */
  predicate Numbered(b: Books) {
    |b.members| <= MEMBERS && forall i | 0 <= i < |b.members| :: b.members[i].id == i + 1
  }

  function NextId(b: Books): (id: nat) { |b.members| + 1 }

  // ----- planning an event

  predicate IsLotto(e: Event) { e.BuyTickets? || e.PayPrize? || e.PayInterest? || e.IssueInterest? }

  /** What a lotto event pays; a house pays no more interest than it has. */
  function LottoAmount(b: Books, e: Event): (amount: int)
    requires IsLotto(e)
  {
    match e
    case BuyTickets(_, amount) => amount
    case PayPrize(_, prize) => prize
    case PayInterest(house, _, remaining) =>
      var cash := Balance(b, Coins(house));
      if cash <= 0 then 0 else if cash < remaining then cash else remaining
    case IssueInterest(_, remaining) => remaining
  }

  /** The postings an event plans, in order. */
  function EventPostings(b: Books, e: Event): (r: Result<seq<Posting>, Error>) {
    match e
    case Issue(to, amount) => Ok([Posting(ISSUER, to, amount, false)])
    case Retire(from, amount) => Ok([Posting(from, ISSUER, amount, false)])
    case Transfer(actor, to, amount) => Ok([Posting(actor, to, amount, false)])
    case CreateMember(grant) => Ok([Posting(ISSUER, NextId(b), grant, false)])
    case Buy(payer, payee, price) => Ok([Posting(payer, payee, price, false)])
    case Correct(payer, payee, amount, usd, _) => Ok([Posting(payer, payee, amount, usd)])
    case IssueUsd(to, cents) => Ok([Posting(ISSUER, to, cents, true)])
    case TakeQuote(seller, buyer, coins, cents) =>
      Ok([Posting(seller, buyer, coins, false), Posting(buyer, seller, cents, true)])
    case AcceptOffer(payer, payee, amount) => Ok([Posting(payer, payee, amount, false)])
    case UnacceptOffer(payee, payer, amount) => Ok([Posting(payee, payer, amount, false)])
    case Contribute(actor, owner, amount) => Ok([Posting(actor, owner, amount, false)])
    case BuyArt(actor, seller, amount) => Ok([Posting(actor, seller, amount, false)])
    case Loan(draw, drawAmount, principal, interest, lender, borrower) =>
      var rows := LoanRows(draw, drawAmount, principal, interest, lender, borrower);
      if rows.Err? then Err(rows.error) else Ok(PostingsOf(rows.value))
    case BuyTickets(actor, _) => Ok([Posting(actor, ESCROW, LottoAmount(b, e), false)])
    case PayPrize(to, _) => Ok([Posting(ESCROW, to, LottoAmount(b, e), false)])
    case PayInterest(house, to, _) => Ok([Posting(house, to, LottoAmount(b, e), false)])
    case IssueInterest(to, _) => Ok([Posting(ISSUER, to, LottoAmount(b, e), false)])
    case Other => Ok([])
  }

  /** What a plan holds: the number for a new member, what a lotto pays, the legs, and the rows noted for a loan. */
  datatype Plan = Plan(id: nat, paid: int, legs: seq<Leg>, rows: seq<LoanRow>)

  function Prepare(b: Books, mask: nat, loan: bool, e: Event): (r: Result<Plan, Error>) {
    match e
    case Loan(draw, drawAmount, principal, interest, lender, borrower) =>
      var rows := LoanRows(draw, drawAmount, principal, interest, lender, borrower);
      if rows.Err? then Err(rows.error)
      else
        var (legs, noted, error) := PlanRows(b, mask, loan, [], [], rows.value);
        if error.Some? then Err(error.value) else Ok(Plan(NextId(b), 0, legs, noted))
    case _ =>
      var legs := PlanAll(b, mask, loan, [], EventPostings(b, e).value);
      if legs.Err? then Err(legs.error)
      else Ok(Plan(NextId(b), if IsLotto(e) then LottoAmount(b, e) else 0, legs.value, []))
  }

  // ----- applying it

  /** The books that an event's transactions are applied to: a new member is added first, with nothing. */
  function AddMember(b: Books, e: Event, id: nat): (after: Books) {
    if e.CreateMember? then b.(members := b.members + [Member(id, 0, 0)]) else b
  }

  /**
    The transactions an event records while it is applied. A correction takes its amount
    from the first leg, and none is recorded when there is no leg; a loan takes the rows
    that were noted; a grant or a lotto payment of nothing is not recorded.
   */
  function Record(e: Event, plan: Plan): (txs: Option<seq<Posting>>) {
    match e
    case Issue(to, amount) => Some([Posting(ISSUER, to, amount, false)])
    case Retire(from, amount) => Some([Posting(from, ISSUER, amount, false)])
    case Transfer(actor, to, amount) => Some([Posting(actor, to, amount, false)])
    case CreateMember(grant) => Some(if grant > 0 then [Posting(ISSUER, plan.id, grant, false)] else [])
    case Buy(payer, payee, price) => Some([Posting(payer, payee, price, false)])
    case Correct(payer, payee, _, usd, _) =>
      if plan.legs == [] then None else Some([Posting(payer, payee, plan.legs[0].posting.amount, usd)])
    case IssueUsd(to, cents) => Some([Posting(ISSUER, to, cents, true)])
    case TakeQuote(seller, buyer, coins, cents) =>
      Some([Posting(seller, buyer, coins, false), Posting(buyer, seller, cents, true)])
    case AcceptOffer(payer, payee, amount) => Some([Posting(payer, payee, amount, false)])
    case UnacceptOffer(payee, payer, amount) => Some([Posting(payee, payer, amount, false)])
    case Contribute(actor, owner, amount) => Some([Posting(actor, owner, amount, false)])
    case BuyArt(actor, seller, amount) => Some([Posting(actor, seller, amount, false)])
    case Loan(_, _, _, _, _, _) => Some(PostingsOf(plan.rows))
    case BuyTickets(actor, _) => Some(if plan.paid > 0 then [Posting(actor, ESCROW, plan.paid, false)] else [])
    case PayPrize(to, _) => Some(if plan.paid > 0 then [Posting(ESCROW, to, plan.paid, false)] else [])
    case PayInterest(house, to, _) => Some(if plan.paid > 0 then [Posting(house, to, plan.paid, false)] else [])
    case IssueInterest(to, _) => Some(if plan.paid > 0 then [Posting(ISSUER, to, plan.paid, false)] else [])
    case Other => Some([])
  }

  /** Applies a plan; none when an assertion fails on the way or a leg is left over. */
  function ApplyPlan(b: Books, mask: nat, e: Event, plan: Plan): (end: Option<(Books, nat, seq<Posting>)>) {
    var txs := Record(e, plan);
    if txs.None? then None
    else
      var last := ApplyTxs(plan.legs, Publication(AddMember(b, e, plan.id), mask, 0), txs.value);
      if last.None? || last.value.consumed != |plan.legs| then None
      else Some((last.value.books, last.value.mask, txs.value))
  }

  // ----- validation

  predicate IsMember(b: Books, id: nat) {
    Find(b.members, id) < |b.members|
  }

  /** A party of a payment: the issuer, or a member who may take part in it. */
  function CheckParty(b: Books, disabled: set<nat>, id: nat, correction: bool): (refusal: Option<Error>) {
    if id == ISSUER then None
    else if !IsMember(b, id) then Some(NotFound)
    else if !correction && id in disabled then Some(Disabled)
    else None
  }

  /** The check of one payment, in either currency; a correction may overdraw the payer. */
  function CheckPayment(b: Books, disabled: set<nat>, p: Posting, correction: bool): (refusal: Option<Error>) {
    var payer, payee := CheckParty(b, disabled, p.from, correction), CheckParty(b, disabled, p.to, correction);
    if p.from == p.to || !InRange(p) then Some(InvalidInput)
    else if payer.Some? then payer
    else if payee.Some? then payee
    else
      var k := Kernel(Balance(b, p.Payer()), Balance(b, p.Payee()), p.amount, p.usd, false);
      if k.Err? then Some(k.error)
      else if !correction && p.from != ISSUER && Balance(b, p.Payer()) < p.amount then Some(InsufficientFunds)
      else None
  }

  /** A loan's payments are checked as one, by their sum. */
  function CheckLoan(
    b: Books, disabled: set<nat>, draw: int, drawAmount: int, principal: int, interest: int, lender: nat, borrower: nat)
    : (refusal: Option<Error>)
  {
    var rows := LoanRows(draw, drawAmount, principal, interest, lender, borrower);
    var sum := if draw == 1 then drawAmount else principal + interest;
    if rows.Err? then Some(rows.error)
    else if sum == 0 then None
    else if draw == 1 then CheckPayment(b, disabled, Posting(lender, borrower, sum, false), false)
    else CheckPayment(b, disabled, Posting(borrower, lender, sum, false), false)
  }

  /** Tickets are paid for with money the buyer has. */
  function CheckTickets(b: Books, actor: nat, amount: int): (refusal: Option<Error>) {
    if !IsMember(b, actor) then Some(NotFound)
    else if amount < 1 then Some(InvalidInput)
    else if amount > MAX_AMOUNT || b.escrow + amount > MAX_SEQUENCE then Some(Overflow)
    else if Balance(b, Coins(actor)) < amount then Some(InsufficientFunds)
    else None
  }

  /** What a lotto pays out goes to a member, within the limits. */
  function CheckPayout(b: Books, p: Posting): (refusal: Option<Error>) {
    if p.amount == 0 then None
    else if !IsMember(b, p.to) then Some(NotFound)
    else
      var k := Kernel(Balance(b, p.Payer()), Balance(b, p.Payee()), p.amount, p.usd, p.from == p.to);
      if k.Err? then Some(k.error) else None
  }

  /** What validation says of the money an event moves. */
  function Validate(b: Books, disabled: set<nat>, e: Event): (refusal: Option<Error>) {
    match e
    case Issue(to, amount) =>
      if !IsMember(b, to) then Some(NotFound) else CheckPayment(b, disabled, Posting(ISSUER, to, amount, false), false)
    case Retire(from, amount) =>
      if !IsMember(b, from) then Some(NotFound)
      else CheckPayment(b, disabled, Posting(from, ISSUER, amount, false), false)
    case Transfer(actor, to, amount) =>
      if !IsMember(b, actor) || !IsMember(b, to) then Some(NotFound)
      else if amount != 0 then CheckPayment(b, disabled, Posting(actor, to, amount, false), false)
      else if actor == to then Some(SelfDeal)
      else if to in disabled then Some(Disabled)
      else None
    case CreateMember(grant) =>
      if |b.members| >= MEMBERS then Some(Capacity)
      else if grant < 0 || grant > MAX_AMOUNT then Some(InvalidInput)
      else if b.issuance - grant < -MAX_SEQUENCE then Some(Overflow)
      else None
    case Buy(payer, payee, price) => CheckPayment(b, disabled, Posting(payer, payee, price, false), false)
    case Correct(payer, payee, amount, usd, overdraft) =>
      CheckPayment(b, disabled, Posting(payer, payee, amount, usd), overdraft)
    case IssueUsd(to, cents) => CheckPayment(b, disabled, Posting(ISSUER, to, cents, true), false)
    case TakeQuote(seller, buyer, coins, cents) =>
      var refusal := CheckPayment(b, disabled, Posting(seller, buyer, coins, false), false);
      if refusal.Some? then refusal else CheckPayment(b, disabled, Posting(buyer, seller, cents, true), false)
    case AcceptOffer(payer, payee, amount) => CheckPayment(b, disabled, Posting(payer, payee, amount, false), false)
    case UnacceptOffer(payee, payer, amount) => CheckPayment(b, disabled, Posting(payee, payer, amount, false), true)
    case Contribute(actor, owner, amount) => CheckPayment(b, disabled, Posting(actor, owner, amount, false), false)
    case BuyArt(actor, seller, amount) => CheckPayment(b, disabled, Posting(actor, seller, amount, false), false)
    case Loan(draw, drawAmount, principal, interest, lender, borrower) =>
      CheckLoan(b, disabled, draw, drawAmount, principal, interest, lender, borrower)
    case BuyTickets(actor, amount) => CheckTickets(b, actor, amount)
    case PayPrize(to, _) => CheckPayout(b, Posting(ESCROW, to, LottoAmount(b, e), false))
    case PayInterest(house, to, _) => CheckPayout(b, Posting(house, to, LottoAmount(b, e), false))
    case IssueInterest(to, _) => CheckPayout(b, Posting(ISSUER, to, LottoAmount(b, e), false))
    case Other => None
  }

  // ----- the reference: posting what the event moves

  /** What an event moves: its postings, but a grant or a lotto payment of nothing is none. */
  function Moves(b: Books, e: Event): (postings: seq<Posting>) {
    var postings := EventPostings(b, e);
    if postings.Err? || (e.CreateMember? && e.grant == 0) || (IsLotto(e) && LottoAmount(b, e) == 0) then []
    else postings.value
  }

  // ----- what validation establishes

  /** Escrow is nobody's wallet but its own, because its number is beyond the members'. */
  lemma NoMemberIsEscrow(b: Books, id: nat)
    requires Numbered(b) && IsMember(b, id)
    ensures id != ESCROW && id != ISSUER
  {
    assert b.members[Find(b.members, id)].id == Find(b.members, id) + 1;
  }

  /** A payment between two parties that exist, neither of them escrow, within the limits. */
  predicate Sendable(b: Books, p: Posting) {
    && Known(b, p) && InRange(p) && p.from != p.to && p.from != ESCROW && p.to != ESCROW
    && Fits(Balance(b, p.Payer()), Balance(b, p.Payee()), p)
  }

  /** A payment that is accepted leaves escrow alone, and posting it is accepted as well. */
  lemma CheckedPayment(b: Books, disabled: set<nat>, p: Posting, correction: bool)
    requires Numbered(b) && CheckPayment(b, disabled, p, correction).None?
    ensures Sendable(b, p) && Post(b, p).Ok?
  {
    if p.from != ISSUER {
      NoMemberIsEscrow(b, p.from);
    }
    if p.to != ISSUER {
      NoMemberIsEscrow(b, p.to);
    }
  }

  /** Postings that fit one plan, with no empty one before one that moves something, and escrow left to coins. */
  predicate Plannable(postings: seq<Posting>) {
    |postings| <= LEGS && EmptyOnesLast(postings) && AllKeepEscrow(postings)
  }

  predicate Payable(b: Books, postings: seq<Posting>) {
    AllKnown(b, postings) && PostAll(b, postings).Ok?
  }

  lemma {:induction false} TwoArePlannable(p: Posting, q: Posting)
    requires KeepsEscrow(p) && KeepsEscrow(q) && p.amount != 0
    ensures Plannable([p, q])
  {
  }

  lemma {:induction false} OnePayment(b: Books, disabled: set<nat>, p: Posting, correction: bool)
    requires Numbered(b) && CheckPayment(b, disabled, p, correction).None?
    ensures Plannable([p]) && Payable(b, [p])
  {
    CheckedPayment(b, disabled, p, correction);
    OnePosting(b, p);
  }

  lemma {:induction false} OnePosting(b: Books, p: Posting)
    requires Known(b, p) && Post(b, p).Ok? && KeepsEscrow(p)
    ensures Plannable([p]) && Payable(b, [p])
  {
    assert [p][1..] == [];
  }

  /** Payments in two currencies do not touch each other's balances. */
  lemma {:induction false} ApartArePayable(b: Books, p: Posting, q: Posting)
    requires Sendable(b, p) && Sendable(b, q) && p.usd != q.usd
    ensures Payable(b, [p, q])
  {
    assert Change(p.Payer(), p.Payee(), p.amount, q.Payer()) == 0;
    assert Change(p.Payer(), p.Payee(), p.amount, q.Payee()) == 0;
    BothPosted(b, p, q);
  }

  /** Two payments of coins one way are accepted when their sum is. */
  lemma {:induction false} PartsArePayable(b: Books, p: Posting, q: Posting)
    requires p.from == q.from && p.to == q.to && !p.usd && !q.usd && p.amount > 0 && q.amount > 0
    requires Sendable(b, p.(amount := p.amount + q.amount))
    ensures Payable(b, [p, q])
  {
    BothPosted(b, p, q);
  }

  lemma {:induction false} QuoteIsPosted(b: Books, disabled: set<nat>, coins: Posting, dollars: Posting)
    requires Numbered(b) && coins.usd != dollars.usd
    requires CheckPayment(b, disabled, coins, false).None? && CheckPayment(b, disabled, dollars, false).None?
    ensures Plannable([coins, dollars]) && Payable(b, [coins, dollars])
  {
    CheckedPayment(b, disabled, coins, false);
    CheckedPayment(b, disabled, dollars, false);
    ApartArePayable(b, coins, dollars);
    TwoArePlannable(coins, dollars);
  }

  lemma {:induction false} RepaymentIsPosted(b: Books, disabled: set<nat>, p: Posting, q: Posting)
    requires Numbered(b) && p.from == q.from && p.to == q.to && !p.usd && !q.usd && p.amount > 0 && q.amount > 0
    requires CheckPayment(b, disabled, p.(amount := p.amount + q.amount), false).None?
    ensures Plannable([p, q]) && Payable(b, [p, q])
  {
    CheckedPayment(b, disabled, p.(amount := p.amount + q.amount), false);
    PartsArePayable(b, p, q);
    TwoArePlannable(p, q);
  }

  lemma {:induction false} LoanIsPosted(
    b: Books, disabled: set<nat>, draw: int, drawAmount: int, principal: int, interest: int, lender: nat, borrower: nat)
    requires Numbered(b) && CheckLoan(b, disabled, draw, drawAmount, principal, interest, lender, borrower).None?
    ensures var rows := LoanRows(draw, drawAmount, principal, interest, lender, borrower);
            rows.Ok? && |rows.value| <= LEGS && Plannable(PostingsOf(rows.value)) && Payable(b, PostingsOf(rows.value))
  {
    var rows := LoanRows(draw, drawAmount, principal, interest, lender, borrower).value;
    var postings := PostingsOf(rows);
    if |rows| == 2 {
      RepaymentIsPosted(b, disabled, rows[0].posting, rows[1].posting);
      assert postings == [rows[0].posting, rows[1].posting];
    } else if |rows| == 1 {
      OnePayment(b, disabled, rows[0].posting, false);
      assert postings == [rows[0].posting];
    } else {
      assert postings == [];
    }
  }

  lemma {:induction false} GrantIsPosted(b: Books, grant: int)
    requires Numbered(b) && |b.members| < MEMBERS && 0 < grant <= MAX_AMOUNT && b.issuance - grant >= -MAX_SEQUENCE
    ensures var after, p := AddMember(b, CreateMember(grant), NextId(b)), Posting(ISSUER, NextId(b), grant, false);
            Numbered(after) && SameBalances(b, after) && Plannable([p]) && Payable(after, [p])
  {
    var after, p := AddMember(b, CreateMember(grant), NextId(b)), Posting(ISSUER, NextId(b), grant, false);
    AddedMember(b, grant);
    assert Balance(b, Issuance) == Balance(after, Issuance) && Balance(b, Coins(NextId(b))) == 0;
    OnePosting(after, p);
  }

  /** A new member has the next number, and nothing. */
  lemma {:induction false} AddedMember(b: Books, grant: int)
    requires Numbered(b) && |b.members| < MEMBERS
    ensures var after := AddMember(b, CreateMember(grant), NextId(b));
            && Numbered(after) && SameBalances(b, after)
            && !IsMember(b, NextId(b)) && IsMember(after, NextId(b))
  {
    var after := AddMember(b, CreateMember(grant), NextId(b));
    FindIsFirst(b.members, NextId(b), |b.members|);
    FindIsFirst(after.members, NextId(b), |b.members|);
    NewMemberHasNothing(b, NextId(b));
  }

  lemma {:induction false} NewMemberIsPosted(b: Books, disabled: set<nat>, grant: int)
    requires Numbered(b) && Validate(b, disabled, CreateMember(grant)).None?
    ensures var e := CreateMember(grant);
            var after := AddMember(b, e, NextId(b));
            Numbered(after) && SameBalances(b, after) && Plannable(Moves(b, e)) && Payable(after, Moves(b, e))
  {
    AddedMember(b, grant);
    if grant > 0 {
      GrantIsPosted(b, grant);
    }
  }

  lemma {:induction false} LottoIsPosted(b: Books, disabled: set<nat>, e: Event)
    requires Numbered(b) && IsLotto(e) && Validate(b, disabled, e).None? && LottoAmount(b, e) != 0
    ensures var moves := EventPostings(b, e).value; Plannable(moves) && Payable(b, moves)
  {
    var p := EventPostings(b, e).value[0];
    if e.BuyTickets? {
      NoMemberIsEscrow(b, e.actor);
    } else {
      NoMemberIsEscrow(b, p.to);
      if e.PayInterest? {
        NoMemberIsEscrow(b, p.from);
      }
    }
    OnePosting(b, p);
    assert EventPostings(b, e).value == [p];
  }

  /** A transfer of nothing is a message, and is posted as such. */
  lemma {:induction false} TransferIsPosted(b: Books, disabled: set<nat>, p: Posting)
    requires Numbered(b) && IsMember(b, p.from) && IsMember(b, p.to) && !p.usd
    requires p.amount != 0 ==> CheckPayment(b, disabled, p, false).None?
    ensures Plannable([p]) && Payable(b, [p])
  {
    if p.amount != 0 {
      OnePayment(b, disabled, p, false);
    } else {
      OnePosting(b, p);
    }
  }

  /** The events that are one payment, checked as it stands. */
  predicate Plain(e: Event) {
    e.Issue? || e.Retire? || e.Buy? || e.IssueUsd? || e.AcceptOffer? || e.Contribute? || e.BuyArt?
  }

  lemma {:induction false} PlainIsPosted(b: Books, disabled: set<nat>, e: Event)
    requires Numbered(b) && Plain(e) && Validate(b, disabled, e).None?
    ensures Moves(b, e) == EventPostings(b, e).value && Plannable(Moves(b, e)) && Payable(b, Moves(b, e))
  {
    OnePayment(b, disabled, EventPostings(b, e).value[0], false);
    assert EventPostings(b, e).value == [EventPostings(b, e).value[0]];
  }

  /**
    What validation accepts can be posted: what the event moves fits one plan, comes without
    an empty posting before one that moves something, leaves escrow to coins, is between
    parties that exist, and meets no limit.
   */
  lemma {:induction false} ValidatedIsPosted(b: Books, disabled: set<nat>, e: Event)
    requires Numbered(b) && Validate(b, disabled, e).None?
    ensures var applied := AddMember(b, e, NextId(b));
            && EventPostings(b, e).Ok? && Numbered(applied) && SameBalances(b, applied)
            && Plannable(Moves(b, e)) && Payable(applied, Moves(b, e))
  {
    if e.CreateMember? {
      NewMemberIsPosted(b, disabled, e.grant);
    } else if Plain(e) {
      PlainIsPosted(b, disabled, e);
    } else if IsLotto(e) {
      if LottoAmount(b, e) != 0 {
        LottoIsPosted(b, disabled, e);
      }
    } else if e.Transfer? {
      TransferIsPosted(b, disabled, Posting(e.actor, e.to, e.amount, false));
    } else if e.TakeQuote? {
      var coins, dollars := Posting(e.seller, e.buyer, e.coins, false), Posting(e.buyer, e.seller, e.cents, true);
      QuoteIsPosted(b, disabled, coins, dollars);
    } else if e.Loan? {
      LoanIsPosted(b, disabled, e.draw, e.drawAmount, e.principal, e.interest, e.lender, e.borrower);
    } else if e.Correct? {
      OnePayment(b, disabled, Posting(e.payer, e.payee, e.amount, e.usd), e.overdraft);
    } else if e.UnacceptOffer? {
      OnePayment(b, disabled, Posting(e.payee, e.payer, e.amount, false), true);
    }
  }

  // ----- planning and recording what it moves

  /** A posting of nothing adds nothing to a plan. */
  lemma {:induction false} PlannedMoves(b: Books, mask: nat, loan: bool, e: Event)
    requires EventPostings(b, e).Ok?
    ensures PlanAll(b, mask, loan, [], EventPostings(b, e).value) == PlanAll(b, mask, loan, [], Moves(b, e))
  {
    var postings := EventPostings(b, e).value;
    if postings != Moves(b, e) {
      assert postings[1..] == [] && postings[0].amount == 0;
    }
  }

  /** The plan of an event holds the legs of what the event moves, and what is recorded from it is just that. */
  ghost predicate PlansItsMoves(b: Books, mask: nat, loan: bool, e: Event) {
    var planned, plan := PlanAll(b, mask, loan, [], Moves(b, e)), Prepare(b, mask, loan, e);
    if planned.Err? then plan == Err(planned.error)
    else
      && plan.Ok? && plan.value.legs == planned.value && plan.value.id == NextId(b)
      && Record(e, plan.value) == Some(Moves(b, e))
  }

  lemma {:induction false} LoanPlansItsMoves(b: Books, mask: nat, loan: bool, e: Event)
    requires e.Loan? && EventPostings(b, e).Ok? && |EventPostings(b, e).value| <= LEGS
    ensures PlansItsMoves(b, mask, loan, e)
  {
    var rows := LoanRows(e.draw, e.drawAmount, e.principal, e.interest, e.lender, e.borrower).value;
    RowsArePlanned(b, mask, loan, [], [], rows);
    assert [] + rows == rows;
  }

  /** A correction's first leg has the amount it was planned with. */
  lemma {:induction false} CorrectedAmount(b: Books, mask: nat, loan: bool, p: Posting)
    requires p.amount != 0 && PlanAll(b, mask, loan, [], [p]).Ok?
    ensures var legs := PlanAll(b, mask, loan, [], [p]).value; legs != [] && legs[0].posting == p
  {
    PlanHoldsPostings(b, mask, loan, [], [p]);
    var legs := PlanAll(b, mask, loan, [], [p]).value;
    assert NonEmpty([p]) == [p] + NonEmpty([p][1..]);
    assert LegPostings(legs)[0] == p;
  }

  lemma {:induction false} CorrectionPlansItsMoves(b: Books, mask: nat, loan: bool, e: Event)
    requires e.Correct? && e.amount != 0
    ensures PlansItsMoves(b, mask, loan, e)
  {
    if PlanAll(b, mask, loan, [], Moves(b, e)).Ok? {
      CorrectedAmount(b, mask, loan, Posting(e.payer, e.payee, e.amount, e.usd));
    }
  }

  /** Where a grant or a lotto payment is recorded by its sign, its amount must not be below zero. */
  lemma {:induction false} OtherPlansItsMoves(b: Books, mask: nat, loan: bool, e: Event)
    requires !e.Loan? && !e.Correct?
    requires e.CreateMember? ==> e.grant >= 0
    requires IsLotto(e) ==> LottoAmount(b, e) >= 0
    ensures PlansItsMoves(b, mask, loan, e)
  {
    PlannedMoves(b, mask, loan, e);
  }

  /** Validation rules out the amounts for which planning and recording would differ. */
  lemma {:induction false} PlannedAsValidated(b: Books, disabled: set<nat>, mask: nat, loan: bool, e: Event)
    requires Numbered(b) && Validate(b, disabled, e).None?
    ensures PlansItsMoves(b, mask, loan, e)
  {
    if e.Loan? {
      ValidatedIsPosted(b, disabled, e);
      LoanPlansItsMoves(b, mask, loan, e);
    } else if e.Correct? {
      CorrectionPlansItsMoves(b, mask, loan, e);
    } else {
      OtherPlansItsMoves(b, mask, loan, e);
    }
  }

  /**
    The main result for events: whatever validation accepts is planned; applying the plan
    finds every transaction it needs, trips no assertion and leaves no leg over; it records
    what the event moves, and leaves the books and the mask that posting it leaves, with
    both sums as they were.
   */
  lemma {:induction false} EventIsPosted(b: Books, disabled: set<nat>, mask: nat, loan: bool, e: Event)
    requires Numbered(b) && Validate(b, disabled, e).None?
    ensures var applied := AddMember(b, e, NextId(b));
            && AllKnown(applied, Moves(b, e)) && PostAll(applied, Moves(b, e)).Ok?
            && var plan, posted := Prepare(b, mask, loan, e), PostAll(applied, Moves(b, e)).value;
               && plan.Ok?
               && ApplyPlan(b, mask, e, plan.value) == Some((posted, MaskAfter(mask, Moves(b, e), loan), Moves(b, e)))
               && CoinSum(posted) == CoinSum(applied) && DollarSum(posted) == DollarSum(applied)
  {
    var applied, moves := AddMember(b, e, NextId(b)), Moves(b, e);
    ValidatedIsPosted(b, disabled, e);
    KeepingEscrowMeetsNone(moves);
    PublishedEvent(b, applied, mask, loan, moves);
    PlannedAsValidated(b, disabled, mask, loan, e);
    PostingsConserve(applied, moves);
  }

  // ----- what only other postings could do

  /** Books of one member with nothing in them. */
  function OneMember(): (b: Books) {
    Books(0, 0, 0, [Member(1, 0, 0)])
  }

  /** Coins into escrow and then dollars: no event plans this, and the overlay would get it wrong. */
  lemma StaleEscrow(mask: nat, loan: bool) returns (p: Posting, q: Posting)
    ensures AllKnown(OneMember(), [p, q]) && MeetInEscrow(p, q)
    ensures !BothRefuse(OneMember(), mask, loan, [p, q]) && !Agrees(OneMember(), mask, loan, [p, q])
  {
    p, q := Posting(1, ESCROW, 5, false), Posting(1, ESCROW, 3, true);
    var b := OneMember();
    TwoSteps(b, mask, loan, p, q);
    TwoPostingsAgree(b, mask, loan, p, q);
    PlannedBalances(b, mask, loan, [], p);
    var legs := PlanLeg(b, mask, loan, [], p).value;
    assert legs == [legs[0]] && legs[..0] == [];
    StaleOverlay(b, legs[0], q);
    assert Overlay(b, [], 1, true) == 0;
    assert PlanLeg(b, mask, loan, legs, q).Ok?;
  }

  /** An empty posting and then one that moves something: no event plans this, and applying it trips. */
  lemma EmptyFirst(mask: nat, loan: bool) returns (postings: seq<Posting>)
    ensures AllKnown(OneMember(), postings) && PlanAll(OneMember(), mask, loan, [], postings).Ok?
    ensures var plan := PlanAll(OneMember(), mask, loan, [], postings).value;
            ApplyTxs(plan, Publication(OneMember(), mask, 0), postings).None?
  {
    var p, q := Posting(ISSUER, 1, 0, false), Posting(ISSUER, 1, 5, false);
    postings := [p, q];
    TwoSteps(OneMember(), mask, loan, p, q);
    assert !EmptyOnesLast(postings) by {
      assert postings[0].amount == 0 && postings[1].amount != 0;
    }
    assert Post(OneMember(), p).Ok? && Post(OneMember(), q).Ok?;
    assert NoneMeet(postings);
    PublishedEvent(OneMember(), OneMember(), mask, loan, postings);
  }
}
