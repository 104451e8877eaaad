/**
  Which events validation accepts, spelt out on balances and numbers, and what that means
  for a run: nobody is overdrawn but by a correction that may overdraw or an offer undone.
 */
module Acceptance {
  import opened Options
  import opened Limits
  import opened Bits
  import opened Posting
  import opened Publishing
  import opened Events
  import opened EventRuns

  // ----- each event

  /** What a party holds; party 0 is the issuer, the others are members by number. */
  function Held(b: Books, id: nat, usd: bool): (units: int)
    requires id <= |b.members|
  {
    if id == 0 then if usd then b.usdIssuance else b.issuance
    else if usd then b.members[id - 1].usdCents
    else b.members[id - 1].balance
  }

  predicate MayTakePart(disabled: set<nat>, id: nat, correction: bool) {
    id == 0 || correction || id !in disabled
  }

  /**
    A payment between two different parties that exist and take part, of up to a
    quadrillion, with both balances exact afterwards; a member has the money, unless it is a
    correction.
   */
  predicate MayPay(b: Books, disabled: set<nat>, from: nat, to: nat, amount: int, usd: bool, correction: bool) {
    && from <= |b.members| && to <= |b.members| && from != to
    && 1 <= amount <= 1_000_000_000_000_000
    && MayTakePart(disabled, from, correction) && MayTakePart(disabled, to, correction)
    && (from == 0 || correction || amount <= Held(b, from, usd))
    && -9_007_199_254_740_991 <= Held(b, from, usd) - amount
    && Held(b, to, usd) + amount <= 9_007_199_254_740_991
    && (usd ==> Held(b, from, usd) - amount <= 9_007_199_254_740_991)
    && (usd ==> -9_007_199_254_740_991 <= Held(b, to, usd) + amount)
  }

  predicate MayRepay(
    b: Books, disabled: set<nat>, draw: int, drawAmount: int, principal: int, interest: int, lender: nat, borrower: nat)
  {
    && 0 <= drawAmount && 0 <= principal && 0 <= interest
    && (draw == 1 ==>
          && drawAmount <= 0x7FFF_FFFF_FFFF_FFFF
          && (drawAmount == 0 || MayPay(b, disabled, lender, borrower, drawAmount, false, false)))
    && (draw != 1 ==>
          && draw == 0 && principal + interest <= 0x7FFF_FFFF_FFFF_FFFF
          && (principal + interest == 0
              || MayPay(b, disabled, borrower, lender, principal + interest, false, false)))
  }

  /** A lotto pays nothing, or a member whose balance stays exact, out of something that stays exact. */
  predicate MayReceive(b: Books, to: nat, paid: int, left: int, sameWallet: bool) {
    || paid == 0
    || (1 <= to <= |b.members| && 1 <= paid <= 1_000_000_000_000_000
        && (sameWallet || (-9_007_199_254_740_991 <= left
                           && Held(b, to, false) + paid <= 9_007_199_254_740_991)))
  }

  /** What a house of a lotto can pay of the interest that remains. */
  function HousePays(b: Books, house: nat, remaining: nat): (paid: nat) {
    if !(1 <= house <= |b.members|) || b.members[house - 1].balance <= 0 then 0
    else if b.members[house - 1].balance < remaining then b.members[house - 1].balance
    else remaining
  }

  predicate Acceptable(b: Books, disabled: set<nat>, e: Event) {
    match e
    case Issue(to, amount) => to != 0 && MayPay(b, disabled, 0, to, amount, false, false)
    case Retire(from, amount) => from != 0 && MayPay(b, disabled, from, 0, amount, false, false)
    case Transfer(actor, to, amount) =>
      && 1 <= actor <= |b.members| && 1 <= to <= |b.members|
      && (if amount == 0 then actor != to && to !in disabled
          else MayPay(b, disabled, actor, to, amount, false, false))
    case CreateMember(grant) =>
      && |b.members| < 32 && 0 <= grant <= 1_000_000_000_000_000
      && -9_007_199_254_740_991 <= b.issuance - grant
    case Buy(payer, payee, price) => MayPay(b, disabled, payer, payee, price, false, false)
    case Correct(payer, payee, amount, usd, overdraft) => MayPay(b, disabled, payer, payee, amount, usd, overdraft)
    case IssueUsd(to, cents) => MayPay(b, disabled, 0, to, cents, true, false)
    case TakeQuote(seller, buyer, coins, cents) =>
      MayPay(b, disabled, seller, buyer, coins, false, false) && MayPay(b, disabled, buyer, seller, cents, true, false)
    case AcceptOffer(payer, payee, amount) => MayPay(b, disabled, payer, payee, amount, false, false)
    case UnacceptOffer(payee, payer, amount) => MayPay(b, disabled, payee, payer, amount, false, true)
    case Contribute(actor, owner, amount) => MayPay(b, disabled, actor, owner, amount, false, false)
    case BuyArt(actor, seller, amount) => MayPay(b, disabled, actor, seller, amount, false, false)
    case Loan(draw, drawAmount, principal, interest, lender, borrower) =>
      MayRepay(b, disabled, draw, drawAmount, principal, interest, lender, borrower)
    case BuyTickets(actor, amount) =>
      && 1 <= actor <= |b.members| && 1 <= amount <= 1_000_000_000_000_000
      && amount <= b.members[actor - 1].balance && b.escrow + amount <= 9_007_199_254_740_991
    case PayPrize(to, prize) => MayReceive(b, to, prize, b.escrow - prize, false)
    case PayInterest(house, to, remaining) => MayReceive(b, to, HousePays(b, house, remaining), 0, house == to)
    case IssueInterest(to, remaining) => MayReceive(b, to, remaining, b.issuance - remaining, false)
    case Other => true
  }

  lemma {:induction false} NumberedFind(b: Books, id: nat)
    requires Numbered(b)
    ensures Find(b.members, id) == if 1 <= id <= |b.members| then id - 1 else |b.members|
  {
    FindIsFirst(b.members, id, if 1 <= id <= |b.members| then id - 1 else |b.members|);
  }

  /** What a member has, in a sound bank, is what the member of that number has. */
  lemma {:induction false} HeldExactly(b: Books, id: nat, usd: bool)
    requires Numbered(b) && id <= |b.members|
    ensures Balance(b, WalletOf(id, usd)) == Held(b, id, usd)
  {
    NumberedFind(b, id);
  }

  lemma {:induction false} PartyAccepted(b: Books, disabled: set<nat>, id: nat, correction: bool)
    requires Numbered(b)
    ensures CheckParty(b, disabled, id, correction).None? <==>
            id <= |b.members| && MayTakePart(disabled, id, correction)
  {
    NumberedFind(b, id);
  }

  lemma {:induction false} PaymentAccepted(b: Books, disabled: set<nat>, p: Posting, correction: bool)
    requires Numbered(b)
    ensures CheckPayment(b, disabled, p, correction).None? <==>
            MayPay(b, disabled, p.from, p.to, p.amount, p.usd, correction)
  {
    PartyAccepted(b, disabled, p.from, correction);
    PartyAccepted(b, disabled, p.to, correction);
    if p.from <= |b.members| && p.to <= |b.members| {
      HeldExactly(b, p.from, p.usd);
      HeldExactly(b, p.to, p.usd);
    }
  }

  lemma {:induction false} PayoutAccepted(b: Books, p: Posting)
    requires Numbered(b) && !p.usd && p.amount >= 0
    ensures CheckPayout(b, p).None? <==>
            MayReceive(b, p.to, p.amount, Balance(b, p.Payer()) - p.amount, p.from == p.to)
  {
    NumberedFind(b, p.to);
  }

  lemma {:induction false} TicketsAccepted(b: Books, disabled: set<nat>, e: Event)
    requires Numbered(b) && e.BuyTickets?
    ensures Validate(b, disabled, e).None? <==> Acceptable(b, disabled, e)
  {
    NumberedFind(b, e.actor);
  }

  lemma {:induction false} HousePaysExactly(b: Books, e: Event)
    requires Numbered(b) && e.PayInterest?
    ensures LottoAmount(b, e) == HousePays(b, e.house, e.remaining)
    ensures LottoAmount(b, e) != 0 ==> LottoAmount(b, e) <= Balance(b, WalletOf(e.house, false))
  {
    NumberedFind(b, e.house);
  }

  lemma {:induction false} InterestAccepted(b: Books, disabled: set<nat>, e: Event)
    requires Numbered(b) && e.PayInterest?
    ensures Validate(b, disabled, e).None? <==> Acceptable(b, disabled, e)
  {
    HousePaysExactly(b, e);
    PayoutAccepted(b, Posting(e.house, e.to, HousePays(b, e.house, e.remaining), false));
  }

  lemma {:induction false} LottoAccepted(b: Books, disabled: set<nat>, e: Event)
    requires Numbered(b) && IsLotto(e)
    ensures Validate(b, disabled, e).None? <==> Acceptable(b, disabled, e)
  {
    if e.BuyTickets? {
      TicketsAccepted(b, disabled, e);
    } else if e.PayInterest? {
      InterestAccepted(b, disabled, e);
    } else if e.PayPrize? {
      PayoutAccepted(b, Posting(ESCROW, e.to, e.prize, false));
    } else {
      PayoutAccepted(b, Posting(ISSUER, e.to, e.remaining, false));
    }
  }

  lemma {:induction false} LoanAccepted(
    b: Books, disabled: set<nat>, draw: int, drawAmount: int, principal: int, interest: int, lender: nat, borrower: nat)
    requires Numbered(b)
    ensures CheckLoan(b, disabled, draw, drawAmount, principal, interest, lender, borrower).None? <==>
            MayRepay(b, disabled, draw, drawAmount, principal, interest, lender, borrower)
  {
    var sum := if draw == 1 then drawAmount else principal + interest;
    PaymentAccepted(b, disabled, Posting(lender, borrower, sum, false), false);
    PaymentAccepted(b, disabled, Posting(borrower, lender, sum, false), false);
  }

  lemma {:induction false} PlainAccepted(b: Books, disabled: set<nat>, e: Event)
    requires Numbered(b) && Plain(e)
    ensures Validate(b, disabled, e).None? <==> Acceptable(b, disabled, e)
  {
    PaymentAccepted(b, disabled, EventPostings(b, e).value[0], false);
    if e.Issue? {
      NumberedFind(b, e.to);
    } else if e.Retire? {
      NumberedFind(b, e.from);
    }
  }

  /** Exactly which events are accepted, of every kind that moves money. */
  lemma {:induction false} AcceptedExactly(b: Books, disabled: set<nat>, e: Event)
    requires Numbered(b)
    ensures Validate(b, disabled, e).None? <==> Acceptable(b, disabled, e)
  {
    if IsLotto(e) {
      LottoAccepted(b, disabled, e);
    } else if Plain(e) {
      PlainAccepted(b, disabled, e);
    } else if e.Loan? {
      LoanAccepted(b, disabled, e.draw, e.drawAmount, e.principal, e.interest, e.lender, e.borrower);
    } else if e.Transfer? {
      NumberedFind(b, e.actor);
      NumberedFind(b, e.to);
      PaymentAccepted(b, disabled, Posting(e.actor, e.to, e.amount, false), false);
    } else if e.Correct? {
      PaymentAccepted(b, disabled, Posting(e.payer, e.payee, e.amount, e.usd), e.overdraft);
    } else if e.UnacceptOffer? {
      PaymentAccepted(b, disabled, Posting(e.payee, e.payer, e.amount, false), true);
    } else if e.TakeQuote? {
      PaymentAccepted(b, disabled, Posting(e.seller, e.buyer, e.coins, false), false);
      PaymentAccepted(b, disabled, Posting(e.buyer, e.seller, e.cents, true), false);
    }
  }

  /** A payment is refused for want of money exactly when it would be accepted as a correction of active members. */
  lemma {:induction false} ShortOfMoney(b: Books, disabled: set<nat>, p: Posting)
    requires Numbered(b)
    ensures CheckPayment(b, disabled, p, false) == Some(InsufficientFunds) <==>
            && MayPay(b, disabled, p.from, p.to, p.amount, p.usd, true)
            && MayTakePart(disabled, p.from, false) && MayTakePart(disabled, p.to, false)
            && p.from != 0 && Held(b, p.from, p.usd) < p.amount
  {
    PartyAccepted(b, disabled, p.from, false);
    PartyAccepted(b, disabled, p.to, false);
    if p.from <= |b.members| && p.to <= |b.members| {
      HeldExactly(b, p.from, p.usd);
      HeldExactly(b, p.to, p.usd);
    }
  }

  // ----- what each event does to a member

  /** A member's wallet, as a wallet of the books. */
  function MemberWallet(id: nat, usd: bool): (w: Wallet) {
    if usd then Cents(id) else Coins(id)
  }

  lemma {:induction false} NetOfOne(p: Posting, w: Wallet)
    ensures NetChange([p], w) == Change(p.Payer(), p.Payee(), p.amount, w)
  {
    assert [p][1..] == [];
  }

  lemma {:induction false} NetOfTwo(p: Posting, q: Posting, w: Wallet)
    ensures NetChange([p, q], w) ==
            Change(p.Payer(), p.Payee(), p.amount, w) + Change(q.Payer(), q.Payee(), q.amount, w)
  {
    assert [p, q][1..] == [q];
    NetOfOne(q, w);
  }

  /** What a payment gives a member, less what it takes. */
  function Gain(from: nat, to: nat, amount: int, id: nat): (units: int) {
    (if id == to then amount else 0) - (if id == from then amount else 0)
  }

  /** What an event gives a member in coins, and what in cents. */
  function GainIn(b: Books, e: Event, id: nat, usd: bool): (units: int)
  {
    match e
    case Correct(payer, payee, amount, dollars, _) => if usd == dollars then Gain(payer, payee, amount, id) else 0
    case IssueUsd(to, cents) => if usd then Gain(0, to, cents, id) else 0
    case TakeQuote(seller, buyer, coins, cents) =>
      if usd then Gain(buyer, seller, cents, id) else Gain(seller, buyer, coins, id)
    case _ => if usd then 0 else CoinsGained(b, e, id)
  }

  function CoinsGained(b: Books, e: Event, id: nat): (units: int) {
    match e
    case Issue(to, amount) => Gain(0, to, amount, id)
    case Retire(from, amount) => Gain(from, 0, amount, id)
    case Transfer(actor, to, amount) => Gain(actor, to, amount, id)
    case CreateMember(grant) => Gain(0, |b.members| + 1, grant, id)
    case Buy(payer, payee, price) => Gain(payer, payee, price, id)
    case AcceptOffer(payer, payee, amount) => Gain(payer, payee, amount, id)
    case UnacceptOffer(payee, payer, amount) => Gain(payee, payer, amount, id)
    case Contribute(actor, owner, amount) => Gain(actor, owner, amount, id)
    case BuyArt(actor, seller, amount) => Gain(actor, seller, amount, id)
    case Loan(draw, drawAmount, principal, interest, lender, borrower) =>
      if draw == 1 then Gain(lender, borrower, drawAmount, id) else Gain(borrower, lender, principal + interest, id)
    case BuyTickets(actor, amount) => Gain(actor, 255, amount, id)
    case PayPrize(to, prize) => Gain(255, to, prize, id)
    case PayInterest(house, to, remaining) => Gain(house, to, HousePays(b, house, remaining), id)
    case IssueInterest(to, remaining) => Gain(0, to, remaining, id)
    case _ => 0
  }

  lemma MemberChange(p: Posting, id: nat, usd: bool)
    requires 1 <= id && id != ESCROW
    ensures Change(p.Payer(), p.Payee(), p.amount, MemberWallet(id, usd)) ==
            if p.usd == usd then Gain(p.from, p.to, p.amount, id) else 0
  {
  }

  lemma {:induction false} LoanGain(b: Books, disabled: set<nat>, e: Event, id: nat, usd: bool)
    requires Numbered(b) && 1 <= id && id != ESCROW && e.Loan? && Acceptable(b, disabled, e)
    ensures NetChange(Moves(b, e), MemberWallet(id, usd)) == GainIn(b, e, id, usd)
  {
    var w, moves := MemberWallet(id, usd), Moves(b, e);
    if |moves| == 2 {
      assert moves == [moves[0], moves[1]];
      NetOfTwo(moves[0], moves[1], w);
      MemberChange(moves[0], id, usd);
      MemberChange(moves[1], id, usd);
    } else if |moves| == 1 {
      assert moves == [moves[0]];
      NetOfOne(moves[0], w);
      MemberChange(moves[0], id, usd);
    }
  }

  lemma {:induction false} QuoteGain(b: Books, e: Event, id: nat, usd: bool)
    requires 1 <= id && id != ESCROW && e.TakeQuote?
    ensures NetChange(Moves(b, e), MemberWallet(id, usd)) == GainIn(b, e, id, usd)
  {
    var p, q := Posting(e.seller, e.buyer, e.coins, false), Posting(e.buyer, e.seller, e.cents, true);
    assert Moves(b, e) == [p, q];
    NetOfTwo(p, q, MemberWallet(id, usd));
    MemberChange(p, id, usd);
    MemberChange(q, id, usd);
  }

  lemma {:induction false} OneGain(b: Books, e: Event, id: nat, usd: bool)
    requires Numbered(b) && 1 <= id && id != ESCROW && !e.Loan? && !e.TakeQuote?
    ensures NetChange(Moves(b, e), MemberWallet(id, usd)) == GainIn(b, e, id, usd)
  {
    if e.PayInterest? {
      HousePaysExactly(b, e);
    }
    if Moves(b, e) != [] {
      var p := EventPostings(b, e).value[0];
      assert Moves(b, e) == [p];
      NetOfOne(p, MemberWallet(id, usd));
      MemberChange(p, id, usd);
    }
  }

  /** What an accepted event moves is what it says it does, for every member and currency. */
  lemma {:induction false} EventGives(b: Books, disabled: set<nat>, e: Event, id: nat, usd: bool)
    requires Numbered(b) && 1 <= id && id != ESCROW && Acceptable(b, disabled, e)
    ensures NetChange(Moves(b, e), MemberWallet(id, usd)) == GainIn(b, e, id, usd)
  {
    if e.Loan? {
      LoanGain(b, disabled, e, id, usd);
    } else if e.TakeQuote? {
      QuoteGain(b, e, id, usd);
    } else {
      OneGain(b, e, id, usd);
    }
  }

  // ----- who can be overdrawn

  predicate MayOverdraw(e: Event) {
    e.UnacceptOffer? || (e.Correct? && e.overdraft)
  }

  /** What a covered payment takes from a member, that member has. */
  lemma {:induction false} PaymentIsCovered(b: Books, disabled: set<nat>, p: Posting, id: nat, usd: bool)
    requires Numbered(b) && 1 <= id && MayPay(b, disabled, p.from, p.to, p.amount, p.usd, false)
    ensures var w := MemberWallet(id, usd);
            var change := Change(p.Payer(), p.Payee(), p.amount, w);
            (change < 0 ==> p.usd == usd && p.from == id) && (change >= 0 || Balance(b, w) + change >= 0)
  {
    NumberedFind(b, p.from);
  }

  lemma {:induction false} QuoteIsCovered(b: Books, disabled: set<nat>, e: Event, id: nat, usd: bool)
    requires Numbered(b) && 1 <= id && e.TakeQuote? && Acceptable(b, disabled, e)
    ensures var w := MemberWallet(id, usd);
            NetChange(Moves(b, e), w) >= 0 || Balance(b, w) + NetChange(Moves(b, e), w) >= 0
  {
    var p, q := EventPostings(b, e).value[0], EventPostings(b, e).value[1];
    NetOfTwo(p, q, MemberWallet(id, usd));
    PaymentIsCovered(b, disabled, p, id, usd);
    PaymentIsCovered(b, disabled, q, id, usd);
    assert Moves(b, e) == [p, q];
  }

  lemma {:induction false} LoanIsCovered(b: Books, disabled: set<nat>, e: Event, id: nat, usd: bool)
    requires Numbered(b) && 1 <= id && e.Loan? && Acceptable(b, disabled, e)
    ensures var w := MemberWallet(id, usd);
            NetChange(Moves(b, e), w) >= 0 || Balance(b, w) + NetChange(Moves(b, e), w) >= 0
  {
    var w, moves := MemberWallet(id, usd), Moves(b, e);
    var sum := if e.draw == 1 then e.drawAmount else e.principal + e.interest;
    if sum != 0 {
      var p := if e.draw == 1 then Posting(e.lender, e.borrower, sum, false)
               else Posting(e.borrower, e.lender, sum, false);
      PaymentIsCovered(b, disabled, p, id, usd);
      if |moves| == 2 {
        assert moves == [moves[0], moves[1]];
        NetOfTwo(moves[0], moves[1], w);
      } else {
        assert moves == [moves[0]];
        NetOfOne(moves[0], w);
      }
    }
  }

  lemma {:induction false} LottoIsCovered(b: Books, disabled: set<nat>, e: Event, id: nat, usd: bool)
    requires Numbered(b) && 1 <= id && IsLotto(e) && Acceptable(b, disabled, e)
    ensures var w := MemberWallet(id, usd);
            NetChange(Moves(b, e), w) >= 0 || Balance(b, w) + NetChange(Moves(b, e), w) >= 0
  {
    if LottoAmount(b, e) != 0 {
      var p := EventPostings(b, e).value[0];
      assert Moves(b, e) == [p];
      NetOfOne(p, MemberWallet(id, usd));
      NumberedFind(b, p.from);
    }
  }

  /** Of an accepted event that may not overdraw, every member has what it takes from that member. */
  lemma {:induction false} EventIsCovered(b: Books, disabled: set<nat>, e: Event, id: nat, usd: bool)
    requires Numbered(b) && 1 <= id && Acceptable(b, disabled, e) && !MayOverdraw(e)
    ensures var w := MemberWallet(id, usd);
            NetChange(Moves(b, e), w) >= 0 || Balance(b, w) + NetChange(Moves(b, e), w) >= 0
  {
    if e.TakeQuote? {
      QuoteIsCovered(b, disabled, e, id, usd);
    } else if e.Loan? {
      LoanIsCovered(b, disabled, e, id, usd);
    } else if IsLotto(e) {
      LottoIsCovered(b, disabled, e, id, usd);
    } else if Moves(b, e) != [] {
      var p := EventPostings(b, e).value[0];
      assert Moves(b, e) == [p];
      NetOfOne(p, MemberWallet(id, usd));
      if p.amount != 0 && !e.CreateMember? {
        PaymentIsCovered(b, disabled, p, id, usd);
      }
    }
  }

  /** The event that a command is in some state. */
  function EventIn(s: State, c: Command): (e: Event) {
    var e := EventOf(s.recorded, c);
    if e.Ok? then e.value else Other
  }

  /** A step that lowers a member's wallet and leaves it below zero may overdraw. */
  lemma {:induction false} StepIsCovered(s: State, c: Command, id: nat, usd: bool)
    requires Sound(s) && 1 <= id && Perform(s, c).Applied?
    ensures var w, next := MemberWallet(id, usd), Perform(s, c).next;
            Balance(next.books, w) < Balance(s.books, w) && Balance(next.books, w) < 0 ==> MayOverdraw(EventIn(s, c))
  {
    var e, w := EventIn(s, c), MemberWallet(id, usd);
    StepIsPosted(s, c);
    AcceptedExactly(s.books, c.disabled, e);
    ValidatedIsPosted(s.books, c.disabled, e);
    PostAllEffect(AddMember(s.books, e, NextId(s.books)), Moves(s.books, e), w);
    if !MayOverdraw(e) {
      EventIsCovered(s.books, c.disabled, e, id, usd);
    }
  }

  /**
    Over any run: whenever a step lowers a member's wallet and leaves it below zero, the step
    was a correction allowed to overdraw, or undid an accepted offer.
   */
  lemma {:induction false} OverdrawnByCorrection(commands: seq<Command>, i: nat, id: nat, usd: bool)
    requires i < |commands| && 1 <= id
    ensures var before, step := Run(Perform, Empty(), commands[..i]), commands[i];
            && before.Some?
            && var o, w := Perform(before.value, step), MemberWallet(id, usd);
               (o.Applied? && Balance(o.next.books, w) < Balance(before.value.books, w) &&
                Balance(o.next.books, w) < 0) ==>
                 || (step.Undo? && step.overdraft)
                 || (step.Do? && step.event.UnacceptOffer?)
  {
    RunIsPosted(Empty(), commands[..i]);
    var before := Run(Perform, Empty(), commands[..i]).value;
    if Perform(before, commands[i]).Applied? {
      StepIsCovered(before, commands[i], id, usd);
    }
  }

  predicate NobodyOwes(b: Books) {
    forall i | 0 <= i < |b.members| :: b.members[i].balance >= 0 && b.members[i].usdCents >= 0
  }

  predicate NeverOverdraws(commands: seq<Command>) {
    forall i | 0 <= i < |commands| ::
      !(commands[i].Undo? && commands[i].overdraft) && !(commands[i].Do? && commands[i].event.UnacceptOffer?)
  }

  lemma {:induction false} OwesNothing(b: Books, id: nat, usd: bool)
    requires Numbered(b) && NobodyOwes(b) && 1 <= id
    ensures Balance(b, MemberWallet(id, usd)) >= 0
  {
    NumberedFind(b, id);
  }

  lemma {:induction false} NoNewDebt(s: State, c: Command, id: nat, usd: bool)
    requires Sound(s) && NobodyOwes(s.books) && 1 <= id && Perform(s, c).Applied? && !MayOverdraw(EventIn(s, c))
    ensures Balance(Perform(s, c).next.books, MemberWallet(id, usd)) >= 0
  {
    var w := MemberWallet(id, usd);
    OwesNothing(s.books, id, usd);
    StepIsCovered(s, c, id, usd);
    var before, after := Balance(s.books, w), Balance(Perform(s, c).next.books, w);
    assert before >= 0 && !(after < before && after < 0);
  }

  lemma {:induction false} MemberHolds(b: Books, i: nat)
    requires Numbered(b) && i < |b.members|
    ensures Balance(b, MemberWallet(i + 1, false)) == b.members[i].balance
    ensures Balance(b, MemberWallet(i + 1, true)) == b.members[i].usdCents
  {
    NumberedFind(b, i + 1);
  }

  lemma {:induction false} StepLeavesNoDebt(s: State, c: Command)
    requires Sound(s) && NobodyOwes(s.books) && !MayOverdraw(EventIn(s, c)) && Perform(s, c).Applied?
    ensures NobodyOwes(Perform(s, c).next.books)
  {
    var books := Perform(s, c).next.books;
    StepIsPosted(s, c);
    forall i | 0 <= i < |books.members|
      ensures books.members[i].balance >= 0 && books.members[i].usdCents >= 0
    {
      MemberHolds(books, i);
      NoNewDebt(s, c, i + 1, false);
      NoNewDebt(s, c, i + 1, true);
    }
  }

  /** Without such steps no member ever owes anything. */
  lemma {:induction false} NobodyEverOwes(s: State, commands: seq<Command>)
    requires Sound(s) && NobodyOwes(s.books) && NeverOverdraws(commands)
    ensures var end := Run(Perform, s, commands); end.Some? && NobodyOwes(end.value.books)
    decreases |commands|
  {
    if commands != [] {
      StepIsPosted(s, commands[0]);
      match Perform(s, commands[0]) {
        case Refused(_) => NobodyEverOwes(s, commands[1..]);
        case Applied(next) =>
          StepLeavesNoDebt(s, commands[0]);
          NobodyEverOwes(next, commands[1..]);
      }
    }
  }

  // ----- undoing

  lemma {:induction false} SameBooks(a: Books, b: Books)
    requires Numbered(a) && Numbered(b) && |a.members| == |b.members| && SameBalances(a, b)
    ensures a == b
  {
    assert Balance(a, Issuance) == Balance(b, Issuance) && Balance(a, UsdIssuance) == Balance(b, UsdIssuance);
    assert Balance(a, Escrow) == Balance(b, Escrow);
    forall i | 0 <= i < |a.members|
      ensures a.members[i] == b.members[i]
    {
      MemberHolds(a, i);
      MemberHolds(b, i);
      assert Balance(a, Coins(i + 1)) == Balance(b, Coins(i + 1));
      assert Balance(a, Cents(i + 1)) == Balance(b, Cents(i + 1));
    }
  }

  /** What a step records is what it moves, and that is what it changes. */
  lemma {:induction false} StepMoves(s: State, c: Command)
    requires Sound(s) && Perform(s, c).Applied?
    ensures var e, next := EventIn(s, c), Perform(s, c).next;
            var applied := AddMember(s.books, e, NextId(s.books));
            && next.recorded == s.recorded + Moves(s.books, e)
            && Numbered(next.books) && |next.books.members| == |applied.members|
            && forall w :: Balance(next.books, w) == Balance(applied, w) + NetChange(Moves(s.books, e), w)
  {
    var e := EventIn(s, c);
    var applied := AddMember(s.books, e, NextId(s.books));
    StepIsPosted(s, c);
    ValidatedIsPosted(s.books, c.disabled, e);
    PostingsKeepIds(applied, Moves(s.books, e));
    assert |Ids(Perform(s, c).next.books.members)| == |Ids(applied.members)|;
    forall w
      ensures Balance(Perform(s, c).next.books, w) == Balance(applied, w) + NetChange(Moves(s.books, e), w)
    {
      PostAllEffect(applied, Moves(s.books, e), w);
    }
  }

  lemma {:induction false} StepStarts(s: State, c: Command)
    requires Sound(s) && Perform(s, c).Applied?
    ensures var e := EventIn(s, c);
            var applied := AddMember(s.books, e, NextId(s.books));
            && Acceptable(s.books, c.disabled, e) && SameBalances(s.books, applied)
            && |applied.members| == |s.books.members| + (if e.CreateMember? then 1 else 0)
  {
    StepIsPosted(s, c);
    AcceptedExactly(s.books, c.disabled, EventIn(s, c));
    ValidatedIsPosted(s.books, c.disabled, EventIn(s, c));
  }

  lemma {:induction false} HeldOrNothing(b: Books, id: nat, usd: bool)
    requires Numbered(b) && 1 <= id
    ensures Balance(b, MemberWallet(id, usd)) == if id <= |b.members| then Held(b, id, usd) else 0
  {
    NumberedFind(b, id);
  }

  /** A step changes every member's wallet by what its event gives that member; a new member starts with nothing. */
  lemma {:induction false} StepGives(s: State, c: Command, id: nat, usd: bool)
    requires Sound(s) && Perform(s, c).Applied? && 1 <= id <= |Perform(s, c).next.books.members|
    ensures var e, next := EventIn(s, c), Perform(s, c).next.books;
            && |next.members| == |s.books.members| + (if e.CreateMember? then 1 else 0)
            && Held(next, id, usd) ==
               (if id <= |s.books.members| then Held(s.books, id, usd) else 0) + GainIn(s.books, e, id, usd)
  {
    var e, w, next := EventIn(s, c), MemberWallet(id, usd), Perform(s, c).next.books;
    StepStarts(s, c);
    StepMoves(s, c);
    EventGives(s.books, c.disabled, e, id, usd);
    HeldOrNothing(next, id, usd);
    HeldOrNothing(s.books, id, usd);
    assert Balance(next, w) == Balance(s.books, w) + NetChange(Moves(s.books, e), w);
  }

  /** A step blocks the credit of members whose coins a loan moved, and frees those whose coins anything else moved. */
  lemma {:induction false} StepMarksCredit(s: State, c: Command, id: nat)
    requires Sound(s) && Perform(s, c).Applied? && 1 <= id <= MEMBERS
    ensures var e := EventIn(s, c);
            var moves := Moves(s.books, e);
            Bit(Perform(s, c).next.mask, id - 1) ==
            if exists i | 0 <= i < |moves| :: Touches(moves[i], id) then e.Loan? else Bit(s.mask, id - 1)
  {
    StepIsPosted(s, c);
    MaskMeaning(s.mask, Moves(s.books, EventIn(s, c)), EventIn(s, c).Loan?, id);
  }

  /** A correction records its amount the other way, in the currency of the original. */
  lemma {:induction false} UndoSendsBack(s: State, c: Command)
    requires Sound(s) && c.Undo? && Perform(s, c).Applied?
    ensures c.original < |s.recorded|
    ensures var tx := s.recorded[c.original];
            Perform(s, c).next.recorded == s.recorded + [Posting(tx.to, tx.from, c.amount, tx.usd)]
  {
    StepMoves(s, c);
  }

  /** The step recorded one transaction, and the correction sends all of it back. */
  predicate UndoesLast(s: State, c: Command, undo: Command) {
    && Perform(s, c).Applied?
    && var next := Perform(s, c).next;
       && |next.recorded| == |s.recorded| + 1
       && undo.Undo? && undo.original == |s.recorded| && undo.amount == next.recorded[|s.recorded|].amount
       && Perform(next, undo).Applied?
  }

  lemma CorrectionMoves(b: Books, e: Event)
    requires e.Correct?
    ensures Moves(b, e) == [Posting(e.payer, e.payee, e.amount, e.usd)] && AddMember(b, e, NextId(b)) == b
  {
  }

  lemma {:induction false} UndoneMoves(s: State, c: Command, undo: Command)
    requires Sound(s) && UndoesLast(s, c, undo)
    ensures var next := Perform(s, c).next;
            var tx := next.recorded[|s.recorded|];
            && Sound(next) && Moves(s.books, EventIn(s, c)) == [tx]
            && Moves(next.books, EventIn(next, undo)) == [Posting(tx.to, tx.from, tx.amount, tx.usd)]
            && AddMember(next.books, EventIn(next, undo), NextId(next.books)) == next.books
  {
    StepIsPosted(s, c);
    StepMoves(s, c);
    var next := Perform(s, c).next;
    assert Moves(s.books, EventIn(s, c)) == next.recorded[|s.recorded|..];
    CorrectionMoves(next.books, EventIn(next, undo));
  }

  lemma {:induction false} ThereAndBack(p: Posting, w: Wallet)
    ensures NetChange([p], w) + NetChange([Posting(p.to, p.from, p.amount, p.usd)], w) == 0
  {
    NetOfOne(p, w);
    NetOfOne(Posting(p.to, p.from, p.amount, p.usd), w);
  }

  /** A transaction that a step recorded, undone in full at once: the books are as they were. */
  lemma {:induction false} UndoRestores(s: State, c: Command, undo: Command)
    requires Sound(s) && UndoesLast(s, c, undo)
    ensures Perform(Perform(s, c).next, undo).next.books ==
            AddMember(s.books, EventIn(s, c), NextId(s.books))
  {
    var next, applied := Perform(s, c).next, AddMember(s.books, EventIn(s, c), NextId(s.books));
    var last, tx := Perform(next, undo).next, next.recorded[|s.recorded|];
    UndoneMoves(s, c, undo);
    StepMoves(s, c);
    StepMoves(next, undo);
    forall w
      ensures Balance(last.books, w) == Balance(applied, w)
    {
      ThereAndBack(tx, w);
    }
    AppliedIsNumbered(s, c);
    SameBooks(last.books, applied);
  }

  lemma {:induction false} AppliedIsNumbered(s: State, c: Command)
    requires Sound(s) && Perform(s, c).Applied?
    ensures Numbered(AddMember(s.books, EventIn(s, c), NextId(s.books)))
  {
    StepIsPosted(s, c);
    ValidatedIsPosted(s.books, c.disabled, EventIn(s, c));
  }
}
