/**
  Publishing a plan: the bank object that prepares legs and applies them, the assertions
  on the way, and what stays the same over an event.
 */
module Publishing {
  import opened Options
  import opened Limits
  import opened Posting

  // ----- applying a plan

  /** The books while a plan is being applied, and how many legs have been. */
  datatype Publication = Publication(books: Books, mask: nat, consumed: nat)

  /** Applies one recorded transaction; none when an assertion on the way fails. */
  function ApplyTx(legs: seq<Leg>, s: Publication, tx: Posting): (next: Option<Publication>) {
    if s.consumed >= |legs| then if tx.amount == 0 then Some(s) else None
    else
      var leg := legs[s.consumed];
      if leg.posting != tx || !Known(s.books, tx) then None
      else Some(Publication(Install(s.books, leg), leg.mask, s.consumed + 1))
  }

  function ApplyTxs(legs: seq<Leg>, s: Publication, txs: seq<Posting>): (last: Option<Publication>)
    decreases |txs|
  {
    if txs == [] then Some(s)
    else
      var next := ApplyTx(legs, s, txs[0]);
      if next.None? then None else ApplyTxs(legs, next.value, txs[1..])
  }

  /** The postings that move anything. */
  function NonEmpty(postings: seq<Posting>): (rest: seq<Posting>) {
    if postings == [] then []
    else (if postings[0].amount == 0 then [] else [postings[0]]) + NonEmpty(postings[1..])
  }

  function LegPostings(legs: seq<Leg>): (postings: seq<Posting>)
    ensures |postings| == |legs|
  {
    seq(|legs|, i requires 0 <= i < |legs| => legs[i].posting)
  }

  /** No empty posting comes before one that moves something. */
  predicate EmptyOnesLast(postings: seq<Posting>) {
    forall i, j | 0 <= i < j < |postings| :: postings[i].amount == 0 ==> postings[j].amount == 0
  }

  lemma {:induction false} NothingToApply(postings: seq<Posting>)
    ensures NonEmpty(postings) == [] <==> forall i | 0 <= i < |postings| :: postings[i].amount == 0
  {
    if postings != [] {
      NothingToApply(postings[1..]);
      if forall i | 0 <= i < |postings| :: postings[i].amount == 0 {
        assert forall i | 0 <= i < |postings[1..]| :: postings[1..][i] == postings[i + 1];
      } else {
        var i :| 0 <= i < |postings| && postings[i].amount != 0;
        assert i == 0 || postings[1..][i - 1].amount != 0;
      }
    }
  }

  /** A plan holds one leg for each posting that moves something, in order. */
  lemma {:induction false} PlanHoldsPostings(
    b: Books, mask: nat, loan: bool, legs: seq<Leg>, postings: seq<Posting>)
    requires PlanAll(b, mask, loan, legs, postings).Ok?
    ensures LegPostings(PlanAll(b, mask, loan, legs, postings).value) == LegPostings(legs) + NonEmpty(postings)
    decreases |postings|
  {
    if postings != [] {
      var first := PlanLeg(b, mask, loan, legs, postings[0]).value;
      PlanHoldsPostings(b, mask, loan, first, postings[1..]);
      if postings[0].amount != 0 {
        assert LegPostings(first) == LegPostings(legs) + [postings[0]];
        assert LegPostings(legs) + [postings[0]] + NonEmpty(postings[1..]) ==
               LegPostings(legs) + NonEmpty(postings);
      } else {
        assert NonEmpty(postings) == NonEmpty(postings[1..]);
      }
    }
  }

  ghost predicate PartlyApplied(b: Books, mask: nat, plan: seq<Leg>, s: Publication, left: seq<Posting>) {
    && LegsKnown(b, plan)
    && s.consumed <= |plan|
    && s.books == InstallAll(b, plan[..s.consumed])
    && s.mask == LastMask(mask, plan[..s.consumed])
    && LegPostings(plan)[s.consumed..] == NonEmpty(left)
    && AllKnown(b, left)
  }

  lemma {:induction false} ApplyOne(b: Books, mask: nat, plan: seq<Leg>, s: Publication, left: seq<Posting>)
    requires PartlyApplied(b, mask, plan, s, left) && left != []
    ensures var next := ApplyTx(plan, s, left[0]);
            if left[0].amount == 0 && NonEmpty(left) != [] then next.None?
            else next.Some? && PartlyApplied(b, mask, plan, next.value, left[1..])
  {
    NothingToApply(left);
    var rest := LegPostings(plan)[s.consumed..];
    if left[0].amount != 0 {
      assert rest[0] == left[0] && rest[1..] == NonEmpty(left[1..]);
      var leg := plan[s.consumed];
      InstallOneMore(b, plan[..s.consumed], leg);
      assert plan[..s.consumed + 1] == plan[..s.consumed] + [leg];
      assert LegPostings(plan)[s.consumed + 1..] == rest[1..];
    } else if NonEmpty(left) != [] {
      NonEmptyHasAmounts(left, 0);
    } else {
      NothingToApply(left[1..]);
    }
  }

  lemma {:induction false} NonEmptyHasAmounts(postings: seq<Posting>, i: nat)
    requires i < |NonEmpty(postings)|
    ensures NonEmpty(postings)[i].amount != 0
  {
    if postings[0].amount == 0 {
      NonEmptyHasAmounts(postings[1..], i);
    } else if i > 0 {
      NonEmptyHasAmounts(postings[1..], i - 1);
    }
  }

  /**
    Applying a plan trips no assertion exactly when no empty posting comes before one
    that moves something; then every leg has been installed.
   */
  lemma {:induction false} ApplyingTrips(b: Books, mask: nat, plan: seq<Leg>, s: Publication, left: seq<Posting>)
    requires PartlyApplied(b, mask, plan, s, left)
    ensures ApplyTxs(plan, s, left).Some? <==> EmptyOnesLast(left)
    ensures ApplyTxs(plan, s, left).Some? ==>
              ApplyTxs(plan, s, left).value == Publication(InstallAll(b, plan), LastMask(mask, plan), |plan|)
    decreases |left|
  {
    if left == [] {
      assert plan[..s.consumed] == plan;
    } else {
      ApplyOne(b, mask, plan, s, left);
      NothingToApply(left);
      var next := ApplyTx(plan, s, left[0]);
      if next.Some? {
        ApplyingTrips(b, mask, plan, next.value, left[1..]);
        EmptyOnesAfter(left);
      } else {
        var j :| 0 <= j < |left| && left[j].amount != 0;
        assert left[0].amount == 0 && j > 0;
      }
    }
  }

  lemma {:induction false} EmptyOnesAfter(left: seq<Posting>)
    requires left != [] && (left[0].amount == 0 ==> NonEmpty(left) == [])
    ensures EmptyOnesLast(left) <==> EmptyOnesLast(left[1..])
  {
    NothingToApply(left);
    if EmptyOnesLast(left[1..]) {
      forall i, j | 0 <= i < j < |left| && left[i].amount == 0
        ensures left[j].amount == 0
      {
        if i > 0 {
          assert left[1..][i - 1].amount == 0 && left[1..][j - 1] == left[j];
        }
      }
    }
    if EmptyOnesLast(left) {
      forall i, j | 0 <= i < j < |left[1..]| && left[1..][i].amount == 0
        ensures left[1..][j].amount == 0
      {
        assert left[i + 1].amount == 0 && left[j + 1] == left[1..][j];
      }
    }
  }

  /**
    A whole event. Planned before it is stored and applied after it, with a member perhaps
    added in between: the applied books are the ones posting would leave, every leg is used
    up, and no assertion trips, exactly when empty postings come last.
   */
  lemma {:induction false} PublishedEvent(planned: Books, applied: Books, mask: nat, loan: bool, postings: seq<Posting>)
    requires SameBalances(planned, applied)
    requires AllKnown(applied, postings) && NoneMeet(postings) && |postings| <= LEGS
    ensures var plan, posted := PlanAll(planned, mask, loan, [], postings), PostAll(applied, postings);
            && (plan.Ok? <==> posted.Ok?)
            && (posted.Err? ==> plan == Err(posted.error))
            && (posted.Ok? ==>
                  var end := ApplyTxs(plan.value, Publication(applied, mask, 0), postings);
                  && (end.Some? <==> EmptyOnesLast(postings))
                  && (end.Some? ==>
                        end.value == Publication(posted.value, MaskAfter(mask, postings, loan), |plan.value|)))
  {
    SamePlan(planned, applied, mask, loan, [], postings);
    PlanRefinesPosting(applied, mask, loan, [], postings);
    var plan := PlanAll(applied, mask, loan, [], postings);
    if plan.Ok? {
      PlanHoldsPostings(applied, mask, loan, [], postings);
      assert plan.value[..0] == [];
      assert LegPostings(plan.value)[0..] == NonEmpty(postings);
      ApplyingTrips(applied, mask, plan.value, Publication(applied, mask, 0), postings);
    }
  }

  // ----- loans

  datatype Kind = Principal | Interest

  /** A posting of a loan event, what it is for, and how far its number lies from the event's. */
  datatype LoanRow = LoanRow(posting: Posting, kind: Kind, offset: nat)

  const SECOND_OFFSET := 4096

  /** What a loan event moves: the draw, or the principal and then the interest of a payment. */
  function LoanRows(draw: int, drawAmount: int, principal: int, interest: int, lender: nat, borrower: nat)
    : (r: Result<seq<LoanRow>, Error>)
  {
    if (draw != 0 && draw != 1) || drawAmount < 0 || principal < 0 || interest < 0 then Err(InvalidInput)
    else if draw == 1 then
      if drawAmount > MAX_I64 then Err(Overflow)
      else
        Ok(if drawAmount > 0 then [LoanRow(Posting(lender, borrower, drawAmount, false), Principal, 0)] else [])
    else if principal + interest > MAX_I64 then Err(Overflow)
    else
      var first :=
        if principal > 0 then [LoanRow(Posting(borrower, lender, principal, false), Principal, 0)] else [];
      var offset := if principal > 0 then SECOND_OFFSET else 0;
      Ok(first +
         if interest > 0 then [LoanRow(Posting(borrower, lender, interest, false), Interest, offset)] else [])
  }

  function PostingsOf(rows: seq<LoanRow>): (postings: seq<Posting>)
    ensures |postings| == |rows| && forall i | 0 <= i < |rows| :: postings[i] == rows[i].posting
  {
    seq(|rows|, i requires 0 <= i < |rows| => rows[i].posting)
  }

  /** Plans the rows of a loan event in turn: the legs, the rows noted beside them, and what stopped it. */
  function PlanRows(b: Books, mask: nat, loan: bool, legs: seq<Leg>, noted: seq<LoanRow>, rows: seq<LoanRow>)
    : (r: (seq<Leg>, seq<LoanRow>, Option<Error>))
    decreases |rows|
  {
    if rows == [] then (legs, noted, None)
    else
      var next := PlanLeg(b, mask, loan, legs, rows[0].posting);
      if next.Err? then (legs, noted, Some(next.error))
      else if |noted| == LEGS then (next.value, noted, Some(Unavailable))
      else PlanRows(b, mask, loan, next.value, noted + [rows[0]], rows[1..])
  }

  /** There is always room to note a loan event's rows, so they are planned as its postings are. */
  lemma {:induction false} RowsArePlanned(
    b: Books, mask: nat, loan: bool, legs: seq<Leg>, noted: seq<LoanRow>, rows: seq<LoanRow>)
    requires |noted| + |rows| <= LEGS
    ensures var r, plan := PlanRows(b, mask, loan, legs, noted, rows), PlanAll(b, mask, loan, legs, PostingsOf(rows));
            if plan.Err? then r.2 == Some(plan.error)
            else r == (plan.value, noted + rows, None)
    decreases |rows|
  {
    if rows == [] {
      assert noted + rows == noted;
    } else {
      assert PostingsOf(rows)[1..] == PostingsOf(rows[1..]);
      var next := PlanLeg(b, mask, loan, legs, rows[0].posting);
      if next.Ok? {
        RowsArePlanned(b, mask, loan, next.value, noted + [rows[0]], rows[1..]);
        assert noted + [rows[0]] + rows[1..] == noted + rows;
      }
    }
  }

  function AmountOf(postings: seq<Posting>): (total: int) {
    if postings == [] then 0 else postings[0].amount + AmountOf(postings[1..])
  }

  /** The posting of a row, told from what the row is for. */
  function RowPosting(draw: int, drawAmount: int, principal: int, interest: int, lender: nat, borrower: nat, kind: Kind)
    : (p: Posting)
  {
    if draw == 1 then Posting(lender, borrower, drawAmount, false)
    else Posting(borrower, lender, if kind == Principal then principal else interest, false)
  }

  /**
    A loan event moves exactly what was drawn or paid, in coins, by at most two postings
    that are not empty: from the lender what is drawn, or from the borrower the principal and
    then the interest, each noted as what it is and under numbers that differ.
   */
  lemma LoanRowsMove(draw: int, drawAmount: int, principal: int, interest: int, lender: nat, borrower: nat)
    requires LoanRows(draw, drawAmount, principal, interest, lender, borrower).Ok?
    ensures var rows := LoanRows(draw, drawAmount, principal, interest, lender, borrower).value;
            && |rows| <= LEGS && EmptyOnesLast(PostingsOf(rows)) && AllKeepEscrow(PostingsOf(rows))
            && AmountOf(PostingsOf(rows)) == (if draw == 1 then drawAmount else principal + interest)
            && (forall i, j | 0 <= i < j < |rows| ::
                  rows[i].kind == Principal && rows[j].kind == Interest && rows[i].offset != rows[j].offset)
            && (forall i | 0 <= i < |rows| ::
                  && rows[i].posting ==
                     RowPosting(draw, drawAmount, principal, interest, lender, borrower, rows[i].kind)
                  && rows[i].posting.amount > 0
                  && rows[i].offset == (if i == 0 then 0 else 4096)
                  && (rows[i].kind == Interest ==> draw != 1))
            && ((exists i :: 0 <= i < |rows| && rows[i].kind == Principal) <==>
                if draw == 1 then drawAmount > 0 else principal > 0)
            && ((exists i :: 0 <= i < |rows| && rows[i].kind == Interest) <==> draw != 1 && interest > 0)
  {
    var rows := LoanRows(draw, drawAmount, principal, interest, lender, borrower).value;
    var postings := PostingsOf(rows);
    if |postings| == 2 {
      assert postings[1..] == [postings[1]] && AmountOf(postings[1..]) == postings[1].amount + AmountOf([]);
      assert rows[0].kind == Principal && rows[1].kind == Interest;
    } else if |postings| == 1 {
      assert rows[0].kind == Principal || rows[0].kind == Interest;
    }
  }

  // ----- conservation

  function CoinsHeld(members: seq<Member>): (units: int) {
    if members == [] then 0 else members[0].balance + CoinsHeld(members[1..])
  }

  function CentsHeld(members: seq<Member>): (units: int) {
    if members == [] then 0 else members[0].usdCents + CentsHeld(members[1..])
  }

  /** All coins, those issued counted against issuance. */
  function CoinSum(b: Books): (units: int) { b.issuance + b.escrow + CoinsHeld(b.members) }

  function DollarSum(b: Books): (units: int) { b.usdIssuance + CentsHeld(b.members) }

  lemma {:induction false} HeldAfter(members: seq<Member>, i: nat, m: Member)
    requires i < |members|
    ensures CoinsHeld(members[i := m]) == CoinsHeld(members) - members[i].balance + m.balance
    ensures CentsHeld(members[i := m]) == CentsHeld(members) - members[i].usdCents + m.usdCents
  {
    if i > 0 {
      HeldAfter(members[1..], i - 1, m);
      assert members[i := m][1..] == members[1..][i - 1 := m];
    } else {
      assert members[i := m][1..] == members[1..];
    }
  }

  predicate HoldsDollars(w: Wallet) { w.UsdIssuance? || w.Cents? }

  lemma SumAfterSet(b: Books, w: Wallet, units: int)
    requires Exists(b, w)
    ensures CoinSum(SetBalance(b, w, units)) == CoinSum(b) + (if HoldsDollars(w) then 0 else units - Balance(b, w))
    ensures DollarSum(SetBalance(b, w, units)) == DollarSum(b) + (if HoldsDollars(w) then units - Balance(b, w) else 0)
  {
    if w.Coins? {
      var i := Find(b.members, w.id);
      HeldAfter(b.members, i, b.members[i].(balance := units));
    } else if w.Cents? {
      var i := Find(b.members, w.id);
      HeldAfter(b.members, i, b.members[i].(usdCents := units));
    }
  }

  lemma SumAfterTransfer(b: Books, from: Wallet, to: Wallet, amount: int)
    requires Exists(b, from) && Exists(b, to)
    ensures var after := Transfer(b, from, to, amount);
            var shift := (if HoldsDollars(to) then amount else 0) - (if HoldsDollars(from) then amount else 0);
            CoinSum(after) == CoinSum(b) - shift && DollarSum(after) == DollarSum(b) + shift
  {
    var debit := Balance(b, from) - amount;
    SetOne(b, from, debit, to);
    SumAfterSet(b, from, debit);
    var paid := SetBalance(b, from, debit);
    SumAfterSet(paid, to, Balance(paid, to) + amount);
  }

  /** A dollar posting into or out of escrow, the one kind that mixes currencies. */
  predicate MixesCurrencies(p: Posting) {
    p.usd && p.amount != 0 && p.from != p.to && (p.from == ESCROW || p.to == ESCROW)
  }

  /** One posting keeps both sums exactly when it does not mix currencies. */
  lemma PostingConserves(b: Books, p: Posting)
    requires Known(b, p) && Post(b, p).Ok?
    ensures var after := Post(b, p).value;
            CoinSum(after) == CoinSum(b) && DollarSum(after) == DollarSum(b) <==> !MixesCurrencies(p)
  {
    if p.amount != 0 {
      SumAfterTransfer(b, p.Payer(), p.Payee(), p.amount);
    }
  }

  /** Any number of postings that leave escrow to coins keep both sums. */
  lemma {:induction false} PostingsConserve(b: Books, postings: seq<Posting>)
    requires AllKnown(b, postings) && AllKeepEscrow(postings)
    requires PostAll(b, postings).Ok?
    ensures var after := PostAll(b, postings).value;
            CoinSum(after) == CoinSum(b) && DollarSum(after) == DollarSum(b)
    decreases |postings|
  {
    if postings != [] {
      PostingConserves(b, postings[0]);
      PostingsConserve(Post(b, postings[0]).value, postings[1..]);
    }
  }

  predicate WithinLimits(members: seq<Member>) {
    forall i | 0 <= i < |members| ::
      && -MAX_SEQUENCE <= members[i].balance <= MAX_SEQUENCE
      && -MAX_SEQUENCE <= members[i].usdCents <= MAX_SEQUENCE
  }

  /** Postings keep every member's wallets within the limits of exact numbers. */
  lemma {:induction false} PostingsKeepLimits(b: Books, postings: seq<Posting>)
    requires AllKnown(b, postings) && PostAll(b, postings).Ok?
    requires WithinLimits(b.members)
    ensures WithinLimits(PostAll(b, postings).value.members)
    decreases |postings|
  {
    if postings != [] {
      PostingKeepsLimits(b, postings[0]);
      PostingsKeepLimits(Post(b, postings[0]).value, postings[1..]);
    }
  }

  lemma MemberWithinLimits(b: Books, w: Wallet)
    requires WithinLimits(b.members) && Exists(b, w) && (w.Coins? || w.Cents?)
    ensures -MAX_SEQUENCE <= Balance(b, w) <= MAX_SEQUENCE
  {
  }

  lemma SetMemberWithinLimits(b: Books, w: Wallet, units: int)
    requires Exists(b, w) && WithinLimits(b.members)
    requires w.Coins? || w.Cents? ==> -MAX_SEQUENCE <= units <= MAX_SEQUENCE
    ensures WithinLimits(SetBalance(b, w, units).members)
  {
  }

  lemma SetBothWithinLimits(b: Books, first: Wallet, debit: int, second: Wallet, credit: int)
    requires Exists(b, first) && Exists(b, second) && WithinLimits(b.members)
    requires first.Coins? || first.Cents? ==> -MAX_SEQUENCE <= debit <= MAX_SEQUENCE
    requires second.Coins? || second.Cents? ==> -MAX_SEQUENCE <= credit <= MAX_SEQUENCE
    ensures WithinLimits(SetBoth(b, first, debit, second, credit).members)
  {
    SetOne(b, first, debit, second);
    SetMemberWithinLimits(b, first, debit);
    SetMemberWithinLimits(SetBalance(b, first, debit), second, credit);
  }

  lemma PostingKeepsLimits(b: Books, p: Posting)
    requires Known(b, p) && Post(b, p).Ok? && WithinLimits(b.members)
    ensures WithinLimits(Post(b, p).value.members)
  {
    if p.amount != 0 && p.from == p.to {
      TransferToSelf(b, p.Payer(), p.amount, 0);
    } else if p.amount != 0 {
      PaymentKeepsLimits(b, p.Payer(), p.Payee(), p.amount);
    }
  }

  lemma PaymentKeepsLimits(b: Books, from: Wallet, to: Wallet, amount: int)
    requires Exists(b, from) && Exists(b, to) && from != to && WithinLimits(b.members) && amount > 0
    requires Balance(b, from) - amount >= -MAX_SEQUENCE && Balance(b, to) + amount <= MAX_SEQUENCE
    ensures WithinLimits(Transfer(b, from, to, amount).members)
  {
    if from.Coins? || from.Cents? {
      MemberWithinLimits(b, from);
    }
    if to.Coins? || to.Cents? {
      MemberWithinLimits(b, to);
    }
    TransferBetween(b, from, to, amount);
    SetBothWithinLimits(b, from, Balance(b, from) - amount, to, Balance(b, to) + amount);
  }

  predicate FitsI64(n: int) { MIN_I64 <= n <= MAX_I64 }

  lemma {:induction false} HeldIsBounded(members: seq<Member>)
    requires WithinLimits(members)
    ensures -MAX_SEQUENCE * |members| <= CoinsHeld(members) <= MAX_SEQUENCE * |members|
    ensures -MAX_SEQUENCE * |members| <= CentsHeld(members) <= MAX_SEQUENCE * |members|
  {
    if members != [] {
      assert WithinLimits(members[1..]);
      HeldIsBounded(members[1..]);
    }
  }

  lemma {:induction false} HeldConcat(a: seq<Member>, b: seq<Member>)
    ensures CoinsHeld(a + b) == CoinsHeld(a) + CoinsHeld(b)
    ensures CentsHeld(a + b) == CentsHeld(a) + CentsHeld(b)
  {
    if a == [] {
      assert a + b == b;
    } else {
      assert (a + b)[1..] == a[1..] + b;
      HeldConcat(a[1..], b);
    }
  }

  /** What the running sums must be for the books to balance in the end. */
  lemma RunningSums(b: Books, i: nat)
    requires |b.members| <= MEMBERS && WithinLimits(b.members) && i <= |b.members|
    ensures CoinSum(b) == b.issuance + b.escrow + CoinsHeld(b.members[..i]) + CoinsHeld(b.members[i..])
    ensures DollarSum(b) == b.usdIssuance + CentsHeld(b.members[..i]) + CentsHeld(b.members[i..])
    ensures FitsI64(-CoinsHeld(b.members[i..])) && FitsI64(-CentsHeld(b.members[i..]))
  {
    assert b.members[..i] + b.members[i..] == b.members;
    HeldConcat(b.members[..i], b.members[i..]);
    HeldIsBounded(b.members[i..]);
  }

  /**
    The bank's own check of its sums. It also refuses running sums that leave 64 bits,
    but no balanced books are refused for that.
   */
  method CheckBase(b: Books) returns (ok: bool)
    requires |b.members| <= MEMBERS && FitsI64(b.usdIssuance)
    ensures ok <==> CoinSum(b) == 0 && DollarSum(b) == 0 && WithinLimits(b.members)
  {
    var coins, dollars := b.issuance + b.escrow, b.usdIssuance;
    assert b.members[0..] == b.members && b.members[..0] == [];
    if !FitsI64(coins) {
      if WithinLimits(b.members) {
        RunningSums(b, 0);
      }
      return false;
    }
    for i := 0 to |b.members|
      invariant coins == b.issuance + b.escrow + CoinsHeld(b.members[..i])
      invariant dollars == b.usdIssuance + CentsHeld(b.members[..i])
      invariant WithinLimits(b.members[..i])
    {
      var m := b.members[i];
      if m.balance < -MAX_SEQUENCE || m.balance > MAX_SEQUENCE
        || m.usdCents < -MAX_SEQUENCE || m.usdCents > MAX_SEQUENCE {
        return false;
      }
      coins, dollars := coins + m.balance, dollars + m.usdCents;
      assert b.members[..i + 1] == b.members[..i] + [m];
      HeldConcat(b.members[..i], [m]);
      assert CoinsHeld([m]) == m.balance + CoinsHeld([]) && CentsHeld([m]) == m.usdCents + CentsHeld([]);
      if !FitsI64(coins) || !FitsI64(dollars) {
        if WithinLimits(b.members) {
          RunningSums(b, i + 1);
        }
        return false;
      }
    }
    assert b.members[..|b.members|] == b.members;
    return coins == 0 && dollars == 0;
  }

  // ----- the bank object

  class Bank {
    var issuance: int
    var usdIssuance: int
    var escrow: int
    var members: seq<Member>
    var creditBlocked: nat
    var loanReference: bool
    var legs: seq<Leg>
    var loanRows: seq<LoanRow>
    var consumed: nat

    function Ledger(): (b: Books)
      reads this
    {
      Books(issuance, usdIssuance, escrow, members)
    }

    function Progress(): (s: Publication)
      reads this
    {
      Publication(Ledger(), creditBlocked, consumed)
    }

    method MemberPlace(id: nat) returns (i: nat)
      ensures i == Find(members, id)
    {
      i := 0;
      while i < |members| && members[i].id != id
        invariant i <= |members|
        invariant forall k | 0 <= k < i :: members[k].id != id
      {
        i := i + 1;
      }
      FindIsFirst(members, id, i);
    }

    method StoredBalance(id: nat, usd: bool) returns (units: int)
      ensures units == Balance(Ledger(), WalletOf(id, usd))
    {
      if id == ISSUER {
        return if usd then usdIssuance else issuance;
      } else if id == ESCROW {
        return escrow;
      }
      var i := MemberPlace(id);
      return if i == |members| then 0 else if usd then members[i].usdCents else members[i].balance;
    }

    /** The balance the legs prepared so far will leave. */
    method PreparedBalance(id: nat, usd: bool) returns (units: int)
      ensures units == Overlay(Ledger(), legs, id, usd)
    {
      units := StoredBalance(id, usd);
      for i := 0 to |legs|
        invariant units == Overlay(Ledger(), legs[..i], id, usd)
      {
        assert legs[..i + 1][..i] == legs[..i];
        var leg := legs[i];
        if leg.posting.usd == usd {
          if leg.posting.from == id {
            units := leg.debit;
          }
          if leg.posting.to == id {
            units := leg.credit;
          }
        }
      }
      assert legs[..|legs|] == legs;
    }

    /** Plans one posting more; nothing changes but the plan. */
    method PrepareLeg(p: Posting) returns (error: Option<Error>)
      modifies this`legs
      ensures var planned := PlanLeg(Ledger(), creditBlocked, loanReference, old(legs), p);
              if planned.Ok? then error.None? && legs == planned.value
              else error == Some(planned.error) && legs == old(legs)
    {
      var source := PreparedBalance(p.from, p.usd);
      var target := PreparedBalance(p.to, p.usd);
      var k := Kernel(source, target, p.amount, p.usd, p.from == p.to);
      if k.Err? {
        return Some(k.error);
      }
      if k.value.None? {
        return None;
      }
      if |legs| == LEGS {
        return Some(Capacity);
      }
      var mask := if legs == [] then creditBlocked else legs[|legs| - 1].mask;
      legs := legs + [Leg(p, k.value.value.0, k.value.value.1, NextMask(mask, p, loanReference))];
      return None;
    }

    /** Plans the postings of a loan event in turn, each noted beside its leg, up to the first refusal. */
    method PrepareLoanPostings(
      draw: int, drawAmount: int, principal: int, interest: int, lender: nat, borrower: nat)
      returns (error: Option<Error>)
      modifies this`legs, this`loanRows
      ensures var rows := LoanRows(draw, drawAmount, principal, interest, lender, borrower);
              if rows.Err? then error == Some(rows.error) && legs == old(legs) && loanRows == old(loanRows)
              else
                (legs, loanRows, error) ==
                PlanRows(Ledger(), creditBlocked, loanReference, old(legs), old(loanRows), rows.value)
    {
      var rows := LoanRows(draw, drawAmount, principal, interest, lender, borrower);
      if rows.Err? {
        return Some(rows.error);
      }
      ghost var whole := PlanRows(Ledger(), creditBlocked, loanReference, legs, loanRows, rows.value);
      for i := 0 to |rows.value|
        invariant PlanRows(Ledger(), creditBlocked, loanReference, legs, loanRows, rows.value[i..]) == whole
      {
        var row := rows.value[i];
        error := PrepareLeg(row.posting);
        if error.Some? {
          return;
        }
        if |loanRows| == LEGS {
          return Some(Unavailable);
        }
        loanRows := loanRows + [row];
        assert rows.value[i..][1..] == rows.value[i + 1..];
      }
      return None;
    }

    /** Overwrites one wallet with a planned balance. */
    method SetWallet(id: nat, usd: bool, units: int)
      requires Exists(Ledger(), WalletOf(id, usd))
      modifies this`issuance, this`usdIssuance, this`escrow, this`members
      ensures Ledger() == SetBalance(old(Ledger()), WalletOf(id, usd), units)
    {
      if id == ISSUER {
        if usd {
          usdIssuance := units;
        } else {
          issuance := units;
        }
      } else if id == ESCROW {
        escrow := units;
      } else {
        var i := MemberPlace(id);
        members := members[i := if usd then members[i].(usdCents := units) else members[i].(balance := units)];
      }
    }

    /** Applies the next planned leg to a recorded transaction; the assertions on the way are the precondition. */
    method ApplyBalances(tx: Posting)
      requires ApplyTx(legs, Progress(), tx).Some?
      modifies this`issuance, this`usdIssuance, this`escrow, this`members, this`creditBlocked, this`consumed
      ensures Progress() == ApplyTx(legs, old(Progress()), tx).value
    {
      if consumed >= |legs| {
        return;
      }
      var leg := legs[consumed];
      SetBothEffect(Ledger(), tx.Payer(), leg.debit, tx.Payee(), leg.credit);
      creditBlocked := leg.mask;
      consumed := consumed + 1;
      SetWallet(tx.from, tx.usd, leg.debit);
      SetWallet(tx.to, tx.usd, leg.credit);
    }
  }
}
