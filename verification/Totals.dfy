/** The money of the whole bank, over reforms and over runs. */
module Totals {
  import opened Limits
  import opened Money
  import opened Commerce
  import opened CommerceSafety
  import opened Gifts
  import opened GiftRuns

  lemma {:induction false} HeldAfterReform(members: seq<Member>, exponent: int)
    requires MapAll(members, MemberScaler(exponent)).Ok?
    ensures Held(MapAll(members, MemberScaler(exponent)).value) as real == Scale(Held(members) as real, exponent)
  {
    if members == [] {
      ScaleSign(0.0, exponent);
    } else {
      var first, rest := members[0], members[1..];
      assert RescaleMember(first, exponent).Ok? && MapAll(rest, MemberScaler(exponent)).Ok?;
      HeldAfterReform(rest, exponent);
      RescaledSign(first.balance, exponent, MAX_SEQUENCE);
      ScaleSum(first.balance as real, Held(rest) as real, exponent);
      HeldOf(first, rest);
      HeldOf(RescaleMember(first, exponent).value, MapAll(rest, MemberScaler(exponent)).value);
      assert members == [first] + rest;
    }
  }

  lemma {:induction false} HeldOf(first: Member, rest: seq<Member>)
    ensures Held([first] + rest) == first.balance + Held(rest)
  {
    assert ([first] + rest)[1..] == rest;
  }

  /** A reform moves the decimal point of the whole bank's money and rounds nothing away. */
  lemma {:induction false} TotalAfterReform(b: Bank, exponent: int)
    requires ReformAllowed(b, exponent)
    ensures ApplyReform(b, exponent).Some?
    ensures Total(ApplyReform(b, exponent).value) as real == Scale(Total(b) as real, exponent)
  {
    ReformApplies(b, exponent);
    HeldAfterReform(b.members, exponent);
    RescaledSign(b.issuance, exponent, MAX_SEQUENCE);
    ScaleSum(b.issuance as real, Held(b.members) as real, exponent);
  }

  /** In any run, the commands outside this model leave the total as it is when they are taken. */
  ghost predicate OthersConserve(b: Bank, steps: seq<Step>)
    decreases |steps|
  {
    steps != [] ==>
      if Accepted(b, steps[0]) && Effect(b, steps[0]).Some? then
        var next := Effect(b, steps[0]).value;
        (steps[0].Other? ==> Total(next) == Total(b)) && OthersConserve(next, steps[1..])
      else OthersConserve(b, steps[1..])
  }

  /** The total in the units of `b`, moved to the units of `c`. */
  ghost predicate SameTotal(b: Bank, c: Bank) {
    Total(c) as real == Scale(Total(b) as real, Sum(c.epochs) - Sum(b.epochs))
  }

  lemma {:induction false} UnmovedTotal(b: Bank, c: Bank)
    requires Total(c) == Total(b) && c.epochs == b.epochs
    ensures SameTotal(b, c)
  {
  }

  lemma {:induction false} ReformedTotal(b: Bank, s: Step)
    requires s.Reform? && Accepted(b, s)
    ensures Effect(b, s).Some? && SameTotal(b, Effect(b, s).value)
  {
    TotalAfterReform(b, s.exponent);
    SumAppend(b.epochs, s.exponent);
  }

  lemma {:induction false} StepConserves(b: Bank, s: Step)
    requires Sound(b) && Possible(b, s) && Accepted(b, s)
    requires s.Other? ==> Total(Effect(b, s).value) == Total(b)
    ensures Effect(b, s).Some? && SameTotal(b, Effect(b, s).value)
  {
    match s
    case Act(e, action) =>
      ActionApplies(b, e, action);
      UnmovedTotal(b, Effect(b, s).value);
    case Refund(n, _, payment, units, _, _) =>
      RefundIsSound(b, PaymentPlace(b, payment), units, n, false);
      UnmovedTotal(b, Effect(b, s).value);
    case Reverse(n, actor, payment, _, _) =>
      var i := PaymentPlace(b, payment);
      assert GoodPayment(b, b.payments[i]);
      ReversalAmount(b, b.payments[i]);
      RefundIsSound(b, i, b.payments[i].amount, n, IsNana(b, actor));
      UnmovedTotal(b, Effect(b, s).value);
    case Reform(_, _) => ReformedTotal(b, s);
    case Other(_, _, _) => UnmovedTotal(b, Effect(b, s).value);
  }

  lemma {:induction false} SameTotalTwice(b: Bank, c: Bank, d: Bank)
    requires SameTotal(b, c) && SameTotal(c, d)
    ensures SameTotal(b, d)
  {
    ScaleTwice(Total(b) as real, Sum(c.epochs) - Sum(b.epochs), Sum(d.epochs) - Sum(c.epochs));
  }

  /**
    Over any run whose other commands conserve money, the bank's total is the one it began
    with, in current units.
   */
  lemma {:induction false} RunConserves(b: Bank, steps: seq<Step>)
    requires Sound(b) && PossibleRun(b, steps) && OthersConserve(b, steps)
    ensures Run(b, steps).Some? && SameTotal(b, Run(b, steps).value)
    decreases |steps|
  {
    if steps == [] {
      UnmovedTotal(b, b);
    } else if Accepted(b, steps[0]) {
      StepIsSound(b, steps[0]);
      StepConserves(b, steps[0]);
      var next := Effect(b, steps[0]).value;
      RunConserves(next, steps[1..]);
      SameTotalTwice(b, next, Run(next, steps[1..]).value);
    } else {
      RunConserves(b, steps[1..]);
    }
  }

  lemma {:induction false} BothBalanced(b: Bank, c: Bank)
    requires SameTotal(b, c)
    ensures Total(c) == 0 <==> Total(b) == 0
  {
    ScaleSign(Total(b) as real, Sum(c.epochs) - Sum(b.epochs));
  }

  /** A bank whose wallets balance against issuance still balances after such a run, whatever reforms it holds. */
  lemma {:induction false} BalancedStaysBalanced(b: Bank, steps: seq<Step>)
    requires Sound(b) && PossibleRun(b, steps) && OthersConserve(b, steps)
    ensures Run(b, steps).Some? && (Total(Run(b, steps).value) == 0 <==> Total(b) == 0)
  {
    RunConserves(b, steps);
    BothBalanced(b, Run(b, steps).value);
  }
}
