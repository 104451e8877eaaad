/**
  Refunds, reversals, reforms, and runs of every kind of command: what a request has
  received stays what was contributed to it less what went back.
 */
module GiftRuns {
  import opened Options
  import opened Limits
  import opened Money
  import opened Commerce
  import opened CommerceSafety
  import opened Gifts

  // ----- refunds

  /** What the rest of an event's refund does: the receipt goes down by exactly what the units are worth now. */
  lemma RefundLowersReceipt(b: Bank, i: nat, units: int, r: nat)
    requires Sound(b) && i < |b.payments| && r < |b.requests|
    requires b.payments[i].gift == Some(b.requests[r].id)
    requires 0 < units <= b.payments[i].amount - b.payments[i].refunded
    requires CurrentAmount(b, b.payments[i], units).Ok?
    ensures var p := b.payments[i];
            var noted := b.payments[i := p.(refunded := p.refunded + units)];
            var left := b.requests[r].received - CurrentAmount(b, p, units).value;
            && left as real == Outstanding(noted, b.epochs, b.requests[r].id)
            && 0 <= left <= b.requests[r].received
  {
    var p := b.payments[i];
    var noted := b.payments[i := p.(refunded := p.refunded + units)];
    OutstandingAfterRefund(b.payments, i, units, b.epochs, b.requests[r].id);
    RescaledSign(units, ExponentSince(b.epochs, p.epoch), MAX_AMOUNT);
    forall k | 0 <= k < |noted|
      ensures noted[k].refunded <= noted[k].amount
    {
      assert GoodPayment(b, b.payments[k]);
    }
    OutstandingSign(noted, b.epochs, b.requests[r].id);
  }

  /** The bank after everything but the money of a refund. */
  function Noted(b: Bank, i: nat, units: int, sequence: nat): (c: Option<Bank>)
    requires i < |b.payments| && CurrentAmount(b, b.payments[i], units).Ok?
  {
    var p := b.payments[i];
    var lowered := LowerReceived(b, p.gift, CurrentAmount(b, p, units).value);
    if lowered.None? then None
    else Some(lowered.value.(payments := b.payments[i := p.(refunded := p.refunded + units)], sequence := sequence))
  }

  predicate Refundable(b: Bank, i: nat, units: int) {
    && i < |b.payments|
    && 0 < units <= b.payments[i].amount - b.payments[i].refunded
    && CurrentAmount(b, b.payments[i], units).Ok?
  }

  lemma NotedReceipts(b: Bank, c: Bank, i: nat, units: int, r: nat)
    requires Sound(b) && Refundable(b, i, units) && r < |b.requests|
    requires b.payments[i].gift == Some(b.requests[r].id)
    requires c.payments == b.payments[i := b.payments[i].(refunded := b.payments[i].refunded + units)]
    requires c.epochs == b.epochs
    requires var left := b.requests[r].received - CurrentAmount(b, b.payments[i], units).value;
             c.requests == b.requests[r := b.requests[r].(received := left)]
    ensures ReceivedIsNet(c)
  {
    RefundLowersReceipt(b, i, units, r);
    forall k | 0 <= k < |c.requests|
      ensures c.requests[k].received as real == Outstanding(c.payments, c.epochs, c.requests[k].id)
    {
      if k != r {
        OutstandingAfterRefund(b.payments, i, units, b.epochs, c.requests[k].id);
        assert b.requests[k].id != b.requests[r].id;
      }
    }
  }

  /** What noting a gift's refund changes. */
  lemma GiftNoted(b: Bank, i: nat, units: int, sequence: nat, r: nat)
    requires i < |b.payments| && CurrentAmount(b, b.payments[i], units).Ok?
    requires b.payments[i].gift.Some? && r == RequestPlace(b, b.payments[i].gift.value) < |b.requests|
    ensures Noted(b, i, units, sequence).Some?
    ensures var left := b.requests[r].received - CurrentAmount(b, b.payments[i], units).value;
            Noted(b, i, units, sequence).value ==
            b.(requests := b.requests[r := b.requests[r].(received := left)],
               payments := b.payments[i := b.payments[i].(refunded := b.payments[i].refunded + units)],
               sequence := sequence)
  {
  }

  lemma GiftRefundKeepsTables(b: Bank, i: nat, units: int, sequence: nat, r: nat)
    requires Sound(b) && sequence >= b.sequence && Refundable(b, i, units)
    requires b.payments[i].gift.Some? && r == RequestPlace(b, b.payments[i].gift.value) < |b.requests|
    ensures Noted(b, i, units, sequence).Some? && Checked(Noted(b, i, units, sequence).value)
  {
    GiftNoted(b, i, units, sequence, r);
    var c := Noted(b, i, units, sequence).value;
    RefundLowersReceipt(b, i, units, r);
    assert GoodRequest(b, b.requests[r]);
    SamePeopleMembers(b, c, b.requests[r].owner);
    RequestChanged(b, c, r, c.requests[r]);
  }

  lemma GiftRefundIsSound(b: Bank, i: nat, units: int, sequence: nat, r: nat)
    requires Sound(b) && sequence >= b.sequence && Refundable(b, i, units)
    requires b.payments[i].gift.Some? && r == RequestPlace(b, b.payments[i].gift.value) < |b.requests|
    ensures Noted(b, i, units, sequence).Some? && Sound(Noted(b, i, units, sequence).value)
  {
    GiftRefundKeepsTables(b, i, units, sequence, r);
    GiftNoted(b, i, units, sequence, r);
    var c := Noted(b, i, units, sequence).value;
    NotedPaymentsStayGood(b, c, i);
    NotedReceipts(b, c, i, units, r);
  }

  lemma PlainRefundIsSound(b: Bank, i: nat, units: int, sequence: nat)
    requires Sound(b) && sequence >= b.sequence && Refundable(b, i, units)
    requires b.payments[i].gift.None?
    ensures Noted(b, i, units, sequence).Some? && Sound(Noted(b, i, units, sequence).value)
  {
    var c := Noted(b, i, units, sequence).value;
    CheckedAcross(b, c);
    NotedPaymentsStayGood(b, c, i);
    forall k | 0 <= k < |c.requests|
      ensures c.requests[k].received as real == Outstanding(c.payments, c.epochs, c.requests[k].id)
    {
      OutstandingAfterRefund(b.payments, i, units, b.epochs, c.requests[k].id);
    }
  }

  lemma NotedIsSound(b: Bank, i: nat, units: int, sequence: nat)
    requires Sound(b) && sequence >= b.sequence && Refundable(b, i, units)
    ensures Noted(b, i, units, sequence).Some? && Sound(Noted(b, i, units, sequence).value)
  {
    var p := b.payments[i];
    assert GoodPayment(b, p);
    if p.gift.Some? {
      GiftRefundIsSound(b, i, units, sequence, RequestPlace(b, p.gift.value));
    } else {
      PlainRefundIsSound(b, i, units, sequence);
    }
  }

  lemma NotedKeepsRest(b: Bank, i: nat, units: int, sequence: nat)
    requires i < |b.payments| && CurrentAmount(b, b.payments[i], units).Ok? && Noted(b, i, units, sequence).Some?
    ensures var c := Noted(b, i, units, sequence).value;
            c.members == b.members && c.issuance == b.issuance && c.artworks == b.artworks && c.epochs == b.epochs
  {
  }

  lemma NotedPaymentsStayGood(b: Bank, c: Bank, i: nat)
    requires Sound(b) && i < |b.payments| && |c.payments| == |b.payments|
    requires |b.requests| == |c.requests| && forall k | 0 <= k < |b.requests| :: c.requests[k].id == b.requests[k].id
    requires c.epochs == b.epochs
    requires c.payments[i] == b.payments[i].(refunded := c.payments[i].refunded)
    requires b.payments[i].refunded <= c.payments[i].refunded <= b.payments[i].amount
    requires forall k | 0 <= k < |b.payments| && k != i :: c.payments[k] == b.payments[k]
    ensures forall k | 0 <= k < |c.payments| :: GoodPayment(c, c.payments[k])
  {
    PaymentsStayGood(b, c);
    assert GoodPayment(c, b.payments[i]);
    forall k | 0 <= k < |c.payments|
      ensures GoodPayment(c, c.payments[k])
    {
      assert GoodPayment(c, b.payments[k]);
    }
  }

  /** The invariant does not depend on balances. */
  lemma SoundAcrossPay(b: Bank, c: Bank)
    requires Sound(b) && SameTables(b, c)
    ensures Sound(c)
  {
    PeopleStay(b, c);
    CheckedAcross(b, c);
    PaymentsStayGood(b, c);
  }

  lemma RefundIsSound(b: Bank, i: nat, units: int, sequence: nat, correction: bool)
    requires Sound(b) && sequence >= b.sequence && Refundable(b, i, units)
    requires var p := b.payments[i];
             ValidatePosting(b, p.to, p.from, CurrentAmount(b, p, units).value, correction).None?
    ensures ApplyRefund(b, i, units).Some?
    ensures Sound(ApplyRefund(b, i, units).value.(sequence := sequence))
    ensures Total(ApplyRefund(b, i, units).value) == Total(b)
    ensures ApplyRefund(b, i, units).value.artworks == b.artworks
    ensures ApplyRefund(b, i, units).value.epochs == b.epochs
  {
    var p := b.payments[i];
    var now := CurrentAmount(b, p, units).value;
    NotedIsSound(b, i, units, sequence);
    NotedIsSound(b, i, units, b.sequence);
    NotedKeepsRest(b, i, units, b.sequence);
    var ready := Noted(b, i, units, b.sequence).value;
    ValidatedParties(b, p.to, p.from, now, correction);
    PlacesAgree(b, ready, p.to);
    PlacesAgree(b, ready, p.from);
    PayBalances(ready, p.to, p.from, now);
    assert ApplyRefund(b, i, units) == Pay(ready, p.to, p.from, now);
    SoundAcrossPay(Noted(b, i, units, sequence).value, Pay(ready, p.to, p.from, now).value.(sequence := sequence));
  }

  // ----- reforms

  lemma {:induction false} MapAgrees<T, U>(s: seq<T>, f: T -> Result<U, Error>, g: T -> Result<U, Error>)
    requires MapAll(s, f).Ok?
    requires forall i | 0 <= i < |s| && f(s[i]).Ok? :: g(s[i]) == f(s[i])
    ensures MapAll(s, g) == MapAll(s, f)
  {
    if s != [] {
      assert f(s[0]).Ok? && MapAll(s[1..], f).Ok?;
      forall i | 0 <= i < |s[1..]| && f(s[1..][i]).Ok?
        ensures g(s[1..][i]) == f(s[1..][i])
      {
        assert s[1..][i] == s[i + 1];
      }
      MapAgrees(s[1..], f, g);
    }
  }

  lemma RequestLimits(r: GiftRequest, exponent: int)
    requires RescaleRequest(r, exponent, MAX_AMOUNT).Ok?
    ensures RescaleRequest(r, exponent, MAX_SEQUENCE) == RescaleRequest(r, exponent, MAX_AMOUNT)
  {
    if r.target.Some? {
      RescaleWithin(r.target.value, exponent, MAX_AMOUNT, MAX_SEQUENCE);
    }
  }

  lemma ArtworkLimits(a: Artwork, exponent: int)
    requires RescaleArtwork(a, exponent, MAX_AMOUNT).Ok?
    ensures RescaleArtwork(a, exponent, MAX_SEQUENCE) == RescaleArtwork(a, exponent, MAX_AMOUNT)
  {
    if a.price.Some? {
      RescaleWithin(a.price.value, exponent, MAX_AMOUNT, MAX_SEQUENCE);
    }
  }

  /** A reform that was allowed applies, and gives what the check computed. */
  lemma ReformApplies(b: Bank, exponent: int)
    requires ReformAllowed(b, exponent)
    ensures RescaleTables(b, exponent, MAX_SEQUENCE) == RescaleTables(b, exponent, MAX_AMOUNT)
  {
    forall i | 0 <= i < |b.requests| && RescaleRequest(b.requests[i], exponent, MAX_AMOUNT).Ok?
      ensures RequestScaler(exponent, MAX_SEQUENCE)(b.requests[i]) == RequestScaler(exponent, MAX_AMOUNT)(b.requests[i])
    {
      RequestLimits(b.requests[i], exponent);
    }
    MapAgrees(b.requests, RequestScaler(exponent, MAX_AMOUNT), RequestScaler(exponent, MAX_SEQUENCE));
    forall i | 0 <= i < |b.artworks| && RescaleArtwork(b.artworks[i], exponent, MAX_AMOUNT).Ok?
      ensures ArtworkScaler(exponent, MAX_SEQUENCE)(b.artworks[i]) == ArtworkScaler(exponent, MAX_AMOUNT)(b.artworks[i])
    {
      ArtworkLimits(b.artworks[i], exponent);
    }
    MapAgrees(b.artworks, ArtworkScaler(exponent, MAX_AMOUNT), ArtworkScaler(exponent, MAX_SEQUENCE));
  }

  lemma RescaledOptionIsPositive(v: Option<int>, exponent: int)
    requires RescaleOption(v, exponent, MAX_AMOUNT).Ok?
    requires v.Some? ==> Positive(v.value)
    ensures var s := RescaleOption(v, exponent, MAX_AMOUNT).value; s.Some? ==> Positive(s.value)
  {
    if v.Some? {
      RescaledSign(v.value, exponent, MAX_AMOUNT);
    }
  }

  lemma RescaledRequestIsGood(b: Bank, c: Bank, r: GiftRequest, exponent: int)
    requires GoodRequest(b, r) && RescaleRequest(r, exponent, MAX_AMOUNT).Ok?
    requires StillMembers(b, c) && c.sequence >= b.sequence
    ensures GoodRequest(c, RescaleRequest(r, exponent, MAX_AMOUNT).value)
  {
    RescaledOptionIsPositive(r.target, exponent);
    RescaledSign(r.received, exponent, MAX_SEQUENCE);
  }

  lemma RescaledArtworkIsGood(b: Bank, c: Bank, a: Artwork, exponent: int)
    requires GoodArtwork(b, a) && RescaleArtwork(a, exponent, MAX_AMOUNT).Ok?
    requires StillMembers(b, c) && c.sequence >= b.sequence
    ensures GoodArtwork(c, RescaleArtwork(a, exponent, MAX_AMOUNT).value)
  {
    RescaledOptionIsPositive(a.price, exponent);
  }

  lemma RescaledPeople(b: Bank, c: Bank, exponent: int)
    requires RescaleTables(b, exponent, MAX_AMOUNT).Ok?
    requires c.members == RescaleTables(b, exponent, MAX_AMOUNT).value.members
    ensures SamePeople(b.members, c.members)
  {
    forall i | 0 <= i < |b.members|
      ensures c.members[i] == b.members[i].(balance := c.members[i].balance)
    {
      assert RescaleMember(b.members[i], exponent) == Ok(c.members[i]);
    }
  }

  /** What a reform makes of each entry. */
  lemma ReformedEntries(b: Bank, exponent: int)
    requires RescaleTables(b, exponent, MAX_AMOUNT).Ok?
    ensures var c := RescaleTables(b, exponent, MAX_AMOUNT).value;
            && |c.requests| == |b.requests| && |c.artworks| == |b.artworks|
            && (forall i | 0 <= i < |b.requests| ::
                  RescaleRequest(b.requests[i], exponent, MAX_AMOUNT) == Ok(c.requests[i]))
            && (forall i | 0 <= i < |b.artworks| ::
                  RescaleArtwork(b.artworks[i], exponent, MAX_AMOUNT) == Ok(c.artworks[i]))
            && c.payments == b.payments && c.sequence == b.sequence
  {
  }

  lemma ReformKeepsRequests(b: Bank, c: Bank, exponent: int)
    requires Checked(b) && StillMembers(b, c) && c.sequence >= b.sequence
    requires |c.requests| == |b.requests|
    requires forall i | 0 <= i < |b.requests| ::
               RescaleRequest(b.requests[i], exponent, MAX_AMOUNT) == Ok(c.requests[i])
    ensures forall i | 0 <= i < |c.requests| :: GoodRequest(c, c.requests[i])
    ensures forall i, j | 0 <= i < j < |c.requests| :: c.requests[i].id != c.requests[j].id
  {
    forall i | 0 <= i < |c.requests|
      ensures GoodRequest(c, c.requests[i])
    {
      assert GoodRequest(b, b.requests[i]);
      RescaledRequestIsGood(b, c, b.requests[i], exponent);
    }
    assert forall i | 0 <= i < |c.requests| :: c.requests[i].id == b.requests[i].id;
  }

  lemma ReformKeepsArtworks(b: Bank, c: Bank, exponent: int)
    requires Checked(b) && StillMembers(b, c) && c.sequence >= b.sequence
    requires |c.artworks| == |b.artworks|
    requires forall i | 0 <= i < |b.artworks| ::
               RescaleArtwork(b.artworks[i], exponent, MAX_AMOUNT) == Ok(c.artworks[i])
    ensures forall i | 0 <= i < |c.artworks| :: GoodArtwork(c, c.artworks[i])
    ensures forall i, j | 0 <= i < j < |c.artworks| :: Compatible(c.artworks[i], c.artworks[j])
  {
    forall i | 0 <= i < |c.artworks|
      ensures GoodArtwork(c, c.artworks[i])
    {
      assert GoodArtwork(b, b.artworks[i]);
      RescaledArtworkIsGood(b, c, b.artworks[i], exponent);
    }
    forall i, j | 0 <= i < j < |c.artworks|
      ensures Compatible(c.artworks[i], c.artworks[j])
    {
      assert Compatible(b.artworks[i], b.artworks[j]);
    }
  }

  lemma ReformedReceipts(b: Bank, c: Bank, exponent: int)
    requires Sound(b) && |c.requests| == |b.requests|
    requires c.payments == b.payments && c.epochs == b.epochs + [exponent]
    requires forall i | 0 <= i < |b.requests| ::
               RescaleRequest(b.requests[i], exponent, MAX_AMOUNT) == Ok(c.requests[i])
    ensures ReceivedIsNet(c)
  {
    forall k | 0 <= k < |b.payments|
      ensures b.payments[k].epoch < |b.epochs|
    {
      assert GoodPayment(b, b.payments[k]);
    }
    forall i | 0 <= i < |c.requests|
      ensures c.requests[i].received as real == Outstanding(c.payments, c.epochs, c.requests[i].id)
    {
      RescaledSign(b.requests[i].received, exponent, MAX_SEQUENCE);
      OutstandingAfterReform(b.payments, b.epochs, exponent, b.requests[i].id);
    }
  }

  lemma ReformedIsSound(b: Bank, c: Bank, exponent: int)
    requires Sound(b) && c.sequence >= b.sequence && SamePeople(b.members, c.members)
    requires |c.requests| == |b.requests| && |c.artworks| == |b.artworks|
    requires forall i | 0 <= i < |b.requests| ::
               RescaleRequest(b.requests[i], exponent, MAX_AMOUNT) == Ok(c.requests[i])
    requires forall i | 0 <= i < |b.artworks| ::
               RescaleArtwork(b.artworks[i], exponent, MAX_AMOUNT) == Ok(c.artworks[i])
    requires c.payments == b.payments && c.epochs == b.epochs + [exponent]
    ensures Sound(c)
  {
    PeopleStay(b, c);
    ReformKeepsRequests(b, c, exponent);
    ReformKeepsArtworks(b, c, exponent);
    assert forall i | 0 <= i < |b.requests| :: c.requests[i].id == b.requests[i].id;
    PaymentsStayGood(b, c);
    ReformedReceipts(b, c, exponent);
  }

  lemma ReformIsSound(b: Bank, exponent: int, sequence: nat)
    requires Sound(b) && ReformAllowed(b, exponent) && sequence >= b.sequence
    ensures ApplyReform(b, exponent).Some? && Sound(ApplyReform(b, exponent).value.(sequence := sequence))
  {
    ReformApplies(b, exponent);
    ReformedEntries(b, exponent);
    var c := ApplyReform(b, exponent).value.(sequence := sequence);
    RescaledPeople(b, c, exponent);
    ReformedIsSound(b, c, exponent);
  }

  // ----- the main results

  /** Any accepted step applies without stopping and keeps the invariant. */
  lemma StepIsSound(b: Bank, s: Step)
    requires Sound(b) && Possible(b, s) && Accepted(b, s)
    ensures Effect(b, s).Some? && Sound(Effect(b, s).value)
  {
    match s
    case Act(e, action) =>
      ActIsSound(b, e, action);
      assert Effect(b, s) == Commit(b, e, action);
    case Refund(n, actor, payment, units, retained, room) =>
      RefundIsSound(b, PaymentPlace(b, payment), units, n, false);
    case Reverse(n, actor, payment, retained, room) =>
      var i := PaymentPlace(b, payment);
      assert GoodPayment(b, b.payments[i]);
      ReversalAmount(b, b.payments[i]);
      RefundIsSound(b, i, b.payments[i].amount, n, IsNana(b, actor));
    case Reform(n, exponent) => ReformIsSound(b, exponent, n);
    case Other(n, members, issuance) =>
      var c := b.(members := members, issuance := issuance, sequence := n);
      OtherIsSound(b, c);
  }

  lemma ReversalAmount(b: Bank, p: Payment)
    requires 0 <= p.amount && CurrentAmount(b, p, p.amount).Ok? && CurrentAmount(b, p, p.amount).value > 0
    ensures p.amount > 0
  {
  }

  lemma OtherIsSound(b: Bank, c: Bank)
    requires Sound(b) && c == b.(members := c.members, issuance := c.issuance, sequence := c.sequence)
    requires c.sequence >= b.sequence
    requires StillMembers(b, b.(members := c.members))
    ensures Sound(c)
  {
    forall id: nat | IsMember(b, id)
      ensures IsMember(c, id)
    {
      assert IsMember(b.(members := c.members), id);
    }
    CheckedAcross(b, c);
    PaymentsStayGood(b, c);
  }

  /** A run: refused steps leave the bank as it is. */
  function Run(b: Bank, steps: seq<Step>): (after: Option<Bank>)
    decreases |steps|
  {
    if steps == [] then Some(b)
    else if !Accepted(b, steps[0]) then Run(b, steps[1..])
    else
      var next := Effect(b, steps[0]);
      if next.None? then None else Run(next.value, steps[1..])
  }

  ghost predicate PossibleRun(b: Bank, steps: seq<Step>)
    decreases |steps|
  {
    steps != [] ==>
      && Possible(b, steps[0])
      && (if Accepted(b, steps[0]) && Effect(b, steps[0]).Some? then PossibleRun(Effect(b, steps[0]).value, steps[1..])
          else PossibleRun(b, steps[1..]))
  }

  /**
    Over every run of contributions, refunds, reversals, reforms, sales and other commands,
    nothing stops the bank, its tables stay good, and every request's receipt is what was
    contributed less what went back, in current units.
   */
  lemma {:induction false} RunIsSound(b: Bank, steps: seq<Step>)
    requires Sound(b) && PossibleRun(b, steps)
    ensures Run(b, steps).Some? && Sound(Run(b, steps).value)
    decreases |steps|
  {
    if steps != [] {
      if Accepted(b, steps[0]) {
        StepIsSound(b, steps[0]);
        RunIsSound(Effect(b, steps[0]).value, steps[1..]);
      } else {
        RunIsSound(b, steps[1..]);
      }
    }
  }

  /** A bank that starts with no tables and no payments satisfies the invariant. */
  lemma EmptyBankIsSound(members: seq<Member>, issuance: int, sequence: nat)
    ensures Sound(Bank(members, issuance, [], [], [], [0], sequence))
  {
  }

  /** What a run's receipts say in so many words. */
  lemma {:induction false} ReceivedNeverNegative(b: Bank, steps: seq<Step>, i: nat)
    requires Sound(b) && PossibleRun(b, steps)
    requires Run(b, steps).Some? && i < |Run(b, steps).value.requests|
    ensures var after := Run(b, steps).value;
            && after.requests[i].received >= 0
            && after.requests[i].received as real == Outstanding(after.payments, after.epochs, after.requests[i].id)
  {
    RunIsSound(b, steps);
    var after := Run(b, steps).value;
    assert GoodRequest(after, after.requests[i]);
  }

  /** After any run no owner shows two artworks at once. */
  lemma {:induction false} OneEquippedPerOwner(b: Bank, steps: seq<Step>, i: nat, j: nat)
    requires Sound(b) && PossibleRun(b, steps)
    ensures Run(b, steps).Some?
    ensures var artworks := Run(b, steps).value.artworks;
            (i < |artworks| && j < |artworks| && artworks[i].equipped && artworks[j].equipped &&
             artworks[i].owner == artworks[j].owner) ==> i == j
  {
    RunIsSound(b, steps);
    var after := Run(b, steps).value;
    assert forall k, l | 0 <= k < l < |after.artworks| :: Compatible(after.artworks[k], after.artworks[l]);
  }
}
