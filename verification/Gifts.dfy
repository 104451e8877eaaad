/**
  The bank over time as far as commerce sees it: corrections of what was paid, currency
  reforms, the steps of a run, and the invariant about gift requests, which commerce
  actions keep.

  The invariant is that a request's `received` is always what was contributed less what
  was refunded, in units of the current epoch.
 */
module Gifts {
  import opened Options
  import opened Collections
  import opened Limits
  import opened Money
  import opened Commerce
  import opened CommerceSafety

  // ----- reading old payments in current units

  function Sum(exponents: seq<int>): (total: int) {
    if exponents == [] then 0 else exponents[0] + Sum(exponents[1..])
  }

  lemma {:induction false} SumAppend(exponents: seq<int>, e: int)
    ensures Sum(exponents + [e]) == Sum(exponents) + e
  {
    if exponents == [] {
      assert exponents + [e] == [e] && Sum([e]) == e + Sum([]);
    } else {
      assert (exponents + [e])[1..] == exponents[1..] + [e];
      SumAppend(exponents[1..], e);
    }
  }

  /** The exponents of all reforms after an epoch, added up. */
  function ExponentSince(epochs: seq<int>, epoch: nat): (e: int) {
    if epoch < |epochs| then Sum(epochs[epoch + 1..]) else 0
  }

  function CurrentAmount(b: Bank, p: Payment, units: int): (r: Result<int, Error>) {
    Rescale(units, ExponentSince(b.epochs, p.epoch), MAX_AMOUNT)
  }

  function PaymentPlace(b: Bank, id: nat): (i: nat)
    ensures i <= |b.payments|
    ensures i < |b.payments| ==> b.payments[i].id == id
  {
    Place(b.payments, (p: Payment) => p.id == id)
  }

  // ----- corrections

  predicate IsNana(b: Bank, actor: nat) {
    var m := MemberPlace(b, actor);
    m < |b.members| && b.members[m].nana
  }

  predicate IsAdmin(b: Bank, actor: nat) {
    var m := MemberPlace(b, actor);
    IsNana(b, actor) && !b.members[m].disabled
  }

  /**
    Whether some units of a payment may go back. `retained` says that the ledger still
    holds the payment, `room` that it can note one more correction.
   */
  function ValidateRefund(b: Bank, actor: nat, payment: nat, units: int, retained: bool, room: bool)
    : (error: Option<Error>)
  {
    var i := PaymentPlace(b, payment);
    if !retained || i == |b.payments| then Some(NotFound)
    else
      var p := b.payments[i];
      if p.from == ISSUER || p.to == ISSUER || p.art.Some? then Some(Forbidden)
      else if actor != p.to && !IsAdmin(b, actor) then Some(Forbidden)
      else if units <= 0 || units > p.amount - p.refunded then Some(Conflict)
      else if !room then Some(Capacity)
      else
        var now := CurrentAmount(b, p, units);
        if now.Err? then Some(now.error) else ValidatePosting(b, p.to, p.from, now.value, false)
  }

  /** Whether a whole payment may be reversed; an administrator may overdraw the payee. */
  function ValidateReverse(b: Bank, actor: nat, payment: nat, retained: bool, room: bool): (error: Option<Error>) {
    var i := PaymentPlace(b, payment);
    if !retained || i == |b.payments| then Some(NotFound)
    else if MemberPlace(b, actor) == |b.members| then Some(NotFound)
    else
      var p := b.payments[i];
      if !IsNana(b, actor) && (p.to != actor || p.from == ISSUER) then Some(Forbidden)
      else if p.refunded != 0 || p.art.Some? then Some(Conflict)
      else if !room then Some(Capacity)
      else
        var now := CurrentAmount(b, p, p.amount);
        if now.Err? then Some(now.error) else ValidatePosting(b, p.to, p.from, now.value, IsNana(b, actor))
  }

  /** Takes a refund off what the request of a gift has received; none if the request is missing. */
  function LowerReceived(b: Bank, gift: Option<nat>, amount: int): (after: Option<Bank>) {
    if gift.None? then Some(b)
    else
      var r := RequestPlace(b, gift.value);
      if r == |b.requests| then None
      else Some(b.(requests := b.requests[r := b.requests[r].(received := b.requests[r].received - amount)]))
  }

  /** Sends units of a payment back: the request, the correction note, the money. */
  function ApplyRefund(b: Bank, i: nat, units: int): (after: Option<Bank>)
    requires i < |b.payments|
  {
    var p := b.payments[i];
    var now := CurrentAmount(b, p, units);
    if now.Err? then None
    else
      var lowered := LowerReceived(b, p.gift, now.value);
      if lowered.None? then None
      else
        var noted := b.payments[i := p.(refunded := p.refunded + units)];
        Pay(lowered.value.(payments := noted), p.to, p.from, now.value)
  }

  // ----- reforms

  function RescaleOption(v: Option<int>, exponent: int, limit: int): (r: Result<Option<int>, Error>) {
    if v.None? then Ok(None)
    else
      var scaled := Rescale(v.value, exponent, limit);
      if scaled.Err? then Err(scaled.error) else Ok(Some(scaled.value))
  }

  function RescaleRequest(r: GiftRequest, exponent: int, targetLimit: int): (s: Result<GiftRequest, Error>) {
    var target := RescaleOption(r.target, exponent, targetLimit);
    if target.Err? then Err(target.error)
    else
      var received := Rescale(r.received, exponent, MAX_SEQUENCE);
      if received.Err? then Err(received.error) else Ok(r.(target := target.value, received := received.value))
  }

  function RescaleArtwork(a: Artwork, exponent: int, priceLimit: int): (s: Result<Artwork, Error>) {
    var price := RescaleOption(a.price, exponent, priceLimit);
    if price.Err? then Err(price.error) else Ok(a.(price := price.value))
  }

  function RescaleMember(m: Member, exponent: int): (s: Result<Member, Error>) {
    var balance := Rescale(m.balance, exponent, MAX_SEQUENCE);
    if balance.Err? then Err(balance.error) else Ok(m.(balance := balance.value))
  }

  /** A change to every entry, stopping at the first that is refused. */
  function MapAll<T, U>(s: seq<T>, f: T -> Result<U, Error>): (r: Result<seq<U>, Error>)
    ensures r.Ok? ==> |r.value| == |s| && forall i | 0 <= i < |s| :: f(s[i]) == Ok(r.value[i])
  {
    if s == [] then Ok([])
    else
      var first := f(s[0]);
      if first.Err? then Err(first.error)
      else
        var rest := MapAll(s[1..], f);
        if rest.Err? then rest else Ok([first.value] + rest.value)
  }

  function RequestScaler(exponent: int, limit: int): (f: GiftRequest -> Result<GiftRequest, Error>) {
    (r: GiftRequest) => RescaleRequest(r, exponent, limit)
  }

  function ArtworkScaler(exponent: int, limit: int): (f: Artwork -> Result<Artwork, Error>) {
    (a: Artwork) => RescaleArtwork(a, exponent, limit)
  }

  function MemberScaler(exponent: int): (f: Member -> Result<Member, Error>) {
    (m: Member) => RescaleMember(m, exponent)
  }

  /** Rescaling everything; the limits of targets and prices differ between checking and applying. */
  function RescaleTables(b: Bank, exponent: int, amountLimit: int): (r: Result<Bank, Error>) {
    var requests := MapAll(b.requests, RequestScaler(exponent, amountLimit));
    if requests.Err? then Err(requests.error)
    else
      var artworks := MapAll(b.artworks, ArtworkScaler(exponent, amountLimit));
      if artworks.Err? then Err(artworks.error)
      else
        var issuance := Rescale(b.issuance, exponent, MAX_SEQUENCE);
        if issuance.Err? then Err(issuance.error)
        else
          var members := MapAll(b.members, MemberScaler(exponent));
          if members.Err? then Err(members.error)
          else Ok(b.(requests := requests.value, artworks := artworks.value, issuance := issuance.value,
                     members := members.value))
  }

  predicate ReformAllowed(b: Bank, exponent: int) {
    |b.epochs| < EPOCHS && RescaleTables(b, exponent, MAX_AMOUNT).Ok?
  }

  function ApplyReform(b: Bank, exponent: int): (after: Option<Bank>) {
    var scaled := RescaleTables(b, exponent, MAX_SEQUENCE);
    if scaled.Err? then None else Some(scaled.value.(epochs := b.epochs + [exponent]))
  }

  // ----- runs

  datatype Step =
    | Act(event: Event, action: Action)
    | Refund(sequence: nat, actor: nat, payment: nat, units: int, retained: bool, room: bool)
    | Reverse(sequence: nat, actor: nat, payment: nat, retained: bool, room: bool)
    | Reform(sequence: nat, exponent: int)
    | Other(sequence: nat, members: seq<Member>, issuance: int)

  function SequenceOf(s: Step): (n: nat) {
    match s
    case Act(e, _) => e.sequence
    case Refund(n, _, _, _, _, _) => n
    case Reverse(n, _, _, _, _) => n
    case Reform(n, _) => n
    case Other(n, _, _) => n
  }

  /** Commands arrive with growing sequences, and no other command removes a member. */
  ghost predicate Possible(b: Bank, s: Step) {
    && SequenceOf(s) > b.sequence
    && (s.Other? ==> StillMembers(b, b.(members := s.members)))
  }

  predicate Accepted(b: Bank, s: Step) {
    match s
    case Act(e, action) => Validate(b, e.actor, action, e.timestamp).None?
    case Refund(_, actor, payment, units, retained, room) =>
      ValidateRefund(b, actor, payment, units, retained, room).None?
    case Reverse(_, actor, payment, retained, room) => ValidateReverse(b, actor, payment, retained, room).None?
    case Reform(_, exponent) => ReformAllowed(b, exponent)
    case Other(_, _, _) => true
  }

  /** What an accepted step leaves; none where the program would stop. */
  function Effect(b: Bank, s: Step): (after: Option<Bank>)
    requires Accepted(b, s)
  {
    var changed :=
      match s
      case Act(e, action) => Apply(b, e, action)
      case Refund(_, _, payment, units, _, _) => ApplyRefund(b, PaymentPlace(b, payment), units)
      case Reverse(_, _, payment, _, _) =>
        var i := PaymentPlace(b, payment);
        ApplyRefund(b, i, b.payments[i].amount)
      case Reform(_, exponent) => ApplyReform(b, exponent)
      case Other(_, members, issuance) => Some(b.(members := members, issuance := issuance));
    if changed.None? then None else Some(changed.value.(sequence := SequenceOf(s)))
  }

  // ----- the invariant

  /** Units of an old epoch as an amount of the current one. */
  function Worth(units: int, exponent: int): (value: real) {
    Scale(units as real, exponent)
  }

  /** What was contributed to a request and not refunded, in current units. */
  function Outstanding(payments: seq<Payment>, epochs: seq<int>, request: nat): (value: real) {
    if payments == [] then 0.0
    else
      var p := payments[0];
      (if p.gift == Some(request) then Worth(p.amount - p.refunded, ExponentSince(epochs, p.epoch)) else 0.0)
      + Outstanding(payments[1..], epochs, request)
  }

  predicate HasRequest(b: Bank, id: nat) {
    RequestPlace(b, id) < |b.requests|
  }

  predicate GoodPayment(b: Bank, p: Payment) {
    && 0 <= p.refunded <= p.amount <= MAX_AMOUNT
    && p.epoch < |b.epochs|
    && (p.gift.Some? ==> HasRequest(b, p.gift.value))
  }

  ghost predicate ReceivedIsNet(b: Bank) {
    forall i | 0 <= i < |b.requests| ::
      b.requests[i].received as real == Outstanding(b.payments, b.epochs, b.requests[i].id)
  }

  ghost predicate Sound(b: Bank) {
    && Checked(b)
    && b.epochs != []
    && (forall i | 0 <= i < |b.payments| :: GoodPayment(b, b.payments[i]))
    && ReceivedIsNet(b)
  }

  // ----- sums of contributions

  lemma WorthOfDifference(a: int, c: int, exponent: int)
    ensures Worth(a - c, exponent) == Worth(a, exponent) - Worth(c, exponent)
  {
    ScaleSum(a as real, c as real, exponent);
  }

  lemma {:induction false} OutstandingAppend(payments: seq<Payment>, p: Payment, epochs: seq<int>, request: nat)
    ensures Outstanding(payments + [p], epochs, request) ==
            Outstanding(payments, epochs, request) +
            (if p.gift == Some(request) then Worth(p.amount - p.refunded, ExponentSince(epochs, p.epoch)) else 0.0)
  {
    if payments == [] {
      assert payments + [p] == [p] && [p][1..] == [];
    } else {
      assert (payments + [p])[1..] == payments[1..] + [p];
      OutstandingAppend(payments[1..], p, epochs, request);
    }
  }

  lemma {:induction false} OutstandingAfterRefund(
    payments: seq<Payment>, i: nat, units: int, epochs: seq<int>, request: nat)
    requires i < |payments|
    ensures var p := payments[i];
            Outstanding(payments[i := p.(refunded := p.refunded + units)], epochs, request) ==
            Outstanding(payments, epochs, request) -
            (if p.gift == Some(request) then Worth(units, ExponentSince(epochs, p.epoch)) else 0.0)
  {
    var p := payments[i];
    var changed := payments[i := p.(refunded := p.refunded + units)];
    if i == 0 {
      assert changed[1..] == payments[1..];
      WorthOfDifference(p.amount - p.refunded, units, ExponentSince(epochs, p.epoch));
      assert p.amount - (p.refunded + units) == p.amount - p.refunded - units;
    } else {
      OutstandingAfterRefund(payments[1..], i - 1, units, epochs, request);
      assert changed[1..] == payments[1..][i - 1 := p.(refunded := p.refunded + units)];
    }
  }

  lemma SinceOneMore(epochs: seq<int>, epoch: nat, e: int)
    requires epoch < |epochs|
    ensures ExponentSince(epochs + [e], epoch) == ExponentSince(epochs, epoch) + e
  {
    assert (epochs + [e])[epoch + 1..] == epochs[epoch + 1..] + [e];
    SumAppend(epochs[epoch + 1..], e);
  }

  lemma {:induction false} OutstandingAfterReform(payments: seq<Payment>, epochs: seq<int>, e: int, request: nat)
    requires forall i | 0 <= i < |payments| :: payments[i].epoch < |epochs|
    ensures Outstanding(payments, epochs + [e], request) == Scale(Outstanding(payments, epochs, request), e)
  {
    if payments == [] {
      ScaleSign(0.0, e);
    } else {
      var p := payments[0];
      OutstandingAfterReform(payments[1..], epochs, e, request);
      SinceOneMore(epochs, p.epoch, e);
      ScaleTwice((p.amount - p.refunded) as real, ExponentSince(epochs, p.epoch), e);
      var first :=
        if p.gift == Some(request) then Worth(p.amount - p.refunded, ExponentSince(epochs, p.epoch)) else 0.0;
      ScaleSum(first, Outstanding(payments[1..], epochs, request), e);
      ScaleSign(0.0, e);
    }
  }

  lemma {:induction false} OutstandingSign(payments: seq<Payment>, epochs: seq<int>, request: nat)
    requires forall i | 0 <= i < |payments| :: payments[i].refunded <= payments[i].amount
    ensures Outstanding(payments, epochs, request) >= 0.0
  {
    if payments != [] {
      OutstandingSign(payments[1..], epochs, request);
      ScaleSign((payments[0].amount - payments[0].refunded) as real, ExponentSince(epochs, payments[0].epoch));
    }
  }

  lemma {:induction false} NothingOutstanding(payments: seq<Payment>, epochs: seq<int>, request: nat)
    requires forall i | 0 <= i < |payments| :: payments[i].gift != Some(request)
    ensures Outstanding(payments, epochs, request) == 0.0
  {
    if payments != [] {
      NothingOutstanding(payments[1..], epochs, request);
    }
  }

  // ----- every step keeps the invariant

  lemma HasRequestAt(b: Bank, id: nat)
    ensures HasRequest(b, id) <==> exists i | 0 <= i < |b.requests| :: b.requests[i].id == id
  {
  }

  /** Requests whose ids and receipts are as they were, and maybe some more requests. */
  predicate RequestsKept(b: Bank, c: Bank) {
    && |b.requests| <= |c.requests|
    && forall i | 0 <= i < |b.requests| ::
         c.requests[i].id == b.requests[i].id && c.requests[i].received == b.requests[i].received
  }

  lemma PaymentsStayGood(b: Bank, c: Bank)
    requires forall i | 0 <= i < |b.payments| :: GoodPayment(b, b.payments[i])
    requires |b.requests| <= |c.requests| && forall i | 0 <= i < |b.requests| :: c.requests[i].id == b.requests[i].id
    requires |b.epochs| <= |c.epochs|
    ensures forall i | 0 <= i < |b.payments| :: GoodPayment(c, b.payments[i])
  {
    forall i | 0 <= i < |b.payments|
      ensures GoodPayment(c, b.payments[i])
    {
      assert GoodPayment(b, b.payments[i]);
      if b.payments[i].gift.Some? {
        HasRequestAt(b, b.payments[i].gift.value);
        HasRequestAt(c, b.payments[i].gift.value);
        var k :| 0 <= k < |b.requests| && b.requests[k].id == b.payments[i].gift.value;
        assert c.requests[k].id == b.payments[i].gift.value;
      }
    }
  }

  /** A request just created has received nothing, because no earlier payment can name it. */
  lemma {:induction false} NewRequestIsNet(b: Bank, id: nat)
    requires Sound(b) && id > b.sequence
    ensures Outstanding(b.payments, b.epochs, id) == 0.0
  {
    forall i | 0 <= i < |b.payments|
      ensures b.payments[i].gift != Some(id)
    {
      assert GoodPayment(b, b.payments[i]);
      if b.payments[i].gift.Some? {
        var k := RequestPlace(b, b.payments[i].gift.value);
        assert GoodRequest(b, b.requests[k]);
      }
    }
    NothingOutstanding(b.payments, b.epochs, id);
  }

  lemma TableActionIsSound(b: Bank, c: Bank)
    requires Sound(b) && Checked(c)
    requires RequestsKept(b, c) && c.payments == b.payments && c.epochs == b.epochs
    requires forall i | |b.requests| <= i < |c.requests| :: c.requests[i].id > b.sequence && c.requests[i].received == 0
    ensures Sound(c)
  {
    PaymentsStayGood(b, c);
    forall i | 0 <= i < |c.requests|
      ensures c.requests[i].received as real == Outstanding(c.payments, c.epochs, c.requests[i].id)
    {
      if i >= |b.requests| {
        NewRequestIsNet(b, c.requests[i].id);
      }
    }
  }

  lemma PurchaseIsSound(b: Bank, c: Bank, p: Payment)
    requires Sound(b) && Checked(c)
    requires c.requests == b.requests && c.epochs == b.epochs && c.payments == b.payments + [p]
    requires p.gift.None? && p.refunded == 0 && Positive(p.amount) && p.epoch == CurrentEpoch(b)
    ensures Sound(c)
  {
    PaymentsStayGood(b, c);
    forall i | 0 <= i < |c.requests|
      ensures c.requests[i].received as real == Outstanding(c.payments, c.epochs, c.requests[i].id)
    {
      OutstandingAppend(b.payments, p, b.epochs, c.requests[i].id);
    }
  }

  lemma ContributionIsSound(b: Bank, c: Bank, r: nat, p: Payment)
    requires Sound(b) && Checked(c) && r < |b.requests|
    requires c.requests == b.requests[r := b.requests[r].(received := b.requests[r].received + p.amount)]
    requires c.epochs == b.epochs && c.payments == b.payments + [p]
    requires p.gift == Some(b.requests[r].id) && p.refunded == 0 && Positive(p.amount) && p.epoch == CurrentEpoch(b)
    ensures Sound(c)
  {
    PaymentsStayGood(b, c);
    HasRequestAt(c, b.requests[r].id);
    assert c.requests[r].id == b.requests[r].id;
    assert b.epochs[p.epoch + 1..] == [];
    forall i | 0 <= i < |c.requests|
      ensures c.requests[i].received as real == Outstanding(c.payments, c.epochs, c.requests[i].id)
    {
      OutstandingAppend(b.payments, p, b.epochs, c.requests[i].id);
      assert i != r ==> c.requests[i].id != c.requests[r].id;
    }
  }

  lemma TableEffect(b: Bank, e: Event, action: Action)
    requires Validate(b, e.actor, action, e.timestamp).None?
    requires !action.Contribute? && !action.BuyArt?
    requires Apply(b, e, action).Some?
    ensures var c := Apply(b, e, action).value;
            && RequestsKept(b, c) && c.payments == b.payments && c.epochs == b.epochs
            && forall i | |b.requests| <= i < |c.requests| ::
                 c.requests[i].id == e.sequence && c.requests[i].received == 0
  {
  }

  lemma ContributedIsSound(b: Bank, action: Action, p: Payment, applied: Bank, sequence: nat)
    requires Sound(b) && action.Contribute? && RequestPlace(b, action.request) < |b.requests|
    requires Paid(b, Contributed(b, action), p, applied) && Checked(applied.(sequence := sequence))
    requires p.gift == Some(action.request) && p.amount == action.amount
    requires p.refunded == 0 && Positive(p.amount) && p.epoch == CurrentEpoch(b)
    ensures Sound(applied.(sequence := sequence))
  {
    ContributionIsSound(b, applied.(sequence := sequence), RequestPlace(b, action.request), p);
  }

  lemma ContributingIsSound(b: Bank, e: Event, action: Action)
    requires Sound(b) && e.sequence > b.sequence && Validate(b, e.actor, action, e.timestamp).None?
    requires action.Contribute? && Commit(b, e, action).Some? && Checked(Commit(b, e, action).value)
    ensures Sound(Commit(b, e, action).value)
  {
    ContributionEffect(b, e, action);
    ContributedIsSound(b, action, PaymentOf(b, e, action).value, Apply(b, e, action).value, e.sequence);
  }

  lemma BuyingIsSound(b: Bank, e: Event, action: Action)
    requires Sound(b) && e.sequence > b.sequence && Validate(b, e.actor, action, e.timestamp).None?
    requires action.BuyArt? && Commit(b, e, action).Some? && Checked(Commit(b, e, action).value)
    ensures Sound(Commit(b, e, action).value)
  {
    PurchaseEffect(b, e, action);
    PurchaseIsSound(b, Commit(b, e, action).value, PaymentOf(b, e, action).value);
  }

  lemma ActIsSound(b: Bank, e: Event, action: Action)
    requires Sound(b) && e.sequence > b.sequence && Validate(b, e.actor, action, e.timestamp).None?
    ensures Commit(b, e, action).Some? && Sound(Commit(b, e, action).value)
  {
    CommitIsSafe(b, e, action);
    if action.Contribute? {
      ContributingIsSound(b, e, action);
    } else if action.BuyArt? {
      BuyingIsSound(b, e, action);
    } else {
      TableEffect(b, e, action);
      TableActionIsSound(b, Commit(b, e, action).value);
    }
  }
}
