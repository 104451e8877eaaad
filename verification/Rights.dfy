/**
  Who may do what with gift requests and artworks: which actions are accepted, spelt out on
  the tables, and what a run therefore changes only on whose behalf.
 */
module Rights {
  import opened Options
  import opened Limits
  import opened Text
  import opened Money
  import opened Commerce
  import opened CommerceSafety
  import opened Gifts
  import opened GiftRuns

  // ----- what the tables say

  predicate FirstMember(b: Bank, i: nat, id: nat) {
    i < |b.members| && b.members[i].id == id && forall k | 0 <= k < i :: b.members[k].id != id
  }

  predicate FirstRequest(b: Bank, r: nat, id: nat) {
    r < |b.requests| && b.requests[r].id == id && forall k | 0 <= k < r :: b.requests[k].id != id
  }

  predicate FirstArtwork(b: Bank, a: nat, id: nat) {
    a < |b.artworks| && b.artworks[a].id == id && forall k | 0 <= k < a :: b.artworks[k].id != id
  }

  predicate IsActive(b: Bank, id: nat) {
    exists i | 0 <= i < |b.members| :: FirstMember(b, i, id) && !b.members[i].disabled
  }

  /** A party of a payment and what it has: the issuer is party 0; members take part unless disabled. */
  predicate HasFunds(b: Bank, id: nat, correction: bool, units: int) {
    if id == 0 then units == b.issuance
    else
      exists i | 0 <= i < |b.members| ::
        FirstMember(b, i, id) && (correction || !b.members[i].disabled) && b.members[i].balance == units
  }

  /** A payment that both parties can make, of up to a quadrillion, with exact balances afterwards. */
  ghost predicate MayPay(b: Bank, from: nat, to: nat, amount: int, correction: bool) {
    && from != to && 1 <= amount <= 1_000_000_000_000_000
    && exists source, target ::
         && HasFunds(b, from, correction, source) && HasFunds(b, to, correction, target)
         && -9_007_199_254_740_991 <= source - amount && target + amount <= 9_007_199_254_740_991
         && (correction || from == 0 || amount <= source)
  }

  predicate IsAmount(n: Option<int>) {
    n.Some? ==> 1 <= n.value <= 1_000_000_000_000_000
  }

  predicate HasText(s: string) {
    exists i | 0 <= i < |s| :: !IsWhitespace(s[i])
  }

  /** A title, a licence, 64 hexadecimal digits, and an address that names a host and nothing to sign in with. */
  predicate IsAsset(title: string, license: string, hash: string, url: string) {
    && HasText(title) && HasText(license) && |hash| == 64
    && (forall i | 0 <= i < 64 :: '0' <= hash[i] <= '9' || 'a' <= hash[i] <= 'f' || 'A' <= hash[i] <= 'F')
    && |url| > 8 && url[0] == 'h' && url[1] == 't' && url[2] == 't' && url[3] == 'p' && url[4] == 's'
    && url[5] == ':' && url[6] == '/' && url[7] == '/'
    && url[8] != '/' && url[8] != '?' && url[8] != '#'
    && forall i | 0 <= i < |url| :: 33 <= url[i] as int <= 126 && url[i] as int != 64
  }

  // ----- which actions are accepted

  /** What an action asks of the tables and of its actor, besides that the actor is active. */
  ghost predicate Permits(b: Bank, actor: nat, action: Action, now: nat) {
    match action
    case CreateRequest(title, _, target, deadline) =>
      && |b.requests| < 32 && HasText(title) && IsAmount(target)
      && (deadline.Some? ==> 1_577_836_800 <= now < deadline.value <= 9_007_199_254_740_991)
    case CloseRequest(request) =>
      exists r | 0 <= r < |b.requests| ::
        FirstRequest(b, r, request) && b.requests[r].owner == actor && !b.requests[r].closed
    case Contribute(request, amount) =>
      exists r | 0 <= r < |b.requests| ::
        && FirstRequest(b, r, request) && !b.requests[r].closed
        && (b.requests[r].deadline.Some? ==> 1_577_836_800 <= now < b.requests[r].deadline.value)
        && MayPay(b, actor, b.requests[r].owner, amount, false)
        && b.requests[r].received + amount <= 9_007_199_254_740_991
    case MintArt(title, license, sha256, locator) => |b.artworks| < 64 && IsAsset(title, license, sha256, locator)
    case BuyArt(art, expectedOwner, expectedRevision, expectedPrice) =>
      exists a | 0 <= a < |b.artworks| ::
        && FirstArtwork(b, a, art) && b.artworks[a].owner == expectedOwner
        && b.artworks[a].revision == expectedRevision && b.artworks[a].price == Some(expectedPrice)
        && MayPay(b, actor, expectedOwner, expectedPrice, false)
    case ListArt(art, price) =>
      && IsAmount(price)
      && exists a | 0 <= a < |b.artworks| :: FirstArtwork(b, a, art) && b.artworks[a].owner == actor
    case GiftArt(art, to) =>
      && to != actor && IsActive(b, to)
      && exists a | 0 <= a < |b.artworks| :: FirstArtwork(b, a, art) && b.artworks[a].owner == actor
    case EquipArt(art, _) =>
      exists a | 0 <= a < |b.artworks| :: FirstArtwork(b, a, art) && b.artworks[a].owner == actor
  }

  lemma MemberIsFirst(b: Bank, id: nat)
    ensures var i := MemberPlace(b, id);
            && (i < |b.members| ==> FirstMember(b, i, id))
            && (forall k | 0 <= k < |b.members| && FirstMember(b, k, id) :: k == i)
  {
  }

  lemma RequestIsFirst(b: Bank, id: nat)
    ensures var r := RequestPlace(b, id);
            && (r < |b.requests| ==> FirstRequest(b, r, id))
            && (forall k | 0 <= k < |b.requests| && FirstRequest(b, k, id) :: k == r)
  {
  }

  lemma ArtworkIsFirst(b: Bank, id: nat)
    ensures var a := ArtPlace(b, id);
            && (a < |b.artworks| ==> FirstArtwork(b, a, id))
            && (forall k | 0 <= k < |b.artworks| && FirstArtwork(b, k, id) :: k == a)
  {
  }

  lemma ActiveExactly(b: Bank, id: nat)
    ensures IsActive(b, id) <==> MemberPlace(b, id) < |b.members| && !b.members[MemberPlace(b, id)].disabled
  {
    MemberIsFirst(b, id);
  }

  lemma FundsExactly(b: Bank, id: nat, correction: bool, units: int)
    ensures HasFunds(b, id, correction, units) <==> PartyBalance(b, id, correction) == Ok(units)
  {
    MemberIsFirst(b, id);
  }

  lemma PaymentExactly(b: Bank, from: nat, to: nat, amount: int, correction: bool)
    ensures ValidatePosting(b, from, to, amount, correction).None? <==> MayPay(b, from, to, amount, correction)
  {
    forall units
      ensures HasFunds(b, from, correction, units) <==> PartyBalance(b, from, correction) == Ok(units)
      ensures HasFunds(b, to, correction, units) <==> PartyBalance(b, to, correction) == Ok(units)
    {
      FundsExactly(b, from, correction, units);
      FundsExactly(b, to, correction, units);
    }
    if ValidatePosting(b, from, to, amount, correction).None? {
      var source, target := PartyBalance(b, from, correction).value, PartyBalance(b, to, correction).value;
      assert HasFunds(b, from, correction, source) && HasFunds(b, to, correction, target);
    }
  }

  lemma AssetExactly(title: string, license: string, hash: string, url: string)
    ensures ValidAsset(title, license, hash, url) <==> IsAsset(title, license, hash, url)
  {
    SchemeExactly(url);
  }

  lemma SchemeExactly(url: string)
    ensures SCHEME <= url <==>
            && |url| >= 8 && url[0] == 'h' && url[1] == 't' && url[2] == 't' && url[3] == 'p' && url[4] == 's'
            && url[5] == ':' && url[6] == '/' && url[7] == '/'
  {
    assert |SCHEME| == 8;
    if |url| >= 8 {
      assert SCHEME <= url <==> url[..8] == SCHEME;
    }
  }

  /** Exactly which actions are accepted, and from whom. */
  lemma {:induction false} PermittedExactly(b: Bank, actor: nat, action: Action, now: nat)
    ensures Validate(b, actor, action, now).None? <==> IsActive(b, actor) && Permits(b, actor, action, now)
  {
    ActiveExactly(b, actor);
    match action {
      case CreateRequest(_, _, _, _) =>
      case CloseRequest(request) => RequestIsFirst(b, request);
      case Contribute(request, amount) => ContributionPermitted(b, actor, request, amount, now);
      case MintArt(title, license, sha256, locator) => AssetExactly(title, license, sha256, locator);
      case BuyArt(art, owner, _, price) =>
        ArtworkIsFirst(b, art);
        PaymentExactly(b, actor, owner, price, false);
      case ListArt(art, _) => ArtworkIsFirst(b, art);
      case GiftArt(art, to) =>
        ArtworkIsFirst(b, art);
        ActiveExactly(b, to);
      case EquipArt(art, _) => ArtworkIsFirst(b, art);
    }
  }

  lemma {:induction false} ContributionPermitted(b: Bank, actor: nat, request: nat, amount: int, now: nat)
    ensures Validate(b, actor, Contribute(request, amount), now).None? <==>
            IsActive(b, actor) && Permits(b, actor, Contribute(request, amount), now)
  {
    ActiveExactly(b, actor);
    RequestIsFirst(b, request);
    var r := RequestPlace(b, request);
    if r < |b.requests| {
      PaymentExactly(b, actor, b.requests[r].owner, amount, false);
    }
  }

  /** What only an owner may do, another active member is forbidden. */
  lemma {:induction false} ForbiddenExactly(b: Bank, actor: nat, action: Action, now: nat)
    requires IsActive(b, actor)
    ensures Validate(b, actor, action, now) == Some(Forbidden) <==>
            match action
            case CloseRequest(request) =>
              exists r | 0 <= r < |b.requests| :: FirstRequest(b, r, request) && b.requests[r].owner != actor
            case ListArt(art, _) =>
              exists a | 0 <= a < |b.artworks| :: FirstArtwork(b, a, art) && b.artworks[a].owner != actor
            case GiftArt(art, _) =>
              exists a | 0 <= a < |b.artworks| :: FirstArtwork(b, a, art) && b.artworks[a].owner != actor
            case EquipArt(art, _) =>
              exists a | 0 <= a < |b.artworks| :: FirstArtwork(b, a, art) && b.artworks[a].owner != actor
            case _ => false
  {
    ActiveExactly(b, actor);
    match action {
      case CloseRequest(request) => RequestIsFirst(b, request);
      case ListArt(art, _) => ArtworkIsFirst(b, art);
      case GiftArt(art, _) => ArtworkIsFirst(b, art);
      case EquipArt(art, _) => ArtworkIsFirst(b, art);
      case _ =>
    }
  }

  // ----- which corrections are accepted

  /** The first payment recorded under a number. */
  predicate FirstPayment(b: Bank, i: nat, id: nat) {
    i < |b.payments| && b.payments[i].id == id && forall k | 0 <= k < i :: b.payments[k].id != id
  }

  predicate IsNanaHere(b: Bank, id: nat) {
    exists i | 0 <= i < |b.members| :: FirstMember(b, i, id) && b.members[i].nana
  }

  /** Units of a payment go back, at what they are worth now. */
  ghost predicate GoesBack(b: Bank, p: Payment, units: int, overdraft: bool) {
    var moved := ExponentSince(b.epochs, p.epoch);
    -38 <= moved <= 38 &&
    exists worth ::
      && IsRescaled(units, moved, worth) && -MAX_AMOUNT <= worth <= MAX_AMOUNT
      && MayPay(b, p.to, p.from, worth, overdraft)
  }

  lemma {:induction false} PaymentIsFirst(b: Bank, id: nat)
    ensures var i := PaymentPlace(b, id);
            && (i < |b.payments| ==> FirstPayment(b, i, id))
            && (forall k | 0 <= k < |b.payments| && FirstPayment(b, k, id) :: k == i)
  {
    var i := PaymentPlace(b, id);
    forall k | 0 <= k < i
      ensures b.payments[k].id != id
    {
    }
  }

  lemma NanaExactly(b: Bank, id: nat)
    ensures IsNana(b, id) <==> IsNanaHere(b, id)
    ensures IsAdmin(b, id) <==> IsNanaHere(b, id) && IsActive(b, id)
  {
    MemberIsFirst(b, id);
  }

  lemma {:induction false} GoesBackExactly(b: Bank, p: Payment, units: int, overdraft: bool)
    ensures GoesBack(b, p, units, overdraft) <==>
            && CurrentAmount(b, p, units).Ok?
            && ValidatePosting(b, p.to, p.from, CurrentAmount(b, p, units).value, overdraft).None?
  {
    var moved := ExponentSince(b.epochs, p.epoch);
    if GoesBack(b, p, units, overdraft) {
      var worth: int :|
        && IsRescaled(units, moved, worth) && -MAX_AMOUNT <= worth <= MAX_AMOUNT
        && MayPay(b, p.to, p.from, worth, overdraft);
      RescaleIsExact(units, moved, MAX_AMOUNT, worth);
    }
    if CurrentAmount(b, p, units).Ok? {
      var worth := CurrentAmount(b, p, units).value;
      PaymentExactly(b, p.to, p.from, worth, overdraft);
      if -38 <= moved <= 38 {
        RescaleIsExact(units, moved, MAX_AMOUNT, worth);
      }
    }
  }

  /** Exactly which refunds are accepted: the payee's or an active administrator's, of units not yet back. */
  lemma {:induction false} RefundExactly(b: Bank, actor: nat, payment: nat, units: int, retained: bool, room: bool)
    ensures ValidateRefund(b, actor, payment, units, retained, room).None? <==>
            && retained && room
            && exists i | 0 <= i < |b.payments| ::
                 var p := b.payments[i];
                 && FirstPayment(b, i, payment)
                 && p.from != 0 && p.to != 0 && p.art.None?
                 && (actor == p.to || (IsNanaHere(b, actor) && IsActive(b, actor)))
                 && 1 <= units <= p.amount - p.refunded
                 && GoesBack(b, p, units, false)
  {
    PaymentIsFirst(b, payment);
    NanaExactly(b, actor);
    var i := PaymentPlace(b, payment);
    if i < |b.payments| {
      GoesBackExactly(b, b.payments[i], units, false);
    }
  }

  /** Exactly which reversals are accepted: the payee's or any by Nana, of a payment of which nothing is back. */
  lemma {:induction false} ReverseExactly(b: Bank, actor: nat, payment: nat, retained: bool, room: bool)
    ensures ValidateReverse(b, actor, payment, retained, room).None? <==>
            && retained && room && IsMember(b, actor)
            && exists i | 0 <= i < |b.payments| ::
                 var p := b.payments[i];
                 && FirstPayment(b, i, payment)
                 && (IsNanaHere(b, actor) || (actor == p.to && p.from != 0))
                 && p.refunded == 0 && p.art.None?
                 && GoesBack(b, p, p.amount, IsNanaHere(b, actor))
  {
    PaymentIsFirst(b, payment);
    NanaExactly(b, actor);
    MemberAtPlace(b, actor);
    var i := PaymentPlace(b, payment);
    if i < |b.payments| {
      GoesBackExactly(b, b.payments[i], b.payments[i].amount, IsNanaHere(b, actor));
    }
  }

  // ----- what an accepted step moves

  /** What moving an amount adds to a member's wallet. */
  function Moved(from: nat, to: nat, amount: int, id: nat): (units: int) {
    if id == to then amount else if id == from then -amount else 0
  }

  /** A payment leaves the payer's wallet and enters the payee's, and no other changes. */
  lemma PaymentMoves(b: Bank, from: nat, to: nat, amount: int, i: nat)
    requires Pay(b, from, to, amount).Some? && from != to
    requires i < |b.members| && FirstMember(b, i, b.members[i].id) && b.members[i].id != ISSUER
    ensures var c := Pay(b, from, to, amount).value;
            && i < |c.members|
            && c.members[i].balance == b.members[i].balance + Moved(from, to, amount, b.members[i].id)
  {
    MemberIsFirst(b, b.members[i].id);
    AddKeepsTables(b, from, -amount);
    var paid := Add(b, from, -amount).value;
    PlacesAgree(b, paid, to);
  }

  lemma PayKeepsTables(b: Bank, from: nat, to: nat, amount: int)
    requires Pay(b, from, to, amount).Some?
    ensures SameTables(b, Pay(b, from, to, amount).value)
  {
    AddKeepsTables(b, from, -amount);
    AddKeepsTables(Add(b, from, -amount).value, to, amount);
  }

  /** Of an accepted action's money: a contribution goes to the request's owner, a price to the artwork's. */
  lemma {:induction false} ActionPays(b: Bank, e: Event, action: Action, i: nat)
    requires Validate(b, e.actor, action, e.timestamp).None?
    requires i < |b.members| && FirstMember(b, i, b.members[i].id) && b.members[i].id != ISSUER
    ensures Apply(b, e, action).Some? && i < |Apply(b, e, action).value.members|
    ensures Apply(b, e, action).value.members[i].balance - b.members[i].balance ==
            match action
            case Contribute(request, amount) =>
              var r := RequestPlace(b, request);
              if r < |b.requests| then Moved(e.actor, b.requests[r].owner, amount, b.members[i].id) else 0
            case BuyArt(_, owner, _, price) => Moved(e.actor, owner, price, b.members[i].id)
            case _ => 0
  {
    ActionApplies(b, e, action);
    var payment := PaymentOf(b, e, action);
    if payment.Some? {
      PaymentMoves(b, payment.value.from, payment.value.to, payment.value.amount, i);
    }
  }

  /** A correction sends what its units are worth now back from the payee to the payer, and notes the units. */
  lemma {:induction false} CorrectionPays(b: Bank, k: nat, units: int, i: nat)
    requires k < |b.payments| && b.payments[k].from != b.payments[k].to && ApplyRefund(b, k, units).Some?
    requires i < |b.members| && FirstMember(b, i, b.members[i].id) && b.members[i].id != ISSUER
    ensures var c, p := ApplyRefund(b, k, units).value, b.payments[k];
            && CurrentAmount(b, p, units).Ok? && i < |c.members|
            && c.members[i].balance ==
               b.members[i].balance + Moved(p.to, p.from, CurrentAmount(b, p, units).value, b.members[i].id)
            && c.payments == b.payments[k := p.(refunded := p.refunded + units)]
  {
    var p := b.payments[k];
    var now := CurrentAmount(b, p, units).value;
    var noted := LowerReceived(b, p.gift, now).value.(payments := b.payments[k := p.(refunded := p.refunded + units)]);
    assert FirstMember(noted, i, noted.members[i].id);
    PaymentMoves(noted, p.to, p.from, now, i);
    PayKeepsTables(noted, p.to, p.from, now);
  }

  // ----- which reforms are accepted

  /** An amount has exact units after the point moves, within a limit. */
  ghost predicate CanMove(value: int, exponent: int, limit: int) {
    value == 0 || (-38 <= exponent <= 38 && exists r :: IsRescaled(value, exponent, r) && -limit <= r <= limit)
  }

  ghost predicate OptionCanMove(value: Option<int>, exponent: int, limit: int) {
    value.Some? ==> CanMove(value.value, exponent, limit)
  }

  lemma {:induction false} MoveExactly(value: int, exponent: int, limit: int)
    requires limit >= 0
    ensures Rescale(value, exponent, limit).Ok? <==> CanMove(value, exponent, limit)
  {
    if -38 <= exponent <= 38 {
      forall r
        ensures Rescale(value, exponent, limit) == Ok(r) <==> IsRescaled(value, exponent, r) && -limit <= r <= limit
      {
        RescaleIsExact(value, exponent, limit, r);
      }
      if Rescale(value, exponent, limit).Ok? {
        assert IsRescaled(value, exponent, Rescale(value, exponent, limit).value);
      }
    } else {
      RescaleBeyond(value, exponent, limit);
    }
  }

  lemma {:induction false} AllMapped<T, U>(s: seq<T>, f: T -> Result<U, Error>)
    ensures MapAll(s, f).Ok? <==> forall i | 0 <= i < |s| :: f(s[i]).Ok?
  {
    if s != [] {
      AllMapped(s[1..], f);
      assert forall i | 1 <= i < |s| :: s[i] == s[1..][i - 1];
      assert forall i | 0 <= i < |s| - 1 :: s[1..][i] == s[i + 1];
    }
  }

  /** A reform is accepted exactly when there is an epoch left and every amount has exact new units within its limit. */
  lemma {:induction false} ReformExactly(b: Bank, exponent: int)
    ensures ReformAllowed(b, exponent) <==>
            && |b.epochs| < 32 && CanMove(b.issuance, exponent, MAX_SEQUENCE)
            && (forall i | 0 <= i < |b.members| :: CanMove(b.members[i].balance, exponent, MAX_SEQUENCE))
            && (forall i | 0 <= i < |b.requests| ::
                  && OptionCanMove(b.requests[i].target, exponent, MAX_AMOUNT)
                  && CanMove(b.requests[i].received, exponent, MAX_SEQUENCE))
            && (forall i | 0 <= i < |b.artworks| :: OptionCanMove(b.artworks[i].price, exponent, MAX_AMOUNT))
  {
    AllMapped(b.requests, RequestScaler(exponent, MAX_AMOUNT));
    AllMapped(b.artworks, ArtworkScaler(exponent, MAX_AMOUNT));
    AllMapped(b.members, MemberScaler(exponent));
    forall value, limit | limit >= 0
      ensures Rescale(value, exponent, limit).Ok? <==> CanMove(value, exponent, limit)
    {
      MoveExactly(value, exponent, limit);
    }
  }

  lemma RescaledValue(value: int, exponent: int, limit: int)
    requires limit >= 0 && Rescale(value, exponent, limit).Ok?
    ensures IsRescaled(value, exponent, Rescale(value, exponent, limit).value)
  {
    if value == 0 {
      ScaleSign(0.0, exponent);
    } else {
      RescaleIsExact(value, exponent, limit, Rescale(value, exponent, limit).value);
    }
  }

  ghost predicate OptionMoved(before: Option<int>, exponent: int, after: Option<int>) {
    if before.None? then after.None? else after.Some? && IsRescaled(before.value, exponent, after.value)
  }

  lemma OptionRescaled(value: Option<int>, exponent: int, limit: int)
    requires limit >= 0 && RescaleOption(value, exponent, limit).Ok?
    ensures OptionMoved(value, exponent, RescaleOption(value, exponent, limit).value)
  {
    if value.Some? {
      RescaledValue(value.value, exponent, limit);
    }
  }

  /** A reform moves the point of every balance and amount, rounds nothing, and notes by how much. */
  lemma {:induction false} ReformMoves(b: Bank, exponent: int)
    requires ReformAllowed(b, exponent)
    ensures ApplyReform(b, exponent).Some?
    ensures var c := ApplyReform(b, exponent).value;
            && c.epochs == b.epochs + [exponent] && c.payments == b.payments
            && IsRescaled(b.issuance, exponent, c.issuance)
            && |c.members| == |b.members| && |c.requests| == |b.requests| && |c.artworks| == |b.artworks|
            && (forall i | 0 <= i < |b.members| ::
                  IsRescaled(b.members[i].balance, exponent, c.members[i].balance))
            && (forall i | 0 <= i < |b.requests| ::
                  && IsRescaled(b.requests[i].received, exponent, c.requests[i].received)
                  && OptionMoved(b.requests[i].target, exponent, c.requests[i].target))
            && (forall i | 0 <= i < |b.artworks| ::
                  OptionMoved(b.artworks[i].price, exponent, c.artworks[i].price))
  {
    ReformApplies(b, exponent);
    var c := ApplyReform(b, exponent).value;
    RescaledValue(b.issuance, exponent, MAX_SEQUENCE);
    forall i | 0 <= i < |b.members|
      ensures IsRescaled(b.members[i].balance, exponent, c.members[i].balance)
    {
      assert MemberScaler(exponent)(b.members[i]) == Ok(c.members[i]);
      RescaledValue(b.members[i].balance, exponent, MAX_SEQUENCE);
    }
    forall i | 0 <= i < |b.requests|
      ensures IsRescaled(b.requests[i].received, exponent, c.requests[i].received)
      ensures OptionMoved(b.requests[i].target, exponent, c.requests[i].target)
    {
      assert RequestScaler(exponent, MAX_SEQUENCE)(b.requests[i]) == Ok(c.requests[i]);
      RescaledValue(b.requests[i].received, exponent, MAX_SEQUENCE);
      OptionRescaled(b.requests[i].target, exponent, MAX_SEQUENCE);
    }
    forall i | 0 <= i < |b.artworks|
      ensures OptionMoved(b.artworks[i].price, exponent, c.artworks[i].price)
    {
      assert ArtworkScaler(exponent, MAX_SEQUENCE)(b.artworks[i]) == Ok(c.artworks[i]);
      OptionRescaled(b.artworks[i].price, exponent, MAX_SEQUENCE);
    }
  }

  // ----- what an accepted step changes in the tables, and on whose behalf

  /** The owner gave the artwork away: it is no longer listed or shown. */
  predicate GivenAway(s: Step, before: Artwork, after: Artwork) {
    && s.Act? && s.action == GiftArt(before.id, after.owner) && s.event.actor == before.owner
    && after.price.None? && !after.equipped
  }

  /** Somebody bought the artwork as it was listed, and what was paid for it was recorded as going to the owner. */
  predicate Sold(b: Bank, s: Step, c: Bank, before: Artwork, after: Artwork) {
    && s.Act? && before.price.Some?
    && s.action == BuyArt(before.id, before.owner, before.revision, before.price.value)
    && after.owner == s.event.actor && after.price.None? && !after.equipped
    && c.payments == b.payments + [Payment(s.event.sequence, s.event.actor, before.owner, before.price.value,
                                           CurrentEpoch(b), 0, None, Some(before.id))]
  }

  predicate ListedByOwner(s: Step, before: Artwork, after: Artwork) {
    s.Act? && s.action == ListArt(before.id, after.price) && s.event.actor == before.owner
  }

  predicate ShownByOwner(s: Step, before: Artwork) {
    s.Act? && s.action.EquipArt? && s.event.actor == before.owner
  }

  /**
    What a step may do to an artwork: nothing but its owner, price, place on show and
    revision ever changes; the owner by a gift of the owner or a sale from it; the price by
    the owner, by those two, or by a reform; what is shown by the owner or those two.
   */
  predicate InKeeping(b: Bank, s: Step, c: Bank, before: Artwork, after: Artwork) {
    && after == before.(owner := after.owner, price := after.price, equipped := after.equipped,
                        revision := after.revision)
    && (after.owner != before.owner ==> GivenAway(s, before, after) || Sold(b, s, c, before, after))
    && (after.price != before.price ==>
          || s.Reform? || ListedByOwner(s, before, after)
          || GivenAway(s, before, after) || Sold(b, s, c, before, after))
    && (after.equipped != before.equipped ==>
          ShownByOwner(s, before) || GivenAway(s, before, after) || Sold(b, s, c, before, after))
  }

  /** A request is closed by its owner, once and for all, and a target changes in a reform only. */
  predicate RequestInKeeping(s: Step, before: GiftRequest, after: GiftRequest) {
    && after == before.(target := after.target, received := after.received, closed := after.closed)
    && (after.closed != before.closed ==>
          after.closed && s.Act? && s.action == CloseRequest(before.id) && s.event.actor == before.owner)
    && (after.target != before.target ==> s.Reform?)
  }

  ghost predicate AllInKeeping(b: Bank, s: Step, c: Bank) {
    && |b.artworks| <= |c.artworks| && |b.requests| <= |c.requests|
    && (forall i | 0 <= i < |b.artworks| :: InKeeping(b, s, c, b.artworks[i], c.artworks[i]))
    && (forall i | 0 <= i < |b.requests| :: RequestInKeeping(s, b.requests[i], c.requests[i]))
  }

  lemma {:induction false} PurchaseInKeeping(b: Bank, e: Event, action: Action)
    requires action.BuyArt? && Validate(b, e.actor, action, e.timestamp).None?
    ensures Apply(b, e, action).Some? && AllInKeeping(b, Act(e, action), Apply(b, e, action).value)
  {
    PurchaseEffect(b, e, action);
  }

  lemma {:induction false} ContributionInKeeping(b: Bank, e: Event, action: Action)
    requires action.Contribute? && Validate(b, e.actor, action, e.timestamp).None?
    ensures Apply(b, e, action).Some? && AllInKeeping(b, Act(e, action), Apply(b, e, action).value)
  {
    ContributionEffect(b, e, action);
  }

  lemma {:induction false} EquippingInKeeping(b: Bank, e: Event, action: Action)
    requires action.EquipArt? && Validate(b, e.actor, action, e.timestamp).None?
    ensures Apply(b, e, action).Some? && AllInKeeping(b, Act(e, action), Apply(b, e, action).value)
  {
    SameArtPlace(b, e.actor, action.art);
  }

  lemma {:induction false} ActionInKeeping(b: Bank, e: Event, action: Action)
    requires Validate(b, e.actor, action, e.timestamp).None?
    ensures Apply(b, e, action).Some? && AllInKeeping(b, Act(e, action), Apply(b, e, action).value)
  {
    if action.BuyArt? {
      PurchaseInKeeping(b, e, action);
    } else if action.Contribute? {
      ContributionInKeeping(b, e, action);
    } else if action.EquipArt? {
      EquippingInKeeping(b, e, action);
    }
  }

  /** Balances, payments and receipts are nobody's artwork or request. */
  lemma {:induction false} LedgerAside(b: Bank, s: Step, noted: Bank, c: Bank)
    requires noted.artworks == b.artworks && |noted.requests| == |b.requests|
    requires forall i | 0 <= i < |b.requests| ::
               noted.requests[i] == b.requests[i].(received := noted.requests[i].received)
    requires c.artworks == noted.artworks && c.requests == noted.requests
    ensures AllInKeeping(b, s, c)
  {
  }

  lemma {:induction false} CorrectionInKeeping(b: Bank, s: Step, i: nat, units: int)
    requires i < |b.payments| && ApplyRefund(b, i, units).Some?
    ensures AllInKeeping(b, s, ApplyRefund(b, i, units).value)
  {
    var p := b.payments[i];
    var now := CurrentAmount(b, p, units).value;
    var noted := LowerReceived(b, p.gift, now).value.(payments := b.payments[i := p.(refunded := p.refunded + units)]);
    PayKeepsTables(noted, p.to, p.from, now);
    LedgerAside(b, s, noted, ApplyRefund(b, i, units).value);
  }

  lemma {:induction false} ReformInKeeping(b: Bank, s: Step)
    requires s.Reform? && ReformAllowed(b, s.exponent)
    ensures ApplyReform(b, s.exponent).Some? && AllInKeeping(b, s, ApplyReform(b, s.exponent).value)
  {
    ReformApplies(b, s.exponent);
    ReformedEntries(b, s.exponent);
    var c := ApplyReform(b, s.exponent).value;
    forall i | 0 <= i < |b.artworks|
      ensures InKeeping(b, s, c, b.artworks[i], c.artworks[i])
    {
      assert RescaleArtwork(b.artworks[i], s.exponent, MAX_AMOUNT) == Ok(c.artworks[i]);
    }
    forall i | 0 <= i < |b.requests|
      ensures RequestInKeeping(s, b.requests[i], c.requests[i])
    {
      assert RescaleRequest(b.requests[i], s.exponent, MAX_AMOUNT) == Ok(c.requests[i]);
    }
  }

  lemma {:induction false} SequenceAside(b: Bank, s: Step, c: Bank, n: nat)
    requires AllInKeeping(b, s, c)
    ensures AllInKeeping(b, s, c.(sequence := n))
  {
    forall i | 0 <= i < |b.artworks|
      ensures InKeeping(b, s, c.(sequence := n), b.artworks[i], c.artworks[i])
    {
      assert InKeeping(b, s, c, b.artworks[i], c.artworks[i]);
    }
  }

  lemma {:induction false} OtherInKeeping(b: Bank, s: Step, c: Bank)
    requires c == b.(members := c.members, issuance := c.issuance)
    ensures AllInKeeping(b, s, c)
  {
    forall i | 0 <= i < |b.artworks|
      ensures InKeeping(b, s, c, b.artworks[i], c.artworks[i])
    {
    }
  }

  /** What a step changes before its sequence is noted. */
  function Changed(b: Bank, s: Step): (after: Option<Bank>)
    requires Accepted(b, s)
  {
    match s
    case Act(e, action) => Apply(b, e, action)
    case Refund(_, _, payment, units, _, _) => ApplyRefund(b, PaymentPlace(b, payment), units)
    case Reverse(_, _, payment, _, _) =>
      ApplyRefund(b, PaymentPlace(b, payment), b.payments[PaymentPlace(b, payment)].amount)
    case Reform(_, exponent) => ApplyReform(b, exponent)
    case Other(_, members, issuance) => Some(b.(members := members, issuance := issuance))
  }

  lemma {:induction false} ChangeInKeeping(b: Bank, s: Step)
    requires Accepted(b, s) && Changed(b, s).Some?
    ensures AllInKeeping(b, s, Changed(b, s).value)
  {
    match s {
      case Act(e, action) => ActionInKeeping(b, e, action);
      case Refund(_, _, payment, units, _, _) => CorrectionInKeeping(b, s, PaymentPlace(b, payment), units);
      case Reverse(_, _, payment, _, _) =>
        var i := PaymentPlace(b, payment);
        CorrectionInKeeping(b, s, i, b.payments[i].amount);
      case Reform(_, _) => ReformInKeeping(b, s);
      case Other(_, _, _) => OtherInKeeping(b, s, Changed(b, s).value);
    }
  }

  lemma {:induction false} StepInKeeping(b: Bank, s: Step)
    requires Sound(b) && Possible(b, s) && Accepted(b, s)
    ensures Effect(b, s).Some? && AllInKeeping(b, s, Effect(b, s).value)
  {
    StepIsSound(b, s);
    EffectIsChange(b, s);
    ChangeInKeeping(b, s);
    SequenceAside(b, s, Changed(b, s).value, SequenceOf(s));
  }

  lemma {:induction false} EffectIsChange(b: Bank, s: Step)
    requires Accepted(b, s) && Effect(b, s).Some?
    ensures Changed(b, s).Some? && Effect(b, s).value == Changed(b, s).value.(sequence := SequenceOf(s))
  {
  }

  /** What an accepted action is for, told from the tables before and after it. */
  predicate Done(b: Bank, e: Event, action: Action, c: Bank) {
    match action
    case CreateRequest(title, description, target, deadline) =>
      && |c.requests| == |b.requests| + 1
      && var r := c.requests[|b.requests|];
         && (r.id, r.owner, r.title, r.description) == (e.sequence, e.actor, title, description)
         && (r.target, r.received, r.deadline) == (target, 0, deadline)
         && !r.closed && r.createdAt == e.timestamp
    case CloseRequest(request) =>
      && |c.requests| == |b.requests|
      && exists r | 0 <= r < |b.requests| :: FirstRequest(b, r, request) && c.requests[r].closed
    case Contribute(request, amount) =>
      && |c.requests| == |b.requests| && |c.payments| == |b.payments| + 1
      && exists r | 0 <= r < |b.requests| ::
           && FirstRequest(b, r, request) && c.requests[r].received == b.requests[r].received + amount
           && var p := c.payments[|b.payments|];
              && (p.id, p.from, p.to, p.amount) == (e.sequence, e.actor, b.requests[r].owner, amount)
              && (p.refunded, p.gift, p.art) == (0, Some(request), None)
              && p.epoch == (if b.epochs == [] then 0 else |b.epochs| - 1)
    case MintArt(title, license, sha256, locator) =>
      && |c.artworks| == |b.artworks| + 1
      && var a := c.artworks[|b.artworks|];
         && (a.id, a.creator, a.owner, a.revision) == (e.sequence, e.actor, e.actor, e.sequence)
         && (a.title, a.license, a.sha256, a.locator) == (title, license, sha256, locator)
         && a.price.None? && !a.equipped && a.createdAt == e.timestamp
    case ListArt(art, price) =>
      && |c.artworks| == |b.artworks|
      && exists a | 0 <= a < |b.artworks| ::
           FirstArtwork(b, a, art) && c.artworks[a].price == price && c.artworks[a].revision == e.sequence
    case BuyArt(art, expectedOwner, _, expectedPrice) =>
      && |c.artworks| == |b.artworks| && |c.payments| == |b.payments| + 1
      && exists a | 0 <= a < |b.artworks| ::
           && FirstArtwork(b, a, art) && c.artworks[a].owner == e.actor && c.artworks[a].revision == e.sequence
           && var p := c.payments[|b.payments|];
              && (p.id, p.from, p.to, p.amount) == (e.sequence, e.actor, expectedOwner, expectedPrice)
              && (p.refunded, p.gift, p.art) == (0, None, Some(art))
    case GiftArt(art, to) =>
      && |c.artworks| == |b.artworks|
      && exists a | 0 <= a < |b.artworks| ::
           FirstArtwork(b, a, art) && c.artworks[a].owner == to && c.artworks[a].revision == e.sequence
    case EquipArt(art, equipped) =>
      && |c.artworks| == |b.artworks|
      && exists a | 0 <= a < |b.artworks| ::
           && FirstArtwork(b, a, art) && c.artworks[a].equipped == equipped
           && forall k | 0 <= k < |b.artworks| && k != a ::
                c.artworks[k].equipped ==
                (b.artworks[k].equipped && !(equipped && b.artworks[k].owner == e.actor))
  }

  lemma {:induction false} RequestDone(b: Bank, e: Event, action: Action)
    requires action.CreateRequest? || action.CloseRequest? || action.Contribute?
    requires Validate(b, e.actor, action, e.timestamp).None?
    ensures Apply(b, e, action).Some? && Done(b, e, action, Apply(b, e, action).value)
  {
    if action.Contribute? {
      ContributionEffect(b, e, action);
      RequestIsFirst(b, action.request);
    } else if action.CloseRequest? {
      RequestIsFirst(b, action.request);
    }
  }

  lemma {:induction false} ShowDone(b: Bank, e: Event, action: Action)
    requires action.EquipArt? && Validate(b, e.actor, action, e.timestamp).None?
    ensures Apply(b, e, action).Some? && Done(b, e, action, Apply(b, e, action).value)
  {
    SameArtPlace(b, e.actor, action.art);
    ArtworkIsFirst(b, action.art);
  }

  lemma {:induction false} SaleDone(b: Bank, e: Event, action: Action)
    requires action.BuyArt? && Validate(b, e.actor, action, e.timestamp).None?
    ensures Apply(b, e, action).Some? && Done(b, e, action, Apply(b, e, action).value)
  {
    PurchaseEffect(b, e, action);
    ArtworkIsFirst(b, action.art);
  }

  /** Every accepted action does what it is for. */
  lemma {:induction false} ActionDone(b: Bank, e: Event, action: Action)
    requires Validate(b, e.actor, action, e.timestamp).None?
    ensures Apply(b, e, action).Some? && Done(b, e, action, Apply(b, e, action).value)
  {
    if action.CreateRequest? || action.CloseRequest? || action.Contribute? {
      RequestDone(b, e, action);
    } else if action.EquipArt? {
      ShowDone(b, e, action);
    } else if action.BuyArt? {
      SaleDone(b, e, action);
    } else if !action.MintArt? {
      ArtworkIsFirst(b, action.art);
    }
  }

  // ----- over a run

  /** The bank before and after one step of a run, which may be refused. */
  lemma {:induction false} RunStep(b: Bank, steps: seq<Step>, k: nat)
    requires Sound(b) && PossibleRun(b, steps) && k < |steps|
    ensures Run(b, steps[..k]).Some? && Run(b, steps[..k + 1]).Some?
    ensures var before, after := Run(b, steps[..k]).value, Run(b, steps[..k + 1]).value;
            && Sound(before) && Possible(before, steps[k])
            && (if Accepted(before, steps[k]) then Effect(before, steps[k]) == Some(after) else after == before)
    decreases |steps|
  {
    var accepted := Accepted(b, steps[0]);
    if accepted {
      StepIsSound(b, steps[0]);
    }
    var next := if accepted then Effect(b, steps[0]).value else b;
    if k == 0 {
      assert steps[..0] == [] && steps[..1] == [steps[0]];
      assert Run(b, [steps[0]]) == Run(next, [steps[0]][1..]);
    } else {
      RunStep(next, steps[1..], k - 1);
      assert steps[..k][1..] == steps[1..][..k - 1] && steps[..k + 1][1..] == steps[1..][..k];
    }
  }

  /**
    The main result: over any run an artwork changes hands only by a gift of its owner or by
    a purchase that names that owner and the listed price and pays it to that owner; price,
    show and closure change on the owner's behalf only, apart from sales and reforms; and
    who made an artwork, what it is, and what a request asks for never change.
   */
  lemma {:induction false} OwnersDecide(b: Bank, steps: seq<Step>, k: nat)
    requires Sound(b) && PossibleRun(b, steps) && k < |steps|
    ensures Run(b, steps[..k]).Some? && Run(b, steps[..k + 1]).Some?
    ensures AllInKeeping(Run(b, steps[..k]).value, steps[k], Run(b, steps[..k + 1]).value)
  {
    RunStep(b, steps, k);
    var before := Run(b, steps[..k]).value;
    if Accepted(before, steps[k]) {
      StepInKeeping(before, steps[k]);
    }
  }
}
