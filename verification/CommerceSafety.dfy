/** Every validated commerce action applies without stopping and leaves good tables and balanced money. */
module CommerceSafety {
  import opened Options
  import opened Commerce

  /** A command as the bank runs it: validated, applied, and the sequence advanced. */
  function Commit(b: Bank, e: Event, action: Action): (after: Option<Bank>) {
    if Validate(b, e.actor, action, e.timestamp).Some? then None
    else
      var applied := Apply(b, e, action);
      if applied.None? then None else Some(applied.value.(sequence := e.sequence))
  }

  // ----- what actions do to the tables

  lemma RequestAdded(b: Bank, c: Bank, r: GiftRequest)
    requires Checked(b) && |b.requests| < REQUESTS
    requires c.requests == b.requests + [r] && c.artworks == b.artworks
    requires c.sequence == r.id > b.sequence && c.members == b.members
    requires GoodRequest(c, r)
    ensures Checked(c)
  {
    CheckedAcross(b, c.(requests := b.requests));
    forall i | 0 <= i < |c.requests|
      ensures GoodRequest(c, c.requests[i])
    {
      assert i < |b.requests| ==> GoodRequest(c.(requests := b.requests), b.requests[i]);
    }
    forall i | 0 <= i < |c.artworks|
      ensures GoodArtwork(c, c.artworks[i])
    {
      assert GoodArtwork(c.(requests := b.requests), b.artworks[i]);
    }
    forall i | 0 <= i < |b.requests|
      ensures b.requests[i].id != r.id
    {
      assert GoodRequest(b, b.requests[i]);
    }
  }

  lemma RequestChanged(b: Bank, c: Bank, i: nat, r: GiftRequest)
    requires Checked(b) && i < |b.requests|
    requires c.requests == b.requests[i := r] && c.artworks == b.artworks
    requires c.sequence >= b.sequence && SamePeople(b.members, c.members)
    requires r.id == b.requests[i].id && GoodRequest(c, r)
    ensures Checked(c)
  {
    PeopleStay(b, c);
    forall k | 0 <= k < |c.requests|
      ensures GoodRequest(c, c.requests[k])
    {
      assert GoodRequest(b, b.requests[k]);
    }
    forall k | 0 <= k < |c.artworks|
      ensures GoodArtwork(c, c.artworks[k])
    {
      assert GoodArtwork(b, b.artworks[k]);
    }
  }

  lemma PeopleStay(b: Bank, c: Bank)
    requires SamePeople(b.members, c.members)
    ensures StillMembers(b, c)
  {
    forall id: nat
      ensures IsMember(b, id) ==> IsMember(c, id)
    {
      SamePeopleMembers(b, c, id);
    }
  }

  lemma ArtAdded(b: Bank, c: Bank, a: Artwork)
    requires Checked(b) && |b.artworks| < ARTWORKS
    requires c.artworks == b.artworks + [a] && c.requests == b.requests
    requires c.sequence == a.id > b.sequence && c.members == b.members && !a.equipped
    requires GoodArtwork(c, a)
    ensures Checked(c)
  {
    PeopleStay(b, c);
    forall k | 0 <= k < |c.requests|
      ensures GoodRequest(c, c.requests[k])
    {
      assert GoodRequest(b, b.requests[k]);
    }
    forall k | 0 <= k < |c.artworks|
      ensures GoodArtwork(c, c.artworks[k])
    {
      assert k < |b.artworks| ==> GoodArtwork(b, b.artworks[k]);
    }
    forall k | 0 <= k < |b.artworks|
      ensures Compatible(b.artworks[k], a)
    {
      assert GoodArtwork(b, b.artworks[k]);
    }
  }

  /** An artwork may change hands or price when it is taken down, or when owner and equipment stay. */
  lemma ArtChanged(b: Bank, c: Bank, i: nat, a: Artwork)
    requires Checked(b) && i < |b.artworks|
    requires c.artworks == b.artworks[i := a] && c.requests == b.requests
    requires c.sequence >= b.sequence && SamePeople(b.members, c.members)
    requires a.id == b.artworks[i].id && GoodArtwork(c, a)
    requires a.equipped ==> b.artworks[i].equipped && a.owner == b.artworks[i].owner
    ensures Checked(c)
  {
    PeopleStay(b, c);
    forall k | 0 <= k < |c.requests|
      ensures GoodRequest(c, c.requests[k])
    {
      assert GoodRequest(b, b.requests[k]);
    }
    forall k | 0 <= k < |c.artworks|
      ensures GoodArtwork(c, c.artworks[k])
    {
      assert GoodArtwork(b, b.artworks[k]);
    }
    forall k, l | 0 <= k < l < |c.artworks|
      ensures Compatible(c.artworks[k], c.artworks[l])
    {
      assert Compatible(b.artworks[k], b.artworks[l]);
    }
  }

  function EquippedAt(artworks: seq<Artwork>, i: nat, on: bool): (after: seq<Artwork>)
    requires i < |artworks|
    ensures |after| == |artworks|
    ensures forall k | 0 <= k < |artworks| :: after[k] == artworks[k].(equipped := after[k].equipped)
  {
    var cleared := if on then Unequip(artworks, artworks[i].owner) else artworks;
    cleared[i := cleared[i].(equipped := on)]
  }

  lemma StillCompatible(artworks: seq<Artwork>, i: nat, on: bool, k: nat, l: nat)
    requires i < |artworks| && k < l < |artworks| && Compatible(artworks[k], artworks[l])
    ensures Compatible(EquippedAt(artworks, i, on)[k], EquippedAt(artworks, i, on)[l])
  {
  }

  lemma ArtEquipped(b: Bank, c: Bank, i: nat, on: bool)
    requires Checked(b) && i < |b.artworks| && c.artworks == EquippedAt(b.artworks, i, on)
    requires c.requests == b.requests && c.sequence >= b.sequence && c.members == b.members
    ensures Checked(c)
  {
    PeopleStay(b, c);
    forall k | 0 <= k < |c.requests|
      ensures GoodRequest(c, c.requests[k])
    {
      assert GoodRequest(b, b.requests[k]);
    }
    forall k | 0 <= k < |c.artworks|
      ensures GoodArtwork(c, c.artworks[k])
    {
      assert GoodArtwork(b, b.artworks[k]);
    }
    forall k, l | 0 <= k < l < |c.artworks|
      ensures Compatible(c.artworks[k], c.artworks[l])
    {
      StillCompatible(b.artworks, i, on, k, l);
    }
  }

  // ----- payments on top of a table change

  lemma AddIgnoresTables(b: Bank, c: Bank, id: nat, units: int)
    requires c.members == b.members && c.issuance == b.issuance
    ensures Add(b, id, units).Some? <==> Add(c, id, units).Some?
    ensures Add(b, id, units).Some? ==>
              && Add(b, id, units).value.members == Add(c, id, units).value.members
              && Add(b, id, units).value.issuance == Add(c, id, units).value.issuance
  {
    PlacesAgree(b, c, id);
  }

  lemma PayIgnoresTables(b: Bank, c: Bank, p: Payment)
    requires c.members == b.members && c.issuance == b.issuance
    ensures var left, right := Pay(b, p.from, p.to, p.amount), Pay(c, p.from, p.to, p.amount);
            && (left.Some? <==> right.Some?)
            && (left.Some? ==> left.value.members == right.value.members && left.value.issuance == right.value.issuance)
  {
    AddIgnoresTables(b, c, p.from, -p.amount);
    var left, right := Add(b, p.from, -p.amount), Add(c, p.from, -p.amount);
    if left.Some? {
      AddIgnoresTables(left.value, right.value, p.to, p.amount);
    }
  }

  lemma SameArtPlace(b: Bank, owner: nat, art: nat)
    ensures ArtPlace(b.(artworks := Unequip(b.artworks, owner)), art) == ArtPlace(b, art)
  {
    var c := b.(artworks := Unequip(b.artworks, owner));
    assert forall k | 0 <= k < |b.artworks| :: b.artworks[k].id == c.artworks[k].id;
  }

  /** A bank after a table change and a payment on top of it. */
  ghost predicate Paid(b: Bank, changed: Bank, p: Payment, c: Bank) {
    && SameTables(changed.(payments := b.payments + [p]), c)
    && Pay(b, p.from, p.to, p.amount).Some?
    && c.members == Pay(b, p.from, p.to, p.amount).value.members
    && c.issuance == Pay(b, p.from, p.to, p.amount).value.issuance
    && Total(c) == Total(b)
  }

  /** A validated payment goes through on any bank with the same people and money. */
  lemma RecordSucceeds(b: Bank, changed: Bank, p: Payment)
    requires changed.members == b.members && changed.issuance == b.issuance && changed.payments == b.payments
    requires ValidatePosting(b, p.from, p.to, p.amount, false).None?
    ensures Record(changed, p).Some? && Paid(b, changed, p, Record(changed, p).value)
  {
    var noted := changed.(payments := b.payments + [p]);
    ValidatedParties(b, p.from, p.to, p.amount, false);
    PlacesAgree(b, noted, p.from);
    PlacesAgree(b, noted, p.to);
    PayBalances(noted, p.from, p.to, p.amount);
    PayIgnoresTables(b, noted, p);
  }

  /** The tables after a contribution, before its payment. */
  function Contributed(b: Bank, action: Action): (c: Bank)
    requires action.Contribute? && RequestPlace(b, action.request) < |b.requests|
  {
    var r := RequestPlace(b, action.request);
    b.(requests := b.requests[r := b.requests[r].(received := b.requests[r].received + action.amount)])
  }

  /** The tables after a purchase, before its payment. */
  function Bought(b: Bank, e: Event, action: Action): (c: Bank)
    requires action.BuyArt? && ArtPlace(b, action.art) < |b.artworks|
  {
    var a := ArtPlace(b, action.art);
    b.(artworks :=
       b.artworks[a := b.artworks[a].(owner := e.actor, price := None, equipped := false, revision := e.sequence)])
  }

  lemma ContributionEffect(b: Bank, e: Event, action: Action)
    requires action.Contribute? && Validate(b, e.actor, action, e.timestamp).None?
    ensures RequestPlace(b, action.request) < |b.requests|
    ensures PaymentOf(b, e, action).Some? && Apply(b, e, action).Some?
    ensures var p := PaymentOf(b, e, action).value;
            && p.from == e.actor && p.from != p.to && Positive(p.amount) && p.amount == action.amount
            && Paid(b, Contributed(b, action), p, Apply(b, e, action).value)
  {
    var p := PaymentOf(b, e, action).value;
    ValidatedParties(b, p.from, p.to, p.amount, false);
    RecordSucceeds(b, Contributed(b, action), p);
  }

  lemma PurchaseEffect(b: Bank, e: Event, action: Action)
    requires action.BuyArt? && Validate(b, e.actor, action, e.timestamp).None?
    ensures ArtPlace(b, action.art) < |b.artworks|
    ensures PaymentOf(b, e, action).Some? && Apply(b, e, action).Some?
    ensures var p := PaymentOf(b, e, action).value;
            && p.from == e.actor && p.from != p.to && Positive(p.amount)
            && Paid(b, Bought(b, e, action), p, Apply(b, e, action).value)
  {
    var p := PaymentOf(b, e, action).value;
    ValidatedParties(b, p.from, p.to, p.amount, false);
    RecordSucceeds(b, Bought(b, e, action), p);
  }

  /** Every accepted action applies; only contributions and purchases touch money, each by one payment. */
  lemma ActionApplies(b: Bank, e: Event, action: Action)
    requires Validate(b, e.actor, action, e.timestamp).None?
    ensures Apply(b, e, action).Some?
    ensures var after, payment := Apply(b, e, action).value, PaymentOf(b, e, action);
            && Total(after) == Total(b)
            && (payment.Some? <==> action.Contribute? || action.BuyArt?)
            && (payment.None? ==>
                  after.members == b.members && after.issuance == b.issuance && after.payments == b.payments)
            && (payment.Some? ==>
                  var p := payment.value;
                  && p.from == e.actor && p.from != p.to && Positive(p.amount)
                  && after.payments == b.payments + [p]
                  && SamePeople(b.members, after.members)
                  && var paid := Pay(b, p.from, p.to, p.amount);
                     paid.Some? && after.members == paid.value.members && after.issuance == paid.value.issuance)
            && after.epochs == b.epochs && after.sequence == b.sequence
  {
    if action.Contribute? {
      ContributionEffect(b, e, action);
    } else if action.BuyArt? {
      PurchaseEffect(b, e, action);
    } else if action.EquipArt? {
      SameArtPlace(b, e.actor, action.art);
    }
  }

  // ----- the main result

  lemma CreatingKeepsTables(b: Bank, e: Event, action: Action)
    requires Checked(b) && e.sequence > b.sequence && Validate(b, e.actor, action, e.timestamp).None?
    requires action.CreateRequest?
    ensures Apply(b, e, action).Some? && Checked(Apply(b, e, action).value.(sequence := e.sequence))
  {
    var c := Apply(b, e, action).value.(sequence := e.sequence);
    MemberAtPlace(b, e.actor);
    SamePeopleMembers(b, c, e.actor);
    RequestAdded(b, c, c.requests[|b.requests|]);
  }

  lemma ClosingKeepsTables(b: Bank, e: Event, action: Action)
    requires Checked(b) && e.sequence > b.sequence && Validate(b, e.actor, action, e.timestamp).None?
    requires action.CloseRequest?
    ensures Apply(b, e, action).Some? && Checked(Apply(b, e, action).value.(sequence := e.sequence))
  {
    var c := Apply(b, e, action).value.(sequence := e.sequence);
    var r := RequestPlace(b, action.request);
    assert GoodRequest(b, b.requests[r]);
    SamePeopleMembers(b, c, b.requests[r].owner);
    RequestChanged(b, c, r, c.requests[r]);
  }

  lemma ContributingKeepsTables(b: Bank, e: Event, action: Action)
    requires Checked(b) && e.sequence > b.sequence && Validate(b, e.actor, action, e.timestamp).None?
    requires action.Contribute?
    ensures Apply(b, e, action).Some? && Checked(Apply(b, e, action).value.(sequence := e.sequence))
  {
    ContributionEffect(b, e, action);
    var c := Apply(b, e, action).value.(sequence := e.sequence);
    var r := RequestPlace(b, action.request);
    assert GoodRequest(b, b.requests[r]);
    SamePeopleMembers(b, c, b.requests[r].owner);
    RequestChanged(b, c, r, Contributed(b, action).requests[r]);
  }

  lemma MintingKeepsTables(b: Bank, e: Event, action: Action)
    requires Checked(b) && e.sequence > b.sequence && Validate(b, e.actor, action, e.timestamp).None?
    requires action.MintArt?
    ensures Apply(b, e, action).Some? && Checked(Apply(b, e, action).value.(sequence := e.sequence))
  {
    var c := Apply(b, e, action).value.(sequence := e.sequence);
    MemberAtPlace(b, e.actor);
    SamePeopleMembers(b, c, e.actor);
    ArtAdded(b, c, c.artworks[|b.artworks|]);
  }

  lemma EquippingKeepsTables(b: Bank, e: Event, action: Action)
    requires Checked(b) && e.sequence > b.sequence && Validate(b, e.actor, action, e.timestamp).None?
    requires action.EquipArt?
    ensures Apply(b, e, action).Some? && Checked(Apply(b, e, action).value.(sequence := e.sequence))
  {
    var c := Apply(b, e, action).value.(sequence := e.sequence);
    SameArtPlace(b, e.actor, action.art);
    ArtEquipped(b, c, ArtPlace(b, action.art), action.equipped);
  }

  lemma OfferingKeepsTables(b: Bank, e: Event, action: Action)
    requires Checked(b) && e.sequence > b.sequence && Validate(b, e.actor, action, e.timestamp).None?
    requires action.ListArt? || action.GiftArt?
    ensures Apply(b, e, action).Some? && Checked(Apply(b, e, action).value.(sequence := e.sequence))
  {
    var c := Apply(b, e, action).value.(sequence := e.sequence);
    var a := ArtPlace(b, action.art);
    assert GoodArtwork(b, b.artworks[a]);
    MemberAtPlace(b, e.actor);
    SamePeopleMembers(b, c, e.actor);
    SamePeopleMembers(b, c, b.artworks[a].creator);
    if action.GiftArt? {
      MemberAtPlace(b, action.to);
      SamePeopleMembers(b, c, action.to);
    }
    ArtChanged(b, c, a, c.artworks[a]);
  }

  lemma PurchaseKeepsTables(b: Bank, e: Event, action: Action)
    requires Checked(b) && e.sequence > b.sequence && Validate(b, e.actor, action, e.timestamp).None?
    requires action.BuyArt?
    ensures Apply(b, e, action).Some? && Checked(Apply(b, e, action).value.(sequence := e.sequence))
  {
    PurchaseEffect(b, e, action);
    var c := Apply(b, e, action).value.(sequence := e.sequence);
    var a := ArtPlace(b, action.art);
    assert GoodArtwork(b, b.artworks[a]);
    MemberAtPlace(b, e.actor);
    SamePeopleMembers(b, c, e.actor);
    SamePeopleMembers(b, c, b.artworks[a].creator);
    ArtChanged(b, c, a, Bought(b, e, action).artworks[a]);
  }

  /**
    The main result: an accepted action, applied with a larger sequence, meets no missing
    record, keeps both tables good, and moves no money in or out of the bank.
   */
  lemma CommitIsSafe(b: Bank, e: Event, action: Action)
    requires Checked(b) && e.sequence > b.sequence
    requires Validate(b, e.actor, action, e.timestamp).None?
    ensures Commit(b, e, action).Some?
    ensures Checked(Commit(b, e, action).value)
    ensures Total(Commit(b, e, action).value) == Total(b)
  {
    ActionApplies(b, e, action);
    match action
    case CreateRequest(_, _, _, _) => CreatingKeepsTables(b, e, action);
    case CloseRequest(_) => ClosingKeepsTables(b, e, action);
    case Contribute(_, _) => ContributingKeepsTables(b, e, action);
    case MintArt(_, _, _, _) => MintingKeepsTables(b, e, action);
    case ListArt(_, _) => OfferingKeepsTables(b, e, action);
    case BuyArt(_, _, _, _) => PurchaseKeepsTables(b, e, action);
    case GiftArt(_, _) => OfferingKeepsTables(b, e, action);
    case EquipArt(_, _) => EquippingKeepsTables(b, e, action);
  }
}
