/** What an artwork's revision pins down over a run, and what that means for purchases. */
module Revisions {
  import opened Options
  import opened Limits
  import opened Money
  import opened Text
  import opened Commerce
  import opened CommerceSafety
  import opened Gifts
  import opened GiftRuns

  /** A price in the units of `e` decimal places later. */
  ghost predicate SamePrice(before: Option<int>, after: Option<int>, e: int) {
    && (before.None? <==> after.None?)
    && (before.Some? ==> IsRescaled(before.value, e, after.value))
  }

  /** The same artwork later: its revision never falls, and pins owner and price while it stays. */
  ghost predicate Pinned(before: Artwork, after: Artwork, e: int) {
    && after.id == before.id
    && after.revision >= before.revision
    && (after.revision == before.revision ==> after.owner == before.owner && SamePrice(before.price, after.price, e))
  }

  ghost predicate AllPinned(b: Bank, c: Bank, e: int) {
    && |b.artworks| <= |c.artworks|
    && forall i | 0 <= i < |b.artworks| :: Pinned(b.artworks[i], c.artworks[i], e)
  }

  /** How far the decimal point has moved since an earlier state. */
  function Moved(b: Bank, c: Bank): (e: int) { Sum(c.epochs) - Sum(b.epochs) }

  lemma PinnedNow(b: Bank)
    ensures AllPinned(b, b, 0)
  {
    forall i | 0 <= i < |b.artworks|
      ensures Pinned(b.artworks[i], b.artworks[i], 0)
    {
    }
  }

  lemma SamePriceTwice(p: Option<int>, q: Option<int>, r: Option<int>, e: int, f: int)
    requires SamePrice(p, q, e) && SamePrice(q, r, f)
    ensures SamePrice(p, r, e + f)
  {
    if p.Some? {
      ScaleTwice(p.value as real, e, f);
    }
  }

  lemma PinnedTwice(b: Bank, c: Bank, d: Bank, e: int, f: int)
    requires AllPinned(b, c, e) && AllPinned(c, d, f)
    ensures AllPinned(b, d, e + f)
  {
    forall i | 0 <= i < |b.artworks|
      ensures Pinned(b.artworks[i], d.artworks[i], e + f)
    {
      assert Pinned(b.artworks[i], c.artworks[i], e) && Pinned(c.artworks[i], d.artworks[i], f);
      if d.artworks[i].revision == b.artworks[i].revision {
        SamePriceTwice(b.artworks[i].price, c.artworks[i].price, d.artworks[i].price, e, f);
      }
    }
  }

  /** One artwork at most is touched, and then its revision rises or its owner and price stay. */
  ghost predicate OneTouched(b: Bank, c: Bank, e: Event) {
    && |b.artworks| <= |c.artworks|
    && forall i | 0 <= i < |b.artworks| ::
         && c.artworks[i].id == b.artworks[i].id
         && (c.artworks[i].revision == e.sequence
             || c.artworks[i] == b.artworks[i].(equipped := c.artworks[i].equipped))
  }

  lemma PaymentTouches(b: Bank, e: Event, action: Action)
    requires Validate(b, e.actor, action, e.timestamp).None? && Apply(b, e, action).Some?
    requires action.BuyArt? || action.Contribute?
    ensures OneTouched(b, Apply(b, e, action).value, e)
    ensures Apply(b, e, action).value.epochs == b.epochs
  {
    if action.BuyArt? {
      PurchaseEffect(b, e, action);
    } else {
      ContributionEffect(b, e, action);
    }
  }

  lemma EquippingTouches(b: Bank, e: Event, action: Action)
    requires action.EquipArt? && Apply(b, e, action).Some?
    ensures OneTouched(b, Apply(b, e, action).value, e)
    ensures Apply(b, e, action).value.epochs == b.epochs
  {
  }

  lemma ActionTouches(b: Bank, e: Event, action: Action)
    requires Validate(b, e.actor, action, e.timestamp).None? && Apply(b, e, action).Some?
    ensures OneTouched(b, Apply(b, e, action).value, e)
    ensures Apply(b, e, action).value.epochs == b.epochs
  {
    if action.BuyArt? || action.Contribute? {
      PaymentTouches(b, e, action);
    } else if action.EquipArt? {
      EquippingTouches(b, e, action);
    }
  }

  lemma TouchedIsPinned(b: Bank, c: Bank, e: Event)
    requires Checked(b) && e.sequence > b.sequence && OneTouched(b, c, e)
    ensures AllPinned(b, c, 0)
  {
    forall i | 0 <= i < |b.artworks|
      ensures Pinned(b.artworks[i], c.artworks[i], 0)
    {
      assert GoodArtwork(b, b.artworks[i]);
    }
  }

  lemma ReformPins(b: Bank, exponent: int)
    requires ReformAllowed(b, exponent)
    ensures ApplyReform(b, exponent).Some?
    ensures AllPinned(b, ApplyReform(b, exponent).value, exponent)
    ensures Moved(b, ApplyReform(b, exponent).value) == exponent
  {
    ReformApplies(b, exponent);
    ReformedEntries(b, exponent);
    var c := ApplyReform(b, exponent).value;
    SumAppend(b.epochs, exponent);
    forall i | 0 <= i < |b.artworks|
      ensures Pinned(b.artworks[i], c.artworks[i], exponent)
    {
      assert RescaleArtwork(b.artworks[i], exponent, MAX_AMOUNT) == Ok(c.artworks[i]);
      if b.artworks[i].price.Some? {
        RescaledSign(b.artworks[i].price.value, exponent, MAX_AMOUNT);
      }
    }
  }

  /** A reform rewrites prices and leaves every revision as it was. */
  lemma {:induction false} ReformKeepsRevisions(b: Bank, exponent: int)
    requires ReformAllowed(b, exponent)
    ensures ApplyReform(b, exponent).Some? && |ApplyReform(b, exponent).value.artworks| == |b.artworks|
    ensures forall i | 0 <= i < |b.artworks| ::
              ApplyReform(b, exponent).value.artworks[i].revision == b.artworks[i].revision
  {
    ReformApplies(b, exponent);
    ReformedEntries(b, exponent);
    var c := ApplyReform(b, exponent).value;
    assert forall i | 0 <= i < |b.artworks| :: RescaleArtwork(b.artworks[i], exponent, MAX_AMOUNT) == Ok(c.artworks[i]);
  }

  /** A listed price changes at an unchanged revision in every reform that moves the decimal point. */
  lemma {:induction false} ReformRewritesPrice(b: Bank, exponent: int, i: nat)
    requires Checked(b) && ReformAllowed(b, exponent) && i < |b.artworks| && b.artworks[i].price.Some?
    ensures ApplyReform(b, exponent).Some? && i < |ApplyReform(b, exponent).value.artworks|
    ensures var after := ApplyReform(b, exponent).value.artworks[i];
            && after.revision == b.artworks[i].revision
            && (after.price == b.artworks[i].price <==> exponent == 0)
  {
    ReformKeepsRevisions(b, exponent);
    ReformPins(b, exponent);
    assert GoodArtwork(b, b.artworks[i]);
    PinnedPrice(b.artworks[i], ApplyReform(b, exponent).value.artworks[i], exponent);
  }

  function Zeros(): (hash: string)
    ensures |hash| == 64 && forall i | 0 <= i < 64 :: hash[i] == '0'
  {
    seq(64, _ => '0')
  }

  function Listed(price: int): (a: Artwork) {
    Artwork(1, 1, 1, "a", "b", Zeros(), "https://a", Some(price), false, 1, 0)
  }

  /** A bank with one artwork, listed for one unit. */
  function OneListing(): (b: Bank) {
    Bank([Member(1, true, false, 0)], 0, [], [Listed(1)], [], [0], 1)
  }

  lemma TenTimes(limit: int)
    requires limit >= 10
    ensures Rescale(1, 1, limit) == Ok(10) && Rescale(0, 1, limit) == Ok(0)
  {
    assert IntPow10(1) == 10 * IntPow10(0);
  }

  lemma MapOne<T, U>(x: T, f: T -> Result<U, Error>)
    ensures f(x).Ok? ==> MapAll([x], f) == Ok([f(x).value])
  {
    assert [x][1..] == [];
    assert MapAll([x][1..], f) == Ok([]);
    if f(x).Ok? {
      assert [f(x).value] + [] == [f(x).value];
    }
  }

  lemma {:induction false} ReformedTables(limit: int)
    requires limit >= 10
    ensures RescaleTables(OneListing(), 1, limit) == Ok(OneListing().(artworks := [Listed(10)]))
  {
    TenTimes(limit);
    TenTimes(MAX_SEQUENCE);
    MapOne(Listed(1), ArtworkScaler(1, limit));
    MapOne(OneListing().members[0], MemberScaler(1));
  }

  lemma OneListingIsSound()
    ensures Sound(OneListing())
  {
    var b, url := OneListing(), "https://a";
    assert !IsWhitespace("a"[0]) && !IsWhitespace("b"[0]);
    assert forall i | 0 <= i < 64 :: IsHexDigit(Zeros()[i]);
    assert url[0] == 'h' && url[1] == url[2] == 't' && url[3] == 'p' && url[4] == 's' && url[5] == ':';
    assert url[6] == url[7] == '/' && url[8] == 'a' && |url| == 9;
    assert ValidAsset("a", "b", Zeros(), url);
    assert IsMember(b, b.members[0].id);
  }

  /** An accepted reform that lists an artwork at ten times the price and at the same revision. */
  lemma ReformedListing()
    ensures Sound(OneListing()) && ReformAllowed(OneListing(), 1)
    ensures ApplyReform(OneListing(), 1).Some?
    ensures ApplyReform(OneListing(), 1).value.artworks == [Listed(10)]
    ensures Listed(10).price != Listed(1).price && Listed(10).revision == Listed(1).revision
  {
    OneListingIsSound();
    ReformedTables(MAX_AMOUNT);
    ReformedTables(MAX_SEQUENCE);
  }

  lemma RefundPins(b: Bank, s: Step)
    requires Sound(b) && Possible(b, s) && Accepted(b, s) && s.Refund?
    ensures Effect(b, s).Some?
    ensures AllPinned(b, Effect(b, s).value, Moved(b, Effect(b, s).value))
  {
    RefundIsSound(b, PaymentPlace(b, s.payment), s.units, s.sequence, false);
    PinnedNow(b);
  }

  lemma ReversalPins(b: Bank, s: Step)
    requires Sound(b) && Possible(b, s) && Accepted(b, s) && s.Reverse?
    ensures Effect(b, s).Some?
    ensures AllPinned(b, Effect(b, s).value, Moved(b, Effect(b, s).value))
  {
    var i := PaymentPlace(b, s.payment);
    assert GoodPayment(b, b.payments[i]);
    ReversalAmount(b, b.payments[i]);
    RefundIsSound(b, i, b.payments[i].amount, s.sequence, IsNana(b, s.actor));
    PinnedNow(b);
  }

  lemma ActionPins(b: Bank, e: Event, action: Action)
    requires Sound(b) && Possible(b, Act(e, action)) && Accepted(b, Act(e, action))
    ensures Effect(b, Act(e, action)).Some?
    ensures AllPinned(b, Effect(b, Act(e, action)).value, Moved(b, Effect(b, Act(e, action)).value))
  {
    ActionApplies(b, e, action);
    ActionTouches(b, e, action);
    TouchedIsPinned(b, Effect(b, Act(e, action)).value, e);
  }

  lemma ReformStepPins(b: Bank, s: Step)
    requires Accepted(b, s) && s.Reform?
    ensures Effect(b, s).Some?
    ensures AllPinned(b, Effect(b, s).value, Moved(b, Effect(b, s).value))
  {
    ReformPins(b, s.exponent);
  }

  lemma OtherPins(b: Bank, s: Step)
    requires Accepted(b, s) && s.Other?
    ensures Effect(b, s).Some?
    ensures AllPinned(b, Effect(b, s).value, Moved(b, Effect(b, s).value))
  {
    PinnedNow(b);
  }

  lemma StepPins(b: Bank, s: Step)
    requires Sound(b) && Possible(b, s) && Accepted(b, s)
    ensures Effect(b, s).Some?
    ensures AllPinned(b, Effect(b, s).value, Moved(b, Effect(b, s).value))
  {
    match s
    case Act(e, action) => ActionPins(b, e, action);
    case Refund(_, _, _, _, _, _) => RefundPins(b, s);
    case Reverse(_, _, _, _, _) => ReversalPins(b, s);
    case Reform(_, _) => ReformStepPins(b, s);
    case Other(_, _, _) => OtherPins(b, s);
  }

  lemma MovedTwice(b: Bank, c: Bank, d: Bank)
    requires AllPinned(b, c, Moved(b, c)) && AllPinned(c, d, Moved(c, d))
    ensures AllPinned(b, d, Moved(b, d))
  {
    PinnedTwice(b, c, d, Moved(b, c), Moved(c, d));
    assert Moved(b, c) + Moved(c, d) == Moved(b, d);
  }

  /**
    Over any run an artwork keeps its place, its revision never falls, and as long as the
    revision is the same, so is the owner, and the price is the same but for reforms.
   */
  lemma {:induction false} RunPins(b: Bank, steps: seq<Step>)
    requires Sound(b) && PossibleRun(b, steps)
    ensures Run(b, steps).Some?
    ensures AllPinned(b, Run(b, steps).value, Moved(b, Run(b, steps).value))
    decreases |steps|
  {
    if steps == [] {
      PinnedNow(b);
    } else if Accepted(b, steps[0]) {
      StepIsSound(b, steps[0]);
      StepPins(b, steps[0]);
      var next := Effect(b, steps[0]).value;
      RunPins(next, steps[1..]);
      MovedTwice(b, next, Run(next, steps[1..]).value);
    } else {
      RunPins(b, steps[1..]);
    }
  }

  /** Scaling a positive amount leaves it as it is only if the point did not move. */
  lemma {:induction false} ScaleGrows(x: real, e: nat)
    requires x > 0.0 && e > 0
    ensures Scale(x, e) > x
  {
    ScaleSign(x, e - 1);
    if e > 1 {
      ScaleGrows(x, e - 1);
    }
  }

  lemma {:induction false} ScaleFixed(x: real, e: int)
    requires x > 0.0
    ensures Scale(x, e) == x <==> e == 0
  {
    if e > 0 {
      ScaleGrows(x, e);
    } else if e < 0 {
      ScaleSign(x, e);
      ScaleGrows(Scale(x, e), -e);
      ScaleTwice(x, e, -e);
    }
  }

  lemma SameArtwork(b: Bank, c: Bank, id: nat, e: int)
    requires Checked(b) && Checked(c) && AllPinned(b, c, e)
    requires ArtPlace(b, id) < |b.artworks|
    ensures ArtPlace(c, id) == ArtPlace(b, id)
  {
    var i, k := ArtPlace(b, id), ArtPlace(c, id);
    assert Pinned(b.artworks[i], c.artworks[i], e);
    assert k <= i;
    assert k < i ==> Compatible(c.artworks[k], c.artworks[i]);
  }

  lemma PinnedPrice(before: Artwork, after: Artwork, e: int)
    requires Pinned(before, after, e) && after.revision == before.revision
    requires before.price.Some? && Positive(before.price.value)
    ensures after.price == before.price <==> e == 0
  {
    ScaleFixed(before.price.value as real, e);
  }

  /**
    The revision alone does not pin the price: at an unchanged revision a listed price is
    unchanged exactly when no reform has moved the decimal point in between.
   */
  lemma {:induction false} RevisionAndPrice(b: Bank, steps: seq<Step>, i: nat)
    requires Sound(b) && PossibleRun(b, steps) && i < |b.artworks|
    ensures Run(b, steps).Some? && i < |Run(b, steps).value.artworks|
    ensures var after := Run(b, steps).value;
            after.artworks[i].revision == b.artworks[i].revision && b.artworks[i].price.Some? ==>
              (after.artworks[i].price == b.artworks[i].price <==> Moved(b, after) == 0)
  {
    RunPins(b, steps);
    var after := Run(b, steps).value;
    if after.artworks[i].revision == b.artworks[i].revision && b.artworks[i].price.Some? {
      assert Pinned(b.artworks[i], after.artworks[i], Moved(b, after));
      assert GoodArtwork(b, b.artworks[i]);
      PinnedPrice(b.artworks[i], after.artworks[i], Moved(b, after));
    }
  }

  /**
    A purchase that names what was read, and is accepted after any run, finds the artwork
    with the same owner, the same price, and the same units of price.
   */
  lemma {:induction false} PurchaseFindsWhatWasRead(b: Bank, steps: seq<Step>, buyer: nat, now: nat, art: nat)
    requires Sound(b) && PossibleRun(b, steps) && Run(b, steps).Some?
    requires ArtPlace(b, art) < |b.artworks| && b.artworks[ArtPlace(b, art)].price.Some?
    requires var a := b.artworks[ArtPlace(b, art)];
             Validate(Run(b, steps).value, buyer, BuyArt(art, a.owner, a.revision, a.price.value), now).None?
    ensures var after := Run(b, steps).value;
            var was := b.artworks[ArtPlace(b, art)];
            && ArtPlace(after, art) == ArtPlace(b, art)
            && after.artworks[ArtPlace(after, art)].owner == was.owner
            && after.artworks[ArtPlace(after, art)].price == was.price
            && Moved(b, after) == 0
  {
    RunIsSound(b, steps);
    RunPins(b, steps);
    var i, after := ArtPlace(b, art), Run(b, steps).value;
    SameArtwork(b, after, art, Moved(b, after));
    var was := b.artworks[i];
    PurchaseMatches(after, buyer, art, was.owner, was.revision, was.price.value, now);
    RevisionAndPrice(b, steps, i);
  }

  lemma PurchaseMatches(b: Bank, buyer: nat, art: nat, owner: nat, revision: nat, price: int, now: nat)
    requires Validate(b, buyer, BuyArt(art, owner, revision, price), now).None?
    ensures ArtPlace(b, art) < |b.artworks|
    ensures var a := b.artworks[ArtPlace(b, art)];
            a.owner == owner && a.revision == revision && a.price == Some(price)
  {
  }

  /** What a purchase leaves: the artwork in its place, at a revision later than the one named. */
  lemma PurchaseMarks(b: Bank, e: Event, purchase: Action)
    requires Sound(b) && purchase.BuyArt? && e.sequence > b.sequence
    requires Accepted(b, Act(e, purchase)) && Effect(b, Act(e, purchase)).Some?
    ensures var c, i := Effect(b, Act(e, purchase)).value, ArtPlace(b, purchase.art);
            && i < |b.artworks| && i < |c.artworks|
            && c.artworks[i].id == purchase.art && c.artworks[i].revision > purchase.expectedRevision
  {
    PurchaseEffect(b, e, purchase);
    assert GoodArtwork(b, b.artworks[ArtPlace(b, purchase.art)]);
  }

  lemma ArtworkAt(b: Bank, i: nat)
    requires Checked(b) && i < |b.artworks|
    ensures ArtPlace(b, b.artworks[i].id) == i
  {
    var k := ArtPlace(b, b.artworks[i].id);
    assert k <= i;
    assert k < i ==> Compatible(b.artworks[k], b.artworks[i]);
  }

  lemma OtherRevisionRefused(b: Bank, buyer: nat, later: Action, now: nat)
    requires later.BuyArt? && ArtPlace(b, later.art) < |b.artworks|
    requires b.artworks[ArtPlace(b, later.art)].revision != later.expectedRevision
    ensures Validate(b, buyer, later, now).Some?
  {
  }

  /** Once an artwork has left a revision behind, no purchase that names it is accepted any more. */
  lemma {:induction false} StaleRevision(
    b: Bank, steps: seq<Step>, i: nat, revision: nat, buyer: nat, now: nat, later: Action)
    requires Sound(b) && PossibleRun(b, steps) && i < |b.artworks| && b.artworks[i].revision > revision
    requires later.BuyArt? && later.art == b.artworks[i].id && later.expectedRevision == revision
    ensures Run(b, steps).Some?
    ensures Validate(Run(b, steps).value, buyer, later, now).Some?
  {
    RunIsSound(b, steps);
    RunPins(b, steps);
    var d := Run(b, steps).value;
    assert Pinned(b.artworks[i], d.artworks[i], Moved(b, d));
    ArtworkAt(d, i);
    OtherRevisionRefused(d, buyer, later, now);
  }

  /** Of all purchases that name one revision of an artwork, at most one is ever accepted. */
  lemma {:induction false} OnePurchasePerRevision(
    b: Bank, e: Event, purchase: Action, steps: seq<Step>, laterBuyer: nat, laterNow: nat, later: Action)
    requires Sound(b) && purchase.BuyArt? && later.BuyArt? && e.sequence > b.sequence
    requires later.art == purchase.art && later.expectedRevision == purchase.expectedRevision
    requires Accepted(b, Act(e, purchase))
    requires Effect(b, Act(e, purchase)).Some? && PossibleRun(Effect(b, Act(e, purchase)).value, steps)
    ensures Run(Effect(b, Act(e, purchase)).value, steps).Some?
    ensures Validate(Run(Effect(b, Act(e, purchase)).value, steps).value, laterBuyer, later, laterNow).Some?
  {
    StepIsSound(b, Act(e, purchase));
    PurchaseMarks(b, e, purchase);
    StaleRevision(Effect(b, Act(e, purchase)).value, steps, ArtPlace(b, purchase.art), purchase.expectedRevision,
                  laterBuyer, laterNow, later);
  }
}
