/** The bank object of the commerce code: its tables change in place. */
module Shop {
  import opened Options
  import opened Limits
  import opened Money
  import opened Commerce
  import opened CommerceSafety
  import opened Gifts

  class State {
    var members: seq<Member>
    var issuance: int
    var requests: seq<GiftRequest>
    var artworks: seq<Artwork>
    var payments: seq<Payment>
    var epochs: seq<int>
    var sequence: nat

    function Snapshot(): (b: Bank)
      reads this
    {
      Bank(members, issuance, requests, artworks, payments, epochs, sequence)
    }

    /** Adds to one wallet of a party that exists. */
    method AddTo(id: nat, units: int)
      requires Add(Snapshot(), id, units).Some?
      modifies this`members, this`issuance
      ensures Snapshot() == Add(old(Snapshot()), id, units).value
    {
      if id == ISSUER {
        issuance := issuance + units;
      } else {
        var i := 0;
        while members[i].id != id
          invariant 0 <= i <= MemberPlace(Snapshot(), id) < |members|
          decreases |members| - i
        {
          i := i + 1;
        }
        members := members[i := members[i].(balance := members[i].balance + units)];
      }
    }

    /** Records a transaction: it is retained, and its amount leaves one wallet and enters the other. */
    method RecordTransaction(p: Payment)
      requires Record(Snapshot(), p).Some?
      modifies this`members, this`issuance, this`payments
      ensures Snapshot() == Record(old(Snapshot()), p).value
    {
      payments := payments + [p];
      AddTo(p.from, -p.amount);
      AddTo(p.to, p.amount);
    }

    method FindRequest(id: nat) returns (i: nat)
      requires RequestPlace(Snapshot(), id) < |requests|
      ensures i == RequestPlace(Snapshot(), id)
    {
      i := 0;
      while requests[i].id != id
        invariant 0 <= i <= RequestPlace(Snapshot(), id)
        decreases |requests| - i
      {
        i := i + 1;
      }
    }

    method FindArtwork(id: nat) returns (i: nat)
      requires ArtPlace(Snapshot(), id) < |artworks|
      ensures i == ArtPlace(Snapshot(), id)
    {
      i := 0;
      while artworks[i].id != id
        invariant 0 <= i <= ArtPlace(Snapshot(), id)
        decreases |artworks| - i
      {
        i := i + 1;
      }
    }

    method UnequipAll(owner: nat)
      modifies this`artworks
      ensures artworks == Unequip(old(artworks), owner)
    {
      ghost var before := artworks;
      for i := 0 to |artworks|
        invariant |artworks| == |before|
        invariant forall k | 0 <= k < |before| ::
                    artworks[k] ==
                    if k < i && before[k].owner == owner then before[k].(equipped := false) else before[k]
      {
        if artworks[i].owner == owner {
          artworks := artworks[i := artworks[i].(equipped := false)];
        }
      }
      assert artworks == Unequip(before, owner);
    }

    method ApplyContribution(e: Event, request: nat, amount: int)
      requires Apply(Snapshot(), e, Contribute(request, amount)).Some?
      modifies this
      ensures Snapshot() == Apply(old(Snapshot()), e, Contribute(request, amount)).value
    {
      var r := FindRequest(request);
      var to := requests[r].owner;
      requests := requests[r := requests[r].(received := requests[r].received + amount)];
      RecordTransaction(
        Payment(e.sequence, e.actor, to, amount, if epochs == [] then 0 else |epochs| - 1, 0, Some(request), None));
    }

    method ApplyPurchase(e: Event, art: nat, expectedOwner: nat, expectedRevision: nat, expectedPrice: int)
      requires Apply(Snapshot(), e, BuyArt(art, expectedOwner, expectedRevision, expectedPrice)).Some?
      modifies this
      ensures Snapshot() == Apply(old(Snapshot()), e, BuyArt(art, expectedOwner, expectedRevision, expectedPrice)).value
    {
      var a := FindArtwork(art);
      var seller := artworks[a].owner;
      artworks :=
        artworks[a := artworks[a].(owner := e.actor, price := None, equipped := false, revision := e.sequence)];
      RecordTransaction(
        Payment(e.sequence, e.actor, seller, expectedPrice,
                if epochs == [] then 0 else |epochs| - 1, 0, None, Some(art)));
    }

    /** Applies an action that meets no missing record. */
    method ApplyCommerce(e: Event, action: Action)
      requires Apply(Snapshot(), e, action).Some?
      modifies this
      ensures Snapshot() == Apply(old(Snapshot()), e, action).value
    {
      match action {
        case CreateRequest(title, description, target, deadline) =>
          requests := requests +
            [GiftRequest(e.sequence, e.actor, title, description, target, 0, deadline, false, e.timestamp)];
        case CloseRequest(request) =>
          var r := FindRequest(request);
          requests := requests[r := requests[r].(closed := true)];
        case Contribute(request, amount) =>
          ApplyContribution(e, request, amount);
        case MintArt(title, license, sha256, locator) =>
          artworks := artworks + [Artwork(
            e.sequence, e.actor, e.actor, title, license, sha256, locator, None, false, e.sequence, e.timestamp)];
        case ListArt(art, price) =>
          var a := FindArtwork(art);
          artworks := artworks[a := artworks[a].(price := price, revision := e.sequence)];
        case BuyArt(art, owner, revision, price) =>
          ApplyPurchase(e, art, owner, revision, price);
        case GiftArt(art, to) =>
          var a := FindArtwork(art);
          artworks :=
            artworks[a := artworks[a].(owner := to, price := None, equipped := false, revision := e.sequence)];
        case EquipArt(art, equipped) =>
          SameArtPlace(Snapshot(), e.actor, art);
          if equipped {
            UnequipAll(e.actor);
          }
          var a := FindArtwork(art);
          artworks := artworks[a := artworks[a].(equipped := equipped)];
      }
    }

    /** Takes a refund off the request it was given to. */
    method CommerceRefund(gift: Option<nat>, amount: int)
      requires LowerReceived(Snapshot(), gift, amount).Some?
      modifies this`requests
      ensures Snapshot() == LowerReceived(old(Snapshot()), gift, amount).value
    {
      if gift.Some? {
        var r := FindRequest(gift.value);
        requests := requests[r := requests[r].(received := requests[r].received - amount)];
      }
    }

    /** Rescales both tables in place, entry by entry, until one is refused. */
    method RescaleTablesInPlace(exponent: int, limit: int) returns (error: Option<Error>)
      modifies this`requests, this`artworks
      ensures error.None? <==>
              && MapAll(old(requests), RequestScaler(exponent, limit)).Ok?
              && MapAll(old(artworks), ArtworkScaler(exponent, limit)).Ok?
      ensures error.None? ==>
              && MapAll(old(requests), RequestScaler(exponent, limit)) == Ok(requests)
              && MapAll(old(artworks), ArtworkScaler(exponent, limit)) == Ok(artworks)
    {
      ghost var before := requests;
      for i := 0 to |requests|
        invariant |requests| == |before| && artworks == old(artworks)
        invariant forall k | 0 <= k < i :: RequestScaler(exponent, limit)(before[k]) == Ok(requests[k])
        invariant forall k | i <= k < |before| :: requests[k] == before[k]
      {
        var scaled := RescaleRequest(requests[i], exponent, limit);
        if scaled.Err? {
          AllOrNone(before, RequestScaler(exponent, limit));
          return Some(scaled.error);
        }
        requests := requests[i := scaled.value];
      }
      MapIs(before, RequestScaler(exponent, limit), requests);
      ghost var shown, rescaled := artworks, requests;
      for i := 0 to |artworks|
        invariant |artworks| == |shown| && requests == rescaled
        invariant forall k | 0 <= k < i :: ArtworkScaler(exponent, limit)(shown[k]) == Ok(artworks[k])
        invariant forall k | i <= k < |shown| :: artworks[k] == shown[k]
      {
        var scaled := RescaleArtwork(artworks[i], exponent, limit);
        if scaled.Err? {
          AllOrNone(shown, ArtworkScaler(exponent, limit));
          return Some(scaled.error);
        }
        artworks := artworks[i := scaled.value];
      }
      MapIs(shown, ArtworkScaler(exponent, limit), artworks);
      return None;
    }
  }

  lemma {:induction false} AllOrNone<T, U>(s: seq<T>, f: T -> Result<U, Error>)
    ensures MapAll(s, f).Ok? <==> forall i | 0 <= i < |s| :: f(s[i]).Ok?
  {
    if s != [] {
      AllOrNone(s[1..], f);
      if forall i | 0 <= i < |s[1..]| :: f(s[1..][i]).Ok? {
        assert forall i | 1 <= i < |s| :: s[i] == s[1..][i - 1];
      } else {
        var i :| 0 <= i < |s[1..]| && !f(s[1..][i]).Ok?;
        assert s[i + 1] == s[1..][i];
      }
    }
  }

  lemma {:induction false} MapIs<T, U>(s: seq<T>, f: T -> Result<U, Error>, mapped: seq<U>)
    requires |mapped| == |s| && forall i | 0 <= i < |s| :: f(s[i]) == Ok(mapped[i])
    ensures MapAll(s, f) == Ok(mapped)
  {
    AllOrNone(s, f);
    assert MapAll(s, f).value == mapped;
  }
}
