/**
  Gift requests and digital art: the two bounded tables, the actions on them, and the
  payments two of the actions make. This is the build without the banking kernel.
 */
module Commerce {
  import opened Options
  import opened Collections
  import opened Limits
  import opened Text
  import opened Money

  const REQUESTS := 32
  const ARTWORKS := 64
  const EPOCHS := 32

  datatype Member = Member(id: nat, nana: bool, disabled: bool, balance: int)

  datatype GiftRequest = GiftRequest(
    id: nat, owner: nat, title: string, description: string, target: Option<int>, received: int,
    deadline: Option<nat>, closed: bool, createdAt: nat)

  datatype Artwork = Artwork(
    id: nat, creator: nat, owner: nat, title: string, license: string, sha256: string, locator: string,
    price: Option<int>, equipped: bool, revision: nat, createdAt: nat)

  /** A recorded payment, in the units of its own epoch, and how many of them went back. */
  datatype Payment = Payment(
    id: nat, from: nat, to: nat, amount: int, epoch: nat, refunded: int, gift: Option<nat>, art: Option<nat>)

  /** `epochs` holds the decimal exponent of every reform; the first epoch's is zero. */
  datatype Bank = Bank(
    members: seq<Member>, issuance: int, requests: seq<GiftRequest>, artworks: seq<Artwork>,
    payments: seq<Payment>, epochs: seq<int>, sequence: nat)

  datatype Action =
    | CreateRequest(title: string, description: string, target: Option<int>, deadline: Option<nat>)
    | CloseRequest(request: nat)
    | Contribute(request: nat, amount: int)
    | MintArt(title: string, license: string, sha256: string, locator: string)
    | ListArt(art: nat, price: Option<int>)
    | BuyArt(art: nat, expectedOwner: nat, expectedRevision: nat, expectedPrice: int)
    | GiftArt(art: nat, to: nat)
    | EquipArt(art: nat, equipped: bool)

  datatype Event = Event(sequence: nat, actor: nat, timestamp: nat)

  // ----- looking things up

  function MemberPlace(b: Bank, id: nat): (i: nat)
    ensures i <= |b.members|
    ensures i < |b.members| ==> b.members[i].id == id
    ensures forall k | 0 <= k < i :: b.members[k].id != id
  {
    Place(b.members, (m: Member) => m.id == id)
  }

  function RequestPlace(b: Bank, id: nat): (i: nat)
    ensures i <= |b.requests|
    ensures i < |b.requests| ==> b.requests[i].id == id
    ensures forall k | 0 <= k < i :: b.requests[k].id != id
  {
    Place(b.requests, (r: GiftRequest) => r.id == id)
  }

  function ArtPlace(b: Bank, id: nat): (i: nat)
    ensures i <= |b.artworks|
    ensures i < |b.artworks| ==> b.artworks[i].id == id
    ensures forall k | 0 <= k < i :: b.artworks[k].id != id
  {
    Place(b.artworks, (a: Artwork) => a.id == id)
  }

  predicate IsMember(b: Bank, id: nat) {
    exists i | 0 <= i < |b.members| :: b.members[i].id == id
  }

  // ----- validation

  predicate Positive(n: int) { 1 <= n <= MAX_AMOUNT }

  predicate IsHexDigit(c: char) {
    '0' <= c <= '9' || 'a' <= c <= 'f' || 'A' <= c <= 'F'
  }

  predicate IsGraphic(c: char) { '!' <= c <= '~' }

  const SCHEME := "https://"

  predicate ValidAsset(title: string, license: string, hash: string, url: string) {
    && !IsBlank(title) && !IsBlank(license)
    && |hash| == 64 && (forall i | 0 <= i < |hash| :: IsHexDigit(hash[i]))
    && SCHEME <= url && |url| > |SCHEME| && url[|SCHEME|] !in {'/', '?', '#'}
    && (forall i | 0 <= i < |url| :: IsGraphic(url[i]) && url[i] != '@')
  }

  /** A payer's or payee's balance, or why it cannot take part. */
  function PartyBalance(b: Bank, id: nat, correction: bool): (r: Result<int, Error>) {
    if id == ISSUER then Ok(b.issuance)
    else
      var i := MemberPlace(b, id);
      if i == |b.members| then Err(NotFound)
      else if !correction && b.members[i].disabled then Err(Disabled)
      else Ok(b.members[i].balance)
  }

  function ValidatePosting(b: Bank, from: nat, to: nat, amount: int, correction: bool): (error: Option<Error>) {
    if from == to || !Positive(amount) then Some(InvalidInput)
    else
      var source := PartyBalance(b, from, correction);
      if source.Err? then Some(source.error)
      else
        var target := PartyBalance(b, to, correction);
        if target.Err? then Some(target.error)
        else if source.value - amount < -MAX_SEQUENCE || target.value + amount > MAX_SEQUENCE then Some(Overflow)
        else if !correction && from != ISSUER && source.value - amount < 0 then Some(InsufficientFunds)
        else None
  }

  function Validate(b: Bank, actor: nat, action: Action, now: nat): (error: Option<Error>) {
    var m := MemberPlace(b, actor);
    if m == |b.members| then Some(NotFound)
    else if b.members[m].disabled then Some(Disabled)
    else
      match action
      case CreateRequest(title, _, target, deadline) =>
        if |b.requests| >= REQUESTS then Some(Capacity)
        else if IsBlank(title) || (target.Some? && !Positive(target.value))
                || (deadline.Some? && (deadline.value <= now || deadline.value > MAX_SEQUENCE || now < MIN_CLOCK))
        then Some(InvalidInput)
        else None
      case CloseRequest(request) =>
        var r := RequestPlace(b, request);
        if r == |b.requests| then Some(NotFound)
        else if b.requests[r].owner != actor then Some(Forbidden)
        else if b.requests[r].closed then Some(Conflict)
        else None
      case Contribute(request, amount) =>
        var r := RequestPlace(b, request);
        if r == |b.requests| then Some(NotFound)
        else
          var deadline := b.requests[r].deadline;
          if b.requests[r].closed || (deadline.Some? && (now >= deadline.value || now < MIN_CLOCK)) then Some(Conflict)
          else
            var posting := ValidatePosting(b, actor, b.requests[r].owner, amount, false);
            if posting.Some? then posting
            else if b.requests[r].received + amount > MAX_SEQUENCE then Some(Overflow)
            else None
      case MintArt(title, license, sha256, locator) =>
        if |b.artworks| >= ARTWORKS then Some(Capacity)
        else if !ValidAsset(title, license, sha256, locator) then Some(InvalidInput)
        else None
      case BuyArt(art, expectedOwner, expectedRevision, expectedPrice) =>
        var a := ArtPlace(b, art);
        if a == |b.artworks| then Some(NotFound)
        else if b.artworks[a].owner != expectedOwner || b.artworks[a].revision != expectedRevision
                || b.artworks[a].price != Some(expectedPrice)
        then Some(Conflict)
        else ValidatePosting(b, actor, b.artworks[a].owner, expectedPrice, false)
      case ListArt(art, price) =>
        var a := ArtPlace(b, art);
        if a == |b.artworks| then Some(NotFound)
        else if b.artworks[a].owner != actor then Some(Forbidden)
        else if price.Some? && !Positive(price.value) then Some(InvalidInput)
        else None
      case GiftArt(art, to) =>
        var a, recipient := ArtPlace(b, art), MemberPlace(b, to);
        if a == |b.artworks| then Some(NotFound)
        else if b.artworks[a].owner != actor then Some(Forbidden)
        else if to == actor then Some(InvalidInput)
        else if recipient == |b.members| then Some(NotFound)
        else if b.members[recipient].disabled then Some(Disabled)
        else None
      case EquipArt(art, _) =>
        var a := ArtPlace(b, art);
        if a == |b.artworks| then Some(NotFound)
        else if b.artworks[a].owner != actor then Some(Forbidden)
        else None
  }

  // ----- application; none where the program would stop on a missing record

  /** Adds to one wallet. */
  function Add(b: Bank, id: nat, units: int): (after: Option<Bank>) {
    if id == ISSUER then Some(b.(issuance := b.issuance + units))
    else
      var i := MemberPlace(b, id);
      if i == |b.members| then None
      else Some(b.(members := b.members[i := b.members[i].(balance := b.members[i].balance + units)]))
  }

  function Pay(b: Bank, from: nat, to: nat, amount: int): (after: Option<Bank>) {
    var paid := Add(b, from, -amount);
    if paid.None? then None else Add(paid.value, to, amount)
  }

  /** Records a payment and moves its money. */
  function Record(b: Bank, p: Payment): (after: Option<Bank>) {
    Pay(b.(payments := b.payments + [p]), p.from, p.to, p.amount)
  }

  function CurrentEpoch(b: Bank): (epoch: nat) {
    if b.epochs == [] then 0 else |b.epochs| - 1
  }

  /** Every artwork of an owner unequipped. */
  function Unequip(artworks: seq<Artwork>, owner: nat): (after: seq<Artwork>)
    ensures |after| == |artworks|
    ensures forall i | 0 <= i < |artworks| ::
              after[i] == if artworks[i].owner == owner then artworks[i].(equipped := false) else artworks[i]
  {
    seq(|artworks|, i requires 0 <= i < |artworks| =>
      if artworks[i].owner == owner then artworks[i].(equipped := false) else artworks[i])
  }

  function Apply(b: Bank, e: Event, action: Action): (after: Option<Bank>) {
    match action
    case CreateRequest(title, description, target, deadline) =>
      var r := GiftRequest(e.sequence, e.actor, title, description, target, 0, deadline, false, e.timestamp);
      Some(b.(requests := b.requests + [r]))
    case CloseRequest(request) =>
      var r := RequestPlace(b, request);
      if r == |b.requests| then None
      else Some(b.(requests := b.requests[r := b.requests[r].(closed := true)]))
    case Contribute(request, amount) =>
      var r := RequestPlace(b, request);
      if r == |b.requests| then None
      else
        var more := b.requests[r].(received := b.requests[r].received + amount);
        var p := Payment(e.sequence, e.actor, b.requests[r].owner, amount, CurrentEpoch(b), 0, Some(request), None);
        Record(b.(requests := b.requests[r := more]), p)
    case MintArt(title, license, sha256, locator) =>
      var a := Artwork(
        e.sequence, e.actor, e.actor, title, license, sha256, locator, None, false, e.sequence, e.timestamp);
      Some(b.(artworks := b.artworks + [a]))
    case ListArt(art, price) =>
      var a := ArtPlace(b, art);
      if a == |b.artworks| then None
      else Some(b.(artworks := b.artworks[a := b.artworks[a].(price := price, revision := e.sequence)]))
    case BuyArt(art, _, _, expectedPrice) =>
      var a := ArtPlace(b, art);
      if a == |b.artworks| then None
      else
        var bought :=
          b.artworks[a].(owner := e.actor, price := None, equipped := false, revision := e.sequence);
        var p := Payment(
          e.sequence, e.actor, b.artworks[a].owner, expectedPrice, CurrentEpoch(b), 0, None, Some(art));
        Record(b.(artworks := b.artworks[a := bought]), p)
    case GiftArt(art, to) =>
      var a := ArtPlace(b, art);
      if a == |b.artworks| then None
      else
        var given := b.artworks[a].(owner := to, price := None, equipped := false, revision := e.sequence);
        Some(b.(artworks := b.artworks[a := given]))
    case EquipArt(art, equipped) =>
      var cleared := if equipped then b.(artworks := Unequip(b.artworks, e.actor)) else b;
      var a := ArtPlace(cleared, art);
      if a == |b.artworks| then None
      else Some(cleared.(artworks := cleared.artworks[a := cleared.artworks[a].(equipped := equipped)]))
  }

  // ----- the table invariants

  predicate GoodRequest(b: Bank, r: GiftRequest) {
    && IsMember(b, r.owner)
    && 0 < r.id <= b.sequence
    && 0 <= r.received <= MAX_SEQUENCE
    && (r.target.Some? ==> Positive(r.target.value))
    && !IsBlank(r.title)
  }

  predicate GoodArtwork(b: Bank, a: Artwork) {
    && IsMember(b, a.owner) && IsMember(b, a.creator)
    && 0 < a.id <= a.revision <= b.sequence
    && (a.price.Some? ==> Positive(a.price.value))
    && ValidAsset(a.title, a.license, a.sha256, a.locator)
  }

  /** Two artworks that may be in the table together. */
  predicate Compatible(a: Artwork, c: Artwork) {
    a.id != c.id && !(a.owner == c.owner && a.equipped && c.equipped)
  }

  /** What the bank checks of its two tables. */
  predicate Checked(b: Bank) {
    && |b.requests| <= REQUESTS && |b.artworks| <= ARTWORKS
    && (forall i | 0 <= i < |b.requests| :: GoodRequest(b, b.requests[i]))
    && (forall i, j | 0 <= i < j < |b.requests| :: b.requests[i].id != b.requests[j].id)
    && (forall i | 0 <= i < |b.artworks| :: GoodArtwork(b, b.artworks[i]))
    && (forall i, j | 0 <= i < j < |b.artworks| :: Compatible(b.artworks[i], b.artworks[j]))
  }

  // ----- money

  function Held(members: seq<Member>): (units: int) {
    if members == [] then 0 else members[0].balance + Held(members[1..])
  }

  function Total(b: Bank): (units: int) { b.issuance + Held(b.members) }

  lemma {:induction false} HeldAfter(members: seq<Member>, i: nat, m: Member)
    requires i < |members|
    ensures Held(members[i := m]) == Held(members) - members[i].balance + m.balance
  {
    if i > 0 {
      HeldAfter(members[1..], i - 1, m);
      assert members[i := m][1..] == members[1..][i - 1 := m];
    } else {
      assert members[i := m][1..] == members[1..];
    }
  }

  /** The same members, whatever happened to their balances. */
  predicate SamePeople(a: seq<Member>, c: seq<Member>) {
    |a| == |c| && forall i | 0 <= i < |a| :: c[i] == a[i].(balance := c[i].balance)
  }

  /** No member of one bank is missing in the other. */
  ghost predicate StillMembers(b: Bank, c: Bank) {
    forall id: nat :: IsMember(b, id) ==> IsMember(c, id)
  }

  /** Banks that differ in balances at most. */
  predicate SameTables(a: Bank, c: Bank) {
    && SamePeople(a.members, c.members)
    && c == a.(members := c.members, issuance := c.issuance)
  }

  lemma AddKeepsTables(b: Bank, id: nat, units: int)
    requires Add(b, id, units).Some?
    ensures SameTables(b, Add(b, id, units).value)
    ensures Total(Add(b, id, units).value) == Total(b) + units
  {
    if id != ISSUER {
      var i := MemberPlace(b, id);
      HeldAfter(b.members, i, b.members[i].(balance := b.members[i].balance + units));
    }
  }

  lemma PlacesAgree(a: Bank, c: Bank, id: nat)
    requires SamePeople(a.members, c.members)
    ensures MemberPlace(a, id) == MemberPlace(c, id)
  {
    assert forall k | 0 <= k < |a.members| :: a.members[k].id == c.members[k].id;
  }

  /** A payment between two parties that exist goes through, moves no money in or out, and touches no table. */
  lemma PayBalances(b: Bank, from: nat, to: nat, amount: int)
    requires from == ISSUER || MemberPlace(b, from) < |b.members|
    requires to == ISSUER || MemberPlace(b, to) < |b.members|
    ensures Pay(b, from, to, amount).Some?
    ensures SameTables(b, Pay(b, from, to, amount).value)
    ensures Total(Pay(b, from, to, amount).value) == Total(b)
  {
    AddKeepsTables(b, from, -amount);
    var paid := Add(b, from, -amount).value;
    PlacesAgree(b, paid, to);
    AddKeepsTables(paid, to, amount);
  }

  lemma ValidatedParties(b: Bank, from: nat, to: nat, amount: int, correction: bool)
    requires ValidatePosting(b, from, to, amount, correction).None?
    ensures Positive(amount) && from != to
    ensures from == ISSUER || MemberPlace(b, from) < |b.members|
    ensures to == ISSUER || MemberPlace(b, to) < |b.members|
  {
  }

  lemma MemberAtPlace(b: Bank, id: nat)
    ensures IsMember(b, id) <==> MemberPlace(b, id) < |b.members|
  {
  }

  lemma SamePeopleMembers(a: Bank, c: Bank, id: nat)
    requires SamePeople(a.members, c.members)
    ensures IsMember(a, id) == IsMember(c, id)
  {
    PlacesAgree(a, c, id);
    MemberAtPlace(a, id);
    MemberAtPlace(c, id);
  }

  /** The tables stay good when only balances change and the sequence grows. */
  lemma CheckedAcross(b: Bank, c: Bank)
    requires Checked(b)
    requires StillMembers(b, c)
    requires c.requests == b.requests && c.artworks == b.artworks && c.sequence >= b.sequence
    ensures Checked(c)
  {
    forall i | 0 <= i < |c.requests|
      ensures GoodRequest(c, c.requests[i])
    {
      assert GoodRequest(b, b.requests[i]);
    }
    forall i | 0 <= i < |c.artworks|
      ensures GoodArtwork(c, c.artworks[i])
    {
      assert GoodArtwork(b, b.artworks[i]);
    }
  }

  /** The payment an action makes, if it makes one. */
  function PaymentOf(b: Bank, e: Event, action: Action): (p: Option<Payment>) {
    match action
    case Contribute(request, amount) =>
      var r := RequestPlace(b, request);
      if r == |b.requests| then None
      else Some(Payment(e.sequence, e.actor, b.requests[r].owner, amount, CurrentEpoch(b), 0, Some(request), None))
    case BuyArt(art, _, _, price) =>
      var a := ArtPlace(b, art);
      if a == |b.artworks| then None
      else Some(Payment(e.sequence, e.actor, b.artworks[a].owner, price, CurrentEpoch(b), 0, None, Some(art)))
    case _ => None
  }
}
