/**
  Double-entry postings, planned before an event is stored and installed after it.

  Planning computes the final balances of every cash leg of an event, reading the
  balances of earlier legs through an overlay. Applying later overwrites wallets with
  them. `PostAll`, which moves the money posting by posting, is the reference.
 */
module Posting {
  import opened Options
  import opened Limits
  import opened Bits

  const LEGS := 2
  const MIN_I64 := -0x8000_0000_0000_0000
  const MAX_I64 := 0x7FFF_FFFF_FFFF_FFFF

  datatype Error =
    | InvalidInput | Overflow | Capacity | Unavailable | CorruptJournal
    | NotFound | Disabled | InsufficientFunds | SelfDeal

  datatype Member = Member(id: nat, balance: int, usdCents: int)

  /** Everything that holds money: issuance in both currencies, lotto escrow, members. */
  datatype Books = Books(issuance: int, usdIssuance: int, escrow: int, members: seq<Member>)

  datatype Wallet = Issuance | UsdIssuance | Escrow | Coins(id: nat) | Cents(id: nat)

  /** The wallet a party pays from or into. Escrow is one wallet, whatever the currency. */
  function WalletOf(id: nat, usd: bool): (w: Wallet) {
    if id == ISSUER then if usd then UsdIssuance else Issuance
    else if id == ESCROW then Escrow
    else if usd then Cents(id) else Coins(id)
  }

  /** The place of the first member with an id; the number of members when there is none. */
  function Find(members: seq<Member>, id: nat): (i: nat)
    ensures i <= |members|
    ensures i < |members| ==> members[i].id == id
    ensures forall k | 0 <= k < i :: members[k].id != id
  {
    if members == [] || members[0].id == id then 0 else 1 + Find(members[1..], id)
  }

  predicate Exists(b: Books, w: Wallet) {
    match w
    case Coins(id) => Find(b.members, id) < |b.members|
    case Cents(id) => Find(b.members, id) < |b.members|
    case _ => true
  }

  function Balance(b: Books, w: Wallet): (units: int) {
    match w
    case Issuance => b.issuance
    case UsdIssuance => b.usdIssuance
    case Escrow => b.escrow
    case Coins(id) => var i := Find(b.members, id); if i < |b.members| then b.members[i].balance else 0
    case Cents(id) => var i := Find(b.members, id); if i < |b.members| then b.members[i].usdCents else 0
  }

  function SetBalance(b: Books, w: Wallet, units: int): (after: Books)
    requires Exists(b, w)
  {
    match w
    case Issuance => b.(issuance := units)
    case UsdIssuance => b.(usdIssuance := units)
    case Escrow => b.(escrow := units)
    case Coins(id) =>
      var i := Find(b.members, id);
      b.(members := b.members[i := b.members[i].(balance := units)])
    case Cents(id) =>
      var i := Find(b.members, id);
      b.(members := b.members[i := b.members[i].(usdCents := units)])
  }

  lemma {:induction false} FindIsFirst(members: seq<Member>, id: nat, i: nat)
    requires i <= |members| && (i < |members| ==> members[i].id == id)
    requires forall k | 0 <= k < i :: members[k].id != id
    ensures Find(members, id) == i
  {
    if i > 0 {
      FindIsFirst(members[1..], id, i - 1);
    }
  }

  lemma {:induction false} SameIds(a: seq<Member>, b: seq<Member>, id: nat)
    requires |a| == |b| && forall k | 0 <= k < |a| :: a[k].id == b[k].id
    ensures Find(a, id) == Find(b, id)
  {
    FindIsFirst(b, id, Find(a, id));
  }

  /** Setting one wallet changes that wallet only, and no wallet appears or vanishes. */
  lemma SetOne(b: Books, w: Wallet, units: int, other: Wallet)
    requires Exists(b, w)
    ensures var after := SetBalance(b, w, units);
            && Balance(after, other) == (if other == w then units else Balance(b, other))
            && Exists(after, other) == Exists(b, other)
  {
    var after := SetBalance(b, w, units);
    if other.Coins? || other.Cents? {
      SameIds(b.members, after.members, other.id);
    }
    if w.Coins? || w.Cents? {
      SameIds(b.members, after.members, w.id);
    }
  }

  lemma SetTwice(b: Books, w: Wallet, first: int, second: int)
    requires Exists(b, w)
    ensures Exists(SetBalance(b, w, first), w)
    ensures SetBalance(SetBalance(b, w, first), w, second) == SetBalance(b, w, second)
  {
    SetOne(b, w, first, w);
    if w.Coins? || w.Cents? {
      SameIds(b.members, SetBalance(b, w, first).members, w.id);
    }
  }

  lemma SetSame(b: Books, w: Wallet)
    requires Exists(b, w)
    ensures SetBalance(b, w, Balance(b, w)) == b
  {
  }

  /** Sets one wallet and then another, which may be the same one. */
  function SetBoth(b: Books, first: Wallet, debit: int, second: Wallet, credit: int): (after: Books)
    requires Exists(b, first) && Exists(b, second)
    ensures forall w :: Exists(after, w) == Exists(b, w)
  {
    SetBothEffect(b, first, debit, second, credit);
    SetBalance(SetBalance(b, first, debit), second, credit)
  }

  lemma SetBothEffect(b: Books, first: Wallet, debit: int, second: Wallet, credit: int)
    requires Exists(b, first) && Exists(b, second)
    ensures var paid := SetBalance(b, first, debit);
            && Exists(paid, second)
            && var after := SetBalance(paid, second, credit);
               && (forall w :: Exists(after, w) == Exists(b, w))
               && (forall w :: Balance(after, w) ==
                               if w == second then credit else if w == first then debit else Balance(b, w))
  {
    SetOne(b, first, debit, second);
    var paid := SetBalance(b, first, debit);
    var after := SetBalance(paid, second, credit);
    forall w
      ensures Exists(after, w) == Exists(b, w)
      ensures Balance(after, w) == if w == second then credit else if w == first then debit else Balance(b, w)
    {
      SetOne(b, first, debit, w);
      SetOne(paid, second, credit, w);
    }
  }

  lemma BothBalances(b: Books, first: Wallet, debit: int, second: Wallet, credit: int, w: Wallet)
    requires Exists(b, first) && Exists(b, second)
    ensures Balance(SetBoth(b, first, debit, second, credit), w) ==
            if w == second then credit else if w == first then debit else Balance(b, w)
  {
    SetBothEffect(b, first, debit, second, credit);
  }

  /** Takes the amount from one wallet and then puts it into the other. */
  function Transfer(b: Books, from: Wallet, to: Wallet, amount: int): (after: Books)
    requires Exists(b, from) && Exists(b, to)
    ensures forall w :: Exists(after, w) == Exists(b, w)
  {
    var debit := Balance(b, from) - amount;
    SetBoth(b, from, debit, to, Balance(SetBalance(b, from, debit), to) + amount)
  }

  lemma TransferBetween(b: Books, from: Wallet, to: Wallet, amount: int)
    requires Exists(b, from) && Exists(b, to) && from != to
    ensures Transfer(b, from, to, amount) == SetBoth(b, from, Balance(b, from) - amount, to, Balance(b, to) + amount)
  {
    SetOne(b, from, Balance(b, from) - amount, to);
  }

  lemma TransferToSelf(b: Books, w: Wallet, amount: int, debit: int)
    requires Exists(b, w)
    ensures Transfer(b, w, w, amount) == SetBoth(b, w, debit, w, Balance(b, w)) == b
  {
    var less := Balance(b, w) - amount;
    SetOne(b, w, less, w);
    SetTwice(b, w, less, Balance(b, w));
    SetTwice(b, w, debit, Balance(b, w));
    SetSame(b, w);
  }

  /** What moving an amount adds to a wallet. */
  function Change(from: Wallet, to: Wallet, amount: int, w: Wallet): (units: int) {
    (if w == to then amount else 0) - (if w == from then amount else 0)
  }

  lemma TransferEffect(b: Books, from: Wallet, to: Wallet, amount: int, w: Wallet)
    requires Exists(b, from) && Exists(b, to)
    ensures Balance(Transfer(b, from, to, amount), w) == Balance(b, w) + Change(from, to, amount, w)
  {
    if from == to {
      TransferToSelf(b, from, amount, 0);
    } else {
      TransferBetween(b, from, to, amount);
      BothBalances(b, from, Balance(b, from) - amount, to, Balance(b, to) + amount, w);
    }
  }

  // ----- one posting

  datatype Posting = Posting(from: nat, to: nat, amount: int, usd: bool)
  {
    function Payer(): (w: Wallet) { WalletOf(from, usd) }
    function Payee(): (w: Wallet) { WalletOf(to, usd) }
  }

  predicate Known(b: Books, p: Posting) {
    Exists(b, p.Payer()) && Exists(b, p.Payee())
  }

  /**
    The posting kernel in publication mode: the balances a posting leaves, no leg for an
    empty posting, or the reason it is refused. Funds were checked before; here only the
    limits of amounts and wallets are.
   */
  function Kernel(source: int, target: int, amount: int, usd: bool, sameWallet: bool)
    : (r: Result<Option<(int, int)>, Error>)
  {
    if amount == 0 then Ok(None)
    else if amount < 1 || amount > MAX_AMOUNT then Err(InvalidInput)
    else if sameWallet then if source != target then Err(InvalidInput) else Ok(Some((source, target)))
    else
      var debit, credit := source - amount, target + amount;
      if debit < -MAX_SEQUENCE || credit > MAX_SEQUENCE || (usd && (debit > MAX_SEQUENCE || credit < -MAX_SEQUENCE))
      then Err(Overflow)
      else Ok(Some((debit, credit)))
  }

  /** Posting straight away: the reference. */
  function Post(b: Books, p: Posting): (r: Result<Books, Error>)
    requires Known(b, p)
    ensures r.Ok? ==> forall w :: Exists(r.value, w) == Exists(b, w)
  {
    var k := Kernel(Balance(b, p.Payer()), Balance(b, p.Payee()), p.amount, p.usd, p.from == p.to);
    if k.Err? then Err(k.error)
    else if k.value.None? then Ok(b)
    else Ok(Transfer(b, p.Payer(), p.Payee(), p.amount))
  }

  predicate AllKnown(b: Books, postings: seq<Posting>) {
    forall i | 0 <= i < |postings| :: Known(b, postings[i])
  }

  function PostAll(b: Books, postings: seq<Posting>): (r: Result<Books, Error>)
    requires AllKnown(b, postings)
    decreases |postings|
  {
    if postings == [] then Ok(b)
    else
      var first := Post(b, postings[0]);
      if first.Err? then first else PostAll(first.value, postings[1..])
  }

  /** What all of some postings add to a wallet. */
  function NetChange(postings: seq<Posting>, w: Wallet): (units: int) {
    if postings == [] then 0
    else Change(postings[0].Payer(), postings[0].Payee(), postings[0].amount, w) + NetChange(postings[1..], w)
  }

  lemma {:induction false} PostAllEffect(b: Books, postings: seq<Posting>, w: Wallet)
    requires AllKnown(b, postings) && PostAll(b, postings).Ok?
    ensures Balance(PostAll(b, postings).value, w) == Balance(b, w) + NetChange(postings, w)
    decreases |postings|
  {
    if postings != [] {
      var p := postings[0];
      if p.amount != 0 {
        TransferEffect(b, p.Payer(), p.Payee(), p.amount, w);
      }
      PostAllEffect(Post(b, p).value, postings[1..], w);
    }
  }

  // ----- postings keep the members

  function Ids(members: seq<Member>): (ids: seq<nat>) {
    seq(|members|, i requires 0 <= i < |members| => members[i].id)
  }

  lemma SettingKeepsIds(b: Books, w: Wallet, units: int)
    requires Exists(b, w)
    ensures Ids(SetBalance(b, w, units).members) == Ids(b.members)
  {
  }

  lemma TransferKeepsIds(b: Books, from: Wallet, to: Wallet, amount: int)
    requires Exists(b, from) && Exists(b, to)
    ensures Ids(Transfer(b, from, to, amount).members) == Ids(b.members)
  {
    var debit := Balance(b, from) - amount;
    SetOne(b, from, debit, to);
    var paid := SetBalance(b, from, debit);
    SettingKeepsIds(b, from, debit);
    SettingKeepsIds(paid, to, Balance(paid, to) + amount);
  }

  /** No posting adds a member or changes a number. */
  lemma {:induction false} PostingsKeepIds(b: Books, postings: seq<Posting>)
    requires AllKnown(b, postings) && PostAll(b, postings).Ok?
    ensures Ids(PostAll(b, postings).value.members) == Ids(b.members)
    decreases |postings|
  {
    if postings != [] {
      var p := postings[0];
      if p.amount != 0 {
        TransferKeepsIds(b, p.Payer(), p.Payee(), p.amount);
      }
      PostingsKeepIds(Post(b, p).value, postings[1..]);
    }
  }

  // ----- the credit mask

  /** Marks or unmarks one member, bit by bit as the kernel does. */
  function CreditBit(mask: nat, id: nat, loan: bool): (next: nat)
  {
    if 1 <= id <= MEMBERS then
      BitByDivision(mask, id - 1);
      var isSet := mask / Pow2(id - 1) % 2 == 1;
      if loan && !isSet then mask + Pow2(id - 1)
      else if !loan && isSet then
        SubtractBit(mask, id - 1, 0);
        mask - Pow2(id - 1)
      else mask
    else mask
  }

  function NextMask(mask: nat, p: Posting, loan: bool): (next: nat) {
    if !p.usd && p.amount > 0 then CreditBit(CreditBit(mask, p.from, loan), p.to, loan) else mask
  }

  lemma {:induction false} CreditBitMeaning(mask: nat, id: nat, loan: bool, i: nat)
    ensures Bit(CreditBit(mask, id, loan), i) ==
            if 1 <= id <= MEMBERS && i == id - 1 then loan else Bit(mask, i)
  {
    if 1 <= id <= MEMBERS {
      BitByDivision(mask, id - 1);
      if !Bit(mask, id - 1) {
        AddBit(mask, id - 1, i);
      } else {
        SubtractBit(mask, id - 1, i);
      }
    }
  }

  predicate Touches(p: Posting, id: nat) {
    !p.usd && p.amount > 0 && (p.from == id || p.to == id)
  }

  function MaskAfter(mask: nat, postings: seq<Posting>, loan: bool): (next: nat)
    decreases |postings|
  {
    if postings == [] then mask else MaskAfter(NextMask(mask, postings[0], loan), postings[1..], loan)
  }

  /** After an event a member's credit is blocked if a loan moved its coins, free if anything else did. */
  lemma {:induction false} MaskMeaning(mask: nat, postings: seq<Posting>, loan: bool, id: nat)
    requires 1 <= id <= MEMBERS
    ensures Bit(MaskAfter(mask, postings, loan), id - 1) ==
            if exists i | 0 <= i < |postings| :: Touches(postings[i], id) then loan else Bit(mask, id - 1)
    decreases |postings|
  {
    if postings != [] {
      var p := postings[0];
      MaskMeaning(NextMask(mask, p, loan), postings[1..], loan, id);
      CreditBitMeaning(mask, p.from, loan, id - 1);
      CreditBitMeaning(CreditBit(mask, p.from, loan), p.to, loan, id - 1);
      if exists i | 0 <= i < |postings| :: Touches(postings[i], id) {
        var i :| 0 <= i < |postings| && Touches(postings[i], id);
        assert i == 0 || Touches(postings[1..][i - 1], id);
      }
      if exists i | 0 <= i < |postings[1..]| :: Touches(postings[1..][i], id) {
        var i :| 0 <= i < |postings[1..]| && Touches(postings[1..][i], id);
        assert Touches(postings[i + 1], id);
      }
    }
  }

  // ----- planning

  datatype Leg = Leg(posting: Posting, debit: int, credit: int, mask: nat)

  /** A balance as the planned legs of the same currency leave it, the latest one last. */
  function Overlay(b: Books, legs: seq<Leg>, id: nat, usd: bool): (units: int) {
    if legs == [] then Balance(b, WalletOf(id, usd))
    else
      var leg := legs[|legs| - 1];
      if leg.posting.usd == usd && leg.posting.to == id then leg.credit
      else if leg.posting.usd == usd && leg.posting.from == id then leg.debit
      else Overlay(b, legs[..|legs| - 1], id, usd)
  }

  function LastMask(mask: nat, legs: seq<Leg>): (last: nat) {
    if legs == [] then mask else legs[|legs| - 1].mask
  }

  function PlanLeg(b: Books, mask: nat, loan: bool, legs: seq<Leg>, p: Posting): (r: Result<seq<Leg>, Error>) {
    var k := Kernel(Overlay(b, legs, p.from, p.usd), Overlay(b, legs, p.to, p.usd), p.amount, p.usd, p.from == p.to);
    if k.Err? then Err(k.error)
    else if k.value.None? then Ok(legs)
    else if |legs| == LEGS then Err(Capacity)
    else Ok(legs + [Leg(p, k.value.value.0, k.value.value.1, NextMask(LastMask(mask, legs), p, loan))])
  }

  function PlanAll(b: Books, mask: nat, loan: bool, legs: seq<Leg>, postings: seq<Posting>)
    : (r: Result<seq<Leg>, Error>)
    decreases |postings|
  {
    if postings == [] then Ok(legs)
    else
      var first := PlanLeg(b, mask, loan, legs, postings[0]);
      if first.Err? then first else PlanAll(b, mask, loan, first.value, postings[1..])
  }

  /** Overwrites both wallets of a leg. */
  function Install(b: Books, leg: Leg): (after: Books)
    requires Known(b, leg.posting)
    ensures forall w :: Exists(after, w) == Exists(b, w)
  {
    SetBoth(b, leg.posting.Payer(), leg.debit, leg.posting.Payee(), leg.credit)
  }

  predicate LegsKnown(b: Books, legs: seq<Leg>) {
    forall i | 0 <= i < |legs| :: Known(b, legs[i].posting)
  }

  function InstallAll(b: Books, legs: seq<Leg>): (after: Books)
    requires LegsKnown(b, legs)
    ensures forall w :: Exists(after, w) == Exists(b, w)
  {
    if legs == [] then b
    else
      var before := InstallAll(b, legs[..|legs| - 1]);
      Install(before, legs[|legs| - 1])
  }

  lemma {:induction false} InstallOneMore(b: Books, legs: seq<Leg>, leg: Leg)
    requires LegsKnown(b, legs) && Known(b, leg.posting)
    ensures LegsKnown(b, legs + [leg])
    ensures InstallAll(b, legs + [leg]) == Install(InstallAll(b, legs), leg)
  {
    assert (legs + [leg])[..|legs|] == legs;
  }

  // ----- one wallet for two currencies

  /** Two postings in different currencies, where the later one reads an escrow that the earlier one changes. */
  predicate MeetInEscrow(p: Posting, q: Posting) {
    && p.usd != q.usd
    && p.amount != 0 && p.from != p.to && (p.from == ESCROW || p.to == ESCROW)
    && q.amount != 0 && (q.from == ESCROW || q.to == ESCROW)
  }

  predicate NoneMeet(postings: seq<Posting>) {
    forall i, j | 0 <= i < j < |postings| :: !MeetInEscrow(postings[i], postings[j])
  }

  predicate MeetNone(legs: seq<Leg>, p: Posting) {
    forall i | 0 <= i < |legs| :: !MeetInEscrow(legs[i].posting, p)
  }

  // ----- a plan against posting

  /** The balances of a leg are the ones its posting leaves. */
  predicate Settles(b: Books, leg: Leg) {
    var p := leg.posting;
    if p.from == p.to then leg.debit == leg.credit == Balance(b, p.Payer())
    else leg.debit == Balance(b, p.Payer()) - p.amount && leg.credit == Balance(b, p.Payee()) + p.amount
  }

  lemma SetIsTransfer(b: Books, from: Wallet, to: Wallet, amount: int, debit: int, credit: int)
    requires Exists(b, from) && Exists(b, to)
    requires if from == to then debit == credit == Balance(b, from)
             else debit == Balance(b, from) - amount && credit == Balance(b, to) + amount
    ensures SetBoth(b, from, debit, to, credit) == Transfer(b, from, to, amount)
  {
    if from == to {
      TransferToSelf(b, from, amount, debit);
    } else {
      TransferBetween(b, from, to, amount);
    }
  }

  lemma OneCurrencyWallets(p: Posting)
    ensures p.Payer() == p.Payee() <==> p.from == p.to
  {
  }

  /** Overwriting with such balances is the same as moving the amount. */
  lemma InstallIsTransfer(b: Books, leg: Leg)
    requires Known(b, leg.posting) && Settles(b, leg)
    ensures Install(b, leg) == Transfer(b, leg.posting.Payer(), leg.posting.Payee(), leg.posting.amount)
  {
    var p := leg.posting;
    OneCurrencyWallets(p);
    SetIsTransfer(b, p.Payer(), p.Payee(), p.amount, leg.debit, leg.credit);
  }

  /** Every leg leaves what its posting leaves, after the legs before it. */
  predicate AllSettle(b: Books, legs: seq<Leg>) {
    && LegsKnown(b, legs)
    && (legs != [] ==>
          var before, leg := legs[..|legs| - 1], legs[|legs| - 1];
          AllSettle(b, before) && leg.posting.amount != 0 && Settles(InstallAll(b, before), leg))
  }

  lemma {:induction false} SettleOneMore(b: Books, legs: seq<Leg>, leg: Leg)
    requires AllSettle(b, legs) && Known(b, leg.posting)
    requires leg.posting.amount != 0 && Settles(InstallAll(b, legs), leg)
    ensures AllSettle(b, legs + [leg])
  {
    assert (legs + [leg])[..|legs|] == legs;
  }

  lemma WalletsOfParties(id: nat, usd: bool, p: Posting)
    requires p.usd == usd || id != ESCROW
    ensures WalletOf(id, usd) == p.Payer() <==> id == p.from && p.usd == usd
    ensures WalletOf(id, usd) == p.Payee() <==> id == p.to && p.usd == usd
  {
  }

  /** What one settled leg leaves in a wallet that it does not show under another currency. */
  lemma LegLeaves(now: Books, leg: Leg, id: nat, usd: bool)
    requires Known(now, leg.posting) && Settles(now, leg) && leg.posting.amount != 0
    requires id == ESCROW ==> !MovesUnseen(leg.posting, usd)
    ensures Balance(Install(now, leg), WalletOf(id, usd)) ==
            if leg.posting.usd == usd && leg.posting.to == id then leg.credit
            else if leg.posting.usd == usd && leg.posting.from == id then leg.debit
            else Balance(now, WalletOf(id, usd))
  {
    var p, w := leg.posting, WalletOf(id, usd);
    if p.usd == usd || id != ESCROW {
      WalletsOfParties(id, usd, p);
      BothBalances(now, p.Payer(), leg.debit, p.Payee(), leg.credit, w);
    } else {
      InstallIsTransfer(now, leg);
      TransferEffect(now, p.Payer(), p.Payee(), p.amount, w);
      EscrowUnmoved(p);
    }
  }

  /** A posting in one currency that changes the escrow seen in the other. */
  predicate MovesUnseen(p: Posting, usd: bool) {
    p.usd != usd && p.from != p.to && (p.from == ESCROW || p.to == ESCROW)
  }

  lemma EscrowUnmoved(p: Posting)
    requires p.from == p.to || (p.from != ESCROW && p.to != ESCROW)
    ensures Change(p.Payer(), p.Payee(), p.amount, Escrow) == 0
  {
  }

  /** The overlay shows exactly what installing the legs so far would leave. */
  lemma {:induction false} OverlayIsInstalled(b: Books, legs: seq<Leg>, id: nat, usd: bool)
    requires AllSettle(b, legs)
    requires id == ESCROW ==> forall i | 0 <= i < |legs| :: !MovesUnseen(legs[i].posting, usd)
    ensures Overlay(b, legs, id, usd) == Balance(InstallAll(b, legs), WalletOf(id, usd))
  {
    if legs != [] {
      var before, leg := legs[..|legs| - 1], legs[|legs| - 1];
      OverlayIsInstalled(b, before, id, usd);
      LegLeaves(InstallAll(b, before), leg, id, usd);
    }
  }

  /** What planning one more posting does to the plan, when every overlay it reads is right. */
  lemma {:induction false} PlannedLeg(b: Books, mask: nat, loan: bool, legs: seq<Leg>, p: Posting, now: Books)
    requires LegsKnown(b, legs) && InstallAll(b, legs) == now && Known(now, p) && |legs| < LEGS
    requires p.amount != 0
    requires Overlay(b, legs, p.from, p.usd) == Balance(now, p.Payer())
    requires Overlay(b, legs, p.to, p.usd) == Balance(now, p.Payee())
    ensures var planned, posted := PlanLeg(b, mask, loan, legs, p), Post(now, p);
            if posted.Err? then planned == Err(posted.error)
            else
              && planned.Ok? && |planned.value| == |legs| + 1
              && planned.value == legs + [planned.value[|legs|]]
              && planned.value[|legs|].posting == p
              && Settles(now, planned.value[|legs|])
              && posted.value == Transfer(now, p.Payer(), p.Payee(), p.amount)
              && planned.value[|legs|].mask == NextMask(LastMask(mask, legs), p, loan)
  {
  }

  lemma {:induction false} EmptyLeg(b: Books, now: Books, mask: nat, loan: bool, legs: seq<Leg>, p: Posting)
    requires p.amount == 0 && Known(now, p)
    ensures PlanLeg(b, mask, loan, legs, p) == Ok(legs) && Post(now, p) == Ok(now)
    ensures NextMask(mask, p, loan) == mask
  {
  }

  /** A posting that moves something adds its leg to the plan. */
  lemma {:induction false} MovingStep(b: Books, mask: nat, loan: bool, legs: seq<Leg>, p: Posting)
    requires AllSettle(b, legs) && Known(b, p) && MeetNone(legs, p) && |legs| < LEGS && p.amount != 0
    ensures var planned, posted := PlanLeg(b, mask, loan, legs, p), Post(InstallAll(b, legs), p);
            if posted.Err? then planned == Err(posted.error)
            else
              && planned.Ok? && |planned.value| == |legs| + 1
              && planned.value == legs + [planned.value[|legs|]]
              && planned.value[|legs|].posting == p
              && AllSettle(b, planned.value)
              && InstallAll(b, planned.value) == posted.value
              && LastMask(mask, planned.value) == NextMask(LastMask(mask, legs), p, loan)
  {
    var now := InstallAll(b, legs);
    OverlayIsInstalled(b, legs, p.from, p.usd);
    OverlayIsInstalled(b, legs, p.to, p.usd);
    PlannedLeg(b, mask, loan, legs, p, now);
    if Post(now, p).Ok? {
      var leg := PlanLeg(b, mask, loan, legs, p).value[|legs|];
      InstallIsTransfer(now, leg);
      InstallOneMore(b, legs, leg);
      SettleOneMore(b, legs, leg);
    }
  }

  lemma {:induction false} StepRefines(b: Books, mask: nat, loan: bool, legs: seq<Leg>, p: Posting)
    requires AllSettle(b, legs) && Known(b, p) && MeetNone(legs, p) && |legs| < LEGS
    ensures var planned, posted := PlanLeg(b, mask, loan, legs, p), Post(InstallAll(b, legs), p);
            if posted.Err? then planned == Err(posted.error)
            else
              && planned.Ok?
              && legs <= planned.value && |planned.value| <= |legs| + 1
              && (|planned.value| == |legs| + 1 ==> planned.value[|legs|].posting == p)
              && AllSettle(b, planned.value)
              && InstallAll(b, planned.value) == posted.value
              && LastMask(mask, planned.value) == NextMask(LastMask(mask, legs), p, loan)
  {
    if p.amount == 0 {
      EmptyLeg(b, InstallAll(b, legs), LastMask(mask, legs), loan, legs, p);
      EmptyLeg(b, InstallAll(b, legs), mask, loan, legs, p);
    } else {
      MovingStep(b, mask, loan, legs, p);
    }
  }

  /**
    The main result: as long as no two postings meet in escrow, planning the postings of an
    event and then installing the plan leaves the same books and the same credit mask as
    posting one after another, and planning is refused exactly when, and for the reason
    that, posting would be.
   */
  lemma {:induction false} PlanRefinesPosting(b: Books, mask: nat, loan: bool, legs: seq<Leg>, postings: seq<Posting>)
    requires AllSettle(b, legs) && AllKnown(b, postings)
    requires NoneMeet(postings) && forall i | 0 <= i < |postings| :: MeetNone(legs, postings[i])
    requires |legs| + |postings| <= LEGS
    ensures AllKnown(InstallAll(b, legs), postings)
    ensures var plan, posted := PlanAll(b, mask, loan, legs, postings), PostAll(InstallAll(b, legs), postings);
            if posted.Err? then plan == Err(posted.error)
            else
              && plan.Ok?
              && LegsKnown(b, plan.value)
              && InstallAll(b, plan.value) == posted.value
              && LastMask(mask, plan.value) == MaskAfter(LastMask(mask, legs), postings, loan)
    decreases |postings|
  {
    if postings != [] {
      StepRefines(b, mask, loan, legs, postings[0]);
      var first := PlanLeg(b, mask, loan, legs, postings[0]);
      if first.Ok? {
        RestMeetsNone(legs, first.value, postings);
        PlanRefinesPosting(b, mask, loan, first.value, postings[1..]);
      }
    }
  }

  lemma {:induction false} RestMeetsNone(legs: seq<Leg>, more: seq<Leg>, postings: seq<Posting>)
    requires postings != [] && NoneMeet(postings) && forall i | 0 <= i < |postings| :: MeetNone(legs, postings[i])
    requires legs <= more && |more| <= |legs| + 1
    requires |more| == |legs| + 1 ==> more[|legs|].posting == postings[0]
    ensures NoneMeet(postings[1..])
    ensures forall i | 0 <= i < |postings[1..]| :: MeetNone(more, postings[1..][i])
  {
    var rest := postings[1..];
    forall i | 0 <= i < |rest|
      ensures MeetNone(more, rest[i])
    {
      assert rest[i] == postings[i + 1];
      assert MeetNone(legs, postings[i + 1]) && !MeetInEscrow(postings[0], postings[i + 1]);
    }
  }

  // ----- dollars and escrow

  /** Escrow holds coins: a dollar posting never touches it. */
  predicate KeepsEscrow(p: Posting) {
    p.usd ==> p.from != ESCROW && p.to != ESCROW
  }

  predicate AllKeepEscrow(postings: seq<Posting>) {
    forall i | 0 <= i < |postings| :: KeepsEscrow(postings[i])
  }

  /** Where escrow holds coins only, no two postings meet in it. */
  lemma KeepingEscrowMeetsNone(postings: seq<Posting>)
    requires AllKeepEscrow(postings)
    ensures NoneMeet(postings)
  {
    forall i, j | 0 <= i < j < |postings|
      ensures !MeetInEscrow(postings[i], postings[j])
    {
      assert KeepsEscrow(postings[i]) && KeepsEscrow(postings[j]);
    }
  }

  // ----- planning before a member exists

  ghost predicate SameBalances(a: Books, b: Books) {
    forall w :: Balance(a, w) == Balance(b, w)
  }

  lemma {:induction false} SameOverlay(a: Books, b: Books, legs: seq<Leg>, id: nat, usd: bool)
    requires SameBalances(a, b)
    ensures Overlay(a, legs, id, usd) == Overlay(b, legs, id, usd)
  {
    if legs != [] {
      SameOverlay(a, b, legs[..|legs| - 1], id, usd);
    }
  }

  /** A plan depends on balances alone, so it may be made before a member is added with nothing. */
  lemma {:induction false} SamePlan(
    a: Books, b: Books, mask: nat, loan: bool, legs: seq<Leg>, postings: seq<Posting>)
    requires SameBalances(a, b)
    ensures PlanAll(a, mask, loan, legs, postings) == PlanAll(b, mask, loan, legs, postings)
    decreases |postings|
  {
    if postings != [] {
      SameOverlay(a, b, legs, postings[0].from, postings[0].usd);
      SameOverlay(a, b, legs, postings[0].to, postings[0].usd);
      var first := PlanLeg(a, mask, loan, legs, postings[0]);
      if first.Ok? {
        SamePlan(a, b, mask, loan, first.value, postings[1..]);
      }
    }
  }

  lemma {:induction false} NewMemberHasNothing(b: Books, id: nat)
    requires Find(b.members, id) == |b.members|
    ensures SameBalances(b, b.(members := b.members + [Member(id, 0, 0)]))
  {
    var after := b.(members := b.members + [Member(id, 0, 0)]);
    forall w
      ensures Balance(b, w) == Balance(after, w)
    {
      if w.Coins? || w.Cents? {
        var i := Find(b.members, w.id);
        if i < |b.members| {
          FindIsFirst(after.members, w.id, i);
        } else if w.id == id {
          FindIsFirst(after.members, w.id, |b.members|);
        } else {
          FindIsFirst(after.members, w.id, |after.members|);
        }
      }
    }
  }

  // ----- exactly when the overlay is enough

  /** Planning and installing does what posting does: the same refusal, or the same books and mask. */
  ghost predicate Agrees(b: Books, mask: nat, loan: bool, postings: seq<Posting>)
    requires AllKnown(b, postings)
  {
    var plan, posted := PlanAll(b, mask, loan, [], postings), PostAll(b, postings);
    if posted.Err? then plan == Err(posted.error)
    else
      && plan.Ok?
      && LegsKnown(b, plan.value)
      && InstallAll(b, plan.value) == posted.value
      && LastMask(mask, plan.value) == MaskAfter(mask, postings, loan)
  }

  predicate BothRefuse(b: Books, mask: nat, loan: bool, postings: seq<Posting>)
    requires AllKnown(b, postings)
  {
    PlanAll(b, mask, loan, [], postings).Err? && PostAll(b, postings).Err?
  }

  /** Any postings of which no two meet in escrow. */
  lemma {:induction false} NoneMeetAgrees(b: Books, mask: nat, loan: bool, postings: seq<Posting>)
    requires AllKnown(b, postings) && NoneMeet(postings) && |postings| <= LEGS
    ensures Agrees(b, mask, loan, postings)
  {
    PlanRefinesPosting(b, mask, loan, [], postings);
  }

  /**
    The overlay compares currencies, but escrow is one wallet for both. Planning two
    postings does what posting them does exactly when they do not meet in escrow, or when
    both ways refuse them anyway.
   */
  lemma {:induction false} TwoPostingsAgree(b: Books, mask: nat, loan: bool, p: Posting, q: Posting)
    requires AllKnown(b, [p, q])
    ensures Agrees(b, mask, loan, [p, q]) <==> !MeetInEscrow(p, q) || BothRefuse(b, mask, loan, [p, q])
  {
    if MeetInEscrow(p, q) {
      TwoSteps(b, mask, loan, p, q);
      assert Known(b, [p, q][0]) && Known(b, [p, q][1]);
      StepRefines(b, mask, loan, [], p);
      if Post(b, p).Ok? {
        var legs := PlanLeg(b, mask, loan, [], p).value;
        var planned, posted := PlanLeg(b, mask, loan, legs, q), Post(Post(b, p).value, q);
        assert legs == [legs[0]];
        if planned.Ok? && posted.Ok? {
          StaleLegDiffers(b, mask, loan, legs, p, q);
        } else if planned.Err? && posted.Err? {
          SameRefusal(b, mask, loan, legs, q, Post(b, p).value);
        }
      }
    } else {
      assert NoneMeet([p, q]);
      NoneMeetAgrees(b, mask, loan, [p, q]);
    }
  }

  lemma {:induction false} TwoSteps(b: Books, mask: nat, loan: bool, p: Posting, q: Posting)
    requires AllKnown(b, [p, q])
    ensures Known(b, p) && Known(b, q)
    ensures var first := PlanLeg(b, mask, loan, [], p);
            PlanAll(b, mask, loan, [], [p, q]) == if first.Err? then first else PlanLeg(b, mask, loan, first.value, q)
    ensures PostAll(b, [p, q]) == if Post(b, p).Err? then Post(b, p) else Post(Post(b, p).value, q)
  {
    assert Known(b, [p, q][0]) && Known(b, [p, q][1]);
    assert [p, q][1..] == [q] && [q][1..] == [];
    var first := PlanLeg(b, mask, loan, [], p);
    if first.Ok? {
      assert PlanAll(b, mask, loan, first.value, [q]) == PlanLeg(b, mask, loan, first.value, q);
    }
    if Post(b, p).Ok? {
      assert PostAll(Post(b, p).value, [q]) == Post(Post(b, p).value, q);
    }
  }

  /** The limits refuse a stale leg and a fresh one for the same reason. */
  lemma {:induction false} SameRefusal(b: Books, mask: nat, loan: bool, legs: seq<Leg>, q: Posting, now: Books)
    requires Known(now, q) && |legs| < LEGS
    requires PlanLeg(b, mask, loan, legs, q).Err? && Post(now, q).Err?
    ensures PlanLeg(b, mask, loan, legs, q).error == Post(now, q).error
  {
  }

  lemma {:induction false} PlannedBalances(b: Books, mask: nat, loan: bool, legs: seq<Leg>, q: Posting)
    requires PlanLeg(b, mask, loan, legs, q).Ok? && q.amount != 0
    ensures var plan := PlanLeg(b, mask, loan, legs, q).value;
            && |plan| == |legs| + 1 && plan == legs + [plan[|legs|]] && plan[|legs|].posting == q
            && var source, target := Overlay(b, legs, q.from, q.usd), Overlay(b, legs, q.to, q.usd);
               if q.from == q.to then plan[|legs|].debit == plan[|legs|].credit == source
               else plan[|legs|].debit == source - q.amount && plan[|legs|].credit == target + q.amount
  {
  }

  /** The overlay of the other currency still shows the escrow that was there before. */
  lemma {:induction false} StaleOverlay(b: Books, leg: Leg, q: Posting)
    requires MeetInEscrow(leg.posting, q)
    ensures Overlay(b, [leg], ESCROW, q.usd) == Balance(b, Escrow)
  {
    assert [leg][..0] == [];
    assert Overlay(b, [], ESCROW, q.usd) == Balance(b, Escrow);
  }

  lemma EscrowMoves(b: Books, p: Posting, q: Posting)
    requires MeetInEscrow(p, q) && Known(b, p)
    ensures Balance(Transfer(b, p.Payer(), p.Payee(), p.amount), Escrow) != Balance(b, Escrow)
  {
    TransferEffect(b, p.Payer(), p.Payee(), p.amount, Escrow);
  }

  /** A leg planned from a stale escrow balance leaves escrow wrong by the difference. */
  lemma EscrowForgotten(stale: int, now: Books, q: Posting, leg: Leg)
    requires Known(now, q) && leg.posting == q && (q.from == ESCROW || q.to == ESCROW)
    requires stale != Balance(now, Escrow)
    requires q.from == q.to ==> leg.debit == leg.credit == stale
    requires q.from != q.to && q.from == ESCROW ==> leg.debit == stale - q.amount
    requires q.from != q.to && q.to == ESCROW ==> leg.credit == stale + q.amount
    ensures Install(now, leg) != Transfer(now, q.Payer(), q.Payee(), q.amount)
  {
    TransferEffect(now, q.Payer(), q.Payee(), q.amount, Escrow);
    BothBalances(now, q.Payer(), leg.debit, q.Payee(), leg.credit, Escrow);
  }

  /** The second leg's balances start from the escrow that was there before the first. */
  lemma {:induction false} StaleLeg(b: Books, mask: nat, loan: bool, first: Leg, q: Posting)
    requires MeetInEscrow(first.posting, q) && PlanLeg(b, mask, loan, [first], q).Ok?
    ensures var plan, stale := PlanLeg(b, mask, loan, [first], q).value, Balance(b, Escrow);
            && |plan| == 2 && plan == [first] + [plan[1]] && plan[1].posting == q
            && (q.from == q.to ==> plan[1].debit == plan[1].credit == stale)
            && (q.from != q.to && q.from == ESCROW ==> plan[1].debit == stale - q.amount)
            && (q.from != q.to && q.to == ESCROW ==> plan[1].credit == stale + q.amount)
  {
    StaleOverlay(b, first, q);
    PlannedBalances(b, mask, loan, [first], q);
  }

  lemma {:induction false} StaleLegDiffers(b: Books, mask: nat, loan: bool, legs: seq<Leg>, p: Posting, q: Posting)
    requires MeetInEscrow(p, q) && Known(b, p) && Known(b, q) && Post(b, p).Ok?
    requires |legs| == 1 && legs[0].posting == p && LegsKnown(b, legs) && InstallAll(b, legs) == Post(b, p).value
    requires PlanLeg(b, mask, loan, legs, q).Ok? && Post(Post(b, p).value, q).Ok?
    ensures var plan := PlanLeg(b, mask, loan, legs, q).value;
            LegsKnown(b, plan) && InstallAll(b, plan) != Post(Post(b, p).value, q).value
  {
    assert legs == [legs[0]];
    StaleLeg(b, mask, loan, legs[0], q);
    EscrowMoves(b, p, q);
    var leg := PlanLeg(b, mask, loan, legs, q).value[1];
    EscrowForgotten(Balance(b, Escrow), Post(b, p).value, q, leg);
    InstallOneMore(b, legs, leg);
  }

  predicate InRange(p: Posting) {
    1 <= p.amount <= MAX_AMOUNT
  }

  /** Empty books with a member for every party that could be one. */
  function EmptyBooks(p: Posting, q: Posting): (b: Books) {
    Books(0, 0, 0, [Member(p.from, 0, 0), Member(p.to, 0, 0), Member(q.from, 0, 0), Member(q.to, 0, 0)])
  }

  lemma EmptyBooksKnow(p: Posting, q: Posting)
    ensures Known(EmptyBooks(p, q), p) && Known(EmptyBooks(p, q), q)
    ensures forall w :: Balance(EmptyBooks(p, q), w) == 0
  {
    var members := EmptyBooks(p, q).members;
    assert members[0].id == p.from && members[1].id == p.to && members[2].id == q.from && members[3].id == q.to;
  }

  /** Whether the balances of both parties may change by the amount, from balances given. */
  predicate Fits(source: int, target: int, p: Posting) {
    p.from == p.to || Kernel(source, target, p.amount, p.usd, false).Ok?
  }

  lemma PostsWhenFits(b: Books, p: Posting)
    requires Known(b, p) && InRange(p) && Fits(Balance(b, p.Payer()), Balance(b, p.Payee()), p)
    ensures Post(b, p) == Ok(Transfer(b, p.Payer(), p.Payee(), p.amount))
  {
  }

  lemma {:induction false} OneThenOther(b: Books, p: Posting, q: Posting)
    requires Known(b, p) && Known(b, q) && Post(b, p).Ok? && Post(Post(b, p).value, q).Ok?
    ensures AllKnown(b, [p, q]) && PostAll(b, [p, q]).Ok?
  {
    assert AllKnown(b, [p, q]);
    TwoSteps(b, 0, false, p, q);
  }

  /** When a second posting is accepted after a first, told from the balances before either. */
  lemma {:induction false} BothPosted(b: Books, p: Posting, q: Posting)
    requires Known(b, p) && Known(b, q) && InRange(p) && InRange(q)
    requires Fits(Balance(b, p.Payer()), Balance(b, p.Payee()), p)
    requires Fits(Balance(b, q.Payer()) + Change(p.Payer(), p.Payee(), p.amount, q.Payer()),
                  Balance(b, q.Payee()) + Change(p.Payer(), p.Payee(), p.amount, q.Payee()), q)
    ensures AllKnown(b, [p, q]) && PostAll(b, [p, q]).Ok?
  {
    PostsWhenFits(b, p);
    var after := Post(b, p).value;
    TransferEffect(b, p.Payer(), p.Payee(), p.amount, q.Payer());
    TransferEffect(b, p.Payer(), p.Payee(), p.amount, q.Payee());
    PostsWhenFits(after, q);
    OneThenOther(b, p, q);
  }

  /** An amount that moves something but is out of range is refused either way. */
  lemma {:induction false} OutOfRange(b: Books, mask: nat, loan: bool, p: Posting, q: Posting)
    requires AllKnown(b, [p, q]) && p.amount != 0 && q.amount != 0 && !(InRange(p) && InRange(q))
    ensures BothRefuse(b, mask, loan, [p, q])
  {
    TwoSteps(b, mask, loan, p, q);
  }

  /**
    What a caller can tell from two postings alone: on all books that know their parties,
    planning does what posting does, exactly when the two do not meet in escrow or an
    amount is outside the range that either way accepts.
   */
  lemma {:induction false} AgreeOnAllBooks(mask: nat, loan: bool, p: Posting, q: Posting)
    ensures (forall b | AllKnown(b, [p, q]) :: Agrees(b, mask, loan, [p, q])) <==>
            !(MeetInEscrow(p, q) && InRange(p) && InRange(q))
  {
    if MeetInEscrow(p, q) && InRange(p) && InRange(q) {
      EmptyBooksKnow(p, q);
      BothPosted(EmptyBooks(p, q), p, q);
      TwoPostingsAgree(EmptyBooks(p, q), mask, loan, p, q);
    } else {
      forall b | AllKnown(b, [p, q])
        ensures Agrees(b, mask, loan, [p, q])
      {
        TwoPostingsAgree(b, mask, loan, p, q);
        if MeetInEscrow(p, q) {
          OutOfRange(b, mask, loan, p, q);
        }
      }
    }
  }
}
