# NanaCoin core, modelled and proved

NanaCoin is a small household bank on a microcontroller: accounts in a coin and in
dollars, gifts, digital art, sign-in, and a status light that blinks a phrase. This
project models the parts of the Rust service (and of the COBOL banking kernel behind it)
whose correctness rests on a loop or on a whole run, and proves what they promise.

| files | subject |
|---|---|
| `Morse`, `Signal`, `Light` | the status light: a phrase becomes timed marks, three patterns take turns, and a receiver reads the phrase back (ITU-R M.1677-1, Annex 1, Part I, section 2, for the timing) |
| `Unicode`, `Json` | the in-place rewrite of surrogate escapes before a single-escape JSON reader (section 7 of RFC 8259, section 2.2 of RFC 2781, section 3 of RFC 3629) |
| `Posting`, `Publishing`, `Events`, `EventRuns`, `Acceptance` | planning the postings of an event through an overlay, and applying the plan by overwriting, against posting one after another; the validation of every event that moves money, runs of them, and exactly which are accepted |
| `Selection`, `Bits`, `Equipment` | orderings and masks computed chunk by chunk through a frame of 64 numbers, against a plain sort, minimum or loop over the whole table |
| `Money`, `Commerce`, `CommerceSafety`, `Gifts`, `GiftRuns`, `Revisions`, `Totals`, `Rights`, `Shop` | gift requests and artworks: validation, application, refunds, reversals, currency reforms, and runs of all of them; `Rights` says who may do what; `Shop` is the state updated in place |
| `Login`, `LoginRuns`, `Lockout`, `LockoutGap`, `SignInRules`, `LoginTables` | sign-in codes, sessions and failed attempts over any run (sections 4.2 and 4.6 of RFC 7636, sections 4.1.2 and 4.1.3 of RFC 6749); `SignInRules` spells out every answer; `LoginTables` is the arrays updated in place |
| `Schedule` | catching up on a schedule within a budget |
| `Numerals`, `Decimal`, `AccountNames` | exact decimal quantities and the names of accounts and records |
| `Options`, `Limits`, `Text`, `Collections`, `Division` | shared datatypes, limits and helpers |

Each operation that the source performs in place is a method proved against a function of
the old state; the theorems are lemmas about those functions. An assertion, `unwrap` or
`expect` of the source is an absent result of the function, so that "applies" means that
none of them trips.

## What the proofs found

The code is modelled as it stands. Where a property one would expect does not hold, the
project states exactly when it does.

- **Escrow and currencies.** The overlay compares the currency of a leg, but escrow is one
  wallet for both. Planning two postings does what posting them does exactly when they do not
  meet in escrow in different currencies, or when both ways refuse them anyway
  (`Posting.TwoPostingsAgree`, with `Events.StaleEscrow` for the difference). Told from the
  two postings alone: on all books that know their parties it does so exactly when they do
  not so meet with both amounts in range (`Posting.AgreeOnAllBooks`). And a posting keeps
  both sums exactly when it does not move dollars between escrow and another kind of wallet
  (`Publishing.PostingConserves`).
- **Empty postings.** Applying a plan trips the assertion on an empty cash plan exactly when
  an empty posting comes before one that moves something (`Publishing.ApplyingTrips`, with
  `Events.EmptyFirst` for a case).
- **Neither can happen today.** The source promises that mutation is infallible after
  validation (`nanacoin_rs/src/domain.rs:1417-1418`). Validation lets no event through that
  plans such postings, and planning postings refuses nothing that validation let through
  (`Events.ValidatedIsPosted`, `Events.EventIsPosted`). That holds over every run, where a
  correction takes its parties and its currency from what an earlier event recorded
  (`EventRuns.RunIsPosted`). The two exact conditions say what a new kind of event must not
  plan.
- **Who can be overdrawn.** Over any run only a correction that may overdraw, or an accepted
  offer undone, takes from a member what the member does not have
  (`Acceptance.OverdrawnByCorrection`, `Acceptance.NobodyEverOwes`).
- **Revisions and reforms.** The comment on an artwork's revision says that it changes on
  every listing mutation. A currency reform keeps every revision
  (`Revisions.ReformKeepsRevisions`) and rewrites a listed price whenever it moves the
  decimal point (`Revisions.ReformRewritesPrice`, with a case in `Revisions.ReformedListing`);
  over a run, a listed price at an unchanged revision is unchanged exactly when the reforms
  in between moved the point by nothing (`Revisions.RevisionAndPrice`). A purchase still
  finds what was read (`Revisions.PurchaseFindsWhatWasRead`), because it also names the price.
- **Lockout and eviction.** A name's entry can be evicted in the middle of its five
  failures, and the count then starts again. Only the other names that failed *since the
  first* of the five rule this out, not those since the last:
  `LockoutGap.EvictionRestartsTheCount` gives a run, and `Lockout.BlockedExactly` says for
  every run exactly when a name is blocked.
- **Names of accounts.** A printed account name is read back exactly when the account is not
  the lotto escrow, whose printed name is not read at all although `account-255` is read as
  that account; and reading accepts any text that parses as the number, a plus sign before it
  for one, that printing never writes (`AccountNames.AccountRoundTrip`,
  `AccountNames.OtherNames`, `AccountNames.ReadsAccount`).
- **Unknown listing status.** The kernel's listing view refuses an unknown status
  (`Selection.ListingView`), where the plain filter would keep no row. What the HTTP layer
  makes of it is not part of this model.

## Modelling choices

- Integers are unbounded; the source's widths are written out where they decide a result:
  the sixteen bits of a light mark, the 64-bit running sums, the saturating clock sums, the
  32-bit quantity, the limits of amounts and wallets.
- Posting, selection and equipment follow the build with the kernel, whose source is
  `nanacoin_rs/cobol/bank.cob`. Commerce, gifts and reforms follow the build without it.
- The digest is injective; a password verifier accepts one password at the current number
  of rounds; a verifier's challenge is any function. Runs of login operations assume a clock
  that never goes back and secrets that are never drawn twice.
- The clock, random secrets, the members, whether a payment is still retained and whether
  its correction can be noted are parameters. The single-escape JSON parser is a parameter of
  `Json.Decode`, and a reader of its kind is spelt out for the main theorem about it.
- A Morse code is a list of dots and dashes; a phrase's bytes are its characters, which
  changes nothing because no character beyond ASCII is playable.

## Model

| member | source | states |
|---|---|---|
| Unicode.SurrogatesRoundTrip | nanacoin_rs/src/json.rs:23-24 | joining a high and a low surrogate and splitting a supplementary character are inverse to each other, in both directions |
| Unicode.Utf8RoundTrip | nanacoin_rs/src/json.rs:25-28 | whatever follows, decoding what was encoded reads that character and stops right after it |
| Json.DigitsAreRead | nanacoin_rs/src/json.rs:58-62 | the sixteen digits in either case have the value of their place |
| Json.DigitIsPrinted | nanacoin_rs/src/json.rs:58-62 | no other byte has a value |
| Json.ShownExactly | nanacoin_rs/src/json.rs:13-14 | an escape is read as a number exactly when it is that number printed in four digits of either case |
| Json.PrintedPair | nanacoin_rs/src/json.rs:15-32 | the printed surrogate pair of any supplementary character becomes the UTF-8 bytes of the character, whatever the case of its digits |
| Json.MalformedEscape | nanacoin_rs/src/json.rs:13-24 | an escape that shows no number is refused, and one that shows a number exactly when it is a high surrogate without a low one behind it |
| Json.SimpleEscapes | nanacoin_rs/src/json.rs:44-46 | the reference reader's two-character escapes are those of section 7 of RFC 8259 |
| Json.Hex | nanacoin_rs/src/json.rs:56-66 | the fold over hex digits yields the positional value of all of them, and fails exactly when one is no digit |
| Json.ReadLow | nanacoin_rs/src/json.rs:16-24 | behind a high surrogate, a character is found exactly when a complete low-surrogate escape follows |
| Json.Turn | nanacoin_rs/src/json.rs:13-42 | one turn of the loop appends to the buffer and moves both cursors as the text calls for, and fails only on a malformed escape; the writing cursor stays behind the reading one |
| Json.Rewrite | nanacoin_rs/src/json.rs:9-43 | the whole in-place pass leaves the normalised text in the buffer, never longer than the input, and fails exactly when a Unicode escape is malformed |
| Json.Decode | nanacoin_rs/src/json.rs:5-54 | a value is returned exactly when the input fits, normalises and parses and nothing but whitespace follows; and it is the parsed one |
| Json.NormalizedLength | nanacoin_rs/src/json.rs:27-29 | the output is eight bytes shorter for each joined pair and otherwise as long as the input |
| Json.CopiedEscape | nanacoin_rs/src/json.rs:33-41 | a Unicode escape that starts no pair is copied whole |
| Json.LiteralBackslash | nanacoin_rs/src/json.rs:35-41 | an escaped backslash before a `u` is literal text: nothing is joined across it |
| Json.NormalizeIsIdempotent | nanacoin_rs/src/json.rs:12-43 | normalising twice is normalising once |
| Json.NormalizeThenSingleIsFull | nanacoin_rs/src/json.rs:1-54 | for every input, the single-escape reader behind the normaliser accepts exactly what a full reader with surrogate pairs accepts, and reads the same content |
| Text.WordsOfSpaced | nanacoin_rs/src/board_status.rs:393 | splitting gives back exactly the words, however much whitespace stands before, between and after them |
| Morse.CodedExactly | nanacoin_rs/src/board_status.rs:312-368 | the characters with a code are the letters of both cases, the digits and sixteen marks |
| Morse.CodeOfLetter | nanacoin_rs/src/board_status.rs:312-368 | every pattern of the independent reading table is the code of its character: none is missing |
| Morse.ValidExactly | nanacoin_rs/src/board_status.rs:370-374 | a phrase is valid exactly when it has at most eighty characters, each a space or one of those, and not only spaces |
| Morse.LetterOfCode | nanacoin_rs/src/board_status.rs:312-368 | an independent reading table gives every character back from its code, in upper case: no two characters share a code |
| Morse.CodeUnits | nanacoin_rs/src/board_status.rs:312-368 | no code lasts longer than nineteen units |
| Morse.DefaultIsValid | nanacoin_rs/src/board_status.rs:273-278 | the phrase used in place of an invalid one is itself valid |
| Signal.IntervalsInOrder | nanacoin_rs/src/board_status.rs:391-417 | marks are in order, disjoint and not empty, and the last one ends the message |
| Signal.TrackIsCover | nanacoin_rs/src/board_status.rs:422-431 | searching the marks for a time lights exactly the units that the pulses call for |
| Signal.ScanTrack | nanacoin_rs/src/board_status.rs:420-440 | run lengths measured off the light give back the pulses |
| Signal.ReceivePhrase | nanacoin_rs/src/board_status.rs:384-419 | a receiver that knows only the lengths 1 and 3 and the gaps 1, 3 and 7 recovers the words from the light |
| Light.AddCode | nanacoin_rs/src/board_status.rs:403-410 | the innermost loop appends the marks of one code and moves the time past them |
| Light.AddWord | nanacoin_rs/src/board_status.rs:398-412 | the middle loop appends the marks of a word's characters, three units apart |
| Light.AddWords | nanacoin_rs/src/board_status.rs:391-413 | the outer loop appends the marks of all words, seven units apart |
| Light.PlayedExactly | nanacoin_rs/src/board_status.rs:384-389 | a phrase is played as given exactly under those conditions, and the default phrase in place of any other |
| Light.New | nanacoin_rs/src/board_status.rs:384-419 | compiling gives the pattern of the phrase, or of the default for an invalid one, with nothing lost in sixteen bits |
| Light.MessageEnd | nanacoin_rs/src/board_status.rs:407-417 | a message ends by 22 units a character less three, so every time fits sixteen bits |
| Light.MarksInOrder | nanacoin_rs/src/board_status.rs:407-417 | the stored marks are in order, disjoint, not empty, within sixteen bits, the last at the end of the message |
| Light.ColorIsObserved | nanacoin_rs/src/board_status.rs:420-440 | the colour at any time is the one in that unit of the cycle |
| Light.ColorRepeats | nanacoin_rs/src/board_status.rs:420-421 | playback repeats itself after every cycle |
| Light.MorseRoundTrip | nanacoin_rs/src/board_status.rs:312-440 | decoding one cycle of colours gives back every valid phrase, in capitals and with its spaces collapsed |
| Light.SameSignal | nanacoin_rs/src/board_status.rs:384-440 | two phrases look the same exactly when they differ in case and spacing only |
| Light.ThreeFlashes | nanacoin_rs/src/board_status.rs:417-439 | green shows in exactly three flashes of three units, six apart, seven units after the message |
| Light.Rotation.ColorAt | nanacoin_rs/src/board_status.rs:454-464 | the loop that subtracts cycle lengths shows what the patterns one after another show |
| Light.NewRotation | nanacoin_rs/src/board_status.rs:449-453 | the rotation holds the three phrases' patterns and its cycle is the sum of theirs |
| Light.PlaysInTurn | nanacoin_rs/src/board_status.rs:454-464 | every pattern plays in full, in order, from its own start |
| Light.AlwaysPlaying | nanacoin_rs/src/board_status.rs:454-464 | every time falls in some pattern's turn: the final dark return is unreachable |
| Light.RotationRoundTrip | nanacoin_rs/src/board_status.rs:449-464 | each of the three phrases can be read off the rotation during its turn |
| Light.RotationRepeats | nanacoin_rs/src/board_status.rs:454-456 | the rotation is periodic |
| Posting.PlanRefinesPosting | nanacoin_rs/src/cobol.rs:2596-2660 | as long as no two postings meet in escrow, planning them and installing the plan leaves the same books and credit mask as posting one after another, and is refused exactly when and for the reason that posting is |
| Posting.OverlayIsInstalled | nanacoin_rs/src/cobol.rs:2604-2617 | the balance read through the planned legs is the one that installing them leaves, for shared accounts and payments to oneself too, unless it is an escrow that a leg of the other currency has moved |
| Posting.InstallIsTransfer | nanacoin_rs/src/cobol.rs:3087-3108 | overwriting both wallets with a leg's balances is moving its amount |
| Posting.TwoPostingsAgree | nanacoin_rs/src/cobol.rs:2604-2617 | for any two postings, planning and installing does what posting does exactly when they do not meet in escrow in different currencies, or both ways refuse them |
| Posting.AgreeOnAllBooks | nanacoin_rs/src/cobol.rs:2604-2617 | planning and installing two postings does what posting does on all books that know their parties, exactly when the two do not meet in escrow in different currencies with both amounts in range |
| Posting.SamePlan | nanacoin_rs/src/cobol.rs:2589-2593 | a plan depends on balances alone, so it may be made before a member with nothing is added |
| Posting.NewMemberHasNothing | nanacoin_rs/src/cobol.rs:2589-2593 | a member about to be added has the balance that an unknown member is read with |
| Posting.CreditBitMeaning | nanacoin_rs/cobol/bank.cob:2221-2238 | one credit step sets or clears one member's bit and no other |
| Posting.MaskMeaning | nanacoin_rs/cobol/bank.cob:2221-2238 | after an event a member's credit is blocked if a loan moved its coins, free if anything else did, and unchanged if nothing did |
| Publishing.PlanHoldsPostings | nanacoin_rs/src/cobol.rs:2642-2660 | a plan has one leg for each posting that moves something, in order |
| Publishing.ApplyingTrips | nanacoin_rs/src/cobol.rs:3073-3109 | applying trips an assertion exactly when an empty posting comes before one that moves something, and otherwise installs and uses up every leg |
| Publishing.PublishedEvent | nanacoin_rs/src/cobol.rs:3073-3129 | a whole event none of whose postings meet in escrow, planned before it is stored and applied after: the same refusals, and the books and mask that posting leaves with every leg consumed, exactly when empty postings come last |
| Publishing.LoanRowsMove | nanacoin_rs/cobol/bank.cob:2132-2175 | a loan event moves, in coins and never by an empty posting, what was drawn from lender to borrower, or the principal and then the interest from borrower to lender, each noted as what it is and the second 4096 numbers on |
| Publishing.RowsArePlanned | nanacoin_rs/src/cobol.rs:2506-2529 | there is room for every row, so the rows of a loan event are planned, noted or refused as its postings are |
| Events.ValidatedIsPosted | nanacoin_rs/cobol/bank.cob:3651-3673 | what validation accepts, of every event that moves money, fits one plan, has no empty posting before one that moves something, leaves escrow to coins, is between parties that exist, and meets no limit when posted |
| Events.EventIsPosted | nanacoin_rs/src/cobol.rs:2759-2874 | every event that validation accepts is planned; applying its plan records what the event moves, trips no assertion, uses every leg up, leaves the books and mask that posting leaves, and keeps both sums |
| EventRuns.StepIsPosted | nanacoin_rs/src/domain.rs:1417-1444 | one command, a correction of anything recorded too, does what posting directly does, is refused exactly when its transaction is unknown or validation refuses it, and keeps members, limits and sums, and dollars out of escrow |
| EventRuns.RunIsPosted | nanacoin_rs/src/cobol.rs:3066-3145 | over every run of commands nothing trips, books, mask and recorded transactions are those of posting directly, both sums stay, and no dollars are ever recorded into or out of escrow |
| EventRuns.BooksAlwaysBalance | nanacoin_rs/src/cobol.rs:2006-2018 | after any run from the empty bank its own check of the books succeeds: both currencies balance within the limits |
| Acceptance.AcceptedExactly | nanacoin_rs/src/domain.rs:763-805 | validation accepts exactly the events spelt out on balances and numbers: who takes part, within which limits, and that a member has the money |
| Acceptance.ShortOfMoney | nanacoin_rs/cobol/bank.cob:2213-2216 | a payment is refused for want of money exactly when nothing else is against it |
| Acceptance.OverdrawnByCorrection | nanacoin_rs/src/domain.rs:799-801 | over any run, a step that lowers a member's wallet and leaves it below zero was a correction allowed to overdraw or undid an accepted offer |
| Acceptance.NobodyEverOwes | nanacoin_rs/src/domain.rs:799-801 | without such steps no member ever owes coins or cents |
| Acceptance.StepGives | nanacoin_rs/src/cobol.rs:2759-2874 | a step changes every member's coins and cents by what its event says, and a new member starts with nothing but the grant |
| Acceptance.StepMarksCredit | nanacoin_rs/cobol/bank.cob:2221-2238 | a step blocks the credit of members whose coins a loan moved and frees those whose coins anything else moved |
| Acceptance.UndoSendsBack | nanacoin_rs/cobol/bank.cob:3721-3722 | a correction records its amount from the original's payee to its payer, in the original's currency |
| Acceptance.UndoRestores | nanacoin_rs/cobol/bank.cob:3721-3722 | a step's transaction undone in full at once leaves the books exactly as they were, but for a member who joined |
| Events.StaleEscrow | nanacoin_rs/src/cobol.rs:2604-2617 | two accepted postings, coins and then cents into escrow, whose plan differs from posting them |
| Events.EmptyFirst | nanacoin_rs/src/cobol.rs:3074-3077 | an empty posting before one that moves something, whose plan trips the assertion |
| Publishing.PostingConserves | nanacoin_rs/src/domain.rs:2184-2201 | one posting keeps both currency sums exactly when it does not move dollars between escrow and another wallet |
| Publishing.PostingsConserve | nanacoin_rs/src/cobol.rs:2006-2018 | any postings that leave escrow to coins keep issuance, escrow and members in balance, in each currency |
| Publishing.PostingsKeepLimits | nanacoin_rs/cobol/bank.cob:2203-2212 | postings keep every member's wallets within the limits of exact numbers |
| Publishing.CheckBase | nanacoin_rs/src/cobol.rs:2006-2018 | the running 64-bit sums accept exactly the books that balance within the limits; none is refused for an overflow on the way |
| Publishing.Bank.PrepareLeg | nanacoin_rs/src/cobol.rs:2596-2660 | one more posting is planned, or refused with the plan unchanged |
| Publishing.Bank.PreparedBalance | nanacoin_rs/src/cobol.rs:2604-2617 | the loop over planned legs finds the balance that the last one of the currency leaves |
| Publishing.Bank.StoredBalance | nanacoin_rs/src/cobol.rs:2580-2594 | a party's wallet, nothing for an unknown member |
| Publishing.Bank.PrepareLoanPostings | nanacoin_rs/src/cobol.rs:2502-2531 | the legs, the rows with kind and offset noted beside them, and the error, after as many of a loan event's postings as are accepted |
| Publishing.Bank.SetWallet | nanacoin_rs/src/cobol.rs:3087-3108 | one wallet is overwritten and no other changes |
| Publishing.Bank.ApplyBalances | nanacoin_rs/src/cobol.rs:3073-3109 | a recorded transaction installs the next leg and its credit mask and consumes it |
| Selection.OldestInFrame | nanacoin_rs/cobol/bank.cob:2814-2829 | the kernel's scan of 32 pairs finds the first smallest eligible one, or that there is none |
| Selection.OldestRecord | nanacoin_rs/src/cobol.rs:1401-1434 | the tournament over chunks returns the smallest (timestamp, id) of the whole table of any length, and none exactly when no row is eligible |
| Selection.OldestIsUnique | nanacoin_rs/src/cobol.rs:1401-1434 | there is one such row, so the chunks do not matter |
| Selection.NewestFold | nanacoin_rs/cobol/bank.cob:4075-4088 | one fold extends the newest row left by up to thirty rows |
| Selection.NewestFirst | nanacoin_rs/src/cobol.rs:138-172 | every row once, in falling order of id; refused for too many rows and, exactly, when some row has no positive id |
| Selection.SelectListing | nanacoin_rs/cobol/bank.cob:3990-4005 | the kernel's scan of up to twenty triples finds the first eligible one in the order |
| Selection.FilterIsMatch | nanacoin_rs/cobol/bank.cob:3983-3989 | the kernel's filter keeps exactly the rows the plain query keeps |
| Selection.MergeIsFirst | nanacoin_rs/cobol/bank.cob:4006-4015 | merging the best so far with a chunk's candidate gives the best of both stretches |
| Selection.ListingView | nanacoin_rs/src/cobol.rs:1760-1821 | filter and repeated selection yield exactly the wanted rows, latest first and by id, and refuse exactly a status other than the three there are; the eligible rows left run out |
| Selection.ViewIsSortThenFilter | nanacoin_rs/src/client.rs:1155-1187 | that list is the one that sorting the whole book and then filtering gives |
| Selection.OrderIsUnique | nanacoin_rs/src/client.rs:1155-1187 | two lists with the same entries in the same strict order are the same list |
| Equipment.ChunkMask | nanacoin_rs/cobol/bank.cob:3177-3187 | the sum of powers of two marks exactly the owner's rows of a chunk |
| Equipment.ClearMask | nanacoin_rs/src/cobol.rs:921-931 | the chunks' masks, shifted and joined, mark exactly the owner's rows of the table |
| Equipment.MaskFits | nanacoin_rs/src/cobol.rs:922-930 | the mask of a full table fits 64 bits |
| Equipment.InstallEquipment | nanacoin_rs/src/commerce.rs:541-576 | rows of the mask are unequipped, one artwork is set, and all else stays |
| Equipment.EquipByMask | nanacoin_rs/src/commerce.rs:541-576 | the planned mask leaves the same table as the plain loop over the owner's artworks |
| Money.RescaleIsExact | nanacoin_rs/src/money.rs:15-42 | within the exponents supported an amount is rescaled exactly when moving its decimal point gives a whole number within the limit, and to that number |
| Money.ConflictExactly | nanacoin_rs/src/money.rs:32-34 | an amount conflicts with its new units exactly when moving its point leaves a fraction |
| Money.RescaleBeyond | nanacoin_rs/src/money.rs:25-27 | beyond 38 places nothing but zero is rescaled |
| Money.ScaleTwice | nanacoin_rs/src/money.rs:15-42 | moving the point twice is moving it by the sum |
| Money.RescaledSign | nanacoin_rs/src/money.rs:15-42 | rescaling keeps the sign of an amount |
| Commerce.PayBalances | nanacoin_rs/src/domain.rs:2184-2201 | a payment between parties that exist goes through, keeps the total, and touches nothing but balances |
| CommerceSafety.ActionApplies | nanacoin_rs/src/commerce.rs:322-615 | every accepted action meets no missing record; only contributions and purchases touch money, each by one balanced payment of the actor |
| CommerceSafety.CommitIsSafe | nanacoin_rs/src/commerce.rs:192-655 | an accepted action applied with a larger sequence re-establishes every check of both tables and keeps the total |
| Rights.PermittedExactly | nanacoin_rs/src/commerce.rs:192-321 | an action is accepted exactly from an active member and under the conditions spelt out on the tables: owner, price and revision named, funds, deadlines, room |
| Rights.ForbiddenExactly | nanacoin_rs/src/commerce.rs:236-317 | an active member who is not the owner is forbidden to close, list, give or show, and nothing else is forbidden |
| Rights.AssetExactly | nanacoin_rs/src/commerce.rs:136-149 | which title, licence, hash and address make an artwork |
| Rights.ActionDone | nanacoin_rs/src/commerce.rs:322-579 | every accepted action does what it is for: who then owns, what is listed, shown, closed, received and recorded |
| Rights.ActionPays | nanacoin_rs/src/commerce.rs:581-615 | a contribution's amount leaves the actor's wallet for the request owner's, a price for the artwork owner's, and no other action moves money |
| Rights.OwnersDecide | nanacoin_rs/src/commerce.rs:277-310 | over any run an artwork changes hands only by its owner's gift or by a purchase that names that owner and the listed price and pays it there; price, show and closure change on the owner's behalf only, apart from sales and reforms; all else about it never changes |
| Rights.RefundExactly | nanacoin_rs/src/ledger.rs:593-615 | a refund is accepted exactly from the payee or an active administrator, of units not yet back that have exact units now and that the payee has |
| Rights.ReverseExactly | nanacoin_rs/src/domain.rs:1323-1363 | a reversal is accepted exactly from the payee or Nana, of a payment of which nothing is back; Nana may overdraw the payee |
| Rights.CorrectionPays | nanacoin_rs/src/ledger.rs:633-676 | a correction sends what the units are worth now from the payee to the payer, and notes the units |
| Rights.ReformExactly | nanacoin_rs/src/money.rs:60-99 | a reform is accepted exactly when an epoch is left and every amount has exact new units within its limit |
| Rights.ReformMoves | nanacoin_rs/src/money.rs:138-165 | a reform moves the point of every balance, receipt, target and price, and rounds nothing |
| GiftRuns.RefundLowersReceipt | nanacoin_rs/src/commerce.rs:151-177 | a refund lowers a request's receipt by exactly what the units are worth now, and never below zero |
| GiftRuns.RefundIsSound | nanacoin_rs/src/ledger.rs:633-676 | an accepted refund applies, keeps the total, and keeps every receipt equal to contributions less refunds |
| GiftRuns.ReformApplies | nanacoin_rs/src/commerce.rs:58-85 | a reform that was checked applies without tripping, although applying uses other limits than checking |
| GiftRuns.ReformIsSound | nanacoin_rs/src/money.rs:138-199 | an accepted reform keeps the tables good and every receipt equal to contributions less refunds, at the new scale |
| GiftRuns.StepIsSound | nanacoin_rs/src/commerce.rs:387-417 | any accepted step of any kind applies and keeps the invariant |
| GiftRuns.RunIsSound | nanacoin_rs/src/commerce.rs:58-85 | over every run of contributions, refunds, reversals, reforms, sales and other commands nothing trips and the invariant holds |
| GiftRuns.ReceivedNeverNegative | nanacoin_rs/src/commerce.rs:387-417 | after any run each request's receipt is contributions less refunds at the current scale, and is not negative |
| GiftRuns.OneEquippedPerOwner | nanacoin_rs/src/commerce.rs:646-649 | after any run, no owner shows two artworks at once |
| Totals.TotalAfterReform | nanacoin_rs/src/money.rs:157-161 | a reform moves the decimal point of the whole total and rounds nothing away |
| Totals.RunConserves | nanacoin_rs/src/commerce.rs:581-615 | over any run whose other commands conserve money, the bank's total is the one it began with, in current units |
| Totals.BalancedStaysBalanced | nanacoin_rs/src/cobol.rs:2006-2018 | such a run leaves wallets and issuance in balance exactly when they were before |
| GiftRuns.EmptyBankIsSound | nanacoin_rs/src/commerce.rs:46-57 | a bank with empty tables satisfies the invariant that runs start from |
| Revisions.RunPins | nanacoin_rs/src/commerce.rs:473-539 | over any run an artwork keeps its place, its revision never falls, and an equal revision means the same owner and, but for reforms, the same price |
| Revisions.RevisionAndPrice | nanacoin_rs/src/commerce.rs:34-36 | at an unchanged revision a listed price is unchanged exactly when reforms moved the decimal point by nothing |
| Revisions.ReformKeepsRevisions | nanacoin_rs/src/commerce.rs:81-83 | a reform leaves every revision as it was |
| Revisions.ReformRewritesPrice | nanacoin_rs/src/commerce.rs:81-83 | a listed price changes at an unchanged revision in exactly the reforms that move the decimal point |
| Revisions.ReformedListing | nanacoin_rs/src/commerce.rs:81-83 | a sound bank and an accepted reform that lists its artwork at ten times the price and at the same revision |
| Revisions.PurchaseFindsWhatWasRead | nanacoin_rs/src/commerce.rs:277-292 | a purchase naming what was read, accepted after any run, finds that owner, that price and the same units |
| Revisions.OnePurchasePerRevision | nanacoin_rs/src/commerce.rs:277-292 | of all purchases that name one revision at most one is ever accepted |
| Shop.State.AddTo | nanacoin_rs/src/domain.rs:2184-2201 | one wallet grows by the units and no other changes |
| Shop.State.RecordTransaction | nanacoin_rs/src/domain.rs:2160-2206 | the payment is retained and its amount leaves one wallet and enters the other |
| Shop.State.UnequipAll | nanacoin_rs/src/commerce.rs:541-576 | the loop unequips exactly the owner's artworks |
| Shop.State.ApplyContribution | nanacoin_rs/src/commerce.rs:387-417 | the receipt, the payment and the balances change as the specification says |
| Shop.State.ApplyPurchase | nanacoin_rs/src/commerce.rs:488-523 | owner, price, equipment, revision and money change as the specification says |
| Shop.State.ApplyCommerce | nanacoin_rs/src/commerce.rs:322-579 | every action updates the state in place to the specified one |
| Shop.State.CommerceRefund | nanacoin_rs/src/commerce.rs:151-177 | the request of a gift is lowered in place, and nothing else |
| Shop.State.RescaleTablesInPlace | nanacoin_rs/src/commerce.rs:73-85 | entry by entry, all entries are rescaled, or an error is returned exactly when one cannot be |
| Login.OldestFailure | nanacoin_rs/src/auth.rs:245-252 | the slot taken is the first of those whose window ends soonest, an empty one before all |
| LoginRuns.TableSimulatesIdeal | nanacoin_rs/src/auth.rs:287-302 | the 64 slots behave as a table without limits: reusing a slot never loses a session that is not over |
| LoginRuns.LookupMeaning | nanacoin_rs/src/auth.rs:304-317 | after any run a token is a member's exactly when a redemption issued it to that member, it is not over, nothing revoked it, and the member may still sign in |
| LoginRuns.HistoryToIdeal | nanacoin_rs/src/auth.rs:354-373 | a session issued and not revoked stays, whatever other tokens do |
| LoginRuns.CodeTableMeaning | nanacoin_rs/src/auth.rs:224-238 | every entry of the code table is a code issued to a password check and neither presented nor withdrawn since, and no two share a hash |
| LoginRuns.KeptCodeIsThere | nanacoin_rs/src/auth.rs:224-238 | a code that is neither withdrawn nor over is in the table: its slot was not reused |
| LoginRuns.RedeemMeaning | nanacoin_rs/src/auth.rs:263-302 | with a slot and a secret to hand, a code yields a session for a member exactly when that member's sign-in issued it under a minute ago, nothing withdrew it, challenge and redirect match, and the member may sign in |
| LoginRuns.SessionHasSignIn | nanacoin_rs/src/auth.rs:263-302 | every session goes back to one earlier password check of the same member, under 60 s before, with the matching challenge and redirect, at the code's first presentation |
| LoginRuns.OneSessionPerCode | nanacoin_rs/src/auth.rs:277-278 | a code yields at most one session in any run |
| LoginRuns.PresentedCodeIsSpent | nanacoin_rs/src/auth.rs:277-278 | a code presented once, even in vain, never yields a session |
| Lockout.TableStep | nanacoin_rs/src/auth.rs:170-261 | what an event does to the failure table follows from its answer |
| Lockout.TableHoldsCounts | nanacoin_rs/src/auth.rs:240-261 | after any run there is at most one entry a name, and it is the count of failures in a row since its entry was last taken |
| Lockout.NeverBlockedForLess | nanacoin_rs/src/auth.rs:191-198 | no name is blocked without five failures in a row, the last under 300 s ago |
| Lockout.StreakCounts | nanacoin_rs/src/auth.rs:219-261 | such a streak counts the failures since its first, among which nothing forgave the name |
| Lockout.EvictionNeedsOthers | nanacoin_rs/src/auth.rs:245-252 | an entry is taken only once 64 other names have failed with windows ending no sooner |
| Lockout.BlockedExactly | nanacoin_rs/src/auth.rs:191-261 | for every run, a name is blocked exactly when its streak is five and running and each eviction in between was followed by five of its failures |
| Lockout.FiveFailuresBlock | nanacoin_rs/src/auth.rs:191-261 | unless 64 other names failed since the streak began, five failures in a row block the name until 300 s after the last, and nothing else does |
| LockoutGap.EvictionRestartsTheCount | nanacoin_rs/src/auth.rs:245-256 | a run of 69 attempts with five failures in a row, no other name failing at or after the last, and no block |
| SignInRules.AuthorizedExactly | nanacoin_rs/src/auth.rs:170-238 | after any run, every answer to a sign-in: malformed, blocked, wrong password, disabled, no slot, no secret, or the code |
| SignInRules.ConfirmedExactly | nanacoin_rs/src/auth.rs:330-352 | after any run a password is confirmed exactly when the member is there, its name is not blocked, and the password is the one its current verifier holds; and every refusal |
| SignInRules.ConfirmationCounts | nanacoin_rs/src/auth.rs:347-350 | a wrong password in an unblocked confirmation adds one to the name's streak, and anything else leaves it |
| SignInRules.SignInCounts | nanacoin_rs/src/auth.rs:204-223 | a well-formed, unblocked sign-in with a wrong password adds one, one that is right forgives the streak, and any other leaves it |
| SignInRules.RedeemedExactly | nanacoin_rs/src/auth.rs:263-302 | a code yields a session exactly when that member's password check issued it under a minute ago, verifier and redirect are those of the check, nothing took it back, the member may sign in, a slot is free and there is a secret |
| SignInRules.LookedUpExactly | nanacoin_rs/src/auth.rs:304-317 | a token is a member's exactly when a redemption issued it under eight hours ago, nothing revoked it, and the member is there, active and has a password |
| LoginTables.Auth.constructor | nanacoin_rs/src/auth.rs:83-90 | fresh tables are empty |
| LoginTables.Auth.Clear | nanacoin_rs/src/auth.rs:131-135 | all three tables are emptied |
| LoginTables.Auth.ForgetFailures | nanacoin_rs/src/auth.rs:219-223 | the loop drops exactly the name's entries |
| LoginTables.Auth.RecordFailure | nanacoin_rs/src/auth.rs:240-261 | one slot takes the name's next count and window |
| LoginTables.Auth.Authorize | nanacoin_rs/src/auth.rs:170-238 | answer and tables are those of the specification, for every error too |
| LoginTables.Auth.Redeem | nanacoin_rs/src/auth.rs:263-302 | answer and tables are those of the specification; the code is gone whatever follows |
| LoginTables.Auth.NameIsBlocked | nanacoin_rs/src/auth.rs:191-198 | the scan finds whether any entry blocks the name |
| LoginTables.Auth.FindFailure | nanacoin_rs/src/auth.rs:241-244 | the scan finds the name's first entry |
| LoginTables.Auth.SoonestSlot | nanacoin_rs/src/auth.rs:245-252 | the scan finds the first slot whose window ends soonest, empty ones before all |
| LoginTables.Auth.FindFreeCode | nanacoin_rs/src/auth.rs:224-228 | the scan finds the first code slot that is empty or over |
| LoginTables.Auth.FindCode | nanacoin_rs/src/auth.rs:272-276 | the scan finds the first entry of a code |
| LoginTables.Auth.FindFreeSession | nanacoin_rs/src/auth.rs:290-294 | the scan finds the first session slot that is empty or over |
| LoginTables.Auth.FindSession | nanacoin_rs/src/auth.rs:306-311 | the scan finds the first session of a token that is not over |
| LoginTables.Auth.Lookup | nanacoin_rs/src/auth.rs:304-317 | on tables left by any orderly run, the answer is a member exactly when a redemption issued the token to it, it is not over, nothing revoked it, and the member may still sign in |
| LoginTables.Auth.ConfirmPassword | nanacoin_rs/src/auth.rs:330-352 | answer and failure table are those of the specification |
| LoginTables.Auth.Revoke | nanacoin_rs/src/auth.rs:354-361 | the loop drops exactly the token's sessions |
| LoginTables.Auth.RevokeMember | nanacoin_rs/src/auth.rs:362-373 | the loops drop exactly the member's sessions and codes |
| Schedule.DueExactly | nanacoin_rs/src/events.rs:15-42 | every answer about one occurrence, with each error, for all schedules and clocks |
| Schedule.CatchUpVisits | nanacoin_rs/src/events.rs:18-42 | a catch-up visits start + k * interval, each once and in order, as far as budget and clock allow, and reports an overflow exactly when it reaches an occurrence without a successor |
| Schedule.PeriodsReach | nanacoin_rs/src/events.rs:31-33 | floor((now - start) / interval) + 1 occurrences are due by now, no more and no fewer |
| Schedule.AllAreSettled | nanacoin_rs/src/events.rs:34-41 | with budget enough all occurrences due are visited exactly when the last one has a successor in range; otherwise all but that one |
| Schedule.TicksVisit | nanacoin_rs/src/events.rs:15-42 | whatever budgets and readings, the occurrences visited are the first ones, none past the last reading |
| Schedule.AnySplitIsTheSame | nanacoin_rs/src/events.rs:15-42 | any split into budgets and earlier readings, followed by a last tick whose budget suffices, visits and reports what one catch-up at that last reading does |
| Decimal.SplitWritten | nanacoin_rs/src/client.rs:55 | a numeral is split at its only point |
| Decimal.QuantityIsExact | nanacoin_rs/src/client.rs:54-89 | a text is accepted exactly when it is digits with at most three fraction digits for 0.001 up to 1000000, and then as exactly that value; no width is too small |
| Numerals.ParsePrinted | nanacoin_rs/src/client.rs:47-52 | a printed number is read back exactly when the type holds it |
| Numerals.ParseExactly | nanacoin_rs/src/client.rs:47-52 | a text is read as a number exactly when it is digits, perhaps behind a plus sign, that are worth it and the type holds it |
| AccountNames.NamesFit | nanacoin_rs/src/client.rs:25-29 | every number fits the 32-byte name buffer behind a prefix exactly when the prefix has at most twelve characters |
| AccountNames.NumberRoundTrip | nanacoin_rs/src/client.rs:25-52 | a number printed behind a prefix is read back, for every 64-bit number |
| AccountNames.NumberExactly | nanacoin_rs/src/client.rs:47-52 | a text is read as a record's number exactly when it is the prefix and a text of that number |
| AccountNames.ReadExactly | nanacoin_rs/src/client.rs:1259-1271 | a text is read as an account exactly when it is one of the two names of issuance, or a number from 1 to 255 behind the prefix, with the suffix for dollars |
| AccountNames.ReadsAccount | nanacoin_rs/src/client.rs:1259-1271 | any text that reads as a member's number names that member's accounts, in both currencies |
| AccountNames.AccountRoundTrip | nanacoin_rs/src/client.rs:1247-1271 | an account's printed name is read back exactly when the account is not the escrow |
| AccountNames.NamesAreDistinct | nanacoin_rs/src/client.rs:1247-1258 | no two accounts share a printed name |
| AccountNames.AccountsFit | nanacoin_rs/src/client.rs:1247-1258 | every account's name fits the name buffer |
| AccountNames.OtherNames | nanacoin_rs/src/client.rs:1259-1271 | reading also accepts a plus sign before the number, and a number for the escrow |

## Left out

- The foreign-call bridge to the kernel, its loading and its mutex: the kernel's operations used here are small Dafny bodies.
- Kernel operations on loans beyond the posting plan, lotto draws, household statistics and the prepared reform: other state machines than the ones modelled.
- `ledger_number`, which saturates 64-bit numbers for the kernel: ids and times are below its limit.
- The kernel's own gift and art plans for validation: the build without the kernel is modelled, and the equipment mask is tied to it.
- Rights.ReformExactly: the range of decimals and powers that a reform may ask for, and everything in it but members, issuance, gift requests and artworks: listings, offers, quotes, lottos and loans are converted beside them, the interest of a loan with a remainder.
- The bounded history of transactions: whether a payment is retained is a parameter of refunds and reversals, and a refused one is reported as missing.
- Refunding the row that a refund itself recorded: such rows are not payments of the model, so it is reported as missing where the source reports a conflict or a prohibition.
- Posting.PlanRefinesPosting: one direction of its condition only, because `Posting.TwoPostingsAgree` has the exact one for the two postings an event can have.
- Publishing.PublishedEvent: one direction of the same condition, for the same reason.
- EventRuns.RunIsPosted: who may correct which transaction, and how often, is left open, so its runs hold every correction the bank allows and more; currency reforms are not among its commands.
- EventRuns.StepIsPosted: only postings are planned; flow statistics, correction notes and the other plans prepared beside them may refuse an event too.
- Acceptance.AcceptedExactly: validation beyond the money moved is not part of it: permissions, texts, and the state of listings, offers, loans and lottos, which choose the parties and amounts that an event is given with.
- Lockout.FiveFailuresBlock: one direction of its condition only, because `Lockout.BlockedExactly` has the exact one.
- API keys, counts for diagnostics, the derivation of passwords and the generation of secrets.
- The light's health states, boot stages and reset flashes, and the storage of its configuration.
- HTTP routing, serialisation, error texts, caches and static files.
- The nested loops of the light's compiler are three methods, and the marks are a list that each returns rather than one vector that all push to.
- A run of login operations takes the members as they are at each call; the commands that change members are not part of it.
