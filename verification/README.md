# Arandu wallet: a verified model of the ledger

This project models the money-moving core of the Arandu wallet package in Dafny and proves what that
core keeps: for every input, every interleaving and every run, not for examples.

Wallets, entries, holds and operations are rows. A transaction of the package is one guarded step on
them; whatever a call read before its transaction is an argument of the step, as stale as it likes,
so a run of steps in any order is every interleaving of concurrent callers. Code that changes rows or
loops is a method proved against the step it stands for; arithmetic is a function or a method with
its loop. Amounts are mathematical integers with the sixty-four bits written out wherever the code's
own arithmetic could wrap. Append-only tables are sequences, and an identifier is a place in one.

## Files

| file | what it models |
|---|---|
| `Int64.dfy`, `Arithmetic.dfy`, `Sums.dfy`, `Outcome.dfy` | sixty-four-bit integers, division, totals, refusals |
| `Amounts.dfy` | checked arithmetic, and the decimal parser and printer (money.go) |
| `Rates.dfy`, `Fees.dfy` | exchange with a recorded remainder (rate.go), fees with bounds (fee.go) |
| `Tables.dfy`, `Apply.dfy` | the guarded update of a wallet, and the movements of an operation in lock order (commit.go) |
| `Ledger.dfy` | the rows and the methods that change them: posting, holds, captures, repairs, credit limits, closing |
| `LedgerRuns.dfy` | ledgers that add up, the difference no step moves, repairs |
| `HoldRuns.dfy`, `FloorRuns.dfy`, `ServiceRuns.dfy` | what is set aside, what a wallet may spend, the total of all balances, and which requests pass |
| `FreezeRuns.dfy`, `LedgerWrites.dfy` | wallets frozen and closed, what they refuse and until when; what opening, capturing and repairing write |
| `Transfers.dfy` | a payment between two wallets, and the claim a retry is recognised by |
| `Protocol.dfy` | idempotency keys of movements, captures, credit calls, settlements and repairs: lookups, attempts, lost races, commits nobody heard of and commits that land late |
| `Deadlock.dfy` | which rows a transaction locks, in which order, and who waits for whom |
| `Settlements.dfy`, `SettlementRuns.dfy`, `ReversalRuns.dfy` | reversals whole and in part, confirmations, voids, and operations both reversed and confirmed |
| `AcceptanceRuns.dfy` | which of those are accepted, by the rows there are |
| `Rounding.dfy`, `Calendar.dfy`, `PriceTable.dfy` | the Price table of a credit agreement, its rounding and its dates |
| `CreditQuotes.dfy`, `CreditBook.dfy`, `CreditWrites.dfy` | lateness and payoff quotes, an agreement over its life, and what each call on it writes |
| `Listing.dfy`, `Statuses.dfy`, `StatusRuns.dfy` | keyset pages with cursors, the status of a row in Go and in SQL, and what it says of every run |

## Where the code does less than its documentation says

Each of these has a lemma with the condition under which the code does what it promises, and one with
an input or a run that shows it fail.

- **A key answers another request of the same claim.** A claim is of the wallets, the amount and the
  sides that wait, and not of the hold a capture takes (hold.go:331, :349) nor of what a credit call is
  for (credit.go:847). A row answers exactly the requests of its claim
  (`Protocol.OnlyTheSameRequestIsAnswered`), which are the same request exactly when they are for the
  same thing (`Protocol.WhatAClaimLeavesOut`, `Protocol.OneKeyOneOperation`). Two holds captured, or two
  installments paid, for one amount of one wallet under one key: the second call is answered as a
  replay, and its hold or its installment is left as it was (`Protocol.TwoHoldsOneKey`,
  `Protocol.TwoInstallmentsOneKey`).
- **Giving up does not always mean nothing was written.** A commit nobody heard of, followed by a
  lookup that fails, or by one it lands after, is answered as a failure with its operation in place
  (`Protocol.GivingUpAfterAFailedLookup`, `Protocol.GivingUpBeforeItLands`); where the last lookup did
  not fail and no commit was in flight, giving up does mean it (`Protocol.RefusedWroteNothing`).
- **An operation can be reversed and confirmed.** `Confirm` asks about voids and not about reversals
  (movement.go:953-957). What is left of such an operation on a wallet is what waited there, so nothing
  exactly where that adds up to nothing (`ReversalRuns.ReversedAndConfirmed`); a transfer that left now
  and was to arrive later, reversed and then confirmed, is money nobody sent
  (`ReversalRuns.MoneyNobodySent`).
- **A cancellation can be overtaken.** `CancelCredit` adds up what is owed before its transaction
  (credit.go:1123-1128) and deposits it later. A payment in between is deposited a second time. The
  debt still equals the open installments exactly when what was owed did not change between the
  reading and the writing (`CreditBook.CancelExplainsTheDebt`); `CreditBook.PaidInBetween` and
  `CreditBook.CancelOvertaken` show a wallet left holding money nobody paid.
- **A payment can leave a regular agreement delinquent.** credit.go:789 promises an agreement with
  nothing past its grace is active again; `afterPayment` tests the status that was read before the
  transaction (credit.go:903). A sweep in between is overlooked: where nothing left open is late, the
  agreement is delinquent after the payment exactly when it became so after it was read
  (`CreditBook.PaymentDecidesTheStatus`, `CreditBook.RegularIsLeftDelinquent`,
  `CreditBook.SweptWhilePaying`).
- **A sweep can be overtaken too.** `SweepCredit` marks an agreement delinquent on the installments it
  read (credit.go:1265-1267). One with nothing late any more is marked exactly when it was active and
  something was late as the sweep read it (`CreditBook.RegularIsMarkedDelinquent`,
  `CreditBook.PaidWhileSweeping`).
- **A credit line can be lowered under a hold.** `SetCredit` guards on the balance and not on what is
  set aside (wallet.go:201-204). The wallet still covers its holds exactly when the new line is at
  least what the holds take beyond the balance (`FloorRuns.LoweringCreditKeepsTheFloor`); otherwise a
  capture takes the balance below the line (`FloorRuns.CaptureUnderALoweredCredit`,
  `FloorRuns.CreditLoweredUnderAHold`).
- **A repair closes what it measured.** `Rebuild` makes the difference zero exactly when no settled
  entry lies outside the positions it reads and the difference fits sixty-four bits
  (`LedgerRuns.RepairClosesTheDifference`; `Difference` at service.go:870 subtracts unchecked);
  `LedgerRuns.RepairPastTheRange` and `LedgerRuns.RepairAroundAnEntry` are repairs that pass and leave
  a difference.
- **A capture does not look at the balance.** After a forced withdrawal the capture of an open hold
  passes its guard and leaves the range of the column (`Tables.CaptureAfterForceLeavesTheRange`). Every
  capture stays in range exactly while the range holds the balance without what is set aside
  (`Tables.CaptureInRange`), which only force takes away (`FloorRuns.NoBalanceLeavesTheRange`).
- **The held column has no ceiling.** Two holds a large balance and a large credit line allow can pass
  the range (`FloorRuns.HoldsPassTheRange`). No placement does exactly where the balance and the credit
  line fit together or nothing is set aside (`FloorRuns.HeldInRange`, `FloorRuns.HeldStaysInRange`).
- **Lateness is priced by products of sixty-four bits.** The late fee is the exact one exactly when the
  amount times the basis points fits, and the interest exactly when that product times the days does
  (`CreditQuotes.LateFeeExactWhenItFits`, `CreditQuotes.MoraExactWhenItFits`, credit.go:421-422);
  `CreditQuotes.LateFeeLeavesTheRange` and `CreditQuotes.MoraLeavesTheRange` are installments priced
  wrong.
- **A row without its operation answers a status no filter keeps.** The SQL of a status and the Go
  that derives it agree about a row exactly when the row's operation is there
  (`Statuses.TheTwoAgree`); `Statuses.ARowWithoutItsOperation` is listed as pending and in no filter.

## Model

| member | source | states |
|---|---|---|
| Amounts.Add | money.go:57-67 | the sum where it fits and a refusal exactly where it does not, although it is judged by a sign after wrapping |
| Amounts.Sub | money.go:85-91 | the same of a difference, the smallest amount included on either side |
| Amounts.Ceiling | money.go:119 | every balance up to it has room for the amount, and no other |
| Amounts.ParseDigits | money.go:235-260 | no accumulation wraps: accepted exactly when the text is digits whose signed value fits, and overflow is told from syntax by the first character that breaks |
| Amounts.ParseAmount | money.go:178-211 | a text that reads as a decimal at the scale is answered with its scaled value, or overflow where that does not fit; nothing else is accepted; a fraction too long is its own refusal |
| Amounts.ReadingIsUnique | money.go:178-211 | a text reads as at most one decimal |
| Amounts.FormatReadsBack | money.go:266-294 | what is written of any amount at any scale reads as a decimal worth exactly that amount, and is written one way only: no sign but a minus, no zero ahead of the first digit but one ahead of the point, as many decimals as the scale |
| Amounts.FormatThenParse | money.go:178-294 | parsing what was formatted answers the amount, over the whole range and every scale |
| Amounts.TrimSpaceTrims | money.go:178-190 | what is trimmed of a text is white space at either end, all of it and nothing else |
| Amounts.WhiteSpaceIs | money.go:178-190 | and white space is what Unicode says it is |
| Rates.ScaledDenominatorFits | rate.go:164-178 | a validated rate's scaled denominator fits at every scale, so that check never refuses |
| Rates.NothingIsLost | rate.go:222-265 | arrived times denominator plus remainder is sent times numerator and scale; refused exactly for arriving as nothing or past the range |
| Rates.ConversionPasses | rate.go:164-265 | a conversion passes exactly at a quoted rate for the pair with a bounded denominator, between scales there are, of an amount that delivers at least one unit and fits |
| Rates.SplittingNeverGains | rate.go:222-265 | paying in two parts never delivers more, and at most one unit less |
| Rates.ThereAndBackNeverGains | rate.go:222-265 | converting back at the reciprocal rate never returns more than was sent |
| Fees.FeeWithinBounds | fee.go:152-188 | every payment is charged, within the bounds, with a remainder that explains the share exactly or a bound that replaced it; only a floor reaches the payment |
| Fees.FeeIsCharged | fee.go:103-188 | a fee is answered exactly for a proper share, bounds that are not negative, no floor over a ceiling there is, a collector, and a payment of something: the range never refuses |
| Fees.FeeIsMonotone | fee.go:152-188 | a larger payment is never charged less |
| Tables.EntrySaysWhatMoved | commit.go:1022-1061 | every ledger movement but an adjustment moves the balance by what its entry says, at the wallet's next position |
| Tables.FloorAfterAStatement | commit.go:859-908 | an unforced statement leaves the wallet covering what is set aside, or better covered than before |
| Tables.ForcedWithdrawalStaysInRange | commit.go:221-226 | a forced withdrawal passes exactly when the balance stays in the range of the column |
| Tables.CaptureAfterForceLeavesTheRange | commit.go:881-885 | a capture that passes its guard and leaves the range |
| Tables.CaptureInRange | commit.go:881-885 | every capture a wallet lets pass stays in the range exactly when the range holds its balance without what is set aside |
| Tables.OnlyForceLeavesNoRange | commit.go:221-226 | no other statement takes that away, and a forced withdrawal leaves it exactly when it takes no more than the range holds beyond it |
| Apply.LockOrderIsOrdered | commit.go:748-754 | the lock order takes the wallets from first to last and every movement once |
| Apply.LockOrderChangesNothing | commit.go:747-773 | in lock order an operation passes or is refused as in the order of the request, leaves the same wallets and writes the same entries |
| Apply.EntriesOfAnOperation | commit.go:747-773 | one entry for each movement, as the movement says |
| Apply.NetOnAWallet | commit.go:747-773 | each balance moves by the sum of the movements on it |
| Apply.NetOnAll | commit.go:747-773 | the total of all balances moves by the sum of all movements |
| Ledger.LedgerRows.Move | commit.go:1022-1061 | one guarded update and the entry it produced, or nothing |
| Ledger.LedgerRows.MoveAll | commit.go:756-764 | the movements one after another, every entry put at the place of its movement |
| Ledger.LedgerRows.Apply | commit.go:747-773 | the wallets after all movements, the entries appended together, and a receipt in the order of the request |
| Ledger.LedgerRows.Write | commit.go:397-497 | an operation and its movements, all or nothing |
| Ledger.LedgerRows.Post | movement.go:516-614 | a deposit, a withdrawal or a transfer is its step |
| Ledger.LedgerRows.PlaceHold | hold.go:198-268 | placing a hold is its step: refused, or the column raised and the hold recorded together |
| Ledger.LedgerRows.CaptureHold | hold.go:299-382 | capturing is its step: the hold settles under the operation that takes its money, or nothing happens |
| Ledger.LedgerRows.GiveBackHold | hold.go:485-522 | giving back is its step: the hold it names takes the status it is given back under, no other hold and no entry changes |
| Ledger.LedgerRows.ReleaseExpired | hold.go:413-441 | the sweep is the steps of the holds it counted, each left given back, the ones it found open as expired and no other touched; it stops only at one that is neither open nor given back, or whose wallet holds too little |
| Ledger.LedgerRows.Walk | service.go:879-933 | the sum of the settled entries up to a position, and a refusal exactly when one of its two running sums leaves the range |
| Ledger.LedgerRows.Reconcile | reconcile.go:88-117 | the difference as sixty-four bits have it; that wallet frozen exactly when it is not zero, and every other column and row as it was; a refusal exactly where there is no wallet or its ledger cannot be added up |
| Ledger.LedgerRows.Rebuild | reconcile.go:166-226 | every refusal of a repair and when it is given, and otherwise the adjustment measured of a frozen wallet; a refusal changes nothing |
| Ledger.LedgerRows.SetCreditLimit | wallet.go:201-204 | the limit changes exactly where the balance is within it |
| Ledger.LedgerRows.SetClosedFlag | wallet.go:326-366 | closing and reopening are their steps, and set that wallet's flag and nothing else |
| LedgerRuns.StepKeepsDrift | commit.go:832-919 | from any state, even a corrupt one, every step but an adjustment leaves what the balance holds beyond its settled entries |
| LedgerRuns.RunKeepsDrift | commit.go:832-919 | and so does every run; a wallet whose position did not move has the entries it had |
| LedgerRuns.RunKeepsMeasured | service.go:879-933 | the entries up to a position a wallet has reached add up the same however late they are read |
| LedgerRuns.RepairClosesTheDifference | reconcile.go:166-226 | a repair read, measured and written among any other steps leaves the balance, lifts the freeze, and leaves no difference exactly when nothing lay outside the positions read and the difference fits |
| LedgerRuns.RepairIsServed | reconcile.go:166-226 | written where it was measured, a repair passes exactly when the wallet is frozen and not closed, there is a difference whose size fits, and the next position is free |
| LedgerRuns.RepairPastTheRange | service.go:870 | a repair that passes of a difference that does not fit, and leaves one |
| LedgerRuns.RepairAroundAnEntry | service.go:879-933 | a repair that passes beside an entry outside the positions read, and leaves a difference |
| LedgerRuns.EveryRunAddsUp | commit.go:1022-1061 | in every run from nothing every balance is the sum of its settled entries and every entry records the running balance at its wallet's next position |
| LedgerRuns.PositionsAreTaken | model.go:844-852 | a wallet's positions are exactly 1 to its last, each taken once |
| LedgerRuns.RepairFindsNothing | reconcile.go:166-226 | no repair measured in a run from nothing ever passes, in whatever state it is written |
| HoldRuns.HeldIsTheOpenHolds | hold.go:198-556 | in every run a wallet's held column is the sum of its open holds |
| HoldRuns.GivingBackIsServed | hold.go:485-522 | giving a hold back is refused exactly when it is not there or not open: never for too little held |
| HoldRuns.AHoldSettlesOnce | hold.go:485-540 | once settled, a hold is never touched again, from any state |
| HoldRuns.HoldsEndWell | hold.go:527-540 | a captured hold took between one and its whole amount, by an entry of the one operation it names, and no two holds name the same |
| ServiceRuns.AMovementIsServed | commit.go:886-908 | in every run a deposit or a withdrawal passes exactly when its wallet is in service and it waits, or has room for the money, or has it to spend, or, forced, has the range for it; and it moves that wallet by it and no other |
| ServiceRuns.ATransferIsServed | movement.go:732-755 | a payment passes exactly when each wallet serves its side, whatever the order of their identifiers, and moves each by its side |
| ServiceRuns.ACaptureIsServed | hold.go:299-382 | an open hold can be captured, for any part of it, exactly while its wallet is in service and, into another wallet, while that one is counted the same way and has room |
| ServiceRuns.APlacementIsServed | hold.go:198-268 | money is set aside exactly when there is some to set aside and a wallet in service has it to spend, and then the column rises by it and the hold is recorded |
| ServiceRuns.PlacementsAreServed | hold.go:198-268 | of any number of placements, in whatever order, all pass exactly when the wallet is in service and has all of them together to spend, and then all are set aside: no two callers set the same money aside |
| ServiceRuns.OutOfServiceStandsStill | commit.go:954-956 | a frozen or closed wallet's balance never moves, nothing more is set aside on it and, but for the repair that lifts a freeze, nothing is written in its ledger |
| ServiceRuns.AClosedWalletIsEmpty | wallet.go:326-366 | in every run a closed wallet holds nothing |
| FreezeRuns.FreezingFreezes | service.go:943-954 | a freeze takes any wallet there is out of service, whatever it holds, and changes no other column or row |
| FreezeRuns.ClosingIsServed | wallet.go:326-366 | closing passes exactly on an open wallet with nothing left, reopening on a closed one, and each changes that one column |
| FreezeRuns.OutOfServiceRefuses | commit.go:954-956 | nothing that moves a wallet out of service, waits on it, captures its holds or into it, or sets money aside on it passes |
| FreezeRuns.FrozenUntilRepaired | reconcile.go:112-112 | in any run, from any state, a frozen wallet is frozen until a repair of it passes |
| FreezeRuns.ClosedUntilReopened | wallet.go:326-366 | and a closed one closed until it is reopened |
| FreezeRuns.NothingPassesUntilRepaired | reconcile.go:88-226 | so in any run after a reconciliation froze a wallet nothing on it passes until a repair of it has |
| FreezeRuns.NothingPassesUntilReopened | wallet.go:326-366 | nor on one that was closed, until it is reopened |
| FreezeRuns.GivingBackWrites | hold.go:485-522 | exactly when a hold is given back, and what that writes: its status, and its amount off the held column |
| LedgerWrites.OpeningWrites | wallet.go:93-145 | a wallet opens empty, in service, without a credit line, at the start of its ledger |
| LedgerWrites.CaptureWrites | hold.go:299-382 | what a capture writes: its amount off the balance and the whole hold off the column of the one wallet, onto the balance of the other, one position on each, and the hold settled under the new operation for that amount |
| LedgerWrites.WalkedIsAll | service.go:879-933 | where a wallet's entries are at positions it has reached, the two sums of a walk are what counts on it and what waits |
| LedgerWrites.WhyARepairIsRefused | reconcile.go:166-226 | each refusal of a repair exactly where it is given, and a repair made exactly where the wallet is still the one that was measured, frozen, not closed and with its next position free |
| FloorRuns.StepKeepsTheFloor | commit.go:859-908 | from any state whose holds are not negative a step that forces nothing, and lowers no credit line under a hold, leaves what is spendable not negative, or no lower than before; and whatever it does to a credit line, it leaves the range what it held |
| FloorRuns.NoWalletGoesUnder | model.go:240-242 | in every run that forces nothing, what is spendable is never negative and the balance stays between the credit line and the largest amount |
| FloorRuns.NoBalanceLeavesTheRange | commit.go:859-908 | in every run that forces nothing, whatever its credit lines do, every balance stays in the range, and would if all that is set aside were captured |
| FloorRuns.LoweringCreditKeepsTheFloor | wallet.go:201-204 | a credit line passes exactly when the balance is within it, and changes nothing else; and exactly when lowering a credit line leaves the wallet covering its holds |
| FloorRuns.CaptureUnderALoweredCredit | wallet.go:201-204 | exactly which captures then take the balance below the line |
| FloorRuns.CreditLoweredUnderAHold | wallet.go:201-204 | an input where one does |
| FloorRuns.HoldsPassTheRange | commit.go:859-865 | a placement that passes its guard and leaves the range |
| FloorRuns.HeldInRange | commit.go:859-865 | every placement a wallet lets pass stays in the range exactly when its balance and credit line fit together or nothing is set aside |
| FloorRuns.HeldStaysInRange | commit.go:859-865 | in every run, forced or not, a wallet whose balance and credit line always fit together sets aside no more than the range |
| FloorRuns.StepMovesTheTotal | commit.go:747-773 | a step moves the total of all balances by exactly what its movements add up to |
| FloorRuns.TheTotalIsConserved | hold.go:366-371 | every run of transfers and captures between wallets leaves the total of all balances |
| FloorRuns.CaptureMoves | hold.go:359-371 | a capture between wallets gives what it takes, one out of the system takes what it captures |
| Transfers.Transfer | movement.go:640-764 | which payments pass, and of each that does: what leaves, what arrives, who collects, the entries it asks for, and the record of the charge: what was asked, what was taken off, what was left, the schedule, and a fee the schedule explains |
| Transfers.Divide | movement.go:715-752 | the fee on top of the payment or out of it, and the refusal of each |
| Transfers.PaymentBalances | movement.go:715-752 | in one money what leaves is what arrives and the fee; the operation moves nothing in total exactly when both sides count or both wait |
| Transfers.OnlyTheSamePaymentIsReplayed | commit.go:1293-1310 | the claim of a payment, read off the rows of any payment, holds exactly for requests of the same wallets, amount and waiting sides, whatever was priced then |
| Transfers.OnlyTheSameMovementIsReplayed | commit.go:1274-1282 | the same for a deposit or a withdrawal |
| Protocol.OnlyTheSameRequestIsAnswered | commit.go:1407-1504 | a row answers a request exactly when the request that wrote it has the same claim: kind, wallets, amount and waiting sides, operation settled or given back, or wallet repaired; of movements, payments, captures, credit calls, settlements and repairs |
| Protocol.WhatAClaimLeavesOut | hold.go:331-349 | two requests are the same exactly when their claims are and they are for the same hold, the same credit call or neither |
| Protocol.Callers.Attempt | commit.go:397-497 | an attempt is its step: the unique index lets one operation of a key in |
| Protocol.Callers.Commit | commit.go:349-394 | whatever befalls four attempts and the waits between them, the loop is a run of steps among whatever the others do; every attempt before the last failed on a conflict, its caller still waiting; it gives up only after the fourth, or where the last failed on no conflict or its caller's time was over; and it answers with a new operation exactly when one of the four attempts commits and is heard on a key nobody spent, every one before it having failed on a conflict |
| Protocol.ASpentKeyIsAnswered | commit.go:1407-1504 | a caller that finds its key spent is answered there, and tries nothing |
| Protocol.AnUnspentKeyIsTried | commit.go:349-394 | and one that finds it unspent goes on to its attempts |
| Protocol.EveryRunIsInOrder | commit.go:349-497 | what every run of every interleaving keeps of rows, callers and answers |
| Protocol.OneKeyOneOperation | commit.go:349-394 | a key has at most one operation; every receipt under it is about that one and to a request of its claim; at most one is not a replay; and it is of another request than the one it answers exactly when the two are for different things, and then the answered one wrote nothing |
| Protocol.RefusedWroteNothing | commit.go:1407-1504 | a conflict names a request of another claim under the key, and nothing was written by the one refused; nor by one that gave up after a lookup that answered, but for a commit of its own in flight that landed after it |
| Protocol.AMismatchWritesNothing | commit.go:1407-1504 | a request under a key a request of another claim is recorded under never writes and is never answered with a receipt |
| Protocol.TwoHoldsOneKey | hold.go:299-382 | a run where the capture of a second hold is answered with the receipt of the first, and its hold is in no operation |
| Protocol.TwoInstallmentsOneKey | credit.go:839-862 | a run where the payment of a second installment is |
| Protocol.GivingUpAfterAFailedLookup | commit.go:378-392 | a run where a caller gives up and its operation is there |
| Protocol.GivingUpBeforeItLands | commit.go:378-392 | a run where a caller gives up after a lookup that found nothing, and its operation lands |
| Protocol.TheLoopEnds | commit.go:350-393 | a caller is done after at most nine steps of its own, whatever the others do |
| Deadlock.AttemptsAreInOrder | commit.go:432-490 | every attempt takes its rows in one order: the operation, the hold, the wallets by identifier, the operation it marks |
| Deadlock.AttemptsTakeWhatTheyTouch | commit.go:432-490 | and takes exactly the rows it touches: its key, what it settles, its hold, the wallet of every movement, the operation it marks |
| Deadlock.HoldPlansAreInOrder | hold.go:493-510 | so do placing and giving back a hold |
| Deadlock.EveryRunIsExclusive | commit.go:726-746 | in every reachable state no row is had twice and every plan is in order |
| Deadlock.NobodyWaitsForItself | commit.go:726-746 | the wait-for graph of every reachable state has no cycle of any length |
| Deadlock.SomebodyCanStep | commit.go:726-746 | whenever a transaction is not over, some transaction can move |
| Deadlock.NoRunIsLonger | commit.go:726-746 | no run takes more steps than there was to do, in whatever order |
| Deadlock.EverybodyEnds | commit.go:726-746 | every reachable state can be brought to one where all are over |
| Deadlock.OppositeOrdersDeadlock | commit.go:729-733 | in the order of the requests, two payments in opposite directions wait for each other |
| Settlements.MirrorUndoes | service.go:305-342 | the mirrored movements are the opposite of the entries that counted, on every wallet |
| Settlements.SettlingCounts | service.go:356-398 | the confirming movements are exactly what waited |
| Settlements.WithdrawingCancels | undo.go:150-179 | the voiding movements are the opposite of what waited, and count for nothing |
| Settlements.PartGivesItsShare | undo.go:283-312 | a part is its share of what the operation moved, on every wallet |
| SettlementRuns.SettledAtMostOnce | commit.go:413-422 | in every run an operation has at most one reversal, one confirmation and one void, and is never both confirmed and voided |
| SettlementRuns.OnlySomeAreSettled | undo.go:278-285 | in every run what settles another operation names one before it of a kind that may be: no reversal, partial reversal, void or basket is reversed, no exchange or repair in part, no void confirmed or voided |
| SettlementRuns.OrdinaryNeverCollides | commit.go:413-422 | an operation that settles nothing passes exactly when its movements do |
| SettlementRuns.GivenBackWithinTheWhole | undo.go:391-422 | partial reversals never pass what the operation moved, and exclude a whole reversal |
| SettlementRuns.SettlingUndoes | movement.go:796-990 | in every run a reversal and what it reverses add up to nothing on every wallet; a partial one is its share, a confirmation what waited, a void its opposite |
| AcceptanceRuns.WhatIsAccepted | movement.go:796-990 | in every run exactly which operations are reversed, given back in part down to the last unit, confirmed and voided: by what of them counts and waits, what settles them already, what was given back, and whether the movements pass |
| AcceptanceRuns.WhatThereIs | undo.go:113-179 | there is something to reverse, to confirm or to void exactly where there are entries of the operation that count, or wait, or all wait |
| AcceptanceRuns.WhatIsRead | service.go:305-398 | what is read of an operation that is settled is its entries, all of them and nothing else, in the order of the request |
| AcceptanceRuns.OneAmountInOneMoney | undo.go:362-375 | an operation can be given back in part exactly where something of it counts, all of it of one amount in one money |
| AcceptanceRuns.EveryPartIsPositive | undo.go:261-312 | in every run no partial reversal gives nothing back |
| AcceptanceRuns.ForcedAsAsked | service.go:305-398 | no settling forces a wallet unasked: a part only where money leaves, a confirmation where it is asked to, a reversal and a void never |
| ReversalRuns.WhatIsReadStays | service.go:305-398 | in every run what is read of an operation that is settled is the same whenever it is read, however long before the writing |
| ReversalRuns.ReversedAndConfirmed | movement.go:796-990 | in every run an operation both reversed and confirmed leaves on each wallet exactly what waited there, and reversing its confirmation too leaves nothing |
| ReversalRuns.MoneyNobodySent | movement.go:796-990 | a run of one deposit, a transfer, its reversal and its confirmation that leaves both wallets with the amount |
| Rounding.Nearest | credit.go:357-368 | the nearest whole number, ties away from zero |
| Rounding.NearestIsUnique | credit.go:357-368 | no other number is that near |
| Rounding.RoundingIsMonotone | credit.go:357-368 | a larger fraction is never rounded lower |
| Rounding.SameFractionSameRounding | credit.go:357-368 | equal fractions round alike, however they are written |
| Calendar.NumbersFollowDates | credit.go:394-397 | day numbers order dates as dates are ordered, and tell them apart |
| Calendar.NumbersAreGregorian | credit.go:394-397 | the number of every date is the one the Gregorian calendar gives it, in closed form |
| Calendar.YearsAreGregorian | credit.go:394-397 | every year has 365 days, and 366 by the leap rule |
| Calendar.LastDayIsBeforeTheNextFirst | credit.go:371-379 | the last day of a month is the day before the first of the next, as the code reaches it |
| Calendar.AddMonthsKeepsTheDay | credit.go:371-379 | n months later is the same day, or the last of a month that has none |
| Calendar.DueDatesIncrease | credit.go:371-379 | due dates strictly increase |
| Calendar.DueDatesFallOn | credit.go:371-379 | a due date is the first one's day of its month, or the day before the next month begins, counted in the Gregorian calendar |
| PriceTable.Schedule | credit.go:310-354 | accepted exactly for valid terms; every row then has its number, its date and an amount of sixty-four bits, and the rows are the plan of the terms wherever every number of it fits |
| PriceTable.InstallmentsFallOn | credit.go:310-379 | the day every installment of a schedule falls on, in the closed form of the Gregorian calendar |
| PriceTable.PlanClosesThePrincipal | credit.go:310-354 | principal parts add up to the principal, no part is negative and interest never rises |
| PriceTable.EvenAmounts | credit.go:319-328 | without interest amounts never rise and differ by at most one |
| PriceTable.PaymentCoversInterest | credit.go:331-337 | the level payment covers the first interest |
| PriceTable.PriceTableErrorBound | credit.go:331-352 | every row before the last is the level payment, or closed the balance for less with nothing after it; the last differs from it by at most ((1+i)^n - 1)/i units |
| CreditQuotes.QuoteIsExact | credit.go:414-425 | a quote is the exact late fee, interest by the day and total exactly where the two whole products and the total fit; the shorter product interest goes through need not |
| CreditQuotes.LateFeeExactWhenItFits | credit.go:421-421 | the late fee is exact exactly when its product fits |
| CreditQuotes.MoraExactWhenItFits | credit.go:422-422 | the interest is exact exactly when the product of all three factors fits, although it is computed through two wrapped ones |
| CreditQuotes.LateFeeLeavesTheRange | credit.go:421-421 | an installment whose late fee is wrong |
| CreditQuotes.MoraLeavesTheRange | credit.go:422-422 | an installment of which only the interest is |
| CreditQuotes.LatenessGrows | credit.go:414-425 | lateness never costs less a day later |
| CreditWrites.WhatLatenessCosts | credit.go:414-425 | nothing up to the due date; after it the whole numbers nearest to a share of the amount, once, and to a thirtieth of the monthly one by the day, ties up |
| CreditWrites.WhatClearsAnInstallment | credit.go:443-460 | before its day an open installment is cleared without its interest, on it or after it at what it costs alone |
| CreditQuotes.QuotePayoff | credit.go:443-460 | the loop is the totals over the open installments in sixty-four bits, whatever fits |
| CreditQuotes.PayoffIsExact | credit.go:443-460 | where its numbers fit they are the exact totals |
| CreditQuotes.PayoffAddsUp | credit.go:443-460 | the total is the installments cleared one by one |
| CreditQuotes.PayoffNeverFalls | credit.go:443-460 | a payoff never falls as the day advances, nor below the open principal |
| CreditBook.CreditAgreementRows.constructor | credit.go:474-602 | the rows of an agreement that opens |
| CreditBook.CreditAgreementRows.OpenCredit | credit.go:504-602 | the terms refused exactly where they are not valid, or where what the installments add up to leaves the range; otherwise the agreement is active and owes what was drawn, and its rows are the plan's: numbered from one, due a month apart from the first date, each of its own principal and interest, all open |
| CreditBook.CreditAgreementRows.OpenOn | credit.go:536-602 | the rows written of a schedule, and a refusal exactly where a running total of them leaves the range |
| CreditWrites.OpensOnItsPrincipal | credit.go:510-586 | the open principal parts of an agreement that opens add up to its principal, every amount is its two parts, and none is due before the first date |
| CreditWrites.PayingOffEarlyCostsThePrincipal | credit.go:443-460 | paying it off before the first date costs exactly its principal, and nothing for lateness |
| CreditBook.AnOpenedAgreementIsExplained | credit.go:504-602 | and then its debt is its open installments, which is where every run starts |
| CreditBook.CreditAgreementRows.PayInstallment | credit.go:792-912 | paying an installment is its answer, on whatever was read before |
| CreditBook.CreditAgreementRows.PayOffCredit | credit.go:971-1069 | paying off is its answer, at the sixty-four-bit quote of what was read before, whatever fits |
| CreditBook.CreditAgreementRows.CancelCredit | credit.go:1097-1170 | cancelling is its answer, owing what was read before |
| CreditBook.CreditAgreementRows.SweepCredit | credit.go:1220-1280 | the sweep of one agreement is its answer |
| CreditWrites.PaymentWrites | credit.go:839-891 | what a payment writes, however stale its reading: that installment paid, with what was paid and the day's late fee and interest; its amount deposited; no other row |
| CreditWrites.PayoffWrites | credit.go:1018-1056 | what a payoff writes: every installment read as open paid at what it costs that day, without its interest before it; the rebate; and what they add up to deposited |
| CreditWrites.CancelWrites | credit.go:1097-1170 | when a cancellation refuses, when it finds nothing to do, and what it writes: the agreement closed, every open installment cancelled and what was read as open deposited |
| CreditWrites.SweepWrites | credit.go:1243-1264 | an installment is overdue after a sweep exactly when it was, or is open past its day, and no other column changes |
| CreditWrites.MarkWrites | credit.go:1243-1264 | one statement of a sweep, however stale its reading, marks one installment, open, late and not marked as it was read and as it is, and nothing else |
| CreditWrites.DelinquentAfterTheGrace | credit.go:916-918 | an agreement is delinquent after a sweep exactly when it was, or is active with an installment open more days past due than its grace; the last day of grace is not one |
| CreditBook.EveryCallKeeps | credit.go:792-1280 | every call keeps the terms, ends the agreement exactly when nothing is open, and moves the debt with the open installments but for an overtaken cancellation |
| CreditBook.DebtOverEveryRun | credit.go:792-1280 | in every run, however stale its readings, the debt is the open installments less what overtaken cancellations deposited |
| CreditBook.DebtIsTheOpenInstallments | credit.go:792-1280 | never more than the open installments, and exactly them in the runs no cancellation of which was overtaken, and only those |
| CreditBook.CancelExplainsTheDebt | credit.go:1123-1157 | a cancellation keeps the debt explained exactly when what it read as owed is still owed |
| CreditBook.PaidInBetween | credit.go:1123-1157 | any payment in between is deposited twice |
| CreditBook.CancelOvertaken | credit.go:1123-1157 | an agreement and a run where one is |
| CreditBook.PaymentIsAccepted | credit.go:792-862 | however stale its reading, a payment is judged as of the write: accepted exactly where the installment is open by then and the payment covers what it costs that day |
| CreditBook.AnInstallmentIsPaidOnce | credit.go:849-862 | in every run no installment is paid twice |
| CreditBook.PaymentDecidesTheStatus | credit.go:893-912 | on any reading a payment leaves the agreement settled exactly when nothing is open, and delinquent exactly when it was and something is open, and either that is past its grace or the reading was not yet delinquent |
| CreditBook.RegularIsLeftDelinquent | credit.go:893-912 | so an agreement with nothing late is left delinquent exactly when it became so after it was read |
| CreditBook.SweptWhilePaying | credit.go:893-912 | a run where one is |
| CreditBook.PayoffWritesItsTotal | credit.go:1018-1056 | a payoff on any reading passes exactly when what it read as open is all open still, something is, and what is paid covers its quote; and what it writes as paid, installment by installment, is then the total of that quote |
| CreditBook.ScheduleOpensInOrder | credit.go:510-586 | an agreement opened from a schedule has its due dates in order and no negative part |
| CreditBook.OrderOverEveryRun | credit.go:792-1280 | and keeps them in order over every run |
| CreditBook.OldestDecides | credit.go:1265-1267 | the first open installment is past its grace exactly when any is |
| CreditBook.SweepFindsTheLate | credit.go:1234-1278 | an agreement is delinquent after a sweep nothing came in between of exactly when it was, or was active with something past its grace |
| CreditBook.ASweepIsItsStatements | credit.go:1243-1276 | the marks of a sweep one by one and then its mark of the agreement, on one reading, are the sweep of an agreement nothing comes in between of |
| CreditBook.RegularIsMarkedDelinquent | credit.go:1265-1267 | an agreement with nothing late any more is marked delinquent exactly when it was active and something late as the sweep read it |
| CreditBook.PaidWhileSweeping | credit.go:1265-1267 | a run where one is |
| CreditBook.SweepsCompose | credit.go:1234-1278 | sweeping an earlier day and then a later one is sweeping the later one |
| Listing.ListOperations | listing.go:594-709 | a page is the rows of the whole listing the request asks for, with a cursor exactly where there is more, although it is read turned around; no more rows than asked, each one the filter keeps; and newest first by date, oldest first, largest first by amount or smallest first, ties by wallet and then by position, the same way |
| Listing.ReverseInPlace | listing.go:679-683 | the rows reversed |
| Listing.PagesAreSorted | listing.go:116-128 | every page of a listing, however it is asked for, is in the order its sort names, by date or by amount |
| Listing.WhatIsReadIsSorted | listing.go:594-709 | and so is all that was read by following the cursors while rows are appended, as one listing |
| Listing.KeysetIsTheOrder | listing.go:631-650 | the clause of a cursor keeps exactly the rows after its anchor in the order of the query |
| Listing.NothingIsMissedOrRepeated | listing.go:594-709 | following the next cursors while rows are appended reads every row that was there at the start exactly once and in order |
| Listing.SelectWalks | listing.go:652-667 | what a filter keeps, in order, is a walk of rows that are in the ledger |
| Listing.CursorPagesAreTheListing | listing.go:594-709 | on a ledger that stands still the pages are the listing |
| Listing.NumberedPagesAreCursorPages | listing.go:661-663 | a numbered page is the page the cursors come to, cursors included |
| Listing.BackIsThePageBefore | listing.go:684-703 | the previous cursor reads exactly the page before, cursors included |
| Listing.CursorsReadBack | listing.go:1089-1108 | a cursor reads back as what it was written of, and nothing else reads as one |
| Statuses.DescribeRows | listing.go:714-827 | every row is given the one status its operation and what settles it derive |
| Statuses.GatherSettlers | listing.go:749-767 | what is gathered of an operation is exactly what settles it |
| Statuses.AnotherSettlesIt | listing.go:979-1013 | an operation is settled exactly by another one of the kind that names it, never by naming itself |
| Statuses.FilterKeepsWhatAnswers | listing.go:979-1013 | a status filter keeps exactly the rows whose operation is there and that answer the status |
| Statuses.TheTwoAgree | listing.go:810-827 | the SQL and the Go agree about a row exactly when its operation is there |
| Statuses.ARowWithoutItsOperation | listing.go:810-827 | a row that is listed as pending and kept by no filter |
| Statuses.TheFiltersPartition | listing.go:979-1013 | the six filters keep each such row exactly once, and no other |
| StatusRuns.AListingSaysWhatHappened | listing.go:714-1013 | in every run an entry that waits is listed as confirmed, voided or pending by what settles its operation, one that counts as reversed once its operation was, or its parts add up to its amount, as reversed in part before, and as settled otherwise; and the SQL filter of that status, and no other, keeps it |

## Left out

- Ledger.LedgerRows.Walk: the pages of the walk, and the gaps, counts and last balance it reports beside the two sums; entries are read in the order of the table.
- Ledger.LedgerRows.ReleaseExpired: the query that finds the expired holds; the list is an argument, as stale as it likes. A hold's time is not in the guarded update of the package either.
- Ledger.LedgerRows.CaptureHold: whether the hold's time has passed, which the package asks before its transaction and never in it.
- Ledger.LedgerRows.PlaceHold: the key of a hold and the hold a second request under it is answered with.
- Transfers.Transfer: parsing the amount, which is `Amounts.ParseAmount`, and the lookup of the key, which is `Protocol.Callers.Commit` and what it starts from; the order in which two refusals of one payment are found.
- Protocol.Callers.Commit: how long the waits between attempts are, and which driver errors are conflicts: both are arbitrary here, which allows every run the package has.
- Protocol.OnlyTheSameRequestIsAnswered: baskets and refunds, whose kinds are theirs alone, so no row of theirs answers a request of these nor the other way round.
- Ledger.LedgerRows.Write: the unique key of an operation, which is `Protocol.Callers.Attempt`, and the conversion, charge and purchase rows beside it, which are only inserted.
- Deadlock.EveryRunIsExclusive: rows of agreements and installments, which every transaction on an agreement takes after the agreement's wallet, and the sweep one statement at a time.
- PriceTable.Schedule: what the numbers are when one of them does not fit: only that it is then sixty-four-bit arithmetic.
- CreditBook.CreditAgreementRows.OpenCredit: what the parts are when a number of the plan does not fit; the key of the call and the guard of the withdrawal on its wallet.
- CreditBook.CreditAgreementRows.PayInstallment: the key of a credit call, which is the protocol's, and the movement's own guard on the wallet, which is the ledger's.
- CreditBook.CreditAgreementRows.PayOffCredit: the same two.
- CreditBook.CreditAgreementRows.CancelCredit: the same two; and where nothing is owed, that its two statements are not in one transaction.
- CreditBook.CreditAgreementRows.SweepCredit: other calls between its statements, which are steps of their own in the runs (`Mark` and `Flag`).
- CreditBook.EveryCallKeeps: a call that reads the agreement and then its installments reads one state here.
- CreditQuotes.QuotePayoff: the Go duration a number of days is computed through, which saturates beyond three hundred years.
- Calendar.DueDatesIncrease: instants and time zones; days are local day numbers.
- Listing.CursorsReadBack: the base 64 a cursor is spelled in.
- Listing.ListOperations: counting the rows, and the text, metadata and holder filters, which are one arbitrary filter on columns that never change.
- Statuses.DescribeRows: the other columns of a row, and tenants, which are one here.
- `Times`, baskets, refunds and purchases: more movements of the same kinds under the same guards.
- Withdrawal requests, carts, payout accounts and their resources: no arithmetic and no rule over several rows beyond the ones above.
- Authorization, tenants, events, translation, configuration, commands, views and routes: who may ask and who is told.
- SQL dialects, quoting, and the statement MySQL is moved with in two: the model is of the predicate each statement means.
- Clocks, randomness and identifiers: arbitrary values, or places in a table.
