# AmpHive money path, meters and gates: a verified model

A Dafny model of the parts of AmpHive that decide what a driver is charged, what an operator is paid,
and who may start, book or call. Nothing here runs the backend: each module restates what one part of the
code does, in the code's own form, and proves what that part is for.

| module | what it models | main results |
|---|---|---|
| `Money` | rounding to cents, energy cost | nearest cent with ties away from zero, monotone, clamps compose |
| `WeekdayMask`, `Tariffs`, `Rates` | time-of-day slots, the boundary of a rate, the fallback chain | the boundary is sound, later than now, and absent only with no active slot; slot order is irrelevant without conflicts |
| `SlotEdits` | slot creates, updates and deletes between an unlocked check and the write | rows stay apart exactly while each write would still pass its check |
| `MaxRate` | the dearest rate a session could meet | it bounds every instant of the window, a day-long one for ever; exactly when it is charged |
| `PriceDisplay` | the price shown to drivers, one plug and batched | the announced change is the first; exactly when silence is wrong; the batch equals the chain lookup plug by plug |
| `Billing` | frozen segments and the open one | closing changes nothing owed; cost never falls; half a cent per segment from the exact integral |
| `Repricing` | lazy resolution behind `rate_valid_until` | every frame leaves the rate a fresh resolution would give; when a start resolved before an edit is in sync |
| `EnergyCounter` | the counter a gateway reports, its falls and its replayed frames | exactly when no more is billed than was delivered, and exactly when all of it is |
| `Metering` | the bill said of the readings alone | every reading counts; what is owed is each rise at the rate it was metered at, to half a cent a segment |
| `Holds` | authorization holds at start, re-sizing, stop | worst case is covered up to a stated rounding slack; holds stay inside the wallet over any run whose patches and debits leave room, and exactly then |
| `Settlement` | payouts claiming sessions, refunds, cash top-ups | where every coin is over every run, and so exactly when coins are conserved; contiguous live windows; paid is final |
| `PayoutRules` | what each settlement step does to the rows | exactly when a refund, payout, cancel or top-up is accepted, and what it changes |
| `TopupPool` | the pool a top-up reads from its tenant's summary, statement by statement | a cancel at every landing point: when the pool read differs from the true one |
| `RateLimiter` | the sliding window with lazy eviction and sweeps | answers as an unbounded log would; the wait is exact |
| `Agent` | the edge meter, watchdog and poll loop | the meter is the largest rise to within epsilon; frames never fall; survivors are inside both limits |
| `Admission` | circuit capacity under concurrent starts | no interleaving overloads a circuit; one session to a plug |
| `Wallet` | credits, refunds, adjustments, closure as transactions | each Razorpay id once; balance is the ledger; never negative |
| `Reservations` | bookings, cancels, expiry, starts | booked windows disjoint and users within their cap, exactly while undone starts have room; when a cancel sticks |
| `BookingRules` | bookings, starts and expiries said of windows and instants | exactly when a request is booked; a hold in force stands and keeps others out |
| `Invoices` | the GST split, printed numbers, issuing | one invoice a session, serials 1..n, numbers equal exactly when prefix, year and serial are |
| `FakeGateway` | the simulated gateway's slot table and watchdog | at most four slots, sessions never reaped, idle slots named |

Money is in integer cents (rates in cents per kWh), energy in real kWh. Wall-clock time is integer seconds
with second 0 a Monday's midnight; zones are fixed offsets. A database transaction is modelled by its steps:
an unlocked look, taking a row lock, and a commit or rollback that is atomic and checks unique keys. A step
whose lock is taken changes nothing, so a theorem over all step sequences is one over all interleavings.
Code that updates objects or rows in place appears as classes and methods; each method's `ensures` equates the
new state with a function of the old one, and the theorems are about those functions.

## Where the code and its own description differ

The model follows the code. Each difference is a lemma, with its exact condition or bound.

- Assigning a plug, group or tenant another tariff does not expire running sessions
  (`Repricing.UnmarkedEditIff`, `Repricing.AssignmentCanGoUnnoticed`). Switching automatic repricing off has
  the same effect for every edit. A marked edit that commits between a start's resolution and its commit misses the
  row, which is in sync exactly when nothing was edited there or the rates agree until it is due
  (`Repricing.CommittedInSyncIff`, `Repricing.EditCanMissTheStart`).
- The slot routes promise non-overlapping slots, but check without a lock: two creates at once both pass
  (`SlotEdits.BothCreatesPass`). A write keeps the slots apart exactly when its check would still pass as it lands
  (`SlotEdits.WriteIff`), which editing one at a time ensures (`SlotEdits.OneAtATimeStaysApart`).
- The dearest-rate search describes a closed window but covers a half-open one (`MaxRate.EndInstantEscapes`),
  and its 24-hour shortcut says it touches every weekday, which is untrue and only makes the answer higher
  (`MaxRate.DayLongWindowOverestimates`): `MaxRate.ChargedIff` says for every window when the answer is charged in
  it, and from a week on it always is, or is the flat price (`MaxRate.WeekLongIsAttained`).
- Rounding each segment can take the bill past the hold by a cent for every two closes (`Holds.RoundingCanOverrunTheHold`).
  Re-sizing a hold keeps the holds inside the wallet only while what is owed fits the headroom (`Holds.PatchIff`);
  a refund clawed back or an admin debit does not look at holds and keeps them backed only while it leaves them
  covered (`Holds.DebitKeepsIff`); and after a price fall the new hold covers the worst bill only if what is owed
  so far is no more than that energy at the new rate (`Holds.ResizedHoldCoversIff`).
- A replayed frame banks no fall of its own, so that old readings cannot pass for a reset, but it is billed on top of
  every fall banked since it was taken. More is billed than was delivered exactly when those falls exceed what was
  delivered since (`EnergyCounter.NeverOverbilledIff`, `EnergyCounter.ReplayBillsTwice`). Banking a fall is said to be
  right for every restart; what was delivered across the fall is not billed (`EnergyCounter.BilledInFullIff`).
- The price display goes silent about a later change of the same day exactly when the next boundary repeats the
  price and a later one changes it (`PriceDisplay.SilenceIsWrongIff`).
- Settlement draws coins twice when a top-up begins before a payout request and commits after it, since its row is
  stamped with its transaction's start (`TopupPool.LateTopupRun`), and loses coins when one claim exceeds the largest
  amount a money column holds (`Settlement.OversizedClaimLosesCoins`). `Settlement.CoinsAreConserved` accounts for both, so
  that coins are conserved exactly when the two amounts agree. A top-up is late exactly when its stamp is behind the
  watermark as it commits (`Settlement.LateAtCommitIff`), and a later cancel of that payout puts it right again.
  Cancelling takes no tenant lock, so it can fall between the statements of a top-up's earnings summary. Early in it
  the pool read is too large exactly for the freed window's top-ups and, one statement later, its refunds
  (`TopupPool.EarlyCancelIff`); late in it the payout's net is missing, less late top-ups (`TopupPool.LateCancelIff`).
  In `TopupPool.OverstatedRun` a refund alone makes a pool of 5.40 read as 9.00.
- A start whose ON command cannot be published writes its reservation back to Booked after releasing its locks,
  which is sound exactly when the window is still free, its user still has room, and every booking that has already
  passed a check would pass it again (`Reservations.UndoKeepsIff`, `Reservations.UndoOverlapExample`,
  `Reservations.UndoBreaksBookingInFlight`). A cancel promises to settle exactly once against a start, and does
  exactly when no start in flight remembers the row (`Reservations.CancelSticksIff`).
- The general plug status setter can free a plug in use, so that a second session starts on it
  (`Admission.StatusWriteIff`, `Admission.FreedPlugStartsTwice`); circuit capacity survives even that.
- A custom invoice prefix can print another tenant's numbers (`Invoices.CustomPrefixCanCollide`): numbers are the same
  exactly when prefix, year and serial are (`Invoices.NumbersEqualIff`), and a commit is turned away exactly for an
  earlier invoice of its session or such a number (`Invoices.CommitIff`).
- A simulated plug dropped from the roster during its session is not reaped once idle, as its field's comment says,
  but only after another roster (`FakeGateway.DroppedPlugLeavesIff`); a scheduled counter reset replaces that
  tick's watchdog test (`FakeGateway.SurvivesIff`).

The billing helper would bill a slice of energy twice if a segment were closed below its own start
(`Billing.CloseBillsOnceIff`); no run of frames does that (`Repricing.ClosesNeverGoBack`).

## Model

| member | source | states |
|---|---|---|
| Money.RoundIsNearest | backend/services/money.py:43-70 | rounding gives the one nearest cent, and of two equally near the one further from zero |
| Money.ToMoneyError | backend/services/money.py:43-70 | in range the result is within half a cent; out of range it is the bound on that side |
| Money.ToMoneyOdd | backend/services/money.py:43-70 | a credit and a debit of one size round to one size |
| Money.EnergyCostMonotone | backend/services/money.py:73-92 | more energy at a higher price never costs less, and nothing costs less than zero |
| Money.EnergyIsNotRoundedFirst | backend/services/money.py:73-92 | the product is rounded once; rounding the energy first would give another answer |
| WeekdayMask.CommonBitIffCommonDay | backend/services/pricing.py:319-327 | two day masks share a bit exactly when they share a weekday |
| WeekdayMask.ColumnsOverlapIff | backend/services/pricing.py:319-327 | on the columns as stored, admitted rows conflict exactly when some weekday and minute lies in both |
| Tariffs.WinnerKeepsWinning | backend/services/pricing.py:98-166 | the slot that applies keeps applying until it ends, whatever overlaps it |
| Tariffs.BoundaryProgresses | backend/services/pricing.py:98-166 | the boundary is strictly later than the instant asked about |
| Tariffs.BoundaryIsSound | backend/services/pricing.py:98-166 | until the boundary, across days and weekdays, the same slot and rate apply |
| Tariffs.NoBoundaryIffNoActiveSlot | backend/services/pricing.py:98-166 | there is no boundary exactly when no slot is active on any weekday |
| Tariffs.GapBoundaryOpensASlot | backend/services/pricing.py:98-166 | from a gap, the boundary is an instant at which a slot applies |
| Tariffs.OverlapIff | backend/services/pricing.py:319-327 | the operator's conflict check holds exactly when some weekday and minute lies in both slots |
| Tariffs.OrderDoesNotMatter | backend/services/pricing.py:98-166 | without conflicts the resolver gives one answer for every order of the slots |
| Tariffs.OrderMattersForDuplicateWindows | backend/services/pricing.py:140-146 | two slots with one window and two prices: the order decides |
| SlotEdits.WriteIff | backend/routers/cpo/_tariffs.py:165-263 | a slot write keeps the rows apart exactly when its check would still pass as it lands, or its row is gone |
| SlotEdits.RowsStayApart | backend/routers/cpo/_tariffs.py:165-263 | over every run of checks, writes and deletes whose writes are still clear the rows stay apart |
| SlotEdits.OneAtATimeStaysApart | backend/routers/cpo/_tariffs.py:165-263 | edits made one at a time always are |
| SlotEdits.BothCreatesPass | backend/routers/cpo/_tariffs.py:165-185 | two creates that check before either writes both pass and leave a conflict |
| SlotEdits.ApartIsNoConflicts | backend/routers/cpo/_tariffs.py:165-185 | rows kept apart are what the resolver's order theorems ask for |
| SlotEdits.EditIff | backend/routers/cpo/_tariffs.py:165-263 | alone, a create adds its slot and an update replaces its row exactly when no other row's slot overlaps, and else nothing changes |
| SlotEdits.NothingToCheck | backend/routers/cpo/_tariffs.py:165-263 | a request under way starts no other edit, and a row that is gone is not updated |
| SlotEdits.DeleteDeletes | backend/routers/cpo/_tariffs.py:266-281 | a delete takes its row and no other |
| Rates.ResolutionStaysRight | backend/services/pricing.py:213-244 | a resolved rate is right until its boundary, for good when it has none |
| Rates.ResolutionProgresses | backend/services/pricing.py:213-244 | the UTC boundary is later than the instant resolved |
| Rates.ChainOrder | backend/services/pricing.py:169-210 | a plug's own live tariff decides, else its group's, else its tenant's, else the environment's price, and the tenant's own zone decides the minute of day |
| Rates.RateIsItsSlots | backend/services/pricing.py:98-166 | without conflicts the price at an instant is that of the slot whose weekday and minutes hold its local time, and the flat price with none |
| Rates.RateIsTheEarliest | backend/services/pricing.py:140-146 | of several such slots the price is that of the earliest, and of two that start together the one that ends first |
| MaxRate.MaxRateOverWindow | backend/services/pricing.py:263-316 | the day-walking loop and the 24-hour shortcut return the largest considered price |
| MaxRate.MaxRateBoundsWindow | backend/services/pricing.py:263-316 | no instant of the window is charged above the answer |
| MaxRate.DayLongBoundsForever | backend/services/pricing.py:263-316 | sized over a day or more, the answer bounds every instant, inside the window or not |
| MaxRate.MaxRateIsAttained | backend/services/pricing.py:263-316 | below a day the answer is the flat price or is charged at some instant of the window |
| MaxRate.ChargedIff | backend/services/pricing.py:263-316 | a price is charged in a window of any length exactly when it is the flat one and there is a gap, or a slot's whose own days the window touches |
| MaxRate.WeekLongIsAttained | backend/services/pricing.py:263-316 | over a week or more the answer is the flat price or is charged |
| MaxRate.EndInstantEscapes | backend/services/pricing.py:263-316 | the closing instant is charged above the answer exactly when a dearer slot starts on it |
| MaxRate.EndInstantExample | backend/services/pricing.py:263-316 | a dearer slot at one o'clock escapes the hour before |
| MaxRate.DayLongWindowOverestimates | backend/services/pricing.py:263-316 | the shortcut counts a slot of a weekday the window never touches |
| PriceDisplay.AnnouncedChangeIsTheFirst | backend/services/pricing.py:362-386 | an announced change is today, later than now, and the first at which the price differs |
| PriceDisplay.NoBoundaryTodayMeansNoChangeToday | backend/services/pricing.py:362-386 | with no boundary left today the shown price holds to midnight |
| PriceDisplay.SilenceIsWrongIff | backend/services/pricing.py:362-386 | no change is announced although the price changes later that day, exactly when the next boundary repeats the price and a later one that day changes it |
| PriceDisplay.ChangesAtABoundary | backend/services/pricing.py:98-166 | the price changes later that day exactly when one of the day's remaining boundaries changes it |
| PriceDisplay.RepeatedPriceHidesAChange | backend/services/pricing.py:362-386 | a boundary repeating the price hides a real change later that day |
| PriceDisplay.PickIsResolve | backend/services/pricing.py:169-210 | picking from the joined row's chain is the link-by-link lookup, dangling ids included |
| PriceDisplay.PickFromFetched | backend/services/pricing.py:389-401 | fetching only the ids of the chains changes no pick |
| PriceDisplay.FetchTariffs | backend/services/pricing.py:404-475 | the one tariff query finds every live id some chain names, and nothing else |
| PriceDisplay.GroupSlots | backend/services/pricing.py:404-475 | the grouping loop gives each winning tariff its slots in order |
| PriceDisplay.ResolvePriceDisplayBatch | backend/services/pricing.py:404-475 | every listed plug is shown what its own resolution would show, missing tenants included |
| Billing.CloseKeepsCost | backend/services/billing.py:57-108 | closing a segment leaves what is owed at that energy unchanged, legacy rows included |
| Billing.CostMonotone | backend/services/billing.py:57-75 | more energy never owes less |
| Billing.CostIsNearExact | backend/services/billing.py:57-108 | after any segments the bill is within half a cent a segment of the exact integral |
| Billing.CostNeverFalls | backend/services/billing.py:57-108 | over a session's readings and closes the bill never goes down |
| Billing.CloseBillsOnceIff | backend/services/billing.py:78-108 | a close and a later reading bill the energy above the segment's start once exactly when the close is not below it; else just the slice between is billed again |
| Billing.CloseBelowStartBillsTwice | backend/services/billing.py:78-108 | the same in coins, for one row |
| Repricing.ChargingSession.CloseOutSegment | backend/services/billing.py:78-108 | the four segment columns after a close, and nothing else changed |
| Repricing.ChargingSession.RepriceIfDue | backend/services/pricing.py:478-515 | resolves only when due; closes a segment exactly when the rate really changed, and says so |
| Repricing.MarkTenantSessions | backend/services/pricing.py:518-550 | the tenant's active sessions are due at once and no other row is touched |
| Repricing.CacheNeverStale | backend/services/pricing.py:478-550 | over any run of frames and marked edits every frame leaves the rate a fresh resolution gives; a missing boundary means the rate never changes again |
| Repricing.StartedSessionNeverStale | backend/services/pricing.py:478-550 | from a start committed on the basis it resolved, every frame of every marked run leaves the fresh rate |
| Repricing.CommittedInSyncIff | backend/services/session_start.py:140-217 | a start that resolves and later commits is in sync exactly when the basis then in force charges the same until the row is due; so with no edit between, or when due at once |
| Repricing.FirstFrameIff | backend/services/session_start.py:140-217 | the first frame after such a commit has the right rate exactly when it is due or the rates agree |
| Repricing.EditCanMissTheStart | backend/services/pricing.py:518-550 | a marked edit between the two steps leaves a flat session at the old price over every run of frames |
| Repricing.ClosesNeverGoBack | backend/services/mqtt/telemetry.py:564-567 | no frame of any run closes a segment below its start, since the energy never falls (`Metering.EveryReadingCounts` says what it is) |
| Repricing.UnmarkedEditIff | backend/routers/cpo/_tariffs.py:284-371 | after an unmarked assignment a frame has the right rate exactly when it was due anyway or the rates agree |
| Repricing.AssignmentCanGoUnnoticed | backend/routers/cpo/_tariffs.py:284-371 | after an assignment a flat session keeps its old price over every run of frames |
| EnergyCounter.SessionRow.TakeFrame | backend/services/mqtt/telemetry.py:510-567 | the three energy columns after a frame: falls banked on live frames only, implausible and idle frames ignored |
| EnergyCounter.FrameDoes | backend/services/mqtt/telemetry.py:510-567 | energy never falls and reaches the offset and the counter; across a fall past 5 Wh the two together go on from where they stood |
| EnergyCounter.NeverOverbilledIff | backend/services/mqtt/telemetry.py:510-567 | over any live and replayed readings no more is billed than was delivered, exactly when for each replay the falls banked as it came in, beyond the loss already in it, are within what was delivered since it was taken |
| EnergyCounter.FreshReplaysAreSafe | backend/services/mqtt/telemetry.py:510-567 | live frames alone, and replays taken after the last banked fall, never bill more than was delivered |
| EnergyCounter.ReplayBillsTwice | backend/services/mqtt/telemetry.py:523-529 | a replay from before a restart that comes in after it: 9.6 kWh billed for 5.0 delivered |
| EnergyCounter.BilledIsDeliveredLessMissed | backend/services/mqtt/telemetry.py:535-567 | without replays the bill is the energy delivered less what was missed, at the reading where that is most |
| EnergyCounter.BilledInFullIff | backend/services/mqtt/telemetry.py:535-567 | all that is delivered is billed exactly when at the last rise no fall had hidden any of it |
| EnergyCounter.PartialFallBillsOnce | backend/services/mqtt/telemetry.py:538-549 | the counter that fell 47.9 Wh and climbed on bills 1.838 kWh, not 3.0626 |
| EnergyCounter.FramesAreBilled | backend/services/mqtt/telemetry.py:564-580 | a repriced session's energy is its counter's whatever its frames, and on a flat price it owes exactly that energy |
| Metering.EveryReadingCounts | backend/services/mqtt/telemetry.py:564-567 | over any run the energy is the largest reading, or the opening one: every reading is at most it, and it is one of them |
| Metering.ReadingsDecideRate | backend/services/pricing.py:478-550 | after any run of readings and marked edits the row's rate is the one in force at its last reading |
| Metering.OwedIsNearReadings | backend/services/billing.py:57-108 | what is owed after any such run is within half a cent a segment of each rise of the readings times the rate at the reading before it |
| Metering.FlatBill | backend/services/billing.py:57-75 | on a flat price a session owes its largest reading at that price |
| Metering.TenKwhOweFifty | backend/services/billing.py:57-75 | 10 kWh read on a flat 5.00 owe 50.00 |
| Holds.HoldCoversSession | backend/services/session_start.py:140-187 | a session inside its window, or at any time when that is a day or more, and inside its energy limit owes at most the sized amount and one cent for two closes |
| Holds.RoundingCanOverrunTheHold | backend/services/session_start.py:169-187 | that cent is real: 2 cents owed on a 1 cent hold |
| Holds.StartStaysBacked | backend/services/session_start.py:140-207 | a start reserves no more than is free (`Holds.StartReserves` says how much) |
| Holds.PatchIff | backend/routers/sessions.py:456-506 | the new hold covers what is owed; the holds stay within the wallet exactly when what is owed fits the headroom |
| Holds.PatchCanUnback | backend/routers/sessions.py:456-506 | one account whose re-sized holds no longer fit the wallet |
| Holds.FinishStaysBacked | backend/services/session_lifecycle.py:226-276 | stopping debits what is owed up to the hold and the wallet never falls short |
| Holds.DebitKeepsIff | backend/services/wallet.py:54-76 | a clawback or admin debit keeps the holds backed exactly when it leaves them covered or there are none |
| Holds.RepriceOwesTheSame | backend/services/pricing.py:478-515 | repricing a running session changes neither what it owes nor what it holds |
| Holds.HoldsStayBacked | backend/services/wallet.py:79-122 | over any run of starts, readings, price edits, repricings, limit changes, stops, credits and debits the holds fit the wallet, patches and debits meeting the exact condition of each |
| Holds.ResizedHoldCoversIff | backend/routers/sessions.py:456-506 | a re-sized hold covers the worst bill exactly when nothing more can be owed, or the bill fits the headroom and what is owed is at most the energy so far at the dearest rate to come, up to a stated rounding cent |
| Holds.PriceDropUncoversTheRest | backend/routers/sessions.py:456-506 | after a price fall a re-sized hold shrinks below the worst bill |
| Holds.Driver.UpdateSessionLimits | backend/routers/sessions.py:456-506 | a refused patch changes nothing; an accepted one changes only that session's limits and hold |
| Holds.StartReserves | backend/services/session_start.py:140-207 | a start is refused exactly when less than 50.00 is free; the session it adds holds everything free without a limit or with one dearer than that, else the limit's price to half a cent |
| Holds.StartPaysTheBill | backend/services/session_start.py:169-187 | a start whose limit at the dearest rate fits what is free, then any frames inside its window and limit, then its stop: the debit is the whole bill but for one cent for two closes |
| Holds.PatchIs | backend/routers/sessions.py:456-506 | when a patch is refused, and which columns of which session it changes otherwise |
| Holds.PatchSizes | backend/routers/sessions.py:484-506 | the new hold is what is owed, or the limit's price to half a cent while that fits the headroom, or the headroom |
| Holds.MeterReads | backend/services/mqtt/telemetry.py:564-567 | a reading raises that session's energy to it, never lowers it, and touches nothing else |
| Holds.FinishRemoves | backend/services/session_lifecycle.py:226-276 | a stop ends that session and leaves the others as they were |
| Holds.ResolveResolves | backend/services/pricing.py:478-515 | a due session takes the rate in force and one that is not due is left alone |
| Holds.MoneyMoves | backend/services/wallet.py:39-76 | a credit adds its amount or is refused at the column's ceiling; a debit takes it or empties the wallet |
| Settlement.FeeAndNetFoot | backend/services/payouts.py:197-204 | fee and net foot to the gross, neither negative up to a fee of the whole |
| Settlement.Ledger.MarkUnsettledAndSumGross | backend/services/payouts.py:314-367 | claims exactly the unsettled sessions and returns their sum less refunds |
| Settlement.Ledger.RequestPayout | backend/routers/cpo/_payouts.py:96-233 | one pending payout at most; nothing payable rolls claim and row back; the gross is the read-only preview |
| Settlement.Ledger.CancelPayout | backend/routers/cpo/_payouts.py:312-350 | a cancel frees exactly what that payout had claimed |
| Settlement.RunKeepsInv | backend/services/payouts.py:314-406 | over every run, top-ups on whatever pool their summary read included, a claimed session belongs to a live payout of its tenant, live windows chain, and each row accounts for its claim |
| Settlement.SessionsPartition | backend/services/payouts.py:283-367 | each finished session is unsettled or claimed by exactly one live payout of its tenant, and the coins add up so |
| Settlement.RowFoots | backend/services/payouts.py:314-367 | a payout's row and window account for its claim, less what did not fit the column, plus what was topped up late |
| Settlement.ClaimAccountedIff | backend/services/payouts.py:314-367 | a payout's row accounts for all it claimed exactly when those two agree |
| Settlement.CoinsAreConserved | backend/services/payouts.py:207-406 | at any fee, finished coins and late top-ups are unsettled coins, fee, net, top-ups and refunds of every live payout, and lost excess; so conserved exactly when late and lost agree |
| Settlement.OnTimeIsConserved | backend/routers/cpo/_topups.py:93-150 | when every top-up commits with a stamp at or after its watermark, coins are conserved exactly when claims fit |
| Settlement.LateAtCommitIff | backend/database/models.py:1068-1076 | a top-up is late for some live payout exactly when its stamp is behind the watermark at its commit |
| Settlement.LateTopupIsDrawnTwice | backend/routers/cpo/_topups.py:93-150 | a top-up committed with its stamp in a live window adds its coins to that payout's account, which claimed no more |
| Settlement.LiveWindowsAreContiguous | backend/services/payouts.py:394-406 | each live payout starts where the one before it ends, the first at the epoch |
| Settlement.PaidSessionsStayPaid | backend/routers/cpo/_payouts.py:257-283 | a session in a paid payout is never claimed again |
| Settlement.OversizedClaimLosesCoins | backend/services/payouts.py:314-367 | two sessions of the largest amount are paid as one |
| PayoutRules.FeeIsThePercentage | backend/services/payouts.py:197-204 | the fee is the percentage of the gross to half a cent, and the net the rest |
| PayoutRules.FinishAddsASession | backend/services/session_lifecycle.py:314-330 | a finished session is one more unsettled row |
| PayoutRules.RefundIff | backend/routers/cpo/_disputes.py:72-255 | a refund is approved exactly when it is positive and, with those before it, within its session's coins, and no top-up holds the tenant; then it is one more row |
| PayoutRules.RefundsAddUp | backend/services/payouts.py:207-239 | a session's refunds so far grow by each one approved, and by no other session's |
| PayoutRules.RowsCountForTheirTenant | backend/services/payouts.py:207-391 | a session counts while unsettled, a refund and a top-up in their window, each for its own tenant and no other |
| PayoutRules.WatermarkIsLatestEnd | backend/services/payouts.py:394-406 | the watermark is the latest end of the tenant's live payouts, or the epoch |
| PayoutRules.AbortIs | backend/routers/cpo/_topups.py:93-150 | a top-up that fails leaves no row and lets go of its tenant |
| PayoutRules.RequestIff | backend/routers/cpo/_payouts.py:96-233 | a payout is granted exactly when none is pending, no top-up holds the tenant and something is payable; it claims every unsettled session of the tenant and no other, for coins less refunds, fee and top-ups since the last live payout |
| PayoutRules.MarkPaidIff | backend/routers/cpo/_payouts.py:257-283 | a pending payout is marked paid and nothing else changes |
| PayoutRules.CancelIff | backend/routers/cpo/_payouts.py:312-350 | a pending payout's sessions, and no others, are unsettled again |
| PayoutRules.TopupIff | backend/routers/cpo/_topups.py:93-150 | undisturbed, a top-up is issued exactly when it is positive and within the pool; then it is one row stamped with its beginning |
| PayoutRules.PoolIsPayable | backend/services/payouts.py:409-435 | the pool is what a payout at that instant would pay |
| TopupPool.LateTopupRun | backend/routers/cpo/_topups.py:93-150 | a run in which every claim fits and a late top-up draws 5.00 twice |
| TopupPool.LandedReads | backend/services/payouts.py:409-435 | for a cancel after any number of a summary's statements: the pool read, and the true one |
| TopupPool.LandedIsRun | backend/services/payouts.py:409-435 | every such landing is steps of a run |
| TopupPool.EarlyCancelIff | backend/services/payouts.py:409-435 | a cancel before the sessions are summed: never too small, too large exactly when not empty and the freed window had a top-up, or, after the second watermark, refunds that lower the gross by more than the fee gives back |
| TopupPool.FreedRefundsLowerGross | backend/services/payouts.py:409-435 | the freed window's refunds lower the gross exactly when there are any and later ones have not used it up |
| TopupPool.FeeGivesBackACent | backend/services/payouts.py:197-204 | at a fee of at most half, the fee takes all of a difference of one cent at most |
| TopupPool.LateCancelIff | backend/services/payouts.py:409-435 | a cancel after the sessions are summed: too small exactly when the payout's net less late top-ups leaves something to draw, too large exactly when late top-ups exceed it |
| TopupPool.FeeCentIsACent | backend/services/payouts.py:197-204 | the fee on two grosses together differs from the fees on each by a cent at most |
| TopupPool.LateCancelOverRefunded | backend/services/payouts.py:409-435 | with more refunds than coins since, the pool read is empty, wrongly exactly when the cancel frees something |
| TopupPool.OverstatedRun | backend/services/payouts.py:409-435 | a run without top-ups in which the pool reads 9.00 where 5.40 is left, and the top-up may take it |
| RateLimiter.EvictedIsCount | backend/services/rate_limit.py:66-83 | after eviction the queue's length is the number of log entries in the window |
| RateLimiter.SlidingWindowRateLimiter.Check | backend/services/rate_limit.py:66-83 | allowed exactly when the unbounded log has fewer than the maximum in the window; a wait is positive and exact |
| RateLimiter.SlidingWindowRateLimiter.Reset | backend/services/rate_limit.py:99-105 | forgets that key's calls and no others |
| RateLimiter.SlidingWindowRateLimiter.MaybeSweep | backend/services/rate_limit.py:107-120 | the sweep leaves the log as it was and only keys with a call in the window |
| RateLimiter.WaitIsExact | backend/services/rate_limit.py:66-80 | a blocked key opens exactly when its oldest counted call leaves the window |
| RateLimiter.CallIsLoggedIff | backend/services/rate_limit.py:66-105 | a call is logged for its key exactly when fewer than the maximum are in the window; a reset forgets its own key only |
| RateLimiter.AllowedCallsAreSpaced | backend/services/rate_limit.py:51-57 | over any run, one call more than the maximum spans the window |
| Agent.Session.MonotonicSessionKwh | agent/amphive_agent/core.py:60-87 | the stored meter after a reading, and whether it changed |
| Agent.MeterIsMaxRise | agent/amphive_agent/core.py:60-87 | whatever the readings and resets, the figure is a rise between two readings and no rise exceeds it by more than epsilon |
| Agent.MeterNeverInvents | agent/amphive_agent/core.py:60-87 | the figure never exceeds the meter's total upward movement |
| Agent.SecondReadIsIdle | agent/amphive_agent/core.py:367-377 | reading a value again changes nothing: the frame carries the figure the watchdog tested |
| Agent.SurvivorIsWithinLimits | agent/amphive_agent/core.py:308-365 | a poll's survivor is inside both limits by the figure of its frame; a cut-off session was not |
| Agent.EnergyNeverFalls | agent/amphive_agent/core.py:308-397 | a session's effective energy never falls over polls and limit changes |
| Agent.FramesNeverFall | agent/amphive_agent/core.py:308-397 | a later frame of a session never shows less, the trip frame included |
| Agent.MeterLatches | agent/amphive_agent/core.py:323-345 | once a meter is seen the fallback stays frozen |
| Agent.MeteredSessionIsMaxRise | agent/amphive_agent/core.py:201-397 | a plug metered at ON is limited by its largest rise for its whole life |
| Agent.FallbackWithinPower | agent/amphive_agent/core.py:330-345 | the meterless fallback never exceeds full power over the elapsed time, stalls and restarts included |
| Agent.AmpHiveAgent.On | agent/amphive_agent/core.py:202-224 | a fresh session anchored at the meter, other plugs untouched |
| Agent.AmpHiveAgent.Off | agent/amphive_agent/core.py:229-232 | the plug's session is gone, other plugs untouched |
| Agent.AmpHiveAgent.SetLimits | agent/amphive_agent/core.py:233-247 | re-caps a running session only, without re-anchoring it |
| Agent.AmpHiveAgent.WatchdogAndPublish | agent/amphive_agent/core.py:308-365 | one poll's new session, frame and alarm, other plugs untouched |
| Agent.AmpHiveAgent.PublishTelemetry | agent/amphive_agent/core.py:367-397 | the frame re-reads the meter and stores what changed |
| Agent.AmpHiveAgent.SetInterval | agent/amphive_agent/core.py:190-194 | the poll interval stays between half a second and a minute |
| Agent.OnLimitsHold | agent/amphive_agent/core.py:202-224 | after ON and any polls a survivor is below the limits sent, or below 30 kWh and four hours where none was |
| Agent.NewLimitsHold | agent/amphive_agent/core.py:233-247 | a session outlives new limits and the next poll exactly when it is below them, and below the old one where none was sent |
| Agent.SteadyLoadIsCounted | agent/amphive_agent/core.py:330-345 | a steady load on a plug without a meter, polled without gaps from ON, is counted at exactly its energy |
| Agent.IdlePlugIsAvailable | agent/amphive_agent/core.py:308-397 | a plug without a session is framed as available, at no energy |
| Agent.DurationComesFirst | agent/amphive_agent/core.py:90-107 | the limit reported is the duration's when that is reached, else the energy's, else none |
| Agent.Round4IsNearest | agent/amphive_agent/core.py:367-397 | a frame's energy is a multiple of a ten-thousandth, within half of one |
| Agent.SeenMeterLatches | agent/amphive_agent/core.py:323-345 | a positive meter reading is remembered and adds nothing to the fallback |
| Admission.LoadCoversCommitted | backend/services/caps.py:46-63 | the load read from sessions never understates the plugs in use and is exact with one session a plug |
| Admission.CircuitNeverOverloads | backend/services/caps.py:120-164 | under any interleaving of starts, ends and status writes no circuit's committed load exceeds its limit and the slack (`Admission.AmpsStayWithinLimit` in amps) |
| Admission.AdmitsIffItFits | backend/services/caps.py:144-164 | a start is admitted exactly when the circuit with it stays within its limit |
| Admission.OneSessionToAPlug | backend/routers/sessions.py:149-196 | no run of starts, ends and status writes that free no plug in use puts two active sessions on a plug |
| Admission.StatusWriteIff | backend/routers/cpo/_plugs.py:222-229 | a status write keeps this exactly when it does not free a plug in use |
| Admission.FreedPlugStartsTwice | backend/routers/cpo/_plugs.py:222-229 | a freed plug in use takes a second session |
| Admission.AmpsStayWithinLimit | backend/services/caps.py:40-63 | over every run, the caps written on a circuit's plugs in use and 16 A for each without one come to no more than its limit and a millionth |
| Admission.FittingStartIsAdmitted | backend/services/caps.py:120-164 | a start is admitted exactly when those amps with its own plug do |
| Admission.UnlimitedIsAdmitted | backend/services/caps.py:120-143 | without a group, a known one or a limit, every start is |
| Admission.StartGoesThrough | backend/routers/sessions.py:149-196 | alone, an admitted start on an available plug adds its session and occupies the plug, and another changes nothing |
| Admission.AbortReleases | backend/routers/sessions.py:149-196 | a start that fails lets go of its rows and changes nothing else |
| Admission.EndFrees | backend/services/session_lifecycle.py:314-326 | ending a session frees its plug and nothing else |
| Wallet.BooksAlwaysFoot | backend/routers/payments.py:45-193 | over every interleaving ids are unique, balances are the ledger, running balances right, none negative |
| Wallet.CommittedExactlyOnce | backend/routers/payments.py:65-119 | once any delivery commits, its id is on the ledger exactly once, for good |
| Wallet.LatestRowIsTheBalance | backend/services/wallet.py:39-76 | a user's latest row shows the balance they have |
| Wallet.RecordedAmountIsReal | backend/services/wallet.py:54-76 | the recorded amount is the real change exactly when the balance was not a legacy negative |
| Wallet.MoveTakesWhatItCan | backend/routers/admin.py:659-704 | a debit takes what was asked or empties the wallet; an adjustment falls short only at zero |
| Wallet.StepsMakeAlone | backend/routers/payments.py:65-119 | check, lock and commit without interference are the operation run alone |
| Wallet.Database.CreditWallet | backend/services/wallet.py:39-51 | adds to the committed balance, or nothing for an unknown user |
| Wallet.Database.DebitWalletClamped | backend/services/wallet.py:54-76 | takes up to the amount, never below zero, and reports what it took |
| Wallet.Database.CreditTopup | backend/routers/payments.py:65-119 | credits a known user's fresh payment that fits the column, one wallet and one row; reports nothing exactly when one of the three fails, and then the bump is undone |
| Wallet.Database.DebitRefund | backend/routers/payments.py:136-193 | a repeated refund id undoes the debit and reports nothing reversed |
| Wallet.Database.HandleRefundWebhook | backend/routers/payments.py:385-445 | a refund moves the wallet its payment credited, at most once; an unknown payment moves nothing |
| Wallet.Database.AdminAdjustBalance | backend/routers/admin.py:659-704 | the ledgered amount is the applied one; nothing to apply is refused |
| Wallet.Database.Forfeit | backend/services/account_closure.py:164-193 | closing ledgers and zeroes what is left |
| Wallet.TopUpCredits | backend/routers/payments.py:65-119 | a payment is credited exactly when its user is known, no row has its id and the sum fits the column; then that balance alone grows by its coins, with one row of that user, amount, id and balance |
| Wallet.CreditCredits | backend/routers/cpo/_topups.py:126-147 | a cash credit likewise, without an id |
| Wallet.RefundDebits | backend/routers/payments.py:136-193 | a refund debits the wallet its payment credited, by its coins or all there is, exactly when no row has its id |
| Wallet.UnknownRefundIsIdle | backend/routers/payments.py:385-445 | a refund of a payment on no row changes nothing |
| Wallet.DebitDebits | backend/services/wallet.py:54-76 | a debit takes its coins or all there is, with a row for what it took |
| Wallet.AdjustAdjusts | backend/routers/admin.py:659-704 | an adjustment is refused exactly for an unknown user, nothing to apply or a full column, and is else written at the amount applied |
| Wallet.NothingBegins | backend/routers/payments.py:65-193 | an id already on the ledger begins nothing, and a rollback lets go of its row |
| Wallet.CloseForfeits | backend/services/account_closure.py:164-193 | closing takes all of a positive balance, with one row, and else nothing |
| Reservations.BookingsStaySound | backend/routers/reservations.py:152-237 | over bookings, cancels, expiries, closures, fulfilments and undos that have room, booked windows are disjoint and users within their cap (`BookingRules.HoldStands` that none is dropped for it) |
| Reservations.BookingFits | backend/routers/reservations.py:152-237 | a booking that passed its checks, however old its clock reading, may be inserted |
| Reservations.UndoKeepsIff | backend/services/session_start.py:249-263 | undoing an unpublished start leaves rows and bookings in flight sound exactly when the window is free, the user has room, and those in flight would pass their checks again |
| Reservations.UndoBreaksBookingInFlight | backend/services/session_start.py:249-263 | where a booking in flight would not, its insert breaks the cap or the windows |
| Reservations.UndoCanOverlap | backend/services/session_start.py:249-263 | a booking over the window is accepted before the undo, which then overlaps it |
| Reservations.UndoOverlapExample | backend/services/session_start.py:249-263 | a sound state in which this happens |
| Reservations.CancelSticks | backend/routers/reservations.py:318-358 | a cancelled row no request in flight remembers stays cancelled over every run |
| Reservations.CancelSticksIff | backend/routers/reservations.py:318-358 | a cancelled row stays cancelled over every run exactly when no start in flight read it or has it to write back |
| Reservations.StartOverwritesCancel | backend/routers/reservations.py:318-358 | a cancel between a start's read and commit ends Fulfilled |
| Reservations.CoveringIsUnique | backend/routers/plugs.py:96-109 | disjoint bookings leave at most one window over an instant |
| Reservations.ReservationFieldsForPlugs | backend/routers/plugs.py:63-115 | one entry a plug: its one covering window, whose it is, and the earliest later one |
| BookingRules.ExpiryIff | backend/services/reservations.py:63-109 | expiry flips a hold of the plug or user exactly when it is a quarter hour past its start or past its end, and nothing else |
| BookingRules.BookedIff | backend/routers/reservations.py:152-237 | an undisturbed request is booked exactly when its window is admitted, its user has fewer than two holds in force and none on the plug shares its time |
| BookingRules.HoldKeepsBookingsOut | backend/routers/reservations.py:152-237 | another request over a hold in force is turned away however requests interleave |
| BookingRules.HoldKeepsStartsOut | backend/routers/sessions.py:198-233 | a start inside a hold in force is its holder's, on that row, or refused |
| BookingRules.StartGoesAhead | backend/routers/sessions.py:198-233 | with no hold in force at that instant, or the caller's own, a start goes ahead |
| BookingRules.StartFulfils | backend/services/session_start.py:209-218 | a start's commit fulfils the row it read and expires only that plug's holds no longer in force |
| BookingRules.HoldStands | backend/services/reservations.py:63-109 | over any run a hold stays as it was while it is in force, until its own cancel, its user's closure or its start |
| BookingRules.EndingsEnd | backend/services/account_closure.py:195-204 | a cancel ends that booked row; a closure ends its user's and no others |
| BookingRules.OneThingAtATime | backend/routers/reservations.py:152-237 | a rollback lets go of its rows, and a request under way asks for and starts nothing else |
| BookingRules.StartWaits | backend/services/session_start.py:249-263 | a sent command leaves the row fulfilled; an unsent one books it again |
| Invoices.SplitFoots | backend/services/invoices.py:75-89 | value and tax foot to the total, neither negative, each within half a cent of exact |
| Invoices.YearTurnsInApril | backend/services/invoices.py:92-96 | two dates in order share a financial year exactly when no first of April lies between them |
| Invoices.NumberReadsBack | backend/services/invoices.py:183-184 | a printed number reads back to its prefix, dashes and all, its year and its serial, past five digits too |
| Invoices.NumbersEqualIff | backend/services/invoices.py:167-184 | for any custom prefixes numbers are equal exactly when prefix, year and serial are |
| Invoices.NumberIsInjective | backend/services/invoices.py:167-184 | without custom prefixes equal numbers mean equal tenant, year and serial |
| Invoices.CustomPrefixCanCollide | backend/services/invoices.py:167-184 | a custom prefix can print another tenant's numbers |
| Invoices.InvoicesStayGapless | backend/services/invoices.py:104-238 | over every interleaving one invoice a session, unique numbers, and a lost race gives its bump back |
| Invoices.SerialsAreOneToN | backend/services/invoices.py:150-191 | a tenant's serials are exactly 1 to n, each once |
| Invoices.CommitIff | backend/services/invoices.py:215-228 | a commit is turned away exactly for its own session's invoice or a number another tenant printed from the same prefix, year and serial |
| Invoices.PlainCommitIff | backend/services/invoices.py:215-228 | without custom prefixes a commit fails only for its own session's invoice |
| Invoices.AdjustForgetsThePast | backend/services/invoices.py:241-302 | an adjustment depends on the refunds to date alone |
| Invoices.AdjustFoots | backend/services/invoices.py:241-302 | an adjusted invoice foots at its issue rate, shows what was kept, and with no refund is as issued |
| Invoices.Registry.IssueInvoiceForSession | backend/services/invoices.py:104-238 | returns the existing invoice, or issues under the next serial, or changes nothing |
| Invoices.Registry.AdjustInvoiceForSessionRefund | backend/services/invoices.py:241-302 | only that invoice's money fields change |
| Invoices.PaddedIsWide | backend/services/invoices.py:183-184 | a serial is its own digits with only zeros before them, to five places or its own length |
| Invoices.PrintedExamples | backend/services/invoices.py:167-184 | three numbers as printed, over a first of April and past five digits |
| Invoices.FirstIssueIff | backend/services/invoices.py:104-238 | undisturbed, a session is invoiced exactly when it finished, cost something, has no invoice and its number is free; then for all its coins, under the tenant's next serial, at the year and rate of its issue |
| Invoices.OtherStepsDo | backend/services/invoices.py:104-238 | an invoiced session is not issued again, a rollback lets go of its rows, and a new prefix is its tenant's only |
| Invoices.RefundReachesItsInvoice | backend/services/invoices.py:241-302 | an adjustment puts that session's invoice at its coins less the refunds, split at its own rate, and touches no other |
| FakeGateway.RunStaysSane | tools/fake_plug.py:618-711 | over any run at most four slots, and a slot pending removal is idle |
| FakeGateway.SessionsAreNeverReaped | tools/fake_plug.py:649-696 | no roster or reap touches a session |
| FakeGateway.IdleSlotsAreNamed | tools/fake_plug.py:649-696 | after a roster and a reap idle slots are named; a named plug lacks one only in a full table |
| FakeGateway.DroppedPlugLeavesIff | tools/fake_plug.py:649-696 | over any messages but rosters and commands to it, a dropped plug is gone at a later reap exactly when it was idle at the roster |
| FakeGateway.SurvivesIff | tools/fake_plug.py:402-452 | a session outlives a run of ticks exactly when each left it within its limits but one that fired its scheduled reset |
| FakeGateway.ActiveIsWithinLimits | tools/fake_plug.py:402-452 | after any ticks an active slot is within its limits unless the last fired its reset, which happens once |
| FakeGateway.ResetSkipsOneTest | tools/fake_plug.py:417-452 | a counter reset puts the watchdog off by one tick only |
| FakeGateway.EnergyFallsOnlyOnReset | tools/fake_plug.py:417-452 | energy falls only on a scheduled reset, which fires once |
| FakeGateway.FakeGateway.GetOrCreatePlug | tools/fake_plug.py:618-647 | finds and keeps a slot, or adds one when an address is known and there is room |
| FakeGateway.FakeGateway.ApplyRoster | tools/fake_plug.py:649-686 | fills the table in roster order, then flags the idle slots not named |
| FakeGateway.FakeGateway.ReapPending | tools/fake_plug.py:688-696 | removes exactly the idle slots pending removal |
| FakeGateway.FakeGateway.HandleOn | tools/fake_plug.py:698-711 | a fresh session on a found or added slot |
| FakeGateway.FakeGateway.HandleOff | tools/fake_plug.py:713-721 | the slot is idle and its final energy reported |
| FakeGateway.FakeGateway.HandleSetLimits | tools/fake_plug.py:723-733 | re-caps a running session only; an omitted limit takes its default |
| FakeGateway.FakeGateway.TickAndBuildTelemetry | tools/fake_plug.py:432-473 | the slot after a tick and the frame, which still shows the session a watchdog ends |
| FakeGateway.OnStarts | tools/fake_plug.py:337-352 | an ON starts a fresh session on its slot under the limits sent or the defaults, and no other slot changes |
| FakeGateway.DroppedCommand | tools/fake_plug.py:618-647 | a command for an unknown plug without an address or room changes nothing |
| FakeGateway.OffAndLimits | tools/fake_plug.py:354-380 | what OFF and SET_LIMITS leave of a slot, running or idle |
| FakeGateway.TickCounts | tools/fake_plug.py:432-473 | a tick adds power times the time since the last one, ends the session exactly at a limit, and frames that energy |
| FakeGateway.ResetSets | tools/fake_plug.py:417-430 | a scheduled reset fires at its deadline and sets the energy, and not before |
| FakeGateway.RosterOfOne | tools/fake_plug.py:649-686 | a roster of one plug: its slot is kept or added, its cap taken when idle, and idle others are flagged |

## Left out

- HTTP routing, schema validation beyond the bounds stated as preconditions, notifications, MQTT transport and TLS: no state of their own.
- Razorpay signatures and amounts: a delivery arrives as an operation with an id and an amount already read.
- Clock shifts, invalid zone names and binary floating point: wall-clock time has fixed zones and amounts are exact.
- Row order of a query without ORDER BY: a tariff's slots are a list and every list is covered.
- Holds.HoldCoversSession: covers a fixed tariff; a later edit can raise a rate above the one the hold was sized by, and the debit is then capped by the hold, as `Holds.FinishStaysBacked` has it.
- Holds.HoldsStayBacked: a debit here is only its effect on the balance; its ledger row is the wallet module's subject.
- TopupPool.LateCancelIff: where all the tenant's unsettled and freed coins fit a money column; past that the column's ceiling enters as in `Settlement.CoinsAreConserved`.
- TopupPool.LandedReads: the cancel alone falls inside the summary, and its clock readings are one instant; sessions that finish meanwhile only add coins.
- Holds leaves out legacy sessions with a NULL hold, which keep it on a patch and are billed up to the wallet.
- Admission.CircuitNeverOverloads: group and cap settings are fixed; an operator who lowers a limit can be above it at once.
- Admission leaves out the user row lock and the per-user session cap, the reservation gate and the liveness gates: they only refuse more starts.
- EnergyCounter.FramesAreBilled: a flat price; on a changing one the readings' bill is `Metering.OwedIsNearReadings`.
- EnergyCounter.NeverOverbilledIff: readings are exact; a wobble of the last printed digit below the 5 Wh threshold is not modelled.
- The unmetered-consumption alert and live power figures of a frame: they bill nothing.
- The measured load shown to operators (`measured_circuit_load_a`) is a display figure that admission does not read.
- Agent.AmpHiveAgent.WatchdogAndPublish: one poll is atomic; commands that run while it awaits the device switching off are not interleaved.
- Agent device discovery, assignment and persistence of the store to disk.
- Wallet.Database.Forfeit: the balance only; closing also purges personal rows, which hold no money.
- Reservations.BookingsStaySound: holds that lapse flip at the commit of the transaction that saw them, so a flip that a rollback loses is not shown to anyone.
- Reservations.StartOverwritesCancel: holds for every start and cancel that meet this way; the user row lock a start also takes is not modelled because a cancel does not take it.
- Invoices.InvoicesStayGapless: the model keeps the prefix, year and serial a number was printed from beside it; the table keeps only the number.
- FakeGateway.FakeGateway.ApplyRoster: slots are values in the table, so sharing of a slot object between handlers is not captured; the lock makes each handler run alone.
- The simulated load's ramp and jitter: a tick's watts are a parameter.
- Queued-charge automatic starts call the same start helper and add no new money step.
