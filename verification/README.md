# Kalshi trader: verified model

A Dafny model of the decision, submission and accounting core of an automated trader for binary
prediction markets, with proofs of what that core promises. Prices are exact dollars (`real`), money is
whole cents (`int`), and every rounding (`ROUND_CEILING`, `ROUND_FLOOR`, half-even, `int()` towards zero)
is written out.

Five subjects, each built from the code up:

1. **Monotone strike ladders.** The pool-adjacent-violators loop keeps blocks whose prefix means never
   exceed their mean. Expanded, such blocks carry a certificate, and Abel summation shows that a certified
   sequence is the one and only least-squares non-increasing fit. The fit is carried through grouping,
   sorting and clamping to the predictions, next to the normalization of exclusive events.
   (`Isotonic`, `Structural`, `Exclusive`, `Markets`, `Prediction`)
2. **Order submission over an unreliable network.** A state machine in which client, network and exchange
   take their own steps: lost, late and repeated messages, bounded retries, a 409 answered by a three-query
   scan, refresh, cancellation, crash and restart. One invariant, kept by every step, says what each
   journal status tells about the exchange; the client's own loops are tied to the protocol's steps.
   (`Submission`, `Client`)
3. **The paper trading machine.** Engine, broker and store are classes whose methods are proved equal to
   functions on the journal and the ledger; runs are sequences of cycles, partial shutdowns and crashes.
   Every run decomposes into elementary changes, and the invariants (the ledger is the replay of the
   journal, settled rows are final, exposure is bounded, one side a market) are proved on those. A measure
   shows that a frozen market comes to rest. (`Ledger`, `Store`, `Broker`, `Engine`, `Quotes`,
   `PaperSteps`, `PaperPaths`, `PaperInvariants`, `PaperLimits`, `PaperSides`, `PaperProgress`, `Slices`, `Fills`,
   `Hazards`, `BothSides`, `Crashes`, `Cash`, `Insolvency`, `Discipline`, `Postings`, `Shutdown`)
4. **Sizing, fees and risk.** Fractional Kelly on fee-inclusive prices, the caps and the gates: monotone
   sizing, intents that fit the gates they will meet, and how roundings add up.
   (`Fees`, `Sizing`, `KellySize`, `OrderCosts`, `Strategy`, `Intents`, `Risk`, `Gates`)
5. **Scoring, backtest and history.** The Newton iteration of the Platt fit, the reliability bins, the
   one-pass backtest, the point-in-time export and the text order of its time stamps.
   (`Platt`, `Calibration`, `Scores`, `Backtest`, `History`, `Timestamps`)

`Rounding`, `RealArithmetic`, `Text`, `Runs`, `Domain`, `Config` and `Wrappers` hold what the others share.

## What turned out not to hold as one might say it

- Sizing is not non-increasing in price over all positive prices. Where `1 < rate * price < 1 + rate` the
  fee formula pays a rebate and a price above a dollar is sized again. `Sizing.PriceMonotoneExactly` gives
  the exact set of prices; every price up to a dollar is in it.
- The paper ledger's comment that an account never holds both sides of a market is right where no order can
  rest, or where only one may be open (`PaperSides.NeverHoldsBoth`), and wrong under every other
  configuration whose opening account can bid for both sides (`BothSides.NeverBothExactly`).
- Ledger and journal are two transactions. A crash between them breaks their agreement
  (`Crashes.CrashBreaksReplay`); the next cycle fills the same order again exactly when it rests, its limit is
  reached and the ledger covers it once more (`Crashes.CrashFillsTwiceExactly`).
- The sizer's floor and the gate's ceiling agree exactly at whole-cent prices: at every other price some buy the
  engine proposes is rejected for its notional (`Gates.BuysAlwaysFitExactly`), which it may exceed by up to a
  cent a contract (`Risk.SubCentOvershoot`).
- A backtest trade with at most half the bankroll at stake overruns the balance exactly when the balance is
  one cent and there is a fee; on asks of a cent or more that cannot happen (`Backtest.TradeOverrunsExactly`,
  `Backtest.SubCentAskOverdraws`, `Backtest.BalanceNeverNegative`).
- An exclusive event does not always sum to one: clamping moves it off, exactly when some share is clamped and the
  event does not have two markets (`Structural.NormalizedSumsToOneExactly`, `Prediction.LopsidedEventMissesOne`).
- The paper broker's fills are conservative only within the clamp to [0.01, 0.99]; without slippage a round trip near
  a dollar profits. `Fills.NeverProfitsExactly` gives the exact quotes.
- The paper account's cash can fall below zero, through a sale whose fee exceeds its price, exactly at fee rates above
  25/49 (`Insolvency.AlwaysSolventExactly`); the shipped rate of 0.07 is far below.
- The binning of predictions outside [0, 1] follows list indexing: a negative index counts from the end, and
  far enough below it is an error (`Calibration.PlacementFailsExactly`).

## Model

| member | source | states |
|---|---|---|
| Isotonic.IsotonicDecreasing | src/kalshi_trader/models/structural.py:40-52 | for every input the result is the unique least-squares non-increasing fit and carries the optimality certificate; the inner loop merges fewer times than there are values |
| Isotonic.Push | src/kalshi_trader/models/structural.py:43-48 | appending one value and merging while the top pair violates keeps a descending partition into pooled runs; each merge removes one block |
| Isotonic.MergeIsPooled | src/kalshi_trader/models/structural.py:45-48 | merging a violating pair keeps "no prefix mean exceeds the block mean" |
| Isotonic.BlocksCertify | src/kalshi_trader/models/structural.py:49-52 | expanding descending pooled blocks gives a certified fit: running total never behind, level at the end (sum preserved), flat wherever ahead |
| Isotonic.CertificateIsOptimal | src/kalshi_trader/models/structural.py:19-22 | every other non-increasing sequence has strictly larger squared error, by at least its squared distance from the fit |
| Isotonic.CertificateIsLeastSquares | src/kalshi_trader/models/structural.py:19-22 | the certificate implies the unique least-squares monotone fit |
| Isotonic.CertificateIsUnique | src/kalshi_trader/models/structural.py:19-22 | only one sequence carries the certificate of given values |
| Isotonic.MonotoneIsFixed | src/kalshi_trader/models/structural.py:40-52 | a ladder that is already monotone is returned unchanged |
| Structural.GroupRungs | src/kalshi_trader/models/structural.py:83-92 | the two dictionaries hold, per event, exactly that event's rungs in context order |
| Structural.SortedIsOrdered | src/kalshi_trader/models/structural.py:97-103 | the sort orders rungs by strike, ticker, mid, ascending or reversed, as a permutation |
| Structural.FitLadder | src/kalshi_trader/models/structural.py:98-105 | the predictions on a ladder are the clamped least-squares fit of its mids; no other ticker changes |
| Structural.FitLadders | src/kalshi_trader/models/structural.py:93-106 | every long enough ladder of one side is fitted, whatever the dictionary order; a ticker on no long enough ladder keeps its prediction |
| Structural.Ladders | src/kalshi_trader/models/structural.py:81-106 | both sides' long enough ladders are fitted at once, and a ticker on none of them, or only on one too short, is untouched |
| Structural.PredictionsAreMonotone | src/kalshi_trader/models/structural.py:93-106 | two strikes of one fitted ladder never quote an arbitrage, through sort and clamp, in both directions; `Prediction.Predict` says the same of the contexts' own fields |
| Structural.NormalizedSumsToOneExactly | src/kalshi_trader/models/structural.py:12-37 | for every event with a positive total the normalized vector sums to exactly one if and only if no share is clamped or the event has exactly two markets |
| Structural.NormalizedSumsToOne | src/kalshi_trader/models/structural.py:33-37 | in particular, when no share meets floor or ceiling |
| Exclusive.GroupExclusive | src/kalshi_trader/models/structural.py:69-74 | the groups hold, per exclusive event, exactly its members in dictionary order, a repeated ticker keeping its place |
| Exclusive.ExclusiveEvents | src/kalshi_trader/models/structural.py:69-79 | every large enough exclusive event gets the clamped shares of its mids, whatever the dictionary order, and nothing else gets a prediction |
| Prediction.Predict | src/kalshi_trader/models/structural.py:63-106 | said of strike types, strikes, events, bids and asks alone: above a higher non-zero strike is never likelier than above a lower one of the same event, below a lower cap never likelier than below a higher one; every other member of a large enough exclusive event gets its share of the mids, held within 0.005 and 0.995; any other market gets no prediction |
| Prediction.RungExactly | src/kalshi_trader/models/structural.py:84-92 | a quoted market is on a ladder of a side if and only if it is greater or greater_or_equal with a non-zero floor strike, or less or less_or_equal with a non-zero cap strike; its rung carries that strike and half its bid plus ask |
| Prediction.OnAnyLadderExactly | src/kalshi_trader/models/structural.py:81-96 | a market is on a fitted ladder exactly when enough markets of its event pay above, or below, non-zero strikes as it does |
| Prediction.OrderedLadderIsKept | src/kalshi_trader/models/structural.py:97-106 | a ladder whose (bid + ask) / 2 is already monotone is predicted at that value held within 0.005 and 0.995 |
| Prediction.ExclusiveSumsToOneExactly | src/kalshi_trader/models/structural.py:12-17 | the predictions of such an event off all fitted ladders sum to exactly one if and only if no share is clamped or it has exactly two markets |
| Prediction.LopsidedEventMissesOne | src/kalshi_trader/models/structural.py:14-17 | an event of three whose mids sum to one and whose fair values do not |
| Submission.ClientStepKeeps | src/kalshi_trader/api.py:168-215 | every step of the client (journal, decline, POST, retry, 409, scan, record, refresh, cancel, mark, crash, restart) keeps the protocol invariant |
| Submission.ExchangeStepKeeps | src/kalshi_trader/api.py:168-200 | a late or repeated POST arriving, and an order filling or being canceled between the client's calls, keep it too |
| Submission.JournalTellsTheTruth | src/kalshi_trader/engine.py:104-138 | over every run: at most one order a row; every order's row was written first; REJECTED means no order; FILLED names one order that executed, CANCELED one that was withdrawn, RESTING one of its own |
| Submission.AcceptedPostRecords | src/kalshi_trader/api.py:362-373 | a row that records the reply to its POST is FILLED exactly when the exchange had executed the order on arrival, and RESTING otherwise |
| Submission.FoundOrderRecords | src/kalshi_trader/api.py:376-392 | a row that records what a scan found is FILLED for an executed order, CANCELED for a withdrawn one and RESTING for one at rest |
| Submission.FinishedRowsStay | src/kalshi_trader/state.py:143-178 | no step changes a filled, rejected or canceled row |
| Submission.RejectedNeverTrades | src/kalshi_trader/engine.py:114-125 | an intent once rejected has no order at the exchange however the run goes on |
| Submission.ScanNeverMisses | src/kalshi_trader/api.py:190-215 | in every reachable state the scan finds the order, even one the exchange moves between the queries; the could-not-reconcile branch is dead |
| Submission.MarksOneRow | src/kalshi_trader/state.py:373-377 | in every state the invariant allows, canceling by order ID cancels exactly the one row that rested under that ID |
| Client.Request | src/kalshi_trader/api.py:59-99 | the retry loop makes at most max_retries + 1 attempts, goes on only after a lost reply or a status of 429, 500, 502, 503 or 504, stops at the first other reply, and reports that reply or exhaustion |
| Client.RequestIsTheProtocol | src/kalshi_trader/api.py:168-200 | fed the same replies the loop and the protocol agree: success is recorded, 409 starts the scan, everything else leaves the row unknown, all under one client order ID |
| Client.FindOrder | src/kalshi_trader/api.py:202-215 | the scan reports the order where the first query lists it, FILLED if that page shows it executed, CANCELED if withdrawn, RESTING if at rest, and reports every order that existed when it began |
| Client.ScanOrderMatters | src/kalshi_trader/api.py:203-203 | of the six orders of asking exactly those that ask for resting orders first never miss |
| Client.PendingAndUnknownAreAmbiguous | src/kalshi_trader/engine.py:126-137 | PENDING and UNKNOWN rows occur both with and without an exchange order, so nothing stronger holds of them |
| Quotes.Best | src/kalshi_trader/api.py:308-310 | the best level is in the ladder and no bid is higher |
| Quotes.QuoteIsSane | src/kalshi_trader/api.py:313-333 | prices in [0, 1] make a quote in [0, 1] |
| Quotes.AskIsCheapest | src/kalshi_trader/api.py:298-333 | every opposite bid could be taken at the complement of its price, and the ask is the cheapest such price with the size waiting there |
| Quotes.OneSpread | src/kalshi_trader/api.py:313-333 | both sides have one spread, which is what a full set costs at the asks beyond its dollar |
| Quotes.UncrossedExactly | src/kalshi_trader/api.py:313-333 | the quote is uncrossed if and only if no two opposite bids together exceed a dollar |
| Store.StateStore.RecordIntent | src/kalshi_trader/state.py:112-141 | appends a pending row, or refuses a duplicate client order ID and changes nothing |
| Store.StateStore.RecordResult | src/kalshi_trader/state.py:143-165 | rewrites exactly the row of that client order ID, or refuses |
| Store.StateStore.RejectIntent | src/kalshi_trader/state.py:167-178 | rejects exactly that row, or refuses |
| Store.StateStore.MarkCanceled | src/kalshi_trader/state.py:373-377 | cancels every row with that order ID |
| Store.StateStore.ApplyPaperFill | src/kalshi_trader/state.py:243-267 | charges the rounded-up cost and adds to the lot, or refuses for cash and changes nothing |
| Store.StateStore.ApplyPaperSell | src/kalshi_trader/state.py:269-311 | credits proceeds, releases the floored share of the cost, realizes the difference, deletes an emptied lot; or refuses |
| Store.StateStore.PaperExposure | src/kalshi_trader/state.py:338-351 | the loop's total is the total cost basis, in whatever order rows are added |
| Broker.PaperBroker.FillOrder | src/kalshi_trader/broker.py:127-144 | one ledger transaction and an executed result, or a rejected result and no change |
| Broker.PaperBroker.PlaceOrder | src/kalshi_trader/broker.py:82-101 | makers rest or are rejected when crossing; takers fill at the touch plus slippage, or rest when the limit is worse |
| Broker.PaperBroker.ReconcileOrders | src/kalshi_trader/broker.py:103-125 | the touched resting orders of the ticker fill at their limits, oldest first, each with its journal update; the returned list has one result for each touched order, its fill or refusal on the books as the earlier ones left them |
| Broker.PaperBroker.TakeSnapshot | src/kalshi_trader/broker.py:68-77 | the snapshot is balance, exposures, open orders and realized profit of the stored tables |
| Engine.TradingEngine.ProcessTicker | src/kalshi_trader/engine.py:83-138 | one cycle takes the tables to the specified next state: reconcile, decide, journal, judge, place, record; the `Discipline`, `Intents` and `Postings` rows say what that state is |
| Engine.TradingEngine.SubmitIntent | src/kalshi_trader/engine.py:104-138 | journal first, then risk, then broker, then result; a duplicate ID stops before anything is sent |
| Engine.TradingEngine.CancelManagedOrders | src/kalshi_trader/engine.py:202-210 | every resting order ID listed at the start is canceled in the journal |
| Shutdown.ShutdownCancelsExactlyTheResting | src/kalshi_trader/engine.py:202-210 | on a well-formed journal that cancels every row that rested, leaves none at rest, and changes no other row and nothing else |
| Shutdown.ShutdownLeavesNothingResting | src/kalshi_trader/engine.py:202-210 | so after any run a shutdown that comes to the end of its list leaves nothing at rest |
| Discipline.CycleSendsExactly | src/kalshi_trader/engine.py:83-138 | a cycle is reconciliation and, for a proposal under a fresh ID, one new row of that intent; it is rejected and without effect unless the intent may be sent, and otherwise rests, fills or is rejected as the book says |
| Discipline.VerdictExactly | src/kalshi_trader/risk.py:29-135 | risk approves a buy if and only if the switch is off, the market open, the day's loss below its limit, (ask - bid) * 100 within the spread limit, the ask deep enough, the edge and price in range, count and money within every limit, and no counting order younger than the cooldown; a sale if the switch is off, the market open and count and price in range |
| Discipline.LastOrderExactly | src/kalshi_trader/state.py:180-189 | the cooldown counts from the latest order of the market that was neither rejected nor canceled |
| Discipline.KillSwitchStopsOrders | src/kalshi_trader/risk.py:71-80 | with the kill switch on the cycle's own intent ends rejected and the ledger moves by reconciliation only |
| Discipline.DailyLossStopsBuys | src/kalshi_trader/risk.py:74-78 | with realized losses at the day's limit after reconciliation no new buy rests or fills |
| Discipline.PlacedBuyMetItsLimits | src/kalshi_trader/risk.py:71-107 | a buy that a cycle puts to rest or fills met every limit: spread, depth, edge, price, money, open orders and cooldown |
| Postings.BuyPosts | src/kalshi_trader/state.py:243-267 | a buy takes price times count and fee out of cash, each rounded up to a cent, and adds count and that sum to the lot, or is refused exactly when cash is short |
| Postings.SalePosts | src/kalshi_trader/state.py:269-311 | a sale brings in price times count rounded down less the fee rounded up, releases the largest whole number of cents not above the sold share of the cost, and realizes the difference, or is refused exactly when too little is held |
| Postings.PositionExactly | src/kalshi_trader/state.py:313-327 | the reported position is a side that is held, and the larger one if both are |
| Postings.ReconciledAtLimit | src/kalshi_trader/broker.py:103-125 | a resting order the book has reached fills at its own limit |
| OrderCosts.CostExactly | src/kalshi_trader/fees.py:19-31 | a cost of whole cents is price times count and fee, each the least whole number of cents not below the exact figure |
| PaperPaths.StepPath | src/kalshi_trader/engine.py:83-210 | every cycle, partial reconciliation, half-done submission and partial shutdown is a chain of elementary changes |
| PaperPaths.RunPath | src/kalshi_trader/engine.py:83-210 | so is every run, from any of its intermediate states |
| PaperPaths.ApprovedIsCleared | src/kalshi_trader/risk.py:42-107 | what strategy, sizer and risk have established about an approved intent by the time it is placed |
| PaperPaths.MarkCanceledIs | src/kalshi_trader/state.py:373-377 | the update by order ID changes exactly one row of a well-formed journal |
| PaperInvariants.LedgerIsReplayOfJournal | src/kalshi_trader/state.py:243-311 | after every run: cash is the start minus costs of filled buys plus proceeds of filled sells; every position count is filled buys minus filled sells; cash plus open cost minus realized profit is the start |
| PaperInvariants.SettledRowsAreFinal | src/kalshi_trader/broker.py:103-144 | rows keep their intent, and a filled, rejected or canceled row never changes again |
| PaperInvariants.LedgerMovesOncePerOrder | src/kalshi_trader/broker.py:114-115 | whenever the ledger moves exactly one unfilled row turns filled, so no order fills twice |
| PaperLimits.CostWithinLossAndFee | src/kalshi_trader/state.py:243-247 | a buy at or below its limit costs at most its worst-case loss plus the fee cap ceil(25 rate max_contracts) |
| PaperLimits.ExposureIsBounded | src/kalshi_trader/risk.py:42-57 | over every run, resting orders that fill later included, exposure stays within its limit plus one fee cap plus (max_open_orders - 1) times (order notional + fee cap), in total and in every market |
| PaperLimits.TakersFillAtOnce | src/kalshi_trader/strategy.py:163-180 | in taker style with improvement at least the slippage no order rests, no market is held on both sides, no lot exceeds one order, and exposure exceeds its limits by at most one fee cap, in total and per market |
| PaperSides.NeverHoldsBoth | src/kalshi_trader/state.py:313-327 | where no order can rest, or only one order may be open, no run ever holds both sides of a market, in every style |
| BothSides.OpposingBidsBothFill | src/kalshi_trader/broker.py:92-125 | where orders can rest and two may be open, any two opposite bids that an opening account can place and pay for rest together and both fill |
| BothSides.NeverBothExactly | src/kalshi_trader/state.py:320-320 | for every configuration with such a pair of bids: no run holds both sides if and only if no order can rest or only one may be open |
| BothSides.DeskHoldsBothSides | src/kalshi_trader/state.py:320-320 | a concrete maker configuration has such a pair, so one of its runs from an empty journal holds both sides |
| Slices.SlicesReleaseWholeCost | src/kalshi_trader/state.py:269-311 | closing a position in any slices releases exactly its cost, realizes proceeds minus cost and removes the lot |
| Slices.RemainingAverageNeverFalls | src/kalshi_trader/state.py:287-302 | selling a slice never lowers the average cost of what is left |
| PaperProgress.FrozenBookComesToRest | src/kalshi_trader/engine.py:83-138 | on any well-formed account with nothing resting, while the four prices and the opinion stand still (times of observation, sizes, status, closing time, clock, order IDs and kill switch arbitrary), any number of cycles fills at most ceil(held / max contracts) + 1 orders |
| PaperProgress.AtMostTwoMoreFills | src/kalshi_trader/engine.py:83-138 | after any run that is at most two orders, one exit and one entry |
| PaperProgress.AtTargetIsFinal | src/kalshi_trader/strategy.py:142-151 | once at target, while prices and opinion stand still, the market never fills again |
| PaperProgress.BuyShortens | src/kalshi_trader/strategy.py:112-155 | a buy is the last fill: afterwards no target at any later time exceeds the holding |
| PaperProgress.SellShortens | src/kalshi_trader/strategy.py:85-108 | an exit shortens the measure by one slice |
| PaperProgress.SoldSideIsNotRebought | src/kalshi_trader/strategy.py:78-156 | the side a buy proposes is never one worth selling at the same quote |
| PaperProgress.ExitSellsASlice | src/kalshi_trader/strategy.py:104-105 | with a fresh ID and the kill switch off a cycle sells min(held, max contracts) of a side worth exiting |
| PaperProgress.ExitDrains | src/kalshi_trader/strategy.py:85-108 | while prices and opinion stand still, each cycle whose own quote and signal pass the screen drains one slice of a position worth exiting |
| PaperProgress.DrainedIsFlat | src/kalshi_trader/strategy.py:92-93 | after the last slice the position is flat |
| Hazards.SizedBuyIsAffordable | src/kalshi_trader/sizing.py:101-102 | a sized buy filled at or below its limit is never refused for cash when the unstaked part is worth two cents, three roundings included |
| Hazards.ApprovedTakerBuyFills | src/kalshi_trader/broker.py:92-101 | with at most half the bankroll at stake, and whatever the balance floor, an approved taker buy that does not rest fills |
| Crashes.CrashBreaksReplay | src/kalshi_trader/broker.py:114-144 | a crash after the ledger transaction of a pending or a resting order, at placement or in reconciliation, leaves positions the journal does not explain |
| Crashes.CycleFillsExactly | src/kalshi_trader/broker.py:103-125 | a cycle fills an unfilled row if and only if it rests in that market, the book has reached its limit, and cash or contracts cover it when its turn comes |
| Crashes.CrashFillsTwiceExactly | src/kalshi_trader/engine.py:83-138 | after such a crash the next cycle fills the same order again exactly under that condition, for buys and sells |
| Crashes.SecondFillMovesLedger | src/kalshi_trader/state.py:243-311 | a fill at its turn moves the whole order through the ledger, and a turn without one leaves the ledger as it is |
| Crashes.CrashAtPlacementStays | src/kalshi_trader/engine.py:126-138 | an order whose process died at placement stays pending through every later cycle and is not filled again |
| Crashes.DeskFillsTwice | src/kalshi_trader/broker.py:114-115 | a concrete run, crash and next cycle that buy two contracts for an order of one |
| Hazards.OppositeRestingBuysBothFill | src/kalshi_trader/state.py:320-320 | two opposite resting buys can both fill, so an account can hold both sides |
| Fills.ConservativeExactly | src/kalshi_trader/broker.py:92-101 | a taker fill is at the touch or worse if and only if the touch lies within the clamp to [0.01, 0.99] |
| Fills.RoundTripNeverProfits | src/kalshi_trader/broker.py:42-50 | at an uncrossed quote whose prices are in order, buying and selling back never leaves more cash, whatever is held, and restores the count; a flat market ends flat with exactly the loss realized |
| Fills.NeverProfitsExactly | src/kalshi_trader/broker.py:92-101 | for every uncrossed quote: no round trip ever profits if and only if bid - slippage is at most 99 cents and ask + slippage at least one |
| Fills.SlippageSuffices | src/kalshi_trader/broker.py:92-101 | with a cent of slippage every quote in [0, 1] meets that condition |
| Fills.NearDollarRoundTripGains | src/kalshi_trader/broker.py:92-101 | without slippage or fees a hundred contracts at a bid and ask of 99.5 cents gain 50 cents |
| Fills.MakersComeToRest | src/kalshi_trader/strategy.py:163-180 | a maker price of the strategy is strictly inside the spread, so every placed maker order rests |
| Fees.FeeBounds | src/kalshi_trader/fees.py:27-31 | the fee per contract is at most a quarter of the rate, and non-negative on prices in [0, 1] |
| Fees.EffectiveIncreasing | src/kalshi_trader/fees.py:34-36 | up to a dollar the fee-inclusive price never falls as the price rises |
| Fees.EffectiveInsideExactly | src/kalshi_trader/fees.py:34-36 | exactly the prices whose fee-inclusive price is strictly between zero and one |
| Sizing.SizeMonotoneInFairAndBankroll | src/kalshi_trader/sizing.py:54-115 | contracts never fall as fair probability or bankroll rises |
| Sizing.SizeMonotoneInPrice | src/kalshi_trader/sizing.py:54-115 | contracts never rise as the price rises, outside the rebate band |
| Sizing.PriceMonotoneExactly | src/kalshi_trader/sizing.py:64-71 | a price is never sized above a cheaper one if and only if it is outside the rebate band |
| Sizing.CapByRisk | src/kalshi_trader/sizing.py:123-141 | the capped target is non-negative and within the count, the per-order cap, the notional cap and the exposure room |
| KellySize.SizeExactly | src/kalshi_trader/sizing.py:54-115 | the size is never negative, and for every n of at least one it is n contracts or more if and only if n * cost * 100 * (1 - cost) <= bankroll * kelly fraction * (fair - cost), n * cost * 100 <= bankroll * cap, there is an edge at a price inside the range, and any hurdle is met with days of at least an hour |
| KellySize.CapExactly | src/kalshi_trader/sizing.py:123-141 | for every n of at least one: the capped target is n or more if and only if the size, the order cap, the notional cap and the exposure room all allow n at the price in whole cents |
| KellySize.QuarterKellyExample | src/kalshi_trader/sizing.py:84-102 | a quarter of Kelly at fair 0.6 and price 0.5 on a thousand dollars is a hundred contracts |
| Sizing.SizedWithinBankroll | src/kalshi_trader/sizing.py:84-102 | any part of a sized position costs, fees included, at most its share of the bankroll |
| Strategy.ChooseSide | src/kalshi_trader/strategy.py:122-134 | the loop picks the side with the most edge, YES on a tie, and nothing only when neither side has a price |
| Strategy.NoSellAndBuy | src/kalshi_trader/strategy.py:85-136 | on an uncrossed taker quote a side that clears the entry edge never clears the exit edge |
| Intents.UsableExactly | src/kalshi_trader/strategy.py:51-78 | a signal is used if and only if it is about this market, the market is open or active, its age is at least minus five seconds and at most the limit, and its probability is within the confidence bounds |
| Intents.BuyPriceExactly | src/kalshi_trader/strategy.py:163-171 | a taker bids the ask plus the improvement, a maker the bid plus the improvement but at least a cent below the ask; a taker's price stops at 99 cents, and below a cent there is none |
| Intents.SellPriceExactly | src/kalshi_trader/strategy.py:173-180 | a taker offers the bid less the improvement, a maker the ask less the improvement but at least a cent above the bid; a taker's price stops at one cent, and above 99 there is none |
| Intents.TargetExactly | src/kalshi_trader/engine.py:160-200 | the engine aims at n contracts or more if and only if Kelly, cap and hurdle allow n on this balance and the order, notional and exposure limits leave room |
| Intents.SellsExactly | src/kalshi_trader/strategy.py:85-108 | the engine proposes a sale if and only if the signal is usable and the held side's price clears fair value by the exit edge after fees; it sells the holding up to one order |
| Intents.BuysExactly | src/kalshi_trader/strategy.py:112-155 | the engine proposes buying n of a side if and only if the signal is usable, nothing is to be sold, the side has the best edge and clears the entry edge, the other side is not held, and the target is n beyond the holding |
| Intents.BuyOnTheRecord | src/kalshi_trader/strategy.py:112-155 | every buy the engine proposes is such a buy, under the given ID and in the configured style |
| Risk.IntentAnatomy | src/kalshi_trader/strategy.py:51-155 | every intent is either a sized buy or an exit of the held side, with all that implies |
| Risk.SizedBuyPassesItsGates | src/kalshi_trader/risk.py:42-107 | at whole-cent prices a sized buy is never rejected for count, notional, market exposure, closed market, edge or price |
| Risk.SellOnlyFailsOnKillSwitch | src/kalshi_trader/risk.py:109-135 | a strategy sell is approved unless the kill switch is on |
| Risk.GrossEdgeCoversNet | src/kalshi_trader/domain.py:139-144 | the gate's gross truncated edge is never below the strategy's net truncated edge |
| Risk.NotionalBound | src/kalshi_trader/domain.py:128-133 | worst-case loss is within a cent a contract of the sizer's reckoning, and equal to it at whole cents |
| Risk.SubCentOvershoot | src/kalshi_trader/sizing.py:132-140 | at sub-cent prices loss exceeds the notional cap and the market room by at most the count |
| Risk.SubCentPriceIsRejected | src/kalshi_trader/fastcore.py:71-75 | five contracts at 50.5 cents fit the sizer's 250-cent cap and fail the gate |
| Gates.CapsAgreeExactly | src/kalshi_trader/sizing.py:132-140 | at a price whatever fits the sizer's caps passes the gates for the same limits if and only if the price is in whole cents |
| Gates.SubCentBuyIsProposed | src/kalshi_trader/engine.py:160-200 | at every sub-cent price some input, with the quote of a real book, makes the engine propose a buy that risk then rejects for its notional |
| Cash.SalesNeverCostExactly | src/kalshi_trader/state.py:269-274 | sales from a cent to a dollar never bring in less than nothing if and only if the fee rate is at most 25/49 |
| Cash.CashNeverNegative | src/kalshi_trader/state.py:243-311 | at such rates cash stays at or above zero over every run |
| Insolvency.ShopGoesNegative | src/kalshi_trader/broker.py:92-144 | at every higher rate a two-cycle run of a valid configuration, over quotes of real books, ends in debt |
| Insolvency.AlwaysSolventExactly | src/kalshi_trader/state.py:269-311 | so, for every fee rate: no configuration charging it can run into debt if and only if it is at most 25/49 |
| Gates.BuysAlwaysFitExactly | src/kalshi_trader/risk.py:42-107 | the engine's own buys at a price always pass the gates its sizer worked to if and only if the price is in whole cents |
| Platt.DeterminantFloor | src/kalshi_trader/calibration.py:205-220 | for any rows and any link into [0, 1] the determinant never falls below ridge squared and the diagonal not below ridge |
| Platt.StepSolvesSystem | src/kalshi_trader/calibration.py:220-224 | the computed step is the exact solution of the 2x2 Newton system |
| Platt.StepDescends | src/kalshi_trader/calibration.py:223-226 | the step vanishes exactly with the gradient and otherwise has a positive inner product with it |
| Platt.SmallStepSmallGradient | src/kalshi_trader/calibration.py:227-228 | stopping on a small step bounds the gradient by the Hessian times the tolerance |
| Platt.StationaryPointIsUnique | src/kalshi_trader/calibration.py:192-203 | with a non-decreasing link and a positive ridge at most one (a, b) has zero gradient |
| Platt.GradientSupportsLoss | src/kalshi_trader/calibration.py:195-217 | the accumulated (g_a, g_b) is the gradient of the penalized negative log-likelihood: the loss lies above its tangent by at least half the ridge times the squared distance |
| Platt.StationaryPointIsOptimal | src/kalshi_trader/calibration.py:195-203 | where the gradient vanishes the penalized loss is strictly smallest, so the stationary fit is the penalized maximum-likelihood fit |
| Platt.HessianMovesGradient | src/kalshi_trader/calibration.py:205-219 | the accumulated (h_aa, h_ab, h_bb) is the derivative of the accumulated gradient: the gradient changes by it times the difference, up to what the link's chords miss tangents of slope p (1 - p) |
| Platt.NewtonStepSquaresError | src/kalshi_trader/calibration.py:204-228 | so what is left of the gradient after a step is of second order in the step |
| Platt.RidgeIsRegular | src/kalshi_trader/calibration.py:220-222 | above a ridge of one millionth the singular exit never fires, whatever the rows |
| Platt.SmallRidgeIsSingular | src/kalshi_trader/calibration.py:220-222 | at or below it an empty data set is already singular, so the bound is exact |
| Platt.Accumulate | src/kalshi_trader/calibration.py:205-219 | the inner loop sums the residuals and the weighted moments of all rows onto the ridge terms |
| Platt.FitPlatt | src/kalshi_trader/calibration.py:203-229 | the result is a Newton iterate from (1, 0), no earlier step was small, and the loop stops early only for a small step or a singular system |
| Calibration.CalibrationBins | src/kalshi_trader/calibration.py:145-163 | the two loops build exactly the bins of the buckets, or fail exactly when some row has no list position |
| Calibration.BucketsPartition | src/kalshi_trader/calibration.py:146-149 | all copies of a row are in the one bucket it is placed in and no other bucket has any |
| Calibration.PlacementFailsExactly | src/kalshi_trader/calibration.py:148-149 | the index error happens exactly with no bins or a prediction at or below minus one minus a bin's width |
| Calibration.PlaceHolds | src/kalshi_trader/calibration.py:148-148 | a probability lies inside its bin's interval, at the upper edge only for a prediction of one |
| Calibration.MeanInsideBin | src/kalshi_trader/calibration.py:154-161 | a bin's mean prediction lies between its edges |
| Calibration.BucketSumIsSum | src/kalshi_trader/calibration.py:145-163 | any sum over rows can be taken bucket by bucket |
| Calibration.EceBetweenBiasAndError | src/kalshi_trader/calibration.py:166-169 | for any number of bins the calibration error lies between the overall bias and the mean absolute error |
| Calibration.EceSquaredBelowBrier | src/kalshi_trader/calibration.py:116-121 | its square is at most the Brier score |
| Calibration.ProbabilitiesAreScored | src/kalshi_trader/calibration.py:145-169 | on predictions in [0, 1] binning never fails and both bounds hold |
| Scores.BrierExactly | src/kalshi_trader/calibration.py:116-121 | on won and lost rows the score counts the squares of the predictions less twice those of the won rows, plus one for each |
| Scores.ConstantForecastExactly | src/kalshi_trader/calibration.py:116-121 | a constant forecast scores its squared distance from the observed rate plus the variance of the outcomes |
| Scores.BinsAreHonest | src/kalshi_trader/calibration.py:145-163 | every reported bin is one of the equal intervals and gives the number, mean and share won of the rows whose predictions lie in it |
| Scores.EceExactly | src/kalshi_trader/calibration.py:166-169 | the calibration error times the rows adds up, over the intervals, how far predictions and wins are apart |
| Backtest.RunBacktest | src/kalshi_trader/backtest.py:93-174 | the loop's report is that of the step-by-step run |
| Backtest.Side | src/kalshi_trader/backtest.py:113-122 | the traded side has at least the other's edge, YES on a tie |
| Backtest.FirstQualifyingRowTrades | src/kalshi_trader/backtest.py:107-158 | a row trades if and only if it is the first of its ticker to clear the edge and size above zero |
| Backtest.TickersTradeOnce | src/kalshi_trader/backtest.py:103-158 | each ticker trades at most once |
| Backtest.ProfitIsWonDollars | src/kalshi_trader/backtest.py:150-162 | final profit is 100 cents for every contract of a won row less the costs of all trades |
| Backtest.RowMovesBalance | src/kalshi_trader/backtest.py:139-155 | a traded row takes price times count and fee, each rounded up, out of the balance, and a won one brings in 100 cents a contract; no other row moves it |
| Backtest.ReportExactly | src/kalshi_trader/backtest.py:162-174 | the report's profit is those dollars less the costs, and its ratios are profit to opening balance, won to traded rows and squared errors to rows |
| Backtest.ClearsExactly | src/kalshi_trader/backtest.py:107-130 | a row clears exactly when fair value beats the asked price with slippage and fee by the entry edge, at a price inside (0, 1) |
| Backtest.CountExactly | src/kalshi_trader/backtest.py:131-149 | and then buys n contracts or more exactly when Kelly, cap, hurdle, balance and the risk caps allow n |
| Backtest.ScoresCount | src/kalshi_trader/backtest.py:108-138 | the score adds up every row's squared error, and the skip counter the untraded rows that cleared and sized to nothing |
| Backtest.CountersCount | src/kalshi_trader/backtest.py:156-157 | trades and wins count the traded rows and those whose side was the result |
| Backtest.TradeOverrunsExactly | src/kalshi_trader/backtest.py:131-155 | with at most half the bankroll at stake a trade costs more than the balance exactly at a balance of one cent with a fee |
| Backtest.BalanceNeverNegative | src/kalshi_trader/backtest.py:107-161 | on asks of a cent or more the balance never goes negative |
| Backtest.SubCentAskOverdraws | src/kalshi_trader/backtest.py:139-155 | one cent, a fee and an ask of a tenth of a cent end one cent in debt |
| Backtest.OnePassDrawdown | src/kalshi_trader/backtest.py:159-161 | while balances are non-negative the running figure is the maximum over all pairs i <= j of the relative fall from a positive balance, the start included |
| Backtest.ReportedDrawdown | src/kalshi_trader/backtest.py:159-168 | so the reported drawdown is the true one on asks of a cent or more |
| History.HistoryStore.UpsertMarket | src/kalshi_trader/history.py:110-136 | inserts, or updates status and last-seen while known close time, result and settlement survive an update that lacks them |
| History.UpsertStores | src/kalshi_trader/history.py:110-136 | after an upsert the market shows the newer status and time, and a newer close time, result and settlement where the update has them, the known ones where it does not |
| History.HistoryStore.RecordSnapshot | src/kalshi_trader/history.py:152-175 | replaces the one row of that ticker and time; every other exported row stays as it was, and this one shows the new top of book |
| History.SnapshotChangesExactly | src/kalshi_trader/history.py:152-175 | an exported row changes if and only if the snapshot has its ticker and time and shows another top of book; signal and result columns never change |
| History.SnapshotAddsItsRow | src/kalshi_trader/history.py:234-239 | the export loses no row and gains at most that of the snapshot, exactly when its market is known and, if required, resolved |
| History.HistoryStore.RecordSignal | src/kalshi_trader/history.py:177-191 | replaces the one signal of that ticker and time |
| History.HistoryStore.HistoryRows | src/kalshi_trader/history.py:219-256 | exactly one row for each selected snapshot, in order of time and ticker, with the top of book of its own snapshot, the result of its own market and the as-of signal |
| History.OrderedSorts | src/kalshi_trader/history.py:239-239 | the export order lists every selected key once, strictly ordered |
| History.RowUsesOneSignal | src/kalshi_trader/history.py:224-233 | both subqueries read one signal, the latest at or before the row, and are empty only when there is none |
| History.RecordingChangesExactly | src/kalshi_trader/history.py:177-233 | recording a signal changes a row if and only if it is not after the row, not before the signal in use, and says something else |
| History.LaterSignalsChangeNothing | src/kalshi_trader/history.py:219-240 | any batch of later-stamped signals leaves a row as it was |
| History.SignalsFromTheFutureAreUnseen | src/kalshi_trader/history.py:219-240 | a signal stamped later in time, in UTC, leaves a row as it was |
| History.AsOfIsNotLater | src/kalshi_trader/history.py:224-233 | the signal a row uses is the latest in time among those not later than the row |
| History.UpsertKeepsSelection | src/kalshi_trader/history.py:117-122 | an update never removes a row from the export |
| History.UpsertChangesExactly | src/kalshi_trader/history.py:117-122 | it changes a row exactly when it reports a different result for its market |
| Timestamps.TextOrderIsTimeOrder | src/kalshi_trader/history.py:226-232 | for UTC stamps with no or six fraction digits text order is the order of Gregorian instants, beyond section 5.1 of RFC 3339 which asks for equal fraction lengths |
| Timestamps.TailCompares | src/kalshi_trader/history.py:162-162 | a whole second, which prints no fraction, sorts before every fraction of it |
| Timestamps.FormatIsInjective | src/kalshi_trader/history.py:85-92 | different stamps have different texts, so the primary key separates instants |

## Left out

- HTTP, JSON parsing, request signing, delays and jitter, logging, the command line, the collector and its series discovery: input and output without an invariant of their own.
- SQLite, WAL and schema migration: tables are sequences and maps, and each transaction is one step.
- Loaders of TOML and CSV: their range checks are `Config.AppConfig.Valid` and the hypotheses on rows.
- `blend_logit`, `PlattCalibrator.apply`, `log_loss`, `kl_to_market`, `devig_power` and market scores: logarithms and real powers. The logistic function of `fit_platt` is an arbitrary link into [0, 1], non-decreasing or the slope of a convex potential where a result needs it.
- The native risk kernel: a copy of the Python gate, equal to it away from 64-bit overflow.
- Decimal's 28-digit context and float rounding: arithmetic is exact.
- The clock: one `now` a cycle, resting orders in insertion order, so a wall clock that runs backwards is not modelled.
- The live broker's position and portfolio snapshot: only its placement, refresh and cancellation are, in `Submission`.
- `evaluate` without a sizer or a maximum order count: the engine always passes both.
- Error texts, raw payloads and updated-at columns of the journal; skip reasons are an enumeration.
- The sizes of the bid side and the ladder JSON of a snapshot: no query of the export reads them.
- Submission.JournalTellsTheTruth: assumes each page of the order list is complete, order IDs are non-empty and unique, success and 409 are answered only for orders the exchange holds, a success reply counts the contracts still to be filled, a cancellation succeeds only on an order it withdraws, and client order IDs are deduplicated; these are the exchange's promises.
- PaperInvariants.LedgerIsReplayOfJournal: quotes lie in [0, 1], and a crash between the ledger and the journal transaction of one fill is not a step of these runs; `Crashes` says what it does.
- BothSides.NeverBothExactly: the converse half needs a pair of bids that the opening account can place and pay for. Without one it is open: limits, thresholds or cash may rule out a second bid for good, or only until a profit or a looser quote allows it.
- Ledger.ApplyPaperSell: selling a non-positive count from nothing held is an error in the model, as the strategy never produces one.
- Ledger.PaperPosition: reports NO when both sides are held in equal number, following the primary-key order of the table.
- Structural.Ladders: what happens when two contexts carry the same ticker depends on dictionary order and is not stated; the same holds for `Prediction.Predict`.
- Platt.FitPlatt: convergence of Newton's method within fifty iterations is not claimed by the source and not proved.
- History.HistoryStore.HistoryRows: stamps in zones other than UTC compare as text only; the program writes UTC.
