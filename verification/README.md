# GatsToGo: a verified model

GatsToGo sells cooking gas for plants that refill cylinders. A customer pays online or in cash,
gets a ticket with a four-digit code, and redeems it at a terminal; a pump dispenses the gas; a
shift keeps the cash. This project models two parts of the system in Dafny and proves what they
promise.

**The plant protocol** (Go). One plant's tables are a value `Db` (`Tables`): tickets, pumps, shifts,
cash movements and a clock. Rows are never deleted, so a row's position stands for its identifier. Every
transaction is a function from one `Db` to the next (`Transactions`) and a step of a state machine
(`Runs`); a transaction either commits or leaves every row unchanged, and takes one tick of the clock.
`Plant.Plant` is the same thing as mutable state: each statement of the Go packages is a method proved
equal to its function and described by the columns it changes, and each transaction a method proved
equal to one step, rollback included. The invariant of `Validity` holds after every run; from it follow
exact redemption, the one-way life of a ticket, the ledger balances (`Lifecycle`, `Ledger`), the pump
allocator's load bound (`Greedy`), the single outcome of racing payment confirmations for one ticket
(`Settlement`) and for many (`Payments`), and how the transactions answer one another (`Effects`).
`PinLimiter`, `CodeStore` and `RateLimit` are the timed counters over a Redis store (`Redis`) whose keys
are present exactly while the time, in whole seconds, is before their expiry.

**The small languages and protocols.** `Expr`, `ExprTree`, `ExprRoundTrip` and `ExprMeaning` are the
`{{ ... }}` expression evaluator: a parser to trees, an evaluator of trees over abstract JavaScript values,
and the source's loops, which work on the text directly. `CssScan`, `CssFacts`, `CssMark`, `CssGrammar`
and `CssLoops` are the CSS declaration splitter: a one-character-at-a-time automaton as reference, the
source's loops proved to compute what it says, and a grammar of declarations it is proved to read.
`Sidecar` and `SlotStore` are the image-slot store: hydration, and writes one at a time. `DollarQuote`
and `Migrate` are the migration runner; `Hours` the opening hours from form to rows and back; `Price`
the price conversion. `Basics`, `Strings` and `Text` hold what several modules share.

Where the code and its comments or the project's older files disagree, the model follows the code:

- The unique index on codes covers pending, paid and dispensing tickets
  (migrations/0007_hours_pumps_and_dispensing.up.sql:44-47); the comment at
  internal/tickets/tickets.go:169-171 still names the first two only.
- `MarkPaid` (internal/tickets/tickets.go:388-404) reads the status and then writes without a guard.
  What is proved of it rests on each transaction being atomic, as the model makes it.
- `dollarQuote` does not quote every text: one that ends in a dollar sign and the chosen tag is read
  back without that ending (`DollarQuote.EndingLost`); `DollarQuote.RoundTrip` says exactly when.
- Quotes do not shield an equality operator in an expression (`ExprRoundTrip.StringReadAsComparison`);
  `ExprRoundTrip.StringLiteralExact` says exactly when a quoted text is a string.
- The rates of wrong PINs and wrong receipt codes are not what five attempts a lockout and six a
  counter life suggest when a counter is already running: it can be filled up to the limit just
  before it ends and start afresh. `PinLimiter.EightInASecond` and `CodeStore.NineInFiveMinutes` are
  runs that do so. The bounds count what is left over exactly, and the two lemmas named
  `PlainBoundExactly` say from which keys the simpler bound holds.
- Clearing a slot and framing it before hydration brings the cleared image back
  (`Sidecar.ClearedImageReturns`); `Sidecar.MergeIsReplay` says exactly when hydration is the replay.
- A file writer that throws leaves the image-slot store saving forever, and a save that finds no
  writer is forgotten until something else is posted. `SlotStore.ThrowingWriterSticks` and
  `SlotStore.MissingWriterForgets` are runs that do so; `SlotStore.StuckExactly`,
  `SlotStore.MissedExactly` and `SlotStore.SavedExactly` say exactly when.

## Model

| member | source | states |
|---|---|---|
| Validity.StepKeeps | internal/tickets/tickets.go:176-422 | every transaction, committed or not, keeps the plant's invariant, and takes every ticket at most one allowed move forward without changing its order or its recorded evidence |
| Validity.RunKeeps | internal/tenantdb/tenantdb.go:53-84 | the invariant holds after any sequence of atomic transactions |
| Validity.TicketStepKeeps | internal/tickets/tickets.go:301-422 | payments, dispensing, closing, filling, voiding and confirming touch nothing but tickets and pumps, and only advance tickets |
| Validity.CashSaleShape | cmd/server/terminal.go:726-795 | a cash sale that succeeds adds exactly one ticket that the unique indexes let in, and exactly its sale movement |
| Validity.BuyOnlineShape | cmd/server/tickets.go:162-206 | an online purchase adds one ticket with a free code, or changes nothing |
| Validity.DeliverShape | cmd/server/tickets.go:268-303 | a payment confirmation only advances tickets, whatever the gateway answered |
| Validity.StartShiftShape | cmd/server/terminal.go:498-520 | signing in resumes, or opens one shift with its float for a user without an open one, at a pump nobody else's open shift has |
| Validity.AssignmentRow | internal/pumps/pumps.go:71-108 | assignment changes at most the empty pump column of one ticket |
| Validity.ChosenCodeInserts | internal/tickets/tickets.go:190-217 | the code a purchase settles on passes every constraint of the table |
| Lifecycle.RunAdvances | internal/tickets/tickets.go:301-422 | over any run nothing recorded about a ticket is changed: its order, its payment time once paid, its pump, who started it, its fill with who closed it and the note, its void, its confirmation |
| Lifecycle.StatusChangesBounded | internal/tickets/tickets.go:301-343 | each change of status uses up rank, so a ticket changes status at most three times in any run |
| Lifecycle.ReachableEvidence | internal/tickets/tickets.go:301-422 | in every reachable state paid, dispensing and filled tickets have a payment time, filled ones a fill time, an existing shift and their net grams, in order of time, and confirmed implies filled |
| Lifecycle.VoidedStaysVoided | internal/tickets/tickets.go:388-422 | a voided ticket stays voided with its payment time, whatever follows |
| Lifecycle.NeverLiveAgain | internal/tickets/tickets.go:301-422 | no transaction makes a ticket pending, paid or dispensing again that no longer was |
| Lifecycle.LiveIsNewest | internal/tickets/tickets.go:168-176 | a pending, paid or dispensing ticket is always the most recently created holder of its code |
| Lifecycle.RedeemExact | internal/tickets/tickets.go:255-299 | redeeming a code gives ticket t if and only if t carries the code and is paid |
| Lifecycle.RedeemSome | internal/tickets/tickets.go:255-299 | redeeming a code succeeds if and only if some paid ticket carries it |
| Lifecycle.RedeemUnknown | internal/tickets/tickets.go:271-273 | a code is reported unknown exactly when no ticket ever carried it |
| Lifecycle.RedeemNewest | internal/tickets/tickets.go:278-285 | otherwise the answer is decided by the last ticket that got the code: already redeemed when it is dispensing or filled, not payable when pending or voided |
| Lifecycle.ReachableRedeem | internal/tickets/tickets.go:255-299 | in every reachable state a code has at most one pending, paid or dispensing ticket, and redeeming it succeeds with exactly the paid ticket that carries it |
| Ledger.CashConserved | internal/shifts/shifts.go:301-315 | a shift's cash held equals the amounts of the cash tickets sold in it, voided ones included |
| Ledger.FillsCount | internal/shifts/shifts.go:301-309 | a shift's fills are the number of filled tickets it filled |
| Ledger.FillsConserved | internal/shifts/shifts.go:301-309 | fills and grams summed over all shifts are the number and the grams of the filled tickets |
| Ledger.TicketCountedOnce | internal/shifts/shifts.go:301-309 | one ticket adds to exactly one shift's totals when it is filled and to none otherwise |
| Ledger.FillsForever | internal/tickets/tickets.go:316-360 | a fill counted for a shift is counted for it in every later state |
| Ledger.ReachableBalances | cmd/server/terminal.go:751-783 | both balances hold after every run from an empty plant |
| Ledger.ReachableOpenShifts | internal/pumps/pumps.go:110-134 | in every reachable state two open shifts belong to different users and stand at different pumps |
| Ledger.ReachableShift | internal/shifts/shifts.go:200-255 | in every reachable state a shift has one opening float, equal to its opening cash, and one closing count, equal to its closing cash, exactly when it is closed |
| Greedy.LeastBusyFirst | internal/pumps/pumps.go:77-85 | the pump chosen works and carries least; among equals it has the smallest sort order, and among those it is the oldest; none is chosen exactly when none works |
| Tables.LoadCounts | internal/pumps/pumps.go:77-85 | a pump's load is the number of paid and dispensing tickets assigned to it |
| Greedy.AssignmentServes | internal/pumps/pumps.go:71-108 | an assignment leaves every load as it was, or adds one to a working pump of minimal load |
| Greedy.ArrivalServes | cmd/server/tickets.go:268-303 | so does every sale and payment as a whole |
| Greedy.DepartureRelieves | internal/tickets/tickets.go:301-422 | no other transaction gives any pump more work |
| Greedy.GreedyBound | internal/pumps/pumps.go:71-108 | while the pumps stay as they are, the default pump of a plant without any included, over any run no pump carries more than it started with or than the peak total load divided by the number of working pumps, rounded up |
| Greedy.BalanceKept | internal/pumps/pumps.go:71-108 | sales and payments alone keep the loads of working pumps within one of each other |
| Greedy.EvenShareIsLeast | internal/pumps/pumps.go:71-108 | no allocation of the same total has a smaller largest load than the even share |
| Greedy.BalancedIsOptimal | internal/pumps/pumps.go:71-108 | balanced loads reach exactly that least largest load |
| Settlement.DeliveriesSettle | cmd/server/tickets.go:371-396 | after any deliveries for a pending ticket the plant is untouched, or the ticket is paid at the time of the first confirming one and has the pump that was least busy at the start |
| Settlement.DeliverPaysExactly | cmd/server/tickets.go:371-396 | a delivery pays a pending ticket exactly when the gateway reports success, exactly its amount, and naira or no currency; without an answer nothing changes |
| Settlement.PaidExactly | cmd/server/tickets.go:268-303 | after any deliveries a pending ticket is paid exactly when one of them reported success, its amount and the right currency, and untouched otherwise |
| Settlement.DeliveriesConfluent | cmd/server/tickets.go:268-303 | order and number of webhook and callback deliveries do not matter, only whether one confirms the payment: the same tickets, payment time aside, and the same pumps |
| Payments.DeliveriesToAny | cmd/server/tickets.go:268-303 | after any deliveries for any tickets exactly the confirmed pending ones are paid, the confirmed unserved ones have a working pump if one works, and the working pumps' loads are those of pouring the tickets newly due at a pump one at a time into the least load, but for which pump has which |
| Payments.PaidExactlyAmong | cmd/server/tickets.go:268-303 | among deliveries for any tickets a pending one is paid exactly when one names it and reports success, its amount and the right currency |
| Payments.DeliveriesCommute | cmd/server/tickets.go:268-303 | deliveries for any tickets may come in any order and number: which tickets they confirm decides every row, the time of a new payment and the choice of a new pump aside, the pumps, and the working pumps' loads as a multiset |
| Payments.FirstPaidFirstServed | internal/pumps/pumps.go:77-85 | the choice of pump does depend on the order: of two pending tickets the first one paid gets the first of two equally busy pumps, and the other another |
| Payments.RaiseAnyLeast | internal/pumps/pumps.go:77-85 | which of several least loads takes a ticket makes no difference to the loads as a whole |
| Settlement.PaidOnce | internal/tickets/tickets.go:388-404 | once paid, a ticket keeps its payment time and its pump through every later transaction |
| Settlement.CloseEachRows | internal/tickets/tickets.go:316-330 | closing a list of dispensing tickets one by one closes exactly their rows |
| Settlement.BulkCloseIsEachClose | internal/tickets/tickets.go:332-343 | a bulk close is the single closes of the pump's dispensing tickets in any order, with the same failure, and its count is their number |
| Tables.CodeTakenExactly | migrations/0007_hours_pumps_and_dispensing.up.sql:44-47 | a code is taken exactly by pending, paid and dispensing tickets |
| Effects.FirstFreeCode | internal/tickets/tickets.go:190-217 | a purchase takes the first code among its at most six that no pending, paid or dispensing ticket has |
| Effects.PurchaseFails | internal/tickets/tickets.go:176-218 | a purchase no other constraint forbids fails exactly when every code it may try is had by a pending, paid or dispensing ticket, and then adds nothing |
| Effects.PurchaseRow | internal/tickets/tickets.go:190-217 | the ticket added has exactly the order's columns, pending or paid now, a drawn code, and neither a reference in use nor a code that a pending, paid or dispensing ticket has |
| Effects.BuyOnlineExactly | cmd/server/tickets.go:162-206 | an online purchase happens exactly when the plant is open, the amount buys at least half a gram at a price that is set, and a drawn code is free; its ticket is pending with the nearest number of grams |
| Effects.CashSaleExactly | cmd/server/terminal.go:726-795 | a cash sale happens under the same conditions; its ticket is paid now, sold by the user in the shift, at the pump that was least busy, with one sale movement of the amount |
| Effects.VoidExactly | internal/tickets/tickets.go:409-422 | a ticket can be voided exactly while it is pending or paid |
| Effects.VoidIsFinal | internal/tickets/tickets.go:409-422 | a void records who, when and why, changes no other row, and after it no payment, fill, dispensing or second void reaches the ticket |
| Effects.NoVoidOnceStarted | internal/tickets/tickets.go:301-314 | a ticket being dispensed records who started it and can be neither voided nor started again |
| Effects.FillIsStartAndClose | internal/tickets/tickets.go:345-360 | the one-step fill ends where starting and closing do, but for who started, who closed and the note |
| Effects.ConfirmTwice | internal/tickets/tickets.go:599-625 | confirming again changes nothing, whenever it comes: the first confirmation time stays |
| Effects.ConfirmExactly | internal/tickets/tickets.go:599-625 | a ticket can be confirmed exactly by its own phone number once it is filled |
| Effects.ResumeKeeps | internal/shifts/shifts.go:200-232 | signing in again returns the same open shift of that user, untouched, whatever is entered |
| Effects.CloseThenStart | internal/shifts/shifts.go:237-255 | a closed shift cannot be closed again, and the next sign-in opens a new one with the cash then entered |
| Effects.RunKeepsShifts | internal/shifts/shifts.go:237-255 | over any run shifts are only added and closed, once, and pumps are not taken away |
| Effects.PumpHeld | internal/pumps/pumps.go:110-134 | after a sign-in at a pump everyone else is refused there through any run until that shift closes: as busy while the pump works, as not working else |
| Effects.PumpReleased | internal/pumps/pumps.go:121-133 | when that shift closes a working pump is free for anyone |
| Effects.UnassignedExactly | internal/pumps/pumps.go:103-107 | a ticket is left without a pump exactly when the plant has pumps and none works |
| Plant.Plant.constructor | migrations/0001_init_schema.up.sql:88-195 | a new plant satisfies the invariant |
| Plant.Plant.Purchase | internal/tickets/tickets.go:176-218 | the retry loop inserts the ticket the specification names, whose code no older pending, paid or dispensing ticket has, or leaves the tables alone |
| Plant.Plant.Redeem | internal/tickets/tickets.go:255-299 | gives only a paid ticket that carries the code; unknown if and only if no ticket does; and under the invariant succeeds if and only if some paid ticket carries the code |
| Plant.Plant.MarkPaid | internal/tickets/tickets.go:388-404 | pending becomes paid now; paid, dispensing and filled are left alone and reported paid; anything else is refused |
| Plant.Plant.StartDispensing | internal/tickets/tickets.go:301-314 | only a paid ticket starts: its status, start time and starter change, and no other column or row |
| Plant.Plant.CloseFilled | internal/tickets/tickets.go:316-330 | only a dispensing ticket closes, under an existing shift: it is filled now with who closed it and the note, its order, payment and pump stay, and so does every other row |
| Plant.Plant.BulkCloseFilled | internal/tickets/tickets.go:332-343 | every dispensing ticket of the pump is filled and no other row changes, with their number; or there are some, the shift does not exist, and nothing changes |
| Plant.Plant.CloseQueue | internal/tickets/tickets.go:332-343 | the loop closes the queued rows and counts them, or fails on the first one and changes nothing |
| Plant.Plant.Fill | internal/tickets/tickets.go:345-360 | a paid or dispensing ticket is filled now, and nothing else of it and no other row changes |
| Plant.Plant.Void | internal/tickets/tickets.go:409-422 | a reference's ticket is voided, with who, when and why, exactly when it is pending or paid, and nothing else changes |
| Plant.Plant.Confirm | internal/tickets/tickets.go:599-625 | a filled ticket of that reference and phone, and no other, gets its first confirmation time, and nothing else changes |
| Plant.Plant.EnsureDefault | internal/pumps/pumps.go:29-36 | a plant without pumps gets its first one, any other is left alone |
| Plant.Plant.Candidate | internal/pumps/pumps.go:77-85 | the loop finds the working pump first by load, sort order and age, or none when none works |
| Plant.Plant.CountBusy | internal/pumps/pumps.go:79 | the loop counts the paid and dispensing tickets of a pump |
| Plant.Plant.AssignLeastBusy | internal/pumps/pumps.go:71-108 | the query and the guarded update reach the specification's state: only the ticket's empty pump column changes |
| Plant.Plant.ValidateShiftPump | internal/pumps/pumps.go:110-134 | not found, not working, or busy with another user's open shift, each exactly when it is so |
| Plant.Plant.Upsert | internal/pumps/pumps.go:136-168 | inserts or replaces a pump under its trimmed name, or Pump 1, and a sort order of at least one, unless another pump has the name or the pump is unknown |
| Plant.Plant.StartOrResume | internal/shifts/shifts.go:200-232 | leaves an open shift of the user unchanged, or opens one with its float movement, exactly when there is none |
| Plant.Plant.Close | internal/shifts/shifts.go:237-255 | closes the user's open shift with its closing movement, or changes nothing |
| Plant.Plant.RecordCashMovement | internal/shifts/shifts.go:347-367 | records a deposit, payout or count, and no other kind |
| Plant.Plant.Summary | internal/shifts/shifts.go:301-315 | the fills and grams of the shift's filled tickets and its sale movements, which under the invariant are the cash tickets sold in it |
| Plant.Plant.BuyGas | cmd/server/tickets.go:162-206 | the handler is one step of the state machine, or nothing when it is rolled back |
| Plant.Plant.ConfirmPayment | cmd/server/tickets.go:268-303 | the closure is one step or rolled back whole; a pending ticket of the reference becomes paid exactly when the gateway reports success, its amount and the right currency, and without an answer nothing changes |
| Plant.Plant.CashSale | cmd/server/terminal.go:726-795 | one step, with ticket, pump and movement together, or nothing at all |
| Plant.Plant.StartShift | cmd/server/terminal.go:498-520 | one step; on success the user's open shift is returned; each pump error comes exactly when the pump is unknown, not working, or has another user's open shift, and nothing changes |
| Plant.Plant.StartTicket | cmd/server/terminal.go:644-652 | the dispensing handler is one step or rolled back whole, and succeeds exactly for a paid ticket |
| Plant.Plant.CloseReceipt | cmd/server/terminal.go:1015-1027 | the closing handler is one step or rolled back whole, and succeeds exactly for a dispensing ticket and a shift that exists |
| Plant.Plant.BulkCloseReceipts | cmd/server/terminal.go:1052-1063 | the bulk close handler is one step or rolled back whole, and counts the pump's dispensing tickets |
| Plant.Plant.VoidTicket | cmd/server/tickets.go:431-440 | the void handler is one step or rolled back whole, and succeeds exactly for a pending or paid ticket of the reference |
| Plant.Plant.ConfirmReceipt | cmd/server/receipts.go:375-380 | the confirmation handler is one step or rolled back whole, and succeeds exactly for a filled ticket of the reference and phone |
| Plant.Plant.EndShift | cmd/server/terminal.go:1161-1168 | the sign-out handler is one step or rolled back whole, and succeeds exactly for the user's own open shift |
| Plant.Plant.SavePump | cmd/server/terminal.go:850-869 | the pump handler is one step or rolled back whole |
| Plant.Plant.ListPumps | internal/pumps/pumps.go:29-45 | listing pumps is one step that at most adds the default pump |
| Plant.Plant.FillTicket | internal/tickets/tickets.go:345-360 | the older one-step fill as a transaction |
| Plant.Plant.MoveCash | internal/shifts/shifts.go:347-367 | a manual cash movement as a transaction |
| Price.RoundDivNearest | internal/tickets/tickets.go:32-38 | conversion rounds to the nearest integer, a tie upwards |
| Price.Monotone | internal/tickets/tickets.go:32-38 | more gas never costs less and more money never buys less |
| Price.AmountRoundTrip | internal/tickets/tickets.go:32-38 | buying for an amount and pricing the gas again differs by at most (price + 1000) / 2000 kobo |
| Price.GramsRoundTrip | internal/tickets/tickets.go:32-38 | at 1000 kobo a kilogram or more, pricing a size and buying for that amount gives the size back |
| Price.SizesSurviveExactly | internal/tickets/tickets.go:32-38 | all sizes survive that round trip at a price if and only if it is at least 1000 |
| PinLimiter.PINLimiter.IsLocked | internal/shifts/shifts.go:50-63 | locked exactly until the retry time it reports |
| PinLimiter.PINLimiter.RecordFailure | internal/shifts/shifts.go:65-83 | the sequence of Redis commands counts, expires, locks and forgets as specified, and touches no other key |
| PinLimiter.PINLimiter.LogIn | cmd/server/terminal.go:429-484 | a login attempt by a known user checks the lock, then the PIN, then counts or resets |
| PinLimiter.CorrectClears | cmd/server/terminal.go:471-484 | after a correct PIN the next lockout takes five more wrong ones, whatever came before |
| PinLimiter.FifthLocks | internal/shifts/shifts.go:66-83 | five wrong PINs within five minutes lock the user out for twenty seconds from the fifth on, and fewer do not |
| PinLimiter.WrongPinBound | internal/shifts/shifts.go:36-83 | from any keys a run can leave: with no correct PIN, at most 5 * (T / 20 + 1) attempts are compared in T seconds, and what a counter running at the start leaves over, at most three more |
| PinLimiter.WrongPinWindow | internal/shifts/shifts.go:36-83 | the same in every window of every run from an empty store, whatever came before, correct PINs included |
| PinLimiter.AlwaysWellFormed | internal/shifts/shifts.go:65-88 | what every run keeps: a stored counter is below the limit, ends within its window and began after the last lock ended |
| PinLimiter.WrongPinBoundReached | internal/shifts/shifts.go:36-83 | no smaller bound holds, with a leftover or without: the worst run of k rounds reaches it exactly, for every k |
| PinLimiter.PlainBoundExactly | internal/shifts/shifts.go:36-83 | 5 * (T / 20 + 1) alone bounds every window from here on if and only if no counter with at most three attempts is running that ends before a lockout would |
| PinLimiter.EightInASecond | internal/shifts/shifts.go:65-83 | a run where it does not: eight wrong PINs compared within a second |
| CodeStore.Store.RequestCode | internal/receipts/receipts.go:70-87 | a code is issued unless the cooldown is on or the random source fails |
| CodeStore.Store.RecordFailure | internal/receipts/receipts.go:130-145 | the commands count and lock as specified, and touch no other phone number's keys |
| CodeStore.Store.VerifyCode | internal/receipts/receipts.go:96-125 | blank, locked, no code, wrong or accepted, with the state each leaves |
| CodeStore.AcceptedExactly | internal/receipts/receipts.go:96-125 | a guess is accepted exactly when guessing is not locked and it is the last code issued, less than 600 seconds ago and not accepted since |
| CodeStore.AcceptedOnce | internal/receipts/receipts.go:89-125 | an accepted guess belongs to one earlier request, and between them nothing was issued or accepted |
| CodeStore.AcceptedClears | internal/receipts/receipts.go:118-124 | after an accepted guess the next lock takes five more wrong ones, whatever came before |
| CodeStore.FifthLocks | internal/receipts/receipts.go:127-143 | five wrong guesses within ten minutes lock the number for five minutes from the fifth on, and fewer do not |
| CodeStore.IssuesApart | internal/receipts/receipts.go:37-38 | two codes are never issued within a minute of each other |
| CodeStore.GuessBound | internal/receipts/receipts.go:96-145 | from any keys a run can leave: with no correct code, at most 6 * (T / 600 + 1) wrong codes are compared in T seconds, and what a counter running at the start leaves over, at most three more |
| CodeStore.GuessWindow | internal/receipts/receipts.go:96-145 | the same in every window of every run from an empty store, whatever came before, accepted codes included |
| CodeStore.AlwaysWellFormed | internal/receipts/receipts.go:70-145 | what every run keeps: how the wrong-guess counter, its lock and the cooldown stand to one another in time |
| CodeStore.FirstGuesses | internal/receipts/receipts.go:96-145 | so from an empty store at most 6 * (T / 600 + 1) |
| CodeStore.GuessBoundReached | internal/receipts/receipts.go:96-145 | without a leftover the bound is reached from keys that are free, for every number of counter lives |
| CodeStore.LeftoverReached | internal/receipts/receipts.go:96-145 | with a leftover the worst run of k lives reaches the bound exactly, for every k |
| CodeStore.PlainBoundExactly | internal/receipts/receipts.go:96-145 | 6 * (T / 600 + 1) alone bounds every window from here on if and only if no counter with at most three wrong guesses is running that began earlier and can still be reached by a guess |
| CodeStore.NineInFiveMinutes | internal/receipts/receipts.go:96-145 | a run where it does not: nine wrong codes compared within 300 seconds |
| RateLimit.CheckIPRateLimit | cmd/server/accounts.go:86-98 | one hit counts and is allowed as specified, and touches no other key |
| RateLimit.LifeExact | cmd/server/accounts.go:86-98 | within one life, begun when there was no counter or the last one had expired, exactly the first max hits are allowed |
| RateLimit.IntervalBound | cmd/server/accounts.go:86-98 | in every closed interval as long as the window at most twice max hits are allowed |
| RateLimit.IntervalInRun | cmd/server/accounts.go:86-98 | the same after any hits before the interval |
| RateLimit.IntervalBoundReached | cmd/server/accounts.go:86-98 | and twice max is reached |
| Expr.ParensWrapWhole | gatstogo-brand-foundation/project/support.js:238-248 | the loop decides whether the first parenthesis closes only at the end |
| Expr.FindTopLevelEquality | gatstogo-brand-foundation/project/support.js:249-263 | the loop finds the first equality operator outside brackets with something before it |
| Expr.Resolve | gatstogo-brand-foundation/project/support.js:205-237 | working on text only, for every input it terminates with the value of the tree the text parses to |
| Expr.ResolveEquality | gatstogo-brand-foundation/project/support.js:211-224 | an equality is the operator applied to the values of its two sides |
| Expr.ResolvePath | gatstogo-brand-foundation/project/support.js:264-294 | the path loop gives the value of the path's tree, or undefined where the path cannot be read |
| ExprMeaning.EqualityValues | gatstogo-brand-foundation/project/support.js:211-224 | each of the four operators compares the values of the texts on its two sides, strictly or loosely, and negates or not |
| ExprMeaning.OppositeAnswers | gatstogo-brand-foundation/project/support.js:211-224 | an operator and its negation always answer the opposite |
| ExprMeaning.MissingOperand | gatstogo-brand-foundation/project/support.js:211-224 | an operator at the end of a text compares with undefined |
| ExprMeaning.LeadingEquality | gatstogo-brand-foundation/project/support.js:249-260 | an operator without a left operand is not one: what begins with an equality sign is undefined, and an exclamation mark before it negates that |
| ExprMeaning.NotValue | gatstogo-brand-foundation/project/support.js:225 | an exclamation mark negates the truth of the value behind it |
| ExprMeaning.ParenthesesValue | gatstogo-brand-foundation/project/support.js:208-210 | parentheses around a text with balanced brackets change nothing |
| ExprMeaning.LiteralValues | gatstogo-brand-foundation/project/support.js:207-234 | the value of the empty text, of the keywords, of numbers and of strings |
| ExprMeaning.NumberExactly | gatstogo-brand-foundation/project/support.js:204 | a number is a minus sign or none, digits, and a fraction or none |
| ExprMeaning.UnreadableStart | gatstogo-brand-foundation/project/support.js:226-266 | what begins neither a name, a number, a negation nor a parenthesis, and is no text between two equal quotes, is undefined |
| ExprMeaning.UnreadablePath | gatstogo-brand-foundation/project/support.js:268-293 | a path followed by anything that cannot go on with it, such as a dot without a name or a bracket never closed, is undefined as a whole |
| ExprMeaning.NameExactly | gatstogo-brand-foundation/project/support.js:203-271 | a name behind a dot is an identifier or digits |
| ExprMeaning.NameValue | gatstogo-brand-foundation/project/support.js:264-267 | a bare name is looked up in the scope, unless that is null or undefined |
| ExprMeaning.MemberValue | gatstogo-brand-foundation/project/support.js:270-274 | a name behind a dot is looked up in the value before it, unless that is null or undefined |
| ExprMeaning.IndexValue | gatstogo-brand-foundation/project/support.js:275-288 | a bracketed text is resolved in the scope and its value looked up in the value before it, unless that is null or undefined |
| ExprRoundTrip.PrintThenParse | gatstogo-brand-foundation/project/support.js:205-294 | for every tree of literals, paths with nested keys, negations and comparisons, parsing its parenthesised text gives the tree back, whatever the white space |
| ExprRoundTrip.ResolvePrinted | gatstogo-brand-foundation/project/support.js:205-294 | resolving the printed text of a tree is evaluating the tree |
| ExprRoundTrip.ReadPath | gatstogo-brand-foundation/project/support.js:264-294 | a printed path is read to its end with exactly its tree |
| ExprRoundTrip.ParseComparison | gatstogo-brand-foundation/project/support.js:211-224 | a comparison is read at its first operator, everything to the right being the second operand |
| ExprRoundTrip.ChainReadsRight | gatstogo-brand-foundation/project/support.js:249-263 | an unparenthesised chain of equalities of any length is read grouped to the right |
| ExprRoundTrip.StringLiteralExact | gatstogo-brand-foundation/project/support.js:231-233 | a quoted text is read as a string if and only if the scanner sees no top-level equality inside |
| ExprRoundTrip.StringReadAsComparison | gatstogo-brand-foundation/project/support.js:249-263 | a string literal that is read as a comparison instead |
| CssLoops.ScanUnquotedUrl | gatstogo-brand-foundation/project/support.js:1498-1509 | the scan finds where an unquoted url ends, or that there is none |
| CssLoops.StripComments | gatstogo-brand-foundation/project/support.js:1510-1543 | the loop keeps what the automaton reads outside comments, and one space for each comment |
| CssLoops.SplitDeclarations | gatstogo-brand-foundation/project/support.js:1544-1565 | the loop cuts exactly where the automaton reads a semicolon outside strings, parentheses and urls |
| CssLoops.Importantify | gatstogo-brand-foundation/project/support.js:1544-1567 | the whole function is strip, split, trim, mark and join |
| CssFacts.StripClean | gatstogo-brand-foundation/project/support.js:1510-1543 | removing comments leaves a text without comments |
| CssFacts.StripFixed | gatstogo-brand-foundation/project/support.js:1510-1543 | and changes nothing when there is none |
| CssFacts.SplitLossless | gatstogo-brand-foundation/project/support.js:1544-1565 | the declarations joined with semicolons are the comment-stripped text, for every text |
| CssFacts.JoinThenSplit | gatstogo-brand-foundation/project/support.js:1544-1566 | declarations that stay apart are found again after joining |
| CssMark.ImportantifyIdempotent | gatstogo-brand-foundation/project/support.js:1544-1567 | marking twice is marking once, for every text, unterminated strings, urls and comments included |
| CssMark.ImportantifyExactly | gatstogo-brand-foundation/project/support.js:1544-1567 | for every text, what is written out are the declarations of its comment-stripped text that are not blank, each once and in order, without the white space around it, and with the marker unless it has one |
| CssMark.MarkerExactly | gatstogo-brand-foundation/project/support.js:1565 | a declaration has the marker exactly when it ends in an exclamation mark, white space and the word important in any case |
| CssGrammar.CommentsStripped | gatstogo-brand-foundation/project/support.js:1510-1543 | of declarations made of plain text, strings, parentheses, urls and comments, the comments alone are replaced, each by a space |
| CssGrammar.DeclarationsSplit | gatstogo-brand-foundation/project/support.js:1498-1565 | such declarations are split into exactly themselves: semicolons in strings, parentheses, urls and comments do not count, nor do escaped closing characters |
| CssGrammar.DeclarationsMarked | gatstogo-brand-foundation/project/support.js:1498-1567 | and written out marked, one for one and in order, the blank ones left out |
| Sidecar.MergeByLast | gatstogo-brand-foundation/project/image-slot.js:176-193 | the merged entry of an id is decided by its last call before hydration and by the disk |
| Sidecar.SlotSeen | gatstogo-brand-foundation/project/image-slot.js:237-241 | a reader sees a bare image with scale one and no offset, and a blank one not at all |
| Sidecar.MergeIsReplay | gatstogo-brand-foundation/project/image-slot.js:176-193 | hydration is the replay of the calls on the sidecar if and only if no id's last call is a framing without image while the disk has an image to lend |
| Sidecar.ImagesAndClearsReplay | gatstogo-brand-foundation/project/image-slot.js:176-193 | in particular when every call sets an image or clears |
| Sidecar.FramingKeepsImage | gatstogo-brand-foundation/project/image-slot.js:182-189 | a framing set before hydration keeps its framing and gets the image from disk |
| Sidecar.ClearedImageReturns | gatstogo-brand-foundation/project/image-slot.js:243-246 | a slot cleared and then framed before hydration gets the cleared image back |
| SlotStore.Store.SetSlot | gatstogo-brand-foundation/project/image-slot.js:243-252 | one event of the protocol: the slot, its tombstone, and the save now or after the read |
| SlotStore.Store.Hydrate | gatstogo-brand-foundation/project/image-slot.js:174-193 | the three steps of the merge are the specification's merge |
| SlotStore.Store.ReadFailed | gatstogo-brand-foundation/project/image-slot.js:194 | a failed read merges nothing and keeps the tombstones |
| SlotStore.Store.FinishRead | gatstogo-brand-foundation/project/image-slot.js:195 | the read is over one turn later |
| SlotStore.Store.RunDeferred | gatstogo-brand-foundation/project/image-slot.js:251 | a save that waited for the read runs |
| SlotStore.Store.Save | gatstogo-brand-foundation/project/image-slot.js:222-230 | posts the current slots, or marks the store dirty, or finds no writer, or is left saving by one that throws |
| SlotStore.Store.WriteDone | gatstogo-brand-foundation/project/image-slot.js:226-230 | a finished write saves again when the store is dirty |
| SlotStore.Store.FlushNow | gatstogo-brand-foundation/project/image-slot.js:216-221 | posts the current slots after the read, and nothing before it |
| SlotStore.SingleWriter | gatstogo-brand-foundation/project/image-slot.js:203-230 | in every run at most one write is in flight, of the current slots unless another is due |
| SlotStore.QuiescentIsSaved | gatstogo-brand-foundation/project/image-slot.js:203-252 | at rest the content posted last is the current slots, if a slot was set and no save since then found no writer |
| SlotStore.SavesCoalesce | gatstogo-brand-foundation/project/image-slot.js:216-230 | whatever happens during one write, flushes alone post anything; its end causes exactly one more write, of the slots as they then are, if any save was asked for meanwhile, by a change or by one that had waited for the read, however often, and none if none was |
| SlotStore.ChangesCoalesce | gatstogo-brand-foundation/project/image-slot.js:222-230 | if no waiting save runs and no flush during it, the end of a write causes one more exactly when a slot was set |
| SlotStore.SameSlotsTwice | gatstogo-brand-foundation/project/image-slot.js:222-252 | a run that writes the same slots twice: two drops before the read is over |
| SlotStore.DrainRests | gatstogo-brand-foundation/project/image-slot.js:222-252 | left alone with a working writer the store comes to rest with everything posted |
| SlotStore.StuckExactly | gatstogo-brand-foundation/project/image-slot.js:222-230 | after any run the store is stuck saving if and only if save() has once called a writer that throws |
| SlotStore.StuckForever | gatstogo-brand-foundation/project/image-slot.js:222-230 | through any run a stuck store stays stuck, and only a flush posts |
| SlotStore.ThrowingWriterSticks | gatstogo-brand-foundation/project/image-slot.js:222-230 | the shortest run that gets stuck, with its slot unsaved |
| SlotStore.MissedExactly | gatstogo-brand-foundation/project/image-slot.js:222-225 | after any run a save is missed if and only if one found no writer and nothing was posted since |
| SlotStore.NothingPosted | gatstogo-brand-foundation/project/image-slot.js:216-230 | a run whose saves and flushes never post leaves nothing saved |
| SlotStore.CurrentExactly | gatstogo-brand-foundation/project/image-slot.js:203-252 | after any run the content posted last is the current slots if and only if something was posted and the slots are as they were then |
| SlotStore.PostRestores | gatstogo-brand-foundation/project/image-slot.js:216-230 | a save or flush that posts makes up for every one missed, and the slots stay saved through any run until one is set |
| SlotStore.SavedExactly | gatstogo-brand-foundation/project/image-slot.js:222-252 | a save that meets a writer, at a change, after the read or at the end of a write, leaves the store saved if and only if the writer takes it, or everything was saved before and the event changes nothing |
| SlotStore.ChangeSavedExactly | gatstogo-brand-foundation/project/image-slot.js:243-252 | a change made at rest leaves the store saved if and only if the writer takes it or it changes nothing |
| SlotStore.MissingWriterForgets | gatstogo-brand-foundation/project/image-slot.js:222-225 | a run at rest with an unsaved slot: the first drop found no writer |
| SlotStore.MemoryIsLocal | gatstogo-brand-foundation/project/image-slot.js:243-252 | before the read settles memory holds just what the calls made of it, and nothing is posted |
| SlotStore.HydrationReplays | gatstogo-brand-foundation/project/image-slot.js:172-197 | after any run up to the read, hydration gives the merge, which is the replay unless an image is borrowed |
| DollarQuote.DollarQuote | internal/migrate/migrate.go:233-239 | the tag loop terminates for every text with the first tag whose delimiter does not occur in it |
| DollarQuote.QuotedExactly | internal/migrate/migrate.go:233-239 | the text goes between two delimiters of the letters gtg and as few times the letter x as do not occur in it |
| DollarQuote.ReadsBack | internal/migrate/migrate.go:233-239 | what PostgreSQL reads back (section 4.1.2.4 of its manual) for any tag whose delimiter does not occur in the text |
| DollarQuote.RoundTrip | internal/migrate/migrate.go:233-239 | the text itself if and only if it does not end in a dollar sign and the chosen tag; else that ending is lost |
| DollarQuote.EndingLost | internal/migrate/migrate.go:233-239 | passwords that are read back shortened |
| Migrate.Runner.ApplyOne | internal/migrate/migrate.go:171-210 | goes through exactly when no step fails; then every statement and the record are there, else the database is as before, by rolling back |
| Migrate.Runner.Transaction | internal/migrate/migrate.go:174-209 | begin, the statements one by one, the record and the commit, each of which can fail, leaving its work behind for the rollback |
| Migrate.AllOrNothing | internal/migrate/migrate.go:171-210 | whichever step of a file fails, the first or second role statement, the record or the commit, no trace of it is left |
| Migrate.SecondStatementFails | internal/migrate/migrate.go:188-194 | the rollback is needed: when the second role statement fails the first has been executed |
| Migrate.PasswordsSet | internal/migrate/migrate.go:179-194 | a role credentials file sets each role to its own password, read back exactly unless the password ends in a dollar sign and the tag chosen for it |
| Migrate.PasswordsRequired | internal/migrate/migrate.go:179-187 | such a file fails for want of a password exactly when one of the two is blank, and leaves no trace |
| Migrate.WholeFileKeeps | internal/migrate/migrate.go:171-210 | adding all statements of an unrecorded file with its record keeps the database consistent |
| Migrate.Runner.Up | internal/migrate/migrate.go:41-76 | the loop reaches the specification's state and report, partial ones on errors included |
| Migrate.Runner.Seed | internal/migrate/migrate.go:79-114 | likewise, with the guard first and the complaint about missing seed files |
| Migrate.AlwaysConsistent | internal/migrate/migrate.go:41-210 | over any sequence of runs, each failing at any step of any file, no statement takes effect twice, a file is recorded exactly when all of it took effect, and effects are never undone |
| Migrate.ReachableConsistent | internal/migrate/migrate.go:41-210 | and so in every state that runs reach from an empty database, whose effects later runs only add to |
| Migrate.UpExact | internal/migrate/migrate.go:41-76 | an Up that succeeds executes exactly the statements of the wanted files not yet recorded, in order, and skips the others with their reasons |
| Migrate.UpSucceedsExactly | internal/migrate/migrate.go:41-77 | Up succeeds exactly when the table and files are there and no file it is to apply is a refused seed file, fails its lookup, or is unrecorded and cannot go through |
| Migrate.SeedSucceedsExactly | internal/migrate/migrate.go:79-114 | Seed succeeds exactly when it is not refused, there is a seed file, and none fails its lookup or is unrecorded and cannot go through |
| Migrate.SeedingGuarded | internal/migrate/migrate.go:135-143 | guarded in production and not forced, Seed does nothing and Up applies no seed file; anywhere else neither refuses |
| Migrate.Partition | internal/migrate/migrate.go:51-75 | its two lists partition the files |
| Migrate.UpTwice | internal/migrate/migrate.go:41-76 | after it another Up over the same files applies nothing, however it ends |
| Migrate.UpThenSeed | internal/migrate/migrate.go:79-114 | Up without seeding followed by Seed records the same versions as Up with seeding |
| Migrate.SeedToEmpty | internal/migrate/migrate.go:110-112 | a Seed that gets through has nothing to report exactly when there are no seed files |
| Hours.ParseWeekForm | internal/hours/hours.go:165-182 | the loops collect the segments of the specification |
| Hours.FormHolds | internal/hours/hours.go:165-182 | a closed day has one closed segment, any other day exactly those of its first two with something in their opening or closing field, trimmed |
| Hours.PlantHours.ReplaceWeek | internal/hours/hours.go:133-163 | the table afterwards, or the table before when a key conflicts |
| Hours.PlantHours.Week | internal/hours/hours.go:43-78 | each day shows its rows in order, or the default marked as unset |
| Hours.DayShownExactly | internal/hours/hours.go:43-78 | a day shows its rows in order and is closed when the last one says so; without rows it shows 08:00 to 18:00, unset |
| Hours.PlantHours.StatusNow | internal/hours/hours.go:80-131 | open if and only if the day has no rows or one that is not closed covers the minute, a segment that does not end after it starts running to midnight; with the ranges up to the first that does, or else all of them |
| Hours.RangeRead | internal/hours/hours.go:204-220 | on stored times the range check is plain arithmetic on minutes |
| Hours.TimeRead | internal/hours/hours.go:192-202 | a stored time is shown as a text that reads back as the same time |
| Hours.TimeExactly | internal/hours/hours.go:192-195 | a text is a time exactly when it is the time in two-digit hours and minutes, or that without a leading zero |
| Hours.FormStored | internal/hours/hours.go:133-182 | no form conflicts with itself, and each day is stored as given |
| Hours.SegmentsStored | internal/hours/hours.go:133-163 | open segments with different keys are stored, all those of the week's seven days and three segments with both times in full, and no others |
| Hours.ClosedOrTwice | internal/hours/hours.go:141-160 | a closed day overwrites its first segment, and a segment stored twice is refused |
| Hours.WeekShowsForm | internal/hours/hours.go:43-182 | for every form at all, saving it and reading the week again shows each day as the form gave it, segments without two valid times dropped |
| Hours.CanonicalRoundTrip | internal/hours/hours.go:43-182 | a canonical form comes back unchanged: a day is closed exactly when its box says so, is shown with the texts of its own fields otherwise, and as unset with the default when they are blank |
| Hours.OpenAfterSaving | internal/hours/hours.go:80-182 | after saving a form the plant is open exactly when the day's box is not set and its fields give no whole segment, or one of them covers the minute |

## Left out

- Settlement.DeliveriesConfluent: is about deliveries for one ticket with nothing between them. `Payments.DeliveriesCommute` is about deliveries for any tickets, with no other transaction between them: a void or a sale in between may decide what a later delivery does. That a paid ticket keeps time and pump through anything else is `Settlement.PaidOnce`.
- Concurrency below one transaction: transactions, limiter calls and store callbacks happen one at a time. Two that interleave inside, as two sign-ins at one pump or two racing PIN attempts, are not modelled.
- What PostgreSQL does after a unique violation inside a transaction is an input of `Purchase` (`Draw.poisons`): it may go on or refuse every further statement.
- Errors of Redis, after which the limiters fail open or give up; every call is taken to succeed.
- Clocks: one clock serves the database and the program, and moves with every transaction; limiters count whole seconds.
- Random codes, references and one-time codes are inputs; references are taken as given and the table's uniqueness decides.
- The remaining columns and tables: customer names, price rows, audit log, reviews, notifications, token counters, notes of shifts, devices; several plants and row-level security.
- Roles, sessions, passwords, signatures, form parsing and redirects of the handlers.
- The online sales channels' gateway: its verdict is an input.
- Floating point: amounts stay where conversion is exact, and rounding is done on integers. The terminal's own formula (cmd/server/terminal.go:742) is the same expression as `GramsFromAmount` and is modelled by it.
- Phone normalisation, and the status names of pumps that are not known and read as working.
- JavaScript's loose equality, truth and property access are abstract functions of a record `Js`; getters have no effects. Texts are sequences of characters, not of UTF-16 units.
- Objects shared between the image-slot store and its elements, sidecar entries that are neither string nor object, rendering callbacks, and the rest of both scripts.
- Migration file contents, sorting of the directory listing, a commit whose outcome is unknown, and the status report.
- Daylight saving on the day of a status check, and the wording of the status label.
