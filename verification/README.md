# Verification of the panel's billing engine and stores

A Dafny model of the parts of the panel whose correctness lies between functions: the billing
engine over its five tables, the schema migration engine, the subscription template store, node
kernel sync, and the admin route normaliser.

`dafny verify dfyconfig.toml` checks everything.

## How the model is built

**Billing.** `tables.dfy` holds the rows, `ledger.dfy` and `billing.dfy` the requests as functions
of the tables. `database.dfy` is the imperative form: a class whose fields are the five tables,
with one method per repository mutator and per transaction. Each method saves a snapshot, changes
the tables step by step, restores the snapshot on an error, and is proved equal to its function.
`invariants.dfy` and `transactions.dfy` show that every transaction keeps one invariant.

A request is an unlocked read followed by one atomic transaction. In `runs.dfy` any number of
requests are between the two (a *flight*, which keeps what it read), in any order, and a flight
may be abandoned. The invariant speaks about flights too: what a snapshot let through stays
justified, since tables only grow and orders keep their identity. `money.dfy` states what follows
for every such run.

Some guards are asked before the transaction and not again inside it. `guards.dfy` states the
properties that depend on them and proves, over all interleaved runs, exactly which commits break
each, and that asking again would be enough. `hazards.dfy` exhibits one run that loses each
property. `serial.dfy` and `callbacks.dfy` state what holds when a request's read and transaction
happen together, and `outcomes.dfy` what each request then does, what it answers and exactly when.
`effects.dfy` says the same of a request that commits on any later tables, column by column and in
terms of the request as it came in.

**Migrations.** `migrations.dfy` is the engine over any schema type, with methods for its loops;
`apply_outcomes.dfy` and `migration_theorems.dfy` are what holds for any registry; `registry.dfy`
is the panel's own registry, its statements modelled as adding and removing tables and order
columns.

**Templates, nodes, routes.** `templates.dfy` and `nodes.dfy` are classes over their tables with a
specification function per operation and theorems over all runs; `template_effects.dfy` says what
a template shows after a run. `routes.dfy` is a parser and printer of path segments,
`round_trips.dfy` what survives both. `text.dfy` holds the string functions they share.

### What comes from outside

The clock, the generated order number, the plan row under a plan identifier, the caller, and which
migrations the database refuses (with how far a failed cleanup gets) are parameters.

### What is assumed of requests

- Plan prices are in 0..MaxInt64/10 (`Billing.PriceOk`); nothing in the plan code bounds them.
- An order is marked paid with method "balance", in any case, only together with a charge.
  `Hazards.MarkingIsSoundIff` shows exactly when leaving this out does harm.
- A wallet movement outside the order flows does not carry an `order:` reference.
- The tables start empty; every order comes from the create flow.

### Where the code and its documentation differ

- `docs/ROADMAP.md` line 30 calls callbacks idempotent and safe from downgrades. That holds when
  callbacks are served one at a time (`Callbacks.DeliveryIsOrderInsensitive`); the guard is
  outside the lock, so two at once can still downgrade (`Hazards.RunCanLoseASuccess`).
- `plain.md` line 50 and `docs/service-upgrade.md` line 74 describe migrations as reversible. The
  refund tracking step is not (`Registry.RefundTrackingIsNotUndone`);
  `Registry.UpAndBackRestoresIff` gives the exact condition for every step.
- `docs/service-upgrade.md` line 77 suggests a target before the first migration to clear all
  tables. Any such target but 0 does that (`Registry.ClearedIsEmpty`); 0 means the latest version.

## Model

| member | source | states |
|---|---|---|
| `Text.TrimSpaceTakes` | internal/repository/balance_refund.go:16-20 | trimming takes all the white space around a text and only that |
| `Text.SpacesByCodePoint` | internal/repository/balance_refund.go:16-20 | the white space it takes, by code point |
| `Text.LettersLowerInPlace` | internal/repository/balance_refund.go:16-20 | lower-casing turns each capital into its own small letter and changes nothing else |
| `Text.TrimAndLowerCommute` | internal/repository/balance_refund.go:16-20 | trimming and lower-casing in either order give the same text |
| `Tables.Wrap64` | internal/repository/balance_repository.go:175 | int64 addition: exact inside the range, off by 2^64 just above it |
| `Ledger.PostedIff` | internal/repository/balance_repository.go:136-208 | which postings are refused and why; any other adds its row as given, with the wallet's own currency, the offered one for a first posting or CNY, and touches no other wallet |
| `Ledger.SignTestIsExact` | internal/repository/balance_repository.go:175-178 | the one sign test on the wrapped sum accepts exactly when the true sum lies in 0..MaxInt64, given a balance that is not negative |
| `Ledger.PostKeepsLedger` | internal/repository/balance_repository.go:143-209 | every posting, accepted or refused, leaves each row with its user's exact prefix sum, each wallet equal to its last row and naming it, and one currency per user |
| `Ledger.BalanceIsLedgerSum` | internal/repository/balance_repository.go:70-84 | the balance reported for any user, also one without a wallet row, is the sum of that user's rows |
| `Ledger.EveryPrefixIsSolvent` | internal/repository/balance_repository.go:175-184 | at every point of the ledger's history a user's exact running sum is in 0..MaxInt64 |
| `Database.Store.ApplyTransaction` | internal/repository/balance_repository.go:131-215 | the nested transaction refines the posting function: new row and wallet, or an error and every table as before, including the wallet row it may have inserted |
| `Database.Store.RecordRefund` | internal/repository/balance_refund.go:8-23 | amounts that are not positive are refused without change; otherwise a posting under the normalised movement type |
| `Database.RefundKindIs` | internal/repository/balance_refund.go:16-20 | the movement type of a refund: blank becomes refund, any other is trimmed and lower-cased |
| `Database.RefundKindIsStable` | internal/repository/balance_refund.go:16-20 | the type a refund is given survives its own normalisation, so refund rows can be found again |
| `Database.Store.InsertOrder` | internal/repository/order_repository.go:164-212 | an insert is refused exactly when it would break one of the two unique indexes, else the row is appended |
| `Database.Store.CreatePayment` | internal/repository/order_repository.go:428-452 | a payment row without an order is refused, any other is appended |
| `Database.Store.CreateRefund` | internal/repository/order_repository.go:408-426 | a refund row without an order or a positive amount is refused, any other is appended |
| `Database.Store.UpdateStatus` | internal/repository/order_mutations.go:50-115 | only status and the given columns of one row change; a blank method is ignored |
| `Database.Store.UpdatePaymentState` | internal/repository/order_mutations.go:117-194 | only payment status and the given columns of one row change |
| `Database.Store.AddRefund` | internal/repository/order_mutations.go:196-246 | the locked re-check: refused exactly when the amount no longer fits what is left, else only the refund columns move, without wrap-around |
| `Database.Store.UpdatePaymentRecord` | internal/repository/order_mutations.go:248-310 | only status and the given columns of one payment row change |
| `Database.Store.ListPayments` | internal/repository/order_repository.go:384-406 | exactly the order's payments, in ascending order |
| `Database.Store.FindPayment` | internal/logic/admin/orders/paymentcallbacklogic.go:57-68 | the search loop finds a payment exactly when it exists and belongs to the order |
| `Billing.FindKey` | internal/repository/order_repository.go:232-245 | finds an order of that user with that key, and none only if there is none |
| `Effects.CreateReads` | internal/logic/user/order/createlogic.go:38-111 | which creates are refused at once and why, which answer with the order their key already names, which go on |
| `Effects.CreateCommits` | internal/logic/user/order/createlogic.go:121-290 | on any later tables a create without funds, or meeting its number or key, changes nothing; any other makes its order in full, with its exact total, debit row or gateway payment |
| `Effects.CreateRecovers` | internal/logic/user/order/createlogic.go:275-289 | the lookup after a conflict answers with the order that carries the key, or with the conflict when there is none |
| `Effects.MarkPaidReads` | internal/logic/admin/orders/markpaidlogic.go:37-60 | who is refused, what is not found, which order is answered as it is and which goes on |
| `Effects.MarkPaidCommits` | internal/logic/admin/orders/markpaidlogic.go:63-144 | on any later tables: without funds nothing, else the order paid under the method, reference and time asked for, and the charge row if one was asked for |
| `Effects.RefundReads` | internal/logic/admin/orders/refundlogic.go:36-70 | which refunds are refused and why, which go on; none is answered at once |
| `Effects.RefundCommits` | internal/logic/admin/orders/refundlogic.go:75-179 | on any later tables: refused for want of room or because it no longer fits, with nothing changed, else order, refund row and ledger row in full |
| `Effects.CallbackReads` | internal/logic/admin/orders/paymentcallbacklogic.go:35-93 | which callbacks are malformed or unfound, which repeat and are answered as they are, which would downgrade and are refused |
| `Effects.CallbackCommits` | internal/logic/admin/orders/paymentcallbacklogic.go:98-157 | on any later tables payment and order take the announced status, the trimmed texts given and the gateway's time, and nothing else changes |
| `Effects.CancelReads` | internal/logic/admin/orders/cancellogic.go:36-64 | who may cancel which order, which answer is given at once |
| `Effects.CancelCommits` | internal/logic/user/order/cancellogic.go:73-98 | on any later tables the order is cancelled, at an administrator's time if given, and nothing else changes |
| `Billing.OrderTotal` | internal/logic/user/order/createlogic.go:97-108 | for prices up to MaxInt64/10: one to ten units cost price times quantity, none or fewer one price, more ten prices, without wrap-around |
| `Database.Store.CreateOrder` | internal/logic/user/order/createlogic.go:121-273 | debit first, insert second: the whole transaction is one net change, or an error and no change, so a loser's debit is taken back |
| `Database.Store.MarkPaid` | internal/logic/admin/orders/markpaidlogic.go:63-144 | optional charge, payment state, method change: one net change or none |
| `Database.Store.Refund` | internal/logic/admin/orders/refundlogic.go:75-179 | credit, refund row, locked re-check, status promotion: one net change, or none when the re-check fails after the credit |
| `Database.Store.ProcessCallback` | internal/logic/admin/orders/paymentcallbacklogic.go:98-157 | payment row and order row move together or not at all |
| `Database.Store.CancelOrder` | internal/logic/admin/orders/cancellogic.go:67-98 | only status and cancellation time change |
| `Database.Store.BeginCallback` | internal/logic/admin/orders/paymentcallbacklogic.go:34-93 | the callback's unlocked read: which announcements are refused, answered at once, or go on to the transaction |
| `Transactions.ReadIsOk` | internal/logic/admin/orders/refundlogic.go:48-70 | a read that lets a request through leaves a snapshot strong enough for its transaction: a refund's implies a committed charge |
| `Transactions.FlightStaysOk` | internal/logic/admin/orders/refundlogic.go:72-83 | no other transaction takes that away, so a stale snapshot stays good enough |
| `Transactions.CreateKeeps` | internal/logic/user/order/createlogic.go:121-273 | a create on any later tables keeps the invariant and takes nothing back |
| `Transactions.MarkPaidKeeps` | internal/logic/admin/orders/markpaidlogic.go:63-144 | the same for marking paid, with or without a charge, from a stale snapshot |
| `Transactions.RefundKeeps` | internal/logic/admin/orders/refundlogic.go:75-179 | the same for a refund: column, refund rows and ledger move by one amount or not at all |
| `Transactions.CallbackKeeps` | internal/logic/admin/orders/paymentcallbacklogic.go:98-157 | the same for a callback, whatever state the order is in by then |
| `Transactions.CancelKeeps` | internal/logic/user/order/cancellogic.go:73-98 | the same for a cancellation |
| `Transactions.CommitKeeps` | internal/repository/order_mutations.go:50-310 | any flight's transaction, run on whatever the tables have become, keeps the invariant; tables only grow and orders keep their identity |
| `Runs.EveryRunKeeps` | internal/logic/user/order/createlogic.go:67-290 | over every interleaving of any number of requests the invariant holds and every flight can still commit |
| `Money.RowsPartition` | internal/repository/balance_repository.go:27-39 | each ledger row of a user belongs to no order or to exactly one of that user's, so the sums split |
| `Money.WalletBalances` | internal/repository/balance_repository.go:143-209 | a wallet equals its outside movements less charges times total plus refunds over its owner's orders |
| `Money.RunConservesMoney` | internal/repository/balance_repository.go:143-209 | that balance equation after every interleaved run, for every user |
| `Money.RunNeverOverpays` | internal/logic/admin/orders/refundlogic.go:58-154 | after every interleaved run 0 <= refunded <= total, the column equals both the refund rows and the refund ledger rows, and never exceeds what the order took |
| `Money.RunKeepsStatusesCoherent` | internal/repository/order_mutations.go:50-246 | after every interleaved run each status is borne out by the other columns; a pending order has no ledger row at all |
| `Money.RunKeepsLedgerExact` | internal/repository/balance_repository.go:136-208 | after every interleaved run each row's balance is the exact prefix sum and the wallet agrees with its last row |
| `Money.RunCreatesOncePerKey` | internal/logic/user/order/createlogic.go:67-290 | over every interleaving one user and key name at most one order and one committed create, debited its total exactly when it is to be paid from the wallet, and every answer names that order |
| `Money.LosingCreateIsHarmless` | internal/logic/user/order/createlogic.go:274-290 | a create that lost to its own key can recover; that a failing one leaves no trace is the result of Database.Store.CreateOrder |
| `Money.LoserRecoversWinner` | internal/logic/user/order/createlogic.go:274-290 | however much later it looks, the loser finds the very order that carries its key, and only that one |
| `Serial.SerialRunIsARun` | internal/logic/user/order/createlogic.go:121-290 | serving requests one at a time is the interleaved run that resumes each at once |
| `Serial.ReadIsRechecked` | internal/logic/admin/orders/markpaidlogic.go:55-60 | served in one piece, a request's guards still hold at its transaction |
| `Serial.ServeKeeps` | internal/logic/admin/orders/cancellogic.go:54-64 | so no served request charges an order twice, makes a payment row disagree with its order, or leaves a cancelled order owing |
| `Serial.SerialRunChargesOnce` | internal/logic/admin/orders/markpaidlogic.go:55-114 | in every serial run an order has at most one charge, and its single payment row agrees with it, save a pending payment of an order marked paid by hand |
| `Serial.SerialRunCancelsSquare` | internal/logic/admin/orders/cancellogic.go:54-64 | in every serial run a cancelled order's ledger rows come to zero: what it took it has given back |
| `Serial.SuccessIsFinal` | internal/logic/admin/orders/paymentcallbacklogic.go:69-93 | over any serial run a succeeded payment row never changes again |
| `Callbacks.CreateStartsStory` | internal/logic/user/order/createlogic.go:247-270 | a gateway order starts with one pending payment of its own |
| `Callbacks.CallbackJoins` | internal/logic/admin/orders/paymentcallbacklogic.go:69-157 | one callback moves payment and order to the join under pending, failed, succeeded |
| `Callbacks.DeliveryReachesJoin` | internal/logic/admin/orders/paymentcallbacklogic.go:125-151 | over any serial run in which only callbacks touch the order, payment status is the join of what was delivered and both order statuses follow |
| `Callbacks.JoinIsBySet` | internal/logic/admin/orders/paymentcallbacklogic.go:39-45 | the join depends only on which statuses were delivered at all |
| `Callbacks.DeliveryIsOrderInsensitive` | internal/logic/admin/orders/paymentcallbacklogic.go:69-93 | two runs that deliver the same statuses, reordered, repeated or mixed with other traffic, end alike |
| `Outcomes.CreateServedIff` | internal/logic/user/order/createlogic.go:38-308 | on any reachable tables a create changes something, and answers with its new order, if and only if every check passes, the wallet bears the exact total and the number is free; every other answer and its condition |
| `Outcomes.MarkPaidServedIff` | internal/logic/admin/orders/markpaidlogic.go:36-150 | marking paid changes something if and only if an administrator marks a pending order and a requested charge is covered; every answer and its condition |
| `Outcomes.RefundServedIff` | internal/logic/admin/orders/refundlogic.go:35-179 | a refund changes something if and only if an administrator refunds a wallet order within what is left and the wallet can hold it |
| `Outcomes.RefundAnsweredIff` | internal/logic/admin/orders/refundlogic.go:35-179 | it is answered with its order exactly then; every refusal has its own reason |
| `Outcomes.CallbackServedIff` | internal/logic/admin/orders/paymentcallbacklogic.go:34-157 | a callback is accepted if and only if it is known, found and no failure after a success, which alone is answered as an invalid state; a repeated one is accepted and changes nothing |
| `Outcomes.CancelServedIff` | internal/logic/admin/orders/cancellogic.go:35-104 | a cancellation, by administrator or owner, changes something if and only if the order is pending or has nothing left to give back; every answer and its condition |
| `Hazards.RunCanChargeTwice` | internal/logic/admin/orders/markpaidlogic.go:55-60 | a concrete interleaved run charges one order twice: the pending check is made outside the lock |
| `Hazards.RunCanOverrideAFailure` | internal/logic/admin/orders/markpaidlogic.go:55-60 | a concrete interleaved run leaves a failed payment under an order that counts as paid |
| `Hazards.RunCanCancelACharge` | internal/logic/user/order/cancellogic.go:67-71 | a concrete interleaved run cancels an order, keeps its charge and pays nothing back |
| `Hazards.RunCanLoseASuccess` | internal/logic/admin/orders/paymentcallbacklogic.go:91-93 | a concrete interleaved run takes a payment and its order from succeeded back to failed |
| `Guards.CommitHoldsIff` | internal/logic/admin/orders/markpaidlogic.go:63-144 | a commit keeps single charges, agreement and square cancellations exactly when it is not one of the three that break them |
| `Guards.RunHoldsIff` | internal/logic/admin/orders/markpaidlogic.go:55-144 | each of the three properties holds all along an interleaved run if and only if no commit of the run breaks it |
| `Guards.RunChargesOnceIff` | internal/logic/admin/orders/markpaidlogic.go:94-114 | an interleaved run ends with every order charged at most once if and only if no charging commit met an earlier purchase of its order |
| `Guards.MarkPaidAgreesIff` | internal/logic/admin/orders/markpaidlogic.go:116-129 | marking an order paid keeps payment rows in agreement if and only if the order's payment has not failed |
| `Guards.CancelIsSquareIff` | internal/logic/admin/orders/cancellogic.go:58-64 | a cancellation leaves its order square if and only if the order was free, never charged, or charged once and paid back in full |
| `Guards.RecheckingIsEnough` | internal/logic/user/order/cancellogic.go:67-71 | a run whose markings and cancellations would pass their guards inside the transaction keeps all three properties |
| `Guards.SuccessLastsIff` | internal/logic/admin/orders/paymentcallbacklogic.go:91-157 | in an interleaved run a succeeded payment stays so if and only if no failure notice commits on it |
| `Hazards.ChargeIsOnlyOneIff` | internal/logic/admin/orders/markpaidlogic.go:94-114 | the breaking condition read off the ledger: a charge is not the only one exactly when a purchase row of the order is already there |
| `Callbacks.LateCallbackJoinsIff` | internal/logic/admin/orders/paymentcallbacklogic.go:98-157 | a callback committed late still reaches the join if and only if it is not a failure meeting a success |
| `Hazards.MarkingIsSoundIff` | internal/logic/admin/orders/markpaidlogic.go:85-141 | marking keeps the order's money sound if and only if it charges, has nothing to charge, does not name the wallet, or follows an earlier charge |
| `Migrations.Database.Apply` | internal/bootstrap/migrations/registry.go:228-338 | the loops, breaks and early returns compute one function of state, target, permission and environment, with the report and error |
| `Migrations.Database.Upgrade` | internal/bootstrap/migrations/registry.go:286-302 | the loop over the sorted registry applies the registered versions between start and goal in order until one fails |
| `Migrations.Database.Rollback` | internal/bootstrap/migrations/registry.go:308-325 | the loop over the loaded versions undoes those above the goal, latest first, until one fails |
| `Migrations.Database.ApplyMigration` | internal/bootstrap/migrations/registry.go:340-375 | success records the version; failure undoes the Up and then runs as much of Down as takes effect, outside a transaction |
| `Migrations.Database.RollbackMigration` | internal/bootstrap/migrations/registry.go:377-402 | success removes the version; failure changes nothing |
| `Migrations.Database.ReadRegistry` | internal/bootstrap/migrations/registry.go:253-263 | one pass reports a repeated version if there is one, else the latest |
| `Migrations.Database.Highest` | internal/bootstrap/migrations/registry.go:244-251 | the current version is the highest recorded, zero if none |
| `Migrations.DownAllShrinks` | internal/bootstrap/migrations/registry.go:312-325 | a rollback leaves a prefix of the applied versions and reports the rest in descending order |
| `MigrationTheorems.SuccessMoves` | internal/bootstrap/migrations/registry.go:286-335 | success from any metadata: what is above the target is gone, what is registered between is there, and the report lists both differences |
| `MigrationTheorems.SuccessAssignsIff` | internal/bootstrap/migrations/registry.go:286-335 | success leaves exactly the registered versions up to the target if and only if the metadata had no gap below both ends |
| `MigrationTheorems.ApplyKeepsPrefix` | internal/bootstrap/migrations/registry.go:286-325 | whatever the outcome the metadata is the old one plus the applied or minus the rolled-back list, still a registry prefix, and a failure names the version next in line |
| `MigrationTheorems.RunsKeepPrefix` | internal/bootstrap/migrations/registry.go:228-402 | over any run of calls, failed or not, the metadata stays a prefix of the registry |
| `MigrationTheorems.RetryFinishes` | internal/bootstrap/migrations/registry.go:228-338 | after any failure, the same call on a calm database succeeds and reaches the target |
| `MigrationTheorems.DownUndoesUp` | internal/bootstrap/migrations/registry.go:308-325 | if each Down undoes its Up, the reverse-order loop restores schema and metadata, by induction over any registry |
| `MigrationTheorems.RollbackUndoesUpgrade` | internal/bootstrap/migrations/registry.go:286-325 | hence an upgrade followed by a rollback to its start is the identity, for any registry whose Downs undo their Ups |
| `ApplyOutcomes.ApplyRefusesIff` | internal/bootstrap/migrations/registry.go:253-306 | each refusal before anything is run, when it is given and what it reports: repeated version, stray version, empty registry, target too new, rollback without permission; none changes anything |
| `ApplyOutcomes.ApplySucceedsIff` | internal/bootstrap/migrations/registry.go:286-325 | a call succeeds if and only if it is not refused and meets no blocked migration; otherwise it fails at the first it meets |
| `ApplyOutcomes.ApplyReports` | internal/bootstrap/migrations/registry.go:271-335 | what the report says of start, goal and end |
| `ApplyOutcomes.NothingLostWithoutPermission` | internal/bootstrap/migrations/registry.go:303-306 | without permission to roll back no call takes a version away |
| `ApplyOutcomes.RunLosesNothing` | internal/bootstrap/migrations/registry.go:303-306 | nor does any run of such calls |
| `ApplyOutcomes.RunsInOrder` | internal/bootstrap/migrations/registry.go:94-98 | a migration's statements run first to last |
| `Registry.SortedDeclarations` | internal/bootstrap/migrations/registry.go:221-225 | sorting at start-up moves exactly the one migration declared out of order |
| `Registry.RegistryIsProper` | internal/bootstrap/migrations/registry.go:57-219 | the sorted registry has distinct positive versions, in the order stated |
| `Registry.RunsFit` | internal/bootstrap/migrations/registry.go:340-402 | over every run, with failed Ups and partial cleanups, the tables are exactly those of the applied migrations, and columns have their table |
| `Registry.TablesFollowVersions` | internal/bootstrap/migrations/registry.go:340-402 | path independence at every version: after any run a table exists if and only if the migration that owns it is applied |
| `Registry.ClearedIsEmpty` | internal/bootstrap/migrations/registry.go:303-325 | after any run, a successful rollback below the first migration leaves no table, no column and no version |
| `Registry.UpEnsuresExactly` | internal/bootstrap/migrations/registry.go:57-219 | what each Up makes sure of: its own tables and, after the first, the complete orders table |
| `Registry.FailedUpRunsDown` | internal/bootstrap/migrations/registry.go:363-372 | a failed Up leaves the versions alone and the schema without what its Down, as far as it ran, drops |
| `Registry.RollbackSheds` | internal/bootstrap/migrations/registry.go:303-325 | from the complete schema a rollback, finished or stopped, leaves exactly what the remaining versions account for, each order column going with the step named for it |
| `Registry.LatestIsComplete` | internal/bootstrap/migrations/registry.go:57-219 | path independence: after any run from an empty database, a successful Apply to latest leaves every table, every order column and the index |
| `Registry.UpAndBackRestoresIff` | internal/bootstrap/migrations/registry.go:57-219 | for every migration and every target just below it, up and back restores the database if and only if the Down drops nothing older and everything the Up added |
| `Registry.RefundTrackingIsNotUndone` | internal/bootstrap/migrations/registry.go:143-161 | the refund tracking step is not undone: its Down drops columns that billing-orders had already created |
| `Templates.Repository.Create` | internal/repository/subscription_template_repository.go:162-225 | normalised row, name check, insert, defaults cleared: one net change or an error |
| `Templates.Repository.Update` | internal/repository/subscription_template_repository.go:227-295 | only given fields change; an error in any of them changes nothing |
| `Templates.Repository.Publish` | internal/repository/subscription_template_repository.go:297-339 | the version bump and the history row happen together or not at all |
| `Templates.Repository.ClearDefaults` | internal/repository/subscription_template_repository.go:204-210 | every other template of the client type loses the default flag and nothing else changes |
| `TemplateEffects.CreatedIff` | internal/repository/subscription_template_repository.go:167-215 | which creates are refused and why; any other adds its row as given, normalised, and takes the default flag from its type |
| `TemplateEffects.UpdatedIff` | internal/repository/subscription_template_repository.go:232-287 | which updates are refused and why; any other writes exactly the given columns of its row, trimmed or lower-cased, and takes the default flag from its type when it becomes the default |
| `TemplateEffects.PublishedIff` | internal/repository/subscription_template_repository.go:304-330 | which publishes are refused and why; any other records the row as it stands under the next number |
| `TemplateEffects.ShowsWhatWasAccepted` | internal/repository/subscription_template_repository.go:227-295 | after any run a template shows exactly the inputs accepted for it, the latest of each column on top |
| `TemplateEffects.ContentIsLastGiven` | internal/repository/subscription_template_repository.go:265-271 | a template's content is the last one accepted for it, or else the one it was created with |
| `TemplateEffects.ReleaseShowsWhatWasAccepted` | internal/repository/subscription_template_repository.go:320-330 | a release carries the content, format and variables accepted by the time it was published, whatever came later |
| `Templates.CreateKeeps` | internal/repository/subscription_template_repository.go:167-215 | creating keeps names unique, one default a type, types lower-cased, history numbered |
| `Templates.UpdateKeeps` | internal/repository/subscription_template_repository.go:238-287 | updating does too, although it compares an un-lowered client type and skips clearing when already default |
| `Templates.PublishKeeps` | internal/repository/subscription_template_repository.go:297-339 | publishing does too |
| `Templates.PublishFailsIff` | internal/repository/subscription_template_repository.go:311-328 | a publish conflicts if and only if all 2^32 version numbers have been used |
| `Templates.RunKeepsUniqueness` | internal/repository/subscription_template_repository.go:190-210 | over every run no two templates share a case-folded name and client type, and no client type has two defaults |
| `Templates.RunNumbersReleases` | internal/repository/subscription_template_repository.go:311-328 | over every run a template's releases are numbered 1, 2, 3 without gaps up to its version, below overflow |
| `Templates.ReleasesAreFaithful` | internal/repository/subscription_template_repository.go:320-330 | every history entry is the template as it stood at the publish that made it, whatever came later |
| `Templates.HistoryGrows` | internal/repository/subscription_template_repository.go:297-339 | no operation rewrites history; only a publish adds to it, one entry |
| `Nodes.Repository.RecordKernelSync` | internal/repository/node_repository.go:152-224 | overwrite or insert the kernel row, list the protocol, raise the times: one net change, or not found |
| `Nodes.Repository.Contains` | internal/repository/node_repository.go:267-275 | the loop decides whether an item equals the trimmed target up to case |
| `Nodes.NormalizeProtocol` | internal/repository/node_repository.go:277-283 | never empty, lower-cased and trimmed |
| `Nodes.NormalizedIs` | internal/repository/node_repository.go:277-283 | a blank protocol is http, any other itself, trimmed and lower-cased |
| `Nodes.SortStringsIsRight` | internal/repository/node_repository.go:202-205 | the sorted list is a permutation and in order |
| `Nodes.TouchedIsRight` | internal/repository/node_repository.go:202-213 | the node lists the protocol afterwards, forgets none, gains no other, and its time covers the row's |
| `Nodes.LeqByFirstDifference` | internal/repository/node_repository.go:204 | that order is the usual one: by the first difference, or by length |
| `Nodes.RecordedIff` | internal/repository/node_repository.go:172-216 | which syncs are refused; any other answers with its row, puts its node online with times that do not fall back, lists the protocol in order if it was not listed, and touches no other node |
| `Nodes.RecordKeeps` | internal/repository/node_repository.go:172-216 | one sync keeps the aggregate: one row a node and protocol, listed, not ahead of the node |
| `Nodes.EveryRunKeeps` | internal/repository/node_repository.go:152-224 | the same after any run from nodes without kernels |
| `Nodes.RunAdvances` | internal/repository/node_repository.go:202-213 | from any point of a run to its end no node loses a protocol or goes back in time |
| `Nodes.RowsRememberHistory` | internal/repository/node_repository.go:178-200 | a row exists exactly when its node and protocol were synced, shows the last sync column by column even if its time is older, and keeps the first sync's creation time |
| `Nodes.NodeTimeIsNewest` | internal/repository/node_repository.go:206-208 | a node's sync time is the maximum of its first one and those of its syncs |
| `Routes.TrimLeadingSegments` | internal/admin/routes/routes.go:57-75 | the loop drops the prefix exactly when every segment of it matches up to case |
| `Routes.SplitUndoesJoin` | internal/admin/routes/routes.go:49-55 | splitting a joined path gives its segments back |
| `Routes.JoinUndoesSplit` | internal/admin/routes/routes.go:77-82 | joining split text gives the text back |
| `Routes.ParseUndoesPrint` | internal/admin/routes/routes.go:49-82 | printed segments parse back to themselves, also none at all |
| `Routes.SegmentsAreResolved` | internal/admin/routes/routes.go:10-11 | a route's segments are its cleaned ones: no blank, dot or dot-dot remains |
| `Routes.StayingGoes` | internal/admin/routes/routes.go:10 | cleaning drops blank and dot segments wherever they stand |
| `Routes.UpGoesBack` | internal/admin/routes/routes.go:10 | cleaning drops two dots with the segment before them, and alone at the root |
| `Routes.SanitizeTakes` | internal/admin/routes/routes.go:45-47 | a prefix loses the white space around it, then the slashes around the rest, and nothing else |
| `Routes.NormalizedIsClean` | internal/admin/routes/routes.go:9-25 | a normalised route is rooted and already clean |
| `Routes.PathIsPrinted` | internal/admin/routes/routes.go:28-43 | the full path is the base's segments followed by the normalised route's |
| `Routes.Reparse` | internal/admin/routes/routes.go:9-11 | a printed path read again loses nothing but white space at its very end |
| `Routes.AnySpellingNormalizes` | internal/admin/routes/routes.go:13-24 | however the base is spelt in letter case, what follows it is what remains |
| `RoundTrips.RoundTripIff` | internal/admin/routes/routes.go:9-43 | for any route and any prefix without a slash, normalising the full path gives the normalised route back if and only if that route starts with no further admin segment and ends in no white space, and the prefix does not go up or lose white space that mattered |
| `RoundTrips.AnyPrefixRoundTripIff` | internal/admin/routes/routes.go:9-43 | for any prefix, on a full path that does not end in white space, the round trip holds if and only if stripping takes the base as it reads back and nothing else |
| `RoundTrips.Taken` | internal/admin/routes/routes.go:13-22 | stripping drops a number of leading segments that can be counted segment by segment |
| `RoundTrips.StripsExactlyIff` | internal/admin/routes/routes.go:13-22 | the three strippings take exactly a given base off a path under a condition on the base and the first segments behind it |
| `RoundTrips.PathIsIdempotentIff` | internal/admin/routes/routes.go:28-43 | for any prefix and route, adding the prefix twice is adding it once if and only if the round trip holds |
| `RoundTrips.SeveralSegmentsNeverComeBack` | internal/admin/routes/routes.go:16-19 | a prefix of several clean segments never comes off a path that does not end in white space, because it is compared as one segment |

## Left out

- Database.Store.ProcessCallback: the processing time written to the payment's update column is not modelled, because no property needs update times.
- Database.Store.UpdateStatus: statuses are an enumeration, so the refusal of a blank status string cannot occur; no caller passes one.
- Database.Store.UpdatePaymentState: the same for blank statuses; the payment intent identifier and metadata are not modelled.
- Database.Store.InsertOrder: order items and the defaults for columns left blank are not modelled; the create flow fills those columns.
- Database.Store.UpdatePaymentRecord: the processing time, blank statuses and metadata are not modelled, for the same reasons.
- Database.Store.CreateOrder: order items, metadata, the plan snapshot and the payment intent are not modelled; the wallet row read for the currency is.
- Registry.LatestIsComplete: column types and sizes are not modelled, and the indexes other than the idempotency one belong to their tables.
- RoundTrips.AnyPrefixRoundTripIff: a prefix with an inner slash together with a path that ends in white space has no condition of its own.
- RoundTrips.SeveralSegmentsNeverComeBack: stated for prefixes whose segments are neither blank nor dots, on paths that do not end in white space; the more general result beside it covers blanks and dots.
- Isolation anomalies, deadlocks and lost connections: a transaction is one atomic step with rollback. In particular two first movements of one user cannot collide on the wallet row.
- Data definition statements that a database commits outside a transaction: a failed migration's own statements are taken to be rolled back.
- Row identifiers are positions, so the gaps that rolled-back inserts leave in a sequence do not appear.
- Letter case is folded for ASCII letters only, and text equality is exact: Unicode folding and database collations are not modelled.
- Reads made after a commit to build a response, which can fail although the change is made; response building, mappers, metrics, logs and audit lines.
- The duplicate-key error is one `Conflict` value; the text matching that recognises it is not modelled.
- Metadata maps and their merging, descriptions, notes, `UpdatedAt` columns of orders, and the operator and changelog of a release.
- Sharing of the template variables map between rows: maps are values here, which is what the cloning achieves.
- The version-descending listing of a template's history: the model keeps releases in publishing order.
- Sorting by the standard library is a function (insertion sort), since its result is fixed by what it sorts.
- Listing and search queries with pagination, `Save` and `GetForUpdate`, which no request uses, and demo seed data.
- HTTP handlers, middleware, tokens, password hashing, kernel providers, caching, the command line and the install wizard: input and output around this logic.
- Template rendering: it belongs to the standard template library.
