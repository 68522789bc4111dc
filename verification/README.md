# TradeBay: a verified model

TradeBay is a business-to-business marketplace with a FastAPI and MongoDB backend and a Next.js frontend. This
project models the parts of it that carry state, loops or arithmetic and proves what they keep, over all inputs,
all runs and all interleavings. Each module follows one component of the program. Where a component updates
collections or fields in place there is a class whose methods are proved against functions on values, and the
results are lemmas about those functions.

- `RateLimiter`: the in-process sliding-window limiter refines a limiter that never forgets, and its bounds over runs.
- `SupplierLedger`: commission split, append-only supplier ledger with idempotency keys, and the operations that post to it.
- `Inventory`: available and reserved stock of a product with its transaction log.
- `RoleSeeding`, `PermissionIndex`: reconciliation of role grants, the bulk path beside it, and the cached permission index.
- `CategoryMigration`: the three loops that bring categories and products to the wanted list are one map on slugs.
- `CategoryCounts`: roll-up counts along parent links that may form cycles.
- `Checkout`: order placement with an idempotency key, page and server together, with lost replies.
- `LiveUpdates`, `MongoManager`: the notification poller and the connection manager as state machines.
- `Decimals`, `Money`, `MoneyBars`: money texts, their sums, and the shares and bars drawn from them.
- `NumericInput`, `HtmlEscape`, `Navigation`, `Slug`: the algebraic laws of four text and tree functions.

Run `dafny verify dfyconfig.toml` in this directory.

## Where the code falls short of what it is for

These are results, each with its exact condition or a concrete run.

- A payment recorded by hand posts no SALE entry, yet release and refunds debit it: the pending balance is negative
  exactly when such orders outweigh the held ones (`PendingNegativeExactly`, `HandPaymentOverdrawsPending`).
- Cancelling an order does not keep its money from being paid out. A payment recorded on an open invoice stays pending
  when the order is cancelled (backend/app/modules/checkout/payments.py:78-136); completing it later
  (backend/app/modules/finance/service.py:873-954) holds the funds, and release refuses settled payables only
  (`CancelledPaidOutExactly`, `CancelledOrderPaidOut`).
- A refund notified twice moves the payable twice and the ledger once. Two overlapping calls of `process_refund`
  (backend/app/modules/finance/service.py:1389-1448) do that: both read the status before either writes it. Available
  stays non-negative all the same (`RefundReplayBreaksBooksExactly`, `RefundTwiceBreaksBooks`, `AvailableNeverNegative`).
- A refund after release makes the payout larger than the payable, and it can never be completed
  (`RefundMakesStuckExactly`, `RefundThenNeverPaidOut`, `ReleaseThenRefundIsStuck`).
- Reconciliation reads at most 500 grants of a role, so stale grants of a role with more can survive, and with
  more than 500 stale ones some always do (`ReconciledForSureExactly`, `TooManyStaleGrantsStay`).
- A permission seeding that raises midway leaves a cache that misses rows already written
  (`StoppedSeedingBreaksCacheExactly`, `StoppedSeedingLeavesStaleCache`).
- After a schema setup that raised, or a cancelled ping, `connect` returns normally on the same loop and never tries
  the setup again (`ReturnedMeansReadyExactly`, `SchemaFailureNeedsDisconnect`).
- `sanitizeNumericInput` with fewer than one decimal does not clean text piece by piece as it cleans it at once
  (`StreamsExactly`). No field of the program asks for that: the default is 2 and the settings page uses 4.
- A minus sign in front of an amount text does not negate what is read if the text has one already and goes on with a
  sign or white space, as "--1" does (`CentsNegate`, `DoubleMinusNotNegated`).
- Filtering a menu for two permission sets in turn is not filtering for what they share, unless one contains the other
  (`ComposesExactly`).
- A slug cut at 140 characters may end in a hyphen, and then is no slug of itself (`SlugAgain`).
- A wall clock that steps back makes the limiter count stamps from the future. For any such run some configuration
  shows it (`AgreesExactlyWhenMonotone`, `ClockStepBackChangesAnswer`).

## Model

| member | source | states |
|---|---|---|
| `RateLimiter.InProcessRateLimiter.Allow` | backend/app/core/middleware.py:109-118 | one call answers by the pruned list of its key and leaves exactly that pruned list, with the new stamp if and only if it was accepted |
| `RateLimiter.AdmitsAsFullHistory` | backend/app/core/middleware.py:109-118 | for any run whose clock does not run backwards per key, the pruning limiter answers the next call exactly as a limiter that never forgets a stamp |
| `RateLimiter.PrunedShowsHistory` | backend/app/core/middleware.py:112-117 | what the stored list shows after any cutoff the calls have reached is what the full history shows |
| `RateLimiter.AgreesExactlyWhenMonotone` | backend/app/core/middleware.py:109-118 | the pruning limiter gives every answer of a run as the one that never forgets, under every configuration, if and only if the clock of no key runs backwards |
| `RateLimiter.ClockStepBackChangesAnswer` | backend/app/core/middleware.py:110-112 | the smallest run whose clock steps back: one stamp from the future is counted and the answers differ |
| `RateLimiter.RefusedExactlyWhenFull` | backend/app/core/middleware.py:113-115 | a call is refused if and only if max_hits acceptances of its key lie in (now - window, now] |
| `RateLimiter.RefusedCallCostsNothing` | backend/app/core/middleware.py:113-115 | after a refused call every later answer, to any key, is as if the call had never been made |
| `RateLimiter.StoredListsStaySmall` | backend/app/core/middleware.py:112-117 | in every run each stored list is sorted, holds at most max_hits stamps, and none after the last call of its key |
| `RateLimiter.AcceptedSpaced` | backend/app/core/middleware.py:109-118 | in every run each acceptance comes at least one window after the acceptance max_hits places before it |
| `RateLimiter.AcceptedInAnyInterval` | backend/app/core/middleware.py:109-118 | any interval of any length holds at most max_hits times ceil(length / window) acceptances of a key |
| `RateLimiter.RateLimitMiddleware.Handle` | backend/app/core/middleware.py:127-150 | requests that are not HTTP, that ask for /health or /ready, or that meet a disabled limiter pass and leave it alone; any other is one call under its client address, or under the name unknown without one, is answered 429 exactly when that call is refused, and changes no other quota |
| `RateLimiter.MiddlewareRunsLimiter` | backend/app/core/middleware.py:127-150 | a run of the middleware is a run of the limiter over its gated requests alone: same stored lists, same acceptances |
| `RateLimiter.ClientsIndependent` | backend/app/core/middleware.py:137-139 | every request is answered as if only the requests of its own client had come before; those without a client address count with those of an address unknown |
| `RateLimiter.GatedRequestsInAnyInterval` | backend/app/core/middleware.py:125-150 | for every configured rate, zero and negative included, a host that asks is let through at least once and at most max(1, rate) times per started minute of any interval |
| `SupplierLedger.SplitConserves` | backend/app/modules/platform_money/commission.py:30-52 | only a negative rate is refused; commission and net add up to the order total, both lie between zero and it, the fee is the closest whole cent to base times rate, or to the fixed rate, ties going up, and it is the whole total only if that closest cent is no less |
| `SupplierLedger.NetAntitoneInRate` | backend/app/modules/platform_money/commission.py:30-52 | a higher rate never leaves a supplier more |
| `SupplierLedger.SupplierMoney.PostEntry` | backend/app/modules/platform_money/supplier_ledger.py:31-86 | an entry is appended if and only if its idempotency key is new |
| `SupplierLedger.SupplierMoney.CreateCommission` | backend/app/modules/platform_money/service.py:173-239 | an order that has a commission record keeps it, a negative rate is refused, and otherwise one open, unpaid order with its split is added; nothing else changes |
| `SupplierLedger.SupplierMoney.RecordCheckoutPayment` | backend/app/modules/platform_money/service.py:241-318 | exactly a positive allocation is recorded: the order is held and a pending commission recognised, and its gross and, if any, its commission are posted to pending unless their keys are there already |
| `SupplierLedger.SupplierMoney.HoldManualPayment` | backend/app/modules/platform_money/service.py:342-414 | exactly a positive payment recorded by hand marks the funds held and a pending commission recognised, cancelled orders included, and leaves the supplier ledger as it was |
| `SupplierLedger.SupplierMoney.ReleaseFunds` | backend/app/modules/platform_money/service.py:432-557 | release succeeds if and only if the payable is unsettled, a payment was held and the net is positive; then the net moves from pending to available once, and a payout of it is created unless there is one; otherwise nothing changes |
| `SupplierLedger.SupplierMoney.CompletePayout` | backend/app/modules/platform_money/service.py:559-658 | a payout completes if and only if it is pending or processing and no larger than what is payable; then the payable is settled and the payout posted; a payout refused for its amount is left processing, and any other refusal changes nothing |
| `SupplierLedger.SupplierMoney.FailPayout` | backend/app/modules/platform_money/service.py:660-697 | a payout fails if and only if it was pending or processing |
| `SupplierLedger.SupplierMoney.ApplyRefund` | backend/app/modules/platform_money/service.py:743-831 | the payable is adjusted at every notification of a positive amount unless it is settled, the ledger only when the refund key is new, in the bucket that holds the money |
| `SupplierLedger.SupplierMoney.CancelCommission` | backend/app/modules/platform_money/service.py:320-331 | a pending commission is reversed and an open payable cancelled, and nothing else changes |
| `SupplierLedger.RunStructure` | backend/app/modules/platform_money/service.py:173-831 | in every run each order satisfies its invariants and the idempotency keys in the ledger are exactly those its state calls for |
| `SupplierLedger.LedgerIsOrdersPlusLoss` | backend/app/modules/platform_money/supplier_ledger.py:182-236 | in every run each balance computed from the ledger alone is the sum of what the orders, payables and payouts say, plus what refunds notified again took from payables only; that loss is never negative |
| `SupplierLedger.BooksMatchExactly` | backend/app/modules/platform_money/service.py:783-828 | the two agree if and only if no refund of the run found its key in the ledger and still lowered a net |
| `SupplierLedger.LedgerMatchesOrders` | backend/app/modules/platform_money/supplier_ledger.py:182-236 | so they agree in every run that notifies each refund once |
| `SupplierLedger.AvailableNeverNegative` | backend/app/modules/platform_money/supplier_ledger.py:217-220 | in every run, refunds notified again included, the available balance of a supplier is never negative |
| `SupplierLedger.PendingNegativeExactly` | backend/app/modules/platform_money/supplier_ledger.py:213-216 | in every run the pending balance of a supplier is the net of its paid, unreleased orders, less what orders not paid at checkout moved, plus what repeated refunds lost; it is negative if and only if the middle part outweighs the others |
| `SupplierLedger.PendingIsHeldNet` | backend/app/modules/platform_money/supplier_ledger.py:213-216 | without orders that moved money without a sale the pending balance is never negative, in any run, and is the held net when each refund is notified once |
| `SupplierLedger.HandPaymentOverdrawsPending` | backend/app/modules/platform_money/service.py:342-414 | a concrete run of three calls that leaves a negative pending balance |
| `SupplierLedger.BalanceIsConserved` | backend/app/modules/platform_money/supplier_ledger.py:182-236 | in every run, replays included, pending plus available is credits minus debits, and equals net earnings minus payouts minus adjustments: releases move money and create none |
| `SupplierLedger.FiguresMatchOrders` | backend/app/modules/platform_money/supplier_ledger.py:224-232 | in every run the gross sales, platform fees, net earnings and paid-out figures are the sums over the orders paid at checkout and the completed payouts |
| `SupplierLedger.ReplayChangesNothing` | backend/app/modules/platform_money/service.py:173-697 | delivering any operation but a refund a second time, the opening of an order included, leaves the whole state as it was |
| `SupplierLedger.RefundReplayBreaksBooksExactly` | backend/app/modules/platform_money/service.py:743-831 | replaying a refund keeps matching books matching if and only if one of its guards stops it or the net it computes is the net already stored |
| `SupplierLedger.RefundTwiceBreaksBooks` | backend/app/modules/platform_money/service.py:783-828 | a run that gets there: the same refund of 1.00 twice leaves pending 1.00 too high |
| `SupplierLedger.RefundMakesStuckExactly` | backend/app/modules/platform_money/service.py:783-802 | a refund makes a payout exceed its payable if and only if there is a payout, it is not completed, the amount is positive and a net was left |
| `SupplierLedger.RefundAfterReleaseLocksPayout` | backend/app/modules/platform_money/service.py:607-610 | once a payout exceeds its payable, no continuation of the run ever completes it |
| `SupplierLedger.RefundThenNeverPaidOut` | backend/app/modules/platform_money/service.py:607-828 | so after a refund between release and payout of an order with a net left, whatever follows, the order is never paid out |
| `SupplierLedger.ReleaseThenRefundIsStuck` | backend/app/modules/platform_money/service.py:783-802 | a run of four calls that gets there |
| `SupplierLedger.PaidOutReachableExactly` | backend/app/modules/platform_money/service.py:432-658 | some continuation of a run pays an order out if and only if it is paid out already, or a net is left and no payout of it failed or exceeds that net; whether its payable is cancelled plays no part |
| `SupplierLedger.CancelledPaidOutExactly` | backend/app/modules/platform_money/service.py:320-331 | without any further payment a cancelled order can still be paid out if and only if it holds funds and is so payable |
| `SupplierLedger.CancelledOrderPaidOut` | backend/app/modules/platform_money/service.py:442-473 | a run that does it: cancel, complete a payment recorded earlier, release, pay out |
| `SupplierLedger.PayoutCompletesExactly` | backend/app/modules/platform_money/service.py:577-648 | after processing, a payout is completed if and only if it exists, had not failed, and its net is still the payable net |
| `SupplierLedger.PaidAtMostOnce` | backend/app/modules/platform_money/supplier_ledger.py:165-180 | in every run the ledger has at most one entry per idempotency key, and a payout entry for an order if and only if its payout is completed |
| `SupplierLedger.NothingReleasedUnpaid` | backend/app/modules/platform_money/service.py:446-473 | in every run an order without a positive payment is neither held nor released and has no payout |
| `Inventory.Inventory.MutateStock` | backend/app/modules/catalog/service.py:1188-1313 | the answer, the two quantities and the log row written, for every kind of change and every refusal |
| `Inventory.EveryRunSound` | backend/app/modules/catalog/service.py:1188-1313 | in every run stock is not negative, available plus reserved is received minus sold, the reserved quantity is what the log says is held, nobody holds less than nothing, and the log rows chain up to the stored quantities |
| `Inventory.AcceptedExactly` | backend/app/modules/catalog/service.py:1201-1271 | after any run exactly these are accepted: an owned, positive receipt, a reservation of no more than is available, a release or sale of no more than its reference holds; and each error has its exact condition |
| `Inventory.AcceptedMoves` | backend/app/modules/catalog/service.py:1236-1305 | what each accepted kind adds to and takes from the two quantities, and the log row it writes |
| `Inventory.TakeRefusedExactly` | backend/app/modules/catalog/service.py:1214-1269 | a release or sale is refused if and only if it asks for more than its own reference holds; the later guards on the row never decide |
| `Inventory.OneOfTheOrders` | backend/app/modules/catalog/repository.py:213-247 | when no reference holds less than nothing, no order holds more than all orders together |
| `Inventory.CancellingAlwaysWorks` | backend/app/modules/catalog/service.py:1252-1260 | after any run, releasing exactly what an order holds succeeds, returns it to stock and leaves the order nothing |
| `Inventory.ReserveThenRelease` | backend/app/modules/catalog/service.py:1243-1260 | a reservation followed by its release gives back both quantities and leaves two log rows |
| `RoleSeeding.RoleCollections.SeedReconciling` | backend/app/db/seed.py:361-427 | the nested loops leave the store that visiting the names one after the other describes |
| `RoleSeeding.RoleCollections.SeedFresh` | backend/app/db/seed.py:327-359 | the bulk path leaves the store, and raises, as ordered role inserts and unordered grant inserts under the unique indexes do |
| `RoleSeeding.RoleCollections.GrantDocs` | backend/app/db/seed.py:343-354 | the grant documents of a role are its wanted grants restricted to the index, with duplicates if and only if two wanted codes share an id |
| `RoleSeeding.GrantRowsExactly` | backend/app/db/seed.py:389-427 | said of rows: with at most 500 grants a named role ends with a grant of a permission exactly when the index gives that permission for the dotted form of one of the codes its name is granted |
| `RoleSeeding.VisitActs` | backend/app/db/seed.py:361-421 | one visit changes one role only: it deletes what was fetched and is not wanted and queues what is wanted and was not fetched |
| `RoleSeeding.ReconciledGrants` | backend/app/db/seed.py:361-427 | whatever stale or missing rows it started with, a named role ends with all it wants plus at most stale grants the limited query did not show, exactly those when names are distinct, and keeps its id |
| `RoleSeeding.ReconciledForSureExactly` | backend/app/db/seed.py:395-409 | every answer the query limit allows leaves a named role with exactly its wanted grants if and only if it started with at most 500 grants or with none that is stale |
| `RoleSeeding.ReconciledUpToLimit` | backend/app/db/seed.py:395-409 | with at most 500 grants it always ends with exactly its wanted grants, however often a name is listed |
| `RoleSeeding.TooManyStaleGrantsStay` | backend/app/db/seed.py:395-409 | more than 500 stale grants always leave the role with some of them |
| `RoleSeeding.OtherRolesUntouched` | backend/app/db/seed.py:405-408 | roles that are not named keep exactly their grants |
| `RoleSeeding.NoChangeExactly` | backend/app/db/seed.py:361-427 | a run changes nothing if and only if every named role exists, has all it wants, and shows nothing stale |
| `RoleSeeding.SecondRunChangesNothing` | backend/app/db/seed.py:361-427 | up to the limit a second run deletes and inserts nothing |
| `RoleSeeding.FreshSucceedsExactly` | backend/app/db/seed.py:327-359 | the bulk path raises nothing if and only if the names are distinct, none of the roles exists, and no role wants two codes with one id |
| `RoleSeeding.FreshFailsAt` | backend/app/db/seed.py:355-358 | a bulk run that meets a duplicate role keeps exactly the roles inserted before the first duplicate, with the ids drawn for them, and writes no grant |
| `RoleSeeding.BothPathsAgree` | backend/app/db/seed.py:327-427 | for a business with none of the roles both paths give each name the same permissions, its wanted ones, even when the bulk path raises over duplicate grants |
| `PermissionIndex.PermissionStore.SeedPermissions` | backend/app/db/seed.py:109-127 | the rows added, and that the cache is dropped only if the loop ran to its end |
| `PermissionIndex.PermissionStore.GetIndex` | backend/app/db/seed.py:302-311 | the cached index if there is one, otherwise exactly the dotted codes of the first 500 rows, each with the id of its last row, which is then cached |
| `PermissionIndex.CacheCoherent` | backend/app/db/seed.py:109-127 | in every run in which no seeding stops midway the cache is absent or equal to the rebuilt index |
| `PermissionIndex.StoppedSeedingBreaksCacheExactly` | backend/app/db/seed.py:109-127 | a seeding that stops midway leaves a coherent cache wrong if and only if there is a cache, some code it reaches has no row yet, and the table is below the query limit |
| `PermissionIndex.StoppedSeedingLeavesStaleCache` | backend/app/db/seed.py:109-127 | a run of two calls that gets there |
| `PermissionIndex.SeededCodesIndexed` | backend/app/db/seed.py:302-311 | after a complete seeding the index read next has every catalog code, if the table fits the limit |
| `PermissionIndex.IndexedExactly` | backend/app/db/seed.py:302-311 | in general the index then has exactly the dotted codes of the first 500 rows, each with the id of its last row |
| `PermissionIndex.AddAllAppends` | backend/app/db/seed.py:113-126 | seeding only appends rows with new ids, for codes that had none, and misses no code it reached |
| `PermissionIndex.AddedFromCatalog` | backend/app/db/seed.py:113-126 | and every row it adds is of the catalog |
| `CategoryMigration.Database.UpsertWanted` | frontend/scripts/_upsert_platform_categories.py:65-97 | the first loop leaves rows with unique slugs, renames the first legacy row of a missing slug, creates a row only where there is none, and indexes every wanted row |
| `CategoryMigration.Database.FindLegacy` | frontend/scripts/_upsert_platform_categories.py:70-77 | finds the row of the first dictionary entry, by position, that maps another slug to the wanted one and has a row, and none only if no entry does |
| `CategoryMigration.Database.MergeLegacy` | frontend/scripts/_upsert_platform_categories.py:99-118 | the second loop deactivates every row whose slug moves to a wanted one and repoints its products, all measured against the state before the loop |
| `CategoryMigration.Database.DeactivateRest` | frontend/scripts/_upsert_platform_categories.py:120-128 | the third loop deactivates exactly the rows whose slug is not wanted |
| `CategoryMigration.Database.Migrate` | frontend/scripts/_upsert_platform_categories.py:62-128 | the whole script composes the three stages from any database with unique slugs |
| `CategoryMigration.SlugsAfter` | frontend/scripts/_upsert_platform_categories.py:65-128 | afterwards slugs are unique, no row is lost, and every wanted slug has a row |
| `CategoryMigration.RowOutcome` | frontend/scripts/_upsert_platform_categories.py:78-128 | a row is active if and only if its slug is wanted, and then carries the wanted name, description, order and image, no parent, and its old creation time; any other row is an old one, deactivated and otherwise unchanged |
| `CategoryMigration.FirstLegacyRenamed` | frontend/scripts/_upsert_platform_categories.py:65-96 | over the whole script, a wanted slug without a row takes the row of the first dictionary entry that has one, which keeps its id and creation time |
| `CategoryMigration.OtherwiseCreated` | frontend/scripts/_upsert_platform_categories.py:88-91 | without such an entry the row of the wanted slug is a new one, created now |
| `CategoryMigration.WantedRowStays` | frontend/scripts/_upsert_platform_categories.py:92-96 | a wanted slug that has a row keeps that row, with its id and creation time |
| `CategoryMigration.ProductOutcome` | frontend/scripts/_upsert_platform_categories.py:99-118 | every product ends under the slug that the one map on slugs gives its old slug, stamped with the time of the run if it moved and otherwise unchanged; a product without a category keeps its reference |
| `CategoryMigration.MappedSlugIsDictionary` | frontend/scripts/_upsert_platform_categories.py:18-36 | that map sends a key of LEGACY_SLUGS to its target if the target is wanted and any other slug to itself; with all targets wanted it is the dictionary applied once |
| `CategoryMigration.SecondRunRow` | frontend/scripts/_upsert_platform_categories.py:62-128 | a second run, at any time, leaves every row as it was but for its update time |
| `CategoryMigration.SecondRunProduct` | frontend/scripts/_upsert_platform_categories.py:109-112 | a second run leaves every product exactly as it was, its update time included |
| `CategoryMigration.ShippedTablesAreConsistent` | frontend/scripts/_upsert_platform_categories.py:18-36 | the tables the script ships with meet every assumption the results make |
| `CategoryCounts.CategoryCounts` | frontend/components/catalog/BuyerMarketplace.tsx:137-149 | the walk ends for every parent map, and the count of each id is the number of products whose category reaches it in zero or more parent steps; ids with no such product are absent |
| `CategoryCounts.VisitedIsReachable` | frontend/components/catalog/BuyerMarketplace.tsx:137-149 | once the walk stops, the ids it has seen are exactly the reachable ones |
| `CategoryCounts.AncestorCountsMore` | frontend/components/catalog/BuyerMarketplace.tsx:132-149 | an ancestor never counts fewer products than a category below it |
| `CategoryCounts.ParentAndCycleCounts` | frontend/components/catalog/BuyerMarketplace.tsx:132-149 | nor does a parent, and the members of a cycle count the same |
| `CategoryCounts.OneEnd` | frontend/components/catalog/BuyerMarketplace.tsx:132-135 | a chain of parents has at most one end |
| `CategoryCounts.EndCountsSum` | frontend/components/catalog/BuyerMarketplace.tsx:137-149 | in any parent map the counts of the chain ends add up to the products whose chain ends |
| `CategoryCounts.EndCountsAreAllExactly` | frontend/components/catalog/BuyerMarketplace.tsx:137-149 | they add up to all products with a category if and only if no such product is caught in a cycle |
| `Checkout.CheckoutView.Begin` | frontend/components/commerce/CheckoutView.tsx:175-177 | a click sends the kept key, or draws one if none is kept, or sends nothing when the page is not ready |
| `Checkout.CheckoutView.End` | frontend/components/commerce/CheckoutView.tsx:180-199 | success and a changed total drop the key; any other failure keeps it |
| `Checkout.CheckoutServer.Place` | backend/app/modules/checkout/service.py:178-237 | if all quoted cart rows are still there and the key is new, a checkout of them is written under the key with a new id and the rows leave the cart; otherwise nothing changes and the winner under the key is answered, if any |
| `Checkout.ClickPlacesOrder` | frontend/components/commerce/CheckoutView.tsx:175-189 | from any reachable state with a ready page, a filled cart and no checkout under the key to be sent, an undisturbed click places the whole cart as one new checkout, empties the cart, and leaves the page to draw a key never sent before |
| `Checkout.LostReplyRetried` | frontend/components/commerce/CheckoutView.tsx:175-189 | when the reply to a written checkout is lost, the next click sends the same key, is told of the checkout already there, and nothing more is written |
| `Checkout.FailureKeepsKey` | frontend/components/commerce/CheckoutView.tsx:175-189 | a request that fails before its transaction writes nothing and the next click sends the same key |
| `Checkout.ChangedTotalRefused` | backend/app/modules/checkout/service.py:165-175 | if the total changed meanwhile nothing is written, and the page draws another key for the next click |
| `Checkout.FreshKeyIsNew` | frontend/components/commerce/CheckoutView.tsx:177-186 | in every run, once the page has dropped its key, the next one is in no request and no checkout |
| `Checkout.CheckoutsBounded` | frontend/components/commerce/CheckoutView.tsx:175-200 | in every interleaving checkouts created <= keys drawn <= 1 + successful replies + total-changed replies |
| `Checkout.NoRowOrderedTwice` | backend/app/modules/checkout/service.py:231-237 | in every interleaving no cart row is in two checkouts, and an ordered row has left the cart |
| `Checkout.CheckoutsPersist` | backend/app/modules/checkout/service.py:192-198 | a checkout once created is never changed or replaced under its key |
| `Checkout.OneCheckoutPerKey` | backend/app/db/indexes.py:288-292 | all successful answers to one key, at any two times of a run, name the same checkout |
| `Checkout.RetryFindsCheckout` | backend/app/modules/checkout/service.py:154-158 | a retry under the key of a checkout whose reply was lost is answered with that checkout |
| `Checkout.RetriesUseOneKey` | frontend/components/commerce/CheckoutView.tsx:177-197 | clicks over any stretch without a success or a changed total all send one key, and at most one is drawn |
| `Checkout.RetriesCreateOneCheckout` | frontend/components/commerce/CheckoutView.tsx:175-200 | so together they create at most one checkout |
| `LiveUpdates.Provider.OnResponse` | frontend/providers/LiveUpdatesProvider.tsx:35-61 | a response is remembered with its ids and count; the first reports nothing, a later one exactly the notifications whose id was not seen, and bumps if and only if there is one or the count rose |
| `LiveUpdates.PulseStarts` | frontend/providers/LiveUpdatesProvider.tsx:27-33 | a pulse starts exactly when notifications may be read and the page is visible |
| `LiveUpdates.ResponseProcessed` | frontend/providers/LiveUpdatesProvider.tsx:31-45 | the response to an outstanding pulse of the running session is always processed |
| `LiveUpdates.StaleResponseIgnored` | frontend/providers/LiveUpdatesProvider.tsx:35 | the response to a pulse of an earlier session, or a failed one, changes nothing that is remembered |
| `LiveUpdates.PermissionStartsSession` | frontend/providers/LiveUpdatesProvider.tsx:17-25 | gaining or losing the permission starts a new session, and losing it forgets everything |
| `LiveUpdates.RemembersSession` | frontend/providers/LiveUpdatesProvider.tsx:17-61 | in every interleaving of pulses the seen ids are the union of all non-empty ids in the processed responses of the running session, and without permission nothing is remembered |
| `LiveUpdates.EveryBumpJustified` | frontend/providers/LiveUpdatesProvider.tsx:47-61 | every processed response of every run bumps exactly if it shows an id its session had not shown or a higher unread count |
| `LiveUpdates.BumpNamesFirstNew` | frontend/providers/LiveUpdatesProvider.tsx:55-60 | a bump for new notifications carries the reference of the first one on the page that its session had not shown |
| `LiveUpdates.ReportedOnce` | frontend/providers/LiveUpdatesProvider.tsx:47-48 | a notification id is reported by at most one response of a session |
| `LiveUpdates.PrimingIsSilent` | frontend/providers/LiveUpdatesProvider.tsx:40-45 | the first response of a session reports and bumps nothing, and none of its ids is ever reported in that session |
| `LiveUpdates.NewIdIsReported` | frontend/providers/LiveUpdatesProvider.tsx:47-61 | an id that a later response is the first to show is reported by it, with a bump |
| `MongoManager.Manager.Connect` | backend/app/db/mongodb.py:40-98 | result and all fields after a connect, for every behaviour of driver, loop and schema setup |
| `MongoManager.Manager.Disconnect` | backend/app/db/mongodb.py:119-134 | the client is closed and every field reset, and the background task is dropped |
| `MongoManager.ConnectTries` | backend/app/db/mongodb.py:43-98 | a client held on the running loop is kept and nothing tried; otherwise there are three attempts in production and five elsewhere, the first that connects is the client held, settings and schema setup decide the result, and each cancellation and the failure of all attempts have their outcome |
| `MongoManager.EveryRunSound` | backend/app/db/mongodb.py:40-134 | in every run client, database and loop are all set, on one client, or all unset; only the held client is open; the ready flag is set if and only if the setup finished on it or was left to the background |
| `MongoManager.ReadyMeansSchemaFinished` | backend/app/db/mongodb.py:92-116 | under production or test settings the manager is ready if and only if schema setup finished on the client now held |
| `MongoManager.FailedConnectLeavesNothing` | backend/app/db/mongodb.py:69-87 | when all attempts fail the call raises and no client, task or flag is left |
| `MongoManager.ReturnedMeansReadyExactly` | backend/app/db/mongodb.py:43-45 | a connect that returns leaves the manager unready if and only if it only found a client of this loop whose setup never finished |
| `MongoManager.UnreadyClientStays` | backend/app/db/mongodb.py:43-45 | and then no number of further connects on that loop changes anything |
| `MongoManager.SchemaFailureNeedsDisconnect` | backend/app/db/mongodb.py:92-117 | so after a setup that raised or was cancelled the manager stays unready until a disconnect, though each connect returns |
| `Money.CentsTruncate` | frontend/components/admin/AdminMoneyDesk.tsx:79-85 | a decimal text, with or without a dot, is read as the whole part of a hundred times the number written, nothing being lost when it has at most two decimals, and its negation as the negated cents |
| `Money.CentsNegate` | frontend/components/admin/AdminMoneyDesk.tsx:79-85 | a minus sign in front negates what is read, and throws where the text throws, for every text if and only if it is not one that is read although its own minus sign is followed by a sign, by white space, or by a dot and two white spaces |
| `Money.DoubleMinusNotNegated` | frontend/components/admin/AdminMoneyDesk.tsx:79-85 | such a text: two minus signs are read as a positive amount, three throw |
| `Money.MoneyTextReads` | frontend/lib/commerce/format.ts:25-30 | sumMoney prints a minus sign if the total is negative, a whole part and two decimals, and that reads back as the total |
| `Money.SumMoneyExact` | frontend/lib/commerce/format.ts:17-30 | so the printed sum reads as the sum of the parts, and throws if one of them does |
| `Money.SumMoneyAdds` | frontend/lib/commerce/format.ts:25-30 | no amounts print as 0.00, and one amount more adds what it reads as, or throws exactly if it throws |
| `Money.CentsIgnoresSpace` | frontend/components/admin/AdminMoneyDesk.tsx:79-85 | white space around an amount does not matter, and an absent or blank amount is zero |
| `MoneyBars.ShareWidthReads` | frontend/components/admin/AdminMoneyDesk.tsx:87-93 | the printed width read back is the share in tenths of a percent |
| `MoneyBars.ShareIs` | frontend/components/admin/AdminMoneyDesk.tsx:87-93 | a share is the whole part of a thousand times part over total, and nothing of nothing or less |
| `MoneyBars.ShareWidthThrows` | frontend/components/admin/AdminMoneyDesk.tsx:87-93 | drawing it throws exactly if the total is no number, or the total is positive and the part is no number |
| `MoneyBars.SharesFillBar` | frontend/components/admin/AdminMoneyDesk.tsx:87-93 | the shares of any number of non-negative parts of a positive total never exceed the bar and fall short of it by less than a tenth of a percent a part |
| `MoneyBars.PlatformBar` | frontend/components/admin/AdminMoneyDesk.tsx:769-812 | the three printed widths of the platform bar add up to between 99.8 and 100 percent, from the amount texts on |
| `MoneyBars.Peak` | frontend/components/admin/AdminMoneyDesk.tsx:351-360 | the nested loop finds the highest of the four amounts of all buckets, or zero if none is positive, and throws if and only if some amount is no number |
| `MoneyBars.HeightIs` | frontend/components/admin/AdminMoneyDesk.tsx:95-100 | a bar height is the whole part of a hundred times amount over peak, and nothing of nothing or less |
| `MoneyBars.BarHeightReads` | frontend/components/admin/AdminMoneyDesk.tsx:95-100 | it is printed in percent and reads back; it throws exactly if the peak is positive and the amount is no number |
| `MoneyBars.HeightMonotone` | frontend/components/admin/AdminMoneyDesk.tsx:95-100 | bar heights grow with the amount and are never negative |
| `MoneyBars.BarsFit` | frontend/components/admin/AdminMoneyDesk.tsx:351-360 | with the peak as maximum every bar is between 0 and 100 percent, and some bar is printed 100% if and only if some amount is positive |
| `NumericInput.LeftAbsorbed` | frontend/lib/numericInput.ts:19-34 | cleaning the first part of a text beforehand changes nothing |
| `NumericInput.PieceAbsorbed` | frontend/lib/numericInput.ts:19-34 | nor does cleaning any piece in the middle of it |
| `NumericInput.TypingIsPasting` | frontend/lib/numericInput.ts:19-34 | typing in pieces, however cut, gives what pasting everything at once gives |
| `NumericInput.StreamsExactly` | frontend/lib/numericInput.ts:28-33 | the law holds for all texts if and only if the field is an integer field or allows at least one decimal |
| `NumericInput.OutputsAreWellFormed` | frontend/lib/numericInput.ts:25-33 | outputs have only digits, at most one dot (none in integer fields) and at most the allowed fraction digits, and a text is left as it is if and only if it is of that form |
| `NumericInput.KeepsDigits` | frontend/lib/numericInput.ts:25-29 | an integer field, and a decimal one without a dot, keeps exactly the digits of the text, in order |
| `NumericInput.KeepsFraction` | frontend/lib/numericInput.ts:28-33 | with a dot a decimal field keeps the digits before the first dot, the dot, and the first digits after it up to the limit |
| `NumericInput.NumberInput.OnPaste` | frontend/components/ui/FormField.tsx:124-145 | pasting over any selection leaves what cleaning the raw edited text at once would leave |
| `NumericInput.NumberInput.OnChange` | frontend/components/ui/FormField.tsx:146-150 | after any edit the field holds the cleaned text |
| `HtmlEscape.EscIsSubstitution` | frontend/lib/exportBusinessPlanPdf.ts:7-13 | the four replacements in a row equal one simultaneous substitution of every character |
| `HtmlEscape.EscConcat` | frontend/lib/exportBusinessPlanPdf.ts:7-13 | escaping distributes over concatenation |
| `HtmlEscape.EscDecodes` | frontend/lib/exportBusinessPlanPdf.ts:7-13 | a reader of the four entities gets back exactly the text; null and undefined read as empty |
| `HtmlEscape.EscInjective` | frontend/lib/exportBusinessPlanPdf.ts:7-13 | different texts have different escapes |
| `HtmlEscape.OutputsAreSafe` | frontend/lib/exportBusinessPlanPdf.ts:7-13 | a text is the escape of something if and only if it has no raw less-than, greater-than or quote and every ampersand starts one of the four entities |
| `Navigation.KeptExactly` | frontend/lib/navigation.ts:648-652 | an item is kept if and only if it or some node below it needs no permission or one the user has |
| `Navigation.FilterKeepsVisibleLines` | frontend/lib/navigation.ts:637-653 | the filtered tree is the original one with the lines of all other nodes deleted: same order, same depth, same fields |
| `Navigation.FilterTwice` | frontend/lib/navigation.ts:637-653 | for permission sets P within Q, filtering by Q then P, or by P then Q, is filtering by P |
| `Navigation.FilterIdempotent` | frontend/lib/navigation.ts:637-653 | filtering again changes nothing |
| `Navigation.ComposesExactly` | frontend/lib/navigation.ts:648-652 | one filter after another is the filter for both permission sets, for all trees, if and only if one set contains the other |
| `Navigation.ActiveExactly` | frontend/lib/navigation.ts:592-600 | an item is active if and only if some node at or below it points to the current page |
| `Navigation.FilterLightsNothing` | frontend/lib/navigation.ts:592-653 | hiding items never makes an item active |
| `Slug.SlugIsWords` | backend/_reset_demo_seed.py:51-55 | a slug is the words of the lower-cased text joined by single hyphens and cut after 140 characters, or item if there is no word; stripping first changes nothing |
| `Slug.SecondSubstitutionIdle` | backend/_reset_demo_seed.py:53-54 | the second substitution never finds anything to replace |
| `Slug.CollapseMeans` | backend/_reset_demo_seed.py:53-54 | of any text the second substitution leaves no two hyphens in a row, drops nothing but hyphens, and keeps the words and the two ends |
| `Slug.SlugShape` | backend/_reset_demo_seed.py:51-55 | every slug is non-empty, at most 140 characters, of a-z, 0-9 and single hyphens, with no leading hyphen |
| `Slug.SlugsStay` | backend/_reset_demo_seed.py:51-55 | text that has that form, and no trailing hyphen, is its own slug |
| `Slug.WordlessIsItem` | backend/_reset_demo_seed.py:55 | text without a letter from a to z or a digit, once lower-cased, gives item |
| `Slug.SlugAgain` | backend/_reset_demo_seed.py:51-55 | slugifying again removes exactly the hyphen the cut may have left at the end, and changes nothing if and only if it left none |
| `Slug.CutLeavesHyphen` | backend/_reset_demo_seed.py:55 | there are texts on which the cut leaves that hyphen |

## Left out

- MongoDB, Motor, Stripe, FastAPI, HTTP, React rendering and routing: collections are maps, sets and sequences with their unique indexes; clocks, drawn keys and driver behaviour are parameters.
- Sessions, transactions and write races: one service call is one atomic step, except in `Checkout`, `LiveUpdates` and `MongoManager`, which interleave at every await that matters. What overlapping calls can cause in the ledger is covered only as repeated operations.
- Overlapping connect and disconnect calls, and the cancelled schema task running on: `MongoManager` runs calls one after the other.
- Notifications with a missing id: an id that is absent or empty is the empty string.
- Role creation racing another process (DuplicateKeyError on create). The final grant insert may meet documents that are there already, when a name is listed twice or a wanted grant was beyond the query limit; dropping them, as its catch does, is the union of sets in the model.
- Grant and role document ids beyond their distinctness, descriptions and timestamps.
- The order MongoDB answers an unsorted permission query in: taken as insertion order; for grants any answer the limit allows is covered.
- SupplierLedger: amounts are whole cents and rates ten-thousandths, already quantised; `base * rate` is rounded half away from zero as ROUND_HALF_UP does.
- SupplierLedger: platform transactions are kept only as the facts later code asks for (funds held, funds released, refund recorded); numbers, currencies, providers and events are not modelled, and a repeated hand payment under a new event is one more held payment.
- SupplierLedger: the guards of the order, invoice and payment services are not part of this model, and nothing is assumed of them: every result holds for operations in any order. A payment with several allocations is one operation for each. The policy settings a commission is computed with are parameters.
- Disputed and partially settled payables, settlement batches and `settle_payable`, which only calls release and payout.
- Inventory: quantities are reals in place of Decimal128, and one product with an existing inventory row is modelled; missing products and rows are refused before anything modelled here.
- CategoryMigration: `count_documents`, printing and the environment; the order of rows in the third loop is arbitrary.
- Checkout: one buyer and one mounted page. A remounted page draws a new key. Invoices, commissions and stock reservations inside the transaction, and the total check other than as a possible answer, are not modelled.
- Money.CentsTruncate: this and the other results about `Cents` read decimal digits only: BigInt texts with a 0x, 0o or 0b prefix count as not a number.
- Money: `formatMoney` and rate formatting, which print and are never read back.
- NumericInput: key blocking, and caret positions after an edit.
- HtmlEscape: the rest of the export, which drives the document.
- Navigation: `isNavActive`, the comparison of one href with path and query, is a parameter.
- Slug: lower-casing is a parameter character by character, so the final-sigma rule of Python is not modelled; it only concerns characters that become hyphens.
- Negotiation, procurement, AI, identity and dashboard services: large, but mostly validation and serialisation that would add only easy members.
