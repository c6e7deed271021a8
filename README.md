# Stellar path-finder server: a verified model of its core

The server answers "how can an account pay a given amount of a destination asset?". It does this in three steps:

- It keeps a liquidity graph built from the Stellar order books. A node is a selling asset. An arc leads to a buying ("counter") asset and carries that pair's capacity and its price levels.
- It searches that graph backwards from the destination, depth-first, within a depth bound.
- It validates the HTTP query string before any search.

This project models that core in Dafny:

- `assets.dfy`, module `Assets`: the asset codec. It maps between identities (`"native"` or `<56-character issuer>:<code>`), `(type, code, issuer)` tuples and boundary records.
- `orderbook.dfy`, module `OrderBook`: the two order-book walkers, `buy` and `sell`. They are loops, proved against recursive specifications over exact reals.
- `graph.dfy`, module `LiquidityGraph`:
  - the offer-to-pair mapping;
  - `setup`, which builds the graph from all offers;
  - `update`, which creates, updates or deletes one arc.
- `pathfinder.dfy`, module `PathFinder`: `tradeSell` and the pruned, depth-bounded search `findPaths`. Its recursive `find` is a method of the class `Search`, whose fields are the shared stack, the lowest-cost map and the result table.
- `stellar.dfy`, module `Stellar`: the query builder and the ledger synchroniser. The synchroniser is a state machine, the class `Synchronizer`, with a setup mode and an update mode.
- `rest.dfy`, module `Rest`: the query validator and the destination identity it implies.
- `seqs.dfy` and `wrappers.dfy`: sequence helpers and `Option`.

Conventions used throughout:

- Amounts and prices are `real`.
- An absent JavaScript value (`undefined`) is `None`.
- The database is two parameters: the full offers snapshot, and a function from a query to the levels it returns.
- A timer expiring is an explicit step, `FireTimer`.

## Model

| member | source | states |
|---|---|---|
| Assets.CreditTypeFor | src/assets.ts:30 | a credit type is alphanum12 exactly when the code is longer than 4 characters, and never native |
| Assets.ToTuple | src/assets.ts:22-33 | "native" gives (native, none, none); any other string gives a credit tuple: longer than 56 characters, the issuer is its first 56 characters and the code starts at index 57; at most 56 characters, the issuer is the whole string and the code is empty; the kind follows the code-length rule |
| Assets.ToString | src/assets.ts:73-79 | type 0 gives "native" and only type 0 does; any other type gives issuer ":" code, rendering an absent part as "undefined" |
| Assets.NativeIgnoresCodeAndIssuer | src/assets.ts:78 | for type 0 the result does not depend on code or issuer |
| Assets.ParseIdentity | src/assets.ts:25-78 | round trip: a tuple with a 56-character issuer and a type consistent with the code length reads back from its identity unchanged |
| Assets.IdentityOfParse | src/assets.ts:25-78 | reverse round trip: "native", or any string with ':' at index 56, is rebuilt exactly from its tuple |
| Assets.IdentityInjective | src/assets.ts:78 | distinct well-formed credit tuples have distinct identities |
| Assets.StringToObject | src/assets.ts:41-63 | native sets only the type field, to "native"; a credit asset sets the type name, code and issuer under the caller's field names |
| Assets.RecordDeterminesIdentity | src/assets.ts:41-63 | with three distinct field names, the record built for a well-formed credit identity names that identity again |
| OrderBook.Buy | src/orderbook.ts:12-29 | the loop computes BuyCost: whole levels while the remainder exceeds their amount, then remainder times price, then stop |
| OrderBook.Sell | src/orderbook.ts:38-55 | the loop computes SellProceeds: whole levels while the remaining value exceeds amount times price, then remainder over price |
| OrderBook.TotalAmountAppend | src/graph.ts:90-93 | adding a level at the end adds its amount to the total (the capacity loop's running sum) |
| OrderBook.BuyExample | src/orderbook.ts:18-25 | buying 80 from (50 at 2, 50 at 3) costs 190 |
| OrderBook.BuyBeyondTotal | src/orderbook.ts:18-28 | asking for more than the book holds costs exactly the whole book's value, with no shortage signalled |
| OrderBook.TotalAmountNonNegative | src/orderbook.ts:18-21 | non-negative amounts have a non-negative total |
| OrderBook.BuyNonNegative | src/orderbook.ts:18-25 | with non-negative amounts and prices, the cost of a non-negative quantity is non-negative |
| OrderBook.BuyMonotone | src/orderbook.ts:18-25 | with non-negative amounts and prices, buying more never costs less |
| OrderBook.BuyPositive | src/orderbook.ts:18-25 | with positive prices, a positive quantity the book covers has a positive cost |
| OrderBook.SellNonNegative | src/orderbook.ts:44-51 | with positive prices, selling a non-negative value yields a non-negative amount |
| OrderBook.SellMonotone | src/orderbook.ts:44-51 | with positive prices, selling more never yields less |
| OrderBook.SellUndoesBuy | src/orderbook.ts:12-55 | in exact arithmetic, sell(book, buy(book, q)) == q for every 0 <= q <= total amount |
| LiquidityGraph.AssetPairParses | src/graph.ts:34-51 | the pair is (buying identity, selling identity), in that order; each reads back as the offer's own tuple |
| LiquidityGraph.Counters | src/graph.ts:64-85 | the counter assets of a selling asset, in first-seen order, without duplicates |
| LiquidityGraph.CountersSpec | src/graph.ts:64-85 | a counter is listed exactly when some offer has that pair |
| LiquidityGraph.SortByPrice | src/graph.ts:86-88 | the book is sorted by ascending price and holds the same levels |
| LiquidityGraph.LevelsOfAbsent | src/graph.ts:64-80 | a pair no offer has collects no levels |
| LiquidityGraph.LevelsOfComplete | src/graph.ts:64-80 | every offer's level is collected under its own pair |
| LiquidityGraph.LevelsOfSound | src/graph.ts:64-80 | every collected level comes from an offer of that pair |
| LiquidityGraph.FindArc | src/graph.ts:133-134 | findIndex: the first arc with that counter, or -1 when there is none |
| LiquidityGraph.ArcToUnique | src/graph.ts:133 | with distinct counters, the arc found is the only one with that counter |
| LiquidityGraph.Setup | src/graph.ts:58-102 | the two loops build exactly the specified graph Built(offers) |
| LiquidityGraph.GroupOffers | src/graph.ts:64-80 | the first loop files every offer's level under its selling asset and then its buying asset, in offer order |
| LiquidityGraph.BuildNodes | src/graph.ts:82-99 | the second loop gives every selling asset exactly its specified arcs |
| LiquidityGraph.BuildArcs | src/graph.ts:84-96 | one arc per counter of the node's object, in key order, each with that counter's levels sorted by price and a capacity equal to their summed amounts |
| LiquidityGraph.ArcsOfGroup | src/graph.ts:82-99 | for the object of node s, the arcs made from it are exactly the specified arcs of s |
| LiquidityGraph.SumAmounts | src/graph.ts:90-93 | the capacity is the sum of the book's amounts |
| LiquidityGraph.BuiltWellFormed | src/graph.ts:67-98 | after setup: no node is empty, no node has two arcs to the same counter, every capacity is the sum of its book, every book is sorted by price |
| LiquidityGraph.BuiltPlacement | src/graph.ts:64-98 | the arc from s to b exists exactly when some offer sells s for b, and it holds exactly those offers' levels sorted by price |
| LiquidityGraph.OfferPlaced | src/graph.ts:64-98 | every offer's level lies in the book of the arc keyed by its buying asset, under the node of its selling asset |
| LiquidityGraph.BookLevelsFromOffers | src/graph.ts:64-98 | every level in a built book comes from an offer of that pair |
| LiquidityGraph.RemoveAt | src/graph.ts:149-150 | splice(index, 1), with index -1 meaning the last element |
| LiquidityGraph.RemoveAtShifts | src/graph.ts:150 | the elements after the removed one shift down by one |
| LiquidityGraph.RemoveAtKeepsDistinct | src/graph.ts:150 | removing an arc keeps counters distinct |
| LiquidityGraph.ApplyChange | src/graph.ts:112-159 | update as written: it fails exactly when the levels are empty and the node is missing; every other node is unchanged; non-empty levels leave the node present |
| LiquidityGraph.ApplyChangeIntended | src/graph.ts:147-153 | update as intended (see Findings): deleting a pair that has no arc, whether its node lacks an arc to buying or is missing, leaves the graph as it is; in every other case it is ApplyChange, which then succeeds |
| LiquidityGraph.Update | src/graph.ts:112-159 | the update yields ApplyChange, as written, so a delete that finds no arc removes the node's last arc through splice(-1, 1); the operation is CREATE when the arc was absent, UPDATE when present, DELETE for empty levels |
| LiquidityGraph.ApplyChangeKeepsWellFormed | src/graph.ts:120-153 | update keeps nodes non-empty, counters distinct and capacities equal to their books' sums |
| LiquidityGraph.ArcToReplace | src/graph.ts:135 | replacing the arc at an index changes only the lookup of its counter |
| LiquidityGraph.ArcToAppend | src/graph.ts:138 | appending an arc for a new counter changes only that counter's lookup |
| LiquidityGraph.ArcToRemove | src/graph.ts:150 | removing the arc at an index (distinct counters) removes only that counter's lookup |
| LiquidityGraph.ApplyChangeLookup | src/graph.ts:120-153 | on a well-formed graph, the arc selling to buying becomes the new arc (or disappears for empty levels) and every other arc is unchanged |
| LiquidityGraph.ApplyChangeIdempotent | src/graph.ts:120-144 | applying the same non-empty update twice equals applying it once |
| LiquidityGraph.DeleteLastArcRemovesNode | src/graph.ts:150-153 | deleting a node's only arc deletes the node |
| LiquidityGraph.DeleteAbsentArcRemovesLast | src/graph.ts:149-153 | deleting an absent arc removes the node's last arc instead, here the whole node |
| LiquidityGraph.ApplyChangePositions | src/graph.ts:132-140 | UPDATE puts the new arc at findIndex's position, CREATE puts it last, and every other arc of the node keeps its position |
| LiquidityGraph.DeleteAbsentArcDropsLast | src/graph.ts:148-150 | as written, deleting a pair without an arc from a node of two or more arcs removes the node's last arc |
| LiquidityGraph.DeleteAbsentArcDropsOther | src/graph.ts:148-150 | as written, deleting the absent pair (A, D) from a node with arcs to B and C removes the arc to C |
| LiquidityGraph.ApplyChangeIntendedLookup | src/graph.ts:120-153 | on every well-formed graph, the intended update gives the pair the new arc (none for a delete) and leaves every other pair's lookup unchanged |
| LiquidityGraph.ApplyChangeIntendedKeepsWellFormed | src/graph.ts:120-153 | the intended update keeps the graph well-formed |
| PathFinder.TradeSell | src/path-finder.ts:22-39 | the loop computes exactly OrderBook.BuyCost, the same walk as orderbook.buy |
| PathFinder.AssetsOf | src/path-finder.ts:134-141 | the asset stack of a sequence of search frames |
| PathFinder.StepPositive | src/path-finder.ts:135-138 | with positive amounts and prices, a followed arc yields a positive amount |
| PathFinder.RoutePositive | src/path-finder.ts:135-138 | every amount along a route from a positive start is positive |
| PathFinder.WitnessHops | src/path-finder.ts:93-134 | a recorded hop list has no repeated asset, excludes the destination and the target it is filed under, and has at most 5 assets |
| PathFinder.DescendingAppend | src/path-finder.ts:103-116 | an entry cheaper than the last one, or following a stored 0, keeps a target's list descending |
| PathFinder.DescendingStrictly | src/path-finder.ts:103-116 | entries that each beat the previous one, with no zero amount, are strictly decreasing |
| PathFinder.GrowsByAppend | src/path-finder.ts:115-117 | appending an entry under a key only extends the table |
| PathFinder.GrowsTransitive | src/path-finder.ts:115-117 | table extension is transitive |
| PathFinder.LowersTransitive | src/path-finder.ts:103-108 | "no cost rises" is transitive |
| PathFinder.ExtendRoute | src/path-finder.ts:134-138 | a route followed by an arc step is a route |
| PathFinder.StackPop | src/path-finder.ts:141 | popping the stack keeps the stack invariant |
| PathFinder.StackPush | src/path-finder.ts:134 | pushing the visited asset keeps the stack invariant |
| PathFinder.VisitWitness | src/path-finder.ts:116 | the entry recorded at a visit has a route that witnesses it |
| PathFinder.VisitKeepsTable | src/path-finder.ts:115-117 | recording a visit keeps every entry witnessed by a route |
| PathFinder.VisitKeepsCosts | src/path-finder.ts:103-117 | recording a visit keeps each target's entries descending |
| PathFinder.VisitKeepsValid | src/path-finder.ts:103-117 | a visit preserves all three search invariants |
| PathFinder.SearchedExtend | src/path-finder.ts:135-140 | falling costs keep searched arcs searched, and one more searched arc extends the searched prefix |
| PathFinder.SearchedAll | src/path-finder.ts:135-140 | once every position has been searched, every arc of the node has been |
| PathFinder.OneHopsFound | src/path-finder.ts:115-140 | when every arc of the destination's node has been searched from the destination, each such arc with enough capacity leads to a target with an entry, its last one costing at most the arc's price under positive amounts |
| PathFinder.TableJustified | src/path-finder.ts:115-117 | under the table invariant every entry has a witnessing route |
| PathFinder.Search.constructor | src/path-finder.ts:74-89 | an empty stack, an empty lowest-cost map, and one empty entry list per target |
| PathFinder.Search.Visit | src/path-finder.ts:103-117 | the lowest cost of the asset becomes amountIn; a target gets the entry (amountIn, reversed stack without its root) appended, and nothing else changes |
| PathFinder.Search.Continue | src/path-finder.ts:124-142 | below the length bound, at an asset that has a node, every arc of the node is searched; either way the stack is restored, entries are only appended and no lowest cost rises |
| PathFinder.Search.Find | src/path-finder.ts:91-143 | the stack is restored; entries are only appended; no lowest cost rises (with positive amounts); an asset not on the stack ends with a cost, at most amountIn under positive amounts; an asset on the stack, or reached no cheaper than its nonzero lowest cost, changes nothing; otherwise its entry is appended and, below the bound, every arc of its node is searched |
| PathFinder.Search.FanOut | src/path-finder.ts:132-142 | every arc of the node whose capacity covers amountIn and whose counter is not on the stack leads to a counter with a cost, at most tradeSell's amount under positive amounts; the stack is restored afterwards |
| PathFinder.Search.Follow | src/path-finder.ts:136-139 | an arc with the capacity for amountIn is searched at tradeSell's amount; the stack is restored, entries are only appended and no cost rises |
| PathFinder.FindPaths | src/path-finder.ts:51-148 | shortcut: native destination with one target gives {native: [(destAmount, [])]}; otherwise exactly one key per target, every entry witnessed by a route, entries descending, strictly decreasing with positive amounts, a destination that is a target first gets (destAmount, []), and every target one arc from the destination with capacity for destAmount has an entry, its last costing at most that arc's price under positive amounts |
| PathFinder.FoundHops | src/path-finder.ts:93-134 | every hop list in the result has no repeated asset, excludes the destination and its own target, and has at most 5 assets |
| Stellar.BuildQuery | src/stellar.ts:90-116 | native selling with credit buying gives the "selling native" query on [buying code, buying issuer]; credit selling with native buying gives the "buying native" query on [selling code, selling issuer]; every other combination gives the four-value query |
| Stellar.CodeIssuerDetermine | src/stellar.ts:95-115 | the code and issuer of well-formed identities determine them |
| Stellar.BuildQueryInjective | src/stellar.ts:90-116 | distinct pairs of well-formed identities get distinct queries |
| Stellar.SetAdd | src/stellar.ts:182 | Set.add: the pair is present afterwards, nothing else is added, a present pair leaves the set unchanged, a new pair goes at the end of the insertion order, no duplicates arise |
| Stellar.ApplyPairsKeepsWellFormed | src/stellar.ts:149-157 | applying the pending pairs in order keeps the graph well-formed |
| Stellar.ApplyPairsOtherNodes | src/stellar.ts:149-157 | a node that no pending pair sells is left as it was |
| Stellar.ApplyPairsLookup | src/stellar.ts:149-157 | when every pending pair without rows still has its arc, applying the pending pairs succeeds, each then looks up exactly the arc built from its rows (none without rows), and every other pair looks up as before |
| Stellar.ApplyPairsStep | src/stellar.ts:150-155 | applying from pair i is applying pair i and then the rest |
| Stellar.Synchronizer.constructor | src/stellar.ts:221-224 | init: the first handler is setup, and nothing is pending |
| Stellar.Synchronizer.OnTrigger | src/stellar.ts:178-189 | an offers event adds its (buying, selling) pair once and reschedules the current handler; a ledger header only sets currentLedger; other events change nothing |
| Stellar.Synchronizer.LedgerSetup | src/stellar.ts:124-133 | the graph is built from the snapshot, the handler switches to update, previousLedger becomes currentLedger, and readiness is signalled |
| Stellar.Synchronizer.LedgerUpdate | src/stellar.ts:141-167 | when currentLedger == previousLedger + 1: the pending set is cleared and the pairs are applied in set order with update as written, and a failing update aborts and leaves graph and previousLedger as they were; otherwise the graph is rebuilt and the set kept; in both normal cases previousLedger becomes currentLedger |
| Stellar.Synchronizer.FireTimer | src/stellar.ts:183 | the expiring timer runs the handler captured when it was scheduled: the setup outcome of LedgerSetup, or the full outcome of LedgerUpdate (the applied pairs' graph or the rebuilt one, the pending set, previousLedger); the handler and currentLedger stay as they were in update mode |
| Rest.ValidateType | src/rest.ts:24-29 | a type is accepted exactly when it is the name of one of the three asset types |
| Rest.ValidateQuery | src/rest.ts:38-78 | accepted exactly when every requirement holds; otherwise the reported field and reason belong to the first requirement, in the order amount, source account, type, issuer, code, that fails; issuer and code are not required of native |
| Rest.ZeroAmountAccepted | src/rest.ts:10-16 | an amount of "0" passes the amount check, although the failure reason says "positive" |
| Rest.NativeIgnoresIssuerAndCode | src/rest.ts:61-63 | for a native destination the outcome does not depend on issuer or code |
| Rest.DestinationAsset | src/rest.ts:101 | the destination identity equals assets.toString of the validated type, code and issuer |
| Rest.DestinationReparses | src/rest.ts:101 | an accepted credit destination with a 56-character issuer reads back with its issuer and code; its type follows the code length, so a short credit_alphanum12 code reads back as credit_alphanum4 |
| Seqs.ReverseNoDup | src/path-finder.ts:116 | reversing keeps a sequence free of duplicates |
| Seqs.MiddleExcludesEnds | src/path-finder.ts:116 | dropping both ends of a duplicate-free stack leaves neither end in it |

## Findings

| source | as written | input that shows it | evidently intended | confidence | as-written member | corrected member |
|---|---|---|---|---|---|---|
| src/graph.ts:148-150 | deleting a pair whose node has no arc to `buying` runs `splice(-1, 1)`, because findIndex returned -1, and so removes the node's last arc | node A with arcs to B and C, pair (A, D) with no rows (an offer of that pair created and removed before the next run): the arc to C disappears | deleting a pair that has no arc leaves the graph unchanged (also when its node is missing, where the source throws) | high, not executed | LiquidityGraph.DeleteAbsentArcDropsOther | LiquidityGraph.ApplyChangeIntendedLookup |

`LiquidityGraph.Update` and the synchroniser (`Stellar.ApplyPairs`, `Stellar.Synchronizer.LedgerUpdate`, `Stellar.Synchronizer.FireTimer`) follow the code as written, through `LiquidityGraph.ApplyChange`. `LiquidityGraph.ApplyChangeIntended` is the corrected update; its lookup and well-formedness properties are proved on every well-formed graph.

## Left out

- OrderBook.Sell and OrderBook.SellProceeds require positive prices. Stellar offer prices are n/d with n and d both positive, so no book has a zero price. The source itself gives a finite result for most books with a zero-price level: while value remains to sell, such a level is taken whole at no cost, without a division. Only a zero-price level reached with exactly nothing left to sell (NaN) or a negative remainder (-Infinity) divides by zero.
- Stellar.ApplyPairsLookup: stated only when every pending pair without rows still has its arc. A pending pair with neither rows nor an arc makes update drop another arc (see Findings), or abort the run when its node is missing.
- LiquidityGraph.SortByPrice: sorted by price and the same levels, but not that the order among equal prices matches the JavaScript engine's stable sort.
- Floating point: amounts, prices, `Number(...)` conversions, `BigNumber` division and the `* 1e7` scaling in the response are modelled as exact reals or left out.
- Aliasing: `new Map(nodes)` is a shallow copy, so `graph.update` also mutates arc arrays still shared with the live graph. The model applies updates to graph values. A failed update therefore leaves the old graph untouched in the model, though in the source earlier splices in the same run have already changed the shared arrays.
- Stellar.Synchronizer.LedgerUpdate: a failing update is modelled as an aborted run, the promise rejecting. What happens to that rejection is not modelled.
- Async interleaving: the handlers run atomically. Timers are modelled by the handler they captured and the explicit expiry step `FireTimer`. The trigger delay is not modelled.
- The database: `init`, the `pg` client, the notification subscription, `client.query`, `getAccountAssets` and stellar's own `findPaths` wrapper with its response rendering are not modelled. Query results are the parameters `snapshot` and `rows`. Pending pairs are a datatype instead of their JSON strings, which is the same set because those strings are injective.
- JavaScript objects: prototype keys of plain objects (`in paths`, `graph[...]`) and integer-like keys in `Object.entries` are not modelled. Identities are "native" or contain ':', so no key is integer-like.
- `${x}` of `null` is not modelled; an absent value renders as "undefined".
- String lengths are counted in characters, not UTF-16 code units.
- Logging (`log.trace`, `log.info`, ...) is left out.
- Rest: the `StrKey` public-key check and `isNaN`/`Number` parsing are the parameters `isKey` and `number`. Query parameters given as arrays are not modelled. The express wiring and the error response are left out.
