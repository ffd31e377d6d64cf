# Order book matching core, modelled in Dafny

This project models the matching core of a small Go order book for one asset pair.
Bids and asks rest in two price-keyed level stores. Bids are kept highest price first,
asks lowest price first, with one aggregate level per price. An incoming BUY sweeps the
asks best-first, and an incoming SELL sweeps the bids. The sweep deletes every level it
fully consumes. It shrinks at most one level and stops at the first level that does not
cross. Whatever is left rests on the order's own side at its own limit price. Around
this core the model covers the order record, its snapshot and the two comparators, the
user balance map, and the admission checks and outcome report of the order endpoint.

Modules, one per source file or component:

- `Wrappers` (wrappers.dfy): `Option` and `Result`.
- `Users` (users.dfy): `src/users/user.go`. This holds the `User` class with its balance map, and `Credited`, the value `AddBalance` produces.
- `Orders` (orders.dfy): `src/orders/order.go`. This holds the `Order` record, `Snapshot`, `BidLess`/`AskLess`, `NewOrder`, and `BUY`/`SELL`.
- `Levels` (levels.dfy): the level store of `src/orderbook/orderBook.go`. Each btree becomes a sequence strictly sorted by that side's comparator. `Find` is the tree's `Get`, `Insert` its `ReplaceOrInsert` of a new key, and `Upsert` is `addBid`/`addAsk`.
- `Matching` (matching.dfy): the sweep (`Sweep`) and the book-level result of `fillBid`, `fillAsk` and `NewOrder`, as functions on values. Its lemmas cover sortedness, price priority, conservation, the residual and the no-crossed-book invariant.
- `Orderbook` (orderbook.dfy): the `OrderBook` class. It has two sequence fields. Its `FillBid`/`FillAsk` methods run the sweep as a `while` loop that reassigns the opposite side step by step, as the source's callback does. Each method is proved equal to the `Matching` functions.
- `Endpoints` (endpoints.dfy): the guard chain of `add_order` (`Admit`), the outcome classification (`Classify`), and the handler itself (`AddOrder`).

Types: prices and balances are `real`, quantities `int`, and positions `int` with
`BUY = 0` and `SELL = 1`. A UUID is a 128-bit number, and the nil UUID is 0. The
incoming `*Order`, whose quantity the source decrements in place, is returned by the
methods as `rest`.

The code has no settlement step and no lock: `NewOrder` changes only the two trees, and no
balance moves when orders match. The book does not check the quantity of the order it is
given: a negative quantity that meets a crossing level raises that level's quantity
(orderBook.go:51-55). The model keeps this.

The source as written does not type-check. `orderBook.go` stores `Order` values where the
tree items embed a `*Order` (lines 112, 120, 128 and 136). `Snapshot` appends `*Order`
to `[]Order` (lines 101 and 105). The model follows the evident intent: one order record
per price level, holding the aggregate quantity.

Quirks kept as the code has them:
- A level that exactly equals what remains is deleted, and the sweep goes on with
  nothing left. The next crossing level is then "reduced" by 0. `Sweep` does this, and
  `SweepOfNothingChangesNothing` shows that this step changes nothing.
- A new bid level carries no user and no ticker (`BidEntry`). A new ask level is the
  whole order.
- A level that grows keeps its first owner (`UpsertExisting`).

## Model

| member | source | states |
|---|---|---|
| `Users.Credited` | src/users/user.go:17-25 | An asset already held grows by `amount`. A missing asset is created holding exactly `amount`, which is the same as reading it as zero. The keys become the old keys plus the asset, and every other balance is unchanged. |
| `Users.CreditedHasNoSignCheck` | src/users/user.go:17-25 | There is no sign check: a negative amount larger than the balance leaves the balance below zero. |
| `Users.User.AddBalance` | src/users/user.go:17-25 | The in-place map update leaves the balance map equal to `Credited` of the old map. |
| `Users.User.constructor` | src/users/user.go:28-32 | `NewUser` gives a user with the given id and an empty balance map. |
| `Orders.NewOrder` | src/orders/order.go:45-47 | The user, position, quantity, price and ticker of the result are the arguments, in order. |
| `Orders.Order.Snapshot` | src/orders/order.go:49-61 | Position, quantity, price and ticker are copied unchanged. The user id is the nil UUID when there is no user, and the user's id otherwise. |
| `Orders.BidLessIsStrictOrder` | src/orders/order.go:35-38 | `Bid.Less` is irreflexive, asymmetric and transitive. |
| `Orders.AskLessIsStrictOrder` | src/orders/order.go:40-43 | `Ask.Less` is irreflexive, asymmetric and transitive. |
| `Orders.SameKeyIsSamePrice` | src/orders/order.go:35-43 | Under either comparator, two items are the same tree key exactly when their prices are equal. For different prices the bid order is the reverse of the ask order. |
| `Levels.SortedMeansPriceOrder` | src/orders/order.go:35-43 | A side sorted by its comparator has strictly falling prices (bids) or strictly rising prices (asks). No price appears twice. |
| `Levels.Find` | src/orderbook/orderBook.go:111-113 | The tree lookup by a price-only key returns the index of a level at that price. When it finds nothing, no level has that price. |
| `Levels.Insert` | src/orderbook/orderBook.go:119-121 | Inserting a new key adds exactly one element, the new level, and keeps every other level. The new best level is either the new level or the old best level. |
| `Levels.InsertSorted` | src/orderbook/orderBook.go:119-121 | Inserting at a price the side does not hold keeps the side strictly sorted. |
| `Levels.InsertTotal` | src/orderbook/orderBook.go:119-121 | Inserting raises the side's total quantity by the new level's quantity. |
| `Levels.UpsertExisting` | src/orderbook/orderBook.go:115-118 | Adding at a price already present raises that level's quantity by the order's quantity. Every other level is unchanged, and the level keeps its first owner and ticker. |
| `Levels.UpsertNew` | src/orderbook/orderBook.go:119-122 | Adding at a new price inserts exactly one level, the given entry, and keeps all others. |
| `Levels.UpsertQuantityAt` | src/orderbook/orderBook.go:111-138 | Read price by price, adding raises the quantity at the order's price by the order's quantity. Every other price keeps its quantity. |
| `Levels.UpsertTotal` | src/orderbook/orderBook.go:111-138 | Adding raises the side's total by exactly the order's quantity. |
| `Levels.UpsertSorted` | src/orderbook/orderBook.go:111-138 | Adding keeps the side strictly sorted, with one level per price. |
| `Levels.UpsertPositive` | src/orderbook/orderBook.go:111-138 | Adding a positive quantity keeps every level positive. |
| `Levels.UpsertBest` | src/orderbook/orderBook.go:111-138 | After adding, the best level has the order's price or the previous best price. |
| `Matching.Sweep` | src/orderbook/orderBook.go:46-60 | The quantity the sweep takes off the opposite side equals the quantity the incoming order loses. The sweep never adds levels. |
| `Matching.SweepShape` | src/orderbook/orderBook.go:46-60 | Price priority: the deleted levels are a prefix of the side, and all of them crossed. Only the next level can change, and only in its quantity. When it changes, it crossed, stays positive, and nothing of the incoming order remains. |
| `Matching.SweepStopsAtLimit` | src/orderbook/orderBook.go:46-50 | A level that does not cross survives unchanged and in place. So `fillBid` never touches an ask above the bid's price, and `fillAsk` never touches a bid below the ask's price. |
| `Matching.SweepRemaining` | src/orderbook/orderBook.go:51-60 | A non-negative quantity never grows. A positive remainder means every crossing level was deleted and the best level left does not cross. A positive quantity is untouched exactly when the best opposite level does not cross. |
| `Matching.SweepOfNothingChangesNothing` | src/orderbook/orderBook.go:51-59 | After an exact fill the sweep goes on with 0 left. The subtract-0 update of the next crossing level leaves the side as it was. |
| `Matching.SweepKeepsWellFormed` | src/orderbook/orderBook.go:46-60 | The swept side stays strictly sorted with positive levels. Its best price never gets better. |
| `Matching.NewOrderKeepsWellFormed` | src/orderbook/orderBook.go:45-96 | Every submission keeps both sides strictly sorted, with one level per price and positive levels. |
| `Matching.NewOrderKeepsUncrossed` | src/orderbook/orderBook.go:45-96 | No crossed book: if the best bid was below the best ask, or a side was empty, the same holds after any submission. |
| `Matching.NewOrderConserves` | src/orderbook/orderBook.go:45-96 | The original quantity is the remainder plus what left the opposite side. The own side grows by exactly the positive remainder. Only the order's quantity changes. Any position other than BUY or SELL changes nothing. |
| `Matching.NewOrderRestsResidual` | src/orderbook/orderBook.go:61-63 | A positive remainder rests at the order's own limit price on its own side, and no other price changes. With nothing left, the own side is unchanged. At a new price the new bid level has no user and no ticker, while the new ask level is the whole order. |
| `Orderbook.OrderBook.constructor` | src/orderbook/orderBook.go:20-27 | `NewOrderBook` gives two empty sides. |
| `Orderbook.OrderBook.AddBid` | src/orderbook/orderBook.go:111-124 | The bids become `Upsert` of the old bids with a user-less, ticker-less entry. The asks are unchanged and the invariant is kept. |
| `Orderbook.OrderBook.AddAsk` | src/orderbook/orderBook.go:126-138 | The asks become `Upsert` of the old asks with the whole order. The bids are unchanged and the invariant is kept. |
| `Orderbook.OrderBook.FillBid` | src/orderbook/orderBook.go:45-65 | The loop over the asks leaves the book and the order equal to `FillBidResult` of the old book, and keeps the invariant. |
| `Orderbook.OrderBook.FillAsk` | src/orderbook/orderBook.go:66-86 | The loop over the bids leaves the book and the order equal to `FillAskResult` of the old book, and keeps the invariant. |
| `Orderbook.OrderBook.NewOrder` | src/orderbook/orderBook.go:88-96 | The book and the order equal `NewOrderResult`. An uncrossed book stays uncrossed. A position other than BUY or SELL changes nothing. |
| `Orderbook.OrderBook.Snapshot` | src/orderbook/orderBook.go:98-109 | The snapshot is both sides in tree order: asks by rising price, bids by falling price. Nothing is modified, so two calls in a row return equal snapshots. |
| `Endpoints.Admit` | src/api/endpoints.go:144-187 | An order is admitted exactly when no guard fails, and then its id names a registered user. A rejection names a failing guard, and every guard before it passes. The order is position, quantity, price, missing id, malformed id, unregistered user, then funds. Funds are checked once against the full size: USD against price × quantity for a BUY, the ticker against quantity for a SELL. |
| `Endpoints.Classify` | src/api/endpoints.go:192-200 | Remaining 0 is a full fill. A remainder below the original is a partial fill of `org - remaining` units, which is positive. Anything else is "received". |
| `Endpoints.OutcomeOfNewOrder` | src/api/endpoints.go:189-200 | For an admitted order on a well-formed book the remainder is between 0 and the original. A partial fill reports exactly the quantity taken off the opposite side. "Received" happens exactly when the best opposite level does not cross. |
| `Endpoints.AddOrder` | src/api/endpoints.go:144-200 | A rejected order leaves the book unchanged and reports its reason. An admitted order is attached to its user and submitted, and the book becomes `NewOrderResult`. The response is the classification of the remainder. No user balance changes. |

## Left out

- HTTP and process plumbing: method checks, the nil-book check, JSON decoding, status codes and response texts in `src/api/endpoints.go`. The other handlers, `NewService` and `main.go` are left out too. They are I/O.
- Concurrency: the global book is shared by handlers without a lock. The model is sequential, and no locking or sequencer is modelled.
- Settlement: the source moves no balances during matching. The model states that `AddOrder` leaves every balance unchanged.
- The google/btree library is replaced by sorted sequences. `Get` is a linear search, so O(log n) cost is not modelled. The library forbids changing the tree inside `Ascend`, and that iterator hazard is not modelled: the sweep is a plain sequential loop.
- Aliasing: tree items in the source point at `Order` records. The model stores values, so sharing between a resting level and the caller's order is not captured.
- Float semantics: prices and balances are `real`. Rounding in the float64 comparisons and in the BUY funds check (`price × quantity`) is not captured.
- Integer width: quantities are unbounded `int`. 64-bit overflow is not modelled.
- `String()` (orderBook.go:29-44) is text formatting and is left out.
- `Top`, `RegisterUser`, `GetUser` and `Users` are called by the handlers but not defined in the order book file. They are not part of this model. `GetUser` is represented by the map of registered users given to `AddOrder`.
- UUID generation and parsing: `NewUser` takes the fresh id as a parameter, and `uuid.Parse` is the function parameter `parse`.
- `scripts/btc_load_test.py` and `scripts/demo_scenario.py` are HTTP clients with no core logic.
- `Orderbook.OrderBook.AddBid`, `Orderbook.OrderBook.AddAsk`: these require a positive quantity. Their only callers, `fillBid` and `fillAsk`, check this first (orderBook.go:61, 82).
