# A verified model of SimpleOrderBook's `Book`

This project models a limit order book for one instrument in Dafny. The book
keeps the resting orders of two sides: bids (buy orders) and offers (sell
orders). Within a side, orders are grouped into price levels. A level lists
the orders at one price in arrival order (time priority). The book also
caches the best bid and the best offer.

The book handles three events, and each returns a result code:

- `OrderNew` adds an order. Codes: 0 accepted, 1 duplicate id, 2
  non-positive quantity, 3 undefined side, 4 the price would cross the other
  side.
- `OrderCancel` removes an order. Codes: 0 removed, 1 unknown id.
- `OrderModify` changes an order's price and quantity. Codes: 0 applied, 1
  unknown id, 2 non-positive quantity, 4 the new price would cross.

The book also answers two queries: the two best prices, and the orders of a
side within a price range.

The model has six modules.

- `Events` (`events.dfy`): the scalar types (`Enums.h`) and the three event
  records (`OrderEvents.h`).
- `Orders` (`orders.dfy`): the class `Order` (`Order.h`). Its id and side are
  constants. Its price and quantity are fields that the modify handler
  updates in place.
- `Levels` (`levels.dfy`): price levels and side indices as values. A level
  is a `seq` of order ids. A side index is a `map` from price to level. This
  module also holds the ordered traversals that `std::map` provides.
- `BookSpec` (`book_spec.dfy`): the book as a value (`BookView`) and its
  invariant. Each handler is a function from the book before the event to
  the book after it and the result code (`ApplyNew`, `ApplyCancel`,
  `ApplyModify`). The module also holds the lemmas stating what the handlers
  promise.
- `OrderBook` (`book.dfy`): the class `Book`. It holds the two side indices,
  the id-to-object order index and the cached bests, and it mutates them in
  place.
  - Every handler's contract ties the new state to the `BookSpec` function
    applied to the old state, and it returns the code that function gives.
    So every `BookSpec` lemma also holds of the class.
  - A ghost map `views` mirrors the price, quantity and side of every
    indexed `Order` object. `Synced()` states that the objects and the
    mirror agree.
- `Scenarios` (`scenarios.dfy`): the event sequences of the unit tests in
  `main.cpp`, replayed as lemmas over the specification functions, each
  starting from an empty book.

These are the invariant's parts (`BookSpec.Inv`):

- Every level is non-empty and free of duplicates.
- Every order in a level is indexed, rests on that side and carries that
  level's price.
- Every indexed order appears in the level of its side at its price.
- Every indexed order has a positive quantity and a defined side.
- The cached best bid is the highest bid price, and is absent (NaN) exactly
  when there are no bids. The best offer is the lowest offer price, under the
  same rule.
- Every bid level is below every offer level.

How source types are represented:

- Prices are `double` in the source. The book only compares and copies them,
  so they are modelled as `int`.
- A NaN best price is `None` of `Wrappers.Option`. A comparison with NaN is
  false in the source, and the model writes that out case by case.

## Model

| member | source | states |
|---|---|---|
| Events.OrderNewForModify | OrderEvents.h:22-25 | the two-argument constructor sets id and price and leaves quantity 0 and side Undef |
| Orders.Order.constructor | Order.h:35-40 | an order copies id, price, quantity and side from the new-order event |
| Orders.Order.SetQty | Order.h:32 | sets the quantity and leaves the price alone |
| Orders.Order.SetPrice | Order.h:33 | sets the price and leaves the quantity alone |
| Levels.Unlink | Order.h:24 | unlinking an order takes it out of the level: the result no longer holds it |
| Levels.UnlinkMembers | Order.h:24 | unlinking removes exactly the given order from a level: every other order stays, and a level without it is unchanged |
| Levels.UnlinkNoDup | Order.h:24 | unlinking keeps a level free of duplicates and shortens it by one when the order was linked there |
| Levels.UnlinkSplit | Order.h:24 | unlinking an order that occurs once removes just that occurrence |
| Levels.UnlinkAt | Order.h:24 | unlinking the order at position k closes the gap and keeps the relative order of the others (time priority) |
| Levels.UnlinkFrom | Book.h:92 | only the level at the order's price changes, and it loses the order; no price appears or disappears |
| Levels.PushBack | Book.h:228-248 | the order goes to the tail of the level at its price, and the level is created when absent; other levels are untouched |
| Levels.CleanLevel | Book.h:216-226 | the level at p is dropped exactly when it exists and is empty; every other level is kept as it was |
| Levels.DetachShape | Book.h:133-144 | unlink then clean takes the order out of its level, drops the level exactly when the order was alone there, and touches no other price |
| Levels.MoveShape | Book.h:92-108 | unlink, clean and re-link at a new price: the old level loses the order, the new level gains it at the tail, and every other price is untouched |
| Levels.SideAttach | Book.h:228-248 | linking a fresh order of side s into its level keeps that side consistent with the order index |
| Levels.SideAttachOther | Book.h:228-248 | indexing an order of the other side leaves this side consistent |
| Levels.DetachSound | Book.h:133-144 | unlink and clean keep the levels non-empty, duplicate-free and priced like their orders |
| Levels.SideDetach | Book.h:133-146 | removing an order from its level and from the index keeps the side consistent |
| Levels.SideDetachOther | Book.h:133-146 | removing an order of the other side leaves this side consistent |
| Levels.SideRequantify | Book.h:80-84 | changing only an order's quantity leaves every side consistent |
| Levels.SideFronts | Book.h:201-214 | the front order of each level carries that level's price, which is what the best-price refresh reads |
| Levels.HighestKey | Book.h:209-214 | the highest price of a side, absent exactly when the side is empty, and unique |
| Levels.LowestKey | Book.h:201-207 | the lowest price of a side, absent exactly when the side is empty, and unique |
| Levels.HighestAfterPush | Book.h:172-175 | after linking at p, the highest bid price is the greater of p and the old best, or p when there was no best |
| Levels.LowestAfterPush | Book.h:185-188 | after linking at p, the lowest offer price is the lesser of p and the old best, or p when there was no best |
| Levels.KeepHighest | Book.h:138-139 | when the best price survives and no price was added, the best is unchanged, so not refreshing it is sound |
| Levels.KeepLowest | Book.h:142-143 | the offer-side counterpart of KeepHighest |
| Levels.Highest | Book.h:211 | `rbegin` of a non-empty index: a price present and no lower than any other |
| Levels.Lowest | Book.h:203 | `begin` of a non-empty index: a price present and no higher than any other |
| Levels.MaxOf | Book.h:211 | the greatest element of a non-empty set of prices |
| Levels.MinOf | Book.h:203 | the least element of a non-empty set of prices |
| Levels.Flatten | Book.h:50-58 | the traversal of the levels at the given prices lists every order of every visited level |
| Levels.FlattenStep | Book.h:50-58 | the traversal visits the least remaining price first, then the rest |
| Levels.FlattenMembers | Book.h:44-60 | the traversal holds the orders of exactly the visited levels, each of the queried side and at a visited price |
| Levels.AscendingConcat | Book.h:52-56 | a level followed by a list priced at or above it lists orders by non-decreasing price |
| Levels.FlattenAscending | Book.h:50-58 | the traversal lists orders by non-decreasing price |
| Levels.AtPriceConcat | Book.h:52-56 | the orders at one price of a concatenation are those of each part, in order |
| Levels.AtPriceUniform | Book.h:53-56 | a level whose orders all rest at price m contributes all of itself at m and nothing at other prices |
| Levels.FlattenAtPrice | Book.h:53-56 | the orders the traversal lists at price k are exactly the level at k, in arrival order |
| BookSpec.Inv | Book.h:18-22 | the invariant over the fields of `Book`; under it a cached best is NaN exactly when its side has no levels |
| BookSpec.Crosses | Book.h:86-89 | an order crosses only on a defined side, and never while both bests are NaN, since a comparison with NaN is false (also Book.h:167 and Book.h:179) |
| BookSpec.ApplyNew | Book.h:154-197 | the code is 1 iff the id is known; otherwise 2 iff qty <= 0; otherwise 4 iff the price crosses; otherwise 3 iff the side is Undef; any rejection leaves the book unchanged |
| BookSpec.ApplyCancel | Book.h:119-152 | the code is 1 iff the id is unknown, and then nothing changes; otherwise 0, and the order leaves the index |
| BookSpec.ApplyModify | Book.h:62-117 | codes 1, 2 and 4 under exactly the source's conditions and in its order; a rejection changes nothing; an accepted modify keeps the set of ids |
| BookSpec.EmptyInv | Book.h:18-26 | a new book (no levels, no orders, both bests NaN) satisfies the invariant |
| BookSpec.InvNotCrossed | Book.h:165-188 | in a book satisfying the invariant, the best bid is below the best offer whenever both exist |
| BookSpec.ApartWithBid | Book.h:167-172 | adding a bid level at a price that does not cross keeps every bid below every offer |
| BookSpec.ApartWithOffer | Book.h:179-185 | adding an offer level at a price that does not cross keeps every offer above every bid |
| BookSpec.AttachKeepsStruct | Book.h:228-248 | indexing and linking a fresh resting order keeps both sides consistent with the index |
| BookSpec.DetachKeepsStruct | Book.h:133-147 | unlinking, cleaning and unindexing an order keeps both sides consistent, and adds no price |
| BookSpec.NewKeepsInv | Book.h:154-197 | every New, whatever its code, keeps the invariant |
| BookSpec.NewAccepted | Book.h:165-188 | an accepted New has a defined side, joins the tail of its level and the index, and moves its side's best to the better of the old best and its price; the other side is untouched |
| BookSpec.CancelKeepsInv | Book.h:119-152 | every Cancel, whatever its code, keeps the invariant |
| BookSpec.CancelAccepted | Book.h:133-147 | a Cancel of a known id succeeds and removes the order from its level, dropping the level when it empties; its side's best is its extreme remaining price; the other side is untouched |
| BookSpec.CancelTwice | Book.h:119-125 | a second Cancel of the same id reports code 1 |
| BookSpec.ModifyKeepsInv | Book.h:62-117 | every Modify, whatever its code, keeps the invariant |
| BookSpec.ModifySamePrice | Book.h:80-84 | a Modify at the current price sets only the quantity: levels, the order's place in its level and both bests are unchanged |
| BookSpec.ModifyMoves | Book.h:92-112 | a re-pricing Modify moves the order to the tail of the level at the new price, so it loses time priority; the old level loses it and is dropped when empty; the side's best is its extreme price and the other side is untouched |
| BookSpec.NewSteps | Book.h:165-188 | an accepted New, field by field: the pushed level, the indexed order and the conditional best update, with the invariant kept |
| BookSpec.CancelSteps | Book.h:133-147 | an accepted Cancel, field by field: if the order was not at its side's best, the best needs no refresh; the level fronts are still priced for the refresh |
| BookSpec.ModifySteps | Book.h:92-112 | an accepted re-pricing Modify, field by field: if the new price equals the cached best, the best needs no refresh; the level fronts are still priced for the refresh |
| BookSpec.OrdersMatchLevels | Book.h:18-19 | the order index holds exactly the ids linked into the two sides |
| BookSpec.OrderCounts | Book.h:146 | an accepted New adds one order, an accepted Cancel removes one, and a Modify never changes the count |
| BookSpec.QuerySide | Book.h:46-48 | the query reads offers for Offer and bids for any other side, so Bid reads bids and Undef never selects a side of its own |
| BookSpec.RangeSpec | Book.h:50-58 | the orders of the queried side's levels between lower_bound(lower) and upper_bound(upper); an empty range (lower above upper) gives no orders |
| BookSpec.RangeExact | Book.h:44-60 | the range query lists exactly the queried side's orders priced in [lower, upper] |
| BookSpec.RangeAscending | Book.h:50-52 | the range query lists orders by non-decreasing price |
| BookSpec.RangeArrival | Book.h:53-56 | within one price, the range query lists that level in arrival order |
| OrderBook.Book.constructor | Book.h:26 | a new book is valid and equals the empty book |
| OrderBook.Book.GetBestBidPrice | Book.h:41 | returns the highest bid price, or NaN (None) when there are no bids |
| OrderBook.Book.GetBestOfferPrice | Book.h:42 | returns the lowest offer price, or NaN (None) when there are no offers |
| OrderBook.Book.GetOrdersInRange | Book.h:44-60 | returns the order objects of the range specification, position by position |
| OrderBook.Book.CollectLevels | Book.h:50-58 | walks the levels from the lowest price upward, appending each level's objects front to back |
| OrderBook.Book.AppendLevel | Book.h:54-56 | appends the objects of one level's orders front to back and keeps what was collected before |
| OrderBook.Book.UpdateBestBidPrice | Book.h:209-214 | the best bid becomes the price of the front order of the highest level, or NaN when there are no bids |
| OrderBook.Book.UpdateBestOfferPrice | Book.h:201-207 | the best offer becomes the price of the front order of the lowest level, or NaN when there are no offers |
| OrderBook.Book.CleanSide | Book.h:216-226 | cleanLevel on the chosen side only |
| OrderBook.Book.LinkAtTail | Book.h:232-244 | links an order at the tail of its level on the chosen side only |
| OrderBook.Book.FileOrder | Book.h:246 | files the order object under its id |
| OrderBook.Book.EraseOrder | Book.h:146 | drops the id from the order index |
| OrderBook.Book.SetOrderQty | Book.h:96 | setQty on an indexed order: the quantity changes, the price does not, and the mirror follows |
| OrderBook.Book.SetOrderPrice | Book.h:95 | setPrice on an indexed order: the price changes, the quantity does not, and the mirror follows |
| OrderBook.Book.ProcessNewOrder | Book.h:228-248 | uses the given order or a fresh one built from the event, links it at the tail of its level on the chosen side, and files it under the event's id; bests are untouched |
| OrderBook.Book.UnlinkOrder | Book.h:92 | unlinks an order from the level of its side at its price |
| OrderBook.Book.AcceptBid | Book.h:172-175 | rests a new bid and raises the best bid to its price when the price is higher or the best is NaN |
| OrderBook.Book.AcceptOffer | Book.h:185-188 | rests a new offer and lowers the best offer to its price when the price is lower or the best is NaN |
| OrderBook.Book.CancelResting | Book.h:133-147 | unlinks, cleans, refreshes the side's best only when the order was at it, and unindexes; the result is the cleaned side with its extreme price as best |
| OrderBook.Book.Retag | Book.h:92-96 | unlinks the order, remembers its old price and gives it the new price and quantity |
| OrderBook.Book.RelinkBid | Book.h:99-104 | cleans the old bid level, re-links at the new price and refreshes the best bid unless the new price equals it; the best ends as the highest bid |
| OrderBook.Book.RelinkOffer | Book.h:106-111 | the offer-side counterpart of RelinkBid; the best ends as the lowest offer |
| OrderBook.Book.MoveOrder | Book.h:92-112 | the whole re-pricing path: the order moves to the tail of the level at its new price with its new quantity, and its side's best is the side's extreme price |
| OrderBook.Book.OnNew | Book.h:154-197 | the book becomes ApplyNew of the old book, the code is ApplyNew's, and on success the new order object is fresh and filed under its id |
| OrderBook.Book.OnCancel | Book.h:119-152 | the book becomes ApplyCancel of the old book, the code is ApplyCancel's, and the object index loses exactly the id |
| OrderBook.Book.OnModify | Book.h:62-117 | the book becomes ApplyModify of the old book, the code is ApplyModify's, and the object index is unchanged |
| Scenarios.OpenOne | main.cpp:23-24 | order 1 (bid 10) is accepted into an empty book and becomes the best bid |
| Scenarios.OpenTwo | main.cpp:25-26 | order 2 (bid 10) joins the same level behind order 1 |
| Scenarios.OpenThree | main.cpp:27-31 | order 3 (offer 13) is accepted; the bests are 10 and 13 |
| Scenarios.NewFour | main.cpp:34-36 | a bid at 11 becomes the best bid |
| Scenarios.NewFive | main.cpp:39-41 | a bid at 9 leaves the best bid at 11 |
| Scenarios.NewCrossing | Book.h:167-183 | a fresh, positive order that crosses is rejected with 4 and changes nothing |
| Scenarios.NewTest | main.cpp:17-65 | the New test's codes and best prices |
| Scenarios.CancelTwo | main.cpp:83-85 | cancelling order 2 keeps the best bid at 10 |
| Scenarios.CancelOne | main.cpp:87-89 | cancelling the last bid makes the best bid NaN |
| Scenarios.NewOffer12 | main.cpp:94-96 | an offer at 12 becomes the best offer |
| Scenarios.CancelTest | main.cpp:67-101 | the Cancel test's codes and best prices, including the failing second cancel |
| Scenarios.ModifyOpenTwo | main.cpp:111-112 | order 2 (bid 10, quantity 101) joins the level at 10 behind order 1 |
| Scenarios.ModifyOpenThree | main.cpp:113-114 | order 3 (offer 13, quantity 102) is accepted and leaves the Modify test's opening book |
| Scenarios.ModifyOpening | main.cpp:109-117 | the three new orders of the Modify test, from an empty book, are each accepted and leave the opening book, with best bid 10 and best offer 13 |
| Scenarios.ModifyRaise | main.cpp:119-121 | re-pricing bid 2 to 11 makes 11 the best bid |
| Scenarios.ModifyDrop | main.cpp:123-125 | cancelling it restores the best bid 10 |
| Scenarios.ModifyMoveOffer | main.cpp:127-129 | re-pricing offer 3 to 14 makes 14 the best offer |
| Scenarios.ModifyTest | main.cpp:103-136 | the Modify test's codes and best prices, including both rejected modifies |

## Left out

- Prices are integers. The source's `double` prices are only compared and
  copied, so integers keep the behaviour. NaN prices inside events are not
  modelled; a NaN best price is `None`.
- The null checks that return 2 (Book.h:75-78 and 128-131) are not
  modelled. The order index only ever stores the objects the book creates.
- `delete ord` (Book.h:147) is not modelled. Dafny has no manual memory
  management; the cancelled object simply leaves the index.
- `printBids` (Book.h:29-39) is not modelled: it returns at once.
- The book's `name` (Book.h:20, 27) is not modelled: the core never reads it.
- `Order::print` and `is_linked` (Order.h:25, 42) are not modelled: the core
  never calls them.
- The intrusive list hooks are modelled as sequences of order ids inside the
  side indices. `Order::unlink` becomes removing the id from the level of
  its side at its price (`Levels.Unlink`), which is the list that holds it.
  Aliasing between the hook and the object is not modelled.
- `std::map` iteration is modelled as the least and greatest elements of a
  key set.
- `boost::unordered_map` is a Dafny `map`; hashing is not modelled.
- `OrderBook.Book.GetOrdersInRange` requires that no price of the queried
  side lie strictly between `upper` and `lower`. When `lower > upper` and
  such a price exists, the source walks from `lower_bound(lower)` past
  `upper_bound(upper)`, which is undefined behaviour. Every call with
  `lower <= upper` meets the requirement.
- The event side `Undef` is routed as the source routes it: to offers in
  the cancel and modify handlers, and to bids in the range query.
  `BookSpec.Inv` shows that no resting order has side `Undef`.
- The handlers are written as the source's rejection checks followed by
  helper methods for the accepted path (`AcceptBid`, `CancelResting`,
  `MoveOrder` and the ones they call). Those helpers follow the source lines
  in order; they are there to keep the ghost mirror `views` in step.
- The `Speed` test (main.cpp:138-203) is not modelled: it measures time.
- The `FindRange` test (main.cpp:205-243) is not replayed with its forty
  orders. What it checks is stated for every book by `BookSpec.RangeExact`,
  `BookSpec.RangeAscending` and `BookSpec.RangeArrival`.
