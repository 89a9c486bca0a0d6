/**
 * The order book class (Book.h). It keeps the two side indices, the index of
 * every resting order by id and the cached best bid and offer, and updates
 * them in place as events arrive. Each handler is proved to take the book
 * exactly where the corresponding BookSpec function says, so the properties
 * proved there (result codes, invariant, level and best-price movement) hold
 * of the class.
 */
module OrderBook {
  import opened Wrappers
  import opened Events
  import opened Orders
  import opened Levels
  import opened BookSpec

  class Book {
    var bids: SideIndex
    var offers: SideIndex
    var allOrders: map<OrderID, Order>
    var bestBidPrice: Option<Price>
    var bestOfferPrice: Option<Price>
    /** The state of every indexed order, kept in step with the objects. */
    ghost var views: map<OrderID, OrderView>

    /** The book as a value: levels, indexed orders, cached bests. */
    ghost function View(): BookView
      reads this
    {
      BookView(bids, offers, views, bestBidPrice, bestOfferPrice)
    }

    /** Each order object is filed under its own id, and views holds the
        current state of exactly the filed orders. */
    ghost predicate Synced()
      reads this`allOrders, this`views, allOrders.Values
    {
      && allOrders.Keys == views.Keys
      && forall id :: id in allOrders ==>
           && allOrders[id].orderId == id
           && views[id] == OrderView(allOrders[id].price, allOrders[id].qty, allOrders[id].side)
    }

    ghost predicate Valid()
      reads this, allOrders.Values
    {
      Synced() && Inv(View())
    }

    /** An empty book: no levels, no orders, both bests NaN. */
    constructor ()
      ensures Valid() && View() == Empty
    {
      bids := map[];
      offers := map[];
      allOrders := map[];
      bestBidPrice := None;
      bestOfferPrice := None;
      views := map[];
      new;
      EmptyInv();
    }

    /** The cached best bid: the highest bid price, absent when there are no bids. */
    method GetBestBidPrice() returns (p: Option<Price>)
      requires Valid()
      ensures IsHighestKey(p, bids)
    {
      p := bestBidPrice;
    }

    /** The cached best offer: the lowest offer price, absent when there are no offers. */
    method GetBestOfferPrice() returns (p: Option<Price>)
      requires Valid()
      ensures IsLowestKey(p, offers)
    {
      p := bestOfferPrice;
    }

    /** The orders of one side (offers for Offer, bids otherwise) whose price
        lies in [lower, upper], by ascending price and, within a price, in
        arrival order. When lower > upper the source walks from lower_bound
        to upper_bound, which is only defined when no price lies strictly
        between upper and lower; the precondition says so. */
    method GetOrdersInRange(side: Side, lower: Price, upper: Price) returns (orders: seq<Order>)
      requires Valid()
      requires NoneBetween(if side == Offer then offers else bids, upper, lower)
      ensures var r := RangeSpec(View(), side, lower, upper);
        |orders| == |r| && forall i :: 0 <= i < |r| ==> r[i] in allOrders && orders[i] == allOrders[r[i]]
    {
      var ol := if side == Offer then offers else bids;
      assert ol == IndexOf(View(), QuerySide(side));
      assert LinkedTo(ol, views, QuerySide(side));
      var pending := set k | k in ol && lower <= k <= upper;
      orders := CollectLevels(ol, pending);
    }

    /** The orders of the levels of ol at the given prices, walking the
        prices upwards and each level from its front. */
    method CollectLevels(ol: SideIndex, keys: set<Price>) returns (orders: seq<Order>)
      requires keys <= ol.Keys
      requires forall p, id :: p in ol && id in ol[p] ==> id in allOrders
      ensures |orders| == |Flatten(ol, keys)|
      ensures forall i :: 0 <= i < |orders| ==>
                Flatten(ol, keys)[i] in allOrders && orders[i] == allOrders[Flatten(ol, keys)[i]]
    {
      var pending := keys;
      ghost var ids: Level := [];
      orders := [];
      while pending != {}
        invariant pending <= keys
        invariant ids + Flatten(ol, pending) == Flatten(ol, keys)
        invariant |orders| == |ids|
        invariant forall i :: 0 <= i < |ids| ==> ids[i] in allOrders && orders[i] == allOrders[ids[i]]
        decreases pending
      {
        var k := Lowest(pending);
        FlattenStep(ol, pending, k);
        var level := ol[k];
        orders := AppendLevel(orders, level);
        ghost var rest := Flatten(ol, pending - {k});
        assert ids + Flatten(ol, pending) == (ids + level) + rest;
        ids := ids + level;
        pending := pending - {k};
      }
    }

    /** Appends the objects of one level's orders, front to back, to orders. */
    method AppendLevel(orders: seq<Order>, level: Level) returns (r: seq<Order>)
      requires forall id :: id in level ==> id in allOrders
      ensures |r| == |orders| + |level| && r[..|orders|] == orders
      ensures forall i :: 0 <= i < |level| ==> r[|orders| + i] == allOrders[level[i]]
    {
      r := orders;
      var j := 0;
      while j < |level|
        invariant 0 <= j <= |level|
        invariant |r| == |orders| + j && r[..|orders|] == orders
        invariant forall i :: 0 <= i < j ==> r[|orders| + i] == allOrders[level[i]]
      {
        assert level[j] in level;
        r := r + [allOrders[level[j]]];
        j := j + 1;
      }
    }

    // ------------------------------------------------------------- helpers

    /** Re-reads the best bid from the front order of the highest bid level,
        or NaN when there are no bids. */
    method UpdateBestBidPrice()
      requires Synced() && FrontsPriced(bids, views)
      modifies this`bestBidPrice
      ensures Synced() && bestBidPrice == HighestKey(bids)
    {
      if bids == map[] {
        bestBidPrice := None;
        return;
      }
      var k := Highest(bids.Keys);
      var level := bids[k];
      bestBidPrice := Some(allOrders[level[0]].price);
      assert IsHighestKey(bestBidPrice, bids);
    }

    /** Re-reads the best offer from the front order of the lowest offer
        level, or NaN when there are no offers. */
    method UpdateBestOfferPrice()
      requires Synced() && FrontsPriced(offers, views)
      modifies this`bestOfferPrice
      ensures Synced() && bestOfferPrice == LowestKey(offers)
    {
      if offers == map[] {
        bestOfferPrice := None;
        return;
      }
      var k := Lowest(offers.Keys);
      var level := offers[k];
      bestOfferPrice := Some(allOrders[level[0]].price);
      assert IsLowestKey(bestOfferPrice, offers);
    }

    /** cleanLevel on the chosen side: drops the level at p once it is empty. */
    method CleanSide(toBids: bool, p: Price)
      requires Synced()
      modifies this`bids, this`offers
      ensures Synced()
      ensures bids == if toBids then CleanLevel(old(bids), p) else old(bids)
      ensures offers == if toBids then old(offers) else CleanLevel(old(offers), p)
    {
      if toBids {
        bids := CleanLevel(bids, p);
      } else {
        offers := CleanLevel(offers, p);
      }
    }

    /** Links order o at the tail of the level at p on the chosen side,
        creating the level if there is none. */
    method LinkAtTail(toBids: bool, p: Price, o: Order)
      requires Synced()
      modifies this`bids, this`offers
      ensures Synced()
      ensures bids == if toBids then PushBack(old(bids), p, o.orderId) else old(bids)
      ensures offers == if toBids then old(offers) else PushBack(old(offers), p, o.orderId)
    {
      if toBids {
        bids := PushBack(bids, p, o.orderId);
      } else {
        offers := PushBack(offers, p, o.orderId);
      }
    }

    /** Files o under its id in the order index. */
    method FileOrder(o: Order)
      requires Synced()
      requires o.orderId in allOrders ==> allOrders[o.orderId] == o
      modifies this`allOrders, this`views
      ensures Synced()
      ensures allOrders == old(allOrders)[o.orderId := o]
      ensures views == old(views)[o.orderId := o.View()]
    {
      allOrders := allOrders[o.orderId := o];
      views := views[o.orderId := o.View()];
    }

    /** Drops an id from the order index. */
    method EraseOrder(id: OrderID)
      requires Synced()
      modifies this`allOrders, this`views
      ensures Synced()
      ensures allOrders == old(allOrders) - {id}
      ensures views == old(views) - {id}
    {
      allOrders := allOrders - {id};
      views := views - {id};
    }

    /** Order::setQty on an indexed order, keeping its view in step. */
    method SetOrderQty(ord: Order, q: Qty)
      requires Synced() && ord.orderId in allOrders && allOrders[ord.orderId] == ord
      modifies ord, this`views
      ensures Synced()
      ensures ord.qty == q && ord.price == old(ord.price)
      ensures views == old(views)[ord.orderId := ord.View()]
    {
      ord.SetQty(q);
      views := views[ord.orderId := ord.View()];
    }

    /** Order::setPrice on an indexed order, keeping its view in step. */
    method SetOrderPrice(ord: Order, p: Price)
      requires Synced() && ord.orderId in allOrders && allOrders[ord.orderId] == ord
      modifies ord, this`views
      ensures Synced()
      ensures ord.price == p && ord.qty == old(ord.qty)
      ensures views == old(views)[ord.orderId := ord.View()]
    {
      ord.SetPrice(p);
      views := views[ord.orderId := ord.View()];
    }

    /** Links an order (a new one built from ev when n is null) at the tail
        of the level at ev's price on the chosen side, creating the level if
        needed, and files it under ev's id. */
    method ProcessNewOrder(toBids: bool, ev: OrderNew, n: Order?) returns (o: Order)
      requires Synced()
      requires n == null ==> ev.orderId !in allOrders
      requires n != null ==> ev.orderId in allOrders && allOrders[ev.orderId] == n
      modifies this
      ensures Synced()
      ensures n == null ==> fresh(o) && o.orderId == ev.orderId && o.View() == OrderView(ev.price, ev.qty, ev.side)
      ensures n != null ==> o == n
      ensures bids == if toBids then PushBack(old(bids), ev.price, ev.orderId) else old(bids)
      ensures offers == if toBids then old(offers) else PushBack(old(offers), ev.price, ev.orderId)
      ensures allOrders == old(allOrders)[ev.orderId := o]
      ensures views == old(views)[ev.orderId := o.View()]
      ensures bestBidPrice == old(bestBidPrice) && bestOfferPrice == old(bestOfferPrice)
    {
      if n == null {
        o := new Order(ev);
      } else {
        o := n;
      }
      LinkAtTail(toBids, ev.price, o);
      FileOrder(o);
    }

    /** Takes an order out of the level that holds it (Order::unlink): the
        level of its side at its price. */
    method UnlinkOrder(ord: Order)
      requires Synced()
      modifies this`bids, this`offers
      ensures Synced()
      ensures bids == if ord.side == Bid then UnlinkFrom(old(bids), ord.price, ord.orderId) else old(bids)
      ensures offers == if ord.side == Bid then old(offers) else UnlinkFrom(old(offers), ord.price, ord.orderId)
    {
      if ord.side == Bid {
        bids := UnlinkFrom(bids, ord.price, ord.orderId);
      } else {
        offers := UnlinkFrom(offers, ord.price, ord.orderId);
      }
    }

    // ------------------------------------------------ accepted event paths

    /** Book.h:172-175: rests a new bid at the tail of its level and makes
        its price the best bid when it is above the cached best or the best
        is NaN. */
    method AcceptBid(ev: OrderNew)
      requires Synced() && ev.orderId !in allOrders
      modifies this
      ensures Synced()
      ensures ev.orderId in allOrders && fresh(allOrders[ev.orderId])
      ensures allOrders == old(allOrders)[ev.orderId := allOrders[ev.orderId]]
      ensures views == old(views)[ev.orderId := OrderView(ev.price, ev.qty, ev.side)]
      ensures bids == PushBack(old(bids), ev.price, ev.orderId) && offers == old(offers)
      ensures bestBidPrice == if old(bestBidPrice).None? || ev.price > old(bestBidPrice).value then Some(ev.price) else old(bestBidPrice)
      ensures bestOfferPrice == old(bestOfferPrice)
    {
      var o := ProcessNewOrder(true, ev, null);
      if (bestBidPrice.Some? && ev.price > bestBidPrice.value) || bestBidPrice.None? {
        bestBidPrice := Some(ev.price);
      }
    }

    /** Book.h:185-188: rests a new offer at the tail of its level and makes
        its price the best offer when it is below the cached best or the
        best is NaN. */
    method AcceptOffer(ev: OrderNew)
      requires Synced() && ev.orderId !in allOrders
      modifies this
      ensures Synced()
      ensures ev.orderId in allOrders && fresh(allOrders[ev.orderId])
      ensures allOrders == old(allOrders)[ev.orderId := allOrders[ev.orderId]]
      ensures views == old(views)[ev.orderId := OrderView(ev.price, ev.qty, ev.side)]
      ensures offers == PushBack(old(offers), ev.price, ev.orderId) && bids == old(bids)
      ensures bestOfferPrice == if old(bestOfferPrice).None? || ev.price < old(bestOfferPrice).value then Some(ev.price) else old(bestOfferPrice)
      ensures bestBidPrice == old(bestBidPrice)
    {
      var o := ProcessNewOrder(false, ev, null);
      if (bestOfferPrice.Some? && ev.price < bestOfferPrice.value) || bestOfferPrice.None? {
        bestOfferPrice := Some(ev.price);
      }
    }

    /** Book.h:133-147: unlinks a resting order, cleans its level, re-reads
        its side's best when the order was priced at it, and drops the order
        from the index. The best that is not re-read must already be the
        extreme price of the cleaned side, and the fronts of the cleaned
        side must be indexed at their prices. */
    method CancelResting(ord: Order)
      requires Synced() && ord.orderId in allOrders && allOrders[ord.orderId] == ord
      requires FrontsPriced(Detach(if ord.side == Bid then bids else offers, ord.price, ord.orderId), views)
      requires ord.side == Bid && bestBidPrice != Some(ord.price) ==>
                 HighestKey(Detach(bids, ord.price, ord.orderId)) == bestBidPrice
      requires ord.side != Bid && bestOfferPrice != Some(ord.price) ==>
                 LowestKey(Detach(offers, ord.price, ord.orderId)) == bestOfferPrice
      modifies this
      ensures Synced()
      ensures allOrders == old(allOrders) - {ord.orderId} && views == old(views) - {ord.orderId}
      ensures ord.side == Bid ==>
                && bids == Detach(old(bids), ord.price, ord.orderId) && bestBidPrice == HighestKey(bids)
                && offers == old(offers) && bestOfferPrice == old(bestOfferPrice)
      ensures ord.side != Bid ==>
                && offers == Detach(old(offers), ord.price, ord.orderId) && bestOfferPrice == LowestKey(offers)
                && bids == old(bids) && bestBidPrice == old(bestBidPrice)
    {
      UnlinkOrder(ord);
      if ord.side == Bid {
        CleanSide(true, ord.price);
        if bestBidPrice == Some(ord.price) {
          UpdateBestBidPrice();
        }
      } else {
        CleanSide(false, ord.price);
        if bestOfferPrice == Some(ord.price) {
          UpdateBestOfferPrice();
        }
      }
      EraseOrder(ord.orderId);
    }

    /** Book.h:92-96: unlinks a resting order from its level and gives it
        the new price and quantity, returning the price it rested at. */
    method Retag(ord: Order, newPrice: Price, newQty: Qty) returns (priorPrice: Price)
      requires Synced() && ord.orderId in allOrders && allOrders[ord.orderId] == ord
      modifies this`bids, this`offers, this`views, ord
      ensures Synced()
      ensures priorPrice == old(ord.price) && ord.price == newPrice
      ensures allOrders == old(allOrders)
      ensures views == old(views)[ord.orderId := OrderView(newPrice, newQty, ord.side)]
      ensures bids == if ord.side == Bid then UnlinkFrom(old(bids), priorPrice, ord.orderId) else old(bids)
      ensures offers == if ord.side == Bid then old(offers) else UnlinkFrom(old(offers), priorPrice, ord.orderId)
    {
      UnlinkOrder(ord);
      priorPrice := ord.price;
      SetOrderPrice(ord, newPrice);
      SetOrderQty(ord, newQty);
    }

    /** Book.h:97-104: cleans the bid level a repriced order left, links the
        order at the tail of the bid level at its new price and re-reads the
        best bid unless that price is the cached best, in which case the
        cached best must already be the highest bid level; the fronts of the
        resulting levels must be indexed at their prices. */
    method RelinkBid(ord: Order, newPrice: Price, priorPrice: Price)
      requires Synced() && ord.orderId in allOrders && allOrders[ord.orderId] == ord
      requires ord.price == newPrice
      requires FrontsPriced(PushBack(CleanLevel(bids, priorPrice), newPrice, ord.orderId), views)
      requires bestBidPrice == Some(newPrice) ==>
                 HighestKey(PushBack(CleanLevel(bids, priorPrice), newPrice, ord.orderId)) == bestBidPrice
      modifies this
      ensures Synced()
      ensures allOrders == old(allOrders) && views == old(views)
      ensures bids == PushBack(CleanLevel(old(bids), priorPrice), newPrice, ord.orderId)
      ensures bestBidPrice == HighestKey(bids)
      ensures offers == old(offers) && bestOfferPrice == old(bestOfferPrice)
    {
      var on := OrderNewForModify(ord.orderId, newPrice);
      CleanSide(true, priorPrice);
      var n := ProcessNewOrder(true, on, ord);
      assert allOrders == old(allOrders);
      assert views == old(views);
      if Some(newPrice) != bestBidPrice {
        UpdateBestBidPrice();
      }
    }

    /** Book.h:106-111: the offer-side counterpart of RelinkBid. */
    method RelinkOffer(ord: Order, newPrice: Price, priorPrice: Price)
      requires Synced() && ord.orderId in allOrders && allOrders[ord.orderId] == ord
      requires ord.price == newPrice
      requires FrontsPriced(PushBack(CleanLevel(offers, priorPrice), newPrice, ord.orderId), views)
      requires bestOfferPrice == Some(newPrice) ==>
                 LowestKey(PushBack(CleanLevel(offers, priorPrice), newPrice, ord.orderId)) == bestOfferPrice
      modifies this
      ensures Synced()
      ensures allOrders == old(allOrders) && views == old(views)
      ensures offers == PushBack(CleanLevel(old(offers), priorPrice), newPrice, ord.orderId)
      ensures bestOfferPrice == LowestKey(offers)
      ensures bids == old(bids) && bestBidPrice == old(bestBidPrice)
    {
      var on := OrderNewForModify(ord.orderId, newPrice);
      CleanSide(false, priorPrice);
      var n := ProcessNewOrder(false, on, ord);
      assert allOrders == old(allOrders);
      assert views == old(views);
      if Some(newPrice) != bestOfferPrice {
        UpdateBestOfferPrice();
      }
    }

    /** Book.h:92-112: moves a resting order to the tail of the level at its
        new price on its side, with its new quantity, and keeps the side's
        best. A best that is not re-read must already be the extreme price
        of the resulting side, and the fronts of that side must be indexed
        at their prices. */
    method MoveOrder(ord: Order, newPrice: Price, newQty: Qty)
      requires Synced() && ord.orderId in allOrders && allOrders[ord.orderId] == ord
      requires FrontsPriced(PushBack(Detach(if ord.side == Bid then bids else offers, ord.price, ord.orderId), newPrice, ord.orderId),
                            views[ord.orderId := OrderView(newPrice, newQty, ord.side)])
      requires ord.side == Bid && bestBidPrice == Some(newPrice) ==>
                 HighestKey(PushBack(Detach(bids, ord.price, ord.orderId), newPrice, ord.orderId)) == bestBidPrice
      requires ord.side != Bid && bestOfferPrice == Some(newPrice) ==>
                 LowestKey(PushBack(Detach(offers, ord.price, ord.orderId), newPrice, ord.orderId)) == bestOfferPrice
      modifies this, ord
      ensures Synced()
      ensures allOrders == old(allOrders)
      ensures views == old(views)[ord.orderId := OrderView(newPrice, newQty, ord.side)]
      ensures ord.side == Bid ==>
                && bids == PushBack(Detach(old(bids), old(ord.price), ord.orderId), newPrice, ord.orderId)
                && bestBidPrice == HighestKey(bids)
                && offers == old(offers) && bestOfferPrice == old(bestOfferPrice)
      ensures ord.side != Bid ==>
                && offers == PushBack(Detach(old(offers), old(ord.price), ord.orderId), newPrice, ord.orderId)
                && bestOfferPrice == LowestKey(offers)
                && bids == old(bids) && bestBidPrice == old(bestBidPrice)
    {
      var priorPrice := Retag(ord, newPrice, newQty);
      if ord.side == Bid {
        RelinkBid(ord, newPrice, priorPrice);
      } else {
        RelinkOffer(ord, newPrice, priorPrice);
      }
    }

    // -------------------------------------------------------------- events

    /** onEvent(OrderNew&). */
    method OnNew(ev: OrderNew) returns (code: int)
      requires Valid()
      modifies this
      ensures Valid()
      ensures View() == ApplyNew(old(View()), ev).0 && code == ApplyNew(old(View()), ev).1
      ensures code != 0 ==> allOrders == old(allOrders)
      ensures code == 0 ==> && ev.orderId in allOrders && fresh(allOrders[ev.orderId])
                            && allOrders == old(allOrders)[ev.orderId := allOrders[ev.orderId]]
    {
      if ev.orderId in allOrders {
        return 1;
      }
      if ev.qty <= 0 {
        return 2;
      }
      if ev.side == Bid {
        if bestOfferPrice.Some? && ev.price >= bestOfferPrice.value {
          return 4;
        }
        NewSteps(View(), ev);
        AcceptBid(ev);
      } else if ev.side == Offer {
        if bestBidPrice.Some? && ev.price <= bestBidPrice.value {
          return 4;
        }
        NewSteps(View(), ev);
        AcceptOffer(ev);
      } else {
        return 3;
      }
      code := 0;
    }

    /** onEvent(OrderCancel). */
    method OnCancel(ev: OrderCancel) returns (code: int)
      requires Valid()
      modifies this
      ensures Valid()
      ensures View() == ApplyCancel(old(View()), ev).0 && code == ApplyCancel(old(View()), ev).1
      ensures allOrders == old(allOrders) - {ev.orderId}
    {
      if ev.orderId !in allOrders {
        return 1;
      }
      var ord := allOrders[ev.orderId];
      CancelSteps(View(), ev);
      CancelResting(ord);
      code := 0;
    }

    /** onEvent(OrderModify). */
    method OnModify(ev: OrderModify) returns (code: int)
      requires Valid()
      modifies this, allOrders.Values
      ensures Valid()
      ensures View() == ApplyModify(old(View()), ev).0 && code == ApplyModify(old(View()), ev).1
      ensures allOrders == old(allOrders)
    {
      if ev.orderId !in allOrders {
        return 1;
      }
      if ev.newQty <= 0 {
        return 2;
      }
      var ord := allOrders[ev.orderId];
      if ev.newPrice == ord.price {
        ModifySamePrice(View(), ev);
        SetOrderQty(ord, ev.newQty);
        return 0;
      }
      if ord.side == Bid && bestOfferPrice.Some? && ev.newPrice >= bestOfferPrice.value {
        return 4;
      }
      if ord.side == Offer && bestBidPrice.Some? && ev.newPrice <= bestBidPrice.value {
        return 4;
      }
      ModifySteps(View(), ev);
      MoveOrder(ord, ev.newPrice, ev.newQty);
      code := 0;
    }
  }
}
