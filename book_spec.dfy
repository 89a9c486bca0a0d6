/**
 * The order book (Book.h) as a value, with its invariant and the effect of
 * each event handler written as a function of the book before the event.
 * The class OrderBook.Book is proved to follow these functions step by step;
 * the lemmas here state what the handlers promise: the order in which their
 * checks run, that a rejected event changes nothing, where an accepted event
 * puts or removes an order, how the cached best prices move, and that every
 * event keeps the invariant.
 */
module BookSpec {
  import opened Wrappers
  import opened Events
  import opened Orders
  import opened Levels

  /** Both side indices, every resting order by id, and the two cached best
      prices (None where the source stores NaN). */
  datatype BookView = BookView(
    bids: SideIndex,
    offers: SideIndex,
    orders: map<OrderID, OrderView>,
    bestBid: Option<Price>,
    bestOffer: Option<Price>)

  /** A freshly constructed book: no levels, no orders, both bests NaN. */
  const Empty := BookView(map[], map[], map[], None, None)

  /** The index a handler uses for an order of side s: bids for Bid, offers
      for anything else (the source's `if Bid ... else ...`). */
  function IndexOf(v: BookView, s: Side): SideIndex {
    if s == Bid then v.bids else v.offers
  }

  function WithIndex(v: BookView, s: Side, ol: SideIndex): BookView {
    if s == Bid then v.(bids := ol) else v.(offers := ol)
  }

  /** Every indexed order rests: a positive quantity on a defined side. */
  ghost predicate Resting(orders: map<OrderID, OrderView>) {
    forall id :: id in orders ==> orders[id].qty > 0 && orders[id].side != Undef
  }

  /** Everything but the cached prices: each side agrees with the order
      index (Levels.SideOK) and every indexed order rests. */
  ghost predicate StructInv(v: BookView) {
    && SideOK(v.bids, v.orders, Bid)
    && SideOK(v.offers, v.orders, Offer)
    && Resting(v.orders)
  }

  /** Every bid level is priced below every offer level. */
  ghost predicate Apart(bids: SideIndex, offers: SideIndex) {
    forall b, a :: b in bids && a in offers ==> b < a
  }

  /** The book invariant: the structure is sound, each cached best is the
      extreme price of its side, and no bid level reaches an offer level. */
  ghost predicate Inv(v: BookView)
    ensures Inv(v) ==> (v.bestBid.None? <==> v.bids.Keys == {}) && (v.bestOffer.None? <==> v.offers.Keys == {})
  {
    && StructInv(v)
    && IsHighestKey(v.bestBid, v.bids)
    && IsLowestKey(v.bestOffer, v.offers)
    && Apart(v.bids, v.offers)
  }

  /** While both sides have orders, the best bid is below the best offer. */
  ghost predicate NotCrossed(bestBid: Option<Price>, bestOffer: Option<Price>) {
    bestBid.Some? && bestOffer.Some? ==> bestBid.value < bestOffer.value
  }

  /** An order of side s at price p would trade against the other side. An
      absent best (NaN in the source) imposes no constraint. */
  predicate Crosses(s: Side, p: Price, bestBid: Option<Price>, bestOffer: Option<Price>)
    ensures Crosses(s, p, bestBid, bestOffer) ==> s != Undef
    ensures bestBid.None? && bestOffer.None? ==> !Crosses(s, p, bestBid, bestOffer)
  {
    || (s == Bid && bestOffer.Some? && p >= bestOffer.value)
    || (s == Offer && bestBid.Some? && p <= bestBid.value)
  }

  /** Recomputes the cached best of side s from its index. */
  ghost function Refresh(v: BookView, s: Side): BookView {
    if s == Bid then v.(bestBid := HighestKey(v.bids)) else v.(bestOffer := LowestKey(v.offers))
  }

  /** Links a new or re-priced order at the tail of its level and indexes it. */
  function Attached(v: BookView, id: OrderID, o: OrderView): BookView {
    WithIndex(v, o.side, PushBack(IndexOf(v, o.side), o.price, id)).(orders := v.orders[id := o])
  }

  /** Unlinks an order, cleans its level and drops it from the order index. */
  function Detached(v: BookView, id: OrderID): BookView
    requires id in v.orders
  {
    var o := v.orders[id];
    WithIndex(v, o.side, Detach(IndexOf(v, o.side), o.price, id)).(orders := v.orders - {id})
  }

  // ------------------------------------------------------------------ events

  /** onEvent(OrderNew&): the book afterwards and the result code. */
  ghost function ApplyNew(v: BookView, ev: OrderNew): (r: (BookView, int))
    ensures 0 <= r.1 <= 4
    ensures r.1 == 1 <==> ev.orderId in v.orders
    ensures r.1 == 2 <==> ev.orderId !in v.orders && ev.qty <= 0
    ensures r.1 == 4 <==> ev.orderId !in v.orders && ev.qty > 0 && Crosses(ev.side, ev.price, v.bestBid, v.bestOffer)
    ensures r.1 == 3 <==> ev.orderId !in v.orders && ev.qty > 0 && ev.side == Undef
    ensures r.1 != 0 ==> r.0 == v
  {
    if ev.orderId in v.orders then (v, 1)
    else if ev.qty <= 0 then (v, 2)
    else match ev.side
      case Bid =>
        if Crosses(Bid, ev.price, v.bestBid, v.bestOffer) then (v, 4)
        else (Refresh(Attached(v, ev.orderId, OrderView(ev.price, ev.qty, Bid)), Bid), 0)
      case Offer =>
        if Crosses(Offer, ev.price, v.bestBid, v.bestOffer) then (v, 4)
        else (Refresh(Attached(v, ev.orderId, OrderView(ev.price, ev.qty, Offer)), Offer), 0)
      case Undef => (v, 3)
  }

  /** onEvent(OrderCancel): the book afterwards and the result code. */
  ghost function ApplyCancel(v: BookView, ev: OrderCancel): (r: (BookView, int))
    ensures r.1 == 0 || r.1 == 1
    ensures r.1 == 1 <==> ev.orderId !in v.orders
    ensures r.1 == 1 ==> r.0 == v
    ensures r.1 == 0 ==> r.0.orders == v.orders - {ev.orderId}
  {
    if ev.orderId !in v.orders then (v, 1)
    else (Refresh(Detached(v, ev.orderId), v.orders[ev.orderId].side), 0)
  }

  /** onEvent(OrderModify): the book afterwards and the result code. */
  ghost function ApplyModify(v: BookView, ev: OrderModify): (r: (BookView, int))
    ensures r.1 == 0 || r.1 == 1 || r.1 == 2 || r.1 == 4
    ensures r.1 == 1 <==> ev.orderId !in v.orders
    ensures r.1 == 2 <==> ev.orderId in v.orders && ev.newQty <= 0
    ensures r.1 == 4 <==> ev.orderId in v.orders && ev.newQty > 0
                          && ev.newPrice != v.orders[ev.orderId].price
                          && Crosses(v.orders[ev.orderId].side, ev.newPrice, v.bestBid, v.bestOffer)
    ensures r.1 != 0 ==> r.0 == v
    ensures r.1 == 0 ==> r.0.orders.Keys == v.orders.Keys
  {
    if ev.orderId !in v.orders then (v, 1)
    else if ev.newQty <= 0 then (v, 2)
    else
      var o := v.orders[ev.orderId];
      if ev.newPrice == o.price then
        (v.(orders := v.orders[ev.orderId := o.(qty := ev.newQty)]), 0)
      else if Crosses(o.side, ev.newPrice, v.bestBid, v.bestOffer) then (v, 4)
      else
        var moved := OrderView(ev.newPrice, ev.newQty, o.side);
        (Refresh(Attached(Detached(v, ev.orderId), ev.orderId, moved), o.side), 0)
  }

  /** The side a range query reads: offers for Offer, bids otherwise. */
  function QuerySide(s: Side): (r: Side)
    ensures r != Undef && (s != Undef ==> r == s)
  {
    match s
    case Offer => Offer
    case _ => Bid
  }

  /** getOrdersInRange: the levels of the queried side whose price lies in
      [lower, upper], traversed in ascending price order. */
  ghost function RangeSpec(v: BookView, s: Side, lower: Price, upper: Price): (r: Level)
    ensures lower > upper ==> r == []
  {
    var ol := IndexOf(v, QuerySide(s));
    Flatten(ol, set k | k in ol && lower <= k <= upper)
  }

  // ------------------------------------------------------------- invariant

  /** The empty book satisfies the invariant. */
  lemma EmptyInv()
    ensures Inv(Empty)
  {
  }

  /** A book in its invariant is never crossed. */
  lemma InvNotCrossed(v: BookView)
    requires Inv(v)
    ensures NotCrossed(v.bestBid, v.bestOffer)
  {
    if v.bestBid.Some? && v.bestOffer.Some? {
      assert v.bestBid.value in v.bids && v.bestOffer.value in v.offers;
    }
  }

  /** Bid levels at known prices plus one at p, a price that does not cross,
      stay below every offer level. */
  lemma ApartWithBid(v: BookView, nb: SideIndex, p: Price)
    requires Inv(v) && !Crosses(Bid, p, v.bestBid, v.bestOffer)
    requires forall k :: k in nb ==> k in v.bids || k == p
    ensures Apart(nb, v.offers)
  {
    forall b, a | b in nb && a in v.offers ensures b < a {
      if b == p {
        assert v.bestOffer.Some?;
      }
    }
  }

  /** Offer levels at known prices plus one at p, a price that does not
      cross, stay above every bid level. */
  lemma ApartWithOffer(v: BookView, no: SideIndex, p: Price)
    requires Inv(v) && !Crosses(Offer, p, v.bestBid, v.bestOffer)
    requires forall k :: k in no ==> k in v.offers || k == p
    ensures Apart(v.bids, no)
  {
    forall b, a | b in v.bids && a in no ensures b < a {
      if a == p {
        assert v.bestBid.Some?;
      }
    }
  }

  lemma AttachKeepsStruct(v: BookView, id: OrderID, o: OrderView)
    requires StructInv(v) && id !in v.orders && o.qty > 0 && o.side != Undef
    ensures StructInv(Attached(v, id, o))
  {
    var a := Attached(v, id, o);
    if o.side == Bid {
      SideAttach(v.bids, v.orders, Bid, id, o);
      SideAttachOther(v.offers, v.orders, Offer, id, o);
    } else {
      SideAttach(v.offers, v.orders, Offer, id, o);
      SideAttachOther(v.bids, v.orders, Bid, id, o);
    }
    assert Resting(a.orders);
  }

  lemma DetachKeepsStruct(v: BookView, id: OrderID)
    requires StructInv(v) && id in v.orders
    ensures StructInv(Detached(v, id))
    ensures forall k :: k in Detached(v, id).bids ==> k in v.bids
    ensures forall k :: k in Detached(v, id).offers ==> k in v.offers
  {
    var d := Detached(v, id);
    if v.orders[id].side == Bid {
      SideDetach(v.bids, v.orders, Bid, id);
      SideDetachOther(v.offers, v.orders, Offer, id);
    } else {
      SideDetach(v.offers, v.orders, Offer, id);
      SideDetachOther(v.bids, v.orders, Bid, id);
    }
    assert Resting(d.orders);
  }

  // ------------------------------------------------------------- new orders

  /** A new order leaves the invariant intact, whatever its outcome. */
  lemma NewKeepsInv(v: BookView, ev: OrderNew)
    requires Inv(v)
    ensures Inv(ApplyNew(v, ev).0)
  {
    var (r, code) := ApplyNew(v, ev);
    if code == 0 {
      var o := OrderView(ev.price, ev.qty, ev.side);
      AttachKeepsStruct(v, ev.orderId, o);
      if ev.side == Bid {
        ApartWithBid(v, r.bids, ev.price);
      } else {
        ApartWithOffer(v, r.offers, ev.price);
      }
    }
  }

  /** A successful New appends the order to the tail of its level (creating
      the level if needed), indexes it, moves that side's best to the better
      of the old best and the new price, and leaves the other side alone. */
  lemma NewAccepted(v: BookView, ev: OrderNew)
    requires Inv(v) && ApplyNew(v, ev).1 == 0
    ensures var r := ApplyNew(v, ev).0;
      && ev.side != Undef
      && r.orders == v.orders[ev.orderId := OrderView(ev.price, ev.qty, ev.side)]
      && IndexOf(r, ev.side) == PushBack(IndexOf(v, ev.side), ev.price, ev.orderId)
      && (ev.side == Bid ==>
            && r.offers == v.offers && r.bestOffer == v.bestOffer
            && r.bestBid == Some(if v.bestBid.None? || ev.price > v.bestBid.value then ev.price else v.bestBid.value))
      && (ev.side == Offer ==>
            && r.bids == v.bids && r.bestBid == v.bestBid
            && r.bestOffer == Some(if v.bestOffer.None? || ev.price < v.bestOffer.value then ev.price else v.bestOffer.value))
  {
    if ev.side == Bid {
      HighestAfterPush(v.bids, v.bestBid, ev.price, ev.orderId);
    } else {
      LowestAfterPush(v.offers, v.bestOffer, ev.price, ev.orderId);
    }
  }

  // ---------------------------------------------------------- cancellations

  /** A cancel leaves the invariant intact, whatever its outcome. */
  lemma CancelKeepsInv(v: BookView, ev: OrderCancel)
    requires Inv(v)
    ensures Inv(ApplyCancel(v, ev).0)
  {
    var (r, code) := ApplyCancel(v, ev);
    if code == 0 {
      var o := v.orders[ev.orderId];
      DetachKeepsStruct(v, ev.orderId);
      InvNotCrossed(v);
      if o.side == Bid {
        ApartWithBid(v, r.bids, o.price);
      } else {
        ApartWithOffer(v, r.offers, o.price);
      }
    }
  }

  /** A successful Cancel takes the order out of its level, deletes the level
      when it was the last order there, and leaves that side's best at the
      extreme remaining price (absent when the side is now empty); the other
      side is untouched. */
  lemma CancelAccepted(v: BookView, ev: OrderCancel)
    requires Inv(v) && ev.orderId in v.orders
    ensures var r := ApplyCancel(v, ev).0;
      var o := v.orders[ev.orderId];
      var ol := IndexOf(v, o.side);
      && ApplyCancel(v, ev).1 == 0
      && o.price in ol && ev.orderId in ol[o.price]
      && r.orders == v.orders - {ev.orderId}
      && RemovedAt(ol, IndexOf(r, o.side), o.price, ev.orderId)
      && SameExcept(ol, IndexOf(r, o.side), {o.price})
      && (o.side == Bid ==> IsHighestKey(r.bestBid, r.bids) && r.offers == v.offers && r.bestOffer == v.bestOffer)
      && (o.side == Offer ==> IsLowestKey(r.bestOffer, r.offers) && r.bids == v.bids && r.bestBid == v.bestBid)
  {
    var o := v.orders[ev.orderId];
    DetachShape(IndexOf(v, o.side), o.price, ev.orderId);
  }

  /** Cancelling the same order twice succeeds once, then reports not found. */
  lemma CancelTwice(v: BookView, id: OrderID)
    requires Inv(v) && id in v.orders
    ensures ApplyCancel(v, OrderCancel(id)).1 == 0
    ensures ApplyCancel(ApplyCancel(v, OrderCancel(id)).0, OrderCancel(id)).1 == 1
  {
  }

  // ----------------------------------------------------------- modification

  /** A modify leaves the invariant intact, whatever its outcome. */
  lemma ModifyKeepsInv(v: BookView, ev: OrderModify)
    requires Inv(v)
    ensures Inv(ApplyModify(v, ev).0)
  {
    var (r, code) := ApplyModify(v, ev);
    if code == 0 {
      var id := ev.orderId;
      var o := v.orders[id];
      if ev.newPrice == o.price {
        SideRequantify(v.bids, v.orders, Bid, id, ev.newQty);
        SideRequantify(v.offers, v.orders, Offer, id, ev.newQty);
        assert Resting(r.orders);
      } else {
        var moved := OrderView(ev.newPrice, ev.newQty, o.side);
        var d := Detached(v, id);
        DetachKeepsStruct(v, id);
        AttachKeepsStruct(d, id, moved);
        if o.side == Bid {
          ApartWithBid(v, r.bids, ev.newPrice);
        } else {
          ApartWithOffer(v, r.offers, ev.newPrice);
        }
      }
    }
  }

  /** A modify at the order's current price only sets the quantity: every
      level, and so the order's place in its level, and both bests stay. */
  lemma ModifySamePrice(v: BookView, ev: OrderModify)
    requires Inv(v) && ev.orderId in v.orders && ev.newQty > 0
    requires ev.newPrice == v.orders[ev.orderId].price
    ensures var r := ApplyModify(v, ev).0;
      && ApplyModify(v, ev).1 == 0
      && r.bids == v.bids && r.offers == v.offers
      && r.bestBid == v.bestBid && r.bestOffer == v.bestOffer
      && r.orders == v.orders[ev.orderId := v.orders[ev.orderId].(qty := ev.newQty)]
      && Inv(r)
  {
    ModifyKeepsInv(v, ev);
  }

  /** A successful re-pricing modify moves the order to the tail of the level
      at the new price (it loses time priority), takes it out of the old
      level and deletes that level when it held nothing else, keeps the order
      under the same id with the new price and quantity, leaves that side's
      best at its extreme price and the other side untouched. */
  lemma ModifyMoves(v: BookView, ev: OrderModify)
    requires Inv(v) && ApplyModify(v, ev).1 == 0
    requires ev.newPrice != v.orders[ev.orderId].price
    ensures var r := ApplyModify(v, ev).0;
      var o := v.orders[ev.orderId];
      var ol := IndexOf(v, o.side);
      var nl := IndexOf(r, o.side);
      && r.orders == v.orders[ev.orderId := OrderView(ev.newPrice, ev.newQty, o.side)]
      && o.price in ol && ev.orderId in ol[o.price]
      && RemovedAt(ol, nl, o.price, ev.orderId)
      && ev.newPrice in nl
      && nl[ev.newPrice] == (if ev.newPrice in ol then ol[ev.newPrice] else []) + [ev.orderId]
      && SameExcept(ol, nl, {o.price, ev.newPrice})
      && (o.side == Bid ==> IsHighestKey(r.bestBid, r.bids) && r.offers == v.offers && r.bestOffer == v.bestOffer)
      && (o.side == Offer ==> IsLowestKey(r.bestOffer, r.offers) && r.bids == v.bids && r.bestBid == v.bestBid)
  {
    var o := v.orders[ev.orderId];
    var moved := OrderView(ev.newPrice, ev.newQty, o.side);
    var ol := IndexOf(v, o.side);
    var d := Detached(v, ev.orderId);
    var a := Attached(d, ev.orderId, moved);
    assert ApplyModify(v, ev).0 == Refresh(a, o.side);
    MoveShape(ol, o.price, ev.newPrice, ev.orderId);
    assert IndexOf(d, o.side) == Detach(ol, o.price, ev.orderId);
    assert IndexOf(a, o.side) == PushBack(IndexOf(d, o.side), ev.newPrice, ev.orderId);
    Reinsert(v.orders, ev.orderId, moved);
  }

  lemma Reinsert(m: map<OrderID, OrderView>, id: OrderID, o: OrderView)
    ensures (m - {id})[id := o] == m[id := o]
  {
  }

  // ----------------------------------------------------- field by field
  // The state after each accepted event written as the class assembles it,
  // one field at a time, with the facts its helpers need along the way.

  /** An accepted New: the order pushed onto its side and indexed, and that
      side's best replaced by the new price when the new price improves on
      it or the best was NaN. */
  lemma NewSteps(v: BookView, ev: OrderNew)
    requires Inv(v) && ApplyNew(v, ev).1 == 0
    ensures Inv(ApplyNew(v, ev).0)
    ensures var o := OrderView(ev.price, ev.qty, ev.side);
      && (ev.side == Bid ==>
            ApplyNew(v, ev).0 == BookView(PushBack(v.bids, ev.price, ev.orderId), v.offers,
                                          v.orders[ev.orderId := o],
                                          if v.bestBid.None? || ev.price > v.bestBid.value then Some(ev.price) else v.bestBid,
                                          v.bestOffer))
      && (ev.side != Bid ==>
            ApplyNew(v, ev).0 == BookView(v.bids, PushBack(v.offers, ev.price, ev.orderId),
                                          v.orders[ev.orderId := o], v.bestBid,
                                          if v.bestOffer.None? || ev.price < v.bestOffer.value then Some(ev.price) else v.bestOffer))
  {
    NewAccepted(v, ev);
    NewKeepsInv(v, ev);
  }

  /** An accepted Cancel: the order's level on its side unlinked and
      cleaned, the order unindexed, and that side's best re-read from the
      remaining levels; the fronts of those levels are still indexed at
      their prices, and the best is unchanged when the order was not at it. */
  lemma CancelSteps(v: BookView, ev: OrderCancel)
    requires Inv(v) && ev.orderId in v.orders
    ensures var o := v.orders[ev.orderId];
      var nl := Detach(IndexOf(v, o.side), o.price, ev.orderId);
      && ApplyCancel(v, ev).1 == 0
      && Inv(ApplyCancel(v, ev).0)
      && FrontsPriced(nl, v.orders)
      && (o.side == Bid ==>
            && ApplyCancel(v, ev).0 == BookView(nl, v.offers, v.orders - {ev.orderId}, HighestKey(nl), v.bestOffer)
            && (v.bestBid != Some(o.price) ==> HighestKey(nl) == v.bestBid))
      && (o.side != Bid ==>
            && ApplyCancel(v, ev).0 == BookView(v.bids, nl, v.orders - {ev.orderId}, v.bestBid, LowestKey(nl))
            && (v.bestOffer != Some(o.price) ==> LowestKey(nl) == v.bestOffer))
  {
    var o := v.orders[ev.orderId];
    var ol := IndexOf(v, o.side);
    var nl := Detach(ol, o.price, ev.orderId);
    CancelKeepsInv(v, ev);
    DetachSound(ol, v.orders, o.side, o.price, ev.orderId);
    SideFronts(nl, v.orders, o.side);
    DetachShape(ol, o.price, ev.orderId);
    if o.side == Bid && v.bestBid != Some(o.price) {
      assert v.bestBid.value in nl;
      KeepHighest(ol, nl, v.bestBid.value);
    } else if o.side != Bid && v.bestOffer != Some(o.price) {
      assert v.bestOffer.value in nl;
      KeepLowest(ol, nl, v.bestOffer.value);
    }
  }

  /** An accepted re-pricing Modify: the order unlinked from its old level
      (cleaned when empty) and pushed onto the level at the new price, its
      entry in the index replaced, and that side's best re-read; the fronts
      of the levels are indexed at their prices, and the best is unchanged
      when the new price equals it. */
  lemma ModifySteps(v: BookView, ev: OrderModify)
    requires Inv(v) && ApplyModify(v, ev).1 == 0
    requires ev.newPrice != v.orders[ev.orderId].price
    ensures var o := v.orders[ev.orderId];
      var nl := PushBack(Detach(IndexOf(v, o.side), o.price, ev.orderId), ev.newPrice, ev.orderId);
      var orders := v.orders[ev.orderId := OrderView(ev.newPrice, ev.newQty, o.side)];
      && Inv(ApplyModify(v, ev).0)
      && FrontsPriced(nl, orders)
      && (o.side == Bid ==>
            && ApplyModify(v, ev).0 == BookView(nl, v.offers, orders, HighestKey(nl), v.bestOffer)
            && (v.bestBid == Some(ev.newPrice) ==> HighestKey(nl) == v.bestBid))
      && (o.side != Bid ==>
            && ApplyModify(v, ev).0 == BookView(v.bids, nl, orders, v.bestBid, LowestKey(nl))
            && (v.bestOffer == Some(ev.newPrice) ==> LowestKey(nl) == v.bestOffer))
  {
    var o := v.orders[ev.orderId];
    var ol := IndexOf(v, o.side);
    var moved := OrderView(ev.newPrice, ev.newQty, o.side);
    var d := Detached(v, ev.orderId);
    var a := Attached(d, ev.orderId, moved);
    var r := ApplyModify(v, ev).0;
    var nl := PushBack(Detach(ol, o.price, ev.orderId), ev.newPrice, ev.orderId);
    assert r == Refresh(a, o.side);
    assert IndexOf(r, o.side) == nl;
    Reinsert(v.orders, ev.orderId, moved);
    ModifyKeepsInv(v, ev);
    SideFronts(nl, r.orders, o.side);
    if o.side == Bid && v.bestBid == Some(ev.newPrice) {
      MoveShape(ol, o.price, ev.newPrice, ev.orderId);
      KeepHighest(ol, nl, ev.newPrice);
    } else if o.side != Bid && v.bestOffer == Some(ev.newPrice) {
      MoveShape(ol, o.price, ev.newPrice, ev.orderId);
      KeepLowest(ol, nl, ev.newPrice);
    }
  }

  // ------------------------------------------------------------ the indices

  /** The ids linked into some level of a side. */
  ghost function LevelIds(ol: SideIndex): set<OrderID> {
    set p, id | p in ol && id in ol[p] :: id
  }

  /** The order index holds exactly the orders linked into the levels. */
  lemma OrdersMatchLevels(v: BookView)
    requires StructInv(v)
    ensures v.orders.Keys == LevelIds(v.bids) + LevelIds(v.offers)
  {
    forall id | id in v.orders
      ensures id in LevelIds(v.bids) + LevelIds(v.offers)
    {
      var o := v.orders[id];
      assert o.price in IndexOf(v, o.side) && id in IndexOf(v, o.side)[o.price];
    }
  }

  /** Each accepted New adds one order, each accepted Cancel removes one, and
      a Modify never changes how many orders rest. */
  lemma OrderCounts(v: BookView, n: OrderNew, c: OrderCancel, m: OrderModify)
    ensures |ApplyNew(v, n).0.orders| == |v.orders| + (if ApplyNew(v, n).1 == 0 then 1 else 0)
    ensures |ApplyCancel(v, c).0.orders| == |v.orders| - (if ApplyCancel(v, c).1 == 0 then 1 else 0)
    ensures |ApplyModify(v, m).0.orders| == |v.orders|
  {
    var rn, rc, rm := ApplyNew(v, n), ApplyCancel(v, c), ApplyModify(v, m);
    if rn.1 == 0 {
      assert rn.0.orders.Keys == v.orders.Keys + {n.orderId};
    }
    if rc.1 == 0 {
      assert rc.0.orders.Keys == v.orders.Keys - {c.orderId};
    }
    assert rm.0.orders.Keys == v.orders.Keys;
  }

  // ------------------------------------------------------------ range query

  /** The query returns exactly the resting orders of the queried side whose
      price lies in [lower, upper]. */
  lemma RangeExact(v: BookView, s: Side, lower: Price, upper: Price)
    requires Inv(v)
    ensures forall id :: id in RangeSpec(v, s, lower, upper) <==>
              id in v.orders && v.orders[id].side == QuerySide(s) && lower <= v.orders[id].price <= upper
  {
    var ol := IndexOf(v, QuerySide(s));
    var keys := set k | k in ol && lower <= k <= upper;
    FlattenMembers(ol, keys, v.orders, QuerySide(s));
    forall id | id in v.orders && v.orders[id].side == QuerySide(s) && lower <= v.orders[id].price <= upper
      ensures id in RangeSpec(v, s, lower, upper)
    {
      assert id in ol[v.orders[id].price];
    }
  }

  /** The query lists orders by ascending price. */
  lemma RangeAscending(v: BookView, s: Side, lower: Price, upper: Price)
    requires Inv(v)
    ensures Ascending(RangeSpec(v, s, lower, upper), v.orders)
  {
    var ol := IndexOf(v, QuerySide(s));
    var keys := set k | k in ol && lower <= k <= upper;
    FlattenAscending(ol, keys, v.orders, QuerySide(s));
  }

  /** Within one price, the query lists that price's level in arrival order. */
  lemma RangeArrival(v: BookView, s: Side, lower: Price, upper: Price)
    requires Inv(v)
    ensures var ol := IndexOf(v, QuerySide(s));
      forall k :: AtPrice(RangeSpec(v, s, lower, upper), v.orders, k) ==
        if k in ol && lower <= k <= upper then ol[k] else []
  {
    var ol := IndexOf(v, QuerySide(s));
    var keys := set k | k in ol && lower <= k <= upper;
    forall k
      ensures AtPrice(RangeSpec(v, s, lower, upper), v.orders, k) ==
        if k in ol && lower <= k <= upper then ol[k] else []
    {
      FlattenAtPrice(ol, keys, v.orders, QuerySide(s), k);
    }
  }
}
