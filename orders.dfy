/**
 * The resting order record (Order.h). Its id and side are fixed at
 * construction (they have no setters, so here they are constants); its price
 * and quantity are updated in place by the modify handler. Membership of a
 * price level, which the source keeps in an intrusive hook, is held by the
 * book's side indices instead (see Levels.Unlink and OrderBook.Book.UnlinkOrder).
 */
module Orders {
  import opened Events

  /** The mutable state of one order as a value, for specifications. */
  datatype OrderView = OrderView(price: Price, qty: Qty, side: Side)

  class Order {
    const orderId: OrderID
    var price: Price
    var qty: Qty
    const side: Side

    /** Builds an order from a new-order event, copying all four fields. */
    constructor (ev: OrderNew)
      ensures orderId == ev.orderId && price == ev.price
      ensures qty == ev.qty && side == ev.side
    {
      orderId := ev.orderId;
      price := ev.price;
      qty := ev.qty;
      side := ev.side;
    }

    ghost function View(): OrderView
      reads this
    {
      OrderView(price, qty, side)
    }

    /** Sets the quantity; the price is untouched. */
    method SetQty(q: Qty)
      modifies this
      ensures qty == q && price == old(price)
    {
      qty := q;
    }

    /** Sets the price; the quantity is untouched. */
    method SetPrice(p: Price)
      modifies this
      ensures price == p && qty == old(qty)
    {
      price := p;
    }
  }
}
