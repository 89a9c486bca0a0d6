/**
 * The scalar types of the order book (Enums.h) and the event value objects
 * it consumes (OrderEvents.h). The events are immutable: each is a datatype
 * whose constructor is the four-, one- or three-argument C++ constructor and
 * whose destructors are the const getters.
 */
module Events {

  /** Order identifiers are unsigned 64-bit integers. */
  type OrderID = x: int | 0 <= x < 0x1_0000_0000_0000_0000

  /** Prices are doubles in the source, but the book only compares them;
      integers keep the same order and equality. */
  type Price = int

  /** Quantities are signed 32-bit integers; the book never computes with them. */
  type Qty = x: int | -0x8000_0000 <= x < 0x8000_0000

  datatype Side = Bid | Offer | Undef

  /** A new-order event: id, side, price and quantity, exactly as given. */
  datatype OrderNew = OrderNew(orderId: OrderID, side: Side, price: Price, qty: Qty)

  /** The two-argument constructor the modify path uses to re-insert an order
      at its new price: quantity and side keep their defaults (0 and Undef). */
  function OrderNewForModify(oid: OrderID, p: Price): (ev: OrderNew)
    ensures ev.orderId == oid && ev.price == p
    ensures ev.qty == 0 && ev.side == Undef
  {
    OrderNew(oid, Undef, p, 0)
  }

  /** A cancel event carries only the id of the order to remove. */
  datatype OrderCancel = OrderCancel(orderId: OrderID)

  /** A modify event: the order's id and its new price and quantity. */
  datatype OrderModify = OrderModify(orderId: OrderID, newPrice: Price, newQty: Qty)
}
