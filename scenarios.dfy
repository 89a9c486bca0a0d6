/**
 * The event sequences of the unit tests (main.cpp), replayed as lemmas over
 * the book's specification functions, one event at a time. Each step lemma states the
 * book and the result code an event leaves; the test lemmas chain them and
 * state the result codes and best prices the tests require.
 */
module Scenarios {
  import opened Wrappers
  import opened Events
  import opened Orders
  import opened Levels
  import opened BookSpec

  // ------------------------------------------------------- the opening book

  const Nil: Level := []

  /** Unlinking the later of two orders leaves the earlier one. */
  lemma Unlinked(a: OrderID, b: OrderID)
    requires a != b
    ensures Unlink([a, b], b) == [a]
  {
    assert [a, b][1..] == [b];
    assert Unlink([b], b) == [];
  }

  const Bid10a := OrderView(10, 100, Bid)
  const Offer13 := OrderView(13, 100, Offer)

  /** After order 1: one bid at 10. */
  const One := BookView(map[10 := [1]], map[], map[1 := Bid10a], Some(10), None)
  /** After order 2: two bids at 10, oldest first. */
  const Two := BookView(map[10 := [1, 2]], map[], map[1 := Bid10a, 2 := Bid10a], Some(10), None)
  /** After order 3: the two bids and an offer at 13. */
  const Three := BookView(map[10 := [1, 2]], map[13 := [3]], map[1 := Bid10a, 2 := Bid10a, 3 := Offer13], Some(10), Some(13))

  lemma OpenOne()
    ensures ApplyNew(Empty, OrderNew(1, Bid, 10, 100)) == (One, 0) && Inv(One)
  {
    assert Nil + [1] == [1];
    EmptyInv();
    NewSteps(Empty, OrderNew(1, Bid, 10, 100));
  }

  lemma OpenTwo()
    ensures ApplyNew(One, OrderNew(2, Bid, 10, 100)) == (Two, 0) && Inv(Two)
  {
    assert [1] + [2] == [1, 2];
    assert PushBack(One.bids, 10, 2) == Two.bids;
    assert One.orders[2 := Bid10a] == Two.orders;
    OpenOne();
    NewSteps(One, OrderNew(2, Bid, 10, 100));
  }

  lemma OpenThree()
    ensures ApplyNew(Two, OrderNew(3, Offer, 13, 100)) == (Three, 0) && Inv(Three)
  {
    assert Nil + [3] == [3];
    assert PushBack(Two.offers, 13, 3) == Three.offers;
    assert Two.orders[3 := Offer13] == Three.orders;
    OpenTwo();
    NewSteps(Two, OrderNew(3, Offer, 13, 100));
  }

  // --------------------------------------------------------------- New test

  const Four := BookView(map[10 := [1, 2], 11 := [4]], map[13 := [3]],
                         Three.orders[4 := OrderView(11, 100, Bid)], Some(11), Some(13))
  const Five := BookView(map[10 := [1, 2], 11 := [4], 9 := [5]], map[13 := [3]],
                         Four.orders[5 := OrderView(9, 100, Bid)], Some(11), Some(13))

  lemma NewFour()
    ensures ApplyNew(Three, OrderNew(4, Bid, 11, 100)) == (Four, 0) && Inv(Four)
  {
    assert Nil + [4] == [4];
    assert PushBack(Three.bids, 11, 4) == Four.bids;
    OpenThree();
    NewSteps(Three, OrderNew(4, Bid, 11, 100));
  }

  /** A bid at 9 opens a level below the others; the best bid stays 11. */
  lemma FiveShape()
    ensures PushBack(Four.bids, 9, 5) == Five.bids
    ensures HighestKey(Five.bids) == Some(11)
  {
    assert Nil + [5] == [5];
    assert IsHighestKey(Some(11), Five.bids);
  }

  lemma NewFive()
    ensures ApplyNew(Four, OrderNew(5, Bid, 9, 100)) == (Five, 0) && Inv(Five)
  {
    FiveShape();
    NewFour();
    NewSteps(Four, OrderNew(5, Bid, 9, 100));
  }

  /** A new order with a fresh id and a positive quantity that crosses the
      other side is rejected with code 4 and leaves the book as it was. */
  lemma NewCrossing(v: BookView, ev: OrderNew)
    requires ev.orderId !in v.orders && ev.qty > 0 && Crosses(ev.side, ev.price, v.bestBid, v.bestOffer)
    ensures ApplyNew(v, ev) == (v, 4)
  {
  }

  /** The New test: a higher bid becomes the best, a lower one does not, a
      bid at or above the best offer and an offer at or below the best bid
      are rejected with code 4 and change nothing, a non-positive quantity
      is rejected, and a known id is rejected on either side. */
  lemma NewTest()
    ensures Three.bestBid == Some(10) && Three.bestOffer == Some(13)
    ensures ApplyNew(Three, OrderNew(4, Bid, 11, 100)).0.bestBid == Some(11)
    ensures ApplyNew(Four, OrderNew(5, Bid, 9, 100)).0.bestBid == Some(11)
    ensures ApplyNew(Five, OrderNew(6, Bid, 14, 100)) == (Five, 4)
    ensures ApplyNew(Five, OrderNew(7, Offer, 10, 100)) == (Five, 4)
    ensures ApplyNew(Five, OrderNew(8, Offer, 10, -100)).1 > 0
    ensures ApplyNew(Five, OrderNew(3, Offer, 30, 100)).1 > 0
    ensures ApplyNew(Five, OrderNew(3, Bid, 30, 100)).1 > 0
  {
    assert Five.orders.Keys == {1, 2, 3, 4, 5};
    NewCrossing(Five, OrderNew(6, Bid, 14, 100));
    NewCrossing(Five, OrderNew(7, Offer, 10, 100));
    NewFour();
    NewFive();
  }

  // ------------------------------------------------------------ Cancel test

  const NoBid2 := BookView(map[10 := [1]], map[13 := [3]], map[1 := Bid10a, 3 := Offer13], Some(10), Some(13))
  const NoBids := BookView(map[], map[13 := [3]], map[3 := Offer13], None, Some(13))
  const Offer12 := BookView(map[], map[13 := [3], 12 := [4]], map[3 := Offer13, 4 := OrderView(12, 100, Offer)], None, Some(12))

  lemma CancelTwo()
    ensures ApplyCancel(Three, OrderCancel(2)) == (NoBid2, 0) && Inv(NoBid2)
  {
    Unlinked(1, 2);
    assert Detach(Three.bids, 10, 2) == NoBid2.bids;
    assert Three.orders - {2} == NoBid2.orders;
    assert IsHighestKey(Some(10), NoBid2.bids);
    OpenThree();
    CancelSteps(Three, OrderCancel(2));
  }

  lemma CancelOne()
    ensures ApplyCancel(NoBid2, OrderCancel(1)) == (NoBids, 0) && Inv(NoBids)
  {
    assert Unlink([1], 1) == [];
    assert Detach(NoBid2.bids, 10, 1) == NoBids.bids;
    assert NoBid2.orders - {1} == NoBids.orders;
    CancelTwo();
    CancelSteps(NoBid2, OrderCancel(1));
  }

  lemma NewOffer12()
    ensures ApplyNew(NoBids, OrderNew(4, Offer, 12, 100)) == (Offer12, 0) && Inv(Offer12)
  {
    assert Nil + [4] == [4];
    assert PushBack(NoBids.offers, 12, 4) == Offer12.offers;
    assert NoBids.orders[4 := OrderView(12, 100, Offer)] == Offer12.orders;
    CancelOne();
    NewSteps(NoBids, OrderNew(4, Offer, 12, 100));
  }

  /** The Cancel test: cancelling one of two bids at the best price keeps
      the best, cancelling the last bid makes it NaN, a second cancel of the
      same id fails, and cancelling a new best offer falls back to the old one. */
  lemma CancelTest()
    ensures ApplyCancel(Three, OrderCancel(2)).0.bestBid == Some(10)
    ensures ApplyCancel(NoBid2, OrderCancel(1)) == (NoBids, 0) && NoBids.bestBid == None
    ensures ApplyCancel(NoBids, OrderCancel(1)).1 > 0
    ensures ApplyNew(NoBids, OrderNew(4, Offer, 12, 100)).0.bestOffer == Some(12)
    ensures ApplyCancel(Offer12, OrderCancel(4)) == (NoBids, 0) && NoBids.bestOffer == Some(13)
  {
    assert Unlink([4], 4) == [];
    assert Detach(Offer12.offers, 12, 4) == NoBids.offers;
    assert Offer12.orders - {4} == NoBids.orders;
    assert IsLowestKey(Some(13), NoBids.offers);
    CancelTwo();
    CancelOne();
    NewOffer12();
    CancelSteps(Offer12, OrderCancel(4));
  }

  // ------------------------------------------------------------ Modify test

  const Bid10b := OrderView(10, 101, Bid)
  const Offer13b := OrderView(13, 102, Offer)
  const Start := BookView(map[10 := [1, 2]], map[13 := [3]], map[1 := Bid10a, 2 := Bid10b, 3 := Offer13b], Some(10), Some(13))
  const Raised := BookView(map[10 := [1], 11 := [2]], map[13 := [3]],
                           map[1 := Bid10a, 2 := OrderView(11, 102, Bid), 3 := Offer13b], Some(11), Some(13))
  const Dropped := BookView(map[10 := [1]], map[13 := [3]], map[1 := Bid10a, 3 := Offer13b], Some(10), Some(13))
  const Moved := BookView(map[10 := [1]], map[14 := [3]], map[1 := Bid10a, 3 := OrderView(14, 102, Offer)], Some(10), Some(14))

  /** After order 2 of the Modify test: two bids at 10, order 2 for 101. */
  const OpeningTwo := BookView(map[10 := [1, 2]], map[], map[1 := Bid10a, 2 := Bid10b], Some(10), None)

  lemma ModifyOpenTwo()
    ensures ApplyNew(One, OrderNew(2, Bid, 10, 101)) == (OpeningTwo, 0) && Inv(OpeningTwo)
  {
    assert [1] + [2] == [1, 2];
    assert PushBack(One.bids, 10, 2) == OpeningTwo.bids;
    assert One.orders[2 := Bid10b] == OpeningTwo.orders;
    OpenOne();
    NewSteps(One, OrderNew(2, Bid, 10, 101));
  }

  lemma ModifyOpenThree()
    ensures ApplyNew(OpeningTwo, OrderNew(3, Offer, 13, 102)) == (Start, 0) && Inv(Start)
  {
    assert Nil + [3] == [3];
    assert PushBack(OpeningTwo.offers, 13, 3) == Start.offers;
    assert OpeningTwo.orders[3 := Offer13b] == Start.orders;
    ModifyOpenTwo();
    NewSteps(OpeningTwo, OrderNew(3, Offer, 13, 102));
  }

  /** The opening of the Modify test: the three new orders (quantities 100,
      101 and 102) are each accepted, starting from an empty book, and leave
      Start, with best bid 10 and best offer 13. */
  lemma ModifyOpening()
    ensures ApplyNew(Empty, OrderNew(1, Bid, 10, 100)) == (One, 0)
    ensures ApplyNew(One, OrderNew(2, Bid, 10, 101)) == (OpeningTwo, 0)
    ensures ApplyNew(OpeningTwo, OrderNew(3, Offer, 13, 102)) == (Start, 0)
    ensures Inv(Start) && Start.bestBid == Some(10) && Start.bestOffer == Some(13)
  {
    OpenOne();
    ModifyOpenTwo();
    ModifyOpenThree();
  }

  /** Re-pricing order 2 of Start to 11 moves it to a level of its own. */
  lemma RaiseShape()
    ensures PushBack(Detach(Start.bids, 10, 2), 11, 2) == Raised.bids
    ensures Start.orders[2 := OrderView(11, 102, Bid)] == Raised.orders
    ensures HighestKey(Raised.bids) == Some(11)
  {
    Unlinked(1, 2);
    var left: SideIndex := map[10 := [1]];
    assert UnlinkFrom(Start.bids, 10, 2) == left;
    assert Detach(Start.bids, 10, 2) == left;
    assert Nil + [2] == [2];
    assert PushBack(left, 11, 2) == Raised.bids;
    assert IsHighestKey(Some(11), Raised.bids);
  }

  lemma ModifyRaise()
    ensures ApplyModify(Start, OrderModify(2, 11, 102)) == (Raised, 0) && Inv(Raised)
  {
    RaiseShape();
    ModifyOpenThree();
    ModifySteps(Start, OrderModify(2, 11, 102));
  }

  /** Cancelling order 2 from Raised leaves the bid at 10 alone. */
  lemma DropShape()
    ensures Detach(Raised.bids, 11, 2) == Dropped.bids
    ensures Raised.orders - {2} == Dropped.orders
    ensures HighestKey(Dropped.bids) == Some(10)
  {
    assert Unlink([2], 2) == [];
    assert IsHighestKey(Some(10), Dropped.bids);
  }

  lemma ModifyDrop()
    ensures ApplyCancel(Raised, OrderCancel(2)) == (Dropped, 0) && Inv(Dropped)
  {
    DropShape();
    ModifyRaise();
    CancelSteps(Raised, OrderCancel(2));
  }

  /** Re-pricing order 3 of Dropped to 14 moves the only offer to 14. */
  lemma OfferMoveShape()
    ensures PushBack(Detach(Dropped.offers, 13, 3), 14, 3) == Moved.offers
    ensures Dropped.orders[3 := OrderView(14, 102, Offer)] == Moved.orders
    ensures LowestKey(Moved.offers) == Some(14)
  {
    assert Unlink([3], 3) == [];
    assert Nil + [3] == [3];
    assert IsLowestKey(Some(14), Moved.offers);
  }

  lemma ModifyMoveOffer()
    ensures ApplyModify(Dropped, OrderModify(3, 14, 102)) == (Moved, 0)
  {
    OfferMoveShape();
    ModifyDrop();
    ModifySteps(Dropped, OrderModify(3, 14, 102));
  }

  /** The Modify test: re-pricing a bid above the best makes it the best,
      cancelling it restores the old best, re-pricing the offer away from
      the bids moves the best offer, and a non-positive quantity or a price
      through the best bid is rejected. */
  lemma ModifyTest()
    ensures ApplyModify(Start, OrderModify(2, 11, 102)).0.bestBid == Some(11)
    ensures ApplyCancel(Raised, OrderCancel(2)).0.bestBid == Some(10)
    ensures ApplyModify(Dropped, OrderModify(3, 14, 102)).0.bestOffer == Some(14)
    ensures ApplyModify(Moved, OrderModify(3, 14, -102)).1 > 0
    ensures ApplyModify(Moved, OrderModify(3, -14, 102)).1 > 0
  {
    ModifyRaise();
    ModifyDrop();
    ModifyMoveOffer();
  }
}
