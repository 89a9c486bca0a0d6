/**
 * Price levels and side indices (Book.h, Order.h). A price level is the
 * arrival-ordered list of the orders resting at one price; a side index maps
 * each price that has resting orders to its level. The source keeps levels as
 * intrusive lists inside an ordered std::map; here a level is a sequence of
 * order ids and a side index a map, and the map's ordered iteration
 * (begin, rbegin, lower_bound .. upper_bound) is expressed with the least and
 * greatest keys of a set.
 */
module Levels {
  import opened Wrappers
  import opened Events
  import opened Orders

  /** The ids of the orders resting at one price, oldest first. */
  type Level = seq<OrderID>

  /** One side of the book: each price with resting orders maps to its level. */
  type SideIndex = map<Price, Level>

  ghost predicate NoDup(level: Level) {
    forall i, j :: 0 <= i < j < |level| ==> level[i] != level[j]
  }

  /** Every level is non-empty and holds each order at most once. */
  ghost predicate LevelsOK(ol: SideIndex) {
    forall p :: p in ol ==> ol[p] != [] && NoDup(ol[p])
  }

  /** Every order of every level is known, rests on side s and at that level's price. */
  ghost predicate LinkedTo(ol: SideIndex, orders: map<OrderID, OrderView>, s: Side) {
    forall p, id {:trigger id in ol[p]} :: p in ol && id in ol[p] ==> id in orders && orders[id].price == p && orders[id].side == s
  }

  // ---------------------------------------------------------------- unlink

  /** Removes an order from the level that holds it (Order::unlink). */
  function Unlink(level: Level, id: OrderID): (r: Level)
    ensures id !in r
  {
    if level == [] then []
    else if level[0] == id then Unlink(level[1..], id)
    else [level[0]] + Unlink(level[1..], id)
  }

  /** Unlinking removes exactly the given order: every other order of the
      level stays, and a level without it is returned unchanged. */
  lemma {:induction false} UnlinkMembers(level: Level, id: OrderID)
    ensures forall x :: x in Unlink(level, id) <==> x in level && x != id
    ensures id !in level ==> Unlink(level, id) == level
  {
    if level != [] {
      UnlinkMembers(level[1..], id);
      assert level == [level[0]] + level[1..];
    }
  }

  lemma NoDupTail(level: Level)
    requires NoDup(level) && level != []
    ensures NoDup(level[1..]) && level[0] !in level[1..]
  {
  }

  lemma NoDupCons(x: OrderID, level: Level)
    requires NoDup(level) && x !in level
    ensures NoDup([x] + level)
  {
    var l := [x] + level;
    forall i, j | 0 <= i < j < |l| ensures l[i] != l[j] {
      assert l[j] == level[j - 1];
      if i > 0 {
        assert l[i] == level[i - 1];
      }
    }
  }

  /** Unlinking keeps a level duplicate free, and shortens it by one when the
      order was linked there. */
  lemma {:induction false} UnlinkNoDup(level: Level, id: OrderID)
    requires NoDup(level)
    ensures NoDup(Unlink(level, id))
    ensures id in level ==> |Unlink(level, id)| == |level| - 1
  {
    if level != [] {
      NoDupTail(level);
      UnlinkNoDup(level[1..], id);
      UnlinkMembers(level[1..], id);
      if level[0] != id {
        NoDupCons(level[0], Unlink(level[1..], id));
        assert id in level ==> id in level[1..];
      }
    }
  }

  /** Unlinking an order that occurs once removes just that occurrence. */
  lemma {:induction false} UnlinkSplit(a: Level, b: Level, id: OrderID)
    requires id !in a
    ensures Unlink(a + [id] + b, id) == a + Unlink(b, id)
  {
    if a == [] {
      assert (a + [id] + b)[1..] == b;
    } else {
      assert (a + [id] + b)[1..] == a[1..] + [id] + b;
      UnlinkSplit(a[1..], b, id);
      assert a == [a[0]] + a[1..];
    }
  }

  /** Unlinking the order at position k of a level closes the gap: every
      other order keeps its place relative to the rest. */
  lemma UnlinkAt(level: Level, k: nat)
    requires NoDup(level) && k < |level|
    ensures Unlink(level, level[k]) == level[..k] + level[k + 1..]
  {
    var id := level[k];
    assert level == level[..k] + [id] + level[k + 1..];
    assert id !in level[..k];
    assert id !in level[k + 1..];
    UnlinkSplit(level[..k], level[k + 1..], id);
    UnlinkMembers(level[k + 1..], id);
  }

  /** Unlinks an order from the level at price p, if that level exists. */
  function UnlinkFrom(ol: SideIndex, p: Price, id: OrderID): (r: SideIndex)
    ensures r.Keys == ol.Keys
    ensures p in ol ==> r[p] == Unlink(ol[p], id)
    ensures forall q :: q in ol && q != p ==> r[q] == ol[q]
  {
    if p in ol then ol[p := Unlink(ol[p], id)] else ol
  }

  // ------------------------------------------------------ insertion, removal

  /** Appends an order to the tail of the level at price p, creating the level
      when the price has none (the level handling of Book::processNewOrder). */
  function PushBack(ol: SideIndex, p: Price, id: OrderID): (r: SideIndex)
    ensures r.Keys == ol.Keys + {p}
    ensures r[p] == (if p in ol then ol[p] else []) + [id]
    ensures forall q :: q in ol && q != p ==> r[q] == ol[q]
  {
    ol[p := (if p in ol then ol[p] else []) + [id]]
  }

  /** Drops the level at price p when it has become empty (Book::cleanLevel). */
  function CleanLevel(ol: SideIndex, p: Price): (r: SideIndex)
    ensures p in r <==> p in ol && ol[p] != []
    ensures forall q :: q != p ==> (q in r <==> q in ol)
    ensures forall q :: q in r ==> q in ol && r[q] == ol[q]
  {
    if p in ol && ol[p] == [] then ol - {p} else ol
  }

  /** Unlinks an order from its level at price p, then cleans that level. */
  function Detach(ol: SideIndex, p: Price, id: OrderID): SideIndex {
    CleanLevel(UnlinkFrom(ol, p, id), p)
  }

  /** nl is ol with order id taken out of the level at p, and that level
      dropped exactly when id was the only order in it. */
  ghost predicate RemovedAt(ol: SideIndex, nl: SideIndex, p: Price, id: OrderID)
    requires p in ol
  {
    && (p in nl <==> |ol[p]| > 1)
    && (p in nl ==> nl[p] == Unlink(ol[p], id))
  }

  /** nl and ol agree on every price outside ps. */
  ghost predicate SameExcept(ol: SideIndex, nl: SideIndex, ps: set<Price>) {
    forall q :: q !in ps ==> (q in nl <==> q in ol) && (q in nl ==> nl[q] == ol[q])
  }

  lemma DetachShape(ol: SideIndex, p: Price, id: OrderID)
    requires LevelsOK(ol) && p in ol && id in ol[p]
    ensures RemovedAt(ol, Detach(ol, p, id), p, id)
    ensures SameExcept(ol, Detach(ol, p, id), {p})
  {
    UnlinkNoDup(ol[p], id);
  }

  /** Moving an order from the level at p to the tail of the level at
      another price np touches those two levels only. */
  lemma MoveShape(ol: SideIndex, p: Price, np: Price, id: OrderID)
    requires LevelsOK(ol) && p in ol && id in ol[p] && np != p
    ensures var nl := PushBack(Detach(ol, p, id), np, id);
      && RemovedAt(ol, nl, p, id)
      && np in nl
      && nl[np] == (if np in ol then ol[np] else []) + [id]
      && SameExcept(ol, nl, {p, np})
  {
    DetachShape(ol, p, id);
    var dl := Detach(ol, p, id);
    var nl := PushBack(dl, np, id);
    forall q | q !in {p, np}
      ensures (q in nl <==> q in ol) && (q in nl ==> nl[q] == ol[q])
    {
      assert q !in {p};
    }
  }

  // ------------------------------------------------------- side invariant

  /** Every order of side s rests in the level of its price. */
  ghost predicate Covered(ol: SideIndex, orders: map<OrderID, OrderView>, s: Side) {
    forall id :: id in orders && orders[id].side == s ==>
      orders[id].price in ol && id in ol[orders[id].price]
  }

  /** One side of the book agrees with the order index: its levels are
      sound, hold only orders of side s at their own price, and hold every
      such order. */
  ghost predicate SideOK(ol: SideIndex, orders: map<OrderID, OrderView>, s: Side) {
    LevelsOK(ol) && LinkedTo(ol, orders, s) && Covered(ol, orders, s)
  }

  lemma NoDupSnoc(level: Level, id: OrderID)
    requires NoDup(level) && id !in level
    ensures NoDup(level + [id])
  {
    var l := level + [id];
    forall i, j | 0 <= i < j < |l| ensures l[i] != l[j] {
      if j == |level| {
        assert l[i] == level[i];
      } else {
        assert l[i] == level[i] && l[j] == level[j];
      }
    }
  }

  /** Appending a new order of side s to its level keeps the side sound. */
  lemma SideAttach(ol: SideIndex, orders: map<OrderID, OrderView>, s: Side, id: OrderID, o: OrderView)
    requires SideOK(ol, orders, s) && id !in orders && o.side == s
    ensures SideOK(PushBack(ol, o.price, id), orders[id := o], s)
  {
    var p := o.price;
    var nl := PushBack(ol, p, id);
    var no := orders[id := o];
    var before := if p in ol then ol[p] else [];
    if p in ol {
      NoDupSnoc(ol[p], id);
    }
    assert LevelsOK(nl);
    forall q, x | q in nl && x in nl[q]
      ensures x in no && no[x].price == q && no[x].side == s
    {
      if q != p {
        assert x in ol[q];
      } else if x != id {
        assert x in before;
      }
    }
    forall x | x in no && no[x].side == s
      ensures no[x].price in nl && x in nl[no[x].price]
    {
      if x != id {
        var q := orders[x].price;
        assert x in ol[q];
        if q == p {
          assert nl[q] == ol[q] + [id];
        }
      }
    }
  }

  /** Unlinking and cleaning keeps every level sound and linked, while the
      order index is not yet updated. */
  lemma DetachSound(ol: SideIndex, orders: map<OrderID, OrderView>, s: Side, p: Price, id: OrderID)
    requires LevelsOK(ol) && LinkedTo(ol, orders, s)
    ensures LevelsOK(Detach(ol, p, id)) && LinkedTo(Detach(ol, p, id), orders, s)
  {
    var nl := Detach(ol, p, id);
    if p in ol {
      UnlinkNoDup(ol[p], id);
      UnlinkMembers(ol[p], id);
    }
    forall q, x | q in nl && x in nl[q]
      ensures x in orders && orders[x].price == q && orders[x].side == s
    {
      assert x in ol[q];
    }
  }

  /** The front order of every level is indexed at that level's price:
      what a refresh of a cached best reads. */
  ghost predicate FrontsPriced(ol: SideIndex, orders: map<OrderID, OrderView>) {
    forall p :: p in ol ==> ol[p] != [] && ol[p][0] in orders && orders[ol[p][0]].price == p
  }

  lemma SideFronts(ol: SideIndex, orders: map<OrderID, OrderView>, s: Side)
    requires LevelsOK(ol) && LinkedTo(ol, orders, s)
    ensures FrontsPriced(ol, orders)
  {
    forall p | p in ol
      ensures ol[p] != [] && ol[p][0] in orders && orders[ol[p][0]].price == p
    {
      assert ol[p][0] in ol[p];
    }
  }

  /** Indexing an order of the other side leaves side s sound. */
  lemma SideAttachOther(ol: SideIndex, orders: map<OrderID, OrderView>, s: Side, id: OrderID, o: OrderView)
    requires SideOK(ol, orders, s) && id !in orders && o.side != s
    ensures SideOK(ol, orders[id := o], s)
  {
    var no := orders[id := o];
    forall q, x | q in ol && x in ol[q]
      ensures x in no && no[x].price == q && no[x].side == s
    {
      assert x in orders;
    }
  }

  /** Unlinking an order of side s and cleaning its level keeps the side
      sound once the order leaves the index. */
  lemma SideDetach(ol: SideIndex, orders: map<OrderID, OrderView>, s: Side, id: OrderID)
    requires SideOK(ol, orders, s) && id in orders && orders[id].side == s
    ensures SideOK(Detach(ol, orders[id].price, id), orders - {id}, s)
  {
    var p := orders[id].price;
    var ul := UnlinkFrom(ol, p, id);
    var nl := CleanLevel(ul, p);
    var no := orders - {id};
    assert nl == Detach(ol, p, id);
    assert p in ol;
    UnlinkNoDup(ol[p], id);
    UnlinkMembers(ol[p], id);
    forall q | q in nl
      ensures nl[q] != [] && NoDup(nl[q])
    {
      assert nl[q] == ul[q];
    }
    forall q, x | q in nl && x in nl[q]
      ensures x in no && no[x].price == q && no[x].side == s
    {
      assert nl[q] == ul[q];
      assert x in ol[q];
    }
    forall x | x in no && no[x].side == s
      ensures no[x].price in nl && x in nl[no[x].price]
    {
      var q := orders[x].price;
      assert x in ol[q];
      assert x in ul[q];
    }
  }

  /** Dropping an order of the other side from the index leaves side s sound. */
  lemma SideDetachOther(ol: SideIndex, orders: map<OrderID, OrderView>, s: Side, id: OrderID)
    requires SideOK(ol, orders, s) && id in orders && orders[id].side != s
    ensures SideOK(ol, orders - {id}, s)
  {
    var no := orders - {id};
    forall q, x | q in ol && x in ol[q]
      ensures x in no && no[x].price == q && no[x].side == s
    {
      assert x in orders;
    }
  }

  /** A new quantity for a known order leaves every side sound. */
  lemma SideRequantify(ol: SideIndex, orders: map<OrderID, OrderView>, s: Side, id: OrderID, q: Qty)
    requires SideOK(ol, orders, s) && id in orders
    ensures SideOK(ol, orders[id := orders[id].(qty := q)], s)
  {
    var no := orders[id := orders[id].(qty := q)];
    forall p, x | p in ol && x in ol[p]
      ensures x in no && no[x].price == p && no[x].side == s
    {
      assert x in orders;
    }
  }

  // --------------------------------------------------------- extreme prices

  /** A non-empty set of prices has an element to pick. */
  lemma Inhabited(s: set<Price>)
    requires s != {}
    ensures exists x :: x in s
  {
    if forall x :: x !in s {
      assert false;
    }
  }

  lemma {:induction false} HasMax(s: set<Price>)
    requires s != {}
    ensures exists m :: m in s && forall y :: y in s ==> y <= m
    decreases s
  {
    Inhabited(s);
    var x :| x in s;
    var rest := s - {x};
    if rest == {} {
      forall y | y in s ensures y <= x {
        assert y == x || y in rest;
      }
    } else {
      HasMax(rest);
      var r :| r in rest && forall y :: y in rest ==> y <= r;
      var m := if x > r then x else r;
      forall y | y in s ensures y <= m {
        assert y == x || y in rest;
      }
      assert m in s;
    }
  }

  lemma {:induction false} HasMin(s: set<Price>)
    requires s != {}
    ensures exists m :: m in s && forall y :: y in s ==> m <= y
    decreases s
  {
    Inhabited(s);
    var x :| x in s;
    var rest := s - {x};
    if rest == {} {
      forall y | y in s ensures x <= y {
        assert y == x || y in rest;
      }
    } else {
      HasMin(rest);
      var r :| r in rest && forall y :: y in rest ==> r <= y;
      var m := if x < r then x else r;
      forall y | y in s ensures m <= y {
        assert y == x || y in rest;
      }
      assert m in s;
    }
  }

  ghost function MaxOf(s: set<Price>): (m: Price)
    requires s != {}
    ensures m in s && forall x :: x in s ==> x <= m
  {
    HasMax(s);
    var m :| m in s && forall y :: y in s ==> y <= m;
    m
  }

  ghost function MinOf(s: set<Price>): (m: Price)
    requires s != {}
    ensures m in s && forall x :: x in s ==> m <= x
  {
    HasMin(s);
    var m :| m in s && forall y :: y in s ==> m <= y;
    m
  }

  /** b is the greatest price of ol, or None exactly when ol is empty. */
  ghost predicate IsHighestKey(b: Option<Price>, ol: SideIndex) {
    match b
    case None => ol.Keys == {}
    case Some(k) => k in ol && forall q :: q in ol ==> q <= k
  }

  /** b is the least price of ol, or None exactly when ol is empty. */
  ghost predicate IsLowestKey(b: Option<Price>, ol: SideIndex) {
    match b
    case None => ol.Keys == {}
    case Some(k) => k in ol && forall q :: q in ol ==> k <= q
  }

  ghost function HighestKey(ol: SideIndex): (b: Option<Price>)
    ensures IsHighestKey(b, ol)
    ensures forall c :: IsHighestKey(c, ol) ==> c == b
  {
    if ol.Keys == {} then None else Some(MaxOf(ol.Keys))
  }

  ghost function LowestKey(ol: SideIndex): (b: Option<Price>)
    ensures IsLowestKey(b, ol)
    ensures forall c :: IsLowestKey(c, ol) ==> c == b
  {
    if ol.Keys == {} then None else Some(MinOf(ol.Keys))
  }

  /** Adding the level at p moves the greatest price to p exactly when p
      beats the old one (or the side was empty). */
  lemma HighestAfterPush(ol: SideIndex, b: Option<Price>, p: Price, id: OrderID)
    requires IsHighestKey(b, ol)
    ensures HighestKey(PushBack(ol, p, id)) == Some(if b.None? || p > b.value then p else b.value)
  {
    var c := Some(if b.None? || p > b.value then p else b.value);
    assert IsHighestKey(c, PushBack(ol, p, id));
  }

  /** Adding the level at p moves the least price to p exactly when p beats
      the old one (or the side was empty). */
  lemma LowestAfterPush(ol: SideIndex, b: Option<Price>, p: Price, id: OrderID)
    requires IsLowestKey(b, ol)
    ensures LowestKey(PushBack(ol, p, id)) == Some(if b.None? || p < b.value then p else b.value)
  {
    var c := Some(if b.None? || p < b.value then p else b.value);
    assert IsLowestKey(c, PushBack(ol, p, id));
  }

  /** A price b that was the greatest stays the greatest of any index that
      still has it and gains no other price. */
  lemma KeepHighest(ol: SideIndex, nl: SideIndex, b: Price)
    requires IsHighestKey(Some(b), ol) && b in nl
    requires forall q :: q in nl ==> q in ol
    ensures HighestKey(nl) == Some(b)
  {
    assert IsHighestKey(Some(b), nl);
  }

  /** A price b that was the least stays the least of any index that still
      has it and gains no other price. */
  lemma KeepLowest(ol: SideIndex, nl: SideIndex, b: Price)
    requires IsLowestKey(Some(b), ol) && b in nl
    requires forall q :: q in nl ==> q in ol
    ensures LowestKey(nl) == Some(b)
  {
    assert IsLowestKey(Some(b), nl);
  }

  /** The greatest price of a non-empty set of prices (std::map::rbegin). */
  method Highest(keys: set<Price>) returns (k: Price)
    requires keys != {}
    ensures k in keys && forall q :: q in keys ==> q <= k
  {
    Inhabited(keys);
    k :| k in keys;
    var rest := keys - {k};
    while rest != {}
      invariant rest <= keys && k in keys
      invariant forall q :: q in keys && q !in rest ==> q <= k
      decreases rest
    {
      Inhabited(rest);
      var q :| q in rest;
      if q > k {
        k := q;
      }
      rest := rest - {q};
    }
  }

  /** The least price of a non-empty set of prices (std::map::begin). */
  method Lowest(keys: set<Price>) returns (k: Price)
    requires keys != {}
    ensures k in keys && forall q :: q in keys ==> k <= q
  {
    Inhabited(keys);
    k :| k in keys;
    var rest := keys - {k};
    while rest != {}
      invariant rest <= keys && k in keys
      invariant forall q :: q in keys && q !in rest ==> k <= q
      decreases rest
    {
      Inhabited(rest);
      var q :| q in rest;
      if q < k {
        k := q;
      }
      rest := rest - {q};
    }
  }

  // ------------------------------------------------------ ordered traversal

  /** The orders of the levels at the given prices, in ascending price order
      and, within a price, in arrival order. */
  ghost function Flatten(ol: SideIndex, keys: set<Price>): (r: Level)
    requires keys <= ol.Keys
    ensures forall k, id {:trigger id in ol[k], id in r} :: k in keys && id in ol[k] ==> id in r
    decreases keys
  {
    if keys == {} then []
    else
      var m := MinOf(keys);
      ol[m] + Flatten(ol, keys - {m})
  }

  /** Traversal visits the least remaining price first. */
  lemma FlattenStep(ol: SideIndex, keys: set<Price>, k: Price)
    requires keys <= ol.Keys && k in keys
    requires forall q :: q in keys ==> k <= q
    ensures Flatten(ol, keys) == ol[k] + Flatten(ol, keys - {k})
  {
    assert MinOf(keys) == k;
  }

  /** The traversal holds the orders of exactly the visited levels. */
  lemma {:induction false} FlattenMembers(ol: SideIndex, keys: set<Price>, orders: map<OrderID, OrderView>, s: Side)
    requires keys <= ol.Keys && LinkedTo(ol, orders, s)
    ensures forall id :: id in Flatten(ol, keys) ==>
              id in orders && orders[id].side == s && orders[id].price in keys
    ensures forall p, id :: p in keys && id in ol[p] ==> id in Flatten(ol, keys)
    decreases keys
  {
    if keys != {} {
      var m := MinOf(keys);
      FlattenMembers(ol, keys - {m}, orders, s);
    }
  }

  /** No level of ol is priced strictly between a and b. */
  predicate NoneBetween(ol: SideIndex, a: Price, b: Price) {
    forall k :: k in ol ==> k <= a || b <= k
  }

  /** The orders of a list have non-decreasing prices. */
  ghost predicate Ascending(ids: Level, orders: map<OrderID, OrderView>) {
    forall i, j :: 0 <= i < j < |ids| ==>
      ids[i] in orders && ids[j] in orders && orders[ids[i]].price <= orders[ids[j]].price
  }

  /** A level at price m followed by an ascending list priced at m or
      above is ascending. */
  lemma AscendingConcat(a: Level, b: Level, orders: map<OrderID, OrderView>, m: Price)
    requires forall id :: id in a ==> id in orders && orders[id].price == m
    requires forall id :: id in b ==> id in orders && m <= orders[id].price
    requires Ascending(b, orders)
    ensures Ascending(a + b, orders)
  {
    var f := a + b;
    forall i, j | 0 <= i < j < |f|
      ensures f[i] in orders && f[j] in orders && orders[f[i]].price <= orders[f[j]].price
    {
      if j < |a| {
        assert f[i] == a[i] && f[j] == a[j];
      } else if i < |a| {
        assert f[i] == a[i] && f[j] == b[j - |a|];
      } else {
        assert f[i] == b[i - |a|] && f[j] == b[j - |a|];
      }
    }
  }

  /** The traversal lists orders by non-decreasing price. */
  lemma {:induction false} FlattenAscending(ol: SideIndex, keys: set<Price>, orders: map<OrderID, OrderView>, s: Side)
    requires keys <= ol.Keys && LinkedTo(ol, orders, s)
    ensures Ascending(Flatten(ol, keys), orders)
    decreases keys
  {
    if keys != {} {
      var m := MinOf(keys);
      var rest := Flatten(ol, keys - {m});
      var f := Flatten(ol, keys);
      assert f == ol[m] + rest;
      FlattenAscending(ol, keys - {m}, orders, s);
      FlattenMembers(ol, keys - {m}, orders, s);
      assert forall id :: id in ol[m] ==> id in orders && orders[id].price == m;
      assert forall id :: id in rest ==> id in orders && m <= orders[id].price;
      AscendingConcat(ol[m], rest, orders, m);
    } else {
      assert Flatten(ol, keys) == [];
    }
  }

  /** The orders of a list that rest at price k, in list order. */
  ghost function AtPrice(ids: Level, orders: map<OrderID, OrderView>, k: Price): Level {
    if ids == [] then []
    else (if ids[0] in orders && orders[ids[0]].price == k then [ids[0]] else []) + AtPrice(ids[1..], orders, k)
  }

  lemma {:induction false} AtPriceConcat(a: Level, b: Level, orders: map<OrderID, OrderView>, k: Price)
    ensures AtPrice(a + b, orders, k) == AtPrice(a, orders, k) + AtPrice(b, orders, k)
  {
    if a != [] {
      assert (a + b)[1..] == a[1..] + b;
      AtPriceConcat(a[1..], b, orders, k);
    } else {
      assert a + b == b;
    }
  }

  lemma {:induction false} AtPriceUniform(level: Level, orders: map<OrderID, OrderView>, m: Price, k: Price)
    requires forall id :: id in level ==> id in orders && orders[id].price == m
    ensures AtPrice(level, orders, k) == if k == m then level else []
  {
    if level != [] {
      assert level[0] in level;
      AtPriceUniform(level[1..], orders, m, k);
      if k == m {
        assert level == [level[0]] + level[1..];
      }
    }
  }

  /** Restricted to one price, the traversal is that price's level in arrival
      order, or nothing when the price was not visited. */
  lemma {:induction false} FlattenAtPrice(ol: SideIndex, keys: set<Price>, orders: map<OrderID, OrderView>, s: Side, k: Price)
    requires keys <= ol.Keys && LinkedTo(ol, orders, s)
    ensures AtPrice(Flatten(ol, keys), orders, k) == if k in keys then ol[k] else []
    decreases keys
  {
    if keys != {} {
      var m := MinOf(keys);
      AtPriceConcat(ol[m], Flatten(ol, keys - {m}), orders, k);
      AtPriceUniform(ol[m], orders, m, k);
      FlattenAtPrice(ol, keys - {m}, orders, s, k);
    }
  }
}
