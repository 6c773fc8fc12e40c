/** The tables and the session the cart controller works on, as one object,
    and the controller's actions as methods. The caller is `auth`: a user
    id when signed in, None for a guest. */
module CartStore {
  import opened Shop
  import opened SessionCart
  import opened Orders

  /** The controller's answers: success, a failed validation (422), a
      missing cart, item or order (404), too little stock (400), an order
      that cannot be cancelled (400), and checkout's two successes: the
      order placed, or the order handed to the online payment. */
  datatype Outcome = Ok | Invalid | NotFound | Insufficient | NotCancellable | Placed(orderId: int) | PayOnline(orderId: int)

  class Store {
    /** `products` and `product_variants`, which the cart only reads. */
    var goods: Goods
    /** `orders`, in key order. */
    var orders: seq<OrderRow>
    /** `order_items`, in key order. */
    var items: seq<Item>
    /** The guest's session `cart`. */
    var session: seq<Line>
    /** The next auto-increment keys. */
    var nextOrderId: int
    var nextItemId: int

    ghost predicate Valid()
      reads this
    {
      OrderIdsBelow(orders, nextOrderId) && ItemOrdersBelow(items, nextOrderId) && DistinctKeys(session)
    }

    /** No orders and an empty session over the given catalogue. */
    constructor (goods: Goods)
      ensures Valid()
      ensures this.goods == goods && orders == [] && items == [] && session == []
    {
      this.goods := goods;
      orders := [];
      items := [];
      session := [];
      nextOrderId := 1;
      nextItemId := 1;
    }

    /** `addToCart`. Validation rejects a quantity below 1 and a product or
        variant that does not exist; the stock check rejects more than is
        available. A guest's line is merged into the session; a signed-in
        user's open order is found or created, the item for the pair gains
        `q` at the current price, and the total grows by that price times
        `q`. */
    method AddToCart(auth: Option<int>, productId: int, variantId: Option<int>, q: int) returns (res: Outcome)
      requires Valid()
      modifies this`orders, this`items, this`session, this`nextOrderId, this`nextItemId
      ensures Valid() && Evolves(old(orders), orders)
      ensures res == Ok || res == Invalid || res == Insufficient
      ensures res == Invalid <==> q < 1 || productId !in goods.products || (variantId.Some? && variantId.value !in goods.variants)
      ensures res == Insufficient <==> res != Invalid && q > Available(goods, productId, variantId)
      ensures res != Ok ==>
                orders == old(orders) && items == old(items) && session == old(session) &&
                nextOrderId == old(nextOrderId) && nextItemId == old(nextItemId)
      ensures res == Ok && auth.None? ==>
                session == Merged(old(session), productId, variantId, q, ListedPrice(goods, productId, variantId)) &&
                orders == old(orders) && items == old(items) &&
                nextOrderId == old(nextOrderId) && nextItemId == old(nextItemId)
      ensures res == Ok && auth.Some? ==>
                var o := FirstOrCreate(old(orders), auth.value, old(nextOrderId));
                var oid := o.orders[o.k].id;
                var price := ProductPrice(goods, productId, variantId);
                orders == o.orders[o.k := o.orders[o.k].(total := o.orders[o.k].total + price * q)] &&
                nextOrderId == o.next &&
                items == Bumped(old(items), oid, productId, variantId, q, price, old(nextItemId)) &&
                nextItemId == old(nextItemId) + (if KeyAt(old(items), oid, productId, variantId).None? then 1 else 0) &&
                session == old(session) &&
                Drift(orders, items, o.k) ==
                  Drift(o.orders, old(items), o.k) - Repricing(old(items), oid, productId, variantId, price)
    {
      if q < 1 || productId !in goods.products || (variantId.Some? && variantId.value !in goods.variants) {
        return Invalid;
      }
      if q > Available(goods, productId, variantId) {
        return Insufficient;
      }
      AddChecked(auth, productId, variantId, q);
      return Ok;
    }

    /** `addToCart` once the request has passed its checks. */
    method AddChecked(auth: Option<int>, productId: int, variantId: Option<int>, q: int)
      requires Valid()
      requires productId in goods.products && (variantId.Some? ==> variantId.value in goods.variants)
      modifies this`orders, this`items, this`session, this`nextOrderId, this`nextItemId
      ensures Valid() && Evolves(old(orders), orders)
      ensures auth.None? ==>
                session == Merged(old(session), productId, variantId, q, ListedPrice(goods, productId, variantId)) &&
                orders == old(orders) && items == old(items) &&
                nextOrderId == old(nextOrderId) && nextItemId == old(nextItemId)
      ensures auth.Some? ==>
                var o := FirstOrCreate(old(orders), auth.value, old(nextOrderId));
                var oid := o.orders[o.k].id;
                var price := ProductPrice(goods, productId, variantId);
                orders == o.orders[o.k := o.orders[o.k].(total := o.orders[o.k].total + price * q)] &&
                nextOrderId == o.next &&
                items == Bumped(old(items), oid, productId, variantId, q, price, old(nextItemId)) &&
                nextItemId == old(nextItemId) + (if KeyAt(old(items), oid, productId, variantId).None? then 1 else 0) &&
                session == old(session) &&
                Drift(orders, items, o.k) ==
                  Drift(o.orders, old(items), o.k) - Repricing(old(items), oid, productId, variantId, price)
    {
      if auth.Some? {
        AddForUser(auth.value, productId, variantId, q);
      } else {
        AddForGuest(productId, variantId, q, ListedPrice(goods, productId, variantId));
      }
    }

    /** The guest branch of `addToCart`, after the checks. */
    method AddForGuest(productId: int, variantId: Option<int>, q: int, price: int)
      requires DistinctKeys(session)
      modifies this`session
      ensures DistinctKeys(session)
      ensures session == Merged(old(session), productId, variantId, q, price)
    {
      session := AddLine(session, productId, variantId, q, price);
      MergedDistinct(old(session), productId, variantId, q, price);
    }

    /** The signed-in branch of `addToCart`, after the checks. */
    method AddForUser(user: int, productId: int, variantId: Option<int>, q: int)
      requires Valid()
      modifies this`orders, this`items, this`nextOrderId, this`nextItemId
      ensures Valid() && Evolves(old(orders), orders)
      ensures var o := FirstOrCreate(old(orders), user, old(nextOrderId));
              var oid := o.orders[o.k].id;
              var price := ProductPrice(goods, productId, variantId);
              orders == o.orders[o.k := o.orders[o.k].(total := o.orders[o.k].total + price * q)] &&
              nextOrderId == o.next &&
              items == Bumped(old(items), oid, productId, variantId, q, price, old(nextItemId)) &&
              nextItemId == old(nextItemId) + (if KeyAt(old(items), oid, productId, variantId).None? then 1 else 0) &&
              Drift(orders, items, o.k) ==
                Drift(o.orders, old(items), o.k) - Repricing(old(items), oid, productId, variantId, price)
    {
      var o := FirstOrCreate(orders, user, nextOrderId);
      orders, nextOrderId := o.orders, o.next;
      AddToOpen(o.k, productId, variantId, q, ProductPrice(goods, productId, variantId));
      EvolvesTrans(old(orders), o.orders, orders);
    }

    /** The item upsert and the total update on the order at `k`. */
    method AddToOpen(k: nat, productId: int, variantId: Option<int>, q: int, price: int)
      requires Valid() && k < |orders|
      modifies this`orders, this`items, this`nextItemId
      ensures Valid() && Evolves(old(orders), orders)
      ensures var oid := old(orders)[k].id;
              orders == old(orders)[k := old(orders)[k].(total := old(orders)[k].total + price * q)] &&
              items == Bumped(old(items), oid, productId, variantId, q, price, old(nextItemId)) &&
              nextItemId == old(nextItemId) + (if KeyAt(old(items), oid, productId, variantId).None? then 1 else 0) &&
              Drift(orders, items, k) == Drift(old(orders), old(items), k) - Repricing(old(items), oid, productId, variantId, price)
    {
      var oid := orders[k].id;
      AddItem(oid, productId, variantId, q, price);
      orders := orders[k := orders[k].(total := orders[k].total + price * q)];
      BumpedSum(old(items), oid, productId, variantId, q, price, old(nextItemId), oid);
    }

    /** `OrderItem::updateOrCreate` keyed by (order, product, variant), with
        `quantity + q` and the given price. */
    method AddItem(orderId: int, productId: int, variantId: Option<int>, q: int, price: int)
      requires ItemOrdersBelow(items, nextOrderId) && orderId < nextOrderId
      modifies this`items, this`nextItemId
      ensures ItemOrdersBelow(items, nextOrderId)
      ensures items == Bumped(old(items), orderId, productId, variantId, q, price, old(nextItemId))
      ensures nextItemId == old(nextItemId) + (if KeyAt(old(items), orderId, productId, variantId).None? then 1 else 0)
    {
      match KeyAt(items, orderId, productId, variantId)
      case Some(j) =>
        items := items[j := items[j].(quantity := items[j].quantity + q, price := price)];
      case None =>
        items := items + [Item(nextItemId, orderId, productId, variantId, q, price)];
        nextItemId := nextItemId + 1;
    }

    /** `updateCart`. A guest names a product: its first session line takes
        the quantity if the stock allows. A signed-in user names an item of
        the open order: the total loses the item's old amount and gains the
        new one. A rejection changes nothing. */
    method UpdateCart(auth: Option<int>, itemId: int, q: int) returns (res: Outcome)
      requires Valid()
      modifies this`orders, this`items, this`session
      ensures Valid() && Evolves(old(orders), orders)
      ensures res == Ok || res == Invalid || res == NotFound || res == Insufficient
      ensures res == Invalid <==> q < 1
      ensures res != Ok ==> orders == old(orders) && items == old(items) && session == old(session)
      ensures auth.None? && q >= 1 ==>
                var r := Requantified(goods, old(session), itemId, q);
                res == (if r.None? then Insufficient else Ok) &&
                (r.Some? ==> session == r.value && orders == old(orders) && items == old(items))
      ensures auth.Some? && q >= 1 ==>
                var k := OpenOrder(old(orders), auth.value);
                (k.None? ==> res == NotFound) &&
                (k.Some? ==>
                  var j := ItemAt(old(items), old(orders)[k.value].id, itemId);
                  (j.None? ==> res == NotFound) &&
                  (j.Some? ==>
                    var it := old(items)[j.value];
                    res == (if q > Available(goods, it.productId, it.variantId) then Insufficient else Ok) &&
                    (res == Ok ==>
                      items == old(items)[j.value := it.(quantity := q)] &&
                      orders == old(orders)[k.value := old(orders)[k.value].(total := old(orders)[k.value].total - it.price * it.quantity + it.price * q)] &&
                      session == old(session) &&
                      Drift(orders, items, k.value) == Drift(old(orders), old(items), k.value))))
    {
      if q < 1 {
        return Invalid;
      }
      if auth.Some? {
        var k := OpenOrder(orders, auth.value);
        if k.None? {
          return NotFound;
        }
        var oid := orders[k.value].id;
        var j := ItemAt(items, oid, itemId);
        if j.None? {
          return NotFound;
        }
        var it := items[j.value];
        if q > Available(goods, it.productId, it.variantId) {
          return Insufficient;
        }
        SetItemQuantity(k.value, j.value, q);
      } else {
        var r := SetLineQuantity(goods, session, itemId, q);
        if r.None? {
          return Insufficient;
        }
        RequantifiedDistinct(goods, session, itemId, q);
        session := r.value;
      }
      return Ok;
    }

    /** The signed-in steps of `updateCart` on item `j` of the order at `k`:
        the total loses the item's amount, the item takes the quantity, the
        total gains the new amount. */
    method SetItemQuantity(k: nat, j: nat, q: int)
      requires Valid() && k < |orders| && j < |items| && items[j].orderId == orders[k].id
      modifies this`orders, this`items
      ensures Valid() && Evolves(old(orders), orders)
      ensures var it := old(items)[j];
              items == old(items)[j := it.(quantity := q)] &&
              orders == old(orders)[k := old(orders)[k].(total := old(orders)[k].total - it.price * it.quantity + it.price * q)] &&
              Drift(orders, items, k) == Drift(old(orders), old(items), k)
    {
      var it := items[j];
      orders := orders[k := orders[k].(total := orders[k].total - it.price * it.quantity)];
      items := items[j := it.(quantity := q)];
      orders := orders[k := orders[k].(total := orders[k].total + it.price * q)];
      OrderSumUpdate(old(items), j, it.(quantity := q), it.orderId);
    }

    /** `removeFromCart`. A guest loses every session line of the product;
        a signed-in user loses the item of the open order, and the total
        loses the item's amount. */
    method RemoveFromCart(auth: Option<int>, itemId: int) returns (res: Outcome)
      requires Valid()
      modifies this`orders, this`items, this`session
      ensures Valid() && Evolves(old(orders), orders)
      ensures res == Ok || res == NotFound
      ensures res != Ok ==> orders == old(orders) && items == old(items) && session == old(session)
      ensures auth.None? ==>
                res == Ok && session == Without(old(session), itemId) && orders == old(orders) && items == old(items)
      ensures auth.Some? ==>
                var k := OpenOrder(old(orders), auth.value);
                (k.None? ==> res == NotFound) &&
                (k.Some? ==>
                  var j := ItemAt(old(items), old(orders)[k.value].id, itemId);
                  (j.None? ==> res == NotFound) &&
                  (j.Some? ==>
                    var it := old(items)[j.value];
                    res == Ok &&
                    items == old(items)[..j.value] + old(items)[j.value + 1..] &&
                    orders == old(orders)[k.value := old(orders)[k.value].(total := old(orders)[k.value].total - it.price * it.quantity)] &&
                    session == old(session) &&
                    Drift(orders, items, k.value) == Drift(old(orders), old(items), k.value)))
    {
      if auth.Some? {
        var k := OpenOrder(orders, auth.value);
        if k.None? {
          return NotFound;
        }
        var oid := orders[k.value].id;
        var j := ItemAt(items, oid, itemId);
        if j.None? {
          return NotFound;
        }
        DeleteItem(k.value, j.value);
      } else {
        session := DropLines(session, itemId);
        WithoutDistinct(old(session), itemId);
      }
      return Ok;
    }

    /** The signed-in steps of `removeFromCart` on item `j` of the order at
        `k`: the total loses the item's amount and the item is deleted. */
    method DeleteItem(k: nat, j: nat)
      requires Valid() && k < |orders| && j < |items| && items[j].orderId == orders[k].id
      modifies this`orders, this`items
      ensures Valid() && Evolves(old(orders), orders)
      ensures var it := old(items)[j];
              items == old(items)[..j] + old(items)[j + 1..] &&
              orders == old(orders)[k := old(orders)[k].(total := old(orders)[k].total - it.price * it.quantity)] &&
              Drift(orders, items, k) == Drift(old(orders), old(items), k)
    {
      var it := items[j];
      orders := orders[k := orders[k].(total := orders[k].total - it.price * it.quantity)];
      items := items[..j] + items[j + 1..];
      OrderSumRemove(old(items), j, it.orderId);
      RemoveBelow(old(items), j, nextOrderId);
    }

    /** `clearCart`. A guest's session is forgotten; a signed-in user's open
        order loses all its items and its total becomes 0. */
    method ClearCart(auth: Option<int>) returns (res: Outcome)
      requires Valid()
      modifies this`orders, this`items, this`session
      ensures Valid() && Evolves(old(orders), orders)
      ensures res == Ok || res == NotFound
      ensures auth.None? ==> res == Ok && session == [] && orders == old(orders) && items == old(items)
      ensures auth.Some? ==>
                var k := OpenOrder(old(orders), auth.value);
                (k.None? ==> res == NotFound && orders == old(orders) && items == old(items) && session == old(session)) &&
                (k.Some? ==>
                  var oid := old(orders)[k.value].id;
                  res == Ok &&
                  items == OtherItems(old(items), oid) &&
                  orders == old(orders)[k.value := old(orders)[k.value].(total := 0)] &&
                  session == old(session) &&
                  Drift(orders, items, k.value) == 0 &&
                  forall o :: o != oid ==> OrderSum(items, o) == OrderSum(old(items), o))
    {
      if auth.Some? {
        var k := OpenOrder(orders, auth.value);
        if k.None? {
          return NotFound;
        }
        var oid := orders[k.value].id;
        DeleteItemsOf(oid);
        orders := orders[k.value := orders[k.value].(total := 0)];
        OtherItemsSum(old(items), oid, oid);
        forall o | o != oid ensures OrderSum(items, o) == OrderSum(old(items), o) {
          OtherItemsSum(old(items), oid, o);
        }
      } else {
        session := [];
      }
      return Ok;
    }

    /** The `foreach` deleting the open order's items. */
    method DeleteItemsOf(orderId: int)
      modifies this`items
      ensures items == OtherItems(old(items), orderId)
      ensures forall j :: 0 <= j < |items| ==> items[j] in old(items)
    {
      var all := items;
      var kept: seq<Item> := [];
      for i := 0 to |all|
        invariant kept == OtherItems(all[..i], orderId)
      {
        assert all[..i + 1] == all[..i] + [all[i]];
        if all[i].orderId != orderId {
          kept := kept + [all[i]];
        }
      }
      assert all[..|all|] == all;
      items := kept;
      assert forall j :: 0 <= j < |items| ==> items[j] in items;
    }

    /** `cancelOrder`: the caller's order with that key moves from confirmed
        to cancelled; any other status is refused, and an order that is not
        the caller's is not found. */
    method CancelOrder(auth: Option<int>, orderId: int) returns (res: Outcome)
      requires Valid()
      modifies this`orders
      ensures Valid() && Evolves(old(orders), orders)
      ensures var k := OwnedOrder(old(orders), orderId, auth);
              (k.None? ==> res == NotFound && orders == old(orders)) &&
              (k.Some? && old(orders)[k.value].status != Confirmed ==> res == NotCancellable && orders == old(orders)) &&
              (k.Some? && old(orders)[k.value].status == Confirmed ==>
                res == Ok && orders == old(orders)[k.value := old(orders)[k.value].(status := Cancelled)])
    {
      var k := OwnedOrder(orders, orderId, auth);
      if k.None? {
        return NotFound;
      }
      if orders[k.value].status != Confirmed {
        return NotCancellable;
      }
      orders := orders[k.value := orders[k.value].(status := Cancelled)];
      return Ok;
    }

    /** `checkout`: the total and the status. A signed-in user's open order
        takes the sum of its items and the payment's status; a guest's
        session becomes a new order with the sum of its lines, and one item
        per line. Paying on delivery forgets the session; paying online
        keeps it and hands the order to the payment service. */
    method Checkout(auth: Option<int>, payment: string, valid: bool) returns (res: Outcome)
      requires Valid()
      modifies this`orders, this`items, this`session, this`nextOrderId, this`nextItemId
      ensures Valid() && Evolves(old(orders), orders)
      ensures !valid ==> res == Invalid
      ensures res == Invalid || res == NotFound ==>
                orders == old(orders) && items == old(items) && session == old(session) &&
                nextOrderId == old(nextOrderId) && nextItemId == old(nextItemId)
      ensures valid && auth.None? && old(session) == [] ==> res == NotFound
      ensures valid && auth.Some? && OpenOrder(old(orders), auth.value).None? ==> res == NotFound
      ensures res.Placed? || res.PayOnline? ==>
                (res.PayOnline? <==> payment == "online") &&
                session == (if payment == "online" then old(session) else [])
      ensures valid && auth.Some? && OpenOrder(old(orders), auth.value).Some? ==>
                var k := OpenOrder(old(orders), auth.value).value;
                var oid := old(orders)[k].id;
                (res == Placed(oid) || res == PayOnline(oid)) &&
                orders == old(orders)[k := old(orders)[k].(total := OrderSum(old(items), oid), status := CheckoutStatus(payment))] &&
                items == old(items) && nextOrderId == old(nextOrderId) && nextItemId == old(nextItemId) &&
                Drift(orders, items, k) == 0
      ensures valid && auth.None? && old(session) != [] ==>
                var oid := old(nextOrderId);
                var t := PutAll(ItemTable(old(items), old(nextItemId)), oid, old(session));
                (res == Placed(oid) || res == PayOnline(oid)) &&
                orders == old(orders) + [OrderRow(oid, None, CheckoutStatus(payment), LinesTotal(old(session)))] &&
                items == t.items && nextItemId == t.next && nextOrderId == oid + 1 &&
                Drift(orders, items, |old(orders)|) == 0
    {
      if !valid {
        return Invalid;
      }
      var oid: int;
      if auth.Some? {
        var k := OpenOrder(orders, auth.value);
        if k.None? {
          return NotFound;
        }
        oid := orders[k.value].id;
        CheckoutOpen(k.value, payment);
      } else {
        if session == [] {
          return NotFound;
        }
        oid := nextOrderId;
        CheckoutSession(payment);
      }
      if payment == "online" {
        return PayOnline(oid);
      }
      session := [];
      return Placed(oid);
    }

    /** The signed-in branch of `checkout`: the open order at `k` takes the
        sum of its items and the payment's status. */
    method CheckoutOpen(k: nat, payment: string)
      requires Valid() && k < |orders| && orders[k].status == Pending
      modifies this`orders
      ensures Valid() && Evolves(old(orders), orders)
      ensures orders == old(orders)[k := old(orders)[k].(total := OrderSum(items, old(orders)[k].id), status := CheckoutStatus(payment))]
      ensures Drift(orders, items, k) == 0
    {
      var oid := orders[k].id;
      var total := SumItems(ItemsOf(items, oid));
      ItemsOfTotal(items, oid);
      orders := orders[k := orders[k].(total := total, status := CheckoutStatus(payment))];
    }

    /** The guest branch of `checkout`: a new order with the sum of the
        session's lines and the payment's status, and one item per line. */
    method CheckoutSession(payment: string)
      requires Valid()
      modifies this`orders, this`items, this`nextOrderId, this`nextItemId
      ensures Valid() && Evolves(old(orders), orders)
      ensures var oid := old(nextOrderId);
              var t := PutAll(ItemTable(old(items), old(nextItemId)), oid, session);
              orders == old(orders) + [OrderRow(oid, None, CheckoutStatus(payment), LinesTotal(session))] &&
              items == t.items && nextItemId == t.next && nextOrderId == oid + 1 &&
              Drift(orders, items, |old(orders)|) == 0
    {
      var total := SumLines(session);
      var oid := nextOrderId;
      orders := orders + [OrderRow(oid, None, CheckoutStatus(payment), total)];
      nextOrderId := nextOrderId + 1;
      PlaceLines(oid, session);
      PutAllSum(ItemTable(old(items), old(nextItemId)), oid, session, nextOrderId);
      PutAllRows(ItemTable(old(items), old(nextItemId)), oid, session, nextOrderId);
    }

    /** The guest checkout's loop over the session lines. */
    method PlaceLines(orderId: int, lines: seq<Line>)
      modifies this`items, this`nextItemId
      ensures ItemTable(items, nextItemId) == PutAll(ItemTable(old(items), old(nextItemId)), orderId, lines)
    {
      ghost var t0 := ItemTable(items, nextItemId);
      for i := 0 to |lines|
        invariant ItemTable(items, nextItemId) == PutAll(t0, orderId, lines[..i])
      {
        PutLine(orderId, lines[i]);
        assert lines[..i + 1][..i] == lines[..i];
      }
      assert lines[..|lines|] == lines;
    }

    /** `OrderItem::updateOrCreate` for one line, setting its quantity and price. */
    method PutLine(orderId: int, l: Line)
      modifies this`items, this`nextItemId
      ensures ItemTable(items, nextItemId) == Put(ItemTable(old(items), old(nextItemId)), orderId, l)
    {
      match KeyAt(items, orderId, l.productId, l.variantId)
      case Some(j) =>
        items := items[j := items[j].(quantity := l.quantity, price := l.price)];
      case None =>
        items := items + [Item(nextItemId, orderId, l.productId, l.variantId, l.quantity, l.price)];
        nextItemId := nextItemId + 1;
    }
  }
}
