/** The `orders` and `order_items` tables as the cart controller reads and
    writes them: the lookups it makes, the upserts it performs, the sums it
    keeps in `total_amount`, and the statuses it moves orders through. */
module Orders {
  import opened Shop
  import opened SessionCart

  /** `status_id` values the cart controller writes: the open cart (also
      "awaiting payment"), "confirmed" and "cancelled". */
  const Pending := 1
  const Confirmed := 2
  const Cancelled := 5

  /** An `orders` row; `userId` is None for a guest order. */
  datatype OrderRow = OrderRow(id: int, userId: Option<int>, status: int, total: int)

  /** An `order_items` row. */
  datatype Item = Item(id: int, orderId: int, productId: int, variantId: Option<int>, quantity: int, price: int)

  /** The status `checkout` gives the order (line 479 of the controller):
      online payment leaves it awaiting payment, anything else confirms it. */
  function CheckoutStatus(payment: string): (r: int)
    ensures r == Pending <==> payment == "online"
    ensures Reaches(Pending, r) && r != Cancelled
  {
    if payment == "online" then Pending else Confirmed
  }

  /** The moves the cart controller can make on one order's status, and
      their compositions: checkout takes the open order to itself or to
      confirmed, cancel takes a confirmed order to cancelled. */
  predicate Reaches(s: int, t: int)
  {
    s == t || (s == Pending && (t == Confirmed || t == Cancelled)) || (s == Confirmed && t == Cancelled)
  }

  /** How the `orders` table may change: rows keep their place, key and
      owner, each status only moves along `Reaches`, and rows are added only
      at the end with a status reachable from the open state. */
  predicate Evolves(before: seq<OrderRow>, after: seq<OrderRow>)
  {
    |before| <= |after| &&
    (forall k :: 0 <= k < |before| ==>
      after[k].id == before[k].id && after[k].userId == before[k].userId && Reaches(before[k].status, after[k].status)) &&
    (forall k :: |before| <= k < |after| ==> Reaches(Pending, after[k].status))
  }

  /** Every order key lies below the next auto-increment value. */
  ghost predicate OrderIdsBelow(orders: seq<OrderRow>, next: int)
  {
    forall k :: 0 <= k < |orders| ==> orders[k].id < next
  }

  /** Every item belongs to an order key handed out already. */
  ghost predicate ItemOrdersBelow(items: seq<Item>, next: int)
  {
    forall j :: 0 <= j < |items| ==> items[j].orderId < next
  }

  /** Whether a row is the open cart of `user` (`status_id = 1`). */
  predicate OpenOf(o: OrderRow, user: int)
  {
    o.userId == Some(user) && o.status == Pending
  }

  /** `Order::where('user_id', $user)->where('status_id', 1)->first()`. */
  function OpenOrder(orders: seq<OrderRow>, user: int): (r: Option<nat>)
    ensures r.Some? ==> r.value < |orders| && OpenOf(orders[r.value], user)
    ensures r.Some? ==> forall k :: 0 <= k < r.value ==> !OpenOf(orders[k], user)
    ensures r.None? ==> forall k :: 0 <= k < |orders| ==> !OpenOf(orders[k], user)
  {
    if orders == [] then None
    else if OpenOf(orders[0], user) then Some(0)
    else match OpenOrder(orders[1..], user)
      case None => None
      case Some(k) => Some(k + 1)
  }

  /** `Order::where('id', $id)->where('user_id', $user)->first()`; a guest
      caller (`null`) matches guest orders. */
  function OwnedOrder(orders: seq<OrderRow>, id: int, user: Option<int>): (r: Option<nat>)
    ensures r.Some? ==> r.value < |orders| && orders[r.value].id == id && orders[r.value].userId == user
    ensures r.None? ==> forall k :: 0 <= k < |orders| ==> !(orders[k].id == id && orders[k].userId == user)
  {
    if orders == [] then None
    else if orders[0].id == id && orders[0].userId == user then Some(0)
    else match OwnedOrder(orders[1..], id, user)
      case None => None
      case Some(k) => Some(k + 1)
  }

  /** `OrderItem::where('id', $itemId)->where('order_id', $order)->first()`. */
  function ItemAt(items: seq<Item>, orderId: int, itemId: int): (r: Option<nat>)
    ensures r.Some? ==> r.value < |items| && items[r.value].id == itemId && items[r.value].orderId == orderId
    ensures r.None? ==> forall j :: 0 <= j < |items| ==> !(items[j].id == itemId && items[j].orderId == orderId)
  {
    if items == [] then None
    else if items[0].id == itemId && items[0].orderId == orderId then Some(0)
    else match ItemAt(items[1..], orderId, itemId)
      case None => None
      case Some(j) => Some(j + 1)
  }

  /** Whether an item is the order's row for the (product, variant) pair. */
  predicate ItemKeyed(it: Item, orderId: int, productId: int, variantId: Option<int>)
  {
    it.orderId == orderId && it.productId == productId && it.variantId == variantId
  }

  /** The row `updateOrCreate` finds by (order, product, variant). */
  function KeyAt(items: seq<Item>, orderId: int, productId: int, variantId: Option<int>): (r: Option<nat>)
    ensures r.Some? ==> r.value < |items| && ItemKeyed(items[r.value], orderId, productId, variantId)
    ensures r.Some? ==> forall j :: 0 <= j < r.value ==> !ItemKeyed(items[j], orderId, productId, variantId)
    ensures r.None? ==> forall j :: 0 <= j < |items| ==> !ItemKeyed(items[j], orderId, productId, variantId)
  {
    if items == [] then None
    else if ItemKeyed(items[0], orderId, productId, variantId) then Some(0)
    else match KeyAt(items[1..], orderId, productId, variantId)
      case None => None
      case Some(j) => Some(j + 1)
  }

  /** The orders table after `firstOrCreate` of a user's open cart, the
      position of that cart, and the next order key. */
  datatype Opened = Opened(orders: seq<OrderRow>, k: nat, next: int)

  /** `Order::firstOrCreate(['user_id' => $user, 'status_id' => 1], ['total_amount' => 0])`. */
  function FirstOrCreate(orders: seq<OrderRow>, user: int, next: int): (r: Opened)
    ensures r.k < |r.orders| && OpenOrder(r.orders, user) == Some(r.k)
    ensures Evolves(orders, r.orders) && r.orders[..|orders|] == orders
    ensures OrderIdsBelow(orders, next) ==> OrderIdsBelow(r.orders, r.next)
    ensures |r.orders| == |orders| ==> r.next == next
    ensures |r.orders| != |orders| ==> r.orders[r.k] == OrderRow(next, Some(user), Pending, 0) && r.next == next + 1
  {
    match OpenOrder(orders, user)
    case Some(k) => Opened(orders, k, next)
    case None =>
      var grown := orders + [OrderRow(next, Some(user), Pending, 0)];
      assert forall k :: 0 <= k < |orders| ==> grown[k] == orders[k];
      assert OpenOf(grown[|orders|], user);
      Opened(grown, |orders|, next + 1)
  }

  /** What an item contributes to its order's sum. */
  function Share(it: Item, orderId: int): int
  {
    if it.orderId == orderId then it.price * it.quantity else 0
  }

  /** The sum of price times quantity over the order's items. */
  function OrderSum(items: seq<Item>, orderId: int): int
  {
    if items == [] then 0 else OrderSum(items[..|items| - 1], orderId) + Share(items[|items| - 1], orderId)
  }

  /** How far the stored total has come from the items' sum. */
  function Drift(orders: seq<OrderRow>, items: seq<Item>, k: int): int
    requires 0 <= k < |orders|
  {
    orders[k].total - OrderSum(items, orders[k].id)
  }

  /** `$order->items`: the order's rows, in table order. */
  function ItemsOf(items: seq<Item>, orderId: int): (r: seq<Item>)
    ensures forall it :: it in r <==> it in items && it.orderId == orderId
  {
    if items == [] then []
    else
      var init, last := items[..|items| - 1], items[|items| - 1];
      assert items == init + [last];
      ItemsOf(init, orderId) + (if last.orderId == orderId then [last] else [])
  }

  /** The table once the order's items are deleted. */
  function OtherItems(items: seq<Item>, orderId: int): (r: seq<Item>)
    ensures forall it :: it in r <==> it in items && it.orderId != orderId
  {
    if items == [] then []
    else
      var init, last := items[..|items| - 1], items[|items| - 1];
      assert items == init + [last];
      OtherItems(init, orderId) + (if last.orderId != orderId then [last] else [])
  }

  /** The sum of price times quantity over a list of items. */
  function ItemsTotal(s: seq<Item>): int
  {
    if s == [] then 0 else ItemsTotal(s[..|s| - 1]) + s[|s| - 1].price * s[|s| - 1].quantity
  }

  /** The table after the signed-in `addToCart`'s `updateOrCreate`: the
      order's row for the pair gains `q` and is re-priced at `price`, or a
      row with quantity `q` is created under key `newId`. */
  function Bumped(items: seq<Item>, orderId: int, productId: int, variantId: Option<int>, q: int, price: int, newId: int): seq<Item>
  {
    match KeyAt(items, orderId, productId, variantId)
    case Some(j) => items[j := items[j].(quantity := items[j].quantity + q, price := price)]
    case None => items + [Item(newId, orderId, productId, variantId, q, price)]
  }

  /** What re-pricing the quantity already held costs: the order's row for
      the pair, if any, times the change of its price. */
  function Repricing(items: seq<Item>, orderId: int, productId: int, variantId: Option<int>, price: int): int
  {
    match KeyAt(items, orderId, productId, variantId)
    case Some(j) => items[j].quantity * (price - items[j].price)
    case None => 0
  }

  /** The item table and its next auto-increment key. */
  datatype ItemTable = ItemTable(items: seq<Item>, next: int)

  /** One iteration of the guest checkout's loop: `updateOrCreate` of the
      line under the new order, setting quantity and price. */
  function Put(t: ItemTable, orderId: int, l: Line): ItemTable
  {
    match KeyAt(t.items, orderId, l.productId, l.variantId)
    case Some(j) => t.(items := t.items[j := t.items[j].(quantity := l.quantity, price := l.price)])
    case None => ItemTable(t.items + [Item(t.next, orderId, l.productId, l.variantId, l.quantity, l.price)], t.next + 1)
  }

  /** The whole loop. */
  function PutAll(t: ItemTable, orderId: int, lines: seq<Line>): ItemTable
  {
    if lines == [] then t else Put(PutAll(t, orderId, lines[..|lines| - 1]), orderId, lines[|lines| - 1])
  }

  /** The signed-in branch of the checkout sum, over `$cart->items`. */
  method SumItems(s: seq<Item>) returns (total: int)
    ensures total == ItemsTotal(s)
  {
    total := 0;
    for i := 0 to |s|
      invariant total == ItemsTotal(s[..i])
    {
      assert s[..i + 1][..i] == s[..i];
      total := total + s[i].price * s[i].quantity;
    }
    assert s[..|s|] == s;
  }

  // ---------------------------------------------------------------------
  // Lemmas

  /** The status moves compose: the controller never takes an order back,
      and a cancelled order stays cancelled. */
  lemma EvolvesTrans(a: seq<OrderRow>, b: seq<OrderRow>, c: seq<OrderRow>)
    requires Evolves(a, b) && Evolves(b, c)
    ensures Evolves(a, c)
    ensures forall k :: 0 <= k < |a| && a[k].status == Cancelled ==> c[k].status == Cancelled
  {
  }

  lemma {:induction false} OrderSumConcat(a: seq<Item>, b: seq<Item>, o: int)
    ensures OrderSum(a + b, o) == OrderSum(a, o) + OrderSum(b, o)
  {
    if b == [] {
      assert a + b == a;
    } else {
      var init := b[..|b| - 1];
      OrderSumConcat(a, init, o);
      assert (a + b)[..|a + b| - 1] == a + init;
    }
  }

  lemma OrderSumSingle(it: Item, o: int)
    ensures OrderSum([it], o) == Share(it, o)
  {
    assert [it][..0] == [];
  }

  /** Changing one item changes each order's sum by the difference of that
      item's share. */
  lemma OrderSumUpdate(items: seq<Item>, j: int, it: Item, o: int)
    requires 0 <= j < |items|
    ensures OrderSum(items[j := it], o) == OrderSum(items, o) - Share(items[j], o) + Share(it, o)
  {
    assert items == items[..j] + [items[j]] + items[j + 1..];
    assert items[j := it] == items[..j] + [it] + items[j + 1..];
    OrderSumConcat(items[..j] + [items[j]], items[j + 1..], o);
    OrderSumConcat(items[..j] + [it], items[j + 1..], o);
    OrderSumConcat(items[..j], [items[j]], o);
    OrderSumConcat(items[..j], [it], o);
    OrderSumSingle(items[j], o);
    OrderSumSingle(it, o);
  }

  /** Deleting one item lowers each order's sum by that item's share. */
  lemma OrderSumRemove(items: seq<Item>, j: int, o: int)
    requires 0 <= j < |items|
    ensures OrderSum(items[..j] + items[j + 1..], o) == OrderSum(items, o) - Share(items[j], o)
  {
    assert items == items[..j] + [items[j]] + items[j + 1..];
    OrderSumConcat(items[..j] + [items[j]], items[j + 1..], o);
    OrderSumConcat(items[..j], items[j + 1..], o);
    OrderSumConcat(items[..j], [items[j]], o);
    OrderSumSingle(items[j], o);
  }

  /** The signed-in add raises the order's item sum by `price * q` plus the
      re-pricing of the quantity it already held, and leaves every other
      order's sum alone. The stored total only grows by `price * q`, so the
      two part by exactly `Repricing`. */
  lemma BumpedSum(items: seq<Item>, orderId: int, productId: int, variantId: Option<int>, q: int, price: int, newId: int, o: int)
    ensures OrderSum(Bumped(items, orderId, productId, variantId, q, price, newId), o) ==
              OrderSum(items, o) + (if o == orderId then price * q + Repricing(items, orderId, productId, variantId, price) else 0)
  {
    match KeyAt(items, orderId, productId, variantId)
    case Some(j) =>
      var it := items[j];
      OrderSumUpdate(items, j, it.(quantity := it.quantity + q, price := price), o);
      if o == orderId {
        calc {
          Share(it.(quantity := it.quantity + q, price := price), o) - Share(it, o);
          price * (it.quantity + q) - it.price * it.quantity;
          price * q + it.quantity * (price - it.price);
        }
      }
    case None =>
      var it := Item(newId, orderId, productId, variantId, q, price);
      OrderSumConcat(items, [it], o);
      OrderSumSingle(it, o);
  }

  /** An instance of the drift: one unit held at 100 in an order whose
      total matches its items, re-priced to 150, and one more added. The
      total is raised by 150 × 1 as `addToCart` raises it, while the items
      now sum to 300: the drift becomes -50, the re-pricing of the unit
      already held. */
  lemma AddDrifts()
    ensures var order := OrderRow(1, Some(3), 1, 100);
            var before := [Item(1, 1, 7, None, 1, 100)];
            var after := Bumped(before, 1, 7, None, 1, 150, 2);
            var raised := order.(total := order.total + 150 * 1);
            Drift([order], before, 0) == 0 &&
            Repricing(before, 1, 7, None, 150) == 50 &&
            Drift([raised], after, 0) == -50
  {
    var before := [Item(1, 1, 7, None, 1, 100)];
    assert KeyAt(before, 1, 7, None) == Some(0);
    OrderSumSingle(before[0], 1);
    var after := Bumped(before, 1, 7, None, 1, 150, 2);
    assert after == [Item(1, 1, 7, None, 2, 150)];
    OrderSumSingle(after[0], 1);
  }

  /** Summing the order's loaded items gives the order's sum. */
  lemma {:induction false} ItemsOfTotal(items: seq<Item>, o: int)
    ensures ItemsTotal(ItemsOf(items, o)) == OrderSum(items, o)
  {
    if items != [] {
      var init, last := items[..|items| - 1], items[|items| - 1];
      ItemsOfTotal(init, o);
      assert ItemsOf(items, o) == ItemsOf(init, o) + (if last.orderId == o then [last] else []);
      assert OrderSum(items, o) == OrderSum(init, o) + Share(last, o);
      if last.orderId == o {
        var s := ItemsOf(init, o) + [last];
        assert s[..|s| - 1] == ItemsOf(init, o);
      } else {
        assert ItemsOf(items, o) == ItemsOf(init, o);
      }
    }
  }

  /** Deleting an order's items leaves that order with a sum of 0 and every
      other order with its sum. */
  lemma {:induction false} OtherItemsSum(items: seq<Item>, orderId: int, o: int)
    ensures OrderSum(OtherItems(items, orderId), o) == if o == orderId then 0 else OrderSum(items, o)
  {
    if items != [] {
      var init, last := items[..|items| - 1], items[|items| - 1];
      OtherItemsSum(init, orderId, o);
      assert OtherItems(items, orderId) == OtherItems(init, orderId) + (if last.orderId != orderId then [last] else []);
      assert OrderSum(items, o) == OrderSum(init, o) + Share(last, o);
      if last.orderId != orderId {
        var s := OtherItems(init, orderId) + [last];
        assert s[..|s| - 1] == OtherItems(init, orderId);
      } else {
        assert OtherItems(items, orderId) == OtherItems(init, orderId);
      }
    }
  }

  /** Deleting a row keeps every item's order key below the bound. */
  lemma RemoveBelow(items: seq<Item>, j: int, bound: int)
    requires 0 <= j < |items| && ItemOrdersBelow(items, bound)
    ensures ItemOrdersBelow(items[..j] + items[j + 1..], bound)
  {
    var r := items[..j] + items[j + 1..];
    forall i | 0 <= i < |r| ensures r[i].orderId < bound {
      if i < j {
        assert r[i] == items[i];
      } else {
        assert r[i] == items[i + 1];
      }
    }
  }

  /** An order without items sums to 0. */
  lemma {:induction false} OrderSumAbsent(items: seq<Item>, o: int)
    requires forall j :: 0 <= j < |items| ==> items[j].orderId != o
    ensures OrderSum(items, o) == 0
  {
    if items != [] {
      OrderSumAbsent(items[..|items| - 1], o);
    }
  }

  /** Every row of the order that the guest checkout loop has touched
      carries the pair of some line it has processed, and the rows of other
      orders stay below `bound`. */
  lemma {:induction false} PutAllRows(t: ItemTable, orderId: int, lines: seq<Line>, bound: int)
    requires ItemOrdersBelow(t.items, bound) && orderId < bound
    requires forall j :: 0 <= j < |t.items| ==> t.items[j].orderId != orderId
    ensures ItemOrdersBelow(PutAll(t, orderId, lines).items, bound)
    ensures forall it :: it in PutAll(t, orderId, lines).items && it.orderId == orderId ==>
              exists i :: 0 <= i < |lines| && Keyed(lines[i], it.productId, it.variantId)
  {
    if lines != [] {
      var init, last := lines[..|lines| - 1], lines[|lines| - 1];
      PutAllRows(t, orderId, init, bound);
      var tt := PutAll(t, orderId, init);
      var mid := tt.items;
      assert PutAll(t, orderId, lines) == Put(tt, orderId, last);
      var r := PutAll(t, orderId, lines).items;
      forall it | it in r && it.orderId == orderId
        ensures exists i :: 0 <= i < |lines| && Keyed(lines[i], it.productId, it.variantId)
      {
        var j :| 0 <= j < |r| && r[j] == it;
        if j < |mid| && r[j] == mid[j] {
          assert mid[j] in mid;
          var i :| 0 <= i < |init| && Keyed(init[i], it.productId, it.variantId);
          assert lines[i] == init[i];
        } else {
          assert Keyed(lines[|lines| - 1], it.productId, it.variantId);
        }
      }
    }
  }

  /** When the lines carry distinct pairs and the order is new, the guest
      checkout creates one item per line, and the order's items sum to the
      total the checkout stores. */
  lemma {:induction false} PutAllSum(t: ItemTable, orderId: int, lines: seq<Line>, bound: int)
    requires DistinctKeys(lines)
    requires ItemOrdersBelow(t.items, bound) && orderId < bound
    requires forall j :: 0 <= j < |t.items| ==> t.items[j].orderId != orderId
    ensures OrderSum(PutAll(t, orderId, lines).items, orderId) == LinesTotal(lines)
  {
    if lines == [] {
      OrderSumAbsent(t.items, orderId);
    } else {
      var init, last := lines[..|lines| - 1], lines[|lines| - 1];
      assert DistinctKeys(init);
      PutAllSum(t, orderId, init, bound);
      PutAllRows(t, orderId, init, bound);
      var mid := PutAll(t, orderId, init);
      assert PutAll(t, orderId, lines) == Put(mid, orderId, last);
      if KeyAt(mid.items, orderId, last.productId, last.variantId).Some? {
        assert false;
      }
      var it := Item(mid.next, orderId, last.productId, last.variantId, last.quantity, last.price);
      OrderSumConcat(mid.items, [it], orderId);
      OrderSumSingle(it, orderId);
    }
  }
}
