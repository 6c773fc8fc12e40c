/** The anonymous cart that `CartController` keeps in the session: a list
    of lines, merged by (product, variant), re-quantified or dropped by
    product, summed at checkout. Also the two catalogue lookups the
    controller makes for both kinds of caller: the price of a product or
    variant and the stock a requested quantity is checked against. */
module SessionCart {
  import opened Shop

  /** The catalogue rows the cart controller reads, by key. */
  datatype Goods = Goods(products: map<int, Product>, variants: map<int, Variant>)

  /** One entry of the session's `cart` array. */
  datatype Line = Line(productId: int, variantId: Option<int>, quantity: int, price: int)

  /** `getProductPrice`: with a variant id, that variant's price, or 0 when
      no such variant exists; without one, the product's price, or 0. */
  function ProductPrice(g: Goods, productId: int, variantId: Option<int>): int
  {
    if variantId.Some? then (if variantId.value in g.variants then g.variants[variantId.value].price else 0)
    else if productId in g.products then g.products[productId].price else 0
  }

  /** The price a new session line takes: the named variant's, else the
      product's. Only used once both have been found. */
  function ListedPrice(g: Goods, productId: int, variantId: Option<int>): int
    requires productId in g.products && (variantId.Some? ==> variantId.value in g.variants)
  {
    if variantId.Some? then g.variants[variantId.value].price else g.products[productId].price
  }

  /** Once the product and the named variant have been found, a guest line
      and a signed-in user's item are priced alike; only a variant id that
      names nothing makes `getProductPrice` answer 0 where the guest path
      would not get that far. */
  lemma PricesAgree(g: Goods, productId: int, variantId: Option<int>)
    ensures productId in g.products && (variantId.Some? ==> variantId.value in g.variants) ==>
              ListedPrice(g, productId, variantId) == ProductPrice(g, productId, variantId)
    ensures variantId.Some? && variantId.value !in g.variants ==> ProductPrice(g, productId, variantId) == 0
  {
  }

  /** What a requested quantity is compared with: the stock of the variant
      when one is named and found, else the product's quantity. A missing
      product offers nothing, since a positive quantity compares greater
      than null. */
  function Available(g: Goods, productId: int, variantId: Option<int>): int
  {
    if variantId.Some? && variantId.value in g.variants then g.variants[variantId.value].stock
    else if productId in g.products then g.products[productId].quantity
    else 0
  }

  /** Whether a line carries the (product, variant) pair; `null == null`. */
  predicate Keyed(l: Line, productId: int, variantId: Option<int>)
  {
    l.productId == productId && l.variantId == variantId
  }

  /** No two lines carry the same (product, variant) pair. */
  ghost predicate DistinctKeys(cart: seq<Line>)
  {
    forall i, j :: 0 <= i < j < |cart| ==> !Keyed(cart[j], cart[i].productId, cart[i].variantId)
  }

  /** The position of the first line carrying the pair. */
  function FirstLine(cart: seq<Line>, productId: int, variantId: Option<int>): (r: Option<nat>)
    ensures r.Some? ==> r.value < |cart| && Keyed(cart[r.value], productId, variantId)
    ensures r.Some? ==> forall j :: 0 <= j < r.value ==> !Keyed(cart[j], productId, variantId)
    ensures r.None? ==> forall j :: 0 <= j < |cart| ==> !Keyed(cart[j], productId, variantId)
  {
    if cart == [] then None
    else if Keyed(cart[0], productId, variantId) then Some(0)
    else match FirstLine(cart[1..], productId, variantId)
      case None => None
      case Some(k) => Some(k + 1)
  }

  /** The session cart after a guest adds `q` of the pair at `price`. */
  function Merged(cart: seq<Line>, productId: int, variantId: Option<int>, q: int, price: int): seq<Line>
  {
    match FirstLine(cart, productId, variantId)
    case Some(k) => cart[k := cart[k].(quantity := cart[k].quantity + q)]
    case None => cart + [Line(productId, variantId, q, price)]
  }

  /** The position of the first line of a product. */
  function FirstOfProduct(cart: seq<Line>, productId: int): (r: Option<nat>)
    ensures r.Some? ==> r.value < |cart| && cart[r.value].productId == productId
    ensures r.Some? ==> forall j :: 0 <= j < r.value ==> cart[j].productId != productId
    ensures r.None? ==> forall j :: 0 <= j < |cart| ==> cart[j].productId != productId
  {
    if cart == [] then None
    else if cart[0].productId == productId then Some(0)
    else match FirstOfProduct(cart[1..], productId)
      case None => None
      case Some(k) => Some(k + 1)
  }

  /** The session cart after a guest sets a product's quantity to `q`, or
      None when the stock check rejects it. */
  function Requantified(g: Goods, cart: seq<Line>, productId: int, q: int): Option<seq<Line>>
  {
    match FirstOfProduct(cart, productId)
    case None => Some(cart)
    case Some(k) =>
      if q > Available(g, cart[k].productId, cart[k].variantId) then None
      else Some(cart[k := cart[k].(quantity := q)])
  }

  /** The session cart without any line of the product. */
  function Without(cart: seq<Line>, productId: int): (r: seq<Line>)
    ensures forall l :: l in r <==> l in cart && l.productId != productId
  {
    if cart == [] then []
    else
      var init, last := cart[..|cart| - 1], cart[|cart| - 1];
      assert cart == init + [last];
      Without(init, productId) + (if last.productId != productId then [last] else [])
  }

  /** What a line contributes to the checkout total. */
  function Cost(l: Line): int
  {
    l.price * l.quantity
  }

  /** The checkout total of a list of lines. */
  function LinesTotal(lines: seq<Line>): int
  {
    if lines == [] then 0 else LinesTotal(lines[..|lines| - 1]) + Cost(lines[|lines| - 1])
  }

  // ---------------------------------------------------------------------
  // The controller's loops over the session array

  /** The by-reference `foreach` of `addToCart` with its `break`, and the
      append when no line matched. */
  method AddLine(cart: seq<Line>, productId: int, variantId: Option<int>, q: int, price: int) returns (r: seq<Line>)
    ensures r == Merged(cart, productId, variantId, q, price)
  {
    r := cart;
    var found := false;
    var i := 0;
    while i < |r|
      invariant 0 <= i <= |r| && r == cart && !found
      invariant forall j :: 0 <= j < i ==> !Keyed(cart[j], productId, variantId)
    {
      if Keyed(r[i], productId, variantId) {
        r := r[i := r[i].(quantity := r[i].quantity + q)];
        found := true;
        break;
      }
      i := i + 1;
    }
    if !found {
      r := r + [Line(productId, variantId, q, price)];
    }
  }

  /** The by-reference `foreach` of the guest `updateCart`: the first line
      of the product is checked against the stock and takes the quantity;
      a failed check returns before the session is written. */
  method SetLineQuantity(g: Goods, cart: seq<Line>, productId: int, q: int) returns (r: Option<seq<Line>>)
    ensures r == Requantified(g, cart, productId, q)
  {
    var c := cart;
    var i := 0;
    while i < |c|
      invariant 0 <= i <= |c| && c == cart
      invariant forall j :: 0 <= j < i ==> cart[j].productId != productId
    {
      if c[i].productId == productId {
        if q > Available(g, c[i].productId, c[i].variantId) {
          return None;
        }
        c := c[i := c[i].(quantity := q)];
        break;
      }
      i := i + 1;
    }
    return Some(c);
  }

  /** The guest `removeFromCart` loop: copy the lines of other products. */
  method DropLines(cart: seq<Line>, productId: int) returns (r: seq<Line>)
    ensures r == Without(cart, productId)
  {
    r := [];
    for i := 0 to |cart|
      invariant r == Without(cart[..i], productId)
    {
      assert cart[..i + 1] == cart[..i] + [cart[i]];
      if cart[i].productId != productId {
        r := r + [cart[i]];
      }
    }
    assert cart[..|cart|] == cart;
  }

  /** The guest branch of the checkout sum. */
  method SumLines(lines: seq<Line>) returns (total: int)
    ensures total == LinesTotal(lines)
  {
    total := 0;
    for i := 0 to |lines|
      invariant total == LinesTotal(lines[..i])
    {
      assert lines[..i + 1][..i] == lines[..i];
      total := total + lines[i].price * lines[i].quantity;
    }
    assert lines[..|lines|] == lines;
  }

  // ---------------------------------------------------------------------
  // Lemmas

  /** A guest add grows the first line with the pair by `q` and leaves the
      length and every other line alone; with no such line it appends one
      line of quantity `q` at `price`. */
  lemma MergedShape(cart: seq<Line>, productId: int, variantId: Option<int>, q: int, price: int)
    ensures var r := Merged(cart, productId, variantId, q, price);
            (exists k :: 0 <= k < |cart| && Keyed(cart[k], productId, variantId)) ==>
              |r| == |cart| &&
              exists k :: 0 <= k < |cart| && Keyed(cart[k], productId, variantId) &&
                (forall j :: 0 <= j < k ==> !Keyed(cart[j], productId, variantId)) &&
                r[k] == cart[k].(quantity := cart[k].quantity + q) &&
                (forall j :: 0 <= j < |cart| && j != k ==> r[j] == cart[j])
    ensures (forall k :: 0 <= k < |cart| ==> !Keyed(cart[k], productId, variantId)) ==>
              Merged(cart, productId, variantId, q, price) == cart + [Line(productId, variantId, q, price)]
  {
    var r := Merged(cart, productId, variantId, q, price);
    match FirstLine(cart, productId, variantId)
    case Some(k) =>
      assert r[k] == cart[k].(quantity := cart[k].quantity + q);
    case None =>
  }

  /** A guest add never makes two lines share a pair. */
  lemma MergedDistinct(cart: seq<Line>, productId: int, variantId: Option<int>, q: int, price: int)
    requires DistinctKeys(cart)
    ensures DistinctKeys(Merged(cart, productId, variantId, q, price))
  {
    var r := Merged(cart, productId, variantId, q, price);
    match FirstLine(cart, productId, variantId)
    case Some(k) =>
      assert forall j :: 0 <= j < |r| ==> r[j].productId == cart[j].productId && r[j].variantId == cart[j].variantId;
    case None =>
      assert forall j :: 0 <= j < |cart| ==> r[j] == cart[j];
  }

  /** A guest add raises the cart's total by `q` times the price of the
      line that took it: the price that line already had, or `price` for a
      new line. */
  lemma MergedTotal(cart: seq<Line>, productId: int, variantId: Option<int>, q: int, price: int)
    ensures LinesTotal(Merged(cart, productId, variantId, q, price)) ==
              LinesTotal(cart) + q * (match FirstLine(cart, productId, variantId)
                                      case Some(k) => cart[k].price
                                      case None => price)
  {
    match FirstLine(cart, productId, variantId)
    case Some(k) =>
      var l := cart[k];
      LinesTotalUpdate(cart, k, l.(quantity := l.quantity + q));
      assert l.price * (l.quantity + q) == l.price * l.quantity + q * l.price;
    case None =>
      var l := Line(productId, variantId, q, price);
      assert (cart + [l])[..|cart|] == cart;
      assert Cost(l) == q * price;
  }

  /** A guest quantity update either is rejected, exactly when the first
      line of the product asks for more than its stock, or sets that line's
      quantity to `q` and changes nothing else; with no line of the product
      it changes nothing. */
  lemma RequantifiedShape(g: Goods, cart: seq<Line>, productId: int, q: int)
    ensures Requantified(g, cart, productId, q).None? <==>
              exists k :: 0 <= k < |cart| && cart[k].productId == productId &&
                (forall j :: 0 <= j < k ==> cart[j].productId != productId) &&
                q > Available(g, productId, cart[k].variantId)
    ensures var r := Requantified(g, cart, productId, q);
            r.Some? ==> (|r.value| == |cart| &&
              forall j :: 0 <= j < |cart| ==>
                r.value[j] == (if cart[j].productId == productId && (forall i :: 0 <= i < j ==> cart[i].productId != productId)
                               then cart[j].(quantity := q) else cart[j]))
  {
    match FirstOfProduct(cart, productId)
    case None =>
    case Some(k) =>
  }

  /** A guest quantity update keeps the pairs distinct. */
  lemma RequantifiedDistinct(g: Goods, cart: seq<Line>, productId: int, q: int)
    requires DistinctKeys(cart)
    requires Requantified(g, cart, productId, q).Some?
    ensures DistinctKeys(Requantified(g, cart, productId, q).value)
  {
    var r := Requantified(g, cart, productId, q).value;
    assert forall j :: 0 <= j < |r| ==> r[j].productId == cart[j].productId && r[j].variantId == cart[j].variantId;
  }

  /** Removal keeps the remaining lines in their order: it works line by
      line over any split of the cart. */
  lemma {:induction false} WithoutConcat(a: seq<Line>, b: seq<Line>, productId: int)
    ensures Without(a + b, productId) == Without(a, productId) + Without(b, productId)
  {
    if b != [] {
      var init := b[..|b| - 1];
      WithoutConcat(a, init, productId);
      assert (a + b)[..|a + b| - 1] == a + init;
    } else {
      assert a + b == a;
    }
  }

  /** Removal keeps the pairs distinct. */
  lemma {:induction false} WithoutDistinct(cart: seq<Line>, productId: int)
    requires DistinctKeys(cart)
    ensures DistinctKeys(Without(cart, productId))
  {
    if cart != [] {
      var init, last := cart[..|cart| - 1], cart[|cart| - 1];
      WithoutDistinct(init, productId);
      if last.productId != productId {
        var r := Without(cart, productId);
        var w := Without(init, productId);
        forall i, j | 0 <= i < j < |r| ensures !Keyed(r[j], r[i].productId, r[i].variantId) {
          if j == |w| {
            assert r[i] in w;
            var k :| 0 <= k < |init| && init[k] == r[i];
            assert cart[k] == r[i];
          } else {
            assert r[i] == w[i] && r[j] == w[j];
          }
        }
      }
    }
  }

  lemma {:induction false} LinesTotalConcat(a: seq<Line>, b: seq<Line>)
    ensures LinesTotal(a + b) == LinesTotal(a) + LinesTotal(b)
  {
    if b == [] {
      assert a + b == a;
    } else {
      var init := b[..|b| - 1];
      LinesTotalConcat(a, init);
      assert (a + b)[..|a + b| - 1] == a + init;
    }
  }

  /** Changing one line changes the total by the difference of its cost. */
  lemma LinesTotalUpdate(s: seq<Line>, k: int, l: Line)
    requires 0 <= k < |s|
    ensures LinesTotal(s[k := l]) == LinesTotal(s) - Cost(s[k]) + Cost(l)
  {
    assert s == s[..k] + [s[k]] + s[k + 1..];
    assert s[k := l] == s[..k] + [l] + s[k + 1..];
    LinesTotalConcat(s[..k] + [s[k]], s[k + 1..]);
    LinesTotalConcat(s[..k] + [l], s[k + 1..]);
    LinesTotalConcat(s[..k], [s[k]]);
    LinesTotalConcat(s[..k], [l]);
    assert ([] + [l])[..0] == [];
    assert LinesTotal([l]) == Cost(l);
    assert LinesTotal([s[k]]) == Cost(s[k]);
  }
}
