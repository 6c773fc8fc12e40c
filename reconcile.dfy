/** What `updateVariants` does to the variant table, as functions of the
    table before the request: refresh the variants whose SKU is generated
    again, create one variant per generated SKU that matches no existing
    variant, then delete the existing variants whose SKU was not generated. */
module Reconcile {
  import opened Shop
  import opened Combinations

  /** The request's stock and price written onto a variant. */
  function Refresh(v: Variant, stock: int, price: int): Variant
  {
    v.(stock := stock, price := price)
  }

  /** `$product->productVariants()->get()`: the product's rows, in table order. */
  function Of(rows: seq<Variant>, p: int): (r: seq<Variant>)
    ensures forall v {:trigger v in r} {:trigger v in rows} :: v in r <==> v in rows && v.productId == p
    ensures |r| <= |rows|
  {
    if rows == [] then []
    else (if rows[0].productId == p then [rows[0]] else []) + Of(rows[1..], p)
  }

  /** `$existingVariants->firstWhere('sku', $sku)`. */
  function FirstWithSku(rows: seq<Variant>, sku: string): (r: Option<Variant>)
    ensures r.Some? ==> r.value in rows && r.value.sku == sku
  {
    if rows == [] then None
    else if rows[0].sku == sku then Some(rows[0])
    else FirstWithSku(rows[1..], sku)
  }

  /** `firstWhere` finds nothing exactly when no row carries the SKU. */
  lemma {:induction false} FirstWithSkuNone(rows: seq<Variant>, sku: string)
    ensures FirstWithSku(rows, sku).None? <==> forall v :: v in rows ==> v.sku != sku
  {
    if rows != [] && rows[0].sku != sku {
      FirstWithSkuNone(rows[1..], sku);
      assert forall v :: v in rows ==> v == rows[0] || v in rows[1..];
    }
  }

  /** `v` is the row `firstWhere` picks for its own SKU. */
  predicate IsFirst(existing: seq<Variant>, v: Variant)
  {
    FirstWithSku(existing, v.sku).Some? && FirstWithSku(existing, v.sku).value.id == v.id
  }

  /** `Variant::destroy($ids)`: the rows whose key is not in `ids`, in order. */
  function Prune(rows: seq<Variant>, ids: set<int>): (r: seq<Variant>)
    ensures forall v {:trigger v in r} {:trigger v in rows} :: v in r <==> v in rows && v.id !in ids
    ensures |r| <= |rows|
  {
    if rows == [] then []
    else (if rows[0].id in ids then [] else [rows[0]]) + Prune(rows[1..], ids)
  }

  /** Rewrite the row with key `id`; the update in the first loop. */
  function UpdateById(rows: seq<Variant>, id: int, stock: int, price: int): (r: seq<Variant>)
    ensures |r| == |rows|
  {
    seq(|rows|, k requires 0 <= k < |rows| => if rows[k].id == id then Refresh(rows[k], stock, price) else rows[k])
  }

  /** The first loop's updates: the variant `firstWhere` finds for a
      generated SKU gets the request's stock and price. */
  function Touch(rows: seq<Variant>, existing: seq<Variant>, skus: seq<string>, stock: int, price: int): (r: seq<Variant>)
    ensures |r| == |rows|
  {
    seq(|rows|, k requires 0 <= k < |rows| =>
      if rows[k].sku in skus && IsFirst(existing, rows[k]) then Refresh(rows[k], stock, price) else rows[k])
  }

  /** How many of the generated SKUs match no existing variant. */
  function Unmatched(existing: seq<Variant>, skus: seq<string>): nat
  {
    if skus == [] then 0
    else Unmatched(existing, skus[..|skus| - 1]) + (if FirstWithSku(existing, skus[|skus| - 1]).None? then 1 else 0)
  }

  /** The first loop's inserts: one new variant per unmatched SKU, keys
      handed out from `next` on. */
  function Created(p: int, existing: seq<Variant>, skus: seq<string>, next: int, stock: int, price: int): seq<Variant>
  {
    if skus == [] then []
    else
      var m := |skus| - 1;
      Created(p, existing, skus[..m], next, stock, price) +
      (if FirstWithSku(existing, skus[m]).None? then [Variant(next + Unmatched(existing, skus[..m]), p, skus[m], stock, price, None)] else [])
  }

  /** The attribute links of a new variant, one per entry of its combination. */
  function LinksFor(id: int, combo: Combination): (r: seq<VariantLink>)
    ensures |r| == |combo|
  {
    seq(|combo|, k requires 0 <= k < |combo| => VariantLink(id, combo[k].attributeId, combo[k].valueId))
  }

  /** The links inserted by the first loop. */
  function CreatedLinks(existing: seq<Variant>, skus: seq<string>, combos: seq<Combination>, next: int): seq<VariantLink>
    requires |skus| == |combos|
  {
    if skus == [] then []
    else
      var m := |skus| - 1;
      CreatedLinks(existing, skus[..m], combos[..m], next) +
      (if FirstWithSku(existing, skus[m]).None? then LinksFor(next + Unmatched(existing, skus[..m]), combos[m]) else [])
  }

  /** The tables after the first loop has handled the SKUs `skus` of the
      combinations `combos`. */
  function FirstPass(rows: seq<Variant>, p: int, skus: seq<string>, combos: seq<Combination>,
                     next: int, links: seq<VariantLink>, stock: int, price: int): Tables
    requires |skus| == |combos|
  {
    var existing := Of(rows, p);
    Tables(Touch(rows, existing, skus, stock, price) + Created(p, existing, skus, next, stock, price),
           links + CreatedLinks(existing, skus, combos, next),
           next + Unmatched(existing, skus))
  }

  /** One iteration of the first loop on the tables `t`, for SKU `s` of
      combination `combo`: update the first existing variant with that SKU,
      or insert a variant under the next key with the combination's links. */
  function SaveOne(t: Tables, existing: seq<Variant>, p: int, s: string, combo: Combination, stock: int, price: int): Tables
  {
    match FirstWithSku(existing, s)
    case Some(w) => t.(variants := UpdateById(t.variants, w.id, stock, price))
    case None => Tables(t.variants + [Variant(t.next, p, s, stock, price, None)], t.links + LinksFor(t.next, combo), t.next + 1)
  }

  /** The keys the second loop deletes: existing variants whose SKU was not generated. */
  function Doomed(existing: seq<Variant>, skus: seq<string>): set<int>
  {
    set v | v in existing && v.sku !in skus :: v.id
  }

  /** The variant table after `updateVariants` for product `p`. */
  function Reconciled(rows: seq<Variant>, p: int, skus: seq<string>, next: int, stock: int, price: int): seq<Variant>
  {
    var existing := Of(rows, p);
    Prune(Touch(rows, existing, skus, stock, price) + Created(p, existing, skus, next, stock, price), Doomed(existing, skus))
  }

  // ---------------------------------------------------------------------
  // Facts about the building blocks

  lemma {:induction false} OfAscending(rows: seq<Variant>, p: int)
    requires Ascending(rows)
    ensures Ascending(Of(rows, p))
  {
    if rows != [] {
      OfAscending(rows[1..], p);
      var tail := Of(rows[1..], p);
      forall v | v in tail ensures rows[0].id < v.id {
        var j :| 0 <= j < |rows[1..]| && rows[1..][j] == v;
        assert rows[j + 1] == v;
      }
    }
  }

  lemma {:induction false} PruneAscending(rows: seq<Variant>, ids: set<int>)
    requires Ascending(rows)
    ensures Ascending(Prune(rows, ids))
  {
    if rows != [] {
      PruneAscending(rows[1..], ids);
      var tail := Prune(rows[1..], ids);
      forall v | v in tail ensures rows[0].id < v.id {
        var j :| 0 <= j < |rows[1..]| && rows[1..][j] == v;
        assert rows[j + 1] == v;
      }
    }
  }

  lemma {:induction false} PruneTwice(rows: seq<Variant>, a: set<int>, b: set<int>)
    ensures Prune(Prune(rows, a), b) == Prune(rows, a + b)
  {
    if rows != [] {
      PruneTwice(rows[1..], a, b);
      var pa := Prune(rows, a);
      if rows[0].id in a {
        assert pa == Prune(rows[1..], a);
        assert Prune(rows, a + b) == Prune(rows[1..], a + b);
      } else {
        assert pa == [rows[0]] + Prune(rows[1..], a);
        assert pa[0] == rows[0] && pa[1..] == Prune(rows[1..], a);
        assert Prune(pa, b) == (if rows[0].id in b then [] else [rows[0]]) + Prune(pa[1..], b);
      }
    }
  }

  lemma {:induction false} PruneNothing(rows: seq<Variant>, ids: set<int>)
    requires forall v :: v in rows ==> v.id !in ids
    ensures Prune(rows, ids) == rows
  {
    if rows != [] {
      PruneNothing(rows[1..], ids);
    }
  }

  /** In a table with increasing keys, `firstWhere` finds the row with the
      smallest key among those carrying the SKU. */
  lemma {:induction false} FirstIsSmallest(rows: seq<Variant>, sku: string)
    requires Ascending(rows) && FirstWithSku(rows, sku).Some?
    ensures forall u :: u in rows && u.sku == sku ==> FirstWithSku(rows, sku).value.id <= u.id
  {
    if rows[0].sku != sku {
      FirstIsSmallest(rows[1..], sku);
      forall u | u in rows && u.sku == sku ensures FirstWithSku(rows, sku).value.id <= u.id {
        assert u in rows[1..];
      }
    } else {
      forall u | u in rows && u.sku == sku ensures rows[0].id <= u.id {
        var j :| 0 <= j < |rows| && rows[j] == u;
      }
    }
  }

  /** The row `firstWhere` finds for a row's SKU has that row's key only if
      the row belongs to the product. */
  lemma FirstIsOwn(rows: seq<Variant>, p: int)
    requires Ascending(rows)
    ensures forall v :: v in rows && IsFirst(Of(rows, p), v) ==> v.productId == p
  {
    var existing := Of(rows, p);
    forall v | v in rows && IsFirst(existing, v) ensures v.productId == p {
      KeyUnique(rows, FirstWithSku(existing, v.sku).value, v);
    }
  }

  /** The second loop deletes a row iff it belongs to the product and its
      SKU was not generated; every key it deletes is an old key. */
  lemma DoomedKeys(rows: seq<Variant>, p: int, skus: seq<string>, next: int)
    requires Ascending(rows) && IdsBelow(rows, next)
    ensures forall v :: v in rows ==> (v.id in Doomed(Of(rows, p), skus) <==> v.productId == p && v.sku !in skus)
    ensures forall x :: x in Doomed(Of(rows, p), skus) ==> x < next
  {
    var existing := Of(rows, p);
    forall v, u | v in rows && u in existing && u.id == v.id ensures u == v {
      KeyUnique(rows, u, v);
    }
  }

  /** The new rows get consecutive keys from `next` on and carry the
      product, an unmatched SKU and the request's stock and price. */
  lemma {:induction false} CreatedRows(p: int, existing: seq<Variant>, skus: seq<string>, next: int, stock: int, price: int)
    ensures |Created(p, existing, skus, next, stock, price)| == Unmatched(existing, skus)
    ensures forall k :: 0 <= k < |Created(p, existing, skus, next, stock, price)| ==>
              var w := Created(p, existing, skus, next, stock, price)[k];
              w.id == next + k && w.productId == p && w.sku in skus && w.stock == stock && w.price == price &&
              w.thumbnail == None && FirstWithSku(existing, w.sku).None?
  {
    if skus != [] {
      var m := |skus| - 1;
      CreatedRows(p, existing, skus[..m], next, stock, price);
      forall k | 0 <= k < |Created(p, existing, skus[..m], next, stock, price)|
        ensures Created(p, existing, skus[..m], next, stock, price)[k].sku in skus
      {
        assert Created(p, existing, skus[..m], next, stock, price)[k].sku in skus[..m];
      }
    }
  }

  /** Every generated SKU that matches no existing variant gets a new row. */
  lemma {:induction false} CreatedCovers(p: int, existing: seq<Variant>, skus: seq<string>, next: int, stock: int, price: int, s: string)
    requires s in skus && FirstWithSku(existing, s).None?
    ensures exists w :: w in Created(p, existing, skus, next, stock, price) && w.sku == s
  {
    var m := |skus| - 1;
    if skus[m] != s {
      assert s in skus[..m];
      CreatedCovers(p, existing, skus[..m], next, stock, price, s);
      var w :| w in Created(p, existing, skus[..m], next, stock, price) && w.sku == s;
      assert w in Created(p, existing, skus, next, stock, price);
    } else {
      var w := Variant(next + Unmatched(existing, skus[..m]), p, s, stock, price, None);
      assert Created(p, existing, skus, next, stock, price)
          == Created(p, existing, skus[..m], next, stock, price) + [w];
      assert w in Created(p, existing, skus, next, stock, price);
    }
  }

  /** When every generated SKU already has a row, nothing is created. */
  lemma {:induction false} NothingCreated(p: int, existing: seq<Variant>, skus: seq<string>, next: int, stock: int, price: int)
    requires forall s :: s in skus ==> FirstWithSku(existing, s).Some?
    ensures Created(p, existing, skus, next, stock, price) == []
    ensures Unmatched(existing, skus) == 0
  {
    if skus != [] {
      var m := |skus| - 1;
      assert forall s :: s in skus[..m] ==> s in skus;
      NothingCreated(p, existing, skus[..m], next, stock, price);
    }
  }

  lemma TouchKeeps(rows: seq<Variant>, existing: seq<Variant>, skus: seq<string>, stock: int, price: int, k: int)
    requires 0 <= k < |rows|
    ensures var t := Touch(rows, existing, skus, stock, price)[k];
            t.id == rows[k].id && t.productId == rows[k].productId && t.sku == rows[k].sku && t.thumbnail == rows[k].thumbnail
  {
  }

  lemma TouchBelow(rows: seq<Variant>, existing: seq<Variant>, skus: seq<string>, stock: int, price: int, next: int)
    requires IdsBelow(rows, next)
    ensures IdsBelow(Touch(rows, existing, skus, stock, price), next)
  {
    var t := Touch(rows, existing, skus, stock, price);
    forall x | x in t ensures x.id < next {
      var k :| 0 <= k < |t| && t[k] == x;
      TouchKeeps(rows, existing, skus, stock, price, k);
      assert rows[k] in rows;
    }
  }

  lemma {:induction false} TouchAscending(rows: seq<Variant>, existing: seq<Variant>, skus: seq<string>, stock: int, price: int)
    requires Ascending(rows)
    ensures Ascending(Touch(rows, existing, skus, stock, price))
  {
    var t := Touch(rows, existing, skus, stock, price);
    forall i, j | 0 <= i < j < |t| ensures t[i].id < t[j].id {
      TouchKeeps(rows, existing, skus, stock, price, i);
      TouchKeeps(rows, existing, skus, stock, price, j);
    }
  }

  /** The table after the first loop has increasing keys, all below the
      advanced auto-increment value. */
  lemma {:induction false} FirstPassAscending(rows: seq<Variant>, p: int, skus: seq<string>, next: int, stock: int, price: int)
    requires Ascending(rows) && IdsBelow(rows, next)
    ensures var existing := Of(rows, p);
            var all := Touch(rows, existing, skus, stock, price) + Created(p, existing, skus, next, stock, price);
            Ascending(all) && IdsBelow(all, next + Unmatched(existing, skus))
  {
    var existing := Of(rows, p);
    var t := Touch(rows, existing, skus, stock, price);
    var c := Created(p, existing, skus, next, stock, price);
    TouchAscending(rows, existing, skus, stock, price);
    TouchBelow(rows, existing, skus, stock, price, next);
    CreatedRows(p, existing, skus, next, stock, price);
    var all := t + c;
    forall i, j | 0 <= i < j < |all| ensures all[i].id < all[j].id {
      if i < |t| {
        assert all[i] in t;
      }
      if j < |t| {
        assert all[j] == t[j];
      }
    }
    forall v | v in all ensures v.id < next + Unmatched(existing, skus) {
      var i :| 0 <= i < |all| && all[i] == v;
      if i < |t| {
        assert all[i] in t;
      }
    }
  }

  // ---------------------------------------------------------------------
  // Steps of the first and second loops, as the method takes them

  lemma TouchStepAt(rows: seq<Variant>, existing: seq<Variant>, skus: seq<string>, s: string, stock: int, price: int, w: Variant, k: int)
    requires Ascending(rows) && w in rows && FirstWithSku(existing, s) == Some(w) && 0 <= k < |rows|
    ensures var t := Touch(rows, existing, skus, stock, price)[k];
            (if t.id == w.id then Refresh(t, stock, price) else t) == Touch(rows, existing, skus + [s], stock, price)[k]
  {
    if rows[k].id == w.id {
      KeyUnique(rows, rows[k], w);
    }
  }

  /** Updating by a key no appended row carries leaves the appended rows alone. */
  lemma UpdateByIdAppend(a: seq<Variant>, c: seq<Variant>, id: int, stock: int, price: int)
    requires forall k :: 0 <= k < |c| ==> c[k].id != id
    ensures UpdateById(a + c, id, stock, price) == UpdateById(a, id, stock, price) + c
  {
    var lhs := UpdateById(a + c, id, stock, price);
    var rhs := UpdateById(a, id, stock, price) + c;
    forall k | 0 <= k < |lhs| ensures lhs[k] == rhs[k] {
      if k >= |a| {
        assert (a + c)[k] == c[k - |a|];
      }
    }
  }

  /** Updating the row `firstWhere` finds for `s` by key is touching it. */
  lemma TouchUpdate(rows: seq<Variant>, existing: seq<Variant>, skus: seq<string>, s: string, stock: int, price: int, w: Variant)
    requires Ascending(rows) && w in rows && FirstWithSku(existing, s) == Some(w)
    ensures UpdateById(Touch(rows, existing, skus, stock, price), w.id, stock, price) == Touch(rows, existing, skus + [s], stock, price)
  {
    var lhs := UpdateById(Touch(rows, existing, skus, stock, price), w.id, stock, price);
    forall k | 0 <= k < |rows| ensures lhs[k] == Touch(rows, existing, skus + [s], stock, price)[k] {
      TouchStepAt(rows, existing, skus, s, stock, price, w, k);
    }
  }

  /** A generated SKU that `firstWhere` finds: updating that row by key is
      the same as touching it. */
  lemma {:induction false} TouchStepMatched(rows: seq<Variant>, p: int, skus: seq<string>, s: string, next: int, stock: int, price: int)
    requires Ascending(rows) && IdsBelow(rows, next)
    requires FirstWithSku(Of(rows, p), s).Some?
    ensures var existing := Of(rows, p);
            var w := FirstWithSku(existing, s).value;
            UpdateById(Touch(rows, existing, skus, stock, price) + Created(p, existing, skus, next, stock, price), w.id, stock, price)
              == Touch(rows, existing, skus + [s], stock, price) + Created(p, existing, skus + [s], next, stock, price)
  {
    var existing := Of(rows, p);
    var w := FirstWithSku(existing, s).value;
    var c := Created(p, existing, skus, next, stock, price);
    assert (skus + [s])[..|skus|] == skus;
    assert Created(p, existing, skus + [s], next, stock, price) == c;
    CreatedRows(p, existing, skus, next, stock, price);
    assert w in rows;
    UpdateByIdAppend(Touch(rows, existing, skus, stock, price), c, w.id, stock, price);
    TouchUpdate(rows, existing, skus, s, stock, price, w);
  }

  /** A generated SKU that `firstWhere` does not find: appending the new
      row extends the created rows, and no existing row is touched. */
  lemma {:induction false} TouchStepCreated(rows: seq<Variant>, p: int, skus: seq<string>, s: string, next: int, stock: int, price: int)
    requires FirstWithSku(Of(rows, p), s).None?
    ensures var existing := Of(rows, p);
            Touch(rows, existing, skus + [s], stock, price) == Touch(rows, existing, skus, stock, price)
    ensures var existing := Of(rows, p);
            Created(p, existing, skus + [s], next, stock, price)
              == Created(p, existing, skus, next, stock, price) + [Variant(next + Unmatched(existing, skus), p, s, stock, price, None)]
    ensures Unmatched(Of(rows, p), skus + [s]) == Unmatched(Of(rows, p), skus) + 1
  {
    var existing := Of(rows, p);
    assert (skus + [s])[..|skus|] == skus;
    var a := Touch(rows, existing, skus + [s], stock, price);
    var b := Touch(rows, existing, skus, stock, price);
    forall k | 0 <= k < |rows| ensures a[k] == b[k] {
      if rows[k].sku == s {
        assert !IsFirst(existing, rows[k]);
      }
    }
  }

  lemma CreatedLinksStep(existing: seq<Variant>, skus: seq<string>, combos: seq<Combination>, s: string, c: Combination, next: int)
    requires |skus| == |combos|
    ensures CreatedLinks(existing, skus + [s], combos + [c], next)
         == CreatedLinks(existing, skus, combos, next) +
            (if FirstWithSku(existing, s).None? then LinksFor(next + Unmatched(existing, skus), c) else [])
  {
    assert (skus + [s])[..|skus|] == skus;
    assert (combos + [c])[..|combos|] == combos;
  }

  /** Before the first loop has handled any SKU, the tables are as they were. */
  lemma FirstPassEmpty(rows: seq<Variant>, p: int, next: int, links: seq<VariantLink>, stock: int, price: int)
    ensures FirstPass(rows, p, [], [], next, links, stock, price) == Tables(rows, links, next)
  {
    var t := Touch(rows, Of(rows, p), [], stock, price);
    assert forall k :: 0 <= k < |rows| ==> t[k] == rows[k];
    assert t == rows;
  }

  /** The first pass spelled out as its three tables. */
  lemma FirstPassParts(rows: seq<Variant>, p: int, skus: seq<string>, combos: seq<Combination>,
                       next: int, links: seq<VariantLink>, stock: int, price: int)
    requires |skus| == |combos|
    ensures var existing := Of(rows, p);
            FirstPass(rows, p, skus, combos, next, links, stock, price)
              == Tables(Touch(rows, existing, skus, stock, price) + Created(p, existing, skus, next, stock, price),
                        links + CreatedLinks(existing, skus, combos, next),
                        next + Unmatched(existing, skus))
  {
  }

  lemma UnmatchedStep(existing: seq<Variant>, skus: seq<string>, s: string)
    ensures Unmatched(existing, skus + [s]) == Unmatched(existing, skus) + (if FirstWithSku(existing, s).None? then 1 else 0)
  {
    assert (skus + [s])[..|skus|] == skus;
  }

  lemma CreatedVariantsStep(rows: seq<Variant>, p: int, skus: seq<string>, s: string, next: int, stock: int, price: int)
    requires FirstWithSku(Of(rows, p), s).None?
    ensures var existing := Of(rows, p);
            var w := Variant(next + Unmatched(existing, skus), p, s, stock, price, None);
            Touch(rows, existing, skus + [s], stock, price) + Created(p, existing, skus + [s], next, stock, price)
              == Touch(rows, existing, skus, stock, price) + Created(p, existing, skus, next, stock, price) + [w]
  {
    TouchStepCreated(rows, p, skus, s, next, stock, price);
  }

  lemma CreatedLinksAppend(existing: seq<Variant>, skus: seq<string>, combos: seq<Combination>, s: string, c: Combination,
                           next: int, links: seq<VariantLink>)
    requires |skus| == |combos|
    requires FirstWithSku(existing, s).None?
    ensures links + CreatedLinks(existing, skus + [s], combos + [c], next)
              == links + CreatedLinks(existing, skus, combos, next) + LinksFor(next + Unmatched(existing, skus), c)
  {
    CreatedLinksStep(existing, skus, combos, s, c, next);
    LinksAssoc(links, CreatedLinks(existing, skus, combos, next), LinksFor(next + Unmatched(existing, skus), c));
  }

  lemma LinksAssoc(a: seq<VariantLink>, b: seq<VariantLink>, c: seq<VariantLink>)
    ensures a + (b + c) == a + b + c
  {
  }

  /** Handling a SKU `firstWhere` finds updates that row and nothing else. */
  lemma FirstPassMatched(rows: seq<Variant>, p: int, skus: seq<string>, combos: seq<Combination>, s: string, c: Combination,
                         next: int, links: seq<VariantLink>, stock: int, price: int)
    requires Ascending(rows) && IdsBelow(rows, next) && |skus| == |combos|
    requires FirstWithSku(Of(rows, p), s).Some?
    ensures var before := FirstPass(rows, p, skus, combos, next, links, stock, price);
            FirstPass(rows, p, skus + [s], combos + [c], next, links, stock, price)
              == before.(variants := UpdateById(before.variants, FirstWithSku(Of(rows, p), s).value.id, stock, price))
  {
    var existing := Of(rows, p);
    CreatedLinksStep(existing, skus, combos, s, c, next);
    assert (skus + [s])[..|skus|] == skus;
    TouchStepMatched(rows, p, skus, s, next, stock, price);
    assert CreatedLinks(existing, skus + [s], combos + [c], next) == CreatedLinks(existing, skus, combos, next) + [];
  }

  /** Handling a SKU `firstWhere` does not find appends a row under the next
      key and its links. */
  lemma FirstPassCreated(rows: seq<Variant>, p: int, skus: seq<string>, combos: seq<Combination>, s: string, c: Combination,
                         next: int, links: seq<VariantLink>, stock: int, price: int)
    requires |skus| == |combos|
    requires FirstWithSku(Of(rows, p), s).None?
    ensures var before := FirstPass(rows, p, skus, combos, next, links, stock, price);
            var after := FirstPass(rows, p, skus + [s], combos + [c], next, links, stock, price);
            after.variants == before.variants + [Variant(before.next, p, s, stock, price, None)] &&
            after.links == before.links + LinksFor(before.next, c) &&
            after.next == before.next + 1
  {
    CreatedRowAppended(rows, p, skus, combos, s, c, next, links, stock, price);
    CreatedLinksAppended(rows, p, skus, combos, s, c, next, links, stock, price);
    CreatedNextAdvanced(rows, p, skus, combos, s, c, next, links, stock, price);
  }

  lemma CreatedRowAppended(rows: seq<Variant>, p: int, skus: seq<string>, combos: seq<Combination>, s: string, c: Combination,
                           next: int, links: seq<VariantLink>, stock: int, price: int)
    requires |skus| == |combos|
    requires FirstWithSku(Of(rows, p), s).None?
    ensures var before := FirstPass(rows, p, skus, combos, next, links, stock, price);
            FirstPass(rows, p, skus + [s], combos + [c], next, links, stock, price).variants
              == before.variants + [Variant(before.next, p, s, stock, price, None)]
  {
    CreatedVariantsStep(rows, p, skus, s, next, stock, price);
  }

  lemma CreatedLinksAppended(rows: seq<Variant>, p: int, skus: seq<string>, combos: seq<Combination>, s: string, c: Combination,
                             next: int, links: seq<VariantLink>, stock: int, price: int)
    requires |skus| == |combos|
    requires FirstWithSku(Of(rows, p), s).None?
    ensures var before := FirstPass(rows, p, skus, combos, next, links, stock, price);
            FirstPass(rows, p, skus + [s], combos + [c], next, links, stock, price).links
              == before.links + LinksFor(before.next, c)
  {
    var existing := Of(rows, p);
    var n := FirstPass(rows, p, skus, combos, next, links, stock, price).next;
    assert n == next + Unmatched(existing, skus) by {
      FirstPassParts(rows, p, skus, combos, next, links, stock, price);
    }
    calc {
      FirstPass(rows, p, skus + [s], combos + [c], next, links, stock, price).links;
    == { FirstPassParts(rows, p, skus + [s], combos + [c], next, links, stock, price); }
      links + CreatedLinks(existing, skus + [s], combos + [c], next);
    == { CreatedLinksAppend(existing, skus, combos, s, c, next, links); }
      links + CreatedLinks(existing, skus, combos, next) + LinksFor(next + Unmatched(existing, skus), c);
    == { FirstPassParts(rows, p, skus, combos, next, links, stock, price); }
      FirstPass(rows, p, skus, combos, next, links, stock, price).links + LinksFor(next + Unmatched(existing, skus), c);
      FirstPass(rows, p, skus, combos, next, links, stock, price).links + LinksFor(n, c);
    }
  }

  lemma CreatedNextAdvanced(rows: seq<Variant>, p: int, skus: seq<string>, combos: seq<Combination>, s: string, c: Combination,
                            next: int, links: seq<VariantLink>, stock: int, price: int)
    requires |skus| == |combos|
    requires FirstWithSku(Of(rows, p), s).None?
    ensures FirstPass(rows, p, skus + [s], combos + [c], next, links, stock, price).next
         == FirstPass(rows, p, skus, combos, next, links, stock, price).next + 1
  {
    UnmatchedStep(Of(rows, p), skus, s);
  }

  /** The first pass is the first loop: handling one more SKU is one `SaveOne`. */
  lemma FirstPassStep(rows: seq<Variant>, p: int, skus: seq<string>, combos: seq<Combination>, s: string, c: Combination,
                      next: int, links: seq<VariantLink>, stock: int, price: int)
    requires Ascending(rows) && IdsBelow(rows, next) && |skus| == |combos|
    ensures FirstPass(rows, p, skus + [s], combos + [c], next, links, stock, price)
         == SaveOne(FirstPass(rows, p, skus, combos, next, links, stock, price), Of(rows, p), p, s, c, stock, price)
  {
    if FirstWithSku(Of(rows, p), s).Some? {
      FirstPassMatched(rows, p, skus, combos, s, c, next, links, stock, price);
    } else {
      FirstPassCreated(rows, p, skus, combos, s, c, next, links, stock, price);
    }
  }

  /** One step of the second loop: deleting one more doomed key. */
  lemma DoomedStep(existing: seq<Variant>, skus: seq<string>, j: int)
    requires 0 <= j < |existing|
    ensures Doomed(existing[..j + 1], skus)
         == Doomed(existing[..j], skus) + (if existing[j].sku !in skus then {existing[j].id} else {})
  {
    assert existing[..j + 1] == existing[..j] + [existing[j]];
  }

  // ---------------------------------------------------------------------
  // What the request promises about the variant table

  /** A variant of the product survives iff its SKU is generated again;
      variants of other products all survive untouched. */
  lemma {:induction false} ReconcileSurvivors(rows: seq<Variant>, p: int, skus: seq<string>, next: int, stock: int, price: int)
    requires Ascending(rows) && IdsBelow(rows, next)
    ensures forall v :: v in rows && v.productId == p ==>
              ((exists w :: w in Reconciled(rows, p, skus, next, stock, price) && w.id == v.id) <==> v.sku in skus)
    ensures forall v :: v in rows && v.productId != p ==> v in Reconciled(rows, p, skus, next, stock, price)
  {
    var existing := Of(rows, p);
    var t := Touch(rows, existing, skus, stock, price);
    var c := Created(p, existing, skus, next, stock, price);
    var r := Reconciled(rows, p, skus, next, stock, price);
    DoomedKeys(rows, p, skus, next);
    FirstIsOwn(rows, p);
    forall v | v in rows && v.productId == p
      ensures (exists w :: w in r && w.id == v.id) <==> v.sku in skus
    {
      var k :| 0 <= k < |rows| && rows[k] == v;
      TouchKeeps(rows, existing, skus, stock, price, k);
      assert t[k] in t + c;
    }
    forall v | v in rows && v.productId != p ensures v in r {
      var k :| 0 <= k < |rows| && rows[k] == v;
      assert t[k] == v;
      assert t[k] in t + c;
    }
  }

  /** A surviving variant gets the request's stock and price exactly when it
      is the row `firstWhere` finds for its SKU; a second row with the same
      SKU keeps its old stock and price. */
  lemma {:induction false} ReconcileRefreshes(rows: seq<Variant>, p: int, skus: seq<string>, next: int, stock: int, price: int)
    requires Ascending(rows) && IdsBelow(rows, next)
    ensures forall v :: v in rows && v.productId == p && v.sku in skus ==>
              (IsFirst(Of(rows, p), v) ==> Refresh(v, stock, price) in Reconciled(rows, p, skus, next, stock, price)) &&
              (!IsFirst(Of(rows, p), v) ==> v in Reconciled(rows, p, skus, next, stock, price))
  {
    var existing := Of(rows, p);
    var t := Touch(rows, existing, skus, stock, price);
    var c := Created(p, existing, skus, next, stock, price);
    DoomedKeys(rows, p, skus, next);
    forall v | v in rows && v.productId == p && v.sku in skus
      ensures (IsFirst(existing, v) ==> Refresh(v, stock, price) in Reconciled(rows, p, skus, next, stock, price)) &&
              (!IsFirst(existing, v) ==> v in Reconciled(rows, p, skus, next, stock, price))
    {
      var k :| 0 <= k < |rows| && rows[k] == v;
      assert t[k] in t + c;
    }
  }

  /** Rows the request creates are exactly the new rows: each carries a
      generated SKU that matched no existing variant, and each such SKU
      gets one. */
  lemma {:induction false} ReconcileCreates(rows: seq<Variant>, p: int, skus: seq<string>, next: int, stock: int, price: int)
    requires Ascending(rows) && IdsBelow(rows, next)
    ensures forall w :: w in Reconciled(rows, p, skus, next, stock, price) && w.id >= next ==>
              w.productId == p && w.sku in skus && FirstWithSku(Of(rows, p), w.sku).None? &&
              w.stock == stock && w.price == price
    ensures forall s :: s in skus && FirstWithSku(Of(rows, p), s).None? ==>
              exists w :: w in Reconciled(rows, p, skus, next, stock, price) && w.sku == s && w.id >= next
  {
    var existing := Of(rows, p);
    var t := Touch(rows, existing, skus, stock, price);
    var c := Created(p, existing, skus, next, stock, price);
    TouchBelow(rows, existing, skus, stock, price, next);
    DoomedKeys(rows, p, skus, next);
    CreatedRows(p, existing, skus, next, stock, price);
    forall w | w in Reconciled(rows, p, skus, next, stock, price) && w.id >= next
      ensures w in c
    {
      assert w in t + c;
    }
    forall s | s in skus && FirstWithSku(existing, s).None?
      ensures exists w :: w in Reconciled(rows, p, skus, next, stock, price) && w.sku == s && w.id >= next
    {
      CreatedCovers(p, existing, skus, next, stock, price, s);
      var w :| w in c && w.sku == s;
      assert w in t + c;
    }
  }

  /** A row that survives the second loop and belongs to the product
      carries a generated SKU. */
  lemma KeptSku(rows: seq<Variant>, p: int, skus: seq<string>, next: int, stock: int, price: int, u: Variant)
    requires Ascending(rows) && IdsBelow(rows, next)
    requires u in Touch(rows, Of(rows, p), skus, stock, price) + Created(p, Of(rows, p), skus, next, stock, price)
    requires u.id !in Doomed(Of(rows, p), skus) && u.productId == p
    ensures u.sku in skus
  {
    var existing := Of(rows, p);
    var t := Touch(rows, existing, skus, stock, price);
    var c := Created(p, existing, skus, next, stock, price);
    if u in c {
      var k :| 0 <= k < |c| && c[k] == u;
      CreatedRows(p, existing, skus, next, stock, price);
    } else {
      var i :| 0 <= i < |t| && t[i] == u;
      TouchKeeps(rows, existing, skus, stock, price, i);
      assert rows[i] in existing;
    }
  }

  /** After one run every row of the product carries a generated SKU. */
  lemma KeptSkus(rows: seq<Variant>, p: int, skus: seq<string>, next: int, stock: int, price: int)
    requires Ascending(rows) && IdsBelow(rows, next)
    ensures forall u :: u in Of(Reconciled(rows, p, skus, next, stock, price), p) ==> u.sku in skus
  {
    var r := Reconciled(rows, p, skus, next, stock, price);
    forall u | u in Of(r, p) ensures u.sku in skus {
      KeptSku(rows, p, skus, next, stock, price, u);
    }
  }

  /** After one run every generated SKU has a row of the product. */
  lemma PresentSkus(rows: seq<Variant>, p: int, skus: seq<string>, next: int, stock: int, price: int)
    requires Ascending(rows) && IdsBelow(rows, next)
    ensures forall s :: s in skus ==> FirstWithSku(Of(Reconciled(rows, p, skus, next, stock, price), p), s).Some?
  {
    var existing := Of(rows, p);
    var t := Touch(rows, existing, skus, stock, price);
    var c := Created(p, existing, skus, next, stock, price);
    var e1 := Of(Reconciled(rows, p, skus, next, stock, price), p);
    DoomedKeys(rows, p, skus, next);
    CreatedRows(p, existing, skus, next, stock, price);
    TouchBelow(rows, existing, skus, stock, price, next);
    forall s | s in skus ensures FirstWithSku(e1, s).Some? {
      if FirstWithSku(existing, s).Some? {
        var v := FirstWithSku(existing, s).value;
        var k :| 0 <= k < |rows| && rows[k] == v;
        TouchKeeps(rows, existing, skus, stock, price, k);
        assert t[k] in t + c;
        assert t[k] in e1;
        FirstWithSkuNone(e1, s);
      } else {
        CreatedCovers(p, existing, skus, next, stock, price, s);
        var w :| w in c && w.sku == s;
        assert w in t + c;
        assert w in e1;
        FirstWithSkuNone(e1, s);
      }
    }
  }

  /** The two loops together: the first pass, then the deletion of the
      doomed keys, give the reconciled table. */
  lemma PassesReconcile(rows: seq<Variant>, p: int, skus: seq<string>, combos: seq<Combination>,
                        next: int, links: seq<VariantLink>, stock: int, price: int, t: Tables, r: seq<Variant>)
    requires Ascending(rows) && IdsBelow(rows, next) && |skus| == |combos|
    requires t == FirstPass(rows, p, skus, combos, next, links, stock, price)
    requires r == Prune(t.variants, Doomed(Of(rows, p), skus))
    ensures r == Reconciled(rows, p, skus, next, stock, price)
    ensures t.links == links + CreatedLinks(Of(rows, p), skus, combos, next)
    ensures t.next == next + Unmatched(Of(rows, p), skus)
    ensures Ascending(r) && IdsBelow(r, t.next)
  {
    ReconciledAscending(rows, p, skus, next, stock, price);
  }

  /** The table `updateVariants` leaves behind still has increasing keys
      below the advanced auto-increment value. */
  lemma ReconciledAscending(rows: seq<Variant>, p: int, skus: seq<string>, next: int, stock: int, price: int)
    requires Ascending(rows) && IdsBelow(rows, next)
    ensures Ascending(Reconciled(rows, p, skus, next, stock, price))
    ensures IdsBelow(Reconciled(rows, p, skus, next, stock, price), next + Unmatched(Of(rows, p), skus))
  {
    var existing := Of(rows, p);
    FirstPassAscending(rows, p, skus, next, stock, price);
    PruneAscending(Touch(rows, existing, skus, stock, price) + Created(p, existing, skus, next, stock, price), Doomed(existing, skus));
  }

  /** The row `firstWhere` finds for a generated SKU survives the run,
      refreshed. */
  lemma FirstSurvives(rows: seq<Variant>, p: int, skus: seq<string>, next: int, stock: int, price: int, s: string)
    requires Ascending(rows) && s in skus && FirstWithSku(Of(rows, p), s).Some?
    ensures Refresh(FirstWithSku(Of(rows, p), s).value, stock, price) in Of(Reconciled(rows, p, skus, next, stock, price), p)
  {
    var existing := Of(rows, p);
    var t := Touch(rows, existing, skus, stock, price);
    var c := Created(p, existing, skus, next, stock, price);
    var w := FirstWithSku(existing, s).value;
    var j :| 0 <= j < |rows| && rows[j] == w;
    assert t[j] == Refresh(w, stock, price);
    assert t[j] in t + c;
    forall u | u in existing && u.id == w.id ensures u.sku in skus {
      KeyUnique(rows, u, w);
    }
    assert t[j].id !in Doomed(existing, skus);
    var r := Reconciled(rows, p, skus, next, stock, price);
    assert r == Prune(t + c, Doomed(existing, skus));
    assert t[j] in r;
  }

  /** A row of the product that `firstWhere` finds after one run already
      carries the request's stock and price. */
  lemma FirstFresh(rows: seq<Variant>, p: int, skus: seq<string>, next: int, stock: int, price: int, x: Variant)
    requires Ascending(rows) && IdsBelow(rows, next)
    requires x in Of(Reconciled(rows, p, skus, next, stock, price), p)
    requires x.sku in skus && IsFirst(Of(Reconciled(rows, p, skus, next, stock, price), p), x)
    ensures x.stock == stock && x.price == price
  {
    var existing := Of(rows, p);
    var t := Touch(rows, existing, skus, stock, price);
    var c := Created(p, existing, skus, next, stock, price);
    var e1 := Of(Reconciled(rows, p, skus, next, stock, price), p);
    assert x in t + c;
    if x in c {
      var k :| 0 <= k < |c| && c[k] == x;
      CreatedRows(p, existing, skus, next, stock, price);
    } else {
      var i :| 0 <= i < |t| && t[i] == x;
      OldFirstFresh(rows, p, skus, next, stock, price, x, i);
    }
  }

  lemma OldFirstFresh(rows: seq<Variant>, p: int, skus: seq<string>, next: int, stock: int, price: int, x: Variant, i: int)
    requires Ascending(rows) && IdsBelow(rows, next)
    requires x in Of(Reconciled(rows, p, skus, next, stock, price), p)
    requires x.sku in skus && IsFirst(Of(Reconciled(rows, p, skus, next, stock, price), p), x)
    requires 0 <= i < |rows| && x == Touch(rows, Of(rows, p), skus, stock, price)[i]
    ensures x.stock == stock && x.price == price
  {
    OldFirstKey(rows, p, skus, next, stock, price, x, i);
    TouchKeeps(rows, Of(rows, p), skus, stock, price, i);
  }

  /** The old row behind such an `x` was itself the one `firstWhere` found. */
  lemma OldFirstKey(rows: seq<Variant>, p: int, skus: seq<string>, next: int, stock: int, price: int, x: Variant, i: int)
    requires Ascending(rows) && IdsBelow(rows, next)
    requires x in Of(Reconciled(rows, p, skus, next, stock, price), p)
    requires x.sku in skus && IsFirst(Of(Reconciled(rows, p, skus, next, stock, price), p), x)
    requires 0 <= i < |rows| && x == Touch(rows, Of(rows, p), skus, stock, price)[i]
    ensures IsFirst(Of(rows, p), rows[i])
  {
    var existing := Of(rows, p);
    TouchKeeps(rows, existing, skus, stock, price, i);
    var v := rows[i];
    assert v in existing;
    FirstWithSkuNone(existing, v.sku);
    var w := FirstWithSku(existing, v.sku).value;
    FirstKeyBelow(rows, p, skus, next, stock, price, x);
    OfAscending(rows, p);
    FirstIsSmallest(existing, v.sku);
    assert w.id == v.id;
  }

  /** A row `firstWhere` finds after one run has a key no larger than the
      row it found before. */
  lemma FirstKeyBelow(rows: seq<Variant>, p: int, skus: seq<string>, next: int, stock: int, price: int, x: Variant)
    requires Ascending(rows) && IdsBelow(rows, next)
    requires x.sku in skus && IsFirst(Of(Reconciled(rows, p, skus, next, stock, price), p), x)
    requires FirstWithSku(Of(rows, p), x.sku).Some?
    ensures x.id <= FirstWithSku(Of(rows, p), x.sku).value.id
  {
    FirstSurvives(rows, p, skus, next, stock, price, x.sku);
    ReconciledAscending(rows, p, skus, next, stock, price);
    OfAscending(Reconciled(rows, p, skus, next, stock, price), p);
    FirstIsSmallest(Of(Reconciled(rows, p, skus, next, stock, price), p), x.sku);
  }

  /** After one run the rows `firstWhere` would find already carry the
      request's stock and price. */
  lemma TouchFixed(rows: seq<Variant>, p: int, skus: seq<string>, next: int, stock: int, price: int)
    requires Ascending(rows) && IdsBelow(rows, next)
    ensures var r := Reconciled(rows, p, skus, next, stock, price);
            Touch(r, Of(r, p), skus, stock, price) == r
  {
    var r := Reconciled(rows, p, skus, next, stock, price);
    var e1 := Of(r, p);
    var t2 := Touch(r, e1, skus, stock, price);
    ReconciledAscending(rows, p, skus, next, stock, price);
    forall k | 0 <= k < |r| ensures t2[k] == r[k] {
      var x := r[k];
      if x.sku in skus && IsFirst(e1, x) {
        var f := FirstWithSku(e1, x.sku).value;
        KeyUnique(r, f, x);
        FirstFresh(rows, p, skus, next, stock, price, x);
      }
    }
    assert t2 == r;
  }

  /** A table where the product's rows carry exactly the generated SKUs
      and already hold the request's stock and price is left as it is. */
  lemma {:induction false} Stable(r: seq<Variant>, p: int, skus: seq<string>, next: int, stock: int, price: int)
    requires forall u :: u in Of(r, p) ==> u.sku in skus
    requires forall s :: s in skus ==> FirstWithSku(Of(r, p), s).Some?
    requires Touch(r, Of(r, p), skus, stock, price) == r
    ensures Created(p, Of(r, p), skus, next, stock, price) == []
    ensures Doomed(Of(r, p), skus) == {}
    ensures Reconciled(r, p, skus, next, stock, price) == r
  {
    var e1 := Of(r, p);
    NothingCreated(p, e1, skus, next, stock, price);
    assert Doomed(e1, skus) == {};
    assert Touch(r, e1, skus, stock, price) + [] == r;
    PruneNothing(r, {});
  }

  /** When every generated SKU already has a row, no links are inserted. */
  lemma {:induction false} NoLinksCreated(existing: seq<Variant>, skus: seq<string>, combos: seq<Combination>, next: int)
    requires |skus| == |combos|
    requires forall s :: s in skus ==> FirstWithSku(existing, s).Some?
    ensures CreatedLinks(existing, skus, combos, next) == []
  {
    if skus != [] {
      var m := |skus| - 1;
      assert forall s :: s in skus[..m] ==> s in skus;
      assert skus[m] in skus;
      NoLinksCreated(existing, skus[..m], combos[..m], next);
    }
  }

  /** Running the request a second time with the same input creates
      nothing, deletes nothing and leaves the table `r` the first run left,
      whatever the auto-increment value has become: no variant and no link
      is inserted and the auto-increment value does not move. */
  lemma ReconcileIdempotent(rows: seq<Variant>, p: int, skus: seq<string>, combos: seq<Combination>,
                            next: int, stock: int, price: int, r: seq<Variant>)
    requires Ascending(rows) && IdsBelow(rows, next) && |skus| == |combos|
    requires r == Reconciled(rows, p, skus, next, stock, price)
    ensures forall n :: Created(p, Of(r, p), skus, n, stock, price) == []
    ensures forall n :: CreatedLinks(Of(r, p), skus, combos, n) == []
    ensures Unmatched(Of(r, p), skus) == 0
    ensures Doomed(Of(r, p), skus) == {}
    ensures forall n :: Reconciled(r, p, skus, n, stock, price) == r
  {
    KeptSkus(rows, p, skus, next, stock, price);
    assert Kept: forall u :: u in Of(r, p) ==> u.sku in skus;
    PresentSkus(rows, p, skus, next, stock, price);
    assert Present: forall s :: s in skus ==> FirstWithSku(Of(r, p), s).Some?;
    TouchFixed(rows, p, skus, next, stock, price);
    assert Fixed: Touch(r, Of(r, p), skus, stock, price) == r;
    forall n
      ensures Created(p, Of(r, p), skus, n, stock, price) == [] && Reconciled(r, p, skus, n, stock, price) == r
    {
      Stable(r, p, skus, n, stock, price);
    }
    forall n
      ensures CreatedLinks(Of(r, p), skus, combos, n) == []
    {
      NoLinksCreated(Of(r, p), skus, combos, n);
    }
    NothingCreated(p, Of(r, p), skus, next, stock, price);
  }
}
