/** What `updateProductAndVariants` does to the variant and link tables:
    every entry of the request is saved (an update in place when its id
    finds a row, an insert with a fresh key otherwise) and gets its links
    replaced, then the product's variants the request did not name are
    destroyed. */
module VariantSync {
  import opened Shop
  import opened Combinations
  import opened Reconcile

  /** One entry of the request's `variants` list. */
  datatype VariantData = VariantData(id: Option<int>, sku: string, stock: int, price: int, attributes: Combination)

  /** The keys of a table. */
  function Keys(rows: seq<Variant>): (r: set<int>)
    ensures forall v :: v in rows ==> v.id in r
    ensures forall x :: x in r ==> exists v :: v in rows && v.id == x
  {
    set v | v in rows :: v.id
  }

  /** `ProductVariant::find($variantData['id'])`; an entry without id finds nothing. */
  function Lookup(rows: seq<Variant>, id: Option<int>): (r: Option<Variant>)
    ensures id.None? ==> r.None?
    ensures r.Some? ==> r.value in rows && id == Some(r.value.id)
  {
    if id.None? then None else FindVariant(rows, id.value)
  }

  /** The row `save()` writes for entry `d`: the found row moved to product
      `p` with the entry's SKU, stock and price, or a new row. */
  function Saved(rows: seq<Variant>, p: int, d: VariantData, next: int): (w: Variant)
    ensures w.productId == p && w.sku == d.sku && w.stock == d.stock && w.price == d.price
  {
    match Lookup(rows, d.id)
    case Some(v) => Variant(v.id, p, d.sku, d.stock, d.price, v.thumbnail)
    case None => Variant(next, p, d.sku, d.stock, d.price, None)
  }

  /** Overwrite the row with the key of `w`. */
  function Replace(rows: seq<Variant>, w: Variant): (r: seq<Variant>)
    ensures |r| == |rows|
  {
    seq(|rows|, k requires 0 <= k < |rows| => if rows[k].id == w.id then w else rows[k])
  }

  /** `$variant->variantAttributes()->delete()`: the links of every other variant. */
  function DropLinks(links: seq<VariantLink>, id: int): (r: seq<VariantLink>)
    ensures forall l :: l in r <==> l in links && l.variantId != id
  {
    if links == [] then []
    else (if links[0].variantId == id then [] else [links[0]]) + DropLinks(links[1..], id)
  }

  /** The links of one variant, in table order. */
  function LinksOf(links: seq<VariantLink>, id: int): (r: seq<VariantLink>)
    ensures forall l :: l in r <==> l in links && l.variantId == id
  {
    if links == [] then []
    else (if links[0].variantId == id then [links[0]] else []) + LinksOf(links[1..], id)
  }

  /** One iteration of the loop. */
  function Step(t: Tables, p: int, d: VariantData): Tables
  {
    var w := Saved(t.variants, p, d, t.next);
    var found := Lookup(t.variants, d.id).Some?;
    Tables(if found then Replace(t.variants, w) else t.variants + [w],
           DropLinks(t.links, w.id) + LinksFor(w.id, d.attributes),
           if found then t.next else t.next + 1)
  }

  /** The whole loop. */
  function SaveAll(t: Tables, p: int, ds: seq<VariantData>): Tables
  {
    if ds == [] then t else Step(SaveAll(t, p, ds[..|ds| - 1]), p, ds[|ds| - 1])
  }

  /** The ids the request names. */
  function Named(ds: seq<VariantData>): set<int>
  {
    set i | 0 <= i < |ds| && ds[i].id.Some? :: ds[i].id.value
  }

  /** The last entry of the request that names `x`. */
  function LastNaming(ds: seq<VariantData>, x: int): (r: Option<VariantData>)
    ensures r.Some? ==> r.value in ds && r.value.id == Some(x)
  {
    if ds == [] then None
    else if ds[|ds| - 1].id == Some(x) then Some(ds[|ds| - 1])
    else LastNaming(ds[..|ds| - 1], x)
  }

  /** `$product->productVariants->pluck('id')`. */
  function IdsOf(rows: seq<Variant>, p: int): (r: seq<int>)
    ensures forall x :: x in r <==> exists v :: v in rows && v.productId == p && v.id == x
  {
    if rows == [] then []
    else (if rows[0].productId == p then [rows[0].id] else []) + IdsOf(rows[1..], p)
  }

  /** `array_diff($ids, [$x])`. */
  function Remove(ids: seq<int>, x: int): (r: seq<int>)
    ensures forall y :: y in r <==> y in ids && y != x
  {
    if ids == [] then []
    else (if ids[0] == x then [] else [ids[0]]) + Remove(ids[1..], x)
  }

  /** `$existingVariantIds` after the loop. */
  function Remaining(ids: seq<int>, ds: seq<VariantData>): seq<int>
  {
    if ds == [] then ids
    else
      var rest := Remaining(ids, ds[..|ds| - 1]);
      if ds[|ds| - 1].id.Some? then Remove(rest, ds[|ds| - 1].id.value) else rest
  }

  lemma SaveAllStep(t: Tables, p: int, ds: seq<VariantData>, d: VariantData, ids: seq<int>)
    ensures SaveAll(t, p, ds + [d]) == Step(SaveAll(t, p, ds), p, d)
    ensures Remaining(ids, ds + [d]) == (if d.id.Some? then Remove(Remaining(ids, ds), d.id.value) else Remaining(ids, ds))
  {
    assert (ds + [d])[..|ds|] == ds;
  }

  /** `SaveAllStep` for the prefixes the loop walks through. */
  lemma SaveAllNext(t: Tables, p: int, ds: seq<VariantData>, i: int, ids: seq<int>)
    requires 0 <= i < |ds|
    ensures SaveAll(t, p, ds[..i + 1]) == Step(SaveAll(t, p, ds[..i]), p, ds[i])
    ensures Remaining(ids, ds[..i + 1]) == (if ds[i].id.Some? then Remove(Remaining(ids, ds[..i]), ds[i].id.value) else Remaining(ids, ds[..i]))
  {
    assert ds[..i + 1] == ds[..i] + [ds[i]];
    SaveAllStep(t, p, ds[..i], ds[i], ids);
  }

  /** The variant and link tables after `updateProductAndVariants` for product `p`. */
  function Synced(t: Tables, p: int, ds: seq<VariantData>): Tables
  {
    var u := SaveAll(t, p, ds);
    var doomed := set x | x in Remaining(IdsOf(t.variants, p), ds);
    u.(variants := Prune(u.variants, doomed))
  }

  // ---------------------------------------------------------------------
  // Lemmas

  lemma LastNamingNamed(ds: seq<VariantData>, x: int)
    ensures LastNaming(ds, x).Some? <==> x in Named(ds)
  {
    if LastNaming(ds, x).None? {
      forall i | 0 <= i < |ds| ensures ds[i].id != Some(x) {
        LastNamingNone(ds, x, i);
      }
    } else {
      var d := LastNaming(ds, x).value;
      var i :| 0 <= i < |ds| && ds[i] == d;
    }
  }

  lemma {:induction false} LastNamingNone(ds: seq<VariantData>, x: int, i: int)
    requires LastNaming(ds, x).None? && 0 <= i < |ds|
    ensures ds[i].id != Some(x)
  {
    if i < |ds| - 1 {
      LastNamingNone(ds[..|ds| - 1], x, i);
    }
  }

  /** `array_diff` in the loop drops exactly the named ids. */
  lemma {:induction false} RemainingIff(ids: seq<int>, ds: seq<VariantData>)
    ensures forall x :: x in Remaining(ids, ds) <==> x in ids && x !in Named(ds)
  {
    if ds != [] {
      var m := |ds| - 1;
      RemainingIff(ids, ds[..m]);
      forall x ensures x in Named(ds) <==> x in Named(ds[..m]) || ds[m].id == Some(x) {
        if x in Named(ds) {
          var i :| 0 <= i < |ds| && ds[i].id.Some? && ds[i].id.value == x;
          if i < m {
            assert ds[..m][i] == ds[i];
          }
        }
        if x in Named(ds[..m]) {
          var i :| 0 <= i < m && ds[..m][i].id.Some? && ds[..m][i].id.value == x;
          assert ds[i] == ds[..m][i];
        }
      }
    }
  }

  lemma LookupFinds(rows: seq<Variant>, x: int)
    requires Ascending(rows) && x in Keys(rows)
    ensures Lookup(rows, Some(x)).Some?
  {
    var v :| v in rows && v.id == x;
  }

  /** `find` on a table with increasing keys returns the row holding the key. */
  lemma FindRow(rows: seq<Variant>, v: Variant)
    requires Ascending(rows) && v in rows
    ensures FindVariant(rows, v.id) == Some(v)
  {
    KeyUnique(rows, FindVariant(rows, v.id).value, v);
  }

  lemma ReplaceKeys(rows: seq<Variant>, w: Variant)
    requires Ascending(rows)
    ensures Ascending(Replace(rows, w))
    ensures Keys(Replace(rows, w)) == Keys(rows)
  {
    var r := Replace(rows, w);
    assert forall k :: 0 <= k < |rows| ==> r[k].id == rows[k].id;
    forall x | x in Keys(r) ensures x in Keys(rows) {
      var v :| v in r && v.id == x;
      var k :| 0 <= k < |r| && r[k] == v;
      assert rows[k] in rows;
    }
    forall x | x in Keys(rows) ensures x in Keys(r) {
      var v :| v in rows && v.id == x;
      var k :| 0 <= k < |rows| && rows[k] == v;
      assert r[k] in r;
    }
  }

  lemma ReplaceFind(rows: seq<Variant>, w: Variant, x: int)
    requires Ascending(rows) && w.id in Keys(rows)
    ensures FindVariant(Replace(rows, w), x) == if x == w.id then Some(w) else FindVariant(rows, x)
  {
    ReplaceKeys(rows, w);
    if x == w.id {
      ReplaceFindOwn(rows, w);
    } else if FindVariant(rows, x).Some? {
      ReplaceFindOther(rows, w, FindVariant(rows, x).value);
    } else {
      ReplaceFindAbsent(rows, w, x);
    }
  }

  lemma ReplaceFindOwn(rows: seq<Variant>, w: Variant)
    requires Ascending(rows) && Ascending(Replace(rows, w)) && w.id in Keys(rows)
    ensures FindVariant(Replace(rows, w), w.id) == Some(w)
  {
    var r := Replace(rows, w);
    var v :| v in rows && v.id == w.id;
    var k :| 0 <= k < |rows| && rows[k] == v;
    assert r[k] == w;
    FindRow(r, w);
  }

  lemma ReplaceFindOther(rows: seq<Variant>, w: Variant, v: Variant)
    requires Ascending(Replace(rows, w)) && v in rows && v.id != w.id
    ensures FindVariant(Replace(rows, w), v.id) == Some(v)
  {
    var r := Replace(rows, w);
    var k :| 0 <= k < |rows| && rows[k] == v;
    assert r[k] == v;
    FindRow(r, v);
  }

  lemma ReplaceFindAbsent(rows: seq<Variant>, w: Variant, x: int)
    requires x != w.id && FindVariant(rows, x).None?
    ensures FindVariant(Replace(rows, w), x).None?
  {
    var r := Replace(rows, w);
    forall u | u in r ensures u.id != x {
      var k :| 0 <= k < |r| && r[k] == u;
      assert rows[k] in rows;
    }
  }

  lemma AppendFacts(rows: seq<Variant>, w: Variant, next: int)
    requires Ascending(rows) && IdsBelow(rows, next) && w.id == next
    ensures Ascending(rows + [w]) && IdsBelow(rows + [w], next + 1)
    ensures Keys(rows + [w]) == Keys(rows) + {w.id}
    ensures forall x :: FindVariant(rows + [w], x) == if x == w.id then Some(w) else FindVariant(rows, x)
  {
    var r := rows + [w];
    assert forall v :: v in r ==> v in rows || v == w;
    forall x ensures FindVariant(r, x) == if x == w.id then Some(w) else FindVariant(rows, x) {
      if x == w.id {
        FindRow(r, w);
      } else if FindVariant(rows, x).Some? {
        FindRow(r, FindVariant(rows, x).value);
      }
    }
  }

  /** The links of variant `x` after one save: the entry's list for the
      saved variant, unchanged for every other. */
  lemma {:induction false} LinksAfterSave(links: seq<VariantLink>, id: int, combo: Combination, x: int)
    ensures LinksOf(DropLinks(links, id) + LinksFor(id, combo), x)
         == if x == id then LinksFor(id, combo) else LinksOf(links, x)
  {
    LinksOfAppend(DropLinks(links, id), LinksFor(id, combo), x);
    LinksOfDrop(links, id, x);
    if x == id {
      LinksOfOwn(id, combo);
    } else {
      LinksOfOther(id, combo, x);
    }
  }

  lemma {:induction false} LinksOfAppend(a: seq<VariantLink>, b: seq<VariantLink>, x: int)
    ensures LinksOf(a + b, x) == LinksOf(a, x) + LinksOf(b, x)
  {
    if a != [] {
      LinksOfAppend(a[1..], b, x);
      assert (a + b)[1..] == a[1..] + b;
    } else {
      assert a + b == b;
    }
  }

  lemma {:induction false} LinksOfDrop(links: seq<VariantLink>, id: int, x: int)
    ensures LinksOf(DropLinks(links, id), x) == if x == id then [] else LinksOf(links, x)
  {
    if links != [] {
      LinksOfDrop(links[1..], id, x);
      var head := if links[0].variantId == id then [] else [links[0]];
      LinksOfAppend(head, DropLinks(links[1..], id), x);
    }
  }

  lemma {:induction false} LinksOfOwn(id: int, combo: Combination)
    ensures LinksOf(LinksFor(id, combo), id) == LinksFor(id, combo)
  {
    var l := LinksFor(id, combo);
    if l != [] {
      assert l[1..] == LinksFor(id, combo[1..]);
      LinksOfOwn(id, combo[1..]);
    }
  }

  lemma {:induction false} LinksOfOther(id: int, combo: Combination, x: int)
    requires x != id
    ensures LinksOf(LinksFor(id, combo), x) == []
  {
    var l := LinksFor(id, combo);
    if l != [] {
      assert l[1..] == LinksFor(id, combo[1..]);
      LinksOfOther(id, combo[1..], x);
    }
  }

  /** One save keeps the keys increasing and below the next auto-increment
      value and adds at most the saved key, which is old or fresh. */
  lemma StepKeys(t: Tables, p: int, d: VariantData)
    requires Ascending(t.variants) && IdsBelow(t.variants, t.next)
    ensures var u := Step(t, p, d);
            var w := Saved(t.variants, p, d, t.next);
            Ascending(u.variants) && IdsBelow(u.variants, u.next) && t.next <= u.next &&
            Keys(u.variants) == Keys(t.variants) + {w.id} &&
            (w.id in Keys(t.variants) || w.id == t.next)
  {
    var w := Saved(t.variants, p, d, t.next);
    if Lookup(t.variants, d.id).Some? {
      ReplaceKeys(t.variants, w);
    } else {
      AppendFacts(t.variants, w, t.next);
    }
  }

  /** One save changes only the saved row and its links. */
  lemma StepChanges(t: Tables, p: int, d: VariantData, x: int)
    requires Ascending(t.variants) && IdsBelow(t.variants, t.next)
    ensures var u := Step(t, p, d);
            var w := Saved(t.variants, p, d, t.next);
            FindVariant(u.variants, x) == (if x == w.id then Some(w) else FindVariant(t.variants, x)) &&
            LinksOf(u.links, x) == if x == w.id then LinksFor(x, d.attributes) else LinksOf(t.links, x)
  {
    var w := Saved(t.variants, p, d, t.next);
    if Lookup(t.variants, d.id).Some? {
      ReplaceFind(t.variants, w, x);
    } else {
      AppendFacts(t.variants, w, t.next);
    }
    LinksAfterSave(t.links, w.id, d.attributes, x);
  }

  /** The row of an old key after the loop: rewritten by the last entry
      naming it (moved to product `p`, keeping its thumbnail), untouched
      when no entry names it. */
  ghost function Expected(t: Tables, p: int, ds: seq<VariantData>, x: int): Option<Variant>
    requires x in Keys(t.variants)
  {
    match LastNaming(ds, x)
    case None => FindVariant(t.variants, x)
    case Some(d) => Some(Variant(x, p, d.sku, d.stock, d.price, FindVariant(t.variants, x).value.thumbnail))
  }

  /** The loop keeps the keys increasing and below the next auto-increment
      value; every key it adds is fresh. */
  lemma {:induction false} SaveAllKeys(t: Tables, p: int, ds: seq<VariantData>)
    requires Ascending(t.variants) && IdsBelow(t.variants, t.next)
    ensures var u := SaveAll(t, p, ds);
            Ascending(u.variants) && IdsBelow(u.variants, u.next) && t.next <= u.next &&
            Keys(t.variants) <= Keys(u.variants) &&
            (forall x :: x in Keys(u.variants) - Keys(t.variants) ==> t.next <= x)
  {
    if ds != [] {
      var m := |ds| - 1;
      var mid := SaveAll(t, p, ds[..m]);
      SaveAllKeys(t, p, ds[..m]);
      StepKeys(mid, p, ds[m]);
      var u := SaveAll(t, p, ds);
      assert u == Step(mid, p, ds[m]);
      var w := Saved(mid.variants, p, ds[m], mid.next);
      assert Keys(u.variants) == Keys(mid.variants) + {w.id};
      forall x | x in Keys(u.variants) - Keys(t.variants) ensures t.next <= x {
        if x in Keys(mid.variants) {
          assert x in Keys(mid.variants) - Keys(t.variants);
        } else {
          assert x == w.id == mid.next;
        }
      }
    }
  }

  /** The entry at the end of the request saves an old key `x` exactly when
      it names `x`. */
  lemma SavesOld(t: Tables, p: int, ds: seq<VariantData>, x: int)
    requires Ascending(t.variants) && IdsBelow(t.variants, t.next) && ds != []
    requires x in Keys(t.variants)
    ensures var mid := SaveAll(t, p, ds[..|ds| - 1]);
            Saved(mid.variants, p, ds[|ds| - 1], mid.next).id == x <==> ds[|ds| - 1].id == Some(x)
  {
    var m := |ds| - 1;
    var mid := SaveAll(t, p, ds[..m]);
    SaveAllKeys(t, p, ds[..m]);
    if ds[m].id == Some(x) {
      LookupFinds(mid.variants, x);
    }
  }

  /** What the loop does to each old key: the last entry naming it decides
      its row and replaces its links. */
  lemma {:induction false} SaveAllFacts(t: Tables, p: int, ds: seq<VariantData>, x: int)
    requires Ascending(t.variants) && IdsBelow(t.variants, t.next)
    requires x in Keys(t.variants)
    ensures FindVariant(SaveAll(t, p, ds).variants, x) == Expected(t, p, ds, x)
    ensures LinksOf(SaveAll(t, p, ds).links, x) == if LastNaming(ds, x).None? then LinksOf(t.links, x)
                                                   else LinksFor(x, LastNaming(ds, x).value.attributes)
  {
    if ds != [] {
      var m := |ds| - 1;
      var mid := SaveAll(t, p, ds[..m]);
      SaveAllFacts(t, p, ds[..m], x);
      SaveAllKeys(t, p, ds[..m]);
      StepChanges(mid, p, ds[m], x);
      SavesOld(t, p, ds, x);
    }
  }

  lemma FindRowKey(rows: seq<Variant>, x: int)
    requires x in Keys(rows)
    ensures FindVariant(rows, x).Some?
  {
  }

  lemma {:induction false} PruneKeys(rows: seq<Variant>, ids: set<int>)
    ensures Keys(Prune(rows, ids)) == Keys(rows) - ids
  {
    var r := Prune(rows, ids);
    forall x | x in Keys(rows) - ids ensures x in Keys(r) {
      var v :| v in rows && v.id == x;
    }
  }

  /** The sync keeps the keys increasing and below the next auto-increment value. */
  lemma SyncedValid(t: Tables, p: int, ds: seq<VariantData>)
    requires Ascending(t.variants) && IdsBelow(t.variants, t.next)
    ensures var r := Synced(t, p, ds);
            Ascending(r.variants) && IdsBelow(r.variants, r.next)
  {
    var u := SaveAll(t, p, ds);
    SaveAllKeys(t, p, ds);
    PruneAscending(u.variants, set x | x in Remaining(IdsOf(t.variants, p), ds));
  }

  /** The product's pre-existing variants that survive are exactly those the
      request names; other products' variants and every new variant survive. */
  lemma SyncedSurvivors(t: Tables, p: int, ds: seq<VariantData>)
    requires Ascending(t.variants) && IdsBelow(t.variants, t.next)
    ensures forall v :: v in t.variants && v.productId == p ==>
              (v.id in Keys(Synced(t, p, ds).variants) <==> v.id in Named(ds))
    ensures forall v :: v in t.variants && v.productId != p ==> v.id in Keys(Synced(t, p, ds).variants)
    ensures Keys(SaveAll(t, p, ds).variants) - Keys(t.variants) <= Keys(Synced(t, p, ds).variants)
  {
    var u := SaveAll(t, p, ds);
    var ids := IdsOf(t.variants, p);
    var doomed := set x | x in Remaining(ids, ds);
    SaveAllKeys(t, p, ds);
    RemainingIff(ids, ds);
    PruneKeys(u.variants, doomed);
    forall v | v in t.variants && v.productId != p ensures v.id !in doomed {
      forall u' | u' in t.variants && u'.id == v.id ensures u'.productId != p {
        KeyUnique(t.variants, u', v);
      }
    }
  }

  /** Each pre-existing variant the request names ends up as the last
      naming entry says, in product `p`, with that entry's links. */
  lemma SyncedNamed(t: Tables, p: int, ds: seq<VariantData>, x: int)
    requires Ascending(t.variants) && IdsBelow(t.variants, t.next)
    requires x in Keys(t.variants) && x in Named(ds)
    ensures LastNaming(ds, x).Some?
    ensures var d := LastNaming(ds, x).value;
            FindVariant(Synced(t, p, ds).variants, x).Some? &&
            var v := FindVariant(Synced(t, p, ds).variants, x).value;
            v.productId == p && v.sku == d.sku && v.stock == d.stock && v.price == d.price &&
            LinksOf(Synced(t, p, ds).links, x) == LinksFor(x, d.attributes)
  {
    var u := SaveAll(t, p, ds);
    var ids := IdsOf(t.variants, p);
    var doomed := set x | x in Remaining(ids, ds);
    SaveAllKeys(t, p, ds);
    SaveAllFacts(t, p, ds, x);
    RemainingIff(ids, ds);
    LastNamingNamed(ds, x);
    var w := FindVariant(u.variants, x).value;
    assert w.id !in doomed;
    assert w in Synced(t, p, ds).variants;
    PruneAscending(u.variants, doomed);
    FindRow(Synced(t, p, ds).variants, w);
  }
}
