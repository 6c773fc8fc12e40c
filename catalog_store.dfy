/** The catalogue tables the product controller writes, as one object, and
    the controller's write operations as methods that take the same steps
    as the controller's loops. */
module CatalogStore {
  import opened Shop
  import opened Combinations
  import opened Skus
  import opened Reconcile
  import VS = VariantSync
  import G = Gallery
  import P = Patches

  class Catalog {
    /** `products`, keyed by id. */
    var products: map<int, Product>
    /** `product_variants`, in key order. */
    var variants: seq<Variant>
    /** `variant_attributes`, in insertion order. */
    var links: seq<VariantLink>
    /** `product_images`, in key order. */
    var images: seq<Image>
    /** `attribute_values`: value id to value name. */
    var names: map<int, string>
    /** The next auto-increment keys. */
    var nextVariantId: int
    var nextImageId: int

    ghost predicate Valid()
      reads this
    {
      Ascending(variants) && IdsBelow(variants, nextVariantId) &&
      ImagesAscending(images) && ImageIdsBelow(images, nextImageId)
    }

    /** An empty catalogue whose attribute values carry `names`. */
    constructor (names: map<int, string>)
      ensures Valid()
      ensures this.names == names && products == map[] && variants == [] && links == [] && images == []
    {
      this.names := names;
      products := map[];
      variants := [];
      links := [];
      images := [];
      nextVariantId := 1;
      nextImageId := 1;
    }

    /** `foreach ($combination as $attribute) $variant->variantAttributes()->create(...)`. */
    method AppendLinks(id: int, combo: Combination)
      modifies this`links
      ensures links == old(links) + LinksFor(id, combo)
    {
      for k := 0 to |combo|
        invariant links == old(links) + LinksFor(id, combo)[..k]
      {
        links := links + [VariantLink(id, combo[k].attributeId, combo[k].valueId)];
        assert LinksFor(id, combo)[..k + 1] == LinksFor(id, combo)[..k] + [LinksFor(id, combo)[k]];
      }
      assert LinksFor(id, combo)[..|combo|] == LinksFor(id, combo);
    }

    /** `updateVariants`: an unknown product changes nothing; otherwise the
        generated SKUs are returned and the tables end up as `Reconciled`
        and `CreatedLinks` describe. */
    method UpdateVariants(productId: int, sels: seq<Selection>, stock: int, price: int) returns (skus: Option<seq<string>>)
      requires Valid()
      modifies this`variants, this`links, this`nextVariantId
      ensures Valid()
      ensures productId !in products ==>
                skus.None? && variants == old(variants) && links == old(links) && nextVariantId == old(nextVariantId)
      ensures productId in products ==>
                var combos := Expand(sels);
                var generated := SkusOf(names, combos);
                var existing := Of(old(variants), productId);
                skus == Some(generated) &&
                variants == Reconciled(old(variants), productId, generated, old(nextVariantId), stock, price) &&
                links == old(links) + CreatedLinks(existing, generated, combos, old(nextVariantId)) &&
                nextVariantId == old(nextVariantId) + Unmatched(existing, generated)
    {
      if productId !in products {
        return None;
      }
      var generated := Regenerate(productId, sels, stock, price);
      return Some(generated);
    }

    /** `updateVariants` for a product that exists. */
    method Regenerate(productId: int, sels: seq<Selection>, stock: int, price: int) returns (generated: seq<string>)
      requires Ascending(variants) && IdsBelow(variants, nextVariantId)
      modifies this`variants, this`links, this`nextVariantId
      ensures Ascending(variants) && IdsBelow(variants, nextVariantId)
      ensures var combos := Expand(sels);
              var existing := Of(old(variants), productId);
              generated == SkusOf(names, combos) &&
              variants == Reconciled(old(variants), productId, generated, old(nextVariantId), stock, price) &&
              links == old(links) + CreatedLinks(existing, generated, combos, old(nextVariantId)) &&
              nextVariantId == old(nextVariantId) + Unmatched(existing, generated)
    {
      var combos := GenerateCombinations(sels);
      var existing := Of(variants, productId);
      ghost var rows0, next0, links0 := variants, nextVariantId, links;
      generated := SaveCombinations(productId, combos, stock, price);
      ghost var t := Tables(variants, links, nextVariantId);
      DeleteUnlisted(existing, generated);
      PassesReconcile(rows0, productId, generated, combos, next0, links0, stock, price, t, variants);
    }

    /** The first loop of `updateVariants`: one SKU per combination; the
        first existing variant with that SKU is updated, otherwise a variant
        and its links are created. */
    method SaveCombinations(productId: int, combos: seq<Combination>, stock: int, price: int)
      returns (generated: seq<string>)
      requires Ascending(variants) && IdsBelow(variants, nextVariantId)
      modifies this`variants, this`links, this`nextVariantId
      ensures generated == SkusOf(names, combos)
      ensures Tables(variants, links, nextVariantId)
           == FirstPass(old(variants), productId, generated, combos, old(nextVariantId), old(links), stock, price)
    {
      ghost var rows0, next0, links0 := variants, nextVariantId, links;
      var existing := Of(variants, productId);
      var nm := names;
      generated := [];
      FirstPassEmpty(rows0, productId, next0, links0, stock, price);
      for i := 0 to |combos|
        invariant generated == SkusOf(nm, combos[..i])
        invariant Tables(variants, links, nextVariantId) == FirstPass(rows0, productId, generated, combos[..i], next0, links0, stock, price)
      {
        var sku := SaveNext(productId, existing, combos, i, stock, price, rows0, next0, links0, generated);
        generated := generated + [sku];
      }
      assert combos[..|combos|] == combos;
    }

    /** One iteration of the first loop: build the SKU of `combo`, then save
        it; the tables advance from `FirstPass` of the SKUs so far to
        `FirstPass` of one more. */
    method SaveNext(productId: int, existing: seq<Variant>, combos: seq<Combination>, i: int, stock: int, price: int,
                    ghost rows0: seq<Variant>, ghost next0: int, ghost links0: seq<VariantLink>, ghost skus: seq<string>)
                    returns (sku: string)
      requires Ascending(rows0) && IdsBelow(rows0, next0) && existing == Of(rows0, productId)
      requires 0 <= i < |combos| && skus == SkusOf(names, combos[..i])
      requires Tables(variants, links, nextVariantId) == FirstPass(rows0, productId, skus, combos[..i], next0, links0, stock, price)
      modifies this`variants, this`links, this`nextVariantId
      ensures skus + [sku] == SkusOf(names, combos[..i + 1])
      ensures Tables(variants, links, nextVariantId) == FirstPass(rows0, productId, skus + [sku], combos[..i + 1], next0, links0, stock, price)
    {
      sku := SkuFor(names, combos[i]);
      FirstPassStep(rows0, productId, skus, combos[..i], sku, combos[i], next0, links0, stock, price);
      SaveSku(productId, existing, sku, combos[i], stock, price);
      SkusOfStep(names, combos[..i], combos[i]);
      assert combos[..i + 1] == combos[..i] + [combos[i]];
    }

    /** One iteration of the first loop, for SKU `sku` of combination `combo`. */
    method SaveSku(productId: int, existing: seq<Variant>, sku: string, combo: Combination, stock: int, price: int)
      modifies this`variants, this`links, this`nextVariantId
      ensures Tables(variants, links, nextVariantId)
           == SaveOne(Tables(old(variants), old(links), old(nextVariantId)), existing, productId, sku, combo, stock, price)
    {
      var found := FirstWithSku(existing, sku);
      if found.Some? {
        variants := UpdateById(variants, found.value.id, stock, price);
      } else {
        var id := nextVariantId;
        variants := variants + [Variant(id, productId, sku, stock, price, None)];
        nextVariantId := nextVariantId + 1;
        AppendLinks(id, combo);
      }
    }

    /** The second loop of `updateVariants`: every existing variant whose
        SKU was not generated is deleted. */
    method DeleteUnlisted(existing: seq<Variant>, generated: seq<string>)
      modifies this`variants
      ensures variants == Prune(old(variants), Doomed(existing, generated))
    {
      ghost var mid := variants;
      assert existing[..0] == [];
      assert Doomed(existing[..0], generated) == {};
      PruneNothing(mid, {});
      for j := 0 to |existing|
        invariant variants == Prune(mid, Doomed(existing[..j], generated))
      {
        DoomedStep(existing, generated, j);
        if existing[j].sku !in generated {
          PruneTwice(mid, Doomed(existing[..j], generated), {existing[j].id});
          variants := Prune(variants, {existing[j].id});
        } else {
          assert Doomed(existing[..j + 1], generated) == Doomed(existing[..j], generated);
        }
      }
      assert existing[..|existing|] == existing;
    }

    /** `updateProductAndVariants`: an unknown product changes nothing;
        otherwise the product takes the request's fields and the variant and
        link tables end up as `VariantSync.Synced` describes. */
    method UpdateProductAndVariants(productId: int, form: Product, ds: seq<VS.VariantData>) returns (found: bool)
      requires Valid()
      modifies this`products, this`variants, this`links, this`nextVariantId
      ensures Valid()
      ensures found <==> productId in old(products)
      ensures !found ==>
                products == old(products) && variants == old(variants) && links == old(links) && nextVariantId == old(nextVariantId)
      ensures found ==>
                var t := VS.Synced(Tables(old(variants), old(links), old(nextVariantId)), productId, ds);
                products == old(products)[productId := form] &&
                variants == t.variants && links == t.links && nextVariantId == t.next
    {
      if productId !in products {
        return false;
      }
      products := products[productId := form];
      SyncVariants(productId, ds);
      return true;
    }

    /** The variant part of `updateProductAndVariants` for a known product:
        save every entry, then destroy the product's variants no entry named. */
    method SyncVariants(productId: int, ds: seq<VS.VariantData>)
      requires Ascending(variants) && IdsBelow(variants, nextVariantId)
      modifies this`variants, this`links, this`nextVariantId
      ensures Tables(variants, links, nextVariantId) == VS.Synced(Tables(old(variants), old(links), old(nextVariantId)), productId, ds)
      ensures Ascending(variants) && IdsBelow(variants, nextVariantId)
    {
      ghost var t0 := Tables(variants, links, nextVariantId);
      var ids := SaveEntries(productId, ds);
      variants := Prune(variants, set x | x in ids);
      VS.SyncedValid(t0, productId, ds);
    }

    /** The loop of `updateProductAndVariants`: saves each entry, replaces
        its links, and returns the product's original variant ids that no
        entry named. */
    method SaveEntries(productId: int, ds: seq<VS.VariantData>) returns (ids: seq<int>)
      modifies this`variants, this`links, this`nextVariantId
      ensures Tables(variants, links, nextVariantId) == VS.SaveAll(Tables(old(variants), old(links), old(nextVariantId)), productId, ds)
      ensures ids == VS.Remaining(VS.IdsOf(old(variants), productId), ds)
    {
      ids := VS.IdsOf(variants, productId);
      ghost var t0 := Tables(variants, links, nextVariantId);
      for i := 0 to |ds|
        invariant Tables(variants, links, nextVariantId) == VS.SaveAll(t0, productId, ds[..i])
        invariant ids == VS.Remaining(VS.IdsOf(t0.variants, productId), ds[..i])
      {
        SaveEntry(productId, ds[i]);
        if ds[i].id.Some? {
          ids := VS.Remove(ids, ds[i].id.value);
        }
        VS.SaveAllNext(t0, productId, ds, i, VS.IdsOf(t0.variants, productId));
      }
      assert ds[..|ds|] == ds;
    }

    /** One iteration: `find` the entry's variant or make a new one, `save`
        it, and replace its attribute links. */
    method SaveEntry(productId: int, d: VS.VariantData)
      modifies this`variants, this`links, this`nextVariantId
      ensures Tables(variants, links, nextVariantId) == VS.Step(Tables(old(variants), old(links), old(nextVariantId)), productId, d)
    {
      var row := VS.Lookup(variants, d.id);
      var w: Variant;
      if row.Some? {
        w := Variant(row.value.id, productId, d.sku, d.stock, d.price, row.value.thumbnail);
        variants := VS.Replace(variants, w);
      } else {
        w := Variant(nextVariantId, productId, d.sku, d.stock, d.price, None);
        variants := variants + [w];
        nextVariantId := nextVariantId + 1;
      }
      links := VS.DropLinks(links, w.id);
      AppendLinks(w.id, d.attributes);
    }

    /** The image part of `update`: nothing happens for an unknown product or
        when the request has no `images` key; otherwise the image table ends
        up as `Gallery.Updated` describes. */
    method UpdateImages(productId: int, request: Option<seq<G.ImageData>>) returns (found: bool)
      requires Valid()
      modifies this`images, this`nextImageId
      ensures Valid()
      ensures found <==> productId in products
      ensures !found || request.None? ==> images == old(images) && nextImageId == old(nextImageId)
      ensures found && request.Some? ==>
                G.Album(images, nextImageId) == G.Updated(G.Album(old(images), old(nextImageId)), productId, request.value)
    {
      if productId !in products {
        return false;
      }
      if request.None? {
        return true;
      }
      var ds := request.value;
      var requestIds := G.RequestIds(ds);
      var existingIds := G.ImageIdsOf(images, productId);
      var toDelete := G.Diff(existingIds, requestIds);
      G.DropAscending(images, set x | x in toDelete);
      images := G.DropImages(images, set x | x in toDelete);
      ghost var a0 := G.Album(images, nextImageId);
      ApplyImageEntries(productId, ds);
      G.ApplyAllAscending(a0, productId, ds);
      return true;
    }

    /** The loop of the image part of `update`: an entry with an id sets that
        image's thumbnail flag; an entry with a new file adds an image. */
    method ApplyImageEntries(productId: int, ds: seq<G.ImageData>)
      modifies this`images, this`nextImageId
      ensures G.Album(images, nextImageId) == G.ApplyAll(G.Album(old(images), old(nextImageId)), productId, ds)
    {
      ghost var a0 := G.Album(images, nextImageId);
      for i := 0 to |ds|
        invariant G.Album(images, nextImageId) == G.ApplyAll(a0, productId, ds[..i])
      {
        var d := ds[i];
        if d.id.Some? {
          images := G.SetFlag(images, d.id.value, G.OrFalse(d.isThumbnail));
        } else if d.upload.Some? {
          images := images + [Image(nextImageId, productId, d.upload.value, G.OrFalse(d.isThumbnail))];
          nextImageId := nextImageId + 1;
        }
        assert ds[..i + 1][..i] == ds[..i];
      }
      assert ds[..|ds|] == ds;
    }

    /** `updateMultipleVariants`: the variant table ends up as
        `Patches.PatchAll` describes. */
    method UpdateMultipleVariants(qs: seq<P.VariantPatch>, uploads: map<int, string>)
      requires Valid()
      modifies this`variants
      ensures Valid()
      ensures variants == P.PatchAll(old(variants), qs, uploads)
    {
      ghost var rows0 := variants;
      for i := 0 to |qs|
        invariant variants == P.PatchAll(rows0, qs[..i], uploads)
      {
        var q := qs[i];
        var found := FindVariant(variants, q.id);
        if found.Some? {
          variants := P.PatchRows(variants, q, uploads);
        } else {
          assert P.PatchRows(variants, q, uploads) == variants;
        }
        assert qs[..i + 1][..i] == qs[..i];
      }
      assert qs[..|qs|] == qs;
      forall k | 0 <= k < |rows0| ensures variants[k].id == rows0[k].id {
        P.PatchAllAt(rows0, qs, uploads, k);
      }
      forall v | v in variants ensures v.id < nextVariantId {
        var k :| 0 <= k < |variants| && variants[k] == v;
        assert rows0[k] in rows0;
      }
    }
  }
}
