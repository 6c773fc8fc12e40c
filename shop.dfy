/** Rows of the shop's catalogue tables, shared by the product and the cart
    controllers. Prices are integers in minor units. */
module Shop {

  datatype Option<T> = None | Some(value: T)

  /** A `products` row: the fields the two controllers read or write. */
  datatype Product = Product(name: string, price: int, quantity: int)

  /** A `product_variants` row. */
  datatype Variant = Variant(id: int, productId: int, sku: string, stock: int, price: int, thumbnail: Option<string>)

  /** A `variant_attributes` row: links a variant to one attribute value. */
  datatype VariantLink = VariantLink(variantId: int, attributeId: int, valueId: int)

  /** A `product_images` row. */
  datatype Image = Image(id: int, productId: int, url: string, isThumbnail: bool)

  /** The variant and link tables and the next auto-increment key of
      `product_variants`, as a loop over variants writes them. */
  datatype Tables = Tables(variants: seq<Variant>, links: seq<VariantLink>, next: int)

  /** A table whose rows come in strictly increasing primary-key order, as
      an auto-increment key hands them out. */
  ghost predicate Ascending(rows: seq<Variant>)
  {
    forall i, j :: 0 <= i < j < |rows| ==> rows[i].id < rows[j].id
  }

  /** Every key of the table lies below the next auto-increment value. */
  ghost predicate IdsBelow(rows: seq<Variant>, next: int)
  {
    forall v :: v in rows ==> v.id < next
  }

  /** The image table's keys increase along the table. */
  ghost predicate ImagesAscending(images: seq<Image>)
  {
    forall i, j :: 0 <= i < j < |images| ==> images[i].id < images[j].id
  }

  /** Every image key lies below the next auto-increment value. */
  ghost predicate ImageIdsBelow(images: seq<Image>, next: int)
  {
    forall m :: m in images ==> m.id < next
  }

  /** `ProductVariant::find($id)`. */
  function FindVariant(rows: seq<Variant>, id: int): (r: Option<Variant>)
    ensures r.Some? ==> r.value in rows && r.value.id == id
    ensures r.None? <==> forall v :: v in rows ==> v.id != id
  {
    if rows == [] then None
    else if rows[0].id == id then Some(rows[0])
    else FindVariant(rows[1..], id)
  }

  /** In a table with increasing keys a key names at most one row. */
  lemma {:induction false} KeyUnique(rows: seq<Variant>, a: Variant, b: Variant)
    requires Ascending(rows) && a in rows && b in rows && a.id == b.id
    ensures a == b
  {
    var i :| 0 <= i < |rows| && rows[i] == a;
    var j :| 0 <= j < |rows| && rows[j] == b;
    if i < j || j < i {
      assert false;
    }
  }
}
