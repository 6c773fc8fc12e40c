/** What `updateMultipleVariants` does to the variant table: each entry
    names a variant by id; a found variant takes the entry's price and stock
    where given and keeps its own otherwise, and its thumbnail becomes the
    URL of the file uploaded for that id, or null when none was. */
module Patches {
  import opened Shop

  /** One entry of the request's `variants` list. */
  datatype VariantPatch = VariantPatch(id: int, price: Option<int>, stock: Option<int>)

  /** `$value ?? $fallback`. */
  function OrElse(o: Option<int>, fallback: int): (r: int)
    ensures o.None? ==> r == fallback
    ensures o.Some? ==> r == o.value
  {
    if o.Some? then o.value else fallback
  }

  /** The thumbnail a patched variant gets: the URL uploaded under its id,
      or null. */
  function Thumbnail(uploads: map<int, string>, id: int): (r: Option<string>)
    ensures r.Some? <==> id in uploads
  {
    if id in uploads then Some(uploads[id]) else None
  }

  /** `$variant->update([...])` for one entry. */
  function Patched(v: Variant, q: VariantPatch, uploads: map<int, string>): Variant
  {
    v.(price := OrElse(q.price, v.price), stock := OrElse(q.stock, v.stock), thumbnail := Thumbnail(uploads, q.id))
  }

  /** One iteration: the entry applied to the row with its key, if any. */
  function PatchRows(rows: seq<Variant>, q: VariantPatch, uploads: map<int, string>): (r: seq<Variant>)
    ensures |r| == |rows|
  {
    seq(|rows|, k requires 0 <= k < |rows| => if rows[k].id == q.id then Patched(rows[k], q, uploads) else rows[k])
  }

  /** The whole loop. */
  function PatchAll(rows: seq<Variant>, qs: seq<VariantPatch>, uploads: map<int, string>): (r: seq<Variant>)
    ensures |r| == |rows|
  {
    if qs == [] then rows else PatchRows(PatchAll(rows, qs[..|qs| - 1], uploads), qs[|qs| - 1], uploads)
  }

  /** The last price given for `x` in the request, else `fallback`. */
  function LastPrice(qs: seq<VariantPatch>, x: int, fallback: int): int
  {
    if qs == [] then fallback
    else if qs[|qs| - 1].id == x && qs[|qs| - 1].price.Some? then qs[|qs| - 1].price.value
    else LastPrice(qs[..|qs| - 1], x, fallback)
  }

  /** The last stock given for `x` in the request, else `fallback`. */
  function LastStock(qs: seq<VariantPatch>, x: int, fallback: int): int
  {
    if qs == [] then fallback
    else if qs[|qs| - 1].id == x && qs[|qs| - 1].stock.Some? then qs[|qs| - 1].stock.value
    else LastStock(qs[..|qs| - 1], x, fallback)
  }

  /** Whether some entry names `x`. */
  predicate Names(qs: seq<VariantPatch>, x: int)
  {
    exists i :: 0 <= i < |qs| && qs[i].id == x
  }

  /** Each row after the loop, field by field: price and stock are the last
      ones the request gives for its key, else its own; a named row's
      thumbnail is the upload for its key or null; an unnamed row is untouched. */
  lemma {:induction false} PatchAllAt(rows: seq<Variant>, qs: seq<VariantPatch>, uploads: map<int, string>, k: int)
    requires 0 <= k < |rows|
    ensures var v, w := rows[k], PatchAll(rows, qs, uploads)[k];
            w.id == v.id && w.productId == v.productId && w.sku == v.sku &&
            w.price == LastPrice(qs, v.id, v.price) && w.stock == LastStock(qs, v.id, v.stock) &&
            w.thumbnail == (if Names(qs, v.id) then Thumbnail(uploads, v.id) else v.thumbnail)
  {
    if qs != [] {
      var m := |qs| - 1;
      PatchAllAt(rows, qs[..m], uploads, k);
      var v := rows[k];
      if Names(qs, v.id) && qs[m].id != v.id {
        var i :| 0 <= i < |qs| && qs[i].id == v.id;
        assert qs[..m][i] == qs[i];
      }
      if Names(qs[..m], v.id) {
        var i :| 0 <= i < m && qs[..m][i].id == v.id;
        assert qs[i] == qs[..m][i];
      }
    }
  }

  /** A request that names no existing key leaves the table as it was. */
  lemma {:induction false} PatchUnknown(rows: seq<Variant>, qs: seq<VariantPatch>, uploads: map<int, string>)
    requires forall i :: 0 <= i < |qs| ==> forall v :: v in rows ==> v.id != qs[i].id
    ensures PatchAll(rows, qs, uploads) == rows
  {
    if qs != [] {
      var m := |qs| - 1;
      PatchUnknown(rows, qs[..m], uploads);
      assert PatchRows(rows, qs[m], uploads) == rows;
    }
  }
}
