/** What the image part of the product `update` does to the image table:
    the product's images whose id the request does not carry are destroyed,
    then each entry either sets the thumbnail flag of the image it names or,
    carrying a new upload, adds an image. */
module Gallery {
  import opened Shop

  /** One entry of the request's `images` list; `upload` is the URL the
      file's upload produced, if the entry carries a file. */
  datatype ImageData = ImageData(id: Option<int>, isThumbnail: Option<bool>, upload: Option<string>)

  /** The image table and its next auto-increment key. */
  datatype Album = Album(images: seq<Image>, next: int)

  /** `$imageData['is_thumbnail'] ?? false`. */
  function OrFalse(b: Option<bool>): (r: bool)
    ensures r <==> b == Some(true)
  {
    if b.Some? then b.value else false
  }

  /** The ids the request carries, in request order. */
  function RequestIds(ds: seq<ImageData>): (r: seq<int>)
    ensures forall x :: x in r <==> exists i :: 0 <= i < |ds| && ds[i].id == Some(x)
  {
    if ds == [] then []
    else
      var init := ds[..|ds| - 1];
      assert forall i :: 0 <= i < |init| ==> init[i] == ds[i];
      RequestIds(init) + (if ds[|ds| - 1].id.Some? then [ds[|ds| - 1].id.value] else [])
  }

  /** `$product->productImages()->pluck('id')`. */
  function ImageIdsOf(images: seq<Image>, p: int): (r: seq<int>)
    ensures forall x :: x in r <==> exists m :: m in images && m.productId == p && m.id == x
  {
    if images == [] then []
    else (if images[0].productId == p then [images[0].id] else []) + ImageIdsOf(images[1..], p)
  }

  /** `array_diff($a, $b)`. */
  function Diff(a: seq<int>, b: seq<int>): (r: seq<int>)
    ensures forall x :: x in r <==> x in a && x !in b
  {
    if a == [] then []
    else (if a[0] in b then [] else [a[0]]) + Diff(a[1..], b)
  }

  /** `ProductImage::destroy($ids)`. */
  function DropImages(images: seq<Image>, ids: set<int>): (r: seq<Image>)
    ensures forall m :: m in r <==> m in images && m.id !in ids
  {
    if images == [] then []
    else (if images[0].id in ids then [] else [images[0]]) + DropImages(images[1..], ids)
  }

  /** `ProductImage::find($id)->update(['is_thumbnail' => $flag])`; an
      unknown id changes nothing. */
  function SetFlag(images: seq<Image>, id: int, flag: bool): (r: seq<Image>)
    ensures |r| == |images|
  {
    seq(|images|, k requires 0 <= k < |images| => if images[k].id == id then images[k].(isThumbnail := flag) else images[k])
  }

  /** One iteration of the loop over the request's entries. */
  function Apply(a: Album, p: int, d: ImageData): Album
  {
    if d.id.Some? then a.(images := SetFlag(a.images, d.id.value, OrFalse(d.isThumbnail)))
    else if d.upload.Some? then Album(a.images + [Image(a.next, p, d.upload.value, OrFalse(d.isThumbnail))], a.next + 1)
    else a
  }

  /** The whole loop. */
  function ApplyAll(a: Album, p: int, ds: seq<ImageData>): Album
  {
    if ds == [] then a else Apply(ApplyAll(a, p, ds[..|ds| - 1]), p, ds[|ds| - 1])
  }

  /** How many entries carry no id but a new file. */
  function Uploads(ds: seq<ImageData>): nat
  {
    if ds == [] then 0
    else Uploads(ds[..|ds| - 1]) + (if ds[|ds| - 1].id.None? && ds[|ds| - 1].upload.Some? then 1 else 0)
  }

  /** The product's image ids the request does not carry. */
  function Doomed(images: seq<Image>, p: int, ds: seq<ImageData>): set<int>
  {
    set x | x in Diff(ImageIdsOf(images, p), RequestIds(ds))
  }

  /** The image table after the image part of `update` for product `p`. */
  function Updated(a: Album, p: int, ds: seq<ImageData>): Album
  {
    ApplyAll(a.(images := DropImages(a.images, Doomed(a.images, p, ds))), p, ds)
  }

  /** The last entry of the request that names `x`. */
  function LastNaming(ds: seq<ImageData>, x: int): (r: Option<ImageData>)
    ensures r.Some? ==> r.value in ds && r.value.id == Some(x)
  {
    if ds == [] then None
    else if ds[|ds| - 1].id == Some(x) then Some(ds[|ds| - 1])
    else LastNaming(ds[..|ds| - 1], x)
  }

  /** An image as the loop leaves it: the last entry naming it decides its
      thumbnail flag. */
  function Flagged(m: Image, ds: seq<ImageData>): Image
  {
    match LastNaming(ds, m.id)
    case None => m
    case Some(d) => m.(isThumbnail := OrFalse(d.isThumbnail))
  }

  // ---------------------------------------------------------------------
  // Lemmas

  lemma ImageKeyUnique(images: seq<Image>, a: Image, b: Image)
    requires ImagesAscending(images) && a in images && b in images && a.id == b.id
    ensures a == b
  {
    var i :| 0 <= i < |images| && images[i] == a;
    var j :| 0 <= j < |images| && images[j] == b;
    if i < j || j < i {
      assert false;
    }
  }

  /** The loop keeps every image at its place, sets its flag as the last
      entry naming it says, and appends one image per new upload with
      consecutive fresh keys. */
  lemma {:induction false} ApplyAllShape(a: Album, p: int, ds: seq<ImageData>)
    ensures var b := ApplyAll(a, p, ds);
            |b.images| == |a.images| + Uploads(ds) && b.next == a.next + Uploads(ds)
    ensures var b := ApplyAll(a, p, ds);
            forall k :: 0 <= k < |a.images| ==> b.images[k] == Flagged(a.images[k], ds)
    ensures var b := ApplyAll(a, p, ds);
            forall k :: |a.images| <= k < |b.images| ==> b.images[k].id == a.next + (k - |a.images|) && b.images[k].productId == p
  {
    if ds != [] {
      var m := |ds| - 1;
      var mid := ApplyAll(a, p, ds[..m]);
      ApplyAllShape(a, p, ds[..m]);
      var b := ApplyAll(a, p, ds);
      assert b == Apply(mid, p, ds[m]);
      forall k | 0 <= k < |a.images| ensures b.images[k] == Flagged(a.images[k], ds) {
        if ds[m].id.None? && ds[m].upload.Some? {
          assert b.images[k] == mid.images[k];
        }
      }
    }
  }

  /** The loop keeps the keys increasing and below the next auto-increment value. */
  lemma ApplyAllAscending(a: Album, p: int, ds: seq<ImageData>)
    requires ImagesAscending(a.images) && ImageIdsBelow(a.images, a.next)
    ensures ImagesAscending(ApplyAll(a, p, ds).images) && ImageIdsBelow(ApplyAll(a, p, ds).images, ApplyAll(a, p, ds).next)
  {
    var b := ApplyAll(a, p, ds);
    ApplyAllShape(a, p, ds);
    assert forall k :: 0 <= k < |a.images| ==> b.images[k].id == a.images[k].id;
    forall i, j | 0 <= i < j < |b.images| ensures b.images[i].id < b.images[j].id {
      if i < |a.images| {
        assert a.images[i] in a.images;
      }
    }
    forall m | m in b.images ensures m.id < b.next {
      var k :| 0 <= k < |b.images| && b.images[k] == m;
      if k < |a.images| {
        assert a.images[k] in a.images;
      }
    }
  }

  lemma {:induction false} DropAscending(images: seq<Image>, ids: set<int>)
    requires ImagesAscending(images)
    ensures ImagesAscending(DropImages(images, ids))
  {
    if images != [] {
      DropAscending(images[1..], ids);
      forall m | m in DropImages(images[1..], ids) ensures images[0].id < m.id {
        var j :| 0 <= j < |images[1..]| && images[1..][j] == m;
        assert images[j + 1] == m;
      }
    }
  }

  /** The request keeps an existing image of the product iff it carries the
      image's id. */
  lemma UpdatedKeeps(a: Album, p: int, ds: seq<ImageData>)
    requires ImagesAscending(a.images) && ImageIdsBelow(a.images, a.next)
    ensures forall m :: m in a.images && m.productId == p ==>
              ((exists n :: n in Updated(a, p, ds).images && n.id == m.id) <==> m.id in RequestIds(ds))
  {
    forall m | m in a.images && m.productId == p
      ensures (exists n :: n in Updated(a, p, ds).images && n.id == m.id) <==> m.id in RequestIds(ds)
    {
      if m.id in RequestIds(ds) {
        NamedKept(a, p, ds, m);
      } else {
        UnnamedDropped(a, p, ds, m);
      }
    }
  }

  lemma NamedKept(a: Album, p: int, ds: seq<ImageData>, m: Image)
    requires m in a.images && m.id in RequestIds(ds)
    ensures exists n :: n in Updated(a, p, ds).images && n.id == m.id
  {
    var kept := DropImages(a.images, Doomed(a.images, p, ds));
    var b := Updated(a, p, ds);
    ApplyAllShape(a.(images := kept), p, ds);
    assert m in kept;
    var k :| 0 <= k < |kept| && kept[k] == m;
    assert b.images[k] in b.images;
  }

  lemma UnnamedDropped(a: Album, p: int, ds: seq<ImageData>, m: Image)
    requires ImageIdsBelow(a.images, a.next)
    requires m in a.images && m.productId == p && m.id !in RequestIds(ds)
    ensures forall n :: n in Updated(a, p, ds).images ==> n.id != m.id
  {
    var kept := DropImages(a.images, Doomed(a.images, p, ds));
    var b := Updated(a, p, ds);
    ApplyAllShape(a.(images := kept), p, ds);
    assert m.id in Doomed(a.images, p, ds);
    forall n | n in b.images ensures n.id != m.id {
      var k :| 0 <= k < |b.images| && b.images[k] == n;
      if k < |kept| {
        assert kept[k] in kept;
      }
    }
  }

  /** Images of other products all stay, with the flag the request gives them. */
  lemma UpdatedSparesOthers(a: Album, p: int, ds: seq<ImageData>)
    requires ImagesAscending(a.images)
    ensures forall m :: m in a.images && m.productId != p ==> Flagged(m, ds) in Updated(a, p, ds).images
  {
    var kept := DropImages(a.images, Doomed(a.images, p, ds));
    var b := Updated(a, p, ds);
    ApplyAllShape(a.(images := kept), p, ds);
    forall m | m in a.images && m.productId != p ensures Flagged(m, ds) in b.images {
      forall n | n in a.images && n.productId == p ensures n.id != m.id {
        if n.id == m.id {
          ImageKeyUnique(a.images, n, m);
        }
      }
      var k :| 0 <= k < |kept| && kept[k] == m;
      assert b.images[k] in b.images;
    }
  }
}
