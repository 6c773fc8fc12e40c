# Catalogue variants and cart workflow of a shop API, in Dafny

This project models two controllers of a small shop's HTTP API and proves
properties of the model.

**Product controller** (`ProductController.php`). These actions write the
catalogue tables:

- `generateCombinations` builds every combination of one value per attribute.
- `updateVariants` turns each combination into a SKU. It refreshes or creates
  one variant per SKU and deletes the product's variants whose SKU was not
  generated.
- `updateProductAndVariants` overwrites the product. It saves every variant
  entry of the request and destroys the product's variants that no entry named.
- The image part of `update` destroys the product's images the request does
  not name. It then sets thumbnail flags and adds uploaded images.
- `updateMultipleVariants` patches price, stock and thumbnail per variant, each
  field falling back to its stored value.

**Cart controller** (`CartController.php`). A signed-in customer's cart is the
*open order*: their order with status 1, plus its `order_items` rows. A guest's
cart is a list of lines in the session. The actions are:

- `addToCart`, `updateCart`, `removeFromCart` and `clearCart` change that cart.
  For a signed-in customer they keep the order's `total_amount` up to date step
  by step.
- `checkout` recomputes the total from the cart and chooses the status: 1 for
  online payment, 2 otherwise. For a guest it creates the order and its items.
- `cancelOrder` moves a confirmed order (2) to cancelled (5).

The database tables are fields of two classes, one per controller:

- `CatalogStore.Catalog` holds products, variants, attribute links, images,
  attribute value names and the auto-increment counters.
- `CartStore.Store` holds the goods, orders, order items, the session cart and
  the counters.

Each action is a method of its class. The method takes the controller's
steps: its loops are `for`/`while` loops with invariants. It is proved equal to
a function over the old tables, for example `Reconcile.Reconciled`,
`VariantSync.Synced`, `Gallery.Updated`, `Patches.PatchAll`,
`SessionCart.Merged` or `Orders.PutAll`. Lemmas then state what those functions
mean, in the terms the controllers and their callers rely on.

Modules:

- `Shop`: shared rows.
- `Combinations`: the cartesian product.
- `Skus`: SKU text and how it decodes.
- `Reconcile`: `updateVariants`.
- `VariantSync`: `updateProductAndVariants`.
- `Gallery`: the image diff.
- `Patches`: `updateMultipleVariants`.
- `SessionCart`: the guest cart.
- `Orders`: orders, items, totals and the status codes.
- `CatalogStore` and `CartStore`: the classes.

Behaviour of the code worth knowing before reading the contracts:

- **Add-to-cart total.** The stored `total_amount` is not kept equal to the
  item sum. The signed-in `addToCart` adds `price × quantity added` to
  `total_amount`, but `updateOrCreate` also re-prices the quantity already in
  the cart. So the stored total drifts away from the sum of the items by
  exactly that re-pricing. `CartStore.Store.AddToCart` states the drift and
  `Orders.AddDrifts` gives a concrete instance. `updateCart` and
  `removeFromCart` leave the drift unchanged. `clearCart` and `checkout`
  reset it to 0: after `clearCart` both the total and the item sum are 0,
  and `checkout` overwrites the total with the item sum.
- **Status at checkout.** Line 479 of `CartController.php` leaves an
  online-paid order at status 1 and sets status 2 otherwise.
  `Orders.CheckoutStatus` states this.
- **Missing product or variant in `addToCart`.** This is rejected by the
  request validation (422) before the 404 branch can be reached. The model
  answers `Invalid` for it.

## Model

| member | source | states |
|---|---|---|
| Combinations.GenerateCombinations | app/Http/Controllers/Api/ProductController.php:296-311 | the nested loops return exactly `Expand(sels)`, the cartesian product whose size, shape and order the next three lemmas give |
| Combinations.ExpandCount | app/Http/Controllers/Api/ProductController.php:296-311 | the number of combinations is the product of the attributes' value counts; no attributes give one empty combination; an attribute with no values gives none |
| Combinations.ExpandShape | app/Http/Controllers/Api/ProductController.php:300-307 | every combination has one entry per attribute, in request order, each holding a value listed for that attribute |
| Combinations.ExpandAt | app/Http/Controllers/Api/ProductController.php:300-307 | every choice of one value per attribute occurs, at the position given by its mixed-radix rank, the first attribute varying slowest |
| Combinations.RankMonotone | app/Http/Controllers/Api/ProductController.php:300-307 | combinations come out in lexicographic order of the chosen value positions |
| Combinations.CrossLength | app/Http/Controllers/Api/ProductController.php:301-306 | one pass of the inner loops multiplies the number of combinations by the attribute's value count |
| Skus.SkuParts | app/Http/Controllers/Api/ProductController.php:243-248 | one part per entry of the combination, in order, each the name of the entry's value |
| Skus.SkuFor | app/Http/Controllers/Api/ProductController.php:243-251 | the loop builds `Sku(names, combo)`: `SKU-` followed by the value names joined with `-` (decoded by `SkuDecodes`) |
| Skus.SkusOf | app/Http/Controllers/Api/ProductController.php:242-252 | one SKU per combination |
| Skus.SplitJoin | app/Http/Controllers/Api/ProductController.php:251 | splitting a dash-joined list at dashes gives the list back when no part contains a dash |
| Skus.SkuDecodes | app/Http/Controllers/Api/ProductController.php:251 | a SKU starts with `SKU-` and the rest splits back into the value names, provided no name contains a dash |
| Skus.SkuInjective | app/Http/Controllers/Api/ProductController.php:251 | two combinations with dash-free names share a SKU only if they have the same value names |
| Skus.DashedNamesCollide | app/Http/Controllers/Api/ProductController.php:251 | with dashes in value names, two different combinations get the same SKU `SKU-a-b-c` |
| Skus.ColourOnly | app/Http/Controllers/Api/ProductController.php:296-311 | a single attribute with two values gives two one-entry combinations |
| Skus.ColourSizeCombinations | app/Http/Controllers/Api/ProductController.php:296-311 | two attributes of two values give four combinations, first attribute varying slowest |
| Skus.ColourSizeSkus | app/Http/Controllers/Api/ProductController.php:242-252 | colour × size gives SKUs `SKU-Red-S`, `SKU-Red-M`, `SKU-Blue-S`, `SKU-Blue-M`, in that order |
| Skus.SkuOfPair | app/Http/Controllers/Api/ProductController.php:251 | the SKU of a two-entry combination is the prefix, the first name, a dash and the second name |
| Reconcile.Of | app/Http/Controllers/Api/ProductController.php:236 | the product's existing variants are exactly the rows with its product id |
| Reconcile.FirstWithSku | app/Http/Controllers/Api/ProductController.php:255 | a variant found by SKU is one of the product's rows and carries that SKU |
| Reconcile.FirstWithSkuNone | app/Http/Controllers/Api/ProductController.php:255 | no variant is found iff no existing variant has that SKU |
| Reconcile.FirstIsSmallest | app/Http/Controllers/Api/ProductController.php:255 | the variant found is the one with the lowest id among those with that SKU |
| Reconcile.Prune | app/Http/Controllers/Api/ProductController.php:282-286 | deleting a set of ids keeps exactly the rows whose id is not in it |
| Reconcile.PruneTwice | app/Http/Controllers/Api/ProductController.php:282-286 | deleting one set and then another is deleting their union |
| Reconcile.DoomedKeys | app/Http/Controllers/Api/ProductController.php:282-286 | a row is deleted iff it belongs to the product and its SKU was not generated; deleted ids are all below the next key |
| Reconcile.CreatedRows | app/Http/Controllers/Api/ProductController.php:263-269 | one new variant per generated SKU that has no existing variant, with consecutive fresh ids, the product id, the request's stock and price, and no thumbnail |
| Reconcile.CreatedCovers | app/Http/Controllers/Api/ProductController.php:263-269 | every generated SKU without an existing variant gets a new variant |
| Reconcile.NothingCreated | app/Http/Controllers/Api/ProductController.php:257-269 | when every generated SKU already has a variant, nothing is created |
| Reconcile.TouchAscending | app/Http/Controllers/Api/ProductController.php:257-262 | updating stock and price in place keeps the variant keys increasing |
| Reconcile.FirstPassAscending | app/Http/Controllers/Api/ProductController.php:242-279 | after the first loop the keys still increase and stay below the advanced next key |
| Reconcile.ReconcileSurvivors | app/Http/Controllers/Api/ProductController.php:282-286 | an existing variant of the product survives iff its SKU was generated; variants of other products all survive unchanged |
| Reconcile.ReconcileRefreshes | app/Http/Controllers/Api/ProductController.php:255-262 | for a generated SKU, the lowest-id variant carrying it gets the request's stock and price; later duplicates survive untouched |
| Reconcile.ReconcileCreates | app/Http/Controllers/Api/ProductController.php:263-269 | every new row belongs to the product, has a generated SKU with no existing variant and the request's stock and price; every such SKU gets a new row |
| Reconcile.KeptSkus | app/Http/Controllers/Api/ProductController.php:242-286 | afterwards every variant of the product has a generated SKU |
| Reconcile.PresentSkus | app/Http/Controllers/Api/ProductController.php:242-286 | afterwards every generated SKU has a variant of the product |
| Reconcile.FirstSurvives | app/Http/Controllers/Api/ProductController.php:255-262 | the refreshed first variant of each generated SKU is among the product's variants afterwards |
| Reconcile.FirstFresh | app/Http/Controllers/Api/ProductController.php:255-269 | afterwards the first variant with a generated SKU carries the request's stock and price |
| Reconcile.ReconciledAscending | app/Http/Controllers/Api/ProductController.php:218-293 | the variant keys stay increasing and below the next key |
| Reconcile.Stable | app/Http/Controllers/Api/ProductController.php:242-286 | a table that already matches the SKUs creates nothing, deletes nothing and is left as it is |
| Reconcile.NoLinksCreated | app/Http/Controllers/Api/ProductController.php:263-277 | when every generated SKU already has a variant, the first loop inserts no attribute links |
| Reconcile.ReconcileIdempotent | app/Http/Controllers/Api/ProductController.php:218-293 | running `updateVariants` again with the same request inserts no variant and no attribute link, leaves the auto-increment value where it is, deletes nothing and leaves the variant table unchanged |
| Reconcile.FirstPassStep | app/Http/Controllers/Api/ProductController.php:254-278 | one iteration of the first loop is `SaveOne` applied to the tables so far |
| CatalogStore.Catalog.UpdateVariants | app/Http/Controllers/Api/ProductController.php:218-293 | an unknown product changes nothing and returns no SKUs; otherwise it returns the generated SKUs and leaves variants, links and the next key as `Reconciled`/`CreatedLinks` describe, keeping keys increasing |
| CatalogStore.Catalog.Regenerate | app/Http/Controllers/Api/ProductController.php:229-286 | for a known product: generated SKUs, then first loop, then deletion loop, giving the reconciled tables |
| CatalogStore.Catalog.SaveCombinations | app/Http/Controllers/Api/ProductController.php:242-279 | the first loop returns one SKU per combination and leaves the tables as `FirstPass` |
| CatalogStore.Catalog.SaveSku | app/Http/Controllers/Api/ProductController.php:254-278 | an existing SKU updates the first matching variant's stock and price; a new one appends a variant with the next key and its links |
| CatalogStore.Catalog.AppendLinks | app/Http/Controllers/Api/ProductController.php:272-277 | the links table grows by one link per combination entry, in order |
| CatalogStore.Catalog.DeleteUnlisted | app/Http/Controllers/Api/ProductController.php:282-286 | the deletion loop removes exactly the existing variants whose SKU was not generated |
| VariantSync.Lookup | app/Http/Controllers/Api/ProductController.php:423 | an entry without id finds nothing; a found row has the entry's id |
| VariantSync.Saved | app/Http/Controllers/Api/ProductController.php:423-429 | the saved row carries the product id, SKU, stock and price of the entry |
| VariantSync.DropLinks | app/Http/Controllers/Api/ProductController.php:432 | deleting a variant's links keeps exactly the other variants' links |
| VariantSync.IdsOf | app/Http/Controllers/Api/ProductController.php:418 | the listed ids are exactly those of the product's variants |
| VariantSync.Remove | app/Http/Controllers/Api/ProductController.php:442 | removing an id keeps every other id |
| VariantSync.RemainingIff | app/Http/Controllers/Api/ProductController.php:440-443 | after the loop the ids left for deletion are the original ids that no entry named |
| VariantSync.LastNamingNamed | app/Http/Controllers/Api/ProductController.php:421-443 | some entry names an id iff it is in the set of named ids |
| VariantSync.StepChanges | app/Http/Controllers/Api/ProductController.php:423-438 | one entry changes only the row it saves and replaces only that row's links with the entry's attributes |
| VariantSync.StepKeys | app/Http/Controllers/Api/ProductController.php:423-429 | saving an entry adds its key, which is either an existing key or the next one, and keeps keys increasing |
| VariantSync.SaveAllKeys | app/Http/Controllers/Api/ProductController.php:421-444 | the loop only adds keys, each of them fresh, and keeps keys increasing |
| VariantSync.SaveAllFacts | app/Http/Controllers/Api/ProductController.php:421-444 | after the loop an existing row and its links are as the last entry naming it left them, or untouched |
| VariantSync.LinksAfterSave | app/Http/Controllers/Api/ProductController.php:432-438 | after saving, a variant's links are exactly the entry's attributes; other variants' links are unchanged |
| VariantSync.PruneKeys | app/Http/Controllers/Api/ProductController.php:447 | destroying a set of ids removes exactly those keys |
| VariantSync.SyncedValid | app/Http/Controllers/Api/ProductController.php:418-447 | the variant keys stay increasing and below the next key |
| VariantSync.SyncedSurvivors | app/Http/Controllers/Api/ProductController.php:418-447 | an existing variant of the product survives iff some entry names its id; other products' variants and newly created ones survive |
| VariantSync.SyncedNamed | app/Http/Controllers/Api/ProductController.php:421-443 | a named existing variant ends with the product id, SKU, stock and price of the last entry naming it, and its links are that entry's attributes |
| CatalogStore.Catalog.UpdateProductAndVariants | app/Http/Controllers/Api/ProductController.php:392-454 | it succeeds iff the product exists; an unknown product changes nothing; otherwise the product takes the request's fields and variants, links and next key become `VariantSync.Synced` |
| CatalogStore.Catalog.SyncVariants | app/Http/Controllers/Api/ProductController.php:418-447 | saving all entries and destroying the unnamed ids gives `Synced` and keeps the keys increasing |
| CatalogStore.Catalog.SaveEntries | app/Http/Controllers/Api/ProductController.php:418-444 | the loop leaves the tables as `SaveAll` and returns the product's original ids that no entry named |
| CatalogStore.Catalog.SaveEntry | app/Http/Controllers/Api/ProductController.php:423-438 | one entry: find or create its row, save it, replace its links |
| Gallery.RequestIds | app/Http/Controllers/Api/ProductController.php:645-648 | exactly the ids the request's entries carry |
| Gallery.ImageIdsOf | app/Http/Controllers/Api/ProductController.php:651 | exactly the ids of the product's images |
| Gallery.Diff | app/Http/Controllers/Api/ProductController.php:652 | the ids in the first list and not in the second |
| Gallery.DropImages | app/Http/Controllers/Api/ProductController.php:653 | destroying keeps exactly the images whose id is not listed |
| Gallery.LastNaming | app/Http/Controllers/Api/ProductController.php:656-664 | the entry found is a request entry naming that id |
| Gallery.ApplyAllShape | app/Http/Controllers/Api/ProductController.php:656-676 | the loop keeps every image in place with the flag of the last entry naming it, and appends one image per new upload with consecutive fresh keys |
| Gallery.ApplyAllAscending | app/Http/Controllers/Api/ProductController.php:656-676 | image keys stay increasing and below the next key |
| Gallery.DropAscending | app/Http/Controllers/Api/ProductController.php:653 | destroying images keeps keys increasing |
| Gallery.UpdatedKeeps | app/Http/Controllers/Api/ProductController.php:645-653 | an existing image of the product survives iff the request carries its id |
| Gallery.UnnamedDropped | app/Http/Controllers/Api/ProductController.php:650-653 | an image of the product the request does not name is gone afterwards |
| Gallery.UpdatedSparesOthers | app/Http/Controllers/Api/ProductController.php:650-664 | images of other products all survive, with the flag of the last entry naming them |
| CatalogStore.Catalog.UpdateImages | app/Http/Controllers/Api/ProductController.php:641-677 | it succeeds iff the product exists; an unknown product or a request without `images` changes nothing; otherwise the image table becomes `Gallery.Updated`, keys increasing |
| CatalogStore.Catalog.ApplyImageEntries | app/Http/Controllers/Api/ProductController.php:656-676 | the loop leaves the image table as `ApplyAll` |
| Patches.Thumbnail | app/Http/Controllers/Api/ProductController.php:343-358 | the thumbnail is set iff a file was uploaded for that variant id |
| Patches.PatchAllAt | app/Http/Controllers/Api/ProductController.php:337-361 | each row keeps id, product and SKU; price and stock come from the last entry naming it, falling back to the stored value; a named row's thumbnail becomes the upload or null |
| Patches.PatchUnknown | app/Http/Controllers/Api/ProductController.php:339-341 | entries naming no existing variant change nothing |
| CatalogStore.Catalog.UpdateMultipleVariants | app/Http/Controllers/Api/ProductController.php:317-368 | the loop leaves the variant table as `PatchAll`, keys unchanged and increasing |
| SessionCart.PricesAgree | app/Http/Controllers/Api/CartController.php:539-548 | on an accepted add, the price a guest line records (line 71) equals `getProductPrice`; an unknown variant id prices at 0 |
| SessionCart.FirstLine | app/Http/Controllers/Api/CartController.php:58-64 | the line found is the first with the same product and variant; none is found iff no line has them |
| SessionCart.AddLine | app/Http/Controllers/Api/CartController.php:55-78 | the session loop produces `Merged`, whose meaning `MergedShape` gives |
| SessionCart.MergedShape | app/Http/Controllers/Api/CartController.php:57-76 | if a line with that product and variant exists, the first such line's quantity grows by q and nothing else changes; otherwise one new line with q and the price is appended |
| SessionCart.MergedDistinct | app/Http/Controllers/Api/CartController.php:57-76 | the session keeps at most one line per product and variant |
| SessionCart.MergedTotal | app/Http/Controllers/Api/CartController.php:57-76 | the session's value grows by q times the price of the line that grew, or of the new line |
| SessionCart.FirstOfProduct | app/Http/Controllers/Api/CartController.php:312-313 | the line found is the first with that product id; none is found iff no line has it |
| SessionCart.SetLineQuantity | app/Http/Controllers/Api/CartController.php:310-326 | the session loop produces `Requantified`, whose meaning `RequantifiedShape` gives |
| SessionCart.RequantifiedShape | app/Http/Controllers/Api/CartController.php:312-324 | the update is rejected iff the first line of the product asks more than its stock; otherwise only that line's quantity becomes q |
| SessionCart.RequantifiedDistinct | app/Http/Controllers/Api/CartController.php:312-324 | the session keeps at most one line per product and variant |
| SessionCart.Without | app/Http/Controllers/Api/CartController.php:393-397 | exactly the lines of other products remain |
| SessionCart.DropLines | app/Http/Controllers/Api/CartController.php:390-399 | the loop produces `Without` |
| SessionCart.WithoutConcat | app/Http/Controllers/Api/CartController.php:393-397 | filtering a concatenation filters each part |
| SessionCart.WithoutDistinct | app/Http/Controllers/Api/CartController.php:390-399 | removal keeps at most one line per product and variant |
| SessionCart.SumLines | app/Http/Controllers/Api/CartController.php:466-468 | the checkout loop sums price × quantity over the session (`LinesTotal`) |
| SessionCart.LinesTotalConcat | app/Http/Controllers/Api/CartController.php:466-468 | the session value of a concatenation is the sum of the parts' values |
| SessionCart.LinesTotalUpdate | app/Http/Controllers/Api/CartController.php:321 | replacing one line changes the session value by the difference of the two lines' values |
| Orders.CheckoutStatus | app/Http/Controllers/Api/CartController.php:479 | the status is pending (1) iff payment is `online`; it is reachable from pending and never cancelled |
| Orders.OpenOrder | app/Http/Controllers/Api/CartController.php:282 | the order found is the user's first order with status 1; none is found iff the user has none |
| Orders.OwnedOrder | app/Http/Controllers/Api/CartController.php:338-340 | the order found has that id and the caller's user id (none for a guest); none is found iff no order has both |
| Orders.ItemAt | app/Http/Controllers/Api/CartController.php:288 | the item found has that id and belongs to the open order; none is found iff no item has both |
| Orders.KeyAt | app/Http/Controllers/Api/CartController.php:45-48 | the item found is the first of the order with that product and variant; none is found iff there is none |
| Orders.FirstOrCreate | app/Http/Controllers/Api/CartController.php:40-43 | afterwards the user's open order is at the returned index; existing orders are untouched; if there was none, one pending order with total 0 and the next key is appended |
| Orders.ItemsOf | app/Http/Controllers/Api/CartController.php:462 | exactly the items of that order |
| Orders.OtherItems | app/Http/Controllers/Api/CartController.php:415-417 | exactly the items of other orders |
| Orders.SumItems | app/Http/Controllers/Api/CartController.php:460-464 | the checkout loop sums price × quantity over the order's items |
| Orders.ItemsOfTotal | app/Http/Controllers/Api/CartController.php:462-464 | summing the order's items gives the order's item sum `OrderSum` |
| Orders.OrderSumConcat | app/Http/Controllers/Api/CartController.php:462-464 | an order's item sum over a concatenation is the sum of the parts |
| Orders.OrderSumUpdate | app/Http/Controllers/Api/CartController.php:301-305 | changing one item changes its order's item sum by the difference of the two items' values |
| Orders.OrderSumRemove | app/Http/Controllers/Api/CartController.php:384-386 | deleting an item lowers its order's item sum by price × quantity |
| Orders.OtherItemsSum | app/Http/Controllers/Api/CartController.php:415-420 | deleting an order's items brings its item sum to 0 and leaves every other order's sum unchanged |
| Orders.BumpedSum | app/Http/Controllers/Api/CartController.php:45-50 | after the upsert the order's item sum grows by price × q plus the re-pricing of the quantity already held; other orders are unchanged |
| Orders.AddDrifts | app/Http/Controllers/Api/CartController.php:38-53 | an order whose total matches its items, re-adding one unit re-priced from 100 to 150: the total is raised by 150 as `addToCart` raises it, the items sum to 300, and the drift becomes -50, the re-pricing |
| Orders.EvolvesTrans | app/Http/Controllers/Api/CartController.php:351-360 | the status order composes across actions, and a cancelled order stays cancelled |
| Orders.PutAllRows | app/Http/Controllers/Api/CartController.php:491-503 | every item of the new guest order has the product and variant of some session line, and every item still refers to an order key below the next one |
| Orders.PutAllSum | app/Http/Controllers/Api/CartController.php:491-503 | the items created for a new guest order sum to the session's value |
| CartStore.Store.AddToCart | app/Http/Controllers/Api/CartController.php:19-82 | 422 iff the quantity is below 1 or the product or the given variant is missing; 400 iff the stock is short; a rejection changes nothing; a guest's session becomes `Merged` with the listed price; a customer's open order is found or made, its item upserted at the current price, its total raised by price × q, and its drift from the item sum lowered by the re-pricing |
| CartStore.Store.AddForGuest | app/Http/Controllers/Api/CartController.php:54-81 | the session becomes `Merged` and keeps one line per product and variant |
| CartStore.Store.AddForUser | app/Http/Controllers/Api/CartController.php:38-53 | first-or-create the open order, upsert the item, raise the total; the drift falls by the re-pricing |
| CartStore.Store.AddToOpen | app/Http/Controllers/Api/CartController.php:45-51 | item upserted, total raised by price × q, drift lowered by the re-pricing |
| CartStore.Store.AddItem | app/Http/Controllers/Api/CartController.php:45-48 | the item table becomes `Bumped`; a key is used only when a new item is created |
| CartStore.Store.UpdateCart | app/Http/Controllers/Api/CartController.php:266-330 | 422 iff quantity is below 1; 404 without an open order or that item; 400 when stock is short; otherwise the item's quantity becomes q and the total moves by price × (q − old quantity), keeping the drift; a guest's session becomes `Requantified` |
| CartStore.Store.SetItemQuantity | app/Http/Controllers/Api/CartController.php:301-306 | subtract the old value, set the quantity, add the new value; the drift is unchanged |
| CartStore.Store.RemoveFromCart | app/Http/Controllers/Api/CartController.php:368-403 | 404 without an open order or that item; otherwise the item is deleted and the total falls by its price × quantity, keeping the drift; a guest's session loses that product's lines |
| CartStore.Store.DeleteItem | app/Http/Controllers/Api/CartController.php:384-386 | the item is gone, the total falls by its value, the drift is unchanged |
| CartStore.Store.ClearCart | app/Http/Controllers/Api/CartController.php:405-427 | 404 without an open order; otherwise all its items are deleted and its total is 0, which now equals its item sum; other orders' sums are unchanged; a guest's session becomes empty |
| CartStore.Store.DeleteItemsOf | app/Http/Controllers/Api/CartController.php:415-417 | the loop deletes exactly the order's items |
| CartStore.Store.CancelOrder | app/Http/Controllers/Api/CartController.php:332-366 | 404 unless the caller owns an order with that id; 400 unless its status is confirmed (2); otherwise it becomes cancelled (5) and nothing else changes |
| CartStore.Store.Checkout | app/Http/Controllers/Api/CartController.php:429-537 | 422 on an invalid form; 404 for an empty cart; a customer's open order gets total = its item sum and the checkout status; a guest gets a new order and one item per session line, totalling the session; online payment keeps the session, otherwise it is emptied |
| CartStore.Store.CheckoutOpen | app/Http/Controllers/Api/CartController.php:460-487 | the open order's total becomes its item sum and its status the checkout status, so the drift is 0 |
| CartStore.Store.CheckoutSession | app/Http/Controllers/Api/CartController.php:466-503 | a new guest order totalling the session and items from `PutAll`, with no drift |
| CartStore.Store.PlaceLines | app/Http/Controllers/Api/CartController.php:491-503 | the loop upserts one item per session line, as `PutAll` |
| CartStore.Store.PutLine | app/Http/Controllers/Api/CartController.php:492-502 | one upsert: the existing item of that key takes the line's quantity and price, or a new item is created |

## Left out

- Media uploads: the upload service is outside the model. Upload results are
  parameters: an optional URL per image entry, a map from variant id to URL in
  `updateMultipleVariants`.
- Online payment: the payment-URL service is outside the model. `checkout`
  answers `PayOnline(orderId)` where the controller returns the redirect.
- Request validation rules: not modelled as rules.
  - `checkout`'s form validity is a boolean parameter, which covers the email
    format and field lengths.
  - The file checks of `updateMultipleVariants` and `update` are outside the
    model.
- Soft delete and restore, the listing/index queries and JSON response shaping
  are outside the model. So are `viewCart`, `viewOrder` and order history.
- The 404 branch of `addToCart` (lines 30-32) is not modelled. Validation
  rejects a missing product or variant first. The branch is reachable only for
  soft-deleted rows, and soft delete is outside the model.
- The product fields of `update` and the variant loop of `update` (lines
  607-638) are outside the model. Only its image part is modelled.
- Product columns other than name, price and stock quantity are not modelled.
  `UpdateProductAndVariants` stores the whole request product.
- The `GuestOrder` record written by `checkout` and the shipping fields of an
  order are not modelled.
- Concurrency: each action is one atomic step. Races between requests are
  outside the model.
- Money: decimal prices are integers in minor units.
- Ids: ids are integers. PHP's truthiness of id 0 is not modelled.
- Result order of unordered queries: `get()`, `first()` and `firstWhere` on a
  query without `orderBy` are taken to return rows in primary-key order, which
  SQL does not promise. Which duplicate-SKU variant `updateVariants` refreshes
  (the lowest id, line 236), which pending order `addToCart` reuses and which
  item `firstWhere` finds for a key all rest on that choice.
- Database cascades (attribute links of a deleted variant) are not modelled.
  Links of deleted variants stay in the links table.
- CartStore.Store.AddItem: the insert case of the raw `quantity + q` update is
  taken to store q, as it does with the column's default of 0.
- CartStore.Store.ClearCart: the per-item delete loop is stated as one filter
  of the items table by order id. `DeleteItemsOf` performs it as a loop.
