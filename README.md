# Luxahamp core, modelled in Dafny

This project models the sequential logic at the heart of the Luxahamp gift shop. That is
an Express/Mongoose backend, a Next.js storefront and a React admin panel. The model covers
three groups.

- **Variant pricing.** The backend's `calculateFinalPriceForVariant` applies a percent,
  fixed or sale discount. It clamps the result at 0, adds tax when tax is not included and
  rounds to cents. The storefront's `calculatePrice` and `getDiscountLabel` are a second
  copy that only knows percent and fixed, ignores tax and does not round. Both are pure
  functions over a `Variant` record. Lemmas say where the two agree and where they do not.
- **The cart.** A `Cart` class has the schema's fields (`items`, `shipping`, `discount`,
  `subTotal`, `grandTotal`). The controller's `addItem`, `updateItem`, `removeItem` and
  `clearCart` are methods that change it in place. `recalc` is a loop proved against a
  left fold of the line totals. The invariants are: every line total is unit price times
  quantity, and the subtotal is the sum of the line totals. Lemmas show that each
  mutator preserves them.
- **Catalogue and admin data shaping.**
  - The multipart field name `variants[i][images]`: the admin form writes it and the
    backend parses it with an unanchored regex. The model proves the round trip from
    form to server grouping.
  - `updateProduct`'s image-merge rules and its `allowedFields` copy.
  - `toSlug` and the name/slug sync.
  - The category and box toggles, the variant-list editor and the box keyword parsing.
  - The list pages' price summaries, stock totals and search filters.
  - The hero editor's aligned image and preview lists.
  - The navigation bar's grouping of categories by `mainTitle`, and the mega menu's
    column order. Mobile and desktop sort with the same comparator, so one function
    gives both.

JavaScript numbers are `real`. `Math.round(x)` is `floor(x + 1/2)`. A field that may be
unset is an `Option`. Loose objects on the admin side are a small `Json` datatype; object
spread is right-biased map union. Database calls, uploads and browser APIs are parameters:
- a stored cart or product is passed in as a value, or as `null`;
- an upload is a function from file to URL-or-nothing;
- `slugify`, `JSON.parse` and `URL.createObjectURL` are function parameters.

Facts about the code worth knowing:
- There is no guest-to-user cart merge.
- `updateItem` does not check the quantity. Only the schema's minimum of 1 rejects it, at
  save.
- The schema does not force a cart to have exactly one owner.
- `clearCart` does not floor the grand total.
- Cart lines are declared without an `_id`. Looking a line up by id, as `updateItem` and
  `removeItem` do, therefore cannot work on a stored cart (see Findings). The cart methods
  below model the intended behaviour, in which every line keeps the id it was added with;
  the code as written is modelled by separate members named in the Findings table.
- With no stored cart, `getCart` answers a literal whose grand total is 0, not
  250. `CartController.DefaultViewNotRecalculated` states this.
- Rounding is half up, towards positive infinity.

## Model

| member | source | states |
|---|---|---|
| BackendPrice.KindOf | backend/utils/price.js:4-12 | percent, fixed and sale are chosen exactly for those three strings; every other value, `''` and an unset field apply no discount |
| BackendPrice.Round2 | backend/utils/price.js:24 | the result is a whole number of cents within half a cent of the input, halves rounding up |
| BackendPrice.Round2Idempotent | backend/utils/price.js:24 | rounding an already rounded amount changes nothing |
| BackendPrice.Round2Monotone | backend/utils/price.js:24 | rounding preserves order |
| BackendPrice.Round2Zero | backend/utils/price.js:24 | zero rounds to zero |
| BackendPrice.Clamped | backend/utils/price.js:16 | the discounted price after the clamp is never negative |
| BackendPrice.FinalPrice | backend/utils/price.js:2-25 | the final price is a whole number of cents |
| BackendPrice.FinalPriceNonNegative | backend/utils/price.js:16-21 | the final price is never negative while the tax rate is at least -100%, because the clamp runs before tax |
| BackendPrice.FinalPriceIsRounded | backend/utils/price.js:24 | re-rounding the final price changes nothing |
| BackendPrice.TaxRule | backend/utils/price.js:19-21 | tax multiplies the clamped price by 1 + taxPercent/100 exactly when `taxIncluded` is not true (unset counts as not included) |
| BackendPrice.PercentTaxIncluded | backend/utils/price.js:7-8 | a percent discount with tax included gives round2(price * (1 - dv/100)) |
| BackendPrice.PercentMonotone | backend/utils/price.js:7-8 | a larger percent discount never gives a higher final price |
| BackendPrice.FullDiscountIsFree | backend/utils/price.js:7-16 | a percent discount of 100 or more, or a fixed discount above the price, gives 0 |
| BackendPrice.FixedSubtracts | backend/utils/price.js:9-10 | a fixed discount subtracts the discount value (tax included) |
| BackendPrice.SaleIgnoresPrice | backend/utils/price.js:11-12 | under a sale the base price plays no part |
| BackendPrice.UnknownTypeIsNoDiscount | backend/utils/price.js:7-12 | any unrecognised discount type gives the same price as none or `''` |
| BackendPrice.MissingCountsAsZero | backend/utils/price.js:3-20 | an unset price, discount value or tax percent gives the same final price as 0 |
| BackendPrice.MissingPriceIsZero | backend/utils/price.js:3 | an unset price is priced as 0 |
| BackendPrice.MissingDiscountIsZero | backend/utils/price.js:5 | an unset discount value is taken as 0 |
| BackendPrice.MissingTaxIsZero | backend/utils/price.js:20 | an unset tax percent is taken as 0 |
| BackendPrice.ValidVariantPriceNonNegative | backend/models/Variant.js:8-24 | every variant the schema accepts has a non-negative final price |
| StorefrontPrice.CalculatePrice | frontend/src/utils/priceUtils.js:1-9 | the result is never below 0, and is a number exactly when the price and the discount value it reads are set |
| StorefrontPrice.DiscountArithmetic | frontend/src/utils/priceUtils.js:3-6 | percent gives max(price - price*dv/100, 0); fixed gives max(price - dv, 0) |
| StorefrontPrice.OtherTypesKeepBasePrice | frontend/src/utils/priceUtils.js:2-8 | sale and every other type leave the base price (floored at 0), whatever the discount value |
| StorefrontPrice.AgreesWithBackendWhenTaxIncluded | frontend/src/utils/priceUtils.js:1-9 | with tax included and a percent, fixed or no discount, the backend price is the storefront price rounded to cents |
| StorefrontPrice.DisagreesWithBackend | frontend/src/utils/priceUtils.js:1-9 | a sale (200 at 149.99) and an added 18% tax (100) are priced differently by the two copies |
| StorefrontPrice.GetDiscountLabel | frontend/src/utils/priceUtils.js:11-18 | a badge is given exactly for percent and fixed |
| StorefrontPrice.LabelRoundTrip | frontend/src/utils/priceUtils.js:12-16 | the badge is the printed value followed by `%` or by the literal rupee suffix, and reading it back gives the kind and the value |
| StorefrontPrice.NoBadgeShowsBasePrice | frontend/src/utils/priceUtils.js:1-18 | without a badge the shown price is the base price floored at 0 |
| VariantModel.WithDefaults | backend/models/Variant.js:11-24 | the defaults `''`, `''`, 10, 0, true and 0 fill exactly the unset discount type, tag, threshold, discount value, tax flag and tax percent; every other field is kept |
| VariantModel.DefaultsIdempotent | backend/models/Variant.js:11-24 | applying the defaults twice is applying them once |
| VariantModel.DefaultsKeepValid | backend/models/Variant.js:8-24 | defaults keep a valid variant valid and give it an allowed discount type, a tax flag and non-negative tax and discount values |
| VariantModel.RequiredFieldsSuffice | backend/models/Variant.js:7-13 | name, price and stock count are the only required fields; a missing price or an unknown discount type is rejected |
| ProductModel.FindVariant | backend/controllers/cartController.js:36-37 | the variant found has the requested id and is one of the product's; none is found exactly when no variant has that id |
| ProductModel.ProductDoc.constructor | backend/models/Product.js:8-33 | the type defaults to `product`, name and slug are trimmed, every other field is stored as given |
| ProductModel.ProductDoc.PreValidate | backend/models/Product.js:39-44 | a non-empty slug is never overwritten; an empty slug becomes the slug of the name only when there is a name |
| ProductModel.ProductDoc.Save | backend/models/Product.js:8-44 | saving runs the hook and succeeds exactly when the type, name, unique slug, non-empty variants and every variant are valid |
| ProductModel.NoVariantsNeverValid | backend/models/Product.js:27-33 | a product without variants never saves |
| ProductModel.TypeEnumeration | backend/models/Product.js:8-13 | a saved product's type is product, box or greeting_card |
| CartModel.Snapshot | backend/controllers/cartController.js:57-66 | a line copies the variant's id, name, price, discount fields, tax fields and images by value |
| CartModel.Stored | backend/models/Cart.js:26 | a line saved under the schema as declared has no `_id` and is otherwise unchanged |
| CartModel.Cart.constructor | backend/models/Cart.js:29-40 | a new cart has no items, shipping 250, discount and totals 0, and its owner from the query |
| CartController.OwnerQueryOf | backend/controllers/cartController.js:15 | the cart is looked up by the user whenever there is one, else by the guest cookie |
| CartController.Recalc | backend/controllers/cartController.js:6-10 | afterwards the subtotal is the sum of the line totals and the grand total is subtotal + shipping - discount |
| CartController.SumAppend | backend/controllers/cartController.js:7 | the subtotal is additive over the line list |
| CartController.SumReplace | backend/controllers/cartController.js:7 | replacing a line changes the subtotal by the difference of the two line totals |
| CartController.NewLine | backend/controllers/cartController.js:55-72 | a new line is priced by the backend price function, its total is price times quantity, it holds a snapshot of the variant, copies the product's id, name and description, and carries the id it is added under |
| CartController.AddExistingPairMerges | backend/controllers/cartController.js:44-53 | adding a pair already in the cart raises that line's quantity, keeps its unit price, recomputes its total and touches no other line |
| CartController.AddNewPairAppends | backend/controllers/cartController.js:54-73 | adding a new pair appends exactly the new line after the unchanged old ones |
| CartController.AddLineKeepsTotals | backend/controllers/cartController.js:44-75 | adding keeps every line consistent and raises the subtotal by the added quantity at the line's unit price |
| CartController.IncreaseAddsUnitPrice | backend/controllers/cartController.js:50-53 | raising a consistent line's quantity by q keeps it consistent and raises its total by q unit prices |
| CartController.AppendKeepsConsistent | backend/controllers/cartController.js:55-72 | appending a consistent line keeps all lines consistent |
| CartController.SetQuantityKeepsTotals | backend/controllers/cartController.js:92-95 | setting a quantity keeps every line consistent and trades the line's old total for unit price times the new quantity |
| CartController.ReplaceKeepsConsistent | backend/controllers/cartController.js:92-93 | replacing a line by a consistent one keeps all lines consistent |
| CartController.RemoveProperties | backend/controllers/cartController.js:109 | removal drops every line with the id and keeps every copy of each other line, in order; it is idempotent, a no-op for an unknown id and keeps lines consistent |
| CartController.AddItem | backend/controllers/cartController.js:29-78 | a missing product or variant fails before any cart is touched; otherwise the items become the merge-or-append result, the totals are recomputed, a new cart gets the defaults and its owner from the query, a stored cart keeps its owner, and the save fails exactly when a quantity is below 1 |
| CartController.UpdateItem | backend/controllers/cartController.js:81-98 | a missing cart or item fails; otherwise the line's quantity is set unchecked, the totals are recomputed, shipping, discount and owner stay, and the save rejects a quantity below 1 |
| CartController.RemoveItem | backend/controllers/cartController.js:101-113 | a missing cart fails; otherwise the lines with the id go, the totals are recomputed and shipping, discount and owner stay |
| CartController.ClearCart | backend/controllers/cartController.js:116-127 | with a cart, the items go, the subtotal is 0 and the grand total is shipping - discount; shipping, discount and owner stay; without one, `{}` is answered |
| CartController.GetCart | backend/controllers/cartController.js:13-26 | a stored cart is answered field for field, and it satisfies the recalc equations when the cart does; no cart gives the fixed default |
| CartController.DefaultViewNotRecalculated | backend/controllers/cartController.js:17-25 | the default answer has grand total 0 where recalc would give 250 |
| CartController.RepriceDoesNotReachCart | backend/controllers/cartController.js:44-53 | two at 50.00, then one more after the catalogue moved to 80.00, is three at 50.00, 150.00 in all |
| CartController.UpdateNeverFindsStoredLine | backend/controllers/cartController.js:89-90 | lines saved without `_id` are never found by `items.id` |
| CartController.RemoveAsWritten | backend/controllers/cartController.js:109 | the filter as written can only fail with a TypeError |
| CartController.RemoveAsWrittenSpec | backend/controllers/cartController.js:109 | the filter as written throws exactly when some line has no id, and otherwise keeps the lines without the id |
| CartController.RemoveThrowsOnStoredLines | backend/controllers/cartController.js:109 | removing from any non-empty stored cart throws |
| CartController.AddedLineIsAddressable | backend/controllers/cartController.js:81-113 | with lines that keep their ids, a line added under a fresh id is found by update and removed by remove, leaving the cart as it was |
| CartController.AppendedLineFound | backend/controllers/cartController.js:89 | a line appended under a fresh id is found at the end |
| CartController.AppendedLineRemoved | backend/controllers/cartController.js:109 | removing a line appended under a fresh id gives the earlier lines back |
| CartController.FilterOutAppended | backend/controllers/cartController.js:109 | filtering out a fresh id appended last gives the earlier lines back |
| ProductController.DigitRun | backend/controllers/productController.js:82 | the run of digits at the start is maximal |
| ProductController.MatchAt | backend/controllers/productController.js:82-84 | a match at a position is the pattern with the whole digit run as its group, and the value parsed is that group |
| ProductController.MatchAtComplete | backend/controllers/productController.js:82-84 | every match of the pattern at a position is found |
| ProductController.ParseFromSpec | backend/controllers/productController.js:82-84 | the parse succeeds exactly when the pattern occurs at or after the start, and then gives the group of the leftmost occurrence |
| ProductController.ParseImageFieldSpec | backend/controllers/productController.js:82-84 | a field name is grouped exactly when the unanchored pattern occurs in it, under the number of its leftmost occurrence |
| ProductController.ImageFieldRoundTrip | backend/controllers/productController.js:82-84 | `variants[n][images]`, and any name starting with it, parses back to n |
| ProductController.GroupFiles | backend/controllers/productController.js:81-88 | the grouping loop builds exactly the left fold of the files |
| ProductController.GroupsAreFilters | backend/controllers/productController.js:81-88 | each group holds exactly the files whose names parse to its index, in arrival order, and is never empty |
| ProductController.CheckCreateInput | backend/controllers/productController.js:59-64 | create proceeds exactly when the name is truthy and the variants are a non-empty array; otherwise it fails with the 400 |
| ProductController.SuccessfulUrls | backend/controllers/productController.js:96-98 | one URL per successful upload, in file order: URL `i` is the result of the `i`-th file whose upload gave a URL, so there are never more URLs than files |
| ProductController.SuccessfulUrlsMembers | backend/controllers/productController.js:96-98 | a URL is in the list exactly when the upload of some file gave it |
| ProductController.SuccessfulUrlsAllSucceed | backend/controllers/productController.js:96-98 | when every upload succeeds, the URLs are all of them, in file order |
| ProductController.SuccessfulUrlsAllFail | backend/controllers/productController.js:96-98 | when every upload fails, there are no URLs |
| ProductController.Attached | backend/controllers/productController.js:90-99 | a grouped variant's images are replaced by its URLs, all its other fields kept; ungrouped variants are untouched |
| ProductController.AttachUploads | backend/controllers/productController.js:90-99 | the loop succeeds exactly when every group index names an object variant, and then leaves the array equal to the attached list |
| ProductController.UpdatedVariantsSource | backend/controllers/productController.js:291-302 | the stored variants are used when none are sent, an array is used as sent, and an unparsable string fails with "Invalid variants format" |
| ProductController.ExistingImages | backend/controllers/productController.js:307-310 | the bracketed key `variants[<i>][existingImages][]` wins when it is truthy, then the plain key `variants[<i>][existingImages]`, and otherwise the value is the empty list |
| ProductController.Normalized | backend/controllers/productController.js:312-314 | an array is kept and any other value becomes a one-element list |
| ProductController.BaseImages | backend/controllers/productController.js:318-321 | the kept images sent for the index are used when there are any, else the stored variant's images |
| ProductController.MergeVariants | backend/controllers/productController.js:305-328 | the merge keeps the length and merges each variant with the stored one at the same index |
| ProductController.MergeFields | backend/controllers/productController.js:323-327 | a merged variant has the base images, and every other field is the submitted one when sent, else the stored one |
| ProductController.BaseImagesCases | backend/controllers/productController.js:307-321 | a non-empty list sent under the bracketed key is kept as it is; a single kept URL under the plain key becomes a one-element list; when nothing is sent the stored images are kept |
| ProductController.Appended | backend/controllers/productController.js:343-358 | a grouped variant's URLs are appended after its images, its other fields kept; other variants are untouched |
| ProductController.AppendUploads | backend/controllers/productController.js:343-358 | the loop leaves the array equal to the appended list |
| ProductController.MergedAreObjects | backend/controllers/productController.js:323-327 | every merged variant is an object |
| ProductController.CopyAllowedFields | backend/controllers/productController.js:362-378 | exactly the allowed fields present in the body (even null) are copied; every other product field is unchanged |
| CreateProductPage.ToSlugIsSlug | admin/src/component/mainComponents/CreateProductPage.jsx:46-52 | a slug holds only `a-z`, `0-9` and `-`, and never two hyphens in a row |
| CreateProductPage.SlugIsFixed | admin/src/component/mainComponents/CreateProductPage.jsx:46-52 | a slug is its own slug |
| CreateProductPage.ToSlugIdempotent | admin/src/component/mainComponents/CreateProductPage.jsx:46-52 | `toSlug` is idempotent |
| CreateProductPage.TrailingHyphenKept | admin/src/component/mainComponents/CreateProductPage.jsx:47-51 | `"a !"` becomes `"a-"`: trimming runs before stripping |
| CreateProductPage.OnEdit | admin/src/component/mainComponents/CreateProductPage.jsx:216-245 | typing the slug stores its slug and marks it edited; typing the name re-derives the slug only while it is unedited |
| CreateProductPage.SlugFollowsName | admin/src/component/mainComponents/CreateProductPage.jsx:216-224 | until the slug is typed in, the slug is the slug of the last name typed |
| CreateProductPage.EditedSlugStays | admin/src/component/mainComponents/CreateProductPage.jsx:216-245 | once the slug is typed in, name changes never change it |
| CreateProductPage.SlugStaysSlug | admin/src/component/mainComponents/CreateProductPage.jsx:216-245 | the slug field only ever holds a slug |
| CreateProductPage.ToggleSpec | admin/src/component/mainComponents/CreateProductPage.jsx:165-172 | a present id leaves with all its occurrences, an absent one is appended, and the other ids keep their order |
| CreateProductPage.ToggleTwice | admin/src/component/mainComponents/CreateProductPage.jsx:165-172 | toggling an absent id twice gives the list back |
| CreateProductPage.HandleCategoryToggle | admin/src/component/mainComponents/CreateProductPage.jsx:165-172 | the categories become their toggle by the id (see ToggleSpec: the id flips membership, every other id keeps its place) and the boxes stay |
| CreateProductPage.HandleBoxToggle | admin/src/component/mainComponents/CreateProductPage.jsx:174-181 | the boxes become their toggle by the id (see ToggleSpec: the id flips membership, every other id keeps its place) and the categories stay |
| CreateProductPage.ImageUploads | admin/src/component/mainComponents/CreateProductPage.jsx:142-146 | a variant's image entries upload its browser files, in order, under `variants[i][images]` |
| CreateProductPage.TextEntriesUploadNothing | admin/src/component/mainComponents/CreateProductPage.jsx:124-146 | of a variant's entries, only its image files are uploads |
| CreateProductPage.ImageKeyParses | admin/src/component/mainComponents/CreateProductPage.jsx:144 | the key an image is sent under parses to its variant's index on the server |
| CreateProductPage.FilteredUploads | admin/src/component/mainComponents/CreateProductPage.jsx:124-147 | the uploads the server puts under n are exactly variant n's files |
| CreateProductPage.UploadsReachTheirVariant | admin/src/component/mainComponents/CreateProductPage.jsx:124-147 | round trip: the server groups under index n exactly the files of form variant n, in order, and nothing past the last variant |
| VariantManager.NewVariant | admin/src/component/mainComponents/variantProduct.jsx:6-29 | a box variant gets `pcs` and zero dimensions with capacity 1; any other form gets `ml` and no box details; images and colours start empty |
| VariantManager.AddVariantSpec | admin/src/component/mainComponents/variantProduct.jsx:6-31 | adding appends exactly one new variant and keeps the earlier ones |
| VariantManager.SetField | admin/src/component/mainComponents/variantProduct.jsx:60 | the field is set and every other key of an object keeps its value |
| VariantManager.SetPath | admin/src/component/mainComponents/variantProduct.jsx:37-60 | a name without a dot sets that top-level field |
| VariantManager.UpdateVariant | admin/src/component/mainComponents/variantProduct.jsx:34-65 | an out-of-range index gives the same list; otherwise only the entry at the index is replaced by the edited object, or the handler throws |
| VariantManager.UpdateTouchesOneEntry | admin/src/component/mainComponents/variantProduct.jsx:34-64 | an update keeps the length and every other entry |
| VariantManager.TopLevelField | admin/src/component/mainComponents/variantProduct.jsx:60 | a plain field is set at the top level and other keys keep their values |
| VariantManager.TwoLevelField | admin/src/component/mainComponents/variantProduct.jsx:52-58 | `a.b` sets b inside a, keeping a's other keys and the variant's other keys |
| VariantManager.ThreeLevelField | admin/src/component/mainComponents/variantProduct.jsx:39-50 | `a.b.c` sets c two levels down, keeping the sibling keys at both levels |
| VariantManager.ExtraSegmentsIgnored | admin/src/component/mainComponents/variantProduct.jsx:39 | path segments after the third play no part |
| VariantManager.RemoveVariantSpec | admin/src/component/mainComponents/variantProduct.jsx:67-73 | a one-element list is kept; otherwise exactly the position is removed, order preserved |
| VariantManager.HandleColorChange | admin/src/component/mainComponents/variantProduct.jsx:76-78 | the typed text is stored in `colorInput`, the colour list and the other variants stay |
| VariantManager.ParseColors | admin/src/component/mainComponents/variantProduct.jsx:82-85 | parsed colours are non-empty, trimmed and comma-free |
| VariantManager.ColorPayloads | admin/src/component/mainComponents/variantProduct.jsx:86-87 | both payloads have the list's length |
| VariantManager.ColorBlurLosesColors | admin/src/component/mainComponents/variantProduct.jsx:81-88 | as written, the payload the form keeps has the old colours; only the discarded one had the new |
| VariantManager.RedBlueIsLost | admin/src/component/mainComponents/variantProduct.jsx:81-88 | as written, "red, blue" on a variant with no colours leaves it with none |
| VariantManager.ColorBlurSetsColors | admin/src/component/mainComponents/variantProduct.jsx:81-88 | with the updates composed, the variant gets the parsed colours, and the reset text parses back to the same colours |
| VariantManager.ApplyColorsSets | admin/src/component/mainComponents/variantProduct.jsx:86-87 | composing the two updates sets both fields |
| VariantManager.HandleImageUpload | admin/src/component/mainComponents/variantProduct.jsx:89-93 | the new files go after the variant's images; other variants stay; an index past the end throws |
| VariantManager.HandleRemoveImage | admin/src/component/mainComponents/variantProduct.jsx:95-103 | exactly the image at the index leaves that variant's images, changed in place on the shared object; a missing variant or image list throws |
| Text.Pieces | admin/src/component/mainComponents/CreateBox.jsx:64-67 | split, trim and `filter(Boolean)` give non-empty, trimmed pieces without the separator |
| Text.PiecesOfJoin | admin/src/component/mainComponents/variantProduct.jsx:86-87 | clean pieces joined with `', '` parse back to the same list |
| CreateBox.BoxPayload | admin/src/component/mainComponents/CreateBox.jsx:60-68 | an array is sent as is, a string becomes its comma pieces, any other value throws; every other field is copied unchanged |
| CreateBox.KeywordsAreClean | admin/src/component/mainComponents/CreateBox.jsx:64-67 | keywords typed as text arrive non-empty, trimmed and comma-free |
| CreateBox.KeywordsRoundTrip | admin/src/component/mainComponents/CreateBox.jsx:62-67 | keywords shown as `a, b, c` are sent as exactly those keywords, in order |
| CreateBox.PayloadIdempotent | admin/src/component/mainComponents/CreateBox.jsx:62-63 | a payload built from a payload is unchanged |
| ProductListPage.PositivePrices | admin/src/component/mainComponents/productListPage.jsx:64 | only positive prices are kept, never more than there are variants |
| ProductListPage.PositivePricesSpec | admin/src/component/mainComponents/productListPage.jsx:64 | a value is kept exactly when it is above 0 and some variant has it as its price |
| ProductListPage.Min | admin/src/component/mainComponents/productListPage.jsx:67 | the minimum is one of the prices and below every one |
| ProductListPage.Max | admin/src/component/mainComponents/productListPage.jsx:68 | the maximum is one of the prices and above every one |
| ProductListPage.VariantSummary | admin/src/component/mainComponents/productListPage.jsx:61-77 | no variants gives 'No variants'; no positive price gives the count only; else one price when min = max, otherwise the range min < max bounding every positive price; the box list (BoxesList.jsx:55-71) uses the same summary |
| ProductListPage.SummaryPricesComeFromVariants | admin/src/component/mainComponents/productListPage.jsx:64-76 | every shown price is a positive price of some variant |
| ProductListPage.UnpricedVariantsIgnored | admin/src/component/mainComponents/productListPage.jsx:64 | a variant without a positive price does not change the prices considered |
| ProductListPage.PositivePricesAppend | admin/src/component/mainComponents/productListPage.jsx:64 | the positive prices of a concatenation are those of each part, in order |
| ProductListPage.TotalStock | admin/src/component/mainComponents/productListPage.jsx:79-85 | the total is the left-fold sum of stock counts, 0 for none or no variants; the box list (BoxesList.jsx:86-92) uses the same total |
| ProductListPage.SumStockAppend | admin/src/component/mainComponents/productListPage.jsx:81-84 | the total is additive over the variant list |
| ProductListPage.MissingStockCountsAsZero | admin/src/component/mainComponents/productListPage.jsx:82 | a variant without a stock count adds nothing |
| ProductListPage.TotalStockNonNegative | admin/src/component/mainComponents/productListPage.jsx:79-85 | for variants the schema accepts, the total is never negative |
| ProductListPage.SearchProducts | admin/src/component/mainComponents/productListPage.jsx:17-26 | the result is an order-preserving subsequence holding exactly the products whose name, description or a keyword contains the term, case-insensitively, and every copy of each of them |
| ProductListPage.EmptySearchKeepsAll | admin/src/component/mainComponents/productListPage.jsx:18-23 | an empty term keeps every product, in order |
| ProductListPage.SearchIdempotent | admin/src/component/mainComponents/productListPage.jsx:17-26 | searching twice with the same term is searching once |
| BoxesList.GetDimensions | admin/src/component/mainComponents/BoxesList.jsx:73-84 | no variants gives 'No dimensions'; missing or all-zero dimensions give 'Not specified'; else width, height, depth with a missing side as 0 |
| BoxesList.OnlyFirstVariantCounts | admin/src/component/mainComponents/BoxesList.jsx:76-77 | only the first variant is consulted |
| BoxesList.MissingSideShownAsZero | admin/src/component/mainComponents/BoxesList.jsx:83 | an unset side shows as if it were 0 |
| BoxesList.SearchBoxes | admin/src/component/mainComponents/BoxesList.jsx:17-24 | the result is an order-preserving subsequence holding exactly the boxes whose name or description contains the term, and every copy of each of them |
| BoxesList.BoxSearchWithinProductSearch | admin/src/component/mainComponents/BoxesList.jsx:17-24 | every box the box search shows, the product search shows too |
| BoxesList.EmptyBoxSearchKeepsAll | admin/src/component/mainComponents/BoxesList.jsx:17-24 | an empty term keeps every box |
| HeroAdmin.ObjectUrls | admin/src/component/mainComponents/HeroAdmin.jsx:45-48 | one preview URL per file, in order |
| HeroAdmin.FileChangeKeepsAlignment | admin/src/component/mainComponents/HeroAdmin.jsx:42-49 | adding files keeps images and previews aligned, the earlier files in place and the new ones at the end |
| HeroAdmin.SpliceOne | admin/src/component/mainComponents/HeroAdmin.jsx:53-54 | the in-place splice leaves the array without position idx, shorter by one when idx is in range |
| HeroAdmin.RemoveNewImage | admin/src/component/mainComponents/HeroAdmin.jsx:51-58 | position idx leaves the new images and the previews; everything else stays |
| HeroAdmin.RemovalKeepsAlignment | admin/src/component/mainComponents/HeroAdmin.jsx:51-58 | removing the same position from both lists keeps them aligned |
| HeroAdmin.RemoveExistingImage | admin/src/component/mainComponents/HeroAdmin.jsx:60-65 | every copy of the URL leaves the server images, every copy of every other URL stays and the order is kept; the new images, previews, other fields and edited id are untouched |
| HeroAdmin.ResetForm | admin/src/component/mainComponents/HeroAdmin.jsx:67-78 | name, title, description and button are empty, there are no new or server images and no previews, and nothing is being edited |
| HeroAdmin.HandleEdit | admin/src/component/mainComponents/HeroAdmin.jsx:114-125 | the hero's fields are loaded, its images (or none) become the server images, and there are no new files or previews |
| Navbar.GroupByMainTitle | frontend/src/components/home/Navbar.jsx:17-24 | the loop builds exactly the left fold of the categories; missing or empty categories give `{}` |
| Navbar.GroupSpecKeys | frontend/src/components/home/Navbar.jsx:19-23 | the keys are the titles in first-seen order, each once |
| Navbar.GroupOfTitle | frontend/src/components/home/Navbar.jsx:19-22 | the list under a key is exactly the categories of that title, in input order, and is non-empty |
| Navbar.GroupsAreFilters | frontend/src/components/home/Navbar.jsx:19-22 | the keys are exactly the titles that occur, each holding exactly its categories in order |
| Navbar.EachCategoryInOneGroup | frontend/src/components/home/Navbar.jsx:19-22 | every category is in the group of its own title and in no other |
| MegaMenu.Rank | frontend/src/components/home/MegaMenu.jsx:5-16 | the rank is the title's position in `desiredOrder`, -1 exactly when it is not listed |
| MegaMenu.Entries | frontend/src/components/home/MegaMenu.jsx:14 | one entry per category key in insertion order, each paired with the list of categories grouped under it |
| MegaMenu.SortSpec | frontend/src/components/home/MegaMenu.jsx:16 | the sort returns a permutation ordered by rank |
| MegaMenu.SortIsStable | frontend/src/components/home/MegaMenu.jsx:16 | columns of equal rank keep their relative order |
| MegaMenu.Headings | frontend/src/components/home/MegaMenu.jsx:14-39 | one heading per column, heading `i` being column `i`'s title, and MORE last |
| MegaMenu.ColumnsArePermutation | frontend/src/components/home/MegaMenu.jsx:14-17 | the rendered columns are the grouped entries, each once, and MORE is the last heading |
| MegaMenu.RankOfListed | frontend/src/components/home/MegaMenu.jsx:5-10 | a listed title's rank is its position |
| MegaMenu.ColumnOrder | frontend/src/components/home/MegaMenu.jsx:92-96 | a column of smaller rank is rendered earlier, on both layouts |
| MegaMenu.ListedTitlesInOrder | frontend/src/components/home/MegaMenu.jsx:5-16 | present listed titles appear in the order RECIPIENT, OCCASION, INTEREST, BY PRICE |
| MegaMenu.UnlistedTitlesFirst | frontend/src/components/home/MegaMenu.jsx:16 | unlisted titles come before every listed one |

## Left out

- Database, upload service, mail and HTTP: `findById`, `findOne`, `save` and `create`
  become values passed in and out. Cloudinary is an upload function from file to
  URL-or-nothing. Responses are result values.
- The SKU uniqueness checks of `createProduct` and `updateProduct` (`isSkuTaken`) are
  database queries and are not modelled. Neither is the SKU loop of `updateProduct` that
  iterates a JSON string's characters before parsing it.
- `getAllProducts`, `getProductById`, `deleteProduct`, the review, category, favourite,
  hero and auth controllers, and the routes are not part of this model.
- `slugify`, `JSON.parse`, `URL.createObjectURL` and JavaScript's number-to-text conversion
  are parameters.
- Money formatting with `toFixed(2)` is not modelled: the summaries are datatypes, not
  text. IEEE-754 rounding is not modelled either, because prices are exact reals.
- Text.Lower: only ASCII letters are lower-cased; JavaScript's full Unicode case mapping
  is not modelled.
- ProductController.ParseImageFieldSpec: the digit group is read as an exact natural
  number, while `parseInt` loses precision above 2^53.
- ProductController.AttachUploads: when a group index names no object variant, the model
  leaves the array unchanged. The source writes the earlier groups and then throws. That
  copy is discarded, so nothing observable differs.
- ProductController.MergeVariants: Mongoose's casting and strict mode on save are not
  modelled. Neither is `toObject` on subdocuments: a stored variant is spread as its
  fields.
- ProductController.Appended: a variant whose `images` is not an array is treated as
  having no images.
- ProductListPage.SearchProducts: `keyWords` is taken as a list of strings, as the list
  page expects. The schema stores a string, on which `.some` throws.
- VariantManager.HandleRemoveImage: modelled as if `setForm` were passed. The create page
  passes only `onChange` (CreateProductPage.jsx:387-391), so there the handler throws.
- Navbar.GroupByMainTitle: object keys are plain strings. A title that is an
  `Object.prototype` property name, or is unset, is not modelled specially.
- MegaMenu.Entries: keys are listed in insertion order. `Object.entries` lists
  integer-like keys first in ascending order; titles are not expected to be numbers.
- CartController.NewLine: the line carries `Some(itemId)`. The schema's `{ _id: false }`
  (Cart.js:26) stores no id, which CartModel.Stored and the as-written members model.
- CartController.AddItem: appends lines that keep their id, the intended behaviour. As
  written, a saved line has no id (CartModel.Stored). Mongoose's casting of ids to
  strings and the `toString` comparisons are not modelled; ids are compared as values.
- CartController.UpdateItem: finds lines by the id they keep. As written, no stored line
  is ever found (CartController.UpdateNeverFindsStoredLine).
- CartController.RemoveItem: removes the lines with the id. As written, any non-empty
  stored cart throws a TypeError at cartController.js:109
  (CartController.RemoveThrowsOnStoredLines).
- Json.Spread: a string or array operand spreads as `{}` rather than as its index keys.
  The admin forms only spread objects; only a hand-made request to `updateProduct` could
  send such a variant.
- `handleKeyWordsChange` (CreateProductPage.jsx:183-185, CreateBox.jsx:93-95) and the
  other plain input setters store the typed value and are not modelled.
- The hero editor's `handleSubmit`, `handleDelete` and `fetchHeroes` are network calls
  and are not modelled.
- Concurrent requests on one cart are not modelled.

## Findings

| source | as written | input that shows it | evidently intended | confidence | as-written member | corrected member |
|---|---|---|---|---|---|---|
| backend/controllers/cartController.js:89-90 | `cart.items.id(itemId)` looks lines up by `_id`, but backend/models/Cart.js:26 declares lines with `{ _id: false }`, so stored lines have none | any stored cart and any item id: the answer is "Item not found" | the line with that id is found and its quantity set | high; not executed | CartController.UpdateNeverFindsStoredLine | CartController.AddedLineIsAddressable |
| backend/controllers/cartController.js:109 | `i._id.toString()` is called on lines without `_id` | a stored cart with one line, any item id: a TypeError | the lines with that id are removed | high; not executed | CartController.RemoveThrowsOnStoredLines | CartController.AddedLineIsAddressable |
| admin/src/component/mainComponents/variantProduct.jsx:81-88 | `handleColorBlur` calls `updateVariant` twice on the same `variants` prop; the second `onChange` replaces the first, so `color` is never set | "red, blue" on a variant whose `color` is `[]`: `color` stays `[]` | `color` becomes the parsed list and `colorInput` the cleaned text | high; not executed | VariantManager.RedBlueIsLost | VariantManager.ColorBlurSetsColors |
