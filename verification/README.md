# Storefront rules in Dafny

A Dafny model of the rule-bearing core of a MERN e-commerce storefront
(Express controllers over MongoDB, React pages over Redux), with proofs of
what those rules guarantee.

- **Pricing** (`calcPrices`): the item subtotal, free shipping strictly above
  $100.00 and a flat $10.00 otherwise, 15 % tax rounded to the cent, and the total.
- **Orders**:
  - `createOrder` checks the cart line by line against the catalog and prices
    every line from the catalog.
  - `markOrderAsPaid` is refused for an unknown or already-paid order.
    Otherwise it lowers both stock counters line by line, saving each product
    before it checks the next line. A payment that fails partway therefore
    keeps the decrements already made. The model proves this outcome. The
    payer's email is read only after the walk, so a body without `payer`
    fails with the stock already lowered and the order still unpaid.
  - `markOrderAsDelivered` sets the flag with no guard.
  - The order lists are paged ten to a page.
- **Catalog** (product controller):
  - the paged listing;
  - the required-field check of `addProduct`, in its order;
  - update and delete, including the not-found rules;
  - reviews, with the review count and the average rating recomputed;
  - the category/price filter query;
  - the top-rated and newest selections.
- **Categories and users**:
  - category create/update/delete: create checks names for uniqueness,
    update does not;
  - user reads that drop the password, field-merging updates that hash a new
    password, and deletion that refuses admins.
- **Browser state**:
  - the favorites reducers;
  - the shop filter handlers and the brand list;
  - the home page's "load more" merge;
  - the username and email checks of the admin user list;
  - the full/half/empty star split of the rating widget.

Modelling choices:
- The database is a set of immutable maps from id to record.
- Each handler is a pure function. It returns a `Response` that pairs the new
  state with `Ok(value)` or `Err(tag)`, so a failure that has already changed
  the state stays visible in the returned state.
- Money is whole cents (`nat`). Ratings are `real`. Strings are `seq<char>`.
- Whitespace is the ECMAScript set that `String.prototype.trim` and the regular
  expression class `\s` share.

Files, one module each:
- `results.dfy`: `Option`, `Result`, `Response`.
- `seqs.dfy`: order-keeping filter; top-n by a key.
- `text.dfy`: JS whitespace, `trim`.
- `models.dfy`: the stored records.
- `pricing.dfy`, `paging.dfy`, `orders.dfy`, `catalog.dfy`, `categories.dfy`,
  `users.dfy`: the controllers.
- `listings.dfy`: products as the browser holds them.
- `favorites.dfy`, `shop.dfy`, `home.dfy`, `userforms.dfy`, `stars.dfy`: the
  browser state.

## Model

| member | source | states |
|---|---|---|
| Pricing.AccumulateIsSubtotal | backend/controllers/orderController.js:7-10 | The `reduce` over the lines computes Σ price × qty, starting from any accumulator. |
| Pricing.RoundToCent | backend/controllers/orderController.js:14 | The rounded amount lies within half a cent of the exact one, halves rounding up. |
| Pricing.CalcPrices | backend/controllers/orderController.js:6-28 | The four prices are as follows. `itemsPrice` is Σ price × qty. Shipping is 0 exactly when the subtotal exceeds $100.00, and $10.00 otherwise. Tax is within half a cent of 15 % of the subtotal. The total is the sum of the three. |
| Pricing.SubtotalAppend | backend/controllers/orderController.js:7-10 | The subtotal of two carts together is the sum of their subtotals. |
| Pricing.CalcPricesExamples | backend/controllers/orderController.js:12-27 | Worked carts: 10.00 × 2 gives 20/10/3/33. 30.00 × 4 gives 120/0/18/138. A 100.00 cart still pays shipping. An empty cart pays only shipping. |
| Paging.RequestedPage | backend/controllers/productController.js:15 | `Number(page) \|\| 1` on whole numbers: a missing, non-numeric or zero page reads as 1, and any other whole number is kept. |
| Paging.CeilDiv | backend/controllers/productController.js:31 | `Math.ceil(count / size)`: the fewest pages of `size` that hold `count` items. |
| Paging.Window | backend/controllers/productController.js:23-25 | `skip(k).limit(size)`: at most `size` consecutive items, starting at position `k`. |
| Paging.Paginate | backend/controllers/productController.js:14-32 | A page below 1 is an error. Otherwise the page holds the documents at positions `size·(page-1)` onward, at most `size` of them. `pages` is the ceiling of count/size. `hasMore` holds exactly when documents remain after this page. |
| Paging.HasMoreMeaning | backend/controllers/productController.js:31-32 | `page < pages` holds exactly when more than `size·page` documents exist. |
| Paging.LoadedIsPrefix | backend/controllers/productController.js:23-26 | Pages 1..k read one after another give the first `size·k` documents, in order. |
| Paging.PagesCoverAll | backend/controllers/productController.js:23-32 | Reading all `pages` pages yields every document exactly once, in order. |
| Orders.FirstProblem | backend/controllers/orderController.js:45-61 | The first cart line, in request order, whose product is unknown or whose qty exceeds `countInStock`. Every line before it is acceptable. |
| Orders.BuildLines | backend/controllers/orderController.js:44-69 | The walk fails exactly when some line has a problem, and reports the first one. On success it yields one line per cart line, with the catalog price and a qty within stock. |
| Orders.CreateOrder | backend/controllers/orderController.js:30-89 | A missing or empty cart fails with "no order items". On any failure nothing is stored. Success comes exactly when the cart is non-empty and every line passes; the error is the first line's problem. On success exactly one order is added: the requester's, unpaid and undelivered, with catalog prices and `calcPrices` of those lines. Products are never changed. |
| Orders.CreateOrderChecksLinesSeparately | backend/controllers/orderController.js:41-61 | Each line is checked against the same catalog snapshot. Two lines that each ask the whole stock of one product are both accepted. |
| Orders.Take | backend/controllers/orderController.js:219-222 | Both stock counters go down by the line's qty, and every other field of the product is kept. |
| Orders.Settle | backend/controllers/orderController.js:208-228 | The line-by-line walk changes only the products the lines mention. It keeps the set of product ids, and it keeps both counters non-negative. |
| Orders.SettleSucceedsIff | backend/controllers/orderController.js:208-228 | The walk gets through exactly when every product the lines mention exists and has both counters at least the total qty the lines ask of it. |
| Orders.SettleSuccessEffect | backend/controllers/orderController.js:208-228 | After a full walk, each product has lost from both counters the total qty the lines ask of it. |
| Orders.SettleFailureKeepsPrefix | backend/controllers/orderController.js:211-228 | A walk that stops at line k leaves the products exactly as a full walk of lines 0..k-1 would. The reported problem is line k's. |
| Orders.MarkOrderAsPaid | backend/controllers/orderController.js:197-249 | An unknown order, or one already paid, is refused and nothing changes. Otherwise the stock walk runs. When it gets through, which happens exactly when every referenced product has enough of both counters, each product equals its old value less its total qty. A body without `payer` then fails (the read of `payer.email_address` throws) with that stock already lowered and the order unpaid. With a payer the order becomes paid, with the time and the reported payment set and nothing else changed. No other order ever changes. |
| Orders.PayerMissingRetryTakesTwice | backend/controllers/orderController.js:207-247 | After a payment refused for a missing `payer`, a successful retry lowers each product's counters by the order's quantities a second time. |
| Orders.PayFailureKeepsEarlierDecrements | backend/controllers/orderController.js:208-228 | A payment whose stock walk stops at a line leaves the order unpaid. The lines before the failing one have still been deducted from stock. |
| Orders.PayTwiceRefused | backend/controllers/orderController.js:203-205 | A second payment of an order already paid is refused, and it changes neither orders nor products. |
| Orders.MarkOrderAsDelivered | backend/controllers/orderController.js:251-268 | An unknown order is refused. Otherwise only that order changes: it becomes delivered at the given time. |
| Orders.DeliveryBeforePayment | backend/controllers/orderController.js:255-259 | A freshly created, unpaid order can be marked delivered. |
| Orders.ListOrders | backend/controllers/orderController.js:91-112 | A page below 1 is an error. Otherwise the reply carries the page number asked for, the (at most ten) orders at positions `10·(page-1)` onward of the newest-first list, `pages` = ⌈count/10⌉, and `hasMore` exactly when orders remain after this page. |
| Orders.ListUserOrders | backend/controllers/orderController.js:114-134 | The same page, page number, page count and `hasMore` as the order list, computed over the requesting user's orders alone, newest first. Every order on the page belongs to that user. |
| Orders.OrdersOf | backend/controllers/orderController.js:119-121 | `find({ user })`: exactly the user's orders, in list order, each as often as in the list. |
| Orders.UserPagesCoverAll | backend/controllers/orderController.js:114-134 | Every page of a user's order list is that page of the user's orders alone. Reading pages 1 up to the reported page count gives every order of that user once, newest first. |
| Seqs.TopBy | backend/controllers/productController.js:223 | `sort(desc).limit(n)`: min(n, count) documents, in non-increasing key order. They form a sub-multiset of the input, and no document left out ranks above one returned. |
| Seqs.Filter | frontend/src/pages/Shop.jsx:60 | `Array.prototype.filter`: the accepted elements, a subsequence of the input, each as often as there. |
| Seqs.FilterIsSubsequence | frontend/src/pages/Shop.jsx:60 | The filter keeps the order of the elements it keeps: its result is a subsequence of the input. |
| Seqs.FilterUnique | frontend/src/pages/Shop.jsx:60 | Subsequence and counts pin the filter down: any subsequence holding each accepted element as often as the input does, and no rejected one, is the filter's result. |
| Catalog.FirstMissing | backend/controllers/productController.js:70-83 | The first falsy field, in the order name, description, price, category, quantity, brand. None exactly when all six are given. |
| Catalog.AddProduct | backend/controllers/productController.js:65-94 | The call fails exactly when a required field is missing, reporting the first such field, and then nothing is stored. Otherwise exactly one product is added under the new id. It carries every field the form gives, the image and any `rating` or `numReviews` included, and no reviews. A stock count, rating or review count the form leaves out is 0. |
| Catalog.AddedFromAdminFormConsistent | backend/controllers/productController.js:85 | A product added without `rating` and `numReviews` fields starts with its rating in step with its reviews. |
| Catalog.AddedReviewCountUnchecked | backend/controllers/productController.js:85 | A `numReviews` in the form is stored unchecked, so a new product can claim reviews it does not have. |
| Catalog.ApplyPatch | backend/controllers/productController.js:110-116 | `$set`: each of the ten patchable fields takes the supplied value when given and keeps its value otherwise. Reviews and creation time are never touched. |
| Catalog.ApplyPatchIdempotent | backend/controllers/productController.js:110-116 | Applying the same update twice is the same as applying it once. |
| Catalog.UpdateProduct | backend/controllers/productController.js:102-123 | An unknown id fails "not found" and changes nothing. Otherwise only that product changes, by the patch. |
| Catalog.UpdateKeepsRatingConsistent | backend/controllers/productController.js:110-116 | An update that sets neither `rating` nor `numReviews` keeps every product's rating in step with its reviews. |
| Catalog.UpdateCanDesyncRating | backend/controllers/productController.js:110-116 | A `rating` sent with an update is stored as sent, so a reviewed product can end up with a rating that is not the mean of its reviews. |
| Catalog.DeleteProduct | backend/controllers/productController.js:131-147 | An unknown id fails "not found" and changes nothing. Otherwise exactly that product is removed. |
| Catalog.FoldRatingsIsSum | backend/controllers/productController.js:199-201 | The `reduce` computes the sum of the review ratings. |
| Catalog.AddReview | backend/controllers/productController.js:174-213 | An unknown product, or a user who already reviewed it, is refused and nothing changes. So is a rating that `Number` turns into NaN, which the save refuses. Success comes exactly otherwise. One review is appended, carrying the user's id, username, rating and comment. `numReviews` becomes the review count and `rating` their mean. Nothing else changes. |
| Catalog.AddReviewKeepsRatingConsistent | backend/controllers/productController.js:195-203 | After a review every product's `numReviews` and `rating` are still in step with its reviews, if they were before. |
| Catalog.AddReviewKeepsOneReviewPerUser | backend/controllers/productController.js:180-195 | If no user has two reviews on any product, that stays true after a review. |
| Catalog.RatingSumBounds | backend/controllers/productController.js:199-201 | n ratings in [lo, hi] sum to a value in [n·lo, n·hi]. |
| Catalog.MeanRatingBounds | backend/controllers/productController.js:199-201 | The average of ratings in [lo, hi] lies in [lo, hi]. |
| Catalog.FilterProducts | backend/controllers/productController.js:255-273 | A product comes back exactly when (a) `checked` is empty or holds its category, and (b) there is no range or its price lies in the closed range. The returned products are a subsequence of the input, each as often as there. |
| Catalog.FilterWithoutConstraints | backend/controllers/productController.js:259-267 | An empty `checked` and an empty `radio` return every product. |
| Catalog.TopProducts | backend/controllers/productController.js:221-230 | Returns min(4, count) products, best rated first; none left out is rated higher. |
| Catalog.NewProducts | backend/controllers/productController.js:238-247 | Returns min(5, count) products, newest first; none left out is newer. |
| Catalog.ListProducts | backend/controllers/productController.js:12-38 | A page below 1 is an error. Otherwise the reply carries the page number asked for, the (at most twelve) products at positions `12·(page-1)` onward of the newest-first list, `pages` = ⌈count/12⌉, and `hasMore` exactly when `page < pages`, which is exactly when products remain. |
| Categories.CreateCategory | backend/controllers/categoryController.js:48-71 | An empty name or a name already used is refused, and nothing changes. Success comes exactly otherwise and adds one category with that name. |
| Categories.UpdateCategory | backend/controllers/categoryController.js:79-100 | An unknown id is refused. Otherwise only that category changes, to the supplied name if any. |
| Categories.DeleteCategory | backend/controllers/categoryController.js:108-125 | An unknown id is refused. Otherwise exactly that category is removed. |
| Categories.CreateDeleteKeepUniqueNames | backend/controllers/categoryController.js:52-66 | Create and delete keep category names unique. |
| Categories.UpdateCanDuplicateNames | backend/controllers/categoryController.js:87-93 | Update has no duplicate check: renaming one category to another's name breaks uniqueness. |
| Users.Public | backend/controllers/userController.js:14 | `.select("-password")`: every field but the password. |
| Users.GetUser | backend/controllers/userController.js:40-46 | The stored user without the password, or "not found" exactly when the id is unknown. |
| Users.GetAllUsers | backend/controllers/userController.js:29-32 | Every stored user, in the collection's order, without the password. |
| Users.Merge | backend/controllers/userController.js:90-101 | Supplied fields overwrite stored ones and absent fields are kept. A non-empty password is stored hashed. An empty password is stored as given. |
| Users.UpdateUser | backend/controllers/userController.js:83-104 | An unknown user is refused and nothing changes. Otherwise only that user changes, by the merge, and the reply omits the password. |
| Users.UpdateCanGrantAdmin | backend/controllers/userController.js:95-101 | The update body may set `isAdmin`; nothing filters it out. |
| Users.DeleteUser | backend/controllers/userController.js:112-124 | An admin is refused, and so is an unknown id; then nothing changes. Deletion succeeds exactly for a non-admin, and removes only that user. |
| Users.DeleteKeepsAdmins | backend/controllers/userController.js:114-118 | Every admin is still stored after a delete. |
| Text.HasNonSpaceIffNotBlank | frontend/src/pages/Shop.jsx:98 | A string has a non-whitespace character exactly when it is not all whitespace. |
| Text.Trim | frontend/src/pages/Admin/UserList.jsx:52 | `trim` returns a slice of the input with only whitespace cut from both ends. The result neither starts nor ends with whitespace, and it is empty exactly when the input is all whitespace. |
| Text.TrimIdempotent | frontend/src/pages/Admin/UserList.jsx:52-68 | Trimming twice is trimming once. |
| Favorites.Add | frontend/src/redux/features/favorites/favoriteSlice.js:37-43 | A product whose id is already listed changes nothing. Otherwise it is appended. Either way its id is present afterwards and the earlier entries are kept. |
| Favorites.Remove | frontend/src/redux/features/favorites/favoriteSlice.js:44-51 | Exactly the entries with another id remain: a subsequence of the list, each as often as before. The list is unchanged when the id was absent. |
| Favorites.AddIdempotent | frontend/src/redux/features/favorites/favoriteSlice.js:39-40 | Adding the same product twice equals adding it once. |
| Favorites.ReducersKeepDistinctIds | frontend/src/redux/features/favorites/favoriteSlice.js:37-51 | Both reducers keep ids distinct. |
| ShopFilters.HandleCheck | frontend/src/pages/Shop.jsx:57-62 | Ticking appends the id, even when already present. Unticking removes every occurrence and keeps the rest as a subsequence, each as often as before. Nothing else changes. |
| ShopFilters.HandleBrandClick | frontend/src/pages/Shop.jsx:64-66 | Clicking the selected brand clears it; clicking another brand selects it. |
| ShopFilters.BrandClickTwice | frontend/src/pages/Shop.jsx:64-66 | Two clicks on one brand return to the start when that brand, or none, was selected. |
| ShopFilters.MaxBound | frontend/src/pages/Shop.jsx:70 | `parseFloat(max) \|\| Infinity`: the top is open exactly when the box is NaN or 0. |
| ShopFilters.HandlePriceFilter | frontend/src/pages/Shop.jsx:68-78 | A non-zero maximum below the minimum leaves the range as it was. Otherwise the range starts at the minimum (0 for an empty box) and is open above exactly when the maximum box is empty, not a number or 0; a non-zero maximum closes it. The boxes, categories and brand never change. |
| ShopFilters.ZeroMaximumIsUnbounded | frontend/src/pages/Shop.jsx:70-72 | A maximum of 0 leaves the top open and is never refused. |
| ShopFilters.PriceFilterRangeNonEmpty | frontend/src/pages/Shop.jsx:72-77 | Any range the handler sets has min ≤ max. |
| ShopFilters.ClearPriceFilter | frontend/src/pages/Shop.jsx:80-84 | Both price boxes and the range are emptied; categories and brand are kept. |
| ShopFilters.HandleReset | frontend/src/pages/Shop.jsx:86-92 | Categories, range, price boxes and brand are all cleared. |
| ShopFilters.ResetShowsEverything | frontend/src/pages/Shop.jsx:86-92 | After a reset the backend filter returns every product. |
| ShopFilters.BrandFilter | frontend/src/pages/Shop.jsx:38-55 | With no brand selected, every product is kept. Otherwise exactly the products of that brand are kept, as a subsequence, each as often as before. |
| ShopFilters.UsableBrand | frontend/src/pages/Shop.jsx:98 | `brand && brand.trim() !== ""` holds exactly when the brand has a non-whitespace character. |
| ShopFilters.FirstBrandIndex | frontend/src/pages/Shop.jsx:94-100 | The first position of a brand in the fetched products: all earlier products have other brands. |
| ShopFilters.UniqueBrands | frontend/src/pages/Shop.jsx:94-100 | Exactly the non-blank brands of the products, each once, in order of first appearance. |
| HomeFeed.Unseen | frontend/src/pages/Home.jsx:35-38 | The fetched products whose id is not yet shown: a subsequence of the page, in fetch order, each as often as fetched. |
| HomeFeed.Merge | frontend/src/pages/Home.jsx:27-43 | With no product array the list is unchanged. Page 1 replaces the list. A later page keeps the list as a prefix and appends, in fetch order, exactly the fetched products with unseen ids. |
| HomeFeed.LoadMore | frontend/src/pages/Home.jsx:50-52 | The page goes up by exactly 1 and the list is kept. |
| HomeFeed.KeywordChanged | frontend/src/pages/Home.jsx:46-48 | The page returns to 1. |
| HomeFeed.Receive | frontend/src/pages/Home.jsx:27-43 | The list becomes the merge of the response into it for the current page, and the page is kept. |
| HomeFeed.AppendDistinct | frontend/src/pages/Home.jsx:39 | Appending new ids to a list with distinct ids keeps them distinct, and the ids are the union. |
| HomeFeed.UnseenIds | frontend/src/pages/Home.jsx:35-38 | The appended part has distinct ids: the fetched ids that are not yet shown. |
| HomeFeed.MergeKeepsDistinct | frontend/src/pages/Home.jsx:29-40 | If the shown list and the fetched page each have distinct ids, so does the merge. After page 1 the ids are those of both. |
| HomeFeed.NewSearchDropsOldResults | frontend/src/pages/Home.jsx:29-31 | After a keyword change, the first page received replaces whatever was shown. |
| HomeFeed.MissingProductsIgnored | frontend/src/pages/Home.jsx:28 | A response without a product array changes nothing. |
| UserForms.ValidateUsername | frontend/src/pages/Admin/UserList.jsx:51-56 | The name is accepted exactly when its trimmed length is 3 to 30. Otherwise the first failing check is reported: required when blank, then too short, then too long. |
| UserForms.IndexOf | frontend/src/pages/Admin/UserList.jsx:60 | The first position of a character; all earlier characters differ from it. |
| UserForms.MatchesEmail | frontend/src/pages/Admin/UserList.jsx:60-61 | A single left-to-right reading of the email pattern; a match is never blank. |
| UserForms.MatchesEmailIffPattern | frontend/src/pages/Admin/UserList.jsx:60-61 | The scan accepts exactly the strings of `^[^\s@]+@[^\s@]+\.[^\s@]+$`. |
| UserForms.ValidateEmail | frontend/src/pages/Admin/UserList.jsx:58-63 | Blank input is reported as required. Otherwise the email is accepted exactly when the untrimmed input matches the pattern. |
| UserForms.AcceptedEmailShape | frontend/src/pages/Admin/UserList.jsx:60-61 | An accepted email has exactly one '@' after a non-empty local part and no whitespace. It also has a '.' after the '@' that is neither the first nor the last character of that part. |
| UserForms.UntrimmedEmailRejected | frontend/src/pages/Admin/UserList.jsx:60-61 | " a@b.co" is rejected, although its trimmed form "a@b.co", which the save would send, is accepted. |
| UserForms.SaveName | frontend/src/pages/Admin/UserList.jsx:65-68 | The save sends something exactly when the name check passes. What it sends is the trimmed name, which passes the check again. |
| UserForms.SaveEmail | frontend/src/pages/Admin/UserList.jsx:76-79 | The save sends something exactly when the email check passes. What it sends equals the input as typed, because an accepted email has nothing to trim. |
| Stars.Split | frontend/src/pages/Products/Ratings.jsx:5-7 | `full` is the floor of the rating. A half star appears exactly when the fraction is at least 0.5. The three counts add up to 5. |
| Stars.WholeRatingNoHalf | frontend/src/pages/Products/Ratings.jsx:6 | A whole-number rating never shows a half star. |
| Stars.CountsNonNegativeIff | frontend/src/pages/Products/Ratings.jsx:7-15 | All three counts are non-negative exactly when 0 ≤ rating < 5.5. |
| Stars.ProductStarsInRange | frontend/src/pages/Products/Ratings.jsx:5-15 | A product whose rating is the mean of 0-to-5 reviews, or the initial 0, draws 0 to 5 stars of each kind. |

## Left out

- Rendering, hooks, routing, toasts, styling, HTTP status codes and Express plumbing are not modelled. Errors are tags.
- The 404 that a surrounding `catch` overwrites with 500 (backend/controllers/orderController.js:242-247) is not modelled. The double reply of `getUserById` for an unknown id (backend/controllers/userController.js:43-45) is not modelled either. Both become plain "not found" errors.
- Concurrency between requests is not modelled: each handler runs alone on a snapshot.
- JWT, bcrypt and salts are left out. The hash is a function parameter of `Users.Merge`.
- PayPal and `localStorage` are left out. The payment body is an input. The favorites reducers are modelled without their storage writes.
- The aggregate reports (`countTotalOrders`, `calculateTotalSales`, `calcualteTotalSalesByDate`) and `findOrderById` are not part of the order rules modelled here.
- The keyword search of `getAllProducts` (a case-insensitive regular expression) is left out. `Catalog.ListProducts` pages the documents it is given.
- The Mongoose schemas are not part of this model. The defaults assumed are a rating of 0, 0 reviews, a `countInStock` of 0, and an order that starts unpaid and undelivered.
- Pricing.CalcPrices: works in whole cents with round-half-up, while the source uses binary doubles with `toFixed(2)`. The two can differ at exact half-cent boundaries. Prices are returned as numbers, not the source's two-decimal strings.
- Orders.CreateOrder: cart quantities are natural numbers. A negative or fractional `qty` from the client is not modelled.
- Orders.CreateOrder: the source copies every other client field of a line into the stored line (`...itemFromClient`). The model keeps the name, image and qty.
- Catalog.AddProduct: numeric fields arrive already parsed. A text field that fails to parse, which Mongoose would reject when saving, is not modelled. Nor is a `reviews` or `createdAt` form field. The image path is stored as sent, without a schema check.
- Catalog.ApplyPatch: `reviews` and `createdAt` cannot be patched here. A form field holds a string, and its cast to the review array is not modelled. A number field that fails to parse is not modelled either.
- Paging.RequestedPage: `Number(page) || 1` also keeps a fractional page such as 1.5, giving a fractional skip. The page parameter holds whole numbers only, because the database's handling of a fractional skip is not part of these files.
- Catalog.FilterProducts: a `radio` with one element, or a malformed one, is not modelled. The range is either absent or [lo, hi].
- Catalog.NewProducts: newest-first is taken as creation-time order, standing for the order of the database's ids.
- ShopFilters.MaxBound: the open top becomes a datatype rather than `Infinity`. How `Infinity` travels through JSON to the backend is not modelled.
- UserForms.ValidateUsername: lengths count Unicode scalar values. JavaScript counts UTF-16 code units, so characters outside the Basic Multilingual Plane count once here and twice in the source.
- Stars.CountsNonNegativeIff: for ratings from 5 up to 5.5 the split is five full stars with no half and no empty star. Only ratings of 5.5 and above give a negative empty count, not every rating above 5.
