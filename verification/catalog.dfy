/** The product handlers: paged listing, add/update/delete, reviews with the
    recomputed average rating, the shop's category/price filter query, and
    the top-rated and newest selections. */
module Catalog {
  import opened Results
  import opened Models
  import Paging
  import Seqs

  type Products = map<ProductId, Product>

  /** The fields `addProduct` requires, in the order it checks them. */
  datatype Field = Name | Description | Price | CategoryField | Quantity | Brand

  /** `RatingNotANumber`: the review's `Number(rating)` is NaN, which the
      product's save refuses to store. */
  datatype ProductError = MissingField(field: Field) | ProductNotFound | AlreadyReviewed | RatingNotANumber

  /** The form fields of an add-product request. A text field that is missing
      or empty reads as ""; a number field that is missing or empty reads as
      None (a submitted "0" is a non-empty string and counts as given). The
      admin form sends the image path and the six required fields with
      `countInStock`; any other request may also carry `rating` and `numReviews`. */
  datatype ProductForm = ProductForm(
    name: string,
    description: string,
    image: string,
    price: Option<nat>,
    category: CategoryId,
    quantity: Option<int>,
    brand: string,
    countInStock: Option<int>,
    rating: Option<real>,
    numReviews: Option<int>)

  /** Position of a field in the validation order. */
  function Rank(f: Field): nat {
    match f
    case Name => 0
    case Description => 1
    case Price => 2
    case CategoryField => 3
    case Quantity => 4
    case Brand => 5
  }

  /** The field is falsy in the request. */
  predicate Missing(form: ProductForm, f: Field) {
    match f
    case Name => form.name == ""
    case Description => form.description == ""
    case Price => form.price.None?
    case CategoryField => form.category == ""
    case Quantity => form.quantity.None?
    case Brand => form.brand == ""
  }

  /** The validation `switch`: the first required field, in the order name,
      description, price, category, quantity, brand, that is missing; None
      when all six are given. `countInStock` is not among them. */
  function FirstMissing(form: ProductForm): (r: Option<Field>)
    ensures r.Some? ==> Missing(form, r.value) && forall g: Field :: Rank(g) < Rank(r.value) ==> !Missing(form, g)
    ensures r.None? ==> forall f: Field :: !Missing(form, f)
  {
    if form.name == "" then Some(Name)
    else if form.description == "" then Some(Description)
    else if form.price.None? then Some(Price)
    else if form.category == "" then Some(CategoryField)
    else if form.quantity.None? then Some(Quantity)
    else if form.brand == "" then Some(Brand)
    else None
  }

  /** `addProduct`: refuses the first missing required field and stores
      nothing; otherwise stores one new product under the new id, carrying
      every field the form gives, no reviews, and the schema default 0 for a
      stock count, rating or review count the form leaves out. */
  function AddProduct(ps: Products, newId: ProductId, form: ProductForm, now: Time): (r: Response<Products, Product, ProductError>)
    requires newId !in ps
    ensures r.reply.Err? <==> exists f: Field :: Missing(form, f)
    ensures r.reply.Err? ==> r.state == ps && r.reply.error.MissingField?
    ensures r.reply.Err? ==> var f := r.reply.error.field;
      Missing(form, f) && forall g: Field :: Rank(g) < Rank(f) ==> !Missing(form, g)
    ensures r.reply.Ok? ==> r.state == ps[newId := r.reply.value]
    ensures r.reply.Ok? ==> form.price.Some? && form.quantity.Some?
    ensures r.reply.Ok? ==>
      var p := r.reply.value;
      && p.name == form.name && p.description == form.description && p.price == form.price.value
      && p.category == form.category && p.quantity == form.quantity.value && p.brand == form.brand
      && p.image == form.image
      && p.countInStock == (if form.countInStock.Some? then form.countInStock.value else 0)
      && p.rating == (if form.rating.Some? then form.rating.value else 0.0)
      && p.numReviews == (if form.numReviews.Some? then form.numReviews.value else 0)
      && p.reviews == [] && p.createdAt == now
  {
    match FirstMissing(form)
    case Some(f) => Response(ps, Err(MissingField(f)))
    case None =>
      var p := Product(form.name, form.description, form.image, form.price.value, form.brand, form.category,
                       form.quantity.value, Pick(form.countInStock, 0), Pick(form.rating, 0.0),
                       Pick(form.numReviews, 0), [], now);
      Response(ps[newId := p], Ok(p))
  }

  /** A product added from the admin form, which sends neither `rating` nor
      `numReviews`, starts with its rating in step with its (empty) reviews. */
  lemma AddedFromAdminFormConsistent(ps: Products, newId: ProductId, form: ProductForm, now: Time)
    requires newId !in ps
    requires form.rating.None? && form.numReviews.None?
    requires AddProduct(ps, newId, form, now).reply.Ok?
    ensures RatingConsistent(AddProduct(ps, newId, form, now).reply.value)
  {
  }

  /** Nothing checks a `numReviews` sent with the form: a product can be
      stored claiming reviews it does not have. */
  lemma AddedReviewCountUnchecked(ps: Products, newId: ProductId, form: ProductForm, now: Time)
    requires newId !in ps
    requires form.numReviews == Some(3)
    requires AddProduct(ps, newId, form, now).reply.Ok?
    ensures !RatingConsistent(AddProduct(ps, newId, form, now).reply.value)
  {
  }

  /** The fields an update may set; None leaves the stored value alone. The
      admin form sends the first eight; `rating` and `numReviews` are stored
      fields a request may carry as well. */
  datatype ProductPatch = ProductPatch(
    name: Option<string>,
    description: Option<string>,
    image: Option<string>,
    price: Option<nat>,
    brand: Option<string>,
    category: Option<CategoryId>,
    quantity: Option<int>,
    countInStock: Option<int>,
    rating: Option<real>,
    numReviews: Option<int>)

  function Pick<T>(given: Option<T>, current: T): T {
    if given.Some? then given.value else current
  }

  /** `$set` of the supplied fields onto a product: each supplied field takes
      the supplied value, each other field keeps its value, and the reviews
      and creation time are never touched. */
  function ApplyPatch(p: Product, patch: ProductPatch): (q: Product)
    ensures patch.name.Some? ==> q.name == patch.name.value
    ensures patch.name.None? ==> q.name == p.name
    ensures patch.description.Some? ==> q.description == patch.description.value
    ensures patch.description.None? ==> q.description == p.description
    ensures patch.image.Some? ==> q.image == patch.image.value
    ensures patch.image.None? ==> q.image == p.image
    ensures patch.price.Some? ==> q.price == patch.price.value
    ensures patch.price.None? ==> q.price == p.price
    ensures patch.brand.Some? ==> q.brand == patch.brand.value
    ensures patch.brand.None? ==> q.brand == p.brand
    ensures patch.category.Some? ==> q.category == patch.category.value
    ensures patch.category.None? ==> q.category == p.category
    ensures patch.quantity.Some? ==> q.quantity == patch.quantity.value
    ensures patch.quantity.None? ==> q.quantity == p.quantity
    ensures patch.countInStock.Some? ==> q.countInStock == patch.countInStock.value
    ensures patch.countInStock.None? ==> q.countInStock == p.countInStock
    ensures patch.rating.Some? ==> q.rating == patch.rating.value
    ensures patch.rating.None? ==> q.rating == p.rating
    ensures patch.numReviews.Some? ==> q.numReviews == patch.numReviews.value
    ensures patch.numReviews.None? ==> q.numReviews == p.numReviews
    ensures q.reviews == p.reviews && q.createdAt == p.createdAt
  {
    p.(name := Pick(patch.name, p.name), description := Pick(patch.description, p.description),
       image := Pick(patch.image, p.image), price := Pick(patch.price, p.price),
       brand := Pick(patch.brand, p.brand), category := Pick(patch.category, p.category),
       quantity := Pick(patch.quantity, p.quantity), countInStock := Pick(patch.countInStock, p.countInStock),
       rating := Pick(patch.rating, p.rating), numReviews := Pick(patch.numReviews, p.numReviews))
  }

  /** Setting the same fields twice is the same as setting them once. */
  lemma ApplyPatchIdempotent(p: Product, patch: ProductPatch)
    ensures ApplyPatch(ApplyPatch(p, patch), patch) == ApplyPatch(p, patch)
  {
  }

  /** `updateProduct`: an unknown id is refused and nothing changes; otherwise
      only that product changes, by the supplied fields. */
  function UpdateProduct(ps: Products, id: ProductId, patch: ProductPatch): (r: Response<Products, Product, ProductError>)
    ensures id !in ps ==> r == Response(ps, Err(ProductNotFound))
    ensures id in ps ==> r.reply.Ok? && r.state == ps[id := r.reply.value]
    ensures id in ps ==> r.reply.value == ApplyPatch(ps[id], patch)
  {
    if id !in ps then Response(ps, Err(ProductNotFound))
    else
      var q := ApplyPatch(ps[id], patch);
      Response(ps[id := q], Ok(q))
  }

  /** An update that sets neither `rating` nor `numReviews` (as the admin
      form never does) keeps every product's rating in step with its reviews. */
  lemma UpdateKeepsRatingConsistent(ps: Products, id: ProductId, patch: ProductPatch)
    requires forall k :: k in ps ==> RatingConsistent(ps[k])
    requires patch.rating.None? && patch.numReviews.None?
    ensures var r := UpdateProduct(ps, id, patch);
      forall k :: k in r.state ==> RatingConsistent(r.state[k])
  {
  }

  /** A `rating` sent with an update is stored as sent: on a reviewed product
      whose mean rating differs from it, the stored rating no longer matches
      the reviews. */
  lemma UpdateCanDesyncRating(ps: Products, id: ProductId, patch: ProductPatch)
    requires id in ps && |ps[id].reviews| > 0
    requires patch.rating.Some? && patch.rating.value != MeanRating(ps[id].reviews)
    ensures !RatingConsistent(UpdateProduct(ps, id, patch).state[id])
  {
  }

  /** `deleteProduct`: an unknown id is refused and nothing changes; otherwise
      exactly that product is removed. */
  function DeleteProduct(ps: Products, id: ProductId): (r: Response<Products, ProductId, ProductError>)
    ensures id !in ps ==> r == Response(ps, Err(ProductNotFound))
    ensures id in ps ==> r.reply == Ok(id)
    ensures r.state.Keys == ps.Keys - {id}
    ensures forall k :: k in r.state ==> r.state[k] == ps[k]
  {
    if id !in ps then Response(ps, Err(ProductNotFound))
    else Response(ps - {id}, Ok(id))
  }

  // ---------------------------------------------------------------- reviews

  /** Σ of the review ratings: the reference definition. */
  function RatingSum(rs: seq<Review>): real {
    if |rs| == 0 then 0.0 else rs[0].rating + RatingSum(rs[1..])
  }

  /** The arithmetic mean of the review ratings. */
  function MeanRating(rs: seq<Review>): real
    requires |rs| > 0
  {
    RatingSum(rs) / (|rs| as real)
  }

  /** The left fold `reviews.reduce((acc, item) => item.rating + acc, acc)`. */
  function FoldRatings(acc: real, rs: seq<Review>): real
    decreases |rs|
  {
    if |rs| == 0 then acc else FoldRatings(rs[0].rating + acc, rs[1..])
  }

  lemma {:induction false} FoldRatingsIsSum(acc: real, rs: seq<Review>)
    ensures FoldRatings(acc, rs) == acc + RatingSum(rs)
    decreases |rs|
  {
    if |rs| > 0 {
      FoldRatingsIsSum(rs[0].rating + acc, rs[1..]);
    }
  }

  /** The user has a review on this product. */
  predicate HasReviewBy(p: Product, user: UserId) {
    exists i :: 0 <= i < |p.reviews| && p.reviews[i].user == user
  }

  /** The store keeps `numReviews` and `rating` in step with the reviews. */
  predicate RatingConsistent(p: Product) {
    p.numReviews == |p.reviews| && (|p.reviews| > 0 ==> p.rating == MeanRating(p.reviews))
  }

  /** No user has two reviews on the product. */
  predicate OneReviewPerUser(p: Product) {
    forall i, j :: 0 <= i < j < |p.reviews| ==> p.reviews[i].user != p.reviews[j].user
  }

  /** `addProductReview`. `rating` is `Number(rating)` of the body, None when
      that is NaN (the field is missing or not a number). An unknown product,
      or a user who already reviewed it, is refused and nothing changes; so is
      a NaN rating, which the save refuses. Otherwise exactly one review, from
      this user under their username, is appended; `numReviews` becomes the
      review count and `rating` the mean of all review ratings. No other
      product and no other field changes. */
  function AddReview(ps: Products, id: ProductId, user: UserId, username: string, rating: Option<real>, comment: string): (r: Response<Products, Product, ProductError>)
    ensures id !in ps ==> r == Response(ps, Err(ProductNotFound))
    ensures id in ps && HasReviewBy(ps[id], user) ==> r == Response(ps, Err(AlreadyReviewed))
    ensures id in ps && !HasReviewBy(ps[id], user) && rating.None? ==> r == Response(ps, Err(RatingNotANumber))
    ensures r.reply.Ok? <==> id in ps && !HasReviewBy(ps[id], user) && rating.Some?
    ensures r.reply.Ok? ==>
      var p := r.reply.value;
      && r.state == ps[id := p]
      && p.reviews == ps[id].reviews + [Review(user, username, rating.value, comment)]
      && RatingConsistent(p)
      && p == ps[id].(reviews := p.reviews, numReviews := p.numReviews, rating := p.rating)
  {
    if id !in ps then Response(ps, Err(ProductNotFound))
    else if exists i :: 0 <= i < |ps[id].reviews| && ps[id].reviews[i].user == user then
      Response(ps, Err(AlreadyReviewed))
    else if rating.None? then Response(ps, Err(RatingNotANumber))
    else
      var reviews := ps[id].reviews + [Review(user, username, rating.value, comment)];
      FoldRatingsIsSum(0.0, reviews);
      var p := ps[id].(reviews := reviews, numReviews := |reviews|,
                       rating := FoldRatings(0.0, reviews) / (|reviews| as real));
      Response(ps[id := p], Ok(p))
  }

  /** Reviewing keeps every product's rating in step with its reviews. */
  lemma AddReviewKeepsRatingConsistent(ps: Products, id: ProductId, user: UserId, username: string, rating: Option<real>, comment: string)
    requires forall k :: k in ps ==> RatingConsistent(ps[k])
    ensures var r := AddReview(ps, id, user, username, rating, comment);
      forall k :: k in r.state ==> RatingConsistent(r.state[k])
  {
  }

  /** Reviewing keeps "one review per user" on every product. */
  lemma AddReviewKeepsOneReviewPerUser(ps: Products, id: ProductId, user: UserId, username: string, rating: Option<real>, comment: string)
    requires forall k :: k in ps ==> OneReviewPerUser(ps[k])
    ensures var r := AddReview(ps, id, user, username, rating, comment);
      forall k :: k in r.state ==> OneReviewPerUser(r.state[k])
  {
    var r := AddReview(ps, id, user, username, rating, comment);
    if r.reply.Ok? {
      var rs := r.state[id].reviews;
      forall i, j | 0 <= i < j < |rs| ensures rs[i].user != rs[j].user {
        if j == |rs| - 1 {
          assert rs[i] == ps[id].reviews[i];
        }
      }
    }
  }

  /** The sum of ratings that all lie in [lo, hi] lies in [n·lo, n·hi]. */
  lemma {:induction false} RatingSumBounds(rs: seq<Review>, lo: real, hi: real)
    requires forall i :: 0 <= i < |rs| ==> lo <= rs[i].rating <= hi
    ensures (|rs| as real) * lo <= RatingSum(rs) <= (|rs| as real) * hi
    decreases |rs|
  {
    if |rs| > 0 {
      RatingSumBounds(rs[1..], lo, hi);
    }
  }

  /** When every review rates within [lo, hi], so does the average: with
      ratings of 0 to 5 stars the stored rating is a 0-to-5 star value. */
  lemma MeanRatingBounds(rs: seq<Review>, lo: real, hi: real)
    requires |rs| > 0
    requires forall i :: 0 <= i < |rs| ==> lo <= rs[i].rating <= hi
    ensures lo <= MeanRating(rs) <= hi
  {
    RatingSumBounds(rs, lo, hi);
    var n := |rs| as real;
    assert n * lo <= RatingSum(rs) <= n * hi;
    assert RatingSum(rs) / n >= lo by {
      assert RatingSum(rs) >= lo * n;
    }
    assert RatingSum(rs) / n <= hi by {
      assert RatingSum(rs) <= hi * n;
    }
  }

  // ---------------------------------------------------------------- queries

  /** An upper price limit, which the shop may leave open. */
  datatype Bound = Finite(limit: real) | Infinite

  /** The `radio` price filter: none, or a closed interval [lo, hi] in dollars. */
  datatype PriceRange = NoRange | Range(lo: real, hi: Bound)

  /** A price in cents as dollars. */
  function Dollars(cents: nat): real {
    (cents as real) / 100.0
  }

  predicate InRange(cents: nat, lo: real, hi: Bound) {
    lo <= Dollars(cents) && (hi.Infinite? || Dollars(cents) <= hi.limit)
  }

  /** The query `filterProducts` builds: a non-empty `checked` restricts the
      category to its members, a range restricts the price to it. */
  predicate MatchesFilter(p: Product, checked: seq<CategoryId>, radio: PriceRange) {
    && (|checked| > 0 ==> p.category in checked)
    && (radio.Range? ==> InRange(p.price, radio.lo, radio.hi))
  }

  /** `filterProducts`: the documents, in order, that the category and price
      constraints admit; every admitted document is returned. */
  function FilterProducts(docs: seq<Product>, checked: seq<CategoryId>, radio: PriceRange): (r: seq<Product>)
    ensures forall p :: p in r ==> (|checked| > 0 ==> p.category in checked)
    ensures forall p :: p in r && radio.Range? ==> radio.lo <= Dollars(p.price)
    ensures forall p :: p in r && radio.Range? && radio.hi.Finite? ==> Dollars(p.price) <= radio.hi.limit
    ensures forall p :: p in docs && MatchesFilter(p, checked, radio) ==> p in r
    ensures forall p :: p in r ==> p in docs
    ensures Seqs.IsSubsequence(r, docs)
    ensures forall p :: multiset(r)[p] == if MatchesFilter(p, checked, radio) then multiset(docs)[p] else 0
  {
    Seqs.FilterIsSubsequence(docs, (p: Product) => MatchesFilter(p, checked, radio));
    Seqs.Filter(docs, (p: Product) => MatchesFilter(p, checked, radio))
  }

  /** With no category and no price selected, the filter returns every document. */
  lemma FilterWithoutConstraints(docs: seq<Product>)
    ensures FilterProducts(docs, [], NoRange) == docs
  {
    Seqs.FilterKeepsAll(docs, (p: Product) => MatchesFilter(p, [], NoRange));
  }

  function Rating(p: Product): real {
    p.rating
  }

  /** Creation order stands for the database's id order, which grows with time. */
  function Newness(p: Product): real {
    p.createdAt as real
  }

  /** `fetchTopProducts`: up to four products, best rated first, and no product
      left out is rated above one returned. */
  function TopProducts(docs: seq<Product>): (r: seq<Product>)
    ensures |r| == if |docs| < 4 then |docs| else 4
    ensures forall i, j :: 0 <= i < j < |r| ==> r[i].rating >= r[j].rating
    ensures multiset(r) <= multiset(docs)
    ensures forall x, y :: x in multiset(docs) - multiset(r) && y in r ==> x.rating <= y.rating
  {
    Seqs.TopBy(docs, Rating, 4)
  }

  /** `fetchNewProducts`: up to five products, newest first, and no product
      left out is newer than one returned. */
  function NewProducts(docs: seq<Product>): (r: seq<Product>)
    ensures |r| == if |docs| < 5 then |docs| else 5
    ensures forall i, j :: 0 <= i < j < |r| ==> r[i].createdAt >= r[j].createdAt
    ensures multiset(r) <= multiset(docs)
    ensures forall x, y :: x in multiset(docs) - multiset(r) && y in r ==> x.createdAt <= y.createdAt
  {
    Seqs.TopBy(docs, Newness, 5)
  }

  const ProductsPageSize: nat := 12

  /** `getAllProducts` (without the keyword search): page `Number(page) || 1`
      of the products, given newest first, twelve to a page: a page below 1 is
      refused; otherwise the products that follow the earlier pages, up to
      twelve, the page number asked for, the page count and `hasMore`. */
  function ListProducts(newestFirst: seq<Product>, param: Paging.PageParam): (r: Result<Paging.Page<Product>, Paging.PagingError>)
    ensures r.Err? <==> Paging.RequestedPage(param) < 1
    ensures r.Ok? ==> r.value.page == Paging.RequestedPage(param) && r.value.page >= 1
    ensures r.Ok? ==> r.value.items == Paging.Window(newestFirst, ProductsPageSize * (r.value.page - 1), ProductsPageSize)
    ensures r.Ok? ==> |r.value.items| <= ProductsPageSize
    ensures r.Ok? ==> r.value.pages == Paging.CeilDiv(|newestFirst|, ProductsPageSize)
    ensures r.Ok? ==> (r.value.hasMore <==> r.value.page < r.value.pages)
    ensures r.Ok? ==> (r.value.hasMore <==> |newestFirst| > ProductsPageSize * r.value.page)
  {
    Paging.Paginate(newestFirst, param, ProductsPageSize)
  }
}
