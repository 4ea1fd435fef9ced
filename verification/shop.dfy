/** The shop page's filter state and its handlers: category checkboxes, the
    brand toggle, the price range, the reset buttons, the brand filter applied
    to the fetched products, and the list of brands offered. */
module ShopFilters {
  import opened Models
  import opened Listings
  import Catalog
  import Seqs
  import Text

  /** A price box after `parseFloat`: NaN (empty or not a number) or a number. */
  datatype NumberInput = NaN | Parsed(x: real)

  datatype Filters = Filters(
    checked: seq<CategoryId>,
    radio: Catalog.PriceRange,
    selectedBrand: string,
    minPrice: NumberInput,
    maxPrice: NumberInput)

  /** `handleCheck(value, id)`: ticking appends the id, even when it is already
      there; unticking removes every occurrence and keeps the rest in order.
      Nothing else changes. */
  function HandleCheck(f: Filters, value: bool, id: CategoryId): (r: Filters)
    ensures value ==> r.checked == f.checked + [id]
    ensures !value ==> forall c :: c in r.checked <==> c in f.checked && c != id
    ensures !value ==> forall c :: multiset(r.checked)[c] == if c == id then 0 else multiset(f.checked)[c]
    ensures !value ==> Seqs.IsSubsequence(r.checked, f.checked)
    ensures r.(checked := f.checked) == f
  {
    Seqs.FilterIsSubsequence(f.checked, (c: CategoryId) => c != id);
    f.(checked := if value then f.checked + [id] else Seqs.Filter(f.checked, (c: CategoryId) => c != id))
  }

  /** `handleBrandClick`: clicking the selected brand clears the selection,
      clicking any other brand selects it. */
  function HandleBrandClick(f: Filters, brand: string): (r: Filters)
    ensures f.selectedBrand == brand ==> r.selectedBrand == ""
    ensures f.selectedBrand != brand ==> r.selectedBrand == brand
    ensures r.(selectedBrand := f.selectedBrand) == f
  {
    f.(selectedBrand := if f.selectedBrand == brand then "" else brand)
  }

  /** Clicking the same brand twice returns to where one started, when no
      brand or that brand was selected. */
  lemma BrandClickTwice(f: Filters, brand: string)
    requires f.selectedBrand == "" || f.selectedBrand == brand
    ensures HandleBrandClick(HandleBrandClick(f, brand), brand) == f
  {
  }

  /** `parseFloat(minPrice) || 0`: NaN and 0 give 0. */
  function MinBound(input: NumberInput): real {
    if input.Parsed? then input.x else 0.0
  }

  /** `parseFloat(maxPrice) || Infinity`: NaN and 0, both falsy, leave the top open. */
  function MaxBound(input: NumberInput): (b: Catalog.Bound)
    ensures b.Infinite? <==> input.NaN? || input.x == 0.0
  {
    if input.Parsed? && input.x != 0.0 then Catalog.Finite(input.x) else Catalog.Infinite
  }

  /** `handlePriceFilter`: a non-zero maximum below the minimum is refused and
      the filters stay as they were; otherwise the range becomes [min, max],
      open above when the maximum box is empty, not a number, or 0. The boxes,
      the categories and the brand are never touched. */
  function HandlePriceFilter(f: Filters): (r: Filters)
    ensures r.checked == f.checked && r.selectedBrand == f.selectedBrand
    ensures r.minPrice == f.minPrice && r.maxPrice == f.maxPrice
    ensures var refused := f.maxPrice.Parsed? && f.maxPrice.x != 0.0 && f.maxPrice.x < MinBound(f.minPrice);
      && (refused ==> r.radio == f.radio)
      && (!refused ==> r.radio.Range? && r.radio.lo == MinBound(f.minPrice))
      && (!refused ==> (r.radio.hi.Infinite? <==> f.maxPrice.NaN? || f.maxPrice.x == 0.0))
      && (!refused && f.maxPrice.Parsed? && f.maxPrice.x != 0.0 ==> r.radio.hi == Catalog.Finite(f.maxPrice.x))
  {
    var lo := MinBound(f.minPrice);
    var hi := MaxBound(f.maxPrice);
    if hi.Finite? && hi.limit < lo then f else f.(radio := Catalog.Range(lo, hi))
  }

  /** A maximum of 0 does not mean "up to 0": it leaves the range open above,
      so it is never refused. */
  lemma ZeroMaximumIsUnbounded(f: Filters)
    requires f.maxPrice == Parsed(0.0)
    ensures HandlePriceFilter(f).radio == Catalog.Range(MinBound(f.minPrice), Catalog.Infinite)
  {
  }

  /** A range the handler sets is never empty: its maximum, when finite, is
      at least its minimum. */
  lemma PriceFilterRangeNonEmpty(f: Filters)
    requires HandlePriceFilter(f) != f
    ensures var r := HandlePriceFilter(f).radio;
      r.Range? && (r.hi.Finite? ==> r.lo <= r.hi.limit)
  {
  }

  /** `clearPriceFilter`: empties both price boxes and the range. */
  function ClearPriceFilter(f: Filters): (r: Filters)
    ensures r.radio.NoRange? && r.minPrice.NaN? && r.maxPrice.NaN?
    ensures r.checked == f.checked && r.selectedBrand == f.selectedBrand
  {
    f.(radio := Catalog.NoRange, minPrice := NaN, maxPrice := NaN)
  }

  /** `handleReset`: clears categories, price range, price boxes and brand. */
  function HandleReset(f: Filters): (r: Filters)
    ensures r.checked == [] && r.radio.NoRange? && r.selectedBrand == ""
    ensures r.minPrice.NaN? && r.maxPrice.NaN?
  {
    Filters([], Catalog.NoRange, "", NaN, NaN)
  }

  /** After a reset the backend filter returns every product. */
  lemma ResetShowsEverything(f: Filters, docs: seq<Product>)
    ensures var r := HandleReset(f);
      Catalog.FilterProducts(docs, r.checked, r.radio) == docs
  {
    Catalog.FilterWithoutConstraints(docs);
  }

  /** The brand effect: with a brand selected, exactly the products of that
      brand, in order; with none, every product. */
  function BrandFilter(docs: seq<Listing>, selected: string): (r: seq<Listing>)
    ensures selected == "" ==> r == docs
    ensures selected != "" ==> forall p :: p in r <==> p in docs && p.brand == selected
    ensures selected != "" ==> Seqs.IsSubsequence(r, docs)
    ensures selected != "" ==> forall p :: multiset(r)[p] == if p.brand == selected then multiset(docs)[p] else 0
  {
    Seqs.FilterIsSubsequence(docs, (p: Listing) => p.brand == selected);
    if selected == "" then docs else Seqs.Filter(docs, (p: Listing) => p.brand == selected)
  }

  /** `brand && brand.trim() !== ""`: a brand is offered exactly when some
      character of it is not whitespace. */
  method UsableBrand(b: string) returns (u: bool)
    ensures u <==> Text.HasNonSpace(b)
  {
    Text.HasNonSpaceIffNotBlank(b);
    u := b != "" && Text.Trim(b) != "";
  }

  /** Position of the first product of brand `b`; `|docs|` when there is none. */
  function FirstBrandIndex(docs: seq<Listing>, b: string): (k: nat)
    ensures k <= |docs|
    ensures k < |docs| ==> docs[k].brand == b
    ensures forall i :: 0 <= i < k ==> docs[i].brand != b
  {
    if |docs| == 0 || docs[0].brand == b then 0 else 1 + FirstBrandIndex(docs[1..], b)
  }

  /** Moving past position `n` adds exactly the brand found there to the
      brands already seen, with `n` as its first position if it is new. */
  lemma FirstBrandIndexStep(docs: seq<Listing>, n: nat)
    requires n < |docs|
    ensures FirstBrandIndex(docs, docs[n].brand) <= n
    ensures forall b :: FirstBrandIndex(docs, b) < n + 1 <==> FirstBrandIndex(docs, b) < n || b == docs[n].brand
  {
  }

  /** `uniqueBrands`: the brands that pass `brand && brand.trim() !== ""`
      (the non-blank ones), each once, in the order of first appearance. */
  method UniqueBrands(docs: seq<Listing>) returns (brands: seq<string>)
    ensures forall i, j :: 0 <= i < j < |brands| ==> brands[i] != brands[j]
    ensures forall b :: b in brands <==> Text.HasNonSpace(b) && FirstBrandIndex(docs, b) < |docs|
    ensures forall k :: 0 <= k < |docs| && Text.HasNonSpace(docs[k].brand) ==> docs[k].brand in brands
    ensures forall i, j :: 0 <= i < j < |brands| ==> FirstBrandIndex(docs, brands[i]) < FirstBrandIndex(docs, brands[j])
  {
    brands := [];
    var n := 0;
    while n < |docs|
      invariant 0 <= n <= |docs|
      invariant forall i, j :: 0 <= i < j < |brands| ==> brands[i] != brands[j]
      invariant forall b :: b in brands <==> Text.HasNonSpace(b) && FirstBrandIndex(docs, b) < n
      invariant forall i, j :: 0 <= i < j < |brands| ==> FirstBrandIndex(docs, brands[i]) < FirstBrandIndex(docs, brands[j])
    {
      var b := docs[n].brand;
      FirstBrandIndexStep(docs, n);
      var usable := UsableBrand(b);
      if usable && b !in brands {
        brands := brands + [b];
      }
      n := n + 1;
    }
    forall k | 0 <= k < |docs| && Text.HasNonSpace(docs[k].brand)
      ensures docs[k].brand in brands
    {
      assert FirstBrandIndex(docs, docs[k].brand) <= k;
    }
  }
}
