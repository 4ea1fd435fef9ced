/** Offset pagination as the list handlers do it: `page = Number(req.query.page) || 1`,
    `skip(size * (page - 1))`, `limit(size)`, `pages = ceil(count / size)` and
    `hasMore = page < pages`. */
module Paging {
  import opened Results

  /** The `page` query parameter after `Number(...)`: missing, not a number, or a whole number. */
  datatype PageParam = Absent | NotANumber | Number(n: int)

  /** A negative page gives the query a negative skip, which the database refuses. */
  datatype PagingError = NegativeSkip(skip: int)

  datatype Page<T> = Page(items: seq<T>, page: int, pages: nat, hasMore: bool)

  /** `Number(req.query.page) || 1`: NaN and 0 are falsy and fall back to page 1. */
  function RequestedPage(p: PageParam): (n: int)
    ensures n != 0
    ensures p.Number? && p.n != 0 ==> n == p.n
    ensures !p.Number? || p.n == 0 ==> n == 1
  {
    match p
    case Number(k) => if k == 0 then 1 else k
    case _ => 1
  }

  /** `Math.ceil(n / d)` on whole numbers: the fewest pages of `d` that hold `n` documents. */
  function CeilDiv(n: nat, d: nat): (r: nat)
    requires d > 0
    ensures n <= r * d
    ensures r == 0 || (r - 1) * d < n
  {
    if n == 0 then 0 else 1 + CeilDiv(if n <= d then 0 else n - d, d)
  }

  /** `skip(skip).limit(size)`: the documents from position `skip` on, at most `size` of them. */
  function Window<T>(docs: seq<T>, skip: nat, size: nat): (r: seq<T>)
    ensures |r| == if |docs| <= skip then 0 else if |docs| - skip < size then |docs| - skip else size
    ensures forall i :: 0 <= i < |r| ==> r[i] == docs[skip + i]
  {
    if |docs| <= skip then [] else docs[skip .. if |docs| - skip < size then |docs| else skip + size]
  }

  /** How many documents precede page `page`. */
  function Skip(size: nat, page: int): (k: int)
    ensures page >= 1 ==> k >= 0
  {
    SkipSign(size, page - 1);
    size * (page - 1)
  }

  lemma SkipSign(a: nat, b: int)
    ensures b >= 0 ==> a * b >= 0
  {
  }

  /** Page number `page` (counted from 1) of `docs`, `size` documents per page:
      a page below 1 is refused; otherwise the window of the documents that
      follow the earlier pages, as many as remain up to `size`, the page
      number asked for, the page count, and whether any document comes after
      this page. */
  function Paginate<T>(docs: seq<T>, param: PageParam, size: nat): (r: Result<Page<T>, PagingError>)
    requires size > 0
    ensures r.Err? <==> RequestedPage(param) < 1
    ensures r.Ok? ==> r.value.page == RequestedPage(param) && Skip(size, r.value.page) >= 0
    ensures r.Ok? ==> r.value.items == Window(docs, Skip(size, r.value.page), size)
    ensures r.Ok? ==> r.value.pages == CeilDiv(|docs|, size)
    ensures r.Ok? ==> (r.value.hasMore <==> |docs| > size * r.value.page)
  {
    var page := RequestedPage(param);
    if page < 1 then Err(NegativeSkip(Skip(size, page)))
    else
      var skip: nat := Skip(size, page);
      var pages := CeilDiv(|docs|, size);
      HasMoreMeaning(|docs|, size, page, pages);
      var items := Window(docs, skip, size);
      Ok(Page(items, page, pages, page < pages))
  }

  /** Every document on a page is one of the documents paged. */
  lemma PageWithin<T>(docs: seq<T>, param: PageParam, size: nat)
    requires size > 0
    ensures var r := Paginate(docs, param, size);
      r.Ok? ==> forall x :: x in r.value.items ==> x in docs
  {
    var r := Paginate(docs, param, size);
    if r.Ok? {
      forall x | x in r.value.items ensures x in docs {
        var i :| 0 <= i < |r.value.items| && r.value.items[i] == x;
        assert x == docs[Skip(size, r.value.page) + i];
      }
    }
  }

  /** Multiplying by a natural number keeps order. */
  lemma MulMonotone(c: nat, a: int, b: int)
    requires a <= b
    ensures c * a <= c * b
  {
  }

  /** With `pages = ceil(count / size)`, a page before the last one is exactly
      a page after which documents remain. */
  lemma HasMoreMeaning(count: nat, size: nat, page: int, pages: nat)
    requires size > 0 && page >= 1
    requires count <= pages * size && (pages == 0 || (pages - 1) * size < count)
    ensures page < pages <==> count > size * page
  {
    if page < pages {
      MulMonotone(size, page, pages - 1);
      assert (pages - 1) * size == size * (pages - 1);
    } else {
      MulMonotone(size, pages, page);
      assert pages * size == size * pages;
    }
  }

  /** The documents a client holds after requesting pages 1 to `k` in turn. */
  function Loaded<T>(docs: seq<T>, size: nat, k: nat): seq<T>
    requires size > 0
  {
    if k == 0 then [] else Loaded(docs, size, k - 1) + Paginate(docs, Number(k), size).value.items
  }

  /** `n` capped at `len`. */
  function Cap(n: nat, len: nat): nat {
    if n < len then n else len
  }

  /** Page `k` is the slice of the documents between the first `size·(k-1)`
      and the first `size·k`, both capped at the number of documents. */
  lemma PageSlice<T>(docs: seq<T>, size: nat, k: nat)
    requires size > 0 && k >= 1
    ensures var before: nat := Skip(size, k);
      Paginate(docs, Number(k), size).Ok?
      && before + size == size * k
      && Paginate(docs, Number(k), size).value.items == docs[Cap(before, |docs|)..Cap(before + size, |docs|)]
  {
    var before: nat := Skip(size, k);
    assert before + size == size * k;
    var items := Paginate(docs, Number(k), size).value.items;
    var lo, hi := Cap(before, |docs|), Cap(before + size, |docs|);
    assert |items| == hi - lo;
    forall i | 0 <= i < |items| ensures items[i] == docs[lo..hi][i] { }
  }

  /** A prefix followed by the slice after it is the longer prefix. */
  lemma SliceJoin<T>(docs: seq<T>, lo: nat, hi: nat)
    requires lo <= hi <= |docs|
    ensures docs[..lo] + docs[lo..hi] == docs[..hi]
  {
  }

  /** Pages 1 to `k` are consecutive and do not overlap: together they are the
      first `size * k` documents (or all of them). */
  lemma {:induction false} LoadedIsPrefix<T>(docs: seq<T>, size: nat, k: nat)
    requires size > 0
    ensures size * k >= 0
    ensures Loaded(docs, size, k) == docs[..Cap(size * k, |docs|)]
  {
    SkipSign(size, k);
    if k > 0 {
      LoadedIsPrefix(docs, size, k - 1);
      PageSlice(docs, size, k);
      var before: nat := Skip(size, k);
      SliceJoin(docs, Cap(before, |docs|), Cap(size * k, |docs|));
    }
  }

  /** Requesting every page from 1 to `pages` returns the whole collection,
      each document once and in order. */
  lemma PagesCoverAll<T>(docs: seq<T>, size: nat)
    requires size > 0
    ensures Loaded(docs, size, CeilDiv(|docs|, size)) == docs
  {
    var pages := CeilDiv(|docs|, size);
    LoadedIsPrefix(docs, size, pages);
    assert |docs| <= size * pages;
    assert docs[..|docs|] == docs;
  }
}
