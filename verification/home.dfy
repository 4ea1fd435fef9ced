/** The home page's "load more" feed: the page counter, and how each
    response is merged into the products already shown. */
module HomeFeed {
  import opened Results
  import opened Listings
  import Seqs

  /** What the page keeps between renders. `page` starts at 1. */
  datatype Feed = Feed(page: nat, shown: seq<Listing>)

  /** The entries of `fetched` whose id is not already shown, in order. */
  function Unseen(shown: seq<Listing>, fetched: seq<Listing>): (r: seq<Listing>)
    ensures forall x :: x in r <==> x in fetched && x.id !in Ids(shown)
    ensures Seqs.IsSubsequence(r, fetched)
    ensures forall x :: multiset(r)[x] == if x.id !in Ids(shown) then multiset(fetched)[x] else 0
  {
    var seen := Ids(shown);
    Seqs.FilterIsSubsequence(fetched, (p: Listing) => p.id !in seen);
    Seqs.Filter(fetched, (p: Listing) => p.id !in seen)
  }

  /** The effect on `data`: `fetched` is `None` when the response has no
      product array. On page 1 the response replaces the list; on a later
      page the products not yet shown are appended after the others. */
  function Merge(shown: seq<Listing>, page: nat, fetched: Option<seq<Listing>>): (r: seq<Listing>)
    ensures fetched.None? ==> r == shown
    ensures fetched.Some? && page == 1 ==> r == fetched.value
    ensures fetched.Some? && page != 1 ==>
      && |r| >= |shown| && r[..|shown|] == shown
      && Seqs.IsSubsequence(r[|shown|..], fetched.value)
      && forall x :: multiset(r[|shown|..])[x] == if x.id !in Ids(shown) then multiset(fetched.value)[x] else 0
  {
    match fetched
    case None => shown
    case Some(docs) =>
      if page == 1 then docs
      else
        var r := shown + Unseen(shown, docs);
        assert r[..|shown|] == shown && r[|shown|..] == Unseen(shown, docs);
        r
  }

  /** `handleLoadMore`: asks for the next page and keeps what is shown. */
  function LoadMore(f: Feed): (r: Feed)
    ensures r.page == f.page + 1 && r.shown == f.shown
  {
    f.(page := f.page + 1)
  }

  /** The effect on `keyword`: back to page 1. The list is left alone until
      the first page of the new search arrives. */
  function KeywordChanged(f: Feed): (r: Feed)
    ensures r.page == 1 && r.shown == f.shown
  {
    f.(page := 1)
  }

  /** A response arriving for the feed's current page. */
  function Receive(f: Feed, fetched: Option<seq<Listing>>): (r: Feed)
    ensures r.page == f.page
    ensures r.shown == Merge(f.shown, f.page, fetched)
  {
    f.(shown := Merge(f.shown, f.page, fetched))
  }

  /** Appending a list whose ids are all new keeps ids distinct, and the
      ids of the whole are the ids of both parts. */
  lemma AppendDistinct(a: seq<Listing>, b: seq<Listing>)
    requires DistinctIds(a) && DistinctIds(b)
    requires Ids(a) !! Ids(b)
    ensures DistinctIds(a + b)
    ensures Ids(a + b) == Ids(a) + Ids(b)
  {
    var r := a + b;
    forall i, j | 0 <= i < j < |r| ensures r[i].id != r[j].id {
      if i < |a| && j >= |a| {
        assert r[i].id in Ids(a);
        assert r[j] == b[j - |a|];
      }
    }
    forall id | id in Ids(a) + Ids(b) ensures id in Ids(r) {
      if id in Ids(a) {
        var k :| 0 <= k < |a| && a[k].id == id;
        assert r[k] == a[k];
      } else {
        var k :| 0 <= k < |b| && b[k].id == id;
        assert r[|a| + k] == b[k];
      }
    }
  }

  /** The unseen part of a page has distinct ids when the page has, and its
      ids are the page's ids not already shown. */
  lemma UnseenIds(shown: seq<Listing>, fetched: seq<Listing>)
    requires DistinctIds(fetched)
    ensures DistinctIds(Unseen(shown, fetched))
    ensures Ids(Unseen(shown, fetched)) == Ids(fetched) - Ids(shown)
  {
    var seen := Ids(shown);
    var keep := (p: Listing) => p.id !in seen;
    var extra := Unseen(shown, fetched);
    Listings.FilterKeepsDistinct(fetched, keep);
    forall id | id in Ids(fetched) - seen ensures id in Ids(extra) {
      var k :| 0 <= k < |fetched| && fetched[k].id == id;
      assert fetched[k] in extra;
    }
    forall id | id in Ids(extra) ensures id in Ids(fetched) - seen {
      var k :| 0 <= k < |extra| && extra[k].id == id;
      assert extra[k] in fetched;
    }
  }

  /** When the list shown and the page received have distinct ids, so has
      the merged list; and its ids are exactly the ids of both (page > 1) or
      of the page alone (page 1). */
  lemma MergeKeepsDistinct(shown: seq<Listing>, page: nat, fetched: seq<Listing>)
    requires DistinctIds(shown) && DistinctIds(fetched)
    ensures DistinctIds(Merge(shown, page, Some(fetched)))
    ensures page != 1 ==> Ids(Merge(shown, page, Some(fetched))) == Ids(shown) + Ids(fetched)
  {
    if page != 1 {
      var extra := Unseen(shown, fetched);
      UnseenIds(shown, fetched);
      AppendDistinct(shown, extra);
      assert Merge(shown, page, Some(fetched)) == shown + extra;
    }
  }

  /** Changing the search and receiving its first page shows that page and
      nothing from the previous search, whatever had been loaded before. */
  lemma NewSearchDropsOldResults(f: Feed, fetched: seq<Listing>)
    ensures Receive(KeywordChanged(f), Some(fetched)) == Feed(1, fetched)
  {
  }

  /** A response without a product array leaves the feed as it was. */
  lemma MissingProductsIgnored(f: Feed)
    ensures Receive(f, None) == f
  {
  }
}
