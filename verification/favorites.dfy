/** The favorites reducers: add a product unless one with its id is already
    there, remove every entry with a given id. */
module Favorites {
  import opened Models
  import opened Listings
  import Seqs

  /** `addToFavorites`: appends the payload only when no entry has its id. */
  function Add(favs: seq<Listing>, p: Listing): (r: seq<Listing>)
    ensures p.id in Ids(favs) ==> r == favs
    ensures p.id !in Ids(favs) ==> r == favs + [p]
    ensures p.id in Ids(r)
    ensures |r| >= |favs| && r[..|favs|] == favs
  {
    if exists i :: 0 <= i < |favs| && favs[i].id == p.id then favs
    else
      var r := favs + [p];
      assert r[|favs|].id == p.id;
      r
  }

  /** `removeFromFavorites`: drops every entry with the payload's id and keeps
      the others in their order. */
  function Remove(favs: seq<Listing>, p: Listing): (r: seq<Listing>)
    ensures forall x :: x in r <==> x in favs && x.id != p.id
    ensures Seqs.IsSubsequence(r, favs)
    ensures forall x :: multiset(r)[x] == if x.id != p.id then multiset(favs)[x] else 0
    ensures p.id !in Ids(r)
    ensures p.id !in Ids(favs) ==> r == favs
  {
    var r := Seqs.Filter(favs, (x: Listing) => x.id != p.id);
    Seqs.FilterIsSubsequence(favs, (x: Listing) => x.id != p.id);
    assert p.id !in Ids(favs) ==> r == favs by {
      if p.id !in Ids(favs) {
        Seqs.FilterKeepsAll(favs, (x: Listing) => x.id != p.id);
      }
    }
    r
  }

  /** Adding the same product twice is the same as adding it once. */
  lemma AddIdempotent(favs: seq<Listing>, p: Listing)
    ensures Add(Add(favs, p), p) == Add(favs, p)
  {
  }

  /** Both reducers keep "no two entries share an id". */
  lemma ReducersKeepDistinctIds(favs: seq<Listing>, p: Listing)
    requires DistinctIds(favs)
    ensures DistinctIds(Add(favs, p))
    ensures DistinctIds(Remove(favs, p))
  {
    var r := Remove(favs, p);
    Listings.FilterKeepsDistinct(favs, (x: Listing) => x.id != p.id);
  }
}
