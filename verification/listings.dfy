/** Products as the browser holds them: the JSON documents the API returned,
    identified by `_id`. */
module Listings {
  import opened Models
  import Seqs

  datatype Listing = Listing(id: ProductId, name: string, brand: string, price: nat, category: CategoryId)

  /** The ids present in a list. */
  function Ids(s: seq<Listing>): set<ProductId> {
    set i | 0 <= i < |s| :: s[i].id
  }

  /** No two entries share an `_id`. */
  predicate DistinctIds(s: seq<Listing>) {
    forall i, j :: 0 <= i < j < |s| ==> s[i].id != s[j].id
  }

  /** Filtering a list with distinct ids leaves a list with distinct ids. */
  lemma {:induction false} FilterKeepsDistinct(s: seq<Listing>, keep: Listing -> bool)
    requires DistinctIds(s)
    ensures DistinctIds(Seqs.Filter(s, keep))
    decreases |s|
  {
    if |s| > 0 {
      FilterKeepsDistinct(s[1..], keep);
      var rest := Seqs.Filter(s[1..], keep);
      forall x | x in rest ensures x.id != s[0].id {
        var k :| 0 <= k < |s[1..]| && s[1..][k] == x;
        assert s[k + 1] == x;
      }
    }
  }
}
