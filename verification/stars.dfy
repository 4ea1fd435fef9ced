/** The rating widget: how a rating is split into full, half and empty stars. */
module Stars {
  import opened Models
  import Catalog

  datatype StarSplit = StarSplit(full: int, half: int, empty: int)

  /** `fullStars = Math.floor(value)`, a half star when the fractional part
      is at least one half, and `emptyStars = 5 - fullStars - halfStar`. */
  function Split(value: real): (s: StarSplit)
    ensures s.full as real <= value < s.full as real + 1.0
    ensures s.half == (if value - s.full as real >= 0.5 then 1 else 0)
    ensures s.full + s.half + s.empty == 5
  {
    var full := value.Floor;
    var half := if value - full as real >= 0.5 then 1 else 0;
    StarSplit(full, half, 5 - full - half)
  }

  /** A whole-number rating never shows a half star. */
  lemma WholeRatingNoHalf(k: int)
    ensures Split(k as real) == StarSplit(k, 0, 5 - k)
  {
  }

  /** The three counts are all usable array lengths exactly when the rating
      is at least 0 and below 5.5; a rating in [5, 5.5) still draws five
      full stars and no empty one. */
  lemma CountsNonNegativeIff(value: real)
    ensures var s := Split(value);
      (s.full >= 0 && s.half >= 0 && s.empty >= 0) <==> 0.0 <= value < 5.5
  {
    var s := Split(value);
    if 0.0 <= value < 5.5 {
      assert s.full <= 5;
      if s.full == 5 {
        assert value - 5.0 < 0.5;
      }
    }
  }

  /** A product whose reviews all rate between 0 and 5 and whose rating is
      their mean (or still the initial 0) shows between 0 and 5 stars of
      each kind. */
  lemma ProductStarsInRange(p: Product)
    requires Catalog.RatingConsistent(p)
    requires |p.reviews| == 0 ==> p.rating == 0.0
    requires forall i :: 0 <= i < |p.reviews| ==> 0.0 <= p.reviews[i].rating <= 5.0
    ensures var s := Split(p.rating);
      0 <= s.full <= 5 && 0 <= s.half <= 1 && 0 <= s.empty <= 5
  {
    if |p.reviews| > 0 {
      Catalog.MeanRatingBounds(p.reviews, 0.0, 5.0);
    }
    CountsNonNegativeIff(p.rating);
  }
}
