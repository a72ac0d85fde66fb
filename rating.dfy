/**
 * The arithmetic of review ratings. A review carries six integer sub-ratings in 0..5 and a
 * stored average; a game carries the mean of its reviews' stored averages. Every average is
 * kept as an exact integer number of hundredths (2.50 is 250), never as a binary double.
 */
module Rating {
  import opened Common

  const MinRating: int := 0
  const MaxRating: int := 5

  /** The six sub-ratings of a stored review, in the order the services list them. */
  datatype Ratings = Ratings(
    gameplay: int, visual: int, audio: int,
    difficulty: int, immersion: int, history: int)

  function Total(r: Ratings): int {
    r.gameplay + r.visual + r.audio + r.difficulty + r.immersion + r.history
  }

  predicate InRange(r: Ratings) {
    && MinRating <= r.gameplay <= MaxRating
    && MinRating <= r.visual <= MaxRating
    && MinRating <= r.audio <= MaxRating
    && MinRating <= r.difficulty <= MaxRating
    && MinRating <= r.immersion <= MaxRating
    && MinRating <= r.history <= MaxRating
  }

  /**
   * A rating field of a request body: `Some(x)` when the field is a JavaScript number `x`,
   * `None` for anything else (absent, `null`, a string, `NaN`, an infinity), all of which
   * the services reject.
   */
  predicate ValidRating(v: Option<real>) {
    v.Some? && MinRating as real <= v.value <= MaxRating as real && v.value.Floor as real == v.value
  }

  /** The loop both review services run before touching the store: stop at the first bad rating. */
  method AllRatingsValid(ratings: seq<Option<real>>) returns (ok: bool)
    ensures ok <==> forall i :: 0 <= i < |ratings| ==> ValidRating(ratings[i])
  {
    var i := 0;
    while i < |ratings|
      invariant 0 <= i <= |ratings|
      invariant forall j :: 0 <= j < i ==> ValidRating(ratings[j])
    {
      var rating := ratings[i];
      if rating.None? || rating.value < MinRating as real || rating.value > MaxRating as real
         || rating.value.Floor as real != rating.value
      {
        return false;
      }
      i := i + 1;
    }
    return true;
  }

  /**
   * `v` is within half a unit of `total / count` (ties allowed on either side): the property
   * `toFixed` promises whichever way it breaks a tie.
   */
  predicate WithinHalf(v: int, total: int, count: int)
    requires count > 0
  {
    count * (2 * v - 1) <= 2 * total <= count * (2 * v + 1)
  }

  /** The integer nearest to `total / count`, a half rounding upwards. */
  function RoundedMean(total: int, count: int): (v: int)
    requires count > 0
    ensures count * (2 * v - 1) <= 2 * total < count * (2 * v + 1)
    ensures WithinHalf(v, total, count)
  {
    var n, d := 2 * total + count, 2 * count;
    assert n == d * (n / d) + n % d && 0 <= n % d < d;
    n / d
  }

  /** Multiplying by a positive count keeps the order. */
  lemma MulMonotone(count: int, a: int, b: int)
    requires count > 0 && a <= b
    ensures count * a <= count * b
  {
  }

  /** Two values within half a unit of the same mean are equal unless the mean sits on a half. */
  lemma NearestIsUnique(v: int, w: int, total: int, count: int)
    requires count > 0
    requires WithinHalf(v, total, count) && WithinHalf(w, total, count)
    requires 2 * total != count * (2 * v - 1) && 2 * total != count * (2 * v + 1)
    ensures v == w
  {
    if w < v {
      MulMonotone(count, 2 * w + 1, 2 * v - 1);
    } else if w > v {
      MulMonotone(count, 2 * v + 1, 2 * w - 1);
    }
  }

  /** A mean of values in [lo, hi] rounds into [lo, hi]. */
  lemma RoundedMeanBetween(total: int, count: int, lo: int, hi: int)
    requires count > 0 && count * lo <= total <= count * hi
    ensures lo <= RoundedMean(total, count) <= hi
  {
    var v := RoundedMean(total, count);
    if v > hi {
      MulMonotone(count, 2 * hi + 1, 2 * v - 1);
    }
    if v < lo {
      MulMonotone(count, 2 * v + 1, 2 * lo - 1);
    }
  }

  /**
   * A review's stored average in hundredths: `(sum / 6).toFixed(2)`. It is the unique
   * hundredth strictly nearer than 0.005 to the exact mean, so no rounding tie can arise.
   */
  function RecordAverage(r: Ratings): (h: int)
    requires InRange(r)
    ensures 0 <= h <= 500
    ensures 6 * h - 3 < 100 * Total(r) < 6 * h + 3
  {
    RoundedMean(100 * Total(r), 6)
  }

  /** Any hundredth within 0.005 of a review's exact mean is its stored average: no tie. */
  lemma RecordAverageHasNoTie(r: Ratings, h: int)
    requires InRange(r)
    requires WithinHalf(h, 100 * Total(r), 6)
    ensures h == RecordAverage(r)
  {
    var k := Total(r);
    assert 200 * k != 6 * (2 * h - 1) && 200 * k != 6 * (2 * h + 1);
    NearestIsUnique(h, RecordAverage(r), 100 * k, 6);
  }

  /** Scores [5,4,3,2,1,0] store 2.50; with a second review of all zeros the game mean is 1.25. */
  lemma TwoReviewExample()
    ensures RecordAverage(Ratings(5, 4, 3, 2, 1, 0)) == 250
    ensures RecordAverage(Ratings(0, 0, 0, 0, 0, 0)) == 0
    ensures RoundedMean(250 + 0, 2) == 125
  {
  }
}
