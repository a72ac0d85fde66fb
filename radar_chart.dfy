/**
 * The per-aspect averages behind a game page's radar chart: for each of the six aspects the
 * mean of the raw ratings over all of the game's reviews, to one decimal place. Results are
 * integers in tenths.
 */
module RadarChart {
  import opened Common
  import Rating

  /** A review's six ratings as the page receives them; any of them may be missing. */
  datatype AspectRatings = AspectRatings(
    gameplay: Option<int>, visual: Option<int>, audio: Option<int>,
    difficulty: Option<int>, immersion: Option<int>, history: Option<int>)

  /** One number per aspect. */
  datatype Aspects = Aspects(
    gameplay: int, visual: int, audio: int, difficulty: int, immersion: int, history: int)

  const Zero := Aspects(0, 0, 0, 0, 0, 0)

  /** `rating || 0`: a missing rating, like a zero one, adds 0. */
  function Or0(x: Option<int>): int {
    x.GetOr(0)
  }

  /** The reducer: each accumulator field grows by the review's rating for that aspect. */
  function Accumulate(acc: Aspects, r: AspectRatings): Aspects {
    Aspects(
      acc.gameplay + Or0(r.gameplay), acc.visual + Or0(r.visual), acc.audio + Or0(r.audio),
      acc.difficulty + Or0(r.difficulty), acc.immersion + Or0(r.immersion), acc.history + Or0(r.history))
  }

  function Plus(a: Aspects, b: Aspects): Aspects {
    Aspects(
      a.gameplay + b.gameplay, a.visual + b.visual, a.audio + b.audio,
      a.difficulty + b.difficulty, a.immersion + b.immersion, a.history + b.history)
  }

  /** `reviews.reduce(reducer, zeros)`: a left fold over the reviews. */
  function Totals(reviews: seq<AspectRatings>): Aspects {
    if |reviews| == 0 then Zero else Accumulate(Totals(reviews[..|reviews| - 1]), reviews[|reviews| - 1])
  }

  /** The fold splits over a concatenation, so the totals do not depend on how the list is cut. */
  lemma {:induction false} TotalsAppend(a: seq<AspectRatings>, b: seq<AspectRatings>)
    ensures Totals(a + b) == Plus(Totals(a), Totals(b))
    decreases |b|
  {
    if |b| == 0 {
      assert a + b == a;
    } else {
      var b', last := b[..|b| - 1], b[|b| - 1];
      assert (a + b)[..|a + b| - 1] == a + b';
      assert (a + b)[|a + b| - 1] == last;
      TotalsAppend(a, b');
      AccumulateAfterPlus(Totals(a), Totals(b'), last);
      assert Totals(a + b) == Accumulate(Totals(a + b'), last);
    }
  }

  lemma AccumulateAfterPlus(x: Aspects, y: Aspects, r: AspectRatings)
    ensures Accumulate(Plus(x, y), r) == Plus(x, Accumulate(y, r))
  {
  }

  /** Each total of one review is that review's rating, or 0 when it is missing. */
  lemma SingleReviewTotals(r: AspectRatings)
    ensures Totals([r]) == Aspects(
      Or0(r.gameplay), Or0(r.visual), Or0(r.audio), Or0(r.difficulty), Or0(r.immersion), Or0(r.history))
  {
    assert [r][..0] == [];
  }

  function Sum(a: Aspects): int {
    a.gameplay + a.visual + a.audio + a.difficulty + a.immersion + a.history
  }

  /** The sum of one review's six ratings, missing ones as 0. */
  function RowSum(r: AspectRatings): int {
    Or0(r.gameplay) + Or0(r.visual) + Or0(r.audio) + Or0(r.difficulty) + Or0(r.immersion) + Or0(r.history)
  }

  function RowSums(reviews: seq<AspectRatings>): int {
    if |reviews| == 0 then 0 else RowSums(reviews[..|reviews| - 1]) + RowSum(reviews[|reviews| - 1])
  }

  /**
   * Summing the six aspect totals counts every rating once, as summing each review's ratings
   * does: the radar's aspects partition the same ratings the server's per-review totals use.
   */
  lemma {:induction false} SumOfTotals(reviews: seq<AspectRatings>)
    ensures Sum(Totals(reviews)) == RowSums(reviews)
  {
    if |reviews| > 0 {
      SumOfTotals(reviews[..|reviews| - 1]);
    }
  }

  /** A review whose six ratings are all present is the server's rating record. */
  lemma RowSumIsServerTotal(r: AspectRatings, g: Rating.Ratings)
    requires r == AspectRatings(Some(g.gameplay), Some(g.visual), Some(g.audio),
                                Some(g.difficulty), Some(g.immersion), Some(g.history))
    ensures RowSum(r) == Rating.Total(g)
  {
  }

  /** Every present rating lies in the server's range. */
  predicate Bounded(r: AspectRatings) {
    && (r.gameplay.Some? ==> Rating.MinRating <= r.gameplay.value <= Rating.MaxRating)
    && (r.visual.Some? ==> Rating.MinRating <= r.visual.value <= Rating.MaxRating)
    && (r.audio.Some? ==> Rating.MinRating <= r.audio.value <= Rating.MaxRating)
    && (r.difficulty.Some? ==> Rating.MinRating <= r.difficulty.value <= Rating.MaxRating)
    && (r.immersion.Some? ==> Rating.MinRating <= r.immersion.value <= Rating.MaxRating)
    && (r.history.Some? ==> Rating.MinRating <= r.history.value <= Rating.MaxRating)
  }

  predicate Between(a: Aspects, lo: int, hi: int) {
    && lo <= a.gameplay <= hi && lo <= a.visual <= hi && lo <= a.audio <= hi
    && lo <= a.difficulty <= hi && lo <= a.immersion <= hi && lo <= a.history <= hi
  }

  /** With ratings in range, each total lies between 0 and 5 per review. */
  lemma {:induction false} TotalsBounded(reviews: seq<AspectRatings>)
    requires forall i :: 0 <= i < |reviews| ==> Bounded(reviews[i])
    ensures Between(Totals(reviews), 0, Rating.MaxRating * |reviews|)
  {
    if |reviews| > 0 {
      TotalsBounded(reviews[..|reviews| - 1]);
      assert Bounded(reviews[|reviews| - 1]);
    }
  }

  /** Each average is within half a tenth of its exact mean `10 * total / count` (in tenths). */
  predicate Near(avg: Aspects, totals: Aspects, count: int)
    requires count > 0
  {
    && Rating.WithinHalf(avg.gameplay, 10 * totals.gameplay, count)
    && Rating.WithinHalf(avg.visual, 10 * totals.visual, count)
    && Rating.WithinHalf(avg.audio, 10 * totals.audio, count)
    && Rating.WithinHalf(avg.difficulty, 10 * totals.difficulty, count)
    && Rating.WithinHalf(avg.immersion, 10 * totals.immersion, count)
    && Rating.WithinHalf(avg.history, 10 * totals.history, count)
  }

  /** `(total / count).toFixed(1)` in tenths. */
  function Tenths(total: int, count: int): int
    requires count > 0
  {
    Rating.RoundedMean(10 * total, count)
  }

  /**
   * `calculateAverages`: zeros without reviews; otherwise each aspect's total over all reviews
   * divided by the number of reviews, including those lacking that aspect, to one decimal.
   */
  function CalculateAverages(reviews: Option<seq<AspectRatings>>): (avg: Aspects)
    ensures reviews.None? || |reviews.value| == 0 ==> avg == Zero
    ensures reviews.Some? && |reviews.value| > 0 ==> Near(avg, Totals(reviews.value), |reviews.value|)
  {
    if reviews.None? || |reviews.value| == 0 then Zero
    else
      var t, count := Totals(reviews.value), |reviews.value|;
      Aspects(
        Tenths(t.gameplay, count), Tenths(t.visual, count), Tenths(t.audio, count),
        Tenths(t.difficulty, count), Tenths(t.immersion, count), Tenths(t.history, count))
  }

  /** With ratings in range every average lies between 0.0 and 5.0. */
  lemma AveragesInScale(reviews: seq<AspectRatings>)
    requires |reviews| > 0 && forall i :: 0 <= i < |reviews| ==> Bounded(reviews[i])
    ensures Between(CalculateAverages(Some(reviews)), 0, 10 * Rating.MaxRating)
  {
    var t, n := Totals(reviews), |reviews|;
    TotalsBounded(reviews);
    var hi := 10 * Rating.MaxRating;
    Rating.RoundedMeanBetween(10 * t.gameplay, n, 0, hi);
    Rating.RoundedMeanBetween(10 * t.visual, n, 0, hi);
    Rating.RoundedMeanBetween(10 * t.audio, n, 0, hi);
    Rating.RoundedMeanBetween(10 * t.difficulty, n, 0, hi);
    Rating.RoundedMeanBetween(10 * t.immersion, n, 0, hi);
    Rating.RoundedMeanBetween(10 * t.history, n, 0, hi);
  }

  /**
   * A review lacking an aspect still counts in that aspect's divisor: a 4 and a missing
   * gameplay rating average to 2.0, not 4.0.
   */
  lemma MissingRatingCountsAsZero(r: AspectRatings, s: AspectRatings)
    requires r.gameplay == Some(4) && s.gameplay.None?
    ensures CalculateAverages(Some([r, s])).gameplay == 20
  {
    assert [r, s][..1] == [r];
    SingleReviewTotals(r);
  }
}
