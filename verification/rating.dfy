/**
 * The incremental rating aggregate of `ratePrompt`: a running mean kept as
 * `{totalUsers, avgRating}` and rounded to one decimal after every
 * submission. Arithmetic is exact (Dafny `real`); `Math.round(x * 10) / 10`
 * is `Floor(10x + 1/2) / 10`.
 */
module RatingAggregate {
  import opened PromptModel

  /** A multiple of 0.1. */
  predicate OneDecimal(x: real) {
    (x * 10.0).Floor as real == x * 10.0
  }

  /** `Math.round(x * 10) / 10`: the nearest multiple of 0.1, halves rounded up. */
  function Round1(x: real): (y: real)
    ensures OneDecimal(y)
    ensures x - 0.05 < y <= x + 0.05
  {
    var k := (x * 10.0 + 0.5).Floor;
    assert (k as real / 10.0) * 10.0 == k as real;
    k as real / 10.0
  }

  /** Rounding never reverses order. */
  lemma Round1Monotone(x: real, x': real)
    requires x <= x'
    ensures Round1(x) <= Round1(x')
  {
    var k, k' := (x * 10.0 + 0.5).Floor, (x' * 10.0 + 0.5).Floor;
    assert k <= k';
  }

  /** A value with one decimal is its own rounding. */
  lemma Round1Fixes(x: real)
    requires OneDecimal(x)
    ensures Round1(x) == x
  {
    var n := (x * 10.0).Floor;
    assert (x * 10.0 + 0.5).Floor == n;
  }

  /** Rounding maps [lo, hi] into itself when both ends have one decimal. */
  lemma Round1Within(x: real, lo: real, hi: real)
    requires OneDecimal(lo) && OneDecimal(hi)
    requires lo <= x <= hi
    ensures lo <= Round1(x) <= hi
  {
    Round1Monotone(lo, x);
    Round1Monotone(x, hi);
    Round1Fixes(lo);
    Round1Fixes(hi);
  }

  /** The exact running mean after one more rating; undefined when the new count is 0. */
  function Mean(cur: Rating, rating: real): (m: real)
    requires cur.totalUsers + 1 != 0
    ensures m * (cur.totalUsers + 1) as real == cur.avgRating * cur.totalUsers as real + rating
  {
    var sum, n := cur.avgRating * cur.totalUsers as real + rating, (cur.totalUsers + 1) as real;
    DivTimes(sum, n);
    sum / n
  }

  lemma DivTimes(a: real, b: real)
    requires b != 0.0
    ensures (a / b) * b == a
  {
  }

  /** With a non-negative count, the new mean lies between the old mean and the new rating. */
  lemma MeanBetween(cur: Rating, rating: real)
    requires cur.totalUsers >= 0
    ensures var m := Mean(cur, rating);
      && (cur.avgRating <= rating ==> cur.avgRating <= m <= rating)
      && (rating <= cur.avgRating ==> rating <= m <= cur.avgRating)
  {
    var n := cur.totalUsers as real;
    var a := cur.avgRating;
    var m := Mean(cur, rating);
    var lo, hi := if a <= rating then a else rating, if a <= rating then rating else a;
    assert m * (n + 1.0) == a * n + rating;
    assert lo * (n + 1.0) <= m * (n + 1.0) <= hi * (n + 1.0) by {
      assert a * (n + 1.0) == a * n + a && rating * (n + 1.0) == rating * n + rating;
      ScaleLe(lo, hi, n);
    }
    CancelPositive(lo, m, n + 1.0);
    CancelPositive(m, hi, n + 1.0);
  }

  lemma ScaleLe(x: real, y: real, c: real)
    requires x <= y && c >= 0.0
    ensures x * c <= y * c
  {
  }

  lemma CancelPositive(x: real, y: real, c: real)
    requires c > 0.0 && x * c <= y * c
    ensures x <= y
  {
    assert (x - y) * c == x * c - y * c;
  }

  /**
   * One submission: one more user, and the average becomes the rounded
   * running mean. From a count of at least 0 and an average in [0, 5], a
   * rating in [1, 5] keeps the average in [0, 5], within 0.05 of the exact
   * mean.
   */
  function Submit(cur: Rating, rating: real): (next: Rating)
    requires cur.totalUsers + 1 != 0
    ensures next.totalUsers == cur.totalUsers + 1
    ensures OneDecimal(next.avgRating)
    ensures Mean(cur, rating) - 0.05 < next.avgRating <= Mean(cur, rating) + 0.05
    ensures cur.totalUsers >= 0 && ValidRating(cur) && 1.0 <= rating <= 5.0 ==> ValidRating(next)
  {
    RoundedMeanInRange(cur, rating);
    Rating(cur.totalUsers + 1, Round1(Mean(cur, rating)))
  }

  /** The bound `Submit` keeps: a rating in [1, 5] never pushes a [0, 5] average out of [0, 5]. */
  lemma RoundedMeanInRange(cur: Rating, rating: real)
    requires cur.totalUsers + 1 != 0
    ensures cur.totalUsers >= 0 && ValidRating(cur) && 1.0 <= rating <= 5.0 ==>
      ValidRating(Rating(cur.totalUsers + 1, Round1(Mean(cur, rating))))
  {
    if cur.totalUsers >= 0 && ValidRating(cur) && 1.0 <= rating <= 5.0 {
      MeanBetween(cur, rating);
      Round1Within(Mean(cur, rating), 0.0, MaxAvgRating);
    }
  }

  /** Submitting `ratings` one after another, starting from `cur`. */
  function SubmitAll(cur: Rating, ratings: seq<real>): (final: Rating)
    requires cur.totalUsers >= 0
    ensures final.totalUsers == cur.totalUsers + |ratings|
    ensures ValidRating(cur) && (forall i :: 0 <= i < |ratings| ==> 1.0 <= ratings[i] <= 5.0) ==>
      ValidRating(final)
    decreases |ratings|
  {
    if ratings == [] then cur else SubmitAll(Submit(cur, ratings[0]), ratings[1..])
  }

  function Repeat(r: real, n: nat): (rs: seq<real>)
    ensures |rs| == n && forall i :: 0 <= i < n ==> rs[i] == r
  {
    if n == 0 then [] else [r] + Repeat(r, n - 1)
  }

  /** One submission of `r` to an aggregate averaging `r` keeps the average and counts the user. */
  lemma SubmitSameOnce(k: nat, r: real)
    requires OneDecimal(r)
    ensures Submit(Rating(k, r), r) == Rating(k + 1, r)
  {
    assert Mean(Rating(k, r), r) == r by {
      assert r * k as real + r == r * (k + 1) as real;
    }
    Round1Fixes(r);
  }

  /**
   * Submitting the same one-decimal rating `r` to an aggregate that already
   * averages `r` keeps the average at `r` and counts every submission.
   */
  lemma {:induction false} SubmitSameKeepsAverage(k: nat, r: real, n: nat)
    requires OneDecimal(r)
    ensures SubmitAll(Rating(k, r), Repeat(r, n)) == Rating(k + n, r)
    decreases n
  {
    if n > 0 {
      SubmitSameOnce(k, r);
      assert Repeat(r, n)[1..] == Repeat(r, n - 1);
      SubmitSameKeepsAverage(k + 1, r, n - 1);
    }
  }

  /** From the default `{0, 0}`, `n` submissions of one-decimal `r` give `{n, r}`. */
  lemma SubmitSameFromDefault(r: real, n: nat)
    requires OneDecimal(r) && n > 0
    ensures SubmitAll(DefaultRating, Repeat(r, n)) == Rating(n, r)
  {
    assert Mean(DefaultRating, r) == r;
    Round1Fixes(r);
    var rs := Repeat(r, n);
    assert rs[1..] == Repeat(r, n - 1);
    assert SubmitAll(DefaultRating, rs) == SubmitAll(Rating(1, r), rs[1..]);
    SubmitSameKeepsAverage(1, r, n - 1);
  }

  /** Ratings 5, 5, 5, 1 from `{0, 0}` end at `{4, 4.0}`; a single 3 gives `{1, 3.0}`. */
  lemma WorkedExamples()
    ensures SubmitAll(DefaultRating, [5.0, 5.0, 5.0, 1.0]) == Rating(4, 4.0)
    ensures SubmitAll(DefaultRating, [3.0]) == Rating(1, 3.0)
  {
    Round1Fixes(5.0);
    Round1Fixes(4.0);
    Round1Fixes(3.0);
    assert Submit(DefaultRating, 5.0) == Rating(1, 5.0);
    assert Submit(Rating(1, 5.0), 5.0) == Rating(2, 5.0);
    assert Submit(Rating(2, 5.0), 5.0) == Rating(3, 5.0);
    assert Submit(Rating(3, 5.0), 1.0) == Rating(4, 4.0);
    assert [5.0, 5.0, 5.0, 1.0][1..] == [5.0, 5.0, 1.0];
    assert [5.0, 5.0, 1.0][1..] == [5.0, 1.0];
    assert [5.0, 1.0][1..] == [1.0];
  }

  /**
   * The stored average is a rounded running mean, not the rounded mean of all
   * ratings: 1, 1, 2, 1 from `{0, 0}` stores 1.2, while the four ratings
   * average 1.25, which rounds to 1.3.
   */
  lemma RoundingDrifts()
    ensures SubmitAll(DefaultRating, [1.0, 1.0, 2.0, 1.0]) == Rating(4, 1.2)
    ensures Round1((1.0 + 1.0 + 2.0 + 1.0) / 4.0) == 1.3
  {
    Round1Fixes(1.0);
    assert Submit(DefaultRating, 1.0) == Rating(1, 1.0);
    assert Submit(Rating(1, 1.0), 1.0) == Rating(2, 1.0);
    assert Submit(Rating(2, 1.0), 2.0) == Rating(3, 1.3) by {
      assert Mean(Rating(2, 1.0), 2.0) == 4.0 / 3.0;
      assert (4.0 / 3.0 * 10.0 + 0.5).Floor == 13;
    }
    assert Submit(Rating(3, 1.3), 1.0) == Rating(4, 1.2) by {
      assert Mean(Rating(3, 1.3), 1.0) == 1.225;
      assert (1.225 * 10.0 + 0.5).Floor == 12;
    }
    assert [1.0, 1.0, 2.0, 1.0][1..] == [1.0, 2.0, 1.0];
    assert [1.0, 2.0, 1.0][1..] == [2.0, 1.0];
    assert [2.0, 1.0][1..] == [1.0];
    assert (1.25 * 10.0 + 0.5).Floor == 13;
  }
}
