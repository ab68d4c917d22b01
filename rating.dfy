/** The rating aggregation of models/Review.js: `setAverageCourseRating`
    groups a course's reviews, averages their ratings and stores the mean
    rounded to two decimals (`Number(avg.toFixed(2))`), or null when the course
    has no review left. Ratings are integers, so the mean is exact here. */
module Rating {
  import opened Wrappers
  import opened Entities
  import opened Arithmetic

  /** The ids below `n` of course `c`'s reviews, ascending: the `$match` stage. */
  function CourseReviewIds(reviews: map<Id, Review>, c: Id, n: nat): (ids: seq<Id>)
    ensures forall i :: 0 <= i < |ids| ==> ids[i] < n && ids[i] in reviews && reviews[ids[i]].course == c
    ensures forall i, j :: 0 <= i < j < |ids| ==> ids[i] < ids[j]
    ensures forall id :: id < n && id in reviews && reviews[id].course == c ==> id in ids
  {
    if n == 0 then []
    else
      var ids := CourseReviewIds(reviews, c, n - 1);
      if n - 1 in reviews && reviews[n - 1].course == c then ids + [n - 1] else ids
  }

  function RatingsOf(reviews: map<Id, Review>, ids: seq<Id>): (rs: seq<int>)
    requires forall i :: 0 <= i < |ids| ==> ids[i] in reviews
    ensures |rs| == |ids| && forall i :: 0 <= i < |ids| ==> rs[i] == reviews[ids[i]].rating
  {
    seq(|ids|, i requires 0 <= i < |ids| => reviews[ids[i]].rating)
  }

  /** The ratings of course `c`'s reviews, in creation order. */
  function CourseRatings(reviews: map<Id, Review>, c: Id, n: nat): seq<int> {
    RatingsOf(reviews, CourseReviewIds(reviews, c, n))
  }

  function Sum(rs: seq<int>): int {
    if rs == [] then 0 else Sum(rs[..|rs| - 1]) + rs[|rs| - 1]
  }

  /** The whole number of hundredths nearest to `sum / count`, ties up. */
  function Hundredths(sum: nat, count: nat): nat
    requires count > 0
  {
    (200 * sum + count) / (2 * count)
  }

  /** `Number((sum / count).toFixed(2))`: rounded to hundredths; section
      21.1.3.3 of ECMA-262 rounds the magnitude, ties up. */
  function RoundedMean(sum: int, count: nat): real
    requires count > 0
  {
    if sum < 0 then -(Hundredths(-sum, count) as real / 100.0)
    else Hundredths(sum, count) as real / 100.0
  }

  /** The value `setAverageCourseRating` stores: null for no ratings,
      otherwise the rounded mean. */
  function AverageRating(rs: seq<int>): (r: Option<real>)
    ensures r.None? <==> rs == []
  {
    if rs == [] then None else Some(RoundedMean(Sum(rs), |rs|))
  }

  lemma RealDivBounds(a: real, b: real, c: real)
    requires c > 0.0
    ensures a <= b / c <==> a * c <= b
    ensures b / c < a <==> b < a * c
  {
  }

  /** The rounded mean is a whole number of hundredths `h` with
      h - 1/2 <= 100 * mean < h + 1/2: the nearest hundredth, ties rounded up. */
  lemma RoundedMeanIsNearestHundredth(sum: nat, count: nat)
    requires count > 0
    ensures var h := Hundredths(sum, count);
      && RoundedMean(sum, count) == h as real / 100.0
      && h as real - 0.5 <= 100.0 * (sum as real / count as real) < h as real + 0.5
  {
    var h := Hundredths(sum, count);
    var n := 200 * sum + count;
    DivIsBracketed(n, 2 * count);
    assert 2 * count * h <= n < 2 * count * h + 2 * count;
    assert (h as real - 0.5) * (count as real) <= (100 * sum) as real;
    assert (100 * sum) as real < (h as real + 0.5) * (count as real);
    assert 100.0 * (sum as real / count as real) == (100 * sum) as real / count as real;
    RealDivBounds(h as real - 0.5, (100 * sum) as real, count as real);
    RealDivBounds(h as real + 0.5, (100 * sum) as real, count as real);
  }

  /** A mean that is already a whole number of hundredths is stored exactly;
      in particular a whole-number mean (5 and 9 give 7.00). */
  lemma RoundedMeanExact(sum: nat, count: nat, h: int)
    requires count > 0 && 100 * sum == h * count
    ensures RoundedMean(sum, count) == sum as real / count as real
  {
    var n := 200 * sum + count;
    assert n == 2 * count * h + count;
    assert 2 * count * (h + 1) == 2 * count * h + 2 * count;
    DivBracket(n, 2 * count, h);
    assert (h as real) * (count as real) == (100 * sum) as real;
  }

  lemma {:induction false} SumBounds(rs: seq<int>, lo: int, hi: int)
    requires forall i :: 0 <= i < |rs| ==> lo <= rs[i] <= hi
    ensures |rs| * lo <= Sum(rs) <= |rs| * hi
  {
    if rs != [] {
      SumBounds(rs[..|rs| - 1], lo, hi);
    }
  }

  /** Ratings from 1 to 10 average to a value from 1.00 to 10.00. */
  lemma AverageInRatingRange(rs: seq<int>)
    requires rs != []
    requires forall i :: 0 <= i < |rs| ==> 1 <= rs[i] <= 10
    ensures 1.0 <= AverageRating(rs).value <= 10.0
  {
    var c := |rs|;
    var s := Sum(rs);
    SumBounds(rs, 1, 10);
    var n := 200 * s + c;
    var h := Hundredths(s, c);
    DivIsBracketed(n, 2 * c);
    if h < 100 {
      MulMonotone(2 * c, h + 1, 100);
    }
    if h > 1000 {
      MulMonotone(2 * c, 1001, h);
    }
  }

  /** The rating stored on course `c` matches its current reviews. */
  predicate AverageConsistent(db: Db, c: Id)
    requires c in db.courses
  {
    db.courses[c].averageRating == AverageRating(CourseRatings(db.reviews, c, db.nextId))
  }

  /** `setAverageCourseRating(courseId)`: `findByIdAndUpdate` on a course that
      is gone changes nothing. */
  function SetAverage(db: Db, c: Id): Db {
    if c in db.courses then
      db.(courses := db.courses[c := db.courses[c].(averageRating := AverageRating(CourseRatings(db.reviews, c, db.nextId)))])
    else db
  }

  /** Recomputing makes course `c` consistent, keeps every other course's
      consistency as it was, leaves every other field of `c` and every other
      record as it was, and recomputing again changes nothing. */
  lemma SetAverageProperties(db: Db, c: Id)
    ensures var db' := SetAverage(db, c);
      && db'.users == db.users && db'.disciplines == db.disciplines && db'.reviews == db.reviews
      && db'.nextId == db.nextId && db'.courses.Keys == db.courses.Keys
      && (c in db.courses ==> AverageConsistent(db', c)
                              && db'.courses[c] == db.courses[c].(averageRating := db'.courses[c].averageRating))
      && (forall k :: k in db.courses && k != c ==> db'.courses[k] == db.courses[k])
      && (forall k :: k in db.courses && k != c ==> (AverageConsistent(db', k) <==> AverageConsistent(db, k)))
      && SetAverage(db', c) == db'
  {
    if c in db.courses {
      var avg := AverageRating(CourseRatings(db.reviews, c, db.nextId));
      var db' := db.(courses := db.courses[c := db.courses[c].(averageRating := avg)]);
      assert SetAverage(db, c) == db';
      assert db'.courses[c].averageRating == avg;
      assert CourseRatings(db'.reviews, c, db'.nextId) == CourseRatings(db.reviews, c, db.nextId);
      assert db'.courses[c := db'.courses[c].(averageRating := avg)] == db'.courses;
      forall k | k in db.courses && k != c
        ensures AverageConsistent(db', k) <==> AverageConsistent(db, k)
      {
        assert db'.courses[k] == db.courses[k];
      }
    }
  }

  /** The value depends only on course `c`'s own reviews. */
  lemma CourseRatingsLocal(r1: map<Id, Review>, r2: map<Id, Review>, c: Id, n: nat)
    requires forall id :: id < n ==> ((id in r1 && r1[id].course == c) <==> (id in r2 && r2[id].course == c))
    requires forall id :: id < n && id in r1 && r1[id].course == c ==> r1[id] == r2[id]
    ensures CourseRatings(r1, c, n) == CourseRatings(r2, c, n)
  {
    CourseReviewIdsLocal(r1, r2, c, n);
  }

  lemma {:induction false} CourseReviewIdsLocal(r1: map<Id, Review>, r2: map<Id, Review>, c: Id, n: nat)
    requires forall id :: id < n ==> ((id in r1 && r1[id].course == c) <==> (id in r2 && r2[id].course == c))
    ensures CourseReviewIds(r1, c, n) == CourseReviewIds(r2, c, n)
  {
    if n > 0 {
      CourseReviewIdsLocal(r1, r2, c, n - 1);
    }
  }
}
