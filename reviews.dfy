/** The pure rules of models/Review.js: the owner-or-admin check
    `authorizeUser`, the guard chains of `createReview`, `updateReview`,
    `deleteReview` and `getReview`, the fields a patch overwrites, and the
    paging arithmetic of `getReviews`. The store operations that apply them
    live in Store.EntityStore. */
module Reviews {
  import opened Wrappers
  import opened Errors
  import opened Entities
  import opened Authorization
  import opened Courses
  import opened Arithmetic

  const MissingFields := "Your review must have a comment and rating and belong to a course."
  const CommentTooLong := "Your comment can't be longer than 2000 characters."
  const BadRating := "Your rating must be a whole number from 1 to 10."
  const OneReviewPerUser := "You can only add one review per user."
  const NothingToUpdate := "Nothing to update."
  /** The text thrown for a malformed id (lines 66, 75, 82). */
  const NotFound := "No review found for your request."
  /** The text `getReview` throws for a well-formed id that is absent (line 84). */
  const NotFoundById := "No review found for your request"
  const NotAuthorized := "You're not authorized to perform this action."
  const MaxCommentLength := 2000
  const DefaultLimit := 20

  /** The negation of `rating < 1 || rating > 10 || !Number.isInteger(rating)`. */
  predicate WholeRatingInRange(x: real) {
    1.0 <= x <= 10.0 && x.Floor as real == x
  }

  /** The schema validator on `rating`, run on every save (lines 15-23). */
  predicate SchemaRating(x: real) {
    x.Floor as real == x && x < 11.0 && x > 0.0
  }

  /** The guard of the statics and the schema validator accept the same numbers. */
  lemma GuardMatchesSchema(x: real)
    ensures WholeRatingInRange(x) <==> SchemaRating(x)
  {
    if SchemaRating(x) {
      assert x.Floor > 0;
    }
  }

  /** What every stored review satisfies: a rating from 1 to 10, a comment of
      at most 2000 characters, an existing course, and at most one review per
      (user, course) pair (the unique index of line 136). */
  ghost predicate ReviewsWellFormed(db: Db) {
    && (forall id :: id in db.reviews ==>
          && 1 <= db.reviews[id].rating <= 10
          && |db.reviews[id].comment| <= MaxCommentLength
          && db.reviews[id].course in db.courses)
    && (forall i, j :: i in db.reviews && j in db.reviews && i != j ==>
          db.reviews[i].user != db.reviews[j].user || db.reviews[i].course != db.reviews[j].course)
  }

  /** `review.authorizeUser(user)`. */
  function AuthorizeUser(review: Review, caller: Principal): (r: Res<()>)
    ensures r.Ok? <==> OwnerOrAdmin(caller, review.user)
    ensures r.Err? ==> r.error == Custom(NotAuthorized, UNAUTHORIZED)
  {
    if caller.id != review.user && caller.role != AdminRole then Err(Custom(NotAuthorized, UNAUTHORIZED)) else Ok(())
  }

  /** The field checks that open both `createReview` (lines 45-47) and
      `validatePostReviewRequest`, in that order. */
  function NewReviewFields(comment: Option<string>, rating: Option<real>, slug: Option<string>): (r: Res<()>)
    ensures r.Ok? <==> Supplied(comment) && SuppliedNumber(rating) && Supplied(slug)
                       && |comment.value| <= MaxCommentLength && WholeRatingInRange(rating.value)
    ensures !Supplied(comment) || !SuppliedNumber(rating) || !Supplied(slug) ==> r == Err(Custom(MissingFields, BAD_REQUEST))
    ensures Supplied(comment) && SuppliedNumber(rating) && Supplied(slug) && |comment.value| > MaxCommentLength ==>
              r == Err(Custom(CommentTooLong, BAD_REQUEST))
    ensures (Supplied(comment) && SuppliedNumber(rating) && Supplied(slug) && |comment.value| <= MaxCommentLength
             && !WholeRatingInRange(rating.value)) ==> r == Err(Custom(BadRating, BAD_REQUEST))
  {
    if !Supplied(comment) || !SuppliedNumber(rating) || !Supplied(slug) then Err(Custom(MissingFields, BAD_REQUEST))
    else if |comment.value| > MaxCommentLength then Err(Custom(CommentTooLong, BAD_REQUEST))
    else if rating.value < 1.0 || rating.value > 10.0 || rating.value.Floor as real != rating.value then Err(Custom(BadRating, BAD_REQUEST))
    else Ok(())
  }

  /** The field checks that open both `updateReview` (lines 63-65) and
      `validatePatchReviewRequest`: something to update, then each supplied
      field valid. */
  function PatchFields(comment: Option<string>, rating: Option<real>): (r: Res<()>)
    ensures r.Ok? <==> (Supplied(comment) || SuppliedNumber(rating))
                       && (Supplied(comment) ==> |comment.value| <= MaxCommentLength)
                       && (SuppliedNumber(rating) ==> WholeRatingInRange(rating.value))
    ensures !Supplied(comment) && !SuppliedNumber(rating) ==> r == Err(Custom(NothingToUpdate, BAD_REQUEST))
    ensures Supplied(comment) && |comment.value| > MaxCommentLength ==> r == Err(Custom(CommentTooLong, BAD_REQUEST))
    ensures ((Supplied(comment) ==> |comment.value| <= MaxCommentLength) && SuppliedNumber(rating)
             && !WholeRatingInRange(rating.value)) ==> r == Err(Custom(BadRating, BAD_REQUEST))
  {
    if !Supplied(comment) && !SuppliedNumber(rating) then Err(Custom(NothingToUpdate, BAD_REQUEST))
    else if Supplied(comment) && |comment.value| > MaxCommentLength then Err(Custom(CommentTooLong, BAD_REQUEST))
    else if SuppliedNumber(rating) && (rating.value < 1.0 || rating.value > 10.0 || rating.value.Floor as real != rating.value) then
      Err(Custom(BadRating, BAD_REQUEST))
    else Ok(())
  }

  /** `if (comment) review.comment = comment; if (rating) review.rating = rating`:
      only the supplied fields change. */
  function ApplyPatch(review: Review, comment: Option<string>, rating: Option<real>): (r: Review)
    ensures r.user == review.user && r.course == review.course
    ensures r.comment == (if Supplied(comment) then comment.value else review.comment)
    ensures SuppliedNumber(rating) ==> r.rating as real == rating.value.Floor as real
    ensures !SuppliedNumber(rating) ==> r.rating == review.rating
  {
    var review := if Supplied(comment) then review.(comment := comment.value) else review;
    if SuppliedNumber(rating) then review.(rating := rating.value.Floor) else review
  }

  /** A patch that passed `PatchFields` leaves a review the schema accepts. */
  lemma PatchKeepsReviewValid(review: Review, comment: Option<string>, rating: Option<real>)
    requires PatchFields(comment, rating).Ok?
    requires 1 <= review.rating <= 10 && |review.comment| <= MaxCommentLength
    ensures var r := ApplyPatch(review, comment, rating);
      1 <= r.rating <= 10 && |r.comment| <= MaxCommentLength && SchemaRating(r.rating as real)
  {
    var r := ApplyPatch(review, comment, rating);
    GuardMatchesSchema(r.rating as real);
  }

  /** `getReview(reviewId)`. */
  function GetReview(db: Db, reviewId: IdParam): (r: Res<Id>)
    ensures r.Ok? <==> reviewId.ObjectId? && reviewId.id in db.reviews
    ensures r.Ok? ==> r.value == reviewId.id
    ensures reviewId.Malformed? ==> r == Err(Custom(NotFound, BAD_REQUEST))
    ensures reviewId.ObjectId? && reviewId.id !in db.reviews ==> r == Err(Custom(NotFoundById, BAD_REQUEST))
  {
    match reviewId
    case Malformed => Err(Custom(NotFound, BAD_REQUEST))
    case ObjectId(id) => if id in db.reviews then Ok(id) else Err(Custom(NotFoundById, BAD_REQUEST))
  }

  /** The checks `createReview` makes before it writes (lines 45-53): on
      success, the course the new review will belong to. */
  function CreateReviewCheck(db: Db, courseSlug: Option<string>, comment: Option<string>, rating: Option<real>, user: Id): (r: Res<Id>)
    ensures NewReviewFields(comment, rating, courseSlug).Err? ==> r == Err(NewReviewFields(comment, rating, courseSlug).error)
    ensures NewReviewFields(comment, rating, courseSlug).Ok? ==>
              && (GetCourse(db, courseSlug.value).Err? ==> r == Err(GetCourse(db, courseSlug.value).error))
              && (GetCourse(db, courseSlug.value).Ok? ==>
                    var c := GetCourse(db, courseSlug.value).value;
                    if ReviewExists(db, user, c) then r == Err(Custom(OneReviewPerUser, BAD_REQUEST)) else r == Ok(c))
    ensures r.Ok? ==> r.value in db.courses && db.courses[r.value].slug == courseSlug.value && !ReviewExists(db, user, r.value)
  {
    var _ :- NewReviewFields(comment, rating, courseSlug);
    var c :- GetCourse(db, courseSlug.value);
    if ReviewExists(db, user, c) then Err(Custom(OneReviewPerUser, BAD_REQUEST)) else Ok(c)
  }

  /** The review `Review.create` stores once `CreateReviewCheck` passed. */
  function NewReview(comment: Option<string>, rating: Option<real>, user: Id, course: Id): Review
    requires Supplied(comment) && SuppliedNumber(rating)
  {
    Review(comment.value, rating.value.Floor, user, course)
  }

  /** The checks `updateReview` makes before it writes (lines 63-68): field
      checks first, then the id, the lookup and the owner-or-admin rule; on
      success, the id of the review to patch. */
  function UpdateReviewCheck(db: Db, comment: Option<string>, rating: Option<real>, reviewId: IdParam, caller: Principal): (r: Res<Id>)
    ensures r.Ok? <==> PatchFields(comment, rating).Ok? && reviewId.ObjectId? && reviewId.id in db.reviews
                       && OwnerOrAdmin(caller, db.reviews[reviewId.id].user)
    ensures r.Ok? ==> r.value == reviewId.id
    ensures PatchFields(comment, rating).Err? ==> r == Err(PatchFields(comment, rating).error)
    ensures PatchFields(comment, rating).Ok? && reviewId.Malformed? ==> r == Err(Custom(NotFound, BAD_REQUEST))
    ensures PatchFields(comment, rating).Ok? && reviewId.ObjectId? && reviewId.id !in db.reviews ==>
              r == Err(Custom(NotFoundById, BAD_REQUEST))
    ensures (PatchFields(comment, rating).Ok? && reviewId.ObjectId? && reviewId.id in db.reviews
             && !OwnerOrAdmin(caller, db.reviews[reviewId.id].user)) ==> r == Err(Custom(NotAuthorized, UNAUTHORIZED))
  {
    var _ :- PatchFields(comment, rating);
    if reviewId.Malformed? then Err(Custom(NotFound, BAD_REQUEST))
    else
      var id :- GetReview(db, reviewId);
      var _ :- AuthorizeUser(db.reviews[id], caller);
      Ok(id)
  }

  /** The checks `deleteReview` makes before it removes (lines 75-77). */
  function DeleteReviewCheck(db: Db, reviewId: IdParam, caller: Principal): (r: Res<Id>)
    ensures r.Ok? <==> reviewId.ObjectId? && reviewId.id in db.reviews && OwnerOrAdmin(caller, db.reviews[reviewId.id].user)
    ensures r.Ok? ==> r.value == reviewId.id
    ensures reviewId.Malformed? ==> r == Err(Custom(NotFound, BAD_REQUEST))
    ensures reviewId.ObjectId? && reviewId.id !in db.reviews ==> r == Err(Custom(NotFoundById, BAD_REQUEST))
    ensures reviewId.ObjectId? && reviewId.id in db.reviews && !OwnerOrAdmin(caller, db.reviews[reviewId.id].user) ==>
              r == Err(Custom(NotAuthorized, UNAUTHORIZED))
  {
    if reviewId.Malformed? then Err(Custom(NotFound, BAD_REQUEST))
    else
      var id :- GetReview(db, reviewId);
      var _ :- AuthorizeUser(db.reviews[id], caller);
      Ok(id)
  }

  /** A query-string parameter that `getReviews` computes with: the text as
      sent, which alone decides whether `x || fallback` keeps it (any
      non-empty text is truthy, "0" included), and `Number(text)`, taken to
      be an integer. */
  datatype NumberParam = NumberParam(text: string, number: int)

  /** `x || fallback`, and then the number the arithmetic sees. */
  function OrDefault(p: Option<NumberParam>, fallback: int): (n: int)
    ensures p.Some? && p.value.text != "" ==> n == p.value.number
    ensures (p.None? || p.value.text == "") ==> n == fallback
  {
    if p.Some? && p.value.text != "" then p.value.number else fallback
  }

  /** The query of `getReviews`: `direction`, `page` and `limit`, each possibly
      absent. */
  datatype ReviewQuery = ReviewQuery(direction: Option<string>, page: Option<NumberParam>, limit: Option<NumberParam>)

  /** What `getReviews` returns: the ids of the reviews on the page, the
      clamped page, the limit and the course. */
  datatype ReviewPage = ReviewPage(reviews: seq<Id>, page: int, limit: int, course: Id)

  function Reversed(s: seq<Id>): (r: seq<Id>)
    ensures |r| == |s| && forall i :: 0 <= i < |s| ==> r[i] == s[|s| - 1 - i]
  {
    if s == [] then [] else Reversed(s[1..]) + [s[0]]
  }

  /** `.skip(skip).limit(n)` on a list: the run of at most `n` elements that
      starts at position `skip`. */
  function Window(s: seq<Id>, skip: nat, n: nat): (r: seq<Id>)
    ensures |r| == if skip >= |s| then 0 else if |s| - skip < n then |s| - skip else n
    ensures forall i :: 0 <= i < |r| ==> r[i] == s[skip + i]
  {
    if skip >= |s| then []
    else s[skip..if skip + n < |s| then skip + n else |s|]
  }

  /** How many documents the database returns for `.limit(limit)`: a limit of
      0 means no limit, and a negative one asks for a single batch of at most
      its absolute value. */
  function BatchSize(limit: int, total: nat): (n: nat)
    ensures limit > 0 ==> n == limit
    ensures limit == 0 ==> n == total
    ensures limit < 0 ==> n == -limit
  {
    if limit > 0 then limit else if limit == 0 then total else -limit
  }

  /** What the database answers to a negative skip. It carries no
      statusCode. */
  const NegativeSkip := Error(GeneralError, None, Some("skip value must be non-negative"))

  /** The page `getReviews` settles on (lines 96-97): the requested page,
      lowered to `Math.ceil(total / limit)` when it exceeds it. For a limit of
      0 that quotient is Infinity or NaN, which no page exceeds. */
  function ClampPage(total: nat, page: int, limit: int): (p: int)
    ensures p <= page
    ensures limit == 0 ==> p == page
  {
    if limit == 0 then page
    else
      var maxPage := CeilDiv(total, limit);
      if page > maxPage then maxPage else page
  }

  /** For a positive limit and a page of at least 1, the clamped page holds
      some of the reviews, or is 0 when there are none; it is lowered only
      when the requested page is past the last one. */
  lemma ClampPositive(total: nat, page: int, limit: int)
    requires limit > 0
    ensures var p := ClampPage(total, page, limit);
      && (page >= 1 && total > 0 ==> p >= 1 && (p - 1) * limit < total)
      && (page >= 1 && total == 0 ==> p == 0)
      && (p < page ==> p * limit >= total)
  {
    var m := CeilDiv(total, limit);
    var p := ClampPage(total, page, limit);
    if m >= 1 {
      MulMonotone(limit, 0, m - 1);
      assert (m - 1) * limit == limit * (m - 1);
    }
    if page >= 1 && total > 0 && p == page && page < m {
      MulMonotone(limit, page - 1, m - 1);
      assert (page - 1) * limit == limit * (page - 1) && (m - 1) * limit == limit * (m - 1);
    }
  }

  /** For a negative limit the clamped page is at most 0, and its skip
      `(p - 1) * limit` passes every review. */
  lemma ClampNegative(total: nat, page: int, limit: int)
    requires limit < 0
    ensures var p := ClampPage(total, page, limit);
      p <= 0 && (p - 1) * limit > total
  {
    var m := CeilDiv(total, limit);
    var p := ClampPage(total, page, limit);
    MulMonotone(-limit, 0, m - p);
    assert (p - 1) * limit - (m - 1) * limit == -limit * (m - p);
  }

  /** The skip `(page - 1) * limit` of the clamped page, for a positive limit,
      is negative exactly when the requested page is below 1 or there is
      nothing to page through. */
  lemma ClampedSkipSign(total: nat, page: int, limit: int)
    requires limit >= 1
    ensures (ClampPage(total, page, limit) - 1) * limit < 0 <==> page < 1 || total == 0
  {
    ClampPositive(total, page, limit);
    var p := ClampPage(total, page, limit);
    if p >= 1 {
      MulMonotone(limit, 0, p - 1);
      assert (p - 1) * limit == limit * (p - 1);
    } else {
      MulMonotone(limit, p - 1, -1);
      assert (p - 1) * limit == limit * (p - 1);
    }
  }

  /** `.sort(direction).skip((p - 1) * limit).limit(limit)` on the ids, for a
      page `p` that is already clamped and whose skip is not negative. */
  function PageAt(ids: seq<Id>, descending: bool, p: int, limit: int, course: Id): ReviewPage
    requires (p - 1) * limit >= 0
  {
    ReviewPage(Window(if descending then Reversed(ids) else ids, (p - 1) * limit, BatchSize(limit, |ids|)), p, limit, course)
  }

  /** The answer to the page and limit of a query, once `||` has applied the
      defaults: the page is clamped, a negative skip is the database's error,
      and otherwise the window of the ids, newest first when `descending`. */
  function PageOf(ids: seq<Id>, descending: bool, page: int, limit: int, course: Id): Res<ReviewPage> {
    var p := ClampPage(|ids|, page, limit);
    if (p - 1) * limit < 0 then Err(NegativeSkip) else Ok(PageAt(ids, descending, p, limit, course))
  }

  /** The ids in the order of the direction: the same ids, and strictly
      increasing, or strictly decreasing when `descending`. */
  lemma SortedIds(all: seq<Id>, descending: bool)
    requires forall i, j :: 0 <= i < j < |all| ==> all[i] < all[j]
    ensures var sorted := if descending then Reversed(all) else all;
      && |sorted| == |all|
      && (forall id :: id in sorted <==> id in all)
      && (forall i, j :: 0 <= i < j < |sorted| ==> if descending then sorted[i] > sorted[j] else sorted[i] < sorted[j])
  {
    if descending {
      var sorted := Reversed(all);
      forall id | id in all ensures id in sorted {
        var k :| 0 <= k < |all| && all[k] == id;
        assert sorted[|all| - 1 - k] == id;
      }
      forall i, j | 0 <= i < j < |sorted| ensures sorted[i] > sorted[j] {
        assert sorted[i] == all[|all| - 1 - i] && sorted[j] == all[|all| - 1 - j];
      }
    }
  }

  /** For a positive limit and a page of at least 1, the clamped page of a
      non-empty list is from 1 to the requested one and starts inside the
      list. */
  lemma PositiveWindowStart(total: nat, page: int, limit: int)
    requires limit >= 1 && page >= 1 && total > 0
    ensures var p := ClampPage(total, page, limit);
      1 <= p <= page && 0 <= (p - 1) * limit < total
  {
    ClampPositive(total, page, limit);
    var p := ClampPage(total, page, limit);
    MulMonotone(limit, 0, p - 1);
    assert (p - 1) * limit == limit * (p - 1);
  }

  /** A window that starts inside the ids is never empty, holds at most `n`
      of them, and keeps the order of the direction. */
  lemma WindowOfSorted(all: seq<Id>, descending: bool, skip: nat, n: nat)
    requires skip < |all| && n >= 1
    requires forall i, j :: 0 <= i < j < |all| ==> all[i] < all[j]
    ensures var w := Window(if descending then Reversed(all) else all, skip, n);
      && 1 <= |w| <= n
      && (forall i :: 0 <= i < |w| ==> w[i] in all)
      && (forall i, j :: 0 <= i < j < |w| ==> if descending then w[i] > w[j] else w[i] < w[j])
  {
    SortedIds(all, descending);
    var sorted := if descending then Reversed(all) else all;
    var w := Window(sorted, skip, n);
    forall i | 0 <= i < |w| ensures w[i] in all {
      assert w[i] == sorted[skip + i];
    }
    forall i, j | 0 <= i < j < |w| ensures if descending then w[i] > w[j] else w[i] < w[j] {
      assert w[i] == sorted[skip + i] && w[j] == sorted[skip + j];
    }
  }

  /** A page that comes back for a positive limit is never empty, holds at
      most `limit` of the ids, keeps the order of the direction, and its page
      number only moves down from the one asked for. */
  lemma PageOfPositiveLimit(all: seq<Id>, descending: bool, page: int, limit: int, course: Id)
    requires limit >= 1 && page >= 1 && all != []
    requires forall i, j :: 0 <= i < j < |all| ==> all[i] < all[j]
    ensures var r := PageOf(all, descending, page, limit, course);
      && r.Ok? && r.value.course == course && r.value.limit == limit && 1 <= r.value.page <= page
      && 1 <= |r.value.reviews| <= limit
      && (forall i :: 0 <= i < |r.value.reviews| ==> r.value.reviews[i] in all)
      && (forall i, j :: 0 <= i < j < |r.value.reviews| ==>
            if descending then r.value.reviews[i] > r.value.reviews[j] else r.value.reviews[i] < r.value.reviews[j])
  {
    PositiveWindowStart(|all|, page, limit);
    var p := ClampPage(|all|, page, limit);
    WindowOfSorted(all, descending, (p - 1) * limit, limit);
  }

  /** With a positive limit the page fails, with the negative skip, exactly
      when the requested page is below 1 or there are no ids; otherwise it is
      the page `PageOfPositiveLimit` describes. */
  lemma PageOfIncreasing(all: seq<Id>, descending: bool, page: int, limit: int, course: Id)
    requires limit >= 1
    requires forall i, j :: 0 <= i < j < |all| ==> all[i] < all[j]
    ensures var r := PageOf(all, descending, page, limit, course);
      && (r.Err? <==> page < 1 || all == [])
      && (r.Err? ==> r == Err(NegativeSkip))
      && (r.Ok? ==>
            && r.value.course == course && r.value.limit == limit && 1 <= r.value.page <= page
            && 1 <= |r.value.reviews| <= limit
            && (forall i :: 0 <= i < |r.value.reviews| ==> r.value.reviews[i] in all)
            && (forall i, j :: 0 <= i < j < |r.value.reviews| ==>
                  if descending then r.value.reviews[i] > r.value.reviews[j] else r.value.reviews[i] < r.value.reviews[j]))
  {
    if page >= 1 && all != [] {
      PageOfPositiveLimit(all, descending, page, limit, course);
    } else {
      ClampedSkipSign(|all|, page, limit);
    }
  }

  /** A limit of 0 is no limit: whatever the page, every id comes back, in the
      order of the direction, under the page number that was asked for. */
  lemma PageOfZeroLimit(all: seq<Id>, descending: bool, page: int, course: Id)
    requires forall i, j :: 0 <= i < j < |all| ==> all[i] < all[j]
    ensures var r := PageOf(all, descending, page, 0, course);
      && r.Ok? && r.value.page == page && r.value.limit == 0 && r.value.course == course
      && (forall id :: id in r.value.reviews <==> id in all)
      && (forall i, j :: 0 <= i < j < |r.value.reviews| ==>
            if descending then r.value.reviews[i] > r.value.reviews[j] else r.value.reviews[i] < r.value.reviews[j])
  {
    var sorted := if descending then Reversed(all) else all;
    SortedIds(all, descending);
    assert Window(sorted, 0, |all|) == sorted;
    assert PageOf(all, descending, page, 0, course) == Ok(ReviewPage(sorted, page, 0, course));
  }

  /** A negative limit always gives an empty page: the clamped page is at
      most 0, so the skip passes every id. */
  lemma PageOfNegativeLimit(all: seq<Id>, descending: bool, page: int, limit: int, course: Id)
    requires limit < 0
    ensures var r := PageOf(all, descending, page, limit, course);
      r.Ok? && r.value.reviews == [] && r.value.page <= 0
  {
    ClampNegative(|all|, page, limit);
  }
}
