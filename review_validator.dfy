/** validators/reviewValidator.js: the guard chains the review controller
    runs before it writes. They read the store and never write it; the patch
    validator hands back the patched review for the controller to save. */
module ReviewValidator {
  import opened Wrappers
  import opened Errors
  import opened Entities
  import opened Authorization
  import opened Reviews
  import ErrorHandler

  const CourseRequired := "Your review must belong to a course."
  const CourseToListRequired := "You must give a valid course to search for its reviews."

  /** `validatePostReviewRequest(req, comment, rating, slug)`: the field checks,
      then the course, then the one-review-per-user rule; returns the course. */
  function ValidatePostReviewRequest(db: Db, caller: Principal, comment: Option<string>, rating: Option<real>, slug: Option<string>): (r: Res<Id>)
    ensures NewReviewFields(comment, rating, slug).Err? ==> r == Err(NewReviewFields(comment, rating, slug).error)
    ensures NewReviewFields(comment, rating, slug).Ok? && CourseBySlug(db, slug.value).None? ==>
              r == Err(Custom(CourseRequired, BAD_REQUEST))
    ensures (NewReviewFields(comment, rating, slug).Ok? && CourseBySlug(db, slug.value).Some?
             && ReviewExists(db, caller.id, CourseBySlug(db, slug.value).value)) ==> r == Err(Custom(OneReviewPerUser, BAD_REQUEST))
    ensures r.Ok? ==> r.value in db.courses && db.courses[r.value].slug == slug.value && !ReviewExists(db, caller.id, r.value)
  {
    var _ :- NewReviewFields(comment, rating, slug);
    match CourseBySlug(db, slug.value)
    case None => Err(Custom(CourseRequired, BAD_REQUEST))
    case Some(c) => if ReviewExists(db, caller.id, c) then Err(Custom(OneReviewPerUser, BAD_REQUEST)) else Ok(c)
  }

  /** The validator accepts exactly what `createReview` accepts, and picks the
      same course; only the message for an unknown course differs. */
  lemma PostValidatorAgreesWithCreateReview(db: Db, caller: Principal, comment: Option<string>, rating: Option<real>, slug: Option<string>)
    ensures var v := ValidatePostReviewRequest(db, caller, comment, rating, slug);
      var m := CreateReviewCheck(db, slug, comment, rating, caller.id);
      && (v.Ok? <==> m.Ok?)
      && (v.Ok? ==> v.value == m.value)
  {
  }

  /** `validatePatchReviewRequest(req, rating, comment, reviewId)`: all field
      checks before the lookup; `findById` throws a CastError on a malformed id;
      then the owner-or-admin rule; returns the review with only the supplied
      fields overwritten, not saved. */
  function ValidatePatchReviewRequest(db: Db, caller: Principal, rating: Option<real>, comment: Option<string>, reviewId: IdParam): (r: Res<(Id, Review)>)
    ensures PatchFields(comment, rating).Err? ==> r == Err(PatchFields(comment, rating).error)
    ensures PatchFields(comment, rating).Ok? && reviewId.Malformed? ==> r == Err(CastFailure)
    ensures PatchFields(comment, rating).Ok? && reviewId.ObjectId? && reviewId.id !in db.reviews ==>
              r == Err(Custom(NotFound, BAD_REQUEST))
    ensures (PatchFields(comment, rating).Ok? && reviewId.ObjectId? && reviewId.id in db.reviews
             && !OwnerOrAdmin(caller, db.reviews[reviewId.id].user)) ==> r == Err(Custom(NotAuthorized, UNAUTHORIZED))
    ensures r.Ok? ==> reviewId.ObjectId? && r.value.0 == reviewId.id && r.value.0 in db.reviews
                      && OwnerOrAdmin(caller, db.reviews[r.value.0].user)
                      && r.value.1 == ApplyPatch(db.reviews[r.value.0], comment, rating)
  {
    var _ :- PatchFields(comment, rating);
    match reviewId
    case Malformed => Err(CastFailure)
    case ObjectId(id) =>
      if id !in db.reviews then Err(Custom(NotFound, BAD_REQUEST))
      else if caller.id != db.reviews[id].user && caller.role != AdminRole then Err(Custom(NotAuthorized, UNAUTHORIZED))
      else Ok((id, ApplyPatch(db.reviews[id], comment, rating)))
  }

  /** On a well-formed id the patch validator and `updateReview` accept the same
      requests and patch the same review. */
  lemma PatchValidatorAgreesWithUpdateReview(db: Db, caller: Principal, rating: Option<real>, comment: Option<string>, id: Id)
    ensures var v := ValidatePatchReviewRequest(db, caller, rating, comment, ObjectId(id));
      var m := UpdateReviewCheck(db, comment, rating, ObjectId(id), caller);
      && (v.Ok? <==> m.Ok?)
      && (v.Ok? ==> v.value.0 == m.value)
  {
  }

  /** On a malformed id with valid fields the client sees 404 through the
      validator but 400 through `updateReview`. */
  lemma MalformedIdStatuses(db: Db, caller: Principal, rating: Option<real>, comment: Option<string>)
    requires PatchFields(comment, rating).Ok?
    ensures ErrorHandler.HandleError(ValidatePatchReviewRequest(db, caller, rating, comment, Malformed).error).status == NOT_FOUND
    ensures ErrorHandler.HandleError(UpdateReviewCheck(db, comment, rating, Malformed, caller).error).status == BAD_REQUEST
  {
  }

  /** `validateDeleteReviewRequest(req, reviewId)`. */
  function ValidateDeleteReviewRequest(db: Db, caller: Principal, reviewId: IdParam): (r: Res<Id>)
    ensures r.Ok? <==> reviewId.ObjectId? && reviewId.id in db.reviews && OwnerOrAdmin(caller, db.reviews[reviewId.id].user)
    ensures r.Ok? ==> r.value == reviewId.id
    ensures reviewId.Malformed? ==> r == Err(CastFailure)
    ensures reviewId.ObjectId? && reviewId.id !in db.reviews ==> r == Err(Custom(NotFoundById, BAD_REQUEST))
    ensures (reviewId.ObjectId? && reviewId.id in db.reviews && !OwnerOrAdmin(caller, db.reviews[reviewId.id].user)) ==>
              r == Err(Custom(NotAuthorized, UNAUTHORIZED))
  {
    match reviewId
    case Malformed => Err(CastFailure)
    case ObjectId(id) =>
      if id !in db.reviews then Err(Custom(NotFoundById, BAD_REQUEST))
      else if caller.id != db.reviews[id].user && caller.role != AdminRole then Err(Custom(NotAuthorized, UNAUTHORIZED))
      else Ok(id)
  }

  /** Deleting with a malformed id, such as `/api/reviews/123456`, reaches the
      client as 404: `findById` throws the CastError before any check of the
      validator runs. */
  lemma MalformedDeleteIsNotFound(db: Db, caller: Principal)
    ensures ErrorHandler.HandleError(ValidateDeleteReviewRequest(db, caller, Malformed).error).status == NOT_FOUND
  {
  }

  /** `validateGetReviewsRequest(slug)`: a missing slug and an unknown one fail
      alike. */
  function ValidateGetReviewsRequest(db: Db, slug: Option<string>): (r: Res<Id>)
    ensures r.Ok? <==> Supplied(slug) && CourseBySlug(db, slug.value).Some?
    ensures r.Ok? ==> r.value in db.courses && db.courses[r.value].slug == slug.value
    ensures r.Err? ==> r.error == Custom(CourseToListRequired, BAD_REQUEST)
  {
    if !Supplied(slug) then Err(Custom(CourseToListRequired, BAD_REQUEST))
    else
      match CourseBySlug(db, slug.value)
      case None => Err(Custom(CourseToListRequired, BAD_REQUEST))
      case Some(c) => Ok(c)
  }
}
