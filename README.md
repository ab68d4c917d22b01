# Course catalogue and review service — a Dafny model

This project models the domain logic of a Node/Mongoose service where users
browse disciplines and courses, review courses, and manage their accounts.
There are four record types: User, Discipline, Course and Review. The model
covers:

- the guard chains of the model statics and of the request validators, with
  their error texts, status codes and order;
- the admin-only middleware and the owner-or-admin rule;
- the error handler's mapping from a thrown error to a status and a message;
- the course average (a mean rounded half-up to hundredths, or null);
- the paging of a course's reviews;
- the cascades of the `remove` and `deleteMany` hooks;
- the password-reset token life cycle;
- the query builder of the course search.

Pure code (guards, validators, the query builder, the error handler) is
written as Dafny functions over a snapshot `Db` of the store. The code that
writes documents is `Store.EntityStore`, a class with one map per collection
and a shared id counter. Its methods run the same guards, perform the writes
and fire the hooks. Each method's `ensures` gives the new state as a function
of the old one. Every method keeps the store invariant `Valid()`:

- ids are below the counter;
- reviews are in bounds, one per (user, course) pair, and of an existing course;
- courses have a cost from 1 to 200, an existing discipline, a unique name
  and the slug of their name;
- disciplines have a unique name and the slug of their name;
- users have unique emails.

Mongo's `findOne` is a search in id order (`Entities.FindFirst`). Ids are
handed out in creation order, so id order is also `createdAt` order. A
request id is either a well-formed ObjectId or `Malformed`. `findById` on a
malformed id throws a CastError, which the error handler reports as 404.
Capabilities the model cannot see are constant parameters of the store:

- `slugify`;
- bcrypt (`hash`, plus `compare` where a login is modelled);
- the SHA-256 digest;
- the email regex.

The clock and the random reset token are method parameters. Removed image
paths are collected in the ghost set `released` instead of being unlinked.

Where the service's design description and the code disagree, the model
follows the code:

- Deleting a user removes their reviews with a query-level `deleteMany`
  (models/User.js:286). That fires no review hook, so no course average is
  recomputed. `DeleteUser` leaves `courses` unchanged, and the averages of
  the courses the user reviewed go stale. Consequently, average consistency
  is not part of `Valid()`. It is proved per course after each review
  write, together with the fact that no other course's consistency changes.
- `getReviews` keeps any non-empty `page` or `limit` text, because
  `page || 1` and `limit || 20` test truthiness and "0" is truthy. With a
  positive limit, the page is clamped to 0 for a course with no reviews.
  The database is then asked for a negative skip, and it is also asked for
  one whenever the requested page is below 1 (a page of "0" among them).
  The model returns that database error (`Reviews.NegativeSkip`, which
  carries no status code and so becomes a 500). It does not return an
  empty page.
- A limit of "0" makes `Math.ceil(total / limit)` Infinity or NaN, which no
  page exceeds. The skip is then 0, and the database reads limit 0 as no
  limit, so every review of the course comes back. A negative limit clamps
  the page to at most 0, so its skip passes every review and the page is
  always empty.
- A discipline's image is released twice on delete, by `deleteDiscipline`
  and by the `remove` hook. A user's image is released twice too, by
  `deleteUser` (models/User.js:211) and by the `remove` hook
  (models/User.js:280). `released` is a set, so each is the same as
  releasing the image once.
- The repository's HTTP tests expect 400 for deleting the review
  `/api/reviews/123456` (tests/review.test.js:245-253). The code answers
  404, because `validateDeleteReviewRequest` calls `findById` on the
  malformed id, whose CastError the error handler maps to 404. The model
  follows the code (`ReviewValidator.MalformedDeleteIsNotFound`).
- The course search's `$` rewrite works on words, not on whole keys. It
  runs a whole-word regex over the JSON text of the parameter, so every
  operator word gains a `$` wherever it stands, in keys and in values. A
  key `$gt` becomes `$$gt`, and `gt-x` becomes `$gt-x`.

## Model

| member | source | states |
|---|---|---|
| Errors.Rewrap | models/User.js:100-102 | the rethrown error keeps the status code and message of the caught one and is a plain error; a CustomError comes through unchanged |
| ErrorHandler.HandleError | errorhandlers/errorHandler.js:4-19 | a ValidationError is always 400 with the fixed validation text, a CastError always 404 with the fixed not-found text; a plain error without status code gets 500 and without message the default text; status and message are never falsy |
| ErrorHandler.CustomErrorsPassThrough | errorhandlers/errorHandler.js:5-8 | every CustomError with a truthy message and status reaches the client with exactly that status and message |
| ErrorHandler.ValidationIgnoresOwnStatus | errorhandlers/errorHandler.js:10-13 | a ValidationError's own status code has no effect on the response |
| ErrorHandler.StatusIsOwnOrFixed | errorhandlers/errorHandler.js:5-18 | the response status is either the error's own truthy status or one of 400, 404, 500 |
| Authorization.Authorize | middleware/authorize.js:4-9 | passes exactly the admins; everyone else gets UNAUTHORIZED with the admin-only message |
| Authorization.AuthorizeDependsOnlyOnRole | middleware/authorize.js:5 | two callers with the same role get the same decision, whatever their ids |
| Authorization.AdminPassesOwnerRule | middleware/authorize.js:5-8 | whoever the admin gate lets through also passes the owner-or-admin rule for every record |
| Entities.FindFirst | models/Discipline.js:102 | `findOne`: the result matches and no smaller id matches; None means no record below the bound matches |
| Entities.FindFirstComplete | models/Discipline.js:102 | when all keys are below the bound, a matching record is always found, at or before it |
| Entities.FindFirstUnique | models/User.js:84 | when exactly one record matches, `findOne` returns it |
| Entities.DisciplineBySlug | models/Discipline.js:102 | a found discipline has the slug asked for |
| Entities.CourseBySlug | validators/courseValidators.js:37 | a found course has the slug asked for |
| Entities.UserByEmail | models/User.js:84 | a found user has the email asked for |
| Arithmetic.CeilDiv | models/Review.js:96 | `Math.ceil(total / limit)` for a non-zero limit: the least m with m >= total / limit, bracketed from both sides for either sign; at most 0 for a negative limit |
| Courses.GetCourse | validators/courseValidators.js:37-40 | the first course with that slug; fails with the not-found error exactly when no course has the slug |
| CourseValidator.ValidatePostCourseRequest | validators/courseValidators.js:7-30 | succeeds iff name, cost in [1, 200], discipline slug, known discipline and unused name; each failure gives its own error in source order; returns the discipline with that slug |
| CourseValidator.ValidatePatchCourseRequest | validators/courseValidators.js:32-57 | "Nothing to update", unknown slug, name in use, cost out of range, in that order; on success the found course with only the supplied name and cost changed |
| CourseValidator.RenameToOwnNameRefused | validators/courseValidators.js:42-46 | renaming a course to its own current name is refused, whatever cost is sent |
| CourseValidator.PatchKeepsCourseValid | validators/courseValidators.js:42-55 | an accepted patch leaves the cost in range and any new name unused |
| Reviews.GuardMatchesSchema | models/Review.js:15-23 | the statics' rating guard and the schema validator accept exactly the same numbers |
| Reviews.AuthorizeUser | models/Review.js:40-42 | passes iff the caller wrote the review or is an admin; otherwise UNAUTHORIZED |
| Reviews.NewReviewFields | models/Review.js:45-47 | missing field, comment over 2000, rating not a whole number in [1, 10], in that order; passes iff none applies |
| Reviews.PatchFields | models/Review.js:63-65 | "Nothing to update" unless a comment or rating is supplied; each supplied field must be valid |
| Reviews.ApplyPatch | models/Review.js:69-70 | only the supplied comment and rating change; author and course stay |
| Reviews.PatchKeepsReviewValid | models/Review.js:63-71 | a review patched after the checks passed still satisfies the bounds and the schema validator |
| Reviews.GetReview | models/Review.js:81-86 | a malformed id and an absent id fail with their two texts; otherwise the id itself |
| Reviews.CreateReviewCheck | models/Review.js:44-53 | field checks, then the course lookup, then the one-review-per-user rule; on success the course of that slug, which the user has not reviewed yet |
| Reviews.UpdateReviewCheck | models/Review.js:62-68 | succeeds iff the fields pass, the id is well-formed and present, and the caller owns the review or is an admin; each failure in source order |
| Reviews.DeleteReviewCheck | models/Review.js:74-77 | succeeds iff the id is well-formed and present and the caller owns the review or is an admin; malformed, absent and unauthorised each give their error |
| Reviews.Reversed | models/Review.js:90-91 | the descending `createdAt` order: the ids back to front |
| Reviews.OrDefault | models/Review.js:92-93 | `x \|\| fallback`: the parameter's number whenever its text is non-empty, "0" included; the fallback only when it is absent or empty |
| Reviews.Window | models/Review.js:99 | `.skip(skip).limit(n)`: at most `n` consecutive ids starting at position `skip` |
| Reviews.BatchSize | models/Review.js:99 | the database's reading of `.limit(limit)`: that many, all for 0, the absolute value for a negative limit |
| Reviews.ClampPage | models/Review.js:96-97 | the page never exceeds the one asked for, and a limit of 0 keeps it as it is |
| Reviews.ClampPositive | models/Review.js:96-97 | for a positive limit and a page of at least 1: a page that holds some of the reviews, or 0 when there are none; lowered only when the requested page is past the last one |
| Reviews.ClampNegative | models/Review.js:96-98 | for a negative limit: a page of at most 0 whose skip passes every review |
| Reviews.ClampedSkipSign | models/Review.js:96-98 | for a positive limit, the skip of the clamped page is negative exactly when the requested page is below 1 or the course has no reviews |
| Reviews.PageOfPositiveLimit | models/Review.js:92-99 | for a positive limit, a page of at least 1 and a course with reviews: 1 to `limit` of them, in ascending or descending order as asked, with a page number between 1 and the requested one |
| Reviews.PageOfIncreasing | models/Review.js:92-99 | for a positive limit, the negative-skip error exactly when the page is below 1 or there are no reviews; otherwise 1 to `limit` of them, in ascending or descending order as asked, with a page number between 1 and the requested one |
| Reviews.PageOfZeroLimit | models/Review.js:93-99 | a limit of 0 returns every id, ordered by the direction, under the requested page |
| Reviews.PageOfNegativeLimit | models/Review.js:96-99 | a negative limit returns no ids and a page of at most 0 |
| Rating.CourseReviewIds | models/Review.js:109-112 | the `$match` stage: exactly the ids of the course's reviews, ascending |
| Rating.AverageRating | models/Review.js:121-129 | null exactly when the course has no ratings, otherwise their rounded mean |
| Rating.RoundedMeanIsNearestHundredth | models/Review.js:128 | `toFixed(2)` of the mean is the nearest hundredth, ties rounded up |
| Rating.RoundedMeanExact | models/Review.js:128 | a mean that is already a whole number of hundredths is stored exactly (5 and 9 give 7) |
| Rating.AverageInRatingRange | models/Review.js:116-128 | ratings from 1 to 10 have an average from 1.00 to 10.00 |
| Rating.SetAverageProperties | models/Review.js:108-134 | recomputing makes the course's average match its reviews; changes no other field or record and no other course's consistency; a second recompute changes nothing |
| Rating.CourseRatingsLocal | models/Review.js:111 | a course's ratings depend only on that course's own reviews |
| ReviewValidator.ValidatePostReviewRequest | validators/reviewValidator.js:7-33 | the field checks in order, then unknown course, then an existing review of this user for it; on success a course with that slug the user has not reviewed |
| ReviewValidator.PostValidatorAgreesWithCreateReview | validators/reviewValidator.js:7-33 | the validator accepts exactly what `createReview` accepts, with the same course |
| ReviewValidator.ValidatePatchReviewRequest | validators/reviewValidator.js:35-66 | all field checks before the lookup; malformed id is a CastError; absent or not owned fail; on success the review with only the supplied fields changed, not saved |
| ReviewValidator.PatchValidatorAgreesWithUpdateReview | validators/reviewValidator.js:35-66 | on a well-formed id the patch validator and `updateReview` accept the same requests for the same review |
| ReviewValidator.MalformedIdStatuses | validators/reviewValidator.js:48 | a malformed id reaches the client as 404 through the validator but as 400 through `updateReview` |
| ReviewValidator.MalformedDeleteIsNotFound | validators/reviewValidator.js:69-70 | deleting with a malformed id reaches the client as 404 |
| ReviewValidator.ValidateDeleteReviewRequest | validators/reviewValidator.js:68-78 | succeeds iff the review exists and the caller owns it or is an admin; BAD_REQUEST for absent, UNAUTHORIZED for not owned |
| ReviewValidator.ValidateGetReviewsRequest | validators/reviewValidator.js:80-90 | succeeds iff a slug is given and a course has it; missing and unknown slugs fail with the same error |
| Disciplines.VerifyName | models/Discipline.js:66-69 | passes iff no discipline has exactly that name |
| Disciplines.GetDiscipline | models/Discipline.js:101-105 | the first discipline with that slug; fails with BAD_REQUEST exactly when none has it |
| Disciplines.LaterSlugTwinUnreachable | models/Discipline.js:102 | of two disciplines sharing a slug, the later one is never found by it |
| Disciplines.CreateDisciplineCheck | models/Discipline.js:71-73 | passes iff a name is given and unused; missing and taken names give their errors |
| Disciplines.UpdateDisciplineCheck | models/Discipline.js:81-86 | "Nothing to update", then the lookup, then the name check against every discipline; on success the discipline of that slug |
| Disciplines.RenameToOwnNameRefused | models/Discipline.js:84-86 | renaming a discipline to its own current name is refused |
| Disciplines.ApplyPatch | models/Discipline.js:84-91 | only the supplied name and image change; slug and owner stay until the save |
| DisciplineValidator.ValidatePostDisciplineRequest | validators/disciplineValidator.js:7-16 | missing name, then taken name; passes iff the name is given and unused |
| DisciplineValidator.PostValidatorAgreesWithCreate | validators/disciplineValidator.js:7-16 | the validator and `createDiscipline` decide every request alike |
| DisciplineValidator.ValidatePatchDisciplineRequest | validators/disciplineValidator.js:18-41 | nothing to update, then taken name, then unknown slug; on success the discipline with only the supplied name and file path assigned |
| DisciplineValidator.PatchCheckOrderDiffers | validators/disciplineValidator.js:23-31 | the validator checks the name before the lookup, `updateDiscipline` after it, so they disagree on an unknown slug with a taken name |
| Users.RegexInput | models/User.js:173 | a supplied password is tested as is |
| Users.MissingPasswordFailsPolicy | models/User.js:173 | a missing password, tested as "undefined", never passes the policy |
| Users.CreateUserCheck | models/User.js:157-187 | passwords match, email and name, email format, policy, email unused, in that order; on success the record with the default 'user' role and the hashed password; schema failures are plain 500 errors |
| Users.LoginUser | models/User.js:137-151 | succeeds iff both given, the email is known and the password matches; returns that user; unknown email and wrong password fail alike |
| Users.SignupThenLogin | models/User.js:182-188 | a user who has just signed up logs in with the same password and gets their own id |
| Users.DeleteUserCheck | models/User.js:196-208 | malformed and unknown ids fail, then the caller must be that user or an admin; on success that user |
| Users.ProfileUpdate | models/User.js:223-258 | nothing to update, email in use, passwords differ, in that order; otherwise only the supplied fields change, the password hashed |
| Users.OwnEmailRefused | models/User.js:229-233 | submitting one's own current email is refused |
| Users.ProfileUpdateSkipsPolicy | models/User.js:241-258 | a profile update stores a password the policy rejects |
| Users.ProfileUpdateKeepsEmailsUnique | models/User.js:229-235 | an accepted profile update keeps all emails distinct |
| Users.ResetRequestCheck | models/User.js:79-87 | missing email, then unknown email; on success the user with that email |
| Users.WithResetToken | models/User.js:88-95 | stores the digest of the token and an expiry ten minutes later, nothing else |
| Users.ResetPasswordCheck | models/User.js:105-125 | missing token or password, passwords differ, policy, then no user with the live digest (UNAUTHORIZED), in that order; on success the first user holding that live digest |
| Users.AfterReset | models/User.js:126-129 | the new password is hashed and both reset fields are cleared; nothing else changes |
| Users.TokenExpires | models/User.js:122 | ten minutes after the request the token no longer resets that user |
| Users.TokenWorksInWindow | models/User.js:117-125 | before expiry a well-formed request with the token resets the user who asked for it, when their record passes the schema and no earlier user holds the same live digest |
| Users.TokenSingleUse | models/User.js:122-128 | after a reset the same token never resets that user again |
| AuthValidator.ValidateSignupRequest | validators/authValidator.js:6-18 | passwords differ, missing email or name, email in use, in that order; passes iff none applies |
| AuthValidator.SignupValidatorIsWeaker | validators/authValidator.js:6-18 | every signup `createUser` accepts passes the validator, but not conversely |
| AuthValidator.ValidateLoginRequest | validators/authValidator.js:20-35 | BAD_REQUEST when a field is missing, UNAUTHORIZED with one text for unknown email and wrong password; on success the user with that email |
| AuthValidator.LoginValidatorAgreesWithLogin | validators/authValidator.js:20-35 | the validator and `loginUser` accept the same logins for the same user and give the same texts, with 401 against 400 for bad credentials |
| AuthValidator.ValidateUpdateProfileRequest | validators/authValidator.js:37-65 | nothing to update, email in use, passwords differ; otherwise only the supplied fields are copied onto the user |
| AuthValidator.ProfileValidatorAgreesWithUpdate | validators/authValidator.js:37-65 | the validator and `updateProfile` accept and refuse alike and differ only in hashing the password |
| AuthValidator.ValidateDeleteProfileRequest | validators/authValidator.js:67-82 | missing id, malformed id (CastError), unknown user, then owner-or-admin; on success that user |
| AuthValidator.DeleteValidatorAgreesWithDelete | validators/authValidator.js:67-82 | on a well-formed id the validator decides as `deleteUser`; on a malformed one they report different errors |
| CourseSearch.WordRun | utils/createCourseSearchParams.js:18 | the length of the leading run of `\b` word characters: all word characters, and the next one is not |
| CourseSearch.RewriteFrom | utils/createCourseSearchParams.js:18 | the rewrite never shortens a text, and keeps a leading character that is not a word character |
| CourseSearch.RestoreRewriteFrom | utils/createCourseSearchParams.js:18 | dropping the `$` before each operator word undoes the rewrite from any starting point, `$` keys and control characters included |
| CourseSearch.RewriteRoundTrip | utils/createCourseSearchParams.js:18 | for every text, restoring the rewritten text gives it back |
| CourseSearch.RewriteInjective | utils/createCourseSearchParams.js:18 | two texts with the same rewrite are equal, so no two keys of an object merge |
| CourseSearch.OperatorWordsSpelled | utils/createCourseSearchParams.js:18 | the letter-by-letter test accepts exactly `gt`, `gte`, `lt`, `lte` and `in` |
| CourseSearch.RewriteOperatorWord | utils/createCourseSearchParams.js:18 | a key that is exactly `gt`, `gte`, `lt`, `lte` or `in` becomes that Mongo operator |
| CourseSearch.DollarKeyDoubled | utils/createCourseSearchParams.js:18 | the key `$gt` becomes `$$gt` |
| CourseSearch.WordAtHeadOfKey | utils/createCourseSearchParams.js:18 | `gt-x` becomes `$gt-x` |
| CourseSearch.WordAfterDot | utils/createCourseSearchParams.js:18 | `a.in` becomes `a.$in` |
| CourseSearch.LongerWordKept | utils/createCourseSearchParams.js:18 | `gte5` stays: an operator word must be the whole word |
| CourseSearch.WordAfterControlKept | utils/createCourseSearchParams.js:18 | a newline followed by `in` stays, since the escape `\n` joins the word |
| CourseSearch.RewriteValue | utils/createCourseSearchParams.js:17-25 | a text is rewritten; lists and objects keep their length; every key of an object is rewritten |
| CourseSearch.ValueRoundTrip | utils/createCourseSearchParams.js:17-25 | restoring a rewritten parameter of any shape (text, list, nested object) gives it back |
| CourseSearch.SortKey | utils/createCourseSearchParams.js:3-5 | one of the four fields, averageRating by default, prefixed by '-' unless the direction is 'asc' |
| CourseSearch.CreateCourseSearchParams | utils/createCourseSearchParams.js:1-32 | page 1 and limit 5 unless truthy numbers are given; skip is (page - 1) * limit; a text clause iff a name; cost and rating clauses iff supplied (a non-empty text, any list or object), each the word rewrite of the parameter |
| CourseSearch.EmptyQueryDefaults | utils/createCourseSearchParams.js:3-8 | no parameters: first page of five, best rated first, no filter |
| CourseSearch.PagesTile | utils/createCourseSearchParams.js:6-8 | consecutive pages do not overlap or leave gaps |
| Store.ReviewsNotOf | models/Course.js:55 | exactly the reviews whose course is not one of those deleted, unchanged |
| Store.ReviewsNotBy | models/User.js:286 | exactly the reviews not written by the deleted user, unchanged |
| Store.CoursesNotOf | models/Discipline.js:38 | exactly the courses not under the deleted discipline, unchanged |
| Store.CoursesOf | models/Course.js:63 | exactly the courses under the discipline |
| Store.ReviewsNotOfNone | models/Course.js:64-66 | deleting the reviews of no course leaves the reviews as they are |
| Store.ReviewsNotOfStep | models/Course.js:64-66 | deleting course by course ends with the reviews of all of them deleted |
| Store.OnlyOwnCourseAverageMoves | models/Review.js:138-144 | after a review of course c is written and c recomputed, every other course is exactly as consistent as before |
| Store.AverageUntouched | models/Review.js:109-112 | a write that leaves a course's reviews alone leaves its average as consistent as it was |
| Store.SetAverageKeepsConsistent | models/Review.js:123-129 | recomputing an average keeps every store invariant |
| Store.InsertReviewKeepsConsistent | models/Review.js:136 | a review the create guards accepted keeps the invariants, the (user, course) index among them |
| Store.PatchReviewKeepsConsistent | models/Review.js:69-71 | a patched review within bounds keeps the invariants |
| Store.RemoveReviewKeepsConsistent | models/Review.js:78 | removing a review keeps the invariants |
| Store.InsertReviewLocal | models/Review.js:138-140 | adding a review moves no other course's average |
| Store.PatchReviewLocal | models/Review.js:138-140 | patching a review moves no other course's average |
| Store.RemoveReviewLocal | models/Review.js:142-144 | removing a review moves no other course's average |
| Store.InsertCourseKeepsConsistent | models/Course.js:7-40 | an accepted new course with the slug of its name keeps the invariants |
| Store.PatchCourseKeepsConsistent | models/Course.js:38-40 | saving a course under its own or an unused name, slug re-derived, keeps the invariants |
| Store.RemoveCourseKeepsConsistent | models/Course.js:53-59 | removing a course with its reviews keeps the invariants: no review is left without its course |
| Store.RemoveDisciplineKeepsConsistent | models/Discipline.js:35-42 | removing a discipline with its courses and their reviews keeps the invariants |
| Store.InsertDisciplineKeepsConsistent | models/Discipline.js:71-79 | an accepted new discipline keeps the invariants |
| Store.PatchDisciplineKeepsConsistent | models/Discipline.js:81-93 | saving a discipline under its own or an unused name, slug re-derived, keeps the invariants |
| Store.InsertUserKeepsConsistent | models/User.js:177-187 | a new user with an unused email keeps the invariants |
| Store.ReplaceUserKeepsConsistent | models/User.js:229-258 | saving a user under their own or an unused email keeps the invariants |
| Store.RemoveUserKeepsConsistent | models/User.js:277-290 | removing a user with their reviews keeps the invariants |
| Store.WholeRatingBounds | models/Review.js:47 | a rating that passed the guard is stored as the integer it is, from 1 to 10 |
| Store.FoundUnderNewSlug | models/Discipline.js:25-27 | a renamed discipline is found under the slug of its new name when no other discipline has that slug |
| Store.ReviewPageProperties | models/Review.js:88-105 | an unknown course fails; for a positive limit (the default 20 among them) a known one yields a page iff the requested page is at least 1 and the course has reviews, otherwise the negative-skip error; a page holds 1 to limit reviews of that course only, in the requested direction, with the given limit and a page from 1 to the one asked for |
| Store.ReviewPageZeroLimit | models/Review.js:92-99 | a limit of "0" on a known course never fails and returns exactly the course's reviews, in the requested direction, under the requested page |
| Store.ReviewPageNegativeLimit | models/Review.js:92-99 | a negative limit on a known course never fails and returns no review |
| Store.EntityStore.SetAverageCourseRating | models/Review.js:108-134 | the store after the recompute, with the course's average consistent and the invariants kept |
| Store.EntityStore.CreateReview | models/Review.js:44-60 | refusals leave the store unchanged; otherwise the new review under the next id, the course recomputed and consistent, every other course as consistent as before |
| Store.EntityStore.InsertReview | models/Review.js:54-59 | the review is stored under the next id, nothing else changes |
| Store.EntityStore.UpdateReview | models/Review.js:62-72 | refusals leave the store unchanged; otherwise only the supplied fields of the review change, its course is recomputed, other courses stay as consistent as before |
| Store.EntityStore.SaveReview | models/Review.js:69-71 | the review is replaced by its patched copy, nothing else changes |
| Store.EntityStore.DeleteReview | models/Review.js:74-79 | refusals leave the store unchanged; otherwise the review is gone, its course is recomputed, other courses stay as consistent as before |
| Store.EntityStore.RemoveReview | models/Review.js:78 | the review is gone, nothing else changes |
| Store.EntityStore.GetReviews | models/Review.js:88-106 | returns exactly `ReviewPageOf` of the current store, whose properties `ReviewPageProperties`, `ReviewPageZeroLimit` and `ReviewPageNegativeLimit` prove; reads only |
| Store.EntityStore.CreateCourse | validators/courseValidators.js:7-30 | non-admins and failed checks leave the store unchanged; otherwise the course with the slug of its name, the caller as owner and no average, under the next id |
| Store.EntityStore.UpdateCourse | validators/courseValidators.js:32-57 | non-admins and failed checks leave the store unchanged; otherwise the patched course saved with the slug of its new name |
| Store.EntityStore.DeleteCourse | models/Course.js:53-59 | non-admins and unknown slugs leave the store unchanged; otherwise the course and all its reviews are gone, nothing else changes |
| Store.EntityStore.DeleteCoursesOfDiscipline | models/Course.js:61-70 | deletes the reviews of each matched course one at a time, then the courses; exactly those records are gone |
| Store.EntityStore.CreateDiscipline | models/Discipline.js:71-79 | non-admins and failed checks leave the store unchanged; otherwise the discipline with the slug of its name under the next id |
| Store.EntityStore.UpdateDiscipline | models/Discipline.js:81-93 | refusals change nothing; otherwise only the supplied fields change, the slug is re-derived, an old image is released when a new one is given, and the discipline is found under its new slug |
| Store.EntityStore.DeleteDiscipline | models/Discipline.js:95-99 | refusals change nothing; otherwise the discipline, its courses and their reviews are gone and its image is released |
| Store.EntityStore.CreateUser | models/User.js:157-194 | refusals leave the store unchanged; otherwise the checked record under the next id |
| Store.EntityStore.DeleteUser | models/User.js:196-221 | refusals change nothing; otherwise the user and their reviews are gone, courses and their averages untouched, the image released |
| Store.EntityStore.UpdateProfile | models/User.js:223-264 | returns the saved record; refusals change nothing; otherwise only that user changes and an old image is released when a new one is given |
| Store.EntityStore.ProcessPasswordResetRequest | models/User.js:79-103 | refusals change nothing; otherwise the user holds the token's digest and expiry and the token is returned |
| Store.EntityStore.ResetPassword | models/User.js:105-135 | refusals change nothing; otherwise that user's password is replaced and both reset fields cleared |

## Left out

- HTTP wiring: routers, controllers, `res.status().json()`, and the pagination defaults the review controller repeats are not part of this model.
- JWT signing and the authentication middleware are left out. A successful login or reset returns the user's id in place of the token.
- Mail: `sendResetPasswordMail` is I/O and is not modelled.
- Image files: `fs.unlink` and the errors its callback throws are not modelled. The model only records the released paths in the ghost set `released`.
- bcrypt, SHA-256, random bytes, `slugify` and the email regex are uninterpreted functions. `loginUser` takes the password comparison as a parameter.
- The clock (`Date.now()`) and the drawn reset token are method parameters.
- The `deleteMany` hooks of Discipline (models/Discipline.js:44-54) and User (models/User.js:292-307) serve only the reset scripts, and no modelled path reaches them. The Course `deleteMany` hook is modelled, because a discipline's `remove` hook reaches it. It is modelled by its sequential net effect, since its `forEach(async …)` is not awaited.
- The course statics `createCourse`, `updateCourse`, `deleteCourse`, `getCourse` and `searchCourses` are called but not defined in models/Course.js. Creating and updating follow the course validators, the lookup is `findOne({ slug })`, and course removal follows the Course `remove` hook.
- The course search stops at the parameters it builds. The Mongo `$text` search, `$meta` scoring and the execution of the query are not modelled.
- Query-string parsing by `qs` is not modelled. A `cost` or `rating` parameter arrives as the parsed tree of texts, lists and objects, and the limits `qs` puts on depth and list length are not modelled.
- CourseSearch.RewriteValue: the model stops at the filter object. What Mongoose makes of it is not modelled, for example rejecting the key `$$gt`.
- CourseSearch.RewriteFrom: JavaScript strings may hold lone surrogates, which `JSON.stringify` writes as `\uD800`-style escapes. Dafny characters cannot hold them, so they are not modelled.
- Reviews.NumberParam: `Number(text)` of a review `page` or `limit` is taken to be an integer. Fractional, infinite and NaN values, and a parameter sent twice (a list), are not modelled. Where the page is not clamped the source returns it as the text it was sent as, and the model returns its number.
- Floating point: numbers are exact `real`s, so the mean rounded by `toFixed(2)` is computed exactly rather than in binary floating point. `Number(x)` of a query parameter arrives already parsed, as None when it is NaN.
- Mongoose schema validation messages are summarised as one plain error per schema, not the composed per-field text. The `trim` on a user's name is not modelled.
- A Mongo filter whose value is `undefined` is not modelled. In particular, the name lookup of `validatePatchDisciplineRequest` without a name (validators/disciplineValidator.js:23) is taken to match no discipline.
- Store.EntityStore.UpdateProfile: `updateProfile` saves without validation, so the model keeps none of the schema limits for a profile update. The store invariant covers only email uniqueness, which the guard itself ensures.
- Concurrency and interleaving of the unawaited hooks are not modelled. Each operation runs to completion before the next one starts.
