/** The collections of the service and the operations that write to them:
    the statics of the four models that save or remove documents, together
    with the hooks those saves and removals fire (slugs recomputed on save,
    the course average recomputed after a review is saved or removed, and the
    review and course cascades of the `remove` hooks). Course and discipline
    writes sit behind middleware/authorize.js on every route, so those
    methods start with that check. */
module Store {
  import opened Wrappers
  import opened Errors
  import opened Entities
  import opened Rating
  import Authorization
  import Courses
  import Reviews
  import CourseValidator
  import Disciplines
  import Users

  /** Everything the schemas, the unique indexes and the hooks keep true. */
  ghost predicate Consistent(db: Db, slugify: string -> string) {
    && AllKeysBelow(db)
    && Reviews.ReviewsWellFormed(db)
    && Courses.CoursesWellFormed(db, slugify)
    && Disciplines.DisciplinesWellFormed(db, slugify)
    && Users.UsersWellFormed(db)
  }

  /** The reviews left once those of every course in `gone` are deleted. */
  function ReviewsNotOf(reviews: map<Id, Review>, gone: set<Id>): (r: map<Id, Review>)
    ensures forall id :: id in r <==> id in reviews && reviews[id].course !in gone
    ensures forall id :: id in r ==> r[id] == reviews[id]
  {
    map id | id in reviews && reviews[id].course !in gone :: reviews[id]
  }

  /** The reviews left once those written by `user` are deleted. */
  function ReviewsNotBy(reviews: map<Id, Review>, user: Id): (r: map<Id, Review>)
    ensures forall id :: id in r <==> id in reviews && reviews[id].user != user
    ensures forall id :: id in r ==> r[id] == reviews[id]
  {
    map id | id in reviews && reviews[id].user != user :: reviews[id]
  }

  /** The courses left once those of discipline `d` are deleted. */
  function CoursesNotOf(courses: map<Id, Course>, d: Id): (r: map<Id, Course>)
    ensures forall id :: id in r <==> id in courses && courses[id].discipline != d
    ensures forall id :: id in r ==> r[id] == courses[id]
  {
    map id | id in courses && courses[id].discipline != d :: courses[id]
  }

  /** A record only counts for course `c` through its own id: ids past the
      last key add nothing. */
  lemma {:induction false} CourseReviewIdsPastKeys(reviews: map<Id, Review>, c: Id, n: nat, m: nat)
    requires KeysBelow(reviews, n) && n <= m
    ensures CourseReviewIds(reviews, c, m) == CourseReviewIds(reviews, c, n)
    decreases m
  {
    if m > n {
      CourseReviewIdsPastKeys(reviews, c, n, m - 1);
    }
  }

  /** A write that leaves course `k`'s reviews as they were leaves its
      stored average exactly as consistent as it was. */
  lemma AverageUntouched(db: Db, db': Db, k: Id)
    requires AllKeysBelow(db) && db.nextId <= db'.nextId
    requires k in db.courses && k in db'.courses && db'.courses[k] == db.courses[k]
    requires forall id :: id < db'.nextId ==> ((id in db.reviews && db.reviews[id].course == k) <==> (id in db'.reviews && db'.reviews[id].course == k))
    requires forall id :: id in db.reviews && db.reviews[id].course == k ==> id in db'.reviews && db'.reviews[id] == db.reviews[id]
    ensures AverageConsistent(db', k) <==> AverageConsistent(db, k)
  {
    CourseReviewIdsPastKeys(db.reviews, k, db.nextId, db'.nextId);
    CourseRatingsLocal(db.reviews, db'.reviews, k, db'.nextId);
  }

  /** Every course of `db` other than `c` is still stored in `db'`, with an
      average exactly as consistent with its reviews as it was in `db`. */
  predicate OthersAsConsistent(db: Db, db': Db, c: Id) {
    forall k :: k in db.courses && k != c ==>
      k in db'.courses && (AverageConsistent(db', k) <==> AverageConsistent(db, k))
  }

  /** After a review for course `c` is added, changed or removed and the
      average of `c` recomputed, every other course is exactly as consistent
      as before: a review touches only its own course's average. */
  lemma OnlyOwnCourseAverageMoves(db: Db, reviews': map<Id, Review>, n': nat, c: Id)
    requires AllKeysBelow(db) && db.nextId <= n'
    requires forall id :: id in reviews' && id !in db.reviews ==> id < n' && reviews'[id].course == c
    requires forall id :: id in db.reviews && db.reviews[id].course != c ==> id in reviews' && reviews'[id] == db.reviews[id]
    requires forall id :: id in reviews' && id in db.reviews && reviews'[id] != db.reviews[id] ==>
               reviews'[id].course == c && db.reviews[id].course == c
    ensures OthersAsConsistent(db, SetAverage(db.(reviews := reviews', nextId := n'), c), c)
  {
    var mid := db.(reviews := reviews', nextId := n');
    var after := SetAverage(mid, c);
    SetAverageProperties(mid, c);
    forall k | k in db.courses && k != c
      ensures AverageConsistent(after, k) <==> AverageConsistent(db, k)
    {
      AverageUntouched(db, mid, k);
    }
  }

  /** `db'` differs from `db` at most in the stored course averages. */
  predicate SameButAverages(db: Db, db': Db) {
    && db'.users == db.users && db'.disciplines == db.disciplines && db'.reviews == db.reviews
    && db'.nextId == db.nextId && db'.courses.Keys == db.courses.Keys
    && forall k :: k in db.courses ==> db'.courses[k] == db.courses[k].(averageRating := db'.courses[k].averageRating)
  }

  /** No invariant is about a stored average. */
  lemma ConsistentIgnoresAverages(db: Db, db': Db, slugify: string -> string)
    requires SameButAverages(db, db')
    ensures Consistent(db', slugify) <==> Consistent(db, slugify)
  {
    forall k | k in db.courses
      ensures && db'.courses[k].name == db.courses[k].name && db'.courses[k].slug == db.courses[k].slug
              && db'.courses[k].cost == db.courses[k].cost && db'.courses[k].discipline == db.courses[k].discipline
    {
    }
    assert AllKeysBelow(db') == AllKeysBelow(db);
    assert Reviews.ReviewsWellFormed(db') == Reviews.ReviewsWellFormed(db);
    assert Courses.CoursesWellFormed(db', slugify) == Courses.CoursesWellFormed(db, slugify);
  }

  /** Recomputing an average keeps every invariant. */
  lemma SetAverageKeepsConsistent(db: Db, slugify: string -> string, c: Id)
    requires Consistent(db, slugify)
    ensures Consistent(SetAverage(db, c), slugify)
  {
    SetAverageProperties(db, c);
    ConsistentIgnoresAverages(db, SetAverage(db, c), slugify);
  }

  /** Adding a review that the create guards accepted keeps every invariant:
      the rating and comment are within bounds, the course exists, and the
      (user, course) pair is new. */
  lemma InsertReviewKeepsConsistent(db: Db, slugify: string -> string, rv: Review)
    requires Consistent(db, slugify)
    requires rv.course in db.courses && 1 <= rv.rating <= 10 && |rv.comment| <= Reviews.MaxCommentLength
    requires !ReviewExists(db, rv.user, rv.course)
    ensures Consistent(db.(reviews := db.reviews[db.nextId := rv], nextId := db.nextId + 1), slugify)
  {
    var db' := db.(reviews := db.reviews[db.nextId := rv], nextId := db.nextId + 1);
    forall i, j | i in db'.reviews && j in db'.reviews && i != j
      ensures db'.reviews[i].user != db'.reviews[j].user || db'.reviews[i].course != db'.reviews[j].course
    {
      if i == db.nextId {
        assert j in db.reviews;
      } else if j == db.nextId {
        assert i in db.reviews;
      }
    }
  }

  /** Overwriting a review's comment and rating with values in bounds keeps
      every invariant. */
  lemma PatchReviewKeepsConsistent(db: Db, slugify: string -> string, id: Id, rv: Review)
    requires Consistent(db, slugify) && id in db.reviews
    requires rv.user == db.reviews[id].user && rv.course == db.reviews[id].course
    requires 1 <= rv.rating <= 10 && |rv.comment| <= Reviews.MaxCommentLength
    ensures Consistent(db.(reviews := db.reviews[id := rv]), slugify)
  {
  }

  /** Removing a review keeps every invariant. */
  lemma RemoveReviewKeepsConsistent(db: Db, slugify: string -> string, id: Id)
    requires Consistent(db, slugify)
    ensures Consistent(db.(reviews := db.reviews - {id}), slugify)
  {
  }

  /** Adding a review moves no other course's average. */
  lemma InsertReviewLocal(db: Db, rv: Review)
    requires AllKeysBelow(db)
    ensures OthersAsConsistent(db, SetAverage(db.(reviews := db.reviews[db.nextId := rv], nextId := db.nextId + 1), rv.course), rv.course)
  {
    OnlyOwnCourseAverageMoves(db, db.reviews[db.nextId := rv], db.nextId + 1, rv.course);
  }

  /** Patching a review moves no other course's average. */
  lemma PatchReviewLocal(db: Db, id: Id, rv: Review)
    requires AllKeysBelow(db) && id in db.reviews && rv.course == db.reviews[id].course
    ensures OthersAsConsistent(db, SetAverage(db.(reviews := db.reviews[id := rv]), rv.course), rv.course)
  {
    OnlyOwnCourseAverageMoves(db, db.reviews[id := rv], db.nextId, rv.course);
  }

  /** Removing a review moves no other course's average. */
  lemma RemoveReviewLocal(db: Db, id: Id)
    requires AllKeysBelow(db) && id in db.reviews
    ensures OthersAsConsistent(db, SetAverage(db.(reviews := db.reviews - {id}), db.reviews[id].course), db.reviews[id].course)
  {
    OnlyOwnCourseAverageMoves(db, db.reviews - {id}, db.nextId, db.reviews[id].course);
  }

  /** Adding a course the create guards accepted, with its slug derived,
      keeps every invariant. */
  lemma InsertCourseKeepsConsistent(db: Db, slugify: string -> string, c: Course)
    requires Consistent(db, slugify)
    requires Courses.CostInRange(c.cost) && c.discipline in db.disciplines && c.slug == slugify(c.name)
    requires !CourseNameInUse(db, c.name)
    ensures Consistent(db.(courses := db.courses[db.nextId := c], nextId := db.nextId + 1), slugify)
  {
  }

  /** Saving a course under a name that is its own or is not in use, with the
      slug re-derived, keeps every invariant. */
  lemma PatchCourseKeepsConsistent(db: Db, slugify: string -> string, id: Id, c: Course)
    requires Consistent(db, slugify) && id in db.courses
    requires Courses.CostInRange(c.cost) && c.discipline == db.courses[id].discipline && c.slug == slugify(c.name)
    requires c.name == db.courses[id].name || !CourseNameInUse(db, c.name)
    ensures Consistent(db.(courses := db.courses[id := c]), slugify)
  {
  }

  /** Removing a course together with its reviews keeps every invariant. */
  lemma RemoveCourseKeepsConsistent(db: Db, slugify: string -> string, id: Id)
    requires Consistent(db, slugify)
    ensures Consistent(db.(courses := db.courses - {id}, reviews := ReviewsNotOf(db.reviews, {id})), slugify)
  {
  }

  /** The courses of discipline `d`: what `Course.deleteMany({ discipline })`
      matches. */
  function CoursesOf(courses: map<Id, Course>, d: Id): (r: set<Id>)
    ensures forall id :: id in r <==> id in courses && courses[id].discipline == d
  {
    set id | id in courses && courses[id].discipline == d
  }

  /** Deleting the reviews of no course deletes nothing. */
  lemma ReviewsNotOfNone(rs: map<Id, Review>)
    ensures ReviewsNotOf(rs, {}) == rs
  {
    assert ReviewsNotOf(rs, {}).Keys == rs.Keys;
  }

  /** Deleting the reviews of one more course, one course at a time. */
  lemma ReviewsNotOfStep(rs: map<Id, Review>, gone: set<Id>, c: Id)
    ensures ReviewsNotOf(ReviewsNotOf(rs, gone), {c}) == ReviewsNotOf(rs, gone + {c})
  {
    assert ReviewsNotOf(ReviewsNotOf(rs, gone), {c}).Keys == ReviewsNotOf(rs, gone + {c}).Keys;
  }

  /** Removing a discipline's courses with their reviews, then the
      discipline, keeps every invariant. */
  lemma RemoveDisciplineKeepsConsistent(db: Db, slugify: string -> string, d: Id)
    requires Consistent(db, slugify)
    ensures Consistent(db.(disciplines := db.disciplines - {d}, courses := CoursesNotOf(db.courses, d),
                           reviews := ReviewsNotOf(db.reviews, CoursesOf(db.courses, d))), slugify)
  {
  }

  /** Adding a discipline with an unused name and a derived slug keeps every
      invariant. */
  lemma InsertDisciplineKeepsConsistent(db: Db, slugify: string -> string, d: Discipline)
    requires Consistent(db, slugify)
    requires d.slug == slugify(d.name) && !DisciplineNameInUse(db, d.name)
    ensures Consistent(db.(disciplines := db.disciplines[db.nextId := d], nextId := db.nextId + 1), slugify)
  {
  }

  /** Saving a discipline under its own or an unused name, with the slug
      re-derived, keeps every invariant. */
  lemma PatchDisciplineKeepsConsistent(db: Db, slugify: string -> string, id: Id, d: Discipline)
    requires Consistent(db, slugify) && id in db.disciplines
    requires d.slug == slugify(d.name) && (d.name == db.disciplines[id].name || !DisciplineNameInUse(db, d.name))
    ensures Consistent(db.(disciplines := db.disciplines[id := d]), slugify)
  {
  }

  /** Adding a user with an unused email keeps every invariant. */
  lemma InsertUserKeepsConsistent(db: Db, slugify: string -> string, u: User)
    requires Consistent(db, slugify) && !EmailInUse(db, u.email)
    ensures Consistent(db.(users := db.users[db.nextId := u], nextId := db.nextId + 1), slugify)
  {
  }

  /** Saving a user under their own or an unused email keeps every invariant. */
  lemma ReplaceUserKeepsConsistent(db: Db, slugify: string -> string, id: Id, u: User)
    requires Consistent(db, slugify) && id in db.users
    requires u.email == db.users[id].email || !EmailInUse(db, u.email)
    ensures Consistent(db.(users := db.users[id := u]), slugify)
  {
  }

  /** Removing a user together with their reviews keeps every invariant. */
  lemma RemoveUserKeepsConsistent(db: Db, slugify: string -> string, id: Id)
    requires Consistent(db, slugify)
    ensures Consistent(db.(users := db.users - {id}, reviews := ReviewsNotBy(db.reviews, id)), slugify)
  {
  }

  /** `Number.isInteger(x) && 1 <= x <= 10` makes the stored integer a rating. */
  lemma WholeRatingBounds(x: real)
    requires Reviews.WholeRatingInRange(x)
    ensures 1 <= x.Floor <= 10 && x.Floor as real == x
  {
  }

  /** After a rename, the discipline is found under the slug of its new name,
      provided no other discipline has that slug. */
  lemma FoundUnderNewSlug(db: Db, id: Id, d: Discipline)
    requires AllKeysBelow(db) && id in db.disciplines
    requires forall k :: k in db.disciplines && k != id ==> db.disciplines[k].slug != d.slug
    ensures Disciplines.GetDiscipline(db.(disciplines := db.disciplines[id := d]), d.slug) == Ok(id)
  {
    var db' := db.(disciplines := db.disciplines[id := d]);
    FindFirstUnique(db'.disciplines, (x: Discipline) => x.slug == d.slug, db'.nextId, id);
  }

  /** The page of reviews `getReviews` returns for a query on the course with
      slug `courseSlug`: an absent or empty page and limit fall back to 1 and
      20, any other text keeps its number, and the paging is `Reviews.PageOf`
      on the course's review ids. */
  function ReviewPageOf(db: Db, query: Reviews.ReviewQuery, courseSlug: string): Res<Reviews.ReviewPage> {
    var found := Courses.GetCourse(db, courseSlug);
    if found.Err? then Err(found.error)
    else
      var all := CourseReviewIds(db.reviews, found.value, db.nextId);
      Reviews.PageOf(all, query.direction == Some("desc"), Reviews.OrDefault(query.page, 1),
                     Reviews.OrDefault(query.limit, Reviews.DefaultLimit), found.value)
  }

  /** What a page of reviews is, for a positive limit (the default one among
      them): it fails with the negative skip exactly when the requested page
      is below 1 (a page of "0" included) or the course has no reviews. A
      page that comes back is never empty, holds at most `limit` reviews, only
      reviews of that course, newest first exactly when 'desc' was asked for,
      and its page number only ever moves down from the one requested. */
  lemma ReviewPageProperties(db: Db, query: Reviews.ReviewQuery, courseSlug: string)
    requires AllKeysBelow(db)
    ensures var r := ReviewPageOf(db, query, courseSlug);
      var found := Courses.GetCourse(db, courseSlug);
      var page := Reviews.OrDefault(query.page, 1);
      var limit := Reviews.OrDefault(query.limit, Reviews.DefaultLimit);
      && (found.Err? ==> r == Err(found.error))
      && (found.Ok? && limit > 0 ==>
            (r.Err? <==> page < 1 || !exists id :: id in db.reviews && db.reviews[id].course == found.value))
      && (found.Ok? && limit > 0 && r.Err? ==> r == Err(Reviews.NegativeSkip))
      && (found.Ok? && limit > 0 && r.Ok? ==>
            && r.value.course == found.value
            && 1 <= |r.value.reviews| <= r.value.limit
            && r.value.limit == limit
            && 1 <= r.value.page <= page
            && (forall i :: 0 <= i < |r.value.reviews| ==>
                  r.value.reviews[i] in db.reviews && db.reviews[r.value.reviews[i]].course == r.value.course)
            && (forall i, j :: 0 <= i < j < |r.value.reviews| ==>
                  if query.direction == Some("desc") then r.value.reviews[i] > r.value.reviews[j]
                  else r.value.reviews[i] < r.value.reviews[j]))
  {
    var found := Courses.GetCourse(db, courseSlug);
    var limit := Reviews.OrDefault(query.limit, Reviews.DefaultLimit);
    if found.Ok? && limit > 0 {
      var c := found.value;
      var all := CourseReviewIds(db.reviews, c, db.nextId);
      Reviews.PageOfIncreasing(all, query.direction == Some("desc"), Reviews.OrDefault(query.page, 1), limit, c);
      if all != [] {
        assert all[0] in db.reviews && db.reviews[all[0]].course == c;
      } else {
        forall id | id in db.reviews
          ensures db.reviews[id].course != c
        {
          assert id < db.nextId;
        }
      }
    }
  }

  /** A limit of "0" is truthy, so it is kept, and the database reads it as
      no limit: every review of the course comes back, in the order of the
      direction, under the requested page, with no error even when there are
      none. */
  lemma ReviewPageZeroLimit(db: Db, query: Reviews.ReviewQuery, courseSlug: string)
    requires AllKeysBelow(db)
    requires Reviews.OrDefault(query.limit, Reviews.DefaultLimit) == 0
    ensures var r := ReviewPageOf(db, query, courseSlug);
      var found := Courses.GetCourse(db, courseSlug);
      found.Ok? ==>
        && r.Ok? && r.value.page == Reviews.OrDefault(query.page, 1) && r.value.course == found.value
        && (forall id :: id in r.value.reviews <==> id in db.reviews && db.reviews[id].course == found.value)
        && (forall i, j :: 0 <= i < j < |r.value.reviews| ==>
              if query.direction == Some("desc") then r.value.reviews[i] > r.value.reviews[j]
              else r.value.reviews[i] < r.value.reviews[j])
  {
    var found := Courses.GetCourse(db, courseSlug);
    if found.Ok? {
      var c := found.value;
      var all := CourseReviewIds(db.reviews, c, db.nextId);
      Reviews.PageOfZeroLimit(all, query.direction == Some("desc"), Reviews.OrDefault(query.page, 1), c);
      forall id | id in db.reviews && db.reviews[id].course == c ensures id in all {
        assert id < db.nextId;
      }
    }
  }

  /** A negative limit never gives a review back: the page is clamped to at
      most 0, and the skip then passes all of them. */
  lemma ReviewPageNegativeLimit(db: Db, query: Reviews.ReviewQuery, courseSlug: string)
    requires Reviews.OrDefault(query.limit, Reviews.DefaultLimit) < 0
    ensures var r := ReviewPageOf(db, query, courseSlug);
      Courses.GetCourse(db, courseSlug).Ok? ==> r.Ok? && r.value.reviews == [] && r.value.page <= 0
  {
    var found := Courses.GetCourse(db, courseSlug);
    if found.Ok? {
      Reviews.PageOfNegativeLimit(CourseReviewIds(db.reviews, found.value, db.nextId), query.direction == Some("desc"),
        Reviews.OrDefault(query.page, 1), Reviews.OrDefault(query.limit, Reviews.DefaultLimit), found.value);
    }
  }

  class EntityStore {
    var users: map<Id, User>
    var disciplines: map<Id, Discipline>
    var courses: map<Id, Course>
    var reviews: map<Id, Review>
    /** The next id to hand out; ids come from one counter for all records. */
    var nextId: Id
    /** The image paths handed to `fs.unlink`. */
    ghost var released: set<string>

    /** `slugify(name, { lower: true })`. */
    const slugify: string -> string
    /** bcrypt: `hash` on save, and `comparePassword(p)` is `hash(p) == password`. */
    const hash: string -> string
    /** The hex SHA-256 digest of a reset token. */
    const sha256: string -> string
    /** The email regex of the schema. */
    const validEmail: string -> bool

    function State(): Db
      reads this
    {
      Db(users, disciplines, courses, reviews, nextId)
    }

    ghost predicate Valid()
      reads this
    {
      Consistent(State(), slugify)
    }

    /** An empty database. */
    constructor (slugify: string -> string, hash: string -> string, sha256: string -> string, validEmail: string -> bool)
      ensures Valid() && State() == Db(map[], map[], map[], map[], 0) && released == {}
      ensures this.slugify == slugify && this.hash == hash && this.sha256 == sha256 && this.validEmail == validEmail
    {
      users, disciplines, courses, reviews, nextId := map[], map[], map[], map[], 0;
      released := {};
      this.slugify, this.hash, this.sha256, this.validEmail := slugify, hash, sha256, validEmail;
    }

    // ---------------------------------------------------------------- reviews

    /** `setAverageCourseRating(courseId)`, run by the `save` and `remove` hooks. */
    method SetAverageCourseRating(c: Id)
      requires Valid()
      modifies this
      ensures Valid() && released == old(released)
      ensures State() == SetAverage(old(State()), c)
      ensures c in courses ==> AverageConsistent(State(), c)
    {
      ghost var before := State();
      SetAverageProperties(before, c);
      SetAverageKeepsConsistent(before, slugify, c);
      if c in courses {
        var avg := AverageRating(CourseRatings(reviews, c, nextId));
        courses := courses[c := courses[c].(averageRating := avg)];
        assert State() == before.(courses := before.courses[c := before.courses[c].(averageRating := avg)]);
      }
      assert State() == SetAverage(before, c);
    }

    /** `createReview(courseSlug, comment, rating, userId)` and its `save` hook. */
    method CreateReview(courseSlug: Option<string>, comment: Option<string>, rating: Option<real>, user: Id) returns (r: Res<Id>)
      requires Valid()
      modifies this
      ensures Valid() && released == old(released)
      ensures var check := Reviews.CreateReviewCheck(old(State()), courseSlug, comment, rating, user);
        && (check.Err? ==> r == Err(check.error) && State() == old(State()))
        && (check.Ok? ==>
              && r == Ok(old(nextId))
              && reviews == old(reviews)[old(nextId) := Reviews.NewReview(comment, rating, user, check.value)]
              && State() == SetAverage(old(State()).(reviews := reviews, nextId := old(nextId) + 1), check.value)
              && AverageConsistent(State(), check.value)
              && OthersAsConsistent(old(State()), State(), check.value))
    {
      var check := Reviews.CreateReviewCheck(State(), courseSlug, comment, rating, user);
      if check.Err? {
        return Err(check.error);
      }
      var c := check.value;
      WholeRatingBounds(rating.value);
      var rv := Reviews.NewReview(comment, rating, user, c);
      ghost var before := State();
      var id := InsertReview(rv);
      ghost var mid := State();
      assert rv.course == c && mid == before.(reviews := before.reviews[before.nextId := rv], nextId := before.nextId + 1);
      InsertReviewLocal(before, rv);
      assert OthersAsConsistent(before, SetAverage(mid, c), c);
      SetAverageCourseRating(c);
      assert State() == SetAverage(mid, c);
      r := Ok(id);
    }

    /** `Review.create(...)` up to its `save` hook: a review the create guards
        accepted is stored under the next id. */
    method InsertReview(rv: Review) returns (id: Id)
      requires Valid()
      requires rv.course in courses && 1 <= rv.rating <= 10 && |rv.comment| <= Reviews.MaxCommentLength
      requires !ReviewExists(State(), rv.user, rv.course)
      modifies this
      ensures Valid() && released == old(released) && id == old(nextId)
      ensures State() == old(State()).(reviews := old(reviews)[id := rv], nextId := id + 1)
    {
      ghost var before := State();
      InsertReviewKeepsConsistent(before, slugify, rv);
      id := nextId;
      reviews := reviews[id := rv];
      nextId := nextId + 1;
      assert State() == before.(reviews := before.reviews[before.nextId := rv], nextId := before.nextId + 1);
    }

    /** `updateReview(comment, rating, reviewId, user)` and its `save` hook. */
    method UpdateReview(comment: Option<string>, rating: Option<real>, reviewId: IdParam, caller: Principal) returns (r: Res<Id>)
      requires Valid()
      modifies this
      ensures Valid() && released == old(released)
      ensures var check := Reviews.UpdateReviewCheck(old(State()), comment, rating, reviewId, caller);
        && (check.Err? ==> r == Err(check.error) && State() == old(State()))
        && (check.Ok? ==>
              var id := check.value;
              var was := old(reviews)[id];
              && r == Ok(id)
              && reviews == old(reviews)[id := Reviews.ApplyPatch(was, comment, rating)]
              && State() == SetAverage(old(State()).(reviews := reviews), was.course)
              && AverageConsistent(State(), was.course)
              && OthersAsConsistent(old(State()), State(), was.course))
    {
      var check := Reviews.UpdateReviewCheck(State(), comment, rating, reviewId, caller);
      if check.Err? {
        return Err(check.error);
      }
      var id := check.value;
      ghost var before := State();
      var was := reviews[id];
      Reviews.PatchKeepsReviewValid(was, comment, rating);
      var rv := Reviews.ApplyPatch(was, comment, rating);
      SaveReview(id, rv);
      ghost var mid := State();
      assert rv.course == was.course && mid == before.(reviews := before.reviews[id := rv]);
      PatchReviewLocal(before, id, rv);
      assert OthersAsConsistent(before, SetAverage(mid, was.course), was.course);
      SetAverageCourseRating(was.course);
      assert State() == SetAverage(mid, was.course);
      r := Ok(id);
    }

    /** `review.save()` of a review whose comment and rating were
        overwritten, up to its `save` hook. */
    method SaveReview(id: Id, rv: Review)
      requires Valid() && id in reviews
      requires rv.user == reviews[id].user && rv.course == reviews[id].course
      requires 1 <= rv.rating <= 10 && |rv.comment| <= Reviews.MaxCommentLength
      modifies this
      ensures Valid() && released == old(released)
      ensures State() == old(State()).(reviews := old(reviews)[id := rv])
    {
      ghost var before := State();
      PatchReviewKeepsConsistent(before, slugify, id, rv);
      reviews := reviews[id := rv];
      assert State() == before.(reviews := before.reviews[id := rv]);
    }

    /** `deleteReview(reviewId, user)` and its `remove` hook. */
    method DeleteReview(reviewId: IdParam, caller: Principal) returns (r: Res<()>)
      requires Valid()
      modifies this
      ensures Valid() && released == old(released)
      ensures var check := Reviews.DeleteReviewCheck(old(State()), reviewId, caller);
        && (check.Err? ==> r == Err(check.error) && State() == old(State()))
        && (check.Ok? ==>
              var id := check.value;
              var c := old(reviews)[id].course;
              && r == Ok(())
              && reviews == old(reviews) - {id}
              && State() == SetAverage(old(State()).(reviews := reviews), c)
              && AverageConsistent(State(), c)
              && OthersAsConsistent(old(State()), State(), c))
    {
      var check := Reviews.DeleteReviewCheck(State(), reviewId, caller);
      if check.Err? {
        return Err(check.error);
      }
      var id := check.value;
      ghost var before := State();
      var c := reviews[id].course;
      RemoveReview(id);
      ghost var mid := State();
      assert mid == before.(reviews := before.reviews - {id});
      RemoveReviewLocal(before, id);
      assert OthersAsConsistent(before, SetAverage(mid, c), c);
      SetAverageCourseRating(c);
      assert State() == SetAverage(mid, c);
      r := Ok(());
    }

    /** `review.remove()`, up to its `remove` hook. */
    method RemoveReview(id: Id)
      requires Valid()
      modifies this
      ensures Valid() && released == old(released)
      ensures State() == old(State()).(reviews := old(reviews) - {id})
    {
      ghost var before := State();
      RemoveReviewKeepsConsistent(before, slugify, id);
      reviews := reviews - {id};
      assert State() == before.(reviews := before.reviews - {id});
    }

    /** `getReviews(query, courseSlug)`: one page of a course's reviews, oldest
        first unless the direction is 'desc'. */
    method GetReviews(query: Reviews.ReviewQuery, courseSlug: string) returns (r: Res<Reviews.ReviewPage>)
      ensures r == ReviewPageOf(State(), query, courseSlug)
    {
      ghost var db := State();
      var descending := query.direction == Some("desc");
      var page := Reviews.OrDefault(query.page, 1);
      var limit := Reviews.OrDefault(query.limit, Reviews.DefaultLimit);
      var found := Courses.GetCourse(State(), courseSlug);
      if found.Err? {
        return Err(found.error);
      }
      var c := found.value;
      var all := CourseReviewIds(reviews, c, nextId);
      assert all == CourseReviewIds(db.reviews, c, db.nextId);
      var totalItems := |all|;
      ghost var requested := page;
      // Math.ceil(totalItems / 0) is Infinity or NaN, which no page exceeds
      if limit != 0 {
        var maxPage := Arithmetic.CeilDiv(totalItems, limit);
        if page > maxPage {
          page := maxPage;
        }
      }
      assert page == Reviews.ClampPage(totalItems, requested, limit);
      var skip := (page - 1) * limit;
      if skip < 0 {
        return Err(Reviews.NegativeSkip);
      }
      r := Ok(Reviews.PageAt(all, descending, page, limit, c));
    }

    // ---------------------------------------------------------------- courses

    /** The create-course route: `authorize`, the rules of
        `validatePostCourseRequest`, then `Course.create` with the slug of the
        pre-save hook and no average yet. */
    method CreateCourse(caller: Principal, disciplineSlug: Option<string>, name: Option<string>, cost: Option<real>) returns (r: Res<Id>)
      requires Valid()
      modifies this
      ensures Valid() && released == old(released)
      ensures var gate := Authorization.Authorize(caller);
        var check := CourseValidator.ValidatePostCourseRequest(old(State()), name, cost, disciplineSlug);
        && (gate.Err? ==> r == Err(gate.error) && State() == old(State()))
        && (gate.Ok? && check.Err? ==> r == Err(check.error) && State() == old(State()))
        && (gate.Ok? && check.Ok? ==>
              && r == Ok(old(nextId))
              && State() == old(State()).(courses := old(courses)[old(nextId) := Course(name.value, slugify(name.value), check.value, caller.id, cost.value, None)],
                                          nextId := old(nextId) + 1))
    {
      var gate := Authorization.Authorize(caller);
      if gate.Err? {
        return Err(gate.error);
      }
      var check := CourseValidator.ValidatePostCourseRequest(State(), name, cost, disciplineSlug);
      if check.Err? {
        return Err(check.error);
      }
      ghost var before := State();
      var c := Course(name.value, slugify(name.value), check.value, caller.id, cost.value, None);
      InsertCourseKeepsConsistent(before, slugify, c);
      courses := courses[nextId := c];
      r := Ok(nextId);
      nextId := nextId + 1;
      assert State() == before.(courses := before.courses[before.nextId := c], nextId := before.nextId + 1);
    }

    /** The update-course route: `authorize`, `validatePatchCourseRequest`,
        then `save`, whose pre-save hook re-derives the slug. */
    method UpdateCourse(caller: Principal, slug: string, name: Option<string>, cost: Option<real>) returns (r: Res<Id>)
      requires Valid()
      modifies this
      ensures Valid() && released == old(released)
      ensures var gate := Authorization.Authorize(caller);
        var check := CourseValidator.ValidatePatchCourseRequest(old(State()), cost, name, slug);
        && (gate.Err? ==> r == Err(gate.error) && State() == old(State()))
        && (gate.Ok? && check.Err? ==> r == Err(check.error) && State() == old(State()))
        && (gate.Ok? && check.Ok? ==>
              var (id, c) := check.value;
              && r == Ok(id)
              && State() == old(State()).(courses := old(courses)[id := c.(slug := slugify(c.name))]))
    {
      var gate := Authorization.Authorize(caller);
      if gate.Err? {
        return Err(gate.error);
      }
      var check := CourseValidator.ValidatePatchCourseRequest(State(), cost, name, slug);
      if check.Err? {
        return Err(check.error);
      }
      ghost var before := State();
      var (id, c) := check.value;
      var saved := c.(slug := slugify(c.name));
      assert Courses.CostInRange(before.courses[id].cost);
      PatchCourseKeepsConsistent(before, slugify, id, saved);
      courses := courses[id := saved];
      assert State() == before.(courses := before.courses[id := saved]);
      r := Ok(id);
    }

    /** The delete-course route: `authorize`, the lookup by slug, then
        `remove`, whose hook deletes the course's reviews. */
    method DeleteCourse(caller: Principal, slug: string) returns (r: Res<()>)
      requires Valid()
      modifies this
      ensures Valid() && released == old(released)
      ensures var gate := Authorization.Authorize(caller);
        var found := Courses.GetCourse(old(State()), slug);
        && (gate.Err? ==> r == Err(gate.error) && State() == old(State()))
        && (gate.Ok? && found.Err? ==> r == Err(found.error) && State() == old(State()))
        && (gate.Ok? && found.Ok? ==>
              && r == Ok(())
              && State() == old(State()).(courses := old(courses) - {found.value},
                                          reviews := ReviewsNotOf(old(reviews), {found.value})))
    {
      var gate := Authorization.Authorize(caller);
      if gate.Err? {
        return Err(gate.error);
      }
      var found := Courses.GetCourse(State(), slug);
      if found.Err? {
        return Err(found.error);
      }
      ghost var before := State();
      var id := found.value;
      RemoveCourseKeepsConsistent(before, slugify, id);
      reviews := ReviewsNotOf(reviews, {id});
      courses := courses - {id};
      assert State() == before.(courses := before.courses - {id}, reviews := ReviewsNotOf(before.reviews, {id}));
      r := Ok(());
    }

    /** `Course.deleteMany({ discipline: d })`: its hook deletes the reviews of
        each matched course, one course at a time, then the courses go. */
    method DeleteCoursesOfDiscipline(d: Id)
      modifies this
      ensures released == old(released)
      ensures State() == old(State()).(courses := CoursesNotOf(old(courses), d),
                                       reviews := ReviewsNotOf(old(reviews), CoursesOf(old(courses), d)))
    {
      var matched := CoursesOf(courses, d);
      var pending := matched;
      ReviewsNotOfNone(reviews);
      while pending != {}
        invariant pending <= matched
        invariant reviews == ReviewsNotOf(old(reviews), matched - pending)
        invariant users == old(users) && disciplines == old(disciplines) && courses == old(courses)
        invariant nextId == old(nextId) && released == old(released)
        decreases pending
      {
        var c :| c in pending;
        ReviewsNotOfStep(old(reviews), matched - pending, c);
        assert matched - (pending - {c}) == (matched - pending) + {c};
        reviews := ReviewsNotOf(reviews, {c});
        pending := pending - {c};
      }
      courses := CoursesNotOf(courses, d);
    }

    // ------------------------------------------------------------ disciplines

    /** The create-discipline route: `authorize`, then `createDiscipline`
        and the pre-save slug. */
    method CreateDiscipline(caller: Principal, name: Option<string>, imageUrl: Option<string>) returns (r: Res<Id>)
      requires Valid()
      modifies this
      ensures Valid() && released == old(released)
      ensures var gate := Authorization.Authorize(caller);
        var check := Disciplines.CreateDisciplineCheck(old(State()), name);
        && (gate.Err? ==> r == Err(gate.error) && State() == old(State()))
        && (gate.Ok? && check.Err? ==> r == Err(check.error) && State() == old(State()))
        && (gate.Ok? && check.Ok? ==>
              && r == Ok(old(nextId))
              && State() == old(State()).(disciplines := old(disciplines)[old(nextId) := Discipline(name.value, slugify(name.value), caller.id, imageUrl)],
                                          nextId := old(nextId) + 1))
    {
      var gate := Authorization.Authorize(caller);
      if gate.Err? {
        return Err(gate.error);
      }
      var check := Disciplines.CreateDisciplineCheck(State(), name);
      if check.Err? {
        return Err(check.error);
      }
      ghost var before := State();
      var d := Discipline(name.value, slugify(name.value), caller.id, imageUrl);
      InsertDisciplineKeepsConsistent(before, slugify, d);
      disciplines := disciplines[nextId := d];
      r := Ok(nextId);
      nextId := nextId + 1;
      assert State() == before.(disciplines := before.disciplines[before.nextId := d], nextId := before.nextId + 1);
    }

    /** The update-discipline route: `authorize`, then `updateDiscipline`: a
        supplied image releases the old one, and the save re-derives the slug. */
    method UpdateDiscipline(caller: Principal, slug: string, name: Option<string>, imageUrl: Option<string>) returns (r: Res<Id>)
      requires Valid()
      modifies this
      ensures Valid()
      ensures var gate := Authorization.Authorize(caller);
        var check := Disciplines.UpdateDisciplineCheck(old(State()), slug, name, imageUrl);
        && (gate.Err? ==> r == Err(gate.error) && State() == old(State()) && released == old(released))
        && (gate.Ok? && check.Err? ==> r == Err(check.error) && State() == old(State()) && released == old(released))
        && (gate.Ok? && check.Ok? ==>
              var id := check.value;
              var was := old(disciplines)[id];
              var d := Disciplines.ApplyPatch(was, name, imageUrl);
              && r == Ok(id)
              && State() == old(State()).(disciplines := old(disciplines)[id := d.(slug := slugify(d.name))])
              && released == old(released) + (if Supplied(imageUrl) && Supplied(was.imageUrl) then {was.imageUrl.value} else {})
              && ((forall k :: k in old(disciplines) && k != id ==> old(disciplines)[k].slug != slugify(d.name)) ==>
                    Disciplines.GetDiscipline(State(), slugify(d.name)) == Ok(id)))
    {
      var gate := Authorization.Authorize(caller);
      if gate.Err? {
        return Err(gate.error);
      }
      var check := Disciplines.UpdateDisciplineCheck(State(), slug, name, imageUrl);
      if check.Err? {
        return Err(check.error);
      }
      ghost var before := State();
      var id := check.value;
      var was := disciplines[id];
      if Supplied(imageUrl) && Supplied(was.imageUrl) {
        released := released + {was.imageUrl.value};
      }
      var d := Disciplines.ApplyPatch(was, name, imageUrl);
      var saved := d.(slug := slugify(d.name));
      PatchDisciplineKeepsConsistent(before, slugify, id, saved);
      if forall k :: k in before.disciplines && k != id ==> before.disciplines[k].slug != saved.slug {
        FoundUnderNewSlug(before, id, saved);
      }
      disciplines := disciplines[id := saved];
      assert State() == before.(disciplines := before.disciplines[id := saved]);
      r := Ok(id);
    }

    /** The delete-discipline route: `authorize`, then `deleteDiscipline`: the
        image is released, and the `remove` hook deletes the discipline's
        courses and, through the courses' hook, their reviews. */
    method DeleteDiscipline(caller: Principal, slug: string) returns (r: Res<()>)
      requires Valid()
      modifies this
      ensures Valid()
      ensures var gate := Authorization.Authorize(caller);
        var found := Disciplines.GetDiscipline(old(State()), slug);
        && (gate.Err? ==> r == Err(gate.error) && State() == old(State()) && released == old(released))
        && (gate.Ok? && found.Err? ==> r == Err(found.error) && State() == old(State()) && released == old(released))
        && (gate.Ok? && found.Ok? ==>
              var id := found.value;
              var was := old(disciplines)[id];
              && r == Ok(())
              && State() == old(State()).(disciplines := old(disciplines) - {id},
                                          courses := CoursesNotOf(old(courses), id),
                                          reviews := ReviewsNotOf(old(reviews), CoursesOf(old(courses), id)))
              && released == old(released) + (if Supplied(was.imageUrl) then {was.imageUrl.value} else {}))
    {
      var gate := Authorization.Authorize(caller);
      if gate.Err? {
        return Err(gate.error);
      }
      var found := Disciplines.GetDiscipline(State(), slug);
      if found.Err? {
        return Err(found.error);
      }
      ghost var before := State();
      var id := found.value;
      var was := disciplines[id];
      if Supplied(was.imageUrl) {
        released := released + {was.imageUrl.value};
      }
      RemoveDisciplineKeepsConsistent(before, slugify, id);
      DeleteCoursesOfDiscipline(id);
      disciplines := disciplines - {id};
      assert State() == before.(disciplines := before.disciplines - {id}, courses := CoursesNotOf(before.courses, id),
                                reviews := ReviewsNotOf(before.reviews, CoursesOf(before.courses, id)));
      r := Ok(());
    }

    // ------------------------------------------------------------------ users

    /** `createUser(email, name, password, confirmPassword, imageUrl)`. */
    method CreateUser(email: Option<string>, name: Option<string>, password: Option<string>,
                      confirmPassword: Option<string>, imageUrl: Option<string>) returns (r: Res<Id>)
      requires Valid()
      modifies this
      ensures Valid() && released == old(released)
      ensures var check := Users.CreateUserCheck(old(State()), email, name, password, confirmPassword, imageUrl, validEmail, hash);
        && (check.Err? ==> r == Err(check.error) && State() == old(State()))
        && (check.Ok? ==> r == Ok(old(nextId))
                          && State() == old(State()).(users := old(users)[old(nextId) := check.value], nextId := old(nextId) + 1))
    {
      var check := Users.CreateUserCheck(State(), email, name, password, confirmPassword, imageUrl, validEmail, hash);
      if check.Err? {
        return Err(check.error);
      }
      ghost var before := State();
      InsertUserKeepsConsistent(before, slugify, check.value);
      users := users[nextId := check.value];
      r := Ok(nextId);
      nextId := nextId + 1;
      assert State() == before.(users := before.users[before.nextId := check.value], nextId := before.nextId + 1);
    }

    /** `deleteUser(loggedInUser, userId)`: the image is released and the
        `remove` hook deletes the user's reviews with a query-level
        `deleteMany`, which fires no review hook: no course average is
        recomputed. */
    method DeleteUser(caller: Principal, userId: IdParam) returns (r: Res<()>)
      requires Valid()
      modifies this
      ensures Valid()
      ensures var check := Users.DeleteUserCheck(old(State()), caller, userId);
        && (check.Err? ==> r == Err(check.error) && State() == old(State()) && released == old(released))
        && (check.Ok? ==>
              var id := check.value;
              var was := old(users)[id];
              && r == Ok(())
              && State() == old(State()).(users := old(users) - {id}, reviews := ReviewsNotBy(old(reviews), id))
              && courses == old(courses)
              && released == old(released) + (if Supplied(was.imageUrl) then {was.imageUrl.value} else {}))
    {
      var check := Users.DeleteUserCheck(State(), caller, userId);
      if check.Err? {
        return Err(check.error);
      }
      ghost var before := State();
      var id := check.value;
      if Supplied(users[id].imageUrl) {
        released := released + {users[id].imageUrl.value};
      }
      RemoveUserKeepsConsistent(before, slugify, id);
      reviews := ReviewsNotBy(reviews, id);
      users := users - {id};
      assert State() == before.(users := before.users - {id}, reviews := ReviewsNotBy(before.reviews, id));
      r := Ok(());
    }

    /** `updateProfile(user, email, name, password, confirmPassword, imageUrl)`
        for the logged-in user `me`: a new image releases the old one. */
    method UpdateProfile(me: Id, email: Option<string>, name: Option<string>, password: Option<string>,
                         confirmPassword: Option<string>, imageUrl: Option<string>) returns (r: Res<User>)
      requires Valid() && me in users
      modifies this
      ensures Valid()
      ensures var check := Users.ProfileUpdate(old(State()), me, email, name, password, confirmPassword, imageUrl, hash);
        && r == check
        && (check.Err? ==> State() == old(State()) && released == old(released))
        && (check.Ok? ==>
              var was := old(users)[me];
              && State() == old(State()).(users := old(users)[me := check.value])
              && released == old(released) + (if Supplied(imageUrl) && Supplied(was.imageUrl) then {was.imageUrl.value} else {}))
    {
      r := Users.ProfileUpdate(State(), me, email, name, password, confirmPassword, imageUrl, hash);
      if r.Err? {
        return;
      }
      ghost var before := State();
      var was := users[me];
      if Supplied(imageUrl) && Supplied(was.imageUrl) {
        released := released + {was.imageUrl.value};
      }
      ReplaceUserKeepsConsistent(before, slugify, me, r.value);
      users := users[me := r.value];
      assert State() == before.(users := before.users[me := r.value]);
    }

    /** `processPasswordResetRequest(email)` at time `now`, with `token` the
        random hex string it draws; returns that token. */
    method ProcessPasswordResetRequest(email: Option<string>, token: string, now: int) returns (r: Res<string>)
      requires Valid()
      modifies this
      ensures Valid() && released == old(released)
      ensures var check := Users.ResetRequestCheck(old(State()), email);
        && (check.Err? ==> r == Err(check.error) && State() == old(State()))
        && (check.Ok? ==>
              && r == Ok(token)
              && State() == old(State()).(users := old(users)[check.value := Users.WithResetToken(old(users)[check.value], token, now, sha256)]))
    {
      var check := Users.ResetRequestCheck(State(), email);
      if check.Err? {
        return Err(check.error);
      }
      ghost var before := State();
      var id := check.value;
      var u := Users.WithResetToken(users[id], token, now, sha256);
      ReplaceUserKeepsConsistent(before, slugify, id, u);
      users := users[id := u];
      assert State() == before.(users := before.users[id := u]);
      r := Ok(token);
    }

    /** `resetPassword(token, password, confirmPassword)` at time `now`:
        returns the user whose token is signed. */
    method ResetPassword(token: Option<string>, password: Option<string>, confirmPassword: Option<string>, now: int) returns (r: Res<Id>)
      requires Valid()
      modifies this
      ensures Valid() && released == old(released)
      ensures var check := Users.ResetPasswordCheck(old(State()), token, password, confirmPassword, now, sha256, validEmail);
        && r == check
        && (check.Err? ==> State() == old(State()))
        && (check.Ok? ==>
              State() == old(State()).(users := old(users)[check.value := Users.AfterReset(old(users)[check.value], password.value, hash)]))
    {
      r := Users.ResetPasswordCheck(State(), token, password, confirmPassword, now, sha256, validEmail);
      if r.Err? {
        return;
      }
      ghost var before := State();
      var id := r.value;
      var u := Users.AfterReset(users[id], password.value, hash);
      ReplaceUserKeepsConsistent(before, slugify, id, u);
      users := users[id := u];
      assert State() == before.(users := before.users[id := u]);
    }
  }
}
