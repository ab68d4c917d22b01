/** models/Course.js: the course schema (required name, unique name, required
    discipline and user, cost from 1 to 200) and the slug lookup the other
    models call. The file defines no `getCourse` static although
    models/Review.js calls one; it is modelled as the slug lookup that the
    course controller and validators/courseValidators.js perform. */
module Courses {
  import opened Wrappers
  import opened Errors
  import opened Entities

  const CourseNotFound := "No course found for your request."
  const MinCost := 1.0
  const MaxCost := 200.0

  /** The schema's `min` and `max` on `cost`. */
  predicate CostInRange(cost: real) {
    MinCost <= cost <= MaxCost
  }

  /** Lookup by slug: the first course, in insertion order, with that slug. */
  function GetCourse(db: Db, slug: string): (r: Res<Id>)
    ensures r.Ok? ==> r.value in db.courses && db.courses[r.value].slug == slug
    ensures r.Ok? ==> forall k :: k in db.courses && k < r.value ==> db.courses[k].slug != slug
    ensures r.Err? ==> r.error == Custom(CourseNotFound, BAD_REQUEST)
    ensures AllKeysBelow(db) ==> (r.Err? <==> forall k :: k in db.courses ==> db.courses[k].slug != slug)
  {
    match CourseBySlug(db, slug)
    case Some(id) => Ok(id)
    case None => Err(Custom(CourseNotFound, BAD_REQUEST))
  }

  /** What the schema and the pre-save hook keep true of every stored course:
      cost within bounds, an existing discipline, the slug derived from the
      current name (line 39), and names unique across all courses (line 10). */
  ghost predicate CoursesWellFormed(db: Db, slugify: string -> string) {
    && (forall id :: id in db.courses ==>
          && CostInRange(db.courses[id].cost)
          && db.courses[id].discipline in db.disciplines
          && db.courses[id].slug == slugify(db.courses[id].name))
    && (forall i, j :: i in db.courses && j in db.courses && i != j ==> db.courses[i].name != db.courses[j].name)
  }
}
