/** validators/courseValidators.js: the guard chains for creating and
    patching a course. They are also the rules by which the store creates and
    updates courses, since models/Course.js has no `createCourse` or
    `updateCourse` static of its own. */
module CourseValidator {
  import opened Wrappers
  import opened Errors
  import opened Entities
  import opened Courses

  const NameRequired := "You must provide name for your course."
  const CostRequired := "You must add a cost for your course and it must be over 1 and under 200."
  const DisciplineRequired := "Your course must belong to a discipline."
  const DisciplineNotFound := "No discipline found."
  const NameTaken := "The name for your course is already in use."
  const NothingToUpdate := "Nothing to update."
  const PatchNameTaken := "The name for that course is already in use."
  const PatchCostOutOfRange := "The cost must be over 1 and under 200."

  /** `validatePostCourseRequest(name, cost, disciplineSlug)`: returns the
      discipline the course will belong to. */
  function ValidatePostCourseRequest(db: Db, name: Option<string>, cost: Option<real>, disciplineSlug: Option<string>): (r: Res<Id>)
    ensures r.Ok? <==> && Supplied(name) && SuppliedNumber(cost) && CostInRange(cost.value) && Supplied(disciplineSlug)
                       && DisciplineBySlug(db, disciplineSlug.value).Some? && !CourseNameInUse(db, name.value)
    ensures r.Ok? ==> r.value in db.disciplines && db.disciplines[r.value].slug == disciplineSlug.value
    ensures !Supplied(name) ==> r == Err(Custom(NameRequired, BAD_REQUEST))
    ensures (Supplied(name) && !(SuppliedNumber(cost) && CostInRange(cost.value))) ==> r == Err(Custom(CostRequired, BAD_REQUEST))
    ensures (Supplied(name) && SuppliedNumber(cost) && CostInRange(cost.value) && !Supplied(disciplineSlug)) ==>
              r == Err(Custom(DisciplineRequired, BAD_REQUEST))
    ensures (Supplied(name) && SuppliedNumber(cost) && CostInRange(cost.value) && Supplied(disciplineSlug)
             && DisciplineBySlug(db, disciplineSlug.value).None?) ==> r == Err(Custom(DisciplineNotFound, BAD_REQUEST))
    ensures (Supplied(name) && SuppliedNumber(cost) && CostInRange(cost.value) && Supplied(disciplineSlug)
             && DisciplineBySlug(db, disciplineSlug.value).Some? && CourseNameInUse(db, name.value)) ==>
              r == Err(Custom(NameTaken, BAD_REQUEST))
  {
    if !Supplied(name) then Err(Custom(NameRequired, BAD_REQUEST))
    else if !SuppliedNumber(cost) || cost.value < 1.0 || cost.value > 200.0 then Err(Custom(CostRequired, BAD_REQUEST))
    else if !Supplied(disciplineSlug) then Err(Custom(DisciplineRequired, BAD_REQUEST))
    else
      match DisciplineBySlug(db, disciplineSlug.value)
      case None => Err(Custom(DisciplineNotFound, BAD_REQUEST))
      case Some(d) => if CourseNameInUse(db, name.value) then Err(Custom(NameTaken, BAD_REQUEST)) else Ok(d)
  }

  /** `validatePatchCourseRequest(cost, name, slug)`: returns the course found by
      its slug with only the supplied name and cost assigned, not saved. The
      name is checked against every course, the patched one included. */
  function ValidatePatchCourseRequest(db: Db, cost: Option<real>, name: Option<string>, slug: string): (r: Res<(Id, Course)>)
    ensures r.Ok? <==> && (SuppliedNumber(cost) || Supplied(name)) && CourseBySlug(db, slug).Some?
                       && (Supplied(name) ==> !CourseNameInUse(db, name.value))
                       && (SuppliedNumber(cost) ==> CostInRange(cost.value))
    ensures !SuppliedNumber(cost) && !Supplied(name) ==> r == Err(Custom(NothingToUpdate, BAD_REQUEST))
    ensures ((SuppliedNumber(cost) || Supplied(name)) && CourseBySlug(db, slug).None?) ==> r == Err(Custom(CourseNotFound, BAD_REQUEST))
    ensures ((SuppliedNumber(cost) || Supplied(name)) && CourseBySlug(db, slug).Some? && Supplied(name)
             && CourseNameInUse(db, name.value)) ==> r == Err(Custom(PatchNameTaken, BAD_REQUEST))
    ensures ((SuppliedNumber(cost) || Supplied(name)) && CourseBySlug(db, slug).Some?
             && (Supplied(name) ==> !CourseNameInUse(db, name.value))
             && SuppliedNumber(cost) && !CostInRange(cost.value)) ==> r == Err(Custom(PatchCostOutOfRange, BAD_REQUEST))
    ensures r.Ok? ==> Some(r.value.0) == CourseBySlug(db, slug)
    ensures r.Ok? ==> var (id, c) := r.value; var was := db.courses[id];
      c == was.(name := if Supplied(name) then name.value else was.name,
                   cost := if SuppliedNumber(cost) then cost.value else was.cost)
  {
    if !SuppliedNumber(cost) && !Supplied(name) then Err(Custom(NothingToUpdate, BAD_REQUEST))
    else
      match CourseBySlug(db, slug)
      case None => Err(Custom(CourseNotFound, BAD_REQUEST))
      case Some(id) =>
        if Supplied(name) && CourseNameInUse(db, name.value) then Err(Custom(PatchNameTaken, BAD_REQUEST))
        else
          var course := if Supplied(name) then db.courses[id].(name := name.value) else db.courses[id];
          if SuppliedNumber(cost) && (cost.value < 1.0 || cost.value > 200.0) then Err(Custom(PatchCostOutOfRange, BAD_REQUEST))
          else
            var course := if SuppliedNumber(cost) then course.(cost := cost.value) else course;
            Ok((id, course))
  }

  /** Renaming a course to the name it already has is refused. */
  lemma RenameToOwnNameRefused(db: Db, slug: string)
    requires CourseBySlug(db, slug).Some?
    requires db.courses[CourseBySlug(db, slug).value].name != ""
    ensures var own := db.courses[CourseBySlug(db, slug).value].name;
      forall cost :: ValidatePatchCourseRequest(db, cost, Some(own), slug) == Err(Custom(PatchNameTaken, BAD_REQUEST))
  {
  }

  /** A successful patch keeps the cost within bounds and the name unique. */
  lemma PatchKeepsCourseValid(db: Db, cost: Option<real>, name: Option<string>, slug: string)
    requires ValidatePatchCourseRequest(db, cost, name, slug).Ok?
    requires var id := ValidatePatchCourseRequest(db, cost, name, slug).value.0; CostInRange(db.courses[id].cost)
    ensures var (id, c) := ValidatePatchCourseRequest(db, cost, name, slug).value;
      && CostInRange(c.cost)
      && (c.name != db.courses[id].name ==> !CourseNameInUse(db, c.name))
  {
  }
}
