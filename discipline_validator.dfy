/** validators/disciplineValidator.js: the guard chains the discipline
    controller can run before it writes. */
module DisciplineValidator {
  import opened Wrappers
  import opened Errors
  import opened Entities
  import opened Disciplines

  /** `validatePostDisciplineRequest(name)`. */
  function ValidatePostDisciplineRequest(db: Db, name: Option<string>): (r: Res<()>)
    ensures !Supplied(name) ==> r == Err(Custom(NameRequired, BAD_REQUEST))
    ensures Supplied(name) ==> (r.Ok? <==> forall id :: id in db.disciplines ==> db.disciplines[id].name != name.value)
    ensures r.Err? ==> r.error.statusCode == Some(BAD_REQUEST)
  {
    if !Supplied(name) then Err(Custom(NameRequired, BAD_REQUEST))
    else if DisciplineNameInUse(db, name.value) then Err(Custom(NameTaken, BAD_REQUEST))
    else Ok(())
  }

  /** The validator and `createDiscipline` agree on every request. */
  lemma PostValidatorAgreesWithCreate(db: Db, name: Option<string>)
    ensures ValidatePostDisciplineRequest(db, name) == CreateDisciplineCheck(db, name)
  {
  }

  /** `validatePatchDisciplineRequest(req, slug, name)`, with `file` the path of
      the uploaded file, if any. The name is checked before the lookup; an
      absent name is taken to match no discipline. Returns the discipline with
      only the supplied name and image path assigned, not saved. */
  function ValidatePatchDisciplineRequest(db: Db, slug: string, name: Option<string>, file: Option<string>): (r: Res<(Id, Discipline)>)
    ensures !Supplied(name) && file.None? ==> r == Err(Custom(NothingToUpdate, BAD_REQUEST))
    ensures ((Supplied(name) || file.Some?) && name.Some? && DisciplineNameInUse(db, name.value)) ==>
              r == Err(Custom(NameTaken, BAD_REQUEST))
    ensures ((Supplied(name) || file.Some?) && !(name.Some? && DisciplineNameInUse(db, name.value))
             && DisciplineBySlug(db, slug).None?) ==> r == Err(Custom(NotFound, BAD_REQUEST))
    ensures r.Ok? ==> && Some(r.value.0) == DisciplineBySlug(db, slug)
                      && r.value.1 == ApplyPatch(db.disciplines[r.value.0], name, file)
  {
    if !Supplied(name) && file.None? then Err(Custom(NothingToUpdate, BAD_REQUEST))
    else if name.Some? && DisciplineNameInUse(db, name.value) then Err(Custom(NameTaken, BAD_REQUEST))
    else
      match DisciplineBySlug(db, slug)
      case None => Err(Custom(NotFound, BAD_REQUEST))
      case Some(id) =>
        var d := if Supplied(name) then db.disciplines[id].(name := name.value) else db.disciplines[id];
        var d := if file.Some? && file.value != "" then d.(imageUrl := file) else d;
        Ok((id, d))
  }

  /** The validator checks the name before the lookup, `updateDiscipline` after
      it: for an unknown slug and a taken name they report different errors. */
  lemma PatchCheckOrderDiffers(db: Db, slug: string, name: string)
    requires name != "" && DisciplineNameInUse(db, name) && DisciplineBySlug(db, slug).None?
    ensures ValidatePatchDisciplineRequest(db, slug, Some(name), None) == Err(Custom(NameTaken, BAD_REQUEST))
    ensures UpdateDisciplineCheck(db, slug, Some(name), None) == Err(Custom(NotFound, BAD_REQUEST))
  {
  }
}
