/** The pure rules of models/Discipline.js: `verifyName`, `getDiscipline`,
    the guard chains of `createDiscipline` and `updateDiscipline`, and the
    fields an update overwrites. The store operations that apply them, the
    pre-save slug and the remove cascade, live in Store.EntityStore. */
module Disciplines {
  import opened Wrappers
  import opened Errors
  import opened Entities

  const NameTaken := "The name for that discipline is already in use."
  const NameRequired := "You must add a name for your discipline."
  const NothingToUpdate := "Nothing to update."
  const NotFound := "No discipline exists with that id."

  /** `verifyName(name)`: an exact, case-sensitive match against every
      discipline's name. */
  function VerifyName(db: Db, name: string): (r: Res<()>)
    ensures r.Ok? <==> forall id :: id in db.disciplines ==> db.disciplines[id].name != name
    ensures r.Err? ==> r.error == Custom(NameTaken, BAD_REQUEST)
  {
    if DisciplineNameInUse(db, name) then Err(Custom(NameTaken, BAD_REQUEST)) else Ok(())
  }

  /** `getDiscipline(slug)`: the first discipline, in insertion order, with
      that slug. */
  function GetDiscipline(db: Db, slug: string): (r: Res<Id>)
    ensures r.Ok? ==> r.value in db.disciplines && db.disciplines[r.value].slug == slug
    ensures r.Ok? ==> forall k :: k in db.disciplines && k < r.value ==> db.disciplines[k].slug != slug
    ensures r.Err? ==> r.error == Custom(NotFound, BAD_REQUEST)
    ensures AllKeysBelow(db) ==> (r.Err? <==> forall k :: k in db.disciplines ==> db.disciplines[k].slug != slug)
  {
    match DisciplineBySlug(db, slug)
    case Some(id) => Ok(id)
    case None => Err(Custom(NotFound, BAD_REQUEST))
  }

  /** When two disciplines share a slug (nothing stops two different names
      from slugifying alike), the later one is never found by its slug. */
  lemma LaterSlugTwinUnreachable(db: Db, i: Id, j: Id)
    requires i in db.disciplines && j in db.disciplines && i < j
    requires db.disciplines[i].slug == db.disciplines[j].slug
    ensures GetDiscipline(db, db.disciplines[j].slug) != Ok(j)
  {
  }

  /** The checks of `createDiscipline` (lines 72-73). */
  function CreateDisciplineCheck(db: Db, name: Option<string>): (r: Res<()>)
    ensures r.Ok? <==> Supplied(name) && !DisciplineNameInUse(db, name.value)
    ensures !Supplied(name) ==> r == Err(Custom(NameRequired, BAD_REQUEST))
    ensures Supplied(name) && DisciplineNameInUse(db, name.value) ==> r == Err(Custom(NameTaken, BAD_REQUEST))
  {
    if !Supplied(name) then Err(Custom(NameRequired, BAD_REQUEST)) else VerifyName(db, name.value)
  }

  /** The checks of `updateDiscipline` (lines 82-86): something to update, then
      the lookup, then a supplied name against every discipline, the updated
      one included. On success, the discipline to update. */
  function UpdateDisciplineCheck(db: Db, slug: string, name: Option<string>, imageUrl: Option<string>): (r: Res<Id>)
    ensures r.Ok? <==> (Supplied(name) || Supplied(imageUrl)) && DisciplineBySlug(db, slug).Some?
                       && (Supplied(name) ==> !DisciplineNameInUse(db, name.value))
    ensures r.Ok? ==> Some(r.value) == DisciplineBySlug(db, slug)
    ensures !Supplied(name) && !Supplied(imageUrl) ==> r == Err(Custom(NothingToUpdate, BAD_REQUEST))
    ensures (Supplied(name) || Supplied(imageUrl)) && DisciplineBySlug(db, slug).None? ==> r == Err(Custom(NotFound, BAD_REQUEST))
    ensures ((Supplied(name) || Supplied(imageUrl)) && DisciplineBySlug(db, slug).Some? && Supplied(name)
             && DisciplineNameInUse(db, name.value)) ==> r == Err(Custom(NameTaken, BAD_REQUEST))
  {
    if !Supplied(name) && !Supplied(imageUrl) then Err(Custom(NothingToUpdate, BAD_REQUEST))
    else
      var id :- GetDiscipline(db, slug);
      var _ :- if Supplied(name) then VerifyName(db, name.value) else Ok(());
      Ok(id)
  }

  /** Renaming a discipline to the name it already has is refused. */
  lemma RenameToOwnNameRefused(db: Db, slug: string)
    requires DisciplineBySlug(db, slug).Some?
    requires db.disciplines[DisciplineBySlug(db, slug).value].name != ""
    ensures var own := db.disciplines[DisciplineBySlug(db, slug).value].name;
      forall image :: UpdateDisciplineCheck(db, slug, Some(own), image) == Err(Custom(NameTaken, BAD_REQUEST))
  {
  }

  /** `if (name) discipline.name = name; if (imageUrl) discipline.imageUrl = imageUrl`:
      only the supplied fields change (the slug is re-derived on save). */
  function ApplyPatch(d: Discipline, name: Option<string>, imageUrl: Option<string>): (r: Discipline)
    ensures r.slug == d.slug && r.user == d.user
    ensures r.name == (if Supplied(name) then name.value else d.name)
    ensures r.imageUrl == (if Supplied(imageUrl) then imageUrl else d.imageUrl)
  {
    var d := if Supplied(name) then d.(name := name.value) else d;
    if Supplied(imageUrl) then d.(imageUrl := imageUrl) else d
  }

  /** What the unique index and the pre-save hook keep true of every stored
      discipline: names unique, slug derived from the current name. */
  ghost predicate DisciplinesWellFormed(db: Db, slugify: string -> string) {
    && (forall id :: id in db.disciplines ==> db.disciplines[id].slug == slugify(db.disciplines[id].name))
    && (forall i, j :: i in db.disciplines && j in db.disciplines && i != j ==>
          db.disciplines[i].name != db.disciplines[j].name)
  }
}
