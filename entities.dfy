/** The four record types of the service (User, Discipline, Course,
    Review), a snapshot of the whole store, the JavaScript truthiness tests the
    guards use, and Mongo's `findOne` as a search in insertion order. */
module Entities {
  import opened Wrappers

  /** Record ids. Ids are handed out in creation order, so ascending id order
      is insertion order (Mongo's natural order) and creation-time order. */
  type Id = nat

  /** An id as it arrives in a request: either text that `isValidObjectId`
      accepts, naming the id, or text it rejects. */
  datatype IdParam = ObjectId(id: Id) | Malformed

  /** The `role` enum of models/User.js; 'user' is the default. */
  datatype Role = AdminRole | UserRole

  /** `req.user`, the logged-in user as the authentication middleware loaded it. */
  datatype Principal = Principal(id: Id, role: Role)

  /** `password` holds the hash, never the plaintext. */
  datatype User = User(
    name: string,
    email: string,
    password: string,
    role: Role,
    imageUrl: Option<string>,
    resetToken: Option<string>,
    resetTokenExpiration: Option<int>)

  datatype Discipline = Discipline(name: string, slug: string, user: Id, imageUrl: Option<string>)

  /** `averageRating` is derived from the course's reviews; None is `null`. */
  datatype Course = Course(
    name: string,
    slug: string,
    discipline: Id,
    user: Id,
    cost: real,
    averageRating: Option<real>)

  datatype Review = Review(comment: string, rating: int, user: Id, course: Id)

  /** The contents of the store; every key of every map is below `nextId`. */
  datatype Db = Db(
    users: map<Id, User>,
    disciplines: map<Id, Discipline>,
    courses: map<Id, Course>,
    reviews: map<Id, Review>,
    nextId: Id)

  /** JavaScript truthiness of an optional string: undefined and "" are falsy. */
  predicate Supplied(s: Option<string>) {
    s.Some? && s.value != ""
  }

  /** JavaScript truthiness of an optional number: undefined and 0 are falsy. */
  predicate SuppliedNumber(x: Option<real>) {
    x.Some? && x.value != 0.0
  }

  predicate KeysBelow<T>(m: map<Id, T>, n: nat) {
    forall id :: id in m ==> id < n
  }

  /** `findOne(filter)`: the first record, in id order, below `n` that `p`
      accepts. */
  function FindFirst<T>(m: map<Id, T>, p: T -> bool, n: nat): (r: Option<Id>)
    ensures r.Some? ==> r.value < n && r.value in m && p(m[r.value])
    ensures r.Some? ==> forall j :: j < r.value && j in m ==> !p(m[j])
    ensures r.None? ==> forall j :: j < n && j in m ==> !p(m[j])
  {
    if n == 0 then None
    else
      match FindFirst(m, p, n - 1)
      case Some(k) => Some(k)
      case None => if n - 1 in m && p(m[n - 1]) then Some(n - 1) else None
  }

  /** With all keys below `n`, `FindFirst` fails only when no record matches. */
  lemma FindFirstComplete<T>(m: map<Id, T>, p: T -> bool, n: nat, id: Id)
    requires KeysBelow(m, n) && id in m && p(m[id])
    ensures FindFirst(m, p, n).Some? && FindFirst(m, p, n).value <= id
  {
  }

  /** The first match is the only one when no other record matches. */
  lemma FindFirstUnique<T>(m: map<Id, T>, p: T -> bool, n: nat, id: Id)
    requires KeysBelow(m, n) && id in m && p(m[id])
    requires forall j :: j in m && j != id ==> !p(m[j])
    ensures FindFirst(m, p, n) == Some(id)
  {
  }

  predicate AllKeysBelow(db: Db) {
    && KeysBelow(db.users, db.nextId)
    && KeysBelow(db.disciplines, db.nextId)
    && KeysBelow(db.courses, db.nextId)
    && KeysBelow(db.reviews, db.nextId)
  }

  // Lookups shared by the models and the validators.

  /** `Discipline.findOne({ slug })`. */
  function DisciplineBySlug(db: Db, slug: string): (r: Option<Id>)
    ensures r.Some? ==> r.value in db.disciplines && db.disciplines[r.value].slug == slug
  {
    FindFirst(db.disciplines, (d: Discipline) => d.slug == slug, db.nextId)
  }

  /** `Course.findOne({ slug })`. */
  function CourseBySlug(db: Db, slug: string): (r: Option<Id>)
    ensures r.Some? ==> r.value in db.courses && db.courses[r.value].slug == slug
  {
    FindFirst(db.courses, (c: Course) => c.slug == slug, db.nextId)
  }

  /** `User.findOne({ email })`. */
  function UserByEmail(db: Db, email: string): (r: Option<Id>)
    ensures r.Some? ==> r.value in db.users && db.users[r.value].email == email
  {
    FindFirst(db.users, (u: User) => u.email == email, db.nextId)
  }

  /** `Discipline.findOne({ name })` found something. */
  predicate DisciplineNameInUse(db: Db, name: string) {
    exists id :: id in db.disciplines && db.disciplines[id].name == name
  }

  /** `Course.findOne({ name })` found something. */
  predicate CourseNameInUse(db: Db, name: string) {
    exists id :: id in db.courses && db.courses[id].name == name
  }

  /** `User.findOne({ email })` found something. */
  predicate EmailInUse(db: Db, email: string) {
    exists id :: id in db.users && db.users[id].email == email
  }

  /** `Review.findOne({ user, course })` found something. */
  predicate ReviewExists(db: Db, user: Id, course: Id) {
    exists id :: id in db.reviews && db.reviews[id].user == user && db.reviews[id].course == course
  }
}
