/** The pure rules of models/User.js: the password policy, the schema limits,
    and the guard chains of `createUser`, `loginUser`, `deleteUser`,
    `updateProfile`, `processPasswordResetRequest` and `resetPassword`. The
    writes those statics make are methods of Store.EntityStore.

    bcrypt, SHA-256 and the email regex are parameters: `hash` and `compare`
    stand for bcrypt, `sha256` for the hex digest, `validEmail` for the
    regex. */
module Users {
  import opened Wrappers
  import opened Errors
  import opened Entities

  const PasswordsDiffer := "Passwords should match."
  const EmailAndNameRequired := "You must provide an email and name."
  const InvalidEmail := "Must submit a valid email address."
  const WeakPassword := "Passwords must contain at least 6 characters and should contain an uppercase, lowercase and numeric value."
  const EmailTaken := "Email address is already in use."
  const CredentialsRequired := "Please provide an email and password."
  const InvalidCredentials := "Invalid credentials."
  const NoSuchUser := "No such user exists."
  const NotAuthorizedToDelete := "Not authorized to delete this profile."
  const NothingToUpdate := "There is nothing to update."
  const ProfileEmailTaken := "That email address is already in use"
  const EmailRequired := "You must supply an email."
  const UnknownEmail := "There is no user with that email."
  const InvalidRequest := "Invalid request."

  /** The message Mongoose composes for a failed schema validation. */
  const SchemaMessage := "User validation failed"

  const MinNameLength := 2
  const MaxNameLength := 50
  const MaxPasswordLength := 100

  /** `Date.now() + 10 * 60 * 1000`: a reset token lives ten minutes. */
  const ResetWindow := 600000

  predicate IsLower(c: char) { 'a' <= c <= 'z' }
  predicate IsUpper(c: char) { 'A' <= c <= 'Z' }
  predicate IsDigit(c: char) { '0' <= c <= '9' }

  /** `/^(?=.*[a-z])(?=.*[A-Z])(?=.*\d)[a-zA-Z\d]{6,}$/`: ASCII letters and
      digits only, at least six of them, with a lowercase letter, an uppercase
      letter and a digit among them. */
  predicate PasswordPolicy(p: string) {
    && |p| >= 6
    && (forall i :: 0 <= i < |p| ==> IsLower(p[i]) || IsUpper(p[i]) || IsDigit(p[i]))
    && (exists i :: 0 <= i < |p| && IsLower(p[i]))
    && (exists i :: 0 <= i < |p| && IsUpper(p[i]))
    && (exists i :: 0 <= i < |p| && IsDigit(p[i]))
  }

  /** `regex.test(password)` coerces a missing password to "undefined". */
  function RegexInput(p: Option<string>): (r: string)
    ensures p.Some? ==> r == p.value
  {
    if p.None? then "undefined" else p.value
  }

  /** A missing password never passes the policy: "undefined" has no
      uppercase letter. */
  lemma MissingPasswordFailsPolicy()
    ensures !PasswordPolicy(RegexInput(None))
  {
    var s := RegexInput(None);
    assert s == "undefined";
    forall i | 0 <= i < |s| ensures !IsUpper(s[i]) {
      assert s[i] in "undefined";
    }
  }

  /** The schema limits `createUser` and `resetPassword` still enforce after
      their own checks (a password that passed the policy is at least six
      characters, and the email passed `validEmail`): name length and the
      100-character password bound, on the plaintext password. */
  predicate SchemaAccepts(u: User, plainPassword: string, validEmail: string -> bool) {
    && MinNameLength <= |u.name| <= MaxNameLength
    && validEmail(u.email)
    && 0 < |plainPassword| <= MaxPasswordLength
  }

  /** A failed schema validation as the User statics rethrow it: a plain
      error with no statusCode, which the handler turns into a 500. */
  const SchemaFailure := Rewrap(Error(ValidationError, None, Some(SchemaMessage)))

  /** Unique emails, as the unique index and the guards below keep them. */
  ghost predicate UsersWellFormed(db: Db) {
    forall i, j :: i in db.users && j in db.users && i != j ==> db.users[i].email != db.users[j].email
  }

  /** `createUser` (lines 161-187): on success, the record `create` stores,
      with the default role and the password hashed by the pre-save hook. */
  function CreateUserCheck(db: Db, email: Option<string>, name: Option<string>, password: Option<string>,
                           confirmPassword: Option<string>, imageUrl: Option<string>,
                           validEmail: string -> bool, hash: string -> string): (r: Res<User>)
    ensures r.Ok? <==> && password == confirmPassword && Supplied(email) && Supplied(name)
                       && validEmail(email.value) && PasswordPolicy(RegexInput(password))
                       && !EmailInUse(db, email.value)
                       && MinNameLength <= |name.value| <= MaxNameLength && |password.value| <= MaxPasswordLength
    ensures r.Ok? ==> r.value == User(name.value, email.value, hash(password.value), UserRole, imageUrl, None, None)
    ensures password != confirmPassword ==> r == Err(Custom(PasswordsDiffer, BAD_REQUEST))
    ensures password == confirmPassword && !(Supplied(email) && Supplied(name)) ==>
              r == Err(Custom(EmailAndNameRequired, BAD_REQUEST))
    ensures (password == confirmPassword && Supplied(email) && Supplied(name) && !validEmail(email.value)) ==>
              r == Err(Custom(InvalidEmail, BAD_REQUEST))
    ensures (password == confirmPassword && Supplied(email) && Supplied(name) && validEmail(email.value)
             && !PasswordPolicy(RegexInput(password))) ==> r == Err(Custom(WeakPassword, BAD_REQUEST))
    ensures (password == confirmPassword && Supplied(email) && Supplied(name) && validEmail(email.value)
             && PasswordPolicy(RegexInput(password)) && EmailInUse(db, email.value)) ==>
              r == Err(Custom(EmailTaken, BAD_REQUEST))
    ensures r.Err? && r.error.statusCode.None? ==> r.error == SchemaFailure
  {
    if password != confirmPassword then Err(Custom(PasswordsDiffer, BAD_REQUEST))
    else if !Supplied(email) || !Supplied(name) then Err(Custom(EmailAndNameRequired, BAD_REQUEST))
    else if !validEmail(email.value) then Err(Custom(InvalidEmail, BAD_REQUEST))
    else if !PasswordPolicy(RegexInput(password)) then Err(Custom(WeakPassword, BAD_REQUEST))
    else if EmailInUse(db, email.value) then Err(Custom(EmailTaken, BAD_REQUEST))
    else
      var u := User(name.value, email.value, hash(password.value), UserRole, imageUrl, None, None);
      if !SchemaAccepts(u, password.value, validEmail) then Err(SchemaFailure)
      else Ok(u)
  }

  /** `loginUser` (lines 139-151): the id whose token is signed. */
  function LoginUser(db: Db, email: Option<string>, password: Option<string>,
                     compare: (string, string) -> bool): (r: Res<Id>)
    ensures r.Ok? <==> && Supplied(email) && Supplied(password) && UserByEmail(db, email.value).Some?
                       && compare(password.value, db.users[UserByEmail(db, email.value).value].password)
    ensures r.Ok? ==> Some(r.value) == UserByEmail(db, email.value)
    ensures !(Supplied(email) && Supplied(password)) ==> r == Err(Custom(CredentialsRequired, BAD_REQUEST))
    ensures Supplied(email) && Supplied(password) && r.Err? ==> r == Err(Custom(InvalidCredentials, BAD_REQUEST))
  {
    if !Supplied(email) || !Supplied(password) then Err(Custom(CredentialsRequired, BAD_REQUEST))
    else
      match UserByEmail(db, email.value)
      case None => Err(Custom(InvalidCredentials, BAD_REQUEST))
      case Some(id) =>
        if !compare(password.value, db.users[id].password) then Err(Custom(InvalidCredentials, BAD_REQUEST))
        else Ok(id)
  }

  /** With unique emails, the user that signs up can log in with the password
      they signed up with, and gets their own id. */
  lemma SignupThenLogin(db: Db, email: Option<string>, name: Option<string>, password: Option<string>,
                        imageUrl: Option<string>, validEmail: string -> bool, hash: string -> string,
                        compare: (string, string) -> bool)
    requires AllKeysBelow(db)
    requires forall p :: compare(p, hash(p))
    requires CreateUserCheck(db, email, name, password, password, imageUrl, validEmail, hash).Ok?
    ensures var u := CreateUserCheck(db, email, name, password, password, imageUrl, validEmail, hash).value;
      var after := db.(users := db.users[db.nextId := u], nextId := db.nextId + 1);
      LoginUser(after, email, password, compare) == Ok(db.nextId)
  {
    var u := CreateUserCheck(db, email, name, password, password, imageUrl, validEmail, hash).value;
    var after := db.(users := db.users[db.nextId := u], nextId := db.nextId + 1);
    forall j | j in after.users && j != db.nextId ensures after.users[j].email != email.value {
      assert j in db.users;
    }
    FindFirstUnique(after.users, (v: User) => v.email == email.value, after.nextId, db.nextId);
    assert compare(password.value, hash(password.value));
  }

  /** `deleteUser` (lines 198-208): the user to remove. */
  function DeleteUserCheck(db: Db, caller: Principal, userId: IdParam): (r: Res<Id>)
    ensures r.Ok? <==> && userId.ObjectId? && userId.id in db.users
                       && (caller.id == userId.id || caller.role == AdminRole)
    ensures r.Ok? ==> r.value == userId.id
    ensures !(userId.ObjectId? && userId.id in db.users) ==> r == Err(Custom(NoSuchUser, BAD_REQUEST))
    ensures (userId.ObjectId? && userId.id in db.users && caller.id != userId.id && caller.role != AdminRole) ==>
              r == Err(Custom(NotAuthorizedToDelete, UNAUTHORIZED))
  {
    if userId.Malformed? || userId.id !in db.users then Err(Custom(NoSuchUser, BAD_REQUEST))
    else if caller.id != userId.id && caller.role != AdminRole then Err(Custom(NotAuthorizedToDelete, UNAUTHORIZED))
    else Ok(userId.id)
  }

  /** `updateProfile` (lines 225-257) on the logged-in user `me`: the record
      saved, with only the supplied fields overwritten and a supplied password
      hashed. It is saved without validation. */
  function ProfileUpdate(db: Db, me: Id, email: Option<string>, name: Option<string>, password: Option<string>,
                         confirmPassword: Option<string>, imageUrl: Option<string>, hash: string -> string): (r: Res<User>)
    requires me in db.users
    ensures r.Ok? <==> && (Supplied(email) || Supplied(password) || Supplied(name) || Supplied(imageUrl))
                       && (Supplied(email) ==> !EmailInUse(db, email.value))
                       && (Supplied(password) ==> password == confirmPassword)
    ensures !(Supplied(email) || Supplied(password) || Supplied(name) || Supplied(imageUrl)) ==>
              r == Err(Custom(NothingToUpdate, BAD_REQUEST))
    ensures Supplied(email) && EmailInUse(db, email.value) ==> r == Err(Custom(ProfileEmailTaken, BAD_REQUEST))
    ensures (Supplied(email) ==> !EmailInUse(db, email.value)) && Supplied(password) && password != confirmPassword ==>
              r == Err(Custom(PasswordsDiffer, BAD_REQUEST))
    ensures r.Ok? ==> var was := db.users[me];
      && r.value.email == (if Supplied(email) then email.value else was.email)
      && r.value.name == (if Supplied(name) then name.value else was.name)
      && r.value.password == (if Supplied(password) then hash(password.value) else was.password)
      && r.value.imageUrl == (if Supplied(imageUrl) then imageUrl else was.imageUrl)
      && r.value.role == was.role && r.value.resetToken == was.resetToken
      && r.value.resetTokenExpiration == was.resetTokenExpiration
  {
    if !Supplied(email) && !Supplied(password) && !Supplied(name) && !Supplied(imageUrl) then
      Err(Custom(NothingToUpdate, BAD_REQUEST))
    else if Supplied(email) && EmailInUse(db, email.value) then Err(Custom(ProfileEmailTaken, BAD_REQUEST))
    else if Supplied(password) && password != confirmPassword then Err(Custom(PasswordsDiffer, BAD_REQUEST))
    else
      var u := db.users[me];
      var u := if Supplied(email) then u.(email := email.value) else u;
      var u := if Supplied(name) then u.(name := name.value) else u;
      var u := if Supplied(password) then u.(password := hash(password.value)) else u;
      var u := if Supplied(imageUrl) then u.(imageUrl := imageUrl) else u;
      Ok(u)
  }

  /** Submitting one's own current email is refused: the lookup finds the user
      themselves. */
  lemma OwnEmailRefused(db: Db, me: Id, name: Option<string>, password: Option<string>,
                        confirmPassword: Option<string>, imageUrl: Option<string>, hash: string -> string)
    requires me in db.users && db.users[me].email != ""
    ensures ProfileUpdate(db, me, Some(db.users[me].email), name, password, confirmPassword, imageUrl, hash)
            == Err(Custom(ProfileEmailTaken, BAD_REQUEST))
  {
  }

  /** Since the profile is saved without validation, a password the policy
      rejects is stored all the same. */
  lemma ProfileUpdateSkipsPolicy(db: Db, me: Id, hash: string -> string)
    requires me in db.users
    ensures !PasswordPolicy("a")
    ensures ProfileUpdate(db, me, None, None, Some("a"), Some("a"), None, hash).Ok?
  {
  }

  /** Updating a profile keeps emails unique. */
  lemma ProfileUpdateKeepsEmailsUnique(db: Db, me: Id, email: Option<string>, name: Option<string>,
                                       password: Option<string>, confirmPassword: Option<string>,
                                       imageUrl: Option<string>, hash: string -> string)
    requires me in db.users && UsersWellFormed(db)
    requires ProfileUpdate(db, me, email, name, password, confirmPassword, imageUrl, hash).Ok?
    ensures UsersWellFormed(db.(users := db.users[me := ProfileUpdate(db, me, email, name, password, confirmPassword, imageUrl, hash).value]))
  {
  }

  /** `processPasswordResetRequest` (lines 81-87): the user whose reset fields
      are set. */
  function ResetRequestCheck(db: Db, email: Option<string>): (r: Res<Id>)
    ensures r.Ok? <==> Supplied(email) && UserByEmail(db, email.value).Some?
    ensures r.Ok? ==> Some(r.value) == UserByEmail(db, email.value)
    ensures !Supplied(email) ==> r == Err(Custom(EmailRequired, BAD_REQUEST))
    ensures Supplied(email) && r.Err? ==> r == Err(Custom(UnknownEmail, BAD_REQUEST))
    ensures AllKeysBelow(db) ==> (r.Ok? <==> Supplied(email) && EmailInUse(db, email.value))
  {
    if !Supplied(email) then Err(Custom(EmailRequired, BAD_REQUEST))
    else
      match UserByEmail(db, email.value)
      case None => Err(Custom(UnknownEmail, BAD_REQUEST))
      case Some(id) => Ok(id)
  }

  /** The user record after a reset request at time `now` with the random
      token `token`: the digest is stored, never the token. */
  function WithResetToken(u: User, token: string, now: int, sha256: string -> string): (r: User)
    ensures r.resetToken == Some(sha256(token)) && r.resetTokenExpiration == Some(now + ResetWindow)
    ensures r.(resetToken := u.resetToken, resetTokenExpiration := u.resetTokenExpiration) == u
  {
    u.(resetToken := Some(sha256(token)), resetTokenExpiration := Some(now + ResetWindow))
  }

  /** `findOne({ resetToken, resetTokenExpiration: { $gt: now } })`. */
  predicate HoldsLiveToken(u: User, digest: string, now: int) {
    u.resetToken == Some(digest) && u.resetTokenExpiration.Some? && u.resetTokenExpiration.value > now
  }

  /** `resetPassword` (lines 107-128): the user whose password is reset. */
  function ResetPasswordCheck(db: Db, token: Option<string>, password: Option<string>, confirmPassword: Option<string>,
                              now: int, sha256: string -> string, validEmail: string -> bool): (r: Res<Id>)
    ensures r.Ok? ==> && Supplied(token) && Supplied(password) && password == confirmPassword
                      && PasswordPolicy(password.value) && r.value in db.users
                      && HoldsLiveToken(db.users[r.value], sha256(token.value), now)
                      && SchemaAccepts(db.users[r.value], password.value, validEmail)
    ensures r.Ok? ==> forall j :: j in db.users && j < r.value ==> !HoldsLiveToken(db.users[j], sha256(token.value), now)
    ensures !(Supplied(token) && Supplied(password)) ==> r == Err(Custom(InvalidRequest, BAD_REQUEST))
    ensures Supplied(token) && Supplied(password) && password != confirmPassword ==>
              r == Err(Custom(PasswordsDiffer, BAD_REQUEST))
    ensures (Supplied(token) && Supplied(password) && password == confirmPassword && !PasswordPolicy(password.value)) ==>
              r == Err(Custom(WeakPassword, BAD_REQUEST))
    ensures (AllKeysBelow(db) && Supplied(token) && Supplied(password) && password == confirmPassword
             && PasswordPolicy(password.value)
             && (forall j :: j in db.users ==> !HoldsLiveToken(db.users[j], sha256(token.value), now))) ==>
              r == Err(Custom(InvalidRequest, UNAUTHORIZED))
  {
    if !Supplied(token) || !Supplied(password) then Err(Custom(InvalidRequest, BAD_REQUEST))
    else if password != confirmPassword then Err(Custom(PasswordsDiffer, BAD_REQUEST))
    else if !PasswordPolicy(password.value) then Err(Custom(WeakPassword, BAD_REQUEST))
    else
      var digest := sha256(token.value);
      match FindFirst(db.users, (u: User) => HoldsLiveToken(u, digest, now), db.nextId)
      case None => Err(Custom(InvalidRequest, UNAUTHORIZED))
      case Some(id) =>
        if !SchemaAccepts(db.users[id], password.value, validEmail) then Err(SchemaFailure)
        else Ok(id)
  }

  /** The record `resetPassword` saves: new password hashed, both reset
      fields cleared, nothing else changed. */
  function AfterReset(u: User, password: string, hash: string -> string): (r: User)
    ensures r.password == hash(password) && r.resetToken.None? && r.resetTokenExpiration.None?
    ensures r.name == u.name && r.email == u.email && r.role == u.role && r.imageUrl == u.imageUrl
  {
    u.(password := hash(password), resetToken := None, resetTokenExpiration := None)
  }

  /** A token stops working once it has expired: ten minutes after the
      request, the user who asked for it can no longer be reset with it. */
  lemma TokenExpires(db: Db, id: Id, token: string, issued: int, now: int, password: Option<string>,
                     confirmPassword: Option<string>, sha256: string -> string, validEmail: string -> bool)
    requires id in db.users
    requires db.users[id] == WithResetToken(db.users[id], token, issued, sha256)
    requires now >= issued + ResetWindow
    ensures ResetPasswordCheck(db, Some(token), password, confirmPassword, now, sha256, validEmail) != Ok(id)
  {
  }

  /** Before it expires, a token resets the user who requested it, as long
      as the request is well-formed, their record still passes the schema,
      and no earlier user holds the same live digest. */
  lemma TokenWorksInWindow(db: Db, id: Id, token: string, issued: int, now: int, password: string,
                           sha256: string -> string, validEmail: string -> bool)
    requires AllKeysBelow(db) && id in db.users && token != "" && password != ""
    requires db.users[id] == WithResetToken(db.users[id], token, issued, sha256)
    requires now < issued + ResetWindow
    requires PasswordPolicy(password) && SchemaAccepts(db.users[id], password, validEmail)
    requires forall j :: j in db.users && j < id ==> !HoldsLiveToken(db.users[j], sha256(token), now)
    ensures ResetPasswordCheck(db, Some(token), Some(password), Some(password), now, sha256, validEmail) == Ok(id)
  {
    var p := (u: User) => HoldsLiveToken(u, sha256(token), now);
    FindFirstComplete(db.users, p, db.nextId, id);
  }

  /** A token resets a password once: after the reset, the same token can
      never again reset that user. */
  lemma TokenSingleUse(db: Db, token: Option<string>, password: Option<string>, now: int, later: int,
                       again: Option<string>, hash: string -> string, sha256: string -> string,
                       validEmail: string -> bool)
    requires ResetPasswordCheck(db, token, password, password, now, sha256, validEmail).Ok?
    ensures var id := ResetPasswordCheck(db, token, password, password, now, sha256, validEmail).value;
      var after := db.(users := db.users[id := AfterReset(db.users[id], password.value, hash)]);
      ResetPasswordCheck(after, token, again, again, later, sha256, validEmail) != Ok(id)
  {
  }
}
