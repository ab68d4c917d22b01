/** validators/authValidator.js: the guard chains the auth controller can run
    before it calls the User statics. */
module AuthValidator {
  import opened Wrappers
  import opened Errors
  import opened Entities
  import opened Users

  const ProfileRequired := "Must choose a profile to delete."

  /** `validateSignupRequest` (lines 7-17). */
  function ValidateSignupRequest(db: Db, email: Option<string>, name: Option<string>, password: Option<string>,
                                 confirmPassword: Option<string>): (r: Res<()>)
    ensures r.Ok? <==> password == confirmPassword && Supplied(email) && Supplied(name) && !EmailInUse(db, email.value)
    ensures password != confirmPassword ==> r == Err(Custom(PasswordsDiffer, BAD_REQUEST))
    ensures password == confirmPassword && !(Supplied(email) && Supplied(name)) ==>
              r == Err(Custom(EmailAndNameRequired, BAD_REQUEST))
    ensures (password == confirmPassword && Supplied(email) && Supplied(name) && EmailInUse(db, email.value)) ==>
              r == Err(Custom(EmailTaken, BAD_REQUEST))
  {
    if password != confirmPassword then Err(Custom(PasswordsDiffer, BAD_REQUEST))
    else if !Supplied(email) || !Supplied(name) then Err(Custom(EmailAndNameRequired, BAD_REQUEST))
    else if EmailInUse(db, email.value) then Err(Custom(EmailTaken, BAD_REQUEST))
    else Ok(())
  }

  /** Every signup `createUser` accepts passes the validator; the validator
      checks neither the email format nor the password policy, so the
      converse fails. */
  lemma SignupValidatorIsWeaker(db: Db, email: Option<string>, name: Option<string>, password: Option<string>,
                                confirmPassword: Option<string>, imageUrl: Option<string>,
                                validEmail: string -> bool, hash: string -> string)
    ensures CreateUserCheck(db, email, name, password, confirmPassword, imageUrl, validEmail, hash).Ok? ==>
              ValidateSignupRequest(db, email, name, password, confirmPassword).Ok?
    ensures db.users == map[] ==>
              && ValidateSignupRequest(db, Some("x"), Some("xy"), Some("a"), Some("a")).Ok?
              && CreateUserCheck(db, Some("x"), Some("xy"), Some("a"), Some("a"), imageUrl, validEmail, hash).Err?
  {
    assert !IsUpper("a"[0]);
  }

  /** `validateLoginRequest` (lines 21-34): the user found. */
  function ValidateLoginRequest(db: Db, email: Option<string>, password: Option<string>,
                                compare: (string, string) -> bool): (r: Res<Id>)
    ensures !(Supplied(email) && Supplied(password)) ==> r == Err(Custom(CredentialsRequired, BAD_REQUEST))
    ensures Supplied(email) && Supplied(password) && UserByEmail(db, email.value).None? ==>
              r == Err(Custom(InvalidCredentials, UNAUTHORIZED))
    ensures (Supplied(email) && Supplied(password) && UserByEmail(db, email.value).Some?
             && !compare(password.value, db.users[UserByEmail(db, email.value).value].password)) ==>
              r == Err(Custom(InvalidCredentials, UNAUTHORIZED))
    ensures r.Ok? ==> Some(r.value) == UserByEmail(db, email.value) && compare(password.value, db.users[r.value].password)
  {
    if !Supplied(email) || !Supplied(password) then Err(Custom(CredentialsRequired, BAD_REQUEST))
    else
      match UserByEmail(db, email.value)
      case None => Err(Custom(InvalidCredentials, UNAUTHORIZED))
      case Some(id) =>
        if !compare(password.value, db.users[id].password) then Err(Custom(InvalidCredentials, UNAUTHORIZED))
        else Ok(id)
  }

  /** The validator and `loginUser` accept the same logins, with the same
      user, and fail with the same message; for bad credentials the validator
      answers UNAUTHORIZED where `loginUser` answers BAD_REQUEST. */
  lemma LoginValidatorAgreesWithLogin(db: Db, email: Option<string>, password: Option<string>,
                                      compare: (string, string) -> bool)
    ensures var v := ValidateLoginRequest(db, email, password, compare);
      var l := LoginUser(db, email, password, compare);
      && (v.Ok? <==> l.Ok?) && (v.Ok? ==> v.value == l.value)
      && (v.Err? ==> v.error.message == l.error.message)
      && (v.Err? && Supplied(email) && Supplied(password) ==>
            v.error.statusCode == Some(UNAUTHORIZED) && l.error.statusCode == Some(BAD_REQUEST))
  {
  }

  /** `validateUpdateProfileRequest` (lines 38-64) on the logged-in user `me`,
      with `file` the path of the uploaded file, if any. The supplied fields
      are copied onto the user as given (the password in plain text); nothing
      is saved. */
  function ValidateUpdateProfileRequest(db: Db, me: Id, email: Option<string>, name: Option<string>,
                                        password: Option<string>, confirmPassword: Option<string>,
                                        file: Option<string>): (r: Res<User>)
    requires me in db.users
    ensures !(Supplied(email) || Supplied(password) || Supplied(name) || file.Some?) ==>
              r == Err(Custom(NothingToUpdate, BAD_REQUEST))
    ensures Supplied(email) && EmailInUse(db, email.value) ==> r == Err(Custom(ProfileEmailTaken, BAD_REQUEST))
    ensures (Supplied(email) ==> !EmailInUse(db, email.value)) && Supplied(password) && password != confirmPassword ==>
              r == Err(Custom(PasswordsDiffer, BAD_REQUEST))
    ensures r.Ok? <==> && (Supplied(email) || Supplied(password) || Supplied(name) || file.Some?)
                       && (Supplied(email) ==> !EmailInUse(db, email.value))
                       && (Supplied(password) ==> password == confirmPassword)
    ensures r.Ok? ==> var was := db.users[me];
      r.value == was.(email := if Supplied(email) then email.value else was.email,
                      name := if Supplied(name) then name.value else was.name,
                      password := if Supplied(password) then password.value else was.password,
                      imageUrl := if Supplied(file) then file else was.imageUrl)
  {
    if !Supplied(email) && !Supplied(password) && !Supplied(name) && file.None? then
      Err(Custom(NothingToUpdate, BAD_REQUEST))
    else if Supplied(email) && EmailInUse(db, email.value) then Err(Custom(ProfileEmailTaken, BAD_REQUEST))
    else if Supplied(password) && password != confirmPassword then Err(Custom(PasswordsDiffer, BAD_REQUEST))
    else
      var u := db.users[me];
      var u := if Supplied(email) then u.(email := email.value) else u;
      var u := if Supplied(name) then u.(name := name.value) else u;
      var u := if Supplied(password) then u.(password := password.value) else u;
      var u := if file.Some? && file.value != "" then u.(imageUrl := file) else u;
      Ok(u)
  }

  /** When the upload, if any, has a path, the validator and `updateProfile`
      (given that path as `imageUrl`) accept the same requests and fail the
      same way; they differ only in the validator leaving the password
      unhashed. */
  lemma ProfileValidatorAgreesWithUpdate(db: Db, me: Id, email: Option<string>, name: Option<string>,
                                         password: Option<string>, confirmPassword: Option<string>,
                                         file: Option<string>, hash: string -> string)
    requires me in db.users
    requires file.None? || file.value != ""
    ensures var v := ValidateUpdateProfileRequest(db, me, email, name, password, confirmPassword, file);
      var u := ProfileUpdate(db, me, email, name, password, confirmPassword, file, hash);
      && (v.Err? ==> u == v)
      && (v.Ok? ==> u.Ok? && u.value == v.value.(password := if Supplied(password) then hash(password.value) else v.value.password))
  {
  }

  /** `validateDeleteProfileRequest` (lines 68-81), with `userId` None when the
      route gives no id: the user to delete. A malformed id makes `findById`
      throw a cast error. */
  function ValidateDeleteProfileRequest(db: Db, caller: Principal, userId: Option<IdParam>): (r: Res<Id>)
    ensures userId.None? ==> r == Err(Custom(ProfileRequired, BAD_REQUEST))
    ensures userId == Some(Malformed) ==> r == Err(CastFailure)
    ensures (userId.Some? && userId.value.ObjectId? && userId.value.id !in db.users) ==>
              r == Err(Custom(NoSuchUser, BAD_REQUEST))
    ensures r.Ok? <==> && userId.Some? && userId.value.ObjectId? && userId.value.id in db.users
                       && (caller.id == userId.value.id || caller.role == AdminRole)
    ensures r.Ok? ==> r.value == userId.value.id
  {
    match userId
    case None => Err(Custom(ProfileRequired, BAD_REQUEST))
    case Some(Malformed) => Err(CastFailure)
    case Some(ObjectId(id)) =>
      if id !in db.users then Err(Custom(NoSuchUser, BAD_REQUEST))
      else if caller.id != id && caller.role != AdminRole then Err(Custom(NotAuthorizedToDelete, UNAUTHORIZED))
      else Ok(id)
  }

  /** On a well-formed id the validator and `deleteUser` decide alike; on a
      malformed one the validator's cast error is answered with 404 where
      `deleteUser` answers 400. */
  lemma DeleteValidatorAgreesWithDelete(db: Db, caller: Principal, userId: IdParam)
    ensures userId.ObjectId? ==> ValidateDeleteProfileRequest(db, caller, Some(userId)) == DeleteUserCheck(db, caller, userId)
    ensures userId.Malformed? ==> ValidateDeleteProfileRequest(db, caller, Some(userId)).error.name == CastError
                                  && DeleteUserCheck(db, caller, userId).error == Custom(NoSuchUser, BAD_REQUEST)
  {
  }
}
