/** The two authorisation rules of the service: middleware/authorize.js lets
    only admins through, and the owner-or-admin rule that models/Review.js
    (`authorizeUser`), models/User.js (`deleteUser`) and the validators apply to
    reviews and profiles. */
module Authorization {
  import opened Wrappers
  import opened Errors
  import opened Entities

  const AdminOnlyMessage := "You must be an admin to do this."

  /** The owner-or-admin rule: the caller owns the record or is an admin. */
  predicate OwnerOrAdmin(caller: Principal, owner: Id) {
    caller.id == owner || caller.role == AdminRole
  }

  /** middleware/authorize.js: Ok stands for calling `next()`. */
  function Authorize(caller: Principal): (r: Res<()>)
    ensures r.Ok? <==> caller.role == AdminRole
    ensures r.Err? ==> r.error == Custom(AdminOnlyMessage, UNAUTHORIZED)
  {
    if caller.role != AdminRole then Err(Custom(AdminOnlyMessage, UNAUTHORIZED)) else Ok(())
  }

  /** The decision looks at the role only: two callers with the same role,
      whoever they are, get the same answer. */
  lemma AuthorizeDependsOnlyOnRole(a: Principal, b: Principal)
    requires a.role == b.role
    ensures Authorize(a) == Authorize(b)
  {
  }

  /** Admin-only is stricter than owner-or-admin: whoever passes it passes the
      owner rule for every record. */
  lemma AdminPassesOwnerRule(caller: Principal, owner: Id)
    requires Authorize(caller).Ok?
    ensures OwnerOrAdmin(caller, owner)
  {
  }
}
