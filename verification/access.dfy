/**
  The two checks every protected request passes: the JWT strategy, which
  turns a verified token into a live user, and the roles guard, which
  compares that user's role with the roles a route requires.
 */
module Access {
  import opened Wrappers
  import opened Errors
  import opened Schema
  import opened Auth

  const ACCOUNT_INVALID := "Account is disabled or invalid"
  const NOT_AUTHENTICATED := "Not authenticated"
  const INSUFFICIENT_PERMISSIONS := "Insufficient permissions"

  /**
    `JwtStrategy.validate(payload)`: the user is looked up by `sub` alone and
    must exist and be active; the other claims are not consulted.
   */
  function Validate(s: Store, payload: TokenPayload): (r: Result<(int, UserRow), Error>)
    ensures r.Err? <==> payload.sub !in s.users.rows || !s.users.rows[payload.sub].isActive
    ensures r.Err? ==> r.error == HttpError(Unauthorized, ACCOUNT_INVALID)
    ensures r.Ok? ==> r.value == (payload.sub, s.users.rows[payload.sub])
  {
    if payload.sub !in s.users.rows || !s.users.rows[payload.sub].isActive then
      Err(HttpError(Unauthorized, ACCOUNT_INVALID))
    else
      Ok((payload.sub, s.users.rows[payload.sub]))
  }

  /** A token issued at sign-in is accepted for as long as the store is unchanged, and names the same user. */
  lemma SigninThenValidate(s: Store, dto: SigninDto, matches: (string, string) -> bool)
    requires Wf(s) && SigninPayload(s, dto, matches).Ok?
    ensures var p := SigninPayload(s, dto, matches).value;
            Validate(s, p) == Ok((p.sub, s.users.rows[p.sub]))
            && s.users.rows[p.sub].email == p.email && s.users.rows[p.sub].role == p.role
  {
    var id := WithEmail(s, Text.ToLower(dto.email)).value;
    assert s.users.rows[id].email == Text.ToLower(dto.email);
  }

  /** Disabling a user shuts out every token issued to it. */
  lemma DisabledUserRejected(s: Store, payload: TokenPayload)
    requires Wf(s) && payload.sub in s.users.rows
    ensures Validate(Users.UpdateStatus(s, payload.sub, false).store, payload) == Err(HttpError(Unauthorized, ACCOUNT_INVALID))
  {
  }

  /**
    `RolesGuard.canActivate`: a route without required roles (none, or an
    empty list) is open to everyone, signed in or not; otherwise there must be
    a user whose role is among the required ones. The guard never answers
    `false`: it answers `true` or throws `Forbidden`.
   */
  function CanActivate(required: Option<seq<Role>>, user: Option<UserRow>): (r: Result<bool, Error>)
    ensures r.Ok? ==> r.value
    ensures r.Err? ==> r.error.HttpError? && r.error.status == Forbidden
    ensures required.None? || |required.value| == 0 ==> r == Ok(true)
    ensures required.Some? && |required.value| > 0 && user.None? ==> r == Err(HttpError(Forbidden, NOT_AUTHENTICATED))
    ensures required.Some? && |required.value| > 0 && user.Some? ==>
              (r.Ok? <==> user.value.role in required.value)
              && (r.Err? ==> r.error.message == INSUFFICIENT_PERMISSIONS)
  {
    if required.None? || |required.value| == 0 then Ok(true)
    else if user.None? then Err(HttpError(Forbidden, NOT_AUTHENTICATED))
    else if !SomeEqual(required.value, user.value.role) then Err(HttpError(Forbidden, INSUFFICIENT_PERMISSIONS))
    else Ok(true)
  }

  /** An admin-only route admits exactly the administrators. */
  lemma AdminOnly(user: UserRow)
    ensures CanActivate(Some([Admin]), Some(user)).Ok? <==> user.role == Admin
  {
  }
}
