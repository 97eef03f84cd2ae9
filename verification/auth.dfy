/**
  Sign-up and sign-in. Emails are compared and stored lower-cased. Password
  hashing, hash comparison and token signing are library calls; they enter
  the model as values and function parameters.
 */
module Auth {
  import opened Wrappers
  import opened Errors
  import opened Tables
  import opened Text
  import opened Schema
  import opened Users

  const EMAIL_TAKEN := "User with this email already exists"
  const INVALID_CREDENTIALS := "Invalid email or password"
  const ACCOUNT_DISABLED := "Account is disabled"

  datatype SignupDto = SignupDto(email: string, password: string, fullName: string)
  datatype SigninDto = SigninDto(email: string, password: string)

  /** The claims a signed access token carries. */
  datatype TokenPayload = TokenPayload(sub: int, email: string, role: Role)

  /** `findOne({ where: { email } })`. */
  function WithEmail(s: Store, email: string): (r: Option<int>)
    requires IdsIssued(s.users)
    ensures r.None? <==> forall k :: k in s.users.rows ==> s.users.rows[k].email != email
    ensures r.Some? ==> r.value in s.users.rows && s.users.rows[r.value].email == email
  {
    FindWhere(s.users, (u: UserRow) => u.email == email)
  }

  /**
    `signup(dto)`: refuses a lower-cased email already registered, else
    stores an active `USER` with the lower-cased email, the trimmed full name
    and `hash`, the bcrypt hash of the password. A value too long for its
    column makes the insert fail with a database error.
   */
  function Signup(s: Store, dto: SignupDto, hash: string): (r: Reply<UserView>)
    requires Wf(s)
    ensures Wf(r.store)
    ensures r.result.Err? ==> r.store == s
    ensures (exists k :: k in s.users.rows && s.users.rows[k].email == ToLower(dto.email))
            ==> r.result == Err(HttpError(Conflict, EMAIL_TAKEN))
    ensures (forall k :: k in s.users.rows ==> s.users.rows[k].email != ToLower(dto.email))
            && !UserFits(UserRow(ToLower(dto.email), Trim(dto.fullName), hash, User, true))
            ==> r.result == Err(StoreError(ColumnRejected))
    ensures r.result.Ok? <==> && (forall k :: k in s.users.rows ==> s.users.rows[k].email != ToLower(dto.email))
                              && UserFits(UserRow(ToLower(dto.email), Trim(dto.fullName), hash, User, true))
    ensures r.result.Ok? ==> && r.result.value.id !in s.users.rows
                             && r.store == s.(users := Table(s.users.rows[r.result.value.id := UserRow(ToLower(dto.email), Trim(dto.fullName), hash, User, true)], r.store.users.next))
                             && r.result.value == UserView(r.result.value.id, ToLower(dto.email), Trim(dto.fullName), User, true)
  {
    var email := ToLower(dto.email);
    if WithEmail(s, email).Some? then Reply(s, Err(HttpError(Conflict, EMAIL_TAKEN)))
    else
      var row := UserRow(email, Trim(dto.fullName), hash, User, true);
      match InsertUser(s, row)
      case Err(e) => Reply(s, Err(e))
      case Ok((s', id)) => Reply(s', Ok(ToView(id, row)))
  }

  /**
    The decision of `signin(dto)`: an unknown email and a wrong password are
    both "Invalid email or password"; a disabled account is refused before
    its password is looked at. `matches(password, hash)` is bcrypt's compare.
   */
  function SigninPayload(s: Store, dto: SigninDto, matches: (string, string) -> bool): (r: Result<TokenPayload, Error>)
    requires Wf(s)
    ensures (forall k :: k in s.users.rows ==> s.users.rows[k].email != ToLower(dto.email))
            ==> r == Err(HttpError(Unauthorized, INVALID_CREDENTIALS))
    ensures forall k :: k in s.users.rows && s.users.rows[k].email == ToLower(dto.email) ==>
              var u := s.users.rows[k];
              && (!u.isActive ==> r == Err(HttpError(Unauthorized, ACCOUNT_DISABLED)))
              && (u.isActive && !matches(dto.password, u.passwordHash) ==> r == Err(HttpError(Unauthorized, INVALID_CREDENTIALS)))
              && (u.isActive && matches(dto.password, u.passwordHash) ==> r == Ok(TokenPayload(k, u.email, u.role)))
  {
    match WithEmail(s, ToLower(dto.email))
    case None => Err(HttpError(Unauthorized, INVALID_CREDENTIALS))
    case Some(id) =>
      var u := s.users.rows[id];
      if !u.isActive then Err(HttpError(Unauthorized, ACCOUNT_DISABLED))
      else if !matches(dto.password, u.passwordHash) then Err(HttpError(Unauthorized, INVALID_CREDENTIALS))
      else Ok(TokenPayload(id, u.email, u.role))
  }

  /** `signin(dto)`: the access token is `sign` applied to the payload the decision produced. */
  function Signin(s: Store, dto: SigninDto, matches: (string, string) -> bool, sign: TokenPayload -> string): (r: Result<string, Error>)
    requires Wf(s)
    ensures r.Ok? <==> SigninPayload(s, dto, matches).Ok?
    ensures r.Ok? ==> r.value == sign(SigninPayload(s, dto, matches).value)
    ensures r.Err? ==> r.error == SigninPayload(s, dto, matches).error
  {
    match SigninPayload(s, dto, matches)
    case Err(e) => Err(e)
    case Ok(payload) => Ok(sign(payload))
  }

  /** Whoever signed up can sign in with the same password, under any casing of the email. */
  lemma SignupThenSignin(s: Store, dto: SignupDto, hash: string, email: string, matches: (string, string) -> bool)
    requires Wf(s) && Signup(s, dto, hash).result.Ok?
    requires ToLower(email) == ToLower(dto.email) && matches(dto.password, hash)
    ensures var signed := Signup(s, dto, hash);
            SigninPayload(signed.store, SigninDto(email, dto.password), matches)
              == Ok(TokenPayload(signed.result.value.id, ToLower(dto.email), User))
  {
    var signed := Signup(s, dto, hash);
    var id := signed.result.value.id;
    assert id in signed.store.users.rows && signed.store.users.rows[id].email == ToLower(email);
  }

  /** A second sign-up with the same email in another casing is refused. */
  lemma SignupTwice(s: Store, dto: SignupDto, hash: string, again: SignupDto, hash2: string)
    requires Wf(s) && Signup(s, dto, hash).result.Ok? && ToLower(again.email) == ToLower(dto.email)
    ensures Signup(Signup(s, dto, hash).store, again, hash2).result == Err(HttpError(Conflict, EMAIL_TAKEN))
  {
    var signed := Signup(s, dto, hash);
    var id := signed.result.value.id;
    assert id in signed.store.users.rows && signed.store.users.rows[id].email == ToLower(again.email);
  }
}
