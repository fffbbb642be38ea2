/** services/authService.js: registration and profile uniqueness, and the
    refresh-token store (issue, rotate, revoke). Password hashing, the
    bcrypt comparison and the random token bytes are inputs: `hash` is the
    stored form of a new password, `matches` the comparison's answer and
    `newToken` the newly generated token string. Access tokens (JWT) are not
    modelled. */
module Auth {
  import opened Wrappers
  import opened AppointmentModel
  import opened Accounts

  /** A `RefreshToken` document; times are milliseconds. */
  datatype RefreshToken = RefreshToken(token: string, user: Id, expiresAt: int, revoked: bool, createdAt: int)

  type Tokens = seq<RefreshToken>

  /** Seven days in milliseconds. */
  const TokenLifetime := 7 * 24 * 60 * 60 * 1000

  /** What `register` and `login` hand back besides the access token. */
  datatype Session = Session(id: Id, name: string, email: string, role: string, refreshToken: string)

  /** `generateRefreshToken(user)`: store a new, unrevoked token. */
  function Issue(tokens: Tokens, user: Id, newToken: string, now: int): (r: Tokens)
    ensures |r| == |tokens| + 1 && r[..|tokens|] == tokens
    ensures r[|tokens|] == RefreshToken(newToken, user, now + 604800000, false, now)
  {
    tokens + [RefreshToken(newToken, user, now + TokenLifetime, false, now)]
  }

  /** `RefreshToken.findOne({ token })`: the first record with this string. */
  function FindToken(tokens: Tokens, token: string): (r: Option<nat>)
    ensures r.Some? ==> r.value < |tokens| && tokens[r.value].token == token
    ensures r.Some? ==> forall i :: 0 <= i < r.value ==> tokens[i].token != token
    ensures r.None? <==> forall i :: 0 <= i < |tokens| ==> tokens[i].token != token
  {
    if |tokens| == 0 then None
    else if tokens[0].token == token then Some(0)
    else
      match FindToken(tokens[1..], token)
      case Some(k) =>
        assert forall i :: 1 <= i < k + 1 ==> tokens[i] == tokens[1..][i - 1];
        Some(k + 1)
      case None => None
  }

  /** `register(userData)`. An empty or absent role becomes "user". */
  function Register(users: Users, tokens: Tokens, name: string, email: string, hash: string,
                    role: Option<string>, newToken: string, now: int): (r: Result<(Users, Tokens, Session)>)
    ensures FindByEmail(users, email).Some? <==> r == Err(AppError("User already exists", 400))
    ensures FindByEmail(users, email).None? <==> r.Ok?
    ensures r.Ok? ==>
      var (users', tokens', s) := r.value;
      && |users'| == |users| + 1 && users'[..|users|] == users
      && users'[|users|] == User(s.id, name, email, hash, s.role)
      && (forall i :: 0 <= i < |users| ==> users[i].id != s.id)
      && s.role == (if role.Some? && role.value != "" then role.value else "user")
      && s.name == name && s.email == email && s.refreshToken == newToken
      && tokens' == Issue(tokens, s.id, newToken, now)
  {
    if FindByEmail(users, email).Some? then Err(AppError("User already exists", 400))
    else
      var id := FreshUserId(users);
      var theRole := if role.Some? && role.value != "" then role.value else "user";
      Ok((users + [User(id, name, email, hash, theRole)], Issue(tokens, id, newToken, now),
          Session(id, name, email, theRole, newToken)))
  }

  /** `login(loginData)`; `matches` is whether the password fits the stored hash. */
  function Login(users: Users, tokens: Tokens, email: string, matches: bool, newToken: string,
                 now: int): (r: Result<(Tokens, Session)>)
    ensures r.Ok? <==> FindByEmail(users, email).Some? && matches
    ensures r.Err? ==> r.error == AppError("Invalid email or password", 401)
    ensures r.Ok? ==>
      var u := users[FindByEmail(users, email).value];
      r.value == (Issue(tokens, u.id, newToken, now), Session(u.id, u.name, u.email, u.role, newToken))
  {
    match FindByEmail(users, email)
    case Some(k) =>
      if matches then
        var u := users[k];
        Ok((Issue(tokens, u.id, newToken, now), Session(u.id, u.name, u.email, u.role, newToken)))
      else Err(AppError("Invalid email or password", 401))
    case None => Err(AppError("Invalid email or password", 401))
  }

  /** The token would be accepted by `refresh`: stored, not revoked, not expired. */
  predicate Usable(tokens: Tokens, token: string, now: int) {
    && FindToken(tokens, token).Some?
    && !tokens[FindToken(tokens, token).value].revoked
    && now < tokens[FindToken(tokens, token).value].expiresAt
  }

  /** `refresh(token)`: rotate a usable token; `None` or "" is a missing token. */
  function Refresh(users: Users, tokens: Tokens, token: Option<string>, newToken: string,
                   now: int): (r: Result<(Tokens, string)>)
    ensures (token.None? || token == Some("")) ==> r == Err(AppError("Token is required", 400))
    ensures token.Some? && token.value != "" && !Usable(tokens, token.value, now) ==>
      r == Err(AppError("Invalid or expired refresh token", 403))
    ensures (token.Some? && token.value != "" && Usable(tokens, token.value, now)
             && FindUser(users, tokens[FindToken(tokens, token.value).value].user).None?) ==>
      r == Err(AppError("User not found", 404))
    ensures r.Ok? <==>
      (token.Some? && token.value != "" && Usable(tokens, token.value, now)
       && FindUser(users, tokens[FindToken(tokens, token.value).value].user).Some?)
    ensures r.Ok? ==>
      var k := FindToken(tokens, token.value).value;
      var (tokens', t) := r.value;
      && Usable(tokens, token.value, now)
      && FindUser(users, tokens[k].user).Some?
      && t == newToken
      && |tokens'| == |tokens| + 1
      && tokens'[k] == tokens[k].(revoked := true)
      && (forall i :: 0 <= i < |tokens| && i != k ==> tokens'[i] == tokens[i])
      && tokens'[|tokens|] == RefreshToken(newToken, tokens[k].user, now + 604800000, false, now)
  {
    if token.None? || token.value == "" then Err(AppError("Token is required", 400))
    else if !Usable(tokens, token.value, now) then Err(AppError("Invalid or expired refresh token", 403))
    else
      var k := FindToken(tokens, token.value).value;
      var record := tokens[k];
      if FindUser(users, record.user).None? then Err(AppError("User not found", 404))
      else Ok((Issue(tokens[k := record.(revoked := true)], record.user, newToken, now), newToken))
  }

  /** `revokeToken(token)`: mark the first matching record revoked. */
  function RevokeToken(tokens: Tokens, token: string): (r: Tokens)
    ensures |r| == |tokens|
    ensures FindToken(tokens, token).None? ==> r == tokens
    ensures FindToken(tokens, token).Some? ==>
      var k := FindToken(tokens, token).value;
      && r[k] == tokens[k].(revoked := true)
      && forall i :: 0 <= i < |tokens| && i != k ==> r[i] == tokens[i]
  {
    match FindToken(tokens, token)
    case None => tokens
    case Some(k) => tokens[k := tokens[k].(revoked := true)]
  }

  /** `updateProfile(userId, data)`: a truthy name or email replaces the old
      one; a new email already used by another user is refused. */
  function UpdateProfile(users: Users, userId: Id, name: Option<string>, email: Option<string>)
    : (r: Result<(Users, User)>)
    ensures FindUser(users, userId).None? ==> r == Err(AppError("User not found", 404))
    ensures r.Err? && FindUser(users, userId).Some? ==> r == Err(AppError("Email already in use", 400))
    ensures FindUser(users, userId).Some? ==>
      var u := users[FindUser(users, userId).value];
      (r.Err? <==> email.Some? && email.value != "" && email.value != u.email
                   && FindByEmail(users, email.value).Some?)
    ensures r.Ok? ==>
      var k := FindUser(users, userId).value;
      var u := users[k];
      var (users', u') := r.value;
      && u'.name == (if name.Some? && name.value != "" then name.value else u.name)
      && u'.email == (if email.Some? && email.value != "" then email.value else u.email)
      && u'.id == u.id && u'.role == u.role && u'.passwordHash == u.passwordHash
      && |users'| == |users| && users'[k] == u'
      && (forall i :: 0 <= i < |users| && i != k ==> users'[i] == users[i])
  {
    match FindUser(users, userId)
    case None => Err(AppError("User not found", 404))
    case Some(k) =>
      var u := users[k];
      if email.Some? && email.value != "" && email.value != u.email && FindByEmail(users, email.value).Some? then
        Err(AppError("Email already in use", 400))
      else
        var u' := u.(name := if name.Some? && name.value != "" then name.value else u.name,
                     email := if email.Some? && email.value != "" then email.value else u.email);
        Ok((users[k := u'], u'))
  }

  /** `changePassword(userId, oldPassword, newPassword)`: `matches` is the
      comparison of the old password, `hash` the new stored form. On success
      every refresh token of the user is revoked. */
  function ChangePassword(users: Users, tokens: Tokens, userId: Id, matches: bool, hash: string)
    : (r: Result<(Users, Tokens)>)
    ensures FindUser(users, userId).None? ==> r == Err(AppError("User not found", 404))
    ensures FindUser(users, userId).Some? && !matches ==> r == Err(AppError("Invalid current password", 401))
    ensures r.Ok? <==> FindUser(users, userId).Some? && matches
    ensures r.Ok? ==>
      var k := FindUser(users, userId).value;
      var (users', tokens') := r.value;
      && |users'| == |users| && users'[k].passwordHash == hash
      && users'[k].(passwordHash := users[k].passwordHash) == users[k]
      && (forall i :: 0 <= i < |users| && i != k ==> users'[i] == users[i])
      && |tokens'| == |tokens|
      && (forall i :: 0 <= i < |tokens| ==>
            tokens'[i] == (if tokens[i].user == userId then tokens[i].(revoked := true) else tokens[i]))
  {
    match FindUser(users, userId)
    case None => Err(AppError("User not found", 404))
    case Some(k) =>
      if !matches then Err(AppError("Invalid current password", 401))
      else Ok((users[k := users[k].(passwordHash := hash)], RevokeAll(tokens, userId)))
  }

  /** `RefreshToken.updateMany({ user }, { revoked: true })`. */
  function RevokeAll(tokens: Tokens, user: Id): (r: Tokens)
    ensures |r| == |tokens|
    ensures forall i :: 0 <= i < |tokens| ==>
      r[i] == (if tokens[i].user == user then tokens[i].(revoked := true) else tokens[i])
  {
    seq(|tokens|, i requires 0 <= i < |tokens| =>
      if tokens[i].user == user then tokens[i].(revoked := true) else tokens[i])
  }
}
