/** The user schema (`backend/models/user.modal.js`) and the user controller
    (`backend/controllers/user.controller.js`) over an in-memory user store.
    bcrypt's hash and compare and the JWT signer are function parameters, and
    the id the store assigns to a new user is the parameter `freshId`. */
module Users {
  import opened Common
  import opened Text
  import opened Envelope

  datatype User = User(id: UserId, email: string, password: string, refreshToken: Option<string>)

  /** The user collection, in insertion order. */
  type UserStore = seq<User>

  /** A user document read with `select("-password")`. */
  datatype PublicUser = PublicUser(id: UserId, email: string, refreshToken: Option<string>)

  /** The password hashing primitives (`bcrypt.hash` with cost 10, `bcrypt.compare`). */
  datatype Hasher = Hasher(hash: string -> string, compare: (string, string) -> bool)

  const MinPasswordLength: nat := 8
  const MaxPasswordLength: nat := 255

  predicate NoUpperAscii(s: string)
  {
    forall i :: 0 <= i < |s| ==> !('A' <= s[i] <= 'Z')
  }

  lemma {:induction false} LowerFixesLowered(s: string)
    requires NoUpperAscii(s)
    ensures Lower(s) == s
    decreases |s|
  {
    if s != [] {
      LowerFixesLowered(s[1..]);
      assert s == [s[0]] + s[1..];
    }
  }

  /** The schema's `lowercase: true, trim: true` setters, which Mongoose
      applies both to stored values and to query filters. */
  function NormalizeEmail(e: string): (r: string)
    ensures r == Trim(Lower(e))
    ensures Normalized(r)
    ensures |r| <= |e|
  {
    var low := Lower(e);
    var r := Trim(low);
    var i := LeadLength(low);
    assert i + |r| <= |low| && r == low[i..i + |r|];
    InfixKeepsLower(low, i, r);
    r
  }

  lemma InfixKeepsLower(s: string, i: nat, r: string)
    requires NoUpperAscii(s) && i + |r| <= |s| && r == s[i..i + |r|]
    ensures NoUpperAscii(r)
  {
    forall k | 0 <= k < |r| ensures !('A' <= r[k] <= 'Z') {
      assert r[k] == s[i + k];
    }
  }

  /** An email as the setters leave it: trimmed, no upper-case ASCII letter. */
  predicate Normalized(e: string)
  {
    Trimmed(e) && NoUpperAscii(e)
  }

  /** The setters change nothing on a normalised email, so normalising is
      idempotent. */
  lemma NormalizedIsFixed(e: string)
    requires Normalized(e)
    ensures NormalizeEmail(e) == e
  {
    LowerFixesLowered(e);
    TrimAfterSpaces([], e);
    assert [] + e == e;
  }

  predicate EmailTaken(users: UserStore, email: string)
  {
    exists i :: 0 <= i < |users| && users[i].email == email
  }

  predicate IdTaken(users: UserStore, id: UserId)
  {
    exists i :: 0 <= i < |users| && users[i].id == id
  }

  /** The user-store invariant: unique ids, and unique, normalised,
      non-empty emails. */
  ghost predicate ValidUsers(users: UserStore)
  {
    && (forall i, j :: 0 <= i < j < |users| ==> users[i].id != users[j].id)
    && (forall i, j :: 0 <= i < j < |users| ==> users[i].email != users[j].email)
    && (forall i :: 0 <= i < |users| ==> users[i].email != "" && Normalized(users[i].email))
  }

  /** The schema validators on a new document (email already normalised):
      `required` on both fields, `minlength`/`maxlength` on the plaintext
      password, which validation sees before the save hook hashes it. */
  predicate PassesSchema(email: string, password: string)
  {
    email != "" && password != "" && MinPasswordLength <= |password| <= MaxPasswordLength
  }

  /** The pre-save hook: hash the password only when it was modified. */
  function PreSave(user: User, passwordModified: bool, hasher: Hasher): (r: User)
    ensures r.id == user.id && r.email == user.email && r.refreshToken == user.refreshToken
    ensures passwordModified ==> r.password == hasher.hash(user.password)
    ensures !passwordModified ==> r == user
  {
    if passwordModified then user.(password := hasher.hash(user.password)) else user
  }

  /** `user.comparePassword(candidate)`. */
  function ComparePassword(user: User, candidate: string, hasher: Hasher): (ok: bool)
    ensures ok == hasher.compare(candidate, user.password)
  {
    hasher.compare(candidate, user.password)
  }

  /** The token secrets and lifetimes read from the environment. */
  datatype TokenConfig = TokenConfig(
    accessSecret: string, accessExpiry: string, refreshSecret: string, refreshExpiry: string)

  /** The arguments of one `jwt.sign(payload, secret, { expiresIn })` call. */
  datatype SignRequest = SignRequest(payload: map<string, string>, secret: string, expiresIn: string)

  /** `generateAccessToken`: claims `_id` and `email`, the access secret and expiry. */
  function AccessTokenRequest(user: User, config: TokenConfig): (req: SignRequest)
    ensures req.payload.Keys == {"_id", "email"}
    ensures req.payload["_id"] == user.id && req.payload["email"] == user.email
    ensures req.secret == config.accessSecret && req.expiresIn == config.accessExpiry
  {
    SignRequest(map["_id" := user.id, "email" := user.email], config.accessSecret, config.accessExpiry)
  }

  /** `generateRefreshToken`: claim `_id` only, the refresh secret and expiry. */
  function RefreshTokenRequest(user: User, config: TokenConfig): (req: SignRequest)
    ensures req.payload.Keys == {"_id"} && req.payload["_id"] == user.id
    ensures req.secret == config.refreshSecret && req.expiresIn == config.refreshExpiry
  {
    SignRequest(map["_id" := user.id], config.refreshSecret, config.refreshExpiry)
  }

  /** The refresh claims are the access claims without the email, and no
      token ever carries the password hash or a refresh token. */
  lemma TokenClaims(user: User, config: TokenConfig)
    ensures RefreshTokenRequest(user, config).payload == AccessTokenRequest(user, config).payload - {"email"}
    ensures "password" !in AccessTokenRequest(user, config).payload
    ensures "refreshToken" !in AccessTokenRequest(user, config).payload
  {
    assert RefreshTokenRequest(user, config).payload.Keys == AccessTokenRequest(user, config).payload.Keys - {"email"};
  }

  datatype Tokens = Tokens(accessToken: string, refreshToken: string)

  const TokenFailure := Fail(500, "Failed to generate access and refresh token")

  /** The position of the user with id `id`. */
  function FindUser(users: UserStore, id: UserId): (r: Option<nat>)
    ensures r.Some? ==> r.value < |users| && users[r.value].id == id
    ensures r.None? <==> !IdTaken(users, id)
  {
    if users == [] then None
    else if users[0].id == id then Some(0)
    else
      var r := FindUser(users[1..], id);
      assert forall i :: 1 <= i < |users| ==> users[i] == users[1..][i - 1];
      if r.Some? then Some(r.value + 1) else None
  }

  /** `generateAccessAndRefreshToken(userId)`: signs both tokens, stores the
      refresh token on the user (overwriting any earlier one) and saves
      without validation. Any failure, the unknown user included, is masked
      as the same 500; `saveFails` stands for a save the store rejects. */
  function GenerateAccessAndRefreshToken(
    users: UserStore, id: UserId, config: TokenConfig, sign: SignRequest -> string,
    hasher: Hasher, saveFails: bool): (r: Result<(UserStore, Tokens), Thrown>)
    ensures r.Err? ==> r.error == TokenFailure
    ensures r.Ok? <==> IdTaken(users, id) && !saveFails
    ensures r.Ok? ==>
      var (after, tokens) := r.value;
      && |after| == |users|
      && exists i :: 0 <= i < |users| && users[i].id == id
           && tokens.accessToken == sign(AccessTokenRequest(users[i], config))
           && tokens.refreshToken == sign(RefreshTokenRequest(users[i], config))
           && after[i] == users[i].(refreshToken := Some(tokens.refreshToken))
           && forall j :: 0 <= j < |users| && j != i ==> after[j] == users[j]
  {
    match FindUser(users, id)
    case None => Err(TokenFailure)
    case Some(i) =>
      var user := users[i];
      var tokens := Tokens(sign(AccessTokenRequest(user, config)), sign(RefreshTokenRequest(user, config)));
      var saved := PreSave(user.(refreshToken := Some(tokens.refreshToken)), false, hasher);
      if saveFails then Err(TokenFailure)
      else Ok((users[i := saved], tokens))
  }

  const MissingCredentials := Fail(400, "Email and password are required")
  const UserExists := Fail(400, "User already exists")

  /** The error the store raises when a new document fails the schema. */
  const ValidationFailure := Uncoded("User validation failed")

  /** The checks and the insert of `registerUser`, up to reading the new
      user back without its password: both credentials present, the
      normalised email not taken, the schema satisfied; the stored password
      is the hash of the plaintext. */
  function CreateUser(users: UserStore, body: Body, freshId: UserId, hasher: Hasher)
    : (r: Result<(UserStore, PublicUser), Thrown>)
    ensures r == Err(MissingCredentials) <==> !FieldTruthy(body, "email") || !FieldTruthy(body, "password")
    ensures FieldTruthy(body, "email") && FieldTruthy(body, "password") && body["email"].Str?
      && EmailTaken(users, NormalizeEmail(body["email"].s))
      ==> r == Err(UserExists)
    ensures r.Ok? <==>
      && FieldTruthy(body, "email") && FieldTruthy(body, "password")
      && body["email"].Str? && body["password"].Str?
      && !EmailTaken(users, NormalizeEmail(body["email"].s))
      && PassesSchema(NormalizeEmail(body["email"].s), body["password"].s)
    ensures r.Ok? ==>
      var email := NormalizeEmail(body["email"].s);
      && r.value.0 == users + [User(freshId, email, hasher.hash(body["password"].s), None)]
      && r.value.1 == PublicUser(freshId, email, None)
    ensures r.Err? ==> r.error.statusCode.Some? ==> r.error.statusCode.value == 400
  {
    if !FieldTruthy(body, "email") || !FieldTruthy(body, "password") then Err(MissingCredentials)
    else if !body["email"].Str? then Err(CastFailure)
    else
      var email := NormalizeEmail(body["email"].s);
      if EmailTaken(users, email) then Err(UserExists)
      else if !body["password"].Str? || !PassesSchema(email, body["password"].s) then Err(ValidationFailure)
      else
        var user := PreSave(User(freshId, email, body["password"].s, None), true, hasher);
        Ok((users + [user], PublicUser(user.id, user.email, user.refreshToken)))
  }

  /** The payload the register reply means to carry. */
  datatype Registered = Registered(user: PublicUser, accessToken: string, refreshToken: string)

  /** The error raised by reading the undeclared `accessToken` while building
      the register reply: a runtime `ReferenceError`, which has no status
      code. */
  const UndeclaredTokens := Uncoded("accessToken is not defined")

  /** `registerUser` as written. When every check passes the user is
      inserted, and then building the reply reads two names that are never
      declared in the handler, so the request fails after the write. The
      first component is the store the request leaves behind. */
  function RegisterUserAsWritten(users: UserStore, body: Body, freshId: UserId, hasher: Hasher)
    : (r: (UserStore, Result<ApiResponse<Registered>, Thrown>))
    ensures r.1.Err?
    ensures CreateUser(users, body, freshId, hasher).Err? ==>
      r.0 == users && r.1.error == CreateUser(users, body, freshId, hasher).error
    ensures CreateUser(users, body, freshId, hasher).Ok? ==>
      r.0 == CreateUser(users, body, freshId, hasher).value.0 && |r.0| == |users| + 1
      && r.1.error == UndeclaredTokens
  {
    match CreateUser(users, body, freshId, hasher)
    case Err(e) => (users, Err(e))
    case Ok((after, _)) => (after, Err(UndeclaredTokens))
  }

  /** `POST /users/register` as evidently intended: the user is created,
      `generateAccessAndRefreshToken` issues both tokens (storing the
      refresh token), and the reply is a 201 carrying the user and the
      tokens. `saveFails` stands for the token step's save being rejected
      by the store; the first component is the store the request leaves
      behind, since the insert is not undone when the token step fails. */
  function RegisterUser(
    users: UserStore, body: Body, freshId: UserId, hasher: Hasher,
    config: TokenConfig, sign: SignRequest -> string, saveFails: bool)
    : (r: (UserStore, Result<ApiResponse<Registered>, Thrown>))
    requires !IdTaken(users, freshId)
    ensures r.1.Ok? <==> CreateUser(users, body, freshId, hasher).Ok? && !saveFails
    ensures CreateUser(users, body, freshId, hasher).Err? ==>
      r.0 == users && r.1 == Err(CreateUser(users, body, freshId, hasher).error)
    ensures CreateUser(users, body, freshId, hasher).Ok? && saveFails ==>
      r.0 == CreateUser(users, body, freshId, hasher).value.0 && r.1 == Err(TokenFailure)
    ensures CreateUser(users, body, freshId, hasher).Ok? ==> |r.0| == |users| + 1 && r.0[..|users|] == users
    ensures r.1.Ok? ==>
      var email := NormalizeEmail(body["email"].s);
      var u := User(freshId, email, hasher.hash(body["password"].s), None);
      && r.0[|users|] == u.(refreshToken := Some(r.1.value.data.refreshToken))
      && r.1.value.statusCode == 201 && r.1.value.success
      && r.1.value.message == "User registered successfully"
      && r.1.value.data.user == PublicUser(freshId, email, None)
      && r.1.value.data.accessToken == sign(AccessTokenRequest(u, config))
      && r.1.value.data.refreshToken == sign(RefreshTokenRequest(u, config))
  {
    match CreateUser(users, body, freshId, hasher)
    case Err(e) => (users, Err(e))
    case Ok((created, user)) =>
      var u := created[|users|];
      assert created[..|users|] == users;
      NewUserFound(users, u);
      var tokens := Tokens(sign(AccessTokenRequest(u, config)), sign(RefreshTokenRequest(u, config)));
      match GenerateAccessAndRefreshToken(created, freshId, config, sign, hasher, saveFails)
      case Err(e) => (created, Err(e))
      case Ok((after, issued)) =>
        assert (after, issued) == (created[|users| := u.(refreshToken := Some(tokens.refreshToken))], tokens);
        (after, Ok(NewApiResponse(201, Registered(user, issued.accessToken, issued.refreshToken),
          Some("User registered successfully"))))
  }

  /** A user appended under a fresh id is the one `FindUser` finds. */
  lemma NewUserFound(users: UserStore, u: User)
    requires !IdTaken(users, u.id)
    ensures FindUser(users + [u], u.id) == Some(|users|)
  {
    var after := users + [u];
    assert after[|users|] == u;
    assert forall i :: 0 <= i < |users| ==> after[i] == users[i];
  }

  /** As written, a registration that passes every check still answers 500,
      yet leaves the user stored: repeating the same request is then
      refused as a duplicate. */
  lemma RegisterAsWrittenFailsAfterWrite(users: UserStore, body: Body, freshId: UserId, otherId: UserId, hasher: Hasher)
    requires CreateUser(users, body, freshId, hasher).Ok?
    ensures var (after, reply) := RegisterUserAsWritten(users, body, freshId, hasher);
      && reply.Err? && reply.error.statusCode.None?
      && |after| == |users| + 1
      && RegisterUserAsWritten(after, body, otherId, hasher) == (after, Err(UserExists))
  {
    var after := RegisterUserAsWritten(users, body, freshId, hasher).0;
    var email := NormalizeEmail(body["email"].s);
    assert after[|users|].email == email;
    assert EmailTaken(after, email);
  }

  /** Creating a user keeps ids unique (given a fresh id) and emails unique,
      normalised and non-empty. */
  lemma CreatePreserves(users: UserStore, body: Body, freshId: UserId, hasher: Hasher)
    requires ValidUsers(users) && !IdTaken(users, freshId)
    requires CreateUser(users, body, freshId, hasher).Ok?
    ensures ValidUsers(CreateUser(users, body, freshId, hasher).value.0)
  {
    var email := NormalizeEmail(body["email"].s);
    AppendPreserves(users, User(freshId, email, hasher.hash(body["password"].s), None));
  }

  /** The same for the whole registration, whose token step changes only
      the new user's refresh token; when that step fails, the store holds
      the inserted user and the invariant still holds. */
  lemma RegisterPreserves(
    users: UserStore, body: Body, freshId: UserId, hasher: Hasher,
    config: TokenConfig, sign: SignRequest -> string, saveFails: bool)
    requires ValidUsers(users) && !IdTaken(users, freshId)
    requires CreateUser(users, body, freshId, hasher).Ok?
    ensures ValidUsers(RegisterUser(users, body, freshId, hasher, config, sign, saveFails).0)
  {
    CreatePreserves(users, body, freshId, hasher);
    var created := CreateUser(users, body, freshId, hasher).value.0;
    var after := RegisterUser(users, body, freshId, hasher, config, sign, saveFails).0;
    if !saveFails {
      SameKeysPreserve(created, after, |users|);
    }
  }

  /** Changing fields other than id and email of the last user keeps the
      invariant. */
  lemma SameKeysPreserve(a: UserStore, b: UserStore, n: nat)
    requires ValidUsers(a) && |a| == |b| == n + 1
    requires a[..n] == b[..n] && a[n].id == b[n].id && a[n].email == b[n].email
    ensures ValidUsers(b)
  {
    forall i | 0 <= i < n ensures b[i] == a[i] {
      assert a[i] == a[..n][i];
      assert b[i] == b[..n][i];
    }
  }

  /** Adding a user whose id and email are new and whose email is normalised
      and non-empty keeps the invariant. */
  lemma AppendPreserves(users: UserStore, u: User)
    requires ValidUsers(users)
    requires !IdTaken(users, u.id) && !EmailTaken(users, u.email)
    requires u.email != "" && Normalized(u.email)
    ensures ValidUsers(users + [u])
  {
    var after := users + [u];
    forall i, j | 0 <= i < j < |after|
      ensures after[i].id != after[j].id && after[i].email != after[j].email
    {
      assert after[i] == users[i];
      if j == |users| {
        assert after[j] == u;
      } else {
        assert after[j] == users[j];
      }
    }
  }

  /** Registration saves the user twice, once on insert (hashing the
      password) and once after issuing the tokens (without touching it): the
      stored value is one hash of the plaintext, whether or not the second
      save goes through, so, when bcrypt's compare accepts a password
      against its own hash, the new password matches. */
  lemma NoDoubleHashing(
    users: UserStore, body: Body, freshId: UserId, hasher: Hasher,
    config: TokenConfig, sign: SignRequest -> string, saveFails: bool)
    requires !IdTaken(users, freshId)
    requires forall p :: hasher.compare(p, hasher.hash(p))
    requires CreateUser(users, body, freshId, hasher).Ok?
    ensures var after := RegisterUser(users, body, freshId, hasher, config, sign, saveFails).0;
      && after[|users|].password == hasher.hash(body["password"].s)
      && ComparePassword(after[|users|], body["password"].s, hasher)
  {
  }
}
