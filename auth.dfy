/** Authentication rules: the request-body field bounds, the Bearer header check, the user,
    inactive and admin gates, the login chain, and the password-hash diagnostic. Token signing,
    password hashing and the database are inputs (`verifyToken`, `authenticate`, `issue`, rows). */
module Auth {
  import opened Wrappers
  import opened PyStr

  datatype HttpError = HttpError(status: int, detail: string)

  const Unauthorized: int := 401
  const Forbidden: int := 403
  const Unprocessable: int := 422
  const ServerError: int := 500

  // ---------------------------------------------------------------- request bodies

  predicate LengthWithin(s: string, lo: nat, hi: nat) { lo <= |s| <= hi }

  datatype LoginRequest = LoginRequest(username: string, password: string)

  /** `LoginRequest`'s `Field(min_length=..., max_length=...)` bounds. */
  predicate LoginRequestValid(r: LoginRequest) {
    LengthWithin(r.username, 3, 64) && LengthWithin(r.password, 4, 128)
  }

  /** A `UserCreate` body as sent; `rol` may be omitted. */
  datatype UserCreateBody = UserCreateBody(username: string, password: string, nombre: string, rol: Option<string>)

  datatype UserCreate = UserCreate(username: string, password: string, nombre: string, rol: string)

  const Roles: set<string> := {"ope", "admin"}

  /** `UserCreate` validation: the bounds, `rol` defaulting to "ope" and matching `^(ope|admin)$`
      (the whole text, as pydantic's pattern engine reads `$`). */
  function ValidateUserCreate(b: UserCreateBody): (r: Result<UserCreate, HttpError>)
    ensures r.Ok? <==>
      LengthWithin(b.username, 3, 64) && LengthWithin(b.password, 8, 128) && LengthWithin(b.nombre, 1, 120) &&
      (b.rol.None? || b.rol.value in Roles)
    ensures r.Ok? ==> r.value == UserCreate(b.username, b.password, b.nombre, b.rol.GetOr("ope")) && r.value.rol in Roles
    ensures r.Err? ==> r.error.status == Unprocessable
  {
    if LengthWithin(b.username, 3, 64) && LengthWithin(b.password, 8, 128) && LengthWithin(b.nombre, 1, 120) &&
       (b.rol.None? || b.rol.value in Roles)
    then Ok(UserCreate(b.username, b.password, b.nombre, b.rol.GetOr("ope")))
    else Err(HttpError(Unprocessable, "validation error"))
  }

  /** A password that passes `LoginRequest` may still be too short for `UserCreate`. */
  lemma PasswordBoundsDiffer()
    ensures LoginRequestValid(LoginRequest("ana", "1234"))
    ensures ValidateUserCreate(UserCreateBody("ana", "1234", "Ana", None)).Err?
    ensures ValidateUserCreate(UserCreateBody("ana", "12345678", "Ana", None)) == Ok(UserCreate("ana", "12345678", "Ana", "ope"))
    ensures ValidateUserCreate(UserCreateBody("ana", "12345678", "Ana", Some("Admin"))).Err?
  {
  }

  // ---------------------------------------------------------------- bearer header

  /** `HTTPAuthorizationCredentials` */
  datatype Credentials = Credentials(scheme: string, credentials: string)

  const MissingToken: string := "Falta el token"
  const BadScheme: string := "Esquema inválido, use Bearer"

  /** `_require_bearer`. The scheme is compared after lowercasing (ASCII case mapping, which
      agrees with Python's `lower()` on every text whose lowercase is "bearer"). */
  function RequireBearer(c: Option<Credentials>): (r: Result<string, HttpError>)
    ensures (c.None? || c.value.credentials == "") ==> r == Err(HttpError(Unauthorized, MissingToken))
    ensures c.Some? && c.value.credentials != "" && LowerStr(c.value.scheme) != "bearer" ==>
      r == Err(HttpError(Unauthorized, BadScheme))
    ensures r.Ok? <==> c.Some? && c.value.credentials != "" && LowerStr(c.value.scheme) == "bearer"
    ensures r.Ok? ==> r.value == c.value.credentials
  {
    if c.None? || c.value.credentials == "" then Err(HttpError(Unauthorized, MissingToken))
    else if LowerStr(c.value.scheme) != "bearer" then Err(HttpError(Unauthorized, BadScheme))
    else Ok(c.value.credentials)
  }

  /** The scheme is matched in any letter case (section 2.1 of RFC 7235). */
  lemma BearerSchemeIgnoresCase(scheme: string, token: string)
    requires token != ""
    ensures RequireBearer(Some(Credentials(scheme, token))) == RequireBearer(Some(Credentials(UpperStr(scheme), token)))
    ensures RequireBearer(Some(Credentials("Bearer", token))) == Ok(token)
    ensures RequireBearer(Some(Credentials("BEARER", token))) == Ok(token)
    ensures RequireBearer(Some(Credentials("Basic", token))) == Err(HttpError(Unauthorized, BadScheme))
  {
    assert LowerStr(UpperStr(scheme)) == LowerStr(scheme);
    assert LowerStr("Bearer") == "bearer";
    assert LowerStr("BEARER") == "bearer";
    assert LowerStr("Basic") == "basic";
  }

  // ---------------------------------------------------------------- gates

  /** The user row fields the gates read. */
  datatype User = User(idUsuario: int, username: string, nombre: string, rol: string,
                       primerLogin: Field<bool>, activo: Field<bool>)

  const InvalidToken: string := "Token inválido o expirado"
  const UnknownUser: string := "Usuario no encontrado"
  const InactiveUser: string := "Usuario inactivo"
  const AdminOnly: string := "Acceso denegado. Se requieren permisos de administrador"
  const BadCredentials: string := "Credenciales incorrectas"

  /** `user.get("activo") is False`: only an explicit false. */
  predicate Inactive(u: User) { u.activo == Present(false) }

  /** `get_current_user`: the header, then the token, then the user, then its `activo` flag.
      `verifyToken` returns the token's subject (empty or None when invalid). */
  function GetCurrentUser(c: Option<Credentials>, verifyToken: string -> Option<string>,
                          userByName: string -> Option<User>): (r: Result<User, HttpError>)
    ensures RequireBearer(c).Err? ==> r == Err(RequireBearer(c).error)
    ensures r.Ok? <==>
      RequireBearer(c).Ok? && verifyToken(RequireBearer(c).value).Some? && verifyToken(RequireBearer(c).value).value != "" &&
      userByName(verifyToken(RequireBearer(c).value).value).Some? &&
      !Inactive(userByName(verifyToken(RequireBearer(c).value).value).value)
    ensures r.Ok? ==> r.value == userByName(verifyToken(RequireBearer(c).value).value).value
    ensures r.Err? ==> r.error.status == Unauthorized
  {
    var token := RequireBearer(c);
    if token.Err? then Err(token.error)
    else
      var username := verifyToken(token.value);
      if username.None? || username.value == "" then Err(HttpError(Unauthorized, InvalidToken))
      else
        var user := userByName(username.value);
        if user.None? then Err(HttpError(Unauthorized, UnknownUser))
        else if Inactive(user.value) then Err(HttpError(Unauthorized, InactiveUser))
        else Ok(user.value)
  }

  /** A user whose `activo` is NULL or absent passes the gate; only an explicit false is refused,
      and with the message for an inactive user. */
  lemma OnlyExplicitFalseIsInactive(token: string, verifyToken: string -> Option<string>, u: User)
    requires token != "" && verifyToken(token) == Some(u.username) && u.username != ""
    ensures var r := GetCurrentUser(Some(Credentials("Bearer", token)), verifyToken, (n: string) => if n == u.username then Some(u) else None);
      (r.Ok? <==> u.activo != Present(false)) &&
      (r.Err? ==> r.error == HttpError(Unauthorized, InactiveUser))
  {
    assert LowerStr("Bearer") == "bearer";
  }

  /** `get_current_admin`: a 403 exactly when `rol` is not "admin"; errors of the user gate pass
      through. */
  function GetCurrentAdmin(current: Result<User, HttpError>): (r: Result<User, HttpError>)
    ensures current.Err? ==> r == current
    ensures current.Ok? ==> (r.Ok? <==> current.value.rol == "admin")
    ensures current.Ok? && r.Ok? ==> r.value == current.value
    ensures current.Ok? && r.Err? ==> r.error == HttpError(Forbidden, AdminOnly)
  {
    if current.Err? then current
    else if current.value.rol != "admin" then Err(HttpError(Forbidden, AdminOnly))
    else current
  }

  /** `UserInfo` */
  datatype UserInfo = UserInfo(id: int, username: string, nombre: string, rol: string,
                               primerLogin: bool, activo: Option<bool>)

  /** `Token` */
  datatype Token = Token(accessToken: string, tokenType: string, userInfo: UserInfo)

  /** `UserInfo(...)` from a row: `primer_login` and `activo` default to true; a NULL
      `primer_login` fails the `bool` field, which the server reports as an internal error. */
  function UserInfoOf(u: User): Result<UserInfo, HttpError> {
    if u.primerLogin.Null? then Err(HttpError(ServerError, "Internal Server Error"))
    else
      Ok(UserInfo(u.idUsuario, u.username, u.nombre, u.rol,
                  if u.primerLogin.Present? then u.primerLogin.value else true,
                  if u.activo.Missing? then Some(true) else u.activo.ToOption()))
  }

  /** `login`: body validation first, then the credentials, then the inactive gate.
      `lastLoginOk` is whether `update_last_login` succeeds; the source wraps that call in a
      `try`/`except` that discards any error (`backend/routers/auth.py:103-106`), so the result
      ignores `lastLoginOk` by construction. `issue` signs a token for a subject. */
  function Login(req: LoginRequest, authenticate: (string, string) -> Option<User>,
                 lastLoginOk: bool, issue: string -> string): (r: Result<Token, HttpError>)
    ensures !LoginRequestValid(req) ==> r.Err? && r.error.status == Unprocessable
    ensures LoginRequestValid(req) && authenticate(req.username, req.password).None? ==>
      r == Err(HttpError(Unauthorized, BadCredentials))
    ensures LoginRequestValid(req) && authenticate(req.username, req.password).Some? &&
            Inactive(authenticate(req.username, req.password).value) ==>
      r == Err(HttpError(Unauthorized, InactiveUser))
    ensures r.Ok? ==>
      var u := authenticate(req.username, req.password).value;
      r.value.accessToken == issue(u.username) && r.value.tokenType == "bearer" &&
      r.value.userInfo.username == u.username && r.value.userInfo.rol == u.rol
  {
    if !LoginRequestValid(req) then Err(HttpError(Unprocessable, "validation error"))
    else
      var user := authenticate(req.username, req.password);
      if user.None? then Err(HttpError(Unauthorized, BadCredentials))
      else if Inactive(user.value) then Err(HttpError(Unauthorized, InactiveUser))
      else
        var info := UserInfoOf(user.value);
        if info.Err? then Err(info.error)
        else Ok(Token(issue(user.value.username), "bearer", info.value))
  }

  /** A failing `update_last_login` never changes the outcome of a login (this half holds by
      construction, since `Login` never reads that flag); the second half characterises
      exactly when a login succeeds. */
  lemma LastLoginNeverBlocks(req: LoginRequest, authenticate: (string, string) -> Option<User>, issue: string -> string)
    ensures Login(req, authenticate, true, issue) == Login(req, authenticate, false, issue)
    ensures var u := authenticate(req.username, req.password);
      Login(req, authenticate, false, issue).Ok? <==>
      LoginRequestValid(req) && u.Some? && !Inactive(u.value) && !u.value.primerLogin.Null?
  {
  }

  // ---------------------------------------------------------------- test_user diagnostics

  /** A column value of a `RealDictCursor` row. */
  datatype Value = VNull | VBool(b: bool) | VInt(i: int) | VStr(s: string)

  /** Python truthiness of a column value. */
  predicate Truthy(v: Value) {
    match v
    case VNull => false
    case VBool(b) => b
    case VInt(i) => i != 0
    case VStr(s) => s != ""
  }

  /** `user_dict.get("password_hash") or ""`, or `None` when it is a truthy non-string (on which
      `startswith` raises). */
  function HashText(row: map<string, Value>): Option<string> {
    if "password_hash" !in row || !Truthy(row["password_hash"]) then Some("")
    else if row["password_hash"].VStr? then Some(row["password_hash"].s)
    else None
  }

  /** A string longer than 30 characters is cut to its first 30 followed by "...". */
  function Truncated(v: Value): (t: Value)
    ensures v.VStr? && |v.s| > 30 ==> t.VStr? && |t.s| == 33 && t.s[..30] == v.s[..30] && t.s[30..] == "..."
    ensures !(v.VStr? && |v.s| > 30) ==> t == v
  {
    if v.VStr? && |v.s| > 30 then VStr(v.s[..30] + "...") else v
  }

  /** Truncating twice is truncating once. */
  lemma TruncatedIdempotent(v: Value)
    ensures Truncated(Truncated(v)) == Truncated(v)
  {
    if v.VStr? && |v.s| > 30 {
      assert (v.s[..30] + "...")[..30] == v.s[..30];
    }
  }

  predicate IsBcrypt(h: string) { StartsWith(h, "$2b$") || StartsWith(h, "$2a$") }

  const InactiveProblem: string := "Usuario INACTIVO (activo = FALSE)"
  const HashProblem: string := "Password hash inválido (no es bcrypt)"
  const HashFix: string := "Ejecuta: python fix_user_password.py <username> <nueva_contraseña>"

  datatype Diagnostico = Diagnostico(activo: Value, hashValido: bool, hashLongitud: nat,
                                     problemas: seq<string>, solucion: Option<string>)

  /** The response of `test_user`. */
  datatype TestUserResponse =
    | Found(usuario: map<string, Value>, schemaUsado: string, campos: set<string>, diagnostico: Diagnostico)
    | NotFound(mensaje: string, ejemplos: seq<map<string, Value>>)
    | Failed(schemaUsado: string)

  /** `test_user` for the row the query returned (`row`) and the sample rows of the fallback
      query. */
  method TestUser(username: string, schema: string, row: Option<map<string, Value>>, ejemplos: seq<map<string, Value>>)
    returns (r: TestUserResponse)
    ensures row.None? ==> r == NotFound("Usuario '" + username + "' no encontrado en schema '" + schema + "'", ejemplos)
    ensures row.Some? && HashText(row.value).None? ==> r == Failed(schema)
    ensures row.Some? && HashText(row.value).Some? ==>
      var user := row.value;
      var h := HashText(user).value;
      r.Found? && (var d := r.diagnostico;
      r.schemaUsado == schema && r.campos == user.Keys &&
      r.usuario == (if "password_hash" in user then user["password_hash" := Truncated(user["password_hash"])] else user) &&
      d.activo == (if "activo" in user then user["activo"] else VBool(false)) &&
      d.hashValido == IsBcrypt(h) && d.hashLongitud == |h| &&
      d.problemas ==
        (if "activo" in user && user["activo"] == VBool(false) then [InactiveProblem] else []) +
        (if IsBcrypt(h) then [] else [HashProblem]) &&
      (d.solucion.Some? <==> !IsBcrypt(h)) && (d.solucion.Some? ==> d.solucion.value == HashFix))
  {
    if row.None? {
      return NotFound("Usuario '" + username + "' no encontrado en schema '" + schema + "'", ejemplos);
    }
    var userDict := row.value;
    var passwordHash := HashText(userDict);
    if passwordHash.None? {
      return Failed(schema);
    }
    var hashValid := StartsWith(passwordHash.value, "$2b$") || StartsWith(passwordHash.value, "$2a$");
    if "password_hash" in userDict {
      var ph := userDict["password_hash"];
      userDict := userDict["password_hash" := if ph.VStr? && |ph.s| > 30 then VStr(ph.s[..30] + "...") else ph];
    }
    var problemas: seq<string> := [];
    var solucion: Option<string> := None;
    if "activo" in userDict && userDict["activo"] == VBool(false) {
      problemas := problemas + [InactiveProblem];
    }
    if !hashValid {
      problemas := problemas + [HashProblem];
      solucion := Some(HashFix);
    }
    var activo := if "activo" in userDict then userDict["activo"] else VBool(false);
    r := Found(userDict, schema, userDict.Keys,
               Diagnostico(activo, hashValid, |passwordHash.value|, problemas, solucion));
  }

  /** A missing `activo` column is shown as false, yet no inactivity problem is reported: only an
      explicit false is one. A NULL hash counts as the empty text and is reported as not bcrypt. */
  method DiagnosticScenario() returns (r: TestUserResponse)
    ensures r.Found? && r.diagnostico.activo == VBool(false) && r.diagnostico.problemas == [HashProblem]
    ensures r.diagnostico.hashLongitud == 0 && r.diagnostico.solucion == Some(HashFix)
  {
    var row := map["username" := VStr("ana"), "password_hash" := VNull];
    r := TestUser("ana", "public", Some(row), []);
    assert !IsBcrypt("");
  }
}
