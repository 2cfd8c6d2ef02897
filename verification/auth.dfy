/** The authentication middleware: the `Authorization` header must read
    `Bearer <token>`; the token is checked by the JWT verifier (abstract
    here: a function from the token to its payload or to the AppError the
    verifier throws), and the payload's user becomes `req.user`. */
module Auth {
  import opened Util
  import opened ErrorHandler

  /** The signed claims of a session token */
  datatype Payload = Payload(userId: int, email: string)

  /** `req.user` */
  datatype User = User(id: int, email: string)

  /** `authService.verifyToken`: the payload, or the AppError it throws
      (expired or invalid token) */
  type Verifier = string -> Result<Payload, AppError>

  /** The request object, reduced to the field the middleware writes */
  class Request {
    var user: Option<User>

    constructor()
      ensures user.None?
    {
      user := None;
    }
  }

  const Required := NewAppError("Token de autenticación requerido", 401, "AUTH_REQUIRED")
  const BadFormat := NewAppError("Formato de token inválido", 401, "INVALID_TOKEN_FORMAT")

  /** The token carried by the header (`None` when the header is absent) */
  function BearerToken(header: Option<string>): (r: Result<string, AppError>)
    ensures header.None? || header == Some("") ==> r == Err(Required)
    ensures header.Some? && header.value != "" && r.Err? ==> r == Err(BadFormat)
    ensures r.Ok? ==> ' ' !in r.value
  {
    if header.None? || header.value == "" then Err(Required)
    else
      var parts := Split(header.value, ' ');
      if |parts| != 2 || parts[0] != "Bearer" then Err(BadFormat)
      else Ok(parts[1])
  }

  /** Splitting at a separator preceded by a separator-free part */
  lemma {:induction false} SplitAfter(a: string, d: char, t: string)
    requires d !in a
    ensures Split(a + [d] + t, d) == [a] + Split(t, d)
  {
    if a == [] {
      assert a + [d] + t == [d] + t;
      assert ([d] + t)[1..] == t;
    } else {
      assert (a + [d] + t)[1..] == a[1..] + [d] + t;
      SplitAfter(a[1..], d, t);
      assert [a[0]] + a[1..] == a;
    }
  }

  lemma {:induction false} SplitWhole(s: string, d: char)
    requires d !in s
    ensures Split(s, d) == [s]
  {
    if s != [] {
      SplitWhole(s[1..], d);
      assert [s[0]] + s[1..] == s;
    }
  }

  /** A header is accepted exactly when it is "Bearer", one space and a
      token without spaces; the token is what follows the space. */
  lemma BearerTokenExact(header: string, token: string)
    ensures BearerToken(Some(header)) == Ok(token) <==> header == "Bearer " + token && ' ' !in token
  {
    if header == "Bearer " + token && ' ' !in token {
      assert header == "Bearer" + [' '] + token;
      SplitAfter("Bearer", ' ', token);
      SplitWhole(token, ' ');
    }
    if BearerToken(Some(header)) == Ok(token) {
      var parts := Split(header, ' ');
      JoinSplit(header, ' ');
      assert Join(parts, " ") == parts[0] + " " + Join(parts[1..], " ");
    }
  }

  /** `authenticate`'s decision: the user to install, or the error to forward */
  function Authentication(header: Option<string>, verify: Verifier): (r: Result<User, AppError>)
    ensures BearerToken(header).Err? ==> r == Err(BearerToken(header).error)
    ensures BearerToken(header).Ok? && verify(BearerToken(header).value).Err? ==>
              r == Err(verify(BearerToken(header).value).error)
    ensures r.Ok? ==>
              && verify(BearerToken(header).value).Ok?
              && r.value == User(verify(BearerToken(header).value).value.userId, verify(BearerToken(header).value).value.email)
  {
    match BearerToken(header)
    case Err(e) => Err(e)
    case Ok(token) =>
      match verify(token)
      case Err(e) => Err(e)
      case Ok(payload) => Ok(User(payload.userId, payload.email))
  }

  /** `authenticate(req, res, next)`: errors are passed to `next`, never
      thrown; on success `req.user` is set and `next()` runs with no error;
      on failure `req.user` is left alone. */
  method Authenticate(req: Request, header: Option<string>, verify: Verifier) returns (forwarded: Option<AppError>)
    modifies req
    ensures Authentication(header, verify).Ok? ==>
              forwarded.None? && req.user == Some(Authentication(header, verify).value)
    ensures Authentication(header, verify).Err? ==>
              forwarded == Some(Authentication(header, verify).error) && req.user == old(req.user)
  {
    var token := BearerToken(header);
    if token.Err? {
      return Some(token.error);
    }
    var payload := verify(token.value);
    if payload.Err? {
      return Some(payload.error);
    }
    req.user := Some(User(payload.value.userId, payload.value.email));
    return None;
  }

  /** The user `optionalAuth` installs: the authenticated one, else null */
  function OptionalUser(header: Option<string>, verify: Verifier): (u: Option<User>)
  {
    match BearerToken(header)
    case Err(_) => None
    case Ok(token) =>
      match verify(token)
      case Err(_) => None
      case Ok(payload) => Some(User(payload.userId, payload.email))
  }

  /** `optionalAuth` installs a user exactly when `authenticate` would
      accept the request, and the same user. */
  lemma OptionalAgrees(header: Option<string>, verify: Verifier, u: User)
    ensures OptionalUser(header, verify) == Some(u) <==> Authentication(header, verify) == Ok(u)
    ensures OptionalUser(header, verify).None? <==> Authentication(header, verify).Err?
  {
  }

  /** `optionalAuth(req, res, next)`: never fails; a missing, malformed or
      rejected token leaves `req.user` null and the request continues. */
  method OptionalAuth(req: Request, header: Option<string>, verify: Verifier)
    modifies req
    ensures req.user == OptionalUser(header, verify)
  {
    var token := BearerToken(header);
    if token.Err? {
      req.user := None;
      return;
    }
    var payload := verify(token.value);
    if payload.Err? {
      req.user := None;
      return;
    }
    req.user := Some(User(payload.value.userId, payload.value.email));
  }
}
