/**
  The access gateway of the search service: the login route that issues a
  signed token, and the authenticate and authorize wrappers that every
  gated route (/home POST, /create, /searchByImg, /searchImg) runs, in that
  order, before its handler.

  The JWT library and bcrypt are foreign: signature checking and decoding
  is the parameter `decode` (None for a token whose signature or structure
  is bad), bcrypt.checkpw is the parameter `checkpw`, and the signed token
  produced from the claims is not modelled beyond the claims it carries.
  Times are whole seconds since the epoch, as the JWT library encodes them.
 */
module Gateway {
  import opened Wrappers

  /** A salted password hash as stored in the user table; its bytes are opaque here. */
  type Hash = seq<int>

  /** HTTP basic credentials; a field the client left out is the empty string. */
  datatype BasicAuth = BasicAuth(username: string, password: string)

  /** The claims of a decoded token that the service reads. */
  datatype Claims = Claims(user: Option<string>, exp: Option<int>)

  /** An error response: HTTP status and the `error` field of its JSON body. */
  datatype Denial = Denial(status: int, error: string)

  /** Lifetime of an issued token: 30 minutes. */
  const TokenLifetime: int := 30 * 60

  const MissingCredentials: Denial := Denial(401, "Missing username or password")
  const UnknownUser: Denial := Denial(401, "Invalid username")
  const WrongPassword: Denial := Denial(401, "Invalid password")
  const MissingToken: Denial := Denial(401, "Missing token")
  const InvalidToken: Denial := Denial(401, "Invalid token")
  const Unauthorized: Denial := Denial(403, "Unauthorized")

  /**
    POST /login. The three checks run in order (credentials present, user
    known, password matches); only when all pass are claims issued, naming
    the user and expiring TokenLifetime seconds after `now`.
   */
  function Login(auth: Option<BasicAuth>, users: map<string, Hash>,
                 checkpw: (string, Hash) -> bool, now: int): (r: Result<Claims, Denial>)
    ensures r.Ok? <==> && auth.Some? && auth.value.username != "" && auth.value.password != ""
                       && auth.value.username in users
                       && checkpw(auth.value.password, users[auth.value.username])
    ensures r.Ok? ==> r.value == Claims(Some(auth.value.username), Some(now + TokenLifetime))
    ensures auth.None? || auth.value.username == "" || auth.value.password == "" ==> r == Err(MissingCredentials)
    ensures auth.Some? && auth.value.username != "" && auth.value.password != "" ==>
              (auth.value.username !in users <==> r == Err(UnknownUser))
    ensures r == Err(WrongPassword) <==>
              && auth.Some? && auth.value.username != "" && auth.value.password != ""
              && auth.value.username in users
              && !checkpw(auth.value.password, users[auth.value.username])
  {
    if auth.None? || auth.value.username == "" || auth.value.password == "" then
      Err(MissingCredentials)
    else if auth.value.username !in users then
      Err(UnknownUser)
    else if !checkpw(auth.value.password, users[auth.value.username]) then
      Err(WrongPassword)
    else
      Ok(Claims(Some(auth.value.username), Some(now + TokenLifetime)))
  }

  /** The JWT `exp` rule: a token is expired from the second its expiry is reached. */
  predicate Expired(exp: Option<int>, now: int)
  {
    exp.Some? && exp.value <= now
  }

  /**
    The authenticate wrapper: reads the Authorization header, decodes it,
    and yields the subject stored in the `user` claim (what the source puts
    in g.user). A missing or empty header is "Missing token"; a token that
    does not decode, has expired, or lacks a `user` claim is "Invalid token".
   */
  function Authenticate(header: Option<string>, decode: string -> Option<Claims>, now: int): (r: Result<string, Denial>)
    ensures header.None? || header.value == "" <==> r == Err(MissingToken)
    ensures r.Ok? <==> && header.Some? && header.value != "" && decode(header.value).Some?
                       && !Expired(decode(header.value).value.exp, now)
                       && decode(header.value).value.user.Some?
    ensures r.Ok? ==> r.value == decode(header.value).value.user.value
    ensures r.Err? ==> r.error == MissingToken || r.error == InvalidToken
  {
    if header.None? || header.value == "" then
      Err(MissingToken)
    else
      match decode(header.value)
      case None => Err(InvalidToken)
      case Some(claims) =>
        if Expired(claims.exp, now) || claims.user.None? then Err(InvalidToken)
        else Ok(claims.user.value)
  }

  /** The authorize wrapper: the authenticated subject must be a key of the user table. */
  function Authorize(subject: string, users: map<string, Hash>): (r: Result<string, Denial>)
    ensures r.Ok? <==> subject in users
    ensures r.Ok? ==> r.value == subject
    ensures r.Err? ==> r.error == Unauthorized
  {
    if subject in users then Ok(subject) else Err(Unauthorized)
  }

  /**
    A gated route: authenticate, then authorize, then the handler with the
    verified subject. A rejection at either wrapper is returned as is.
   */
  function Gate<R>(header: Option<string>, decode: string -> Option<Claims>, now: int,
                   users: map<string, Hash>, handler: string -> R): (r: Result<R, Denial>)
    ensures r.Ok? <==> Authenticate(header, decode, now).Ok? && Authenticate(header, decode, now).value in users
    ensures r.Ok? ==> r.value == handler(Authenticate(header, decode, now).value)
    ensures r.Err? ==> r.error in {MissingToken, InvalidToken, Unauthorized}
    ensures Authenticate(header, decode, now).Err? ==> r == Err(Authenticate(header, decode, now).error)
    ensures Authenticate(header, decode, now).Ok? && Authenticate(header, decode, now).value !in users ==>
              r == Err(Unauthorized)
  {
    match Authenticate(header, decode, now)
    case Err(d) => Err(d)
    case Ok(subject) =>
      match Authorize(subject, users)
      case Err(d) => Err(d)
      case Ok(user) => Ok(handler(user))
  }

  /** A rejected request never reaches its handler: any other handler gives the same response. */
  lemma RejectedIgnoresHandler<R>(header: Option<string>, decode: string -> Option<Claims>, now: int,
                                  users: map<string, Hash>, h1: string -> R, h2: string -> R)
    requires Gate(header, decode, now, users, h1).Err?
    ensures Gate(header, decode, now, users, h2) == Gate(header, decode, now, users, h1)
  {
  }

  /**
    A token issued by Login at time `issued` to a known user is accepted by
    every gated route at any time before issued + TokenLifetime, and
    rejected as "Invalid token" from then on (the JWT `exp` rule of
    section 4.1.4 of RFC 7519).
   */
  lemma IssuedTokenLifetime<R>(auth: Option<BasicAuth>, users: map<string, Hash>, checkpw: (string, Hash) -> bool,
                               issued: int, token: string, decode: string -> Option<Claims>,
                               now: int, handler: string -> R)
    requires Login(auth, users, checkpw, issued).Ok?
    requires token != "" && decode(token) == Some(Login(auth, users, checkpw, issued).value)
    ensures now < issued + TokenLifetime ==>
              Gate(Some(token), decode, now, users, handler) == Ok(handler(auth.value.username))
    ensures now >= issued + TokenLifetime ==>
              Gate(Some(token), decode, now, users, handler) == Err(InvalidToken)
  {
  }
}
