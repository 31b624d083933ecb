/** Identity resolution: the three strategies and the middleware that projects their result. */
module Auth {
  import opened Wrappers
  import opened Headers
  import opened ExchangeCache
  import TokenExchanger
  import Text

  /** The resolved caller. */
  datatype Identity = Identity(subject: string, user: string, email: string, mode: string, bearerToken: string)

  /** The verdict of the JWT library on a token: its string claims, or why it was refused. */
  datatype Verdict = Valid(claims: map<string, string>) | ColdCache | BadToken

  datatype Strategy =
    | Anonymous
    | Proxy(userHeader: string, emailHeader: string)
    | Jwt(subjectClaim: string, userClaim: string, emailClaim: string, exchanging: bool)

  datatype Resolution = Identified(id: Identity) | InvalidToken | Unavailable

  /** What the middleware does: answer 401 or 503 itself, or pass the request on. */
  datatype Response = Reject(status: int) | Pass(header: Header)

  const UNAUTHENTICATED: set<string> := {"/healthz", "/readyz", "/.well-known/agent.json"}

  const BEARER := "Bearer "

  /** The token of an `Authorization: Bearer <token>` header. */
  function BearerToken(h: Header): Option<string> {
    var v := First(h, Authorization);
    if |v| <= |BEARER| || Text.Lower(v[..|BEARER|]) != Text.Lower(BEARER) then None
    else
      var tok := Text.Trim(v[|BEARER|..]);
      if tok == "" then None else Some(tok)
  }

  function Claim(claims: map<string, string>, name: string): string {
    if name in claims then claims[name] else ""
  }

  /** jwt mode up to the exchange: the identity without a bearer token. */
  function Validated(s: Strategy, h: Header, validate: string -> Verdict): Resolution
    requires s.Jwt?
  {
    match BearerToken(h)
    case None => InvalidToken
    case Some(tok) =>
      match validate(tok)
      case ColdCache => Unavailable
      case BadToken => InvalidToken
      case Valid(claims) =>
        if Claim(claims, s.subjectClaim) == "" then InvalidToken
        else Identified(Identity(Claim(claims, s.subjectClaim), Claim(claims, s.userClaim),
                                 Claim(claims, s.emailClaim), "jwt", ""))
  }

  /** Authenticate, given what the exchange of the caller's token yields if it is reached. */
  function Authenticate(s: Strategy, h: Header, validate: string -> Verdict, exchange: Outcome): Resolution {
    match s
    case Anonymous => Identified(Identity("anonymous", "", "", "anonymous", ""))
    case Proxy(userHeader, emailHeader) =>
      var user := Get(h, userHeader);
      if user == "" then Unavailable
      else Identified(Identity(user, user, if emailHeader == "" then "" else Get(h, emailHeader), "proxy", ""))
    case Jwt(_, _, _, exchanging) =>
      var r := Validated(s, h, validate);
      if !r.Identified? || !exchanging then r
      else match exchange
        case Failed => Unavailable
        case Token(t) => Identified(r.id.(bearerToken := t))
  }

  function Stripped(h: Header): Header {
    h - {Subject, User, Email, Mode}
  }

  /** The header map handed on for an identity: the four canonical headers, empty or not, and
      Authorization only with a token the gateway obtained itself. */
  function Projected(h: Header, id: Identity): Header {
    (if id.bearerToken == "" then h - {Authorization} else h[Authorization := [BEARER + id.bearerToken]])
      [Subject := [id.subject]][User := [id.user]][Email := [id.email]][Mode := [id.mode]]
  }

  function Handled(s: Strategy, path: string, h: Header, validate: string -> Verdict, exchange: Outcome): Response {
    if path in UNAUTHENTICATED then Pass(Stripped(h))
    else match Authenticate(s, Stripped(h), validate, exchange)
      case InvalidToken => Reject(401)
      case Unavailable => Reject(503)
      case Identified(id) => Pass(Projected(Stripped(h), id))
  }

  // ---- The middleware as a program ----------------------------------------------------------

  method StripCanonicalHeaders(h: HeaderMap)
    modifies h
    ensures h.m == Stripped(old(h.m))
  {
    for i := 0 to |CANONICAL_HEADERS|
      invariant h.m == old(h.m) - (set n | n in CANONICAL_HEADERS[..i])
    {
      var name := CANONICAL_HEADERS[i];
      assert CANONICAL_HEADERS[..i + 1] == CANONICAL_HEADERS[..i] + [name];
      h.Del(name);
    }
    assert CANONICAL_HEADERS[..|CANONICAL_HEADERS|] == CANONICAL_HEADERS;
    assert (set n | n in CANONICAL_HEADERS) == {Subject, User, Email, Mode};
  }

  method SetCanonicalHeaders(h: HeaderMap, id: Identity)
    modifies h
    ensures h.m == old(h.m)[Subject := [id.subject]][User := [id.user]][Email := [id.email]][Mode := [id.mode]]
  {
    h.Set(Subject, id.subject);
    h.Set(User, id.user);
    h.Set(Email, id.email);
    h.Set(Mode, id.mode);
  }

  method ProjectAuthorization(h: HeaderMap, id: Identity)
    modifies h
    ensures h.m == if id.bearerToken != "" then old(h.m)[Authorization := [BEARER + id.bearerToken]]
                   else old(h.m) - {Authorization}
  {
    if id.bearerToken != "" {
      h.Set(Authorization, BEARER + id.bearerToken);
      return;
    }
    h.Del(Authorization);
  }

  /** Setting the canonical headers first and Authorization last comes to the same. */
  lemma ProjectedInOrder(h: Header, id: Identity)
    ensures var m := h[Subject := [id.subject]][User := [id.user]][Email := [id.email]][Mode := [id.mode]];
            (if id.bearerToken != "" then m[Authorization := [BEARER + id.bearerToken]] else m - {Authorization})
              == Projected(h, id)
  {
  }

  /** The exchange a request would make with this exchanger. */
  function ExchangeOf(cap: int, cache: map<Key, Entry>, tok: string,
                      load: int, reply: TokenExchanger.Response, store: int): TokenExchanger.Result
  {
    TokenExchanger.Exchanged(cap, cache, TokenExchanger.Request(tok, load, reply, store))
  }

  /** JWTAuth.Authenticate.  `load`, `reply` and `store` are the clock readings and the server's
      reply the exchange would meet.  The cache is touched only for a token that was validated. */
  method AuthenticateJWT(s: Strategy, h: HeaderMap, validate: string -> Verdict, ex: TokenExchanger.Exchanger?,
                         load: int, reply: TokenExchanger.Response, store: int)
      returns (r: Resolution)
    requires s.Jwt? && (s.exchanging <==> ex != null)
    modifies ex
    ensures if ex != null && Validated(s, h.m, validate).Identified? then
              var x := ExchangeOf(ex.cacheCap, old(ex.cache), BearerToken(h.m).value, load, reply, store);
              r == Authenticate(s, h.m, validate, x.outcome) && ex.cache == x.cache
            else
              (forall o :: r == Authenticate(s, h.m, validate, o)) && (ex != null ==> ex.cache == old(ex.cache))
  {
    var tok := BearerToken(h.m);
    if tok.None? {
      return InvalidToken;
    }
    var v := validate(tok.value);
    if v.ColdCache? {
      return Unavailable;
    }
    if v.BadToken? || Claim(v.claims, s.subjectClaim) == "" {
      return InvalidToken;
    }
    var id := Identity(Claim(v.claims, s.subjectClaim), Claim(v.claims, s.userClaim),
                       Claim(v.claims, s.emailClaim), "jwt", "");
    if ex != null {
      var outcome, _ := ex.Exchange(TokenExchanger.Request(tok.value, load, reply, store));
      if outcome.Failed? {
        return Unavailable;
      }
      id := id.(bearerToken := outcome.token);
    }
    return Identified(id);
  }

  /** Middleware: strips, authenticates and projects on the request's own header map, and says
      with which status it answered, or 0 when the next handler runs on that map. */
  method ServeHTTP(s: Strategy, path: string, h: HeaderMap, validate: string -> Verdict, ex: TokenExchanger.Exchanger?,
                   load: int, reply: TokenExchanger.Response, store: int)
      returns (status: int, ghost exchange: Outcome)
    requires s.Jwt? && s.exchanging <==> ex != null
    modifies h, ex
    ensures Handled(s, path, old(h.m), validate, exchange) == if status == 0 then Pass(h.m) else Reject(status)
    ensures ex != null && (path in UNAUTHENTICATED || !Validated(s, Stripped(old(h.m)), validate).Identified?) ==>
              ex.cache == old(ex.cache)
    ensures ex != null && path !in UNAUTHENTICATED && Validated(s, Stripped(old(h.m)), validate).Identified? ==>
              var tok := BearerToken(Stripped(old(h.m))).value;
              var x := ExchangeOf(ex.cacheCap, old(ex.cache), tok, load, reply, store);
              ex.cache == x.cache && exchange == x.outcome
  {
    exchange := Failed;
    StripCanonicalHeaders(h);
    if path in UNAUTHENTICATED {
      return 0, exchange;
    }
    var r;
    if s.Jwt? {
      if ex != null && Validated(s, h.m, validate).Identified? {
        exchange := ExchangeOf(ex.cacheCap, ex.cache, BearerToken(h.m).value, load, reply, store).outcome;
      }
      r := AuthenticateJWT(s, h, validate, ex, load, reply, store);
    } else {
      r := Authenticate(s, h.m, validate, Failed);
    }
    match r
    case InvalidToken => return 401, exchange;
    case Unavailable => return 503, exchange;
    case Identified(id) =>
      ghost var stripped := h.m;
      SetCanonicalHeaders(h, id);
      ProjectAuthorization(h, id);
      ProjectedInOrder(stripped, id);
      return 0, exchange;
  }

  // ---- What a request can influence ---------------------------------------------------------

  /** All that identity resolution reads of a request. */
  datatype Footprint = Nothing | Upstream(user: string, email: string) | Bearer(token: Option<string>)

  function Reads(s: Strategy, h: Header): Footprint {
    match s
    case Anonymous => Nothing
    case Proxy(user, email) => Upstream(Get(h, user), if email == "" then "" else Get(h, email))
    case Jwt(_, _, _, _) => Bearer(BearerToken(h))
  }

  lemma FootprintDecides(s: Strategy, h: Header, h': Header, validate: string -> Verdict, exchange: Outcome)
    ensures Reads(s, h) == Reads(s, h') ==>
              Authenticate(s, h, validate, exchange) == Authenticate(s, h', validate, exchange)
  {
  }
}
