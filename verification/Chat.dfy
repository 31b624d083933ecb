/** The headers of a backend request, and what of a client's request they can depend on. */
module Chat {
  import opened Wrappers
  import opened Headers
  import opened ExchangeCache
  import opened Auth

  /** The named headers of `src` that have a value. */
  function Selected(src: Header, names: seq<Name>): Header {
    map n | n in names && First(src, n) != "" :: [First(src, n)]
  }

  lemma SelectedSnoc(src: Header, names: seq<Name>, name: Name)
    ensures Selected(src, names + [name])
         == if First(src, name) != "" then Selected(src, names)[name := [First(src, name)]] else Selected(src, names)
  {
  }

  /** The loop shared by the header copies: every named header of `src` that has a value. */
  method CopyHeaders(dst: HeaderMap, src: HeaderMap, names: seq<Name>)
    requires dst != src
    modifies dst
    ensures dst.m == old(dst.m) + Selected(src.m, names)
  {
    for i := 0 to |names|
      invariant dst.m == old(dst.m) + Selected(src.m, names[..i])
    {
      var name := names[i];
      assert name in names && names[..i + 1] == names[..i] + [name];
      SelectedSnoc(src.m, names[..i], name);
      var v := First(src.m, name);
      if v != "" {
        dst.Set(name, v);
      }
    }
    assert names[..|names|] == names;
  }

  method CopyPropagationHeaders(dst: HeaderMap, src: HeaderMap)
    requires dst != src
    modifies dst
    ensures dst.m == old(dst.m) + Selected(src.m, PROPAGATION)
  {
    CopyHeaders(dst, src, PROPAGATION);
  }

  const JSON := "application/json"

  /** The header map of a backend request of this content type, made for a request with headers `h`. */
  function BackendHeaders(contentType: string, h: Header): Header {
    map[ContentType := [contentType]] + Selected(h, FORWARDED) + Selected(h, PROPAGATION)
  }

  /** The header part of doBackendRequest. */
  method DoBackendRequest(r: HeaderMap) returns (req: HeaderMap)
    ensures fresh(req) && req.m == BackendHeaders(JSON, r.m)
    ensures ContentType in req.m && req.m[ContentType] == ["application/json"]
  {
    req := new HeaderMap(map[]);
    req.Set(ContentType, JSON);
    CopyHeaders(req, r, FORWARDED);
    CopyPropagationHeaders(req, r);
  }

  /** multipart.Writer.FormDataContentType, for a boundary that needs no quoting. */
  function FormDataContentType(boundary: string): string {
    "multipart/form-data; boundary=" + boundary
  }

  /** The headers of the upload's backend request. */
  method UploadRequest(r: HeaderMap, boundary: string) returns (upstream: HeaderMap)
    ensures fresh(upstream) && upstream.m == BackendHeaders(FormDataContentType(boundary), r.m)
    ensures ContentType in upstream.m && upstream.m[ContentType] == ["multipart/form-data; boundary=" + boundary]
  {
    upstream := new HeaderMap(map[]);
    upstream.Set(ContentType, FormDataContentType(boundary));
    CopyHeaders(upstream, r, FORWARDED);
    CopyPropagationHeaders(upstream, r);
  }

  // ---- What the backend sees ----------------------------------------------------------------

  /** What a backend request should say: its content type, the caller, the trace headers. */
  datatype Message = Message(contentType: string, id: Identity, traceparent: string, tracestate: string)

  function NonEmpty(value: string): Option<string> {
    if value == "" then None else Some(value)
  }

  /** The value each header should have; None means absent. */
  function Expected(e: Message, name: Name): Option<string> {
    match name
    case ContentType => Some(e.contentType)
    case Subject => NonEmpty(e.id.subject)
    case User => NonEmpty(e.id.user)
    case Email => NonEmpty(e.id.email)
    case Mode => NonEmpty(e.id.mode)
    case Authorization => if e.id.bearerToken == "" then None else Some(BEARER + e.id.bearerToken)
    case Traceparent => NonEmpty(e.traceparent)
    case Tracestate => NonEmpty(e.tracestate)
    case Other(_) => None
  }

  predicate CarriesOne(b: Header, value: Option<string>, n: Name) {
    match value
    case None => n !in b
    case Some(v) => n in b && b[n] == [v]
  }

  /** Exactly the expected values, and no other header. */
  ghost predicate Carries(b: Header, e: Message) {
    forall n :: CarriesOne(b, Expected(e, n), n)
  }

  lemma CarriesUnique(b: Header, b': Header, e: Message)
    requires Carries(b, e) && Carries(b', e)
    ensures b == b'
  {
    forall n ensures (n in b <==> n in b') && (n in b ==> b[n] == b'[n]) {
      assert CarriesOne(b, Expected(e, n), n) && CarriesOne(b', Expected(e, n), n);
    }
  }

  /** What the backend should hear of a request with headers `h` and this identity. */
  function MessageOf(contentType: string, h: Header, id: Identity): Message {
    Message(contentType, id, First(h, Traceparent), First(h, Tracestate))
  }

  /** The backend's header map, of a chat request or an upload, is exactly the non-empty fields of
      the resolved identity, the token the gateway obtained, the trace headers and the request's
      content type; nothing else of the client's headers gets through. */
  lemma BackendSeesIdentity(contentType: string, h: Header, id: Identity)
    ensures Carries(BackendHeaders(contentType, Projected(Stripped(h), id)), MessageOf(contentType, h, id))
  {
    forall n ensures CarriesOne(BackendHeaders(contentType, Projected(Stripped(h), id)),
                                Expected(MessageOf(contentType, h, id), n), n) {
      BackendSeesValue(contentType, h, id, n);
    }
  }

  lemma ProjectedValue(contentType: string, h: Header, id: Identity, n: Name)
    requires n in FORWARDED || n in PROPAGATION
    ensures NonEmpty(First(Projected(Stripped(h), id), n)) == Expected(MessageOf(contentType, h, id), n)
  {
  }

  lemma BackendSeesValue(contentType: string, h: Header, id: Identity, n: Name)
    ensures CarriesOne(BackendHeaders(contentType, Projected(Stripped(h), id)),
                       Expected(MessageOf(contentType, h, id), n), n)
  {
    SelectedValue(contentType, Projected(Stripped(h), id), n);
    if n in FORWARDED || n in PROPAGATION {
      ProjectedValue(contentType, h, id, n);
    } else {
      OtherNames(n);
    }
  }

  lemma OtherNames(n: Name)
    requires n !in FORWARDED && n !in PROPAGATION
    ensures n == ContentType || n.Other?
  {
    assert FORWARDED == [Subject, User, Email, Mode, Authorization] && PROPAGATION == [Traceparent, Tracestate];
  }

  lemma SelectedValue(contentType: string, p: Header, n: Name)
    ensures var b := BackendHeaders(contentType, p);
            CarriesOne(b, if n in FORWARDED || n in PROPAGATION then NonEmpty(First(p, n))
                          else if n == ContentType then Some(contentType) else None, n)
  {
  }

  /** Two requests that the strategy reads alike, with the same trace headers, get the same
      answer, or make backend requests with identical headers. */
  lemma BackendDependsOnFootprint(s: Strategy, path: string, h: Header, h': Header,
                                  validate: string -> Verdict, exchange: Outcome, contentType: string)
    requires path !in UNAUTHENTICATED
    requires Reads(s, Stripped(h)) == Reads(s, Stripped(h'))
    requires First(h, Traceparent) == First(h', Traceparent) && First(h, Tracestate) == First(h', Tracestate)
    ensures var r, r' := Handled(s, path, h, validate, exchange), Handled(s, path, h', validate, exchange);
            if r.Pass? then
              r'.Pass? && BackendHeaders(contentType, r.header) == BackendHeaders(contentType, r'.header)
            else r' == r
  {
    FootprintDecides(s, Stripped(h), Stripped(h'), validate, exchange);
    var r := Authenticate(s, Stripped(h), validate, exchange);
    if r.Identified? {
      BackendSeesIdentity(contentType, h, r.id);
      BackendSeesIdentity(contentType, h', r.id);
      CarriesUnique(BackendHeaders(contentType, Projected(Stripped(h), r.id)),
                    BackendHeaders(contentType, Projected(Stripped(h'), r.id)), MessageOf(contentType, h, r.id));
    }
  }

  /** One request by itself: headers that differ only at the canonical X-Auth-* names make no
      difference to its answer, given what the exchange yields. */
  lemma SpoofedHeadersIrrelevant(s: Strategy, path: string, h: Header, h': Header,
                                 validate: string -> Verdict, exchange: Outcome)
    requires SameButCanonical(h, h')
    ensures Stripped(h) == Stripped(h')
    ensures Handled(s, path, h, validate, exchange) == Handled(s, path, h', validate, exchange)
  {
    assert Stripped(h) == Stripped(h');
  }

  /** The headers differ at most at the canonical X-Auth-* names. */
  ghost predicate SameButCanonical(h: Header, h': Header) {
    forall n | n !in CANONICAL_HEADERS :: (n in h <==> n in h') && (n in h ==> h[n] == h'[n])
  }

  lemma CarriesAuthorization(b: Header, e: Message)
    requires Carries(b, e)
    ensures Authorization in b <==> e.id.bearerToken != ""
    ensures Authorization in b ==> b[Authorization] == [BEARER + e.id.bearerToken]
  {
    assert CarriesOne(b, Expected(e, Authorization), Authorization);
  }

  lemma TokenOnlyByExchange(s: Strategy, h: Header, validate: string -> Verdict, exchange: Outcome)
    ensures match Authenticate(s, h, validate, exchange)
            case Identified(id) =>
              if s.Jwt? && s.exchanging then exchange.Token? && id.bearerToken == exchange.token
              else id.bearerToken == ""
            case _ => true
  {
  }

  /** Authorization reaches the backend only as a token obtained by exchange in jwt mode. */
  lemma AuthorizationOnlyByExchange(s: Strategy, path: string, h: Header,
                                    validate: string -> Verdict, exchange: Outcome, contentType: string)
    requires path !in UNAUTHENTICATED && Handled(s, path, h, validate, exchange).Pass?
    requires exchange.Token? ==> exchange.token != ""
    ensures var b := BackendHeaders(contentType, Handled(s, path, h, validate, exchange).header);
            && (Authorization in b <==> s.Jwt? && s.exchanging)
            && (Authorization in b ==> exchange.Token? && b[Authorization] == ["Bearer " + exchange.token])
  {
    var id := Authenticate(s, Stripped(h), validate, exchange).id;
    TokenOnlyByExchange(s, Stripped(h), validate, exchange);
    BackendSeesIdentity(contentType, h, id);
    CarriesAuthorization(BackendHeaders(contentType, Projected(Stripped(h), id)), MessageOf(contentType, h, id));
  }
}
