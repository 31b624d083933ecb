/** What identity resolution gives the next handler and the backend, in each mode, from the request, the
    configuration and the verdict on the token. */
module IdentityLaws {
  import opened Wrappers
  import opened Headers
  import opened ExchangeCache
  import opened Auth
  import opened Chat
  import opened EndToEnd
  import opened Text

  // ---- The bearer token -------------------------------------------------------------------------

  /** `v` is a bearer credential for `t`: the scheme in any letter case, a blank, and the token between
      white space. */
  predicate Credential(v: string, scheme: string, a: string, t: string, b: string) {
    v == scheme + " " + a + t + b && Lower(scheme) == "bearer" && AllSpace(a) && AllSpace(b)
  }

  lemma SchemeCut(v: string)
    requires |v| >= 7
    ensures Lower(v[..7]) == Lower(BEARER) <==> Lower(v[..6]) == "bearer" && v[6] == ' '
  {
    assert v[..7] == v[..6] + [v[6]];
    LowerConcat(v[..6], [v[6]]);
    assert Lower("Bearer ") == "bearer" + " ";
    assert LowerChar(v[6]) == ' ' <==> v[6] == ' ';
    assert Lower([v[6]]) == [LowerChar(v[6])];
    if Lower(v[..7]) == Lower(BEARER) {
      assert Lower(v[..6]) == Lower(v[..7])[..6];
      assert LowerChar(v[6]) == Lower(v[..7])[6];
    }
  }

  /** The bearer token of a request, exactly: the tight, non-empty text of a bearer credential in the
      first value of Authorization. */
  lemma BearerExactly(h: Header, t: string)
    ensures BearerToken(h) == Some(t) <==>
            t != "" && Tight(t) && exists scheme, a, b :: Credential(First(h, Authorization), scheme, a, t, b)
  {
    var v := First(h, Authorization);
    if BearerToken(h) == Some(t) {
      SchemeCut(v);
      var a, b := TrimParts(v[7..]);
      assert v == v[..6] + " " + a + t + b by {
        assert v == v[..6] + [v[6]] + v[7..];
      }
      assert Credential(v, v[..6], a, t, b);
    }
    if t != "" && Tight(t) && exists scheme, a, b :: Credential(v, scheme, a, t, b) {
      var scheme, a, b :| Credential(v, scheme, a, t, b);
      CredentialFound(h, scheme, a, t, b);
    }
  }

  lemma CredentialFound(h: Header, scheme: string, a: string, t: string, b: string)
    requires Credential(First(h, Authorization), scheme, a, t, b) && t != "" && Tight(t)
    ensures BearerToken(h) == Some(t)
  {
    var v := First(h, Authorization);
    assert |scheme| == |Lower(scheme)| == 6;
    assert v[..6] == scheme && v[6] == ' ' && v[7..] == a + t + b;
    SchemeCut(v);
    TrimUnique(a, t, b);
  }

  // ---- What is handed on ------------------------------------------------------------------------

  /** The header map handed to the next handler: this identity, this token or no Authorization, and all
      else as the client sent it. */
  ghost predicate HandsOn(p: Header, h: Header,
                          subject: string, user: string, email: string, mode: string, token: string) {
    && Subject in p && p[Subject] == [subject] && User in p && p[User] == [user]
    && Email in p && p[Email] == [email] && Mode in p && p[Mode] == [mode]
    && (if token == "" then Authorization !in p else Authorization in p && p[Authorization] == ["Bearer " + token])
    && forall n | n !in {Subject, User, Email, Mode, Authorization} :: (n in p <==> n in h) && (n in h ==> p[n] == h[n])
  }

  /** A header that is there with this one value, or absent when the value is empty. */
  predicate Says(b: Header, n: Name, value: string) {
    if value == "" then n !in b else n in b && b[n] == [value]
  }

  /** What has been handed on reaches the backend: the identity, the token, the trace headers, the
      content type, and nothing else. */
  lemma HandedOnReaches(contentType: string, p: Header, h: Header,
                        subject: string, user: string, email: string, mode: string, token: string)
    requires HandsOn(p, h, subject, user, email, mode, token)
    ensures var b := BackendHeaders(contentType, p);
            && Says(b, Subject, subject) && Says(b, User, user) && Says(b, Email, email) && Says(b, Mode, mode)
            && Says(b, Authorization, if token == "" then "" else "Bearer " + token)
            && Says(b, Traceparent, First(h, Traceparent)) && Says(b, Tracestate, First(h, Tracestate))
            && ContentType in b && b[ContentType] == [contentType]
            && forall n: Name | n in b :: !n.Other?
  {
    OneReaches(contentType, p, Subject, subject);
    OneReaches(contentType, p, User, user);
    OneReaches(contentType, p, Email, email);
    OneReaches(contentType, p, Mode, mode);
    OneReaches(contentType, p, Authorization, if token == "" then "" else "Bearer " + token);
    OneReaches(contentType, p, Traceparent, First(h, Traceparent));
    OneReaches(contentType, p, Tracestate, First(h, Tracestate));
    NoOtherReaches(contentType, p);
  }

  lemma OneReaches(contentType: string, p: Header, n: Name, value: string)
    requires n in {Subject, User, Email, Mode, Authorization, Traceparent, Tracestate} && First(p, n) == value
    ensures Says(BackendHeaders(contentType, p), n, value)
  {
    SelectedValue(contentType, p, n);
    assert FORWARDED == [Subject, User, Email, Mode, Authorization] && PROPAGATION == [Traceparent, Tracestate];
    assert n in FORWARDED || n in PROPAGATION;
  }

  lemma NoOtherReaches(contentType: string, p: Header)
    ensures var b := BackendHeaders(contentType, p);
            ContentType in b && b[ContentType] == [contentType] && forall n: Name | n in b :: !n.Other?
  {
    SelectedValue(contentType, p, ContentType);
    assert FORWARDED == [Subject, User, Email, Mode, Authorization] && PROPAGATION == [Traceparent, Tracestate];
    forall n: Name | n in BackendHeaders(contentType, p) ensures !n.Other? {
      SelectedValue(contentType, p, n);
    }
  }

  lemma ProjectedHandsOn(h: Header, id: Identity)
    ensures HandsOn(Projected(Stripped(h), id), h, id.subject, id.user, id.email, id.mode, id.bearerToken)
  {
  }

  // ---- Each mode --------------------------------------------------------------------------------

  /** The probe and discovery paths: no identity, and the client's headers but for the canonical ones. */
  lemma ExemptExactly(s: Strategy, path: string, h: Header, validate: string -> Verdict, exchange: Outcome)
    requires path in {"/healthz", "/readyz", "/.well-known/agent.json"}
    ensures var r := Handled(s, path, h, validate, exchange);
            && r.Pass? && (forall n | n in {Subject, User, Email, Mode} :: n !in r.header)
            && forall n | n !in {Subject, User, Email, Mode} ::
                 (n in r.header <==> n in h) && (n in h ==> r.header[n] == h[n])
  {
  }

  predicate OtherPath(path: string) {
    path != "/healthz" && path != "/readyz" && path != "/.well-known/agent.json"
  }

  function OrEmpty(claims: map<string, string>, name: string): string {
    if name in claims then claims[name] else ""
  }

  /** jwt mode, exactly: 401 without a bearer token, with a bad one, or with one without a subject; 503
      when the keys are not there or the exchange fails; and otherwise the configured claims as
      subject, user and email, with the exchanged token or none. */
  lemma JwtExactly(s: Strategy, path: string, h: Header, validate: string -> Verdict, exchange: Outcome)
    requires s.Jwt? && OtherPath(path)
    ensures var r, tok := Handled(s, path, h, validate, exchange), BearerToken(h);
            var verdict := if tok.Some? then validate(tok.value) else BadToken;
            var subject := if verdict.Valid? then OrEmpty(verdict.claims, s.subjectClaim) else "";
            && (r == Reject(401) <==> tok.None? || verdict.BadToken? || (verdict.Valid? && subject == ""))
            && (r == Reject(503) <==>
                  && tok.Some?
                  && (verdict.ColdCache? || (subject != "" && s.exchanging && exchange.Failed?)))
            && (r.Pass? <==> tok.Some? && subject != "" && (s.exchanging ==> exchange.Token?))
            && (r.Pass? ==>
                  HandsOn(r.header, h, subject, OrEmpty(verdict.claims, s.userClaim),
                          OrEmpty(verdict.claims, s.emailClaim), "jwt", if s.exchanging then exchange.token else ""))
  {
    StripKeepsBearer(h);
    var r := Handled(s, path, h, validate, exchange);
    if r.Pass? {
      ProjectedHandsOn(h, Authenticate(s, Stripped(h), validate, exchange).id);
    }
  }

  /** The value of a configured header, as the client sent it; one of the canonical names has none. */
  function Configured(h: Header, name: string): string {
    if name == "" || NameOf(name) in {Subject, User, Email, Mode} then "" else First(h, NameOf(name))
  }

  /** proxy mode, exactly: 503 when the user header is missing or empty, and otherwise its value as
      subject and user, the email header's as email, and no token. */
  lemma ProxyExactly(s: Strategy, path: string, h: Header, validate: string -> Verdict, exchange: Outcome)
    requires s.Proxy? && s.userHeader != "" && OtherPath(path)
    ensures var r, user := Handled(s, path, h, validate, exchange), Configured(h, s.userHeader);
            && (r == Reject(503) <==> user == "") && (r.Pass? <==> user != "")
            && (r.Pass? ==> HandsOn(r.header, h, user, user, Configured(h, s.emailHeader), "proxy", ""))
  {
    var user, email := Configured(h, s.userHeader), Configured(h, s.emailHeader);
    ConfiguredIsRead(h, s.userHeader);
    if s.emailHeader != "" {
      ConfiguredIsRead(h, s.emailHeader);
    }
    ProxyResolves(s, Stripped(h), validate, exchange, user, email);
    if user != "" {
      ProjectedHandsOn(h, Identity(user, user, email, "proxy", ""));
    }
  }

  lemma ConfiguredIsRead(h: Header, name: string)
    requires name != ""
    ensures Get(Stripped(h), name) == Configured(h, name)
  {
  }

  lemma ProxyResolves(s: Strategy, h: Header, validate: string -> Verdict, exchange: Outcome,
                      user: string, email: string)
    requires s.Proxy? && Get(h, s.userHeader) == user
    requires email == if s.emailHeader == "" then "" else Get(h, s.emailHeader)
    ensures Authenticate(s, h, validate, exchange)
         == if user == "" then Unavailable else Identified(Identity(user, user, email, "proxy", ""))
  {
  }

  /** anonymous mode: every request is handed on as `anonymous`, without user, email or token. */
  lemma AnonymousExactly(path: string, h: Header, validate: string -> Verdict, exchange: Outcome)
    requires OtherPath(path)
    ensures var r := Handled(Anonymous, path, h, validate, exchange);
            r.Pass? && HandsOn(r.header, h, "anonymous", "", "", "anonymous", "")
  {
    ProjectedHandsOn(h, Identity("anonymous", "", "", "anonymous", ""));
  }
}
