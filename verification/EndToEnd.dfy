/** From a client's bearer token to the backend's Authorization header, in any state that the shared
    token cache can reach. */
module EndToEnd {
  import opened Wrappers
  import opened Headers
  import opened ExchangeCache
  import opened Auth
  import opened Chat

  lemma StripKeepsBearer(h: Header)
    ensures BearerToken(Stripped(h)) == BearerToken(h)
  {
  }

  /** The request gets as far as the exchange. */
  predicate Exchanging(s: Strategy, validate: string -> Verdict, path: string, h: Header) {
    && path !in UNAUTHENTICATED && s.Jwt? && s.exchanging
    && Validated(s, Stripped(h), validate).Identified?
  }

  /** For a request with headers `h`, handed on as `p`: the backend gets `Bearer` and a non-empty token
      that the authorization server issued for the client's own bearer token. */
  ghost predicate CarriesIssued(g: State, i: Issue, h: Header, p: Header) {
    && BearerToken(h).Some? && Vouches(g, i, BearerToken(h).value, i.token)
    && forall ct :: var b := BackendHeaders(ct, p); Authorization in b && b[Authorization] == ["Bearer " + i.token]
  }

  /** In jwt mode with an exchanger, a request whose exchange call has ended with `outcome` is passed
      on exactly if its token was validated and the exchange succeeded, and then every backend request
      made for it carries a token issued for its own. */
  lemma BackendTokenIsTheCallers(g: State, c: nat, outcome: Outcome,
                                 s: Strategy, path: string, h: Header, validate: string -> Verdict)
    requires Inv(g) && s.Jwt? && s.exchanging && path !in UNAUTHENTICATED
    requires BearerToken(h).Some? && At(g, c) == Some(Done(BearerToken(h).value, outcome))
    ensures var r := Handled(s, path, h, validate, outcome);
            && (r.Pass? <==> outcome.Token? && Exchanging(s, validate, path, h))
            && (r.Pass? ==>
                  && validate(BearerToken(h).value).Valid?
                  && exists i :: CarriesIssued(g, i, h, r.header))
  {
    StripKeepsBearer(h);
    if outcome.Token? && Exchanging(s, validate, path, h) {
      assert CallOk(g, g.calls[c]);
      var i :| Vouches(g, i, BearerToken(h).value, outcome.token);
      var r := Handled(s, path, h, validate, outcome);
      forall ct
        ensures var b := BackendHeaders(ct, r.header); Authorization in b && b[Authorization] == ["Bearer " + i.token]
      {
        AuthorizationOnlyByExchange(s, path, h, validate, outcome, ct);
      }
      assert CarriesIssued(g, i, h, r.header);
    }
  }
}
