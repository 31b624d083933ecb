/** Many requests at once: each passes through the middleware and, when its token has been
    validated, begins its own exchange call on the shared cache and waits for it. */
module Gateway {
  import opened Wrappers
  import opened Machine
  import opened Headers
  import opened Auth
  import opened Chat
  import opened EndToEnd
  import Cache = ExchangeCache

  datatype Request = Request(path: string, header: Header)

  /** The requests that have arrived and the answers of the middleware so far.  The exchange call of
      a request has the request's own number. */
  datatype State = State(cache: Cache.State, requests: map<nat, Request>, answers: map<nat, Response>)

  datatype Action =
    | Arrive(c: nat, q: Request)  // the middleware runs up to the exchange, or to its answer
    | Inside(a: Cache.Action)     // the clock, or a step inside some Exchange call
    | Resume(c: nat)              // Exchange has returned and the middleware goes on

  /** The bearer token of a request. */
  function Bearer(q: Request): string {
    match BearerToken(q.header) case Some(t) => t case None => ""
  }

  /** All the machine needs to know of the middleware: whether a request gets as far as the exchange,
      and its answer given what the exchange yields. */
  datatype Middleware = Middleware(exchanges: Request -> bool, answer: (Request, Cache.Outcome) -> Response)

  /** The middleware with this strategy and this JWT library. */
  function Configured(s: Strategy, validate: string -> Verdict): Middleware {
    Middleware((q: Request) => Exchanging(s, validate, q.path, q.header),
               (q: Request, outcome: Cache.Outcome) => Handled(s, q.path, q.header, validate, outcome))
  }

  function Step(m: Middleware, g: State, a: Action): Option<State> {
    match a
    case Arrive(c, q) =>
      if c in g.requests then None
      else if m.exchanges(q) then
        (match Cache.Step(g.cache, Cache.Begin(c, Bearer(q)))
         case None => None
         case Some(t) => Some(g.(cache := t, requests := g.requests[c := q])))
      else
        Some(g.(requests := g.requests[c := q], answers := g.answers[c := m.answer(q, Cache.Failed)]))
    case Inside(b) =>
      if b.Begin? then None
      else (match Cache.Step(g.cache, b) case None => None case Some(t) => Some(g.(cache := t)))
    case Resume(c) =>
      if c !in g.requests || c in g.answers then None
      else (match Cache.At(g.cache, c)
            case Some(Done(_, outcome)) =>
              Some(g.(answers := g.answers[c := m.answer(g.requests[c], outcome)]))
            case _ => None)
  }

  function After(m: Middleware, cap: int, now: int, acts: seq<Action>): Option<State> {
    Exec((g, a) => Step(m, g, a), State(Cache.Start(cap, now), map[], map[]), acts)
  }

  // ---- Requests and their calls -------------------------------------------------------------

  /** A request that exchanges has a call under its own token and, once answered, the answer to that
      call's outcome; any other has none and was answered at once. */
  predicate LinkOk(m: Middleware, q: Request, call: Option<Cache.Call>, r: Option<Response>) {
    if m.exchanges(q) then
      && call.Some? && call.value.subject == Bearer(q)
      && (r.Some? ==> call.value.Done? && r.value == m.answer(q, call.value.outcome))
    else call.None? && r == Some(m.answer(q, Cache.Failed))
  }

  function Answered(g: State, c: nat): Option<Response> {
    if c in g.answers then Some(g.answers[c]) else None
  }

  predicate Linked(m: Middleware, g: State, c: nat)
    requires c in g.requests
  {
    LinkOk(m, g.requests[c], Cache.At(g.cache, c), Answered(g, c))
  }

  ghost predicate Links(m: Middleware, g: State) {
    && (forall c | c in g.cache.calls || c in g.answers :: c in g.requests)
    && (forall c | c in g.requests :: Linked(m, g, c))
  }

  ghost predicate Inv(m: Middleware, g: State) {
    Cache.Inv(g.cache) && Links(m, g)
  }

  /** A step inside the exchanger begins no call, renames none and reopens none. */
  lemma CallsStay(g: Cache.State, a: Cache.Action)
    requires !a.Begin? && Cache.Step(g, a).Some?
    ensures var t := Cache.Step(g, a).value;
            && t.calls.Keys == g.calls.Keys
            && (forall c | c in g.calls :: t.calls[c].subject == g.calls[c].subject)
            && (forall c | c in g.calls && g.calls[c].Done? :: t.calls[c] == g.calls[c])
  {
  }

  /** A step that concerns request `c` alone keeps all links if it keeps that one. */
  lemma OthersStay(m: Middleware, g: State, t: State, c: nat)
    requires Links(m, g)
    requires c in t.requests && Linked(m, t, c)
    requires forall d | d != c :: d in t.requests <==> d in g.requests
    requires forall d | d != c && d in g.requests :: t.requests[d] == g.requests[d]
    requires forall d | d != c :: Cache.At(t.cache, d) == Cache.At(g.cache, d) && Answered(t, d) == Answered(g, d)
    ensures Links(m, t)
  {
    forall d | d in t.requests && d != c ensures Linked(m, t, d) {
      assert Linked(m, g, d) && Cache.At(t.cache, d) == Cache.At(g.cache, d) && Answered(t, d) == Answered(g, d);
    }
    forall d | d in t.cache.calls || d in t.answers ensures d in t.requests {
      assert Cache.At(t.cache, d) == Cache.At(g.cache, d) || d == c;
    }
  }

  /** A request that waits for its exchange ... */
  lemma WaitingKeeps(m: Middleware, g: State, c: nat, q: Request, t: State)
    requires Links(m, g) && c !in g.requests && m.exchanges(q)
    requires t.requests == g.requests[c := q] && t.answers == g.answers
    requires t.cache.calls == g.cache.calls[c := Cache.Loading(Bearer(q))]
    ensures Links(m, t)
  {
    assert Cache.At(t.cache, c) == Some(Cache.Loading(Bearer(q))) && Answered(t, c) == None;
    OthersStay(m, g, t, c);
  }

  /** ... and one that is answered at once. */
  lemma AnsweringKeeps(m: Middleware, g: State, c: nat, q: Request, r: Response)
    requires Links(m, g) && c !in g.requests && !m.exchanges(q)
    requires r == m.answer(q, Cache.Failed)
    ensures Links(m, State(g.cache, g.requests[c := q], g.answers[c := r]))
  {
    OthersStay(m, g, State(g.cache, g.requests[c := q], g.answers[c := r]), c);
  }

  lemma ArriveKeeps(m: Middleware, g: State, c: nat, q: Request)
    requires Links(m, g) && Step(m, g, Arrive(c, q)).Some?
    ensures Links(m, Step(m, g, Arrive(c, q)).value)
  {
    if m.exchanges(q) {
      WaitingKeeps(m, g, c, q, Step(m, g, Arrive(c, q)).value);
    } else {
      AnsweringKeeps(m, g, c, q, m.answer(q, Cache.Failed));
    }
  }

  lemma InsideKeeps(m: Middleware, g: State, a: Cache.Action)
    requires Links(m, g) && Step(m, g, Inside(a)).Some?
    ensures Links(m, Step(m, g, Inside(a)).value)
  {
    var t := Step(m, g, Inside(a)).value;
    CallsStay(g.cache, a);
    forall d | d in t.requests ensures Linked(m, t, d) {
      assert Linked(m, g, d);
    }
  }

  lemma ResumeKeeps(m: Middleware, g: State, c: nat)
    requires Links(m, g) && Step(m, g, Resume(c)).Some?
    ensures Links(m, Step(m, g, Resume(c)).value)
  {
    var t := Step(m, g, Resume(c)).value;
    assert Linked(m, g, c);
    OthersStay(m, g, t, c);
  }

  lemma CacheKept(m: Middleware, g: State, a: Action)
    requires Cache.Inv(g.cache) && Step(m, g, a).Some?
    ensures Cache.Inv(Step(m, g, a).value.cache)
  {
    match a
    case Arrive(c, q) =>
      if m.exchanges(q) {
        Cache.InvKept(g.cache, Cache.Begin(c, Bearer(q)));
      }
    case Inside(b) => Cache.InvKept(g.cache, b);
    case Resume(_) =>
  }

  lemma InvKept(m: Middleware, g: State, a: Action)
    requires Inv(m, g) && Step(m, g, a).Some?
    ensures Inv(m, Step(m, g, a).value)
  {
    CacheKept(m, g, a);
    match a
    case Arrive(c, q) => ArriveKeeps(m, g, c, q);
    case Inside(b) => InsideKeeps(m, g, b);
    case Resume(c) => ResumeKeeps(m, g, c);
  }

  lemma RunKeepsInv(m: Middleware, cap: int, now: int, acts: seq<Action>)
    requires After(m, cap, now, acts).Some?
    ensures Inv(m, After(m, cap, now, acts).value)
  {
    forall g, a | Inv(m, g) && Step(m, g, a).Some?
      ensures Inv(m, Step(m, g, a).value)
    {
      InvKept(m, g, a);
    }
    InvariantHolds((g, a) => Step(m, g, a), g => Inv(m, g),
                   State(Cache.Start(cap, now), map[], map[]), acts);
  }

  // ---- What reaches the backend ---------------------------------------------------------------

  /** A request that needs no exchange gets the same answer whatever an exchange would yield. */
  lemma NoExchangeNoMatter(s: Strategy, validate: string -> Verdict, q: Request, outcome: Cache.Outcome)
    requires !Exchanging(s, validate, q.path, q.header)
    ensures Configured(s, validate).answer(q, outcome) == Configured(s, validate).answer(q, Cache.Failed)
  {
  }

  /** A request that has a bearer token to exchange. */
  lemma ExchangingHasBearer(s: Strategy, validate: string -> Verdict, q: Request)
    requires Exchanging(s, validate, q.path, q.header)
    ensures BearerToken(q.header) == Some(Bearer(q))
  {
    StripKeepsBearer(q.header);
  }

  lemma NoExchangeNoPass(s: Strategy, validate: string -> Verdict, q: Request)
    requires s.Jwt? && s.exchanging && q.path !in UNAUTHENTICATED
    requires !Exchanging(s, validate, q.path, q.header)
    ensures !Configured(s, validate).answer(q, Cache.Failed).Pass?
  {
  }

  /** The exchange call of request `c` has ended with a token. */
  predicate GotToken(g: State, c: nat) {
    c in g.cache.calls && g.cache.calls[c].Done? && g.cache.calls[c].outcome.Token?
  }

  /** In jwt mode with an exchanger, in every run of any number of requests on one cache: an answered
      request was passed on exactly if its own exchange yielded a token, and then its bearer token
      was valid and every backend request made for it carries a token issued for its own. */
  lemma EveryBackendTokenIsTheCallers(s: Strategy, validate: string -> Verdict, cap: int, now: int,
                                      acts: seq<Action>, c: nat)
    requires s.Jwt? && s.exchanging && After(Configured(s, validate), cap, now, acts).Some?
    requires var g := After(Configured(s, validate), cap, now, acts).value;
             c in g.answers && c in g.requests && g.requests[c].path !in UNAUTHENTICATED
    ensures var g := After(Configured(s, validate), cap, now, acts).value;
            var q, r := g.requests[c], g.answers[c];
            && (r.Pass? <==> GotToken(g, c))
            && (r.Pass? ==>
                  && validate(Bearer(q)).Valid?
                  && exists i :: CarriesIssued(g.cache, i, q.header, r.header))
  {
    var m := Configured(s, validate);
    RunKeepsInv(m, cap, now, acts);
    var g := After(m, cap, now, acts).value;
    var q := g.requests[c];
    assert Linked(m, g, c);
    if m.exchanges(q) {
      ExchangingHasBearer(s, validate, q);
      BackendTokenIsTheCallers(g.cache, c, g.cache.calls[c].outcome, s, q.path, q.header, validate);
    } else {
      NoExchangeNoPass(s, validate, q);
    }
  }

  // ---- Noninterference over two runs ----------------------------------------------------------

  /** The same request but for what the client put under the canonical X-Auth-* names. */
  ghost predicate Alike(q: Request, q': Request) {
    q.path == q'.path && SameButCanonical(q.header, q'.header)
  }

  ghost predicate AlikeActions(a: Action, a': Action) {
    a == a' || (a.Arrive? && a'.Arrive? && a.c == a'.c && Alike(a.q, a'.q))
  }

  /** The clients of the two runs do the same but for spoofed headers, and so do the scheduler, the
      clock and the authorization server. */
  ghost predicate AlikeRuns(acts: seq<Action>, acts': seq<Action>) {
    |acts| == |acts'| && forall i | 0 <= i < |acts| :: AlikeActions(acts[i], acts'[i])
  }

  /** Nothing but the spoofed headers themselves tells the two states apart. */
  ghost predicate Indistinguishable(g: State, g': State) {
    && g.cache == g'.cache && g.answers == g'.answers
    && (forall c :: c in g.requests <==> c in g'.requests)
    && (forall c | c in g.requests :: Alike(g.requests[c], g'.requests[c]))
  }

  /** The middleware cannot tell two requests apart. */
  ghost predicate Blurs(m: Middleware, q: Request, q': Request) {
    && Bearer(q) == Bearer(q') && m.exchanges(q) == m.exchanges(q')
    && forall outcome :: m.answer(q, outcome) == m.answer(q', outcome)
  }

  ghost predicate Blind(m: Middleware) {
    forall q, q' :: Alike(q, q') ==> Blurs(m, q, q')
  }

  lemma MiddlewareIsBlind(s: Strategy, validate: string -> Verdict)
    ensures Blind(Configured(s, validate))
  {
    var m := Configured(s, validate);
    forall q, q' | Alike(q, q') ensures Blurs(m, q, q') {
      StripKeepsBearer(q.header);
      StripKeepsBearer(q'.header);
      SpoofedHeadersIrrelevant(s, q.path, q.header, q'.header, validate, Cache.Failed);
      forall outcome ensures m.answer(q, outcome) == m.answer(q', outcome) {
        SpoofedHeadersIrrelevant(s, q.path, q.header, q'.header, validate, outcome);
      }
    }
  }

  ghost predicate OutcomesAlike(t: Option<State>, t': Option<State>) {
    match t
    case None => t'.None?
    case Some(g) => t'.Some? && Indistinguishable(g, t'.value)
  }

  /** One request more on both sides. */
  lemma NewcomerAlike(g: State, g': State, c: nat, q: Request, q': Request)
    requires Indistinguishable(g, g') && Alike(q, q')
    ensures Indistinguishable(g.(requests := g.requests[c := q]), g'.(requests := g'.requests[c := q']))
  {
  }

  lemma ArrivalsAlike(m: Middleware, g: State, g': State, c: nat, q: Request, q': Request)
    requires Blurs(m, q, q') && Indistinguishable(g, g') && Alike(q, q')
    ensures OutcomesAlike(Step(m, g, Arrive(c, q)), Step(m, g', Arrive(c, q')))
  {
    NewcomerAlike(g, g', c, q, q');
  }

  lemma ResumesAlike(m: Middleware, g: State, g': State, c: nat)
    requires Indistinguishable(g, g')
    requires c in g.requests ==> Blurs(m, g.requests[c], g'.requests[c])
    ensures OutcomesAlike(Step(m, g, Resume(c)), Step(m, g', Resume(c)))
  {
  }

  lemma StepsAlike(m: Middleware, g: State, g': State, a: Action, a': Action)
    requires Blind(m) && Indistinguishable(g, g') && AlikeActions(a, a')
    ensures OutcomesAlike(Step(m, g, a), Step(m, g', a'))
  {
    match a
    case Arrive(c, q) =>
      assert Alike(q, a'.q) && Blurs(m, q, a'.q);
      ArrivalsAlike(m, g, g', c, q, a'.q);
    case Inside(_) =>
    case Resume(c) =>
      assert c in g.requests ==> Alike(g.requests[c], g'.requests[c]);
      ResumesAlike(m, g, g', c);
  }

  lemma {:induction false} RunsAlike(m: Middleware, cap: int, now: int, acts: seq<Action>, acts': seq<Action>)
    requires Blind(m) && AlikeRuns(acts, acts')
    ensures OutcomesAlike(After(m, cap, now, acts), After(m, cap, now, acts'))
  {
    if acts != [] {
      var n := |acts| - 1;
      RunsAlike(m, cap, now, acts[..n], acts'[..n]);
      if After(m, cap, now, acts[..n]).Some? {
        StepsAlike(m, After(m, cap, now, acts[..n]).value, After(m, cap, now, acts'[..n]).value, acts[n], acts'[n]);
      }
    }
  }

  /** Noninterference over two runs, in every mode and on every path.  Let the clients of one run put
      anything they like under the canonical names: the same actions stay possible, and at the end
      the exchange calls, the token cache, every request to the authorization server and every
      answer, with the headers it passes on, are the same. */
  lemma SpoofingNeverHelps(s: Strategy, validate: string -> Verdict, cap: int, now: int,
                           acts: seq<Action>, acts': seq<Action>)
    requires AlikeRuns(acts, acts')
    ensures var m := Configured(s, validate);
            match After(m, cap, now, acts)
            case None => After(m, cap, now, acts').None?
            case Some(g) =>
              && After(m, cap, now, acts').Some?
              && var g' := After(m, cap, now, acts').value; g'.cache == g.cache && g'.answers == g.answers
  {
    var m := Configured(s, validate);
    MiddlewareIsBlind(s, validate);
    RunsAlike(m, cap, now, acts, acts');
  }

  // ---- Every request gets its own answer ----------------------------------------------------------

  /** What the exchange of request `c` yielded, if it had one that has ended. */
  function Yield(g: State, c: nat): Option<Cache.Outcome> {
    match Cache.At(g.cache, c)
    case Some(Done(_, outcome)) => Some(outcome)
    case _ => None
  }

  /** In every mode and every run, an answer is what the middleware makes of that very request and of
      what its own exchange yielded, if it needed one. */
  lemma AnswersAreOwn(s: Strategy, validate: string -> Verdict, cap: int, now: int, acts: seq<Action>, c: nat)
    requires After(Configured(s, validate), cap, now, acts).Some?
    requires c in After(Configured(s, validate), cap, now, acts).value.answers
    ensures c in After(Configured(s, validate), cap, now, acts).value.requests
    ensures var g := After(Configured(s, validate), cap, now, acts).value;
            var q, outcome := g.requests[c], Yield(g, c);
            && g.answers[c] == Handled(s, q.path, q.header, validate,
                                       if outcome.Some? then outcome.value else Cache.Failed)
            && (Exchanging(s, validate, q.path, q.header) <==> outcome.Some?)
  {
    var m := Configured(s, validate);
    RunKeepsInv(m, cap, now, acts);
    assert Linked(m, After(m, cap, now, acts).value, c);
  }

  /** Requests are the arrivals, unchanged. */
  lemma {:induction false} RequestsAreArrivals(m: Middleware, cap: int, now: int, acts: seq<Action>, c: nat, q: Request)
    requires After(m, cap, now, acts).Some?
    ensures var g := After(m, cap, now, acts).value;
            (c in g.requests && g.requests[c] == q) <==> Arrive(c, q) in acts
    decreases |acts|, 0
  {
    if acts != [] {
      var init, last := acts[..|acts| - 1], acts[|acts| - 1];
      RequestsAreArrivals(m, cap, now, init, c, q);
      assert acts == init + [last];
      if last.Arrive? {
        assert Arrive(c, q) in acts <==> Arrive(c, q) in init || last == Arrive(c, q);
        ArrivedOnce(m, cap, now, init, last.c, q);
      }
    }
  }

  lemma ArrivedOnce(m: Middleware, cap: int, now: int, acts: seq<Action>, c: nat, q: Request)
    requires After(m, cap, now, acts).Some? && c !in After(m, cap, now, acts).value.requests
    ensures Arrive(c, q) !in acts
    decreases |acts|, 1
  {
    if Arrive(c, q) in acts {
      RequestsAreArrivals(m, cap, now, acts, c, q);
    }
  }

  /** Nobody waits for another: a new request can always arrive, an exchange can take any step it could
      take by itself, and one whose exchange has ended can always be answered. */
  lemma NobodyWaits(m: Middleware, cap: int, now: int, acts: seq<Action>, c: nat, q: Request)
    requires After(m, cap, now, acts).Some?
    ensures var g := After(m, cap, now, acts).value;
            && (c !in g.requests ==> Step(m, g, Arrive(c, q)).Some?)
            && (c in g.requests && c !in g.answers && Yield(g, c).Some? ==> Step(m, g, Resume(c)).Some?)
            && (forall a: Cache.Action :: !a.Begin? && Cache.Step(g.cache, a).Some? ==>
                  Step(m, g, Inside(a)) == Some(g.(cache := Cache.Step(g.cache, a).value)))
  {
    RunKeepsInv(m, cap, now, acts);
  }
}
