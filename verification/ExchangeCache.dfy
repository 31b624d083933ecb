/** The token-exchange cache under any number of concurrent callers.  Load, the clock reads,
    Delete, the request to the authorization server and Store are separate atomic steps, so one
    caller can delete another's fresh entry or overwrite it late. */
module ExchangeCache {
  import opened Wrappers
  import opened Machine
  import opened Int64

  const SECOND: int := 1_000_000_000
  const MARGIN: int := 30 * SECOND

  // ---- How long an exchanged token may be cached ------------------------------------------

  /** The lifetime in nanoseconds that `fetch` reports for `expires_in` seconds. */
  function Lifetime(expiresIn: int): int {
    Wrap(expiresIn * SECOND)
  }

  /** The cache TTL: the lifetime less the margin, at most `cap`; stored only when positive. */
  function CacheTTL(cap: int, expiresIn: int): int {
    var ttl := Wrap(Lifetime(expiresIn) - MARGIN);
    if ttl > cap then cap else ttl
  }

  /** The two wrapping operations amount to one. */
  lemma TTLWraps(cap: int, expiresIn: int)
    ensures var ttl := Wrap(expiresIn * SECOND - MARGIN);
            CacheTTL(cap, expiresIn) == if ttl > cap then cap else ttl
  {
    var x := expiresIn * SECOND;
    var j := WrapMoves(x);
    var k := WrapMoves(Wrap(x) - MARGIN);
    WrapUnique(x - MARGIN, Wrap(Wrap(x) - MARGIN), j + k);
  }

  /** Overflow can only shorten: for a non-negative `expires_in` a stored TTL is positive, at most
      the cap and at most the lifetime less the margin, and nothing is stored for 30 or less. */
  lemma StoredTTLBound(cap: int, expiresIn: int)
    requires cap > 0 && 0 <= expiresIn < TWO63
    ensures CacheTTL(cap, expiresIn) > 0 ==>
              && CacheTTL(cap, expiresIn) <= cap
              && CacheTTL(cap, expiresIn) <= (expiresIn - 30) * SECOND
              && expiresIn > 30
  {
    TTLWraps(cap, expiresIn);
    var y := expiresIn * SECOND - MARGIN;
    var k := WrapMoves(y);
  }

  /** Whether the low 64 bits of `x` read as a positive signed number. */
  predicate LowBitsPositive(x: int) {
    0 < x % TWO64 < TWO63
  }

  /** For which `expires_in`, negative ones included, a stored TTL obeys that bound: for those that
      are not negative, and for the negative ones whose margin-reduced nanoseconds do not come out
      positive in 64 bits. */
  lemma StoredTTLBoundExact(cap: int, expiresIn: int)
    requires cap > 0 && Fits(expiresIn)
    ensures (CacheTTL(cap, expiresIn) > 0 ==> CacheTTL(cap, expiresIn) <= (expiresIn - 30) * SECOND)
       <==> (expiresIn >= 0 || !LowBitsPositive((expiresIn - 30) * SECOND))
  {
    var y := expiresIn * SECOND - MARGIN;
    assert y == (expiresIn - 30) * SECOND;
    TTLWraps(cap, expiresIn);
    if expiresIn >= 0 {
      StoredTTLBound(cap, expiresIn);
    } else {
      WrapByLowBits(y);
    }
  }

  /** A negative lifetime that is cached: the multiplication wraps to a large positive one. */
  lemma NegativeLifetimeCached()
    ensures CacheTTL(300 * SECOND, -9_223_372_037) == 300 * SECOND
  {
    WrapUnique(-9_223_372_037 * SECOND, -9_223_372_037 * SECOND + TWO64, -1);
  }

  /** Without overflow the TTL is the smaller of cap and lifetime less margin. */
  lemma TTLWithoutOverflow(cap: int, expiresIn: int)
    requires cap > 0 && -9_223_372_006 <= expiresIn <= 9_223_372_066
    ensures var ttl := (expiresIn - 30) * SECOND;
            CacheTTL(cap, expiresIn) == if ttl > cap then cap else ttl
    ensures CacheTTL(cap, expiresIn) > 0 <==> expiresIn > 30
  {
    TTLWraps(cap, expiresIn);
  }

  /** What the documentation promises to store for: the lifetime less the margin, at most the cap;
      0 stands for not at all. */
  function DocumentedTTL(cap: int, expiresIn: int): int {
    var y := (expiresIn - 30) * SECOND;
    if y <= 0 then 0 else if y > cap then cap else y
  }

  function StoredTTL(cap: int, expiresIn: int): int {
    if CacheTTL(cap, expiresIn) > 0 then CacheTTL(cap, expiresIn) else 0
  }

  /** Exactly when the code keeps that promise: for a lifetime beyond the margin, if nothing overflows
      or the overflowed value still reaches the cap; for any other, if it does not come out positive. */
  lemma DocumentedExactly(cap: int, expiresIn: int)
    requires 0 < cap < TWO63
    ensures var y := (expiresIn - 30) * SECOND;
            StoredTTL(cap, expiresIn) == DocumentedTTL(cap, expiresIn) <==>
            if y > 0 then Fits(y) || cap <= y % TWO64 < TWO63 else !LowBitsPositive(y)
  {
    var y := (expiresIn - 30) * SECOND;
    TTLWraps(cap, expiresIn);
    assert y == expiresIn * SECOND - MARGIN;
    WrapByLowBits(y);
    if y > 0 && !Fits(y) {
      assert y >= TWO63;
    }
  }

  /** A lifetime of 292 years that is not cached at all. */
  lemma LongLifetimeNotCached()
    ensures StoredTTL(300 * SECOND, 9_223_372_067) == 0 && DocumentedTTL(300 * SECOND, 9_223_372_067) == 300 * SECOND
  {
    TTLWraps(300 * SECOND, 9_223_372_067);
  }

  // ---- The machine ------------------------------------------------------------------------

  /** SHA-256 of the subject token, taken as collision free. */
  datatype Key = Digest(subject: string)

  datatype Entry = Entry(token: string, expires: int)

  predicate Holds(cache: map<Key, Entry>, subject: string, e: Entry) {
    Digest(subject) in cache && cache[Digest(subject)] == e
  }

  /** An answer of the authorization server: to whose call, for which subject token, when. */
  datatype Issue = Issue(call: nat, subject: string, token: string, at: int, expiresIn: int)

  datatype Outcome = Token(token: string) | Failed

  /** The program counter of one Exchange call. */
  datatype Call =
    | Loading(subject: string)
    | Checking(subject: string, hit: Entry)
    | Deleting(subject: string)
    | Requesting(subject: string)
    | Waiting(subject: string)
    | Answered(subject: string, issue: Issue)
    | Fetched(subject: string, issue: Issue)
    | Storing(subject: string, issue: Issue, entry: Entry)
    | Done(subject: string, outcome: Outcome)

  /** `requests` counts the POSTs of each call; `issued` records every answer ever given. */
  datatype State = State(
    cap: int, now: int, cache: map<Key, Entry>, calls: map<nat, Call>,
    requests: map<nat, nat>, issued: set<Issue>)

  datatype Action =
    | Tick(d: int)
    | Begin(c: nat, subject: string)
    | Load(c: nat)                                  // cache.Load
    | Check(c: nat)                                 // now().Before(expires)
    | Delete(c: nat)                                // cache.Delete
    | Post(c: nat)                                  // the request leaves
    | Answer(c: nat, token: string, expiresIn: int) // the server issues a token
    | Accept(c: nat)                                // fetch returns it
    | Fail(c: nat)                                  // fetch returns an error
    | Read(c: nat)                                  // the TTL test and now().Add(ttl)
    | Store(c: nat)                                 // cache.Store

  function Start(cap: int, now: int): State {
    State(cap, now, map[], map[], map[], {})
  }

  function At(s: State, c: nat): Option<Call> {
    if c in s.calls then Some(s.calls[c]) else None
  }

  function Goto(s: State, c: nat, call: Call): State {
    s.(calls := s.calls[c := call])
  }

  function Step(s: State, a: Action): Option<State> {
    match a
    case Tick(d) => if d >= 0 then Some(s.(now := s.now + d)) else None
    case Begin(c, subject) =>
      if c !in s.calls then Some(Goto(s, c, Loading(subject)).(requests := s.requests[c := 0])) else None
    case Load(c) =>
      (match At(s, c)
       case Some(Loading(x)) =>
         Some(Goto(s, c, if Digest(x) in s.cache then Checking(x, s.cache[Digest(x)]) else Requesting(x)))
       case _ => None)
    case Check(c) =>
      (match At(s, c)
       case Some(Checking(x, hit)) =>
         Some(Goto(s, c, if s.now < hit.expires then Done(x, Token(hit.token)) else Deleting(x)))
       case _ => None)
    case Delete(c) =>
      (match At(s, c)
       case Some(Deleting(x)) => Some(Goto(s, c, Requesting(x)).(cache := s.cache - {Digest(x)}))
       case _ => None)
    case Post(c) =>
      (match At(s, c)
       case Some(Requesting(x)) =>
         Some(Goto(s, c, Waiting(x)).(requests := s.requests[c := 1 + if c in s.requests then s.requests[c] else 0]))
       case _ => None)
    case Answer(c, token, expiresIn) =>
      (match At(s, c)
       case Some(Waiting(x)) =>
         if !Fits(expiresIn) then None
         else
           var i := Issue(c, x, token, s.now, expiresIn);
           Some(Goto(s, c, Answered(x, i)).(issued := s.issued + {i}))
       case _ => None)
    case Accept(c) =>
      (match At(s, c)
       case Some(Answered(x, i)) => if i.token == "" then None else Some(Goto(s, c, Fetched(x, i)))
       case _ => None)
    case Fail(c) =>
      (match At(s, c)
       case Some(Waiting(x)) => Some(Goto(s, c, Done(x, Failed)))
       case Some(Answered(x, _)) => Some(Goto(s, c, Done(x, Failed)))
       case Some(Requesting(x)) => Some(Goto(s, c, Done(x, Failed)))
       case _ => None)
    case Read(c) =>
      (match At(s, c)
       case Some(Fetched(x, i)) =>
         var ttl := CacheTTL(s.cap, i.expiresIn);
         Some(Goto(s, c, if ttl > 0 then Storing(x, i, Entry(i.token, s.now + ttl)) else Done(x, Token(i.token))))
       case _ => None)
    case Store(c) =>
      (match At(s, c)
       case Some(Storing(x, i, e)) => Some(Goto(s, c, Done(x, Token(i.token))).(cache := s.cache[Digest(x) := e]))
       case _ => None)
  }

  /** The state after a run from an empty cache, if `acts` is a run. */
  function After(cap: int, now: int, acts: seq<Action>): Option<State> {
    Exec(Step, Start(cap, now), acts)
  }

  // ---- Safety -----------------------------------------------------------------------------

  /** `i` justifies handing `token` to a caller with this subject token. */
  predicate Vouches(s: State, i: Issue, subject: string, token: string) {
    i in s.issued && i.subject == subject && i.token == token && token != "" && i.at <= s.now && Fits(i.expiresIn)
  }

  /** The clock reading that set the expiry of an entry made from `i`. */
  function ReadAt(s: State, e: Entry, i: Issue): int {
    e.expires - CacheTTL(s.cap, i.expiresIn)
  }

  predicate Backs(s: State, i: Issue, subject: string, e: Entry) {
    && Vouches(s, i, subject, e.token)
    && CacheTTL(s.cap, i.expiresIn) > 0
    && i.at <= ReadAt(s, e, i) <= s.now
  }

  ghost predicate Backed(s: State, subject: string, e: Entry) {
    exists i :: Backs(s, i, subject, e)
  }

  ghost predicate CallOk(s: State, call: Call) {
    match call
    case Checking(x, hit) => Backed(s, x, hit)
    case Answered(x, i) => i in s.issued && i.subject == x && i.at <= s.now && Fits(i.expiresIn)
    case Fetched(x, i) => Vouches(s, i, x, i.token)
    case Storing(x, i, e) => Vouches(s, i, x, i.token) && Backs(s, i, x, e)
    case Done(x, Token(t)) => exists i :: Vouches(s, i, x, t)
    case _ => true
  }

  ghost predicate Inv(s: State) {
    && (forall k | k in s.cache :: Backed(s, k.subject, s.cache[k]))
    && (forall c | c in s.calls :: CallOk(s, s.calls[c]))
  }

  /** Later: the clock has not gone back and no issue is forgotten. */
  predicate Later(s: State, t: State) {
    t.cap == s.cap && s.now <= t.now && s.issued <= t.issued
  }

  lemma BackedLater(s: State, t: State, subject: string, e: Entry)
    requires Later(s, t)
    ensures Backed(s, subject, e) ==> Backed(t, subject, e)
  {
    if Backed(s, subject, e) {
      var i :| Backs(s, i, subject, e);
      assert Backs(t, i, subject, e);
    }
  }

  lemma CallOkLater(s: State, t: State, call: Call)
    requires Later(s, t) && CallOk(s, call)
    ensures CallOk(t, call)
  {
    match call
    case Checking(x, hit) => BackedLater(s, t, x, hit);
    case Done(x, Token(tok)) =>
      var i :| Vouches(s, i, x, tok);
      assert Vouches(t, i, x, tok);
    case _ =>
  }

  lemma CacheKept(s: State, a: Action)
    requires Inv(s) && Step(s, a).Some?
    ensures var t := Step(s, a).value;
            Later(s, t) && forall k | k in t.cache :: Backed(t, k.subject, t.cache[k])
  {
    var t := Step(s, a).value;
    forall k | k in t.cache ensures Backed(t, k.subject, t.cache[k]) {
      if k in s.cache && t.cache[k] == s.cache[k] {
        BackedLater(s, t, k.subject, s.cache[k]);
      } else {
        var Storing(x, i, e) := s.calls[a.c];
        assert Backs(s, i, x, e);
        BackedLater(s, t, x, e);
      }
    }
  }

  lemma CallsKept(s: State, a: Action)
    requires Inv(s) && Step(s, a).Some? && Later(s, Step(s, a).value)
    ensures var t := Step(s, a).value; forall c | c in t.calls :: CallOk(t, t.calls[c])
  {
    var t := Step(s, a).value;
    forall c | c in t.calls ensures CallOk(t, t.calls[c]) {
      if c in s.calls {
        CallOkLater(s, t, s.calls[c]);
      }
      if c !in s.calls || t.calls[c] != s.calls[c] {
        MovedCallOk(s, a, c);
      }
    }
  }

  /** The call that takes the step is in order after it. */
  lemma MovedCallOk(s: State, a: Action, c: nat)
    requires Inv(s) && Step(s, a).Some? && Later(s, Step(s, a).value)
    requires c in Step(s, a).value.calls
    requires c !in s.calls || Step(s, a).value.calls[c] != s.calls[c]
    ensures CallOk(Step(s, a).value, Step(s, a).value.calls[c])
  {
    var t := Step(s, a).value;
    match a
    case Load(_) =>
      var x := s.calls[c].subject;
      if Digest(x) in s.cache {
        BackedLater(s, t, x, s.cache[Digest(x)]);
      }
    case Check(_) =>
      var Checking(x, hit) := s.calls[c];
      var i :| Backs(s, i, x, hit);
      assert Vouches(t, i, x, hit.token);
    case Read(_) =>
      var Fetched(x, i) := s.calls[c];
      assert Vouches(t, i, x, i.token);
    case Store(_) =>
      var Storing(x, i, e) := s.calls[c];
      assert Vouches(t, i, x, i.token);
    case _ =>
  }

  lemma InvKept(s: State, a: Action)
    requires Inv(s) && Step(s, a).Some?
    ensures Inv(Step(s, a).value)
  {
    CacheKept(s, a);
    CallsKept(s, a);
  }

  lemma RunKeepsInv(cap: int, now: int, acts: seq<Action>)
    requires After(cap, now, acts).Some?
    ensures Inv(After(cap, now, acts).value) && After(cap, now, acts).value.cap == cap
  {
    forall s, a | Inv(s) && s.cap == cap && Step(s, a).Some?
      ensures Inv(Step(s, a).value) && Step(s, a).value.cap == cap
    {
      InvKept(s, a);
    }
    InvariantHolds(Step, s => Inv(s) && s.cap == cap, Start(cap, now), acts);
  }

  /** In every run, every cached token and every token handed to a caller is non-empty and was
      issued in answer to a request for the same subject token. */
  lemma TokensAreIssued(cap: int, now: int, acts: seq<Action>)
    requires After(cap, now, acts).Some?
    ensures var s := After(cap, now, acts).value;
            && (forall k | k in s.cache :: exists i :: Vouches(s, i, k.subject, s.cache[k].token))
            && (forall c, x, t | At(s, c) == Some(Done(x, Token(t))) :: exists i :: Vouches(s, i, x, t))
  {
    RunKeepsInv(cap, now, acts);
    var s := After(cap, now, acts).value;
    forall k | k in s.cache ensures exists i :: Vouches(s, i, k.subject, s.cache[k].token) {
      assert Backed(s, k.subject, s.cache[k]);
      var i :| Backs(s, i, k.subject, s.cache[k]);
      assert Vouches(s, i, k.subject, s.cache[k].token);
    }
    forall c, x, t | At(s, c) == Some(Done(x, Token(t))) ensures exists i :: Vouches(s, i, x, t) {
      assert CallOk(s, s.calls[c]);
    }
  }

  /** Looking at an entry ends the call with its token exactly if the clock is before the expiry. */
  lemma HitExactly(s: State, c: nat)
    requires At(s, c).Some? && s.calls[c].Checking? && Step(s, Check(c)).Some?
    ensures var hit, next := s.calls[c].hit, At(Step(s, Check(c)).value, c);
            if s.now < hit.expires then next == Some(Done(s.calls[c].subject, Token(hit.token)))
            else next == Some(Deleting(s.calls[c].subject))
  {
  }

  /** Every token returned from the cache, in every run: a call that looks at an entry and ends with a
      token returns one that the server issued for its subject token; less than `cap` has passed since
      the clock read that set the expiry, and the token still lives longer than the 30 s margin less
      the delay between its issue and that read, exactly if its lifetime was not negative. */
  lemma HitsAreFresh(cap: int, now: int, acts: seq<Action>, c: nat, token: string) returns (i: Issue)
    requires cap > 0 && After(cap, now, acts).Some?
    requires var s := After(cap, now, acts).value;
             && At(s, c).Some? && s.calls[c].Checking? && Step(s, Check(c)).Some?
             && At(Step(s, Check(c)).value, c) == Some(Done(s.calls[c].subject, Token(token)))
    ensures var s := After(cap, now, acts).value;
            var read := ReadAt(s, s.calls[c].hit, i);
            && Vouches(s, i, s.calls[c].subject, token)
            && i.at <= read <= s.now < read + cap
            && (i.expiresIn >= 0 <==> i.at + i.expiresIn * SECOND - s.now > MARGIN - (read - i.at))
  {
    RunKeepsInv(cap, now, acts);
    var s := After(cap, now, acts).value;
    HitExactly(s, c);
    assert CallOk(s, s.calls[c]);
    i :| Backs(s, i, s.calls[c].subject, s.calls[c].hit);
    if i.expiresIn >= 0 {
      StoredTTLBound(cap, i.expiresIn);
    }
  }

  // ---- What one call can do ---------------------------------------------------------------

  predicate HasPosted(call: Call) {
    !call.Loading? && !call.Checking? && !call.Deleting? && !call.Requesting?
  }

  predicate Posts(s: State) {
    forall c | c in s.calls ::
      c in s.requests && s.requests[c] <= 1 && (!HasPosted(s.calls[c]) ==> s.requests[c] == 0)
  }

  lemma PostsKept(s: State, a: Action)
    requires Posts(s) && Step(s, a).Some?
    ensures Posts(Step(s, a).value)
  {
    var t := Step(s, a).value;
    forall c | c in t.calls
      ensures c in t.requests && t.requests[c] <= 1 && (!HasPosted(t.calls[c]) ==> t.requests[c] == 0)
    {
      if c in s.calls && t.calls[c] == s.calls[c] {
        assert t.requests[c] == s.requests[c];
      } else {
        assert !a.Tick? && a.c == c;
      }
    }
  }

  /** Each call sends at most one request, in every run. */
  lemma OneRequestPerCall(cap: int, now: int, acts: seq<Action>, c: nat)
    requires After(cap, now, acts).Some?
    requires var s := After(cap, now, acts).value; c in s.calls
    ensures var s := After(cap, now, acts).value; c in s.requests && s.requests[c] <= 1
  {
    forall s, a | Posts(s) && Step(s, a).Some? ensures Posts(Step(s, a).value) {
      PostsKept(s, a);
    }
    InvariantHolds(Step, s => Posts(s), Start(cap, now), acts);
  }

  /** A step changes the cache only at its own caller's key, and only by that caller's Delete or
      Store; a Store ends its call with a token. */
  lemma CacheFrame(s: State, a: Action)
    requires Step(s, a).Some? && Step(s, a).value.cache != s.cache
    ensures a.Delete? || a.Store?
    ensures a.c in s.calls && var k := Digest(s.calls[a.c].subject);
            && Step(s, a).value.cache - {k} == s.cache - {k}
            && (a.Delete? ==> k !in Step(s, a).value.cache)
            && (a.Store? ==> At(Step(s, a).value, a.c).value.Done? && At(Step(s, a).value, a.c).value.outcome.Token?)
  {
  }

  /** What each step does to the cache, exactly: a Delete removes its caller's entry, whoever stored it
      and however fresh it is, a Store overwrites it, and nothing else touches the cache. */
  lemma CacheEffects(s: State, a: Action)
    requires Step(s, a).Some?
    ensures Step(s, a).value.cache == match a
      case Delete(c) => if c in s.calls then s.cache - {Digest(s.calls[c].subject)} else map[]
      case Store(c) =>
        if c in s.calls && s.calls[c].Storing? then s.cache[Digest(s.calls[c].subject) := s.calls[c].entry] else map[]
      case _ => s.cache
  {
  }

  /** A finished call takes no further step. */
  lemma DoneIsFinal(s: State, a: Action, c: nat)
    requires Step(s, a).Some? && c in s.calls && s.calls[c].Done?
    ensures At(Step(s, a).value, c) == At(s, c)
    ensures a.Store? ==> a.c != c
  {
  }

  /** A call that ends in failure never stored anything: it added and changed no entry. */
  lemma {:induction false} FailedCallsNeverStore(cap: int, now: int, acts: seq<Action>, c: nat)
    requires After(cap, now, acts).Some?
    requires var s := After(cap, now, acts).value;
             c in s.calls && s.calls[c].Done? && s.calls[c].outcome == Failed
    ensures Store(c) !in acts
  {
    if acts != [] {
      var init, last := acts[..|acts| - 1], acts[|acts| - 1];
      AmongSnoc(acts, Store(c));
      var s := After(cap, now, init).value;
      if c in s.calls && s.calls[c].Done? {
        DoneIsFinal(s, last, c);
        FailedCallsNeverStore(cap, now, init, c);
      } else if Store(c) in init {
        StoreEndsCall(cap, now, init, c);
      }
    }
  }

  lemma AmongSnoc(acts: seq<Action>, a: Action)
    requires acts != []
    ensures a in acts <==> a in acts[..|acts| - 1] || a == acts[|acts| - 1]
  {
    assert acts == acts[..|acts| - 1] + [acts[|acts| - 1]];
  }

  lemma {:induction false} StoreEndsCall(cap: int, now: int, acts: seq<Action>, c: nat)
    requires After(cap, now, acts).Some? && Store(c) in acts
    ensures var s := After(cap, now, acts).value; c in s.calls && s.calls[c].Done?
  {
    var init, last := acts[..|acts| - 1], acts[|acts| - 1];
    AmongSnoc(acts, Store(c));
    if Store(c) in init {
      StoreEndsCall(cap, now, init, c);
      DoneIsFinal(After(cap, now, init).value, last, c);
    }
  }
}
