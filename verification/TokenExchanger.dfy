/** The exchanger as one caller runs it, and what it guarantees over a sequence of calls. */
module TokenExchanger {
  import opened Wrappers
  import opened Machine
  import opened Int64
  import opened ExchangeCache
  import opened ExchangeSettings

  datatype Payload = Payload(accessToken: string, expiresIn: Word)

  /** What comes back from the token endpoint; an undecodable body is a payload of None. */
  datatype Response = TransportError | Reply(status: int, payload: Option<Payload>)

  datatype Grant = Granted(token: string, expiresIn: Word) | Refused

  /** What `fetch` makes of a response: only a 200 with a non-empty access token is a grant. */
  function Fetch(r: Response): (g: Grant)
    ensures g.Granted? ==> g.token != ""
    ensures g.Granted? ==> r.Reply? && r.payload == Some(Payload(g.token, g.expiresIn))
    ensures g.Granted? <==> r.Reply? && r.status == 200 && r.payload.Some? && r.payload.value.accessToken != ""
  {
    match r
    case TransportError => Refused
    case Reply(status, payload) =>
      if status != 200 then Refused
      else match payload
        case None => Refused
        case Some(p) => if p.accessToken == "" then Refused else Granted(p.accessToken, p.expiresIn)
  }

  /** The inputs of one Exchange call: the clock at the freshness test, the response it would get,
      the clock when the expiry is computed. */
  datatype Request = Request(subject: string, loadTime: int, response: Response, storeTime: int)

  datatype Result = Result(cache: map<Key, Entry>, outcome: Outcome, fetched: bool)

  predicate Live(cache: map<Key, Entry>, q: Request) {
    Digest(q.subject) in cache && q.loadTime < cache[Digest(q.subject)].expires
  }

  /** What one call leaves in the cache, returns, and whether it asked the server. */
  function Exchanged(cap: int, cache: map<Key, Entry>, q: Request): Result {
    var key := Digest(q.subject);
    if Live(cache, q) then Result(cache, Token(cache[key].token), false)
    else match Fetch(q.response)
      case Refused => Result(cache - {key}, Failed, true)
      case Granted(token, expiresIn) =>
        var ttl := CacheTTL(cap, expiresIn);
        Result(if ttl > 0 then cache[key := Entry(token, q.storeTime + ttl)] else cache - {key}, Token(token), true)
  }

  class Exchanger {
    var cache: map<Key, Entry>
    const cacheCap: int

    constructor (cap: int)
      ensures cache == map[] && cacheCap == cap
    {
      cache, cacheCap := map[], cap;
    }

    /** NewTokenExchanger: refuses an incomplete configuration; a cap that is not positive means
        five minutes. */
    static method New(cfg: Config) returns (e: Exchanger?)
      ensures e != null <==> cfg.tokenURL != "" && cfg.clientID != "" && cfg.clientSecret != "" && cfg.audience != ""
      ensures e != null ==> fresh(e) && e.cache == map[] && e.cacheCap > 0
      ensures e != null && cfg.cacheTTLCap > 0 ==> e.cacheCap == cfg.cacheTTLCap
      ensures e != null && cfg.cacheTTLCap <= 0 ==> e.cacheCap == 300 * SECOND
    {
      if cfg.tokenURL == "" || cfg.clientID == "" || cfg.clientSecret == "" || cfg.audience == "" {
        return null;
      }
      e := new Exchanger(if cfg.cacheTTLCap <= 0 then 300 * SECOND else cfg.cacheTTLCap);
    }

    method Exchange(q: Request) returns (outcome: Outcome, fetched: bool)
      modifies this
      ensures Result(cache, outcome, fetched) == Exchanged(cacheCap, old(cache), q)
    {
      var key := Digest(q.subject);
      if key in cache {
        var hit := cache[key];
        if q.loadTime < hit.expires {
          return Token(hit.token), false;
        }
        cache := cache - {key};
      }
      var grant := Fetch(q.response);
      if grant.Refused? {
        return Failed, true;
      }
      var cacheTTL := Wrap(Lifetime(grant.expiresIn) - MARGIN);
      if cacheTTL > cacheCap {
        cacheTTL := cacheCap;
      }
      if cacheTTL > 0 {
        cache := cache[key := Entry(grant.token, q.storeTime + cacheTTL)];
      }
      return Token(grant.token), true;
    }
  }

  // ---- Sequences of calls -----------------------------------------------------------------

  function Replay(cap: int, cache: map<Key, Entry>, qs: seq<Request>): map<Key, Entry> {
    if qs == [] then cache
    else Exchanged(cap, Replay(cap, cache, qs[..|qs| - 1]), qs[|qs| - 1]).cache
  }

  function ResultAt(cap: int, cache: map<Key, Entry>, qs: seq<Request>, i: nat): Result
    requires i < |qs|
  {
    Exchanged(cap, Replay(cap, cache, qs[..i]), qs[i])
  }

  /** One call leaves alone the entries of other tokens and a live entry of its own. */
  lemma OneCallKeeps(cap: int, cache: map<Key, Entry>, q: Request, subject: string, e: Entry)
    requires Holds(cache, subject, e) && (q.subject == subject ==> q.loadTime < e.expires)
    ensures Holds(Exchanged(cap, cache, q).cache, subject, e)
  {
  }

  lemma ReplaySnoc(cap: int, cache: map<Key, Entry>, qs: seq<Request>, m: nat)
    requires m < |qs|
    ensures Replay(cap, cache, qs[..m + 1]) == Exchanged(cap, Replay(cap, cache, qs[..m]), qs[m]).cache
  {
    assert qs[..m + 1][..m] == qs[..m];
  }

  lemma ReplayKeeps(cap: int, cache: map<Key, Entry>, qs: seq<Request>, n: nat, subject: string, e: Entry)
    requires n < |qs| && Holds(Replay(cap, cache, qs[..n]), subject, e)
    requires qs[n].subject == subject ==> qs[n].loadTime < e.expires
    ensures Holds(Replay(cap, cache, qs[..n + 1]), subject, e)
  {
    ReplaySnoc(cap, cache, qs, n);
    OneCallKeeps(cap, Replay(cap, cache, qs[..n]), qs[n], subject, e);
  }

  /** An entry outlasts every later call that comes before its expiry. */
  lemma {:induction false} EntryStays(cap: int, cache: map<Key, Entry>, qs: seq<Request>, n: nat, m: nat,
                                      subject: string, e: Entry)
    requires n <= m <= |qs| && Holds(Replay(cap, cache, qs[..n]), subject, e)
    requires forall k | n <= k < m && qs[k].subject == subject :: qs[k].loadTime < e.expires
    ensures Holds(Replay(cap, cache, qs[..m]), subject, e)
  {
    if n < m {
      EntryStays(cap, cache, qs, n, m - 1, subject, e);
      ReplayKeeps(cap, cache, qs, m - 1, subject, e);
    }
  }

  /** Under a clock that does not go back, one subject token is exchanged again only because the
      earlier exchange failed, was not cacheable, or its entry has expired. */
  lemma RefetchReason(cap: int, cache: map<Key, Entry>, qs: seq<Request>, i: nat, j: nat)
    requires i < j < |qs| && qs[i].subject == qs[j].subject
    requires forall a, b | 0 <= a <= b < |qs| :: qs[a].loadTime <= qs[b].loadTime
    requires ResultAt(cap, cache, qs, i).fetched && ResultAt(cap, cache, qs, j).fetched
    ensures || Fetch(qs[i].response).Refused?
            || CacheTTL(cap, Fetch(qs[i].response).expiresIn) <= 0
            || qs[j].loadTime >= qs[i].storeTime + CacheTTL(cap, Fetch(qs[i].response).expiresIn)
  {
    var g := Fetch(qs[i].response);
    if g.Granted? && CacheTTL(cap, g.expiresIn) > 0
       && qs[j].loadTime < qs[i].storeTime + CacheTTL(cap, g.expiresIn) {
      ReplaySnoc(cap, cache, qs, i);
      EntryStays(cap, cache, qs, i + 1, j, qs[i].subject, Entry(g.token, qs[i].storeTime + CacheTTL(cap, g.expiresIn)));
    }
  }

  // ---- One sequential call is a run of the concurrent machine -------------------------------

  ghost predicate Reaches(s: State, acts: seq<Action>, t: State) {
    Exec(Step, s, acts) == Some(t)
  }

  /** A step appended, as an assignment: the run so far and the state it reaches. */
  lemma Onto(s: State, acts: seq<Action>, t: State, a: Action) returns (all: seq<Action>, u: State)
    requires Reaches(s, acts, t) && Step(t, a).Some?
    ensures all == acts + [a] && Reaches(s, all, u) && u == Step(t, a).value
  {
    ExecSnoc(Step, s, acts, a);
    all, u := acts + [a], Step(t, a).value;
  }

  /** `t` is `s` with call `c` at `call` after `n` requests; no other call has moved. */
  predicate Moves(s: State, t: State, c: nat, call: Call, n: nat) {
    t.cap == s.cap && t.calls == s.calls[c := call] && t.requests == s.requests[c := n]
  }

  /** The look-up half: the call has found a live entry, or goes on to ask the server with its own
      key removed from the cache. */
  lemma LookUp(s: State, q: Request, c: nat) returns (acts: seq<Action>, t: State)
    requires c !in s.calls && s.now <= q.loadTime
    ensures Reaches(s, acts, t) && t.now == q.loadTime
    ensures if Live(s.cache, q)
            then t.cache == s.cache && Moves(s, t, c, Done(q.subject, Token(s.cache[Digest(q.subject)].token)), 0)
            else t.cache == s.cache - {Digest(q.subject)} && Moves(s, t, c, Requesting(q.subject), 0)
  {
    acts, t := [], s;
    acts, t := Onto(s, acts, t, Tick(q.loadTime - s.now));
    acts, t := Onto(s, acts, t, Begin(c, q.subject));
    acts, t := Onto(s, acts, t, Load(c));
    if t.calls[c].Checking? {
      acts, t := Onto(s, acts, t, Check(c));
      if t.calls[c].Deleting? {
        acts, t := Onto(s, acts, t, Delete(c));
      }
    } else {
      assert s.cache - {Digest(q.subject)} == s.cache;
    }
  }

  /** The fetching half: the request is sent and the server issues a token ... */
  lemma AskServer(s: State, x: string, c: nat, token: string, expiresIn: Word)
      returns (acts: seq<Action>, t: State)
    requires At(s, c) == Some(Requesting(x)) && c in s.requests && s.requests[c] == 0
    ensures Reaches(s, acts, t) && t.now == s.now && t.cache == s.cache
    ensures Moves(s, t, c, Answered(x, Issue(c, x, token, s.now, expiresIn)), 1)
  {
    acts, t := [], s;
    acts, t := Onto(s, acts, t, Post(c));
    acts, t := Onto(s, acts, t, Answer(c, token, expiresIn));
  }

  /** ... the answer arrives ... */
  lemma ReceiveGrant(s: State, c: nat, storeTime: int) returns (acts: seq<Action>, t: State)
    requires At(s, c).Some? && s.calls[c].Answered? && s.calls[c].issue.token != "" && c in s.requests
    requires s.now <= storeTime
    ensures Reaches(s, acts, t) && t.now == storeTime && t.cache == s.cache
    ensures var Answered(x, i) := s.calls[c]; Moves(s, t, c, Fetched(x, i), s.requests[c])
  {
    acts, t := [], s;
    acts, t := Onto(s, acts, t, Tick(storeTime - s.now));
    acts, t := Onto(s, acts, t, Accept(c));
  }

  /** ... what becomes of it ... */
  lemma KeepGrant(s: State, c: nat) returns (acts: seq<Action>, t: State)
    requires At(s, c).Some? && s.calls[c].Fetched? && c in s.requests
    ensures Reaches(s, acts, t) && t.now == s.now
    ensures var Fetched(x, i) := s.calls[c]; var ttl := CacheTTL(s.cap, i.expiresIn);
            && Moves(s, t, c, Done(x, Token(i.token)), s.requests[c])
            && t.cache == if ttl > 0 then s.cache[Digest(x) := Entry(i.token, s.now + ttl)] else s.cache
  {
    acts, t := [], s;
    acts, t := Onto(s, acts, t, Read(c));
    if t.calls[c].Storing? {
      acts, t := Onto(s, acts, t, Store(c));
    }
  }

  /** ... or its refusal. */
  lemma TakeRefusal(s: State, x: string, c: nat, storeTime: int) returns (acts: seq<Action>, t: State)
    requires At(s, c) == Some(Requesting(x)) && c in s.requests && s.requests[c] == 0
    requires s.now <= storeTime
    ensures Reaches(s, acts, t) && t.now == storeTime && t.cache == s.cache && Moves(s, t, c, Done(x, Failed), 1)
  {
    acts, t := [], s;
    acts, t := Onto(s, acts, t, Post(c));
    acts, t := Onto(s, acts, t, Tick(storeTime - s.now));
    acts, t := Onto(s, acts, t, Fail(c));
  }

  lemma Onward(s: State, acts: seq<Action>, t: State, more: seq<Action>, u: State)
    requires Reaches(s, acts, t) && Reaches(t, more, u)
    ensures Reaches(s, acts + more, u)
  {
    ExecConcat(Step, s, acts, more);
  }

  lemma MovesOn(s: State, t: State, u: State, c: nat, call: Call, n: nat, call': Call, n': nat)
    requires Moves(s, t, c, call, n) && Moves(t, u, c, call', n')
    ensures Moves(s, u, c, call', n')
  {
  }

  /** A grant taken and kept, or not. */
  lemma Granting(s: State, x: string, c: nat, token: string, expiresIn: Word, storeTime: int)
      returns (acts: seq<Action>, t: State)
    requires At(s, c) == Some(Requesting(x)) && c in s.requests && s.requests[c] == 0
    requires s.now <= storeTime && token != ""
    ensures Reaches(s, acts, t) && t.now == storeTime && Moves(s, t, c, Done(x, Token(token)), 1)
    ensures var ttl := CacheTTL(s.cap, expiresIn);
            t.cache == if ttl > 0 then s.cache[Digest(x) := Entry(token, storeTime + ttl)] else s.cache
  {
    var i := Issue(c, x, token, s.now, expiresIn);
    var asked, u := AskServer(s, x, c, token, expiresIn);
    var received, v := ReceiveGrant(u, c, storeTime);
    var kept;
    kept, t := KeepGrant(v, c);
    Onward(s, asked, u, received, v);
    Onward(s, asked + received, v, kept, t);
    MovesOn(s, u, v, c, Answered(x, i), 1, Fetched(x, i), 1);
    MovesOn(s, v, t, c, Fetched(x, i), 1, Done(x, Token(token)), 1);
    acts := asked + received + kept;
  }

  /** So the program and the machine agree: a call that nobody interferes with has a run of the
      machine with the same cache, the same outcome and a request sent exactly if it fetched. */
  lemma SequentialIsARun(s: State, q: Request, c: nat) returns (acts: seq<Action>, t: State)
    requires c !in s.calls && s.now <= q.loadTime <= q.storeTime
    ensures Reaches(s, acts, t) && t.now <= q.storeTime
    ensures var r := Exchanged(s.cap, s.cache, q);
            t.cache == r.cache && Moves(s, t, c, Done(q.subject, r.outcome), if r.fetched then 1 else 0)
  {
    acts, t := LookUp(s, q, c);
    if !Live(s.cache, q) {
      var x, more, u := q.subject, [], t;
      match Fetch(q.response) {
        case Refused =>
          more, u := TakeRefusal(t, x, c, q.storeTime);
          MovesOn(s, t, u, c, Requesting(x), 0, Done(x, Failed), 1);
        case Granted(token, expiresIn) =>
          more, u := Granting(t, x, c, token, expiresIn, q.storeTime);
          MovesOn(s, t, u, c, Requesting(x), 0, Done(x, Token(token)), 1);
          var e := Entry(token, q.storeTime + CacheTTL(s.cap, expiresIn));
          assert (s.cache - {Digest(x)})[Digest(x) := e] == s.cache[Digest(x) := e];
      }
      Onward(s, acts, t, more, u);
      acts, t := acts + more, u;
    }
  }

  /** The calls follow one another in time. */
  predicate InTurn(now: int, qs: seq<Request>) {
    && (forall k | 0 <= k < |qs| :: now <= qs[k].loadTime <= qs[k].storeTime)
    && (forall j, k | 0 <= j < k < |qs| :: qs[j].storeTime <= qs[k].loadTime)
  }

  /** Call `k` of a sequence is over in `t` as the specification says. */
  predicate Settled(cap: int, qs: seq<Request>, k: nat, t: State)
    requires k < |qs|
  {
    var r := ResultAt(cap, map[], qs, k);
    At(t, k) == Some(Done(qs[k].subject, r.outcome)) && k in t.requests && t.requests[k] == if r.fetched then 1 else 0
  }

  /** And so is a whole sequence of calls on an empty cache: one run of the machine from its start,
      with the cache of the replay, and each call with its outcome and its number of requests. */
  lemma {:induction false} ReplayIsARun(cap: int, now: int, qs: seq<Request>) returns (acts: seq<Action>)
    requires InTurn(now, qs)
    ensures After(cap, now, acts).Some?
    ensures var t := After(cap, now, acts).value;
            && t.cap == cap && t.cache == Replay(cap, map[], qs)
            && (qs == [] ==> t.now == now) && (qs != [] ==> t.now <= qs[|qs| - 1].storeTime)
            && (forall c :: c in t.calls <==> 0 <= c < |qs|)
            && (forall k | 0 <= k < |qs| :: Settled(cap, qs, k, t))
  {
    if qs == [] {
      acts := [];
    } else {
      var n, init := |qs| - 1, qs[..|qs| - 1];
      InTurnPrefix(now, qs, n);
      acts := ReplayIsARun(cap, now, init);
      var s := After(cap, now, acts).value;
      var more, t := SequentialIsARun(s, qs[n], n);
      Onward(Start(cap, now), acts, s, more, t);
      acts := acts + more;
      assert Settled(cap, qs, n, t);
      forall k | 0 <= k < n ensures Settled(cap, qs, k, t) {
        StillSettled(cap, qs, n, k, s, t);
      }
    }
  }

  lemma InTurnPrefix(now: int, qs: seq<Request>, n: nat)
    requires InTurn(now, qs) && n <= |qs|
    ensures InTurn(now, qs[..n])
    ensures 0 < n < |qs| ==> qs[n - 1].storeTime <= qs[n].loadTime
  {
  }

  /** What was settled for the first `n` calls stays so for all of them. */
  lemma StillSettled(cap: int, qs: seq<Request>, n: nat, k: nat, s: State, t: State)
    requires k < n <= |qs| && Settled(cap, qs[..n], k, s)
    requires At(t, k) == At(s, k) && (k in s.requests ==> k in t.requests && t.requests[k] == s.requests[k])
    ensures Settled(cap, qs, k, t)
  {
    assert qs[..n][..k] == qs[..k];
  }

  /** In a run like that, two requests for one subject token are sent only for the reasons above. */
  lemma RefetchInRun(cap: int, now: int, qs: seq<Request>, acts: seq<Action>, i: nat, j: nat)
    requires InTurn(now, qs) && i < j < |qs| && qs[i].subject == qs[j].subject
    requires After(cap, now, acts).Some? && forall k | 0 <= k < |qs| :: Settled(cap, qs, k, After(cap, now, acts).value)
    ensures var t, g := After(cap, now, acts).value, Fetch(qs[i].response);
            i in t.requests && j in t.requests && t.requests[i] == 1 && t.requests[j] == 1 ==>
              || (g.Refused? && At(t, i) == Some(Done(qs[i].subject, Failed)))
              || (g.Granted? && CacheTTL(cap, g.expiresIn) <= 0)
              || (g.Granted? && qs[j].loadTime >= qs[i].storeTime + CacheTTL(cap, g.expiresIn))
  {
    var t := After(cap, now, acts).value;
    assert Settled(cap, qs, i, t) && Settled(cap, qs, j, t);
    if i in t.requests && j in t.requests && t.requests[i] == 1 && t.requests[j] == 1 {
      RefetchReason(cap, map[], qs, i, j);
    }
  }
}
