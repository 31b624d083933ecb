/** Each call of a concurrent run is the sequential program run on what that call saw: the cache at its
    Load, the clock at its Check, the server's answer, the clock when it computes the expiry. */
module Calls {
  import opened Wrappers
  import opened ExchangeCache
  import opened Refetch
  import TokenExchanger
  import Int64

  /** What a call has seen so far. */
  datatype Sight = Sight(cache: map<Key, Entry>, checked: int, response: TokenExchanger.Response, read: int)

  function Asked(x: string, w: Sight): TokenExchanger.Request {
    TokenExchanger.Request(x, w.checked, w.response, w.read)
  }

  /** What the program makes of it. */
  function Program(cap: int, x: string, w: Sight): TokenExchanger.Result {
    TokenExchanger.Exchanged(cap, w.cache, Asked(x, w))
  }

  predicate Missed(x: string, w: Sight) {
    !TokenExchanger.Live(w.cache, Asked(x, w))
  }

  function Granting(i: Issue): TokenExchanger.Response
    requires Int64.Fits(i.expiresIn)
  {
    TokenExchanger.Reply(200, Some(TokenExchanger.Payload(i.token, i.expiresIn)))
  }

  /** Where a call is, in terms of what it saw and how many requests it has sent. */
  predicate Story(cap: int, w: Sight, call: Call, requests: nat) {
    match call
    case Loading(_) => requests == 0
    case Checking(x, hit) => requests == 0 && Holds(w.cache, x, hit)
    case Deleting(x) => requests == 0 && Missed(x, w) && Digest(x) in w.cache
    case Requesting(x) => requests == 0 && Missed(x, w)
    case Waiting(x) => requests == 1 && Missed(x, w)
    case Answered(x, i) => requests == 1 && Missed(x, w) && Int64.Fits(i.expiresIn)
    case Fetched(x, i) => requests == 1 && Missed(x, w) && Int64.Fits(i.expiresIn) && i.token != ""
    case Storing(x, i, e) =>
      && requests == 1 && Missed(x, w) && Int64.Fits(i.expiresIn) && i.token != "" && w.response == Granting(i)
      && CacheTTL(cap, i.expiresIn) > 0 && e == Entry(i.token, w.read + CacheTTL(cap, i.expiresIn))
    case Done(x, outcome) =>
      var r := Program(cap, x, w);
      && outcome == r.outcome && requests <= (if r.fetched then 1 else 0)
      && (r.fetched && outcome != Failed ==> requests == 1)
  }

  // ---- It really saw it -----------------------------------------------------------------------

  ghost predicate Loaded(cap: int, now: int, acts: seq<Action>, n: nat, c: nat, cache: map<Key, Entry>)
    requires IsRun(cap, now, acts) && n <= |acts|
  {
    exists l: nat :: l < n && acts[l] == Load(c) && Before(cap, now, acts, l).cache == cache
  }

  ghost predicate Checked(cap: int, now: int, acts: seq<Action>, n: nat, c: nat, time: int)
    requires IsRun(cap, now, acts) && n <= |acts|
  {
    exists k: nat :: k < n && acts[k] == Check(c) && Before(cap, now, acts, k).now == time
  }

  ghost predicate ReadClock(cap: int, now: int, acts: seq<Action>, n: nat, c: nat, time: int)
    requires IsRun(cap, now, acts) && n <= |acts|
  {
    exists k: nat :: k < n && acts[k] == Read(c) && Before(cap, now, acts, k).now == time
  }

  ghost predicate Deleted(acts: seq<Action>, n: nat, c: nat)
    requires n <= |acts|
  {
    exists k: nat :: k < n && acts[k] == Delete(c)
  }

  ghost predicate WasAnswered(acts: seq<Action>, n: nat, c: nat, token: string, expiresIn: int)
    requires n <= |acts|
  {
    exists k: nat :: k < n && acts[k] == Answer(c, token, expiresIn)
  }

  predicate PastDelete(call: Call) {
    !call.Loading? && !call.Checking? && !call.Deleting?
  }

  ghost predicate Witnessed(cap: int, now: int, acts: seq<Action>, n: nat, c: nat, w: Sight, call: Call)
    requires IsRun(cap, now, acts) && n <= |acts|
  {
    && (!call.Loading? ==> Loaded(cap, now, acts, n, c, w.cache))
    && (!call.Loading? && !call.Checking? && Digest(call.subject) in w.cache ==>
          Checked(cap, now, acts, n, c, w.checked))
    && (PastDelete(call) && Digest(call.subject) in w.cache && Missed(call.subject, w) ==> Deleted(acts, n, c))
    && (call.Answered? || call.Fetched? || call.Storing? ==>
          WasAnswered(acts, n, c, call.issue.token, call.issue.expiresIn))
    && (call.Storing? ==> ReadClock(cap, now, acts, n, c, w.read))
    && (call.Done? && call.outcome.Token? && Missed(call.subject, w) ==>
          && ReadClock(cap, now, acts, n, c, w.read)
          && w.response.Reply? && w.response.payload.Some?
          && WasAnswered(acts, n, c, w.response.payload.value.accessToken, w.response.payload.value.expiresIn))
  }

  lemma StillWitnessed(cap: int, now: int, acts: seq<Action>, n: nat, c: nat, w: Sight, call: Call)
    requires IsRun(cap, now, acts) && n < |acts| && Witnessed(cap, now, acts, n, c, w, call)
    ensures Witnessed(cap, now, acts, n + 1, c, w, call)
  {
  }

  /** What the call has seen after a step of its own. */
  function Sees(w: Sight, s: State, a: Action, c: nat): Sight {
    if a == Load(c) then w.(cache := s.cache)
    else if a == Check(c) then w.(checked := s.now)
    else if a == Read(c) && c in s.calls && s.calls[c].Fetched? && Int64.Fits(s.calls[c].issue.expiresIn)
    then w.(read := s.now, response := Granting(s.calls[c].issue))
    else if a == Fail(c) then w.(response := TokenExchanger.TransportError)
    else w
  }

  lemma StoryGoesOn(s: State, a: Action, c: nat, w: Sight)
    requires Step(s, a).Some? && c in s.calls && c in s.requests && Story(s.cap, w, s.calls[c], s.requests[c])
    ensures var t := Step(s, a).value;
            c in t.calls && c in t.requests && t.cap == s.cap
            && Story(s.cap, Sees(w, s, a, c), t.calls[c], t.requests[c])
  {
    if a.Tick? || a.c != c {
      assert At(Step(s, a).value, c) == At(s, c) && Sees(w, s, a, c) == w;
    } else {
      OwnStep(s, a, c, w);
    }
  }

  lemma OwnStep(s: State, a: Action, c: nat, w: Sight)
    requires !a.Tick? && a.c == c && Step(s, a).Some?
    requires c in s.calls && c in s.requests && Story(s.cap, w, s.calls[c], s.requests[c])
    ensures var t := Step(s, a).value;
            c in t.calls && c in t.requests && t.cap == s.cap
            && Story(s.cap, Sees(w, s, a, c), t.calls[c], t.requests[c])
  {
  }

  lemma WitnessGoesOn(cap: int, now: int, acts: seq<Action>, n: nat, c: nat, w: Sight)
    requires IsRun(cap, now, acts) && n < |acts|
    requires var s := Before(cap, now, acts, n);
             && s.cap == cap && c in s.calls && c in s.requests && Story(cap, w, s.calls[c], s.requests[c])
             && Witnessed(cap, now, acts, n, c, w, s.calls[c])
    ensures var s, t := Before(cap, now, acts, n), Before(cap, now, acts, n + 1);
            c in t.calls && Witnessed(cap, now, acts, n + 1, c, Sees(w, s, acts[n], c), t.calls[c])
  {
    var s, a := Before(cap, now, acts, n), acts[n];
    OneStep(cap, now, acts, n);
    StillWitnessed(cap, now, acts, n, c, w, s.calls[c]);
    if a.Tick? || a.c != c {
      assert At(Step(s, a).value, c) == At(s, c) && Sees(w, s, a, c) == w;
    } else {
      WitnessOwn(cap, now, acts, n, c, w);
    }
  }

  /** Call `c` is about to take action `n` and what it saw before has its witnesses. */
  ghost predicate Ready(cap: int, now: int, acts: seq<Action>, n: nat, c: nat, w: Sight) {
    && IsRun(cap, now, acts) && n < |acts| && !acts[n].Tick? && acts[n].c == c
    && var s := Before(cap, now, acts, n);
    && Step(s, acts[n]) == Some(Before(cap, now, acts, n + 1))
    && c in s.calls && c in s.requests && Story(cap, w, s.calls[c], s.requests[c])
    && Witnessed(cap, now, acts, n + 1, c, w, s.calls[c])
  }

  ghost predicate Advanced(cap: int, now: int, acts: seq<Action>, n: nat, c: nat, w: Sight)
    requires IsRun(cap, now, acts) && n < |acts|
  {
    var s, t := Before(cap, now, acts, n), Before(cap, now, acts, n + 1);
    c in t.calls && Witnessed(cap, now, acts, n + 1, c, Sees(w, s, acts[n], c), t.calls[c])
  }

  lemma WitnessLoad(cap: int, now: int, acts: seq<Action>, n: nat, c: nat, w: Sight)
    requires Ready(cap, now, acts, n, c, w) && acts[n].Load?
    ensures Advanced(cap, now, acts, n, c, w)
  {
    assert Loaded(cap, now, acts, n + 1, c, Before(cap, now, acts, n).cache);
  }

  lemma WitnessCheck(cap: int, now: int, acts: seq<Action>, n: nat, c: nat, w: Sight)
    requires Ready(cap, now, acts, n, c, w) && acts[n].Check?
    ensures Advanced(cap, now, acts, n, c, w)
  {
    assert Checked(cap, now, acts, n + 1, c, Before(cap, now, acts, n).now);
  }

  lemma WitnessRequest(cap: int, now: int, acts: seq<Action>, n: nat, c: nat, w: Sight)
    requires Ready(cap, now, acts, n, c, w)
    requires acts[n].Delete? || acts[n].Post? || acts[n].Answer? || acts[n].Accept?
    ensures Advanced(cap, now, acts, n, c, w)
  {
    if acts[n].Delete? {
      assert Deleted(acts, n + 1, c);
    }
    if acts[n].Answer? {
      assert WasAnswered(acts, n + 1, c, acts[n].token, acts[n].expiresIn);
    }
  }

  lemma WitnessRead(cap: int, now: int, acts: seq<Action>, n: nat, c: nat, w: Sight)
    requires Ready(cap, now, acts, n, c, w) && acts[n].Read?
    ensures Advanced(cap, now, acts, n, c, w)
  {
    assert ReadClock(cap, now, acts, n + 1, c, Before(cap, now, acts, n).now);
  }

  lemma WitnessEnd(cap: int, now: int, acts: seq<Action>, n: nat, c: nat, w: Sight)
    requires Ready(cap, now, acts, n, c, w) && acts[n].Fail?
    ensures Advanced(cap, now, acts, n, c, w)
  {
  }

  lemma WitnessStore(cap: int, now: int, acts: seq<Action>, n: nat, c: nat, w: Sight)
    requires Ready(cap, now, acts, n, c, w) && acts[n].Store?
    ensures Advanced(cap, now, acts, n, c, w)
  {
  }

  /** An action of the call itself is a witness of what it sees. */
  lemma WitnessOwn(cap: int, now: int, acts: seq<Action>, n: nat, c: nat, w: Sight)
    requires Ready(cap, now, acts, n, c, w)
    ensures Advanced(cap, now, acts, n, c, w)
  {
    match acts[n]
    case Load(_) => WitnessLoad(cap, now, acts, n, c, w);
    case Check(_) => WitnessCheck(cap, now, acts, n, c, w);
    case Read(_) => WitnessRead(cap, now, acts, n, c, w);
    case Fail(_) => WitnessEnd(cap, now, acts, n, c, w);
    case Store(_) => WitnessStore(cap, now, acts, n, c, w);
    case _ => WitnessRequest(cap, now, acts, n, c, w);
  }

  /** In every run, every call is, at every moment, where the program would be on what it saw. */
  lemma {:induction false} CallSoFar(cap: int, now: int, acts: seq<Action>, n: nat, c: nat) returns (w: Sight)
    requires IsRun(cap, now, acts) && n <= |acts| && c in Before(cap, now, acts, n).calls
    ensures var s := Before(cap, now, acts, n);
            && s.cap == cap && c in s.requests && Story(cap, w, s.calls[c], s.requests[c])
            && Witnessed(cap, now, acts, n, c, w, s.calls[c])
  {
    assert n > 0;
    var m := n - 1;
    OneStep(cap, now, acts, m);
    CapStays(cap, now, acts, m);
    var s := Before(cap, now, acts, m);
    CapStays(cap, now, acts, n);
    if c in s.calls {
      var v := CallSoFar(cap, now, acts, m, c);
      StoryGoesOn(s, acts[m], c, v);
      WitnessGoesOn(cap, now, acts, m, c, v);
      w := Sees(v, s, acts[m], c);
    } else {
      w := Sight(map[], 0, TokenExchanger.TransportError, 0);
      CallBegins(s, acts[m], c, w);
    }
  }

  lemma CallBegins(s: State, a: Action, c: nat, w: Sight)
    requires Step(s, a).Some? && c !in s.calls && c in Step(s, a).value.calls
    ensures var t := Step(s, a).value;
            t.calls[c].Loading? && c in t.requests && Story(s.cap, w, t.calls[c], t.requests[c])
  {
  }

  lemma {:induction false} CapStays(cap: int, now: int, acts: seq<Action>, n: nat)
    requires IsRun(cap, now, acts) && n <= |acts|
    ensures Before(cap, now, acts, n).cap == cap
  {
    if n > 0 {
      CapStays(cap, now, acts, n - 1);
      OneStep(cap, now, acts, n - 1);
    }
  }

  /** So a finished call of any run returned what the sequential program returns on the cache as it was
      at the call's Load, the clock at its Check, the server's answer to it and the clock at its Read,
      and asked the server exactly if that program does (a request that cannot be built is not sent). */
  lemma EveryCallIsTheProgram(cap: int, now: int, acts: seq<Action>, c: nat) returns (w: Sight)
    requires IsRun(cap, now, acts)
    requires var s := After(cap, now, acts).value; c in s.calls && s.calls[c].Done?
    ensures var s := After(cap, now, acts).value; var Done(x, outcome) := s.calls[c];
            var r := Program(cap, x, w);
            && outcome == r.outcome && c in s.requests
            && s.requests[c] <= (if r.fetched then 1 else 0)
            && (r.fetched && outcome != Failed ==> s.requests[c] == 1)
            && Witnessed(cap, now, acts, |acts|, c, w, s.calls[c])
  {
    Whole(cap, now, acts);
    w := CallSoFar(cap, now, acts, |acts|, c);
  }

  // ---- What has been issued ---------------------------------------------------------------------

  /** The server's answer at action `k`: this token and lifetime, to this call, for the subject token of
      that call's request, at this time. */
  ghost predicate AnsweredAt(cap: int, now: int, acts: seq<Action>, k: nat, i: Issue)
    requires IsRun(cap, now, acts) && k < |acts|
  {
    && acts[k] == Answer(i.call, i.token, i.expiresIn)
    && var s := Before(cap, now, acts, k); At(s, i.call) == Some(Waiting(i.subject)) && s.now == i.at
  }

  /** The issues are exactly the answers the server has given to requests that were waiting for one. */
  lemma {:induction false} IssuesAreAnswers(cap: int, now: int, acts: seq<Action>, n: nat, i: Issue)
    requires IsRun(cap, now, acts) && n <= |acts|
    ensures i in Before(cap, now, acts, n).issued <==> exists k: nat :: k < n && AnsweredAt(cap, now, acts, k, i)
  {
    if n > 0 {
      var m := n - 1;
      IssuesAreAnswers(cap, now, acts, m, i);
      OneStep(cap, now, acts, m);
      IssuedInStep(Before(cap, now, acts, m), acts[m], i);
      if i in Before(cap, now, acts, n).issued && i !in Before(cap, now, acts, m).issued {
        assert AnsweredAt(cap, now, acts, m, i);
      }
      if k: nat :| k < n && AnsweredAt(cap, now, acts, k, i) {
        assert k == m || k < m;
      }
    }
  }

  lemma IssuedInStep(s: State, a: Action, i: Issue)
    requires Step(s, a).Some?
    ensures i in Step(s, a).value.issued <==>
            || i in s.issued
            || (a == Answer(i.call, i.token, i.expiresIn) && At(s, i.call) == Some(Waiting(i.subject)) && s.now == i.at)
  {
  }
}
