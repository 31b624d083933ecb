/** Why a subject token is exchanged twice, in any run of any number of concurrent callers. */
module Refetch {
  import opened Wrappers
  import opened Machine
  import opened ExchangeCache

  /** A run from an empty cache, step by step. */
  ghost predicate IsRun(cap: int, now: int, acts: seq<Action>) {
    After(cap, now, acts).Some?
  }

  /** The state before action `k` of a run. */
  function Before(cap: int, now: int, acts: seq<Action>, k: nat): State
    requires IsRun(cap, now, acts) && k <= |acts|
  {
    ExecPrefix(Step, Start(cap, now), acts, k);
    After(cap, now, acts[..k]).value
  }

  lemma OneStep(cap: int, now: int, acts: seq<Action>, k: nat)
    requires IsRun(cap, now, acts) && k < |acts|
    ensures Step(Before(cap, now, acts, k), acts[k]) == Some(Before(cap, now, acts, k + 1))
  {
    ExecPrefix(Step, Start(cap, now), acts, k);
    ExecPrefix(Step, Start(cap, now), acts, k + 1);
    assert acts[..k + 1] == acts[..k] + [acts[k]];
    ExecSnoc(Step, Start(cap, now), acts[..k], acts[k]);
  }

  lemma Whole(cap: int, now: int, acts: seq<Action>)
    requires IsRun(cap, now, acts)
    ensures Before(cap, now, acts, |acts|) == After(cap, now, acts).value
  {
    assert acts[..|acts|] == acts;
  }

  lemma {:induction false} PostsAlways(cap: int, now: int, acts: seq<Action>, k: nat)
    requires IsRun(cap, now, acts) && k <= |acts|
    ensures Posts(Before(cap, now, acts, k))
  {
    if k > 0 {
      PostsAlways(cap, now, acts, k - 1);
      OneStep(cap, now, acts, k - 1);
      PostsKept(Before(cap, now, acts, k - 1), acts[k - 1]);
    }
  }

  // ---- A finished call ------------------------------------------------------------------------

  lemma DoneStep(s: State, a: Action, c: nat)
    requires Step(s, a).Some? && c in s.calls && s.calls[c].Done? && c in s.requests
    ensures var t := Step(s, a).value; At(t, c) == At(s, c) && c in t.requests && t.requests[c] == s.requests[c]
  {
  }

  lemma {:induction false} DoneStays(cap: int, now: int, acts: seq<Action>, b: nat, n: nat, c: nat)
    requires IsRun(cap, now, acts) && b <= n <= |acts|
    requires var s := Before(cap, now, acts, b); c in s.calls && s.calls[c].Done? && c in s.requests
    ensures var s, t := Before(cap, now, acts, b), Before(cap, now, acts, n);
            At(t, c) == At(s, c) && c in t.requests && t.requests[c] == s.requests[c]
  {
    if b < n {
      DoneStays(cap, now, acts, b, n - 1, c);
      OneStep(cap, now, acts, n - 1);
      DoneStep(Before(cap, now, acts, n - 1), acts[n - 1], c);
    }
  }

  /** The server's answer to call `c` is not worth caching. */
  ghost predicate NotCacheable(s: State, c: nat) {
    exists i :: i in s.issued && i.call == c && CacheTTL(s.cap, i.expiresIn) <= 0
  }

  /** Call `c` stores `e` at action `a` of a run. */
  ghost predicate StoresAt(cap: int, now: int, acts: seq<Action>, a: nat, c: nat, e: Entry)
    requires IsRun(cap, now, acts)
  {
    && a < |acts| && acts[a] == Store(c)
    && var s := Before(cap, now, acts, a); c in s.calls && s.calls[c].Storing? && s.calls[c].entry == e
  }

  ghost predicate Stored(cap: int, now: int, acts: seq<Action>, n: nat, c: nat)
    requires IsRun(cap, now, acts)
  {
    exists a: nat, e :: a < n && StoresAt(cap, now, acts, a, c, e)
  }

  /** What a call that has been answered carries, and how one that ended with a token got it. */
  ghost predicate Accounted(s: State, c: nat, stored: bool) {
    match At(s, c)
    case Some(Answered(_, i)) => i in s.issued && i.call == c
    case Some(Fetched(_, i)) => i in s.issued && i.call == c
    case Some(Done(_, Token(_))) => c in s.requests && (s.requests[c] == 0 || stored || NotCacheable(s, c))
    case _ => true
  }

  lemma NotCacheableStays(s: State, a: Action, c: nat)
    requires Step(s, a).Some?
    ensures s.issued <= Step(s, a).value.issued
    ensures NotCacheable(s, c) ==> NotCacheable(Step(s, a).value, c)
  {
    var t := Step(s, a).value;
    assert s.issued <= t.issued && t.cap == s.cap;
    if NotCacheable(s, c) {
      var i :| i in s.issued && i.call == c && CacheTTL(s.cap, i.expiresIn) <= 0;
      assert i in t.issued;
    }
  }

  /** A step of call `c` itself, or one that leaves it where it is. */
  lemma AccountedStep(s: State, a: Action, c: nat, stored: bool)
    requires Posts(s) && Accounted(s, c, stored) && Step(s, a).Some?
    ensures Accounted(Step(s, a).value, c, stored || a == Store(c))
  {
    NotCacheableStays(s, a, c);
    if a.Tick? || a.c != c {
      assert At(Step(s, a).value, c) == At(s, c);
      if c in s.calls && s.calls[c].Done? && c in s.requests {
        DoneStep(s, a, c);
      }
    } else if a.Read? {
      assert s.calls[c].issue in Step(s, a).value.issued;
    }
  }

  lemma StoredNext(cap: int, now: int, acts: seq<Action>, n: nat, c: nat)
    requires IsRun(cap, now, acts) && n < |acts|
    requires Stored(cap, now, acts, n, c) || acts[n] == Store(c)
    ensures Stored(cap, now, acts, n + 1, c)
  {
    if acts[n] == Store(c) {
      OneStep(cap, now, acts, n);
      assert StoresAt(cap, now, acts, n, c, Before(cap, now, acts, n).calls[c].entry);
    } else {
      var a: nat, e :| a < n && StoresAt(cap, now, acts, a, c, e);
      assert StoresAt(cap, now, acts, a, c, e);
    }
  }

  lemma AccountedMore(s: State, c: nat, stored: bool, stored': bool)
    requires Accounted(s, c, stored) && (stored ==> stored')
    ensures Accounted(s, c, stored')
  {
  }

  lemma {:induction false} AccountedAlways(cap: int, now: int, acts: seq<Action>, n: nat, c: nat)
    requires IsRun(cap, now, acts) && n <= |acts|
    ensures Accounted(Before(cap, now, acts, n), c, Stored(cap, now, acts, n, c))
  {
    if n > 0 {
      var m := n - 1;
      AccountedAlways(cap, now, acts, m, c);
      PostsAlways(cap, now, acts, m);
      OneStep(cap, now, acts, m);
      var was := Stored(cap, now, acts, m, c);
      AccountedStep(Before(cap, now, acts, m), acts[m], c, was);
      if was || acts[m] == Store(c) {
        StoredNext(cap, now, acts, m, c);
      }
      AccountedMore(Before(cap, now, acts, n), c, was || acts[m] == Store(c), Stored(cap, now, acts, n, c));
    }
  }

  // ---- An entry in the cache --------------------------------------------------------------------

  /** Action `m` is a Delete or a Store of some call with this subject token. */
  ghost predicate Meddles(cap: int, now: int, acts: seq<Action>, m: nat, subject: string)
    requires IsRun(cap, now, acts)
  {
    && m < |acts| && (acts[m].Delete? || acts[m].Store?)
    && var s := Before(cap, now, acts, m); acts[m].c in s.calls && s.calls[acts[m].c].subject == subject
  }

  lemma StoreHolds(cap: int, now: int, acts: seq<Action>, a: nat, c: nat, e: Entry)
    requires IsRun(cap, now, acts) && StoresAt(cap, now, acts, a, c, e)
    ensures Holds(Before(cap, now, acts, a + 1).cache, Before(cap, now, acts, a).calls[c].subject, e)
  {
    OneStep(cap, now, acts, a);
  }

  lemma {:induction false} EntryKept(cap: int, now: int, acts: seq<Action>, k: nat, n: nat, subject: string, e: Entry)
    requires IsRun(cap, now, acts) && k <= n <= |acts| && Holds(Before(cap, now, acts, k).cache, subject, e)
    requires forall m | k <= m < n :: !Meddles(cap, now, acts, m, subject)
    ensures Holds(Before(cap, now, acts, n).cache, subject, e)
  {
    if k < n {
      EntryKept(cap, now, acts, k, n - 1, subject, e);
      OneStep(cap, now, acts, n - 1);
      assert !Meddles(cap, now, acts, n - 1, subject);
      var s := Before(cap, now, acts, n - 1);
      if Step(s, acts[n - 1]).value.cache != s.cache {
        CacheFrame(s, acts[n - 1]);
      }
    }
  }

  // ---- A call that has found the entry ------------------------------------------------------------

  /** Having found `e`, call `c` looks at it, or has returned it without asking the server, or `e`
      has expired. */
  ghost predicate Found(s: State, c: nat, subject: string, e: Entry) {
    || At(s, c) == Some(Checking(subject, e))
    || s.now >= e.expires
    || (c in s.calls && s.calls[c].Done? && c in s.requests && s.requests[c] == 0)
  }

  lemma FoundStep(s: State, a: Action, c: nat, subject: string, e: Entry)
    requires Posts(s) && Found(s, c, subject, e) && Step(s, a).Some?
    ensures Found(Step(s, a).value, c, subject, e)
  {
    assert s.now <= Step(s, a).value.now;
    if c in s.calls && s.calls[c].Done? && c in s.requests {
      DoneStep(s, a, c);
    }
  }

  lemma {:induction false} FoundAlways(cap: int, now: int, acts: seq<Action>, k: nat, n: nat,
                                       c: nat, subject: string, e: Entry)
    requires IsRun(cap, now, acts) && k <= n <= |acts| && Found(Before(cap, now, acts, k), c, subject, e)
    ensures Found(Before(cap, now, acts, n), c, subject, e)
  {
    if k < n {
      FoundAlways(cap, now, acts, k, n - 1, c, subject, e);
      PostsAlways(cap, now, acts, n - 1);
      OneStep(cap, now, acts, n - 1);
      FoundStep(Before(cap, now, acts, n - 1), acts[n - 1], c, subject, e);
    }
  }

  // ---- The reasons --------------------------------------------------------------------------------

  /** The entry that call `i` stored before action `b` was not there to be used: it has expired, or
      between its Store and `b` another call for the same token deleted or overwrote it. */
  ghost predicate Lost(cap: int, now: int, acts: seq<Action>, b: nat, i: nat, subject: string)
    requires IsRun(cap, now, acts)
  {
    exists a: nat, e :: a < b && StoresAt(cap, now, acts, a, i, e)
      && (After(cap, now, acts).value.now >= e.expires
          || exists m: nat :: a < m < b && Meddles(cap, now, acts, m, subject))
  }

  /** In every run: two calls for one subject token, of which the second looked in the cache (action
      `b`) when the first was over, both asked the server only if the first one failed, or was not
      cacheable, or its entry was lost. */
  lemma RefetchReasons(cap: int, now: int, acts: seq<Action>, i: nat, j: nat, b: nat)
    requires IsRun(cap, now, acts) && b < |acts| && acts[b] == Load(j)
    requires var s := Before(cap, now, acts, b);
             && i in s.calls && s.calls[i].Done? && j in s.calls && s.calls[j].subject == s.calls[i].subject
    requires var s := After(cap, now, acts).value;
             i in s.requests && s.requests[i] == 1 && j in s.requests && s.requests[j] == 1
    ensures var s := Before(cap, now, acts, b);
            || s.calls[i].outcome == Failed
            || NotCacheable(s, i)
            || Lost(cap, now, acts, b, i, s.calls[i].subject)
  {
    var s := Before(cap, now, acts, b);
    var x := s.calls[i].subject;
    Whole(cap, now, acts);
    PostsAlways(cap, now, acts, b);
    DoneStays(cap, now, acts, b, |acts|, i);
    AccountedAlways(cap, now, acts, b, i);
    if s.calls[i].outcome != Failed && !NotCacheable(s, i) {
      var a: nat, e :| a < b && StoresAt(cap, now, acts, a, i, e);
      StoreHolds(cap, now, acts, a, i, e);
      SubjectStays(cap, now, acts, a, b, i);
      if forall m: nat | a < m < b :: !Meddles(cap, now, acts, m, x) {
        EntryKept(cap, now, acts, a + 1, b, x, e);
        OneStep(cap, now, acts, b);
        FoundAlways(cap, now, acts, b + 1, |acts|, j, x, e);
        PostsAlways(cap, now, acts, |acts|);
      }
    }
  }

  function SubjectOf(s: State, c: nat): Option<string> {
    if c in s.calls then Some(s.calls[c].subject) else None
  }

  lemma SubjectStep(s: State, a: Action, c: nat)
    requires Step(s, a).Some? && SubjectOf(s, c).Some?
    ensures SubjectOf(Step(s, a).value, c) == SubjectOf(s, c)
  {
  }

  lemma {:induction false} SubjectStays(cap: int, now: int, acts: seq<Action>, a: nat, n: nat, c: nat)
    requires IsRun(cap, now, acts) && a <= n <= |acts| && SubjectOf(Before(cap, now, acts, a), c).Some?
    ensures SubjectOf(Before(cap, now, acts, n), c) == SubjectOf(Before(cap, now, acts, a), c)
  {
    if a < n {
      SubjectStays(cap, now, acts, a, n - 1, c);
      OneStep(cap, now, acts, n - 1);
      SubjectStep(Before(cap, now, acts, n - 1), acts[n - 1], c);
    }
  }
}
