/** Runs of a state machine.  A machine is a partial step function; a run is any sequence of
    actions each of which is enabled when it is taken, so a statement about every run is a
    statement about every interleaving of the actors that own the actions. */
module Machine {
  import opened Wrappers

  /** The state after `acts`, or None when some action is not enabled at its turn. */
  function Exec<S, A>(step: (S, A) -> Option<S>, s: S, acts: seq<A>): Option<S> {
    if acts == [] then Some(s)
    else match Exec(step, s, acts[..|acts| - 1])
      case None => None
      case Some(t) => step(t, acts[|acts| - 1])
  }

  /** An invariant kept by every step holds at the end of every run. */
  lemma {:induction false} InvariantHolds<S(!new), A(!new)>(
      step: (S, A) -> Option<S>, inv: S -> bool, s: S, acts: seq<A>)
    requires inv(s)
    requires forall t, a :: inv(t) && step(t, a).Some? ==> inv(step(t, a).value)
    ensures Exec(step, s, acts).Some? ==> inv(Exec(step, s, acts).value)
  {
    if acts != [] {
      InvariantHolds(step, inv, s, acts[..|acts| - 1]);
    }
  }

  /** Running `acts` and then `more` is one run. */
  lemma {:induction false} ExecConcat<S, A>(step: (S, A) -> Option<S>, s: S, acts: seq<A>, more: seq<A>)
    requires Exec(step, s, acts).Some?
    ensures Exec(step, s, acts + more) == Exec(step, Exec(step, s, acts).value, more)
  {
    if more == [] {
      assert acts + more == acts;
    } else {
      var n := |more| - 1;
      assert (acts + more)[..|acts + more| - 1] == acts + more[..n];
      ExecConcat(step, s, acts, more[..n]);
    }
  }

  /** A run can be cut anywhere. */
  lemma {:induction false} ExecPrefix<S, A>(step: (S, A) -> Option<S>, s: S, acts: seq<A>, k: nat)
    requires k <= |acts| && Exec(step, s, acts).Some?
    ensures Exec(step, s, acts[..k]).Some?
  {
    if k == |acts| {
      assert acts[..k] == acts;
    } else {
      assert acts[..|acts| - 1][..k] == acts[..k];
      ExecPrefix(step, s, acts[..|acts| - 1], k);
    }
  }

  /** A run and one more step. */
  lemma ExecSnoc<S, A>(step: (S, A) -> Option<S>, s: S, acts: seq<A>, a: A)
    requires Exec(step, s, acts).Some?
    ensures Exec(step, s, acts + [a]) == step(Exec(step, s, acts).value, a)
  {
    assert (acts + [a])[..|acts|] == acts;
  }
}
