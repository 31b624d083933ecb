/** Facts about concatenation and slices that proofs elsewhere need one at a time. */
module Sequences {
  lemma AppendAssociates<T>(a: seq<T>, b: seq<T>, c: seq<T>)
    ensures a + (b + c) == (a + b) + c
  {
  }

  lemma InitAndLast<T>(a: seq<T>, b: seq<T>)
    requires b != []
    ensures (a + b[..|b| - 1]) + [b[|b| - 1]] == a + b
  {
  }

  lemma TakeAndDrop<T>(a: seq<T>, k: nat)
    requires k <= |a|
    ensures a[..k] + a[k..] == a
  {
  }

  lemma SnocLast<T>(a: seq<T>, x: T)
    ensures (a + [x])[|a|] == x && (a + [x])[..|a|] == a
  {
  }

  lemma DropOne<T>(a: seq<T>, n: nat)
    requires n < |a|
    ensures a[n..] != [] && a[n..][0] == a[n] && a[n..][1..] == a[n + 1..]
  {
  }

  lemma ThreeInARow<T>(a: T, b: T, c: T)
    ensures ([a] + [b]) + [c] == [a, b, c]
  {
  }

  lemma InitThenLast<T>(a: seq<T>)
    requires a != []
    ensures a[..|a| - 1] + [a[|a| - 1]] == a
  {
  }
}
