/** Facts about sequences that the verifier is told once. */
module Sequences {

  lemma Regroup<A>(a: seq<A>, b: seq<A>, c: seq<A>)
    ensures (a + b) + c == a + (b + c)
  {
  }

  /** Dropping the last item of a concatenation. */
  lemma InitOfAppend<A>(a: seq<A>, b: seq<A>)
    requires b != []
    ensures (a + b)[..|a + b| - 1] == a + b[..|b| - 1] && (a + b)[|a + b| - 1] == b[|b| - 1]
  {
  }

  /** Dropping the first item of a concatenation. */
  lemma TailOfAppend<A>(a: seq<A>, b: seq<A>)
    requires a != []
    ensures (a + b)[1..] == a[1..] + b && (a + b)[0] == a[0]
  {
  }
}
