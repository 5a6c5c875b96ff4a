/** Interleaving of several sequences of steps, each of which keeps its own order. */
module Interleaving {

  /** The steps of `k`, in order. */
  function Project<K(==), V>(steps: seq<(K, V)>, k: K): seq<V> {
    if steps == [] then []
    else
      var before := Project(steps[..|steps| - 1], k);
      if steps[|steps| - 1].0 == k then before + [steps[|steps| - 1].1] else before
  }

  lemma ProjectAppend<K, V>(steps: seq<(K, V)>, step: (K, V), k: K)
    ensures Project(steps + [step], k) == Project(steps, k) + if step.0 == k then [step.1] else []
  {
    assert (steps + [step])[..|steps + [step]| - 1] == steps;
  }

  lemma {:induction false} ProjectConcat<K, V>(a: seq<(K, V)>, b: seq<(K, V)>, k: K)
    ensures Project(a + b, k) == Project(a, k) + Project(b, k)
    decreases |b|
  {
    if b == [] {
      assert a + b == a;
    } else {
      assert (a + b)[..|a + b| - 1] == a + b[..|b| - 1];
      ProjectConcat(a, b[..|b| - 1], k);
    }
  }

  /** Two orders of the same steps that agree for every key. */
  ghost predicate SameForEach<K(!new), V>(a: seq<(K, V)>, b: seq<(K, V)>) {
    forall k :: Project(a, k) == Project(b, k)
  }
}
