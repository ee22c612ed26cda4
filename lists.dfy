/** Lookups shared by the C# (`List.First`) and the TypeScript (`Array.find`) code. */
module Lists {
  import opened Wrappers

  /** The first position of `xs` holding `x`, or None when `x` does not occur. */
  function IndexOf<T(==)>(xs: seq<T>, x: T): (r: Option<nat>)
    ensures r.Some? ==> r.value < |xs| && xs[r.value] == x
    ensures r.Some? ==> forall k :: 0 <= k < r.value ==> xs[k] != x
    ensures r.None? <==> x !in xs
  {
    if xs == [] then None
    else if xs[0] == x then Some(0)
    else
      match IndexOf(xs[1..], x)
      case None => None
      case Some(k) => Some(k + 1)
  }

  /** No value occurs twice. */
  predicate Distinct<T(==)>(xs: seq<T>) {
    forall a, b :: 0 <= a < b < |xs| ==> xs[a] != xs[b]
  }

  /** In a list without repetitions, every element is found at its own position. */
  lemma IndexOfDistinct<T>(xs: seq<T>, j: nat)
    requires Distinct(xs) && j < |xs|
    ensures IndexOf(xs, xs[j]) == Some(j)
  {
  }
}
