/**
 * A stable sort by a real-valued key, as used by LINQ's `OrderByDescending`
 * (descending: sort by the negated key) and by JavaScript's `Array.prototype.sort`
 * with a numeric comparator (stable since ECMAScript 2019).
 *
 * The sort works on positions 0..n-1 of the input; `Arrange` then lists the
 * elements in that order. Elements that compare equal keep their input order.
 */
module StableSort {

  /** Position `a` comes before position `b`: smaller key, or equal key and earlier in the input. */
  predicate Precedes(key: seq<real>, a: nat, b: nat)
    requires a < |key| && b < |key|
  {
    key[a] < key[b] || (key[a] == key[b] && a < b)
  }

  predicate InRange(key: seq<real>, order: seq<nat>) {
    forall p :: 0 <= p < |order| ==> order[p] < |key|
  }

  /** Every earlier position of `order` precedes every later one. */
  predicate Ordered(key: seq<real>, order: seq<nat>)
    requires InRange(key, order)
  {
    forall p, q :: 0 <= p < q < |order| ==> Precedes(key, order[p], order[q])
  }

  /** `order` lists every position of `key` exactly once, in the stable ascending order. */
  predicate SortedPermutation(key: seq<real>, order: seq<nat>) {
    && |order| == |key|
    && InRange(key, order)
    && Ordered(key, order)
    && (forall j :: 0 <= j < |key| ==> j in order)
  }

  /** Inserts position `j` after every listed position whose key is at most `key[j]`. */
  function Insert(key: seq<real>, order: seq<nat>, j: nat): (r: seq<nat>)
    requires j < |key| && InRange(key, order)
    ensures |r| == |order| + 1 && InRange(key, r)
    ensures multiset(r) == multiset(order) + multiset{j}
  {
    if order == [] then [j]
    else if key[order[0]] <= key[j] then
      assert order == [order[0]] + order[1..];
      [order[0]] + Insert(key, order[1..], j)
    else [j] + order
  }

  /** Insertion sort of the positions 0..n-1: each of them, and nothing else. */
  function SortPrefix(key: seq<real>, n: nat): (order: seq<nat>)
    requires n <= |key|
    ensures |order| == n && InRange(key, order)
    ensures forall j: nat :: j in multiset(order) <==> j < n
  {
    if n == 0 then []
    else
      var last: nat := n - 1;
      var prev := SortPrefix(key, last);
      Insert(key, prev, last)
  }

  /** The positions of `key`, sorted stably by ascending key. */
  function SortIndices(key: seq<real>): (order: seq<nat>)
    ensures SortedPermutation(key, order)
  {
    SortPrefixOrdered(key, |key|);
    SortPrefixCovers(key, |key|);
    SortPrefix(key, |key|)
  }

  /** Inserting a position later than every listed one keeps the list ordered. */
  lemma {:induction false} InsertOrdered(key: seq<real>, order: seq<nat>, j: nat)
    requires j < |key| && InRange(key, order) && Ordered(key, order)
    requires forall p :: 0 <= p < |order| ==> order[p] < j
    ensures Ordered(key, Insert(key, order, j))
  {
    if order != [] {
      var r := Insert(key, order, j);
      if key[order[0]] <= key[j] {
        var rest := order[1..];
        InsertOrdered(key, rest, j);
        var tail := Insert(key, rest, j);
        assert r == [order[0]] + tail;
        forall q | 0 <= q < |tail| ensures Precedes(key, order[0], tail[q]) {
          assert tail[q] in multiset(rest) + multiset{j};
          if tail[q] != j {
            assert tail[q] in rest;
          }
        }
      } else {
        assert r == [j] + order;
        forall q | 0 <= q < |order| ensures Precedes(key, j, order[q]) {
          if q > 0 {
            assert Precedes(key, order[0], order[q]);
          }
        }
      }
    }
  }

  lemma {:induction false} SortPrefixOrdered(key: seq<real>, n: nat)
    requires n <= |key|
    ensures Ordered(key, SortPrefix(key, n))
  {
    if n > 0 {
      var last: nat := n - 1;
      var prev := SortPrefix(key, last);
      SortPrefixOrdered(key, last);
      forall p | 0 <= p < |prev| ensures prev[p] < last {
        assert prev[p] in multiset(prev);
      }
      InsertOrdered(key, prev, last);
    }
  }

  lemma SortPrefixCovers(key: seq<real>, n: nat)
    requires n <= |key|
    ensures forall j :: 0 <= j < n ==> j in SortPrefix(key, n)
  {
    var order := SortPrefix(key, n);
    forall j | 0 <= j < n ensures j in order {
      assert j in multiset(order);
    }
  }

  /** Number of positions that precede `j`: the closed-form place of `j` in the sorted order. */
  function PrecedingCount(key: seq<real>, j: nat): nat
    requires j < |key|
  {
    |set k | 0 <= k < |key| && Precedes(key, k, j)|
  }

  /** The positions listed before index `p` of `order`. */
  lemma {:induction false} DistinctPrefixCount(order: seq<nat>, p: nat)
    requires p <= |order|
    requires forall a, b :: 0 <= a < b < |order| ==> order[a] != order[b]
    ensures |set q | 0 <= q < p :: order[q]| == p
  {
    if p > 0 {
      DistinctPrefixCount(order, p - 1);
      var before := set q | 0 <= q < p - 1 :: order[q];
      assert (set q | 0 <= q < p :: order[q]) == before + {order[p - 1]};
      assert order[p - 1] !in before;
    }
  }

  /** In a sorted permutation, the element at index `p` is preceded by exactly `p` positions. */
  lemma {:induction false} PositionIsPrecedingCount(key: seq<real>, order: seq<nat>, p: nat)
    requires SortedPermutation(key, order) && p < |order|
    ensures PrecedingCount(key, order[p]) == p
  {
    var j := order[p];
    var preceding := set k | 0 <= k < |key| && Precedes(key, k, j);
    var listed := set q | 0 <= q < p :: order[q];
    forall k | k in preceding ensures k in listed {
      assert k in order;
      var q :| 0 <= q < |order| && order[q] == k;
      if q >= p {
        assert false;
      }
    }
    forall k | k in listed ensures k in preceding {
      var q :| 0 <= q < p && order[q] == k;
      assert Precedes(key, order[q], order[p]);
    }
    assert preceding == listed;
    forall a, b | 0 <= a < b < |order| ensures order[a] != order[b] {
      assert Precedes(key, order[a], order[b]);
    }
    DistinctPrefixCount(order, p);
  }

  /** The naturals below `n`. */
  function Below(n: nat): (r: set<nat>)
    ensures |r| == n
    ensures forall k: nat :: k in r <==> k < n
  {
    if n == 0 then {} else Below(n - 1) + {n - 1}
  }

  /** Sorting a list that is already in order leaves every position where it is. */
  lemma {:induction false} SortedInputKeepsOrder(key: seq<real>)
    requires forall a, b :: 0 <= a < b < |key| ==> key[a] <= key[b]
    ensures forall p :: 0 <= p < |key| ==> SortIndices(key)[p] == p
  {
    var order := SortIndices(key);
    forall p | 0 <= p < |key| ensures order[p] == p {
      PositionIsPrecedingCount(key, order, p);
      var j := order[p];
      forall k | 0 <= k < |key| ensures Precedes(key, k, j) <==> k < j {
        if k < j {
          assert key[k] <= key[j];
        } else if j < k {
          assert key[j] <= key[k];
        }
      }
      assert (set k | 0 <= k < |key| && Precedes(key, k, j)) == Below(j);
    }
  }

  /** The elements of `xs` listed in the order `order`. */
  function Arrange<T>(xs: seq<T>, order: seq<nat>): (r: seq<T>)
    requires forall p :: 0 <= p < |order| ==> order[p] < |xs|
    ensures |r| == |order|
  {
    if order == [] then [] else [xs[order[0]]] + Arrange(xs, order[1..])
  }

  lemma {:induction false} ArrangeAt<T>(xs: seq<T>, order: seq<nat>, p: nat)
    requires forall p :: 0 <= p < |order| ==> order[p] < |xs|
    requires p < |order|
    ensures Arrange(xs, order)[p] == xs[order[p]]
  {
    if p > 0 {
      ArrangeAt(xs, order[1..], p - 1);
    }
  }

  lemma {:induction false} ArrangeInsert<T>(xs: seq<T>, key: seq<real>, order: seq<nat>, j: nat)
    requires |xs| == |key| && j < |key| && InRange(key, order)
    ensures multiset(Arrange(xs, Insert(key, order, j))) == multiset(Arrange(xs, order)) + multiset{xs[j]}
  {
    var ins := Insert(key, order, j);
    if order == [] {
      assert Arrange(xs, ins) == [xs[j]];
    } else if key[order[0]] <= key[j] {
      var rest := order[1..];
      ArrangeInsert(xs, key, rest, j);
      var insRest := Insert(key, rest, j);
      assert ins[0] == order[0] && ins[1..] == insRest;
      assert Arrange(xs, ins) == [xs[order[0]]] + Arrange(xs, insRest);
    } else {
      assert ins[0] == j && ins[1..] == order;
    }
  }

  lemma PrefixGrows<T>(xs: seq<T>, n: nat)
    requires n < |xs|
    ensures multiset(xs[..n + 1]) == multiset(xs[..n]) + multiset{xs[n]}
  {
    assert xs[..n + 1] == xs[..n] + [xs[n]];
  }

  lemma {:induction false} ArrangePrefixPermutes<T>(xs: seq<T>, key: seq<real>, n: nat)
    requires |xs| == |key| && n <= |key|
    ensures multiset(Arrange(xs, SortPrefix(key, n))) == multiset(xs[..n])
  {
    if n > 0 {
      var last: nat := n - 1;
      var prev := SortPrefix(key, last);
      ArrangePrefixPermutes(xs, key, last);
      ArrangeInsert(xs, key, prev, last);
      assert SortPrefix(key, n) == Insert(key, prev, last);
      PrefixGrows(xs, last);
    }
  }

  /** Sorting only reorders: the result holds the same elements, as often. */
  lemma ArrangeSortedPermutes<T>(xs: seq<T>, key: seq<real>)
    requires |xs| == |key|
    ensures multiset(Arrange(xs, SortIndices(key))) == multiset(xs)
  {
    ArrangePrefixPermutes(xs, key, |key|);
    assert xs[..|key|] == xs;
  }
}
