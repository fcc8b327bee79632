/** The sorted index of an enum: enumerators in the order of a comparison, and their positions. */
module EnumIndex {

  /** A comparison that is irreflexive and transitive, as a strict weak order is. */
  ghost predicate StrictOrder<E(!new)>(less: (E, E) -> bool) {
    && (forall a :: !less(a, a))
    && (forall a, b, c :: less(a, b) && less(b, c) ==> less(a, c))
  }

  /** Every number below the length, once. */
  ghost predicate Permutation(p: seq<nat>) {
    && (forall i :: 0 <= i < |p| ==> p[i] < |p|)
    && (forall i, j :: 0 <= i < j < |p| ==> p[i] != p[j])
  }

  /** Each value is followed by none that should come before it. */
  ghost predicate SortedUpto<E>(less: (E, E) -> bool, values: seq<E>, p: seq<nat>, n: nat)
    requires n <= |p| && forall j :: 0 <= j < |p| ==> p[j] < |values|
  {
    forall i, j :: 0 <= i < n && i < j < |p| ==> !less(values[p[j]], values[p[i]])
  }

  function Swap(p: seq<nat>, i: nat, j: nat): (q: seq<nat>)
    requires i < |p| && j < |p|
    ensures |q| == |p|
  {
    p[i := p[j]][j := p[i]]
  }

  lemma SwapPermutation(p: seq<nat>, i: nat, j: nat)
    requires Permutation(p) && i < j < |p|
    ensures Permutation(Swap(p, i, j))
  {
  }

  /** Exchanging two entries behind the sorted part leaves it sorted. */
  lemma SwapBehind<E>(less: (E, E) -> bool, values: seq<E>, p: seq<nat>, i: nat, j: nat)
    requires Permutation(p) && |values| == |p| && i < j < |p| && SortedUpto(less, values, p, i)
    ensures Permutation(Swap(p, i, j)) && SortedUpto(less, values, Swap(p, i, j), i)
  {
    SwapPermutation(p, i, j);
  }

  /** A pass over the rest that left the least value at `i` sorts one more. */
  lemma OneMoreSorted<E>(less: (E, E) -> bool, values: seq<E>, p: seq<nat>, i: nat)
    requires Permutation(p) && |values| == |p| && i < |p| && SortedUpto(less, values, p, i)
    requires forall k :: i < k < |p| ==> !less(values[p[k]], values[p[i]])
    ensures SortedUpto(less, values, p, i + 1)
  {
  }

  /** One pass over the rest: every value that should come before the one at `i` changes places with it. */
  method LeastToFront<E(!new)>(values: seq<E>, less: (E, E) -> bool, rev: array<nat>, i: nat)
    requires StrictOrder(less) && rev.Length == |values| && i < rev.Length
    requires Permutation(rev[..]) && SortedUpto(less, values, rev[..], i)
    modifies rev
    ensures Permutation(rev[..]) && SortedUpto(less, values, rev[..], i)
    ensures forall k :: i < k < rev.Length ==> !less(values[rev[k]], values[rev[i]])
  {
    hide SortedUpto;
    for j := i + 1 to rev.Length
      invariant Permutation(rev[..]) && SortedUpto(less, values, rev[..], i)
      invariant forall k :: i < k < j ==> !less(values[rev[k]], values[rev[i]])
    {
      if less(values[rev[j]], values[rev[i]]) {
        ghost var p := rev[..];
        SwapBehind(less, values, p, i, j);
        rev[i], rev[j] := rev[j], rev[i];
        assert rev[..] == Swap(p, i, j);
      }
    }
  }

  /** Sorts by exchange, and inverts the permutation found. */
  method GetIndices<E(0,!new)>(values: seq<E>, less: (E, E) -> bool)
    returns (sorted: array<E>, position: array<nat>, ghost order: seq<nat>)
    requires StrictOrder(less)
    ensures fresh(sorted) && fresh(position) && sorted.Length == position.Length == |values|
    ensures |order| == |values| && Permutation(order) && SortedUpto(less, values, order, |order|)
    ensures forall i :: 0 <= i < |values| ==> sorted[i] == values[order[i]]
    ensures forall i :: 0 <= i < |values| ==> position[order[i]] == i
  {
    var n := |values|;
    var rev := new nat[n](i => i);
    assert forall i :: 0 <= i < n ==> rev[..][i] == i;
    for i := 0 to n
      invariant Permutation(rev[..]) && SortedUpto(less, values, rev[..], i)
    {
      LeastToFront(values, less, rev, i);
      OneMoreSorted(less, values, rev[..], i);
    }
    order := rev[..];
    position := new nat[n];
    sorted := new E[n];
    for i := 0 to n
      invariant rev[..] == order
      invariant forall k :: 0 <= k < i ==> position[order[k]] == k && sorted[k] == values[order[k]]
    {
      position[rev[i]] := i;
      sorted[i] := values[rev[i]];
    }
  }

  lemma RangeSize(s: set<nat>, n: nat)
    requires forall x :: x in s ==> x < n
    ensures |s| <= n
  {
    if n > 0 {
      RangeSize(s - {n - 1}, n - 1);
    } else {
      assert s == {};
    }
  }

  ghost function Prefix(p: seq<nat>, k: nat): set<nat>
    requires k <= |p|
  {
    set i | 0 <= i < k :: p[i]
  }

  lemma {:induction false} PrefixSize(p: seq<nat>, k: nat)
    requires Permutation(p) && k <= |p|
    ensures |Prefix(p, k)| == k
  {
    if k == 0 {
      assert Prefix(p, 0) == {};
    } else {
      PrefixSize(p, k - 1);
      assert p[k - 1] !in Prefix(p, k - 1);
      assert Prefix(p, k) == Prefix(p, k - 1) + {p[k - 1]};
    }
  }

  /** A permutation takes every value. */
  lemma Surjective(p: seq<nat>, x: nat) returns (i: nat)
    requires Permutation(p) && x < |p|
    ensures i < |p| && p[i] == x
  {
    PrefixSize(p, |p|);
    if x !in Prefix(p, |p|) {
      RangeSize(Prefix(p, |p|) + {x}, |p|);
      assert false;
    }
    i :| 0 <= i < |p| && p[i] == x;
  }

  /**
   The two tables are inverse to each other: the value at the position of an enumerator is
   that enumerator, and the position of the i-th sorted value is i.
   */
  lemma TablesInverse<E>(values: seq<E>, order: seq<nat>, position: seq<nat>, sorted: seq<E>)
    requires Permutation(order) && |values| == |order| == |position| == |sorted|
    requires forall i :: 0 <= i < |order| ==> position[order[i]] == i && sorted[i] == values[order[i]]
    ensures Permutation(position)
    ensures forall e :: 0 <= e < |values| ==> position[e] < |sorted| && sorted[position[e]] == values[e]
    ensures forall e :: 0 <= e < |values| ==> order[position[e]] == e
  {
    forall e: nat | e < |values|
      ensures position[e] < |sorted| && order[position[e]] == e && sorted[position[e]] == values[e]
    {
      var i := Surjective(order, e);
    }
  }

  /** The sorted table holds the values, each as often as before. */
  lemma {:induction false} PermutationMultiset<E>(values: seq<E>, order: seq<nat>, sorted: seq<E>)
    requires Permutation(order) && |values| == |order| == |sorted|
    requires forall i :: 0 <= i < |order| ==> sorted[i] == values[order[i]]
    ensures multiset(sorted) == multiset(values)
    decreases |values|
  {
    if values != [] {
      var n := |values| - 1;
      var j := Surjective(order, n);
      var fewer, rest := order[..j] + order[j + 1..], sorted[..j] + sorted[j + 1..];
      WithoutTop(order, j);
      PermutationMultiset(values[..n], fewer, rest);
      assert sorted == sorted[..j] + [sorted[j]] + sorted[j + 1..];
      assert values == values[..n] + [values[n]];
    }
  }

  lemma WithoutTop(p: seq<nat>, j: nat)
    requires Permutation(p) && j < |p| && p[j] == |p| - 1
    ensures Permutation(p[..j] + p[j + 1..])
  {
  }
}
