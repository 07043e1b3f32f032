/** Sequences in a strict order. */
module Sequences {

  ghost predicate StrictlySorted<T>(a: seq<T>, less: (T, T) -> bool) {
    forall i, j :: 0 <= i < j < |a| ==> less(a[i], a[j])
  }

  /** The indices of a selection, in order. */
  ghost predicate Ascending(at: seq<nat>) {
    forall k, l :: 0 <= k < l < |at| ==> at[k] < at[l]
  }

  /** A further index at the end of a selection, ... */
  lemma AscendingNext(at: seq<nat>, n: nat)
    requires Ascending(at) && forall i :: i in at ==> i < n
    ensures Ascending(at + [n])
    ensures forall i :: i in at + [n] <==> i in at || i == n
  {
    assert forall k :: 0 <= k < |at| ==> at[k] in at;
    var next := at + [n];
    forall i: nat
      ensures i in next <==> i in at || i == n
    {
      if i == n {
        assert next[|at|] == n;
      }
      if i in at {
        var k :| 0 <= k < |at| && at[k] == i;
        assert next[k] == i;
      }
    }
  }

  /** ... or at its front. */
  lemma AscendingFirst(n: nat, at: seq<nat>)
    requires Ascending(at) && forall i :: i in at ==> n < i
    ensures Ascending([n] + at)
    ensures forall i :: i in [n] + at <==> i in at || i == n
  {
    var next := [n] + at;
    assert forall k :: 0 < k < |next| ==> next[k] == at[k - 1] && at[k - 1] in at;
    forall i: nat
      ensures i in next <==> i in at || i == n
    {
      assert next[0] == n;
      if i in at {
        var k :| 0 <= k < |at| && at[k] == i;
        assert next[k + 1] == i;
      }
    }
  }

  ghost predicate Asymmetric<T(!new)>(less: (T, T) -> bool) {
    forall x, y :: less(x, y) ==> !less(y, x)
  }

  /** A strictly sorted sequence is determined by its elements. */
  lemma {:induction false} StrictlySortedUnique<T(!new)>(a: seq<T>, b: seq<T>, less: (T, T) -> bool)
    requires Asymmetric(less) && StrictlySorted(a, less) && StrictlySorted(b, less)
    requires forall x :: x in a <==> x in b
    ensures a == b
    decreases |a|
  {
    if a == [] {
      assert forall i :: 0 <= i < |b| ==> b[i] in b;
    } else {
      assert a[0] in a && a[0] in b;
      assert b[0] in b && b[0] in a;
      assert a[0] == b[0];
      forall x
        ensures x in a[1..] <==> x in b[1..]
      {
        SortedTail(a, less, x);
        SortedTail(b, less, x);
      }
      StrictlySortedUnique(a[1..], b[1..], less);
      assert a == [a[0]] + a[1..] && b == [b[0]] + b[1..];
    }
  }

  lemma SortedTail<T(!new)>(a: seq<T>, less: (T, T) -> bool, x: T)
    requires Asymmetric(less) && StrictlySorted(a, less) && a != []
    ensures x in a[1..] <==> x in a && x != a[0]
  {
    if x in a && x != a[0] {
      var i :| 0 <= i < |a| && a[i] == x;
      assert a[1..][i - 1] == x;
    }
  }
}
