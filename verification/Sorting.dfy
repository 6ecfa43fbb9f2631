/** Stable sorting, as an order on indices, and the counting argument about distinct lists. */
module Sorting {

  ghost predicate Distinct<T>(xs: seq<T>)
  {
    forall i, j :: 0 <= i < j < |xs| ==> xs[i] != xs[j]
  }

  /** `order` lists the indices 0..n-1, each once. */
  ghost predicate Permutation(order: seq<nat>, n: nat)
  {
    && |order| == n && Distinct(order)
    && (forall i :: 0 <= i < n ==> order[i] < n)
    && forall j: nat :: j < n ==> j in order
  }

  lemma IndexOf(order: seq<nat>, n: nat, j: nat) returns (i: nat)
    requires Permutation(order, n) && j < n
    ensures i < n && order[i] == j
  {
    assert j in order;
    i :| 0 <= i < n && order[i] == j;
  }

  /** Index `i` sorts strictly before index `j`: a smaller key, or an equal one earlier in the list. */
  predicate Before(keys: seq<real>, i: nat, j: nat)
    requires i < |keys| && j < |keys|
  {
    keys[i] < keys[j] || (keys[i] == keys[j] && i < j)
  }

  /** `order` is the stable ascending order of `keys`. */
  ghost predicate StableOrder(keys: seq<real>, order: seq<nat>)
  {
    && Permutation(order, |keys|)
    && forall p, q :: 0 <= p < q < |order| ==> Before(keys, order[p], order[q])
  }

  method Sort(keys: seq<real>) returns (order: seq<nat>)
    ensures StableOrder(keys, order)
  {
    order := [];
    for i := 0 to |keys|
      invariant Permutation(order, i)
      invariant forall p, q :: 0 <= p < q < |order| ==> Before(keys, order[p], order[q])
    {
      var p := 0;
      while p < |order| && keys[order[p]] <= keys[i]
        invariant p <= |order|
        invariant forall q :: 0 <= q < p ==> Before(keys, order[q], i)
      {
        p := p + 1;
      }
      InsertPermutation(order, i, p);
      order := order[..p] + [i] + order[p..];
    }
  }

  lemma InsertPermutation(order: seq<nat>, n: nat, p: nat)
    requires Permutation(order, n) && p <= n
    ensures Permutation(order[..p] + [n] + order[p..], n + 1)
  {
    var out := order[..p] + [n] + order[p..];
    forall j: nat | j < n + 1 ensures j in out {
      if j < n {
        var i := IndexOf(order, n, j);
        assert out[if i < p then i else i + 1] == j;
      } else {
        assert out[p] == n;
      }
    }
  }

  /** A list of distinct elements drawn from another list is no longer than it. */
  lemma {:induction false} Pigeonhole<T>(xs: seq<T>, ys: seq<T>)
    requires Distinct(xs) && forall i :: 0 <= i < |xs| ==> xs[i] in ys
    ensures |xs| <= |ys|
    decreases |xs|
  {
    if xs != [] {
      var x := xs[|xs| - 1];
      var k :| 0 <= k < |ys| && ys[k] == x;
      var ys' := ys[..k] + ys[k + 1..];
      var xs' := xs[..|xs| - 1];
      forall i | 0 <= i < |xs'| ensures xs'[i] in ys' {
        var j :| 0 <= j < |ys| && ys[j] == xs[i];
        assert xs[i] != x;
        assert ys'[if j < k then j else j - 1] == xs[i];
      }
      Pigeonhole(xs', ys');
    }
  }
}
