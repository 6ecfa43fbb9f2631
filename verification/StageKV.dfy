/** The per-stage key/value cache and its two rollbacks. */
module KV {
  import opened Model
  import opened Attention

  /** The length of the first populated layer: a stage that does not own layer 0 leaves slot 0
      empty, so the length has to be read from a layer it does own. */
  function SeqLength(cache: Cache): nat
  {
    if cache == [] then 0 else if cache[0] != [] then |cache[0]| else SeqLength(cache[1..])
  }

  function Empty(layers: nat): (cache: Cache)
    ensures |cache| == layers && forall k :: 0 <= k < layers ==> cache[k] == []
  {
    seq(layers, _ => [])
  }

  /** No layer holds anything. */
  ghost predicate Blank(cache: Cache)
  {
    forall k :: 0 <= k < |cache| ==> cache[k] == []
  }

  /** Every layer longer than `length` cut back to it. */
  function Truncated(cache: Cache, length: nat): (out: Cache)
    ensures |out| == |cache|
  {
    seq(|cache|, k requires 0 <= k < |cache| =>
      if |cache[k]| <= length then cache[k] else cache[k][..length])
  }

  /** The cache positions kept after a tree verify: the prefix, then the accepted tree slots. */
  function KeepIndices(prefixLen: nat, accepted: seq<nat>): (keep: seq<nat>)
    ensures |keep| == prefixLen + |accepted|
  {
    Upto(prefixLen) + seq(|accepted|, i requires 0 <= i < |accepted| => prefixLen + accepted[i])
  }

  /** Every kept position exists in every populated layer (`index_select` raises otherwise). */
  predicate InRange(cache: Cache, keep: seq<nat>)
  {
    forall k, i :: 0 <= k < |cache| && cache[k] != [] && 0 <= i < |keep| ==> keep[i] < |cache[k]|
  }

  function KeptPath(cache: Cache, keep: seq<nat>): (out: Cache)
    requires InRange(cache, keep)
    ensures |out| == |cache|
  {
    seq(|cache|, k requires 0 <= k < |cache| =>
      if cache[k] == [] then [] else Gather(cache[k], keep))
  }

  class StageKV {
    var layers: Cache

    constructor (numLayers: nat)
      ensures layers == Empty(numLayers)
    {
      layers := Empty(numLayers);
    }

    method GetSeqLength() returns (length: nat)
      ensures length == SeqLength(layers)
    {
      for i := 0 to |layers|
        invariant SeqLength(layers) == SeqLength(layers[i..])
      {
        if |layers[i]| != 0 {
          return |layers[i]|;
        }
        assert layers[i..][1..] == layers[i + 1..];
      }
      return 0;
    }

    method Reset()
      modifies this
      ensures layers == Empty(|old(layers)|)
    {
      layers := Empty(|layers|);
    }

    method TruncateTo(length: nat)
      modifies this
      ensures layers == Truncated(old(layers), length)
    {
      ghost var was := layers;
      for i := 0 to |layers|
        invariant |layers| == |was|
        invariant forall k :: 0 <= k < i ==> layers[k] == Truncated(was, length)[k]
        invariant forall k :: i <= k < |was| ==> layers[k] == was[k]
      {
        if |layers[i]| > length {
          layers := layers[i := layers[i][..length]];
        }
      }
    }

    method KeepTreePath(prefixLen: nat, accepted: seq<nat>)
      requires InRange(layers, KeepIndices(prefixLen, accepted))
      modifies this
      ensures layers == KeptPath(old(layers), KeepIndices(prefixLen, accepted))
    {
      ghost var was := layers;
      var keep := KeepIndices(prefixLen, accepted);
      for i := 0 to |layers|
        invariant |layers| == |was|
        invariant forall k :: 0 <= k < i ==> layers[k] == KeptPath(was, keep)[k]
        invariant forall k :: i <= k < |was| ==> layers[k] == was[k]
      {
        if |layers[i]| != 0 {
          assert layers[i] == was[i];
          layers := layers[i := Gather(layers[i], keep)];
        }
      }
    }
  }

  // ----- what the operations mean for the tokens a cache stands for -----

  lemma {:induction false} SeqLengthOfUniform(cache: Cache, k: nat, n: nat)
    requires k < |cache| && |cache[k]| == n
    requires forall i :: 0 <= i < |cache| ==> |cache[i]| == n || cache[i] == []
    ensures SeqLength(cache) == n
  {
    if cache[0] == [] {
      if k > 0 {
        SeqLengthOfUniform(cache[1..], k - 1, n);
      } else if |cache| > 1 {
        SeqLengthOfNone(cache[1..]);
      }
    }
  }

  lemma {:induction false} SeqLengthOfNone(cache: Cache)
    requires forall i :: 0 <= i < |cache| ==> cache[i] == []
    ensures SeqLength(cache) == 0
  {
    if cache != [] {
      SeqLengthOfNone(cache[1..]);
    }
  }

  /** The reported length of a stage that owns any layer is the number of its labelled slots. */
  lemma LabelledLength(net: Net, s: nat, e: nat, cache: Cache, lab: seq<Label>)
    requires s < e <= |net.layers| && Caches(net, s, e, cache, lab)
    ensures SeqLength(cache) == |lab|
  {
    assert Labelled(net, s, cache[s], lab);
    forall i | 0 <= i < |cache| ensures |cache[i]| == |lab| || cache[i] == [] {
      if s <= i < e { assert Labelled(net, i, cache[i], lab); }
    }
    SeqLengthOfUniform(cache, s, |lab|);
  }

  /** The reported length of a stage that owns any layer is the number of tokens it holds. */
  lemma HeldLength(net: Net, s: nat, e: nat, cache: Cache, toks: seq<Token>)
    requires s < e <= |net.layers| && Holds(net, s, e, cache, toks)
    ensures SeqLength(cache) == |toks|
  {
    LabelledLength(net, s, e, cache, Prefixes(toks));
  }

  /** A chain has no more slots than there are, and if it has all of them there is nothing to compact. */
  lemma ChainFits(lab: seq<Label>, keep: seq<nat>, p: Label)
    requires Chain(lab, keep, p)
    ensures |p| <= |lab| && (|p| == |lab| ==> lab == Prefixes(p))
  {
    if p != [] { AscendingAtMost(keep, |lab|, 0); }
    if |p| == |lab| { WholeChain(lab, keep, p); }
  }

  /** A chain through every slot leaves nothing to compact. */
  lemma WholeChain(lab: seq<Label>, keep: seq<nat>, p: Label)
    requires Chain(lab, keep, p) && |p| == |lab|
    ensures lab == Prefixes(p)
  {
    forall j | 0 <= j < |keep| ensures keep[j] == j {
      AscendingAtLeast(keep, |lab|, j);
      AscendingAtMost(keep, |lab|, j);
    }
    forall j | 0 <= j < |lab| ensures lab[j] == p[..j + 1] {
      assert keep[j] == j;
    }
  }

  lemma {:induction false} AscendingAtLeast(keep: seq<nat>, n: nat, j: nat)
    requires Ascending(keep, n) && j < |keep|
    ensures keep[j] >= j
    decreases j
  {
    if j > 0 { AscendingAtLeast(keep, n, j - 1); }
  }

  lemma {:induction false} AscendingAtMost(keep: seq<nat>, n: nat, j: nat)
    requires Ascending(keep, n) && j < |keep|
    ensures keep[j] + |keep| - j <= n
    decreases |keep| - j
  {
    if j + 1 < |keep| { AscendingAtMost(keep, n, j + 1); }
  }

  /** The length read from a stage's cache is the number of tokens it holds if and only if the stage
      has layers: a stage without any always reads 0. */
  lemma LengthReadIff(net: Net, s: nat, e: nat, cache: Cache, toks: seq<Token>)
    requires s <= e <= |net.layers| && Holds(net, s, e, cache, toks)
    ensures SeqLength(cache) == if s < e then |toks| else 0
    ensures toks != [] ==> (SeqLength(cache) == |toks| <==> s < e)
  {
    if s < e {
      HeldLength(net, s, e, cache, toks);
    } else {
      SeqLengthOfNone(cache);
    }
  }

  lemma EmptyHoldsNothing(net: Net, s: nat, e: nat)
    requires s <= e <= |net.layers|
    ensures Holds(net, s, e, Empty(|net.layers|), [])
  {
  }

  /** Speculative rollback: a truncated cache is that of the shorter token sequence. */
  lemma TruncateHolds(net: Net, s: nat, e: nat, cache: Cache, toks: seq<Token>, n: nat)
    requires s <= e <= |net.layers| && Holds(net, s, e, cache, toks) && n <= |toks|
    ensures Holds(net, s, e, Truncated(cache, n), toks[..n])
  {
    var out := Truncated(cache, n);
    var lab, lab' := Prefixes(toks), Prefixes(toks[..n]);
    forall k | s <= k < e ensures Labelled(net, k, out[k], lab') {
      assert Labelled(net, k, cache[k], lab);
      forall j | 0 <= j < n ensures lab'[j] == lab[j] {
        assert toks[..n][..j + 1] == toks[..j + 1];
      }
    }
  }

  lemma ChainNeedsSlots(lab: seq<Label>, keep: seq<nat>, p: Label)
    requires Chain(lab, keep, p)
    ensures p != [] ==> lab != []
  {
    if p != [] {
      assert keep[0] < |lab|;
    }
  }

  /** Tree compaction: keeping a root-to-node chain of labelled slots leaves exactly the cache of
      decoding that chain's label token by token -- same inputs, same positions, same order. */
  lemma CompactionIsLinear(net: Net, s: nat, e: nat, cache: Cache, lab: seq<Label>,
                           keep: seq<nat>, p: Label)
    requires s <= e <= |net.layers| && Caches(net, s, e, cache, lab) && Chain(lab, keep, p)
    ensures InRange(cache, keep)
    ensures Holds(net, s, e, KeptPath(cache, keep), p)
  {
    forall k, i | 0 <= k < |cache| && cache[k] != [] && 0 <= i < |keep|
      ensures keep[i] < |cache[k]|
    {
      assert Labelled(net, k, cache[k], lab);
    }
    var out := KeptPath(cache, keep);
    forall k | s <= k < e ensures Labelled(net, k, out[k], Prefixes(p)) {
      assert Labelled(net, k, cache[k], lab);
      if cache[k] == [] {
        ChainNeedsSlots(lab, keep, p);
      } else {
        ChainGathersContext(net, k, cache[k], lab, keep, p);
      }
    }
  }
}
