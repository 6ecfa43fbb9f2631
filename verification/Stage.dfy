/** A pipeline stage: a contiguous block of layers, and the split of a model into stages. */
module Stages {
  import opened Wrappers
  import opened Model
  import opened Attention
  import opened KV

  /** The attention mask a stage uses: the one it is given, else the causal one over its cache. */
  function MaskFor(cache: Cache, t: nat, treeMask: Option<seq<seq<bool>>>): seq<seq<bool>>
  {
    match treeMask
    case Some(rows) => rows
    case None => CausalRows(SeqLength(cache), t)
  }

  /** Layers `[first, last)` of a model, by global index. */
  datatype Stage = Stage(net: Net, first: nat, last: nat) {

    predicate Valid() { first <= last <= |net.layers| }

    method Forward(hidden: seq<Hidden>, positions: seq<int>, cache: StageKV,
                   treeMask: Option<seq<seq<bool>>>) returns (out: seq<Hidden>)
      requires Valid() && |cache.layers| == |net.layers|
      requires |hidden| == |positions| && (treeMask.Some? ==> |treeMask.value| == |hidden|)
      modifies cache
      ensures Pass(out, cache.layers) ==
              RunLayers(net, first, last, old(cache.layers), hidden, positions,
                        MaskFor(old(cache.layers), |hidden|, treeMask))
    {
      hide LayerOut, Slots, CausalRows, SeqLength;
      ghost var was := cache.layers;
      var length := cache.GetSeqLength();
      var rows := match treeMask case Some(r) => r case None => CausalRows(length, |hidden|);
      out := hidden;
      for k := first to last
        invariant |cache.layers| == |net.layers| && |out| == |hidden|
        invariant Pass(out, cache.layers) == RunLayers(net, first, k, was, hidden, positions, rows)
      {
        var kv := cache.layers[k] + Slots(out, positions);
        cache.layers := cache.layers[k := kv];
        out := LayerOut(net.layers[k], kv, rows);
      }
    }
  }

  /** A causal call on the cache alone, as a remote worker makes it. */
  function CausalCall(stage: Stage, cache: Cache, hidden: seq<Hidden>, start: int): (p: Pass)
    requires stage.Valid() && |cache| == |stage.net.layers|
    ensures |p.hidden| == |hidden| && |p.cache| == |cache|
  {
    RunLayers(stage.net, stage.first, stage.last, cache, hidden, Positions(start, |hidden|),
              CausalRows(SeqLength(cache), |hidden|))
  }

  /** A causal call at the position where the cache ends continues the decode exactly. */
  lemma CausalCallHolds(stage: Stage, cache: Cache, toks: seq<Token>, chunk: seq<Token>)
    requires stage.Valid() && Holds(stage.net, stage.first, stage.last, cache, toks)
    ensures var p := CausalCall(stage, cache, Rows(stage.net, stage.first, toks, chunk), |toks|);
            && p.hidden == Rows(stage.net, stage.last, toks, chunk)
            && Holds(stage.net, stage.first, stage.last, p.cache, toks + chunk)
  {
    var net, s, e := stage.net, stage.first, stage.last;
    LinearPass(net, s, e, cache, toks, chunk);
    if s < e {
      HeldLength(net, s, e, cache, toks);
    }
  }

  // ----- splitting -----

  /** Layer-index cuts of a model of `n` layers. */
  predicate Cuts(cuts: seq<nat>, n: nat)
  {
    && |cuts| >= 2 && cuts[0] == 0 && cuts[|cuts| - 1] == n
    && forall i, j :: 0 <= i <= j < |cuts| ==> cuts[i] <= cuts[j]
  }

  /** `SplitModel`'s stages, between successive cuts. */
  ghost predicate Tiles(net: Net, cuts: seq<nat>, stages: seq<Stage>)
    requires |cuts| >= 1
  {
    && |stages| == |cuts| - 1
    && forall i :: 0 <= i < |stages| ==> Is(stages[i], net, cuts[i], cuts[i + 1])
  }

  ghost predicate Is(stage: Stage, net: Net, first: nat, last: nat)
  {
    stage.Valid() && stage.net == net && stage.first == first && stage.last == last
  }

  /** Boundaries that do not go back. */
  ghost predicate Ordered(cuts: seq<nat>)
  {
    forall i, j :: 0 <= i <= j < |cuts| ==> cuts[i] <= cuts[j]
  }

  /** The stage holds exactly the layers `s, s + 1, .. e - 1`, which are none if the range goes back. */
  ghost predicate HoldsRange(stage: Stage, net: Net, s: nat, e: nat)
  {
    && stage.Valid() && stage.net == net
    && if s < e then stage.first == s && stage.last == e else stage.first == stage.last == Min(s, |net.layers|)
  }

  ghost predicate Owns(stage: Stage, layer: nat)
  {
    stage.first <= layer < stage.last
  }

  /** One stage per pair of successive boundaries; an error if some non-empty range leaves the model.
      Boundaries in order tile the layers; boundaries out of order put some layer into two stages. */
  method SplitModel(net: Net, boundaries: seq<nat>) returns (r: Option<seq<Stage>>)
    ensures var cuts := [0] + boundaries + [|net.layers|];
            && (r.None? <==> exists i :: 0 <= i < |cuts| - 1 && Leaves(cuts, |net.layers|, i))
            && (r.Some? ==> |r.value| == |cuts| - 1
                            && forall i :: 0 <= i < |r.value| ==> HoldsRange(r.value[i], net, cuts[i], cuts[i + 1]))
            && (Ordered(cuts) ==> r.Some? && Cuts(cuts, |net.layers|) && Tiles(net, cuts, r.value))
            && (r.Some? && !Ordered(cuts) ==> Overlap(r.value))
  {
    var n := |net.layers|;
    var cuts := [0] + boundaries + [n];
    var stages := [];
    for i := 0 to |cuts| - 1
      invariant |stages| == i
      invariant forall j :: 0 <= j < i ==> !Leaves(cuts, n, j) && HoldsRange(stages[j], net, cuts[j], cuts[j + 1])
    {
      if cuts[i] < cuts[i + 1] && cuts[i + 1] > n {
        assert Leaves(cuts, n, i) && cuts[|cuts| - 1] == n;
        assert !(cuts[i + 1] <= cuts[|cuts| - 1]);
        return None;
      }
      stages := stages + [if cuts[i] < cuts[i + 1] then Stage(net, cuts[i], cuts[i + 1])
                           else Stage(net, Min(cuts[i], n), Min(cuts[i], n))];
    }
    if Ordered(cuts) {
      forall i | 0 <= i < |stages| ensures Is(stages[i], net, cuts[i], cuts[i + 1]) {
        assert HoldsRange(stages[i], net, cuts[i], cuts[i + 1]);
        assert cuts[i] <= cuts[i + 1] <= cuts[|cuts| - 1];
      }
    } else {
      GoingBackOverlaps(net, cuts, stages);
    }
    return Some(stages);
  }

  ghost predicate Leaves(cuts: seq<nat>, n: nat, i: nat)
    requires i < |cuts| - 1
  {
    cuts[i] < cuts[i + 1] && cuts[i + 1] > n
  }

  /** Some layer lies in two stages. */
  ghost predicate Overlap(stages: seq<Stage>)
  {
    exists a, b, layer: nat :: 0 <= a < b < |stages| && Owns(stages[a], layer) && Owns(stages[b], layer)
  }

  lemma {:induction false} CutsWithin(cuts: seq<nat>, n: nat, k: nat)
    requires k < |cuts| && cuts[0] == 0 && forall i :: 0 <= i < |cuts| - 1 ==> !Leaves(cuts, n, i)
    ensures cuts[k] <= n
  {
    if k > 0 {
      CutsWithin(cuts, n, k - 1);
      assert !Leaves(cuts, n, k - 1);
    }
  }

  /** On the way from below a layer to above it some step passes it. */
  lemma Crosses(cuts: seq<nat>, a: nat, b: nat, layer: nat) returns (k: nat)
    requires a < b < |cuts| && cuts[a] <= layer < cuts[b]
    ensures a <= k < b && cuts[k] <= layer < cuts[k + 1]
  {
    k := a;
    while cuts[k + 1] <= layer
      invariant a <= k < b && cuts[k] <= layer
      decreases b - k
    {
      k := k + 1;
    }
  }

  /** A layer between two boundaries that go back is passed before and again after them. */
  lemma GoingBackOverlaps(net: Net, cuts: seq<nat>, stages: seq<Stage>)
    requires |cuts| >= 2 && cuts[0] == 0 && cuts[|cuts| - 1] == |net.layers| && |stages| == |cuts| - 1
    requires forall i :: 0 <= i < |stages| ==> !Leaves(cuts, |net.layers|, i) && HoldsRange(stages[i], net, cuts[i], cuts[i + 1])
    requires !Ordered(cuts)
    ensures Overlap(stages)
  {
    var i, j :| 0 <= i <= j < |cuts| && cuts[i] > cuts[j];
    var layer, last := cuts[j], |cuts| - 1;
    CutsWithin(cuts, |net.layers|, i);
    var a := Crosses(cuts, 0, i, layer);
    var b := Crosses(cuts, j, last, layer);
    assert HoldsRange(stages[a], net, cuts[a], cuts[a + 1]) && HoldsRange(stages[b], net, cuts[b], cuts[b + 1]);
    assert Owns(stages[a], layer) && Owns(stages[b], layer);
  }

  /** The pipeline on given mask rows: each stage in turn, on its own cache. */
  function RunStages(net: Net, cuts: seq<nat>, caches: seq<Cache>, hs: seq<Hidden>, ps: seq<int>,
                     rows: seq<seq<bool>>): (r: (seq<Hidden>, seq<Cache>))
    requires |cuts| == |caches| + 1 && |hs| == |ps| == |rows|
    requires forall i, j :: 0 <= i <= j < |cuts| ==> cuts[i] <= cuts[j] <= |net.layers|
    requires forall i :: 0 <= i < |caches| ==> |caches[i]| == |net.layers|
    ensures |r.0| == |hs| && |r.1| == |caches|
    ensures forall i :: 0 <= i < |caches| ==> |r.1[i]| == |net.layers|
    decreases |caches|
  {
    if caches == [] then (hs, []) else
      var n := |caches| - 1;
      var r := RunStages(net, cuts[..n + 1], caches[..n], hs, ps, rows);
      var p := RunLayers(net, cuts[n], cuts[n + 1], caches[n], r.0, ps, rows);
      (p.hidden, r.1 + [p.cache])
  }

  predicate AgreeOn(c: Cache, d: Cache, s: nat, e: nat)
  {
    |c| == |d| && forall k :: s <= k < e && k < |c| ==> c[k] == d[k]
  }

  /** Each stage's cache agrees with the whole model's on the layers the stage owns. */
  predicate SplitOf(cuts: seq<nat>, caches: seq<Cache>, whole: Cache)
  {
    && |cuts| == |caches| + 1
    && forall i :: 0 <= i < |caches| ==> AgreeOn(caches[i], whole, cuts[i], cuts[i + 1])
  }

  /** Splitting does not change meaning: on any input, any mask and any caches -- not only those a
      decode produces -- the composed stages give the hidden rows and the per-layer slots of one
      pass over the unsplit model. */
  lemma {:induction false} SplitIsUnsplit(net: Net, cuts: seq<nat>, caches: seq<Cache>, whole: Cache,
                                          hs: seq<Hidden>, ps: seq<int>, rows: seq<seq<bool>>)
    requires |cuts| == |caches| + 1 && |hs| == |ps| == |rows| && |whole| == |net.layers|
    requires forall i, j :: 0 <= i <= j < |cuts| ==> cuts[i] <= cuts[j] <= |net.layers|
    requires forall i :: 0 <= i < |caches| ==> |caches[i]| == |net.layers|
    requires SplitOf(cuts, caches, whole)
    ensures var r := RunStages(net, cuts, caches, hs, ps, rows);
            var p := RunLayers(net, cuts[0], cuts[|cuts| - 1], whole, hs, ps, rows);
            r.0 == p.hidden && SplitOf(cuts, r.1, p.cache)
    decreases |caches|
  {
    if caches != [] {
      var n := |caches| - 1;
      var init := cuts[..n + 1];
      var r := RunStages(net, init, caches[..n], hs, ps, rows);
      var q := RunLayers(net, cuts[0], cuts[n], whole, hs, ps, rows);
      SplitOfInit(cuts, caches, whole);
      SplitIsUnsplit(net, init, caches[..n], whole, hs, ps, rows);
      SplitStep(net, cuts[0], cuts[n], cuts[n + 1], caches[n], whole, hs, ps, rows);
      var last := RunLayers(net, cuts[n], cuts[n + 1], caches[n], q.hidden, ps, rows);
      SplitOfSnoc(cuts, r.1, last.cache, q.cache,
                  RunLayers(net, cuts[0], cuts[n + 1], whole, hs, ps, rows).cache);
    }
  }

  lemma SplitOfInit(cuts: seq<nat>, caches: seq<Cache>, whole: Cache)
    requires caches != [] && SplitOf(cuts, caches, whole)
    ensures SplitOf(cuts[..|caches|], caches[..|caches| - 1], whole)
    ensures AgreeOn(caches[|caches| - 1], whole, cuts[|caches| - 1], cuts[|caches|])
  {
    var n := |caches| - 1;
    forall i | 0 <= i < n
      ensures AgreeOn(caches[..n][i], whole, cuts[..n + 1][i], cuts[..n + 1][i + 1])
    {
      assert AgreeOn(caches[i], whole, cuts[i], cuts[i + 1]);
    }
  }

  lemma SplitOfSnoc(cuts: seq<nat>, init: seq<Cache>, last: Cache, whole: Cache, whole': Cache)
    requires |cuts| == |init| + 2 && SplitOf(cuts[..|init| + 1], init, whole)
    requires forall i, j :: 0 <= i <= j < |cuts| ==> cuts[i] <= cuts[j]
    requires AgreeOn(whole, whole', cuts[0], cuts[|init|])
    requires AgreeOn(last, whole', cuts[|init|], cuts[|init| + 1])
    ensures SplitOf(cuts, init + [last], whole')
  {
    var out := init + [last];
    forall i | 0 <= i < |out| ensures AgreeOn(out[i], whole', cuts[i], cuts[i + 1]) {
      if i < |init| {
        assert cuts[0] <= cuts[i] && cuts[i + 1] <= cuts[|init|];
        assert AgreeOn(init[i], whole, cuts[..|init| + 1][i], cuts[..|init| + 1][i + 1]);
      }
    }
  }

  /** Adding the stage `[m, e)` to the run `[s, m)`. */
  lemma SplitStep(net: Net, s: nat, m: nat, e: nat, cache: Cache, whole: Cache,
                  hs: seq<Hidden>, ps: seq<int>, rows: seq<seq<bool>>)
    requires s <= m <= e <= |net.layers| && |whole| == |cache| == |net.layers|
    requires |hs| == |ps| == |rows| && AgreeOn(cache, whole, m, e)
    ensures var q := RunLayers(net, s, m, whole, hs, ps, rows);
            var last := RunLayers(net, m, e, cache, q.hidden, ps, rows);
            var p := RunLayers(net, s, e, whole, hs, ps, rows);
            && last.hidden == p.hidden
            && AgreeOn(last.cache, p.cache, m, e) && AgreeOn(q.cache, p.cache, s, m)
  {
    var q := RunLayers(net, s, m, whole, hs, ps, rows);
    RunLayersSplit(net, s, m, e, whole, hs, ps, rows);
    RunLayersFrame(net, s, m, whole, whole, hs, ps, rows);
    RunLayersFrame(net, m, e, cache, q.cache, q.hidden, ps, rows);
    RunLayersFrame(net, m, e, q.cache, q.cache, q.hidden, ps, rows);
  }

  /** The tokens of a list of chunks. */
  function Joined(chunks: seq<seq<Token>>): seq<Token>
  {
    if chunks == [] then [] else Joined(chunks[..|chunks| - 1]) + chunks[|chunks| - 1]
  }

  /** A stage called on one chunk after the other, each at the position where the last one ended. */
  ghost function CallAll(stage: Stage, cache: Cache, toks: seq<Token>, chunks: seq<seq<Token>>): (p: Pass)
    requires stage.Valid() && |cache| == |stage.net.layers|
    ensures |p.cache| == |cache|
    decreases |chunks|
  {
    if chunks == [] then Pass([], cache) else
      var n := |chunks| - 1;
      var before := toks + Joined(chunks[..n]);
      var p := CallAll(stage, cache, toks, chunks[..n]);
      var q := CausalCall(stage, p.cache, Rows(stage.net, stage.first, before, chunks[n]), |before|);
      Pass(p.hidden + q.hidden, q.cache)
  }

  /** However a token sequence is divided into successive calls, the rows and the cache are those of one
      call on all of it. */
  lemma {:induction false} AnyChunkingIsOnePass(stage: Stage, cache: Cache, toks: seq<Token>, chunks: seq<seq<Token>>)
    requires stage.Valid() && Holds(stage.net, stage.first, stage.last, cache, toks)
    ensures Holds(stage.net, stage.first, stage.last, CallAll(stage, cache, toks, chunks).cache, toks + Joined(chunks))
    ensures CallAll(stage, cache, toks, chunks).hidden == Rows(stage.net, stage.last, toks, Joined(chunks))
    ensures chunks != [] ==>
              CallAll(stage, cache, toks, chunks)
              == CausalCall(stage, cache, Rows(stage.net, stage.first, toks, Joined(chunks)), |toks|)
    decreases |chunks|
  {
    hide Rows, CausalCall;
    if chunks == [] {
      assert toks + [] == toks && Rows(stage.net, stage.last, toks, []) == [];
    } else {
      var n := |chunks| - 1;
      var before := Joined(chunks[..n]);
      AnyChunkingIsOnePass(stage, cache, toks, chunks[..n]);
      CausalCallHolds(stage, CallAll(stage, cache, toks, chunks[..n]).cache, toks + before, chunks[n]);
      RowsAppend(stage.net, stage.last, toks, before, chunks[n]);
      assert toks + Joined(chunks) == toks + before + chunks[n];
      CausalCallHolds(stage, cache, toks, Joined(chunks));
      HoldsIsContext(stage.net, stage.first, stage.last, CallAll(stage, cache, toks, chunks).cache, toks + Joined(chunks));
      HoldsIsContext(stage.net, stage.first, stage.last,
                     CausalCall(stage, cache, Rows(stage.net, stage.first, toks, Joined(chunks)), |toks|).cache,
                     toks + Joined(chunks));
    }
  }

  lemma RowsAppend(net: Net, k: nat, toks: seq<Token>, a: seq<Token>, b: seq<Token>)
    requires k <= |net.layers|
    ensures Rows(net, k, toks, a + b) == Rows(net, k, toks, a) + Rows(net, k, toks + a, b)
  {
    forall i | 0 <= i < |a + b|
      ensures Rows(net, k, toks, a + b)[i] == (Rows(net, k, toks, a) + Rows(net, k, toks + a, b))[i]
    {
      if i < |a| {
        assert (a + b)[..i + 1] == a[..i + 1];
      } else {
        assert toks + (a + b)[..i + 1] == toks + a + b[..i - |a| + 1];
      }
    }
  }
}
