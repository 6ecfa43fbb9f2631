/** Key/value slots, attention masks and one pass through a run of layers. */
module Attention {
  import opened Model

  /** A stage's cache, one slot list per layer of the whole model.  Layers index it by their
      global number, so a stage leaves the entries of the layers it does not own empty. */
  type Cache = seq<seq<Entry>>

  /** What a pass leaves: the hidden rows and the cache. */
  datatype Pass = Pass(hidden: seq<Hidden>, cache: Cache)

  // ----- masks -----

  /** The slots of `kv` that a mask row lets a query attend to, in slot order. */
  function Visible(kv: seq<Entry>, row: seq<bool>): seq<Entry>
  {
    if kv == [] then [] else
      var n := |kv| - 1;
      Visible(kv[..n], row) + (if n < |row| && row[n] then [kv[n]] else [])
  }

  /** The slots with the given indices, in the given order (`index_select`). */
  function Gather<T>(kv: seq<T>, idx: seq<nat>): (out: seq<T>)
    requires forall i :: 0 <= i < |idx| ==> idx[i] < |kv|
  {
    seq(|idx|, i requires 0 <= i < |idx| => kv[idx[i]])
  }

  predicate Ascending(idx: seq<nat>, n: nat)
  {
    && (forall i :: 0 <= i < |idx| ==> idx[i] < n)
    && (forall i, j :: 0 <= i < j < |idx| ==> idx[i] < idx[j])
  }

  /** The mask row attends to exactly the slots `idx`. */
  predicate Selects(row: seq<bool>, idx: seq<nat>, n: nat)
  {
    |row| == n && forall s :: 0 <= s < n ==> (row[s] <==> s in idx)
  }

  lemma {:induction false} VisibleIsGather(kv: seq<Entry>, row: seq<bool>, idx: seq<nat>)
    requires |kv| <= |row| && Ascending(idx, |kv|)
    requires forall s :: 0 <= s < |kv| ==> (row[s] <==> s in idx)
    ensures Visible(kv, row) == Gather(kv, idx)
    decreases |kv|
  {
    if kv != [] {
      var n := |kv| - 1;
      if row[n] {
        var m := |idx| - 1;
        LastIsTop(idx, n);
        VisibleIsGather(kv[..n], row, idx[..m]);
        assert Gather(kv, idx) == Gather(kv[..n], idx[..m]) + [kv[n]];
      } else {
        forall i | 0 <= i < |idx| ensures idx[i] < n {
          assert idx[i] in idx;
        }
        VisibleIsGather(kv[..n], row, idx);
        assert Gather(kv, idx) == Gather(kv[..n], idx);
      }
    }
  }

  lemma LastIsTop(idx: seq<nat>, n: nat)
    requires Ascending(idx, n + 1) && n in idx
    ensures idx[|idx| - 1] == n && Ascending(idx[..|idx| - 1], n)
    ensures forall s :: 0 <= s < n ==> (s in idx <==> s in idx[..|idx| - 1])
  {
    var m := |idx| - 1;
    var i :| 0 <= i < |idx| && idx[i] == n;
    assert idx == idx[..m] + [idx[m]];
  }

  /** The causal mask of `t` new queries over `past` cached slots. */
  function CausalRows(past: nat, t: nat): (rows: seq<seq<bool>>)
    ensures |rows| == t
  {
    seq(t, i => seq(past + t, s => s <= past + i))
  }

  /** `t` consecutive positions from `start`. */
  function Positions(start: int, t: nat): (ps: seq<int>)
    ensures |ps| == t
  {
    seq(t, i => start + i)
  }

  // ----- layers -----

  /** The slots that rows `hs`, rotated to positions `ps`, add to a layer's cache. */
  function Slots(hs: seq<Hidden>, ps: seq<int>): (kv: seq<Entry>)
    requires |hs| == |ps|
    ensures |kv| == |hs|
  {
    seq(|hs|, i requires 0 <= i < |hs| => Entry(hs[i], ps[i]))
  }

  /** One layer's call: append the new slots, then attend from each row. */
  function LayerOut(f: Layer, kv: seq<Entry>, rows: seq<seq<bool>>): (out: seq<Hidden>)
    ensures |out| == |rows|
  {
    seq(|rows|, i requires 0 <= i < |rows| => f(Visible(kv, rows[i])))
  }

  /** Layers `[s, e)` in order, each feeding the next and appending to its own cache. */
  function RunLayers(net: Net, s: nat, e: nat, cache: Cache,
                     hs: seq<Hidden>, ps: seq<int>, rows: seq<seq<bool>>): (p: Pass)
    requires s <= e <= |net.layers| && |cache| == |net.layers|
    requires |hs| == |ps| == |rows|
    ensures |p.hidden| == |hs| && |p.cache| == |cache|
    decreases e
  {
    if e <= s then Pass(hs, cache) else
      var q := RunLayers(net, s, e - 1, cache, hs, ps, rows);
      var kv := q.cache[e - 1] + Slots(q.hidden, ps);
      Pass(LayerOut(net.layers[e - 1], kv, rows), q.cache[e - 1 := kv])
  }

  /** Layers outside `[s, e)` are not touched, and the pass depends on no others. */
  lemma {:induction false} RunLayersFrame(net: Net, s: nat, e: nat, c: Cache, d: Cache,
                                          hs: seq<Hidden>, ps: seq<int>, rows: seq<seq<bool>>)
    requires s <= e <= |net.layers| && |c| == |d| == |net.layers|
    requires |hs| == |ps| == |rows|
    requires forall k :: s <= k < e ==> c[k] == d[k]
    ensures var p, q := RunLayers(net, s, e, c, hs, ps, rows), RunLayers(net, s, e, d, hs, ps, rows);
            && p.hidden == q.hidden
            && (forall k :: s <= k < e ==> p.cache[k] == q.cache[k])
            && (forall k :: 0 <= k < |c| && !(s <= k < e) ==> p.cache[k] == c[k])
    decreases e
  {
    if s < e {
      RunLayersFrame(net, s, e - 1, c, d, hs, ps, rows);
      var q := RunLayers(net, s, e - 1, d, hs, ps, rows);
      RunLayersFrame(net, s, e - 1, d, d, hs, ps, rows);
      assert q.cache[e - 1] == d[e - 1];
    }
  }

  /** A pass over `[s, e)` is a pass over `[s, m)` followed by one over `[m, e)`. */
  lemma {:induction false} RunLayersSplit(net: Net, s: nat, m: nat, e: nat, cache: Cache,
                                          hs: seq<Hidden>, ps: seq<int>, rows: seq<seq<bool>>)
    requires s <= m <= e <= |net.layers| && |cache| == |net.layers|
    requires |hs| == |ps| == |rows|
    ensures var p := RunLayers(net, s, m, cache, hs, ps, rows);
            RunLayers(net, s, e, cache, hs, ps, rows)
            == RunLayers(net, m, e, p.cache, p.hidden, ps, rows)
    decreases e
  {
    if m < e {
      RunLayersSplit(net, s, m, e - 1, cache, hs, ps, rows);
    }
  }

  // ----- what a cache means -----
  //
  // A label names the token sequence a slot stands for: the slot holds what decoding exactly those
  // tokens would have put there, at position |label| - 1.  The label [] marks padding.

  type Label = seq<Token>

  /** Layer `k`'s slots hold what their labels say. */
  ghost predicate Labelled(net: Net, k: nat, kv: seq<Entry>, lab: seq<Label>)
    requires k <= |net.layers|
  {
    && |kv| == |lab|
    && forall s :: 0 <= s < |lab| && lab[s] != [] ==>
         kv[s] == Entry(Hid(net, k, lab[s]), |lab[s]| - 1)
  }

  /** A stage of layers `[s, e)` holds slots with these labels in every layer it owns. */
  ghost predicate Caches(net: Net, s: nat, e: nat, cache: Cache, lab: seq<Label>)
    requires s <= e <= |net.layers|
  {
    && |cache| == |net.layers|
    && (forall k :: s <= k < e ==> Labelled(net, k, cache[k], lab))
    && (forall k :: 0 <= k < |cache| && !(s <= k < e) ==> cache[k] == [])
  }

  /** `idx` lists, root first, the slots labelled with the successive prefixes of `p`. */
  ghost predicate Chain(lab: seq<Label>, idx: seq<nat>, p: Label)
  {
    && |idx| == |p|
    && Ascending(idx, |lab|)
    && forall j :: 0 <= j < |p| ==> lab[idx[j]] == p[..j + 1]
  }

  /** Row `hs[i]`, at position `ps[i]`, is a query for label `news[i]` entering layer `k`. */
  ghost predicate Queries(net: Net, k: nat, hs: seq<Hidden>, ps: seq<int>, news: seq<Label>)
    requires k <= |net.layers|
  {
    && |hs| == |ps| == |news|
    && forall i :: 0 <= i < |news| && news[i] != [] ==>
         hs[i] == Hid(net, k, news[i]) && ps[i] == |news[i]| - 1
  }

  /** Each mask row attends to exactly the chain of its query's label. */
  ghost predicate MasksChains(lab: seq<Label>, rows: seq<seq<bool>>,
                              news: seq<Label>, chains: seq<seq<nat>>)
  {
    && |rows| == |news| == |chains|
    && forall i :: 0 <= i < |news| && news[i] != [] ==>
         Chain(lab, chains[i], news[i]) && Selects(rows[i], chains[i], |lab|)
  }

  /** The slots on a label's chain are that label's context. */
  lemma ChainGathersContext(net: Net, k: nat, kv: seq<Entry>, lab: seq<Label>,
                            idx: seq<nat>, p: Label)
    requires k <= |net.layers| && Labelled(net, k, kv, lab) && Chain(lab, idx, p)
    ensures Gather(kv, idx) == Context(net, k, p)
  {
    forall j | 0 <= j < |idx| ensures kv[idx[j]] == Entry(Hid(net, k, p[..j + 1]), j) {
      assert lab[idx[j]] == p[..j + 1];
    }
  }

  lemma LayerOnLabels(net: Net, k: nat, kv: seq<Entry>, lab: seq<Label>, hs: seq<Hidden>, ps: seq<int>,
                      rows: seq<seq<bool>>, news: seq<Label>, chains: seq<seq<nat>>)
    requires k < |net.layers| && Labelled(net, k, kv, lab)
    requires Queries(net, k, hs, ps, news) && MasksChains(lab + news, rows, news, chains)
    ensures Labelled(net, k, kv + Slots(hs, ps), lab + news)
    ensures Queries(net, k + 1, LayerOut(net.layers[k], kv + Slots(hs, ps), rows), ps, news)
  {
    var kv' := kv + Slots(hs, ps);
    forall s | 0 <= s < |lab + news| && (lab + news)[s] != []
      ensures kv'[s] == Entry(Hid(net, k, (lab + news)[s]), |(lab + news)[s]| - 1)
    {
      if s >= |lab| { assert (lab + news)[s] == news[s - |lab|]; }
    }
    var out := LayerOut(net.layers[k], kv', rows);
    forall i | 0 <= i < |news| && news[i] != [] ensures out[i] == Hid(net, k + 1, news[i]) {
      VisibleIsGather(kv', rows[i], chains[i]);
      ChainGathersContext(net, k, kv', lab + news, chains[i], news[i]);
    }
  }

  /** The central fact of the engine.  Whatever the mask -- causal, draft tree or padded batch row
      -- if it shows each query exactly the chain of its own label, then a pass over any run of
      layers yields, for each query, the hidden state of an unsplit, uncached pass over that
      label, and leaves every layer holding the labelled slots. */
  lemma {:induction false} PassOnLabels(
      net: Net, s: nat, e: nat, cache: Cache, lab: seq<Label>, hs: seq<Hidden>, ps: seq<int>,
      rows: seq<seq<bool>>, news: seq<Label>, chains: seq<seq<nat>>)
    requires s <= e <= |net.layers| && |cache| == |net.layers|
    requires forall k :: s <= k < e ==> Labelled(net, k, cache[k], lab)
    requires Queries(net, s, hs, ps, news) && MasksChains(lab + news, rows, news, chains)
    ensures var p := RunLayers(net, s, e, cache, hs, ps, rows);
            && Queries(net, e, p.hidden, ps, news)
            && (forall k :: s <= k < e ==> Labelled(net, k, p.cache[k], lab + news))
            && (forall k :: 0 <= k < |cache| && !(s <= k < e) ==> p.cache[k] == cache[k])
    decreases e
  {
    if s < e {
      PassOnLabels(net, s, e - 1, cache, lab, hs, ps, rows, news, chains);
      var q := RunLayers(net, s, e - 1, cache, hs, ps, rows);
      assert q.cache[e - 1] == cache[e - 1];
      LayerOnLabels(net, e - 1, q.cache[e - 1], lab, q.hidden, ps, rows, news, chains);
    }
  }

  // ----- linear caches -----

  /** The successive non-empty prefixes of `toks`: the labels of a cache filled token by token. */
  function Prefixes(toks: seq<Token>): (lab: seq<Label>)
    ensures |lab| == |toks|
  {
    seq(|toks|, j requires 0 <= j < |toks| => toks[..j + 1])
  }

  /** The labels of `chunk`'s tokens decoded after `toks`. */
  function Extensions(toks: seq<Token>, chunk: seq<Token>): (lab: seq<Label>)
    ensures |lab| == |chunk|
  {
    seq(|chunk|, i requires 0 <= i < |chunk| => toks + chunk[..i + 1])
  }

  lemma PrefixesAppend(toks: seq<Token>, chunk: seq<Token>)
    ensures Prefixes(toks + chunk) == Prefixes(toks) + Extensions(toks, chunk)
  {
    forall j | 0 <= j < |toks + chunk|
      ensures (toks + chunk)[..j + 1] == (Prefixes(toks) + Extensions(toks, chunk))[j]
    {
      if j >= |toks| {
        assert (toks + chunk)[..j + 1] == toks + chunk[..j - |toks| + 1];
      }
    }
  }

  /** The stage's cache is exactly that of having decoded `toks`. */
  ghost predicate Holds(net: Net, s: nat, e: nat, cache: Cache, toks: seq<Token>)
    requires s <= e <= |net.layers|
  {
    Caches(net, s, e, cache, Prefixes(toks))
  }

  /** The hidden rows entering layer `k` for `chunk` decoded after `toks`. */
  function Rows(net: Net, k: nat, toks: seq<Token>, chunk: seq<Token>): (hs: seq<Hidden>)
    requires k <= |net.layers|
    ensures |hs| == |chunk|
  {
    seq(|chunk|, i requires 0 <= i < |chunk| => Hid(net, k, toks + chunk[..i + 1]))
  }

  /** Holding `toks` determines the cache: each owned layer has the context of `toks`. */
  lemma HoldsIsContext(net: Net, s: nat, e: nat, cache: Cache, toks: seq<Token>)
    requires s <= e <= |net.layers|
    ensures Holds(net, s, e, cache, toks) <==>
            cache == seq(|net.layers|, k requires 0 <= k < |net.layers| =>
              if s <= k < e then Context(net, k, toks) else [])
  {
    if Holds(net, s, e, cache, toks) {
      forall k | s <= k < e ensures cache[k] == Context(net, k, toks) {
        assert Labelled(net, k, cache[k], Prefixes(toks));
      }
    } else if |cache| == |net.layers| {
      assert (exists k :: s <= k < e && !Labelled(net, k, cache[k], Prefixes(toks)))
          || (exists k :: 0 <= k < |cache| && !(s <= k < e) && cache[k] != []);
      if k :| s <= k < e && !Labelled(net, k, cache[k], Prefixes(toks)) {
        assert cache[k] != Context(net, k, toks);
      }
    }
  }

  /** The first `n` slots. */
  function Upto(n: nat): (idx: seq<nat>)
    ensures |idx| == n && forall j :: 0 <= j < n ==> idx[j] == j
  {
    seq(n, j requires 0 <= j < n => j)
  }

  /** The slots each of `t` consecutive queries over `past` slots attends to. */
  function CausalChains(past: nat, t: nat): (chains: seq<seq<nat>>)
    ensures |chains| == t && forall i :: 0 <= i < t ==> chains[i] == Upto(past + i + 1)
  {
    seq(t, i requires 0 <= i < t => Upto(past + i + 1))
  }

  /** The causal mask shows each new token the chain of its label. */
  lemma CausalMasksChains(toks: seq<Token>, chunk: seq<Token>)
    ensures MasksChains(Prefixes(toks + chunk), CausalRows(|toks|, |chunk|), Extensions(toks, chunk),
                        CausalChains(|toks|, |chunk|))
  {
    var lab, news := Prefixes(toks + chunk), Extensions(toks, chunk);
    forall i | 0 <= i < |chunk|
      ensures Chain(lab, Upto(|toks| + i + 1), news[i])
      ensures Selects(CausalRows(|toks|, |chunk|)[i], Upto(|toks| + i + 1), |lab|)
    {
      var idx := Upto(|toks| + i + 1);
      forall j | 0 <= j < |idx| ensures lab[idx[j]] == news[i][..j + 1] {
        assert (toks + chunk)[..j + 1] == (toks + chunk[..i + 1])[..j + 1];
      }
      forall s | 0 <= s < |lab| ensures s <= |toks| + i <==> s in idx {
        if s <= |toks| + i { assert idx[s] == s; }
      }
    }
  }

  /** One forward call of a stage on consecutive tokens: the incremental pass equals the unsplit,
      uncached one on every row, and the cache goes from `toks` to `toks + chunk`. */
  lemma LinearPass(net: Net, s: nat, e: nat, cache: Cache, toks: seq<Token>, chunk: seq<Token>)
    requires s <= e <= |net.layers| && Holds(net, s, e, cache, toks)
    ensures var p := RunLayers(net, s, e, cache, Rows(net, s, toks, chunk),
                               Positions(|toks|, |chunk|), CausalRows(|toks|, |chunk|));
            p.hidden == Rows(net, e, toks, chunk) && Holds(net, s, e, p.cache, toks + chunk)
  {
    var lab, news := Prefixes(toks), Extensions(toks, chunk);
    var chains := CausalChains(|toks|, |chunk|);
    var hs, ps, rows := Rows(net, s, toks, chunk), Positions(|toks|, |chunk|), CausalRows(|toks|, |chunk|);
    PrefixesAppend(toks, chunk);
    CausalMasksChains(toks, chunk);
    PassOnLabels(net, s, e, cache, lab, hs, ps, rows, news, chains);
    var p := RunLayers(net, s, e, cache, hs, ps, rows);
    forall i | 0 <= i < |chunk| ensures p.hidden[i] == Rows(net, e, toks, chunk)[i] {
      assert news[i] != [];
    }
  }
}
