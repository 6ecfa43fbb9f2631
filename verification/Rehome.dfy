/** Continuing a session on holders that do not all stand where it does.

    A holder that was replaced, or never saw the frames of a session, has no entry for it; one that
    missed a roll-back holds too much.  Nothing re-prefills them: the next frame runs on whatever cache
    they have.  This module settles when what comes out is still right. */
module Rehoming {
  import opened Wrappers
  import opened Model
  import opened Attention
  import opened KV
  import opened Stages
  import opened Workers
  import opened Coordinators
  import opened MeshRelay

  // ----- where the holders stand -----

  /** The stages of a route with the given cuts. */
  ghost function StagesAlong(net: Net, cuts: seq<nat>): (stages: seq<Stage>)
    requires Cuts(cuts, |net.layers|)
    ensures RouteTiles(net, cuts, stages)
  {
    seq(|cuts| - 1, k requires 0 <= k < |cuts| - 1 => Stage(net, cuts[k], cuts[k + 1]))
  }

  /** Where every holder of the route stands for the session; `None` is anywhere. */
  ghost predicate Standing(net: Net, cuts: seq<nat>, stores: seq<map<nat, Cache>>, session: nat, places: seq<Place>)
    requires Cuts(cuts, |net.layers|)
  {
    && |places| == |stores| == |cuts| - 1
    && forall k :: 0 <= k < |places| ==> IsPlaced(StagesAlong(net, cuts)[k], stores[k], session, places[k])
  }

  function Known(standing: seq<seq<Token>>): (places: seq<Place>)
    ensures |places| == |standing|
  {
    seq(|standing|, k requires 0 <= k < |standing| => Some(standing[k]))
  }

  lemma StandingOk(net: Net, cuts: seq<nat>, stores: seq<map<nat, Cache>>, session: nat, places: seq<Place>)
    requires Cuts(cuts, |net.layers|) && Standing(net, cuts, stores, session, places)
    ensures StoresOk(StagesAlong(net, cuts), stores)
  {
    forall k | 0 <= k < |stores| ensures StoreOk(StagesAlong(net, cuts)[k], stores[k]) {
      assert IsPlaced(StagesAlong(net, cuts)[k], stores[k], session, places[k]);
    }
  }

  /** Every holder that stands elsewhere than at `toks`, or may do so, has no layers. */
  predicate OnlyIdleAstray(cuts: seq<nat>, places: seq<Place>, toks: seq<Token>)
    requires |cuts| == |places| + 1
  {
    forall k :: 0 <= k < |places| ==> places[k] == Some(toks) || cuts[k] == cuts[k + 1]
  }

  // ----- continuing -----

  /** The rows entering holder `k` when `chunk` is fed at position |toks|. */
  ghost function Resumed(net: Net, cuts: seq<nat>, stores: seq<map<nat, Cache>>, session: nat,
                         toks: seq<Token>, chunk: seq<Token>, k: nat): seq<Hidden>
    requires Cuts(cuts, |net.layers|) && StoresOk(StagesAlong(net, cuts), stores) && k < |cuts|
  {
    RouteHidden(StagesAlong(net, cuts), stores, session, |toks|, Embedded(net, chunk), k)
  }

  /** The stores that leaves. */
  ghost function ResumedStores(net: Net, cuts: seq<nat>, stores: seq<map<nat, Cache>>, session: nat,
                               toks: seq<Token>, chunk: seq<Token>): (out: seq<map<nat, Cache>>)
    requires Cuts(cuts, |net.layers|) && StoresOk(StagesAlong(net, cuts), stores)
    ensures |out| == |stores|
  {
    seq(|stores|, k requires 0 <= k < |stores| =>
      stores[k][session := RouteCache(StagesAlong(net, cuts), stores, session, |toks|, Embedded(net, chunk), k)])
  }

  lemma ResumedStoresOk(net: Net, cuts: seq<nat>, stores: seq<map<nat, Cache>>, session: nat,
                        toks: seq<Token>, chunk: seq<Token>)
    requires Cuts(cuts, |net.layers|) && StoresOk(StagesAlong(net, cuts), stores)
    ensures StoresOk(StagesAlong(net, cuts), ResumedStores(net, cuts, stores, session, toks, chunk))
  {
    var stages := StagesAlong(net, cuts);
    forall k | 0 <= k < |stores|
      ensures StoreOk(stages[k], ResumedStores(net, cuts, stores, session, toks, chunk)[k])
    {
      assert StoreOk(stages[k], stores[k]);
      OpenIsOwned(stages[k], stores[k], session, |toks|);
      var hidden := Resumed(net, cuts, stores, session, toks, chunk, k);
      var cache := OpenCache(stores[k], session, |toks|, |net.layers|);
      RunStaysOwned(stages[k], cache, hidden, Positions(|toks|, |hidden|), CausalRows(SeqLength(cache), |hidden|));
    }
  }

  /** `n` tokens: feed `chunk`, take the last row's choice, feed that, and so on. */
  ghost function ResumedRun(net: Net, cuts: seq<nat>, stores: seq<map<nat, Cache>>, session: nat,
                            toks: seq<Token>, chunk: seq<Token>, n: nat): (out: seq<Token>)
    requires Cuts(cuts, |net.layers|) && StoresOk(StagesAlong(net, cuts), stores) && chunk != []
    decreases n
  {
    if n == 0 then [] else
      var rows := Resumed(net, cuts, stores, session, toks, chunk, |cuts| - 1);
      var nxt := net.choose(if rows == [] then Hidden(0) else rows[|rows| - 1]);
      ResumedStoresOk(net, cuts, stores, session, toks, chunk);
      [nxt] + ResumedRun(net, cuts, ResumedStores(net, cuts, stores, session, toks, chunk), session,
                         toks + chunk, [nxt], n - 1)
  }

  // ----- it is enough -----

  lemma {:induction false} HoldersContinue(net: Net, cuts: seq<nat>, stores: seq<map<nat, Cache>>, session: nat,
                                           places: seq<Place>, toks: seq<Token>, chunk: seq<Token>, k: nat)
    requires Cuts(cuts, |net.layers|) && Standing(net, cuts, stores, session, places)
    requires OnlyIdleAstray(cuts, places, toks) && k <= |places| && toks != []
    ensures StoresOk(StagesAlong(net, cuts), stores)
    ensures Resumed(net, cuts, stores, session, toks, chunk, k) == Rows(net, cuts[k], toks, chunk)
    ensures k < |places| ==>
              IsPlaced(StagesAlong(net, cuts)[k], ResumedStores(net, cuts, stores, session, toks, chunk)[k],
                       session, Some(toks + chunk))
    decreases k
  {
    hide OpenCache, CausalCall, Rows;
    StandingOk(net, cuts, stores, session, places);
    var stages := StagesAlong(net, cuts);
    EmbeddedRows(net, toks, chunk);
    if k > 0 {
      HoldersContinue(net, cuts, stores, session, places, toks, chunk, k - 1);
      assert IsPlaced(stages[k - 1], stores[k - 1], session, places[k - 1]);
      PlacedContinues(stages[k - 1], stores[k - 1], session, places[k - 1], toks, chunk);
    }
    if k < |places| {
      assert IsPlaced(stages[k], stores[k], session, places[k]);
      PlacedContinues(stages[k], stores[k], session, places[k], toks, chunk);
    }
  }

  /** If only holders without layers are astray, the run is greedy decoding, for any number of tokens. */
  lemma {:induction false} RunIsGreedy(net: Net, cuts: seq<nat>, stores: seq<map<nat, Cache>>, session: nat,
                                       places: seq<Place>, toks: seq<Token>, chunk: seq<Token>, n: nat)
    requires Cuts(cuts, |net.layers|) && Standing(net, cuts, stores, session, places)
    requires OnlyIdleAstray(cuts, places, toks) && toks != [] && chunk != []
    ensures StoresOk(StagesAlong(net, cuts), stores)
    ensures ResumedRun(net, cuts, stores, session, toks, chunk, n) == Greedy(net, toks + chunk, n)
    decreases n
  {
    hide Resumed, IsPlaced, Rows;
    StandingOk(net, cuts, stores, session, places);
    if n > 0 {
      HoldersContinue(net, cuts, stores, session, places, toks, chunk, |places|);
      LastRowIsNext(net, toks, chunk);
      var nxt := Next(net, toks + chunk);
      var next := ResumedStores(net, cuts, stores, session, toks, chunk);
      var stand := seq(|places|, _ => Some(toks + chunk));
      forall k | 0 <= k < |stand| ensures IsPlaced(StagesAlong(net, cuts)[k], next[k], session, stand[k]) {
        HoldersContinue(net, cuts, stores, session, places, toks, chunk, k);
      }
      ResumedStoresOk(net, cuts, stores, session, toks, chunk);
      RunIsGreedy(net, cuts, next, session, stand, toks + chunk, [nxt], n - 1);
    }
  }

  lemma LastRowIsNext(net: Net, toks: seq<Token>, chunk: seq<Token>)
    requires chunk != []
    ensures var rows := Rows(net, |net.layers|, toks, chunk);
            net.choose(rows[|rows| - 1]) == Next(net, toks + chunk)
  {
    assert chunk[..|chunk|] == chunk;
  }

  // ----- it is necessary -----
  //
  // A model that betrays any stray holder: tokens pass every layer unchanged, except that layer `l`
  // says whether it sees exactly the slots it should.

  function OwnSlot(kv: seq<Entry>): Hidden
  {
    if kv == [] then Hidden(0) else kv[|kv| - 1].hidden
  }

  function SpyNet(layers: nat, l: nat, f: Layer): (net: Net)
    ensures |net.layers| == layers
  {
    Net(seq(layers, i => if i == l then f else OwnSlot), t => Hidden(t), (h: Hidden) => h.bits)
  }

  /** The slots of layer `l` after `toks`, tokens passing unchanged. */
  function Trace(toks: seq<Token>, start: nat): (kv: seq<Entry>)
    ensures |kv| == |toks|
  {
    seq(|toks|, i requires 0 <= i < |toks| => Entry(Hidden(toks[i]), start + i))
  }

  lemma TraceAppend(toks: seq<Token>, chunk: seq<Token>)
    ensures Trace(toks + chunk, 0) == Trace(toks, 0) + Trace(chunk, |toks|)
  {
  }

  /** A trace tells its tokens. */
  lemma TraceTells(a: seq<Token>, b: seq<Token>, start: nat)
    requires Trace(a, start) == Trace(b, start)
    ensures a == b
  {
    assert |a| == |Trace(a, start)| == |b|;
    forall i | 0 <= i < |a| ensures a[i] == b[i] {
      assert Trace(a, start)[i] == Trace(b, start)[i];
    }
  }

  lemma {:induction false} SpyHid(layers: nat, l: nat, f: Layer, k: nat, toks: seq<Token>)
    requires l < layers && k <= layers && toks != []
    ensures Hid(SpyNet(layers, l, f), k, toks) == if k <= l then Hidden(toks[|toks| - 1]) else f(Trace(toks, 0))
    decreases k, |toks|
  {
    var net := SpyNet(layers, l, f);
    if k > 0 {
      assert toks[..|toks|] == toks;
      if k - 1 == l {
        SpyContext(layers, l, f, toks);
      } else {
        SpyHid(layers, l, f, k - 1, toks);
        var kv := Context(net, k - 1, toks);
        assert kv[|kv| - 1].hidden == Hid(net, k - 1, toks);
      }
    }
  }

  lemma {:induction false} SpyContext(layers: nat, l: nat, f: Layer, toks: seq<Token>)
    requires l < layers
    ensures Context(SpyNet(layers, l, f), l, toks) == Trace(toks, 0)
    decreases l, |toks| + 1
  {
    forall j | 0 <= j < |toks|
      ensures Hid(SpyNet(layers, l, f), l, toks[..j + 1]) == Hidden(toks[j])
    {
      SpyHidBefore(layers, l, f, l, toks[..j + 1]);
    }
  }

  lemma {:induction false} SpyHidBefore(layers: nat, l: nat, f: Layer, k: nat, toks: seq<Token>)
    requires l < layers && k <= l && toks != []
    ensures Hid(SpyNet(layers, l, f), k, toks) == Hidden(toks[|toks| - 1])
    decreases k
  {
    if k > 0 {
      SpyHidBefore(layers, l, f, k - 1, toks);
      assert toks[..|toks|] == toks;
      var kv := Context(SpyNet(layers, l, f), k - 1, toks);
      assert kv[|kv| - 1].hidden == Hid(SpyNet(layers, l, f), k - 1, toks);
    }
  }

  /** A causal mask row over `past` old and `t` new slots shows row `i` everything up to its own. */
  lemma VisibleUpto(kv: seq<Entry>, past: nat, t: nat, i: nat)
    requires |kv| == past + t && i < t
    ensures Visible(kv, CausalRows(past, t)[i]) == kv[..past + i + 1]
  {
    var idx := Upto(past + i + 1);
    forall s | 0 <= s < |kv| ensures CausalRows(past, t)[i][s] <==> s in idx {
      if s <= past + i { assert idx[s] == s; }
    }
    VisibleIsGather(kv, CausalRows(past, t)[i], idx);
    assert Gather(kv, idx) == kv[..past + i + 1];
  }

  /** What layer `l` makes of the new rows over the slots `kv` it already has. */
  function Spied(f: Layer, kv: seq<Entry>, hs: seq<Hidden>, start: int): (out: seq<Hidden>)
    ensures |out| == |hs|
  {
    seq(|hs|, i requires 0 <= i < |hs| => f((kv + Slots(hs, Positions(start, |hs|)))[..|kv| + i + 1]))
  }

  lemma SpyLayer(kv: seq<Entry>, hs: seq<Hidden>, start: int, f: Layer)
    ensures var all := kv + Slots(hs, Positions(start, |hs|));
            && LayerOut(f, all, CausalRows(|kv|, |hs|)) == Spied(f, kv, hs, start)
            && LayerOut(OwnSlot, all, CausalRows(|kv|, |hs|)) == hs
  {
    hide Visible, CausalRows;
    var all := kv + Slots(hs, Positions(start, |hs|));
    forall i | 0 <= i < |hs|
      ensures LayerOut(f, all, CausalRows(|kv|, |hs|))[i] == Spied(f, kv, hs, start)[i]
      ensures LayerOut(OwnSlot, all, CausalRows(|kv|, |hs|))[i] == hs[i]
    {
      VisibleUpto(all, |kv|, |hs|, i);
      var seen := all[..|kv| + i + 1];
      assert |seen| == |kv| + i + 1 && seen[|kv| + i] == Slots(hs, Positions(start, |hs|))[i];
      assert OwnSlot(seen) == hs[i];
    }
  }

  lemma NextLayer(net: Net, s: nat, e: nat, cache: Cache, hs: seq<Hidden>, ps: seq<int>, rows: seq<seq<bool>>)
    requires s <= e < |net.layers| == |cache| && |hs| == |ps| == |rows|
    ensures var h := RunLayers(net, s, e, cache, hs, ps, rows).hidden;
            RunLayers(net, s, e + 1, cache, hs, ps, rows).hidden == LayerOut(net.layers[e], cache[e] + Slots(h, ps), rows)
  {
    RunLayersFrame(net, s, e, cache, cache, hs, ps, rows);
  }

  /** One more layer, when it is the spied one and when it passes the rows on. */
  lemma SpyStep(layers: nat, l: nat, f: Layer, k: nat, kv: seq<Entry>, hs: seq<Hidden>, start: int)
    requires l < layers && k < layers
    ensures LayerOut(SpyNet(layers, l, f).layers[k], kv + Slots(hs, Positions(start, |hs|)), CausalRows(|kv|, |hs|))
            == if k == l then Spied(f, kv, hs, start) else hs
  {
    hide Spied, LayerOut, Slots, CausalRows, Positions;
    SpyLayer(kv, hs, start, f);
  }

  lemma {:induction false} SpyPass(layers: nat, l: nat, f: Layer, s: nat, e: nat, cache: Cache,
                                   hs: seq<Hidden>, start: int, past: nat)
    requires s <= e <= layers == |cache| && l < layers && forall k :: s <= k < e ==> |cache[k]| == past
    ensures var q := RunLayers(SpyNet(layers, l, f), s, e, cache, hs, Positions(start, |hs|), CausalRows(past, |hs|));
            q.hidden == if s <= l < e then Spied(f, cache[l], hs, start) else hs
    decreases e
  {
    hide Spied, SpyNet, CausalRows, Positions, LayerOut, Slots;
    if s < e {
      hide RunLayers;
      SpyPass(layers, l, f, s, e - 1, cache, hs, start, past);
      var net, ps, rows := SpyNet(layers, l, f), Positions(start, |hs|), CausalRows(past, |hs|);
      var h := RunLayers(net, s, e - 1, cache, hs, ps, rows).hidden;
      NextLayer(net, s, e - 1, cache, hs, ps, rows);
      SpyStep(layers, l, f, e - 1, cache[e - 1], h, start);
    }
  }

  /** One holder: layer `l`, if it is there, sees what the holder stands at and the new rows. */
  lemma SpyHop(layers: nat, l: nat, f: Layer, first: nat, last: nat, store: map<nat, Cache>, session: nat,
               at: seq<Token>, pos: nat, hs: seq<Hidden>)
    requires first <= last <= layers && l < layers && pos > 0
    requires IsPlaced(Stage(SpyNet(layers, l, f), first, last), store, session, Some(at))
    ensures var cache := OpenCache(store, session, pos, layers);
            && |cache| == layers
            && CausalCall(Stage(SpyNet(layers, l, f), first, last), cache, hs, pos).hidden
               == if first <= l < last then Spied(f, Trace(at, 0), hs, pos) else hs
  {
    hide Spied, SpyNet, Visible;
    var net := SpyNet(layers, l, f);
    var cache := OpenCache(store, session, pos, layers);
    if first < last {
      EmptyStands(net, first, last, at);
      HoldsIsContext(net, first, last, cache, at);
      HeldLength(net, first, last, cache, at);
      SpyPass(layers, l, f, first, last, cache, hs, pos, |at|);
      if first <= l < last { SpyContext(layers, l, f, at); }
    }
  }

  lemma EmptyStands(net: Net, first: nat, last: nat, at: seq<Token>)
    requires first <= last <= |net.layers|
    ensures at == [] ==> Holds(net, first, last, Empty(|net.layers|), at)
  {
    EmptyHoldsNothing(net, first, last);
  }

  /** Along the route: the rows are the tokens up to layer `l`, and from there what it made of them. */
  lemma {:induction false} SpyRoute(layers: nat, l: nat, f: Layer, cuts: seq<nat>, stores: seq<map<nat, Cache>>,
                                    session: nat, standing: seq<seq<Token>>, toks: seq<Token>, chunk: seq<Token>,
                                    j: nat, k: nat)
    requires Cuts(cuts, layers) && Standing(SpyNet(layers, l, f), cuts, stores, session, Known(standing)) && toks != []
    requires j < |standing| && cuts[j] <= l < cuts[j + 1] && k <= |standing|
    ensures l < layers && StoresOk(StagesAlong(SpyNet(layers, l, f), cuts), stores)
    ensures var hs := Embedded(SpyNet(layers, l, f), chunk);
            Resumed(SpyNet(layers, l, f), cuts, stores, session, toks, chunk, k)
            == if j < k then Spied(f, Trace(standing[j], 0), hs, |toks|) else hs
    decreases k
  {
    hide Spied, SpyNet, OpenCache, CausalCall, Embedded, Trace, IsPlaced, Known;
    var net := SpyNet(layers, l, f);
    assert cuts[j + 1] <= layers;
    StandingOk(net, cuts, stores, session, Known(standing));
    if k > 0 {
      SpyRoute(layers, l, f, cuts, stores, session, standing, toks, chunk, j, k - 1);
      KnownPlace(net, cuts, stores, session, standing, k - 1);
      SpyHop(layers, l, f, cuts[k - 1], cuts[k], stores[k - 1], session, standing[k - 1], |toks|,
             Resumed(net, cuts, stores, session, toks, chunk, k - 1));
      CutAtOne(cuts, layers, l, j, k - 1);
    }
  }

  lemma KnownPlace(net: Net, cuts: seq<nat>, stores: seq<map<nat, Cache>>, session: nat, standing: seq<seq<Token>>, k: nat)
    requires Cuts(cuts, |net.layers|) && Standing(net, cuts, stores, session, Known(standing)) && k < |standing|
    ensures IsPlaced(Stage(net, cuts[k], cuts[k + 1]), stores[k], session, Some(standing[k]))
  {
    assert IsPlaced(StagesAlong(net, cuts)[k], stores[k], session, Known(standing)[k]);
  }

  lemma CutAtOne(cuts: seq<nat>, layers: nat, l: nat, j: nat, k: nat)
    requires Cuts(cuts, layers) && j + 1 < |cuts| && k + 1 < |cuts| && cuts[j] <= l < cuts[j + 1]
    ensures cuts[k] <= l < cuts[k + 1] <==> k == j
  {
    if k < j { assert cuts[k + 1] <= cuts[j]; }
    if k > j { assert cuts[j + 1] <= cuts[k]; }
  }

  /** Says whether a layer sees exactly the slots it should. */
  function Sees(expected: seq<Entry>): Layer
  {
    (kv: seq<Entry>) => Hidden(if kv == expected then 1 else 0)
  }

  /** Exactly what the holders stand at. */
  ghost function StoresStanding(net: Net, cuts: seq<nat>, session: nat, standing: seq<seq<Token>>): seq<map<nat, Cache>>
    requires |cuts| == |standing| + 1
  {
    seq(|standing|, k requires 0 <= k < |standing| => map[session := CacheOf(net, cuts[k], cuts[k + 1], standing[k])])
  }

  ghost function CacheOf(net: Net, s: nat, e: nat, toks: seq<Token>): Cache
  {
    seq(|net.layers|, k requires 0 <= k < |net.layers| => if s <= k < e then Context(net, k, toks) else [])
  }

  lemma StoresStand(net: Net, cuts: seq<nat>, session: nat, standing: seq<seq<Token>>)
    requires Cuts(cuts, |net.layers|) && |cuts| == |standing| + 1
    ensures Standing(net, cuts, StoresStanding(net, cuts, session, standing), session, Known(standing))
  {
    var stores := StoresStanding(net, cuts, session, standing);
    forall k | 0 <= k < |standing| ensures IsPlaced(StagesAlong(net, cuts)[k], stores[k], session, Some(standing[k])) {
      HoldsIsContext(net, cuts[k], cuts[k + 1], CacheOf(net, cuts[k], cuts[k + 1], standing[k]), standing[k]);
    }
  }

  /** Some standing that agrees with these places. */
  function SomeStanding(places: seq<Place>): (standing: seq<seq<Token>>)
    ensures |standing| == |places|
  {
    seq(|places|, k requires 0 <= k < |places| => if places[k].Some? then places[k].value else [])
  }

  lemma SomeStandingAgrees(net: Net, cuts: seq<nat>, stores: seq<map<nat, Cache>>, session: nat, places: seq<Place>)
    requires Cuts(cuts, |net.layers|) && Standing(net, cuts, stores, session, Known(SomeStanding(places)))
    ensures Standing(net, cuts, stores, session, places)
  {
    forall k | 0 <= k < |places| ensures IsPlaced(StagesAlong(net, cuts)[k], stores[k], session, places[k]) {
      assert IsPlaced(StagesAlong(net, cuts)[k], stores[k], session, Some(SomeStanding(places)[k]));
    }
  }

  /** A stray holder with layers is betrayed by the very first token. */
  lemma StrayDiverges(layers: nat, cuts: seq<nat>, session: nat, places: seq<Place>,
                      toks: seq<Token>, chunk: seq<Token>, n: nat)
    requires Cuts(cuts, layers) && |cuts| == |places| + 1 && toks != [] && chunk != [] && n > 0
    requires !OnlyIdleAstray(cuts, places, toks)
    ensures exists net: Net, stores ::
              && |net.layers| == layers && Standing(net, cuts, stores, session, places)
              && StoresOk(StagesAlong(net, cuts), stores)
              && ResumedRun(net, cuts, stores, session, toks, chunk, n) != Greedy(net, toks + chunk, n)
  {
    var j :| 0 <= j < |places| && places[j] != Some(toks) && cuts[j] < cuts[j + 1];
    var l, standing := cuts[j], SomeStanding(places);
    var f := Sees(Trace(toks + chunk, 0));
    var net := SpyNet(layers, l, f);
    var stores := StoresStanding(net, cuts, session, standing);
    StoresStand(net, cuts, session, standing);
    StandingOk(net, cuts, stores, session, Known(standing));
    SomeStandingAgrees(net, cuts, stores, session, places);
    FirstIsWrong(layers, cuts, stores, session, standing, toks, chunk, n, j);
  }

  lemma FirstIsWrong(layers: nat, cuts: seq<nat>, stores: seq<map<nat, Cache>>, session: nat,
                     standing: seq<seq<Token>>, toks: seq<Token>, chunk: seq<Token>, n: nat, j: nat)
    requires Cuts(cuts, layers) && toks != [] && chunk != [] && n > 0
    requires j < |standing| && |cuts| == |standing| + 1 && standing[j] != toks && cuts[j] < cuts[j + 1]
    requires Standing(SpyNet(layers, cuts[j], Sees(Trace(toks + chunk, 0))), cuts, stores, session, Known(standing))
    ensures var net := SpyNet(layers, cuts[j], Sees(Trace(toks + chunk, 0)));
            && StoresOk(StagesAlong(net, cuts), stores)
            && ResumedRun(net, cuts, stores, session, toks, chunk, n) != Greedy(net, toks + chunk, n)
  {
    hide Resumed, Spied, Trace, Sees, Hid, StandsAt, ResumedStores;
    var l, f := cuts[j], Sees(Trace(toks + chunk, 0));
    var net := SpyNet(layers, l, f);
    SpyRoute(layers, l, f, cuts, stores, session, standing, toks, chunk, j, |standing|);
    SpyChoice(toks, standing[j], chunk);
    SpyHid(layers, l, f, layers, toks + chunk);
    var hs := seq(|chunk|, i requires 0 <= i < |chunk| => Hidden(chunk[i]));
    assert Embedded(net, chunk) == hs;
    assert Greedy(net, toks + chunk, n)[0] == 1;
    assert ResumedRun(net, cuts, stores, session, toks, chunk, n)[0] != 1;
  }

  /** The last row's choice when layer `l` runs on the slots of `at`: right exactly if `at` is `toks`. */
  lemma SpyChoice(toks: seq<Token>, at: seq<Token>, chunk: seq<Token>)
    requires chunk != []
    ensures var f := Sees(Trace(toks + chunk, 0));
            var hs := seq(|chunk|, i requires 0 <= i < |chunk| => Hidden(chunk[i]));
            && f(Trace(toks + chunk, 0)).bits == 1
            && (Spied(f, Trace(at, 0), hs, |toks|)[|chunk| - 1].bits == 1 <==> at == toks)
  {
    var f, m := Sees(Trace(toks + chunk, 0)), |chunk|;
    var hs := seq(m, i requires 0 <= i < m => Hidden(chunk[i]));
    var tail := Trace(chunk, |toks|);
    assert Slots(hs, Positions(|toks|, m)) == tail;
    assert (Trace(at, 0) + tail)[..|Trace(at, 0)| + (m - 1) + 1] == Trace(at, 0) + tail;
    TraceAppend(toks, chunk);
    if Trace(at, 0) + tail == Trace(toks, 0) + tail {
      SameFront(Trace(at, 0), Trace(toks, 0), tail);
      TraceTells(at, toks, 0);
    }
  }

  lemma SameFront(a: seq<Entry>, b: seq<Entry>, tail: seq<Entry>)
    requires a + tail == b + tail
    ensures a == b
  {
    assert |a| == |b|;
    assert a == (a + tail)[..|a|] && b == (b + tail)[..|b|];
  }

  /** Continuing a session on these holders is exact, for every model, every chunk that is fed and every
      number of tokens that follow, if and only if every holder that stands elsewhere, or
      may do so, has no layers. */
  lemma ContinuesExactlyIff(layers: nat, cuts: seq<nat>, session: nat, places: seq<Place>,
                            toks: seq<Token>, chunk: seq<Token>, n: nat)
    requires Cuts(cuts, layers) && |cuts| == |places| + 1 && toks != [] && chunk != [] && n > 0
    ensures OnlyIdleAstray(cuts, places, toks) <==>
            forall net: Net, stores ::
              |net.layers| == layers && Standing(net, cuts, stores, session, places) ==>
                Exact(net, cuts, stores, session, toks, chunk, n)
  {
    hide ResumedRun, Greedy;
    if OnlyIdleAstray(cuts, places, toks) {
      forall net: Net, stores | |net.layers| == layers && Standing(net, cuts, stores, session, places)
        ensures Exact(net, cuts, stores, session, toks, chunk, n)
      {
        RunIsGreedy(net, cuts, stores, session, places, toks, chunk, n);
      }
    } else {
      StrayDiverges(layers, cuts, session, places, toks, chunk, n);
    }
  }

  ghost predicate Exact(net: Net, cuts: seq<nat>, stores: seq<map<nat, Cache>>, session: nat,
                        toks: seq<Token>, chunk: seq<Token>, n: nat)
    requires Cuts(cuts, |net.layers|) && toks + chunk != []
  {
    && StoresOk(StagesAlong(net, cuts), stores) && chunk != []
    && ResumedRun(net, cuts, stores, session, toks, chunk, n) == Greedy(net, toks + chunk, n)
  }

  // ----- re-homing and roll-back -----

  /** Every holder of a slot with layers is marked. */
  predicate AllMarkedOrIdle(cuts: seq<nat>, marked: seq<bool>)
    requires |cuts| == |marked| + 1
  {
    forall k :: 0 <= k < |marked| ==> marked[k] || cuts[k] == cuts[k + 1]
  }

  /** Where the holders of a resumed session stand: the kept ones at `toks`, a replacement at nothing.
      A co-located stage of a surviving orchestrator is such a replacement. */
  function AfterReplacement(kept: seq<bool>, toks: seq<Token>): (places: seq<Place>)
    ensures |places| == |kept|
  {
    seq(|kept|, k requires 0 <= k < |kept| => Some(if kept[k] then toks else []))
  }

  /** A resumed session goes on exactly, whatever the model and for however many tokens, if and only if
      every holder with layers is still the one that served it before. */
  lemma ResumesExactlyIff(layers: nat, cuts: seq<nat>, kept: seq<bool>, session: nat, toks: seq<Token>,
                          t: Token, n: nat)
    requires Cuts(cuts, layers) && |cuts| == |kept| + 1 && toks != [] && n > 0
    ensures AllMarkedOrIdle(cuts, kept) <==>
            forall net: Net, stores ::
              |net.layers| == layers && Standing(net, cuts, stores, session, AfterReplacement(kept, toks)) ==>
                Exact(net, cuts, stores, session, toks, [t], n)
  {
    var places := AfterReplacement(kept, toks);
    assert OnlyIdleAstray(cuts, places, toks) <==> AllMarkedOrIdle(cuts, kept) by {
      forall k | 0 <= k < |kept| ensures places[k] == Some(toks) <==> kept[k] {}
    }
    ContinuesExactlyIff(layers, cuts, session, places, toks, [t], n);
  }

  /** The first stage co-located with the orchestrator that resumes, all other holders kept: exact if and
      only if that stage has no layers. */
  lemma ColocatedResumesIff(layers: nat, cuts: seq<nat>, session: nat, toks: seq<Token>, t: Token, n: nat)
    requires Cuts(cuts, layers) && |cuts| >= 2 && toks != [] && n > 0
    ensures var kept := seq(|cuts| - 1, k requires 0 <= k < |cuts| - 1 => k > 0);
            cuts[0] == cuts[1] <==>
            forall net: Net, stores ::
              |net.layers| == layers && Standing(net, cuts, stores, session, AfterReplacement(kept, toks)) ==>
                Exact(net, cuts, stores, session, toks, [t], n)
  {
    var kept := seq(|cuts| - 1, k requires 0 <= k < |cuts| - 1 => k > 0);
    assert AllMarkedOrIdle(cuts, kept) <==> cuts[0] == cuts[1];
    ResumesExactlyIff(layers, cuts, kept, session, toks, t, n);
  }

  /** Where the holders stand after a roll-back to `length` slots that only some of them got. */
  function AfterRollback(reached: seq<bool>, toks: seq<Token>, length: nat): (places: seq<Place>)
    requires length <= |toks|
    ensures |places| == |reached|
  {
    seq(|reached|, k requires 0 <= k < |reached| => Some(if reached[k] then toks[..length] else toks))
  }

  /** A session goes on exactly after a roll-back, whatever is fed next, if and only if nothing was to be
      rolled back or every holder with layers got the frame. */
  lemma RollsBackExactlyIff(layers: nat, cuts: seq<nat>, reached: seq<bool>, session: nat, toks: seq<Token>,
                            length: nat, chunk: seq<Token>, n: nat)
    requires Cuts(cuts, layers) && |cuts| == |reached| + 1 && 0 < length <= |toks| && chunk != [] && n > 0
    ensures length == |toks| || AllMarkedOrIdle(cuts, reached) <==>
            forall net: Net, stores ::
              |net.layers| == layers && Standing(net, cuts, stores, session, AfterRollback(reached, toks, length)) ==>
                Exact(net, cuts, stores, session, toks[..length], chunk, n)
  {
    var places := AfterRollback(reached, toks, length);
    assert toks[..length] == toks <==> length == |toks|;
    assert OnlyIdleAstray(cuts, places, toks[..length]) <==> length == |toks| || AllMarkedOrIdle(cuts, reached) by {
      forall k | 0 <= k < |reached|
        ensures places[k] == Some(toks[..length]) <==> reached[k] || length == |toks| {}
    }
    ContinuesExactlyIff(layers, cuts, session, places, toks[..length], chunk, n);
  }
}
