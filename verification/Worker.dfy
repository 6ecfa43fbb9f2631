/** A stage worker: one stage, and the per-session caches it keeps for every peer. */
module Workers {
  import opened Wrappers
  import opened Model
  import opened Attention
  import opened KV
  import opened Stages
  import opened Trees

  /** KV_CTRL operations. */
  datatype KvOp = Reset | Truncate(length: nat) | Free | TreeKeep(prefixLen: nat, slots: seq<nat>)

  /** The cache a frame at position `pos` runs on: position 0 starts a fresh sequence, any other
      position continues the session's entry, or an empty one if there is none. */
  function OpenCache(sessions: map<nat, Cache>, session: nat, pos: nat, layers: nat): Cache
  {
    if session !in sessions || pos == 0 then Empty(layers) else sessions[session]
  }

  /** The mask and positions of a tree frame, on the cache it opens. */
  function TreeCall(stage: Stage, cache: Cache, pos: nat, hidden: seq<Hidden>, tpos: seq<int>,
                    parents: seq<int>): (p: Pass)
    requires stage.Valid() && |cache| == |stage.net.layers|
    requires Forest(parents) && |hidden| == |tpos| == |parents|
    ensures |p.hidden| == |hidden| && |p.cache| == |cache|
  {
    RunLayers(stage.net, stage.first, stage.last, cache, hidden, tpos, TreeMask(parents, pos))
  }

  /** A control frame on a session's entry. */
  function Controlled(sessions: map<nat, Cache>, session: nat, op: KvOp): map<nat, Cache>
    requires op.TreeKeep? && session in sessions ==>
      InRange(sessions[session], KeepIndices(op.prefixLen, op.slots))
  {
    if session !in sessions then sessions else
      match op
      case Free => sessions - {session}
      case Reset => sessions[session := Empty(|sessions[session]|)]
      case Truncate(n) => sessions[session := Truncated(sessions[session], n)]
      case TreeKeep(n, slots) => sessions[session := KeptPath(sessions[session], KeepIndices(n, slots))]
  }

  lemma ControlledKeepsOthers(sessions: map<nat, Cache>, session: nat, op: KvOp)
    requires !op.TreeKeep?
    ensures Controlled(sessions, session, op) - {session} == sessions - {session}
  {
  }

  /** A cache in which only the stage's own layers hold anything. */
  ghost predicate Owned(stage: Stage, cache: Cache)
  {
    && |cache| == |stage.net.layers|
    && forall k :: 0 <= k < |cache| && !(stage.first <= k < stage.last) ==> cache[k] == []
  }

  lemma RunStaysOwned(stage: Stage, cache: Cache, hs: seq<Hidden>, ps: seq<int>, rows: seq<seq<bool>>)
    requires stage.Valid() && Owned(stage, cache) && |hs| == |ps| == |rows|
    ensures Owned(stage, RunLayers(stage.net, stage.first, stage.last, cache, hs, ps, rows).cache)
  {
    RunLayersFrame(stage.net, stage.first, stage.last, cache, cache, hs, ps, rows);
  }

  lemma OpenIsOwned(stage: Stage, sessions: map<nat, Cache>, session: nat, pos: nat)
    requires StoreOk(stage, sessions)
    ensures Owned(stage, OpenCache(sessions, session, pos, |stage.net.layers|))
  {
  }

  /** A stage without layers holds nothing, which is the cache of any tokens. */
  lemma IdleHolds(stage: Stage, cache: Cache, toks: seq<Token>)
    requires stage.Valid() && Owned(stage, cache) && stage.first == stage.last
    ensures Holds(stage.net, stage.first, stage.last, cache, toks)
  {
  }

  class Worker {
    const stage: Stage
    var sessions: map<nat, Cache>

    ghost predicate Valid()
      reads this
    {
      StoreOk(stage, sessions)
    }

    /** The session's entry is exactly the cache of having decoded `toks`. */
    ghost predicate Warm(session: nat, toks: seq<Token>)
      reads this
    {
      && stage.Valid() && session in sessions
      && Holds(stage.net, stage.first, stage.last, sessions[session], toks)
    }

    constructor (stage: Stage)
      requires stage.Valid()
      ensures Valid() && this.stage == stage && sessions == map[]
    {
      this.stage := stage;
      sessions := map[];
    }

    /** Get or create the session's entry. */
    method GetCache(session: nat, pos: nat) returns (cache: Cache)
      requires Valid()
      modifies this
      ensures Valid() && cache == OpenCache(old(sessions), session, pos, |stage.net.layers|)
      ensures sessions == old(sessions)[session := cache]
    {
      cache := if session in sessions && pos != 0 then sessions[session] else Empty(|stage.net.layers|);
      sessions := sessions[session := cache];
    }

    /** ACTIVATION: run this stage's layers on the rows, at consecutive positions from `pos`. */
    method Activation(session: nat, pos: nat, hidden: seq<Hidden>) returns (out: seq<Hidden>)
      requires Valid()
      modifies this
      ensures Valid()
      ensures var p := CausalCall(stage, OpenCache(old(sessions), session, pos, |stage.net.layers|), hidden, pos);
              out == p.hidden && sessions == old(sessions)[session := p.cache]
    {
      var cache := GetCache(session, pos);
      var kv := new StageKV(|stage.net.layers|);
      kv.layers := cache;
      RunStaysOwned(stage, cache, hidden, Positions(pos, |hidden|), CausalRows(SeqLength(cache), |hidden|));
      out := stage.Forward(hidden, Positions(pos, |hidden|), kv, None);
      sessions := sessions[session := kv.layers];
    }

    /** TREE_ACTIVATION: rebuild the mask from the parent pointers and run the nodes after the
        `pos` slots of the prefix. */
    method TreeActivation(session: nat, pos: nat, hidden: seq<Hidden>, tpos: seq<int>, parents: seq<int>)
      returns (out: seq<Hidden>)
      requires Valid() && Forest(parents) && |hidden| == |tpos| == |parents|
      modifies this
      ensures Valid()
      ensures var p := TreeCall(stage, OpenCache(old(sessions), session, pos, |stage.net.layers|),
                                pos, hidden, tpos, parents);
              out == p.hidden && sessions == old(sessions)[session := p.cache]
    {
      var cache := GetCache(session, pos);
      var rows := BuildTreeMask(parents, pos);
      var kv := new StageKV(|stage.net.layers|);
      kv.layers := cache;
      RunStaysOwned(stage, cache, hidden, tpos, rows);
      out := stage.Forward(hidden, tpos, kv, Some(rows));
      sessions := sessions[session := kv.layers];
    }

    /** KV_CTRL: on an unknown session every operation is a no-op. */
    method KvCtrl(session: nat, op: KvOp)
      requires Valid()
      requires op.TreeKeep? && session in sessions ==>
        InRange(sessions[session], KeepIndices(op.prefixLen, op.slots))
      modifies this
      ensures Valid() && sessions == Controlled(old(sessions), session, op)
    {
      if session in sessions {
        if op.Free? {
          sessions := sessions - {session};
        } else {
          var kv := new StageKV(|stage.net.layers|);
          kv.layers := sessions[session];
          match op {
            case TreeKeep(n, slots) => kv.KeepTreePath(n, slots);
            case Reset => kv.Reset();
            case Truncate(n) => kv.TruncateTo(n);
            case Free =>
          }
          sessions := sessions[session := kv.layers];
        }
      }
    }
  }

  ghost predicate StoreOk(stage: Stage, store: map<nat, Cache>)
  {
    stage.Valid() && forall s :: s in store ==> Owned(stage, store[s])
  }

  /** The session's entry is exactly the cache of `at`; a store without an entry stands at nothing. */
  ghost predicate StandsAt(stage: Stage, store: map<nat, Cache>, session: nat, at: seq<Token>)
  {
    && StoreOk(stage, store)
    && if session in store then Holds(stage.net, stage.first, stage.last, store[session], at) else at == []
  }

  /** Where a stage stands for a session, if that is known at all. */
  type Place = Option<seq<Token>>

  ghost predicate IsPlaced(stage: Stage, store: map<nat, Cache>, session: nat, place: Place)
  {
    StoreOk(stage, store) && (place.Some? ==> StandsAt(stage, store, session, place.value))
  }

  /** Where a control frame leaves a stage. */
  function PlaceAfter(place: Place, op: KvOp): Place
    requires !op.TreeKeep?
  {
    match op
    case Truncate(n) => if place.Some? then Some(CutTo(place.value, n)) else None
    case _ => Some([])
  }

  /** A sequence cut back to `n`, if it is longer. */
  function CutTo(at: seq<Token>, n: nat): seq<Token>
  {
    if n < |at| then at[..n] else at
  }

  /** A roll-back cuts back where the stage stands; a reset or a free leaves it at nothing. */
  lemma ControlStands(stage: Stage, store: map<nat, Cache>, session: nat, at: seq<Token>, op: KvOp)
    requires StandsAt(stage, store, session, at) && !op.TreeKeep?
    ensures StandsAt(stage, Controlled(store, session, op), session, if op.Truncate? then CutTo(at, op.length) else [])
  {
    if session in store {
      var cache := store[session];
      if op.Truncate? {
        if op.length < |at| {
          TruncateHolds(stage.net, stage.first, stage.last, cache, at, op.length);
        } else {
          assert Truncated(cache, op.length) == cache by {
            forall k | 0 <= k < |cache| ensures |cache[k]| <= op.length {
              if stage.first <= k < stage.last { assert Labelled(stage.net, k, cache[k], Prefixes(at)); }
            }
          }
        }
      } else if op.Reset? {
        EmptyHoldsNothing(stage.net, stage.first, stage.last);
      }
    }
  }

  lemma ControlPlaces(stage: Stage, store: map<nat, Cache>, session: nat, place: Place, op: KvOp)
    requires IsPlaced(stage, store, session, place) && !op.TreeKeep?
    ensures IsPlaced(stage, Controlled(store, session, op), session, PlaceAfter(place, op))
  {
    if place.Some? { ControlStands(stage, store, session, place.value, op); }
    EmptyHoldsNothing(stage.net, stage.first, stage.last);
  }

  /** The session's entry of a store is exactly the cache of `toks`. */
  ghost predicate StoreWarm(stage: Stage, store: map<nat, Cache>, session: nat, toks: seq<Token>)
  {
    stage.Valid() && session in store && Holds(stage.net, stage.first, stage.last, store[session], toks)
  }

  /** The session's entry of a store holds slots with these labels. */
  ghost predicate StoreCaches(stage: Stage, store: map<nat, Cache>, session: nat, lab: seq<Label>)
  {
    stage.Valid() && session in store && Caches(stage.net, stage.first, stage.last, store[session], lab)
  }

  /** The entry can take the frame: the slots it names exist. */
  ghost predicate Obeys(store: map<nat, Cache>, session: nat, op: KvOp)
  {
    op.TreeKeep? && session in store ==> InRange(store[session], KeepIndices(op.prefixLen, op.slots))
  }

  /** A control frame that takes slots labelled `lab` to the sequence `p`: a stage stands at `p` if and
      only if it got the frame, or has no layers, or there was nothing to drop. */
  lemma StandsIfReached(stage: Stage, store: map<nat, Cache>, session: nat, op: KvOp, lab: seq<Label>,
                        p: seq<Token>, got: bool)
    requires StoreCaches(stage, store, session, lab) && |p| <= |lab| && (|p| == |lab| ==> lab == Prefixes(p))
    requires Obeys(store, session, op) && StoreWarm(stage, Controlled(store, session, op), session, p)
    ensures StoreWarm(stage, if got then Controlled(store, session, op) else store, session, p)
            <==> got || stage.first == stage.last || |p| == |lab|
  {
    if !got && stage.first < stage.last {
      LabelledLength(stage.net, stage.first, stage.last, store[session], lab);
      if StoreWarm(stage, store, session, p) {
        HeldLength(stage.net, stage.first, stage.last, store[session], p);
      }
    }
  }

  /** A tree-keep along a chain of labelled slots is such a frame. */
  lemma KeepTakes(stage: Stage, store: map<nat, Cache>, session: nat, prefixLen: nat, accepted: seq<nat>,
                  lab: seq<Label>, p: Label)
    requires StoreCaches(stage, store, session, lab) && Chain(lab, KeepIndices(prefixLen, accepted), p)
    ensures var op := TreeKeep(prefixLen, accepted);
            Obeys(store, session, op) && StoreWarm(stage, Controlled(store, session, op), session, p)
  {
    CompactionIsLinear(stage.net, stage.first, stage.last, store[session], lab, KeepIndices(prefixLen, accepted), p);
  }

  lemma NothingToObey(store: map<nat, Cache>, session: nat, op: KvOp)
    requires session !in store
    ensures Obeys(store, session, op)
  {
  }

  lemma ObeyedIsInRange(store: map<nat, Cache>, session: nat, prefixLen: nat, accepted: seq<nat>)
    requires Obeys(store, session, TreeKeep(prefixLen, accepted))
    ensures session in store ==> InRange(store[session], KeepIndices(prefixLen, accepted))
  {
  }

  /** The cache opened for position |toks| holds `toks`, if the session was ready for it. */
  lemma OpenCacheHolds(stage: Stage, sessions: map<nat, Cache>, session: nat, toks: seq<Token>)
    requires stage.Valid()
    requires toks == [] ||
      (session in sessions && Holds(stage.net, stage.first, stage.last, sessions[session], toks))
    ensures Holds(stage.net, stage.first, stage.last,
                  OpenCache(sessions, session, |toks|, |stage.net.layers|), toks)
  {
    EmptyHoldsNothing(stage.net, stage.first, stage.last);
  }

  /** An activation on a ready session yields the true hidden rows and leaves it warm. */
  lemma ActivationContinues(stage: Stage, sessions: map<nat, Cache>, session: nat,
                            toks: seq<Token>, chunk: seq<Token>)
    requires stage.Valid()
    requires toks == [] ||
      (session in sessions && Holds(stage.net, stage.first, stage.last, sessions[session], toks))
    ensures var cache := OpenCache(sessions, session, |toks|, |stage.net.layers|);
            && |cache| == |stage.net.layers|
            && var p := CausalCall(stage, cache, Rows(stage.net, stage.first, toks, chunk), |toks|);
            && p.hidden == Rows(stage.net, stage.last, toks, chunk)
            && Holds(stage.net, stage.first, stage.last, p.cache, toks + chunk)
  {
    OpenCacheHolds(stage, sessions, session, toks);
    CausalCallHolds(stage, OpenCache(sessions, session, |toks|, |stage.net.layers|), toks, chunk);
  }

  /** A frame for position |toks| on a stage that stands at `toks`, or has no layers, yields the true
      rows and leaves it at `toks + chunk`; a frame for position 0 does so wherever the stage stands. */
  lemma PlacedContinues(stage: Stage, store: map<nat, Cache>, session: nat, place: Place,
                        toks: seq<Token>, chunk: seq<Token>)
    requires IsPlaced(stage, store, session, place)
    requires toks == [] || place == Some(toks) || stage.first == stage.last
    ensures var cache := OpenCache(store, session, |toks|, |stage.net.layers|);
            && |cache| == |stage.net.layers|
            && var p := CausalCall(stage, cache, Rows(stage.net, stage.first, toks, chunk), |toks|);
            && p.hidden == Rows(stage.net, stage.last, toks, chunk)
            && StandsAt(stage, store[session := p.cache], session, toks + chunk)
  {
    hide Rows, CausalCall;
    OpenIsOwned(stage, store, session, |toks|);
    if toks == [] || place == Some(toks) {
      ActivationContinues(stage, store, session, toks, chunk);
    } else {
      var cache := OpenCache(store, session, |toks|, |stage.net.layers|);
      IdleHolds(stage, cache, toks);
      CausalCallHolds(stage, cache, toks, chunk);
    }
  }

  /** The rows entering layer `k` for the nodes of a draft tree below `base`. */
  function TreeRows(net: Net, k: nat, base: seq<Token>, parents: seq<int>, toks: seq<Token>): (hs: seq<Hidden>)
    requires k <= |net.layers| && Forest(parents) && |toks| == |parents|
    ensures |hs| == |toks|
  {
    var news := TreeLabels(base, parents, toks);
    seq(|news|, i requires 0 <= i < |news| =>
      PathNonEmpty(base, parents, toks, i); Hid(net, k, news[i]))
  }

  lemma PathNonEmpty(base: seq<Token>, parents: seq<int>, toks: seq<Token>, i: nat)
    requires Forest(parents) && |toks| == |parents| && i < |parents|
    ensures TreeLabels(base, parents, toks)[i] != []
    ensures |TreeLabels(base, parents, toks)[i]| == |base| + |Path(parents, i)|
  {
  }

  /** A tree frame after a warm prefix: each node's row is that of decoding its own root path, and
      the slots it leaves are labelled with those paths. */
  lemma TreeCallOnLabels(stage: Stage, cache: Cache, base: seq<Token>, parents: seq<int>, toks: seq<Token>)
    requires stage.Valid() && Holds(stage.net, stage.first, stage.last, cache, base)
    requires Forest(parents) && |toks| == |parents|
    ensures var p := TreeCall(stage, cache, |base|, TreeRows(stage.net, stage.first, base, parents, toks),
                              TreePositions(|base|, parents), parents);
            && p.hidden == TreeRows(stage.net, stage.last, base, parents, toks)
            && Caches(stage.net, stage.first, stage.last, p.cache,
                      Prefixes(base) + TreeLabels(base, parents, toks))
  {
    var net, s, e := stage.net, stage.first, stage.last;
    var news := TreeLabels(base, parents, toks);
    var hs, ps := TreeRows(net, s, base, parents, toks), TreePositions(|base|, parents);
    forall i | 0 <= i < |news| ensures hs[i] == Hid(net, s, news[i]) && ps[i] == |news[i]| - 1 {
      PathNonEmpty(base, parents, toks, i);
    }
    TreeMasksChains(base, parents, toks);
    PassOnLabels(net, s, e, cache, Prefixes(base), hs, ps, TreeMask(parents, |base|), news,
                 TreeChains(|base|, parents));
    var p := TreeCall(stage, cache, |base|, hs, ps, parents);
    forall i | 0 <= i < |news| ensures p.hidden[i] == TreeRows(net, e, base, parents, toks)[i] {
      PathNonEmpty(base, parents, toks, i);
    }
  }
}
