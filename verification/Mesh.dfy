/** The live mesh: remote workers reached over hops that may fail, and the two ways of relaying an
    activation along a pinned route.

    A hop fails in one of two ways: before the worker has seen the frame, or after the worker has run
    it and appended to its cache, when only the reply is lost.  Which hops of a relay fail, and how,
    is an input of the relay. */
module MeshRelay {
  import opened Wrappers
  import opened Model
  import opened Attention
  import opened KV
  import opened Stages
  import opened Workers
  import opened Fates
  import ChainRoute
  import Topologies

  type NodeId = Topologies.NodeId

  // ----- what a relay along a route computes -----

  ghost predicate StoresOk(stages: seq<Stage>, stores: seq<map<nat, Cache>>)
  {
    |stages| == |stores| && forall i :: 0 <= i < |stages| ==> StoreOk(stages[i], stores[i])
  }

  /** The rows entering stage `k` of the route. */
  ghost function RouteHidden(stages: seq<Stage>, stores: seq<map<nat, Cache>>, session: nat, pos: nat,
                             hidden: seq<Hidden>, k: nat): seq<Hidden>
    requires StoresOk(stages, stores) && k <= |stages|
    decreases k
  {
    if k == 0 then hidden else
      var cache := OpenCache(stores[k - 1], session, pos, |stages[k - 1].net.layers|);
      assert StoreOk(stages[k - 1], stores[k - 1]);
      CausalCall(stages[k - 1], cache,
                 RouteHidden(stages, stores, session, pos, hidden, k - 1), pos).hidden
  }

  /** The cache stage `k` of the route is left with. */
  ghost function RouteCache(stages: seq<Stage>, stores: seq<map<nat, Cache>>, session: nat, pos: nat,
                            hidden: seq<Hidden>, k: nat): Cache
    requires StoresOk(stages, stores) && k < |stages|
  {
    assert StoreOk(stages[k], stores[k]);
    CausalCall(stages[k], OpenCache(stores[k], session, pos, |stages[k].net.layers|),
               RouteHidden(stages, stores, session, pos, hidden, k), pos).cache
  }

  /** Stage `k` of a route runs layers `[cuts[k], cuts[k + 1])` of the model. */
  ghost predicate RouteTiles(net: Net, cuts: seq<nat>, stages: seq<Stage>)
  {
    |cuts| == |stages| + 1 && forall k :: 0 <= k < |stages| ==> Is(stages[k], net, cuts[k], cuts[k + 1])
  }

  /** This store can take a frame for position |toks| of the session. */
  ghost predicate StoreReady(stage: Stage, store: map<nat, Cache>, session: nat, toks: seq<Token>)
  {
    stage.Valid() &&
    (toks == [] || (session in store && Holds(stage.net, stage.first, stage.last, store[session], toks)))
  }

  /** Along a route whose holders are all ready, a relay computes the true hidden rows and leaves
      every holder with the cache of the longer sequence. */
  lemma {:induction false} RouteContinues(net: Net, cuts: seq<nat>, stages: seq<Stage>,
                                          stores: seq<map<nat, Cache>>, session: nat,
                                          toks: seq<Token>, chunk: seq<Token>, k: nat)
    requires RouteTiles(net, cuts, stages) && StoresOk(stages, stores) && k <= |stages|
    requires cuts[0] <= |net.layers|
    requires forall i :: 0 <= i < |stages| ==> StoreReady(stages[i], stores[i], session, toks)
    ensures cuts[k] <= |net.layers|
    ensures RouteHidden(stages, stores, session, |toks|, Rows(net, cuts[0], toks, chunk), k)
            == Rows(net, cuts[k], toks, chunk)
    ensures k < |stages| ==>
              && Is(stages[k], net, cuts[k], cuts[k + 1])
              && Holds(net, cuts[k], cuts[k + 1],
                       RouteCache(stages, stores, session, |toks|, Rows(net, cuts[0], toks, chunk), k),
                       toks + chunk)
    decreases k
  {
    if k > 0 {
      RouteContinues(net, cuts, stages, stores, session, toks, chunk, k - 1);
      assert Is(stages[k - 1], net, cuts[k - 1], cuts[k]);
      assert StoreReady(stages[k - 1], stores[k - 1], session, toks);
      ActivationContinues(stages[k - 1], stores[k - 1], session, toks, chunk);
    }
    if k < |stages| {
      assert Is(stages[k], net, cuts[k], cuts[k + 1]);
      assert StoreReady(stages[k], stores[k], session, toks);
      ActivationContinues(stages[k], stores[k], session, toks, chunk);
    }
  }

  // ----- the control plane's routes -----

  /** The control plane as the relay sees it: which nodes serve which slot, which are not READY, and
      the route pinned for each session. */
  class RouteProvider {
    const mesh: map<NodeId, Worker>
    /** Slot `k` is layers `[cuts[k], cuts[k + 1])`. */
    const cuts: seq<nat>
    /** The slot each node is assigned to, whose layers it runs. */
    const slot: map<NodeId, nat>
    var pins: map<nat, seq<NodeId>>
    var down: set<NodeId>

    predicate Serves(id: NodeId, k: nat)
      requires k + 1 < |cuts|
    {
      && id in mesh && id in slot && slot[id] == k
      && mesh[id].stage.first == cuts[k] && mesh[id].stage.last == cuts[k + 1]
    }

    /** The READY holders of a slot when the nodes in `gone` are not READY. */
    function Holding(k: nat, gone: set<NodeId>): set<NodeId>
      requires k + 1 < |cuts|
    {
      set id | id in mesh && Serves(id, k) && id !in gone
    }

    /** Every slot has a READY holder when the nodes in `gone` are not READY. */
    predicate Covered(gone: set<NodeId>)
    {
      forall k :: 0 <= k < |cuts| - 1 ==> Holding(k, gone) != {}
    }

    /** The holder a session has pinned for a slot, while it is READY there. */
    predicate Keeps(session: nat, k: nat, id: NodeId)
      requires k + 1 < |cuts|
      reads this
    {
      session in pins && k < |pins[session]| && pins[session][k] == id && id in Holding(k, down)
    }

    predicate ValidRoute(route: seq<NodeId>)
    {
      && |route| + 1 == |cuts|
      && (forall k :: 0 <= k < |route| ==> Serves(route[k], k))
      && forall i, j :: 0 <= i < j < |route| ==> route[i] != route[j]
    }

    predicate AllReady(route: seq<NodeId>)
      reads this
    {
      forall k :: 0 <= k < |route| ==> route[k] !in down
    }

    /** A pinned route of READY holders is kept, and covers every slot. */
    lemma ReadyPinsAreKept(session: nat)
      requires session in pins && ValidRoute(pins[session]) && AllReady(pins[session])
      ensures Covered(down) && forall k :: 0 <= k < |pins[session]| ==> Keeps(session, k, pins[session][k])
    {
      forall k | 0 <= k < |pins[session]| ensures Keeps(session, k, pins[session][k]) && Holding(k, down) != {} {
        assert Serves(pins[session][k], k);
        assert pins[session][k] in Holding(k, down);
      }
    }

    /** A READY holder per slot, keeping every pinned holder that is still READY; none exactly when some
        slot has no READY holder.  Which holder replaces another is arbitrary. */
    method Acquire(session: nat) returns (r: Option<seq<NodeId>>)
      requires cuts != []
      modifies this
      ensures down == old(down)
      ensures r.Some? <==> Covered(down)
      ensures r.None? ==> pins == old(pins)
      ensures r.Some? ==> ValidRoute(r.value) && AllReady(r.value) && pins == old(pins)[session := r.value]
      ensures r.Some? ==> forall k, id :: 0 <= k < |r.value| && old(Keeps(session, k, id)) ==> r.value[k] == id
    {
      var route: seq<NodeId> := [];
      for k := 0 to |cuts| - 1
        invariant |route| == k && pins == old(pins) && down == old(down)
        invariant forall j :: 0 <= j < k ==> Holding(j, down) != {} && route[j] in Holding(j, down)
        invariant forall j, id :: 0 <= j < k && Keeps(session, j, id) ==> route[j] == id
      {
        var holders := Holding(k, down);
        if holders == {} {
          return None;
        }
        var id :| id in holders;
        if session in pins && k < |pins[session]| && pins[session][k] in holders {
          id := pins[session][k];
        }
        route := route + [id];
      }
      pins := pins[session := route];
      return Some(route);
    }

    method Release(session: nat)
      modifies this
      ensures pins == old(pins) - {session} && down == old(down)
    {
      pins := pins - {session};
    }

    method MarkSuspect(id: NodeId)
      modifies this
      ensures pins == old(pins) && down == old(down) + {id}
    {
      down := down + {id};
    }

    /** Nodes come and go on their own. */
    method Churn(now: set<NodeId>)
      modifies this
      ensures pins == old(pins) && down == now
    {
      down := now;
    }
  }

  // ----- the relay -----

  /** What a chained frame brings back to the hop that sent it. */
  datatype Reply =
    | Result(hidden: seq<Hidden>)
    | Error(host: seq<ChainRoute.byte>, port: int)
    | Lost

  class Mesh {
    const net: Net
    const provider: RouteProvider
    const workers: map<NodeId, Worker>
    /** Where each node is dialled, and its wire key. */
    const hops: map<NodeId, ChainRoute.Hop>
    /** Which node answers at an address. */
    const answers: map<(seq<ChainRoute.byte>, int), NodeId>

    ghost predicate Valid()
      reads workers.Values
    {
      && provider.mesh == workers && |provider.cuts| >= 2
      && (forall id :: id in workers ==> workers[id].Valid() && workers[id].stage.net == net)
      && forall a, b :: a in workers && b in workers && workers[a] == workers[b] ==> a == b
    }

    /** Every node has a proper address of its own. */
    ghost predicate Dialable()
    {
      && |provider.cuts| <= 256
      && forall id :: id in workers ==>
           && id in hops && ChainRoute.HopError(hops[id]).Ok?
           && Address(id) in answers && answers[Address(id)] == id
    }

    function Address(id: NodeId): (seq<ChainRoute.byte>, int)
      requires id in hops
    {
      (hops[id].host, hops[id].port)
    }

    ghost predicate OnRoute(route: seq<NodeId>)
    {
      provider.mesh == workers && provider.ValidRoute(route)
    }

    ghost function StagesOf(route: seq<NodeId>): (stages: seq<Stage>)
      requires OnRoute(route)
      ensures |stages| == |route|
    {
      seq(|route|, k requires 0 <= k < |route| =>
        assert provider.Serves(route[k], k); workers[route[k]].stage)
    }

    ghost function StoresOf(route: seq<NodeId>): (stores: seq<map<nat, Cache>>)
      requires OnRoute(route)
      reads workers.Values
      ensures |stores| == |route|
    {
      seq(|route|, k requires 0 <= k < |route| reads workers.Values =>
        assert provider.Serves(route[k], k); workers[route[k]].sessions)
    }

    lemma RouteStoresOk(route: seq<NodeId>)
      requires Valid() && OnRoute(route)
      ensures StoresOk(StagesOf(route), StoresOf(route))
      ensures RouteTiles(net, provider.cuts, StagesOf(route))
    {
      forall k | 0 <= k < |route|
        ensures StoreOk(StagesOf(route)[k], StoresOf(route)[k])
        ensures Is(StagesOf(route)[k], net, provider.cuts[k], provider.cuts[k + 1])
      {
        assert provider.Serves(route[k], k);
      }
    }

    /** Only `session` changed anywhere, and nothing at all off the route. */
    twostate predicate OnlyOnRoute(session: nat, route: seq<NodeId>)
      reads workers.Values
    {
      forall id :: id in workers ==>
        && workers[id].sessions - {session} == old(workers[id].sessions) - {session}
        && (id !in route ==> workers[id].sessions == old(workers[id].sessions))
    }

    /** Holder `k` was left with what a relay of `hidden` over these stores leaves it. */
    ghost predicate Relayed(route: seq<NodeId>, stores: seq<map<nat, Cache>>, session: nat, pos: nat,
                            hidden: seq<Hidden>, k: nat)
      requires OnRoute(route) && k < |route| && StoresOk(StagesOf(route), stores)
      reads workers.Values
    {
      assert provider.Serves(route[k], k);
      workers[route[k]].sessions ==
        stores[k][session := RouteCache(StagesOf(route), stores, session, pos, hidden, k)]
    }

    constructor (net: Net, provider: RouteProvider, workers: map<NodeId, Worker>,
                 hops: map<NodeId, ChainRoute.Hop>, answers: map<(seq<ChainRoute.byte>, int), NodeId>)
      ensures this.net == net && this.provider == provider && this.workers == workers
      ensures this.hops == hops && this.answers == answers
    {
      this.net, this.provider, this.workers, this.hops, this.answers := net, provider, workers, hops, answers;
    }

    ghost function Stores(): (stores: map<NodeId, map<nat, Cache>>)
      reads workers.Values
      ensures stores.Keys == workers.Keys
    {
      map id | id in workers :: workers[id].sessions
    }

    /** Exactly the nodes in `reached` have run the control frame. */
    ghost predicate Commanded(was: map<NodeId, map<nat, Cache>>, reached: set<NodeId>, session: nat, op: KvOp)
      reads workers.Values
    {
      was.Keys == workers.Keys && forall id :: id in workers ==>
        && (id in reached ==> Obeys(was[id], session, op) && workers[id].sessions == Controlled(was[id], session, op))
        && (id !in reached ==> workers[id].sessions == was[id])
    }

    lemma NobodyCommanded(was: map<NodeId, map<nat, Cache>>, session: nat, op: KvOp)
      requires was == Stores()
      ensures Commanded(was, {}, session, op)
    {
    }

    lemma CommandedKeepsOthers(was: map<NodeId, map<nat, Cache>>, reached: set<NodeId>, session: nat, op: KvOp)
      requires Commanded(was, reached, session, op)
      ensures forall id :: id in workers ==> id in was && workers[id].sessions - {session} == was[id] - {session}
    {
    }

    /** A control frame gives no node an entry it did not have. */
    lemma CommandedStaysAway(was: map<NodeId, map<nat, Cache>>, reached: set<NodeId>, session: nat, op: KvOp)
      requires Commanded(was, reached, session, op)
      ensures forall id :: id in workers ==> id in was && (session !in was[id] ==> session !in workers[id].sessions)
    {
    }

    /** A control frame to every connected node, in any order.  The write to a node in `broken` fails
        and loses that connection; the node never learns of the frame.  With `strict` the first such
        failure ends the round. */
    method ControlAll(conns: set<NodeId>, session: nat, op: KvOp, strict: bool, broken: set<NodeId>)
      returns (ok: bool, left: set<NodeId>, ghost reached: set<NodeId>)
      requires Valid() && conns <= workers.Keys
      requires forall id :: id in conns ==> Obeys(workers[id].sessions, session, op)
      modifies workers.Values
      ensures Valid() && reached <= conns - broken
      ensures ok <==> !strict || conns !! broken
      ensures ok ==> left == conns - broken == reached
      ensures !ok ==> exists id :: id in conns && id in broken && left == conns - {id}
      ensures Commanded(old(Stores()), reached, session, op)
    {
      hide Valid, Commanded, Obeys, Midway;
      var todo := conns;
      left, reached := conns, {};
      ghost var was := Stores();
      NobodyCommanded(was, session, op);
      MidwayStart(conns, broken);
      while todo != {}
        invariant Valid() && todo <= conns && Midway(conns, todo, broken, strict, left, reached)
        invariant Commanded(was, reached, session, op)
        invariant forall id :: id in todo ==> id in was && Obeys(was[id], session, op)
        decreases |todo|
      {
        var id :| id in todo;
        MidwayNext(conns, todo, broken, strict, left, reached, id);
        todo := todo - {id};
        if id in broken {
          left := left - {id};
          if strict {
            return false, left, reached;
          }
        } else {
          Command(id, session, op, was, reached);
          reached := reached + {id};
        }
      }
      MidwayDone(conns, broken, strict, left, reached);
      return true, left, reached;
    }

    /** With `todo` still to be written to: who was reached, and which connections are left. */
    ghost predicate Midway(conns: set<NodeId>, todo: set<NodeId>, broken: set<NodeId>, strict: bool,
                           left: set<NodeId>, reached: set<NodeId>)
    {
      && reached == conns - todo - broken && left == conns - (broken - todo)
      && (strict ==> conns - todo !! broken)
    }

    lemma MidwayStart(conns: set<NodeId>, broken: set<NodeId>)
      ensures forall strict :: Midway(conns, conns, broken, strict, conns, {})
    {
    }

    lemma MidwayNext(conns: set<NodeId>, todo: set<NodeId>, broken: set<NodeId>, strict: bool,
                     left: set<NodeId>, reached: set<NodeId>, id: NodeId)
      requires Midway(conns, todo, broken, strict, left, reached) && id in todo && todo <= conns
      ensures id !in reached && reached <= conns - broken
      ensures id in broken && !strict ==> Midway(conns, todo - {id}, broken, strict, left - {id}, reached)
      ensures id in broken && strict ==> left == conns
      ensures id !in broken ==> Midway(conns, todo - {id}, broken, strict, left, reached + {id})
    {
      if id !in broken {
        assert conns - (todo - {id}) - broken == reached + {id};
        assert broken - (todo - {id}) == broken - todo;
        assert conns - (todo - {id}) == (conns - todo) + {id};
      } else {
        assert conns - (todo - {id}) - broken == reached;
        assert broken - (todo - {id}) == (broken - todo) + {id};
        assert strict ==> (conns - todo) * broken == {} && conns - (broken - todo) == conns;
      }
    }

    lemma MidwayDone(conns: set<NodeId>, broken: set<NodeId>, strict: bool, left: set<NodeId>, reached: set<NodeId>)
      requires Midway(conns, {}, broken, strict, left, reached)
      ensures left == conns - broken == reached && (strict ==> conns !! broken)
    {
      assert broken - {} == broken && conns - {} == conns;
    }

    method Command(id: NodeId, session: nat, op: KvOp, ghost was: map<NodeId, map<nat, Cache>>, ghost reached: set<NodeId>)
      requires Valid() && id in workers && id !in reached && Commanded(was, reached, session, op)
      requires Obeys(was[id], session, op)
      modifies workers[id]
      ensures Valid() && Commanded(was, reached + {id}, session, op)
    {
      hide Controlled, InRange, KeepIndices;
      workers[id].KvCtrl(session, op);
    }

    lemma NoHops(route: seq<NodeId>, stores: seq<map<nat, Cache>>, session: nat, pos: nat, hidden: seq<Hidden>)
      requires OnRoute(route) && StoresOk(StagesOf(route), stores)
      ensures RouteHidden(StagesOf(route), stores, session, pos, hidden, 0) == hidden
    {
    }

    /** What running holder `k` of the route amounts to. */
    lemma HopIsStep(route: seq<NodeId>, stores: seq<map<nat, Cache>>, session: nat, pos: nat,
                    hidden: seq<Hidden>, k: nat)
      requires OnRoute(route) && StoresOk(StagesOf(route), stores) && k < |route|
      ensures provider.Serves(route[k], k) && StoreOk(workers[route[k]].stage, stores[k])
      ensures var st := workers[route[k]].stage;
              var p := CausalCall(st, OpenCache(stores[k], session, pos, |st.net.layers|),
                                  RouteHidden(StagesOf(route), stores, session, pos, hidden, k), pos);
              && RouteHidden(StagesOf(route), stores, session, pos, hidden, k + 1) == p.hidden
              && RouteCache(StagesOf(route), stores, session, pos, hidden, k) == p.cache
    {
      assert provider.Serves(route[k], k);
      assert StoreOk(StagesOf(route)[k], stores[k]);
    }

    /** Holder `k` of the route runs its stage. */
    method RunHere(id: NodeId, session: nat, pos: nat, hidden: seq<Hidden>, ghost route: seq<NodeId>,
                   ghost stores: seq<map<nat, Cache>>, ghost start: seq<Hidden>, ghost k: nat)
      returns (out: seq<Hidden>)
      requires Valid() && OnRoute(route) && StoresOk(StagesOf(route), stores)
      requires k < |route| == |stores| && id == route[k] && id in workers
      requires hidden == RouteHidden(StagesOf(route), stores, session, pos, start, k)
      requires forall j :: k <= j < |route| ==> Untouched(route, stores, j)
      modifies workers.Values
      ensures Valid() && OnlyOnRoute(session, route)
      ensures out == RouteHidden(StagesOf(route), stores, session, pos, start, k + 1)
      ensures Relayed(route, stores, session, pos, start, k)
      ensures forall j :: 0 <= j < k && old(Relayed(route, stores, session, pos, start, j)) ==>
                Relayed(route, stores, session, pos, start, j)
      ensures forall j :: k < j < |route| ==> Untouched(route, stores, j)
      ensures forall w :: w in workers && w != id ==> workers[w].sessions == old(workers[w].sessions)
    {
      hide RouteHidden, RouteCache, CausalCall, StagesOf, StoresOk;
      assert Untouched(route, stores, k);
      HopIsStep(route, stores, session, pos, start, k);
      out := workers[id].Activation(session, pos, hidden);
      forall j | k < j < |route| ensures Untouched(route, stores, j) {
        assert old(Untouched(route, stores, j));
        assert route[j] != route[k];
      }
      forall j | 0 <= j < k && old(Relayed(route, stores, session, pos, start, j))
        ensures Relayed(route, stores, session, pos, start, j)
      {
        assert provider.Serves(route[j], j);
        assert route[j] != route[k];
      }
    }

    /** Holder `k` has run the frame, or is as it was. */
    ghost predicate Left(route: seq<NodeId>, stores: seq<map<nat, Cache>>, session: nat, pos: nat,
                         hidden: seq<Hidden>, k: nat, ran: bool)
      requires OnRoute(route) && k < |route| == |stores| && StoresOk(StagesOf(route), stores)
      reads workers.Values
    {
      if ran then Relayed(route, stores, session, pos, hidden, k) else Untouched(route, stores, k)
    }

    /** The star: a round trip per holder, up to the first whose reply is missed.  That one has
        advanced exactly if only its reply was lost, and nothing behind it has. */
    method Star(session: nat, pos: nat, hidden: seq<Hidden>, route: seq<NodeId>, fates: seq<Fate>,
                ghost stores: seq<map<nat, Cache>>) returns (r: Option<seq<Hidden>>, failed: nat)
      requires Valid() && OnRoute(route) && stores == StoresOf(route)
      requires StoresOk(StagesOf(route), stores)
      modifies workers.Values
      ensures Valid() && OnlyOnRoute(session, route)
      ensures failed == FirstLost(fates, 0, |route|) && (r.Some? <==> failed == |route|)
      ensures r.Some? ==> RelayedAll(route, stores, session, pos, hidden, r.value)
      ensures forall k :: 0 <= k < |route| ==>
                Left(route, stores, session, pos, hidden, k, Runs(false, fates, |route|, k))
    {
      hide RouteHidden, RouteCache, CausalCall, StagesOf, StoresOk, Relayed;
      var out := hidden;
      NoHops(route, stores, session, pos, hidden);
      for i := 0 to |route|
        invariant Valid() && OnlyOnRoute(session, route)
        invariant out == RouteHidden(StagesOf(route), stores, session, pos, hidden, i)
        invariant forall k :: 0 <= k < i ==> FateAt(fates, k) == Answered
        invariant forall k :: 0 <= k < i ==> Relayed(route, stores, session, pos, hidden, k)
        invariant forall k :: i <= k < |route| ==> Untouched(route, stores, k)
      {
        assert provider.Serves(route[i], i);
        if FateAt(fates, i) == LostBefore {
          return None, i;
        }
        out := RunHere(route[i], session, pos, out, route, stores, hidden, i);
        if FateAt(fates, i) == LostAfter {
          return None, i;
        }
      }
      return Some(out), |route|;
    }

    /** Every holder of the route, and the caller, have what a relay of `hidden` gives them. */
    ghost predicate RelayedAll(route: seq<NodeId>, stores: seq<map<nat, Cache>>, session: nat, pos: nat,
                               hidden: seq<Hidden>, out: seq<Hidden>)
      requires OnRoute(route) && StoresOk(StagesOf(route), stores)
      reads workers.Values
    {
      && out == RouteHidden(StagesOf(route), stores, session, pos, hidden, |route|)
      && forall k :: 0 <= k < |route| ==> Relayed(route, stores, session, pos, hidden, k)
    }

    ghost predicate Untouched(route: seq<NodeId>, stores: seq<map<nat, Cache>>, k: nat)
      requires OnRoute(route) && k < |route| == |stores|
      reads workers.Values
    {
      assert provider.Serves(route[k], k);
      workers[route[k]].sessions == stores[k]
    }

    // ----- the chain -----

    predicate HaveHops(route: seq<NodeId>)
    {
      forall k :: 0 <= k < |route| ==> route[k] in hops
    }

    function HopsOf(route: seq<NodeId>): (hs: seq<ChainRoute.Hop>)
      requires HaveHops(route)
      ensures |hs| == |route|
    {
      seq(|route|, k requires 0 <= k < |route| => hops[route[k]])
    }

    lemma RouteDialable(route: seq<NodeId>)
      requires OnRoute(route) && Dialable() && |provider.cuts| >= 2
      ensures HaveHops(route) && forall k :: 0 <= k <= |route| ==> ChainRoute.Encodable(HopsOf(route[k..]))
      ensures forall k :: 0 <= k < |route| ==>
                Address(route[k]) in answers && answers[Address(route[k])] == route[k]
    {
      forall k | 0 <= k < |route|
        ensures route[k] in hops && ChainRoute.HopError(hops[route[k]]).Ok?
        ensures Address(route[k]) in answers && answers[Address(route[k])] == route[k]
      {
        assert provider.Serves(route[k], k);
      }
    }

    /** The head of a route and the hops downstream of it. */
    method HeadAndRoute(route: seq<NodeId>) returns (head: NodeId, downstream: seq<ChainRoute.Hop>)
      requires route != [] && HaveHops(route)
      ensures head == route[0] && downstream == HopsOf(route[1..])
    {
      head, downstream := route[0], [];
      for i := 1 to |route|
        invariant downstream == HopsOf(route[1..])[..i - 1]
      {
        downstream := downstream + [hops[route[i]]];
      }
    }

    /** Decode the header at holder `k`, pop the next hop, encode the rest for it. */
    method NextFrame(header: seq<ChainRoute.byte>, ghost route: seq<NodeId>, ghost k: nat)
      returns (tail: bool, addr: (seq<ChainRoute.byte>, int), shorter: seq<ChainRoute.byte>)
      requires Dialable() && OnRoute(route) && k < |route| && HaveHops(route) && |provider.cuts| >= 2
      requires ChainRoute.Encodable(HopsOf(route[k + 1..])) && header == ChainRoute.RouteBytes(HopsOf(route[k + 1..]))
      ensures tail <==> k + 1 == |route|
      ensures !tail ==> addr == Address(route[k + 1]) && addr in answers && answers[addr] == route[k + 1]
      ensures !tail ==> ChainRoute.Encodable(HopsOf(route[k + 2..])) && shorter == ChainRoute.RouteBytes(HopsOf(route[k + 2..]))
    {
      hide ChainRoute.RouteBytes, ChainRoute.Encodable, ChainRoute.Decoded;
      var r := ChainRoute.DecodeRoute(header);
      ghost var down := HopsOf(route[k + 1..]);
      assert r == Ok((down, [])) by {
        ChainRoute.DecodeEncode(down, []);
        assert header + [] == header;
      }
      var (next, remaining) := ChainRoute.PopNext(r.value.0);
      if next == [] {
        return true, ([], 0), [];
      }
      assert next[0] == hops[route[k + 1]] && remaining == HopsOf(route[k + 2..]);
      RouteDialable(route);
      var enc := ChainRoute.EncodeRoute(remaining);
      return false, (next[0].host, next[0].port), enc.value;
    }

    /** A chain frame at holder `k`: run the stage, forward to the next hop with the shortened
        route, bubble its reply up; a hop that does not answer is reported by its predecessor.  The
        hop reported is the first whose predecessor missed the reply, and every worker up to the
        first that never saw the frame has run it. */
    method ChainHop(header: seq<ChainRoute.byte>, id: NodeId, session: nat, pos: nat, hidden: seq<Hidden>,
                    fates: seq<Fate>, ghost route: seq<NodeId>, ghost stores: seq<map<nat, Cache>>,
                    ghost start: seq<Hidden>, k: nat)
      returns (reply: Reply)
      requires Valid() && Dialable() && OnRoute(route) && StoresOk(StagesOf(route), stores)
      requires k < |route| == |stores| && id == route[k] && HaveHops(route)
      requires hidden == RouteHidden(StagesOf(route), stores, session, pos, start, k)
      requires forall j :: k <= j < |route| ==> Untouched(route, stores, j)
      requires ChainRoute.Encodable(HopsOf(route[k + 1..])) && header == ChainRoute.RouteBytes(HopsOf(route[k + 1..]))
      modifies workers.Values
      ensures Valid() && OnlyOnRoute(session, route)
      ensures forall w :: w in workers && w !in route[k..] ==> workers[w].sessions == old(workers[w].sessions)
      ensures var f := FirstLost(fates, k, |route|);
              match reply
              case Lost => f == k
              case Error(host, port) => k < f < |route| && (host, port) == Address(route[f])
              case Result(out) => f == |route| && out == RouteHidden(StagesOf(route), stores, session, pos, start, |route|)
      ensures forall j :: k <= j < |route| ==>
                Left(route, stores, session, pos, start, j, Seen(fates, k, |route|, j))
      ensures forall j :: 0 <= j < k && old(Relayed(route, stores, session, pos, start, j)) ==>
                Relayed(route, stores, session, pos, start, j)
      decreases |route| - k
    {
      hide RouteHidden, RouteCache, CausalCall, StagesOf, StoresOk, Dialable, HopsOf, Relayed, FateAt,
        FirstLost, FirstUnseen, ChainRoute.RouteBytes, ChainRoute.Encodable;
      ScheduleStep(fates, k, |route|);
      if FateAt(fates, k) == LostBefore {
        return Lost;
      }
      assert provider.Serves(route[k], k);
      var out := RunHere(id, session, pos, hidden, route, stores, start, k);
      var tail, addr, shorter := NextFrame(header, route, k);
      if tail {
        reply := Result(out);
      } else {
        reply := ChainHop(shorter, answers[addr], session, pos, out, fates, route, stores, start, k + 1);
        if reply.Lost? {
          reply := Error(addr.0, addr.1);
        }
      }
      forall j | k <= j < |route| ensures Left(route, stores, session, pos, start, j, Seen(fates, k, |route|, j)) {
        if j > k { assert Left(route, stores, session, pos, start, j, Seen(fates, k + 1, |route|, j)); }
      }
      if FateAt(fates, k) == LostAfter {
        return Lost;
      }
    }

    /** The route node dialled at this address, if any. */
    method SuspectByEndpoint(addr: (seq<ChainRoute.byte>, int), route: seq<NodeId>) returns (suspect: Option<NodeId>)
      requires HaveHops(route)
      ensures suspect.Some? ==> exists k :: 0 <= k < |route| && suspect.value == route[k] && Address(route[k]) == addr
                                  && forall j :: 0 <= j < k ==> Address(route[j]) != addr
      ensures suspect.None? ==> forall k :: 0 <= k < |route| ==> Address(route[k]) != addr
    {
      for i := 0 to |route|
        invariant forall k :: 0 <= k < i ==> Address(route[k]) != addr
      {
        if Address(route[i]) == addr {
          return Some(route[i]);
        }
      }
      return None;
    }

    /** With addresses of their own, the node found at a hop's address is that hop. */
    lemma SuspectIsFailed(route: seq<NodeId>, f: nat, suspect: Option<NodeId>)
      requires Dialable() && OnRoute(route) && |provider.cuts| >= 2 && f < |route| && HaveHops(route)
      requires suspect.Some? ==> exists k :: 0 <= k < |route| && suspect.value == route[k] && Address(route[k]) == Address(route[f])
      requires suspect.None? ==> forall k :: 0 <= k < |route| ==> Address(route[k]) != Address(route[f])
      ensures suspect == Some(route[f])
    {
      RouteDialable(route);
    }

    /** The chain: one frame to the head, forwarded hop by hop.  On success it gives the caller the
        rows, and every holder the cache, that the star gives them on the same route.  On a failure
        the suspect is exactly the first holder whose reply its predecessor missed, as in the star. */
    method Chain(session: nat, pos: nat, hidden: seq<Hidden>, route: seq<NodeId>, fates: seq<Fate>,
                 ghost stores: seq<map<nat, Cache>>)
      returns (r: Option<seq<Hidden>>, suspect: Option<NodeId>)
      requires Valid() && Dialable() && OnRoute(route) && stores == StoresOf(route)
      requires StoresOk(StagesOf(route), stores)
      modifies workers.Values
      ensures Valid() && OnlyOnRoute(session, route)
      ensures var f := FirstLost(fates, 0, |route|);
              && (r.Some? <==> f == |route|)
              && suspect == if f < |route| then Some(route[f]) else None
      ensures r.Some? ==> RelayedAll(route, stores, session, pos, hidden, r.value)
      ensures forall k :: 0 <= k < |route| ==>
                Left(route, stores, session, pos, hidden, k, Runs(true, fates, |route|, k))
    {
      hide RouteHidden, RouteCache, CausalCall, StagesOf, StoresOk, HopsOf, Relayed, Left, FateAt, FirstLost,
        FirstUnseen, Dialable, ChainRoute.RouteBytes, ChainRoute.Encodable;
      RouteDialable(route);
      var head, downstream := HeadAndRoute(route);
      var header := ChainRoute.EncodeRoute(downstream);
      NoHops(route, stores, session, pos, hidden);
      assert forall k :: 0 <= k < |route| ==> Untouched(route, stores, k);
      var reply := ChainHop(header.value, head, session, pos, hidden, fates, route, stores, hidden, 0);
      assert forall k :: 0 <= k < |route| ==>
          Left(route, stores, session, pos, hidden, k, Seen(fates, 0, |route|, k));
      ChainLeft(route, stores, session, pos, hidden, fates);
      r := if reply.Result? then Some(reply.hidden) else None;
      suspect := Blame(reply, head, route, FirstLost(fates, 0, |route|));
    }

    /** Who a reply to the head's sender puts the blame on. */
    method Blame(reply: Reply, head: NodeId, route: seq<NodeId>, ghost f: nat) returns (suspect: Option<NodeId>)
      requires Dialable() && OnRoute(route) && |provider.cuts| >= 2 && HaveHops(route)
      requires f <= |route| && route != [] && head == route[0]
      requires match reply
               case Lost => f == 0
               case Error(host, port) => f < |route| && (host, port) == Address(route[f])
               case Result(_) => f == |route|
      ensures suspect == if f < |route| then Some(route[f]) else None
    {
      match reply
      case Result(_) => return None;
      case Lost => return Some(head);
      case Error(host, port) =>
        suspect := SuspectByEndpoint((host, port), route);
        SuspectIsFailed(route, f, suspect);
    }

    /** What a chained frame leaves, in the terms it shares with the star. */
    lemma ChainLeft(route: seq<NodeId>, stores: seq<map<nat, Cache>>, session: nat, pos: nat, hidden: seq<Hidden>,
                    fates: seq<Fate>)
      requires OnRoute(route) && |route| == |stores| && StoresOk(StagesOf(route), stores)
      requires forall k :: 0 <= k < |route| ==>
                 Left(route, stores, session, pos, hidden, k, Seen(fates, 0, |route|, k))
      ensures forall k :: 0 <= k < |route| ==>
                Left(route, stores, session, pos, hidden, k, Runs(true, fates, |route|, k))
      ensures FirstLost(fates, 0, |route|) == |route| ==>
                forall k :: 0 <= k < |route| ==> Relayed(route, stores, session, pos, hidden, k)
    {
      hide Relayed, Untouched, StagesOf, StoresOk, FirstLost, FirstUnseen;
      if FirstLost(fates, 0, |route|) == |route| { AnsweredIsSeen(fates, 0, |route|); }
      forall k | 0 <= k < |route|
        ensures Left(route, stores, session, pos, hidden, k, Runs(true, fates, |route|, k))
        ensures FirstLost(fates, 0, |route|) == |route| ==> Relayed(route, stores, session, pos, hidden, k)
      {
        assert Left(route, stores, session, pos, hidden, k, Seen(fates, 0, |route|, k));
      }
    }
  }
}
