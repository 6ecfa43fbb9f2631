/** Generation over the live mesh: pinned routes, mid-session failover with re-prefill, and
    resuming a session on another orchestrator. */
module Failover {
  import opened Wrappers
  import opened Model
  import opened Attention
  import opened KV
  import opened Stages
  import opened Trees
  import opened Workers
  import opened Coordinators
  import opened MeshRelay
  import opened Fates

  /** What a relay or a generation comes to: a value, a wire error, or an uncovered slot. */
  datatype Outcome<+T> = Done(value: T) | WireFailed | NoCoverage

  /** The head-side state a generation can be resumed from. */
  datatype HeadState = HeadState(out: seq<Token>, seqIds: seq<Token>, nxt: Token, cur: nat)

  /** One try at a relay: who is not READY when it begins, and the fates of the re-prefill before it and of
      the relay itself. */
  datatype Attempt = Attempt(down: set<NodeId>, refill: seq<Fate>, fates: seq<Fate>)

  /** What the mesh does to one step of a generation: its tries, and who is not READY after it. */
  datatype Step = Step(attempts: seq<Attempt>, churn: set<NodeId>)

  /** Behind the end of a schedule all is well. */
  function AttemptAt(attempts: seq<Attempt>, k: nat): Attempt
  {
    if k < |attempts| then attempts[k] else Attempt({}, [], [])
  }

  function StepAt(steps: seq<Step>, i: nat): Step
  {
    if i < |steps| then steps[i] else Step([], {})
  }

  /** How often a lost relay is tried again. */
  const MAX_FAILOVERS: nat := 2

  class HeadNode {
    const net: Net
    const mesh: Mesh
    /** The co-located stage, which a head-only orchestrator does not have. */
    const hasLocal: bool
    const local: Worker
    const chain: bool
    const eos: set<Token>
    /** The route pinned for each session. */
    var routes: map<nat, seq<NodeId>>
    /** The nodes this head has an open connection to. */
    var conns: set<NodeId>

    constructor (net: Net, mesh: Mesh, hasLocal: bool, local: Worker, chain: bool, eos: set<Token>)
      ensures this.net == net && this.mesh == mesh && this.hasLocal == hasLocal && this.local == local
      ensures this.chain == chain && this.eos == eos
      ensures routes == map[] && conns == {}
    {
      this.net, this.mesh, this.hasLocal, this.local := net, mesh, hasLocal, local;
      this.chain, this.eos := chain, eos;
      routes, conns := map[], {};
    }

    ghost predicate Valid()
      reads this, local, mesh.workers.Values
    {
      mesh.Valid() && OwnValid()
    }

    ghost predicate OwnValid()
      reads this, local
    {
      && mesh.net == net && (chain ==> mesh.Dialable())
      && |mesh.provider.cuts| >= 2 && mesh.provider.mesh == mesh.workers
      && local.Valid() && local !in mesh.workers.Values
      && local.stage.net == net && local.stage.first == 0
      && local.stage.last == mesh.provider.cuts[0] && (!hasLocal ==> mesh.provider.cuts[0] == 0)
      && mesh.provider.cuts[|mesh.provider.cuts| - 1] == |net.layers|
      && (forall s :: s in routes ==> mesh.OnRoute(routes[s])) && conns <= mesh.workers.Keys
    }

    /** The session's pinned holders hold exactly the cache of `toks`, and the control plane pins
        the same route. */
    ghost predicate PinnedWarm(session: nat, toks: seq<Token>)
      reads this, mesh.workers.Values, mesh.provider
    {
      && session in routes && mesh.OnRoute(routes[session])
      && HoldersWarm(routes[session], session, toks)
      && session in mesh.provider.pins && mesh.provider.pins[session] == routes[session]
    }

    /** The session's pinned holders and the local stage, if any, hold exactly the cache of `toks`. */
    ghost predicate Warm(session: nat, toks: seq<Token>)
      reads this, local, mesh.workers.Values, mesh.provider
    {
      (hasLocal ==> local.Warm(session, toks)) && PinnedWarm(session, toks)
    }

    /** This head has no pin of its own, but the control plane pins a route whose holders are all
        READY and hold exactly the cache of `toks`, and there is no local stage to miss. */
    ghost predicate Reattachable(session: nat, toks: seq<Token>)
      reads this, mesh.workers.Values, mesh.provider
    {
      && !hasLocal && session !in routes && session in mesh.provider.pins
      && mesh.OnRoute(mesh.provider.pins[session]) && mesh.provider.AllReady(mesh.provider.pins[session])
      && HoldersWarm(mesh.provider.pins[session], session, toks)
    }

    /** A frame for position |toks| of the session continues the decode of `toks`. */
    ghost predicate Ready(session: nat, toks: seq<Token>)
      reads this, local, mesh.workers.Values, mesh.provider
    {
      toks == [] || Warm(session, toks) || Reattachable(session, toks)
    }

    ghost predicate HoldersWarm(route: seq<NodeId>, session: nat, toks: seq<Token>)
      requires mesh.OnRoute(route)
      reads mesh.workers.Values
    {
      forall k :: 0 <= k < |route| ==> HolderWarm(route, k, session, toks)
    }

    ghost predicate HolderWarm(route: seq<NodeId>, k: nat, session: nat, toks: seq<Token>)
      requires mesh.OnRoute(route) && k < |route|
      reads mesh.workers.Values
    {
      assert mesh.provider.Serves(route[k], k);
      mesh.workers[route[k]].Warm(session, toks)
    }

    /** A relay through holders that are ready for `toks` yields the true rows. */
    lemma RelayedIsTrue(route: seq<NodeId>, stores: seq<map<nat, Cache>>, session: nat,
                        toks: seq<Token>, chunk: seq<Token>, out: seq<Hidden>)
      requires mesh.provider.cuts != [] && mesh.OnRoute(route)
      requires RouteTiles(net, mesh.provider.cuts, mesh.StagesOf(route))
      requires mesh.provider.cuts[0] <= |net.layers|
      requires StoresOk(mesh.StagesOf(route), stores)
      requires forall k :: 0 <= k < |route| ==>
        StoreReady(mesh.StagesOf(route)[k], stores[k], session, toks)
      requires mesh.RelayedAll(route, stores, session, |toks|,
                               Rows(net, mesh.provider.cuts[0], toks, chunk), out)
      ensures mesh.provider.cuts[|route|] <= |net.layers|
      ensures out == Rows(net, mesh.provider.cuts[|route|], toks, chunk)
    {
      RouteContinues(net, mesh.provider.cuts, mesh.StagesOf(route), stores, session, toks, chunk, |route|);
    }

    /** A holder that runs such a relay is left warm at `toks + chunk`, wherever the relay ends. */
    lemma RelayedIsWarm(route: seq<NodeId>, stores: seq<map<nat, Cache>>, session: nat,
                        toks: seq<Token>, chunk: seq<Token>, k: nat)
      requires mesh.provider.cuts != [] && mesh.OnRoute(route) && k < |route|
      requires RouteTiles(net, mesh.provider.cuts, mesh.StagesOf(route))
      requires mesh.provider.cuts[0] <= |net.layers|
      requires StoresOk(mesh.StagesOf(route), stores)
      requires forall j :: 0 <= j < |route| ==>
        StoreReady(mesh.StagesOf(route)[j], stores[j], session, toks)
      requires mesh.Relayed(route, stores, session, |toks|, Rows(net, mesh.provider.cuts[0], toks, chunk), k)
      ensures HolderWarm(route, k, session, toks + chunk)
    {
      var stages := mesh.StagesOf(route);
      assert mesh.provider.Serves(route[k], k);
      RouteContinues(net, mesh.provider.cuts, stages, stores, session, toks, chunk, k);
      assert Is(stages[k], net, mesh.provider.cuts[k], mesh.provider.cuts[k + 1]);
    }

    lemma RouteReady(route: seq<NodeId>, session: nat, toks: seq<Token>)
      requires mesh.Valid() && mesh.OnRoute(route) && (toks == [] || HoldersWarm(route, session, toks))
      ensures forall k :: 0 <= k < |route| ==>
                StoreReady(mesh.StagesOf(route)[k], mesh.StoresOf(route)[k], session, toks)
    {
      forall k | 0 <= k < |route|
        ensures StoreReady(mesh.StagesOf(route)[k], mesh.StoresOf(route)[k], session, toks)
      {
        assert mesh.provider.Serves(route[k], k);
        if toks != [] { assert HolderWarm(route, k, session, toks); }
      }
    }

    /** Nothing but `session` changed on any worker. */
    twostate predicate OthersKept(session: nat)
      reads mesh.workers.Values
    {
      forall id :: id in mesh.workers ==>
        mesh.workers[id].sessions - {session} == old(mesh.workers[id].sessions) - {session}
    }

    /** Nothing changed on any worker that is not on the route. */
    twostate predicate OffRouteKept(route: seq<NodeId>)
      reads mesh.workers.Values
    {
      forall id :: id in mesh.workers && id !in route ==> mesh.workers[id].sessions == old(mesh.workers[id].sessions)
    }

    /** Holder `k` has advanced to `toks`, or its store is as it was. */
    ghost predicate HolderLeft(route: seq<NodeId>, stores: seq<map<nat, Cache>>, k: nat, session: nat,
                               toks: seq<Token>, ran: bool)
      requires mesh.OnRoute(route) && k < |route| == |stores|
      reads mesh.workers.Values
    {
      if ran then HolderWarm(route, k, session, toks) else mesh.Untouched(route, stores, k)
    }

    /** Relay along a route, as a star or as a chain; on a failure, the node to suspect: exactly the
        first whose reply was missed.  `at` is the holder this head itself missed a reply from. */
    method AlongRoute(session: nat, pos: nat, hidden: seq<Hidden>, route: seq<NodeId>, fates: seq<Fate>,
                      ghost toks: seq<Token>, ghost chunk: seq<Token>)
      returns (out: Option<seq<Hidden>>, suspect: Option<NodeId>, at: nat)
      requires Valid() && pos == |toks| && mesh.OnRoute(route)
      requires toks == [] || HoldersWarm(route, session, toks)
      requires mesh.provider.cuts[0] <= |net.layers| && hidden == Rows(net, mesh.provider.cuts[0], toks, chunk)
      modifies mesh.workers.Values
      ensures Valid() && OthersKept(session) && OffRouteKept(route)
      ensures var f := FirstLost(fates, 0, |route|);
              && (out.Some? <==> f == |route|) && suspect == (if f < |route| then Some(route[f]) else None)
              && at <= |route| && (out.Some? <==> at == |route|) && (!chain ==> at == f)
      ensures out.Some? ==> out.value == Rows(net, |net.layers|, toks, chunk) && HoldersWarm(route, session, toks + chunk)
      ensures forall k :: 0 <= k < |route| ==>
                HolderLeft(route, old(mesh.StoresOf(route)), k, session, toks + chunk, Runs(chain, fates, |route|, k))
    {
      hide RouteHidden, RouteCache, Mesh.StagesOf, Mesh.Dialable, Rows, StoreReady, Runs, Mesh.Relayed, HolderWarm;
      ghost var stores := mesh.StoresOf(route);
      mesh.RouteStoresOk(route);
      RouteReady(route, session, toks);
      if chain {
        out, suspect := mesh.Chain(session, pos, hidden, route, fates, stores);
        at := if out.Some? then |route| else 0;
      } else {
        out, at := mesh.Star(session, pos, hidden, route, fates, stores);
        suspect := if at < |route| then Some(route[at]) else None;
      }
      forall k | 0 <= k < |route| && mesh.Relayed(route, stores, session, pos, hidden, k)
        ensures HolderWarm(route, k, session, toks + chunk)
      {
        RelayedIsWarm(route, stores, session, toks, chunk, k);
      }
      if out.Some? {
        RelayedIsTrue(route, stores, session, toks, chunk, out.value);
      }
      forall k | 0 <= k < |route|
        ensures HolderLeft(route, stores, k, session, toks + chunk, Runs(chain, fates, |route|, k))
      {
        assert mesh.Left(route, stores, session, pos, hidden, k, Runs(chain, fates, |route|, k));
      }
    }

    /** The session has a route, or at its first hop could get one. */
    predicate Routable(session: nat, pos: nat)
      reads this, mesh.provider
    {
      (session in routes && pos != 0) || mesh.provider.Covered(mesh.provider.down)
    }

    /** No reply of a relay over all slots is missed. */
    predicate Answers(fates: seq<Fate>)
    {
      var n := |mesh.provider.cuts|;
      n > 0 && FirstLost(fates, 0, n - 1) == n - 1
    }

    /** The session's route: the pinned one, or at its first hop a fresh one from the control plane. */
    method Pin(session: nat, pos: nat, ghost toks: seq<Token>) returns (got: bool)
      requires Valid() && pos == |toks| && (toks == [] || PinnedWarm(session, toks) || Reattachable(session, toks))
      modifies this`routes, mesh.provider
      ensures Valid() && mesh.provider.down == old(mesh.provider.down)
      ensures got <==> old(Routable(session, pos))
      ensures got ==> session in routes && mesh.OnRoute(routes[session]) && routes[session] != []
      ensures got ==> session in mesh.provider.pins && mesh.provider.pins[session] == routes[session]
      ensures got ==> toks == [] || HoldersWarm(routes[session], session, toks)
      ensures !got ==> routes == old(routes)
      ensures got ==> routes == old(routes)[session := routes[session]]
      ensures got && session in old(routes) && pos != 0 ==> routes == old(routes)
    {
      hide HoldersWarm, Mesh.Dialable, RouteProvider.Serves;
      got := true;
      if session !in routes || pos == 0 {
        if toks != [] { mesh.provider.ReadyPinsAreKept(session); }
        var r := mesh.provider.Acquire(session);
        if r.None? {
          return false;
        }
        assert toks != [] ==> r.value == old(mesh.provider.pins)[session];
        routes := routes[session := r.value];
      }
    }

    /** The open connections after a relay that misses the reply of hop `f`, or of none: a star dials
        every holder it reaches and drops the one that failed, a chain only ever dials the head, and
        drops it whichever hop failed. */
    function Connected(conns: set<NodeId>, route: seq<NodeId>, f: nat): set<NodeId>
      requires route != [] && f <= |route|
    {
      if chain then if f < |route| then conns - {route[0]} else conns + {route[0]}
      else
        var dialled := conns + set id | id in route[..f];
        if f < |route| then dialled - {route[f]} else dialled
    }

    /** A lost relay drops one connection, that to the holder that was written to in vain, and in a chain to
        the head; nobody else is forgotten, and nobody is connected who was not dialled. */
    lemma WhoIsConnected(conns: set<NodeId>, route: seq<NodeId>, f: nat, id: NodeId)
      requires route != [] && f <= |route|
      ensures var dialled := if chain then id == route[0] else exists k :: 0 <= k < f && route[k] == id;
              var dropped := f < |route| && id == if chain then route[0] else route[f];
              id in Connected(conns, route, f) <==> !dropped && (id in conns || (dialled && (chain ==> f == |route|)))
    {
    }

    /** Route through the mesh on the session's pinned route.  On a failure exactly the first holder
        whose reply was missed becomes suspect, the connection that failed is dropped, and so is the
        pin. */
    method RelayDynamic(session: nat, pos: nat, hidden: seq<Hidden>, fates: seq<Fate>,
                        ghost toks: seq<Token>, ghost chunk: seq<Token>)
      returns (r: Outcome<seq<Hidden>>, ghost route: seq<NodeId>)
      requires Valid() && pos == |toks| && (toks == [] || PinnedWarm(session, toks) || Reattachable(session, toks))
      requires mesh.provider.cuts[0] <= |net.layers| && hidden == Rows(net, mesh.provider.cuts[0], toks, chunk)
      modifies this, mesh.provider, mesh.workers.Values
      ensures Valid() && OthersKept(session)
      ensures r.NoCoverage? <==> !old(Routable(session, pos))
      ensures r.NoCoverage? ==>
                conns == old(conns) && mesh.provider.down == old(mesh.provider.down) && routes == old(routes)
      ensures !r.NoCoverage? ==>
                && mesh.OnRoute(route) && route != [] && OffRouteKept(route)
                && (session in old(routes) && pos != 0 ==> route == old(routes)[session])
                && var f := FirstLost(fates, 0, |route|);
                   && (r.Done? <==> f == |route|) && conns == Connected(old(conns), route, f)
                   && mesh.provider.down == old(mesh.provider.down) + (if f < |route| then {route[f]} else {})
                   && routes == if f < |route| then old(routes) - {session} else old(routes)[session := route]
      ensures !r.NoCoverage? ==> forall k :: 0 <= k < |route| ==>
                HolderLeft(route, old(mesh.StoresOf(route)), k, session, toks + chunk, Runs(chain, fates, |route|, k))
      ensures r.Done? ==> r.value == Rows(net, |net.layers|, toks, chunk) && PinnedWarm(session, toks + chunk)
    {
      hide Rows, HoldersWarm, HolderLeft, Connected, Mesh.Dialable, Mesh.Valid, OwnValid, Runs, FirstLost;
      var got := Pin(session, pos, toks);
      if !got {
        return NoCoverage, [];
      }
      route := routes[session];
      r := RelayPinned(session, pos, hidden, fates, toks, chunk);
    }

    /** The relay along the pinned route, and what becomes of the route on a failure. */
    method RelayPinned(session: nat, pos: nat, hidden: seq<Hidden>, fates: seq<Fate>,
                       ghost toks: seq<Token>, ghost chunk: seq<Token>)
      returns (r: Outcome<seq<Hidden>>)
      requires Valid() && pos == |toks| && session in routes && mesh.OnRoute(routes[session]) && routes[session] != []
      requires session in mesh.provider.pins && mesh.provider.pins[session] == routes[session]
      requires toks == [] || HoldersWarm(routes[session], session, toks)
      requires mesh.provider.cuts[0] <= |net.layers| && hidden == Rows(net, mesh.provider.cuts[0], toks, chunk)
      modifies this, mesh.provider, mesh.workers.Values
      ensures Valid() && OthersKept(session) && OffRouteKept(old(routes)[session]) && !r.NoCoverage?
      ensures var route := old(routes)[session];
              var f := FirstLost(fates, 0, |route|);
              && (r.Done? <==> f == |route|) && conns == Connected(old(conns), route, f)
              && mesh.provider.down == old(mesh.provider.down) + (if f < |route| then {route[f]} else {})
              && routes == if f < |route| then old(routes) - {session} else old(routes)
      ensures var route := old(routes)[session];
              forall k :: 0 <= k < |route| ==>
                HolderLeft(route, old(mesh.StoresOf(route)), k, session, toks + chunk, Runs(chain, fates, |route|, k))
      ensures r.Done? ==> r.value == Rows(net, |net.layers|, toks, chunk) && PinnedWarm(session, toks + chunk)
    {
      hide Rows, HoldersWarm, HolderLeft, Connected, Mesh.Dialable, Mesh.Valid, Runs, FirstLost;
      var route := routes[session];
      var out, suspect, at := AlongRoute(session, pos, hidden, route, fates, toks, chunk);
      SameConnections(conns, route, at, FirstLost(fates, 0, |route|));
      conns := Connected(conns, route, at);
      if out.None? {
        GiveUp(session, suspect);
        return WireFailed;
      }
      return Done(out.value);
    }

    /** Report the suspect and drop the pin. */
    method GiveUp(session: nat, suspect: Option<NodeId>)
      requires Valid()
      modifies this`routes, mesh.provider
      ensures Valid() && routes == old(routes) - {session} && mesh.provider.pins == old(mesh.provider.pins)
      ensures mesh.provider.down == old(mesh.provider.down) + (if suspect.Some? then {suspect.value} else {})
    {
      hide Mesh.Dialable, Mesh.Valid;
      if suspect.Some? {
        mesh.provider.MarkSuspect(suspect.value);
      }
      routes := routes - {session};
    }

    lemma SameConnections(open: set<NodeId>, route: seq<NodeId>, at: nat, f: nat)
      requires route != [] && at <= |route| && f <= |route| && (at == |route| <==> f == |route|)
      requires (!chain ==> at == f) && mesh.OnRoute(route)
      ensures Connected(open, route, at) == Connected(open, route, f)
      ensures open <= mesh.workers.Keys ==> Connected(open, route, f) <= mesh.workers.Keys
    {
      forall id | id in route ensures id in mesh.workers {
        var k :| 0 <= k < |route| && route[k] == id;
        assert mesh.provider.Serves(route[k], k);
      }
    }

    /** One relay: the local stage, then the mesh. */
    method Relay(session: nat, pos: nat, hidden: seq<Hidden>, fates: seq<Fate>,
                 ghost toks: seq<Token>, ghost chunk: seq<Token>)
      returns (r: Outcome<seq<Hidden>>)
      requires Valid() && pos == |toks| && Ready(session, toks) && hidden == Rows(net, 0, toks, chunk)
      modifies this, local, mesh.provider, mesh.workers.Values
      ensures Valid() && OthersKept(session) && local.sessions - {session} == old(local.sessions) - {session}
      ensures r.Done? ==> r.value == Rows(net, |net.layers|, toks, chunk) && Warm(session, toks + chunk)
      ensures r.Done? ==> routes[session] != [] && conns == Connected(old(conns), routes[session], |routes[session]|)
      ensures r.Done? ==> OffRouteKept(routes[session])
      ensures !hasLocal ==> local.sessions == old(local.sessions)
      ensures r.NoCoverage? <==> !old(Routable(session, pos))
      ensures !r.NoCoverage? ==> (r.Done? <==> Answers(fates))
      ensures r.Done? ==> mesh.provider.down == old(mesh.provider.down)
      ensures r.WireFailed? ==> session !in routes
    {
      hide Rows, HoldersWarm, HolderLeft, Connected, Mesh.Dialable, Mesh.Valid, RouteProvider.AllReady;
      var h := hidden;
      if hasLocal {
        h := LocalHop(session, pos, hidden, toks, chunk);
      }
      ghost var route;
      r, route := RelayDynamic(session, pos, h, fates, toks, chunk);
    }

    method LocalHop(session: nat, pos: nat, hidden: seq<Hidden>, ghost toks: seq<Token>, ghost chunk: seq<Token>)
      returns (out: seq<Hidden>)
      requires Valid() && pos == |toks| && (toks == [] || local.Warm(session, toks)) && hidden == Rows(net, 0, toks, chunk)
      modifies local
      ensures Valid() && local.sessions - {session} == old(local.sessions) - {session}
      ensures mesh.provider.cuts[0] <= |net.layers| && out == Rows(net, mesh.provider.cuts[0], toks, chunk)
      ensures local.Warm(session, toks + chunk)
    {
      hide Rows, Mesh.Dialable, Mesh.Valid;
      ActivationContinues(local.stage, local.sessions, session, toks, chunk);
      out := local.Activation(session, pos, hidden);
    }

    /** The session is freed: here, at the control plane, and at every node that is still connected. */
    ghost predicate Freed(session: nat)
      reads this, local, mesh.provider, mesh.workers.Values
    {
      && session !in routes && session !in mesh.provider.pins && session !in local.sessions
      && forall id :: id in conns && id in mesh.workers && session in mesh.workers[id].sessions ==>
           Blank(mesh.workers[id].sessions[session])
    }

    lemma CommandedIsFreed(was: map<NodeId, map<nat, Cache>>, session: nat)
      requires mesh.Commanded(was, conns, session, Reset)
      requires session !in routes && session !in mesh.provider.pins && session !in local.sessions
      ensures Freed(session)
    {
    }

    /** No connected node outside `route` holds anything of the session. */
    ghost predicate OthersFreed(session: nat, route: seq<NodeId>)
      reads this, mesh.workers.Values
    {
      forall id :: id in conns && id !in route && id in mesh.workers && session in mesh.workers[id].sessions ==>
        Blank(mesh.workers[id].sessions[session])
    }

    lemma FreedEverywhere(session: nat)
      requires Freed(session)
      ensures OthersFreed(session, [])
      ensures forall id :: id in conns && id in mesh.Stores() && session in mesh.Stores()[id] ==> Blank(mesh.Stores()[id][session])
    {
    }

    /** A relay along the new route touches and connects nobody else. */
    lemma StillFreed(session: nat, route: seq<NodeId>, was: map<NodeId, map<nat, Cache>>, open: set<NodeId>)
      requires route != [] && conns == Connected(open, route, |route|) && was.Keys == mesh.workers.Keys
      requires forall id :: id in mesh.workers && id !in route ==> mesh.workers[id].sessions == was[id]
      requires forall id :: id in open && id in was && session in was[id] ==> Blank(was[id][session])
      ensures OthersFreed(session, route)
    {
      hide Blank;
      assert route[..|route|] == route;
      forall id | id in conns && id !in route ensures id in open {}
    }

    /** Free a session: drop the local entry and the pin, release the route, and ask every connected
        node to reset; the write to a node in `broken` fails and loses its connection. */
    method ResetSessions(session: nat, broken: set<NodeId>)
      requires Valid()
      modifies this, local, mesh.provider, mesh.workers.Values
      ensures Valid() && OthersKept(session) && local.sessions - {session} == old(local.sessions) - {session}
      ensures session !in routes && session !in mesh.provider.pins
      ensures mesh.provider.down == old(mesh.provider.down)
      ensures conns == old(conns) - broken && mesh.Commanded(old(mesh.Stores()), conns, session, Reset)
      ensures Freed(session)
    {
      hide Mesh.Dialable, Mesh.Valid, Mesh.OnRoute, Mesh.Commanded, Freed;
      Unpin(session);
      ghost var was := mesh.Stores();
      var ok, left, reached := mesh.ControlAll(conns, session, Reset, false, broken);
      mesh.CommandedKeepsOthers(was, reached, session, Reset);
      conns := left;
      CommandedIsFreed(was, session);
    }

    /** Drop the local entry and the pin. */
    method Unpin(session: nat)
      requires Valid()
      modifies this`routes, local, mesh.provider
      ensures Valid() && local.sessions == old(local.sessions) - {session}
      ensures routes == old(routes) - {session} && mesh.provider.down == old(mesh.provider.down)
      ensures mesh.provider.pins == old(mesh.provider.pins) - {session}
    {
      hide Mesh.Dialable, Mesh.Valid, Mesh.OnRoute;
      local.KvCtrl(session, Free);
      routes := routes - {session};
      mesh.provider.Release(session);
    }

    // ----- control frames -----

    /** Holder `k` has no layers, or got the frame. */
    predicate InformedOrIdle(route: seq<NodeId>, reached: set<NodeId>, k: nat)
      requires k < |route| && k + 1 < |mesh.provider.cuts|
    {
      mesh.provider.cuts[k] == mesh.provider.cuts[k + 1] || route[k] in reached
    }

    /** A control frame that takes a session's slots from `lab` to `p`, to every connected node; a lost
        frame is swallowed unless `strict`. */
    method ControlMesh(session: nat, op: KvOp, strict: bool, broken: set<NodeId>, ghost lab: seq<Label>, ghost p: seq<Token>)
      returns (ok: bool, ghost reached: set<NodeId>)
      requires Valid() && session in routes && mesh.OnRoute(routes[session])
      requires |p| <= |lab| && (|p| == |lab| ==> lab == Prefixes(p))
      requires forall id :: id in conns ==> Obeys(mesh.workers[id].sessions, session, op)
      requires forall k :: 0 <= k < |routes[session]| ==>
                 Taken(routes[session], mesh.Stores(), session, op, lab, p, k)
      modifies this`conns, mesh.workers.Values
      ensures Valid() && OthersKept(session)
      ensures Announced(old(conns), conns, broken, strict, ok, reached)
      ensures mesh.Commanded(old(mesh.Stores()), reached, session, op)
      ensures HoldersWarm(routes[session], session, p) <==>
              |p| == |lab| || forall k :: 0 <= k < |routes[session]| ==> InformedOrIdle(routes[session], reached, k)
    {
      hide Mesh.Dialable, Mesh.Valid, Mesh.Commanded, HoldersWarm, Obeys, Taken;
      ghost var route, was := routes[session], mesh.Stores();
      var left;
      ok, left, reached := mesh.ControlAll(conns, session, op, strict, broken);
      conns := left;
      mesh.CommandedKeepsOthers(was, reached, session, op);
      ControlledRoute(route, was, reached, session, op, lab, p);
    }

    /** Who got a control frame and which connections are left: all but the broken ones, or with
        `strict`, on the first broken one, an error. */
    ghost predicate Announced(open: set<NodeId>, left: set<NodeId>, broken: set<NodeId>, strict: bool,
                              ok: bool, reached: set<NodeId>)
    {
      && reached <= open - broken && (ok <==> !strict || open !! broken)
      && (ok ==> left == open - broken == reached)
      && (!ok ==> exists id :: id in open && id in broken && left == open - {id})
    }

    /** Roll a session back to `length` slots, here and on the connected nodes.  The pinned route then
        stands at exactly the shorter sequence if and only if nothing was to be rolled back or every
        pinned holder with layers is a connected one that got the frame. */
    method KvTruncate(session: nat, length: nat, strict: bool, broken: set<NodeId>, ghost toks: seq<Token>)
      returns (ok: bool, ghost reached: set<NodeId>)
      requires Valid() && Warm(session, toks) && length <= |toks|
      modifies this`conns, local, mesh.workers.Values
      ensures Valid() && OthersKept(session) && local.sessions - {session} == old(local.sessions) - {session}
      ensures Announced(old(conns), conns, broken, strict, ok, reached)
      ensures mesh.Commanded(old(mesh.Stores()), reached, session, Truncate(length))
      ensures hasLocal ==> local.Warm(session, toks[..length])
      ensures PinnedWarm(session, toks[..length]) <==>
              length == |toks| || forall k :: 0 <= k < |routes[session]| ==> InformedOrIdle(routes[session], reached, k)
    {
      hide Mesh.Dialable, Mesh.Valid, Mesh.Commanded, HoldersWarm, Taken, Announced, InformedOrIdle;
      if hasLocal {
        TruncateHolds(local.stage.net, local.stage.first, local.stage.last, local.sessions[session], toks, length);
      }
      forall k | 0 <= k < |routes[session]|
        ensures Taken(routes[session], mesh.Stores(), session, Truncate(length), Prefixes(toks), toks[..length], k)
      {
        TruncateTakes(routes[session], mesh.Stores(), session, toks, length, k);
      }
      if length == |toks| { assert toks[..length] == toks; }
      ok, reached := ControlMesh(session, Truncate(length), strict, broken, Prefixes(toks), toks[..length]);
      local.KvCtrl(session, Truncate(length));
    }

    /** Reuse a warm session at its first `length` tokens: only if every pinned holder is connected, and
        only if every write of the roll-back succeeds.  What is then reused is exact. */
    method ReuseWarm(session: nat, held: nat, length: nat, broken: set<NodeId>, ghost toks: seq<Token>)
      returns (hit: bool)
      requires Valid() && Warm(session, toks) && length <= held == |toks|
      modifies this`conns, local, mesh.workers.Values
      ensures Valid() && OthersKept(session) && local.sessions - {session} == old(local.sessions) - {session}
      ensures hit <==>
              && (forall k :: 0 <= k < |routes[session]| ==> routes[session][k] in old(conns))
              && (length == |toks| || old(conns) !! broken)
      ensures hit ==> Warm(session, toks[..length])
    {
      hide Mesh.Dialable, Mesh.Valid, Mesh.Commanded, HoldersWarm;
      if exists k :: 0 <= k < |routes[session]| && routes[session][k] !in conns {
        return false;
      }
      hit := true;
      if length < held {
        ghost var reached;
        hit, reached := KvTruncate(session, length, true, broken, toks);
        assert hit ==> forall k :: 0 <= k < |routes[session]| ==> InformedOrIdle(routes[session], reached, k);
      } else {
        assert toks[..length] == toks;
      }
    }

    /** One speculative verify on the live mesh: relay a block, keep the session at `length`.  The rows
        are true, but the pinned route stands where the loop believes it does if and only if the whole
        block was kept or every holder with layers is connected and got the frame. */
    method Verify(session: nat, pos: nat, block: seq<Token>, length: nat, fates: seq<Fate>, broken: set<NodeId>,
                  ghost toks: seq<Token>)
      returns (r: Outcome<seq<Hidden>>)
      requires Valid() && Ready(session, toks) && pos == |toks| <= length <= |toks + block|
      modifies this, local, mesh.provider, mesh.workers.Values
      ensures Valid() && OthersKept(session) && local.sessions - {session} == old(local.sessions) - {session}
      ensures r.Done? ==> r.value == Rows(net, |net.layers|, toks, block) && session in routes
      ensures r.Done? ==> var route := routes[session];
                && mesh.OnRoute(route) && route != []
                && conns == Connected(old(conns), route, |route|) - broken
                && (PinnedWarm(session, (toks + block)[..length]) <==>
                      length == |toks + block| || forall k :: 0 <= k < |route| ==> InformedOrIdle(route, conns, k))
    {
      hide Rows, Warm, Ready, Embedded, Connected, InformedOrIdle, Valid, HoldersWarm;
      EmbeddedRows(net, toks, block);
      r := Relay(session, pos, Embedded(net, block), fates, toks, block);
      if r.Done? {
        WarmIsPinned(session, toks + block);
        var ok;
        ghost var reached;
        ok, reached := KvTruncate(session, length, false, broken, toks + block);
      }
    }

    /** Nodes come and go while a session stays where it is. */
    method Churn(now: set<NodeId>, ghost session: nat, ghost toks: seq<Token>)
      requires Valid()
      modifies mesh.provider
      ensures Valid() && mesh.provider.down == now && mesh.provider.pins == old(mesh.provider.pins)
      ensures old(Warm(session, toks)) ==> Warm(session, toks)
    {
      hide Mesh.Dialable, Mesh.Valid;
      mesh.provider.Churn(now);
    }

    /** Every holder of the pinned route is connected. */
    predicate Dialled(session: nat)
      reads this
    {
      session in routes && forall k :: 0 <= k < |routes[session]| ==> routes[session][k] in conns
    }

    /** After a relay a star is connected to the whole route. */
    lemma StarIsDialled(session: nat, open: set<NodeId>, toks: seq<Token>)
      requires !chain && Warm(session, toks) && routes[session] != []
      requires conns == Connected(open, routes[session], |routes[session]|)
      ensures Dialled(session)
    {
      assert routes[session][..|routes[session]|] == routes[session];
    }

    /** Every pinned holder with layers got the frame. */
    predicate AllInformed(session: nat, reached: set<NodeId>)
      requires session in routes && mesh.OnRoute(routes[session])
      reads this`routes
    {
      forall k :: 0 <= k < |routes[session]| ==> InformedOrIdle(routes[session], reached, k)
    }

    lemma InformedIff(session: nat, reached: set<NodeId>)
      requires session in routes && mesh.OnRoute(routes[session])
      ensures AllInformed(session, reached) <==>
              forall k :: 0 <= k < |routes[session]| ==> InformedOrIdle(routes[session], reached, k)
    {
    }

    lemma DialledAreInformed(session: nat)
      requires session in routes && mesh.OnRoute(routes[session])
      ensures Dialled(session) ==> AllInformed(session, conns)
    {
    }

    /** Unless it is strict, a control frame reaches exactly the nodes that stay connected. */
    lemma AllAnnounced(open: set<NodeId>, broken: set<NodeId>, ok: bool, reached: set<NodeId>)
      requires Announced(open, conns, broken, false, ok, reached)
      ensures reached == conns == open - broken
    {
    }

    lemma WarmIsPinned(session: nat, toks: seq<Token>)
      requires Warm(session, toks)
      ensures PinnedWarm(session, toks)
    {
    }

    /** A star is connected to every holder it has relayed through, so only a write that fails strands
        one. */
    lemma StarStrandsIff(open: set<NodeId>, route: seq<NodeId>, broken: set<NodeId>, k: nat)
      requires !chain && mesh.OnRoute(route) && k < |route|
      ensures InformedOrIdle(route, Connected(open, route, |route|) - broken, k) <==>
              mesh.provider.cuts[k] == mesh.provider.cuts[k + 1] || route[k] !in broken
    {
      assert route[..|route|] == route;
    }

    /** A chain is connected to the head, and to whatever it has dialled before: every other holder with
        layers is stranded, even if no write fails. */
    lemma ChainStrandsIff(open: set<NodeId>, route: seq<NodeId>, broken: set<NodeId>, k: nat)
      requires chain && mesh.OnRoute(route) && 0 < k < |route|
      ensures InformedOrIdle(route, Connected(open, route, |route|) - broken, k) <==>
              mesh.provider.cuts[k] == mesh.provider.cuts[k + 1] || (route[k] in open && route[k] !in broken)
    {
      assert route[0] != route[k];
    }

    /** Two holders with layers on a fresh chain: the roll-back of a rejected draft reaches the head and
        never the second. */
    lemma SecondOfChainStranded(route: seq<NodeId>)
      requires chain && mesh.OnRoute(route) && |route| == 2 && mesh.provider.cuts[1] < mesh.provider.cuts[2]
      ensures InformedOrIdle(route, Connected({}, route, 2), 0) && !InformedOrIdle(route, Connected({}, route, 2), 1)
    {
      ChainStrandsIff({}, route, {}, 1);
      assert Connected({}, route, 2) - {} == Connected({}, route, 2);
    }

    /** One tree verify on the live mesh, a round trip per holder of the pinned route.  A failure is
        raised as it is: no connection is dropped, nobody is suspected, the pin stays. */
    method RelayTree(session: nat, pos: nat, hidden: seq<Hidden>, tpos: seq<int>, parents: seq<int>,
                     fates: seq<Fate>, ghost base: seq<Token>, ghost toks: seq<Token>)
      returns (r: Option<seq<Hidden>>)
      requires Valid() && base != [] && Warm(session, base) && pos == |base|
      requires Forest(parents) && |toks| == |parents|
      requires hidden == TreeRows(net, 0, base, parents, toks) && tpos == TreePositions(pos, parents)
      modifies this`conns, local, mesh.workers.Values
      ensures Valid() && OthersKept(session) && local.sessions - {session} == old(local.sessions) - {session}
      ensures session in routes && mesh.OnRoute(routes[session]) && OffRouteKept(routes[session])
      ensures !hasLocal ==> local.sessions == old(local.sessions)
      ensures r.Some? <==> FirstLost(fates, 0, |routes[session]|) == |routes[session]|
      ensures r.Some? ==> r.value == TreeRows(net, |net.layers|, base, parents, toks)
      ensures r.Some? ==> conns == old(conns) + set id | id in routes[session]
      ensures r.Some? && hasLocal ==>
                StoreCaches(local.stage, local.sessions, session, Prefixes(base) + TreeLabels(base, parents, toks))
      ensures r.Some? ==> forall k :: 0 <= k < |routes[session]| ==>
                HolderCaches(routes[session], k, session, Prefixes(base) + TreeLabels(base, parents, toks))
    {
      hide TreeRows, TreePositions, TreeLabels, Mesh.Dialable, Mesh.Valid, StoreCaches, HolderCaches, HolderWarm,
        FirstLost;
      var route := routes[session];
      var out := hidden;
      if hasLocal {
        out := LocalTree(session, pos, hidden, tpos, parents, base, toks);
      }
      var at;
      r, at := TreeHops(route, session, pos, out, tpos, parents, fates, base, toks);
      conns := DialledUpTo(conns, route, at);
    }

    /** The connections open once the first `at` holders of the route have answered. */
    function DialledUpTo(open: set<NodeId>, route: seq<NodeId>, at: nat): (conns: set<NodeId>)
      requires at <= |route| && mesh.OnRoute(route)
      ensures open <= mesh.workers.Keys ==> conns <= mesh.workers.Keys
      ensures at == |route| ==> conns == open + set id | id in route
    {
      assert route[..|route|] == route;
      assert forall k :: 0 <= k < |route| ==> mesh.provider.Serves(route[k], k);
      open + set id | id in route[..at]
    }

    method TreeHops(route: seq<NodeId>, session: nat, pos: nat, hidden: seq<Hidden>, tpos: seq<int>,
                    parents: seq<int>, fates: seq<Fate>, ghost base: seq<Token>, ghost toks: seq<Token>)
      returns (r: Option<seq<Hidden>>, at: nat)
      requires Valid() && mesh.OnRoute(route) && base != [] && pos == |base|
      requires Forest(parents) && |toks| == |parents| && HoldersWarm(route, session, base)
      requires mesh.provider.cuts[0] <= |net.layers|
      requires hidden == TreeRows(net, mesh.provider.cuts[0], base, parents, toks) && tpos == TreePositions(pos, parents)
      modifies mesh.workers.Values
      ensures Valid() && OthersKept(session) && OffRouteKept(route) && at <= |route|
      ensures r.Some? <==> FirstLost(fates, 0, |route|) == |route|
      ensures r.Some? ==> at == |route| && r.value == TreeRows(net, |net.layers|, base, parents, toks)
      ensures r.Some? ==> forall k :: 0 <= k < |route| ==>
                HolderCaches(route, k, session, Prefixes(base) + TreeLabels(base, parents, toks))
    {
      hide TreeRows, TreePositions, TreeLabels, Mesh.Valid, Mesh.Dialable, HolderCaches, HolderWarm, FateAt, FirstLost;
      ghost var lab := Prefixes(base) + TreeLabels(base, parents, toks);
      var out := hidden;
      for i := 0 to |route|
        invariant Valid() && OthersKept(session) && OffRouteKept(route)
        invariant mesh.provider.cuts[i] <= |net.layers| && out == TreeRows(net, mesh.provider.cuts[i], base, parents, toks)
        invariant forall k :: 0 <= k < i ==> FateAt(fates, k) == Answered
        invariant forall k :: 0 <= k < i ==> HolderCaches(route, k, session, lab)
        invariant forall k :: i <= k < |route| ==> HolderWarm(route, k, session, base)
      {
        if FateAt(fates, i) == LostBefore {
          return None, i;
        }
        out := TreeHop(route, i, session, pos, out, tpos, parents, base, toks);
        if FateAt(fates, i) == LostAfter {
          return None, i;
        }
      }
      return Some(out), |route|;
    }

    method LocalTree(session: nat, pos: nat, hidden: seq<Hidden>, tpos: seq<int>, parents: seq<int>,
                     ghost base: seq<Token>, ghost toks: seq<Token>) returns (out: seq<Hidden>)
      requires Valid() && local.Warm(session, base) && pos == |base| > 0
      requires Forest(parents) && |toks| == |parents|
      requires hidden == TreeRows(net, 0, base, parents, toks) && tpos == TreePositions(pos, parents)
      modifies local
      ensures Valid() && local.sessions - {session} == old(local.sessions) - {session}
      ensures mesh.provider.cuts[0] <= |net.layers| && out == TreeRows(net, mesh.provider.cuts[0], base, parents, toks)
      ensures StoreCaches(local.stage, local.sessions, session, Prefixes(base) + TreeLabels(base, parents, toks))
    {
      hide TreeRows, TreePositions, TreeLabels, Mesh.Dialable, Mesh.Valid;
      TreeCallOnLabels(local.stage, local.sessions[session], base, parents, toks);
      out := local.TreeActivation(session, pos, hidden, tpos, parents);
    }

    /** A tree frame at holder `i`. */
    method TreeHop(route: seq<NodeId>, i: nat, session: nat, pos: nat, hidden: seq<Hidden>, tpos: seq<int>,
                   parents: seq<int>, ghost base: seq<Token>, ghost toks: seq<Token>) returns (out: seq<Hidden>)
      requires Valid() && mesh.OnRoute(route) && i < |route| && HolderWarm(route, i, session, base)
      requires base != [] && pos == |base| && Forest(parents) && |toks| == |parents|
      requires mesh.provider.cuts[i] <= |net.layers|
      requires hidden == TreeRows(net, mesh.provider.cuts[i], base, parents, toks) && tpos == TreePositions(pos, parents)
      modifies mesh.workers.Values
      ensures Valid() && OthersKept(session) && OffRouteKept([route[i]]) && mesh.provider.cuts[i + 1] <= |net.layers|
      ensures out == TreeRows(net, mesh.provider.cuts[i + 1], base, parents, toks)
      ensures HolderCaches(route, i, session, Prefixes(base) + TreeLabels(base, parents, toks))
      ensures forall k :: i < k < |route| && old(HolderWarm(route, k, session, base)) ==>
                HolderWarm(route, k, session, base)
      ensures forall k :: 0 <= k < i && old(HolderCaches(route, k, session, Prefixes(base) + TreeLabels(base, parents, toks))) ==>
                HolderCaches(route, k, session, Prefixes(base) + TreeLabels(base, parents, toks))
    {
      hide TreeRows, TreePositions, TreeLabels, Mesh.Dialable;
      assert mesh.provider.Serves(route[i], i);
      var w := mesh.workers[route[i]];
      TreeCallOnLabels(w.stage, w.sessions[session], base, parents, toks);
      out := w.TreeActivation(session, pos, hidden, tpos, parents);
      forall k | 0 <= k < |route| && k != i
        ensures mesh.provider.Serves(route[k], k) && mesh.workers[route[k]] != w
      {
        assert mesh.provider.Serves(route[k], k);
        assert route[k] != route[i];
      }
    }

    /** Keep the prefix and the accepted path of a draft tree, here and on the connected nodes.  The
        pinned route then stands at exactly the accepted path if and only if the whole tree was
        accepted or every pinned holder with layers is a connected one that got the frame. */
    method KvTreeKeep(session: nat, prefixLen: nat, accepted: seq<nat>, broken: set<NodeId>,
                      ghost lab: seq<Label>, ghost p: Label)
      returns (ghost reached: set<NodeId>)
      requires Valid() && Chain(lab, KeepIndices(prefixLen, accepted), p)
      requires session in routes && mesh.OnRoute(routes[session])
      requires session in mesh.provider.pins && mesh.provider.pins[session] == routes[session]
      requires hasLocal ==> StoreCaches(local.stage, local.sessions, session, lab)
      requires !hasLocal ==> session !in local.sessions
      requires forall k :: 0 <= k < |routes[session]| ==> HolderCaches(routes[session], k, session, lab)
      requires forall id :: id in conns ==> Obeys(mesh.workers[id].sessions, session, TreeKeep(prefixLen, accepted))
      modifies this`conns, local, mesh.workers.Values
      ensures Valid() && OthersKept(session) && local.sessions - {session} == old(local.sessions) - {session}
      ensures conns == old(conns) - broken == reached
      ensures mesh.Commanded(old(mesh.Stores()), reached, session, TreeKeep(prefixLen, accepted))
      ensures hasLocal ==> local.Warm(session, p)
      ensures old(Alone(session)) ==> Alone(session)
      ensures PinnedWarm(session, p) <==>
              |p| == |lab| || forall k :: 0 <= k < |routes[session]| ==> InformedOrIdle(routes[session], reached, k)
    {
      hide Mesh.Dialable, Mesh.Valid, Mesh.Commanded, HoldersWarm, HolderCaches, Taken, InformedOrIdle, Obeys;
      var op := TreeKeep(prefixLen, accepted);
      ghost var was := mesh.Stores();
      ChainFits(lab, KeepIndices(prefixLen, accepted), p);
      if hasLocal {
        KeepTakes(local.stage, local.sessions, session, prefixLen, accepted, lab, p);
      } else {
        NothingToObey(local.sessions, session, op);
      }
      forall k | 0 <= k < |routes[session]|
        ensures Taken(routes[session], mesh.Stores(), session, op, lab, p, k)
      {
        TreeKeepTakes(routes[session], session, prefixLen, accepted, lab, p, k);
      }
      var ok;
      ok, reached := ControlMesh(session, op, false, broken, lab, p);
      ObeyedIsInRange(local.sessions, session, prefixLen, accepted);
      local.KvCtrl(session, op);
      mesh.CommandedStaysAway(was, reached, session, op);
    }

    /** Every connected node can take a tree-keep of what the holders hold. */
    lemma AllObey(session: nat, prefixLen: nat, accepted: seq<nat>, lab: seq<Label>, p: Label)
      requires Valid() && session in routes && mesh.OnRoute(routes[session]) && Alone(session)
      requires Chain(lab, KeepIndices(prefixLen, accepted), p)
      requires forall k :: 0 <= k < |routes[session]| ==> HolderCaches(routes[session], k, session, lab)
      ensures forall id :: id in conns ==> Obeys(mesh.workers[id].sessions, session, TreeKeep(prefixLen, accepted))
    {
      hide Chain, HolderCaches, Obeys;
      var route := routes[session];
      forall id | id in conns ensures Obeys(mesh.workers[id].sessions, session, TreeKeep(prefixLen, accepted)) {
        if id in route {
          var k :| 0 <= k < |route| && route[k] == id;
          TreeKeepTakes(route, session, prefixLen, accepted, lab, p, k);
        } else {
          NothingToObey(mesh.workers[id].sessions, session, TreeKeep(prefixLen, accepted));
        }
      }
    }


    /** The pinned holders and the local stage, if any, hold slots with these labels. */
    ghost predicate RouteCaches(session: nat, lab: seq<Label>)
      reads this, local, mesh.workers.Values, mesh.provider
    {
      && session in routes && mesh.OnRoute(routes[session])
      && session in mesh.provider.pins && mesh.provider.pins[session] == routes[session]
      && (hasLocal ==> StoreCaches(local.stage, local.sessions, session, lab))
      && forall k :: 0 <= k < |routes[session]| ==> HolderCaches(routes[session], k, session, lab)
    }

    /** No node but the session's holders has an entry for it. */
    ghost predicate Alone(session: nat)
      reads this, local, mesh.workers.Values
    {
      && (!hasLocal ==> session !in local.sessions)
      && session in routes && forall id :: id in mesh.workers && id !in routes[session] ==> session !in mesh.workers[id].sessions
    }

    ghost predicate HolderCaches(route: seq<NodeId>, k: nat, session: nat, lab: seq<Label>)
      requires mesh.OnRoute(route) && k < |route|
      reads mesh.workers.Values
    {
      assert mesh.provider.Serves(route[k], k);
      StoreCaches(mesh.workers[route[k]].stage, mesh.workers[route[k]].sessions, session, lab)
    }

    lemma TreeKeepTakes(route: seq<NodeId>, session: nat, prefixLen: nat, accepted: seq<nat>,
                        lab: seq<Label>, p: Label, k: nat)
      requires mesh.OnRoute(route) && k < |route| && HolderCaches(route, k, session, lab)
      requires Chain(lab, KeepIndices(prefixLen, accepted), p)
      ensures Taken(route, mesh.Stores(), session, TreeKeep(prefixLen, accepted), lab, p, k)
      ensures Obeys(mesh.workers[route[k]].sessions, session, TreeKeep(prefixLen, accepted))
    {
      assert mesh.provider.Serves(route[k], k);
      var w := mesh.workers[route[k]];
      KeepTakes(w.stage, w.sessions, session, prefixLen, accepted, lab, p);
    }

    lemma TruncateTakes(route: seq<NodeId>, was: map<NodeId, map<nat, Cache>>, session: nat, toks: seq<Token>,
                        length: nat, k: nat)
      requires mesh.OnRoute(route) && k < |route| && was == mesh.Stores() && length <= |toks|
      requires HoldersWarm(route, session, toks)
      ensures Taken(route, was, session, Truncate(length), Prefixes(toks), toks[..length], k)
    {
      assert mesh.provider.Serves(route[k], k) && HolderWarm(route, k, session, toks);
      var stage := mesh.workers[route[k]].stage;
      TruncateHolds(stage.net, stage.first, stage.last, was[route[k]][session], toks, length);
    }

    /** Which holders stand at `p` after a control frame that takes slots labelled `lab` there. */
    lemma ControlledRoute(route: seq<NodeId>, was: map<NodeId, map<nat, Cache>>, reached: set<NodeId>,
                          session: nat, op: KvOp, lab: seq<Label>, p: seq<Token>)
      requires mesh.Valid() && mesh.OnRoute(route) && |p| <= |lab| && (|p| == |lab| ==> lab == Prefixes(p))
      requires mesh.Commanded(was, reached, session, op)
      requires forall k :: 0 <= k < |route| ==> Taken(route, was, session, op, lab, p, k)
      ensures HoldersWarm(route, session, p) <==>
              |p| == |lab| || forall k :: 0 <= k < |route| ==> InformedOrIdle(route, reached, k)
    {
      forall k | 0 <= k < |route|
        ensures HolderWarm(route, k, session, p) <==> |p| == |lab| || InformedOrIdle(route, reached, k)
      {
        assert mesh.provider.Serves(route[k], k) && Taken(route, was, session, op, lab, p, k);
        StandsIfReached(mesh.workers[route[k]].stage, was[route[k]], session, op, lab, p, route[k] in reached);
      }
    }

    /** Holder `k` stood at `lab`, and the frame takes it to `p`. */
    ghost predicate Taken(route: seq<NodeId>, was: map<NodeId, map<nat, Cache>>, session: nat, op: KvOp,
                          lab: seq<Label>, p: seq<Token>, k: nat)
      requires mesh.OnRoute(route) && k < |route| && was.Keys == mesh.workers.Keys
    {
      assert mesh.provider.Serves(route[k], k);
      var stage := mesh.workers[route[k]].stage;
      && StoreCaches(stage, was[route[k]], session, lab) && Obeys(was[route[k]], session, op)
      && StoreWarm(stage, Controlled(was[route[k]], session, op), session, p)
    }

    /** Rebuild a session after a lost hop: reset it everywhere and re-run its tokens from
        position 0 on a fresh route. */
    method Reprefill(session: nat, tokenIds: seq<Token>, fates: seq<Fate>) returns (r: Outcome<()>)
      requires Valid()
      modifies this, local, mesh.provider, mesh.workers.Values
      ensures Valid() && OthersKept(session) && local.sessions - {session} == old(local.sessions) - {session}
      ensures r.Done? ==> Ready(session, tokenIds) && mesh.provider.down == old(mesh.provider.down)
      ensures r.Done? && tokenIds != [] ==> session in routes
      ensures r.Done? ==> OthersFreed(session, if tokenIds == [] then [] else routes[session])
      ensures r.NoCoverage? <==> tokenIds != [] && !mesh.provider.Covered(old(mesh.provider.down))
      ensures !r.NoCoverage? ==> (r.Done? <==> tokenIds == [] || Answers(fates))
    {
      hide Rows, Warm, PinnedWarm, Reattachable, RouteProvider.Covered, Answers, Freed, Connected;
      var broken: set<NodeId> := *;
      ResetSessions(session, broken);
      FreedEverywhere(session);
      ghost var was, open := mesh.Stores(), conns;
      if tokenIds == [] {
        return Done(());
      }
      EmbeddedRows(net, [], tokenIds);
      var q := Relay(session, 0, Embedded(net, tokenIds), fates, [], tokenIds);
      assert [] + tokenIds == tokenIds;
      match q {
        case Done(_) =>
          WarmIsPinned(session, tokenIds);
          StillFreed(session, routes[session], was, open);
          r := Done(());
        case WireFailed => r := WireFailed;
        case NoCoverage => r := NoCoverage;
      }
    }

    /** How try `k` ends, for a frame at position `pos`, if the nodes in `down` are not READY at first: a try
        needs a READY holder for every slot, a re-prefill if there is something to rebuild, and its own
        relay.  The first try of a session that is already routed needs only the last. */
    function TryEnds(attempts: seq<Attempt>, k: nat, pos: nat, down: set<NodeId>): Outcome<()>
    {
      var a := AttemptAt(attempts, k);
      if (k > 0 || pos == 0) && !mesh.provider.Covered(if k == 0 then down else a.down) then NoCoverage
      else if (k > 0 && pos > 0 && !Answers(a.refill)) || !Answers(a.fates) then WireFailed
      else Done(())
    }

    /** Try `k` is the first that does not end in a wire error. */
    ghost predicate Decides(attempts: seq<Attempt>, k: nat, pos: nat, down: set<NodeId>)
    {
      !TryEnds(attempts, k, pos, down).WireFailed? && forall j :: 0 <= j < k ==> TryEnds(attempts, j, pos, down).WireFailed?
    }

    /** How the tries from `k` up to the last end together. */
    function EndsFrom(attempts: seq<Attempt>, k: nat, max: nat, pos: nat, down: set<NodeId>): (r: Outcome<()>)
      requires k <= max + 1
      decreases max + 1 - k
    {
      if k > max then WireFailed else
        var t := TryEnds(attempts, k, pos, down);
        if t.WireFailed? then EndsFrom(attempts, k + 1, max, pos, down) else t
    }

    /** A step fails over as long as it may: it is lost exactly if every try is, and otherwise ends as the
        first try does that is not. */
    lemma {:induction false} EndsAsFirstToDecide(attempts: seq<Attempt>, k: nat, max: nat, pos: nat, down: set<NodeId>)
      requires k <= max + 1 && forall j :: 0 <= j < k ==> TryEnds(attempts, j, pos, down).WireFailed?
      ensures var r := EndsFrom(attempts, k, max, pos, down);
              && (r.WireFailed? <==> forall j :: 0 <= j <= max ==> TryEnds(attempts, j, pos, down).WireFailed?)
              && (!r.WireFailed? ==> exists j :: 0 <= j <= max && Decides(attempts, j, pos, down) && r == TryEnds(attempts, j, pos, down))
      decreases max + 1 - k
    {
      if k <= max {
        if TryEnds(attempts, k, pos, down).WireFailed? {
          EndsAsFirstToDecide(attempts, k + 1, max, pos, down);
        } else {
          assert Decides(attempts, k, pos, down);
        }
      }
    }

    /** Relay one step of a session, surviving up to `maxFailovers` lost hops.  Whatever fails, in
        whatever way, at whatever hop, and whatever routes replace it: if this returns rows, they
        are those of a relay without failures, and every holder on the pinned route, and the local
        stage, holds exactly the tokens so far.  It returns them unless every try is lost, or a slot
        has no READY holder before one succeeds. */
    method RelayWithFailover(session: nat, pos: nat, chunk: seq<Token>, prefill: seq<Token>, maxFailovers: nat,
                             attempts: seq<Attempt>)
      returns (r: Outcome<seq<Hidden>>)
      requires Valid() && pos == |prefill| && Ready(session, prefill)
      modifies this, local, mesh.provider, mesh.workers.Values
      ensures Valid() && OthersKept(session) && local.sessions - {session} == old(local.sessions) - {session}
      ensures r.Done? ==> r.value == Rows(net, |net.layers|, prefill, chunk) && Warm(session, prefill + chunk)
      ensures SameEnd(r, EndsFrom(attempts, 0, maxFailovers, pos, old(mesh.provider.down)))
    {
      hide Rows, Warm, PinnedWarm, Reattachable, Embedded, Ready, Valid, RouteProvider.Covered, Answers;
      EmbeddedRows(net, prefill, chunk);
      ghost var down, all := mesh.provider.down, EndsFrom(attempts, 0, maxFailovers, pos, mesh.provider.down);
      ReadyIsRoutable(session, prefill);
      for attempt := 0 to maxFailovers + 1
        invariant Valid() && OthersKept(session) && local.sessions - {session} == old(local.sessions) - {session}
        invariant attempt == 0 ==> Ready(session, prefill) && mesh.provider.down == down
        invariant attempt == 0 && pos > 0 ==> Routable(session, pos)
        invariant all == EndsFrom(attempts, attempt, maxFailovers, pos, down)
      {
        var a := AttemptAt(attempts, attempt);
        var rebuilt := Done(());
        if attempt > 0 {
          Churn(a.down, session, prefill);
          rebuilt := Reprefill(session, prefill, a.refill);
        }
        if rebuilt.NoCoverage? {
          return NoCoverage;
        }
        if rebuilt.Done? {
          r := Relay(session, pos, Embedded(net, chunk), a.fates, prefill, chunk);
          if !r.WireFailed? {
            return r;
          }
        }
      }
      return WireFailed;
    }

    ghost predicate SameEnd<T, U>(a: Outcome<T>, b: Outcome<U>)
    {
      (a.Done? <==> b.Done?) && (a.WireFailed? <==> b.WireFailed?)
    }

    /** A session that is ready behind its first token has a route, or may get its pinned one. */
    lemma ReadyIsRoutable(session: nat, toks: seq<Token>)
      requires Ready(session, toks)
      ensures toks != [] ==> Routable(session, |toks|)
    {
      if toks != [] && !Warm(session, toks) {
        mesh.provider.ReadyPinsAreKept(session);
      }
    }

    /** How step `i` of a generation ends, behind its prefill. */
    function StepEnds(steps: seq<Step>, i: nat): Outcome<()>
    {
      EndsFrom(StepAt(steps, i).attempts, 0, MAX_FAILOVERS, 1, {})
    }

    /** A step is lost exactly if three tries in a row are, and returns exactly if one of the three does
        before which every try was merely lost. */
    lemma StepReturnsIff(steps: seq<Step>, i: nat)
      ensures var a := StepAt(steps, i).attempts;
              && (StepEnds(steps, i).WireFailed? <==> forall k :: 0 <= k <= 2 ==> TryEnds(a, k, 1, {}).WireFailed?)
              && (StepEnds(steps, i).Done? <==> exists k :: 0 <= k <= 2 && Decides(a, k, 1, {}) && TryEnds(a, k, 1, {}).Done?)
    {
      var a := StepAt(steps, i).attempts;
      EndsAsFirstToDecide(a, 0, MAX_FAILOVERS, 1, {});
      if k :| 0 <= k <= 2 && Decides(a, k, 1, {}) && TryEnds(a, k, 1, {}).Done? {
        var j :| 0 <= j <= MAX_FAILOVERS && Decides(a, j, 1, {}) && StepEnds(steps, i) == TryEnds(a, j, 1, {});
        assert j == k;
      }
    }

    /** The first `n` steps return. */
    ghost predicate StepsReturn(steps: seq<Step>, n: nat)
    {
      forall i :: 0 <= i < n ==> StepEnds(steps, i).Done?
    }

    /** Behind position 0 it does not matter where, nor who is READY at first. */
    lemma {:induction false} AnyPosition(attempts: seq<Attempt>, k: nat, max: nat, pos: nat, down: set<NodeId>)
      requires k <= max + 1 && pos > 0
      ensures EndsFrom(attempts, k, max, pos, down) == EndsFrom(attempts, k, max, 1, {})
      decreases max + 1 - k
    {
      if k <= max { AnyPosition(attempts, k + 1, max, pos, down); }
    }

    /** The greedy loop, shared by a fresh generation and a resumed one.  `out` is what it has
        produced when it returns or raises: it returns exactly if every step of the answer does, and else
        it raises in the first that does not, whose token is already out. */
    method GreedySteps(session: nat, start: seq<Token>, nxt0: Token, cur0: nat, nNew: nat, stops: set<Token>, steps: seq<Step>)
      returns (out: seq<Token>, r: Outcome<HeadState>)
      requires Valid() && start != [] && Ready(session, start)
      requires nxt0 == Next(net, start) && cur0 == |start|
      modifies this, local, mesh.provider, mesh.workers.Values
      ensures Valid() && OthersKept(session) && local.sessions - {session} == old(local.sessions) - {session}
      ensures out <= Cut(Greedy(net, start, nNew), stops)
      ensures r.Done? ==> StateAfter(r.value, start, nNew, stops, out) && Ready(session, r.value.seqIds)
      ensures r.Done? && (out != [] || old(Warm(session, start))) ==> Warm(session, r.value.seqIds)
      ensures r.Done? ==> StepsReturn(steps, |Cut(Greedy(net, start, nNew), stops)|)
      ensures !r.Done? ==> out != [] && StepsReturn(steps, |out| - 1) && SameEnd(r, StepEnds(steps, |out| - 1))
    {
      hide Rows, Warm, Ready, Valid, Greedy, Cut, StepEnds;
      out := [];
      var seqIds, nxt, cur := start, nxt0, cur0;
      assert start + [] == start;
      NoTokens(net, start);
      for i := 0 to nNew
        invariant Valid() && OthersKept(session) && local.sessions - {session} == old(local.sessions) - {session}
        invariant |out| == i && out == Greedy(net, start, i) && forall t :: t in out ==> t !in stops
        invariant seqIds == start + out && nxt == Next(net, seqIds) && cur == |seqIds|
        invariant Ready(session, seqIds) && StepsReturn(steps, i)
        invariant out != [] || old(Warm(session, start)) ==> Warm(session, seqIds)
      {
        if nxt in stops {
          StoppedGreedy(net, start, stops, nNew, out);
          return out, Done(HeadState(out, seqIds, nxt, cur));
        }
        GreedySnoc(net, start, out, nxt);
        out := out + [nxt];
        CleanGreedyPrefix(net, start, stops, nNew, out);
        var step := StepAt(steps, i);
        StepIs(steps, i, cur, mesh.provider.down);
        var hidden := RelayWithFailover(session, cur, [nxt], seqIds, MAX_FAILOVERS, step.attempts);
        match hidden {
          case WireFailed => return out, WireFailed;
          case NoCoverage => return out, NoCoverage;
          case Done(h) =>
            LastRow(net, seqIds, [nxt], h);
            seqIds := seqIds + [nxt];
            Churn(step.churn, session, seqIds);
            WarmIsReady(session, seqIds);
            nxt := net.choose(h[|h| - 1]);
            cur := cur + 1;
        }
      }
      StoppedGreedy(net, start, stops, nNew, out);
      return out, Done(HeadState(out, seqIds, nxt, cur));
    }

    lemma StepIs(steps: seq<Step>, i: nat, pos: nat, down: set<NodeId>)
      requires pos > 0
      ensures EndsFrom(StepAt(steps, i).attempts, 0, MAX_FAILOVERS, pos, down) == StepEnds(steps, i)
    {
      AnyPosition(StepAt(steps, i).attempts, 0, MAX_FAILOVERS, pos, down);
    }

    lemma WarmIsReady(session: nat, toks: seq<Token>)
      requires Warm(session, toks)
      ensures Ready(session, toks)
    {
    }

    /** The head-side state after generating from `start`: the whole answer, and the greedy token
        to feed next at the position where the caches end. */
    ghost predicate StateAfter(st: HeadState, start: seq<Token>, nNew: nat, stops: set<Token>, out: seq<Token>)
      requires start != []
    {
      && st.out == out == Cut(Greedy(net, start, nNew), stops)
      && st.seqIds == start + out && st.nxt == Next(net, st.seqIds) && st.cur == |st.seqIds|
    }

    /** How the prefill of a generation ends, if the nodes in `down` are not READY at first. */
    function PrefillEnds(prefill: seq<Attempt>, down: set<NodeId>): Outcome<()>
    {
      EndsFrom(prefill, 0, MAX_FAILOVERS, 0, down)
    }

    /** Greedy generation.  `out` are the tokens streamed so far even if it raises, which it does exactly if
        its prefill or a step of its answer does. */
    method GenerateState(session: nat, prompt: seq<Token>, nNew: nat, stops: set<Token>, keepWarm: bool,
                         prefill: seq<Attempt>, steps: seq<Step>)
      returns (out: seq<Token>, r: Outcome<HeadState>)
      requires Valid() && prompt != []
      modifies this, local, mesh.provider, mesh.workers.Values
      ensures Valid() && OthersKept(session) && local.sessions - {session} == old(local.sessions) - {session}
      ensures out <= Cut(Greedy(net, prompt, nNew), stops)
      ensures r.Done? ==> StateAfter(r.value, prompt, nNew, stops, out)
      ensures r.Done? && keepWarm ==> Warm(session, r.value.seqIds)
      ensures !keepWarm ==> Freed(session)
      ensures r.Done? <==>
              && PrefillEnds(prefill, old(mesh.provider.down)).Done?
              && StepsReturn(steps, |Cut(Greedy(net, prompt, nNew), stops)|)
      ensures !r.Done? ==> if out == [] then SameEnd(r, PrefillEnds(prefill, old(mesh.provider.down)))
                           else StepsReturn(steps, |out| - 1) && SameEnd(r, StepEnds(steps, |out| - 1))
    {
      hide Rows, Warm, Valid, Greedy, Cut, StateAfter, StepEnds, EndsFrom, Freed;
      out := [];
      var hidden := RelayWithFailover(session, 0, prompt, [], MAX_FAILOVERS, prefill);
      match hidden {
        case WireFailed => r := WireFailed;
        case NoCoverage => r := NoCoverage;
        case Done(h) =>
          LastRow(net, [], prompt, h);
          assert [] + prompt == prompt;
          WarmIsReady(session, prompt);
          out, r := GreedySteps(session, prompt, net.choose(h[|h| - 1]), |prompt|, nNew, stops, steps);
      }
      if !keepWarm {
        var broken: set<NodeId> := *;
        ResetSessions(session, broken);
      }
    }

    /** Resume an in-flight session from a carried state, without re-prefill. */
    method ResumeState(session: nat, from: HeadState, nNew: nat, stops: set<Token>, keepWarm: bool, steps: seq<Step>)
      returns (out: seq<Token>, r: Outcome<HeadState>)
      requires Valid() && from.seqIds != [] && Ready(session, from.seqIds)
      requires from.nxt == Next(net, from.seqIds) && from.cur == |from.seqIds|
      modifies this, local, mesh.provider, mesh.workers.Values
      ensures Valid() && OthersKept(session) && local.sessions - {session} == old(local.sessions) - {session}
      ensures out <= Cut(Greedy(net, from.seqIds, nNew), stops)
      ensures r.Done? ==> StateAfter(r.value, from.seqIds, nNew, stops, out)
      ensures r.Done? && keepWarm ==> Ready(session, r.value.seqIds)
      ensures !keepWarm ==> Freed(session)
      ensures r.Done? <==> StepsReturn(steps, |Cut(Greedy(net, from.seqIds, nNew), stops)|)
      ensures !r.Done? ==> out != [] && StepsReturn(steps, |out| - 1) && SameEnd(r, StepEnds(steps, |out| - 1))
    {
      hide Rows, Warm, Ready, Valid, Greedy, Cut, StateAfter, StepEnds, Freed;
      out, r := GreedySteps(session, from.seqIds, from.nxt, from.cur, nNew, stops, steps);
      if !keepWarm {
        var broken: set<NodeId> := *;
        ResetSessions(session, broken);
      }
    }
  }

  /** Re-home: one orchestrator generates at most `n1` tokens and goes away; another one on the same
      mesh resumes the session for at most `n2` more, when the nodes in `churned` are not READY.  If every
      pinned holder is, and the survivor has no stage of its own (`intact`), the two parts are the tokens,
      and the final state the state, of an uninterrupted run of `n1 + n2` -- wherever an end-of-sequence
      token falls and whatever fails on the way.  Otherwise the scenario ends there: `Rehoming` says what
      comes of that. */
  method Rehome(a: HeadNode, b: HeadNode, session: nat, prompt: seq<Token>, n1: nat, n2: nat, churned: set<NodeId>,
                prefill: seq<Attempt>, steps1: seq<Step>, steps2: seq<Step>)
    returns (first: seq<Token>, second: seq<Token>, r: Outcome<HeadState>, intact: bool)
    requires a != b && a.mesh == b.mesh && a.net == b.net && a.local != b.local
    requires a.Valid() && b.Valid() && session !in b.routes && prompt != []
    requires a.local !in b.mesh.workers.Values && b.local !in a.mesh.workers.Values
    modifies a, b, a.local, b.local, a.mesh.provider, a.mesh.workers.Values
    ensures a.Valid() && b.Valid()
    ensures r.Done? ==>
              && session in a.routes
              && (intact <==> !b.hasLocal && forall id :: id in a.routes[session] ==> id !in churned)
    ensures r.Done? ==> first == Cut(Greedy(a.net, prompt, n1), a.eos)
    ensures r.Done? && intact ==> first + second == Cut(Greedy(a.net, prompt, n1 + n2), a.eos)
    ensures r.Done? ==> r.value.seqIds == prompt + first + second && r.value.cur == |r.value.seqIds|
    ensures r.Done? ==> r.value.nxt == Next(a.net, r.value.seqIds)
    ensures !r.Done? ==>
              || !a.PrefillEnds(prefill, old(a.mesh.provider.down)).Done?
              || (exists i :: !a.StepEnds(steps1, i).Done?) || exists i :: !b.StepEnds(steps2, i).Done?
  {
    hide HeadNode.OwnValid, Mesh.Valid, Greedy, Cut, HeadNode.HoldersWarm, HeadNode.Ready, HeadNode.PrefillEnds, HeadNode.StepEnds, HeadNode.Freed;
    second, intact := [], false;
    first, r := a.GenerateState(session, prompt, n1, a.eos, true, prefill, steps1);
    if r.Done? {
      var st := r.value;
      a.mesh.provider.Churn(churned);
      var pinned := a.mesh.provider.pins[session];
      intact := !b.hasLocal && a.mesh.provider.AllReady(pinned);
      if intact {
        Reattaches(a, b, session, st.seqIds);
        second, r := b.ResumeState(session, st, n2, a.eos, false, steps2);
        CutResumes(a.net, prompt, a.eos, n1, n2);
      }
    }
  }

  /** A session whose pinned holders are READY can be taken over by an orchestrator without a stage. */
  lemma Reattaches(a: HeadNode, b: HeadNode, session: nat, toks: seq<Token>)
    requires a.mesh == b.mesh && a.Warm(session, toks) && !b.hasLocal && session !in b.routes
    requires a.mesh.provider.AllReady(a.mesh.provider.pins[session])
    ensures b.Ready(session, toks)
  {
    hide HeadNode.HoldersWarm;
    SameHolders(a, b, a.routes[session], session, toks);
  }

  /** What the holders hold does not depend on which orchestrator asks. */
  lemma SameHolders(a: HeadNode, b: HeadNode, route: seq<NodeId>, session: nat, toks: seq<Token>)
    requires a.mesh == b.mesh && a.mesh.OnRoute(route) && a.HoldersWarm(route, session, toks)
    ensures b.HoldersWarm(route, session, toks)
  {
    forall k | 0 <= k < |route| ensures b.HolderWarm(route, k, session, toks) {
      assert a.HolderWarm(route, k, session, toks);
    }
  }

  /** The last row of a relay decides the next token. */
  lemma LastRow(net: Net, toks: seq<Token>, chunk: seq<Token>, hidden: seq<Hidden>)
    requires chunk != [] && hidden == Rows(net, |net.layers|, toks, chunk)
    ensures hidden != [] && net.choose(hidden[|hidden| - 1]) == Next(net, toks + chunk)
  {
    assert chunk[..|chunk|] == chunk;
  }
}
