/** The relay's route provider is the control service: each call the relay makes is one of the
    service's own, and both keep the same pins and the same view of who serves. */
module Providing {
  import opened Wrappers
  import opened Topologies
  import opened Registries
  import opened MeshRelay

  /** There are as many slots, and every node routed to is assigned to its slot and runs its layers. */
  ghost predicate Assigned(p: RouteProvider, reg: Registry)
    reads reg, reg.topo
  {
    && |p.cuts| == |reg.topo.held| + 1
    && forall k, id :: 0 <= k < |reg.topo.held| && id in reg.topo.Holders(k) ==> p.Serves(id, k)
  }

  /** Up is exactly who the service routes to. */
  ghost predicate SameHolders(p: RouteProvider, reg: Registry, down: set<NodeId>)
    reads reg, reg.topo
  {
    && Assigned(p, reg)
    && forall k, id :: 0 <= k < |reg.topo.held| ==>
         (id in reg.topo.Holders(k) <==> p.Serves(id, k) && id !in down)
  }

  ghost predicate Mirrors(p: RouteProvider, reg: Registry)
    reads p, reg, reg.topo
  {
    SameHolders(p, reg, p.down) && p.pins == reg.sessionLoad
  }

  /** Whatever the service has been through, there is a view of it. */
  lemma SomeViewMirrors(p: RouteProvider, reg: Registry, down: set<NodeId>)
    requires Assigned(p, reg)
    requires down == set id | id in p.mesh && forall k :: 0 <= k < |reg.topo.held| ==> id !in reg.topo.Holders(k)
    ensures SameHolders(p, reg, down)
  {
    forall k, id | 0 <= k < |reg.topo.held| && p.Serves(id, k) && id !in down ensures id in reg.topo.Holders(k) {
      var j :| 0 <= j < |reg.topo.held| && id in reg.topo.Holders(j);
      assert p.Serves(id, j);
    }
  }

  /** Routes through the service's holders are what the relay asks of a route: it may drive them, they
      are READY, and pinned holders that are not down are kept. */
  lemma PickedIsAcquired(p: RouteProvider, reg: Registry, session: nat, load: map<NodeId, int>, route: seq<NodeId>)
    requires reg.topo.Valid() && SameHolders(p, reg, p.down) && |route| == |reg.topo.held|
    requires forall k :: 0 <= k < |route| ==>
               && route[k] in reg.topo.Holders(k)
               && Picked(load, reg.topo.Holders(k), Pinned(p.pins, session), k, route[k])
    ensures p.ValidRoute(route) && p.AllReady(route)
    ensures forall k, id :: 0 <= k < |route| && p.Keeps(session, k, id) ==> route[k] == id
  {
    reg.RouteDistinct(route);
    hide Topology.Valid, Topology.Holders;
    forall k, id | 0 <= k < |route| && p.Keeps(session, k, id) ensures route[k] == id {
      assert Picked(load, reg.topo.Holders(k), Pinned(p.pins, session), k, route[k]);
    }
  }

  /** The service covers every slot exactly if the provider sees a READY holder for each. */
  lemma SameCoverage(p: RouteProvider, reg: Registry)
    requires SameHolders(p, reg, p.down)
    ensures reg.topo.Covered() <==> p.Covered(p.down)
  {
    hide Topology.Holders;
    forall k | 0 <= k < |reg.topo.held| ensures reg.topo.Holders(k) != [] <==> p.Holding(k, p.down) != {} {
      if reg.topo.Holders(k) != [] {
        assert reg.topo.Holders(k)[0] in reg.topo.Holders(k);
        assert reg.topo.Holders(k)[0] in p.Holding(k, p.down);
      }
    }
  }

  /** What the relay is promised of an acquired route holds of the service's. */
  method Acquire(p: RouteProvider, reg: Registry, session: nat) returns (r: Option<seq<NodeId>>)
    requires reg.Valid() && Mirrors(p, reg)
    modifies p, reg`load, reg`sessionLoad
    ensures reg.Valid() && Mirrors(p, reg) && p.down == old(p.down)
    ensures r.Some? <==> p.Covered(p.down)
    ensures r.None? ==> p.pins == old(p.pins)
    ensures r.Some? ==> p.ValidRoute(r.value) && p.AllReady(r.value) && p.pins == old(p.pins)[session := r.value]
    ensures r.Some? ==> forall k, id :: 0 <= k < |r.value| && old(p.Keeps(session, k, id)) ==> r.value[k] == id
  {
    hide Topology.Valid, Topology.Holders, Picked, Topology.Covered, RouteProvider.Covered;
    ghost var load := reg.load;
    SameCoverage(p, reg);
    var route := reg.AcquireRoute(session);
    if route.Err? {
      return None;
    }
    PickedIsAcquired(p, reg, session, load, route.value);
    assert forall k, id :: 0 <= k < |route.value| && old(p.Keeps(session, k, id)) ==> route.value[k] == id by {
      assert forall k, id :: 0 <= k < |route.value| && old(p.Keeps(session, k, id)) ==> p.Keeps(session, k, id);
    }
    p.pins := reg.sessionLoad;
    return Some(route.value);
  }

  method Release(p: RouteProvider, reg: Registry, session: nat)
    requires reg.Valid() && Mirrors(p, reg)
    modifies p, reg`load, reg`sessionLoad
    ensures reg.Valid() && Mirrors(p, reg) && p.pins == old(p.pins) - {session} && p.down == old(p.down)
  {
    hide Registry.Valid, Topology.Holders;
    reg.ReleaseRoute(session);
    p.pins := reg.sessionLoad;
  }

  /** A suspected node is not routed to any more, and every other one still is where it was. */
  method MarkSuspect(p: RouteProvider, reg: Registry, id: NodeId)
    requires reg.Valid() && Mirrors(p, reg)
    modifies p, reg.topo`nodes
    ensures reg.Valid() && Mirrors(p, reg) && p.pins == old(p.pins) && p.down == old(p.down) + {id}
  {
    hide Topology.Holders, HeldOk, NodesOk, Tiled, Registry.BansHold, Registry.BansCounted, Registry.LoadsOk;
    ghost var was, held := reg.HoldersNow(), reg.topo.held;
    forall k | 0 <= k < |was| ensures Routed(was[k], held[k], reg.topo.nodes) {
      reg.topo.HoldersAreReady(k);
    }
    ghost var nodes := reg.topo.nodes;
    reg.MarkSuspect(id);
    forall k, x | 0 <= k < |was| ensures x in reg.topo.Holders(k) <==> x in was[k] && x != id {
      reg.topo.HoldersAreReady(k);
      assert Routed(was[k], held[k], nodes);
    }
    p.down := p.down + {id};
  }

  ghost predicate Routed(hs: seq<NodeId>, held: seq<NodeId>, nodes: map<NodeId, Node>)
  {
    forall x :: x in hs <==> x in held && x in nodes && Routable(nodes[x])
  }
}
