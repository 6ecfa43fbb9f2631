/** What a tree loop decodes on: the fixed pipeline behind sockets, or the live mesh. */
module TreeTargets {
  import opened Wrappers
  import opened Model
  import opened Attention
  import opened KV
  import opened Stages
  import opened Trees
  import opened Workers
  import opened Fates
  import opened Coordinators
  import opened Failover
  import opened Targets
  import MeshRelay

  datatype TreeBackend = OnSockets(coord: Coordinator, wire: Wire) | OnMesh(head: HeadNode, weather: Weather)

  /** One session of a tree request, from its prefill on. */
  class TreeTarget {
    const backend: TreeBackend
    const session: nat
    const net: Net
    ghost const repr: set<object>
    /** Whether there is a route at the start. */
    ghost const routed: bool
    /** How many relays and compactions there have been. */
    var relayed: nat
    var kept: nat
    /** Whether the sockets of the fixed pipeline are open. */
    var open: bool

    ghost predicate Sound()
      reads this, repr
    {
      && this in repr
      && match backend
         case OnSockets(c, _) => (forall h :: h in c.hosts ==> h in repr) && net == c.net && c.HostsValid()
         case OnMesh(h, _) =>
           && h in repr && h.local in repr && h.mesh.provider in repr
           && (forall w :: w in h.mesh.workers.Values ==> w in repr) && net == h.net && h.Valid()
    }

    /** No worker of the mesh has an entry for the session yet. */
    ghost predicate Unused()
      reads this, repr
    {
      Sound() && match backend
                 case OnSockets(_, _) => true
                 case OnMesh(h, _) =>
                   && session !in h.local.sessions && (routed ==> h.mesh.provider.Covered(h.mesh.provider.down))
                   && forall id :: id in h.mesh.workers ==> session !in h.mesh.workers[id].sessions
    }

    /** All compactions are written, or it is noticed that one is not.  A tree dials every holder, also
        where the mesh relays in a chain. */
    predicate Calm()
    {
      match backend
      case OnSockets(_, _) => true
      case OnMesh(_, w) => AllWritten(w)
    }

    /** Nothing is lost on the wire, and on the mesh there is a route. */
    ghost predicate Heard()
    {
      match backend
      case OnSockets(c, w) => Lossless(c, w)
      case OnMesh(h, w) => routed && forall k :: 0 <= k < |w.relays| ==> h.Answers(w.relays[k])
    }

    ghost predicate Warm(toks: seq<Token>)
      reads this, repr
    {
      Sound() && match backend
                 case OnSockets(c, _) => c.Warm(session, toks) && open
                 case OnMesh(h, _) => h.Warm(session, toks) && h.Alone(session)
    }

    /** Every stage holds slots with these labels. */
    ghost predicate Caching(lab: seq<Label>)
      reads this, repr
    {
      Sound() && match backend
                 case OnSockets(c, _) => c.HostsCache(session, lab, |c.hosts|) && open
                 case OnMesh(h, _) => h.RouteCaches(session, lab) && h.Alone(session) && h.Dialled(session)
    }

    constructor OfSockets(coord: Coordinator, session: nat, wire: Wire)
      requires coord.HostsValid()
      ensures Unused() && backend == OnSockets(coord, wire) && this.session == session && net == coord.net
      ensures repr == {this} + (set h: object | h in coord.hosts) && relayed == kept == 0
    {
      backend, this.session, net, routed := OnSockets(coord, wire), session, coord.net, true;
      repr := {this} + (set h: object | h in coord.hosts);
      relayed, kept, open := 0, 0, false;
    }

    constructor OfMesh(head: HeadNode, session: nat, weather: Weather)
      requires head.Valid() && session !in head.local.sessions
      requires forall id :: id in head.mesh.workers ==> session !in head.mesh.workers[id].sessions
      ensures Unused() && backend == OnMesh(head, weather) && this.session == session && net == head.net
      ensures repr == {this, head, head.local, head.mesh.provider} + (set w: object | w in head.mesh.workers.Values)
      ensures routed == head.mesh.provider.Covered(head.mesh.provider.down)
    {
      backend, this.session, net := OnMesh(head, weather), session, head.net;
      routed := head.mesh.provider.Covered(head.mesh.provider.down);
      repr := {this, head, head.local, head.mesh.provider} + (set w: object | w in head.mesh.workers.Values);
      relayed, kept, open := 0, 0, false;
    }

    lemma HeardAnswers(k: nat)
      requires Sound() && backend.OnMesh?
      ensures Heard() ==> routed && backend.head.Answers(Nth(backend.weather.relays, k, []))
    {
    }

    /** Run the prompt from position 0. */
    method Prefill(prompt: seq<Token>) returns (r: Option<seq<Hidden>>)
      requires Unused() && prompt != []
      modifies repr
      ensures Sound() && relayed == old(relayed) + 1 && kept == old(kept)
      ensures r.Some? ==> Warm(prompt) && r.value == Rows(net, |net.layers|, [], prompt)
      ensures backend.OnSockets? ==> backend.coord.OthersKept(session) && (open <==> r.Some?)
      ensures Heard() ==> r.Some?
    {
      hide Coordinator.HostsValid, Coordinator.Warm, HeadNode.Valid, HeadNode.Warm, HeadNode.Alone, Rows;
      match backend {
        case OnSockets(c, wire) => r := PrefillSockets(c, wire, session, relayed, prompt);
        case OnMesh(h, w) =>
          HeardAnswers(relayed);
          r := PrefillMesh(h, w, session, relayed, prompt);
      }
      open := r.Some?;
      relayed := relayed + 1;
    }

    /** Run a whole tree below `base`. */
    method Verify(pos: nat, hidden: seq<Hidden>, tpos: seq<int>, parents: seq<int>,
                  ghost base: seq<Token>, ghost toks: seq<Token>) returns (r: Option<seq<Hidden>>)
      requires Warm(base) && base != [] && pos == |base| && Forest(parents) && |toks| == |parents|
      requires hidden == TreeRows(net, 0, base, parents, toks) && tpos == TreePositions(pos, parents)
      modifies repr
      ensures Sound() && relayed == old(relayed) + 1 && kept == old(kept) && open == old(open)
      ensures r.Some? ==> Caching(Prefixes(base) + TreeLabels(base, parents, toks))
      ensures r.Some? ==> r.value == TreeRows(net, |net.layers|, base, parents, toks)
      ensures backend.OnSockets? ==> backend.coord.OthersKept(session)
      ensures Heard() ==> r.Some?
    {
      hide Coordinator.HostsValid, Coordinator.Warm, Coordinator.HostsCache, HeadNode.Valid, HeadNode.Warm,
        HeadNode.Alone, HeadNode.RouteCaches, TreeRows, TreePositions, TreeLabels, FirstLost;
      match backend {
        case OnSockets(c, wire) =>
          LosslessAnswers(c, wire, relayed);
          r := c.RelayTree(session, pos, hidden, tpos, parents, RelayFates(c, wire, relayed), base, toks);
        case OnMesh(h, w) =>
          HeardAnswers(relayed);
          r := VerifyMesh(h, w, session, relayed, pos, hidden, tpos, parents, base, toks);
      }
      relayed := relayed + 1;
    }

    /** Keep the prefix and the accepted path of a tree of `nodes` nodes.  On the mesh a compaction is
        silent about whom it misses; there the result says whether the session stands where the loop goes
        on to believe it does. */
    method Keep(prefixLen: nat, accepted: seq<nat>, nodes: nat, ghost lab: seq<Label>, ghost p: Label) returns (e: End)
      requires Caching(lab) && Chain(lab, KeepIndices(prefixLen, accepted), p) && |lab| == prefixLen + nodes
      modifies repr
      ensures Sound() && relayed == old(relayed) && kept == old(kept) + 1 && open == old(open)
      ensures e.Finished? ==> Warm(p)
      ensures e.Stranded? ==> backend.OnMesh? && !Calm() && !backend.head.Warm(session, p)
      ensures e.Raised? ==> backend.OnSockets?
      ensures backend.OnSockets? ==> backend.coord.OthersKept(session)
      ensures Heard() ==> !e.Raised?
    {
      hide Coordinator.HostsValid, Coordinator.Warm, Coordinator.HostsCache, HeadNode.Valid, HeadNode.Warm,
        HeadNode.Alone, HeadNode.RouteCaches, Chain, FirstLost;
      match backend {
        case OnSockets(c, wire) =>
          LosslessAnswers(c, wire, kept);
          var ok := c.KvTreeKeep(session, prefixLen, accepted, CutLink(c, wire, kept), lab, p);
          e := if ok then Finished else Raised;
        case OnMesh(h, w) =>
          var ok := KeepMesh(h, w, session, kept, prefixLen, accepted, nodes, lab, p);
          e := if ok then Finished else Stranded;
      }
      kept := kept + 1;
    }
  }

  method PrefillSockets(c: Coordinator, wire: Wire, session: nat, k: nat, prompt: seq<Token>) returns (r: Option<seq<Hidden>>)
    requires c.HostsValid() && prompt != []
    modifies c.hosts
    ensures c.HostsValid() && c.OthersKept(session)
    ensures r.Some? ==> c.Warm(session, prompt) && r.value == Rows(c.net, |c.net.layers|, [], prompt)
    ensures Lossless(c, wire) ==> r.Some?
  {
    hide Coordinator.HostsValid, Coordinator.Stands, Coordinator.Warm, Coordinator.AfterRelay, Coordinator.Everywhere,
      Embedded, Rows, FirstLost;
    EmbeddedRows(c.net, [], prompt);
    assert [] + prompt == prompt;
    c.UnknownStands(session);
    LosslessAnswers(c, wire, k);
    r := c.Relay(session, 0, Embedded(c.net, prompt), RelayFates(c, wire, k), [], prompt, c.Unknown());
    if r.Some? { c.WarmStands(session, prompt); }
  }

  method PrefillMesh(h: HeadNode, w: Weather, session: nat, k: nat, prompt: seq<Token>) returns (r: Option<seq<Hidden>>)
    requires h.Valid() && prompt != [] && session !in h.local.sessions
    requires forall id :: id in h.mesh.workers ==> session !in h.mesh.workers[id].sessions
    modifies h, h.local, h.mesh.provider, h.mesh.workers.Values
    ensures h.Valid()
    ensures r.Some? <==> old(h.mesh.provider.Covered(h.mesh.provider.down)) && h.Answers(Nth(w.relays, k, []))
    ensures r.Some? ==> h.Warm(session, prompt) && h.Alone(session)
    ensures r.Some? ==> r.value == Rows(h.net, |h.net.layers|, [], prompt)
  {
    hide HeadNode.OwnValid, MeshRelay.Mesh.Valid, HeadNode.Warm, HeadNode.Connected, Embedded, Rows;
    EmbeddedRows(h.net, [], prompt);
    assert [] + prompt == prompt;
    var q := h.Relay(session, 0, Embedded(h.net, prompt), Nth(w.relays, k, []), [], prompt);
    if q.Done? {
      h.WarmIsPinned(session, prompt);
    }
    h.Churn(Nth(w.churn, k, {}), session, prompt);
    r := if q.Done? then Some(q.value) else None;
  }

  method VerifyMesh(h: HeadNode, w: Weather, session: nat, k: nat, pos: nat, hidden: seq<Hidden>, tpos: seq<int>,
                    parents: seq<int>, ghost base: seq<Token>, ghost toks: seq<Token>) returns (r: Option<seq<Hidden>>)
    requires h.Valid() && h.Warm(session, base) && h.Alone(session)
    requires base != [] && pos == |base| && Forest(parents) && |toks| == |parents|
    requires hidden == TreeRows(h.net, 0, base, parents, toks) && tpos == TreePositions(pos, parents)
    modifies h, h.local, h.mesh.provider, h.mesh.workers.Values
    ensures h.Valid() && (r.Some? <==> h.Answers(Nth(w.relays, k, [])))
    ensures r.Some? ==> r.value == TreeRows(h.net, |h.net.layers|, base, parents, toks)
    ensures r.Some? ==> h.RouteCaches(session, Prefixes(base) + TreeLabels(base, parents, toks))
    ensures r.Some? ==> h.Alone(session) && h.Dialled(session)
  {
    hide HeadNode.OwnValid, MeshRelay.Mesh.Valid, TreeRows, TreePositions, TreeLabels, HeadNode.HoldersWarm,
      StoreCaches, HeadNode.HolderCaches, FirstLost;
    r := h.RelayTree(session, pos, hidden, tpos, parents, Nth(w.relays, k, []), base, toks);
    assert r.Some? ==> h.Dialled(session);
    h.Churn(Nth(w.churn, k, {}), session, base);
  }

  method KeepMesh(h: HeadNode, w: Weather, session: nat, k: nat, prefixLen: nat, accepted: seq<nat>, nodes: nat,
                  ghost lab: seq<Label>, ghost p: Label) returns (ok: bool)
    requires h.Valid() && h.RouteCaches(session, lab) && h.Alone(session)
    requires Chain(lab, KeepIndices(prefixLen, accepted), p) && |lab| == prefixLen + nodes
    modifies h`conns, h.local, h.mesh.workers.Values
    ensures h.Valid() && h.routes == old(h.routes) && h.conns == old(h.conns) - Nth(w.broken, k, {})
    ensures ok <==> h.Warm(session, p)
    ensures ok ==> h.Alone(session)
    ensures old(h.Dialled(session)) && Nth(w.broken, k, {}) == {} ==> ok
  {
    hide HeadNode.OwnValid, MeshRelay.Mesh.Valid, Chain, HeadNode.InformedOrIdle, HeadNode.HolderCaches, StoreCaches,
      Obeys, HeadNode.HoldersWarm;
    h.AllObey(session, prefixLen, accepted, lab, p);
    KeepCount(lab, prefixLen, accepted, p);
    ghost var reached := h.KvTreeKeep(session, prefixLen, accepted, Nth(w.broken, k, {}), lab, p);
    h.DialledAreInformed(session);
    ok := |accepted| == nodes || h.AllInformed(session, h.conns);
  }

  lemma KeepCount(lab: seq<Label>, prefixLen: nat, accepted: seq<nat>, p: Label)
    requires Chain(lab, KeepIndices(prefixLen, accepted), p)
    ensures |p| == prefixLen + |accepted|
  {
  }
}
