/** What a speculative or tree loop decodes on: in-process stages, the fixed pipeline behind sockets, or
    the live mesh.  Only the first cannot fail: a relay or a roll-back over the wire may raise, and on the
    live mesh a roll-back may pass a holder by without anybody noticing. */
module Targets {
  import opened Wrappers
  import opened Model
  import opened Attention
  import opened KV
  import opened Stages
  import opened Workers
  import opened Fates
  import opened Coordinators
  import opened Failover
  import MeshRelay

  /** How a decode ends: it returns, a wire error is raised out of it, or it has left a holder standing
      elsewhere than it believes. */
  datatype End = Finished | Raised | Stranded

  // ----- in process -----

  /** The split model run in-process, one cache per stage. */
  class SplitTarget {
    const net: Net
    const stages: seq<Stage>
    const caches: seq<StageKV>
    /** The tokens the caches stand for. */
    ghost var toks: seq<Token>

    ghost predicate Valid()
      reads this, caches
    {
      && |stages| == |caches| && stages != []
      && (exists cuts :: CutStages(net, cuts, stages))
      && (forall i :: 0 <= i < |stages| ==> CacheHolds(stages[i], caches[i], toks))
      && forall i, j :: 0 <= i < j < |caches| ==> caches[i] != caches[j]
    }

    constructor (net: Net, stages: seq<Stage>, ghost cuts: seq<nat>)
      requires CutStages(net, cuts, stages) && stages != []
      ensures Valid() && toks == [] && this.net == net && this.stages == stages && fresh(caches)
    {
      var cs: seq<StageKV> := [];
      for i := 0 to |stages|
        invariant |cs| == i && fresh(cs)
        invariant forall j :: 0 <= j < i ==> cs[j].layers == Empty(|net.layers|)
        invariant forall j, k :: 0 <= j < k < i ==> cs[j] != cs[k]
      {
        var c := new StageKV(|net.layers|);
        cs := cs + [c];
      }
      forall i | 0 <= i < |stages| ensures CacheHolds(stages[i], cs[i], []) {
        assert Is(stages[i], net, cuts[i], cuts[i + 1]);
      }
      this.net, this.stages, this.caches, this.toks := net, stages, cs, [];
    }

    /** The length is read from the first stage's cache, so that stage must own a layer. */
    predicate ReadsLength()
      requires stages != []
    {
      stages[0].first < stages[0].last
    }

    method KvLen() returns (length: nat)
      requires Valid()
      ensures length == if ReadsLength() then |toks| else 0
    {
      length := caches[0].GetSeqLength();
      assert CacheHolds(stages[0], caches[0], toks);
      LengthReadIff(stages[0].net, stages[0].first, stages[0].last, caches[0].layers, toks);
    }

    method ForwardTokens(ids: seq<Token>, startPos: nat) returns (hidden: seq<Hidden>)
      requires Valid() && startPos == |toks|
      modifies this, caches
      ensures Valid() && toks == old(toks) + ids
      ensures hidden == Rows(net, |net.layers|, old(toks), ids)
    {
      ghost var cuts :| CutStages(net, cuts, stages);
      EmbeddedRows(net, toks, ids);
      hidden := Embedded(net, ids);
      for i := 0 to |stages|
        invariant hidden == Rows(net, cuts[i], toks, ids) && toks == old(toks)
        invariant forall j :: 0 <= j < i ==> CacheHolds(stages[j], caches[j], toks + ids)
        invariant forall j :: i <= j < |stages| ==> CacheHolds(stages[j], caches[j], toks)
      {
        assert Is(stages[i], net, cuts[i], cuts[i + 1]);
        CausalCallHolds(stages[i], caches[i].layers, toks, ids);
        assert forall j :: 0 <= j < |caches| && j != i ==> caches[j] != caches[i];
        hidden := stages[i].Forward(hidden, Positions(startPos, |ids|), caches[i], None);
      }
      toks := toks + ids;
    }

    method Rollback(length: nat)
      requires Valid() && length <= |toks|
      modifies this, caches
      ensures Valid() && toks == old(toks)[..length]
    {
      for i := 0 to |caches|
        invariant toks == old(toks)
        invariant forall j :: 0 <= j < i ==> CacheHolds(stages[j], caches[j], toks[..length])
        invariant forall j :: i <= j < |stages| ==> CacheHolds(stages[j], caches[j], toks)
      {
        var st := stages[i];
        TruncateHolds(st.net, st.first, st.last, caches[i].layers, toks, length);
        assert forall j :: 0 <= j < |caches| && j != i ==> caches[j] != caches[i];
        caches[i].TruncateTo(length);
      }
      toks := toks[..length];
    }
  }

  ghost predicate CutStages(net: Net, cuts: seq<nat>, stages: seq<Stage>)
  {
    Cuts(cuts, |net.layers|) && Tiles(net, cuts, stages)
  }

  ghost predicate CacheHolds(stage: Stage, cache: StageKV, toks: seq<Token>)
    reads cache
  {
    stage.Valid() && Holds(stage.net, stage.first, stage.last, cache.layers, toks)
  }

  // ----- the fixed pipeline -----

  /** What the wire does to one request: the fates of its relays, socket by socket, and how far its
      roll-backs are written; everything behind the end of either goes well. */
  datatype Wire = Wire(relays: seq<seq<Fate>>, cuts: seq<nat>)

  /** The schedule of a relay through all hosts; a co-located stage is not on the wire. */
  function RelayFates(coord: Coordinator, wire: Wire, k: nat): (fates: seq<Fate>)
    ensures coord.hasLocal ==> FateAt(fates, 0) == Answered
  {
    var sockets := if k < |wire.relays| then wire.relays[k] else [];
    if coord.hasLocal then [Answered] + sockets else sockets
  }

  function CutLink(coord: Coordinator, wire: Wire, k: nat): Link
  {
    if k < |wire.cuts| then Open(wire.cuts[k]) else coord.Sound()
  }

  /** Every relay is answered and every roll-back is written to all. */
  predicate Lossless(coord: Coordinator, wire: Wire)
  {
    && (forall k :: 0 <= k < |wire.relays| ==> AllAnswered(coord, RelayFates(coord, wire, k)))
    && forall k :: 0 <= k < |wire.cuts| ==> coord.ReachesAll(Open(wire.cuts[k]))
  }

  predicate AllAnswered(coord: Coordinator, fates: seq<Fate>)
  {
    FirstLost(fates, 0, |coord.hosts|) == |coord.hosts|
  }

  lemma LosslessAnswers(coord: Coordinator, wire: Wire, k: nat)
    ensures Lossless(coord, wire) ==> FirstLost(RelayFates(coord, wire, k), 0, |coord.hosts|) == |coord.hosts|
    ensures Lossless(coord, wire) ==> coord.ReachesAll(CutLink(coord, wire, k))
  {
    if Lossless(coord, wire) && k < |wire.relays| { assert AllAnswered(coord, RelayFates(coord, wire, k)); }
  }

  /** The stages over the coordinator's pipeline, on a session that may already hold the first
      `prefilled` tokens of the prompt. */
  class SocketTarget {
    const coord: Coordinator
    const session: nat
    const prefilled: nat
    const wire: Wire
    var kv: nat
    /** How many relays and roll-backs there have been. */
    var relayed: nat
    var rolledBack: nat
    /** Whether the sockets are open, as a relay leaves them. */
    var open: bool
    /** What the session held at the start. */
    ghost const held: seq<Token>
    /** The tokens fed through this target and not rolled back, and where the hosts stand: neither is
        kept by the engine. */
    var toks: seq<Token>
    var places: seq<Place>
    /** Where they stood at the start. */
    ghost const start: seq<Place>
    /** The block whose relay was lost, or the length of the roll-back that was. */
    ghost var block: seq<Token>
    ghost var cut: nat

    ghost predicate Standing()
      reads this, coord.hosts
    {
      coord.HostsValid() && |places| == |coord.hosts| && coord.Stands(session, places)
    }

    ghost predicate Valid()
      reads this, coord.hosts
    {
      && Standing() && |held| == prefilled
      && if toks == [] then
           places == start && relayed == 0 && kv == prefilled && (held != [] ==> coord.Continues(places, held))
         else places == coord.Everywhere(toks) && kv == |toks| && open
    }

    /** The schedule loses the first relay, that of the prompt. */
    predicate FirstLoses()
    {
      FirstLost(RelayFates(coord, wire, 0), 0, |coord.hosts|) < |coord.hosts|
    }

    /** After a wire error: the hosts that ran the lost block stand behind it and the others where they
        stood before; or some hosts have missed a roll-back. */
    ghost predicate Broken()
      reads this, coord.hosts
    {
      && Standing()
      && if open then
           && toks != [] && rolledBack > 0 && 0 < cut <= |toks| && !coord.ReachesAll(CutLink(coord, wire, rolledBack - 1))
           && places == coord.After(coord.Everywhere(toks), Truncate(cut), CutLink(coord, wire, rolledBack - 1))
         else
           && block != [] && relayed > 0 && (toks == [] ==> relayed == 1 && |start| == |coord.hosts|)
           && FirstLost(RelayFates(coord, wire, relayed - 1), 0, |coord.hosts|) < |coord.hosts|
           && places == coord.AfterRelay(if toks == [] then start else coord.Everywhere(toks),
                                         RelayFates(coord, wire, relayed - 1), toks + block)
    }

    constructor (coord: Coordinator, session: nat, prefilled: nat, wire: Wire, ghost held: seq<Token>, places: seq<Place>)
      requires coord.HostsValid() && |held| == prefilled && |places| == |coord.hosts|
      requires coord.Stands(session, places) && (held != [] ==> coord.Continues(places, held))
      ensures Valid() && toks == [] && this.coord == coord && this.session == session && this.held == held
      ensures this.wire == wire && relayed == rolledBack == 0 && this.places == start == places
    {
      this.coord, this.session, this.prefilled, this.kv, this.wire := coord, session, prefilled, prefilled, wire;
      this.held, this.toks, this.places, this.open := held, [], places, false;
      start, block, cut := places, [], 0;
      relayed, rolledBack := 0, 0;
    }

    /** On the prompt, only the part not already held is relayed; the last row is the same. */
    method ForwardTokens(ids: seq<Token>, startPos: nat) returns (r: Option<seq<Hidden>>)
      requires Valid() && startPos == |toks| && ids != []
      requires toks == [] ==> held < ids
      modifies this, coord.hosts
      ensures relayed == old(relayed) + 1 && rolledBack == old(rolledBack)
      ensures r.Some? <==> FirstLost(RelayFates(coord, wire, old(relayed)), 0, |coord.hosts|) == |coord.hosts|
      ensures r.Some? ==> Valid() && open && toks == old(toks) + ids && LastIsTrue(coord.net, toks, r.value)
      ensures r.Some? && startPos > 0 ==> r.value == Rows(coord.net, |coord.net.layers|, old(toks), ids)
      ensures r.None? ==> Broken() && !open && toks == old(toks) && block == ids
      ensures coord.OthersKept(session)
    {
      hide Coordinator.HostsValid, Coordinator.Stands, Coordinator.AfterRelay, Rows, FirstLost, Coordinator.Everywhere,
        RelayFates, Coordinator.Continues, LastIsTrue;
      ghost var front := if startPos == 0 then held else toks;
      var chunk := if startPos == 0 then ids[prefilled..] else ids;
      var pos := if startPos == 0 then prefilled else startPos;
      assert front + chunk == toks + ids && chunk != [];
      if toks != [] { EverywhereContinues(coord, toks); }
      r := Send(pos, chunk, front);
      if r.Some? {
        kv, toks := startPos + |ids|, toks + ids;
      } else {
        block := ids;
      }
      places := if r.Some? then coord.Everywhere(toks) else coord.AfterRelay(places, RelayFates(coord, wire, relayed - 1), toks + ids);
    }

    /** Relay a chunk behind what the session stands at. */
    method Send(pos: nat, chunk: seq<Token>, ghost front: seq<Token>) returns (r: Option<seq<Hidden>>)
      requires Standing() && pos == |front| && chunk != [] && (front != [] ==> coord.Continues(places, front))
      modifies this`relayed, this`open, coord.hosts
      ensures coord.HostsValid() && coord.OthersKept(session) && relayed == old(relayed) + 1 && (open <==> r.Some?)
      ensures r.Some? <==> FirstLost(RelayFates(coord, wire, old(relayed)), 0, |coord.hosts|) == |coord.hosts|
      ensures coord.Stands(session, coord.AfterRelay(places, RelayFates(coord, wire, old(relayed)), front + chunk))
      ensures r.Some? ==> coord.Stands(session, coord.Everywhere(front + chunk))
      ensures r.Some? ==> LastIsTrue(coord.net, front + chunk, r.value) && r.value == Rows(coord.net, |coord.net.layers|, front, chunk)
    {
      hide Coordinator.HostsValid, Coordinator.Stands, Coordinator.AfterRelay, Rows, FirstLost, Coordinator.Everywhere,
        RelayFates, Coordinator.Continues, LastIsTrue, Embedded;
      EmbeddedRows(coord.net, front, chunk);
      r := coord.Relay(session, pos, Embedded(coord.net, chunk), RelayFates(coord, wire, relayed), front, chunk, places);
      if r.Some? { LastOfChunk(coord.net, front, chunk, r.value); }
      relayed := relayed + 1;
      open := r.Some?;
    }

    method Rollback(length: nat) returns (ok: bool)
      requires Valid() && 0 < length <= |toks|
      modifies this, coord.hosts
      ensures relayed == old(relayed) && rolledBack == old(rolledBack) + 1 && open
      ensures ok <==> coord.ReachesAll(CutLink(coord, wire, old(rolledBack)))
            ensures ok ==> Valid() && toks == old(toks)[..length]
      ensures !ok ==> Broken() && toks == old(toks) && cut == length
    {
      hide Coordinator.HostsValid, Coordinator.Stands, Coordinator.After, Coordinator.Everywhere;
      var link := CutLink(coord, wire, rolledBack);
      ok := coord.RollBack(session, length, link, places);
      places := coord.After(places, Truncate(length), link);
      rolledBack := rolledBack + 1;
      if ok {
        coord.UniformAfter(toks, length, link);
        kv, toks := length, toks[..length];
      } else {
        cut := length;
      }
    }
  }

  lemma EverywhereContinues(coord: Coordinator, toks: seq<Token>)
    ensures coord.Continues(coord.Everywhere(toks), toks)
  {
  }

  /** The last of these rows is that of decoding all of `toks`. */
  ghost predicate LastIsTrue(net: Net, toks: seq<Token>, hidden: seq<Hidden>)
  {
    hidden != [] && toks != [] && hidden[|hidden| - 1] == Hid(net, |net.layers|, toks)
  }

  lemma LastOfChunk(net: Net, front: seq<Token>, chunk: seq<Token>, hidden: seq<Hidden>)
    requires chunk != [] && hidden == Rows(net, |net.layers|, front, chunk)
    ensures LastIsTrue(net, front + chunk, hidden)
  {
    assert chunk[..|chunk|] == chunk;
  }

  // ----- the live mesh -----

  /** What the wire and the mesh do to one request: the fates of its relays, the nodes a roll-back cannot
      be written to, and who is not READY after each relay. */
  datatype Weather = Weather(relays: seq<seq<Fate>>, broken: seq<set<MeshRelay.NodeId>>, churn: seq<set<MeshRelay.NodeId>>)

  /** No roll-back is lost. */
  predicate AllWritten(w: Weather)
  {
    forall i :: 0 <= i < |w.broken| ==> w.broken[i] == {}
  }

  function Nth<T>(xs: seq<T>, k: nat, other: T): T { if k < |xs| then xs[k] else other }

  /** A session on the live mesh.  A relay that fails is not repeated: the speculative and the tree loops
      do not fail over. */
  class LiveTarget {
    const head: HeadNode
    const session: nat
    const prefilled: nat
    const weather: Weather
    var kv: nat
    var relayed: nat
    var rolledBack: nat
    ghost const held: seq<Token>
    /** Whether there is a route at the start. */
    ghost const routed: bool
    ghost var toks: seq<Token>

    /** There is a route, and every reply of every relay arrives. */
    ghost predicate Heard()
    {
      routed && forall k :: 0 <= k < |weather.relays| ==> head.Answers(weather.relays[k])
    }

    /** A star all of whose roll-backs are written. */
    predicate Calm()
    {
      !head.chain && AllWritten(weather)
    }

    ghost predicate Valid()
      reads this, head, head.local, head.mesh.workers.Values, head.mesh.provider
    {
      && head.Valid() && |held| == prefilled
      && if toks == [] then head.Ready(session, held) && kv == prefilled && (routed ==> head.Routable(session, prefilled))
         else head.Warm(session, toks) && kv == |toks| && (Calm() ==> head.Dialled(session))
    }

    constructor (head: HeadNode, session: nat, prefilled: nat, weather: Weather, ghost held: seq<Token>)
      requires head.Valid() && |held| == prefilled && head.Ready(session, held)
      ensures Valid() && toks == [] && this.head == head && this.session == session && this.held == held
      ensures this.weather == weather && routed == old(head.Routable(session, prefilled))
    {
      this.head, this.session, this.prefilled, this.kv, this.weather := head, session, prefilled, prefilled, weather;
      this.held, this.toks, routed := held, [], head.Routable(session, prefilled);
      relayed, rolledBack := 0, 0;
    }

    method ForwardTokens(ids: seq<Token>, startPos: nat) returns (r: Option<seq<Hidden>>)
      requires Valid() && startPos == |toks| && ids != []
      requires toks == [] ==> held < ids
      modifies this, head, head.local, head.mesh.provider, head.mesh.workers.Values
      ensures head.Valid() && (Heard() ==> r.Some?)
      ensures r.Some? ==> Valid() && toks == old(toks) + ids && LastIsTrue(head.net, toks, r.value)
      ensures r.Some? && startPos > 0 ==> r.value == Rows(head.net, |head.net.layers|, old(toks), ids)
    {
      hide HeadNode.Valid, HeadNode.Warm, HeadNode.Ready, Rows, LastIsTrue;
      ghost var front := if startPos == 0 then held else toks;
      var chunk := if startPos == 0 then ids[prefilled..] else ids;
      assert front + chunk == toks + ids && chunk != [];
      if toks != [] {
        head.WarmIsReady(session, toks);
        head.ReadyIsRoutable(session, toks);
      }
      HeardAnswers(relayed);
      r := Send(if startPos == 0 then prefilled else startPos, chunk, front);
      relayed := relayed + 1;
      if r.Some? {
        kv, toks := startPos + |ids|, toks + ids;
      }
    }

    lemma HeardAnswers(k: nat)
      requires Valid()
      ensures Heard() ==> head.Answers(Nth(weather.relays, k, []))
    {
    }

    /** Relay a chunk behind what the session stands at; then nodes come and go. */
    method Send(pos: nat, chunk: seq<Token>, ghost front: seq<Token>) returns (r: Option<seq<Hidden>>)
      requires head.Valid() && head.Ready(session, front) && pos == |front| && chunk != []
      modifies head, head.local, head.mesh.provider, head.mesh.workers.Values
      ensures head.Valid()
      ensures r.Some? <==> old(head.Routable(session, pos)) && head.Answers(Nth(weather.relays, relayed, []))
      ensures r.Some? ==> head.Warm(session, front + chunk) && (!head.chain ==> head.Dialled(session))
      ensures r.Some? ==> LastIsTrue(head.net, front + chunk, r.value) && r.value == Rows(head.net, |head.net.layers|, front, chunk)
    {
      hide HeadNode.Valid, HeadNode.Warm, HeadNode.Ready, Embedded, Rows, HeadNode.Connected, LastIsTrue;
      EmbeddedRows(head.net, front, chunk);
      var q := head.Relay(session, pos, Embedded(head.net, chunk), Nth(weather.relays, relayed, []), front, chunk);
      if q.Done? {
        LastOfChunk(head.net, front, chunk, q.value);
        if !head.chain { head.StarIsDialled(session, old(head.conns), front + chunk); }
      }
      head.Churn(Nth(weather.churn, relayed, {}), session, front + chunk);
      r := if q.Done? then Some(q.value) else None;
    }

    /** The roll-back is silent about whom it misses.  `ok` says whether the session stands where the loop
        goes on to believe it does: always in a star whose writes arrive. */
    method Rollback(length: nat) returns (ok: bool)
      requires Valid() && 0 < length <= |toks|
      modifies this, head, head.local, head.mesh.workers.Values
      ensures head.Valid()
      ensures ok ==> Valid() && toks == old(toks)[..length]
      ensures ok <==> head.Warm(session, old(toks)[..length])
      ensures Calm() ==> ok
    {
      hide HeadNode.Valid, HeadNode.Warm;
      ok := Cut(length);
      rolledBack := rolledBack + 1;
      if ok {
        kv, toks := length, toks[..length];
      }
    }

    method Cut(length: nat) returns (ok: bool)
      requires Valid() && 0 < length <= |toks|
      modifies head`conns, head.local, head.mesh.workers.Values
      ensures head.Valid() && (ok <==> head.Warm(session, toks[..length]))
      ensures Calm() ==> ok && head.Dialled(session)
    {
      hide HeadNode.Valid, HeadNode.InformedOrIdle, HeadNode.PinnedWarm, HeadNode.Announced, HeadNode.AllInformed;
      ghost var reached;
      var written;
      ghost var open := head.conns;
      head.WarmIsPinned(session, toks);
      written, reached := head.KvTruncate(session, length, false, Nth(weather.broken, rolledBack, {}), toks);
      head.AllAnnounced(open, Nth(weather.broken, rolledBack, {}), written, reached);
      head.InformedIff(session, reached);
      head.DialledAreInformed(session);
      ok := length == kv || head.AllInformed(session, head.conns);
    }
  }

  // ----- the protocol -----

  datatype Backend = Split(split: SplitTarget) | Socket(socket: SocketTarget) | Live(live: LiveTarget)

  /** The target protocol of the speculative loop, over any of them. */
  class Target {
    const backend: Backend
    const net: Net
    ghost const repr: set<object>
    /** The tokens fed so far and not rolled back. */
    ghost var toks: seq<Token>

    /** Everything the target may change is listed. */
    ghost predicate Listed()
      reads this
    {
      && this in repr
      && match backend
         case Split(t) => t in repr && (forall c :: c in t.caches ==> c in repr) && net == t.net
         case Socket(t) => t in repr && (forall h :: h in t.coord.hosts ==> h in repr) && net == t.coord.net
         case Live(t) =>
           && t in repr && t.head in repr && t.head.local in repr && t.head.mesh.provider in repr
           && (forall w :: w in t.head.mesh.workers.Values ==> w in repr) && net == t.head.net
    }

    ghost predicate Valid()
      reads this, repr
    {
      && Listed()
      && match backend
         case Split(t) => t.Valid() && t.ReadsLength() && toks == t.toks
         case Socket(t) => t.Valid() && toks == t.toks
         case Live(t) => t.Valid() && toks == t.toks
    }

    /** After a decode that did not return. */
    ghost predicate Halted()
      reads this, repr
    {
      && Listed()
      && match backend
         case Split(_) => false
         case Socket(t) => t.Broken() && toks == t.toks
         case Live(t) => t.head.Valid()
    }

    /** The target can be given this prompt first. */
    ghost predicate Accepts(prompt: seq<Token>)
    {
      prompt != [] && match backend
                      case Split(_) => true
                      case Socket(t) => t.held < prompt
                      case Live(t) => t.held < prompt
    }

    /** Nothing is raised: the decode runs in process, or nothing is lost on the wire. */
    ghost predicate Heard()
    {
      match backend
      case Split(_) => true
      case Socket(t) => Lossless(t.coord, t.wire)
      case Live(t) => t.Heard()
    }

    /** Nothing but a wire error can end a decode. */
    predicate Calm()
    {
      backend.Live? ==> backend.live.Calm()
    }

    constructor OfSplit(t: SplitTarget)
      requires t.Valid() && t.ReadsLength()
      ensures Valid() && toks == t.toks && net == t.net && backend == Split(t)
      ensures repr == {this, t} + (set c: object | c in t.caches)
    {
      backend, net, toks := Split(t), t.net, t.toks;
      repr := {this, t} + (set c: object | c in t.caches);
    }

    constructor OfSocket(t: SocketTarget)
      requires t.Valid()
      ensures Valid() && toks == t.toks && net == t.coord.net && backend == Socket(t)
      ensures repr == {this, t} + (set h: object | h in t.coord.hosts)
    {
      backend, net, toks := Socket(t), t.coord.net, t.toks;
      repr := {this, t} + (set h: object | h in t.coord.hosts);
    }

    constructor OfLive(t: LiveTarget)
      requires t.Valid()
      ensures Valid() && toks == t.toks && net == t.head.net && backend == Live(t)
      ensures repr == {this, t, t.head, t.head.local, t.head.mesh.provider} + (set w: object | w in t.head.mesh.workers.Values)
    {
      backend, net, toks := Live(t), t.head.net, t.toks;
      repr := {this, t, t.head, t.head.local, t.head.mesh.provider} + (set w: object | w in t.head.mesh.workers.Values);
    }

    method ForwardTokens(ids: seq<Token>, startPos: nat) returns (r: Option<seq<Hidden>>)
      requires Valid() && startPos == |toks| && ids != []
      requires toks == [] ==> Accepts(ids)
      modifies repr
      ensures r.Some? ==> Valid() && toks == old(toks) + ids && LastIsTrue(net, toks, r.value)
      ensures r.Some? && startPos > 0 ==> r.value == Rows(net, |net.layers|, old(toks), ids)
      ensures r.None? ==> Halted() && toks == old(toks) && (backend.Socket? ==> !backend.socket.open && backend.socket.block == ids)
      ensures Heard() ==> r.Some?
      ensures old(toks) == [] && backend.Socket? ==> (r.Some? <==> !backend.socket.FirstLoses())
    {
      hide LastIsTrue, SplitTarget.Valid, LiveTarget.Valid, SocketTarget.Broken, HeadNode.Valid, Rows, Coordinator.Stands,
        Coordinator.HostsValid, FirstLost;
      if backend.Socket? { LosslessAnswers(backend.socket.coord, backend.socket.wire, backend.socket.relayed); }
      match backend {
        case Split(t) =>
          var hidden := t.ForwardTokens(ids, startPos);
          LastOfChunk(net, toks, ids, hidden);
          r := Some(hidden);
        case Socket(t) =>
          r := t.ForwardTokens(ids, startPos);
        case Live(t) =>
          r := t.ForwardTokens(ids, startPos);
      }
      if r.Some? {
        toks := toks + ids;
      }
    }

    method KvLen() returns (length: nat)
      requires Valid() && toks != []
      ensures length == |toks|
    {
      match backend
      case Split(t) => length := t.KvLen();
      case Socket(t) => length := t.kv;
      case Live(t) => length := t.kv;
    }

    method Rollback(length: nat) returns (e: End)
      requires Valid() && 0 < length <= |toks|
      modifies repr
      ensures e.Finished? ==> Valid() && toks == old(toks)[..length]
      ensures !e.Finished? ==> Halted() && toks == old(toks)
      ensures !e.Finished? && backend.Socket? ==> backend.socket.cut == length
      ensures (Heard() ==> !e.Raised?) && (e.Stranded? ==> backend.Live? && !Calm()) && (backend.Live? ==> !e.Raised?)
    {
      hide SplitTarget.Valid, SocketTarget.Valid, LiveTarget.Valid, SocketTarget.Broken, HeadNode.Valid;
      match backend {
        case Split(t) =>
          t.Rollback(length);
          e := Finished;
        case Socket(t) =>
          var ok := t.Rollback(length);
          e := if ok then Finished else Raised;
        case Live(t) =>
          var ok := t.Rollback(length);
          e := if ok then Finished else Stranded;
      }
      if e.Finished? {
        toks := toks[..length];
      }
    }
  }
}
