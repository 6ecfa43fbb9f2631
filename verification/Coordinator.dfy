/** The coordinator's fixed pipeline: a co-located stage, if any, then the remote stages in order,
    all keyed by session; the session bookkeeping; and the per-slot prefix cache. */
module Coordinators {
  import opened Wrappers
  import opened Model
  import opened Attention
  import opened KV
  import opened Stages
  import opened Trees
  import opened Workers
  import opened Fates

  /** The warm session of a connection slot and the prompt it holds. */
  datatype PrefixCache = PrefixCache(ids: Option<seq<Token>>, sid: Option<nat>, len: nat)

  /** The sockets of a connection slot: none open, or open with the writes to host `reach` and those
      behind it failing. */
  datatype Link = Closed | Open(reach: nat)

  /** The embedding of `chunk`, which is what enters layer 0 after any `toks`. */
  function Embedded(net: Net, chunk: seq<Token>): (hs: seq<Hidden>)
    ensures |hs| == |chunk|
  {
    seq(|chunk|, i requires 0 <= i < |chunk| => net.embed(chunk[i]))
  }

  lemma EmbeddedRows(net: Net, toks: seq<Token>, chunk: seq<Token>)
    ensures Embedded(net, chunk) == Rows(net, 0, toks, chunk)
  {
    forall i | 0 <= i < |chunk| ensures Embedded(net, chunk)[i] == Rows(net, 0, toks, chunk)[i] {
      var p := toks + chunk[..i + 1];
      assert p[|p| - 1] == chunk[i];
    }
  }

  /** The length of the longest common prefix. */
  function Common(a: seq<Token>, b: seq<Token>): (n: nat)
    ensures n <= |a| && n <= |b| && a[..n] == b[..n]
    ensures n < |a| && n < |b| ==> a[n] != b[n]
  {
    if a == [] || b == [] || a[0] != b[0] then 0 else
      var n := 1 + Common(a[1..], b[1..]);
      assert a[..n] == [a[0]] + a[1..][..n - 1] && b[..n] == [b[0]] + b[1..][..n - 1];
      n
  }

  lemma OneCommon(a: seq<Token>, b: seq<Token>, n: nat)
    requires n <= |a| && n <= |b| && a[..n] == b[..n] && (n < |a| && n < |b| ==> a[n] != b[n])
    ensures n == Common(a, b)
  {
    SameSoFar(a, b, n);
    SameSoFar(a, b, Common(a, b));
  }

  lemma NoneLonger(a: seq<Token>, b: seq<Token>)
    ensures forall n :: 0 <= n <= |a| && n <= |b| && a[..n] == b[..n] ==> n <= Common(a, b)
  {
    forall n | 0 <= n <= |a| && n <= |b| && a[..n] == b[..n] ensures n <= Common(a, b) {
      SameSoFar(a, b, n);
    }
  }

  lemma SameSoFar(a: seq<Token>, b: seq<Token>, n: nat)
    requires n <= |a| && n <= |b| && a[..n] == b[..n]
    ensures forall k :: 0 <= k < n ==> a[k] == b[k]
  {
    assert forall k :: 0 <= k < n ==> a[..n][k] == b[..n][k];
  }

  method LcpLen(a: seq<Token>, b: seq<Token>) returns (i: nat)
    ensures i == Common(a, b)
  {
    var n := if |a| < |b| then |a| else |b|;
    i := 0;
    while i < n && a[i] == b[i]
      invariant i <= n && a[..i] == b[..i]
    {
      i := i + 1;
    }
    OneCommon(a, b, i);
  }

  ghost predicate WorkerCaches(host: Worker, session: nat, lab: seq<Label>)
    reads host
  {
    StoreCaches(host.stage, host.sessions, session, lab)
  }

  class Coordinator {
    const net: Net
    /** The co-located stage first, when there is one, then the remote workers. */
    const hosts: seq<Worker>
    const hasLocal: bool
    const pcEnabled: bool
    const pcMin: int
    /** This orchestrator's 15-bit part of every session id. */
    const prefix: nat
    var counter: nat
    var pc: PrefixCache
    ghost const cuts: seq<nat>

    constructor (net: Net, hosts: seq<Worker>, hasLocal: bool, pcEnabled: bool, pcMin: int,
                 prefix: nat, ghost cuts: seq<nat>)
      ensures this.net == net && this.hosts == hosts && this.cuts == cuts
      ensures this.pcEnabled == pcEnabled && pc.sid.None? && PrefixCacheValid() && counter == 0
    {
      this.net, this.hosts, this.hasLocal := net, hosts, hasLocal;
      this.pcEnabled, this.pcMin, this.prefix := pcEnabled, pcMin, prefix;
      this.cuts := cuts;
      counter, pc := 0, PrefixCache(None, None, 0);
    }

    /** The hosts are distinct and tile the model's layers in order. */
    ghost predicate HostsValid()
      reads hosts
    {
      && Cuts(cuts, |net.layers|) && |hosts| == |cuts| - 1
      && (forall i :: 0 <= i < |hosts| ==> hosts[i].Valid() && Is(hosts[i].stage, net, cuts[i], cuts[i + 1]))
      && forall i, j :: 0 <= i < j < |hosts| ==> hosts[i] != hosts[j]
    }

    ghost predicate Warm(session: nat, toks: seq<Token>)
      reads hosts
    {
      forall i :: 0 <= i < |hosts| ==> hosts[i].Warm(session, toks)
    }

    /** The first `n` hosts hold slots with these labels for `session`. */
    ghost predicate HostsCache(session: nat, lab: seq<Label>, n: nat)
      requires n <= |hosts|
      reads hosts
    {
      forall i :: 0 <= i < n ==> WorkerCaches(hosts[i], session, lab)
    }

    /** Nothing but `session` changed on any host. */
    twostate predicate OthersKept(session: nat)
      reads hosts
    {
      forall i :: 0 <= i < |hosts| ==> hosts[i].sessions - {session} == old(hosts[i].sessions) - {session}
    }

    /** The id the next request draws. */
    function NextId(): nat
      reads `counter
    {
      prefix * 0x10000 + counter % 0xFFFF + 1
    }

    /** The next session id: this orchestrator's prefix over a counter of 1..65535 that wraps. */
    method NextSession() returns (sid: nat)
      modifies `counter
      ensures sid == old(NextId()) && counter == old(counter) % 0xFFFF + 1
      ensures sid / 0x10000 == prefix && sid % 0x10000 == counter && 1 <= counter <= 0xFFFF
    {
      counter := counter % 0xFFFF + 1;
      sid := prefix * 0x10000 + counter;
    }

    /** One tree verify through every stage, failing where the schedule says. */
    method RelayTree(session: nat, pos: nat, hidden: seq<Hidden>, tpos: seq<int>, parents: seq<int>, fates: seq<Fate>,
                     ghost base: seq<Token>, ghost toks: seq<Token>) returns (r: Option<seq<Hidden>>)
      requires HostsValid() && base != [] && Warm(session, base) && pos == |base|
      requires Forest(parents) && |toks| == |parents|
      requires hidden == TreeRows(net, 0, base, parents, toks) && tpos == TreePositions(pos, parents)
      requires hasLocal ==> FateAt(fates, 0) == Answered
      modifies hosts
      ensures HostsValid() && OthersKept(session)
      ensures r.Some? <==> FirstLost(fates, 0, |hosts|) == |hosts|
      ensures r.Some? ==> r.value == TreeRows(net, |net.layers|, base, parents, toks)
      ensures r.Some? ==> HostsCache(session, Prefixes(base) + TreeLabels(base, parents, toks), |hosts|)
    {
      hide FirstLost, FateAt;
      ghost var lab := Prefixes(base) + TreeLabels(base, parents, toks);
      var out := hidden;
      for i := 0 to |hosts|
        invariant HostsValid() && out == TreeRows(net, cuts[i], base, parents, toks)
        invariant HostsCache(session, lab, i)
        invariant forall j :: i <= j < |hosts| ==> hosts[j].sessions == old(hosts[j].sessions)
        invariant OthersKept(session)
        invariant forall j :: 0 <= j < i ==> FateAt(fates, j) == Answered
      {
        if FateAt(fates, i) == LostBefore {
          return None;
        }
        var host := hosts[i];
        assert Is(host.stage, net, cuts[i], cuts[i + 1]);
        assert old(hosts[i].Warm(session, base));
        TreeCallOnLabels(host.stage, host.sessions[session], base, parents, toks);
        label before:
        out := host.TreeActivation(session, pos, out, tpos, parents);
        assert host.sessions - {session} == old@before(host.sessions) - {session};
        assert forall j :: 0 <= j < |hosts| && j != i ==> hosts[j] != host;
        if FateAt(fates, i) == LostAfter {
          return None;
        }
      }
      return Some(out);
    }

    /** Compact every stage to the prefix and the accepted path, up to the first write that fails. */
    method KvTreeKeep(session: nat, prefixLen: nat, accepted: seq<nat>, link: Link, ghost lab: seq<Label>, ghost p: Label)
      returns (ok: bool)
      requires HostsValid() && Chain(lab, KeepIndices(prefixLen, accepted), p)
      requires HostsCache(session, lab, |hosts|) && link.Open?
      modifies hosts
      ensures HostsValid() && OthersKept(session)
      ensures ok <==> ReachesAll(link)
      ensures ok ==> Warm(session, p)
    {
      for i := 0 to |hosts|
        invariant HostsValid() && OthersKept(session)
        invariant forall j :: 0 <= j < i ==> Reached(j, link) && hosts[j].Warm(session, p)
        invariant forall j :: i <= j < |hosts| ==> hosts[j].sessions == old(hosts[j].sessions)
      {
        if !Reached(i, link) {
          return false;
        }
        var host := hosts[i];
        assert Is(host.stage, net, cuts[i], cuts[i + 1]);
        assert old(WorkerCaches(hosts[i], session, lab));
        CompactionIsLinear(net, cuts[i], cuts[i + 1], host.sessions[session], lab,
                           KeepIndices(prefixLen, accepted), p);
        label before:
        host.KvCtrl(session, TreeKeep(prefixLen, accepted));
        assert host.sessions - {session} == old@before(host.sessions) - {session};
        assert forall j :: 0 <= j < |hosts| && j != i ==> hosts[j] != host;
      }
      return true;
    }

    // ----- control frames -----

    predicate Local(i: nat) { i == 0 && hasLocal }

    /** Host `i` is the co-located stage, or its socket takes the frame. */
    predicate Reached(i: nat, link: Link)
    {
      Local(i) || (link.Open? && i < link.reach)
    }

    /** Every write of a control frame arrives. */
    predicate ReachesAll(link: Link)
    {
      forall i :: 0 <= i < |hosts| ==> Reached(i, link)
    }

    /** Sockets on which every write succeeds. */
    function Sound(): Link { Open(|hosts|) }

    /** A reset drops the local entry and empties the remote ones. */
    function OpFor(i: nat, op: KvOp): KvOp
    {
      if op.Reset? && Local(i) then Free else op
    }

    /** Every host stands at `toks`, or has no layers: a frame for position |toks| goes on from there. */
    predicate Continues(places: seq<Place>, toks: seq<Token>)
      requires |places| == |hosts|
    {
      forall i :: 0 <= i < |hosts| ==> places[i] == Some(toks) || hosts[i].stage.first == hosts[i].stage.last
    }

    ghost function Stores(): (stores: seq<map<nat, Cache>>)
      reads hosts
      ensures |stores| == |hosts|
    {
      seq(|hosts|, i requires 0 <= i < |hosts| reads hosts => hosts[i].sessions)
    }

    /** Exactly the reached hosts have run the control frame. */
    ghost predicate Ran(was: seq<map<nat, Cache>>, session: nat, op: KvOp, link: Link)
      requires !op.TreeKeep?
      reads hosts
    {
      |was| == |hosts| && forall i :: 0 <= i < |hosts| ==>
        hosts[i].sessions == if Reached(i, link) then Controlled(was[i], session, OpFor(i, op)) else was[i]
    }

    /** Nothing is left of the session on any host that a frame over the sockets reaches. */
    ghost predicate FreedIn(stores: seq<map<nat, Cache>>, session: nat, link: Link)
    {
      forall i :: 0 <= i < |stores| && Reached(i, link) && session in stores[i] ==> Blank(stores[i][session])
    }

    lemma ResetFrees(was: seq<map<nat, Cache>>, session: nat, link: Link)
      requires Ran(was, session, Reset, link)
      ensures FreedIn(Stores(), session, link)
    {
    }

    lemma StillFreed(was: seq<map<nat, Cache>>, freed: nat, link: Link, session: nat, later: Link)
      requires FreedIn(was, freed, link) && Ran(was, session, Reset, later)
      ensures FreedIn(Stores(), freed, link)
    {
    }

    /** A control frame to the local stage and, over the open sockets in order, to the remote ones, up to
        the first write that fails. */
    method Announce(session: nat, op: KvOp, link: Link) returns (ok: bool)
      requires HostsValid() && !op.TreeKeep?
      modifies hosts
      ensures HostsValid() && OthersKept(session) && Ran(old(Stores()), session, op, link)
      ensures ok <==> link.Closed? || ReachesAll(link)
    {
      ghost var was := Stores();
      assert forall i :: 0 <= i < |hosts| ==> was[i] == hosts[i].sessions;
      hide Controlled, Reached, HostsValid, Stores, RanUpTo;
      ok := true;
      NoneRan(was, session, op, link);
      for i := 0 to |hosts|
        invariant HostsValid() && RanUpTo(was, Stores(), session, op, link, i)
        invariant ok <==> link.Closed? || forall j :: 0 <= j < i ==> Reached(j, link)
      {
        OneMoreRan(was, Stores(), session, op, link, i);
        if Reached(i, link) {
          Tell(i, session, OpFor(i, op));
        } else if link.Open? {
          ok := false;
        }
      }
      AllRan(was, session, op, link);
    }

    /** A control frame to one host. */
    method Tell(i: nat, session: nat, op: KvOp)
      requires HostsValid() && i < |hosts| && !op.TreeKeep?
      modifies hosts[i]
      ensures HostsValid() && Stores() == old(Stores())[i := Controlled(old(Stores())[i], session, op)]
    {
      hide Controlled;
      hosts[i].KvCtrl(session, op);
      assert forall j :: 0 <= j < |hosts| && j != i ==> hosts[j] != hosts[i];
    }

    /** Of the first `n` hosts exactly the reached ones have run the frame, and none of the others. */
    ghost predicate RanUpTo(was: seq<map<nat, Cache>>, stores: seq<map<nat, Cache>>, session: nat, op: KvOp,
                            link: Link, n: nat)
      requires !op.TreeKeep?
    {
      |was| == |stores| && forall i :: 0 <= i < |stores| ==>
        stores[i] == if i < n && Reached(i, link) then Controlled(was[i], session, OpFor(i, op)) else was[i]
    }

    lemma NoneRan(was: seq<map<nat, Cache>>, session: nat, op: KvOp, link: Link)
      requires !op.TreeKeep?
      ensures RanUpTo(was, was, session, op, link, 0)
    {
    }

    lemma OneMoreRan(was: seq<map<nat, Cache>>, stores: seq<map<nat, Cache>>, session: nat, op: KvOp, link: Link, n: nat)
      requires !op.TreeKeep? && RanUpTo(was, stores, session, op, link, n) && n < |stores|
      ensures var next := if Reached(n, link) then stores[n := Controlled(stores[n], session, OpFor(n, op))] else stores;
              RanUpTo(was, next, session, op, link, n + 1)
    {
    }

    lemma AllRan(was: seq<map<nat, Cache>>, session: nat, op: KvOp, link: Link)
      requires !op.TreeKeep? && RanUpTo(was, Stores(), session, op, link, |hosts|)
      ensures Ran(was, session, op, link)
      ensures forall i :: 0 <= i < |hosts| ==> hosts[i].sessions - {session} == was[i] - {session}
    {
      hide Controlled;
      assert forall i :: 0 <= i < |hosts| ==> Stores()[i] == hosts[i].sessions;
      forall i | 0 <= i < |hosts| ensures hosts[i].sessions - {session} == was[i] - {session} {
        ControlledKeepsOthers(was[i], session, OpFor(i, op));
      }
    }

    /** Roll a session back to `length` slots; false if a write fails. */
    method KvTruncate(session: nat, length: nat, link: Link) returns (ok: bool)
      requires HostsValid()
      modifies hosts
      ensures HostsValid() && OthersKept(session) && Ran(old(Stores()), session, Truncate(length), link)
      ensures ok <==> link.Closed? || ReachesAll(link)
    {
      ok := Announce(session, Truncate(length), link);
    }

    /** Free a finished session.  It never raises: a write that fails closes the sockets. */
    method ResetSessions(session: nat, link: Link) returns (left: Link)
      requires HostsValid()
      modifies hosts
      ensures HostsValid() && OthersKept(session) && Ran(old(Stores()), session, Reset, link)
      ensures FreedIn(Stores(), session, link)
      ensures left == if link.Open? && ReachesAll(link) then link else Closed
    {
      hide HostsValid, Ran, FreedIn;
      ghost var was := Stores();
      var ok := Announce(session, Reset, link);
      ResetFrees(was, session, link);
      left := if ok then link else Closed;
    }

    // ----- where the hosts stand -----

    /** The same tokens on every host. */
    function Everywhere(toks: seq<Token>): (places: seq<Place>)
      ensures |places| == |hosts|
    {
      seq(|hosts|, _ => Some(toks))
    }

    /** Nothing is known of any host. */
    function Unknown(): (places: seq<Place>)
      ensures |places| == |hosts|
    {
      seq(|hosts|, _ => None)
    }

    /** Where each host stands for the session. */
    ghost predicate Stands(session: nat, places: seq<Place>)
      reads hosts
    {
      StoresStand(Stores(), session, places)
    }

    ghost predicate StoresStand(stores: seq<map<nat, Cache>>, session: nat, places: seq<Place>)
    {
      && |places| == |stores| == |hosts|
      && forall i :: 0 <= i < |hosts| ==> IsPlaced(hosts[i].stage, stores[i], session, places[i])
    }

    /** Where the hosts stand after a control frame. */
    function After(places: seq<Place>, op: KvOp, link: Link): (out: seq<Place>)
      requires !op.TreeKeep?
      ensures |out| == |places|
    {
      seq(|places|, i requires 0 <= i < |places| => if Reached(i, link) then PlaceAfter(places[i], op) else places[i])
    }

    lemma RanStands(was: seq<map<nat, Cache>>, session: nat, op: KvOp, link: Link, places: seq<Place>)
      requires !op.TreeKeep? && Ran(was, session, op, link) && StoresStand(was, session, places)
      ensures Stands(session, After(places, op, link))
    {
      forall i | 0 <= i < |hosts|
        ensures IsPlaced(hosts[i].stage, hosts[i].sessions, session, After(places, op, link)[i])
      {
        assert IsPlaced(hosts[i].stage, was[i], session, places[i]);
        if Reached(i, link) {
          ControlPlaces(hosts[i].stage, was[i], session, places[i], OpFor(i, op));
        }
      }
    }

    lemma UnknownStands(session: nat)
      requires HostsValid()
      ensures Stands(session, Unknown())
    {
    }

    /** Standing at the same tokens everywhere is being warm. */
    lemma WarmStands(session: nat, toks: seq<Token>)
      requires HostsValid() && toks != []
      ensures Warm(session, toks) <==> Stands(session, Everywhere(toks))
    {
      var places := Everywhere(toks);
      forall i | 0 <= i < |hosts|
        ensures hosts[i].Warm(session, toks) <==> IsPlaced(hosts[i].stage, Stores()[i], session, places[i]) {}
      if Stands(session, places) {
        forall i | 0 <= i < |hosts| ensures hosts[i].Warm(session, toks) {
          assert IsPlaced(hosts[i].stage, Stores()[i], session, places[i]);
        }
      }
    }

    /** Free a session: where every write arrives, every host is left with nothing for it. */
    method FreeSession(session: nat, link: Link) returns (left: Link)
      requires HostsValid()
      modifies hosts
      ensures HostsValid() && OthersKept(session)
      ensures left == if link.Open? && ReachesAll(link) then link else Closed
      ensures ReachesAll(link) ==> Stands(session, Everywhere([]))
    {
      hide HostsValid, Ran, Stands;
      ghost var was := Stores();
      UnknownStands(session);
      StandsIsStores(session, Unknown());
      left := ResetSessions(session, link);
      RanStands(was, session, Reset, link, Unknown());
      if ReachesAll(link) {
        assert After(Unknown(), Reset, link) == Everywhere([]);
      }
    }

    /** Roll a session back to `length` slots, up to the first write that fails. */
    method RollBack(session: nat, length: nat, link: Link, ghost places: seq<Place>) returns (ok: bool)
      requires HostsValid() && Stands(session, places)
      modifies hosts
      ensures HostsValid() && OthersKept(session) && Stands(session, After(places, Truncate(length), link))
      ensures ok <==> link.Closed? || ReachesAll(link)
    {
      hide HostsValid, Ran, Stands;
      ghost var was := Stores();
      StandsIsStores(session, places);
      ok := KvTruncate(session, length, link);
      RanStands(was, session, Truncate(length), link, places);
    }

    /** Some host has layers, if the model has any. */
    lemma LayeredHost() returns (i: nat)
      requires HostsValid() && |net.layers| > 0
      ensures i < |hosts| && cuts[i] < cuts[i + 1] && Is(hosts[i].stage, net, cuts[i], cuts[i + 1])
    {
      i := 0;
      while cuts[i + 1] == 0
        invariant i < |hosts| && cuts[i] == 0
        decreases |hosts| - i
      {
        i := i + 1;
      }
    }

    /** Hosts left with nothing for a session are not warm for it. */
    lemma NothingIsNotWarm(session: nat, toks: seq<Token>)
      requires HostsValid() && |net.layers| > 0 && Stands(session, Everywhere([])) && toks != []
      ensures !Warm(session, toks)
    {
      var i := LayeredHost();
      assert IsPlaced(hosts[i].stage, Stores()[i], session, Some([]));
      if Warm(session, toks) {
        HeldLength(net, cuts[i], cuts[i + 1], hosts[i].sessions[session], toks);
        HeldLength(net, cuts[i], cuts[i + 1], hosts[i].sessions[session], []);
      }
    }

    /** What a request does to its own session leaves every other as it stands. */
    lemma OthersStand(was: seq<map<nat, Cache>>, session: nat, other: nat, places: seq<Place>)
      requires |was| == |hosts| && StoresStand(was, other, places) && other != session && HostsValid()
      requires forall i :: 0 <= i < |hosts| ==> hosts[i].sessions - {session} == was[i] - {session}
      ensures Stands(other, places)
    {
      forall i | 0 <= i < |hosts| ensures IsPlaced(hosts[i].stage, hosts[i].sessions, other, places[i]) {
        assert IsPlaced(hosts[i].stage, was[i], other, places[i]);
        assert other in hosts[i].sessions <==> other in hosts[i].sessions - {session};
        assert other in was[i] <==> other in was[i] - {session};
        assert other in was[i] ==> (hosts[i].sessions - {session})[other] == (was[i] - {session})[other];
      }
    }

    /** Where a uniform standing is after a roll-back that reaches every host. */
    lemma UniformAfter(toks: seq<Token>, length: nat, link: Link)
      requires length <= |toks| && ReachesAll(link)
      ensures After(Everywhere(toks), Truncate(length), link) == Everywhere(toks[..length])
    {
      assert length == |toks| ==> toks[..length] == toks;
    }

    /** Where the hosts stand after a relay of `seen`, of which some never see the frame. */
    function AfterRelay(places: seq<Place>, fates: seq<Fate>, seen: seq<Token>): (out: seq<Place>)
      ensures |out| == |places|
    {
      seq(|places|, i requires 0 <= i < |places| => if Runs(false, fates, |places|, i) then Some(seen) else places[i])
    }

    /** One relay through every stage, failing where the schedule says.  On a failure the caller gets an
        error and the sockets are closed; every host up to there has advanced. */
    method Relay(session: nat, pos: nat, hidden: seq<Hidden>, fates: seq<Fate>,
                 ghost toks: seq<Token>, ghost chunk: seq<Token>, ghost places: seq<Place>)
      returns (r: Option<seq<Hidden>>)
      requires HostsValid() && pos == |toks| && hidden == Rows(net, 0, toks, chunk)
      requires |places| == |hosts| && Stands(session, places) && (toks != [] ==> Continues(places, toks))
      requires hasLocal ==> FateAt(fates, 0) == Answered
      modifies hosts
      ensures HostsValid() && OthersKept(session)
      ensures r.Some? <==> FirstLost(fates, 0, |hosts|) == |hosts|
      ensures r.Some? ==> r.value == Rows(net, |net.layers|, toks, chunk)
      ensures Stands(session, AfterRelay(places, fates, toks + chunk))
      ensures r.Some? ==> AfterRelay(places, fates, toks + chunk) == Everywhere(toks + chunk)
    {
      hide Rows, FateAt, FirstLost, HostsValid, IsPlaced, Stands;
      HostCuts();
      NoneRelayed(session, places, toks + chunk);
      var out := hidden;
      for i := 0 to |hosts|
        invariant HostsValid() && OthersKept(session)
        invariant cuts[i] <= |net.layers| && out == Rows(net, cuts[i], toks, chunk)
        invariant forall j :: 0 <= j < i ==> FateAt(fates, j) == Answered
        invariant HalfRelayed(session, places, toks + chunk, i)
      {
        if FateAt(fates, i) == LostBefore {
          Relayed(session, places, toks + chunk, fates, i);
          return None;
        }
        out := Hop(i, session, pos, out, toks, chunk, places);
        if FateAt(fates, i) == LostAfter {
          Relayed(session, places, toks + chunk, fates, i + 1);
          return None;
        }
      }
      Relayed(session, places, toks + chunk, fates, |hosts|);
      return Some(out);
    }

    lemma HostCuts()
      requires HostsValid()
      ensures |cuts| == |hosts| + 1 && cuts[0] == 0 && cuts[|hosts|] == |net.layers|
    {
    }

    /** The first `i` hosts have seen the frame. */
    ghost predicate HalfRelayed(session: nat, places: seq<Place>, seen: seq<Token>, i: nat)
      reads hosts
    {
      |places| == |hosts| && forall j :: 0 <= j < |hosts| ==>
        IsPlaced(hosts[j].stage, hosts[j].sessions, session, if j < i then Some(seen) else places[j])
    }

    lemma NoneRelayed(session: nat, places: seq<Place>, seen: seq<Token>)
      requires Stands(session, places)
      ensures HalfRelayed(session, places, seen, 0)
    {
      forall j | 0 <= j < |hosts| ensures IsPlaced(hosts[j].stage, hosts[j].sessions, session, places[j]) {
        assert IsPlaced(hosts[j].stage, Stores()[j], session, places[j]);
      }
    }

    /** What the first `i` hosts have seen is what the schedule says, once the relay has ended there. */
    lemma Relayed(session: nat, places: seq<Place>, seen: seq<Token>, fates: seq<Fate>, i: nat)
      requires HalfRelayed(session, places, seen, i) && i <= |hosts|
      requires var f := FirstLost(fates, 0, |hosts|);
               i == (if f < |hosts| && FateAt(fates, f) == LostAfter then f + 1 else f)
      ensures Stands(session, AfterRelay(places, fates, seen))
      ensures FirstLost(fates, 0, |hosts|) == |hosts| ==> AfterRelay(places, fates, seen) == Everywhere(seen)
    {
      var out := AfterRelay(places, fates, seen);
      forall j | 0 <= j < |hosts| ensures IsPlaced(hosts[j].stage, hosts[j].sessions, session, out[j]) {
        assert Runs(false, fates, |hosts|, j) <==> j < i;
      }
    }

    method Hop(i: nat, session: nat, pos: nat, hidden: seq<Hidden>, ghost toks: seq<Token>, ghost chunk: seq<Token>,
               ghost places: seq<Place>) returns (out: seq<Hidden>)
      requires HostsValid() && pos == |toks| && i < |hosts| == |places| && cuts[i] <= |net.layers|
      requires hidden == Rows(net, cuts[i], toks, chunk)
      requires toks == [] || places[i] == Some(toks) || hosts[i].stage.first == hosts[i].stage.last
      requires HalfRelayed(session, places, toks + chunk, i)
      modifies hosts
      ensures HostsValid() && OthersKept(session) && cuts[i + 1] <= |net.layers|
      ensures out == Rows(net, cuts[i + 1], toks, chunk)
      ensures HalfRelayed(session, places, toks + chunk, i + 1)
    {
      hide Rows;
      var host := hosts[i];
      assert Is(host.stage, net, cuts[i], cuts[i + 1]);
      assert IsPlaced(host.stage, host.sessions, session, places[i]);
      PlacedContinues(host.stage, host.sessions, session, places[i], toks, chunk);
      out := host.Activation(session, pos, hidden);
      forall j | 0 <= j < |hosts| && j != i
        ensures hosts[j] != host && hosts[j].sessions == old(hosts[j].sessions)
        ensures IsPlaced(hosts[j].stage, hosts[j].sessions, session, if j < i + 1 then Some(toks + chunk) else places[j])
      {
        assert old(IsPlaced(hosts[j].stage, hosts[j].sessions, session, if j < i then Some(toks + chunk) else places[j]));
      }
    }

    // ----- prefix cache -----

    /** The warm session's record is complete. */
    ghost predicate Recorded()
      reads `pc
    {
      && (!pcEnabled ==> pc.sid.None?)
      && (pc.sid.Some? ==> pc.ids.Some? && pc.ids.value != [] && pc.len == |pc.ids.value|)
    }

    /** The warm session's id; 0, which is never drawn, if there is none. */
    ghost function WarmId(): nat
      reads `pc
    {
      if pc.sid.Some? then pc.sid.value else 0
    }

    /** Between requests: the recorded session's KV is exactly the first `len` tokens of the
        recorded prompt, and `len` is all of it. */
    ghost predicate PrefixCacheValid()
      reads `pc, hosts
    {
      Recorded() && (pc.sid.Some? ==> Warm(pc.sid.value, pc.ids.value))
    }

    /** Between requests, whatever wire errors there were: where the hosts stand for the recorded session. */
    ghost predicate RecordStands(places: seq<Place>)
      reads `pc, hosts
    {
      Recorded() && (pc.sid.Some? ==> Stands(pc.sid.value, places))
    }

    /** How much of the warm session a prompt reuses, if it reuses it: the common prefix, one token of the
        prompt always being left to forward, if that is long enough and no write of the roll-back fails.
        Over closed sockets there is nothing to fail. */
    function HitAt(ids: seq<Token>, link: Link): (c: Option<nat>)
      requires ids != [] && Recorded()
      reads `pc
      ensures c.Some? ==>
                && pc.sid.Some? && pcMin <= c.value < |ids| && c.value <= |pc.ids.value|
                && ids[..c.value] == pc.ids.value[..c.value]
                && (c.value == |ids| - 1 || c.value == |pc.ids.value| || ids[c.value] != pc.ids.value[c.value])
                && (c.value < pc.len && link.Open? ==> ReachesAll(link))
      ensures c.None? ==>
                || pc.sid.None? || (link.Open? && !ReachesAll(link))
                || forall n :: 0 <= n < |ids| && n <= |pc.ids.value| && ids[..n] == pc.ids.value[..n] ==> n < pcMin
    {
      if pc.sid.None? then None else
        var n := Min(Common(ids, pc.ids.value), |ids| - 1);
        assert ids[..n] == ids[..Common(ids, pc.ids.value)][..n];
        assert pc.ids.value[..n] == pc.ids.value[..Common(ids, pc.ids.value)][..n];
        NoneLonger(ids, pc.ids.value);
        if n >= pcMin && (n < pc.len && link.Open? ==> ReachesAll(link)) then Some(n) else None
    }

    /** Where the hosts stand for a warm session of `len` tokens once a prompt reuses `c` of them. */
    function AtHit(places: seq<Place>, len: nat, c: nat, link: Link): (at: seq<Place>)
      ensures |at| == |places|
    {
      if c < len then After(places, Truncate(c), link) else places
    }

    /** The recorded prompt shares enough with `ids`, of which one token is left to run. */
    ghost predicate LongEnough(ids: seq<Token>)
      reads `pc
    {
      pc.sid.Some? && pc.ids.Some? && Common(ids, pc.ids.value) >= pcMin && |ids| > pcMin
    }

    /** The session to decode `ids` on, and how many of its tokens are already in that session.  A hit
        rolls the warm session back to the common prefix where the sockets allow; a write that fails
        gives the warm session up.  `places` says where the hosts stand for the warm session, `at` where
        they stand then for the session handed out. */
    method BeginSession(ids: seq<Token>, link: Link, ghost places: seq<Place>)
      returns (sid: nat, prefilled: nat, ghost at: seq<Place>)
      requires HostsValid() && ids != [] && RecordStands(places)
      modifies this, hosts
      ensures HostsValid() && OthersKept(old(WarmId())) && Stands(sid, at)
      ensures var hit := old(HitAt(ids, link));
              if hit.Some? then
                && Some(sid) == old(pc.sid) && prefilled == hit.value && at == AtHit(places, old(pc.len), hit.value, link)
                && pc == old(pc).(len := prefilled) && counter == old(counter)
              else
                && sid == old(NextId()) && prefilled == 0 && at == Unknown()
                && counter == old(counter) % 0xFFFF + 1
                && pc == (if old(LongEnough(ids)) then PrefixCache(None, None, 0) else old(pc))
                && (old(LongEnough(ids)) ==> FreedIn(Stores(), old(pc.sid).value, link))
    {
      hide HostsValid, Stands, Ran, After, FreedIn, StoresStand;
      at := places;
      if !pcEnabled {
        sid := Draw();
        return sid, 0, Unknown();
      }
      var common := 0;
      if pc.ids.Some? {
        common := LcpLen(ids, pc.ids.value);
      }
      common := if common < |ids| - 1 then common else |ids| - 1;
      if pc.sid.Some? && common >= pcMin {
        sid := pc.sid.value;
        var ok := true;
        if common < pc.len {
          ok := RollBack(sid, common, link, places);
          at := After(places, Truncate(common), link);
        }
        if ok {
          pc := pc.(len := common);
          return sid, common, at;
        }
        var _ := Invalidate(link);
      }
      sid := Draw();
      return sid, 0, Unknown();
    }

    /** A fresh id, of which nothing is known. */
    method Draw() returns (sid: nat)
      requires HostsValid()
      modifies `counter
      ensures sid == old(NextId()) && counter == old(counter) % 0xFFFF + 1 && Stands(sid, Unknown())
    {
      sid := NextSession();
      UnknownStands(sid);
    }

    lemma StandsIsStores(session: nat, places: seq<Place>)
      ensures Stands(session, places) <==> StoresStand(Stores(), session, places)
    {
    }

    /** Give the warm session up. */
    method Invalidate(link: Link) returns (left: Link)
      requires HostsValid()
      modifies this`pc, hosts
      ensures HostsValid() && pc == PrefixCache(None, None, 0) && OthersKept(old(WarmId()))
      ensures old(pc.sid).Some? ==> FreedIn(Stores(), old(pc.sid).value, link)
      ensures left == if old(pc.sid).None? || (link.Open? && ReachesAll(link)) then link else Closed
    {
      hide HostsValid, Ran, FreedIn;
      var previous := pc.sid;
      pc := PrefixCache(None, None, 0);
      left := link;
      if previous.Some? {
        left := ResetSessions(previous.value, link);
      }
    }

    /** What the end of a request frees: its own session where nothing is cached or the roll-back fails, and
        the session recorded before, where it was another one or is given up. */
    ghost predicate Cleared(before: PrefixCache, sid: nat, link: Link, rest: Link)
      reads hosts
    {
      var lost := link.Open? && !ReachesAll(link);
      && (!pcEnabled ==> FreedIn(Stores(), sid, rest))
      && (pcEnabled && lost ==> FreedIn(Stores(), sid, if before.sid.None? || (rest.Open? && ReachesAll(rest)) then rest else Closed))
      && (pcEnabled && before.sid.Some? && (lost || before.sid.value != sid) ==> FreedIn(Stores(), before.sid.value, rest))
    }

    /** Finish a request that leaves the hosts at `places`: keep its session as the new recorded prefix and
        free the previous one; without prefix caching just free it.  Where the sockets are closed nothing
        is rolled back, and the record is made all the same.  `later` is what the sockets take of the
        frames that follow the roll-back. */
    method EndSession(sid: nat, ids: seq<Token>, link: Link, later: nat, ghost places: seq<Place>) returns (left: Link)
      requires HostsValid() && ids != [] && Stands(sid, places) && (!pcEnabled ==> pc.sid.None?)
      modifies this`pc, hosts
      ensures HostsValid() && Recorded() && (link.Closed? ==> left.Closed?)
      ensures !pcEnabled ==> pc == old(pc)
      ensures pcEnabled ==>
                if link.Closed? || ReachesAll(link)
                then pc == PrefixCache(Some(ids), Some(sid), |ids|) && Stands(sid, After(places, Truncate(|ids|), link))
                else pc == PrefixCache(None, None, 0)
      ensures link.Open? && ReachesAll(link) && ReachesAll(Open(later)) ==> left.Open?
      ensures Cleared(old(pc), sid, link, if link.Open? then Open(later) else Closed)
    {
      hide HostsValid, Stands, Ran, After, FreedIn;
      left := if link.Open? then Open(later) else Closed;
      ghost var rest := left;
      if !pcEnabled {
        left := ResetSessions(sid, left);
        return;
      }
      var ok := RollBack(sid, |ids|, link, places);
      if !ok {
        left := Invalidate(left);
        ghost var was, between := Stores(), left;
        left := ResetSessions(sid, left);
        if old(pc.sid).Some? { StillFreed(was, old(pc.sid).value, rest, sid, between); }
        return;
      }
      if pc.sid.Some? && pc.sid.value != sid {
        left := FreePrevious(pc.sid.value, sid, left, After(places, Truncate(|ids|), link));
      }
      pc := PrefixCache(Some(ids), Some(sid), |ids|);
    }

    method FreePrevious(previous: nat, kept: nat, link: Link, ghost places: seq<Place>) returns (left: Link)
      requires HostsValid() && previous != kept && Stands(kept, places)
      modifies hosts
      ensures HostsValid() && Stands(kept, places) && FreedIn(Stores(), previous, link)
      ensures left == if link.Open? && ReachesAll(link) then link else Closed
    {
      hide FreedIn;
      left := ResetSessions(previous, link);
      forall i | 0 <= i < |hosts| ensures IsPlaced(hosts[i].stage, hosts[i].sessions, kept, places[i]) {
        assert old(IsPlaced(hosts[i].stage, hosts[i].sessions, kept, places[i])) by {
          assert old(Stores())[i] == old(hosts[i].sessions);
        }
        assert kept in hosts[i].sessions <==> kept in hosts[i].sessions - {previous};
        assert kept in hosts[i].sessions ==>
                 (hosts[i].sessions - {previous})[kept] == (old(hosts[i].sessions) - {previous})[kept];
      }
    }
  }
}
