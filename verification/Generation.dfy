/** Request-level decoding: draft trees on either kind of pipeline, speculation with prefix reuse on the
    fixed one, and both on the live mesh. */
module Generation {
  import opened Wrappers
  import opened Model
  import opened Attention
  import opened KV
  import opened Stages
  import opened Trees
  import opened Workers
  import opened Coordinators
  import opened Fates
  import opened Targets
  import opened TreeTargets
  import opened SpecDecode
  import opened Failover

  /** A tree drafter: whatever it proposes below `base` and the head is arbitrary. */
  datatype Drafter = Drafter(
    naive: bool, nNodes: nat, branch: nat, maxDepth: nat, beam: nat,
    propose: seq<Token> -> (nat, nat) -> Token,
    first: seq<Token> -> seq<Token>,
    rank: seq<Token> -> (nat, seq<nat>) -> seq<(nat, Token)>)

  /** A level's candidates hang below nodes of its frontier. */
  ghost predicate RanksFrontier(d: Drafter)
  {
    forall base, depth, f, c :: c in d.rank(base)(depth, f) ==> c.0 < |f|
  }

  /** What a drafter may make of `base` and the head. */
  ghost predicate DraftedBy(d: Drafter, base: seq<Token>, head: Token, nodes: seq<Node>)
    requires RanksFrontier(d)
  {
    if d.naive then
      && Proposed(nodes, d.branch, d.propose(base)) && |nodes| <= Max(1, d.nNodes)
      && (|nodes| >= d.nNodes || forall i :: 0 <= i < |nodes| ==> Expanded(nodes, i, d.branch, d.maxDepth))
    else
      var first := d.first(base);
      nodes == Levels(FirstLevel(head, first, d.beam), Upwards(1, Min(d.beam, |first|)), 1, d.nNodes, d.maxDepth, d.beam, d.rank(base))
  }

  method DraftNodes(d: Drafter, base: seq<Token>, head: Token) returns (nodes: seq<Node>)
    requires RanksFrontier(d)
    ensures DraftTree(nodes, head) && DraftedBy(d, base, head, nodes)
  {
    if d.naive {
      nodes := BuildTree(head, d.nNodes, d.branch, d.maxDepth, d.propose(base));
    } else {
      nodes := BuildTreeBatched(head, d.nNodes, d.first(base), d.maxDepth, d.beam, d.rank(base));
    }
  }

  /** The positions sent with a tree: the prefix length plus each node's depth. */
  function NodePositions(pos: nat, nodes: seq<Node>): (ps: seq<int>)
    ensures |ps| == |nodes|
  {
    seq(|nodes|, i requires 0 <= i < |nodes| => pos + nodes[i].depth)
  }

  lemma TreeEmbedding(net: Net, base: seq<Token>, nodes: seq<Node>)
    requires Forest(Parents(nodes))
    ensures Embedded(net, Tokens(nodes)) == TreeRows(net, 0, base, Parents(nodes), Tokens(nodes))
  {
    hide *;
    forall i | 0 <= i < |nodes|
      ensures Embedded(net, Tokens(nodes))[i] == TreeRows(net, 0, base, Parents(nodes), Tokens(nodes))[i]
    {
      NodeEmbedding(net, base, Parents(nodes), Tokens(nodes), i);
    }
  }

  lemma DepthsArePositions(pos: nat, nodes: seq<Node>, head: Token)
    requires DraftTree(nodes, head)
    ensures Forest(Parents(nodes))
    ensures NodePositions(pos, nodes) == TreePositions(pos, Parents(nodes))
  {
    hide Path;
    DepthIsPathLength(nodes, head, 0);
    forall i | 0 <= i < |nodes| ensures nodes[i].depth == |Path(Parents(nodes), i)| - 1 {
      DepthIsPathLength(nodes, head, i);
    }
  }

  lemma NodeEmbedding(net: Net, base: seq<Token>, ps: seq<int>, ts: seq<Token>, i: nat)
    requires Forest(ps) && |ts| == |ps| && i < |ts|
    ensures Embedded(net, ts)[i] == TreeRows(net, 0, base, ps, ts)[i]
  {
    PathShape(ps, i);
    PathNonEmpty(base, ps, ts, i);
    var p := TreeLabels(base, ps, ts)[i];
    assert p[|p| - 1] == ts[i];
  }

  /** One tree round: draft a tree, verify all of it in one relay, follow the target through it,
      keep the accepted path.  It commits the next greedy tokens, whatever the tree, and leaves
      every stage with the cache of having decoded them one by one. */
  method TreeRound(target: TreeTarget, pos: nat, head: Token, d: Drafter, base: seq<Token>)
    returns (e: End, committed: seq<Token>, bonus: Token, ghost kept: seq<Token>, ghost nodes: seq<Node>, ghost path: seq<nat>)
    requires RanksFrontier(d) && base != [] && target.Warm(base) && pos == |base|
    modifies target.repr
    ensures target.Sound() && TreeEndsAs(target, e)
    ensures target.backend.OnSockets? ==> target.backend.coord.OthersKept(target.session) && target.open == old(target.open)
    ensures DraftTree(nodes, head) && DraftedBy(d, base, head, nodes)
    ensures e.Finished? ==> Commits(nodes, path, committed, bonus)
    ensures e.Finished? ==>
              && committed != [] && bonus == committed[|committed| - 1]
              && committed == Greedy(target.net, base + [head], |committed|)
              && target.Warm(kept) && kept + [bonus] == base + [head] + committed
              && |kept| == pos + |committed|
  {
    hide TreeTarget.Sound, TreeTarget.Warm, TreeTarget.Caching, Embedded, RanksFrontier;
    hide DraftTree, DraftedBy, TreeRows, TreePositions, TreeLabels, PathTokens, Chain, Greedy, Follows, Below, RootPath, Commits;
    var net := target.net;
    var drafted := DraftNodes(d, base, head);
    nodes, path := drafted, [];
    var flat, parents := Tokens(drafted), Parents(drafted);
    var tpos := NodePositions(pos, drafted);
    DepthsArePositions(pos, drafted, head);
    TreeEmbedding(net, base, drafted);
    var hidden := target.Verify(pos, Embedded(net, flat), tpos, parents, base, flat);
    if hidden.None? {
      e, committed, bonus, kept := Raised, [], head, base;
      return;
    }
    var preds := seq(|hidden.value|, i requires 0 <= i < |hidden.value| => net.choose(hidden.value[i]));
    var accepted;
    committed, accepted, bonus := AcceptTree(drafted, preds, head);
    path := accepted;
    PredsAreNext(net, base, nodes, hidden.value, preds);
    CommitsBelow(nodes, path, committed, bonus);
    AcceptedIsGreedy(net, base, head, nodes, preds, path, committed);
    TreeChain(base, parents, flat, path[|path| - 1]);
    kept := base + PathTokens(parents, flat, path[|path| - 1]);
    e := target.Keep(pos, accepted, |drafted|, Prefixes(base) + TreeLabels(base, parents, flat), kept);
  }

  lemma CommitsBelow(nodes: seq<Node>, path: seq<nat>, committed: seq<Token>, bonus: Token)
    requires Commits(nodes, path, committed, bonus)
    ensures RootPath(nodes, path) && path != [] && path[|path| - 1] < |nodes|
    ensures (forall j :: 0 <= j < |path| ==> path[j] < |nodes|) && committed == Below(nodes, path) + [bonus]
    ensures bonus == committed[|committed| - 1]
  {
  }

  /** A decode of trees is ended by a wire error, or by a holder left behind; not the latter where
      compactions are written or their loss is noticed. */
  ghost predicate TreeEndsAs(target: TreeTarget, e: End)
  {
    && (e.Stranded? ==> target.backend.OnMesh? && !target.Calm())
    && (target.Heard() ==> !e.Raised?)
  }

  lemma PredsAreNext(net: Net, base: seq<Token>, nodes: seq<Node>, hidden: seq<Hidden>, preds: seq<Token>)
    requires Forest(Parents(nodes)) && |preds| == |hidden| == |nodes|
    requires hidden == TreeRows(net, |net.layers|, base, Parents(nodes), Tokens(nodes))
    requires forall i :: 0 <= i < |nodes| ==> preds[i] == net.choose(hidden[i])
    ensures forall i :: 0 <= i < |nodes| ==>
              preds[i] == Next(net, base + PathTokens(Parents(nodes), Tokens(nodes), i))
  {
    forall i | 0 <= i < |nodes|
      ensures preds[i] == Next(net, base + PathTokens(Parents(nodes), Tokens(nodes), i))
    {
      assert TreeLabels(base, Parents(nodes), Tokens(nodes))[i]
          == base + PathTokens(Parents(nodes), Tokens(nodes), i);
    }
  }

  /** Tree drafting is exact: whatever trees are drafted, the stream is the plain greedy sequence
      up to the first end-of-sequence token or the limit, or a prefix of that if it is ended from
      outside. */
  method TreeStream(target: TreeTarget, prompt: seq<Token>, nNew: nat, eos: set<Token>, d: Drafter)
    returns (e: End, produced: seq<Token>)
    requires target.Unused() && RanksFrontier(d) && prompt != []
    modifies target.repr
    ensures target.Sound() && TreeEndsAs(target, e)
    ensures target.backend.OnSockets? ==> target.backend.coord.OthersKept(target.session)
    ensures produced <= Cut(Greedy(target.net, prompt, Max(1, nNew)), eos)
    ensures e.Finished? ==> produced == Cut(Greedy(target.net, prompt, Max(1, nNew)), eos)
    ensures e.Finished? && target.backend.OnSockets? ==> target.open
  {
    hide TreeTarget.Sound, TreeTarget.Warm, TreeTarget.Unused, RanksFrontier, Rows, Greedy, Cut, DraftTree, DraftedBy, Commits;
    var net, limit := target.net, Max(1, nNew);
    e, produced := Finished, [];
    var hidden := target.Prefill(prompt);
    if hidden.None? {
      return Raised, [];
    }
    var head := net.choose(hidden.value[|hidden.value| - 1]);
    FirstToken(net, prompt, hidden.value);
    ghost var kv := prompt;
    assert prompt + [] == prompt;
    if head in eos {
      StoppedGreedy(net, prompt, eos, limit, []);
      return;
    }
    produced := [head];
    var pos := |prompt|;
    while |produced| < nNew
      invariant target.Warm(kv) && pos == |kv|
      invariant target.backend.OnSockets? ==> target.backend.coord.OthersKept(target.session) && target.open
      invariant kv != [] && kv + [head] == prompt + produced
      invariant produced == Greedy(net, prompt, |produced|)
      invariant 0 < |produced| <= limit && forall t :: t in produced ==> t !in eos
      decreases nNew - |produced|
    {
      var base := prompt + produced[..|produced| - 1];
      assert base == kv by { assert kv == (kv + [head])[..|kv|]; }
      var committed, bonus;
      ghost var kept, nodes, path;
      e, committed, bonus, kept, nodes, path := TreeRound(target, pos, head, d, base);
      if !e.Finished? {
        CleanGreedyPrefix(net, prompt, eos, limit, produced);
        return;
      }
      pos, head, kv := pos + |committed|, bonus, kept;
      GreedyAppend(net, prompt, |produced|, |committed|);
      assert prompt + (produced + committed) == prompt + produced + committed;
      var j := EmitUntil(committed, nNew - |produced|, eos);
      EmittedIsGreedy(net, prompt, eos, limit, produced, committed, j);
      if j < |committed| {
        produced := produced + committed[..j];
        WarmIsSound(target, kv);
        return;
      }
      produced := produced + committed;
    }
    StoppedGreedy(net, prompt, eos, limit, produced);
    WarmIsSound(target, kv);
    e := Finished;
  }

  lemma WarmIsSound(target: TreeTarget, toks: seq<Token>)
    requires target.Warm(toks)
    ensures target.Sound()
  {
  }

  /** The last row of a prefill decides the first greedy token. */
  lemma FirstToken(net: Net, prompt: seq<Token>, hidden: seq<Hidden>)
    requires prompt != [] && hidden == Rows(net, |net.layers|, [], prompt)
    ensures hidden != [] && net.choose(hidden[|hidden| - 1]) == Next(net, prompt)
    ensures Greedy(net, prompt, 1) == [Next(net, prompt)]
  {
    assert [] + prompt[..|prompt|] == prompt;
  }

  // ----- speculation on the fixed pipeline, with the prefix cache -----

  /** The prompt would reuse the warm session although some host with layers does not stand where the
      reuse begins. */
  predicate Spoiled(coord: Coordinator, prompt: seq<Token>, link: Link, places: seq<Place>)
    requires prompt != [] && coord.Recorded() && |places| == |coord.hosts|
    reads coord`pc
  {
    var hit := coord.HitAt(prompt, link);
    hit.Some? && hit.value > 0 && !coord.Continues(coord.AtHit(places, coord.pc.len, hit.value, link), prompt[..hit.value])
  }

  /** Where the hosts stand for the session a prompt is decoded on, once it begins. */
  function AtStart(coord: Coordinator, prompt: seq<Token>, link: Link, places: seq<Place>): (at: seq<Place>)
    requires prompt != [] && coord.Recorded() && |places| == |coord.hosts|
    reads coord`pc
    ensures |at| == |coord.hosts|
  {
    var hit := coord.HitAt(prompt, link);
    if hit.Some? then coord.AtHit(places, coord.pc.len, hit.value, link) else coord.Unknown()
  }

  /** Where the hosts stand when a request on this prompt is over: all at the same tokens if it returned;
      else where the lost relay of the prompt or of a later block, or the lost roll-back, leaves them. */
  ghost predicate EndsAt(coord: Coordinator, prompt: seq<Token>, wire: Wire, start: seq<Place>, e: End,
                         open: bool, stood: seq<Place>)
    requires |start| == |coord.hosts|
  {
    if e.Finished? then open && exists toks :: prompt <= toks && stood == coord.Everywhere(toks)
    else if open then exists toks, length, k :: CutLost(coord, prompt, wire, toks, length, k, stood)
    else PromptLost(coord, prompt, wire, start, stood) || exists toks, block, k :: BlockLost(coord, prompt, wire, toks, block, k, stood)
  }

  ghost predicate PromptLost(coord: Coordinator, prompt: seq<Token>, wire: Wire, start: seq<Place>, stood: seq<Place>)
    requires |start| == |coord.hosts|
  {
    && FirstLost(RelayFates(coord, wire, 0), 0, |coord.hosts|) < |coord.hosts|
    && stood == coord.AfterRelay(start, RelayFates(coord, wire, 0), prompt)
  }

  ghost predicate BlockLost(coord: Coordinator, prompt: seq<Token>, wire: Wire, toks: seq<Token>, block: seq<Token>,
                            k: nat, stood: seq<Place>)
  {
    && prompt <= toks && block != [] && FirstLost(RelayFates(coord, wire, k), 0, |coord.hosts|) < |coord.hosts|
    && stood == coord.AfterRelay(coord.Everywhere(toks), RelayFates(coord, wire, k), toks + block)
  }

  ghost predicate CutLost(coord: Coordinator, prompt: seq<Token>, wire: Wire, toks: seq<Token>, length: nat, k: nat,
                          stood: seq<Place>)
  {
    && prompt <= toks && |prompt| <= length <= |toks| && !coord.ReachesAll(CutLink(coord, wire, k))
    && stood == coord.After(coord.Everywhere(toks), Truncate(length), CutLink(coord, wire, k))
  }

  /** Speculative streaming with the prefix cache, whatever fails on the wire and wherever earlier failures
      have left the warm session: as long as the prompt does not hit one that is not standing right, it
      yields what it yields with the cache disabled, or a prefix of that if it raises.  `stood` is where
      the decode leaves the hosts, and the record is of that, rolled back where the sockets allow: they
      are open but for a lost relay. */
  method GenerateSpeculativeStream(coord: Coordinator, draftNet: Net, prompt: seq<Token>, nNew: nat,
                                   eos: set<Token>, K: nat, perturb: (nat, Token) -> Token,
                                   begin: Link, wire: Wire, end: nat, later: nat, places: seq<Place>)
    returns (e: End, yielded: seq<Token>, stood: seq<Place>, open: bool, left: Link)
    requires coord.HostsValid() && prompt != [] && |draftNet.layers| > 0
    requires |places| == |coord.hosts| && coord.RecordStands(places) && !Spoiled(coord, prompt, begin, places)
    modifies coord, coord.hosts
    ensures coord.HostsValid() && coord.Recorded() && !e.Stranded? && |stood| == |coord.hosts|
    ensures yielded <= Cut(Greedy(coord.net, prompt, Max(1, nNew)), eos)
    ensures e.Finished? ==> yielded == Cut(Greedy(coord.net, prompt, Max(1, nNew)), eos)
    ensures Lossless(coord, wire) ==> e.Finished?
    ensures EndsAt(coord, prompt, wire, old(AtStart(coord, prompt, begin, places)), e, open, stood)
    ensures FirstLost(RelayFates(coord, wire, 0), 0, |coord.hosts|) < |coord.hosts| ==>
              e.Raised? && !open && PromptLost(coord, prompt, wire, old(AtStart(coord, prompt, begin, places)), stood)
    ensures RecordedAs(coord, prompt, stood, if open then Open(end) else Closed)
    ensures open && coord.ReachesAll(Open(end)) && coord.ReachesAll(Open(later)) ==> left.Open?
    ensures coord.pc.sid.Some? ==>
              coord.pc.sid == if old(coord.HitAt(prompt, begin)).Some? then old(coord.pc.sid) else Some(old(coord.NextId()))
    ensures coord.counter == if old(coord.HitAt(prompt, begin)).Some? then old(coord.counter) else old(coord.counter) % 0xFFFF + 1
  {
    hide Coordinator.HostsValid, Coordinator.Warm, Coordinator.Stands, Coordinator.After, Coordinator.AfterRelay, Greedy, Cut,
      Coordinator.Everywhere, Coordinator.Continues, Coordinator.HitAt;
    var start := AtStart(coord, prompt, begin, places);
    var sid, prefilled;
    ghost var at;
    sid, prefilled, at := coord.BeginSession(prompt, begin, places);
    e, yielded, stood, open := StreamOn(coord, sid, prefilled, start, draftNet, prompt, nNew, eos, K, perturb, wire);
    left := coord.EndSession(sid, prompt, if open then Open(end) else Closed, later, stood);
  }

  /** The prompt is recorded as warm, wherever its hosts stand, unless a control frame is lost. */
  ghost predicate RecordedAs(coord: Coordinator, prompt: seq<Token>, stood: seq<Place>, link: Link)
    reads coord, coord.hosts
  {
    coord.pcEnabled ==>
      if link.Closed? || coord.ReachesAll(link) then
        && coord.pc.ids == Some(prompt) && coord.pc.sid.Some?
        && coord.RecordStands(coord.After(stood, Truncate(|prompt|), link))
      else coord.pc == PrefixCache(None, None, 0)
  }

  /** The speculative loop over the pipeline, on a session that already holds `prefilled` tokens. */
  method StreamOn(coord: Coordinator, sid: nat, prefilled: nat, at: seq<Place>, draftNet: Net, prompt: seq<Token>,
                  nNew: nat, eos: set<Token>, K: nat, perturb: (nat, Token) -> Token, wire: Wire)
    returns (e: End, yielded: seq<Token>, stood: seq<Place>, open: bool)
    requires coord.HostsValid() && prefilled < |prompt| && |at| == |coord.hosts| && coord.Stands(sid, at)
    requires prefilled > 0 ==> coord.Continues(at, prompt[..prefilled])
    requires |draftNet.layers| > 0
    modifies coord.hosts
    ensures coord.HostsValid() && |stood| == |coord.hosts| && coord.Stands(sid, stood) && !e.Stranded?
    ensures yielded <= Cut(Greedy(coord.net, prompt, Max(1, nNew)), eos)
    ensures e.Finished? ==> yielded == Cut(Greedy(coord.net, prompt, Max(1, nNew)), eos)
    ensures Lossless(coord, wire) ==> e.Finished?
    ensures EndsAt(coord, prompt, wire, at, e, open, stood)
    ensures FirstLost(RelayFates(coord, wire, 0), 0, |coord.hosts|) < |coord.hosts| ==>
              e.Raised? && !open && PromptLost(coord, prompt, wire, at, stood)
  {
    hide Coordinator.HostsValid, Coordinator.Warm, Coordinator.Stands, Coordinator.After, Coordinator.AfterRelay, Greedy, Cut,
      Coordinator.Everywhere, Coordinator.Continues, FirstLost, RelayFates, Target.Valid, Stopped, EndsAt, PromptLost;
    var socket := new SocketTarget(coord, sid, prefilled, wire, prompt[..prefilled], at);
    var target := new Target.OfSocket(socket);
    var draft := new GreedyDraft(draftNet);
    var stats := new SpecStats();
    e, yielded := SpeculativeGreedyStream(target, draft, prompt, nNew, eos, K, perturb, stats);
    stood, open := socket.places, socket.open;
    SocketEnds(target, socket, prompt, at, e);
  }

  /** Where the sockets' hosts stand once the loop over them is over. */
  lemma SocketEnds(target: Target, socket: SocketTarget, prompt: seq<Token>, at: seq<Place>, e: End)
    requires target.backend == Socket(socket) && socket.start == at && |at| == |socket.coord.hosts| && prompt != []
    requires if e.Finished? then target.Valid() && prompt <= target.toks else Stopped(target, prompt)
    ensures socket.coord.HostsValid() && |socket.places| == |socket.coord.hosts|
    ensures socket.coord.Stands(socket.session, socket.places)
    ensures EndsAt(socket.coord, prompt, socket.wire, at, e, socket.open, socket.places)
    ensures !e.Finished? && target.toks == [] ==>
              !socket.open && PromptLost(socket.coord, prompt, socket.wire, at, socket.places)
  {
    hide Coordinator.HostsValid, Coordinator.Warm, Coordinator.Stands, Coordinator.After, Coordinator.AfterRelay,
      Coordinator.Everywhere, Coordinator.Continues, FirstLost, RelayFates;
    var coord := socket.coord;
    if e.Finished? {
      assert socket.places == coord.Everywhere(socket.toks);
    } else if socket.open {
      assert CutLost(coord, prompt, socket.wire, socket.toks, socket.cut, socket.rolledBack - 1, socket.places);
    } else if socket.toks != [] {
      assert BlockLost(coord, prompt, socket.wire, socket.toks, socket.block, socket.relayed - 1, socket.places);
    } else {
      assert [] + socket.block == prompt;
      assert PromptLost(coord, prompt, socket.wire, at, socket.places);
    }
  }

  // ----- on the live mesh -----

  /** Speculative streaming on the live mesh.  Nothing fails over: a lost hop raises.  In a star whose
      roll-backs are written, and otherwise as long as none leaves a holder behind, what is streamed is a
      prefix of the greedy answer, and all of it if nothing is raised. */
  method SpeculativeStreamOnMesh(head: HeadNode, session: nat, prefilled: nat, draftNet: Net, prompt: seq<Token>,
                                 nNew: nat, eos: set<Token>, K: nat, perturb: (nat, Token) -> Token, weather: Weather)
    returns (e: End, yielded: seq<Token>)
    requires head.Valid() && prefilled < |prompt| && head.Ready(session, prompt[..prefilled]) && |draftNet.layers| > 0
    modifies head, head.local, head.mesh.provider, head.mesh.workers.Values
    ensures head.Valid()
    ensures yielded <= Cut(Greedy(head.net, prompt, Max(1, nNew)), eos)
    ensures e.Finished? ==> yielded == Cut(Greedy(head.net, prompt, Max(1, nNew)), eos)
    ensures e.Stranded? ==> head.chain || !AllWritten(weather)
    ensures e.Raised? ==> !old(head.Routable(session, prefilled))
                          || exists k :: 0 <= k < |weather.relays| && !head.Answers(weather.relays[k])
  {
    hide HeadNode.Valid, HeadNode.Warm, HeadNode.Ready, Greedy, Cut;
    var live := new LiveTarget(head, session, prefilled, weather, prompt[..prefilled]);
    var target := new Target.OfLive(live);
    var draft := new GreedyDraft(draftNet);
    var stats := new SpecStats();
    e, yielded := SpeculativeGreedyStream(target, draft, prompt, nNew, eos, K, perturb, stats);
  }

  /** Tree streaming on the live mesh: the same, and a tree dials every holder, so that a chain is no
      exception. */
  method TreeStreamOnMesh(head: HeadNode, session: nat, prompt: seq<Token>, nNew: nat, eos: set<Token>, d: Drafter,
                          weather: Weather)
    returns (e: End, produced: seq<Token>)
    requires head.Valid() && RanksFrontier(d) && prompt != [] && session !in head.local.sessions
    requires forall id :: id in head.mesh.workers ==> session !in head.mesh.workers[id].sessions
    modifies head, head.local, head.mesh.provider, head.mesh.workers.Values
    ensures head.Valid()
    ensures produced <= Cut(Greedy(head.net, prompt, Max(1, nNew)), eos)
    ensures e.Finished? ==> produced == Cut(Greedy(head.net, prompt, Max(1, nNew)), eos)
    ensures e.Stranded? ==> !AllWritten(weather)
    ensures e.Raised? ==> !old(head.mesh.provider.Covered(head.mesh.provider.down))
                          || exists k :: 0 <= k < |weather.relays| && !head.Answers(weather.relays[k])
  {
    hide HeadNode.Valid, RanksFrontier, Greedy, Cut;
    var target := new TreeTarget.OfMesh(head, session, weather);
    e, produced := TreeStream(target, prompt, nNew, eos, d);
  }
}
