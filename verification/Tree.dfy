/** Draft trees: building them, masking them, and following the target through them. */
module Trees {
  import opened Model
  import opened Attention
  import opened KV

  /** Every parent pointer is -1 (attached to the prefix) or an earlier node. */
  predicate Forest(parents: seq<int>)
  {
    forall i :: 0 <= i < |parents| ==> -1 <= parents[i] < i
  }

  /** The nodes from a root down to node `i`. */
  function Path(parents: seq<int>, i: nat): (path: seq<nat>)
    requires Forest(parents) && i < |parents|
    ensures path != []
  {
    if parents[i] == -1 then [i] else Path(parents, parents[i]) + [i]
  }

  lemma {:induction false} PathShape(parents: seq<int>, i: nat)
    requires Forest(parents) && i < |parents|
    ensures Ascending(Path(parents, i), i + 1)
    ensures Path(parents, i)[|Path(parents, i)| - 1] == i
    ensures forall j :: 0 <= j < |Path(parents, i)| ==>
              Path(parents, Path(parents, i)[j]) == Path(parents, i)[..j + 1]
  {
    if parents[i] != -1 {
      PathShape(parents, parents[i]);
      var up := Path(parents, parents[i]);
      forall j | 0 <= j < |up| + 1
        ensures Path(parents, (up + [i])[j]) == (up + [i])[..j + 1]
      {
        if j < |up| { assert (up + [i])[..j + 1] == up[..j + 1]; }
      }
    }
  }

  // ----- the mask -----

  /** Node `i` attends to the whole prefix and to its own root path. */
  function TreeMask(parents: seq<int>, prefixLen: nat): (rows: seq<seq<bool>>)
    requires Forest(parents)
    ensures |rows| == |parents|
  {
    seq(|parents|, i requires 0 <= i < |parents| =>
      seq(prefixLen + |parents|, s => s < prefixLen || s - prefixLen in Path(parents, i)))
  }

  /** Rebuild the mask from the parent pointers.  The walk up the tree ends because a parent
      precedes its child. */
  method BuildTreeMask(parents: seq<int>, prefixLen: nat) returns (m: seq<seq<bool>>)
    requires Forest(parents)
    ensures m == TreeMask(parents, prefixLen)
  {
    var t := |parents|;
    m := seq(t, _ => seq(prefixLen + t, _ => false));
    for i := 0 to t
      invariant |m| == t && forall j :: 0 <= j < t ==> |m[j]| == prefixLen + t
      invariant forall j :: 0 <= j < i ==> m[j] == TreeMask(parents, prefixLen)[j]
      invariant forall j, s :: i <= j < t && 0 <= s < prefixLen + t ==> !m[j][s]
    {
      var row := seq(prefixLen, _ => true) + m[i][prefixLen..];
      var a := i as int;
      while a != -1
        invariant -1 <= a <= i && |row| == prefixLen + t
        invariant forall s :: 0 <= s < prefixLen ==> row[s]
        invariant forall s :: 0 <= s < t ==>
          (s in Path(parents, i) <==> row[prefixLen + s] || (a != -1 && s in Path(parents, a)))
        decreases a
      {
        row := row[prefixLen + a := true];
        a := parents[a];
      }
      m := m[i := row];
    }
  }

  // ----- what the nodes stand for -----

  /** The tokens below the prefix on the way down to node `i`, ending with its own. */
  function PathTokens(parents: seq<int>, toks: seq<Token>, i: nat): seq<Token>
    requires Forest(parents) && |toks| == |parents| && i < |parents|
  {
    PathShape(parents, i);
    Gather(toks, Path(parents, i))
  }

  function TreeLabels(base: seq<Token>, parents: seq<int>, toks: seq<Token>): (news: seq<Label>)
    requires Forest(parents) && |toks| == |parents|
    ensures |news| == |parents|
  {
    seq(|parents|, i requires 0 <= i < |parents| => base + PathTokens(parents, toks, i))
  }

  /** The cache slots on node `i`'s chain: the prefix and its root path. */
  function TreeChains(prefixLen: nat, parents: seq<int>): (chains: seq<seq<nat>>)
    requires Forest(parents)
    ensures |chains| == |parents|
  {
    seq(|parents|, i requires 0 <= i < |parents| => KeepIndices(prefixLen, Path(parents, i)))
  }

  /** Node positions: the prefix length plus the depth, the root's being 0. */
  function TreePositions(prefixLen: nat, parents: seq<int>): (ps: seq<int>)
    requires Forest(parents)
    ensures |ps| == |parents|
  {
    seq(|parents|, i requires 0 <= i < |parents| => prefixLen + |Path(parents, i)| - 1)
  }

  /** The slots of a node's root path, appended after the prefix, carry the prefixes of its label. */
  lemma TreeChain(base: seq<Token>, parents: seq<int>, toks: seq<Token>, i: nat)
    requires Forest(parents) && |toks| == |parents| && i < |parents|
    ensures Chain(Prefixes(base) + TreeLabels(base, parents, toks),
                  KeepIndices(|base|, Path(parents, i)), base + PathTokens(parents, toks, i))
  {
    PathShape(parents, i);
    var lab := Prefixes(base) + TreeLabels(base, parents, toks);
    var idx, p := KeepIndices(|base|, Path(parents, i)), base + PathTokens(parents, toks, i);
    assert Ascending(idx, |lab|) by { KeepIndicesAscend(|base|, Path(parents, i), |parents|); }
    forall j | 0 <= j < |p| ensures lab[idx[j]] == p[..j + 1] {
      hide *;
      if j < |base| {
        PrefixSlot(base, parents, toks, i, j);
      } else {
        NodeSlot(base, parents, toks, i, j - |base|);
      }
    }
  }

  lemma KeepIndicesAscend(n: nat, path: seq<nat>, t: nat)
    requires Ascending(path, t)
    ensures Ascending(KeepIndices(n, path), n + t)
  {
  }

  lemma PrefixSlot(base: seq<Token>, parents: seq<int>, toks: seq<Token>, i: nat, j: nat)
    requires Forest(parents) && |toks| == |parents| && i < |parents| && j < |base|
    ensures var lab := Prefixes(base) + TreeLabels(base, parents, toks);
            var s := KeepIndices(|base|, Path(parents, i))[j];
            s < |lab| && lab[s] == (base + PathTokens(parents, toks, i))[..j + 1]
  {
    assert (base + PathTokens(parents, toks, i))[..j + 1] == base[..j + 1];
  }

  lemma NodeSlot(base: seq<Token>, parents: seq<int>, toks: seq<Token>, i: nat, d: nat)
    requires Forest(parents) && |toks| == |parents| && i < |parents| && d < |Path(parents, i)|
    ensures |PathTokens(parents, toks, i)| == |Path(parents, i)|
    ensures var lab := Prefixes(base) + TreeLabels(base, parents, toks);
            var s := KeepIndices(|base|, Path(parents, i))[|base| + d];
            s < |lab| && lab[s] == (base + PathTokens(parents, toks, i))[..|base| + d + 1]
  {
    hide Path;
    var path := Path(parents, i);
    PathTokensPrefix(parents, toks, i, d);
    var ts := PathTokens(parents, toks, i);
    assert KeepIndices(|base|, path)[|base| + d] == |base| + path[d];
    assert (base + ts)[..|base| + d + 1] == base + ts[..d + 1];
  }

  /** The tokens down to an ancestor are a prefix of the tokens down to the node. */
  lemma PathTokensPrefix(parents: seq<int>, toks: seq<Token>, i: nat, d: nat)
    requires Forest(parents) && |toks| == |parents| && i < |parents| && d < |Path(parents, i)|
    ensures Path(parents, i)[d] < |parents| && |PathTokens(parents, toks, i)| == |Path(parents, i)|
    ensures PathTokens(parents, toks, Path(parents, i)[d]) == PathTokens(parents, toks, i)[..d + 1]
  {
    hide Path;
    PathShape(parents, i);
    var path := Path(parents, i);
    PathShape(parents, path[d]);
    assert Path(parents, path[d]) == path[..d + 1];
  }

  /** The rebuilt mask shows every node exactly the chain of its label. */
  lemma TreeMasksChains(base: seq<Token>, parents: seq<int>, toks: seq<Token>)
    requires Forest(parents) && |toks| == |parents|
    ensures MasksChains(Prefixes(base) + TreeLabels(base, parents, toks), TreeMask(parents, |base|),
                        TreeLabels(base, parents, toks), TreeChains(|base|, parents))
  {
    var lab, news := Prefixes(base) + TreeLabels(base, parents, toks), TreeLabels(base, parents, toks);
    forall i | 0 <= i < |parents| && news[i] != []
      ensures Selects(TreeMask(parents, |base|)[i], TreeChains(|base|, parents)[i], |lab|)
      ensures Chain(lab, TreeChains(|base|, parents)[i], news[i])
    {
      TreeChain(base, parents, toks, i);
      TreeRowSelects(|base|, parents, i);
    }
  }

  lemma TreeRowSelects(n: nat, parents: seq<int>, i: nat)
    requires Forest(parents) && i < |parents|
    ensures Selects(TreeMask(parents, n)[i], KeepIndices(n, Path(parents, i)), n + |parents|)
  {
    KeepIndicesMembers(n, Path(parents, i), n + |parents|);
  }

  lemma KeepIndicesMembers(n: nat, path: seq<nat>, bound: nat)
    ensures forall s :: 0 <= s < bound ==>
              (s in KeepIndices(n, path) <==> s < n || s - n in path)
  {
    var keep := KeepIndices(n, path);
    forall s | 0 <= s < bound ensures s in keep <==> s < n || s - n in path {
      if s < n {
        assert keep[s] == s;
      } else if s - n in path {
        var i :| 0 <= i < |path| && path[i] == s - n;
        assert keep[n + i] == s;
      }
    }
  }

  // ----- nodes -----

  datatype Node = Node(tok: Token, parent: int, depth: nat)

  function Parents(nodes: seq<Node>): (ps: seq<int>)
    ensures |ps| == |nodes|
  {
    seq(|nodes|, i requires 0 <= i < |nodes| => nodes[i].parent)
  }

  function Tokens(nodes: seq<Node>): (ts: seq<Token>)
    ensures |ts| == |nodes|
  {
    seq(|nodes|, i requires 0 <= i < |nodes| => nodes[i].tok)
  }

  /** What the drafters promise of a tree: node 0 is the head, every other node hangs one deeper
      below an earlier one. */
  predicate DraftTree(nodes: seq<Node>, head: Token)
  {
    && nodes != [] && nodes[0] == Node(head, -1, 0)
    && forall i :: 0 < i < |nodes| ==>
         0 <= nodes[i].parent < i && nodes[i].depth == nodes[nodes[i].parent].depth + 1
  }

  lemma {:induction false} DepthIsPathLength(nodes: seq<Node>, head: Token, i: nat)
    requires DraftTree(nodes, head) && i < |nodes|
    ensures Forest(Parents(nodes))
    ensures |Path(Parents(nodes), i)| == nodes[i].depth + 1
    ensures Path(Parents(nodes), i)[0] == 0
  {
    if i > 0 {
      DepthIsPathLength(nodes, head, nodes[i].parent);
    }
  }

  lemma GrowTree(nodes: seq<Node>, head: Token, tok: Token, parent: nat)
    requires DraftTree(nodes, head) && parent < |nodes|
    ensures DraftTree(nodes + [Node(tok, parent, nodes[parent].depth + 1)], head)
  {
  }

  /** How many of the first `n` nodes hang below node `p`. */
  function Kids(nodes: seq<Node>, p: int, n: nat): (k: nat)
    requires n <= |nodes|
    ensures k <= n
  {
    if n == 0 then 0 else Kids(nodes, p, n - 1) + (if nodes[n - 1].parent == p then 1 else 0)
  }

  lemma {:induction false} KidsStay(nodes: seq<Node>, more: seq<Node>, p: int, n: nat)
    requires n <= |nodes|
    ensures Kids(nodes + more, p, n) == Kids(nodes, p, n)
    decreases n
  {
    if n > 0 { KidsStay(nodes, more, p, n - 1); }
  }

  lemma KidsGrow(nodes: seq<Node>, n: Node, p: int)
    ensures Kids(nodes + [n], p, |nodes| + 1) == Kids(nodes, p, |nodes|) + (if n.parent == p then 1 else 0)
  {
    KidsStay(nodes, [n], p, |nodes|);
  }

  lemma {:induction false} NoKids(nodes: seq<Node>, p: int, n: nat)
    requires n <= |nodes| && forall i :: 0 <= i < n ==> nodes[i].parent < p
    ensures Kids(nodes, p, n) == 0
    decreases n
  {
    if n > 0 { NoKids(nodes, p, n - 1); }
  }

  /** Every node is what the draft proposes at its place below its parent. */
  predicate Proposed(nodes: seq<Node>, branch: nat, propose: (nat, nat) -> Token)
  {
    forall i :: 0 < i < |nodes| && nodes[i].parent >= 0 ==>
      var j := Kids(nodes, nodes[i].parent, i);
      j < branch && nodes[i].tok == propose(nodes[i].parent, j)
  }

  /** A node that can be expanded has all its children. */
  predicate Expanded(nodes: seq<Node>, i: nat, branch: nat, maxDepth: nat)
    requires i < |nodes|
  {
    nodes[i].depth < maxDepth ==> Kids(nodes, i, |nodes|) == branch
  }

  /** Best-first drafting.  The draft's scores only decide which frontier node is expanded next, so the
      pop takes any frontier element; `propose(i, j)` is the j-th candidate below node `i`.  The tree is
      full, or every node above the depth limit has all its candidates below it. */
  method BuildTree(head: Token, nNodes: nat, branch: nat, maxDepth: nat,
                   propose: (nat, nat) -> Token) returns (nodes: seq<Node>)
    ensures DraftTree(nodes, head) && Proposed(nodes, branch, propose)
    ensures |nodes| <= if nNodes < 1 then 1 else nNodes
    ensures forall i :: 0 <= i < |nodes| ==> nodes[i].depth <= maxDepth
    ensures |nodes| >= nNodes || forall i :: 0 <= i < |nodes| ==> Expanded(nodes, i, branch, maxDepth)
  {
    hide DraftTree, Proposed, Kids;
    nodes := [Node(head, -1, 0)];
    RootAlone(head, branch, propose);
    var frontier: set<nat> := {0};
    while |nodes| < nNodes && frontier != {}
      invariant DraftTree(nodes, head) && Proposed(nodes, branch, propose)
      invariant |nodes| <= if nNodes < 1 then 1 else nNodes
      invariant forall i :: i in frontier ==> i < |nodes| && Kids(nodes, i, |nodes|) == 0
      invariant forall i :: 0 <= i < |nodes| ==> nodes[i].depth <= maxDepth
      invariant |nodes| >= nNodes || forall i :: 0 <= i < |nodes| && i !in frontier ==> Expanded(nodes, i, branch, maxDepth)
      decreases nNodes - |nodes|, |frontier|
    {
      var idx :| idx in frontier;
      ghost var before := |nodes|;
      if nodes[idx].depth < maxDepth {
        nodes, frontier := Expand(head, nodes, frontier, idx, nNodes, branch, maxDepth, propose);
      } else {
        frontier := frontier - {idx};
      }
    }
  }

  lemma RootAlone(head: Token, branch: nat, propose: (nat, nat) -> Token)
    ensures var nodes := [Node(head, -1, 0)];
            DraftTree(nodes, head) && Proposed(nodes, branch, propose) && Kids(nodes, 0, 1) == 0
  {
  }

  /** Hang the candidates of one frontier node below it, as long as there is room. */
  method Expand(ghost head: Token, start: seq<Node>, open: set<nat>, idx: nat, nNodes: nat, branch: nat,
                ghost maxDepth: nat, propose: (nat, nat) -> Token)
    returns (nodes: seq<Node>, frontier: set<nat>)
    requires DraftTree(start, head) && Proposed(start, branch, propose) && idx in open && |start| < nNodes
    requires forall i :: i in open ==> i < |start| && Kids(start, i, |start|) == 0
    requires forall i :: 0 <= i < |start| ==> start[i].depth <= maxDepth
    requires start[idx].depth < maxDepth
    requires forall i :: 0 <= i < |start| && i !in open ==> Expanded(start, i, branch, maxDepth)
    ensures DraftTree(nodes, head) && Proposed(nodes, branch, propose) && |start| <= |nodes| <= nNodes
    ensures |nodes| == |start| ==> frontier == open - {idx}
    ensures forall i :: i in frontier ==> i < |nodes| && Kids(nodes, i, |nodes|) == 0
    ensures forall i :: 0 <= i < |nodes| ==> nodes[i].depth <= maxDepth
    ensures |nodes| >= nNodes || forall i :: 0 <= i < |nodes| && i !in frontier ==> Expanded(nodes, i, branch, maxDepth)
  {
    hide DraftTree, Proposed, Kids;
    nodes, frontier := start, open - {idx};
    for j := 0 to branch
      invariant DraftTree(nodes, head) && Proposed(nodes, branch, propose)
      invariant |start| <= |nodes| <= nNodes && nodes[idx] == start[idx]
      invariant |nodes| == |start| ==> frontier == open - {idx}
      invariant Kids(nodes, idx, |nodes|) == j && idx !in frontier
      invariant forall i :: i in frontier ==> i < |nodes| && Kids(nodes, i, |nodes|) == 0
      invariant forall i :: 0 <= i < |nodes| ==> nodes[i].depth <= maxDepth
      invariant forall i :: 0 <= i < |nodes| && i !in frontier && i != idx ==> Expanded(nodes, i, branch, maxDepth)
    {
      if |nodes| >= nNodes {
        break;
      }
      var n := Node(propose(idx, j), idx, nodes[idx].depth + 1);
      OneProposed(nodes, head, n, branch, propose);
      GrowTree(nodes, head, n.tok, idx);
      forall p: int ensures Kids(nodes + [n], p, |nodes| + 1) == Kids(nodes, p, |nodes|) + (if n.parent == p then 1 else 0) {
        KidsGrow(nodes, n, p);
      }
      nodes := nodes + [n];
      frontier := frontier + {|nodes| - 1};
    }
  }

  lemma OneProposed(nodes: seq<Node>, head: Token, n: Node, branch: nat, propose: (nat, nat) -> Token)
    requires DraftTree(nodes, head) && Proposed(nodes, branch, propose) && 0 <= n.parent < |nodes|
    requires var j := Kids(nodes, n.parent, |nodes|); j < branch && n.tok == propose(n.parent, j)
    ensures Proposed(nodes + [n], branch, propose) && Kids(nodes + [n], |nodes|, |nodes| + 1) == 0
  {
    hide Kids;
    var more := nodes + [n];
    forall i | 0 < i < |more| && more[i].parent >= 0
      ensures var j := Kids(more, more[i].parent, i); j < branch && more[i].tok == propose(more[i].parent, j)
    {
      KidsStay(nodes, [n], more[i].parent, i);
    }
    NoKids(more, |nodes|, |nodes| + 1);
  }

  /** The frontier nodes exist and lie at the given depth. */
  predicate OnLevel(nodes: seq<Node>, frontier: seq<nat>, depth: nat)
  {
    forall i :: 0 <= i < |frontier| ==> frontier[i] < |nodes| && nodes[frontier[i]].depth == depth
  }

  /** The candidates of a level, hung below its frontier. */
  function Hung(frontier: seq<nat>, cands: seq<(nat, Token)>, depth: nat): (ns: seq<Node>)
    requires forall c :: c in cands ==> c.0 < |frontier|
    ensures |ns| == |cands|
  {
    seq(|cands|, c requires 0 <= c < |cands| =>
      assert cands[c] in cands; Node(cands[c].1, frontier[cands[c].0], depth + 1))
  }

  /** The first `n` of the nodes from `from` on. */
  function Upwards(from: nat, n: nat): (ns: seq<nat>)
    ensures |ns| == n
  {
    seq(n, k requires 0 <= k < n => from + k)
  }

  /** Level by level: as many candidates as there is room for join the tree, in the draft's order, and the
      first `beam` of them are expanded next. */
  function Levels(nodes: seq<Node>, frontier: seq<nat>, depth: nat, nNodes: nat, maxDepth: nat, beam: nat,
                  rank: (nat, seq<nat>) -> seq<(nat, Token)>): seq<Node>
    requires forall d, f, c :: c in rank(d, f) ==> c.0 < |f|
    decreases maxDepth - depth
  {
    if frontier == [] || |nodes| >= nNodes || depth >= maxDepth then nodes else
      var cands := rank(depth, frontier);
      var n := Min(|cands|, nNodes - |nodes|);
      assert forall c :: c in cands[..n] ==> c in cands;
      Levels(nodes + Hung(frontier, cands[..n], depth), Upwards(|nodes|, Min(beam, n)), depth + 1, nNodes, maxDepth, beam, rank)
  }

  /** The root and its best candidates, whatever the node limit. */
  function FirstLevel(head: Token, first: seq<Token>, beam: nat): (nodes: seq<Node>)
    ensures |nodes| == 1 + Min(beam, |first|)
  {
    [Node(head, -1, 0)] + seq(Min(beam, |first|), k requires 0 <= k < Min(beam, |first|) => Node(first[k], 0, 1))
  }

  /** Level-by-level drafting: every candidate of a level joins the tree, the first `beam` of them
      go on.  The first level joins whatever the node limit, so the tree may exceed it by that level.
      `rank(depth, frontier)` is the level's scored candidate list in the draft's order, each a position
      in the frontier and a token; it is arbitrary. */
  method BuildTreeBatched(head: Token, nNodes: nat, first: seq<Token>, maxDepth: nat, beam: nat,
                          rank: (nat, seq<nat>) -> seq<(nat, Token)>) returns (nodes: seq<Node>)
    requires forall d, f, c :: c in rank(d, f) ==> c.0 < |f|
    ensures DraftTree(nodes, head)
    ensures 1 + Min(beam, |first|) <= |nodes| <= Max(nNodes, 1 + Min(beam, |first|))
    ensures forall i :: 0 <= i < |nodes| ==> nodes[i].depth <= Max(1, maxDepth)
    ensures nodes == Levels(FirstLevel(head, first, beam), Upwards(1, Min(beam, |first|)), 1, nNodes, maxDepth, beam, rank)
  {
    hide Levels;
    nodes := [Node(head, -1, 0)];
    var roots := seq(Min(beam, |first|), k requires 0 <= k < |first| => (0, first[k]));
    var frontier: seq<nat>;
    nodes, frontier := ExpandLevel(head, nodes, [0], 0, roots, nNodes + |roots| + 1, |roots|);
    assert nodes == FirstLevel(head, first, beam);
    ghost var all := Levels(nodes, frontier, 1, nNodes, maxDepth, beam, rank);
    var depth := 1;
    while frontier != [] && |nodes| < nNodes && depth < maxDepth
      invariant DraftTree(nodes, head) && OnLevel(nodes, frontier, depth)
      invariant 1 + |roots| <= |nodes| <= Max(nNodes, 1 + |roots|)
      invariant depth <= Max(1, maxDepth) && forall i :: 0 <= i < |nodes| ==> nodes[i].depth <= depth
      invariant all == Levels(nodes, frontier, depth, nNodes, maxDepth, beam, rank)
      decreases maxDepth - depth
    {
      LevelsNext(nodes, frontier, depth, nNodes, maxDepth, beam, rank);
      nodes, frontier := ExpandLevel(head, nodes, frontier, depth, rank(depth, frontier), nNodes, beam);
      depth := depth + 1;
    }
    LevelsEnd(nodes, frontier, depth, nNodes, maxDepth, beam, rank);
  }

  lemma LevelsNext(nodes: seq<Node>, frontier: seq<nat>, depth: nat, nNodes: nat, maxDepth: nat, beam: nat,
                   rank: (nat, seq<nat>) -> seq<(nat, Token)>)
    requires forall d, f, c :: c in rank(d, f) ==> c.0 < |f|
    requires frontier != [] && |nodes| < nNodes && depth < maxDepth
    ensures var cands := rank(depth, frontier);
            var n := Min(|cands|, nNodes - |nodes|);
            && (forall c :: c in cands[..n] ==> c.0 < |frontier|)
            && Levels(nodes, frontier, depth, nNodes, maxDepth, beam, rank)
               == Levels(nodes + Hung(frontier, cands[..n], depth), Upwards(|nodes|, Min(beam, n)), depth + 1, nNodes, maxDepth, beam, rank)
  {
    assert forall c :: c in rank(depth, frontier)[..Min(|rank(depth, frontier)|, nNodes - |nodes|)] ==> c in rank(depth, frontier);
  }

  lemma LevelsEnd(nodes: seq<Node>, frontier: seq<nat>, depth: nat, nNodes: nat, maxDepth: nat, beam: nat,
                  rank: (nat, seq<nat>) -> seq<(nat, Token)>)
    requires forall d, f, c :: c in rank(d, f) ==> c.0 < |f|
    requires frontier == [] || |nodes| >= nNodes || depth >= maxDepth
    ensures Levels(nodes, frontier, depth, nNodes, maxDepth, beam, rank) == nodes
  {
  }

  lemma EmptyLevel(nodes: seq<Node>, depth: nat)
    ensures OnLevel(nodes, [], depth)
  {
  }

  lemma LevelAt(start: seq<Node>, nodes: seq<Node>, frontier: seq<nat>, depth: nat, i: nat)
    requires OnLevel(start, frontier, depth) && start <= nodes && i < |frontier|
    ensures frontier[i] < |nodes| && nodes[frontier[i]].depth == depth
  {
  }

  lemma LevelGrows(nodes: seq<Node>, next: seq<nat>, depth: nat, n: Node)
    requires OnLevel(nodes, next, depth) && n.depth == depth
    ensures OnLevel(nodes + [n], next, depth) && OnLevel(nodes + [n], next + [|nodes|], depth)
  {
  }

  /** Hang the candidates below the frontier until the tree has `limit` nodes; the first `beam`
      new nodes are the next frontier. */
  method ExpandLevel(ghost head: Token, start: seq<Node>, frontier: seq<nat>, depth: nat,
                     cands: seq<(nat, Token)>, limit: nat, beam: nat)
    returns (nodes: seq<Node>, next: seq<nat>)
    requires DraftTree(start, head) && OnLevel(start, frontier, depth)
    requires forall c :: c in cands ==> c.0 < |frontier|
    ensures DraftTree(nodes, head) && start <= nodes && OnLevel(nodes, next, depth + 1)
    ensures var n := Min(|cands|, Room(limit, |start|));
            && (forall c :: c in cands[..n] ==> c.0 < |frontier|)
            && nodes == start + Hung(frontier, cands[..n], depth) && next == Upwards(|start|, Min(beam, n))
    ensures forall i :: |start| <= i < |nodes| ==> nodes[i].depth == depth + 1
  {
    hide DraftTree, OnLevel;
    nodes, next := start, [];
    EmptyLevel(nodes, depth + 1);
    ghost var n := Min(|cands|, Room(limit, |start|));
    assert forall c :: c in cands[..n] ==> c in cands;
    ghost var hung := Hung(frontier, cands[..n], depth);
    for c := 0 to |cands|
      invariant c <= n && DraftTree(nodes, head) && start <= nodes
      invariant OnLevel(nodes, next, depth + 1) && next == Upwards(|start|, Min(beam, c))
      invariant nodes == start + hung[..c]
    {
      if |nodes| >= limit {
        break;
      }
      assert cands[c] in cands;
      var parent := frontier[cands[c].0];
      LevelAt(start, nodes, frontier, depth, cands[c].0);
      GrowTree(nodes, head, cands[c].1, parent);
      LevelGrows(nodes, next, depth + 1, Node(cands[c].1, parent, depth + 1));
      assert hung[c] == Node(cands[c].1, parent, depth + 1) && hung[..c + 1] == hung[..c] + [hung[c]];
      nodes := nodes + [Node(cands[c].1, parent, depth + 1)];
      if |next| < beam {
        next := next + [|nodes| - 1];
      }
    }
    assert hung[..n] == hung;
  }

  /** A limit of one node and two candidates give a tree of three. */
  method FirstLevelIgnoresLimit(head: Token, a: Token, b: Token) returns (nodes: seq<Node>)
    ensures |nodes| == 3 && DraftTree(nodes, head)
  {
    nodes := BuildTreeBatched(head, 1, [a, b], 4, 4, (_, _) => []);
  }

  // ----- acceptance -----

  /** The children of node `i` in index order. */
  predicate IsChildren(nodes: seq<Node>, i: int, upto: nat, cs: seq<nat>)
    requires upto <= |nodes|
  {
    && (forall c :: c in cs ==> c < upto && nodes[c].parent == i)
    && (forall c :: 0 <= c < upto && nodes[c].parent == i ==> c in cs)
  }

  method ChildLists(nodes: seq<Node>) returns (ch: map<int, seq<nat>>)
    ensures forall j :: IsChildren(nodes, j, |nodes|, if j in ch then ch[j] else [])
  {
    ch := map[];
    for i := 0 to |nodes|
      invariant forall j :: IsChildren(nodes, j, i, if j in ch then ch[j] else [])
    {
      var p := nodes[i].parent;
      var siblings := if p in ch then ch[p] else [];
      assert IsChildren(nodes, p, i, siblings);
      ghost var was := ch;
      ch := ch[p := siblings + [i]];
      if i !in ch {
        ch := ch[i as int := []];
      }
      forall j ensures IsChildren(nodes, j, i + 1, if j in ch then ch[j] else []) {
        assert IsChildren(nodes, j, i, if j in was then was[j] else []);
      }
    }
  }

  /** The first listed child carrying `tok`, if any. */
  method ChildWith(nodes: seq<Node>, cs: seq<nat>, tok: Token) returns (k: nat)
    requires forall i :: 0 <= i < |cs| ==> cs[i] < |nodes|
    ensures k <= |cs| && (k < |cs| ==> nodes[cs[k]].tok == tok)
    ensures forall i :: 0 <= i < k ==> nodes[cs[i]].tok != tok
  {
    k := 0;
    while k < |cs| && nodes[cs[k]].tok != tok
      invariant k <= |cs|
      invariant forall i :: 0 <= i < k ==> nodes[cs[i]].tok != tok
    {
      k := k + 1;
    }
  }

  /** Every step of `path` goes to the child carrying the target's choice `preds[i]` after its
      node `i`. */
  predicate Follows(nodes: seq<Node>, preds: seq<Token>, path: seq<nat>)
    requires |preds| == |nodes|
  {
    && (forall j :: 0 <= j < |path| ==> path[j] < |nodes|)
    && forall j :: 0 <= j < |path| - 1 ==> nodes[path[j + 1]].tok == preds[path[j]]
  }

  /** `path` is the whole root path of its last node. */
  predicate RootPath(nodes: seq<Node>, path: seq<nat>)
  {
    && Forest(Parents(nodes)) && path != [] && path[|path| - 1] < |nodes|
    && path == Path(Parents(nodes), path[|path| - 1])
  }

  /** The tokens of a path below its first node. */
  function Below(nodes: seq<Node>, path: seq<nat>): (ts: seq<Token>)
    requires path != [] && forall j :: 0 <= j < |path| ==> path[j] < |nodes|
    ensures |ts| == |path| - 1
  {
    seq(|path| - 1, j requires 0 <= j < |path| - 1 => nodes[path[j + 1]].tok)
  }

  /** What an accepted path commits: its tokens below the root and the bonus, which no child of its last
      node carries. */
  predicate Commits(nodes: seq<Node>, path: seq<nat>, committed: seq<Token>, bonus: Token)
  {
    && RootPath(nodes, path) && (forall j :: 0 <= j < |path| ==> path[j] < |nodes|)
    && committed == Below(nodes, path) + [bonus]
    && forall c :: 0 <= c < |nodes| && nodes[c].parent == path[|path| - 1] ==> nodes[c].tok != bonus
  }

  /** From the root, follow the child that carries the target's own choice for as long as there is
      one; commit the tokens passed and the target's choice after the last. */
  method AcceptTree(nodes: seq<Node>, preds: seq<Token>, ghost head: Token)
    returns (committed: seq<Token>, path: seq<nat>, bonus: Token)
    requires DraftTree(nodes, head) && |preds| == |nodes|
    ensures RootPath(nodes, path) && Follows(nodes, preds, path) && bonus == preds[path[|path| - 1]]
    ensures Commits(nodes, path, committed, bonus)
  {
    var ch := ChildLists(nodes);
    DepthIsPathLength(nodes, head, 0);
    path := [0];
    var cur: nat := 0;
    while true
      invariant RootPath(nodes, path) && path[|path| - 1] == cur
      invariant Follows(nodes, preds, path)
      decreases |nodes| - cur
    {
      var cs := if cur in ch then ch[cur] else [];
      assert IsChildren(nodes, cur, |nodes|, cs);
      forall i | 0 <= i < |cs| ensures cs[i] < |nodes| { assert cs[i] in cs; }
      var k := ChildWith(nodes, cs, preds[cur]);
      if k == |cs| {
        forall c | 0 <= c < |nodes| && nodes[c].parent == cur ensures nodes[c].tok != preds[cur] {
          assert c in cs;
        }
        break;
      }
      assert cs[k] in cs;
      assert Path(Parents(nodes), cs[k]) == path + [cs[k]];
      path, cur := path + [cs[k]], cs[k];
    }
    bonus := preds[cur];
    committed := Below(nodes, path) + [bonus];
  }

  /** The tokens an accepted path commits are the target's own greedy continuation: if `preds[i]`
      is the greedy choice after the prefix and node `i`'s root path, then the committed tokens are
      the next greedy tokens after the head. */
  lemma AcceptedIsGreedy(net: Net, base: seq<Token>, head: Token, nodes: seq<Node>, preds: seq<Token>,
                         path: seq<nat>, committed: seq<Token>)
    requires DraftTree(nodes, head) && |preds| == |nodes| && Forest(Parents(nodes))
    requires forall i :: 0 <= i < |nodes| ==>
      preds[i] == Next(net, base + PathTokens(Parents(nodes), Tokens(nodes), i))
    requires RootPath(nodes, path) && Follows(nodes, preds, path)
    requires committed == Below(nodes, path) + [preds[path[|path| - 1]]]
    ensures committed == Greedy(net, base + [head], |committed|)
    ensures PathTokens(Parents(nodes), Tokens(nodes), path[|path| - 1])
            == [head] + Below(nodes, path)
  {
    var ps, ts := Parents(nodes), Tokens(nodes);
    hide Path, Greedy;
    PathShape(ps, path[|path| - 1]);
    DepthIsPathLength(nodes, head, path[|path| - 1]);
    var below := Gather(ts, path);
    assert below == [head] + Below(nodes, path);
    forall j | 0 <= j < |committed|
      ensures committed[j] == Next(net, base + [head] + committed[..j])
    {
      assert PathTokens(ps, ts, path[j]) == below[..j + 1];
      assert base + [head] + committed[..j] == base + below[..j + 1];
    }
    ChoicesAreGreedy(net, base + [head], committed);
  }
}
