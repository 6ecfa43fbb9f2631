/** The live source of truth of the mesh: the fixed slots, the nodes that hold them, and which of
    those nodes may be routed to. */
module Topologies {
  import opened Wrappers
  import opened Sorting
  import opened Planner

  type NodeId = string

  datatype State = Joining | Ready | Suspect | Dead | Draining

  datatype Trust = Probation | Trusted

  datatype Verdict = Promoted | Evicted

  datatype Node = Node(id: NodeId, capacity: int, modelFp: string, region: string, wallet: string,
                       orchestrator: bool, slot: Option<nat>, state: State, lastHb: real,
                       trust: Trust, passed: int, strikes: int)

  // ----- holder lists -----

  /** The list without the members of `gone`, in order. */
  function Minus(ids: seq<NodeId>, gone: set<NodeId>): (left: seq<NodeId>)
  {
    if ids == [] then [] else
      var rest := Minus(ids[1..], gone);
      if ids[0] in gone then rest else [ids[0]] + rest
  }

  lemma {:induction false} MinusMembers(ids: seq<NodeId>, gone: set<NodeId>)
    ensures forall x :: x in Minus(ids, gone) <==> x in ids && x !in gone
    ensures Distinct(ids) ==> Distinct(Minus(ids, gone))
    decreases |ids|
  {
    if ids != [] {
      MinusMembers(ids[1..], gone);
      var rest := Minus(ids[1..], gone);
      assert forall x :: x in ids <==> x == ids[0] || x in ids[1..];
      if Distinct(ids) && ids[0] !in gone {
        forall i, j | 0 <= i < j < |rest| + 1 ensures ([ids[0]] + rest)[i] != ([ids[0]] + rest)[j] {
          if i == 0 { assert rest[j - 1] in ids[1..]; }
        }
      }
    }
  }

  lemma {:induction false} MinusNothing(ids: seq<NodeId>, gone: set<NodeId>)
    requires forall x :: x in ids ==> x !in gone
    ensures Minus(ids, gone) == ids
    decreases |ids|
  {
    if ids != [] {
      assert ids[0] in ids;
      MinusNothing(ids[1..], gone);
    }
  }

  lemma {:induction false} MinusTwice(ids: seq<NodeId>, one: set<NodeId>, two: set<NodeId>)
    ensures Minus(Minus(ids, one), two) == Minus(ids, one + two)
    decreases |ids|
  {
    if ids != [] {
      MinusTwice(ids[1..], one, two);
      if ids[0] !in one {
        assert ([ids[0]] + Minus(ids[1..], one))[1..] == Minus(ids[1..], one);
      }
    }
  }

  /** Removing the first occurrence, which in a list of distinct ids is the only one. */
  method RemoveFirst(ids: seq<NodeId>, id: NodeId) returns (left: seq<NodeId>)
    requires id in ids && Distinct(ids)
    ensures left == Minus(ids, {id})
  {
    var i := 0;
    while ids[i] != id
      invariant 0 <= i < |ids| && id !in ids[..i]
      decreases |ids| - i
    {
      assert ids[..i + 1] == ids[..i] + [ids[i]] && ids[..|ids|] == ids;
      i := i + 1;
    }
    left := ids[..i] + ids[i + 1..];
    RemovedAt(ids, i);
  }

  lemma {:induction false} RemovedAt(ids: seq<NodeId>, i: nat)
    requires i < |ids| && Distinct(ids)
    ensures Minus(ids, {ids[i]}) == ids[..i] + ids[i + 1..]
    decreases i
  {
    if i == 0 {
      MinusNothing(ids[1..], {ids[0]});
    } else {
      RemovedAt(ids[1..], i - 1);
      assert ids[1..][..i - 1] == ids[1..i] && ids[1..][i..] == ids[i + 1..];
      assert [ids[0]] + ids[1..i] == ids[..i];
    }
  }

  /** Nobody is listed twice, and whoever is listed under a slot is in the node table with that slot. */
  ghost predicate HeldOk(held: seq<seq<NodeId>>, nodes: map<NodeId, Node>)
  {
    && (forall k :: 0 <= k < |held| ==> Distinct(held[k]))
    && forall k, id :: 0 <= k < |held| && id in held[k] ==> id in nodes && nodes[id].slot == Some(k as nat)
  }

  ghost predicate NodesOk(nodes: map<NodeId, Node>, slots: nat)
  {
    forall id :: id in nodes ==>
      nodes[id].id == id && (nodes[id].slot.Some? ==> nodes[id].slot.value < slots)
  }

  /** Every list without the members of `gone`. */
  ghost predicate Stripped(was: seq<seq<NodeId>>, held: seq<seq<NodeId>>, gone: set<NodeId>)
  {
    |held| == |was| && forall k :: 0 <= k < |held| ==> held[k] == Minus(was[k], gone)
  }

  /** Every list without `id`, which comes last in the list of its new slot, if any. */
  ghost predicate Placed(was: seq<seq<NodeId>>, held: seq<seq<NodeId>>, id: NodeId, slot: Option<nat>)
  {
    |held| == |was| && forall k :: 0 <= k < |held| ==>
      held[k] == Minus(was[k], {id}) + (if slot == Some(k as nat) then [id] else [])
  }

  /** No id is held in two slots. */
  lemma HeldOnce(held: seq<seq<NodeId>>, nodes: map<NodeId, Node>, j: nat, k: nat, id: NodeId)
    requires HeldOk(held, nodes) && j < |held| && k < |held| && id in held[j] && id in held[k]
    ensures j == k
  {
    assert nodes[id].slot == Some(j);
    assert nodes[id].slot == Some(k);
  }

  lemma StrippedOk(was: seq<seq<NodeId>>, held: seq<seq<NodeId>>, nodes: map<NodeId, Node>, gone: set<NodeId>)
    requires HeldOk(was, nodes) && Stripped(was, held, gone)
    ensures HeldOk(held, nodes) && HeldOk(held, nodes - gone)
    ensures forall k, id :: 0 <= k < |held| && id in held[k] ==> id !in gone
  {
    forall k | 0 <= k < |held|
      ensures Distinct(held[k])
      ensures forall id :: id in held[k] ==> id !in gone && id in nodes && nodes[id].slot == Some(k as nat)
    {
      MinusMembers(was[k], gone);
    }
  }

  lemma StrippedNothing(held: seq<seq<NodeId>>, gone: set<NodeId>)
    requires gone == {}
    ensures Stripped(held, held, gone)
  {
    forall k | 0 <= k < |held| ensures held[k] == Minus(held[k], gone) {
      MinusNothing(held[k], gone);
    }
  }

  lemma StrippedTwice(was: seq<seq<NodeId>>, mid: seq<seq<NodeId>>, held: seq<seq<NodeId>>,
                      one: set<NodeId>, two: set<NodeId>)
    requires Stripped(was, mid, one) && Stripped(mid, held, two)
    ensures Stripped(was, held, one + two)
  {
    forall k | 0 <= k < |held| ensures held[k] == Minus(was[k], one + two) {
      MinusTwice(was[k], one, two);
    }
  }

  lemma WithoutTwice<V>(m: map<NodeId, V>, one: set<NodeId>, two: set<NodeId>)
    ensures m - one - two == m - (one + two)
  {
  }

  lemma AppendedOk(held: seq<seq<NodeId>>, nodes: map<NodeId, Node>, k: nat, node: Node)
    requires HeldOk(held, nodes) && k < |held| && node.slot == Some(k)
    requires forall j :: 0 <= j < |held| ==> node.id !in held[j]
    ensures HeldOk(held[k := held[k] + [node.id]], nodes[node.id := node])
  {
  }

  // ----- the order of holders -----

  /** What holders are ordered by: trusted first, then the measured or estimated distance when
      routing by latency, then the freshest heartbeat. */
  datatype Key = Key(rank: nat, rtt: real, age: real)

  predicate NoLater(a: Key, b: Key)
  {
    a.rank < b.rank || (a.rank == b.rank && (a.rtt < b.rtt || (a.rtt == b.rtt && a.age <= b.age)))
  }

  lemma SelfNoLater(a: Key)
    ensures NoLater(a, a)
  {
  }

  function InsertByKey(ids: seq<NodeId>, id: NodeId, keys: map<NodeId, Key>): seq<NodeId>
    requires id in keys && forall x :: x in ids ==> x in keys
  {
    if ids == [] then [id]
    else if NoLater(keys[ids[|ids| - 1]], keys[id]) then ids + [id]
    else InsertByKey(ids[..|ids| - 1], id, keys) + [ids[|ids| - 1]]
  }

  /** The stable sort of `ids` by key. */
  function Ordered(ids: seq<NodeId>, keys: map<NodeId, Key>): seq<NodeId>
    requires forall x :: x in ids ==> x in keys
    ensures multiset(Ordered(ids, keys)) == multiset(ids)
  {
    if ids == [] then [] else
      var front := ids[..|ids| - 1];
      assert ids == front + [ids[|ids| - 1]];
      var sorted := Ordered(front, keys);
      SameMembers(sorted, front);
      InsertedMembers(sorted, ids[|ids| - 1], keys);
      InsertByKey(sorted, ids[|ids| - 1], keys)
  }

  lemma SameMembers(a: seq<NodeId>, b: seq<NodeId>)
    requires multiset(a) == multiset(b)
    ensures |a| == |b| && forall x :: x in a <==> x in b
  {
    assert |multiset(a)| == |a| && |multiset(b)| == |b|;
    forall x ensures x in a <==> x in b {
      assert x in a <==> x in multiset(a);
      assert x in b <==> x in multiset(b);
    }
  }

  lemma {:induction false} InsertedMembers(ids: seq<NodeId>, id: NodeId, keys: map<NodeId, Key>)
    requires id in keys && forall x :: x in ids ==> x in keys
    ensures multiset(InsertByKey(ids, id, keys)) == multiset(ids) + multiset{id}
    decreases |ids|
  {
    if ids != [] && !NoLater(keys[ids[|ids| - 1]], keys[id]) {
      assert ids == ids[..|ids| - 1] + [ids[|ids| - 1]];
      InsertedMembers(ids[..|ids| - 1], id, keys);
    }
  }

  ghost predicate InOrder(ids: seq<NodeId>, keys: map<NodeId, Key>)
    requires forall x :: x in ids ==> x in keys
  {
    forall p, q :: 0 <= p < q < |ids| ==> NoLater(keys[ids[p]], keys[ids[q]])
  }

  lemma {:induction false} InsertedInOrder(ids: seq<NodeId>, id: NodeId, keys: map<NodeId, Key>)
    requires id in keys && (forall x :: x in ids ==> x in keys) && InOrder(ids, keys)
    ensures forall x :: x in InsertByKey(ids, id, keys) <==> x == id || x in ids
    ensures InOrder(InsertByKey(ids, id, keys), keys)
    decreases |ids|
  {
    var n := |ids| - 1;
    if ids != [] && !NoLater(keys[ids[n]], keys[id]) {
      InsertedInOrder(ids[..n], id, keys);
      var out := InsertByKey(ids[..n], id, keys);
      forall p | 0 <= p < |out| ensures NoLater(keys[out[p]], keys[ids[n]]) {
        assert out[p] in out;
        if out[p] != id {
          var q :| 0 <= q < n && ids[..n][q] == out[p];
          assert NoLater(keys[ids[q]], keys[ids[n]]);
        }
      }
    }
  }

  lemma OrderedInOrder(ids: seq<NodeId>, keys: map<NodeId, Key>)
    requires forall x :: x in ids ==> x in keys
    ensures (forall x :: x in Ordered(ids, keys) <==> x in ids) && |Ordered(ids, keys)| == |ids|
    ensures InOrder(Ordered(ids, keys), keys)
    ensures Distinct(ids) ==> Distinct(Ordered(ids, keys))
  {
    OrderedBehind(ids, keys, |ids|);
    assert ids[..|ids|] == ids;
    hide InOrder, Ordered, Distinct;
    SameMembers(Ordered(ids, keys), ids);
    if Distinct(ids) { DistinctPermuted(ids, Ordered(ids, keys)); }
  }

  lemma {:induction false} OrderedBehind(ids: seq<NodeId>, keys: map<NodeId, Key>, n: nat)
    requires n <= |ids| && forall x :: x in ids ==> x in keys
    ensures forall x :: x in Ordered(ids[..n], keys) ==> x in keys
    ensures InOrder(Ordered(ids[..n], keys), keys)
    decreases n
  {
    hide InsertByKey;
    if n == 0 {
      assert ids[..n] == [];
    } else {
      hide Ordered, InOrder;
      OrderedBehind(ids, keys, n - 1);
      OrderedNext(ids, keys, n);
      InsertedInOrder(Ordered(ids[..n - 1], keys), ids[n - 1], keys);
    }
  }

  lemma OrderedNext(ids: seq<NodeId>, keys: map<NodeId, Key>, n: nat)
    requires 0 < n <= |ids| && forall x :: x in ids ==> x in keys
    ensures forall x :: x in Ordered(ids[..n - 1], keys) ==> x in keys
    ensures Ordered(ids[..n], keys) == InsertByKey(Ordered(ids[..n - 1], keys), ids[n - 1], keys)
  {
    hide InsertByKey;
    assert ids[..n][..n - 1] == ids[..n - 1];
    SameMembers(Ordered(ids[..n - 1], keys), ids[..n - 1]);
  }

  ghost predicate ListedBefore(ids: seq<NodeId>, x: NodeId, y: NodeId)
  {
    exists i, j :: 0 <= i < j < |ids| && ids[i] == x && ids[j] == y
  }

  /** Ids with equal keys come in the order of the source list. */
  ghost predicate Stable(source: seq<NodeId>, ids: seq<NodeId>, keys: map<NodeId, Key>)
    requires forall x :: x in ids ==> x in keys
  {
    forall p, q :: 0 <= p < q < |ids| && NoLater(keys[ids[q]], keys[ids[p]]) ==> ListedBefore(source, ids[p], ids[q])
  }

  lemma ListedLonger(source: seq<NodeId>, id: NodeId)
    ensures forall x, y :: ListedBefore(source, x, y) ==> ListedBefore(source + [id], x, y)
    ensures forall x :: x in source ==> ListedBefore(source + [id], x, id)
  {
    var longer := source + [id];
    forall x, y | ListedBefore(source, x, y) ensures ListedBefore(longer, x, y) {
      var i, j :| 0 <= i < j < |source| && source[i] == x && source[j] == y;
      assert longer[i] == x && longer[j] == y;
    }
    forall x | x in source ensures ListedBefore(longer, x, id) {
      var i :| 0 <= i < |source| && source[i] == x;
      assert longer[i] == x && longer[|source|] == id;
    }
  }

  lemma {:induction false} InsertedStable(source: seq<NodeId>, ids: seq<NodeId>, id: NodeId, keys: map<NodeId, Key>)
    requires id in keys && (forall x :: x in ids ==> x in keys && x in source) && Stable(source, ids, keys)
    ensures forall x :: x in InsertByKey(ids, id, keys) <==> x == id || x in ids
    ensures Stable(source + [id], InsertByKey(ids, id, keys), keys)
    decreases |ids|
  {
    hide ListedBefore;
    ListedLonger(source, id);
    var n := |ids| - 1;
    if ids != [] && !NoLater(keys[ids[n]], keys[id]) {
      InsertedStable(source, ids[..n], id, keys);
      var out := InsertByKey(ids[..n], id, keys);
      forall p | 0 <= p < |out| && NoLater(keys[ids[n]], keys[out[p]])
        ensures ListedBefore(source + [id], out[p], ids[n])
      {
        assert out[p] in out;
        if out[p] != id {
          var q :| 0 <= q < n && ids[..n][q] == out[p];
          assert ListedBefore(source, ids[q], ids[n]);
        }
      }
    }
  }

  /** The sort is stable. */
  lemma TiesKeepTheirOrder(ids: seq<NodeId>, keys: map<NodeId, Key>)
    requires forall x :: x in ids ==> x in keys
    ensures forall x :: x in Ordered(ids, keys) <==> x in ids
    ensures Stable(ids, Ordered(ids, keys), keys)
  {
    hide Ordered, Stable;
    TiesBehind(ids, keys, |ids|);
    assert ids[..|ids|] == ids;
  }

  lemma {:induction false} TiesBehind(ids: seq<NodeId>, keys: map<NodeId, Key>, n: nat)
    requires n <= |ids| && forall x :: x in ids ==> x in keys
    ensures forall x :: x in Ordered(ids[..n], keys) <==> x in ids[..n]
    ensures Stable(ids[..n], Ordered(ids[..n], keys), keys)
    decreases n
  {
    hide InsertByKey;
    if n == 0 {
      assert ids[..n] == [];
    } else {
      hide Ordered, Stable;
      TiesBehind(ids, keys, n - 1);
      OrderedNext(ids, keys, n);
      InsertedStable(ids[..n - 1], Ordered(ids[..n - 1], keys), ids[n - 1], keys);
      assert ids[..n] == ids[..n - 1] + [ids[n - 1]];
    }
  }

  lemma {:induction false} CountedTwice(ids: seq<NodeId>, i: nat, j: nat)
    requires i < j < |ids| && ids[i] == ids[j]
    ensures multiset(ids)[ids[i]] >= 2
  {
    assert ids == ids[..j] + [ids[j]] + ids[j + 1..];
    assert ids[i] in ids[..j];
    assert ids[i] in multiset(ids[..j]);
  }

  lemma {:induction false} CountedOnce(ids: seq<NodeId>, id: NodeId)
    requires Distinct(ids)
    ensures multiset(ids)[id] <= 1
    decreases |ids|
  {
    if ids != [] {
      var n := |ids| - 1;
      assert ids == ids[..n] + [ids[n]];
      CountedOnce(ids[..n], id);
      if ids[n] == id {
        assert id !in ids[..n];
      }
    }
  }

  lemma DistinctPermuted(a: seq<NodeId>, b: seq<NodeId>)
    requires Distinct(a) && multiset(a) == multiset(b)
    ensures Distinct(b)
  {
    forall i, j | 0 <= i < j < |b| ensures b[i] != b[j] {
      if b[i] == b[j] {
        CountedTwice(b, i, j);
        CountedOnce(a, b[i]);
      }
    }
  }

  // ----- distances -----

  /** The label up to its first dash. */
  function Continent(region: string): string
  {
    if region == "" || region[0] == '-' then "" else [region[0]] + Continent(region[1..])
  }

  function RegionRtt(a: string, b: string): real
  {
    if a == "" || b == "" then 80.0
    else if a == b then 5.0
    else if Continent(a) == Continent(b) then 40.0
    else 150.0
  }

  /** The estimate where there is no measurement: near in the same region, farther on the same continent,
      farther still on another, and something in between for an unknown one. */
  lemma RegionRttValues(a: string, b: string)
    ensures RegionRtt("eu-west", "eu-west") == 5.0 && RegionRtt("eu-west", "eu-north") == 40.0
    ensures RegionRtt("eu-west", "us-west") == 150.0 && RegionRtt("", b) == 80.0 == RegionRtt(a, "")
    ensures RegionRtt(a, b) == RegionRtt(b, a)
  {
    assert Continent("eu-west") == "eu" && Continent("eu-north") == "eu" && Continent("us-west") == "us";
  }

  // ----- one node's transitions -----

  predicate Routable(n: Node) { n.state == Ready }

  /** Gone or leaving: a state from which only a fresh registration leads back to serving. */
  predicate Retired(n: Node) { n.state == Dead || n.state == Draining }

  /** Silent for longer than a node may be. */
  ghost predicate Expired(n: Node, now: real, deadAfter: real)
  {
    (n.state == Joining || n.state == Ready || n.state == Suspect) && now - n.lastHb > deadAfter
  }

  lemma ExpiredIff(n: Node, now: real, deadAfter: real)
    ensures Expired(n, now, deadAfter) <==>
              (n.state == Joining || n.state == Ready || n.state == Suspect) && now - n.lastHb > deadAfter
  {
  }

  ghost function Reaped(n: Node, now: real, deadAfter: real): Node
  {
    if Expired(n, now, deadAfter) then n.(state := Dead) else n
  }

  /** What one verification result makes of a node. */
  ghost function Checked(n: Node, ok: bool, promoteAfter: int, strikeMax: int): Node
  {
    if ok then
      var passed := n.(passed := n.passed + 1, strikes := if n.strikes > 0 then n.strikes - 1 else n.strikes);
      if passed.trust != Trusted && passed.passed >= promoteAfter && passed.strikes == 0
      then passed.(trust := Trusted) else passed
    else if n.strikes + 1 >= strikeMax then
      n.(strikes := n.strikes + 1, trust := Probation, state := Dead)
    else
      n.(strikes := n.strikes + 1)
  }

  ghost predicate ProperSizes(sizes: seq<int>, slots: int, budget: int)
  {
    |sizes| == slots && Sum(sizes) == budget && forall k :: 0 <= k < |sizes| ==> sizes[k] >= 1
  }

  // ----- trust over many checks -----

  ghost function CheckedAll(n: Node, results: seq<bool>, promoteAfter: int, strikeMax: int): Node
    decreases |results|
  {
    if results == [] then n else
      var last := |results| - 1;
      Checked(CheckedAll(n, results[..last], promoteAfter, strikeMax), results[last], promoteAfter, strikeMax)
  }

  function Count(results: seq<bool>, ok: bool): nat
  {
    if results == [] then 0 else Count(results[..|results| - 1], ok) + (if results[|results| - 1] == ok then 1 else 0)
  }

  /** From a newcomer on, trust takes `promoteAfter` passes and eviction `strikeMax` failures, and a
      node that failed no check at all is trusted exactly when it has passed that many. */
  lemma {:induction false} TrustIsEarned(n: Node, results: seq<bool>, promoteAfter: int, strikeMax: int)
    requires n.trust == Probation && n.passed == 0 && n.strikes == 0 && n.state != Dead && promoteAfter > 0
    ensures var out := CheckedAll(n, results, promoteAfter, strikeMax);
            && out.passed == Count(results, true) && 0 <= out.strikes <= Count(results, false)
            && (out.trust == Trusted ==> Count(results, true) >= promoteAfter)
            && (out.state == Dead ==> Count(results, false) >= strikeMax && Count(results, false) > 0)
            && (out.state != Dead ==> out.state == n.state)
            && (Count(results, false) == 0 ==> (out.trust == Trusted <==> Count(results, true) >= promoteAfter))
    decreases |results|
  {
    if results != [] {
      TrustIsEarned(n, results[..|results| - 1], promoteAfter, strikeMax);
    }
  }

  /** The slots follow one another and cover `[first, last)`. */
  ghost predicate Tiled(ranges: seq<(int, int)>, first: int, last: int)
  {
    && ranges != [] && ranges[0].0 == first && ranges[|ranges| - 1].1 == last
    && (forall k :: 0 <= k < |ranges| ==> ranges[k].0 <= ranges[k].1)
    && forall k :: 0 < k < |ranges| ==> ranges[k].0 == ranges[k - 1].1
  }

  // ----- the mesh -----

  class Topology {
    const numLayers: int
    const coordinatorEnd: int
    const modelFp: string
    const replication: int
    const deadAfter: real
    const region: string
    const byLatency: bool
    /** The layers `[first, last)` of each slot. */
    const ranges: seq<(int, int)>
    /** The ids assigned to each slot, oldest assignment first. */
    var held: seq<seq<NodeId>>
    var nodes: map<NodeId, Node>
    var rtts: map<NodeId, real>

    ghost predicate Valid()
      reads this
    {
      && Tiled(ranges, coordinatorEnd, numLayers) && |held| == |ranges|
      && HeldOk(held, nodes) && NodesOk(nodes, |ranges|)
    }

    function Size(k: nat): int
      requires k < |ranges|
    {
      ranges[k].1 - ranges[k].0
    }

    constructor (numLayers: int, coordinatorEnd: int, modelFp: string, replication: int, deadAfter: real,
                 region: string, byLatency: bool, sizes: seq<int>)
      requires forall k :: 0 <= k < |sizes| ==> sizes[k] >= 0
      requires sizes != [] && coordinatorEnd + Sum(sizes) == numLayers
      ensures Valid() && nodes == map[] && rtts == map[]
      ensures |ranges| == |sizes| && forall k :: 0 <= k < |sizes| ==> held[k] == [] && Size(k) == sizes[k]
      ensures this.numLayers == numLayers && this.coordinatorEnd == coordinatorEnd
      ensures this.modelFp == modelFp && this.replication == replication && this.deadAfter == deadAfter
      ensures this.region == region && this.byLatency == byLatency
    {
      this.numLayers, this.coordinatorEnd, this.modelFp := numLayers, coordinatorEnd, modelFp;
      this.replication, this.deadAfter, this.region, this.byLatency := replication, deadAfter, region, byLatency;
      held := seq(|sizes|, k => []);
      nodes, rtts := map[], map[];
      var rs := RangesOf(coordinatorEnd, sizes);
      ranges := rs;
    }

    /** A topology with the given slot sizes, or the balanced ones. */
    static method Create(numLayers: int, coordinatorEnd: int, numStages: int, modelFp: string, replication: int,
                         deadAfter: real, region: string, byLatency: bool, slotSizes: Option<seq<int>>)
      returns (r: Result<Topology, Error>)
      ensures r.Err? ==> r.error == ValueError
      ensures r.Ok? <==>
              && numStages >= 1 && 0 <= coordinatorEnd < numLayers
              && (slotSizes.Some? ==> ProperSizes(slotSizes.value, numStages, numLayers - coordinatorEnd))
      ensures r.Ok? ==>
                && fresh(r.value) && r.value.Valid() && r.value.nodes == map[] && |r.value.ranges| == numStages
                && r.value.coordinatorEnd == coordinatorEnd && r.value.numLayers == numLayers
                && r.value.modelFp == modelFp && r.value.replication == replication
      ensures r.Ok? ==> forall k :: 0 <= k < numStages ==>
                r.value.Size(k) == match slotSizes
                                   case Some(sizes) => sizes[k]
                                   case None => BalancedSizes(numLayers - coordinatorEnd, numStages)[k]
    {
      if numStages < 1 || !(0 <= coordinatorEnd < numLayers) {
        return Err(ValueError);
      }
      var budget := numLayers - coordinatorEnd;
      var sizes: seq<int>;
      if slotSizes.Some? {
        sizes := slotSizes.value;
        if |sizes| != numStages || Sum(sizes) != budget || exists k :: 0 <= k < |sizes| && sizes[k] < 1 {
          return Err(ValueError);
        }
      } else {
        sizes := BalancedSizes(budget, numStages);
        BalancedSum(budget, numStages);
      }
      var t := new Topology(numLayers, coordinatorEnd, modelFp, replication, deadAfter, region, byLatency, sizes);
      return Ok(t);
    }

    /** A topology with the fewest stages the fleet can staff, its slots balanced or proportional to
        the weights.  The weighted sizes always pass the checks on explicit slot sizes. */
    static method ForFleet(numLayers: int, coordinatorEnd: int, modelFp: string, capacities: seq<int>,
                           replication: int, weights: Option<seq<real>>, deadAfter: real, region: string,
                           byLatency: bool) returns (r: Result<Topology, Error>)
      ensures r.Err? ==> r.error == ValueError
      ensures r.Ok? <==>
              && 0 <= coordinatorEnd < numLayers && replication >= 1
              && var budget := numLayers - coordinatorEnd;
              exists k :: && 1 <= k <= budget && LeastStages(budget, capacities, replication, k)
                          && (weights.Some? ==> |weights.value| == k && AllPositive(weights.value))
      ensures r.Ok? ==>
                && fresh(r.value) && r.value.Valid() && r.value.nodes == map[]
                && LeastStages(numLayers - coordinatorEnd, capacities, replication, |r.value.ranges|)
      ensures r.Ok? && weights.None? ==> forall k :: 0 <= k < |r.value.ranges| ==>
                r.value.Size(k) == BalancedSizes(numLayers - coordinatorEnd, |r.value.ranges|)[k]
      ensures r.Ok? && weights.Some? ==>
                && |weights.value| == |r.value.ranges| > 0 && AllPositive(weights.value)
                && (forall k :: 0 <= k < |r.value.ranges| ==> r.value.Size(k) >= 1)
                && var exact := LargestRemainder(numLayers - coordinatorEnd, weights.value);
                   && Levelled(exact, Widths(r.value.ranges), 1)
                   && (Deficit(exact, 1) == 0 ==> Widths(r.value.ranges) == exact)
    {
      hide Feasible, Sum, LargestRemainder, Deficit, Levelled;
      var k := PlanStages(numLayers - coordinatorEnd, capacities, replication);
      if k.Err? {
        return Err(k.error);
      }
      var budget := numLayers - coordinatorEnd;
      assert forall j :: LeastStages(budget, capacities, replication, j) ==> j == k.value;
      var sizes := None;
      if weights.Some? {
        if |weights.value| != k.value {
          return Err(ValueError);
        }
        var split := PlanWeightedSplit(budget, weights.value, 1);
        if split.Err? {
          return Err(split.error);
        }
        SmallMinimumIsMet(budget, weights.value, 1);
        sizes := Some(split.value);
      }
      r := Create(numLayers, coordinatorEnd, k.value, modelFp, replication, deadAfter, region, byLatency, sizes);
      if r.Ok? && sizes.Some? {
        assert Widths(r.value.ranges) == sizes.value by {
          forall k | 0 <= k < |r.value.ranges| ensures Widths(r.value.ranges)[k] == r.value.Size(k) {}
        }
      }
    }

    // ----- assignment -----

    ghost predicate Fits(node: Node, k: nat)
      requires k < |ranges|
    {
      node.capacity >= Size(k)
    }

    /** Slot `k` covers exactly the layers asked for, and the node can hold it. */
    ghost predicate Wanted(node: Node, range: Option<(int, int)>, k: nat)
      requires k < |ranges|
    {
      range == Some(ranges[k]) && Fits(node, k)
    }

    /** Drop every holding of this id. */
    method DropHoldings(id: NodeId)
      requires Valid()
      modifies this`held
      ensures Stripped(old(held), held, {id})
      ensures HeldOk(held, nodes) && forall k :: 0 <= k < |held| ==> id !in held[k]
    {
      for k := 0 to |ranges|
        invariant |held| == |ranges|
        invariant forall j :: 0 <= j < k ==> held[j] == Minus(old(held)[j], {id})
        invariant forall j :: k <= j < |held| ==> held[j] == old(held)[j]
      {
        if id in held[k] {
          var left := RemoveFirst(held[k], id);
          held := held[k := left];
        } else {
          MinusNothing(held[k], {id});
        }
      }
      StrippedOk(old(held), held, nodes, {id});
    }

    /** Holders committed to a slot: all but the dead, since a joining node is provisioning for it. */
    function Committed(k: nat): nat
      requires k < |held|
      reads this
    {
      CommittedAmong(held[k], nodes)
    }

    /** The slot with the fewest holders that are not dead, of those the node can hold, and the first of
        several; none if it can hold none. */
    method PickSlot(node: Node) returns (r: Option<nat>)
      requires |held| == |ranges| && HeldOk(held, nodes)
      ensures r.None? <==> forall k :: 0 <= k < |ranges| ==> !Fits(node, k)
      ensures r.Some? ==> r.value < |ranges| && Fits(node, r.value)
      ensures r.Some? ==> forall k :: 0 <= k < |ranges| && Fits(node, k) ==>
                FewerWaiting(held, nodes, {}, r.value, k)
    {
      hide CommittedAmong, Waiting;
      forall k | 0 <= k < |held| ensures Committed(k) == |Waiting(held[k], {}, nodes)| {
        CommittedCounts(held[k], nodes);
      }
      r := None;
      for k := 0 to |ranges|
        invariant r.None? <==> forall j :: 0 <= j < k ==> !Fits(node, j)
        invariant r.Some? ==> r.value < k && Fits(node, r.value)
        invariant r.Some? ==> forall j :: 0 <= j < k && Fits(node, j) ==>
                    Committed(r.value) < Committed(j) || (Committed(r.value) == Committed(j) && r.value <= j)
      {
        assert Fits(node, k) <==> node.capacity >= Size(k);
        if node.capacity >= Size(k) && (r.None? || Committed(k) < Committed(r.value)) {
          r := Some(k);
        }
      }
    }

    /** Admit a node and give it a slot.  A refusal for the wrong model changes nothing; one for lack
        of capacity has already dropped the holdings of the id, and leaves its old entry behind. */
    method Register(node: Node, now: real, preferRange: Option<(int, int)>) returns (r: Result<nat, Error>)
      requires Valid()
      modifies this`held, this`nodes
      ensures Valid()
      ensures r.Err? ==> r.error == ValueError && nodes == old(nodes)
      ensures r.Err? <==> node.modelFp != modelFp || forall k :: 0 <= k < |ranges| ==> !Fits(node, k)
      ensures node.modelFp != modelFp ==> held == old(held)
      ensures r.Err? && node.modelFp == modelFp ==> Stripped(old(held), held, {node.id})
      ensures r.Ok? ==> r.value < |ranges| && Fits(node, r.value)
      ensures r.Ok? ==>
                nodes == old(nodes)[node.id := node.(slot := Some(r.value), state := Joining, lastHb := now)]
      ensures r.Ok? ==> Placed(old(held), held, node.id, Some(r.value)) && node.id in held[r.value]
      ensures r.Ok? && (exists k :: 0 <= k < |ranges| && Wanted(node, preferRange, k)) ==>
                && Wanted(node, preferRange, r.value)
                && forall k :: 0 <= k < r.value ==> !Wanted(node, preferRange, k)
      ensures r.Ok? && (forall k :: 0 <= k < |ranges| ==> !Wanted(node, preferRange, k)) ==>
                forall k :: 0 <= k < |ranges| && Fits(node, k) ==>
                  FewerWaiting(old(held), old(nodes), {node.id}, r.value, k)
    {
      hide HeldOk, Tiled, Minus, FewerWaiting;
      if node.modelFp != modelFp {
        return Err(ValueError);
      }
      DropHoldings(node.id);
      var slot: Option<nat> := None;
      var k := 0;
      while k < |ranges| && slot.None?
        invariant 0 <= k <= |ranges|
        invariant slot.None? ==> forall j :: 0 <= j < k ==> !Wanted(node, preferRange, j)
        invariant slot.Some? ==>
                    && slot.value < |ranges| && Wanted(node, preferRange, slot.value)
                    && forall j :: 0 <= j < slot.value ==> !Wanted(node, preferRange, j)
        decreases |ranges| - k, slot.None?
      {
        if preferRange == Some(ranges[k]) && node.capacity >= Size(k) {
          slot := Some(k);
        }
        k := k + 1;
      }
      if slot.None? {
        slot := PickSlot(node);
        WaitingWithout(old(held), held, nodes, node.id);
      }
      if slot.None? {
        return Err(ValueError);
      }
      var admitted := node.(slot := slot, state := Joining, lastHb := now);
      AppendedOk(held, nodes, slot.value, admitted);
      nodes := nodes[node.id := admitted];
      held := held[slot.value := held[slot.value] + [node.id]];
      return Ok(slot.value);
    }

    /** Placement spreads the fleet: nodes that can hold any slot, registering one after the other on an empty
        mesh, fill the slots evenly, whoever of them is READY by the time the next one comes. */
    method RegisterAll(newcomers: seq<Node>, ready: seq<bool>, now: real)
      requires Valid() && nodes == map[] && |ready| == |newcomers|
      requires forall i, j :: 0 <= i < j < |newcomers| ==> newcomers[i].id != newcomers[j].id
      requires forall i, k :: 0 <= i < |newcomers| && 0 <= k < |ranges| ==>
                 newcomers[i].modelFp == modelFp && Fits(newcomers[i], k)
      modifies this`held, this`nodes
      ensures Valid() && Sum(Lengths(held)) == |newcomers|
      ensures forall j, k :: 0 <= j < |held| && 0 <= k < |held| ==> |held[j]| <= |held[k]| + 1
    {
      hide HeldOk, NodesOk, Tiled, Placed, FewerWaiting, Sum, Lengths, Fits;
      EmptyMesh(held, nodes);
      SomeSlot(ranges, coordinatorEnd, numLayers);
      for i := 0 to |newcomers|
        invariant Valid() && Sum(Lengths(held)) == i && LevelHeld(held)
        invariant forall id :: id in nodes ==>
          nodes[id].state != Dead && exists j :: 0 <= j < i && newcomers[j].id == id
      {
        ghost var was, before := held, nodes;
        var node := newcomers[i];
        assert node.id !in nodes && Fits(node, 0);
        var slot := Register(node, now, None);
        EvenlyPlaced(was, held, before, node.id, slot.value);
        if ready[i] {
          MarkReady(node.id);
        }
      }
    }

    /** Admit a head-only orchestrator: no slot, and no holdings left. */
    method RegisterOrchestrator(node: Node, now: real) returns (r: Result<(), Error>)
      requires Valid()
      modifies this`held, this`nodes
      ensures Valid()
      ensures r.Err? ==> r.error == ValueError && nodes == old(nodes) && held == old(held)
      ensures r.Err? <==> node.modelFp != modelFp
      ensures r.Ok? ==> Placed(old(held), held, node.id, None)
      ensures r.Ok? ==> nodes == old(nodes)[node.id :=
                node.(slot := None, orchestrator := true, state := Joining, lastHb := now)]
      ensures r.Ok? ==> forall k :: 0 <= k < |held| ==> node.id !in held[k]
    {
      if node.modelFp != modelFp {
        return Err(ValueError);
      }
      DropHoldings(node.id);
      nodes := nodes[node.id := node.(slot := None, orchestrator := true, state := Joining, lastHb := now)];
      return Ok(());
    }

    // ----- health -----

    /** Replace one node's record by one in the same place. */
    method Put(id: NodeId, n: Node)
      requires Valid() && id in nodes && nodes[id].id == n.id && nodes[id].slot == n.slot
      modifies this`nodes
      ensures Valid() && nodes == old(nodes)[id := n]
    {
      nodes := nodes[id := n];
    }

    /** Whether the node is known and not dead; a heartbeat clears a suspicion. */
    method Heartbeat(id: NodeId, now: real) returns (known: bool)
      requires Valid()
      modifies this`nodes
      ensures Valid() && known == (id in old(nodes) && old(nodes)[id].state != Dead)
      ensures !known ==> nodes == old(nodes)
      ensures known ==>
                var n := old(nodes)[id];
                nodes == old(nodes)[id := n.(lastHb := now, state := if n.state == Suspect then Ready else n.state)]
    {
      if id !in nodes || nodes[id].state == Dead {
        return false;
      }
      var n := nodes[id].(lastHb := now);
      if n.state == Suspect {
        n := n.(state := Ready);
      }
      Put(id, n);
      return true;
    }

    method MarkReady(id: NodeId)
      requires Valid()
      modifies this`nodes
      ensures Valid()
      ensures nodes == if id in old(nodes) && old(nodes)[id].state == Joining
                       then old(nodes)[id := old(nodes)[id].(state := Ready)] else old(nodes)
    {
      if id in nodes && nodes[id].state == Joining {
        Put(id, nodes[id].(state := Ready));
      }
    }

    method MarkSuspect(id: NodeId)
      requires Valid()
      modifies this`nodes
      ensures Valid()
      ensures nodes == if id in old(nodes) && old(nodes)[id].state == Ready
                       then old(nodes)[id := old(nodes)[id].(state := Suspect)] else old(nodes)
    {
      if id in nodes && nodes[id].state == Ready {
        Put(id, nodes[id].(state := Suspect));
      }
    }

    method Drain(id: NodeId)
      requires Valid()
      modifies this`nodes
      ensures Valid()
      ensures nodes == if id in old(nodes) then old(nodes)[id := old(nodes)[id].(state := Draining)] else old(nodes)
    {
      if id in nodes {
        Put(id, nodes[id].(state := Draining));
      }
    }

    method SetTrusted(id: NodeId)
      requires Valid()
      modifies this`nodes
      ensures Valid()
      ensures nodes == if id in old(nodes) then old(nodes)[id := old(nodes)[id].(trust := Trusted)] else old(nodes)
    {
      if id in nodes {
        Put(id, nodes[id].(trust := Trusted));
      }
    }

    /** Fold one verification result into a node's trust. */
    method RecordCheck(id: NodeId, ok: bool, promoteAfter: int, strikeMax: int) returns (verdict: Option<Verdict>)
      requires Valid()
      modifies this`nodes
      ensures Valid()
      ensures nodes == if id in old(nodes)
                       then old(nodes)[id := Checked(old(nodes)[id], ok, promoteAfter, strikeMax)] else old(nodes)
      ensures verdict == Some(Promoted) <==>
                id in nodes && ok && old(nodes)[id].trust == Probation && nodes[id].trust == Trusted
      ensures verdict == Some(Evicted) <==> id in nodes && !ok && nodes[id].strikes >= strikeMax
      ensures verdict == Some(Evicted) ==> nodes[id].state == Dead && nodes[id].trust == Probation
    {
      hide HeldOk, NodesOk, Tiled;
      if id !in nodes {
        return None;
      }
      var n := nodes[id];
      if ok {
        n := n.(passed := n.passed + 1);
        if n.strikes > 0 {
          n := n.(strikes := n.strikes - 1);
        }
        if n.trust != Trusted && n.passed >= promoteAfter && n.strikes == 0 {
          Put(id, n.(trust := Trusted));
          return Some(Promoted);
        }
        Put(id, n);
        return None;
      }
      n := n.(strikes := n.strikes + 1);
      if n.strikes >= strikeMax {
        Put(id, n.(trust := Probation, state := Dead));
        return Some(Evicted);
      }
      Put(id, n);
      return None;
    }

    /** Declare dead exactly the nodes silent for too long. */
    method Reap(now: real) returns (dead: seq<NodeId>)
      requires Valid()
      modifies this`nodes
      ensures Valid()
      ensures forall x :: x in dead <==> x in old(nodes) && Expired(old(nodes)[x], now, deadAfter)
      ensures nodes == map x | x in old(nodes) :: Reaped(old(nodes)[x], now, deadAfter)
    {
      hide HeldOk, NodesOk, Tiled, Expired;
      dead := [];
      var left := nodes.Keys;
      while left != {}
        invariant Valid() && left <= nodes.Keys
        invariant forall x :: x in dead <==> x in old(nodes) && x !in left && Expired(old(nodes)[x], now, deadAfter)
        invariant nodes == map x | x in old(nodes) ::
                    if x in left then old(nodes)[x] else Reaped(old(nodes)[x], now, deadAfter)
        decreases |left|
      {
        var id :| id in left;
        left := left - {id};
        var n := nodes[id];
        ExpiredIff(n, now, deadAfter);
        if (n.state == Joining || n.state == Ready || n.state == Suspect) && now - n.lastHb > deadAfter {
          Put(id, n.(state := Dead));
          dead := dead + [id];
        }
      }
    }

    method Remove(id: NodeId)
      requires Valid()
      modifies this`held, this`nodes, this`rtts
      ensures Valid() && nodes == old(nodes) - {id} && rtts == old(rtts) - {id}
      ensures Stripped(old(held), held, {id})
    {
      if id in nodes && nodes[id].slot.Some? && id in held[nodes[id].slot.value] {
        var k := nodes[id].slot.value;
        var left := RemoveFirst(held[k], id);
        held := held[k := left];
      }
      forall k | 0 <= k < |held| ensures held[k] == Minus(old(held)[k], {id}) {
        if id !in old(held)[k] {
          MinusNothing(held[k], {id});
        }
      }
      StrippedOk(old(held), held, nodes, {id});
      nodes := nodes - {id};
      rtts := rtts - {id};
    }

    /** Drop the nodes dead for so long that a further silence has passed. */
    method Purge(now: real) returns (gone: set<NodeId>)
      requires Valid()
      modifies this`held, this`nodes, this`rtts
      ensures Valid() && nodes == old(nodes) - gone && rtts == old(rtts) - gone
      ensures gone == set x | x in old(nodes) && old(nodes)[x].state == Dead && now - old(nodes)[x].lastHb > 2.0 * deadAfter
      ensures Stripped(old(held), held, gone)
    {
      gone := set x | x in nodes && nodes[x].state == Dead && now - nodes[x].lastHb > 2.0 * deadAfter;
      hide HeldOk, NodesOk, Tiled, Minus, Stripped;
      var left := gone;
      StrippedNothing(held, gone - left);
      while left != {}
        invariant Valid() && left <= gone
        invariant nodes == old(nodes) - (gone - left) && rtts == old(rtts) - (gone - left)
        invariant Stripped(old(held), held, gone - left)
        decreases |left|
      {
        var id :| id in left;
        ghost var before, done := held, gone - left;
        Remove(id);
        StrippedTwice(old(held), before, held, done, {id});
        WithoutTwice(old(nodes), done, {id});
        WithoutTwice(old(rtts), done, {id});
        assert done + {id} == gone - (left - {id});
        left := left - {id};
      }
      assert gone - {} == gone;
    }

    method SetRtt(id: NodeId, ms: real)
      modifies this`rtts
      ensures rtts == old(rtts)[id := ms]
    {
      rtts := rtts[id := ms];
    }

    // ----- routing -----

    /** Measured round trip, else the estimate from the region labels. */
    function Rtt(id: NodeId): real
      reads this
    {
      if id in rtts then rtts[id]
      else RegionRtt(region, if id in nodes then nodes[id].region else "")
    }

    function KeyOf(id: NodeId): Key
      requires id in nodes
      reads this
    {
      Key(if nodes[id].trust == Trusted then 0 else 1, if byLatency then Rtt(id) else 0.0, -nodes[id].lastHb)
    }

    function Keys(): (keys: map<NodeId, Key>)
      reads this
      ensures keys.Keys == nodes.Keys
    {
      map id | id in nodes :: KeyOf(id)
    }

    ghost predicate Serving(id: NodeId)
      reads this
    {
      id in nodes && nodes[id].state == Ready
    }

    /** The routable holders of a slot, primary first. */
    function Holders(k: nat): (hs: seq<NodeId>)
      requires k < |held|
      reads this
    {
      var live := LiveAmong(held[k], nodes);
      LiveMembers(held[k], nodes);
      Ordered(live, Keys())
    }

    ghost predicate TrustedPresent(k: nat)
      requires k < |held|
      reads this
    {
      exists id :: id in held[k] && Serving(id) && nodes[id].trust == Trusted
    }

    /** Exactly the READY nodes assigned to the slot, each once, ordered by key; the primary is
        TRUSTED whenever the slot has a READY trusted holder. */
    lemma HoldersAreReady(k: nat)
      requires Valid() && k < |held|
      ensures forall id :: id in Holders(k) <==> id in held[k] && Serving(id)
      ensures forall id :: id in Holders(k) ==> id in nodes && nodes[id].slot == Some(k)
      ensures Distinct(Holders(k)) && InOrder(Holders(k), Keys())
      ensures TrustedPresent(k) ==> Holders(k) != [] && nodes[Holders(k)[0]].trust == Trusted
    {
      var live := LiveAmong(held[k], nodes);
      LiveMembers(held[k], nodes);
      OrderedInOrder(live, Keys());
      if TrustedPresent(k) {
        var id :| id in held[k] && Serving(id) && nodes[id].trust == Trusted;
        assert id in Holders(k);
        var q :| 0 <= q < |Holders(k)| && Holders(k)[q] == id;
        assert q > 0 ==> NoLater(Keys()[Holders(k)[0]], Keys()[id]);
      }
    }

    /** A READY holder of the slot that no other precedes; a trusted one wherever there is one. */
    ghost predicate Primary(k: nat, id: NodeId)
      requires k < |held|
      reads this
    {
      && id in held[k] && Serving(id) && (TrustedPresent(k) ==> nodes[id].trust == Trusted)
      && forall x :: x in held[k] && Serving(x) ==> NoLater(KeyOf(id), KeyOf(x))
    }

    lemma FirstIsPrimary(k: nat)
      requires Valid() && k < |held| && Holders(k) != []
      ensures Primary(k, Holders(k)[0])
    {
      HoldersAreReady(k);
      hide Holders, HeldOk, NodesOk, Tiled, NoLater;
      var first := Holders(k)[0];
      assert first in Holders(k);
      forall x | x in held[k] && Serving(x) ensures NoLater(KeyOf(first), KeyOf(x)) {
        assert x in Holders(k);
        var q :| 0 <= q < |Holders(k)| && Holders(k)[q] == x;
        if q == 0 { SelfNoLater(KeyOf(first)); }
      }
    }

    /** No holder on probation comes before a trusted one. */
    lemma TrustedFirst(k: nat, i: nat, j: nat)
      requires Valid() && k < |held| && i < j < |Holders(k)|
      ensures Holders(k)[i] in nodes && Holders(k)[j] in nodes
      ensures nodes[Holders(k)[j]].trust == Trusted ==> nodes[Holders(k)[i]].trust == Trusted
    {
      HoldersAreReady(k);
      hide Holders, HeldOk, NodesOk, Tiled;
      assert Holders(k)[i] in Holders(k) && Holders(k)[j] in Holders(k);
      assert NoLater(Keys()[Holders(k)[i]], Keys()[Holders(k)[j]]);
    }

    /** Who comes first: a trusted holder before one on probation; of two alike the nearer, when routing by
        latency; and else the one heard from last. */
    lemma WhoComesFirst(k: nat, i: nat, j: nat)
      requires Valid() && k < |held| && i < j < |Holders(k)|
      ensures Holders(k)[i] in nodes && Holders(k)[j] in nodes
      ensures var a, b := Holders(k)[i], Holders(k)[j];
              && (nodes[b].trust == Trusted ==> nodes[a].trust == Trusted)
              && (nodes[a].trust == nodes[b].trust ==>
                    && (byLatency ==> Rtt(a) <= Rtt(b))
                    && (!byLatency || Rtt(a) == Rtt(b) ==> nodes[a].lastHb >= nodes[b].lastHb))
    {
      HoldersAreReady(k);
      hide Holders, HeldOk, NodesOk, Tiled, Rtt;
      assert Holders(k)[i] in Holders(k) && Holders(k)[j] in Holders(k);
      assert NoLater(Keys()[Holders(k)[i]], Keys()[Holders(k)[j]]);
    }

    /** Holders of different slots are different nodes. */
    lemma HoldersApart(j: nat, k: nat, id: NodeId)
      requires Valid() && j < |held| && k < |held| && id in Holders(j) && id in Holders(k)
      ensures j == k
    {
      HoldersAreReady(j);
      HoldersAreReady(k);
      HeldOnce(held, nodes, j, k, id);
    }

    ghost predicate Covered()
      reads this
    {
      forall k :: 0 <= k < |held| ==> Holders(k) != []
    }

    /** The ordered holders of every slot, or an error exactly when some slot has none. */
    method Route() returns (r: Result<seq<seq<NodeId>>, Error>)
      requires Valid()
      ensures r.Err? ==> r.error == CoverageGap
      ensures r.Ok? <==> Covered()
      ensures r.Ok? ==> |r.value| == |ranges| && forall k :: 0 <= k < |ranges| ==> r.value[k] == Holders(k) != []
    {
      var plan := [];
      for k := 0 to |ranges|
        invariant |plan| == k && forall j :: 0 <= j < k ==> plan[j] == Holders(j) != []
      {
        var hs := Holders(k);
        if hs == [] {
          return Err(CoverageGap);
        }
        plan := plan + [hs];
      }
      return Ok(plan);
    }
  }

  function CommittedAmong(ids: seq<NodeId>, nodes: map<NodeId, Node>): nat
  {
    if ids == [] then 0 else
      CommittedAmong(ids[1..], nodes)
      + (if ids[0] in nodes && nodes[ids[0]].state != Dead then 1 else 0)
  }

  /** Who is committed to a slot, but for those in `gone`: all its holders that are not dead, since a joining
      node is provisioning for it. */
  function Waiting(ids: seq<NodeId>, gone: set<NodeId>, nodes: map<NodeId, Node>): set<NodeId>
  {
    set id | id in ids && id !in gone && id in nodes && nodes[id].state != Dead
  }

  /** Slot `j` has fewer holders committed to it than slot `k`, or as many and comes no later. */
  ghost predicate FewerWaiting(held: seq<seq<NodeId>>, nodes: map<NodeId, Node>, gone: set<NodeId>, j: nat, k: nat)
    requires j < |held| && k < |held|
  {
    var a, b := |Waiting(held[j], gone, nodes)|, |Waiting(held[k], gone, nodes)|;
    a < b || (a == b && j <= k)
  }

  lemma {:induction false} CommittedCounts(ids: seq<NodeId>, nodes: map<NodeId, Node>)
    requires Distinct(ids)
    ensures CommittedAmong(ids, nodes) == |Waiting(ids, {}, nodes)|
    decreases |ids|
  {
    if ids != [] {
      CommittedCounts(ids[1..], nodes);
      WaitingFirst(ids, nodes);
    }
  }

  lemma WaitingFirst(ids: seq<NodeId>, nodes: map<NodeId, Node>)
    requires ids != [] && Distinct(ids)
    ensures var rest := Waiting(ids[1..], {}, nodes);
            && ids[0] !in rest
            && Waiting(ids, {}, nodes) == if ids[0] in nodes && nodes[ids[0]].state != Dead then rest + {ids[0]} else rest
  {
    var tail := ids[1..];
    assert ids == [ids[0]] + tail;
    assert ids[0] !in tail;
  }

  function Lengths(held: seq<seq<NodeId>>): (ls: seq<int>)
    ensures |ls| == |held|
  {
    seq(|held|, k requires 0 <= k < |held| => |held[k]|)
  }

  /** No slot has two holders more than another. */
  ghost predicate LevelHeld(held: seq<seq<NodeId>>)
  {
    forall j, k :: 0 <= j < |held| && 0 <= k < |held| ==> |held[j]| <= |held[k]| + 1
  }

  lemma SomeSlot(ranges: seq<(int, int)>, first: int, last: int)
    requires Tiled(ranges, first, last)
    ensures ranges != []
  {
  }

  lemma EmptyMesh(held: seq<seq<NodeId>>, nodes: map<NodeId, Node>)
    requires HeldOk(held, nodes) && nodes == map[]
    ensures Sum(Lengths(held)) == 0 && LevelHeld(held)
  {
    forall k | 0 <= k < |held| ensures |held[k]| == 0 {
      NobodyHeld(held, nodes, k);
    }
    ZeroSum(Lengths(held));
  }

  lemma NobodyHeld(held: seq<seq<NodeId>>, nodes: map<NodeId, Node>, k: nat)
    requires HeldOk(held, nodes) && k < |held|
    ensures |held[k]| > 0 ==> nodes != map[]
  {
    if |held[k]| > 0 {
      assert held[k][0] in held[k];
      assert held[k][0] in nodes;
    }
  }

  lemma {:induction false} ZeroSum(xs: seq<int>)
    requires forall i :: 0 <= i < |xs| ==> xs[i] == 0
    ensures Sum(xs) == 0
  {
    if xs != [] { ZeroSum(xs[..|xs| - 1]); }
  }

  /** A newcomer on the slot with the fewest holders keeps the slots level. */
  lemma EvenlyPlaced(was: seq<seq<NodeId>>, held: seq<seq<NodeId>>, nodes: map<NodeId, Node>, id: NodeId, slot: nat)
    requires HeldOk(was, nodes) && id !in nodes && (forall x :: x in nodes ==> nodes[x].state != Dead)
    requires slot < |was| && Placed(was, held, id, Some(slot)) && LevelHeld(was)
    requires forall k :: 0 <= k < |was| ==> FewerWaiting(was, nodes, {id}, slot, k)
    ensures LevelHeld(held) && Sum(Lengths(held)) == Sum(Lengths(was)) + 1
  {
    hide Sum;
    forall k | 0 <= k < |was|
      ensures |Waiting(was[k], {id}, nodes)| == |was[k]| && |held[k]| == |was[k]| + (if k == slot then 1 else 0)
    {
      AllWaiting(was, nodes, id, k);
      MinusNothing(was[k], {id});
    }
    forall k | 0 <= k < |was| ensures |was[slot]| <= |was[k]| {
      assert FewerWaiting(was, nodes, {id}, slot, k);
    }
    SumUpdate(Lengths(was), slot, |was[slot]| + 1);
    assert Lengths(held) == Lengths(was)[slot := |was[slot]| + 1];
  }

  lemma AllWaiting(held: seq<seq<NodeId>>, nodes: map<NodeId, Node>, id: NodeId, k: nat)
    requires HeldOk(held, nodes) && id !in nodes && (forall x :: x in nodes ==> nodes[x].state != Dead) && k < |held|
    ensures |Waiting(held[k], {id}, nodes)| == |held[k]| && id !in held[k]
  {
    assert Waiting(held[k], {id}, nodes) == set x | x in held[k];
    DistinctCount(held[k]);
  }

  lemma {:induction false} DistinctCount(ids: seq<NodeId>)
    requires Distinct(ids)
    ensures |set x | x in ids| == |ids|
    decreases |ids|
  {
    if ids != [] {
      DistinctCount(ids[1..]);
      var rest := set x | x in ids[1..];
      assert ids[0] !in rest;
      assert (set x | x in ids) == rest + {ids[0]};
    }
  }

  lemma WaitingWithout(was: seq<seq<NodeId>>, held: seq<seq<NodeId>>, nodes: map<NodeId, Node>, id: NodeId)
    requires Stripped(was, held, {id})
    ensures forall j, k :: 0 <= j < |was| && 0 <= k < |was| ==>
              (FewerWaiting(held, nodes, {}, j, k) <==> FewerWaiting(was, nodes, {id}, j, k))
  {
    forall k | 0 <= k < |was| ensures Waiting(held[k], {}, nodes) == Waiting(was[k], {id}, nodes) {
      MinusMembers(was[k], {id});
    }
  }

  function LiveAmong(ids: seq<NodeId>, nodes: map<NodeId, Node>): seq<NodeId>
  {
    if ids == [] then [] else
      var rest := LiveAmong(ids[1..], nodes);
      if ids[0] in nodes && Routable(nodes[ids[0]]) then [ids[0]] + rest else rest
  }

  lemma {:induction false} LiveMembers(ids: seq<NodeId>, nodes: map<NodeId, Node>)
    ensures forall x :: x in LiveAmong(ids, nodes) <==> x in ids && x in nodes && Routable(nodes[x])
    ensures Distinct(ids) ==> Distinct(LiveAmong(ids, nodes))
    decreases |ids|
  {
    if ids != [] {
      LiveMembers(ids[1..], nodes);
      assert forall x :: x in ids <==> x == ids[0] || x in ids[1..];
      var rest := LiveAmong(ids[1..], nodes);
      if Distinct(ids) && ids[0] in nodes && Routable(nodes[ids[0]]) {
        forall i, j | 0 <= i < j < |rest| + 1 ensures ([ids[0]] + rest)[i] != ([ids[0]] + rest)[j] {
          if i == 0 { assert rest[j - 1] in ids[1..]; }
        }
      }
    }
  }
}
