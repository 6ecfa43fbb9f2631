/** The control service: admission and bans, load-balanced session routes, and what nodes have earned. */
module Registries {
  import opened Wrappers
  import opened Sorting
  import opened Planner
  import opened Products
  import opened Topologies

  type Session = nat

  // ----- maps that default to zero -----

  function At(m: map<NodeId, int>, id: NodeId): int
  {
    if id in m then m[id] else 0
  }

  ghost function SumOver(m: map<NodeId, int>, ids: set<NodeId>): int
    decreases |ids|
  {
    if ids == {} then 0 else
      var id :| id in ids;
      At(m, id) + SumOver(m, ids - {id})
  }

  ghost function Total(m: map<NodeId, int>): int { SumOver(m, m.Keys) }

  lemma {:induction false} SumOverTake(m: map<NodeId, int>, ids: set<NodeId>, x: NodeId)
    requires x in ids
    ensures SumOver(m, ids) == At(m, x) + SumOver(m, ids - {x})
    decreases |ids|
  {
    var id :| id in ids && SumOver(m, ids) == At(m, id) + SumOver(m, ids - {id});
    if id != x {
      SumOverTake(m, ids - {id}, x);
      SumOverTake(m, ids - {x}, id);
      assert ids - {id} - {x} == ids - {x} - {id};
    }
  }

  lemma {:induction false} SumOverAgree(m: map<NodeId, int>, n: map<NodeId, int>, ids: set<NodeId>)
    requires forall id :: id in ids ==> At(m, id) == At(n, id)
    ensures SumOver(m, ids) == SumOver(n, ids)
    decreases |ids|
  {
    if ids != {} {
      var id :| id in ids;
      SumOverTake(m, ids, id);
      SumOverTake(n, ids, id);
      SumOverAgree(m, n, ids - {id});
    }
  }

  lemma TotalUpdate(m: map<NodeId, int>, id: NodeId, v: int)
    ensures Total(m[id := v]) == Total(m) - At(m, id) + v
  {
    var n := m[id := v];
    SumOverTake(n, n.Keys, id);
    SumOverAgree(m, n, n.Keys - {id});
    if id in m {
      SumOverTake(m, m.Keys, id);
      assert n.Keys - {id} == m.Keys - {id};
    } else {
      assert n.Keys - {id} == m.Keys;
    }
  }

  // ----- loads -----

  /** The sessions whose route a node is on. */
  ghost function UserSet(routes: map<Session, seq<NodeId>>, id: NodeId): set<Session>
  {
    set s | s in routes && id in routes[s]
  }

  ghost function Users(routes: map<Session, seq<NodeId>>, id: NodeId): nat { |UserSet(routes, id)| }

  /** The load counters say how many tracked sessions use each node, and list nobody idle. */
  ghost predicate LoadsExact(load: map<NodeId, int>, routes: map<Session, seq<NodeId>>)
  {
    && (forall id :: At(load, id) == Users(routes, id))
    && forall id :: id in load ==> load[id] > 0
  }

  ghost predicate RoutesDistinct(routes: map<Session, seq<NodeId>>)
  {
    forall s :: s in routes ==> Distinct(routes[s])
  }

  function One(b: bool): int { if b then 1 else 0 }

  /** One more on each of `ids`, nothing else changed. */
  ghost predicate Charged(was: map<NodeId, int>, load: map<NodeId, int>, ids: seq<NodeId>)
  {
    forall id :: At(load, id) == At(was, id) + One(id in ids)
  }

  lemma UsersAdded(routes: map<Session, seq<NodeId>>, s: Session, route: seq<NodeId>, id: NodeId)
    requires s !in routes
    ensures Users(routes[s := route], id) == Users(routes, id) + One(id in route)
  {
    var was, now := UserSet(routes, id), UserSet(routes[s := route], id);
    if id in route {
      assert now == was + {s};
    } else {
      assert now == was;
    }
  }

  lemma UsersDropped(routes: map<Session, seq<NodeId>>, s: Session, id: NodeId)
    requires s in routes
    ensures Users(routes - {s}, id) == Users(routes, id) - One(id in routes[s])
  {
    UsersAdded(routes - {s}, s, routes[s], id);
    assert (routes - {s})[s := routes[s]] == routes;
  }

  lemma UsersReplaced(routes: map<Session, seq<NodeId>>, s: Session, route: seq<NodeId>, id: NodeId)
    requires s in routes
    ensures Users(routes[s := route], id) == Users(routes, id) - One(id in routes[s]) + One(id in route)
  {
    UsersDropped(routes, s, id);
    UsersAdded(routes - {s}, s, route, id);
    assert (routes - {s})[s := route] == routes[s := route];
  }

  method Charge(load: map<NodeId, int>, ids: seq<NodeId>) returns (out: map<NodeId, int>)
    requires Distinct(ids) && forall id :: id in load ==> load[id] > 0
    ensures Charged(load, out, ids)
    ensures forall id :: id in out ==> out[id] > 0
  {
    out := load;
    for i := 0 to |ids|
      invariant forall id :: id in out ==> out[id] > 0
      invariant Charged(load, out, ids[..i])
    {
      assert ids[..i + 1] == ids[..i] + [ids[i]];
      out := out[ids[i] := At(out, ids[i]) + 1];
    }
    assert ids[..|ids|] == ids;
  }

  /** One less on each of `ids`; a counter that would reach zero is dropped. */
  method Discharge(load: map<NodeId, int>, ids: seq<NodeId>) returns (out: map<NodeId, int>)
    requires Distinct(ids) && forall id :: id in load ==> load[id] > 0
    requires forall id :: id in ids ==> At(load, id) >= 1
    ensures Charged(out, load, ids)
    ensures forall id :: id in out ==> out[id] > 0
  {
    out := load;
    for i := 0 to |ids|
      invariant forall id :: id in out ==> out[id] > 0
      invariant Charged(out, load, ids[..i])
    {
      assert ids[..i + 1] == ids[..i] + [ids[i]];
      var c := At(out, ids[i]) - 1;
      if c > 0 {
        out := out[ids[i] := c];
      } else {
        out := out - {ids[i]};
      }
    }
    assert ids[..|ids|] == ids;
  }

  /** The members of a set, in any order. */
  method Listed(ids: set<NodeId>) returns (list: seq<NodeId>)
    ensures Distinct(list) && forall id :: id in list <==> id in ids
  {
    list := [];
    var left := ids;
    while left != {}
      invariant left <= ids && Distinct(list) && forall id :: id in list <==> id in ids - left
      decreases |left|
    {
      var id :| id in left;
      assert id !in list;
      left := left - {id};
      list := list + [id];
    }
  }

  /** Track a new session's route. */
  method Track(load: map<NodeId, int>, ghost routes: map<Session, seq<NodeId>>, ghost s: Session, route: seq<NodeId>)
    returns (out: map<NodeId, int>)
    requires LoadsExact(load, routes) && s !in routes && Distinct(route)
    ensures LoadsExact(out, routes[s := route]) && Charged(load, out, route)
  {
    hide Users;
    out := Charge(load, route);
    forall id ensures Users(routes[s := route], id) == Users(routes, id) + One(id in route) {
      UsersAdded(routes, s, route, id);
    }
  }

  /** Forget a tracked session. */
  method Untrack(load: map<NodeId, int>, ghost routes: map<Session, seq<NodeId>>, ghost s: Session, route: seq<NodeId>)
    returns (out: map<NodeId, int>)
    requires LoadsExact(load, routes) && s in routes && routes[s] == route && Distinct(route)
    ensures LoadsExact(out, routes - {s}) && Charged(out, load, route)
  {
    hide Users;
    forall id ensures Users(routes - {s}, id) == Users(routes, id) - One(id in route) {
      UsersDropped(routes, s, id);
    }
    out := Discharge(load, route);
  }

  /** Give a tracked session another route: only the holders it loses and gains change load. */
  method Retrack(load: map<NodeId, int>, ghost routes: map<Session, seq<NodeId>>, ghost s: Session,
                 pinned: seq<NodeId>, route: seq<NodeId>) returns (out: map<NodeId, int>)
    requires LoadsExact(load, routes) && s in routes && routes[s] == pinned && Distinct(route)
    ensures LoadsExact(out, routes[s := route])
  {
    hide Users;
    var before, after := set id | id in pinned, set id | id in route;
    var dropped := Listed(before - after);
    var gained := Listed(after - before);
    forall id | id in dropped ensures At(load, id) >= 1 {
      UsersDropped(routes, s, id);
    }
    out := Discharge(load, dropped);
    out := Charge(out, gained);
    forall id ensures Users(routes[s := route], id) == Users(routes, id) - One(id in pinned) + One(id in route) {
      UsersReplaced(routes, s, route, id);
    }
  }

  // ----- choosing holders -----

  /** Holder `i` has the least load, and is the first of those that have it. */
  predicate LeastLoaded(load: map<NodeId, int>, hs: seq<NodeId>, i: nat)
  {
    && i < |hs|
    && forall j :: 0 <= j < |hs| ==> At(load, hs[i]) < At(load, hs[j]) || (At(load, hs[i]) == At(load, hs[j]) && i <= j)
  }

  /** A pinned holder that still serves the slot is kept; otherwise the least loaded holder is taken. */
  ghost predicate Picked(load: map<NodeId, int>, hs: seq<NodeId>, pinned: seq<NodeId>, k: nat, id: NodeId)
  {
    if k < |pinned| && pinned[k] in hs then id == pinned[k]
    else exists i: nat :: LeastLoaded(load, hs, i) && id == hs[i]
  }

  method PickLeastLoaded(load: map<NodeId, int>, hs: seq<NodeId>) returns (i: nat)
    requires hs != []
    ensures LeastLoaded(load, hs, i)
  {
    i := 0;
    for j := 1 to |hs|
      invariant i < |hs| && i < j
      invariant forall k :: 0 <= k < j ==>
                  At(load, hs[i]) < At(load, hs[k]) || (At(load, hs[i]) == At(load, hs[k]) && i <= k)
    {
      if At(load, hs[j]) < At(load, hs[i]) {
        i := j;
      }
    }
  }

  /** Every slot still has its pinned holder. */
  ghost predicate AllServe(plan: seq<seq<NodeId>>, pinned: seq<NodeId>)
  {
    |pinned| == |plan| && forall k :: 0 <= k < |plan| ==> pinned[k] in plan[k]
  }

  method PickRoute(load: map<NodeId, int>, plan: seq<seq<NodeId>>, pinned: seq<NodeId>) returns (route: seq<NodeId>)
    requires forall k :: 0 <= k < |plan| ==> plan[k] != []
    ensures |route| == |plan|
    ensures forall k :: 0 <= k < |plan| ==> route[k] in plan[k] && Picked(load, plan[k], pinned, k, route[k])
    ensures AllServe(plan, pinned) ==> route == pinned
  {
    route := [];
    for k := 0 to |plan|
      invariant |route| == k
      invariant forall j :: 0 <= j < k ==> route[j] in plan[j] && Picked(load, plan[j], pinned, j, route[j])
    {
      if k < |pinned| && pinned[k] in plan[k] {
        route := route + [pinned[k]];
      } else {
        var i := PickLeastLoaded(load, plan[k]);
        route := route + [plan[k][i]];
      }
    }
  }

  /** The sessions orchestrators drive, as one-node routes. */
  ghost function Entries(entries: map<Session, NodeId>): map<Session, seq<NodeId>>
  {
    map s | s in entries :: [entries[s]]
  }

  /** Fewer sessions driven, or as many and an id no later in code-point order. */
  ghost predicate Preferred(entries: map<Session, NodeId>, a: NodeId, b: NodeId)
  {
    || Users(Entries(entries), a) < Users(Entries(entries), b)
    || (Users(Entries(entries), a) == Users(Entries(entries), b) && NotAfter(a, b))
  }

  method PickEntry(load: map<NodeId, int>, ghost entries: map<Session, NodeId>, cands: set<NodeId>)
    returns (pick: NodeId)
    requires cands != {} && LoadsExact(load, Entries(entries))
    ensures pick in cands && forall id :: id in cands ==> Preferred(entries, pick, id)
  {
    hide Users, NotAfter, NoMoreLoaded, Preferred;
    pick :| pick in cands;
    var left := cands - {pick};
    NoMoreLoadedTotal(load, pick, pick);
    while left != {}
      invariant left <= cands && pick in cands - left
      invariant forall id :: id in cands - left ==> NoMoreLoaded(load, pick, id)
      decreases |left|
    {
      var id :| id in left;
      left := left - {id};
      NoMoreLoadedTotal(load, id, pick);
      if NoMoreLoaded(load, id, pick) {
        NoMoreLoadedTotal(load, id, id);
        forall x | x in cands - left ensures NoMoreLoaded(load, id, x) {
          if x != id { NoMoreLoadedTransitive(load, id, pick, x); }
        }
        pick := id;
      }
    }
    forall id | id in cands ensures Preferred(entries, pick, id) {
      LoadedIsPreferred(load, entries, pick, id);
    }
  }

  predicate NoMoreLoaded(load: map<NodeId, int>, a: NodeId, b: NodeId)
  {
    At(load, a) < At(load, b) || (At(load, a) == At(load, b) && NotAfter(a, b))
  }

  lemma NoMoreLoadedTotal(load: map<NodeId, int>, a: NodeId, b: NodeId)
    ensures NoMoreLoaded(load, a, b) || NoMoreLoaded(load, b, a)
  {
    NotAfterTotal(a, b);
  }

  lemma NoMoreLoadedTransitive(load: map<NodeId, int>, a: NodeId, b: NodeId, c: NodeId)
    requires NoMoreLoaded(load, a, b) && NoMoreLoaded(load, b, c)
    ensures NoMoreLoaded(load, a, c)
  {
    if NotAfter(a, b) && NotAfter(b, c) { NotAfterTransitive(a, b, c); }
  }

  lemma LoadedIsPreferred(load: map<NodeId, int>, entries: map<Session, NodeId>, a: NodeId, b: NodeId)
    requires LoadsExact(load, Entries(entries)) && NoMoreLoaded(load, a, b)
    ensures Preferred(entries, a, b)
  {
    hide Users;
    assert At(load, a) == Users(Entries(entries), a) && At(load, b) == Users(Entries(entries), b);
  }

  // ----- work and payouts -----

  datatype Work = Work(id: NodeId, layers: int, tokens: int)

  function Weights(route: seq<Work>): (ws: seq<int>)
    ensures |ws| == |route|
  {
    seq(|route|, i requires 0 <= i < |route| => route[i].layers * route[i].tokens)
  }

  /** A proportion of the pool, rounded down. */
  function FloorShare(pool: int, w: int, total: int): int
    requires total > 0
  {
    pool * w / total
  }

  function FloorShares(pool: int, ws: seq<int>, total: int): (fs: seq<int>)
    requires total > 0
    ensures |fs| == |ws|
  {
    seq(|ws|, i requires 0 <= i < |ws| => FloorShare(pool, ws[i], total))
  }

  /** The split of a pool in proportion to the weights: floors, and the rest to the last. */
  function Shares(pool: int, ws: seq<int>): (shares: seq<int>)
    requires Sum(ws) > 0
    ensures |shares| == |ws|
  {
    var floors := FloorShares(pool, ws, Sum(ws))[..|ws| - 1];
    floors + [pool - Sum(floors)]
  }

  lemma FloorProduct(p: int, w: int, total: int)
    requires total > 0
    ensures Product(total, FloorShare(p, w, total)) <= Product(p, w) < Product(total, FloorShare(p, w, total)) + total
  {
    assert p * w == total * (p * w / total) + p * w % total;
  }

  /** The floors of a list of weights fall short of the exact total by less than one each. */
  lemma {:induction false} FloorsFallShort(pool: int, ws: seq<int>, total: int, n: nat)
    requires total > 0 && n <= |ws|
    ensures Product(total, Sum(FloorShares(pool, ws, total)[..n])) <= Product(pool, Sum(ws[..n]))
    ensures Product(pool, Sum(ws[..n])) <= Product(total, Sum(FloorShares(pool, ws, total)[..n])) + Product(total, n)
    decreases n
  {
    hide Product, FloorShare;
    if n == 0 {
      ProductZero(total);
      ProductZero(pool);
    } else {
      var fs := FloorShares(pool, ws, total);
      FloorsFallShort(pool, ws, total, n - 1);
      assert ws[..n][..n - 1] == ws[..n - 1] && fs[..n][..n - 1] == fs[..n - 1];
      FloorProduct(pool, ws[n - 1], total);
      ProductSum(total, Sum(fs[..n - 1]), fs[n - 1]);
      ProductSum(pool, Sum(ws[..n - 1]), ws[n - 1]);
      ProductSum(total, n - 1, 1);
      ProductOne(total);
    }
  }

  lemma SharesParts(pool: int, ws: seq<int>)
    requires Sum(ws) > 0
    ensures ws != [] && Sum(Shares(pool, ws)) == pool
    ensures var n := |ws| - 1;
            var floors := FloorShares(pool, ws, Sum(ws));
            && Shares(pool, ws)[n] == pool - Sum(floors[..n])
            && forall i :: 0 <= i < n ==> Shares(pool, ws)[i] == floors[i]
  {
    SumSome(ws);
    hide Sum, FloorShares, FloorShare;
    var floors := FloorShares(pool, ws, Sum(ws))[..|ws| - 1];
    SumLonger(floors, pool - Sum(floors));
  }

  lemma SumSome(xs: seq<int>)
    ensures Sum(xs) != 0 ==> xs != []
  {
  }

  lemma SumLonger(xs: seq<int>, x: int)
    ensures Sum(xs + [x]) == Sum(xs) + x
  {
    assert (xs + [x])[..|xs|] == xs;
  }

  lemma FloorShareBounds(pool: int, ws: seq<int>, total: int, i: nat)
    requires total > 0 && i < |ws|
    ensures var f := FloorShares(pool, ws, total)[i];
            Product(total, f) <= Product(pool, ws[i]) < Product(total, f + 1)
  {
    hide Product, FloorShare;
    FloorProduct(pool, ws[i], total);
    ProductSum(total, FloorShares(pool, ws, total)[i], 1);
    ProductOne(total);
  }

  /** The shares add up to the pool.  Every server but the last gets the floor of its exact
      proportion; the last gets at least its exact proportion, and at most one unit per other server
      above it. */
  lemma SharesAreFair(pool: int, ws: seq<int>)
    requires Sum(ws) > 0
    ensures ws != [] && Sum(Shares(pool, ws)) == pool
    ensures forall i :: 0 <= i < |ws| - 1 ==>
              Product(Sum(ws), Shares(pool, ws)[i]) <= Product(pool, ws[i]) < Product(Sum(ws), Shares(pool, ws)[i] + 1)
    ensures var last := |ws| - 1;
            Product(pool, ws[last]) <= Product(Sum(ws), Shares(pool, ws)[last])
                                    <= Product(pool, ws[last]) + Product(Sum(ws), last)
  {
    hide Product, Shares, FloorShares;
    SharesParts(pool, ws);
    var n := |ws| - 1;
    var total := Sum(ws);
    forall i | 0 <= i < n
      ensures Product(total, Shares(pool, ws)[i]) <= Product(pool, ws[i]) < Product(total, Shares(pool, ws)[i] + 1)
    {
      FloorShareBounds(pool, ws, total, i);
    }
    FloorsFallShort(pool, ws, total, n);
    var front := Sum(FloorShares(pool, ws, total)[..n]);
    ProductSum(total, front, pool - front);
    ProductSum(pool, Sum(ws[..n]), ws[n]);
    assert Sum(ws) == Sum(ws[..n]) + ws[n];
    ProductSwap(total, pool);
  }

  /** All the work of a request, each slice its layers times its tokens. */
  ghost function AllWork(route: seq<Work>): int
  {
    if route == [] then 0 else
      var n := |route| - 1;
      AllWork(route[..n]) + route[n].layers * route[n].tokens
  }

  ghost predicate ServedOnce(route: seq<Work>)
  {
    forall i, j :: 0 <= i < j < |route| ==> route[i].id != route[j].id
  }

  /** What server `i` gains of a pool: its exact proportion rounded down; the last one, what the others'
      rounding leaves over, which is at least its proportion and above it by at most one unit per other
      server. */
  ghost predicate FairGain(route: seq<Work>, i: nat, pool: int, gain: int)
    requires i < |route|
  {
    var all, work := AllWork(route), route[i].layers * route[i].tokens;
    if i < |route| - 1 then all * gain <= pool * work < all * (gain + 1)
    else pool * work <= all * gain <= pool * work + all * (|route| - 1)
  }

  lemma {:induction false} AllWorkIsSum(route: seq<Work>)
    ensures AllWork(route) == Sum(Weights(route))
    decreases |route|
  {
    if route != [] {
      var n := |route| - 1;
      AllWorkIsSum(route[..n]);
      assert Weights(route)[..n] == Weights(route[..n]);
    }
  }

  lemma {:induction false} NoCredit(route: seq<Work>, shares: seq<int>, id: NodeId)
    requires |route| == |shares| && forall w :: w in route ==> w.id != id
    ensures Credit(route, shares, id) == 0
    decreases |route|
  {
    if route != [] {
      var n := |route| - 1;
      assert route[n] in route;
      NoCredit(route[..n], shares[..n], id);
    }
  }

  lemma {:induction false} CreditOnce(route: seq<Work>, shares: seq<int>, i: nat)
    requires |route| == |shares| && ServedOnce(route) && i < |route|
    ensures Credit(route, shares, route[i].id) == shares[i]
    decreases |route|
  {
    var n := |route| - 1;
    if i < n {
      CreditOnce(route[..n], shares[..n], i);
    } else {
      NoCredit(route[..n], shares[..n], route[n].id);
    }
  }

  lemma SharesAreGains(route: seq<Work>, pool: int, i: nat)
    requires ServedOnce(route) && Sum(Weights(route)) > 0 && i < |route|
    ensures FairGain(route, i, pool, Credit(route, Shares(pool, Weights(route)), route[i].id))
  {
    AllWorkIsSum(route);
    hide *;
    var ws, all := Weights(route), AllWork(route);
    var s := Shares(pool, ws);
    CreditOnce(route, s, i);
    SharesAreFair(pool, ws);
    if i == |ws| - 1 {
      assert Product(pool, ws[i]) <= Product(all, s[i]) <= Product(pool, ws[i]) + Product(all, i);
    } else {
      assert Product(all, s[i]) <= Product(pool, ws[i]) < Product(all, s[i] + 1);
    }
    GainIsFair(route, i, pool, s[i]);
  }

  lemma GainIsFair(route: seq<Work>, i: nat, pool: int, gain: int)
    requires i < |route|
    requires var all, w := AllWork(route), Weights(route)[i];
             if i < |route| - 1 then Product(all, gain) <= Product(pool, w) < Product(all, gain + 1)
             else Product(pool, w) <= Product(all, gain) <= Product(pool, w) + Product(all, |route| - 1)
    ensures FairGain(route, i, pool, gain)
  {
    hide AllWork;
  }

  /** What `shares` gives to one node, which may have served several slices. */
  ghost function Credit(route: seq<Work>, shares: seq<int>, id: NodeId): int
    requires |route| == |shares|
    decreases |route|
  {
    if route == [] then 0 else
      var n := |route| - 1;
      Credit(route[..n], shares[..n], id) + (if route[n].id == id then shares[n] else 0)
  }

  function Paid(batch: seq<(string, int)>): int
  {
    if batch == [] then 0 else Paid(batch[..|batch| - 1]) + batch[|batch| - 1].1
  }

  // ----- the registry -----

  datatype Assignment = Slice(first: int, last: int) | Head(orchIndex: nat)

  class Registry {
    const topo: Topology
    const allowlist: Option<set<NodeId>>
    const seedNodes: set<NodeId>
    const feeBps: int
    const banAfter: int
    var wallets: map<NodeId, string>
    var accrued: map<NodeId, int>
    var evictionCounts: map<NodeId, int>
    var banned: set<NodeId>
    /** How many sessions use each holder, and the route of each session. */
    var load: map<NodeId, int>
    var sessionLoad: map<Session, seq<NodeId>>
    /** The same for the orchestrators that drive sessions. */
    var entryLoad: map<NodeId, int>
    var sessionEntry: map<Session, NodeId>
    var orchSeq: nat
    /** All pools ever split, and everything ever paid out. */
    ghost var earned: int
    ghost var paid: int

    /** A banned node is gone, dead or leaving. */
    ghost predicate BansHold()
      reads this`banned, topo`nodes
    {
      forall id :: id in banned && id in topo.nodes ==> Retired(topo.nodes[id])
    }

    /** Exactly the nodes evicted often enough are banned. */
    ghost predicate BansCounted()
      reads this`banned, this`evictionCounts
    {
      forall id :: id in banned <==> id in evictionCounts && evictionCounts[id] >= banAfter
    }

    ghost predicate LoadsOk()
      reads this`load, this`sessionLoad, this`entryLoad, this`sessionEntry
    {
      && LoadsExact(load, sessionLoad) && RoutesDistinct(sessionLoad)
      && LoadsExact(entryLoad, Entries(sessionEntry))
    }

    ghost predicate Valid()
      reads this, topo
    {
      topo.Valid() && BansHold() && BansCounted() && LoadsOk() && Total(accrued) + paid == earned
    }

    constructor (topo: Topology, allowlist: Option<set<NodeId>>, seedNodes: set<NodeId>, feeBps: int, banAfter: int)
      requires topo.Valid()
      ensures Valid() && this.topo == topo && banned == {} && sessionLoad == map[] && load == map[] && accrued == map[]
      ensures wallets == map[] && evictionCounts == map[] && entryLoad == map[] && sessionEntry == map[] && orchSeq == 0 == earned == paid
      ensures this.allowlist == allowlist && this.seedNodes == seedNodes
      ensures this.feeBps == feeBps && this.banAfter == banAfter
    {
      this.topo, this.allowlist, this.seedNodes, this.feeBps, this.banAfter := topo, allowlist, seedNodes, feeBps, banAfter;
      wallets, accrued, evictionCounts, banned := map[], map[], map[], {};
      load, sessionLoad, entryLoad, sessionEntry, orchSeq := map[], map[], map[], map[], 0;
      earned, paid := 0, 0;
      new;
      forall id ensures Users(map[], id) == 0 {
        assert UserSet(map[], id) == {};
      }
      assert Entries(sessionEntry) == map[];
    }

    /** A banned node serves nothing: no route, snapshot or entry pick can return it. */
    lemma BannedNeverServes(id: NodeId)
      requires Valid() && id in banned
      ensures !topo.Serving(id)
      ensures forall k :: 0 <= k < |topo.held| ==> id !in topo.Holders(k)
    {
      forall k | 0 <= k < |topo.held| ensures id !in topo.Holders(k) {
        topo.HoldersAreReady(k);
      }
    }

    // ----- admission -----

    ghost predicate Barred(id: NodeId)
      reads this
    {
      id in banned || (allowlist.Some? && id !in allowlist.value)
    }

    ghost predicate Unfit(node: Node)
    {
      || node.modelFp != topo.modelFp
      || (!node.orchestrator && forall k :: 0 <= k < |topo.ranges| ==> !topo.Fits(node, k))
    }

    /** Admit a node: never a banned one, nor one off the allowlist.  A seed node is trusted at once.
        Each orchestrator gets the next 15-bit prefix for its session ids. */
    method Register(node: Node, now: real, preferRange: Option<(int, int)>) returns (r: Result<Assignment, Error>)
      requires Valid()
      modifies this`wallets, this`orchSeq, topo
      ensures Valid()
      ensures Barred(node.id) <==> r == Err(PermissionError)
      ensures !Barred(node.id) ==> (r == Err(ValueError) <==> Unfit(node)) && (r.Ok? <==> !Unfit(node))
      ensures r.Err? ==> topo.nodes == old(topo.nodes) && wallets == old(wallets) && orchSeq == old(orchSeq)
      ensures r.Err? && (Barred(node.id) || node.modelFp != topo.modelFp) ==> topo.held == old(topo.held)
      ensures r.Err? && !(Barred(node.id) || node.modelFp != topo.modelFp) ==>
                Stripped(old(topo.held), topo.held, {node.id})
      ensures r.Ok? ==> wallets == old(wallets)[node.id := node.wallet]
      ensures r.Ok? ==>
                && topo.nodes.Keys == old(topo.nodes).Keys + {node.id}
                && topo.nodes[node.id].state == Joining && topo.nodes[node.id].lastHb == now
                && topo.nodes[node.id].trust == (if node.id in seedNodes then Trusted else node.trust)
                && Placed(old(topo.held), topo.held, node.id, topo.nodes[node.id].slot)
                && forall id :: id in topo.nodes && id != node.id ==> topo.nodes[id] == old(topo.nodes)[id]
      ensures r.Ok? && node.orchestrator ==>
                && r.value == Head(old(orchSeq) % 32768) && orchSeq == old(orchSeq) + 1
                && topo.nodes[node.id].slot == None && topo.nodes[node.id].orchestrator
                && forall k :: 0 <= k < |topo.held| ==> node.id !in topo.held[k]
      ensures r.Ok? && !node.orchestrator ==>
                && orchSeq == old(orchSeq) && topo.nodes[node.id].slot.Some?
                && var k := topo.nodes[node.id].slot.value;
                   && topo.Fits(node, k) && node.id in topo.held[k]
                   && r.value == Slice(topo.ranges[k].0, topo.ranges[k].1)
    {
      hide HeldOk, NodesOk, Tiled, LoadsOk, BansCounted, BansHold, Unfit;
      if node.id in banned || (allowlist.Some? && node.id !in allowlist.value) {
        return Err(PermissionError);
      }
      var assignment := Admit(node, now, preferRange);
      if assignment.Err? {
        return assignment;
      }
      if node.id in seedNodes {
        SetTrusted(node.id);
      }
      wallets := wallets[node.id := node.wallet];
      return assignment;
    }

    /** Find the node its place: a session-id prefix for an orchestrator, a slot for any other. */
    method Admit(node: Node, now: real, preferRange: Option<(int, int)>) returns (r: Result<Assignment, Error>)
      requires Valid() && !Barred(node.id)
      modifies this`orchSeq, topo
      ensures Valid()
      ensures r.Err? ==> r.error == ValueError && topo.nodes == old(topo.nodes) && orchSeq == old(orchSeq)
      ensures r.Err? <==> Unfit(node)
      ensures r.Err? && node.modelFp != topo.modelFp ==> topo.held == old(topo.held)
      ensures r.Err? && node.modelFp == topo.modelFp ==> Stripped(old(topo.held), topo.held, {node.id})
      ensures r.Ok? ==> node.id in topo.nodes && Placed(old(topo.held), topo.held, node.id, topo.nodes[node.id].slot)
      ensures r.Ok? ==> topo.nodes == old(topo.nodes)[node.id :=
                node.(slot := topo.nodes[node.id].slot, state := Joining, lastHb := now)]
      ensures r.Ok? && node.orchestrator ==>
                && r.value == Head(old(orchSeq) % 32768) && orchSeq == old(orchSeq) + 1
                && topo.nodes[node.id].slot == None
                && forall k :: 0 <= k < |topo.held| ==> node.id !in topo.held[k]
      ensures r.Ok? && !node.orchestrator ==>
                && orchSeq == old(orchSeq) && topo.nodes[node.id].slot.Some?
                && var k := topo.nodes[node.id].slot.value;
                   && k < |topo.ranges| && k < |topo.held| && topo.Fits(node, k) && node.id in topo.held[k]
                   && r.value == Slice(topo.ranges[k].0, topo.ranges[k].1)
    {
      hide HeldOk, NodesOk, Tiled, LoadsOk, BansCounted, Minus;
      if node.orchestrator {
        var done := topo.RegisterOrchestrator(node, now);
        if done.Err? {
          return Err(done.error);
        }
        orchSeq := orchSeq + 1;
        return Ok(Head((orchSeq - 1) % 32768));
      }
      var slot := topo.Register(node, now, preferRange);
      if slot.Err? {
        return Err(slot.error);
      }
      return Ok(Slice(topo.ranges[slot.value].0, topo.ranges[slot.value].1));
    }

    // ----- liveness and trust -----

    method Heartbeat(id: NodeId, now: real) returns (known: bool)
      requires Valid()
      modifies topo`nodes
      ensures Valid() && known == (id in old(topo.nodes) && old(topo.nodes)[id].state != Dead)
      ensures !known ==> topo.nodes == old(topo.nodes)
      ensures known ==>
                var n := old(topo.nodes)[id];
                topo.nodes == old(topo.nodes)[id :=
                  n.(lastHb := now, state := if n.state == Suspect then Ready else n.state)]
    {
      known := topo.Heartbeat(id, now);
    }

    method Drain(id: NodeId)
      requires Valid()
      modifies topo`nodes
      ensures Valid()
      ensures topo.nodes == if id in old(topo.nodes)
                            then old(topo.nodes)[id := old(topo.nodes)[id].(state := Draining)] else old(topo.nodes)
    {
      topo.Drain(id);
    }

    method MarkReady(id: NodeId)
      requires Valid()
      modifies topo`nodes
      ensures Valid()
      ensures topo.nodes == if id in old(topo.nodes) && old(topo.nodes)[id].state == Joining
                            then old(topo.nodes)[id := old(topo.nodes)[id].(state := Ready)] else old(topo.nodes)
    {
      topo.MarkReady(id);
    }

    method MarkSuspect(id: NodeId)
      requires Valid()
      modifies topo`nodes
      ensures Valid()
      ensures topo.nodes == if id in old(topo.nodes) && old(topo.nodes)[id].state == Ready
                            then old(topo.nodes)[id := old(topo.nodes)[id].(state := Suspect)] else old(topo.nodes)
    {
      topo.MarkSuspect(id);
    }

    method SetTrusted(id: NodeId)
      requires Valid()
      modifies topo`nodes
      ensures Valid()
      ensures topo.nodes == if id in old(topo.nodes)
                            then old(topo.nodes)[id := old(topo.nodes)[id].(trust := Trusted)] else old(topo.nodes)
    {
      topo.SetTrusted(id);
    }

    /** Fold a verification result into a node's trust.  The eviction that reaches `banAfter` bans the
        node, and no ban is ever lifted. */
    method RecordCheck(id: NodeId, ok: bool, promoteAfter: int, strikeMax: int) returns (verdict: Option<Verdict>)
      requires Valid()
      modifies this`evictionCounts, this`banned, topo`nodes
      ensures Valid()
      ensures topo.nodes == if id in old(topo.nodes)
                            then old(topo.nodes)[id := Checked(old(topo.nodes)[id], ok, promoteAfter, strikeMax)]
                            else old(topo.nodes)
      ensures verdict == Some(Evicted) <==> id in topo.nodes && !ok && topo.nodes[id].strikes >= strikeMax
      ensures verdict != Some(Evicted) ==> evictionCounts == old(evictionCounts) && banned == old(banned)
      ensures verdict == Some(Evicted) ==>
                && evictionCounts == old(evictionCounts)[id := At(old(evictionCounts), id) + 1]
                && old(banned) <= banned <= old(banned) + {id}
                && topo.nodes[id].state == Dead
    {
      hide HeldOk, NodesOk, Tiled, LoadsOk, Topology.Valid, Total;
      verdict := topo.RecordCheck(id, ok, promoteAfter, strikeMax);
      if verdict == Some(Evicted) {
        evictionCounts := evictionCounts[id := At(evictionCounts, id) + 1];
        if evictionCounts[id] >= banAfter {
          banned := banned + {id};
        }
      }
    }

    /** Periodic maintenance: silent nodes die, and those dead for long enough leave. */
    method Tick(now: real) returns (reaped: seq<NodeId>, purged: set<NodeId>)
      requires Valid()
      modifies topo
      ensures Valid() && banned == old(banned)
      ensures forall id :: id in reaped <==> id in old(topo.nodes) && Expired(old(topo.nodes)[id], now, topo.deadAfter)
      ensures forall id :: id in purged <==>
                && id in old(topo.nodes) && Reaped(old(topo.nodes)[id], now, topo.deadAfter).state == Dead
                && now - old(topo.nodes)[id].lastHb > 2.0 * topo.deadAfter
      ensures topo.nodes == map id | id in old(topo.nodes) && id !in purged ::
                              Reaped(old(topo.nodes)[id], now, topo.deadAfter)
      ensures Stripped(old(topo.held), topo.held, purged)
    {
      hide HeldOk, NodesOk, Tiled, LoadsOk, BansCounted, Minus, Stripped;
      reaped := topo.Reap(now);
      purged := topo.Purge(now);
    }

    // ----- routes -----

    /** The primary of every slot: a trusted one wherever the slot has a READY trusted holder. */
    method RouteSnapshot() returns (r: Result<seq<NodeId>, Error>)
      requires Valid()
      ensures r.Ok? <==> topo.Covered()
      ensures r.Ok? ==> |r.value| == |topo.ranges|
      ensures r.Ok? ==> forall k :: 0 <= k < |r.value| ==>
                topo.Primary(k, r.value[k]) && r.value[k] !in banned
    {
      hide HeldOk, NodesOk, Tiled, LoadsOk, BansCounted;
      var plan := topo.Route();
      if plan.Err? {
        return Err(plan.error);
      }
      var route := seq(|plan.value|, k requires 0 <= k < |plan.value| => plan.value[k][0]);
      forall k | 0 <= k < |route| ensures topo.Primary(k, route[k]) {
        topo.FirstIsPrimary(k);
      }
      return Ok(route);
    }

    /** A route through one holder per slot uses no node twice. */
    lemma RouteDistinct(route: seq<NodeId>)
      requires topo.Valid() && |route| == |topo.held|
      requires forall k :: 0 <= k < |route| ==> route[k] in topo.Holders(k)
      ensures Distinct(route)
    {
      forall i, j | 0 <= i < j < |route| ensures route[i] != route[j] {
        if route[i] == route[j] {
          topo.HoldersApart(i, j, route[i]);
        }
      }
    }

    /** A route for a session.  For every slot a session already pinned keeps its holder while that is
        still READY there; the other slots get their least loaded holder.  Fails exactly when a slot
        is uncovered, and then changes nothing. */
    method AcquireRoute(session: Session) returns (r: Result<seq<NodeId>, Error>)
      requires Valid()
      modifies this`load, this`sessionLoad
      ensures Valid()
      ensures r.Ok? <==> topo.Covered()
      ensures r.Err? ==> r.error == CoverageGap && load == old(load) && sessionLoad == old(sessionLoad)
      ensures r.Ok? ==> |r.value| == |topo.held| && sessionLoad == old(sessionLoad)[session := r.value]
      ensures r.Ok? ==> forall k :: 0 <= k < |r.value| ==>
                && r.value[k] in topo.Holders(k) && topo.Serving(r.value[k]) && r.value[k] !in banned
                && Picked(old(load), topo.Holders(k), Pinned(old(sessionLoad), session), k, r.value[k])
      ensures r.Ok? && session !in old(sessionLoad) ==> Charged(old(load), load, r.value)
      ensures r.Ok? && session in old(sessionLoad) && PinsServe(old(sessionLoad)[session]) ==>
                r.value == old(sessionLoad)[session]
    {
      hide HeldOk, NodesOk, Tiled, BansCounted, BansHold, LoadsExact, Picked, PinsServe, Topology.Holders, Topology.Covered, Charged;
      var pinned := if session in sessionLoad then sessionLoad[session] else [];
      r := ChooseRoute(pinned);
      if r.Err? {
        return;
      }
      if session !in sessionLoad {
        load := Track(load, sessionLoad, session, r.value);
      } else {
        load := Retrack(load, sessionLoad, session, pinned, r.value);
      }
      sessionLoad := sessionLoad[session := r.value];
    }

    /** Every pinned holder is still READY in its slot. */
    ghost predicate PinsServe(pinned: seq<NodeId>)
      reads topo
    {
      |pinned| == |topo.held| && forall k :: 0 <= k < |pinned| ==> pinned[k] in topo.Holders(k)
    }

    /** One holder per slot, given what the session has pinned. */
    method ChooseRoute(pinned: seq<NodeId>) returns (r: Result<seq<NodeId>, Error>)
      requires topo.Valid() && BansHold()
      ensures r.Ok? <==> topo.Covered()
      ensures r.Err? ==> r.error == CoverageGap
      ensures r.Ok? ==> |r.value| == |topo.held| && Distinct(r.value)
      ensures r.Ok? ==> forall k :: 0 <= k < |r.value| ==>
                && r.value[k] in topo.Holders(k) && topo.Serving(r.value[k]) && r.value[k] !in banned
                && Picked(load, topo.Holders(k), pinned, k, r.value[k])
      ensures r.Ok? && PinsServe(pinned) ==> r.value == pinned
    {
      hide HeldOk, NodesOk, Tiled, BansHold, Picked, Topology.Holders, Distinct;
      var plan := topo.Route();
      if plan.Err? {
        return Err(plan.error);
      }
      var route := PickRoute(load, plan.value, pinned);
      RouteDistinct(route);
      RouteServes(route);
      return Ok(route);
    }

    lemma RouteServes(route: seq<NodeId>)
      requires topo.Valid() && BansHold() && |route| == |topo.held|
      requires forall k :: 0 <= k < |route| ==> route[k] in topo.Holders(k)
      ensures forall k :: 0 <= k < |route| ==> topo.Serving(route[k]) && route[k] !in banned
    {
      forall k | 0 <= k < |route| ensures topo.Serving(route[k]) && route[k] !in banned {
        topo.HoldersAreReady(k);
      }
    }

    /** Least-loaded routing balances: serve new sessions one after the other from zero load, with the
        holders staying as they are, and the loads within every slot add up to the number of sessions and
        differ by at most one. */
    method AcquireAll(sessions: seq<Session>)
      requires Valid() && topo.Covered() && load == map[]
      requires Fresh(sessions, sessionLoad)
      modifies this`load, this`sessionLoad
      ensures Valid()
      ensures forall k :: 0 <= k < |topo.held| ==> SumOver(load, Members(topo.Holders(k))) == |sessions|
      ensures forall k :: 0 <= k < |topo.held| ==> Even(load, topo.Holders(k))
    {
      hide LoadsOk, BansCounted, BansHold, HeldOk, NodesOk, Tiled, Topology.Holders, Topology.Covered, BalancedRun, Fresh, Total, Even, SumOver;
      ghost var plan := HoldersNow();
      ghost var loads, routes := [load], [];
      PlanApart();
      NoRun(HolderSets(plan));
      FreshStart(sessions, sessionLoad);
      for i := 0 to |sessions|
        invariant Valid() && |routes| == i && |loads| == i + 1 && loads[i] == load
        invariant BalancedRun(HolderSets(plan), loads, routes)
        invariant FreshFrom(sessions, i, sessionLoad)
      {
        ghost var was := load;
        FreshNext(sessions, i, sessionLoad);
        ghost var before := sessionLoad;
        var r := AcquireRoute(sessions[i]);
        FreshKept(sessions, i, before, r.value);
        PlanStep(plan, was, r.value);
        LongerRun(HolderSets(plan), loads, routes, load, r.value);
        loads, routes := loads + [load], routes + [r.value];
      }
      forall k | 0 <= k < |topo.held|
        ensures SumOver(load, Members(topo.Holders(k))) == |sessions| && Even(load, topo.Holders(k))
      {
        LoadsBalance(HolderSets(plan), loads, routes, |sessions|, k);
        EvenIs(load, topo.Holders(k));
      }
    }

    ghost function HoldersNow(): (plan: seq<seq<NodeId>>)
      requires topo.Valid()
      reads topo
      ensures |plan| == |topo.held|
      ensures forall k :: 0 <= k < |plan| ==> plan[k] == topo.Holders(k)
    {
      seq(|topo.held|, k requires 0 <= k < |topo.held| reads topo => topo.Holders(k))
    }

    lemma PlanApart()
      requires topo.Valid()
      ensures var hs := HolderSets(HoldersNow()); forall j, k :: 0 <= j < k < |hs| ==> hs[j] !! hs[k]
    {
      var plan := HoldersNow();
      forall j, k, id | 0 <= j < k < |plan| && id in plan[j] && id in plan[k] ensures false {
        topo.HoldersApart(j, k, id);
      }
    }

    lemma PlanStep(plan: seq<seq<NodeId>>, was: map<NodeId, int>, route: seq<NodeId>)
      requires topo.Valid() && plan == HoldersNow() && |route| == |plan| && Charged(was, load, route)
      requires forall k :: 0 <= k < |route| ==> Picked(was, topo.Holders(k), [], k, route[k])
      ensures Step(HolderSets(plan), was, load, route)
    {
      NewSessionIsStep(plan, was, load, route);
    }

    /** Load comes before trust: a fresh pick is trusted if and only if some trusted holder of the slot
        carries no more load than every holder on probation. */
    lemma FreshPickTrustedIff(k: nat, i: nat)
      requires topo.Valid() && k < |topo.held| && LeastLoaded(load, topo.Holders(k), i)
      ensures forall id :: id in topo.Holders(k) ==> id in topo.nodes
      ensures var hs := topo.Holders(k);
              topo.nodes[hs[i]].trust == Trusted <==>
              exists t :: && t in hs && topo.nodes[t].trust == Trusted
                          && forall p :: p in hs && topo.nodes[p].trust != Trusted ==> At(load, t) <= At(load, p)
    {
      topo.HoldersAreReady(k);
      hide Topology.Valid, Topology.Holders, InOrder, Distinct;
      var hs := topo.Holders(k);
      assert hs[i] in hs;
      if topo.nodes[hs[i]].trust == Trusted {
        forall p | p in hs ensures At(load, hs[i]) <= At(load, p) {
          var j :| 0 <= j < |hs| && hs[j] == p;
        }
      } else if t :| && t in hs && topo.nodes[t].trust == Trusted
                     && forall p :: p in hs && topo.nodes[p].trust != Trusted ==> At(load, t) <= At(load, p)
      {
        var j :| 0 <= j < |hs| && hs[j] == t;
        if i < j { topo.TrustedFirst(k, i, j); }
      }
    }

    /** Free a session's load; an unknown session is no matter. */
    method ReleaseRoute(session: Session)
      requires Valid()
      modifies this`load, this`sessionLoad
      ensures Valid() && sessionLoad == old(sessionLoad) - {session}
      ensures session in old(sessionLoad) ==> Charged(load, old(load), old(sessionLoad)[session])
      ensures session !in old(sessionLoad) ==> load == old(load)
    {
      hide HeldOk, NodesOk, Tiled, BansCounted, LoadsExact;
      if session in sessionLoad {
        load := Untrack(load, sessionLoad, session, sessionLoad[session]);
        sessionLoad := sessionLoad - {session};
      }
    }

    // ----- orchestrators -----

    /** The READY orchestrators. */
    ghost function Candidates(): set<NodeId>
      reads topo`nodes
    {
      set id | id in topo.nodes && topo.nodes[id].orchestrator && topo.nodes[id].state == Ready
    }

    method ReadyHeads() returns (cands: set<NodeId>)
      ensures cands == Candidates()
    {
      cands := set id | id in topo.nodes && topo.nodes[id].orchestrator && topo.nodes[id].state == Ready;
    }

    lemma CandidatesNotBanned()
      requires BansHold()
      ensures Candidates() !! banned
    {
    }

    /** The READY orchestrator driving the fewest sessions, after giving up the one this session had;
        none if there is none. */
    method AcquireEntry(session: Session) returns (r: Option<NodeId>)
      requires Valid()
      modifies this`entryLoad, this`sessionEntry
      ensures Valid()
      ensures r.None? <==> Candidates() == {}
      ensures r.None? ==> sessionEntry == old(sessionEntry) - {session}
      ensures r.Some? ==> sessionEntry == old(sessionEntry)[session := r.value]
      ensures r.Some? ==> r.value in Candidates() && r.value !in banned
      ensures r.Some? ==> forall id :: id in Candidates() ==> Preferred(old(sessionEntry) - {session}, r.value, id)
    {
      hide HeldOk, NodesOk, Tiled, BansCounted, BansHold, LoadsExact, Preferred, Candidates, Charged;
      ReleaseEntry(session);
      var cands := ReadyHeads();
      if cands == {} {
        return None;
      }
      CandidatesNotBanned();
      var pick := PickEntry(entryLoad, sessionEntry, cands);
      Seat(session, pick);
      return Some(pick);
    }

    method Seat(session: Session, pick: NodeId)
      requires Valid() && session !in sessionEntry
      modifies this`entryLoad, this`sessionEntry
      ensures Valid() && sessionEntry == old(sessionEntry)[session := pick]
    {
      hide HeldOk, NodesOk, Tiled, BansCounted, BansHold, LoadsExact;
      entryLoad := Track(entryLoad, Entries(sessionEntry), session, [pick]);
      assert Entries(sessionEntry[session := pick]) == Entries(sessionEntry)[session := [pick]];
      sessionEntry := sessionEntry[session := pick];
    }

    method ReleaseEntry(session: Session)
      requires Valid()
      modifies this`entryLoad, this`sessionEntry
      ensures Valid() && sessionEntry == old(sessionEntry) - {session}
    {
      hide HeldOk, NodesOk, Tiled, BansCounted, LoadsExact;
      if session in sessionEntry {
        entryLoad := Untrack(entryLoad, Entries(sessionEntry), session, [sessionEntry[session]]);
        assert Entries(sessionEntry - {session}) == Entries(sessionEntry) - {session};
        sessionEntry := sessionEntry - {session};
      }
    }

    // ----- earnings -----

    function Pool(paidRaw: int): int
    {
      paidRaw - paidRaw * feeBps / 10000
    }

    /** Split what one request paid, less the fee, among the nodes that served it, in proportion to
        layers times tokens.  Nothing is recorded for work of no weight. */
    method RecordWork(route: seq<Work>, paidRaw: int)
      requires Valid()
      modifies this`accrued, this`earned
      ensures Valid() && paid == old(paid)
      ensures AllWork(route) <= 0 ==> accrued == old(accrued) && earned == old(earned)
      ensures AllWork(route) > 0 ==>
                var fee := paidRaw - (earned - old(earned));
                10000 * fee <= paidRaw * feeBps < 10000 * (fee + 1)
      ensures AllWork(route) > 0 ==>
                && (forall id :: (forall w :: w in route ==> w.id != id) ==> At(accrued, id) == At(old(accrued), id))
                && (ServedOnce(route) ==> forall i :: 0 <= i < |route| ==>
                      FairGain(route, i, earned - old(earned), At(accrued, route[i].id) - At(old(accrued), route[i].id)))
      ensures Sum(Weights(route)) > 0 ==>
                forall id :: At(accrued, id) ==
                  At(old(accrued), id) + Credit(route, Shares(earned - old(earned), Weights(route)), id)
    {
      hide HeldOk, NodesOk, Tiled, BansCounted, BansHold, LoadsOk, Total, Shares, Credit, FairGain, AllWork, Weights;
      AllWorkIsSum(route);
      if Sum(Weights(route)) > 0 {
        var pool := Pool(paidRaw);
        FeeIsFloor(paidRaw);
        accrued := Accrue(accrued, route, pool);
        earned := earned + pool;
        forall id | forall w :: w in route ==> w.id != id
          ensures Credit(route, Shares(pool, Weights(route)), id) == 0
        {
          NoCredit(route, Shares(pool, Weights(route)), id);
        }
        if ServedOnce(route) {
          forall i | 0 <= i < |route|
            ensures FairGain(route, i, pool, Credit(route, Shares(pool, Weights(route)), route[i].id))
          {
            SharesAreGains(route, pool, i);
          }
        }
      }
    }

    lemma FeeIsFloor(paidRaw: int)
      ensures var fee := paidRaw - Pool(paidRaw);
              10000 * fee <= paidRaw * feeBps < 10000 * (fee + 1)
    {
    }

    /** Pay out every balance of at least `minPayout` whose node has a wallet, and zero it; all others
        roll over. */
    method Settle(minPayout: int) returns (batch: seq<(string, int)>, ghost ids: seq<NodeId>)
      requires Valid()
      modifies this`accrued, this`paid
      ensures Valid() && earned == old(earned) && paid == old(paid) + Paid(batch)
      ensures Distinct(ids) && forall id :: id in ids <==>
                id in old(accrued) && old(accrued)[id] >= minPayout && id in wallets && wallets[id] != ""
      ensures |batch| == |ids| && forall i :: 0 <= i < |ids| ==>
                ids[i] in wallets && ids[i] in old(accrued) && batch[i] == (wallets[ids[i]], old(accrued)[ids[i]])
      ensures accrued == map id | id in old(accrued) :: if id in ids then 0 else old(accrued)[id]
    {
      hide HeldOk, NodesOk, Tiled, BansCounted, BansHold, LoadsOk, Total, Paid;
      accrued, batch, ids := PayOut(accrued, wallets, minPayout);
      paid := paid + Paid(batch);
    }
  }

  // ----- splitting and paying out, on balances -----

  /** Add every server's share to its balance; the last gets what the floors left over. */
  method Accrue(accrued: map<NodeId, int>, route: seq<Work>, pool: int) returns (out: map<NodeId, int>)
    requires Sum(Weights(route)) > 0
    ensures Total(out) == Total(accrued) + pool
    ensures forall id :: At(out, id) == At(accrued, id) + Credit(route, Shares(pool, Weights(route)), id)
  {
    hide Total, Shares, Credit, FloorShare, FloorShares;
    var weights := Weights(route);
    var total := Sum(weights);
    SharesParts(pool, weights);
    ghost var shares := Shares(pool, weights);
    var handed := 0;
    out := accrued;
    assert route[..0] == [] && shares[..0] == [];
    CreditNone();
    for i := 0 to |route|
      invariant handed == Sum(shares[..i])
      invariant Total(out) == Total(accrued) + handed
      invariant forall id :: At(out, id) == At(accrued, id) + Credit(route[..i], shares[..i], id)
    {
      var share := if i < |weights| - 1 then FloorShare(pool, weights[i], total) else pool - handed;
      LastShare(pool, weights, i);
      assert share == shares[i];
      TotalUpdate(out, route[i].id, At(out, route[i].id) + share);
      CreditNext(route, shares, i);
      out := out[route[i].id := At(out, route[i].id) + share];
      handed := handed + share;
      assert shares[..i + 1][..i] == shares[..i];
    }
    assert route[..|route|] == route && shares[..|route|] == shares;
  }

  predicate Eligible(balances: map<NodeId, int>, wallets: map<NodeId, string>, minPayout: int, id: NodeId)
  {
    id in balances && balances[id] >= minPayout && id in wallets && wallets[id] != ""
  }

  method PayOut(accrued: map<NodeId, int>, wallets: map<NodeId, string>, minPayout: int)
    returns (out: map<NodeId, int>, batch: seq<(string, int)>, ghost ids: seq<NodeId>)
    ensures Total(out) + Paid(batch) == Total(accrued)
    ensures Distinct(ids) && forall id :: id in ids <==> Eligible(accrued, wallets, minPayout, id)
    ensures |batch| == |ids| && forall i :: 0 <= i < |ids| ==>
              ids[i] in wallets && ids[i] in accrued && batch[i] == (wallets[ids[i]], accrued[ids[i]])
    ensures out == map id | id in accrued ::
                     if Eligible(accrued, wallets, minPayout, id) then 0 else accrued[id]
  {
    hide Total, Paid, Eligible, Distinct, PaidBut;
    batch, ids, out := [], [], accrued;
    PaidNone();
    NoneDistinct();
    var left := accrued.Keys;
    NobodyPaid(accrued, wallets, minPayout);
    while left != {}
      invariant left <= accrued.Keys && Total(out) + Paid(batch) == Total(accrued)
      invariant PaidBut(accrued, wallets, minPayout, left, out, batch, ids)
      decreases |left|
    {
      var id :| id in left;
      StillOwed(accrued, wallets, minPayout, left, out, batch, ids, id);
      if Eligible(out, wallets, minPayout, id) {
        TotalUpdate(out, id, 0);
        PaidNext(batch, (wallets[id], out[id]));
        OnePaid(accrued, wallets, minPayout, left, out, batch, ids, id);
        batch := batch + [(wallets[id], out[id])];
        ids := ids + [id];
        out := out[id := 0];
      }
      left := left - {id};
    }
    EverybodyPaid(accrued, wallets, minPayout, out, batch, ids);
  }

  /** All eligible balances but those of `left` have been paid. */
  ghost predicate PaidBut(accrued: map<NodeId, int>, wallets: map<NodeId, string>, minPayout: int, left: set<NodeId>,
                          out: map<NodeId, int>, batch: seq<(string, int)>, ids: seq<NodeId>)
  {
    && Distinct(ids)
    && (forall id :: id in ids <==> id in accrued && id !in left && Eligible(accrued, wallets, minPayout, id))
    && |batch| == |ids|
    && (forall i :: 0 <= i < |ids| ==>
          ids[i] in wallets && ids[i] in accrued && batch[i] == (wallets[ids[i]], accrued[ids[i]]))
    && out.Keys == accrued.Keys && forall id :: id in out ==> out[id] == if id in ids then 0 else accrued[id]
  }

  lemma NobodyPaid(accrued: map<NodeId, int>, wallets: map<NodeId, string>, minPayout: int)
    ensures PaidBut(accrued, wallets, minPayout, accrued.Keys, accrued, [], [])
  {
  }

  lemma StillOwed(accrued: map<NodeId, int>, wallets: map<NodeId, string>, minPayout: int, left: set<NodeId>,
                  out: map<NodeId, int>, batch: seq<(string, int)>, ids: seq<NodeId>, id: NodeId)
    requires PaidBut(accrued, wallets, minPayout, left, out, batch, ids) && id in left && left <= accrued.Keys
    ensures id in out && out[id] == accrued[id] && (Eligible(out, wallets, minPayout, id) ==> id in wallets)
    ensures !Eligible(out, wallets, minPayout, id) ==>
              PaidBut(accrued, wallets, minPayout, left - {id}, out, batch, ids)
  {
    hide Eligible, Distinct;
    EligibleAgree(out, accrued, wallets, minPayout, id);
  }

  lemma OnePaid(accrued: map<NodeId, int>, wallets: map<NodeId, string>, minPayout: int, left: set<NodeId>,
                out: map<NodeId, int>, batch: seq<(string, int)>, ids: seq<NodeId>, id: NodeId)
    requires PaidBut(accrued, wallets, minPayout, left, out, batch, ids) && id in left && left <= accrued.Keys
    requires id in out && id in wallets && Eligible(out, wallets, minPayout, id)
    ensures PaidBut(accrued, wallets, minPayout, left - {id}, out[id := 0], batch + [(wallets[id], out[id])], ids + [id])
  {
    hide Eligible, Distinct;
    EligibleAgree(out, accrued, wallets, minPayout, id);
    DistinctLonger(ids, id);
  }

  lemma EverybodyPaid(accrued: map<NodeId, int>, wallets: map<NodeId, string>, minPayout: int,
                      out: map<NodeId, int>, batch: seq<(string, int)>, ids: seq<NodeId>)
    requires PaidBut(accrued, wallets, minPayout, {}, out, batch, ids)
    ensures Distinct(ids) && forall id :: id in ids <==> Eligible(accrued, wallets, minPayout, id)
    ensures |batch| == |ids| && forall i :: 0 <= i < |ids| ==>
              ids[i] in wallets && ids[i] in accrued && batch[i] == (wallets[ids[i]], accrued[ids[i]])
    ensures out == map id | id in accrued ::
                     if Eligible(accrued, wallets, minPayout, id) then 0 else accrued[id]
  {
    hide Eligible, Distinct;
    forall id | Eligible(accrued, wallets, minPayout, id) ensures id in accrued {
      EligibleKnown(accrued, wallets, minPayout, id);
    }
  }

  lemma EligibleKnown(m: map<NodeId, int>, wallets: map<NodeId, string>, minPayout: int, id: NodeId)
    requires Eligible(m, wallets, minPayout, id)
    ensures id in m
  {
  }

  lemma EligibleAgree(m: map<NodeId, int>, n: map<NodeId, int>, wallets: map<NodeId, string>, minPayout: int, id: NodeId)
    requires id in m && id in n && m[id] == n[id]
    ensures Eligible(m, wallets, minPayout, id) <==> Eligible(n, wallets, minPayout, id)
    ensures Eligible(m, wallets, minPayout, id) ==> id in wallets
  {
  }

  lemma NoneDistinct()
    ensures Distinct<NodeId>([])
  {
  }

  lemma DistinctLonger(ids: seq<NodeId>, id: NodeId)
    requires Distinct(ids) && id !in ids
    ensures Distinct(ids + [id])
  {
  }

  lemma PaidNone()
    ensures Paid([]) == 0
  {
  }

  lemma CreditNone()
    ensures forall id :: Credit([], [], id) == 0
  {
  }

  lemma CreditNext(route: seq<Work>, shares: seq<int>, i: nat)
    requires |route| == |shares| && i < |route|
    ensures forall id :: Credit(route[..i + 1], shares[..i + 1], id)
                         == Credit(route[..i], shares[..i], id) + (if route[i].id == id then shares[i] else 0)
  {
    assert route[..i + 1][..i] == route[..i] && shares[..i + 1][..i] == shares[..i];
  }

  lemma LastShare(pool: int, ws: seq<int>, i: nat)
    requires Sum(ws) > 0 && i < |ws|
    ensures Shares(pool, ws)[i] ==
            if i < |ws| - 1 then FloorShare(pool, ws[i], Sum(ws)) else pool - Sum(Shares(pool, ws)[..i])
  {
    var n := |ws| - 1;
    assert Shares(pool, ws)[..n] == FloorShares(pool, ws, Sum(ws))[..n];
  }

  lemma PaidNext(batch: seq<(string, int)>, p: (string, int))
    ensures Paid(batch + [p]) == Paid(batch) + p.1
  {
    assert (batch + [p])[..|batch|] == batch;
  }

  // ----- the order of ids -----

  predicate NotAfter(a: string, b: string)
  {
    a == "" || (b != "" && (a[0] < b[0] || (a[0] == b[0] && NotAfter(a[1..], b[1..]))))
  }

  /** Code-point order: equal up to where one ends, or differs from the other in a lower code point. */
  lemma {:induction false} NotAfterIs(a: string, b: string)
    ensures NotAfter(a, b) <==>
              var n := PrefixLen(a, b);
              n == |a| || (n < |b| && a[n] < b[n])
  {
    if a != "" && b != "" && a[0] == b[0] { NotAfterIs(a[1..], b[1..]); }
  }

  /** The length of the longest common prefix. */
  ghost function PrefixLen(a: string, b: string): (n: nat)
    ensures n <= |a| && n <= |b| && a[..n] == b[..n] && (n < |a| && n < |b| ==> a[n] != b[n])
  {
    if a == "" || b == "" || a[0] != b[0] then 0 else
      var n := 1 + PrefixLen(a[1..], b[1..]);
      assert a[..n] == [a[0]] + a[1..][..n - 1] && b[..n] == [b[0]] + b[1..][..n - 1];
      n
  }

  lemma {:induction false} NotAfterTotal(a: string, b: string)
    ensures NotAfter(a, b) || NotAfter(b, a)
  {
    if a != "" && b != "" && a[0] == b[0] { NotAfterTotal(a[1..], b[1..]); }
  }

  lemma {:induction false} NotAfterTransitive(a: string, b: string, c: string)
    requires NotAfter(a, b) && NotAfter(b, c)
    ensures NotAfter(a, c)
  {
    if a != "" && a[0] == b[0] == c[0] { NotAfterTransitive(a[1..], b[1..], c[1..]); }
  }

  ghost function Pinned(routes: map<Session, seq<NodeId>>, session: Session): seq<NodeId>
  {
    if session in routes then routes[session] else []
  }

  // ----- balance -----

  /** Of the holders of a slot, none has less load. */
  ghost predicate Least(load: map<NodeId, int>, hs: set<NodeId>, id: NodeId)
  {
    id in hs && forall h :: h in hs ==> At(load, id) <= At(load, h)
  }

  /** A run of new sessions over fixed holders: session `i` takes a least loaded holder of every slot. */
  ghost predicate BalancedRun(hs: seq<set<NodeId>>, loads: seq<map<NodeId, int>>, routes: seq<seq<NodeId>>)
  {
    && |loads| == |routes| + 1 && loads[0] == map[]
    && (forall j, k :: 0 <= j < k < |hs| ==> hs[j] !! hs[k])
    && forall i :: 0 <= i < |routes| ==> |routes[i]| == |hs| && Step(hs, loads[i], loads[i + 1], routes[i])
  }

  ghost predicate Step(hs: seq<set<NodeId>>, was: map<NodeId, int>, load: map<NodeId, int>, route: seq<NodeId>)
    requires |route| == |hs|
  {
    Charged(was, load, route) && forall k :: 0 <= k < |hs| ==> Least(was, hs[k], route[k])
  }

  /** Least-loaded routing balances: after `n` sessions the loads within a slot add up to `n` and
      differ by at most one. */
  lemma {:induction false} LoadsBalance(hs: seq<set<NodeId>>, loads: seq<map<NodeId, int>>,
                                        routes: seq<seq<NodeId>>, n: nat, k: nat)
    requires BalancedRun(hs, loads, routes) && n <= |routes| && k < |hs|
    ensures SumOver(loads[n], hs[k]) == n
    ensures forall a, b :: a in hs[k] && b in hs[k] ==> At(loads[n], a) <= At(loads[n], b) + 1
    decreases n
  {
    if n == 0 {
      SumOfNothing(hs[k]);
    } else {
      LoadsBalance(hs, loads, routes, n - 1, k);
      var route := routes[n - 1];
      assert Step(hs, loads[n - 1], loads[n], route);
      var id := route[k];
      assert Least(loads[n - 1], hs[k], id);
      forall h | h in hs[k] ensures h in route <==> h == id {
        if h in route {
          var j :| 0 <= j < |route| && route[j] == h;
          assert Least(loads[n - 1], hs[j], route[j]);
        }
      }
      SumOverTake(loads[n], hs[k], id);
      SumOverTake(loads[n - 1], hs[k], id);
      SumOverAgree(loads[n], loads[n - 1], hs[k] - {id});
    }
  }

  function Members(hs: seq<NodeId>): set<NodeId>
  {
    set id | id in hs
  }

  function HolderSets(hs: seq<seq<NodeId>>): (sets: seq<set<NodeId>>)
    ensures |sets| == |hs|
  {
    seq(|hs|, k requires 0 <= k < |hs| => Members(hs[k]))
  }

  /** No holder of the list carries more than one session above another. */
  predicate Even(load: map<NodeId, int>, hs: seq<NodeId>)
  {
    forall a, b :: a in hs && b in hs ==> At(load, a) <= At(load, b) + 1
  }

  lemma EvenIs(load: map<NodeId, int>, hs: seq<NodeId>)
    requires forall a, b :: a in Members(hs) && b in Members(hs) ==> At(load, a) <= At(load, b) + 1
    ensures Even(load, hs)
  {
    forall a, b | a in hs && b in hs ensures At(load, a) <= At(load, b) + 1 {
      assert a in Members(hs) && b in Members(hs);
    }
  }

  /** Different sessions, none of them tracked. */
  ghost predicate Fresh(sessions: seq<Session>, routes: map<Session, seq<NodeId>>)
  {
    Distinct(sessions) && FreshFrom(sessions, 0, routes)
  }

  ghost predicate FreshFrom(sessions: seq<Session>, i: nat, routes: map<Session, seq<NodeId>>)
  {
    Distinct(sessions) && forall j :: i <= j < |sessions| ==> sessions[j] !in routes
  }

  lemma FreshStart(sessions: seq<Session>, routes: map<Session, seq<NodeId>>)
    requires Fresh(sessions, routes)
    ensures FreshFrom(sessions, 0, routes)
  {
  }

  lemma FreshNext(sessions: seq<Session>, i: nat, routes: map<Session, seq<NodeId>>)
    requires FreshFrom(sessions, i, routes) && i < |sessions|
    ensures sessions[i] !in routes
  {
  }

  lemma FreshKept(sessions: seq<Session>, i: nat, routes: map<Session, seq<NodeId>>, route: seq<NodeId>)
    requires FreshFrom(sessions, i, routes) && i < |sessions|
    ensures FreshFrom(sessions, i + 1, routes[sessions[i] := route])
  {
  }

  lemma NoRun(hs: seq<set<NodeId>>)
    requires forall j, k :: 0 <= j < k < |hs| ==> hs[j] !! hs[k]
    ensures BalancedRun(hs, [map[]], [])
  {
  }

  lemma LongerRun(hs: seq<set<NodeId>>, loads: seq<map<NodeId, int>>, routes: seq<seq<NodeId>>,
                  load: map<NodeId, int>, route: seq<NodeId>)
    requires BalancedRun(hs, loads, routes) && |route| == |hs| && Step(hs, loads[|routes|], load, route)
    ensures BalancedRun(hs, loads + [load], routes + [route])
  {
    var ls, rs := loads + [load], routes + [route];
    forall i | 0 <= i < |rs| ensures |rs[i]| == |hs| && Step(hs, ls[i], ls[i + 1], rs[i]) {
      if i < |routes| { assert Step(hs, loads[i], loads[i + 1], routes[i]); }
    }
  }

  /** A new session's route is such a step: what acquiring one promises is what the balance needs. */
  lemma NewSessionIsStep(hs: seq<seq<NodeId>>, was: map<NodeId, int>, load: map<NodeId, int>, route: seq<NodeId>)
    requires |route| == |hs| && Charged(was, load, route)
    requires forall k :: 0 <= k < |hs| ==> Picked(was, hs[k], [], k, route[k])
    ensures Step(HolderSets(hs), was, load, route)
  {
    hide Charged;
    forall k | 0 <= k < |hs| ensures Least(was, Members(hs[k]), route[k]) {
      var i: nat :| LeastLoaded(was, hs[k], i) && route[k] == hs[k][i];
      forall h | h in hs[k] ensures At(was, route[k]) <= At(was, h) {
        var j :| 0 <= j < |hs[k]| && hs[k][j] == h;
      }
    }
  }

  lemma {:induction false} SumOfNothing(ids: set<NodeId>)
    ensures SumOver(map[], ids) == 0
    decreases |ids|
  {
    if ids != {} {
      var id :| id in ids;
      SumOverTake(map[], ids, id);
      SumOfNothing(ids - {id});
    }
  }

  lemma PlacedLast(was: seq<seq<NodeId>>, held: seq<seq<NodeId>>, ids: seq<NodeId>, id: NodeId)
    requires was == [ids] && Placed(was, held, id, Some(0)) && id !in ids
    ensures held == [ids + [id]]
  {
    MinusNothing(ids, {id});
  }

  /** A registry of one slot with one layer, whose only seed node is `a`. */
  method OneSlot() returns (reg: Registry)
    ensures fresh(reg) && fresh(reg.topo) && reg.Valid() && reg.sessionLoad == map[] && reg.load == map[]
    ensures reg.topo.held == [[]] && |reg.topo.ranges| == 1 && reg.topo.Size(0) == 1
    ensures reg.topo.nodes == map[] && reg.topo.modelFp == "m"
    ensures reg.allowlist == None && reg.banned == {} && reg.seedNodes == {"a"}
  {
    hide NodesOk, Tiled;
    var one := Topology.Create(1, 0, 1, "m", 1, 30.0, "", false, None);
    assert BalancedSizes(1, 1) == [1] && one.value.Size(0) == 1;
    NobodyHeld(one.value.held, one.value.nodes, 0);
    reg := new Registry(one.value, None, {"a"}, 0, 3);
  }

  /** A new node registers for the only slot and becomes READY. */
  method Join(reg: Registry, id: NodeId, ghost ids: seq<NodeId>)
    requires reg.Valid() && reg.allowlist == None && reg.banned == {} && reg.topo.modelFp == "m"
    requires |reg.topo.ranges| == 1 && reg.topo.Size(0) == 1 && reg.topo.held == [ids] && id !in ids
    modifies reg`wallets, reg`orchSeq, reg.topo
    ensures reg.Valid() && reg.topo.held == [ids + [id]] && reg.topo.nodes.Keys == old(reg.topo.nodes).Keys + {id}
    ensures reg.topo.Serving(id)
    ensures reg.topo.nodes[id].trust == if id in reg.seedNodes then Trusted else Probation
    ensures forall x :: x in old(reg.topo.nodes) && x != id ==> reg.topo.nodes[x] == old(reg.topo.nodes)[x]
  {
    hide HeldOk, Tiled, Registry.BansCounted, Registry.BansHold, Registry.LoadsOk, Topology.Holders, Stripped, Minus, Placed;
    ghost var was := reg.topo.held;
    var node := Node(id, 9, "m", "", "", false, None, Joining, 0.0, Probation, 0, 0);
    assert reg.topo.Fits(node, 0);
    var slot := reg.Register(node, 0.0, None);
    PlacedLast(was, reg.topo.held, ids, id);
    reg.MarkReady(id);
  }

  /** A trusted node `a` and a node `b` on probation, both READY, on the only slot. */
  method SeedAndNewcomer() returns (reg: Registry)
    ensures fresh(reg) && fresh(reg.topo) && reg.Valid() && reg.sessionLoad == map[] && reg.load == map[]
    ensures reg.topo.Serving("a") && reg.topo.nodes["a"].trust == Trusted
    ensures reg.topo.Serving("b") && reg.topo.nodes["b"].trust == Probation
    ensures reg.topo.held == [["a", "b"]]
  {
    hide HeldOk, NodesOk, Tiled, Registry.BansCounted, Registry.BansHold, Registry.LoadsOk;
    reg := OneSlot();
    Join(reg, "a", []);
    assert [] + ["a"] == ["a"];
    Join(reg, "b", ["a"]);
    assert ["a"] + ["b"] == ["a", "b"];
  }

  /** The first session goes to the trusted node. */
  method SeedServesFirst() returns (reg: Registry)
    ensures fresh(reg) && fresh(reg.topo) && reg.Valid() && reg.topo.Serving("a") && reg.topo.Serving("b")
    ensures reg.topo.nodes["a"].trust == Trusted && reg.topo.nodes["b"].trust == Probation
    ensures reg.sessionLoad == map[0 := ["a"]] && Charged(map[], reg.load, ["a"])
    ensures |reg.topo.held| == 1 && forall id :: id in reg.topo.Holders(0) <==> id == "a" || id == "b"
  {
    hide HeldOk, NodesOk, Tiled, Registry.BansCounted, Registry.BansHold, Registry.LoadsOk, Topology.Holders, InOrder,
      Picked, Charged, Distinct, Registry.PinsServe;
    reg := SeedAndNewcomer();
    reg.topo.HoldersAreReady(0);
    ghost var hs := reg.topo.Holders(0);
    assert "a" in hs && "b" in hs;
    assert hs[0] == "a" by { assert hs[0] in hs; }
    var first := reg.AcquireRoute(0);
    FirstPick(hs, first.value[0]);
    assert first.value == ["a"];
  }

  /** Trust does not outrank load: the second session passes the trusted holder over although it is READY. */
  method TrustedPassedOver() returns (reg: Registry)
    ensures reg.Valid() && reg.topo.Serving("a") && reg.topo.Serving("b")
    ensures reg.topo.nodes["a"].trust == Trusted && reg.topo.nodes["b"].trust == Probation
    ensures |reg.topo.held| == 1 && "a" in reg.topo.Holders(0) && "b" in reg.topo.Holders(0)
    ensures reg.sessionLoad == map[0 := ["a"], 1 := ["b"]]
  {
    hide HeldOk, NodesOk, Tiled, Registry.BansCounted, Registry.BansHold, Registry.LoadsOk, Topology.Holders, InOrder,
      Picked, Charged, Distinct, Registry.PinsServe;
    reg := SeedServesFirst();
    ghost var hs, load := reg.topo.Holders(0), reg.load;
    assert "a" in hs && "b" in hs;
    var second := reg.AcquireRoute(1);
    SecondPick(load, hs, second.value[0]);
    assert second.value == ["b"];
  }

  /** With no load, the first holder is taken. */
  lemma FirstPick(hs: seq<NodeId>, id: NodeId)
    requires hs != [] && Picked(map[], hs, [], 0, id)
    ensures id == hs[0]
  {
    var i: nat :| LeastLoaded(map[], hs, i) && id == hs[i];
    assert At(map[], hs[0]) == At(map[], hs[i]);
  }

  lemma SecondPick(load: map<NodeId, int>, hs: seq<NodeId>, id: NodeId)
    requires Charged(map[], load, ["a"]) && Picked(load, hs, [], 0, id)
    requires "b" in hs && forall x :: x in hs ==> x == "a" || x == "b"
    ensures id == "b"
  {
    assert At(load, "a") == 1 && At(load, "b") == 0;
    var i: nat :| LeastLoaded(load, hs, i) && id == hs[i];
    var j :| 0 <= j < |hs| && hs[j] == "b";
    assert At(load, hs[i]) <= At(load, hs[j]);
    assert hs[i] in hs;
  }
}
