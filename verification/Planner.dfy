/** How many stages a fleet can staff, and how many layers each stage gets. */
module Planner {
  import opened Wrappers
  import opened Sorting

  // ----- balanced slots -----

  /** The balanced split of `budget` layers into `k` slots, the larger slots first. */
  function BalancedSizes(budget: nat, k: nat): (sizes: seq<nat>)
    requires k > 0
    ensures |sizes| == k
  {
    seq(k, i => budget / k + (if i < budget % k then 1 else 0))
  }

  function Sum(xs: seq<int>): int
  {
    if xs == [] then 0 else Sum(xs[..|xs| - 1]) + xs[|xs| - 1]
  }

  /** The balanced slots use up the budget, and differ by at most one layer, the larger ones first. */
  lemma BalancedSum(budget: nat, k: nat)
    requires k > 0
    ensures Sum(BalancedSizes(budget, k)) == budget
    ensures var sizes := BalancedSizes(budget, k);
            forall i, j :: 0 <= i <= j < k ==> sizes[j] <= sizes[i] <= sizes[j] + 1
  {
    var sizes := BalancedSizes(budget, k);
    LargerFirst(sizes, budget / k, budget % k, k);
    assert sizes[..k] == sizes;
  }

  lemma {:induction false} LargerFirst(sizes: seq<nat>, q: nat, r: nat, i: nat)
    requires i <= |sizes| && forall j :: 0 <= j < |sizes| ==> sizes[j] == q + (if j < r then 1 else 0)
    ensures Sum(sizes[..i]) == i * q + (if i < r then i else r)
    decreases i
  {
    if i > 0 {
      LargerFirst(sizes, q, r, i - 1);
      assert sizes[..i][..i - 1] == sizes[..i - 1];
      assert i * q == (i - 1) * q + q;
    }
  }

  /** `replication` copies of every slot: one demand per holder wanted. */
  function Demands(sizes: seq<nat>, replication: nat): (ds: seq<nat>)
    ensures |ds| == |sizes| * replication
  {
    if replication == 0 then [] else sizes + Demands(sizes, replication - 1)
  }

  // ----- staffing -----

  /** Demand `i` is met by node `assign[i]`; no node meets two demands. */
  ghost predicate Staffs(assign: seq<nat>, demands: seq<nat>, caps: seq<int>)
  {
    && |assign| == |demands| && Distinct(assign)
    && forall i :: 0 <= i < |demands| ==> assign[i] < |caps| && demands[i] <= caps[assign[i]]
  }

  ghost predicate Staffable(demands: seq<nat>, caps: seq<int>)
  {
    exists assign :: Staffs(assign, demands, caps)
  }

  /** Copy `c` of slot `i` is on node `staff[i][c]`, which can hold it; every copy is on a node of its own. */
  ghost predicate Staffed(staff: seq<seq<nat>>, sizes: seq<nat>, replication: nat, caps: seq<int>)
  {
    && |staff| == |sizes| && (forall i :: 0 <= i < |staff| ==> |staff[i]| == replication)
    && (forall i, c :: 0 <= i < |staff| && 0 <= c < replication ==>
          staff[i][c] < |caps| && sizes[i] <= caps[staff[i][c]])
    && forall i, c, j, d ::
         0 <= i < |staff| && 0 <= j < |staff| && 0 <= c < replication && 0 <= d < replication && (i != j || c != d) ==>
           staff[i][c] != staff[j][d]
  }

  /** The fleet can hold the model in `k` balanced stages, each slot on `replication` distinct nodes. */
  ghost predicate Feasible(budget: nat, caps: seq<int>, replication: nat, k: nat)
    requires k > 0
  {
    exists staff :: Staffed(staff, BalancedSizes(budget, k), replication, caps)
  }

  /** Where copy `c` of slot `i` stands in a list of the copies, slot by slot within each. */
  function IndexOfCopy(c: nat, i: nat, n: nat): nat { c * n + i }

  function CopyAt(j: nat, n: nat): nat
    requires n > 0
  {
    j / n
  }

  function SlotAt(j: nat, n: nat): nat
    requires n > 0
  {
    j % n
  }

  lemma CopyOfIndex(j: nat, n: nat, r: nat)
    requires n > 0 && j < n * r
    ensures SlotAt(j, n) < n && CopyAt(j, n) < r && j == IndexOfCopy(CopyAt(j, n), SlotAt(j, n), n)
  {
    assert j == n * (j / n) + j % n;
    if j / n >= r { assert n * (j / n - r) >= 0; }
  }

  lemma IndexInRange(c: nat, i: nat, n: nat, r: nat)
    requires i < n && c < r
    ensures IndexOfCopy(c, i, n) < n * r
  {
    assert n * r == n * (r - 1 - c) + n * (c + 1);
    assert n * (r - 1 - c) >= 0;
  }

  lemma CopiesApart(c: nat, i: nat, d: nat, j: nat, n: nat)
    requires i < n && j < n && (i != j || c != d)
    ensures IndexOfCopy(c, i, n) != IndexOfCopy(d, j, n)
  {
    if c < d { LaterCopy(c, i, d, n); }
    if d < c { LaterCopy(d, j, c, n); }
  }

  lemma LaterCopy(c: nat, i: nat, d: nat, n: nat)
    requires i < n && c < d
    ensures IndexOfCopy(c, i, n) < IndexOfCopy(d, 0, n)
  {
    IndexInRange(c, i, n, d);
  }

  /** The demand of copy `c` of slot `i`. */
  lemma {:induction false} DemandAt(sizes: seq<nat>, replication: nat, c: nat, i: nat)
    requires c < replication && i < |sizes|
    ensures IndexOfCopy(c, i, |sizes|) < |sizes| * replication
    ensures Demands(sizes, replication)[IndexOfCopy(c, i, |sizes|)] == sizes[i]
    decreases replication
  {
    IndexInRange(c, i, |sizes|, replication);
    if c > 0 {
      DemandAt(sizes, replication - 1, c - 1, i);
      assert c * |sizes| == |sizes| + (c - 1) * |sizes|;
    }
  }

  /** Staffing the list of demands is staffing every copy of every slot. */
  lemma FeasibleIsStaffable(sizes: seq<nat>, replication: nat, caps: seq<int>)
    requires sizes != []
    ensures (exists staff :: Staffed(staff, sizes, replication, caps)) <==> Staffable(Demands(sizes, replication), caps)
  {
    hide Demands;
    if staff :| Staffed(staff, sizes, replication, caps) {
      StaffedGivesStaffs(staff, sizes, replication, caps);
    }
    if Staffable(Demands(sizes, replication), caps) {
      var assign :| Staffs(assign, Demands(sizes, replication), caps);
      StaffsGivesStaffed(assign, sizes, replication, caps);
    }
  }

  lemma StaffedGivesStaffs(staff: seq<seq<nat>>, sizes: seq<nat>, replication: nat, caps: seq<int>)
    requires sizes != [] && Staffed(staff, sizes, replication, caps)
    ensures Staffable(Demands(sizes, replication), caps)
  {
    hide Demands, IndexOfCopy, CopyAt, SlotAt;
    var n, ds := |sizes|, Demands(sizes, replication);
    forall j | 0 <= j < |ds|
      ensures SlotAt(j, n) < n && CopyAt(j, n) < replication && j == IndexOfCopy(CopyAt(j, n), SlotAt(j, n), n)
    {
      CopyOfIndex(j, n, replication);
    }
    var assign := seq(|ds|, j requires 0 <= j < |ds| => staff[SlotAt(j, n)][CopyAt(j, n)]);
    forall j | 0 <= j < |assign| ensures assign[j] < |caps| && ds[j] <= caps[assign[j]] {
      DemandAt(sizes, replication, CopyAt(j, n), SlotAt(j, n));
    }
    forall a, b | 0 <= a < b < |assign| ensures assign[a] != assign[b] {
      assert SlotAt(a, n) != SlotAt(b, n) || CopyAt(a, n) != CopyAt(b, n);
    }
    assert Staffs(assign, ds, caps);
  }

  lemma StaffsGivesStaffed(assign: seq<nat>, sizes: seq<nat>, replication: nat, caps: seq<int>)
    requires sizes != [] && Staffs(assign, Demands(sizes, replication), caps)
    ensures exists staff :: Staffed(staff, sizes, replication, caps)
  {
    hide Demands, IndexOfCopy;
    var n := |sizes|;
    forall i, c | 0 <= i < n && 0 <= c < replication
      ensures IndexOfCopy(c, i, n) < |assign| && Demands(sizes, replication)[IndexOfCopy(c, i, n)] == sizes[i]
    {
      DemandAt(sizes, replication, c, i);
    }
    var staff := seq(n, i requires 0 <= i < n =>
      seq(replication, c requires 0 <= c < replication => assign[IndexOfCopy(c, i, n)]));
    forall i, c, j, d | 0 <= i < n && 0 <= j < n && 0 <= c < replication && 0 <= d < replication && (i != j || c != d)
      ensures staff[i][c] != staff[j][d]
    {
      CopiesApart(c, i, d, j, n);
      var a, b := IndexOfCopy(c, i, n), IndexOfCopy(d, j, n);
      assert a < b || b < a;
    }
    assert Staffed(staff, sizes, replication, caps);
  }

  /** `k` is the least number of stages the fleet can staff. */
  ghost predicate LeastStages(budget: nat, caps: seq<int>, replication: nat, k: nat)
  {
    && k >= 1 && Feasible(budget, caps, replication, k)
    && forall j :: 1 <= j < k ==> !Feasible(budget, caps, replication, j)
  }

  function Negated(xs: seq<int>): (keys: seq<real>)
    ensures |keys| == |xs|
  {
    seq(|xs|, i requires 0 <= i < |xs| => -(xs[i] as real))
  }

  /** `order` lists the indices of `xs` by descending value. */
  ghost predicate Descending(xs: seq<int>, order: seq<nat>)
  {
    && Permutation(order, |xs|)
    && forall p, q :: 0 <= p <= q < |order| ==> xs[order[p]] >= xs[order[q]]
  }

  method SortDescending(xs: seq<int>) returns (order: seq<nat>)
    ensures Descending(xs, order)
  {
    order := Sort(Negated(xs));
    forall p, q | 0 <= p <= q < |order| ensures xs[order[p]] >= xs[order[q]] {
      if p < q { assert Before(Negated(xs), order[p], order[q]); }
    }
  }

  /** Largest to largest: the sorted pairwise test. */
  ghost predicate FitsInOrder(ds: seq<int>, dord: seq<nat>, cs: seq<int>, cord: seq<nat>)
    requires Permutation(dord, |ds|) && Permutation(cord, |cs|)
  {
    |ds| <= |cs| && forall i :: 0 <= i < |ds| ==> ds[dord[i]] <= cs[cord[i]]
  }

  /** The pairwise test on sorted lists is exact: it passes if and only if some injective assignment
      of demands to nodes exists. */
  lemma PairwiseIsMatching(ds: seq<nat>, dord: seq<nat>, cs: seq<int>, cord: seq<nat>)
    requires Descending(ds, dord) && Descending(cs, cord)
    ensures FitsInOrder(ds, dord, cs, cord) <==> Staffable(ds, cs)
  {
    if FitsInOrder(ds, dord, cs, cord) {
      PairwiseGivesMatching(ds, dord, cs, cord);
    }
    if Staffable(ds, cs) {
      var assign :| Staffs(assign, ds, cs);
      MatchingGivesPairwise(ds, dord, cs, cord, assign);
    }
  }

  lemma PairwiseGivesMatching(ds: seq<nat>, dord: seq<nat>, cs: seq<int>, cord: seq<nat>)
    requires Descending(ds, dord) && Descending(cs, cord) && FitsInOrder(ds, dord, cs, cord)
    ensures Staffable(ds, cs)
  {
    var ranks := Inverse(dord, |ds|);
    var assign := seq(|ds|, j requires 0 <= j < |ds| => cord[ranks[j]]);
    forall i, j | 0 <= i < j < |assign| ensures assign[i] != assign[j] {
      assert ranks[i] != ranks[j] by { assert dord[ranks[i]] == i && dord[ranks[j]] == j; }
      if ranks[i] < ranks[j] {
        assert cord[ranks[i]] != cord[ranks[j]];
      } else {
        assert cord[ranks[j]] != cord[ranks[i]];
      }
    }
    assert Staffs(assign, ds, cs);
  }

  /** Where each index stands in a permutation. */
  lemma Inverse(order: seq<nat>, n: nat) returns (ranks: seq<nat>)
    requires Permutation(order, n)
    ensures |ranks| == n && forall j :: 0 <= j < n ==> ranks[j] < n && order[ranks[j]] == j
  {
    ranks := [];
    for j := 0 to n
      invariant |ranks| == j && forall i :: 0 <= i < j ==> ranks[i] < n && order[ranks[i]] == i
    {
      var r := IndexOf(order, n, j);
      ranks := ranks + [r];
    }
  }

  /** The exchange argument as a count: if the i-th largest demand did not fit the i-th largest node,
      the i+1 nodes serving the i+1 largest demands would all be among the i larger nodes. */
  lemma MatchingGivesPairwise(ds: seq<nat>, dord: seq<nat>, cs: seq<int>, cord: seq<nat>, assign: seq<nat>)
    requires Descending(ds, dord) && Descending(cs, cord) && Staffs(assign, ds, cs)
    ensures FitsInOrder(ds, dord, cs, cord)
  {
    forall i | 0 <= i < |assign| ensures assign[i] in cord {}
    Pigeonhole(assign, cord);
    forall i | 0 <= i < |ds| ensures ds[dord[i]] <= cs[cord[i]] {
      if ds[dord[i]] > cs[cord[i]] {
        var served := seq(i + 1, t requires 0 <= t < i + 1 => assign[dord[t]]);
        ServedDistinct(ds, dord, cs, assign, i);
        forall t | 0 <= t < |served| ensures served[t] in cord[..i] {
          var p := IndexOf(cord, |cs|, assign[dord[t]]);
          assert cord[..i][p] == served[t];
        }
        Pigeonhole(served, cord[..i]);
      }
    }
  }

  lemma ServedDistinct(ds: seq<nat>, dord: seq<nat>, cs: seq<int>, assign: seq<nat>, i: nat)
    requires Permutation(dord, |ds|) && Staffs(assign, ds, cs) && i < |ds|
    ensures Distinct(seq(i + 1, t requires 0 <= t < i + 1 => assign[dord[t]]))
  {
    forall a, b | 0 <= a < b < i + 1 ensures assign[dord[a]] != assign[dord[b]] {
      assert dord[a] != dord[b];
      if dord[a] < dord[b] {
        assert assign[dord[a]] != assign[dord[b]];
      } else {
        assert assign[dord[b]] != assign[dord[a]];
      }
    }
  }

  /** The least number of stages the fleet can staff, or an error exactly when there is none. */
  method PlanStages(layerBudget: int, capacities: seq<int>, replication: int) returns (r: Result<nat, Error>)
    ensures r.Err? ==> r.error == ValueError
    ensures layerBudget < 1 || replication < 1 ==> r.Err?
    ensures layerBudget >= 1 && replication >= 1 ==>
              match r
              case Ok(k) =>
                k <= layerBudget && LeastStages(layerBudget, capacities, replication, k)
              case Err(_) =>
                forall j :: 1 <= j <= layerBudget ==> !Feasible(layerBudget, capacities, replication, j)
  {
    hide Staffable, BalancedSizes, Demands, Staffed;
    if layerBudget < 1 || replication < 1 {
      return Err(ValueError);
    }
    var cord := SortDescending(capacities);
    for k := 1 to layerBudget + 1
      invariant forall j :: 1 <= j < k ==> !Feasible(layerBudget, capacities, replication, j)
    {
      var demands := Demands(BalancedSizes(layerBudget, k), replication);
      var dord := SortDescending(demands);
      PairwiseIsMatching(demands, dord, capacities, cord);
      FeasibleIsStaffable(BalancedSizes(layerBudget, k), replication, capacities);
      var fits := |demands| <= |capacities|;
      if fits {
        var i := 0;
        while i < |demands| && demands[dord[i]] <= capacities[cord[i]]
          invariant i <= |demands|
          invariant forall t :: 0 <= t < i ==> demands[dord[t]] <= capacities[cord[t]]
        {
          i := i + 1;
        }
        fits := i == |demands|;
      }
      assert fits <==> FitsInOrder(demands, dord, capacities, cord);
      if fits {
        return Ok(k);
      }
    }
    return Err(ValueError);
  }

  // ----- weighted split -----

  function SumReal(xs: seq<real>): real
  {
    if xs == [] then 0.0 else SumReal(xs[..|xs| - 1]) + xs[|xs| - 1]
  }

  predicate AllPositive(w: seq<real>)
  {
    forall i :: 0 <= i < |w| ==> w[i] > 0.0
  }

  lemma {:induction false} PositiveSum(w: seq<real>)
    requires w != [] && AllPositive(w)
    ensures SumReal(w) > 0.0
  {
    if |w| > 1 {
      PositiveSum(w[..|w| - 1]);
    }
  }

  /** A stage's exact proportional share. */
  function Ideal(total: nat, w: seq<real>, i: nat): real
    requires w != [] && AllPositive(w) && i < |w|
  {
    PositiveSum(w);
    Share(total as real, w[i], SumReal(w))
  }

  function Share(t: real, x: real, all: real): real
    requires all > 0.0
  {
    t * x / all
  }

  function Times(a: real, b: real): real { a * b }

  function Floors(total: nat, w: seq<real>): (fs: seq<int>)
    requires w != [] && AllPositive(w)
    ensures |fs| == |w|
  {
    seq(|w|, i requires 0 <= i < |w| => Ideal(total, w, i).Floor)
  }

  function Fractions(total: nat, w: seq<real>): (fs: seq<real>)
    requires w != [] && AllPositive(w)
    ensures |fs| == |w|
  {
    seq(|w|, i requires 0 <= i < |w| => Ideal(total, w, i) - Ideal(total, w, i).Floor as real)
  }

  function NegatedReal(xs: seq<real>): (keys: seq<real>)
    ensures |keys| == |xs|
  {
    seq(|xs|, i requires 0 <= i < |xs| => -xs[i])
  }

  /** How many stages come before stage `i` in the hand-out of the remainder: those with a larger
      fractional part, or an equal one earlier in the list. */
  ghost function Rank(fracs: seq<real>, i: nat): nat
    requires i < |fracs|
  {
    |set j: nat | j < |fracs| && Before(NegatedReal(fracs), j, i)|
  }

  /** Largest-remainder rounding: every stage gets the floor of its exact share, and the stages with
      the largest fractional parts one more, until the total is used up. */
  ghost function LargestRemainder(total: nat, w: seq<real>): (sizes: seq<int>)
    requires w != [] && AllPositive(w)
    ensures |sizes| == |w|
  {
    var rem := total - Sum(Floors(total, w));
    seq(|w|, i requires 0 <= i < |w| =>
      Floors(total, w)[i] + (if Rank(Fractions(total, w), i) < rem then 1 else 0))
  }

  /** In plain terms: every stage gets its exact proportion rounded down or up, and where one is rounded up
      and another is not, it has the larger fractional part, or an equal one and comes first. */
  lemma RoundsByFraction(total: nat, w: seq<real>, i: nat, j: nat)
    requires w != [] && AllPositive(w) && i < |w| && j < |w| && SumReal(w) > 0.0
    ensures var sizes := LargestRemainder(total, w);
            var x, y := total as real * w[i] / SumReal(w), total as real * w[j] / SumReal(w);
            && (sizes[i] == x.Floor || sizes[i] == x.Floor + 1)
            && (sizes[i] == x.Floor + 1 && sizes[j] == y.Floor ==>
                  var f, g := x - x.Floor as real, y - y.Floor as real;
                  f > g || (f == g && i < j))
  {
    hide LargestRemainder, SumReal;
    RoundsIdeal(total, w, i, j);
    IdealIs(total, w, i);
    IdealIs(total, w, j);
  }

  lemma IdealIs(total: nat, w: seq<real>, i: nat)
    requires w != [] && AllPositive(w) && i < |w| && SumReal(w) > 0.0
    ensures Ideal(total, w, i) == total as real * w[i] / SumReal(w)
  {
    hide SumReal;
  }

  lemma RoundsIdeal(total: nat, w: seq<real>, i: nat, j: nat)
    requires w != [] && AllPositive(w) && i < |w| && j < |w|
    ensures var sizes := LargestRemainder(total, w);
            var x, y := Ideal(total, w, i), Ideal(total, w, j);
            && (sizes[i] == x.Floor || sizes[i] == x.Floor + 1)
            && (sizes[i] == x.Floor + 1 && sizes[j] == y.Floor ==>
                  var f, g := x - x.Floor as real, y - y.Floor as real;
                  f > g || (f == g && i < j))
  {
    hide Ideal, Rank, Sum;
    var fracs := Fractions(total, w);
    if Rank(fracs, i) < Rank(fracs, j) { RankTells(fracs, i, j); }
  }

  /** Who has fewer stages before it goes first. */
  lemma RankTells(fracs: seq<real>, i: nat, j: nat)
    requires i < |fracs| && j < |fracs| && Rank(fracs, i) < Rank(fracs, j)
    ensures fracs[i] > fracs[j] || (fracs[i] == fracs[j] && i < j)
  {
    var keys := NegatedReal(fracs);
    if i != j && Before(keys, j, i) {
      var before, all := set k: nat | k < |fracs| && Before(keys, k, j), set k: nat | k < |fracs| && Before(keys, k, i);
      assert before <= all;
      SubsetCount(before, all);
    }
  }

  lemma {:induction false} SubsetCount(a: set<nat>, b: set<nat>)
    requires a <= b
    ensures |a| <= |b|
    decreases |a|
  {
    if a != {} {
      var x :| x in a;
      SubsetCount(a - {x}, b - {x});
    }
  }

  /** Layers missing below the minimum, summed over the stages. */
  function Deficit(sizes: seq<int>, minSize: int): (d: nat)
  {
    if sizes == [] then 0 else
      var s := sizes[|sizes| - 1];
      Deficit(sizes[..|sizes| - 1], minSize) + (if s < minSize then minSize - s else 0)
  }

  function Scaled(w: seq<real>, c: real): (xs: seq<real>)
    ensures |xs| == |w|
  {
    seq(|w|, i requires 0 <= i < |w| => Times(w[i], c))
  }

  lemma TimesZero(c: real)
    ensures Times(0.0, c) == 0.0
  {
  }

  lemma TimesSum(a: real, b: real, c: real)
    ensures Times(a + b, c) == Times(a, c) + Times(b, c)
  {
  }

  lemma {:induction false} ScaledSum(w: seq<real>, c: real)
    ensures SumReal(Scaled(w, c)) == Times(SumReal(w), c)
    decreases |w|
  {
    if w == [] {
      TimesZero(c);
    } else {
      hide Times;
      var n := |w| - 1;
      ScaledSum(w[..n], c);
      assert Scaled(w, c)[..n] == Scaled(w[..n], c);
      TimesSum(SumReal(w[..n]), w[n], c);
    }
  }

  /** Between the sum of reals and the sum of their floors lies less than one per element. */
  lemma {:induction false} FloorSum(xs: seq<real>, fs: seq<int>)
    requires |xs| == |fs| && forall i :: 0 <= i < |xs| ==> fs[i] == xs[i].Floor
    ensures 0.0 <= SumReal(xs) - Sum(fs) as real
    ensures xs != [] ==> SumReal(xs) - (Sum(fs) as real) < |xs| as real
    ensures xs == [] ==> SumReal(xs) == Sum(fs) as real
    decreases |xs|
  {
    if xs != [] {
      FloorSum(xs[..|xs| - 1], fs[..|xs| - 1]);
    }
  }

  /** The remainder is non-negative and smaller than the number of stages. */
  lemma RemainderBounds(total: nat, w: seq<real>)
    requires w != [] && AllPositive(w)
    ensures 0 <= total - Sum(Floors(total, w)) < |w|
  {
    hide Times, Share, SumReal, Ideal, AllPositive;
    PositiveSum(w);
    var W := SumReal(w);
    var c := Share(total as real, 1.0, W);
    ScaledSum(w, c);
    TimesShare(total as real, W);
    forall i | 0 <= i < |w| ensures Floors(total, w)[i] == Scaled(w, c)[i].Floor {
      IdealIsScaled(total, w, i);
    }
    FloorSum(Scaled(w, c), Floors(total, w));
  }

  lemma TimesShare(t: real, all: real)
    requires all > 0.0
    ensures Times(all, Share(t, 1.0, all)) == t
  {
  }

  lemma ShareIsTimes(t: real, x: real, all: real)
    requires all > 0.0
    ensures Share(t, x, all) == Times(x, Share(t, 1.0, all))
  {
  }

  lemma IdealIsScaled(total: nat, w: seq<real>, i: nat)
    requires w != [] && AllPositive(w) && i < |w|
    ensures SumReal(w) > 0.0
    ensures Ideal(total, w, i) == Times(w[i], Share(total as real, 1.0, SumReal(w)))
  {
    hide Times, Share, SumReal, AllPositive;
    PositiveSum(w);
    ShareIsTimes(total as real, w[i], SumReal(w));
  }

  // ----- sums under small changes -----

  lemma {:induction false} SumUpdate(xs: seq<int>, i: nat, v: int)
    requires i < |xs|
    ensures Sum(xs[i := v]) == Sum(xs) - xs[i] + v
    decreases |xs|
  {
    var n := |xs| - 1;
    if i < n {
      SumUpdate(xs[..n], i, v);
      assert xs[i := v][..n] == xs[..n][i := v];
    } else {
      assert xs[i := v][..n] == xs[..n];
    }
  }

  function Short(s: int, minSize: int): nat { if s < minSize then minSize - s else 0 }

  lemma {:induction false} DeficitUpdate(xs: seq<int>, m: int, i: nat, v: int)
    requires i < |xs|
    ensures Deficit(xs[i := v], m) == Deficit(xs, m) - Short(xs[i], m) + Short(v, m)
    decreases |xs|
  {
    var n := |xs| - 1;
    if i < n {
      DeficitUpdate(xs[..n], m, i, v);
      assert xs[i := v][..n] == xs[..n][i := v];
    } else {
      assert xs[i := v][..n] == xs[..n];
    }
  }

  lemma {:induction false} DeficitZero(xs: seq<int>, m: int)
    ensures Deficit(xs, m) == 0 <==> forall i :: 0 <= i < |xs| ==> xs[i] >= m
    decreases |xs|
  {
    if xs != [] {
      var n := |xs| - 1;
      DeficitZero(xs[..n], m);
      assert forall i :: 0 <= i < n ==> xs[..n][i] == xs[i];
    }
  }

  lemma {:induction false} SumAtMost(xs: seq<int>, m: int)
    requires forall i :: 0 <= i < |xs| ==> xs[i] <= m
    ensures Sum(xs) <= |xs| * m
    ensures (exists i :: 0 <= i < |xs| && xs[i] < m) ==> Sum(xs) < |xs| * m
    decreases |xs|
  {
    if xs != [] {
      var n := |xs| - 1;
      SumAtMost(xs[..n], m);
      if i :| 0 <= i < |xs| && xs[i] < m {
        if i < n { assert xs[..n][i] < m; }
      }
      assert |xs| * m == n * m + m;
    }
  }

  // ----- the split -----

  /** Rank and position agree: in the stable order of the fractional parts, descending, the stage at
      place `p` has exactly `p` stages before it. */
  lemma RankIsPlace(fracs: seq<real>, order: seq<nat>, p: nat)
    requires StableOrder(NegatedReal(fracs), order) && p < |order|
    ensures Rank(fracs, order[p]) == p
  {
    var keys := NegatedReal(fracs);
    var before := set j: nat | j < |fracs| && Before(keys, j, order[p]);
    var firsts := set q: nat | q < p :: order[q];
    forall j: nat ensures j in before <==> j in firsts {
      if j < |fracs| {
        var q := IndexOf(order, |fracs|, j);
        if q > p { assert Before(keys, order[p], order[q]); }
        if q < p { assert Before(keys, order[q], order[p]); }
      }
    }
    assert before == firsts;
    PlacesCount(order, p);
  }

  lemma {:induction false} PlacesCount(order: seq<nat>, p: nat)
    requires Distinct(order) && p <= |order|
    ensures |set q: nat | q < p :: order[q]| == p
    decreases p
  {
    var all := set q: nat | q < p :: order[q];
    if p == 0 {
      assert all == {};
    } else {
      PlacesCount(order, p - 1);
      var fewer := set q: nat | q < p - 1 :: order[q];
      assert all == fewer + {order[p - 1]};
      assert order[p - 1] !in fewer;
    }
  }

  /** Split `total` layers over the stages in proportion to the weights: largest-remainder rounding,
      then layers moved one at a time from the largest slice to the smallest while some slice is
      below the minimum, at most `10 * n` times.  The sizes always sum to the total, and they all
      reach the minimum if and only if the rounded split lacks at most `10 * n` layers of it. */
  method PlanWeightedSplit(total: nat, w: seq<real>, minSize: int) returns (r: Result<seq<int>, Error>)
    ensures r.Err? ==> r.error == ValueError
    ensures r.Err? <==> w == [] || !AllPositive(w) || total < |w| * minSize
    ensures r.Ok? ==> |r.value| == |w| && Sum(r.value) == total
    ensures r.Ok? ==> ((forall i :: 0 <= i < |w| ==> r.value[i] >= minSize)
                       <==> Deficit(LargestRemainder(total, w), minSize) <= 10 * |w|)
    ensures r.Ok? && Deficit(LargestRemainder(total, w), minSize) == 0 ==> r.value == LargestRemainder(total, w)
    ensures r.Ok? ==> Levelled(LargestRemainder(total, w), r.value, minSize)
  {
    if w == [] || exists i :: 0 <= i < |w| && w[i] <= 0.0 {
      return Err(ValueError);
    }
    var n := |w|;
    if total < n * minSize {
      return Err(ValueError);
    }
    var sizes := RoundSplit(total, w);
    ghost var missing := Deficit(sizes, minSize);
    var guard := 0;
    DeficitZero(sizes, minSize);
    while guard < 10 * n && exists i :: 0 <= i < n && sizes[i] < minSize
      invariant |sizes| == n && Sum(sizes) == total && guard <= 10 * n
      invariant Deficit(sizes, minSize) == missing - guard
      invariant missing == 0 ==> sizes == LargestRemainder(total, w)
      invariant Levelled(LargestRemainder(total, w), sizes, minSize)
      decreases 10 * n - guard
    {
      guard := guard + 1;
      var lo := Smallest(sizes);
      var hi := Largest(sizes);
      DeficitZero(sizes, minSize);
      DonorExists(sizes, minSize, total, lo, hi);
      if sizes[hi] - 1 < minSize {
        break;
      }
      Moved(sizes, lo, hi, minSize);
      StillLevelled(LargestRemainder(total, w), sizes, lo, hi, minSize);
      sizes := sizes[lo := sizes[lo] + 1][hi := sizes[hi] - 1];
    }
    DeficitZero(sizes, minSize);
    return Ok(sizes);
  }

  /** What the repair does to the proportional sizes: only slices below the minimum gain, up to it, the
      smallest first; only the largest give, and never below it; of equals the earlier gains and gives first. */
  ghost predicate Levelled(from: seq<int>, sizes: seq<int>, minSize: int)
  {
    && |sizes| == |from|
    && (forall i :: 0 <= i < |sizes| && sizes[i] > from[i] ==> sizes[i] <= minSize)
    && (forall i, j :: 0 <= i < |sizes| && 0 <= j < |sizes| && sizes[i] > from[i] ==>
          sizes[j] >= if j < i then sizes[i] else sizes[i] - 1)
    && (forall i :: 0 <= i < |sizes| && sizes[i] < from[i] ==> sizes[i] >= minSize)
    && forall i, j :: 0 <= i < |sizes| && 0 <= j < |sizes| && sizes[i] < from[i] ==>
         sizes[j] <= if j < i then sizes[i] else sizes[i] + 1
  }

  /** The first of the smallest. */
  ghost predicate FirstSmallest(xs: seq<int>, k: nat)
  {
    k < |xs| && forall i :: 0 <= i < |xs| ==> if i < k then xs[k] < xs[i] else xs[k] <= xs[i]
  }

  /** The first of the largest. */
  ghost predicate FirstLargest(xs: seq<int>, k: nat)
  {
    k < |xs| && forall i :: 0 <= i < |xs| ==> if i < k then xs[i] < xs[k] else xs[i] <= xs[k]
  }

  lemma StillLevelled(from: seq<int>, sizes: seq<int>, lo: nat, hi: nat, minSize: int)
    requires Levelled(from, sizes, minSize) && FirstSmallest(sizes, lo) && FirstLargest(sizes, hi)
    requires sizes[lo] < minSize < sizes[hi]
    ensures Levelled(from, sizes[lo := sizes[lo] + 1][hi := sizes[hi] - 1], minSize)
  {
  }

  /** While some slice is short, the largest slice has a layer to spare. */
  lemma DonorExists(sizes: seq<int>, minSize: int, total: nat, lo: nat, hi: nat)
    requires lo < |sizes| && hi < |sizes| && Sum(sizes) == total >= |sizes| * minSize
    requires sizes[lo] < minSize && forall i :: 0 <= i < |sizes| ==> sizes[i] <= sizes[hi]
    ensures sizes[hi] > minSize
  {
    if sizes[hi] <= minSize {
      SumAtMost(sizes, minSize);
    }
  }

  /** Moving a layer from a slice with one to spare to a short one keeps the sum and makes up one
      missing layer. */
  lemma Moved(sizes: seq<int>, lo: nat, hi: nat, minSize: int)
    requires lo < |sizes| && hi < |sizes| && sizes[lo] < minSize < sizes[hi]
    ensures var out := sizes[lo := sizes[lo] + 1][hi := sizes[hi] - 1];
            && |out| == |sizes| && Sum(out) == Sum(sizes)
            && Deficit(out, minSize) == Deficit(sizes, minSize) - 1
  {
    var mid := sizes[lo := sizes[lo] + 1];
    SumUpdate(sizes, lo, sizes[lo] + 1);
    SumUpdate(mid, hi, sizes[hi] - 1);
    DeficitUpdate(sizes, minSize, lo, sizes[lo] + 1);
    DeficitUpdate(mid, minSize, hi, sizes[hi] - 1);
  }

  method Smallest(xs: seq<int>) returns (k: nat)
    requires xs != []
    ensures FirstSmallest(xs, k)
  {
    k := 0;
    for i := 1 to |xs|
      invariant k < i && forall j :: 0 <= j < i ==> if j < k then xs[k] < xs[j] else xs[k] <= xs[j]
    {
      if xs[i] < xs[k] { k := i; }
    }
  }

  method Largest(xs: seq<int>) returns (k: nat)
    requires xs != []
    ensures FirstLargest(xs, k)
  {
    k := 0;
    for i := 1 to |xs|
      invariant k < i && forall j :: 0 <= j < i ==> if j < k then xs[j] < xs[k] else xs[j] <= xs[k]
    {
      if xs[i] > xs[k] { k := i; }
    }
  }

  /** The rounding phase: floors, then the remainder handed out by fractional part. */
  method RoundSplit(total: nat, w: seq<real>) returns (sizes: seq<int>)
    requires w != [] && AllPositive(w)
    ensures |sizes| == |w| && sizes == LargestRemainder(total, w) && Sum(sizes) == total
  {
    var floors := Floors(total, w);
    var rem := total - Sum(floors);
    RemainderBounds(total, w);
    var order := Sort(NegatedReal(Fractions(total, w)));
    sizes := floors;
    for i := 0 to rem
      invariant |sizes| == |w| && Sum(sizes) == Sum(floors) + i
      invariant forall p :: 0 <= p < |order| ==> sizes[order[p]] == floors[order[p]] + (if p < i then 1 else 0)
    {
      SumUpdate(sizes, order[i], sizes[order[i]] + 1);
      forall p | 0 <= p < |order| && p != i ensures order[p] != order[i] {
        if p < i { assert order[p] != order[i]; } else { assert order[i] != order[p]; }
      }
      sizes := sizes[order[i] := sizes[order[i]] + 1];
    }
    forall j | 0 <= j < |w| ensures sizes[j] == LargestRemainder(total, w)[j] {
      var p := IndexOf(order, |w|, j);
      RankIsPlace(Fractions(total, w), order, p);
    }
  }

  // ----- when the minimum is met -----

  lemma {:induction false} DeficitAtMost(xs: seq<int>, m: nat)
    requires forall i :: 0 <= i < |xs| ==> xs[i] >= 0
    ensures Deficit(xs, m) <= |xs| * m
    decreases |xs|
  {
    if xs != [] {
      DeficitAtMost(xs[..|xs| - 1], m);
      assert |xs| * m == (|xs| - 1) * m + m;
    }
  }

  lemma IdealNonNegative(total: nat, w: seq<real>, i: nat)
    requires w != [] && AllPositive(w) && i < |w|
    ensures Ideal(total, w, i) >= 0.0
  {
    hide SumReal;
    PositiveSum(w);
    var all := SumReal(w);
    assert total as real * w[i] >= 0.0;
  }

  /** A minimum of at most 10 is always met: the iteration limit never bites. */
  lemma SmallMinimumIsMet(total: nat, w: seq<real>, minSize: int)
    requires w != [] && AllPositive(w) && minSize <= 10
    ensures Deficit(LargestRemainder(total, w), minSize) <= 10 * |w|
  {
    hide Ideal, Deficit, Rank;
    var sizes := LargestRemainder(total, w);
    RemainderBounds(total, w);
    forall i | 0 <= i < |w| ensures sizes[i] >= 0 {
      IdealNonNegative(total, w, i);
    }
    if minSize >= 0 {
      DeficitAtMost(sizes, minSize);
      TimesTen(|w|, minSize);
    } else {
      DeficitZero(sizes, minSize);
    }
  }

  lemma TimesTen(n: nat, m: nat)
    requires m <= 10
    ensures n * m <= 10 * n
  {
  }

  /** A larger one need not be: splitting 100 layers 1 : 99 with a minimum of 50 leaves 49 layers to
      move, and only 20 moves are allowed. */
  lemma LargeMinimumMissed()
    ensures var w := [1.0, 99.0];
            && AllPositive(w) && 100 >= |w| * 50
            && LargestRemainder(100, w) == [1, 99]
            && Deficit(LargestRemainder(100, w), 50) == 49 > 10 * |w|
  {
    var w := [1.0, 99.0];
    assert w[..1] == [1.0] && w[..1][..0] == [];
    assert SumReal(w) == 100.0;
    assert Ideal(100, w, 0) == 1.0 && Ideal(100, w, 1) == 99.0;
    var f := Floors(100, w);
    assert f == [1, 99] && f[..1] == [1] && f[..1][..0] == [];
    assert Sum(f[..1]) == 1;
    assert Sum(f) == 100;
    assert LargestRemainder(100, w) == [1, 99];
    var d := [1, 99];
    assert d[..1] == [1] && d[..1][..0] == [];
  }

  // ----- equal weights -----

  lemma {:induction false} EqualSum(w: seq<real>, c: real)
    requires forall i :: 0 <= i < |w| ==> w[i] == c
    ensures SumReal(w) == |w| as real * c
    decreases |w|
  {
    if w != [] {
      EqualSum(w[..|w| - 1], c);
    }
  }

  lemma {:induction false} ConstantSum(xs: seq<int>, c: int)
    requires forall i :: 0 <= i < |xs| ==> xs[i] == c
    ensures Sum(xs) == |xs| * c
    decreases |xs|
  {
    if xs != [] {
      ConstantSum(xs[..|xs| - 1], c);
      assert |xs| * c == (|xs| - 1) * c + c;
    }
  }

  lemma EqualIdeal(total: nat, w: seq<real>, i: nat)
    requires w != [] && AllPositive(w) && i < |w| && forall j :: 0 <= j < |w| ==> w[j] == w[0]
    ensures Ideal(total, w, i) == total as real / |w| as real
  {
    hide SumReal;
    PositiveSum(w);
    EqualSum(w, w[0]);
    CancelShare(total as real, w[i], |w| as real);
  }

  lemma CancelShare(t: real, c: real, n: real)
    requires n > 0.0 && c > 0.0
    ensures n * c > 0.0 && Share(t, c, n * c) == t / n
  {
    assert n * c > 0.0;
    assert (t / n) * (n * c) == t * c by { assert (t / n) * n == t; }
  }

  lemma QuotientFloor(t: nat, n: nat)
    requires n > 0
    ensures (t as real / n as real).Floor == t / n
  {
    var q, r := t / n, t % n;
    assert t == q * n + r;
    QuotientSplit(t as real, q as real, r as real, n as real);
    FloorBetween(t as real / n as real, q);
  }

  lemma FloorBetween(x: real, q: int)
    requires q as real <= x < q as real + 1.0
    ensures x.Floor == q
  {
  }

  /** Comparing `a` and `b` through their products `ta` and `tb` with the positive `n`. */
  lemma CompareByProduct(a: real, b: real, n: real, ta: real, tb: real)
    requires n > 0.0 && a * n == ta && b * n == tb
    ensures ta <= tb ==> a <= b
    ensures ta < tb ==> a < b
  {
  }

  lemma QuotientSplit(t: real, q: real, r: real, n: real)
    requires 0.0 <= r < n && t == q * n + r
    ensures q <= t / n < q + 1.0
  {
    var x := t / n;
    assert x * n == t;
    CompareByProduct(q, x, n, t - r, t);
    assert (q + 1.0) * n == q * n + n;
    CompareByProduct(x, q + 1.0, n, t, t - r + n);
  }

  /** On equal weights the split is the balanced one the slots use. */
  lemma EqualWeightsBalance(total: nat, w: seq<real>)
    requires w != [] && AllPositive(w) && forall j :: 0 <= j < |w| ==> w[j] == w[0]
    ensures LargestRemainder(total, w) == BalancedSizes(total, |w|)
  {
    var n := |w|;
    hide Share, SumReal, Rank, Ideal;
    forall i | 0 <= i < n ensures Ideal(total, w, i) == total as real / n as real {
      EqualIdeal(total, w, i);
    }
    QuotientFloor(total, n);
    ConstantSum(Floors(total, w), total / n);
    var fracs := Fractions(total, w);
    forall i | 0 <= i < n ensures Rank(fracs, i) == i {
      EqualRank(fracs, i);
    }
  }

  /** Among equal fractional parts the earlier index goes first. */
  lemma EqualRank(fracs: seq<real>, i: nat)
    requires i < |fracs| && forall j :: 0 <= j < |fracs| ==> fracs[j] == fracs[0]
    ensures Rank(fracs, i) == i
  {
    var before := set j: nat | j < |fracs| && Before(NegatedReal(fracs), j, i);
    var order := seq(|fracs|, j requires 0 <= j < |fracs| => j as nat);
    var firsts := set q: nat | q < i :: order[q];
    forall j: nat ensures j in before <==> j in firsts {
      if j < i { assert order[j] == j; }
    }
    assert before == firsts;
    PlacesCount(order, i);
  }

  /** With a minimum of one layer nothing has to be moved, so the planner returns that split. */
  lemma EqualWeightsNeedNoMove(total: nat, w: seq<real>)
    requires w != [] && AllPositive(w) && forall j :: 0 <= j < |w| ==> w[j] == w[0]
    requires total >= |w|
    ensures Deficit(LargestRemainder(total, w), 1) == 0
  {
    EqualWeightsBalance(total, w);
    var sizes: seq<int> := LargestRemainder(total, w);
    DeficitZero(sizes, 1);
  }

  // ----- layout -----

  /** Contiguous ranges over `[0, numLayers)` with the planned sizes. */
  method PlanPipelineLayout(numLayers: nat, w: seq<real>, minSize: int) returns (r: Result<seq<(int, int)>, Error>)
    ensures r.Err? ==> r.error == ValueError
    ensures r.Err? <==> w == [] || !AllPositive(w) || numLayers < |w| * minSize
    ensures r.Ok? ==> |r.value| == |w| && r.value[0].0 == 0 && r.value[|w| - 1].1 == numLayers
    ensures r.Ok? ==> forall i :: 0 < i < |w| ==> r.value[i].0 == r.value[i - 1].1
    ensures r.Ok? ==> ((forall i :: 0 <= i < |w| ==> r.value[i].1 - r.value[i].0 >= minSize)
                       <==> Deficit(LargestRemainder(numLayers, w), minSize) <= 10 * |w|)
    ensures r.Ok? ==> Levelled(LargestRemainder(numLayers, w), Widths(r.value), minSize)
    ensures r.Ok? && Deficit(LargestRemainder(numLayers, w), minSize) == 0 ==>
              Widths(r.value) == LargestRemainder(numLayers, w)
  {
    hide *;
    var sizes := PlanWeightedSplit(numLayers, w, minSize);
    if sizes.Err? {
      return Err(sizes.error);
    }
    var ranges := RangesOf(0, sizes.value);
    return Ok(ranges);
  }

  lemma SumNone()
    ensures Sum([]) == 0
  {
  }

  lemma SumNext(xs: seq<int>, i: nat)
    requires i < |xs|
    ensures Sum(xs[..i + 1]) == Sum(xs[..i]) + xs[i]
  {
    assert xs[..i + 1][..i] == xs[..i];
  }

  function Widths(ranges: seq<(int, int)>): seq<int>
  {
    seq(|ranges|, i requires 0 <= i < |ranges| => ranges[i].1 - ranges[i].0)
  }

  /** Consecutive ranges of the given sizes, from `first` on. */
  method RangesOf(first: int, sizes: seq<int>) returns (ranges: seq<(int, int)>)
    requires sizes != []
    ensures |ranges| == |sizes| && ranges[0].0 == first && ranges[|sizes| - 1].1 == first + Sum(sizes)
    ensures forall i :: 0 < i < |sizes| ==> ranges[i].0 == ranges[i - 1].1
    ensures forall i :: 0 <= i < |sizes| ==> ranges[i].1 - ranges[i].0 == sizes[i]
    ensures Widths(ranges) == sizes
  {
    hide Sum;
    ranges := [];
    var s := first;
    SumNone();
    assert sizes[..0] == [];
    for i := 0 to |sizes|
      invariant |ranges| == i && s == first + Sum(sizes[..i])
      invariant i > 0 ==> ranges[0].0 == first && ranges[i - 1].1 == s
      invariant forall j :: 0 < j < i ==> ranges[j].0 == ranges[j - 1].1
      invariant forall j :: 0 <= j < i ==> ranges[j].1 - ranges[j].0 == sizes[j]
    {
      ranges := ranges + [(s, s + sizes[i])];
      SumNext(sizes, i);
      s := s + sizes[i];
    }
    assert sizes[..|sizes|] == sizes;
  }
}
