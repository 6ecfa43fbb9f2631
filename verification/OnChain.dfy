/** The on-chain check of a slot layout. */
module MeshRegistry {
  import opened Sorting

  const MAX_MODEL_FP := 64
  const MAX_SLOTS := 32

  /** A half-open layer range `[start, end)`; both are 16-bit. */
  datatype SlotRange = SlotRange(start: nat, end: nat)

  datatype MeshError =
    ModelFpTooLong | BadNumLayers | BadReplication | NoSlots | TooManySlots | BadSlotRange | BadCoverage

  datatype Verdict = Accepted | Rejected(error: MeshError)

  /** The limits on everything but the layout itself. */
  predicate WithinLimits(fpLen: nat, numLayers: nat, replication: nat, slots: seq<SlotRange>)
  {
    fpLen <= MAX_MODEL_FP && numLayers > 0 && replication > 0 && 0 < |slots| <= MAX_SLOTS
  }

  predicate Contains(s: SlotRange, layer: nat) { s.start <= layer < s.end }

  /** Every slot is a non-empty part of `[0, numLayers)`. */
  predicate ProperSlots(numLayers: nat, slots: seq<SlotRange>)
  {
    forall i :: 0 <= i < |slots| ==> slots[i].start < slots[i].end <= numLayers
  }

  /** Slot `i` and no other holds the layer. */
  ghost predicate Owns(slots: seq<SlotRange>, i: nat, layer: nat)
  {
    && i < |slots| && Contains(slots[i], layer)
    && forall j :: 0 <= j < |slots| && j != i ==> !Contains(slots[j], layer)
  }

  ghost predicate OwnedOnce(slots: seq<SlotRange>, layer: nat)
  {
    exists i: nat :: Owns(slots, i, layer)
  }

  /** Every slot is non-empty and within the model, and every layer lies in exactly one slot. */
  ghost predicate IsPartition(numLayers: nat, slots: seq<SlotRange>)
  {
    && ProperSlots(numLayers, slots)
    && forall layer: nat :: layer < numLayers ==> OwnedOnce(slots, layer)
  }

  /** In this order the slots follow one another from 0 to the last layer. */
  ghost predicate Contiguous(numLayers: nat, slots: seq<SlotRange>, order: seq<nat>)
    requires Permutation(order, |slots|) && slots != []
  {
    && slots[order[0]].start == 0
    && (forall p :: 0 < p < |order| ==> slots[order[p]].start == slots[order[p - 1]].end)
    && slots[order[|order| - 1]].end == numLayers
  }

  function StartKeys(slots: seq<SlotRange>): (keys: seq<real>)
    ensures |keys| == |slots|
  {
    seq(|slots|, i requires 0 <= i < |slots| => slots[i].start as real)
  }

  /** Accept a layout exactly when it partitions the model's layers, in whatever order it is given;
      any other layout within the limits is rejected. */
  method ValidateTopology(fpLen: nat, numLayers: nat, replication: nat, slots: seq<SlotRange>)
    returns (v: Verdict)
    ensures v == Accepted <==> WithinLimits(fpLen, numLayers, replication, slots) && IsPartition(numLayers, slots)
    ensures WithinLimits(fpLen, numLayers, replication, slots) && v.Rejected? ==>
              v.error == if ProperSlots(numLayers, slots) then BadCoverage else BadSlotRange
    ensures v == Rejected(ModelFpTooLong) <==> fpLen > MAX_MODEL_FP
    ensures v == Rejected(BadNumLayers) <==> fpLen <= MAX_MODEL_FP && numLayers == 0
    ensures v == Rejected(BadReplication) <==> fpLen <= MAX_MODEL_FP && numLayers > 0 && replication == 0
    ensures v == Rejected(NoSlots) <==> fpLen <= MAX_MODEL_FP && numLayers > 0 && replication > 0 && slots == []
    ensures v == Rejected(TooManySlots) <==>
            fpLen <= MAX_MODEL_FP && numLayers > 0 && replication > 0 && |slots| > MAX_SLOTS
  {
    if fpLen > MAX_MODEL_FP { return Rejected(ModelFpTooLong); }
    if numLayers == 0 { return Rejected(BadNumLayers); }
    if replication == 0 { return Rejected(BadReplication); }
    if |slots| == 0 { return Rejected(NoSlots); }
    if |slots| > MAX_SLOTS { return Rejected(TooManySlots); }
    for i := 0 to |slots|
      invariant forall j :: 0 <= j < i ==> slots[j].start < slots[j].end <= numLayers
    {
      if !(slots[i].start < slots[i].end && slots[i].end <= numLayers) {
        return Rejected(BadSlotRange);
      }
    }
    var order := Sort(StartKeys(slots));
    SortedPartition(numLayers, slots, order);
    if slots[order[0]].start != 0 {
      return Rejected(BadCoverage);
    }
    for p := 1 to |order|
      invariant forall q :: 0 < q < p ==> slots[order[q]].start == slots[order[q - 1]].end
    {
      if slots[order[p]].start != slots[order[p - 1]].end {
        return Rejected(BadCoverage);
      }
    }
    if slots[order[|order| - 1]].end != numLayers {
      return Rejected(BadCoverage);
    }
    return Accepted;
  }

  /** Sorted by start, proper slots are contiguous exactly when they are a partition. */
  lemma SortedPartition(numLayers: nat, slots: seq<SlotRange>, order: seq<nat>)
    requires slots != [] && numLayers > 0 && ProperSlots(numLayers, slots)
    requires StableOrder(StartKeys(slots), order)
    ensures Contiguous(numLayers, slots, order) <==> IsPartition(numLayers, slots)
  {
    forall p, q | 0 <= p < q < |order| ensures slots[order[p]].start <= slots[order[q]].start {
      assert Before(StartKeys(slots), order[p], order[q]);
    }
    if Contiguous(numLayers, slots, order) {
      forall layer: nat | layer < numLayers ensures OwnedOnce(slots, layer) {
        ContiguousOwns(numLayers, slots, order, layer);
      }
    }
    if IsPartition(numLayers, slots) {
      PartitionContiguous(numLayers, slots, order);
    }
  }

  lemma {:induction false} EndsAscend(numLayers: nat, slots: seq<SlotRange>, order: seq<nat>, p: nat, q: nat)
    requires slots != [] && ProperSlots(numLayers, slots) && Permutation(order, |slots|)
    requires Contiguous(numLayers, slots, order) && p < q < |order|
    ensures slots[order[p]].end <= slots[order[q]].start
    decreases q - p
  {
    if p + 1 < q {
      EndsAscend(numLayers, slots, order, p, q - 1);
    }
  }

  /** In a contiguous run the layer's slot is found by walking, and it is the only one. */
  lemma ContiguousOwns(numLayers: nat, slots: seq<SlotRange>, order: seq<nat>, layer: nat)
    requires slots != [] && ProperSlots(numLayers, slots) && Permutation(order, |slots|)
    requires Contiguous(numLayers, slots, order) && layer < numLayers
    ensures OwnedOnce(slots, layer)
  {
    var p := 0;
    while slots[order[p]].end <= layer
      invariant p < |order| && slots[order[p]].start <= layer
      decreases |order| - p
    {
      assert p + 1 < |order|;
      assert slots[order[p + 1]].start == slots[order[(p + 1) - 1]].end;
      p := p + 1;
    }
    forall j | 0 <= j < |slots| && j != order[p] ensures !Contains(slots[j], layer) {
      var q := IndexOf(order, |slots|, j);
      if q < p {
        EndsAscend(numLayers, slots, order, q, p);
      } else {
        EndsAscend(numLayers, slots, order, p, q);
      }
    }
    assert Owns(slots, order[p], layer);
  }

  /** Two slots of a partition that share a layer are the same slot. */
  lemma SharedLayer(numLayers: nat, slots: seq<SlotRange>, i: nat, j: nat, layer: nat)
    requires IsPartition(numLayers, slots) && i < |slots| && j < |slots|
    requires Contains(slots[i], layer) && Contains(slots[j], layer)
    ensures i == j
  {
    assert OwnedOnce(slots, layer);
    var k: nat :| Owns(slots, k, layer);
  }

  lemma PartitionContiguous(numLayers: nat, slots: seq<SlotRange>, order: seq<nat>)
    requires slots != [] && numLayers > 0 && IsPartition(numLayers, slots)
    requires Permutation(order, |slots|)
    requires forall p, q :: 0 <= p < q < |order| ==> slots[order[p]].start <= slots[order[q]].start
    ensures Contiguous(numLayers, slots, order)
  {
    var n := |order|;
    assert OwnedOnce(slots, 0);
    var first: nat :| Owns(slots, first, 0);
    var f := IndexOf(order, n, first);
    assert slots[order[0]].start == 0;
    forall p | 0 < p < n ensures slots[order[p]].start == slots[order[p - 1]].end {
      var a, b := slots[order[p - 1]], slots[order[p]];
      if b.start < a.end {
        SharedLayer(numLayers, slots, order[p - 1], order[p], b.start);
        assert false;
      }
      if b.start > a.end {
        assert OwnedOnce(slots, a.end);
        var k: nat :| Owns(slots, k, a.end);
        var q := IndexOf(order, n, k);
        if q < p - 1 {
          SharedLayer(numLayers, slots, k, order[p - 1], a.start);
        }
        assert false;
      }
    }
    assert OwnedOnce(slots, numLayers - 1);
    var last: nat :| Owns(slots, last, numLayers - 1);
    var l := IndexOf(order, n, last);
    if l < n - 1 {
      SharedLayer(numLayers, slots, last, order[n - 1], slots[order[n - 1]].start);
      assert false;
    }
  }
}
