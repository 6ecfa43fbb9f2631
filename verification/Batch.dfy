/** Decoding a ragged batch of prompts together, left-padded, one batched forward per step. */
module Batching {
  import opened Model
  import opened Attention
  import opened KV
  import opened Stages
  import opened Coordinators

  // ----- padded rows -----

  /** The labels of `pad` padding slots. */
  function Pads(pad: nat): (lab: seq<Label>)
    ensures |lab| == pad && forall i :: 0 <= i < pad ==> lab[i] == []
  {
    seq(pad, _ => [])
  }

  /** A left-padded row's 2D mask: 1 on real slots. */
  function LeftMask(pad: nat, tail: nat): (row: seq<bool>)
    ensures |row| == pad + tail && forall s :: 0 <= s < pad + tail ==> (row[s] <==> pad <= s)
  {
    seq(pad + tail, s => pad <= s)
  }

  /** The causal mask of `t` queries over `past` slots with the padding mask folded in. */
  function PaddedRows(past: nat, t: nat, attn: seq<bool>): (rows: seq<seq<bool>>)
    ensures |rows| == t
  {
    seq(t, i => seq(past + t, s => s <= past + i && 0 <= s < |attn| && attn[s]))
  }

  function CountTrue(row: seq<bool>): nat
  {
    if row == [] then 0 else CountTrue(row[..|row| - 1]) + (if row[|row| - 1] then 1 else 0)
  }

  /** Per-row positions: the mask's cumulative sum less one, clamped at 0. */
  function MaskPositions(row: seq<bool>): (ps: seq<int>)
    ensures |ps| == |row|
  {
    seq(|row|, i requires 0 <= i < |row| =>
      var c := CountTrue(row[..i + 1]) - 1;
      if c < 0 then 0 else c)
  }

  lemma {:induction false} CountLeftMask(pad: nat, tail: nat, n: nat)
    requires n <= pad + tail
    ensures CountTrue(LeftMask(pad, tail)[..n]) == if n <= pad then 0 else n - pad
    decreases n
  {
    var row := LeftMask(pad, tail);
    if n > 0 {
      CountLeftMask(pad, tail, n - 1);
      assert row[..n][..n - 1] == row[..n - 1];
    }
  }

  /** The slots a real token of a padded row attends to: the real ones up to its own. */
  function RealSlots(pad: nat, n: nat): (idx: seq<nat>)
    ensures |idx| == n && forall j :: 0 <= j < n ==> idx[j] == pad + j
  {
    seq(n, j requires 0 <= j < n => pad + j)
  }

  /** The labels of a padded row that stands at `toks`. */
  function RowLabels(pad: nat, toks: seq<Token>): (lab: seq<Label>)
    ensures |lab| == pad + |toks|
  {
    Pads(pad) + Prefixes(toks)
  }

  lemma RealChain(pad: nat, toks: seq<Token>, n: nat)
    requires n <= |toks|
    ensures Chain(RowLabels(pad, toks), RealSlots(pad, n), toks[..n])
  {
    forall j | 0 <= j < n ensures RowLabels(pad, toks)[RealSlots(pad, n)[j]] == toks[..n][..j + 1] {
      assert toks[..n][..j + 1] == toks[..j + 1];
    }
  }

  lemma RealSelected(pad: nat, past: nat, t: nat, i: nat)
    requires pad <= past + i && i < t
    ensures Selects(PaddedRows(past, t, LeftMask(pad, past + t - pad))[i],
                    RealSlots(pad, past + i + 1 - pad), past + t)
  {
    var idx := RealSlots(pad, past + i + 1 - pad);
    forall s | 0 <= s < past + t ensures pad <= s <= past + i <==> s in idx {
      if pad <= s <= past + i { assert idx[s - pad] == s; }
    }
  }

  /** The queries and chains of the rows a padded row appends. */
  function RowChains(pad: nat, past: nat, t: nat): (chains: seq<seq<nat>>)
    ensures |chains| == t
  {
    seq(t, i requires 0 <= i < t =>
      if past + i < pad then [] else RealSlots(pad, past + i + 1 - pad))
  }

  /** A padded row from `old` tokens to `toks`: every mask row shows its query exactly the real
      tokens up to its own, never padding and never another row. */
  lemma PaddedMasksChains(pad: nat, toks: seq<Token>, past: nat)
    requires past <= pad + |toks|
    ensures var lab := RowLabels(pad, toks);
            var t := pad + |toks| - past;
            MasksChains(lab, PaddedRows(past, t, LeftMask(pad, |toks|)), lab[past..], RowChains(pad, past, t))
  {
    hide Chain, Selects, PaddedRows, LeftMask, RowLabels, RowChains;
    var lab, t := RowLabels(pad, toks), pad + |toks| - past;
    forall i | 0 <= i < t && lab[past..][i] != []
      ensures Chain(lab, RowChains(pad, past, t)[i], lab[past..][i])
      ensures Selects(PaddedRows(past, t, LeftMask(pad, |toks|))[i], RowChains(pad, past, t)[i], |lab|)
    {
      assert lab[past..][i] == lab[past + i];
      RowMasksChain(pad, toks, past, i);
    }
  }

  lemma RowMasksChain(pad: nat, toks: seq<Token>, past: nat, i: nat)
    requires past + i < pad + |toks| && RowLabels(pad, toks)[past + i] != []
    ensures var lab := RowLabels(pad, toks);
            var t := pad + |toks| - past;
            && Chain(lab, RowChains(pad, past, t)[i], lab[past + i])
            && Selects(PaddedRows(past, t, LeftMask(pad, |toks|))[i], RowChains(pad, past, t)[i], |lab|)
  {
    hide Chain, Selects, PaddedRows, LeftMask, RealSlots;
    var n := past + i + 1 - pad;
    assert past + i >= pad && RowLabels(pad, toks)[past + i] == toks[..n];
    RealChain(pad, toks, n);
    RealSelected(pad, past, pad + |toks| - past, i);
  }

  // ----- a batched stage -----

  /** One batched call: each row on its own cache, positions and mask. */
  function RowCall(stage: Stage, cache: Cache, hidden: seq<Hidden>, ps: seq<int>, attn: seq<bool>): (p: Pass)
    requires stage.Valid() && |cache| == |stage.net.layers| && |ps| == |hidden|
    ensures |p.hidden| == |hidden| && |p.cache| == |cache|
  {
    RunLayers(stage.net, stage.first, stage.last, cache, hidden, ps,
              PaddedRows(SeqLength(cache), |hidden|, attn))
  }

  /** The row's cache stands at `toks` behind `pad` padding slots. */
  ghost predicate RowHolds(stage: Stage, cache: Cache, pad: nat, toks: seq<Token>)
  {
    stage.Valid() && Caches(stage.net, stage.first, stage.last, cache, RowLabels(pad, toks))
  }

  /** A batched call takes a row from the first `past` of its slots to all of them. */
  lemma RowCallHolds(stage: Stage, cache: Cache, hidden: seq<Hidden>, ps: seq<int>, pad: nat,
                     toks: seq<Token>, past: nat)
    requires stage.Valid() && past <= pad + |toks|
    requires Caches(stage.net, stage.first, stage.last, cache, RowLabels(pad, toks)[..past])
    requires Queries(stage.net, stage.first, hidden, ps, RowLabels(pad, toks)[past..])
    ensures var p := RowCall(stage, cache, hidden, ps, LeftMask(pad, |toks|));
            && Queries(stage.net, stage.last, p.hidden, ps, RowLabels(pad, toks)[past..])
            && RowHolds(stage, p.cache, pad, toks)
  {
    hide RowLabels, MasksChains, PaddedRows, RowChains, Queries, Labelled, LeftMask;
    var net, s, e, lab := stage.net, stage.first, stage.last, RowLabels(pad, toks);
    assert |hidden| == |lab| - past by { QueryCount(net, s, hidden, ps, lab[past..]); }
    if s < e {
      LabelledLength(stage.net, stage.first, stage.last, cache, lab[..past]);
      PaddedMasksChains(pad, toks, past);
      assert lab[..past] + lab[past..] == lab;
      PassOnLabels(net, s, e, cache, lab[..past], hidden, ps,
                   PaddedRows(past, |hidden|, LeftMask(pad, |toks|)), lab[past..],
                   RowChains(pad, past, |hidden|));
    }
  }

  class BatchStage {
    const stage: Stage
    /** Per batch id, one cache per row. */
    var batches: map<nat, seq<Cache>>

    constructor (stage: Stage)
      ensures this.stage == stage && batches == map[]
    {
      this.stage, batches := stage, map[];
    }

    /** Every row of the batch stands at the first `past` slots of its labels. */
    ghost predicate Holds(id: nat, pads: seq<nat>, toks: seq<seq<Token>>, past: nat)
      reads this
    {
      && stage.Valid() && id in batches && |batches[id]| == |pads| == |toks|
      && forall b :: 0 <= b < |pads| ==> RowAt(batches[id][b], pads[b], toks[b], past)
    }

    ghost predicate RowAt(cache: Cache, pad: nat, toks: seq<Token>, past: nat)
    {
      && stage.Valid() && past <= pad + |toks|
      && Caches(stage.net, stage.first, stage.last, cache, RowLabels(pad, toks)[..past])
    }

    /** BATCH_ACTIVATION: position 0 begins a fresh batch. */
    method BatchActivation(id: nat, pos: nat, hidden: seq<seq<Hidden>>, ps: seq<seq<int>>, attn: seq<seq<bool>>,
                           ghost pads: seq<nat>, ghost toks: seq<seq<Token>>, ghost past: nat)
      returns (out: seq<seq<Hidden>>)
      requires stage.Valid() && |hidden| == |ps| == |attn| == |pads| == |toks|
      requires forall b :: 0 <= b < |pads| ==> past <= pads[b] + |toks[b]| && attn[b] == LeftMask(pads[b], |toks[b]|)
      requires if pos == 0 then past == 0 else Holds(id, pads, toks, past)
      requires forall b :: 0 <= b < |pads| ==>
        Queries(stage.net, stage.first, hidden[b], ps[b], RowLabels(pads[b], toks[b])[past..])
      modifies this
      ensures |out| == |hidden|
      ensures id in batches && |batches[id]| == |pads|
      ensures forall b :: 0 <= b < |pads| ==> RowHolds(stage, batches[id][b], pads[b], toks[b])
      ensures forall b :: 0 <= b < |pads| ==>
        Queries(stage.net, stage.last, out[b], ps[b], RowLabels(pads[b], toks[b])[past..])
    {
      var caches := if id in batches && pos != 0 then batches[id]
                    else seq(|hidden|, _ => Empty(|stage.net.layers|));
      out := [];
      ghost var was := caches;
      for b := 0 to |hidden|
        invariant |out| == b && |caches| == |hidden|
        invariant forall c :: b <= c < |hidden| ==> caches[c] == was[c]
        invariant forall c :: 0 <= c < b ==> RowHolds(stage, caches[c], pads[c], toks[c])
        invariant forall c :: 0 <= c < b ==>
          Queries(stage.net, stage.last, out[c], ps[c], RowLabels(pads[c], toks[c])[past..])
      {
        if pos == 0 {
          FreshRow(stage, pads[b], toks[b]);
        } else {
          assert RowAt(was[b], pads[b], toks[b], past);
        }
        RowCallHolds(stage, caches[b], hidden[b], ps[b], pads[b], toks[b], past);
        var p := RowCall(stage, caches[b], hidden[b], ps[b], attn[b]);
        caches := caches[b := p.cache];
        out := out + [p.hidden];
      }
      batches := batches[id := caches];
    }

    method Free(id: nat)
      modifies this
      ensures batches == old(batches) - {id}
    {
      batches := batches - {id};
    }
  }

  lemma FreshRow(stage: Stage, pad: nat, toks: seq<Token>)
    requires stage.Valid()
    ensures Caches(stage.net, stage.first, stage.last, Empty(|stage.net.layers|), RowLabels(pad, toks)[..0])
  {
  }

  // ----- the batched decode loop -----

  function MaxLen(prompts: seq<seq<Token>>): (m: nat)
    ensures forall b :: 0 <= b < |prompts| ==> |prompts[b]| <= m
  {
    if prompts == [] then 0 else
      var n, m := |prompts[|prompts| - 1]|, MaxLen(prompts[..|prompts| - 1]);
      if n < m then m else n
  }

  /** Some prompt is that long. */
  lemma {:induction false} MaxLenReached(prompts: seq<seq<Token>>)
    ensures prompts != [] ==> exists b :: 0 <= b < |prompts| && |prompts[b]| == MaxLen(prompts)
  {
    var n := |prompts| - 1;
    if n > 0 && |prompts[n]| < MaxLen(prompts[..n]) {
      MaxLenReached(prompts[..n]);
      var b :| 0 <= b < n && |prompts[..n][b]| == MaxLen(prompts[..n]);
      assert |prompts[b]| == MaxLen(prompts);
    } else if n >= 0 {
      assert |prompts[n]| == MaxLen(prompts);
    }
  }

  function Largest(caps: seq<nat>): (m: nat)
    ensures forall b :: 0 <= b < |caps| ==> caps[b] <= m
  {
    if caps == [] then 0 else
      var n, m := caps[|caps| - 1], Largest(caps[..|caps| - 1]);
      if n < m then m else n
  }

  /** Where row `b` of the batch stands: its decode loop state and what it has emitted after `k`
      emission rounds. */
  ghost predicate RowState(net: Net, prompt: seq<Token>, cap: nat, stops: set<Token>, k: nat,
                           out: seq<Token>, done: bool)
  {
    prompt != [] &&
    if done then out == Cut(Greedy(net, prompt, cap), stops)
    else |out| == k <= cap && out == Greedy(net, prompt, k) && (forall t :: t in out ==> t !in stops)
         && (k > 0 ==> k < cap)
  }

  class BatchCoordinator {
    const net: Net
    const hosts: seq<BatchStage>
    ghost const cuts: seq<nat>
    const padToken: Token
    var nextBatch: nat

    constructor (net: Net, hosts: seq<BatchStage>, ghost cuts: seq<nat>, padToken: Token)
      ensures this.net == net && this.hosts == hosts && this.cuts == cuts && nextBatch == 0x8000_0000
    {
      this.net, this.hosts, this.cuts, this.padToken := net, hosts, cuts, padToken;
      nextBatch := 0x8000_0000;
    }

    ghost predicate Valid()
    {
      && Cuts(cuts, |net.layers|) && |hosts| == |cuts| - 1
      && (forall i :: 0 <= i < |hosts| ==> Is(hosts[i].stage, net, cuts[i], cuts[i + 1]))
      && forall i, j :: 0 <= i < j < |hosts| ==> hosts[i] != hosts[j]
    }

    /** On every stage, row `b` stands at `toks[b]` behind `pads[b]` padding slots. */
    ghost predicate BatchHolds(id: nat, pads: seq<nat>, toks: seq<seq<Token>>)
      reads hosts
    {
      |pads| == |toks| && forall i :: 0 <= i < |hosts| ==> HostHolds(hosts[i], id, pads, toks)
    }

    /** One batched relay through every stage. */
    method RelayBatch(id: nat, pos: nat, hidden: seq<seq<Hidden>>, ps: seq<seq<int>>, attn: seq<seq<bool>>,
                      ghost pads: seq<nat>, ghost before: seq<seq<Token>>, ghost toks: seq<seq<Token>>, ghost past: nat)
      returns (out: seq<seq<Hidden>>)
      requires Valid() && |hidden| == |ps| == |attn| == |pads| == |toks| == |before|
      requires forall b :: 0 <= b < |pads| ==> attn[b] == LeftMask(pads[b], |toks[b]|)
      requires forall b :: 0 <= b < |pads| ==>
        past <= pads[b] + |toks[b]| && Extends(pads[b], before[b], toks[b], pos, past)
      requires if pos == 0 then past == 0 else BatchHolds(id, pads, before)
      requires forall b :: 0 <= b < |pads| ==> Queries(net, 0, hidden[b], ps[b], RowLabels(pads[b], toks[b])[past..])
      modifies hosts
      ensures BatchHolds(id, pads, toks) && |out| == |hidden|
      ensures forall b :: 0 <= b < |pads| ==>
        Queries(net, |net.layers|, out[b], ps[b], RowLabels(pads[b], toks[b])[past..])
    {
      out := hidden;
      for i := 0 to |hosts|
        invariant |out| == |hidden|
        invariant forall j :: 0 <= j < i ==> HostHolds(hosts[j], id, pads, toks)
        invariant pos == 0 || forall j :: i <= j < |hosts| ==> HostHolds(hosts[j], id, pads, before)
        invariant forall b :: 0 <= b < |pads| ==>
          Queries(net, cuts[i], out[b], ps[b], RowLabels(pads[b], toks[b])[past..])
      {
        var host := hosts[i];
        assert Is(host.stage, net, cuts[i], cuts[i + 1]);
        if pos != 0 {
          HostReady(host, id, pads, before, toks, pos, past);
        }
        assert forall j :: 0 <= j < |hosts| && j != i ==> hosts[j] != host;
        out := host.BatchActivation(id, pos, out, ps, attn, pads, toks, past);
      }
    }

    /** Left-pad the prompts to a common length, with their 2D masks. */
    method BatchInputs(prompts: seq<seq<Token>>) returns (ids: seq<seq<Token>>, attn: seq<seq<bool>>, ghost pads: seq<nat>)
      ensures |ids| == |attn| == |prompts|
      ensures forall b :: 0 <= b < |prompts| ==>
        && |prompts[b]| <= MaxLen(prompts)
        && PaddedInput(prompts[b], ids[b], attn[b], MaxLen(prompts) - |prompts[b]|)
      ensures |pads| == |prompts| && forall b :: 0 <= b < |prompts| ==> pads[b] == MaxLen(prompts) - |prompts[b]|
      ensures prompts != [] ==> exists b :: 0 <= b < |prompts| && |prompts[b]| == MaxLen(prompts)
    {
      MaxLenReached(prompts);
      var p := MaxLen(prompts);
      ids, attn, pads := [], [], [];
      for b := 0 to |prompts|
        invariant |ids| == |attn| == |pads| == b
        invariant forall c :: 0 <= c < b ==> PaddedInput(prompts[c], ids[c], attn[c], pads[c])
        invariant forall c :: 0 <= c < b ==> pads[c] + |prompts[c]| == p
      {
        var d := p - |prompts[b]|;
        var pad := seq(d, _ => padToken);
        assert (pad + prompts[b])[d..] == prompts[b];
        ids := ids + [pad + prompts[b]];
        attn := attn + [LeftMask(d, |prompts[b]|)];
        pads := pads + [d];
      }
    }

    /** Emit row `b`'s current token unless the row is finished; say whether it now is. */
    method EmitRow(out0: seq<Token>, done0: bool, nxt: Token, cap: nat, stops: set<Token>,
                   ghost prompt: seq<Token>, ghost k: nat)
      returns (out: seq<Token>, done: bool)
      requires RowState(net, prompt, cap, stops, k, out0, done0)
      requires !done0 ==> nxt == Next(net, prompt + out0)
      ensures RowState(net, prompt, cap, stops, k + 1, out, done)
      ensures out == out0 || out == out0 + [nxt]
    {
      hide Greedy, Cut;
      out, done := out0, done0;
      if done || |out| >= cap {
        if !done {
          StoppedGreedy(net, prompt, stops, cap, out);
        }
        return out, true;
      }
      if nxt in stops {
        StoppedGreedy(net, prompt, stops, cap, out);
        return out, true;
      }
      GreedySnoc(net, prompt, out, nxt);
      out := out + [nxt];
      if |out| >= cap {
        StoppedGreedy(net, prompt, stops, cap, out);
        done := true;
      }
    }

    /** Embed the rows of a batch. */
    function EmbedRows(ids: seq<seq<Token>>): (hs: seq<seq<Hidden>>)
      ensures |hs| == |ids| && forall b :: 0 <= b < |ids| ==> hs[b] == Embedded(net, ids[b])
    {
      seq(|ids|, b requires 0 <= b < |ids| => Embedded(net, ids[b]))
    }

    /** The token each row chooses at its last position. */
    method ChooseLast(out: seq<seq<Hidden>>, ghost ps: seq<seq<int>>, ghost pads: seq<nat>,
                      ghost toks: seq<seq<Token>>, ghost past: nat) returns (nxt: seq<Token>)
      requires |out| == |ps| == |pads| == |toks|
      requires forall b :: 0 <= b < |toks| ==> past < pads[b] + |toks[b]| && toks[b] != []
      requires forall b :: 0 <= b < |toks| ==>
        Queries(net, |net.layers|, out[b], ps[b], RowLabels(pads[b], toks[b])[past..])
      ensures |nxt| == |out| && forall b :: 0 <= b < |toks| ==> nxt[b] == Next(net, toks[b])
    {
      nxt := [];
      for b := 0 to |out|
        invariant |nxt| == b && forall c :: 0 <= c < b ==> nxt[c] == Next(net, toks[c])
      {
        LastQuery(net, out[b], ps[b], pads[b], toks[b], past);
        nxt := nxt + [net.choose(out[b][|out[b]| - 1])];
      }
    }

    ghost predicate AllAtStep(prompts: seq<seq<Token>>, toks: seq<seq<Token>>, nxt: seq<Token>, k: nat)
    {
      |nxt| == |toks| == |prompts| && forall b :: 0 <= b < |prompts| ==> AtStep(net, prompts[b], toks[b], nxt[b], k)
    }

    ghost predicate AllRows(prompts: seq<seq<Token>>, caps: seq<nat>, stops: set<Token>, k: nat,
                            outs: seq<seq<Token>>, done: seq<bool>)
    {
      && |outs| == |done| == |caps| == |prompts|
      && forall b :: 0 <= b < |prompts| ==> RowState(net, prompts[b], caps[b], stops, k, outs[b], done[b])
    }

    lemma RowsStart(prompts: seq<seq<Token>>, caps: seq<nat>, stops: set<Token>)
      requires |prompts| == |caps| && forall b :: 0 <= b < |prompts| ==> prompts[b] != []
      ensures AllRows(prompts, caps, stops, 0, seq(|prompts|, _ => []), seq(|prompts|, _ => false))
    {
      hide RowState;
      forall b | 0 <= b < |prompts| ensures RowState(net, prompts[b], caps[b], stops, 0, [], false) {
        RowStart(net, prompts[b], caps[b], stops);
      }
    }

    lemma RowsFinished(prompts: seq<seq<Token>>, caps: seq<nat>, stops: set<Token>, k: nat,
                       outs: seq<seq<Token>>, done: seq<bool>)
      requires AllRows(prompts, caps, stops, k, outs, done)
      requires (forall b :: 0 <= b < |prompts| ==> prompts[b] != []) && k > 0
      requires k >= Largest(caps) || forall b :: 0 <= b < |done| ==> done[b]
      ensures forall b :: 0 <= b < |prompts| ==> outs[b] == Cut(Greedy(net, prompts[b], caps[b]), stops)
    {
      hide RowState, Greedy, Cut, Largest;
      forall b | 0 <= b < |prompts| ensures outs[b] == Cut(Greedy(net, prompts[b], caps[b]), stops) {
        RowFinished(net, prompts[b], caps[b], stops, k, outs[b], done[b]);
      }
    }

    /** Emit every row's current token once. */
    method EmitAll(outs0: seq<seq<Token>>, done0: seq<bool>, nxt: seq<Token>, caps: seq<nat>, stops: set<Token>,
                   ghost prompts: seq<seq<Token>>, ghost toks: seq<seq<Token>>, ghost k: nat)
      returns (outs: seq<seq<Token>>, done: seq<bool>)
      requires AllAtStep(prompts, toks, nxt, k) && AllRows(prompts, caps, stops, k, outs0, done0)
      ensures AllRows(prompts, caps, stops, k + 1, outs, done)
    {
      outs, done := [], [];
      for b := 0 to |nxt|
        invariant |outs| == |done| == b
        invariant forall c :: 0 <= c < b ==> RowState(net, prompts[c], caps[c], stops, k + 1, outs[c], done[c])
      {
        assert AtStep(net, prompts[b], toks[b], nxt[b], k);
        assert RowState(net, prompts[b], caps[b], stops, k, outs0[b], done0[b]);
        var o, d := EmitRow(outs0[b], done0[b], nxt[b], caps[b], stops, prompts[b], k);
        outs, done := outs + [o], done + [d];
      }
    }

    /** One decode step: feed every row its own next token, finished or not. */
    method Step(id: nat, step: nat, nxt: seq<Token>, lengths: seq<nat>, attn: seq<seq<bool>>,
                ghost pads: seq<nat>, ghost toks: seq<seq<Token>>, ghost past: nat)
      returns (nxt': seq<Token>, lengths': seq<nat>, attn': seq<seq<bool>>, ghost toks': seq<seq<Token>>)
      requires Valid() && |nxt| == |lengths| == |attn| == |pads| == |toks| && BatchHolds(id, pads, toks)
      requires forall b :: 0 <= b < |toks| ==>
        past == pads[b] + |toks[b]| && lengths[b] == |toks[b]| && attn[b] == LeftMask(pads[b], |toks[b]|)
      modifies hosts
      ensures |nxt'| == |lengths'| == |attn'| == |toks'| == |toks| && BatchHolds(id, pads, toks')
      ensures forall b :: 0 <= b < |toks| ==> toks'[b] == toks[b] + [nxt[b]] && nxt'[b] == Next(net, toks'[b])
      ensures forall b :: 0 <= b < |toks| ==>
        past + 1 == pads[b] + |toks'[b]| && lengths'[b] == |toks'[b]| && attn'[b] == LeftMask(pads[b], |toks'[b]|)
    {
      var n := |nxt|;
      attn' := seq(n, b requires 0 <= b < n => attn[b] + [true]);
      toks' := seq(n, b requires 0 <= b < n => toks[b] + [nxt[b]]);
      var ids := seq(n, b requires 0 <= b < n => [nxt[b]]);
      var ps := seq(n, b requires 0 <= b < n => [lengths[b] as int]);
      var hidden := EmbedRows(ids);
      forall b | 0 <= b < n
        ensures attn'[b] == LeftMask(pads[b], |toks'[b]|)
        ensures past <= pads[b] + |toks'[b]| && Extends(pads[b], toks[b], toks'[b], step + 1, past)
        ensures Queries(net, 0, hidden[b], ps[b], RowLabels(pads[b], toks'[b])[past..])
      {
        StepQuery(net, pads[b], toks[b], nxt[b]);
      }
      var out := RelayBatch(id, step + 1, hidden, ps, attn', pads, toks, toks', past);
      nxt' := ChooseLast(out, ps, pads, toks', past);
      lengths' := seq(n, b requires 0 <= b < n => lengths[b] + 1);
    }

    /** Where the whole batch stands after `step` decode steps: every stage holds every row's tokens
        behind its padding, and every row is in step with greedy decoding of its own prompt. */
    ghost predicate BatchState(id: nat, prompts: seq<seq<Token>>, pads: seq<nat>, toks: seq<seq<Token>>,
                               nxt: seq<Token>, lengths: seq<nat>, attn: seq<seq<bool>>, step: nat, width: nat)
      reads hosts
    {
      && |nxt| == |lengths| == |attn| == |pads| == |toks| == |prompts| && BatchHolds(id, pads, toks)
      && (forall b :: 0 <= b < |prompts| ==> InShape(pads[b], toks[b], lengths[b], attn[b], width + step))
      && AllAtStep(prompts, toks, nxt, step)
    }

    method StepState(id: nat, step: nat, nxt: seq<Token>, lengths: seq<nat>, attn: seq<seq<bool>>,
                     ghost prompts: seq<seq<Token>>, ghost pads: seq<nat>, ghost toks: seq<seq<Token>>, ghost width: nat)
      returns (nxt': seq<Token>, lengths': seq<nat>, attn': seq<seq<bool>>, ghost toks': seq<seq<Token>>)
      requires Valid() && BatchState(id, prompts, pads, toks, nxt, lengths, attn, step, width)
      modifies hosts
      ensures BatchState(id, prompts, pads, toks', nxt', lengths', attn', step + 1, width)
    {
      hide AtStep, BatchHolds;
      forall b | 0 <= b < |toks|
        ensures width + step == pads[b] + |toks[b]| && lengths[b] == |toks[b]| && attn[b] == LeftMask(pads[b], |toks[b]|)
      {
        assert InShape(pads[b], toks[b], lengths[b], attn[b], width + step);
      }
      nxt', lengths', attn', toks' := Step(id, step, nxt, lengths, attn, pads, toks, width + step);
      forall b | 0 <= b < |toks| ensures AtStep(net, prompts[b], toks'[b], nxt'[b], step + 1) {
        NextStep(net, prompts[b], toks[b], nxt[b], nxt'[b], step);
      }
    }

    /** Batched decoding is exact per row: whatever prompts share the batch, however they are padded,
        and however long finished rows ride along, each row emits what greedy decoding of its prompt
        alone emits under its own cap. */
    method GenerateBatch(prompts: seq<seq<Token>>, caps: seq<nat>, stops: set<Token>) returns (outs: seq<seq<Token>>)
      requires Valid() && |prompts| == |caps| > 0 && forall b :: 0 <= b < |prompts| ==> prompts[b] != []
      modifies this`nextBatch, hosts
      ensures |outs| == |prompts|
      ensures forall b :: 0 <= b < |prompts| ==> outs[b] == Cut(Greedy(net, prompts[b], caps[b]), stops)
      ensures nextBatch == old(nextBatch) + 1
      ensures forall i :: 0 <= i < |hosts| ==> old(nextBatch) !in hosts[i].batches
    {
      hide Valid, AllRows, BatchHolds, InShape, AllAtStep, Greedy, Cut, Largest;
      var id, n := nextBatch, |prompts|;
      nextBatch := nextBatch + 1;
      var nxt, lengths, attn, pads := PrefillBatch(id, prompts);
      ghost var toks, width := prompts, MaxLen(prompts);
      outs := seq(n, _ => []);
      var done := seq(n, _ => false);
      RowsStart(prompts, caps, stops);
      outs, done := EmitAll(outs, done, nxt, caps, stops, prompts, toks, 0);
      var step := 0;
      while step + 1 < Largest(caps) && exists b :: 0 <= b < |done| && !done[b]
        invariant nextBatch == old(nextBatch) + 1
        invariant Valid() && BatchState(id, prompts, pads, toks, nxt, lengths, attn, step, width)
        invariant AllRows(prompts, caps, stops, step + 1, outs, done)
        decreases Largest(caps) - step
      {
        nxt, lengths, attn, toks := StepState(id, step, nxt, lengths, attn, prompts, pads, toks, width);
        outs, done := EmitAll(outs, done, nxt, caps, stops, prompts, toks, step + 1);
        step := step + 1;
      }
      SameLength(prompts, caps, stops, step + 1, outs, done);
      RowsFinished(prompts, caps, stops, step + 1, outs, done);
      FreeBatch(id);
    }

    lemma SameLength(prompts: seq<seq<Token>>, caps: seq<nat>, stops: set<Token>, k: nat,
                     outs: seq<seq<Token>>, done: seq<bool>)
      requires AllRows(prompts, caps, stops, k, outs, done)
      ensures |outs| == |done| == |prompts|
    {
    }

    /** Free a finished batch's caches on every stage. */
    method FreeBatch(id: nat)
      modifies hosts
      ensures forall i :: 0 <= i < |hosts| ==> hosts[i].batches == old(hosts[i].batches) - {id}
    {
      for i := 0 to |hosts|
        invariant forall j :: 0 <= j < |hosts| ==>
                    || hosts[j].batches == old(hosts[j].batches) - {id}
                    || (j >= i && hosts[j].batches == old(hosts[j].batches))
      {
        hosts[i].Free(id);
      }
    }

    /** Prefill the padded batch and take every row's first token. */
    method PrefillBatch(id: nat, prompts: seq<seq<Token>>)
      returns (nxt: seq<Token>, lengths: seq<nat>, attn: seq<seq<bool>>, ghost pads: seq<nat>)
      requires Valid() && prompts != [] && forall b :: 0 <= b < |prompts| ==> prompts[b] != []
      modifies hosts
      ensures BatchState(id, prompts, pads, prompts, nxt, lengths, attn, 0, MaxLen(prompts))
    {
      hide RowLabels, Queries, BatchHolds, MaskPositions;
      var n := |prompts|;
      var ids;
      ids, attn, pads := BatchInputs(prompts);
      var ps := seq(n, b requires 0 <= b < n => MaskPositions(attn[b]));
      var hidden := EmbedRows(ids);
      forall b | 0 <= b < n
        ensures attn[b] == LeftMask(pads[b], |prompts[b]|)
        ensures Extends(pads[b], prompts[b], prompts[b], 0, 0)
        ensures Queries(net, 0, hidden[b], ps[b], RowLabels(pads[b], prompts[b])[0..])
        ensures CountTrue(attn[b]) == |prompts[b]|
      {
        assert PaddedInput(prompts[b], ids[b], attn[b], pads[b]);
        PrefillQueries(net, prompts[b], ids[b], pads[b]);
        CountLeftMask(pads[b], |prompts[b]|, |attn[b]|);
        assert attn[b][..|attn[b]|] == attn[b];
      }
      var out := RelayBatch(id, 0, hidden, ps, attn, pads, prompts, prompts, 0);
      nxt := ChooseLast(out, ps, pads, prompts, 0);
      lengths := seq(n, b requires 0 <= b < n => CountTrue(attn[b]));
      forall b | 0 <= b < n ensures AtStep(net, prompts[b], prompts[b], nxt[b], 0) {
        AtStart(net, prompts[b], nxt[b]);
      }
    }
  }

  /** A row's bookkeeping: its padded width, length and 2D mask. */
  ghost predicate InShape(pad: nat, toks: seq<Token>, length: nat, attn: seq<bool>, width: nat)
  {
    width == pad + |toks| && length == |toks| && attn == LeftMask(pad, |toks|)
  }

  lemma RowStart(net: Net, prompt: seq<Token>, cap: nat, stops: set<Token>)
    requires prompt != []
    ensures RowState(net, prompt, cap, stops, 0, [], false)
  {
  }

  /** A row that is finished, or has emitted as often as its cap allows, has emitted its answer. */
  lemma RowFinished(net: Net, prompt: seq<Token>, cap: nat, stops: set<Token>, k: nat,
                    out: seq<Token>, done: bool)
    requires RowState(net, prompt, cap, stops, k, out, done) && k > 0 && (done || cap <= k)
    ensures out == Cut(Greedy(net, prompt, cap), stops)
  {
  }

  /** Row `b` has been fed its first `k` greedy tokens and holds the next. */
  ghost predicate AtStep(net: Net, prompt: seq<Token>, toks: seq<Token>, nxt: Token, k: nat)
  {
    prompt != [] && toks == prompt + Greedy(net, prompt, k) && nxt == Next(net, toks)
  }

  lemma AtStart(net: Net, prompt: seq<Token>, nxt: Token)
    requires prompt != [] && nxt == Next(net, prompt)
    ensures AtStep(net, prompt, prompt, nxt, 0) && Greedy(net, prompt, 0) == []
  {
    assert prompt + [] == prompt;
  }

  lemma NextStep(net: Net, prompt: seq<Token>, toks: seq<Token>, fed: Token, nxt: Token, k: nat)
    requires AtStep(net, prompt, toks, fed, k) && nxt == Next(net, toks + [fed])
    ensures AtStep(net, prompt, toks + [fed], nxt, k + 1)
  {
    GreedySnoc(net, prompt, Greedy(net, prompt, k), fed);
    assert prompt + (Greedy(net, prompt, k) + [fed]) == toks + [fed];
  }

  lemma QueryCount(net: Net, k: nat, hs: seq<Hidden>, ps: seq<int>, news: seq<Label>)
    requires k <= |net.layers| && Queries(net, k, hs, ps, news)
    ensures |hs| == |news|
  {
  }

  lemma LastQuery(net: Net, out: seq<Hidden>, ps: seq<int>, pad: nat, toks: seq<Token>, past: nat)
    requires past < pad + |toks| && toks != []
    requires Queries(net, |net.layers|, out, ps, RowLabels(pad, toks)[past..])
    ensures out != [] && net.choose(out[|out| - 1]) == Next(net, toks)
  {
    var news := RowLabels(pad, toks)[past..];
    assert news[|news| - 1] == toks[..|toks|] == toks;
  }

  lemma StepQuery(net: Net, pad: nat, toks: seq<Token>, nxt: Token)
    ensures LeftMask(pad, |toks|) + [true] == LeftMask(pad, |toks| + 1)
    ensures Queries(net, 0, Embedded(net, [nxt]), [|toks|], RowLabels(pad, toks + [nxt])[pad + |toks|..])
  {
    assert RowLabels(pad, toks + [nxt])[pad + |toks|..] == [toks + [nxt]] by {
      assert (toks + [nxt])[..|toks| + 1] == toks + [nxt];
    }
  }

  /** The padded prompt's rows are queries for the prompt's prefixes, at the mask's positions. */
  lemma PrefillQueries(net: Net, prompt: seq<Token>, ids: seq<Token>, pad: nat)
    requires |ids| == pad + |prompt| && ids[pad..] == prompt
    ensures Queries(net, 0, Embedded(net, ids), MaskPositions(LeftMask(pad, |prompt|)), RowLabels(pad, prompt)[0..])
  {
    var news := RowLabels(pad, prompt)[0..];
    forall i | 0 <= i < |news| && news[i] != []
      ensures Embedded(net, ids)[i] == Hid(net, 0, news[i])
      ensures MaskPositions(LeftMask(pad, |prompt|))[i] == |news[i]| - 1
    {
      CountLeftMask(pad, |prompt|, i + 1);
      assert news[i] == prompt[..i - pad + 1];
      assert ids[i] == ids[pad..][i - pad];
    }
  }

  /** The padded form of a prompt. */
  predicate PaddedInput(prompt: seq<Token>, ids: seq<Token>, attn: seq<bool>, pad: nat)
  {
    |ids| == pad + |prompt| && ids[pad..] == prompt && attn == LeftMask(pad, |prompt|)
  }

  /** `toks` extends `before`, whose slots are the first `past` of the row; a fresh batch has none. */
  ghost predicate Extends(pad: nat, before: seq<Token>, toks: seq<Token>, pos: nat, past: nat)
  {
    past <= pad + |toks| && before <= toks && (if pos == 0 then past == 0 else past == pad + |before|)
  }

  ghost predicate HostHolds(host: BatchStage, id: nat, pads: seq<nat>, toks: seq<seq<Token>>)
    requires |pads| == |toks|
    reads host
  {
    && id in host.batches && |host.batches[id]| == |pads|
    && forall b :: 0 <= b < |pads| ==> RowHolds(host.stage, host.batches[id][b], pads[b], toks[b])
  }

  lemma HostReady(host: BatchStage, id: nat, pads: seq<nat>, before: seq<seq<Token>>, toks: seq<seq<Token>>,
                  pos: nat, past: nat)
    requires host.stage.Valid() && |pads| == |before| == |toks| && pos != 0
    requires HostHolds(host, id, pads, before)
    requires forall b :: 0 <= b < |pads| ==> Extends(pads[b], before[b], toks[b], pos, past)
    ensures host.Holds(id, pads, toks, past)
  {
    forall b | 0 <= b < |pads| ensures host.RowAt(host.batches[id][b], pads[b], toks[b], past) {
      assert RowHolds(host.stage, host.batches[id][b], pads[b], before[b]);
      assert Extends(pads[b], before[b], toks[b], pos, past);
      RowLabelsPrefix(pads[b], before[b], toks[b]);
    }
  }

  lemma RowLabelsPrefix(pad: nat, before: seq<Token>, toks: seq<Token>)
    requires before <= toks
    ensures RowLabels(pad, toks)[..pad + |before|] == RowLabels(pad, before)
  {
    forall i | 0 <= i < pad + |before|
      ensures RowLabels(pad, toks)[i] == RowLabels(pad, before)[i]
    {
      if i >= pad {
        assert toks[..i - pad + 1] == before[..i - pad + 1];
      }
    }
  }
}
