/** Greedy speculative decoding: a draft proposes, the target verifies a whole block in one pass,
    the agreed prefix and one corrected token are committed, the rest is rolled back. */
module SpecDecode {
  import opened Wrappers
  import opened Model
  import opened Attention
  import opened KV
  import opened Stages
  import opened Coordinators
  import opened Targets

  // ----- the draft -----

  /** A whole model run greedily with its own cache; `perturb` may replace any proposal. */
  class GreedyDraft {
    const net: Net
    const cache: StageKV
    ghost var toks: seq<Token>

    ghost predicate Valid()
      reads this, cache
    {
      |net.layers| > 0 && Holds(net, 0, |net.layers|, cache.layers, toks)
    }

    constructor (net: Net)
      requires |net.layers| > 0
      ensures Valid() && toks == [] && this.net == net && fresh(cache)
    {
      this.net, this.toks := net, [];
      cache := new StageKV(|net.layers|);
    }

    /** Run the model on `ids` at the end of the cache. */
    method Run(ids: seq<Token>) returns (hidden: seq<Hidden>)
      requires Valid()
      modifies this, cache
      ensures Valid() && toks == old(toks) + ids && hidden == Rows(net, |net.layers|, old(toks), ids)
    {
      var whole := Stage(net, 0, |net.layers|);
      var start := cache.GetSeqLength();
      HeldLength(net, 0, |net.layers|, cache.layers, toks);
      EmbeddedRows(net, toks, ids);
      CausalCallHolds(whole, cache.layers, toks, ids);
      hidden := whole.Forward(Embedded(net, ids), Positions(start, |ids|), cache, None);
      toks := toks + ids;
    }

    /** `K` proposals below `head`; the last one is run too, so that the draft's cache grows by
        exactly the block the target verifies. */
    method Propose(head: Token, K: nat, startPos: nat, perturb: (nat, Token) -> Token)
      returns (props: seq<Token>)
      requires Valid() && startPos == |toks|
      modifies this, cache
      ensures Valid() && |props| == K && toks == old(toks) + [head] + props
      ensures props == Proposals(net, old(toks) + [head], K, perturb)
    {
      hide Rows;
      var length := cache.GetSeqLength();
      HeldLength(net, 0, |net.layers|, cache.layers, toks);
      assert length == startPos;
      props := [];
      var cur := head;
      for i := 0 to K
        invariant Valid() && |props| == i
        invariant toks + [cur] == old(toks) + [head] + props
        invariant props == Proposals(net, old(toks) + [head], i, perturb)
      {
        ghost var was := toks;
        var hidden := Run([cur]);
        OneRow(net, was, cur, hidden);
        var nxt := perturb(i, net.choose(hidden[0]));
        props := props + [nxt];
        cur := nxt;
      }
      var _ := Run([cur]);
    }

    method Rollback(length: nat)
      requires Valid() && length <= |toks|
      modifies this, cache
      ensures Valid() && toks == old(toks)[..length]
    {
      TruncateHolds(net, 0, |net.layers|, cache.layers, toks, length);
      cache.TruncateTo(length);
      toks := toks[..length];
    }
  }

  /** What a draft proposes behind `toks`: its own choice each time, given what it has proposed, unless it is
      perturbed. */
  function Proposals(net: Net, toks: seq<Token>, K: nat, perturb: (nat, Token) -> Token): (props: seq<Token>)
    requires toks != []
    ensures |props| == K
  {
    if K == 0 then [] else
      var before := Proposals(net, toks, K - 1, perturb);
      before + [perturb(K - 1, Next(net, toks + before))]
  }

  lemma OneRow(net: Net, toks: seq<Token>, t: Token, hidden: seq<Hidden>)
    requires hidden == Rows(net, |net.layers|, toks, [t])
    ensures |hidden| == 1 && net.choose(hidden[0]) == Next(net, toks + [t])
  {
    assert [t][..1] == [t];
  }

  /** How many of its proposals the target chooses itself. */
  function Accepts(net: Net, draft: Net, seen: seq<Token>, K: nat, perturb: (nat, Token) -> Token): (m: nat)
    requires seen != []
    ensures m <= K
  {
    Common(Proposals(draft, seen, K, perturb), Greedy(net, seen, K))
  }

  /** A model that drafts for itself, unperturbed, proposes what the target chooses. */
  lemma {:induction false} SelfProposals(net: Net, toks: seq<Token>, K: nat, perturb: (nat, Token) -> Token)
    requires toks != [] && forall i, t :: perturb(i, t) == t
    ensures Proposals(net, toks, K, perturb) == Greedy(net, toks, K)
    decreases K
  {
    if K == 0 {
      NoTokens(net, toks);
    } else {
      SelfProposals(net, toks, K - 1, perturb);
      var before := Greedy(net, toks, K - 1);
      GreedySnoc(net, toks, before, Next(net, toks + before));
    }
  }

  lemma SelfAccepts(net: Net, seen: seq<Token>, K: nat, perturb: (nat, Token) -> Token)
    requires seen != [] && forall i, t :: perturb(i, t) == t
    ensures Accepts(net, net, seen, K, perturb) == K
  {
    hide Greedy, Proposals;
    SelfProposals(net, seen, K, perturb);
    var g := Greedy(net, seen, K);
    OneCommon(g, g, K);
  }

  /** The rounds of a decode that has seen `seen` and may emit `left` more tokens, and the drafts they
      accept: each round commits what it accepts and one more, until there is no room or an end-of-sequence
      token. */
  function Tally(net: Net, draft: Net, seen: seq<Token>, left: nat, eos: set<Token>, K: nat,
                 perturb: (nat, Token) -> Token): (t: (nat, nat))
    requires seen != []
    decreases left
  {
    if left == 0 then (0, 0) else
      var m := Accepts(net, draft, seen, K, perturb);
      var block := Greedy(net, seen, m + 1);
      if left <= m + 1 || exists i :: 0 <= i < |block| && block[i] in eos then (1, m) else
        var rest := Tally(net, draft, seen + block, left - (m + 1), eos, K, perturb);
        (1 + rest.0, m + rest.1)
  }

  /** A model that drafts for itself has every proposal accepted, so that no round is wasted. */
  lemma {:induction false} SelfDraftAcceptsAll(net: Net, seen: seq<Token>, left: nat, K: nat, perturb: (nat, Token) -> Token)
    requires seen != [] && forall i, t :: perturb(i, t) == t
    ensures var t := Tally(net, net, seen, left, {}, K, perturb);
            t.1 == t.0 * K && (if left == 0 then t.0 == 0 else (t.0 - 1) * (K + 1) < left <= t.0 * (K + 1))
    decreases left
  {
    hide Greedy, Accepts;
    if left > 0 {
      SelfAccepts(net, seen, K, perturb);
      if left > K + 1 {
        SelfDraftAcceptsAll(net, seen + Greedy(net, seen, K + 1), left - (K + 1), K, perturb);
        var rest := Tally(net, net, seen + Greedy(net, seen, K + 1), left - (K + 1), {}, K, perturb);
        OneRoundMore(rest.0, K);
        OneRoundMore(rest.0, K + 1);
        OneRoundMore(rest.0 - 1, K + 1);
      }
    }
  }

  /** After `rounds` rounds that accepted `accepted` drafts, what is left of the tally `all`. */
  ghost predicate OnTally(all: (nat, nat), rounds: nat, accepted: nat, net: Net, draft: Net, seen: seq<Token>, left: nat,
                          eos: set<Token>, K: nat, perturb: (nat, Token) -> Token)
    requires seen != []
  {
    var t := Tally(net, draft, seen, left, eos, K, perturb);
    all == (rounds + t.0, accepted + t.1)
  }

  lemma TallyStarts(net: Net, draft: Net, seen: seq<Token>, left: nat, eos: set<Token>, K: nat, perturb: (nat, Token) -> Token)
    requires seen != []
    ensures OnTally(Tally(net, draft, seen, left, eos, K, perturb), 0, 0, net, draft, seen, left, eos, K, perturb)
  {
  }

  lemma TallyEnds(all: (nat, nat), rounds: nat, accepted: nat, net: Net, draft: Net, seen: seq<Token>,
                  limit: nat, used: nat, eos: set<Token>, K: nat, perturb: (nat, Token) -> Token)
    requires seen != [] && limit <= used
    requires OnTally(all, rounds, accepted, net, draft, seen, Room(limit, used), eos, K, perturb)
    ensures all == (rounds, accepted)
  {
  }

  /** A round takes one off the rounds left; the last one all of them. */
  lemma TallyGoesOn(all: (nat, nat), rounds: nat, accepted: nat, net: Net, draft: Net, seen: seq<Token>, left: nat,
                    eos: set<Token>, K: nat, perturb: (nat, Token) -> Token, block: seq<Token>)
    requires seen != [] && OnTally(all, rounds, accepted, net, draft, seen, left, eos, K, perturb)
    requires left > 0 && block == Greedy(net, seen, |block|) && |block| == Accepts(net, draft, seen, K, perturb) + 1
    ensures if left <= |block| || exists i :: 0 <= i < |block| && block[i] in eos
            then all == (rounds + 1, accepted + |block| - 1)
            else OnTally(all, rounds + 1, accepted + |block| - 1, net, draft, seen + block, left - |block|, eos, K, perturb)
    ensures left <= |block| ==>
              OnTally(all, rounds + 1, accepted + |block| - 1, net, draft, seen + block, 0, eos, K, perturb)
  {
    hide Tally, Accepts, Greedy;
    TallyNext(net, draft, seen, left, eos, K, perturb, block);
    NoRoomNoRounds(net, draft, seen + block, eos, K, perturb);
  }

  lemma NoRoomNoRounds(net: Net, draft: Net, seen: seq<Token>, eos: set<Token>, K: nat, perturb: (nat, Token) -> Token)
    requires seen != []
    ensures Tally(net, draft, seen, 0, eos, K, perturb) == (0, 0)
  {
  }

  /** One round of a tally. */
  lemma TallyNext(net: Net, draft: Net, seen: seq<Token>, left: nat, eos: set<Token>, K: nat,
                  perturb: (nat, Token) -> Token, block: seq<Token>)
    requires seen != [] && left > 0 && block == Greedy(net, seen, |block|)
    requires |block| == Accepts(net, draft, seen, K, perturb) + 1
    ensures Tally(net, draft, seen, left, eos, K, perturb) ==
            if left <= |block| || exists i :: 0 <= i < |block| && block[i] in eos then (1, |block| - 1) else
              var rest := Tally(net, draft, seen + block, left - |block|, eos, K, perturb);
              (1 + rest.0, |block| - 1 + rest.1)
  {
    hide Greedy, Accepts;
  }

  lemma OneRoundMore(n: int, k: int)
    ensures (n + 1) * k == n * k + k
  {
  }

  // ----- statistics -----

  class SpecStats {
    var rounds: nat
    var accepted: nat
    var proposed: nat
    var window: Option<seq<(nat, nat)>>

    constructor ()
      ensures rounds == accepted == proposed == 0 && window == None
    {
      rounds, accepted, proposed, window := 0, 0, 0, None;
    }

    /** Record one verification round: `m` of `K` draft tokens accepted. */
    method Bump(m: nat, K: nat)
      modifies this
      ensures rounds == old(rounds) + 1 && accepted == old(accepted) + m && proposed == old(proposed) + K
      ensures window == match old(window) case None => None case Some(w) => Some(w + [(m, K)])
    {
      rounds, accepted, proposed := rounds + 1, accepted + m, proposed + K;
      if window.Some? {
        window := Some(window.value + [(m, K)]);
      }
    }
  }

  // ----- the loop -----

  /** The two models stand at the same tokens, one short of what has been committed. */
  ghost predicate InStep(target: Target, draft: GreedyDraft, head: Token, seen: seq<Token>)
    reads target, target.repr, draft, draft.cache
  {
    && target.Valid() && draft.Valid() && target.toks != []
    && target in target.repr && target.repr !! {draft, draft.cache}
    && target.toks == draft.toks && target.toks + [head] == seen
  }

  /** The length of the agreed prefix: the draft tokens the target chooses itself. */
  method Agreed(net: Net, hidden: seq<Hidden>, drafts: seq<Token>) returns (m: nat)
    requires |hidden| == |drafts| + 1
    ensures m <= |drafts| && forall j :: 0 <= j < m ==> net.choose(hidden[j]) == drafts[j]
    ensures m < |drafts| ==> net.choose(hidden[m]) != drafts[m]
  {
    m := 0;
    for j := 0 to |drafts|
      invariant m == j && forall i :: 0 <= i < j ==> net.choose(hidden[i]) == drafts[i]
    {
      if net.choose(hidden[j]) == drafts[j] {
        m := m + 1;
      } else {
        break;
      }
    }
  }

  /** The agreed drafts and the target's next choice are the next greedy tokens, whatever was
      proposed. */
  lemma AgreedIsGreedy(net: Net, kv: seq<Token>, head: Token, drafts: seq<Token>, m: nat)
    requires m <= |drafts|
    requires forall j :: 0 <= j < m ==>
      net.choose(Rows(net, |net.layers|, kv, [head] + drafts)[j]) == drafts[j]
    ensures drafts[..m] + [net.choose(Rows(net, |net.layers|, kv, [head] + drafts)[m])]
            == Greedy(net, kv + [head], m + 1)
  {
    var hidden := Rows(net, |net.layers|, kv, [head] + drafts);
    var ts := drafts[..m] + [net.choose(hidden[m])];
    forall j | 0 <= j < |ts| ensures ts[j] == Next(net, kv + [head] + ts[..j]) {
      assert ts[..j] == drafts[..j];
      assert kv + ([head] + drafts)[..j + 1] == kv + [head] + drafts[..j];
    }
    ChoicesAreGreedy(net, kv + [head], ts);
  }

  /** The agreed prefix is all that the drafts have in common with the greedy tokens. */
  lemma AgreedIsCommon(net: Net, seen: seq<Token>, drafts: seq<Token>, m: nat, extra: Token)
    requires seen != [] && m <= |drafts| && drafts[..m] + [extra] == Greedy(net, seen, m + 1)
    requires m < |drafts| ==> extra != drafts[m]
    ensures Common(drafts, Greedy(net, seen, |drafts|)) == m
  {
    var g := Greedy(net, seen, |drafts|);
    GreedyPrefix(net, seen, m, m + 1);
    GreedyPrefix(net, seen, m, |drafts|);
    assert (drafts[..m] + [extra])[..m] == drafts[..m];
    if m < |drafts| {
      GreedyPrefix(net, seen, m + 1, |drafts|);
      assert g[m] == g[..m + 1][m] == extra;
    }
    OneCommon(drafts, g, m);
  }

  /** Where a decode of `prompt` ended that did not return. */
  ghost predicate Stopped(target: Target, prompt: seq<Token>)
    reads target, target.repr
  {
    && target.Halted()
    && if target.toks == [] then target.backend.Socket? ==> target.backend.socket.block == prompt
       else prompt <= target.toks && (target.backend.Socket? && target.backend.socket.open ==> |prompt| <= target.backend.socket.cut)
  }

  /** In process, and where nothing is lost, nothing is raised.  A holder is left behind only on the live
      mesh, and there not in a star whose roll-backs are written. */
  ghost predicate EndsAs(target: Target, e: End)
  {
    (target.Heard() ==> !e.Raised?) && (e.Stranded? ==> target.backend.Live? && !target.Calm())
  }

  /** One round: propose, verify in one pass, commit the agreed prefix and the target's next
      choice, roll both caches back to what was committed. */
  method Round(target: Target, draft: GreedyDraft, head: Token, K: nat, pos: nat,
               perturb: (nat, Token) -> Token, ghost seen: seq<Token>)
    returns (e: End, committed: seq<Token>, extra: Token, keep: nat)
    requires InStep(target, draft, head, seen) && pos == |target.toks|
    modifies target.repr, draft, draft.cache
    ensures EndsAs(target, e)
    ensures e.Finished? ==>
              && |committed| == Accepts(target.net, draft.net, seen, K, perturb) + 1
              && committed[|committed| - 1] == extra
              && committed == Greedy(target.net, seen, |committed|)
              && keep == pos + |committed| == |target.toks|
              && InStep(target, draft, extra, seen + committed)
    ensures !e.Finished? ==> target.Halted() && old(target.toks) <= target.toks
    ensures !e.Finished? && target.backend.Socket? && target.backend.socket.open ==> pos < target.backend.socket.cut
  {
    hide Target.Valid, Target.Halted, GreedyDraft.Valid, Rows, Greedy, LastIsTrue, Accepts, Proposals;
    ghost var kv := target.toks;
    var drafts := draft.Propose(head, K, pos, perturb);
    var hidden := target.ForwardTokens([head] + drafts, pos);
    if hidden.None? {
      return Raised, [], head, pos;
    }
    var m := Agreed(target.net, hidden.value, drafts);
    extra := target.net.choose(hidden.value[m]);
    committed := drafts[..m] + [extra];
    keep := pos + m + 1;
    RoundCommits(target.net, draft.net, kv, head, drafts, hidden.value, m, K, perturb);
    KeptBlock(kv, head, drafts, m, extra);
    e := target.Rollback(keep);
    if e.Finished? {
      draft.Rollback(keep);
    }
  }

  /** What a round commits: the drafts the target chooses itself, all of them, and its own next choice. */
  lemma RoundCommits(net: Net, draft: Net, kv: seq<Token>, head: Token, drafts: seq<Token>, hidden: seq<Hidden>,
                     m: nat, K: nat, perturb: (nat, Token) -> Token)
    requires drafts == Proposals(draft, kv + [head], K, perturb) && m <= |drafts|
    requires hidden == Rows(net, |net.layers|, kv, [head] + drafts)
    requires forall j :: 0 <= j < m ==> net.choose(hidden[j]) == drafts[j]
    requires m < |drafts| ==> net.choose(hidden[m]) != drafts[m]
    ensures m == Accepts(net, draft, kv + [head], K, perturb)
    ensures drafts[..m] + [net.choose(hidden[m])] == Greedy(net, kv + [head], m + 1)
  {
    hide Rows, Greedy, Proposals;
    AgreedIsGreedy(net, kv, head, drafts, m);
    AgreedIsCommon(net, kv + [head], drafts, m, net.choose(hidden[m]));
  }

  /** What a rollback to the agreed prefix leaves. */
  lemma KeptBlock(kv: seq<Token>, head: Token, drafts: seq<Token>, m: nat, extra: Token)
    requires m <= |drafts|
    ensures (kv + ([head] + drafts))[..|kv| + m + 1] == kv + [head] + drafts[..m]
    ensures (kv + [head] + drafts)[..|kv| + m + 1] == kv + [head] + drafts[..m]
    ensures kv + [head] + drafts[..m] + [extra] == kv + [head] + (drafts[..m] + [extra])
  {
  }

  /** Prefill both models with the prompt and take the first greedy token. */
  method Prefill(target: Target, draft: GreedyDraft, prompt: seq<Token>) returns (ok: bool, head: Token, pos: nat)
    requires target.Valid() && draft.Valid() && target.Accepts(prompt) && target.toks == draft.toks == []
    requires target.repr !! {draft, draft.cache}
    modifies target.repr, draft, draft.cache
    ensures target.Heard() ==> ok
    ensures target.backend.Socket? ==> (ok <==> !target.backend.socket.FirstLoses())
    ensures !ok ==> target.toks == []
    ensures ok ==>
              && [head] == Greedy(target.net, prompt, 1) && head == Next(target.net, prompt)
              && pos == |target.toks| && target.toks == prompt
              && InStep(target, draft, head, prompt + [head])
    ensures !ok ==> Stopped(target, prompt)
  {
    hide Target.Valid, Target.Halted, GreedyDraft.Valid, Rows;
    var hidden := target.ForwardTokens(prompt, 0);
    if hidden.None? {
      return false, 0, 0;
    }
    var _ := draft.Run(prompt);
    head := target.net.choose(hidden.value[|hidden.value| - 1]);
    assert [] + prompt == prompt;
    assert Greedy(target.net, prompt, 1) == [Next(target.net, prompt)];
    pos := target.KvLen();
    ok := true;
  }

  /** Speculative decoding returns exactly the first `nNew` greedy tokens, for any draft and any
      perturbation, unless a wire error is raised.  `committed` is the output before it is cut to `nNew`. */
  method SpeculativeGreedy(target: Target, draft: GreedyDraft, prompt: seq<Token>, nNew: nat, K: nat,
                           perturb: (nat, Token) -> Token, stats: SpecStats?)
    returns (e: End, out: seq<Token>, local: SpecStats, ghost committed: seq<Token>)
    requires target.Valid() && draft.Valid() && target.Accepts(prompt) && target.toks == draft.toks == []
    requires target.repr !! {draft, draft.cache} && stats !in target.repr + {draft, draft.cache}
    modifies target.repr, draft, draft.cache, stats
    ensures EndsAs(target, e)
    ensures e.Finished? ==>
              && out == Greedy(target.net, prompt, nNew)
              && nNew <= |committed| && out == committed[..nNew]
              && |committed| == 1 + local.rounds + local.accepted
              && (local.rounds, local.accepted) == Tally(target.net, draft.net, prompt + Greedy(target.net, prompt, 1),
                                                         Room(nNew, 1), {}, K, perturb)
              && target.Valid() && prompt <= target.toks
    ensures !e.Finished? ==> Stopped(target, prompt)
    ensures local.proposed == local.rounds * K
    ensures fresh(local)
    ensures stats != null ==>
              && stats.rounds == old(stats.rounds) + local.rounds
              && stats.accepted == old(stats.accepted) + local.accepted
              && stats.proposed == old(stats.proposed) + local.proposed
  {
    hide Target.Valid, Target.Halted, GreedyDraft.Valid, Greedy, InStep, Accepts, Tally, OnTally, Next, Room;
    hide SocketTarget.FirstLoses;
    var net := target.net;
    local := new SpecStats();
    var ok, head, pos := Prefill(target, draft, prompt);
    if !ok {
      return Raised, [], local, [];
    }
    out := [head];
    e := Finished;
    ghost var all := Tally(net, draft.net, prompt + out, Room(nNew, 1), {}, K, perturb);
    TallyStarts(net, draft.net, prompt + out, Room(nNew, 1), {}, K, perturb);
    while |out| < nNew
      invariant OnTally(all, local.rounds, local.accepted, net, draft.net, prompt + out, Room(nNew, |out|), {}, K, perturb)
      invariant InStep(target, draft, head, prompt + out) && pos == |target.toks|
      invariant out != [] && out == Greedy(net, prompt, |out|)
      invariant |out| == 1 + local.rounds + local.accepted && local.proposed == local.rounds * K
      invariant fresh(local) && local !in target.repr && local != stats
      invariant stats != null ==>
        && stats.rounds == old(stats.rounds) + local.rounds
        && stats.accepted == old(stats.accepted) + local.accepted
        && stats.proposed == old(stats.proposed) + local.proposed
      decreases nNew - |out|
    {
      PromptKept(target, draft, prompt, out, head);
      var block, extra, keep;
      e, block, extra, keep := Round(target, draft, head, K, pos, perturb, prompt + out);
      if !e.Finished? {
        return e, [], local, [];
      }
      RoundAdds(all, local.rounds, local.accepted, net, draft.net, prompt, out, nNew, K, perturb, block);
      out := out + block;
      head, pos := extra, keep;
      local.Bump(|block| - 1, K);
      if stats != null {
        stats.Bump(|block| - 1, K);
      }
    }
    TallyEnds(all, local.rounds, local.accepted, net, draft.net, prompt + out, nNew, |out|, {}, K, perturb);
    committed := out;
    GreedyPrefix(net, prompt, nNew, |out|);
    PromptKept(target, draft, prompt, out, head);
    out := out[..nNew];
    e := Finished;
  }

  /** What a round adds to the output and to the tally. */
  lemma RoundAdds(all: (nat, nat), rounds: nat, accepted: nat, net: Net, draft: Net, prompt: seq<Token>, out: seq<Token>,
                  nNew: nat, K: nat, perturb: (nat, Token) -> Token, block: seq<Token>)
    requires prompt != [] && |out| < nNew && out == Greedy(net, prompt, |out|)
    requires OnTally(all, rounds, accepted, net, draft, prompt + out, Room(nNew, |out|), {}, K, perturb)
    requires |block| == Accepts(net, draft, prompt + out, K, perturb) + 1 && block == Greedy(net, prompt + out, |block|)
    ensures prompt + (out + block) == prompt + out + block && out + block == Greedy(net, prompt, |out + block|)
    ensures OnTally(all, rounds + 1, accepted + |block| - 1, net, draft, prompt + (out + block), Room(nNew, |out + block|),
                    {}, K, perturb)
  {
    hide Greedy, Accepts, Tally, OnTally;
    TallyGoesOn(all, rounds, accepted, net, draft, prompt + out, Room(nNew, |out|), {}, K, perturb, block);
    GreedyAppend(net, prompt, |out|, |block|);
    assert prompt + (out + block) == prompt + out + block;
  }

  lemma PromptKept(target: Target, draft: GreedyDraft, prompt: seq<Token>, out: seq<Token>, head: Token)
    requires InStep(target, draft, head, prompt + out) && out != []
    ensures target.Valid() && prompt <= target.toks
  {
    hide Target.Valid, GreedyDraft.Valid;
    assert target.toks == (prompt + out)[..|prompt| + |out| - 1];
  }

  /** The streaming form yields the same tokens and stops before the first end-of-sequence token
      or at `nNew`.  The first token is yielded before the limit is looked at, so a limit of 0
      acts as 1.  What has been yielded when it is ended from outside is a prefix of that. */
  method SpeculativeGreedyStream(target: Target, draft: GreedyDraft, prompt: seq<Token>, nNew: nat,
                                 eos: set<Token>, K: nat, perturb: (nat, Token) -> Token,
                                 stats: SpecStats?)
    returns (e: End, yielded: seq<Token>)
    requires target.Valid() && draft.Valid() && target.Accepts(prompt) && target.toks == draft.toks == []
    requires target.repr !! {draft, draft.cache} && stats !in target.repr + {draft, draft.cache}
    modifies target.repr, draft, draft.cache, stats
    ensures EndsAs(target, e)
    ensures yielded <= Cut(Greedy(target.net, prompt, Max(1, nNew)), eos)
    ensures e.Finished? ==> yielded == Cut(Greedy(target.net, prompt, Max(1, nNew)), eos)
    ensures e.Finished? ==> target.Valid() && prompt <= target.toks
    ensures e.Finished? && stats != null ==>
              var t := if Next(target.net, prompt) in eos then (0, 0) else
                         Tally(target.net, draft.net, prompt + [Next(target.net, prompt)], Room(nNew, 1), eos, K, perturb);
              && stats.rounds == old(stats.rounds) + t.0 && stats.accepted == old(stats.accepted) + t.1
              && stats.proposed == old(stats.proposed) + t.0 * K
    ensures !e.Finished? ==> Stopped(target, prompt)
    ensures target.backend.Socket? && target.backend.socket.FirstLoses() ==> e.Raised? && target.toks == []
  {
    hide Target.Valid, Target.Halted, GreedyDraft.Valid, Greedy, InStep, Cut, SocketTarget.FirstLoses, Accepts, Tally, OnTally;
    var net, limit := target.net, Max(1, nNew);
    var ok, head, pos := Prefill(target, draft, prompt);
    if !ok {
      return Raised, [];
    }
    assert prompt + [] == prompt;
    e := Finished;
    if head in eos {
      PromptKept(target, draft, prompt, [head], head);
      StoppedGreedy(net, prompt, eos, limit, []);
      return Finished, [];
    }
    yielded := [head];
    ghost var all := Tally(net, draft.net, prompt + yielded, Room(nNew, 1), eos, K, perturb);
    ghost var rounds: nat, accepted: nat := 0, 0;
    TallyStarts(net, draft.net, prompt + yielded, Room(nNew, 1), eos, K, perturb);
    while |yielded| < nNew
      invariant OnTally(all, rounds, accepted, net, draft.net, prompt + yielded, Room(nNew, |yielded|), eos, K, perturb)
      invariant stats != null ==>
        && stats.rounds == old(stats.rounds) + rounds && stats.accepted == old(stats.accepted) + accepted
        && stats.proposed == old(stats.proposed) + rounds * K
      invariant InStep(target, draft, head, prompt + yielded) && pos == |target.toks|
      invariant yielded == Greedy(net, prompt, |yielded|)
      invariant 0 < |yielded| <= limit && forall t :: t in yielded ==> t !in eos
      decreases nNew - |yielded|
    {
      PromptKept(target, draft, prompt, yielded, head);
      var committed, extra, keep;
      e, committed, extra, keep := Round(target, draft, head, K, pos, perturb, prompt + yielded);
      if !e.Finished? {
        CleanGreedyPrefix(net, prompt, eos, limit, yielded);
        return;
      }
      head, pos := extra, keep;
      TallyGoesOn(all, rounds, accepted, net, draft.net, prompt + yielded, Room(nNew, |yielded|), eos, K, perturb, committed);
      if stats != null {
        stats.Bump(|committed| - 1, K);
      }
      OneRoundMore(rounds, K);
      rounds, accepted := rounds + 1, accepted + |committed| - 1;
      var j := EmitUntil(committed, nNew - |yielded|, eos);
      EmittedIsGreedy(net, prompt, eos, limit, yielded, committed, j);
      assert prompt + (yielded + committed) == prompt + yielded + committed;
      if j < |committed| {
        PromptKept(target, draft, prompt, yielded + committed, head);
        yielded := yielded + committed[..j];
        return;
      }
      yielded := yielded + committed;
    }
    TallyEnds(all, rounds, accepted, net, draft.net, prompt + yielded, nNew, |yielded|, eos, K, perturb);
    StoppedGreedy(net, prompt, eos, limit, yielded);
    PromptKept(target, draft, prompt, yielded, head);
    e := Finished;
  }

  /** How many committed tokens are yielded before the limit or an end-of-sequence token. */
  method EmitUntil(committed: seq<Token>, room: nat, eos: set<Token>) returns (j: nat)
    ensures j <= |committed| && j <= room
    ensures forall i :: 0 <= i < j ==> committed[i] !in eos
    ensures j < |committed| ==> committed[j] in eos || j == room
  {
    j := 0;
    while j < |committed| && committed[j] !in eos && j < room
      invariant j <= |committed| && j <= room
      invariant forall i :: 0 <= i < j ==> committed[i] !in eos
    {
      j := j + 1;
    }
  }

  /** Yielding `j` more greedy tokens keeps the stream a clean greedy prefix, and where it stops
      short of the block it is the whole answer. */
  lemma EmittedIsGreedy(net: Net, prompt: seq<Token>, eos: set<Token>, limit: nat,
                        yielded: seq<Token>, committed: seq<Token>, j: nat)
    requires prompt != [] && yielded == Greedy(net, prompt, |yielded|)
    requires committed == Greedy(net, prompt + yielded, |committed|)
    requires j <= |committed| && |yielded| + j <= limit
    requires forall t :: t in yielded ==> t !in eos
    requires forall i :: 0 <= i < j ==> committed[i] !in eos
    requires j < |committed| ==> committed[j] in eos || |yielded| + j == limit
    ensures var out := yielded + committed[..j];
            && out == Greedy(net, prompt, |out|) && (forall t :: t in out ==> t !in eos)
            && (j < |committed| ==> out == Cut(Greedy(net, prompt, limit), eos))
  {
    hide Greedy, Cut;
    var out := yielded + committed[..j];
    GreedyPrefix(net, prompt + yielded, j, |committed|);
    GreedyAppend(net, prompt, |yielded|, j);
    if j < |committed| {
      GreedyStep(net, prompt + yielded, committed, j);
      assert prompt + yielded + committed[..j] == prompt + out;
      StoppedGreedy(net, prompt, eos, limit, out);
    }
  }

  /** Each greedy token is the greedy choice after its predecessors. */
  lemma GreedyStep(net: Net, toks: seq<Token>, out: seq<Token>, i: nat)
    requires toks != [] && i < |out| && out == Greedy(net, toks, |out|)
    ensures out[i] == Next(net, toks + out[..i])
  {
    GreedyAppend(net, toks, i, |out| - i);
    GreedyPrefix(net, toks, i, |out|);
  }
}
