/** The causal language model every decoding path must agree with.

    Tensor arithmetic is opaque.  A decoder layer is an arbitrary function of the slots its
    attention mask leaves visible, in slot order, the last one being the query's own slot.  A slot
    carries the layer's input at that slot and the position it was rotated to, which is all a
    cached key/value pair depends on.  `choose` is argmax after the final norm and lm_head. */
module Model {

  type Token = int

  function Max(a: nat, b: nat): nat { if a < b then b else a }

  function Min(a: nat, b: nat): nat { if a < b then a else b }

  /** What is left of a limit. */
  function Room(limit: nat, used: nat): nat { if used < limit then limit - used else 0 }

  /** One row of a hidden-state tensor, identified by its bit pattern. */
  datatype Hidden = Hidden(bits: int)

  /** One key/value slot of one layer. */
  datatype Entry = Entry(hidden: Hidden, pos: int)

  type Layer = seq<Entry> -> Hidden

  datatype Net = Net(layers: seq<Layer>, embed: Token -> Hidden, choose: Hidden -> Token)

  /** The input of layer `k` (for `k == |net.layers|`, the final hidden state) at the last
      position of `toks`, in one unsplit, uncached pass. */
  function Hid(net: Net, k: nat, toks: seq<Token>): Hidden
    requires k <= |net.layers| && toks != []
    decreases k, 0
  {
    if k == 0 then net.embed(toks[|toks| - 1]) else net.layers[k - 1](Context(net, k - 1, toks))
  }

  /** Layer `k`'s key/value slots after the tokens `toks`. */
  function Context(net: Net, k: nat, toks: seq<Token>): seq<Entry>
    requires k <= |net.layers|
    decreases k, 1
  {
    seq(|toks|, j requires 0 <= j < |toks| => Entry(Hid(net, k, toks[..j + 1]), j))
  }

  /** The greedy next token. */
  function Next(net: Net, toks: seq<Token>): Token
    requires toks != []
  {
    net.choose(Hid(net, |net.layers|, toks))
  }

  /** Plain greedy decode: the first `n` tokens after `toks`.  The reference every path refines. */
  function Greedy(net: Net, toks: seq<Token>, n: nat): (out: seq<Token>)
    requires toks != []
    ensures |out| == n
    decreases n
  {
    if n == 0 then [] else
      var t := Next(net, toks);
      [t] + Greedy(net, toks + [t], n - 1)
  }

  /** A token sequence stopped before its first end-of-sequence token. */
  function Cut(ts: seq<Token>, eos: set<Token>): (out: seq<Token>)
    ensures out <= ts
    ensures forall t :: t in out ==> t !in eos
    ensures |out| < |ts| ==> ts[|out|] in eos
  {
    if ts == [] || ts[0] in eos then [] else [ts[0]] + Cut(ts[1..], eos)
  }

  /** Decoding is resumable: stopping after `a` tokens and going on for `b` is decoding `a + b`. */
  lemma {:induction false} GreedyAppend(net: Net, toks: seq<Token>, a: nat, b: nat)
    requires toks != []
    ensures Greedy(net, toks, a + b) ==
            Greedy(net, toks, a) + Greedy(net, toks + Greedy(net, toks, a), b)
    decreases a
  {
    if a == 0 {
      assert toks + [] == toks;
    } else {
      var t := Next(net, toks);
      GreedyAppend(net, toks + [t], a - 1, b);
      assert toks + Greedy(net, toks, a) == toks + [t] + Greedy(net, toks + [t], a - 1);
    }
  }

  lemma GreedySnoc(net: Net, toks: seq<Token>, out: seq<Token>, nxt: Token)
    requires toks != [] && out == Greedy(net, toks, |out|) && nxt == Next(net, toks + out)
    ensures out + [nxt] == Greedy(net, toks, |out| + 1)
  {
    GreedyAppend(net, toks, |out|, 1);
    assert Greedy(net, toks + out, 1) == [nxt] + Greedy(net, toks + out + [nxt], 0);
  }

  /** Any tokens each of which is the greedy choice after its predecessors are the greedy tokens. */
  lemma {:induction false} ChoicesAreGreedy(net: Net, toks: seq<Token>, ts: seq<Token>)
    requires toks != []
    requires forall j :: 0 <= j < |ts| ==> ts[j] == Next(net, toks + ts[..j])
    ensures ts == Greedy(net, toks, |ts|)
    decreases |ts|
  {
    if ts != [] {
      assert toks + ts[..0] == toks;
      var rest := ts[1..];
      forall j | 0 <= j < |rest|
        ensures rest[j] == Next(net, toks + [ts[0]] + rest[..j])
      {
        assert toks + [ts[0]] + rest[..j] == toks + ts[..j + 1];
      }
      ChoicesAreGreedy(net, toks + [ts[0]], rest);
    }
  }

  /** The greedy tokens of a shorter run are a prefix of those of a longer one. */
  lemma GreedyPrefix(net: Net, toks: seq<Token>, a: nat, n: nat)
    requires toks != [] && a <= n
    ensures Greedy(net, toks, n)[..a] == Greedy(net, toks, a)
  {
    GreedyAppend(net, toks, a, n - a);
  }

  /** Where a clean prefix ends at the limit or at an end-of-sequence token, it is the cut. */
  lemma {:induction false} CutAt(ts: seq<Token>, eos: set<Token>, j: nat)
    requires j <= |ts|
    requires forall i :: 0 <= i < j ==> ts[i] !in eos
    requires j == |ts| || ts[j] in eos
    ensures Cut(ts, eos) == ts[..j]
  {
    if j > 0 {
      CutAt(ts[1..], eos, j - 1);
    }
  }

  /** The shape in which every decode loop concludes: `out` are the greedy tokens so far, none of
      them ends the sequence, and the loop stops at the limit or because the next one does. */
  lemma StoppedGreedy(net: Net, toks: seq<Token>, eos: set<Token>, n: nat, out: seq<Token>)
    requires toks != [] && |out| <= n
    requires out == Greedy(net, toks, |out|)
    requires forall t :: t in out ==> t !in eos
    requires |out| == n || Next(net, toks + out) in eos
    ensures out == Cut(Greedy(net, toks, n), eos)
  {
    var j := |out|;
    var g := Greedy(net, toks, n);
    GreedyAppend(net, toks, j, n - j);
    forall i | 0 <= i < j ensures g[i] !in eos {
      assert g[i] == out[i];
    }
    CutAt(g, eos, j);
  }

  /** Clean greedy tokens short of the limit are a prefix of the answer. */
  lemma CleanGreedyPrefix(net: Net, toks: seq<Token>, eos: set<Token>, n: nat, out: seq<Token>)
    requires toks != [] && |out| <= n && out == Greedy(net, toks, |out|)
    requires forall t :: t in out ==> t !in eos
    ensures out <= Cut(Greedy(net, toks, n), eos)
  {
    var g := Greedy(net, toks, n);
    GreedyPrefix(net, toks, |out|, n);
    forall i | 0 <= i < |out| ensures g[i] !in eos {
      assert g[i] == g[..|out|][i] == out[i];
    }
    assert |Cut(g, eos)| >= |out|;
  }

  /** Resuming where an answer of at most `a` tokens stopped, for at most `b` more, is the answer of
      at most `a + b` tokens -- also when an end-of-sequence token falls in either part. */
  lemma CutResumes(net: Net, toks: seq<Token>, eos: set<Token>, a: nat, b: nat)
    requires toks != []
    ensures var first := Cut(Greedy(net, toks, a), eos);
            Cut(Greedy(net, toks, a + b), eos)
            == first + Cut(Greedy(net, toks + first, b), eos)
  {
    var first := Cut(Greedy(net, toks, a), eos);
    hide Greedy, Cut;
    GreedyAppend(net, toks, a, b);
    GreedyPrefix(net, toks, |first|, a);
    var g, rest := Greedy(net, toks, a + b), Greedy(net, toks + first, b);
    if |first| < a {
      assert g[|first|] == Greedy(net, toks, a)[|first|];
      CutAt(g, eos, |first|);
      assert g[..|first|] == first;
      if b > 0 {
        NextAfter(net, toks, first, a);
        NoTokens(net, toks + first);
        NextAfter(net, toks + first, [], b);
        assert toks + first + [] == toks + first;
      }
      CutAt(rest, eos, 0);
    } else {
      assert |first| == a && first == Greedy(net, toks, a);
      forall i | 0 <= i < |first| ensures first[i] !in eos { assert first[i] in first; }
      CutJoined(first, rest, eos);
    }
  }

  lemma {:induction false} CutJoined(first: seq<Token>, rest: seq<Token>, eos: set<Token>)
    requires forall i :: 0 <= i < |first| ==> first[i] !in eos
    ensures Cut(first + rest, eos) == first + Cut(rest, eos)
  {
    if first == [] {
      assert first + rest == rest;
    } else {
      assert (first + rest)[1..] == first[1..] + rest;
      CutJoined(first[1..], rest, eos);
    }
  }

  lemma NoTokens(net: Net, toks: seq<Token>)
    requires toks != []
    ensures Greedy(net, toks, 0) == []
  {
  }

  /** The greedy token at the end of a greedy prefix is the next choice. */
  lemma NextAfter(net: Net, toks: seq<Token>, out: seq<Token>, n: nat)
    requires toks != [] && |out| < n && out == Greedy(net, toks, |out|)
    ensures Greedy(net, toks, n)[|out|] == Next(net, toks + out)
  {
    GreedyAppend(net, toks, |out|, n - |out|);
  }
}
