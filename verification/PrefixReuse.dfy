/** What wire errors leave of the prefix cache on the fixed pipeline.

    A request that fails on the way ends in error and may close the sockets, and its prompt is recorded as
    warm all the same; one of another kind that fails closes them under the warm session.  This module says
    when the next request that hits the cache is still right. */
module PrefixReuse {
  import opened Wrappers
  import opened Model
  import opened Attention
  import opened KV
  import opened Stages
  import opened Workers
  import opened Fates
  import opened Coordinators
  import opened Targets
  import opened Generation
  import opened MeshRelay
  import opened Rehoming

  // ----- when a hit is right -----

  /** Where the coordinator's hosts stand is where the route through them stands. */
  lemma StandsIsStanding(coord: Coordinator, sid: nat, places: seq<Place>)
    requires coord.HostsValid() && coord.Stands(sid, places)
    ensures Standing(coord.net, coord.cuts, coord.Stores(), sid, places)
  {
    forall k | 0 <= k < |places| ensures IsPlaced(StagesAlong(coord.net, coord.cuts)[k], coord.Stores()[k], sid, places[k]) {
      assert Is(coord.hosts[k].stage, coord.net, coord.cuts[k], coord.cuts[k + 1]);
    }
  }

  /** Host `i` is right for a prompt that reuses `c` tokens of the recorded `ids`: the roll-back takes it
      there, or it stands there and need not or cannot be rolled back. */
  predicate RightAt(coord: Coordinator, places: seq<Place>, ids: seq<Token>, c: nat, link: Link, i: nat)
    requires i < |places| && c <= |ids|
  {
    if c < |ids| && coord.Reached(i, link) then places[i].Some? && CutTo(places[i].value, c) == ids[..c]
    else places[i] == Some(ids[..c])
  }

  /** A hit is exact, for every model, every rest of the prompt and any number of tokens, if and only if
      every host with layers is right -- wherever the hosts stand, and whatever the sockets take. */
  lemma HitExactIff(coord: Coordinator, layers: nat, places: seq<Place>, ids: seq<Token>, c: nat, link: Link,
                    rest: seq<Token>, sid: nat, n: nat)
    requires Cuts(coord.cuts, layers) && |coord.cuts| == |places| + 1
    requires 0 < c <= |ids| && rest != [] && n > 0
    ensures (forall i :: 0 <= i < |places| ==> RightAt(coord, places, ids, c, link, i) || coord.cuts[i] == coord.cuts[i + 1])
            <==> forall net: Net, stores ::
                   |net.layers| == layers
                   && Standing(net, coord.cuts, stores, sid, coord.AtHit(places, |ids|, c, link)) ==>
                     Exact(net, coord.cuts, stores, sid, ids[..c], rest, n)
  {
    var at := coord.AtHit(places, |ids|, c, link);
    forall i | 0 <= i < |places| ensures at[i] == Some(ids[..c]) <==> RightAt(coord, places, ids, c, link, i) {}
    ContinuesExactlyIff(layers, coord.cuts, sid, at, ids[..c], rest, n);
  }

  /** What a request is spared from and the sequence of requests stops at: a hit that is wrong for some
      model with as many layers, in some stores in which the warm session stands as it does here; any other
      hit is exact for every model, and so it is for this one. */
  lemma SpoiledIff(coord: Coordinator, prompt: seq<Token>, link: Link, places: seq<Place>, n: nat)
    requires coord.HostsValid() && prompt != [] && |places| == |coord.hosts| && coord.RecordStands(places) && n > 0
    requires coord.HitAt(prompt, link).Some? && coord.HitAt(prompt, link).value > 0
    ensures var c := coord.HitAt(prompt, link).value;
            var at := coord.AtHit(places, coord.pc.len, c, link);
            && Cuts(coord.cuts, |coord.net.layers|)
            && (Spoiled(coord, prompt, link, places) <==>
                exists net: Net, stores ::
                  && |net.layers| == |coord.net.layers| && Standing(net, coord.cuts, stores, coord.pc.sid.value, at)
                  && !Exact(net, coord.cuts, stores, coord.pc.sid.value, prompt[..c], prompt[c..], n))
  {
    hide Exact, Standing, Coordinator.AtHit;
    var c := coord.HitAt(prompt, link).value;
    var at := coord.AtHit(places, coord.pc.len, c, link);
    ContinuesIffIdle(coord, at, prompt[..c]);
    ContinuesExactlyIff(|coord.net.layers|, coord.cuts, coord.pc.sid.value, at, prompt[..c], prompt[c..], n);
  }

  lemma ContinuesIffIdle(coord: Coordinator, places: seq<Place>, toks: seq<Token>)
    requires coord.HostsValid() && |places| == |coord.hosts|
    ensures coord.Continues(places, toks) <==> OnlyIdleAstray(coord.cuts, places, toks)
  {
    if coord.Continues(places, toks) {
      forall i | 0 <= i < |places| ensures places[i] == Some(toks) || coord.cuts[i] == coord.cuts[i + 1] {
        assert Is(coord.hosts[i].stage, coord.net, coord.cuts[i], coord.cuts[i + 1]);
      }
    }
    if OnlyIdleAstray(coord.cuts, places, toks) {
      forall i | 0 <= i < |places|
        ensures places[i] == Some(toks) || coord.hosts[i].stage.first == coord.hosts[i].stage.last
      {
        assert Is(coord.hosts[i].stage, coord.net, coord.cuts[i], coord.cuts[i + 1]);
      }
    }
  }

  // ----- what each failure comes to -----

  predicate RightAfterLoss(coord: Coordinator, start: seq<Place>, fates: seq<Fate>, ids: seq<Token>, c: nat,
                           link: Link, i: nat)
    requires i < |start| && c <= |ids|
  {
    if Runs(false, fates, |start|, i) then c == |ids| || coord.Reached(i, link)
    else if c < |ids| && coord.Reached(i, link) then start[i].Some? && CutTo(start[i].value, c) == ids[..c]
    else start[i] == Some(ids[..c])
  }

  /** The relay of the recorded prompt was lost.  A host that ran it is right if nothing of it has to go or
      the roll-back reaches it; one that did not, only if it stood right before, or is rolled back to there. */
  lemma PromptLostRightIff(coord: Coordinator, start: seq<Place>, fates: seq<Fate>, ids: seq<Token>, c: nat,
                           link: Link, i: nat)
    requires i < |start| && 0 < c <= |ids| && (coord.hasLocal ==> FateAt(fates, 0) == Answered)
    ensures var places := coord.After(coord.AfterRelay(start, fates, ids), Truncate(|ids|), Closed);
            RightAt(coord, places, ids, c, link, i) <==> RightAfterLoss(coord, start, fates, ids, c, link, i)
  {
    var places := coord.After(coord.AfterRelay(start, fates, ids), Truncate(|ids|), Closed);
    if Runs(false, fates, |start|, i) {
      assert places[i] == Some(ids);
      assert |ids[..c]| == c && ids[..|ids|] == ids;
    } else {
      assert !coord.Local(i) by { LocalRuns(coord, fates, |start|, i); }
    }
  }

  /** A co-located stage runs every frame. */
  lemma LocalRuns(coord: Coordinator, fates: seq<Fate>, n: nat, i: nat)
    requires i < n && (coord.hasLocal ==> FateAt(fates, 0) == Answered)
    ensures coord.Local(i) ==> Runs(false, fates, n, i)
  {
  }

  /** A block was lost in a later round, behind `toks`.  The co-located stage is right; a remote host if the
      roll-back reaches it, or there is none and the host never ran the block and stood at the prompt alone. */
  lemma BlockLostRightIff(coord: Coordinator, n: nat, toks: seq<Token>, block: seq<Token>, fates: seq<Fate>,
                          ids: seq<Token>, c: nat, link: Link, i: nat)
    requires i < |coord.hosts| && 0 < c <= |ids| && ids <= toks && block != []
    requires coord.hasLocal ==> FateAt(fates, 0) == Answered
    ensures var stood := coord.AfterRelay(coord.Everywhere(toks), fates, toks + block);
            RightAt(coord, coord.After(stood, Truncate(|ids|), Closed), ids, c, link, i) <==>
              || coord.Local(i) || (c < |ids| && coord.Reached(i, link))
              || (c == |ids| && toks == ids && !Runs(false, fates, |coord.hosts|, i))
  {
    var stood := coord.AfterRelay(coord.Everywhere(toks), fates, toks + block);
    var places := coord.After(stood, Truncate(|ids|), Closed);
    LocalRuns(coord, fates, |coord.hosts|, i);
    assert ids == toks[..|ids|] && ids[..c] == toks[..c] == (toks + block)[..c];
    assert (toks + block)[..|ids|] == ids;
    assert stood[i] == Some(if Runs(false, fates, |coord.hosts|, i) then toks + block else toks);
    if coord.Local(i) {
      assert places[i] == Some(ids);
    } else {
      assert places[i] == stood[i];
    }
  }

  /** A lost roll-back does no harm: either the closing one reaches every host, and all stand at the
      prompt, or nothing is recorded. */
  lemma CutLostHeals(coord: Coordinator, toks: seq<Token>, length: nat, link: Link, ids: seq<Token>, end: Link)
    requires ids <= toks && |ids| <= length <= |toks| && coord.ReachesAll(end)
    ensures coord.After(coord.After(coord.Everywhere(toks), Truncate(length), link), Truncate(|ids|), end)
            == coord.Everywhere(ids)
  {
    var was := coord.After(coord.Everywhere(toks), Truncate(length), link);
    forall i | 0 <= i < |coord.hosts| ensures was[i].Some? && CutTo(was[i].value, |ids|) == ids {
      assert toks[..length][..|ids|] == toks[..|ids|] == ids;
    }
  }

  /** A request of another kind has closed the sockets under a warm session that stands right everywhere:
      what has to go stays on every remote host. */
  lemma ClosedRightIff(coord: Coordinator, ids: seq<Token>, c: nat, i: nat)
    requires i < |coord.hosts| && 0 < c <= |ids|
    ensures RightAt(coord, coord.Everywhere(ids), ids, c, Closed, i) <==> c == |ids| || coord.Local(i)
  {
    assert |ids[..c]| == c;
    assert c == |ids| ==> ids[..c] == ids;
  }

  lemma CutsOf(coord: Coordinator)
    requires coord.HostsValid()
    ensures Cuts(coord.cuts, |coord.net.layers|) && |coord.cuts| == |coord.hosts| + 1
  {
  }

  lemma LostPromptSpoils(coord: Coordinator, start: seq<Place>, fates: seq<Fate>, prompt: seq<Token>,
                         next: seq<Token>, link: Link)
    requires coord.HostsValid() && coord.Recorded() && coord.pc.ids == Some(prompt) && next != []
    requires |start| == |coord.hosts| && (coord.hasLocal ==> FateAt(fates, 0) == Answered)
    requires coord.HitAt(next, link).Some? && coord.HitAt(next, link).value > 0
    ensures |coord.cuts| == |coord.hosts| + 1
    ensures Spoiled(coord, next, link, coord.After(coord.AfterRelay(start, fates, prompt), Truncate(|prompt|), Closed)) <==>
            exists i :: 0 <= i < |start| && coord.cuts[i] < coord.cuts[i + 1]
              && !RightAfterLoss(coord, start, fates, prompt, coord.HitAt(next, link).value, link, i)
  {
    hide Coordinator.After, Coordinator.AfterRelay, RightAfterLoss, Runs, Coordinator.HitAt;
    var c := coord.HitAt(next, link).value;
    var after := coord.After(coord.AfterRelay(start, fates, prompt), Truncate(|prompt|), Closed);
    var at := coord.AtHit(after, |prompt|, c, link);
    SpoiledIffSomeWrong(coord, next, prompt, link, after);
    forall i | 0 <= i < |start|
      ensures RightAt(coord, after, prompt, c, link, i) <==> RightAfterLoss(coord, start, fates, prompt, c, link, i)
    {
      PromptLostRightIff(coord, start, fates, prompt, c, link, i);
    }
  }

  /** A hit is spoiled if some host with layers is not right for it. */
  lemma SpoiledIffSomeWrong(coord: Coordinator, next: seq<Token>, ids: seq<Token>, link: Link, places: seq<Place>)
    requires coord.HostsValid() && coord.Recorded() && coord.pc.ids == Some(ids) && next != []
    requires |places| == |coord.hosts| && coord.HitAt(next, link).Some? && coord.HitAt(next, link).value > 0
    ensures |coord.cuts| == |coord.hosts| + 1
    ensures Spoiled(coord, next, link, places) <==>
            exists i :: 0 <= i < |places| && coord.cuts[i] < coord.cuts[i + 1]
              && !RightAt(coord, places, ids, coord.HitAt(next, link).value, link, i)
  {
    hide Coordinator.HitAt, RightAt, Coordinator.Continues, Coordinator.AtHit;
    CutsOf(coord);
    var c := coord.HitAt(next, link).value;
    var at := coord.AtHit(places, |ids|, c, link);
    ContinuesIffIdle(coord, at, ids[..c]);
    forall i | 0 <= i < |places|
      ensures coord.cuts[i] <= coord.cuts[i + 1]
      ensures at[i] == Some(ids[..c]) <==> RightAt(coord, places, ids, c, link, i)
    {
      HitPlace(coord, places, ids, c, link, i);
    }
  }

  lemma HitPlace(coord: Coordinator, places: seq<Place>, ids: seq<Token>, c: nat, link: Link, i: nat)
    requires i < |places| && c <= |ids|
    ensures coord.AtHit(places, |ids|, c, link)[i] == Some(ids[..c]) <==> RightAt(coord, places, ids, c, link, i)
  {
  }

  /** A request whose prompt is lost, and the next one to hit what it recorded, as one run of the coordinator:
      where the hosts stand, which of them is right, and that the hit goes wrong for some model with the same
      layers, in some stores standing as the coordinator's own do, exactly if one with layers is not. */
  method LostPromptThenHit(coord: Coordinator, draftNet: Net, prompt: seq<Token>, nNew: nat, eos: set<Token>,
                           K: nat, perturb: (nat, Token) -> Token, begin: Link, wire: Wire, places: seq<Place>,
                           next: seq<Token>, link: Link, ghost n: nat)
    returns (start: seq<Place>, after: seq<Place>)
    requires coord.HostsValid() && prompt != [] && |draftNet.layers| > 0 && coord.pcEnabled
    requires |places| == |coord.hosts| && coord.RecordStands(places) && !Spoiled(coord, prompt, begin, places)
    requires FirstLost(RelayFates(coord, wire, 0), 0, |coord.hosts|) < |coord.hosts| && next != [] && n > 0
    modifies coord, coord.hosts
    ensures coord.HostsValid() && coord.pc.ids == Some(prompt) && |after| == |start| == |coord.hosts|
    ensures start == old(AtStart(coord, prompt, begin, places)) && coord.RecordStands(after)
    ensures Cuts(coord.cuts, |coord.net.layers|) && coord.pc.sid.Some?
    ensures Standing(coord.net, coord.cuts, coord.Stores(), coord.pc.sid.value, after)
    ensures var hit := coord.HitAt(next, link);
            hit.Some? && hit.value > 0 ==>
              var c, at := hit.value, coord.AtHit(after, |prompt|, hit.value, link);
              && (Spoiled(coord, next, link, after) <==>
                  exists i :: 0 <= i < |start| && coord.cuts[i] < coord.cuts[i + 1]
                    && !RightAfterLoss(coord, start, RelayFates(coord, wire, 0), prompt, c, link, i))
              && (Spoiled(coord, next, link, after) <==>
                  exists net: Net, stores ::
                    && |net.layers| == |coord.net.layers| && Standing(net, coord.cuts, stores, coord.pc.sid.value, at)
                    && !Exact(net, coord.cuts, stores, coord.pc.sid.value, next[..c], next[c..], n))
  {
    hide Coordinator.Stands, Coordinator.HitAt, Exact, Standing, Coordinator.AtHit, Coordinator.After, Coordinator.AfterRelay,
      RightAt, Coordinator.HostsValid, Spoiled, Cut, Greedy, FirstLost, Coordinator.Continues, RightAfterLoss, RelayFates;
    start := AtStart(coord, prompt, begin, places);
    var e, yielded, stood, open, left :=
      GenerateSpeculativeStream(coord, draftNet, prompt, nNew, eos, K, perturb, begin, wire, 0, 0, places);
    after := coord.After(stood, Truncate(|prompt|), Closed);
    CutsOf(coord);
    StandsIsStanding(coord, coord.pc.sid.value, after);
    var hit := coord.HitAt(next, link);
    if hit.Some? && hit.value > 0 {
      SpoiledIff(coord, next, link, after, n);
      LostPromptSpoils(coord, start, RelayFates(coord, wire, 0), prompt, next, link);
    }
  }

  /** Two stages with layers, the first of which ran the prompt while the second never saw it: whatever is
      reused, over whatever sockets, some model with these layers then goes wrong. */
  lemma HalfPrefilledDiverges(coord: Coordinator, layers: nat, prompt: seq<Token>, c: nat, link: Link,
                              rest: seq<Token>, sid: nat, n: nat)
    requires Cuts(coord.cuts, layers) && |coord.cuts| == 3 && coord.cuts[1] < coord.cuts[2]
    requires 0 < c <= |prompt| && rest != [] && n > 0
    ensures var stood := coord.AfterRelay([Some([]), Some([])], [Answered, LostBefore], prompt);
            var places := coord.After(stood, Truncate(|prompt|), Closed);
            exists net: Net, stores ::
              && |net.layers| == layers && Standing(net, coord.cuts, stores, sid, coord.AtHit(places, |prompt|, c, link))
              && !Exact(net, coord.cuts, stores, sid, prompt[..c], rest, n)
  {
    hide Exact, Standing, Coordinator.AtHit;
    var fates := [Answered, LostBefore];
    var start: seq<Place> := [Some([]), Some([])];
    var places := coord.After(coord.AfterRelay(start, fates, prompt), Truncate(|prompt|), Closed);
    assert FirstLost(fates, 0, 2) == 1;
    PromptLostRightIff(coord, start, fates, prompt, c, link, 1);
    assert !RightAfterLoss(coord, start, fates, prompt, c, link, 1) by { assert |prompt[..c]| == c; }
    HitExactIff(coord, layers, places, prompt, c, link, rest, sid, n);
  }
}
