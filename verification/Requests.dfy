/** The requests a coordinator serves on one connection slot, in any order: speculative ones, which keep
    a warm session, and tree and plain ones, which draw a session id from the same counter.  Any frame of
    any of them may be lost. */
module Requests {
  import opened Wrappers
  import opened Model
  import opened Attention
  import opened KV
  import opened Stages
  import opened Workers
  import opened Fates
  import opened Coordinators
  import opened Targets
  import opened TreeTargets
  import opened SpecDecode
  import opened Generation

  /** A request that used session `sid` and left the others alone has spared the warm session. */
  lemma WarmIsSpared(coord: Coordinator, was: seq<map<nat, Cache>>, sid: nat, places: seq<Place>)
    requires coord.HostsValid() && coord.Recorded() && |was| == |coord.hosts|
    requires coord.pc.sid.Some? ==> coord.StoresStand(was, coord.pc.sid.value, places)
    requires forall i :: 0 <= i < |coord.hosts| ==> coord.hosts[i].sessions - {sid} == was[i] - {sid}
    requires coord.pc.sid != Some(sid)
    ensures coord.RecordStands(places)
  {
    hide Coordinator.HostsValid, Coordinator.Stands;
    if coord.pc.sid.Some? {
      coord.OthersStand(was, sid, coord.pc.sid.value, places);
    }
  }

  /** What the cache holds when all is well: the recorded prompt, on every host. */
  function WarmPlaces(coord: Coordinator): (places: seq<Place>)
    reads coord`pc
    ensures |places| == |coord.hosts|
  {
    coord.Everywhere(if coord.pc.ids.Some? then coord.pc.ids.value else [])
  }

  lemma ValidIsStanding(coord: Coordinator)
    requires coord.HostsValid()
    ensures coord.PrefixCacheValid() <==> coord.RecordStands(WarmPlaces(coord))
  {
    hide Coordinator.HostsValid, Coordinator.Warm, Coordinator.Stands;
    if coord.pc.sid.Some? && coord.pc.ids.Some? && coord.pc.ids.value != [] {
      coord.WarmStands(coord.pc.sid.value, coord.pc.ids.value);
    }
  }

  /** After a request on the warm session's id that leaves nothing behind. */
  lemma Clobbered(coord: Coordinator, sid: nat)
    requires coord.HostsValid() && coord.Recorded() && |coord.net.layers| > 0
    requires coord.pc.sid == Some(sid) && coord.Stands(sid, coord.Everywhere([]))
    ensures !coord.PrefixCacheValid()
  {
    hide Coordinator.HostsValid, Coordinator.Warm, Coordinator.Stands;
    coord.NothingIsNotWarm(sid, coord.pc.ids.value);
  }

  lemma SoundReachesAll(coord: Coordinator)
    ensures coord.ReachesAll(Open(|coord.hosts|))
  {
  }

  // ----- tree requests -----

  /** A tree request: exact, or a prefix if it raises, on a session of its own.  The warm session stays
      where it stands if the id drawn is another; if it is the same and the session can be freed, nothing
      is left of it. */
  method GenerateTreeStream(coord: Coordinator, prompt: seq<Token>, nNew: nat, eos: set<Token>, d: Drafter,
                            wire: Wire, end: nat, ghost places: seq<Place>)
    returns (e: End, produced: seq<Token>, left: Link)
    requires coord.HostsValid() && RanksFrontier(d) && prompt != []
    modifies coord`counter, coord.hosts
    ensures coord.HostsValid() && coord.OthersKept(old(coord.NextId())) && !e.Stranded?
    ensures coord.counter == old(coord.counter) % 0xFFFF + 1
    ensures produced <= Cut(Greedy(coord.net, prompt, Max(1, nNew)), eos)
    ensures e.Finished? ==> produced == Cut(Greedy(coord.net, prompt, Max(1, nNew)), eos)
    ensures left.Open? ==> coord.Stands(old(coord.NextId()), coord.Everywhere([]))
    ensures Lossless(coord, wire) ==> e.Finished? && (coord.ReachesAll(Open(end)) ==> left.Open?)
    ensures old(coord.RecordStands(places)) && coord.pc.sid != Some(old(coord.NextId())) ==> coord.RecordStands(places)
    ensures left.Open? && old(coord.PrefixCacheValid()) && |coord.net.layers| > 0 ==>
              (coord.PrefixCacheValid() <==> coord.pc.sid != Some(old(coord.NextId())))
  {
    hide Coordinator.HostsValid, Coordinator.Warm, Coordinator.Stands, Coordinator.StoresStand, Greedy, Cut, RanksFrontier,
      Coordinator.PrefixCacheValid, TreeTarget.Unused, TreeTarget.Sound;
    ghost var was, valid, stands := coord.Stores(), coord.PrefixCacheValid(), coord.RecordStands(places);
    assert forall i :: 0 <= i < |was| ==> was[i] == coord.hosts[i].sessions;
    StandingBefore(coord, places);
    StandingBefore(coord, WarmPlaces(coord));
    ValidIsStanding(coord);
    hide Coordinator.Stores, Coordinator.RecordStands;
    var sid := coord.NextSession();
    e, produced, left := TreeOn(coord, sid, prompt, nNew, eos, d, wire, end);
    AfterOwnSession(coord, was, sid, left, places, stands, valid);
  }

  /** The tree loop on a session that is freed afterwards. */
  method TreeOn(coord: Coordinator, sid: nat, prompt: seq<Token>, nNew: nat, eos: set<Token>, d: Drafter, wire: Wire, end: nat)
    returns (e: End, produced: seq<Token>, left: Link)
    requires coord.HostsValid() && RanksFrontier(d) && prompt != []
    modifies coord.hosts
    ensures coord.HostsValid() && coord.OthersKept(sid) && !e.Stranded?
    ensures produced <= Cut(Greedy(coord.net, prompt, Max(1, nNew)), eos)
    ensures e.Finished? ==> produced == Cut(Greedy(coord.net, prompt, Max(1, nNew)), eos)
    ensures left.Open? ==> coord.Stands(sid, coord.Everywhere([]))
    ensures Lossless(coord, wire) ==> e.Finished? && (coord.ReachesAll(Open(end)) ==> left.Open?)
  {
    hide Coordinator.HostsValid, Coordinator.Stands, Greedy, Cut, RanksFrontier, TreeTarget.Unused, TreeTarget.Sound;
    var target := new TreeTarget.OfSockets(coord, sid, wire);
    e, produced := TreeStream(target, prompt, nNew, eos, d);
    TargetIsSound(target);
    left := coord.FreeSession(sid, if target.open then Open(end) else Closed);
  }

  lemma TargetIsSound(target: TreeTarget)
    requires target.Sound() && target.backend.OnSockets?
    ensures target.backend.coord.HostsValid()
  {
  }

  lemma StandingBefore(coord: Coordinator, places: seq<Place>)
    ensures coord.RecordStands(places) <==> RecordStood(coord, coord.Stores(), places)
  {
  }

  /** Where the record stood, in the stores there were before a request. */
  ghost predicate RecordStood(coord: Coordinator, was: seq<map<nat, Cache>>, places: seq<Place>)
    reads coord`pc
  {
    coord.Recorded() && (coord.pc.sid.Some? ==> coord.StoresStand(was, coord.pc.sid.value, places))
  }

  /** The record survives a request on another session, and not one that has emptied its own. */
  lemma AfterOwnSession(coord: Coordinator, was: seq<map<nat, Cache>>, sid: nat, left: Link, places: seq<Place>,
                        stood: bool, valid: bool)
    requires coord.HostsValid() && |was| == |coord.hosts|
    requires forall i :: 0 <= i < |coord.hosts| ==> coord.hosts[i].sessions - {sid} == was[i] - {sid}
    requires left.Open? ==> coord.Stands(sid, coord.Everywhere([]))
    requires (stood ==> RecordStood(coord, was, places)) && (valid ==> RecordStood(coord, was, WarmPlaces(coord)))
    ensures stood && coord.pc.sid != Some(sid) ==> coord.RecordStands(places)
    ensures valid && coord.pc.sid != Some(sid) ==> coord.PrefixCacheValid()
    ensures valid && left.Open? && |coord.net.layers| > 0 && coord.pc.sid == Some(sid) ==> !coord.PrefixCacheValid()
  {
    hide Coordinator.HostsValid, Coordinator.Stands, Coordinator.StoresStand, Coordinator.PrefixCacheValid, Coordinator.RecordStands;
    ValidIsStanding(coord);
    if coord.pc.sid != Some(sid) {
      if stood { WarmIsSpared(coord, was, sid, places); }
      if valid { WarmIsSpared(coord, was, sid, WarmPlaces(coord)); }
    } else if valid && left.Open? && |coord.net.layers| > 0 {
      Clobbered(coord, sid);
    }
  }

  // ----- plain requests -----

  /** A plain greedy request, on an id of its own or one it is given, which it may keep warm.  On the fixed
      pipeline nothing fails over: a lost hop raises. */
  method GenerateState(coord: Coordinator, prompt: seq<Token>, nNew: nat, eos: set<Token>, session: Option<nat>,
                       keepWarm: bool, wire: Wire, end: nat, ghost places: seq<Place>)
    returns (e: End, out: seq<Token>, sid: nat, left: Link)
    requires coord.HostsValid() && prompt != []
    modifies coord`counter, coord.hosts
    ensures coord.HostsValid() && coord.OthersKept(sid) && !e.Stranded?
    ensures sid == (if session.Some? then session.value else old(coord.NextId()))
    ensures coord.counter == if session.Some? then old(coord.counter) else old(coord.counter) % 0xFFFF + 1
    ensures out <= Cut(Greedy(coord.net, prompt, nNew), eos)
    ensures e.Finished? ==> out == Cut(Greedy(coord.net, prompt, nNew), eos)
    ensures e.Finished? && keepWarm ==> coord.Warm(sid, prompt + out)
    ensures !keepWarm && left.Open? ==> coord.Stands(sid, coord.Everywhere([]))
    ensures Lossless(coord, wire) ==> e.Finished? && (keepWarm || coord.ReachesAll(Open(end)) ==> left.Open?)
    ensures old(coord.RecordStands(places)) && coord.pc.sid != Some(sid) ==> coord.RecordStands(places)
    ensures old(coord.PrefixCacheValid()) && !keepWarm && left.Open? && |coord.net.layers| > 0 ==>
              (coord.PrefixCacheValid() <==> coord.pc.sid != Some(sid))
  {
    hide Coordinator.HostsValid, Coordinator.Warm, Coordinator.Stands, Coordinator.StoresStand, Greedy, Cut,
      Coordinator.PrefixCacheValid;
    ghost var was, valid, stands := coord.Stores(), coord.PrefixCacheValid(), coord.RecordStands(places);
    assert forall i :: 0 <= i < |was| ==> was[i] == coord.hosts[i].sessions;
    StandingBefore(coord, places);
    StandingBefore(coord, WarmPlaces(coord));
    ValidIsStanding(coord);
    hide Coordinator.Stores, Coordinator.RecordStands;
    if session.Some? {
      sid := session.value;
    } else {
      sid := coord.NextSession();
    }
    var open;
    e, out, open := GreedySteps(coord, sid, prompt, nNew, eos, wire);
    left := if open then Open(end) else Closed;
    if !keepWarm {
      left := coord.FreeSession(sid, left);
    }
    AfterOwnSession(coord, was, sid, if keepWarm then Closed else left, places, stands, valid);
  }

  /** Prefill, then one token a step. */
  method GreedySteps(coord: Coordinator, sid: nat, prompt: seq<Token>, nNew: nat, eos: set<Token>, wire: Wire)
    returns (e: End, out: seq<Token>, open: bool)
    requires coord.HostsValid() && prompt != []
    modifies coord.hosts
    ensures coord.HostsValid() && coord.OthersKept(sid) && !e.Stranded? && (open <==> e.Finished?)
    ensures out <= Cut(Greedy(coord.net, prompt, nNew), eos)
    ensures e.Finished? ==> coord.Warm(sid, prompt + out) && out == Cut(Greedy(coord.net, prompt, nNew), eos)
    ensures Lossless(coord, wire) ==> e.Finished?
  {
    hide Coordinator.HostsValid, Coordinator.Warm, Rows, Greedy, Cut;
    var net := coord.net;
    out := [];
    var hidden := PrefillSockets(coord, wire, sid, 0, prompt);
    if hidden.None? {
      return Raised, [], false;
    }
    LastIsNext(net, [], prompt, hidden.value);
    var nxt := net.choose(hidden.value[|hidden.value| - 1]);
    assert [] + prompt == prompt && prompt + [] == prompt;
    NoTokens(net, prompt);
    for i := 0 to nNew
      invariant coord.HostsValid() && coord.OthersKept(sid) && coord.Warm(sid, prompt + out)
      invariant |out| == i && out == Greedy(net, prompt, i) && nxt == Next(net, prompt + out)
      invariant forall t :: t in out ==> t !in eos
    {
      if nxt in eos {
        StoppedGreedy(net, prompt, eos, nNew, out);
        return Finished, out, true;
      }
      hidden := StepSockets(coord, sid, |prompt| + i, nxt, wire, i + 1, prompt + out);
      GreedySnoc(net, prompt, out, nxt);
      assert prompt + (out + [nxt]) == prompt + out + [nxt];
      out := out + [nxt];
      if hidden.None? {
        CleanGreedyPrefix(net, prompt, eos, nNew, out);
        return Raised, out, false;
      }
      LastIsNext(net, prompt + out[..i], [nxt], hidden.value);
      assert out[..i] + [nxt] == out;
      nxt := net.choose(hidden.value[|hidden.value| - 1]);
    }
    StoppedGreedy(net, prompt, eos, nNew, out);
    return Finished, out, true;
  }

  /** Feed one token to a warm session. */
  method StepSockets(c: Coordinator, session: nat, pos: nat, t: Token, wire: Wire, k: nat, ghost toks: seq<Token>)
    returns (r: Option<seq<Hidden>>)
    requires c.HostsValid() && toks != [] && c.Warm(session, toks) && pos == |toks|
    modifies c.hosts
    ensures c.HostsValid() && c.OthersKept(session)
    ensures r.Some? ==> c.Warm(session, toks + [t]) && r.value == Rows(c.net, |c.net.layers|, toks, [t])
    ensures Lossless(c, wire) ==> r.Some?
  {
    hide Coordinator.HostsValid, Coordinator.Stands, Coordinator.Warm, Coordinator.AfterRelay, Coordinator.Everywhere,
      Coordinator.Continues, Embedded, Rows, FirstLost;
    EmbeddedRows(c.net, toks, [t]);
    c.WarmStands(session, toks);
    EverywhereContinues(c, toks);
    LosslessAnswers(c, wire, k);
    r := c.Relay(session, pos, Embedded(c.net, [t]), RelayFates(c, wire, k), toks, [t], c.Everywhere(toks));
    if r.Some? { c.WarmStands(session, toks + [t]); }
  }

  lemma LastIsNext(net: Net, toks: seq<Token>, chunk: seq<Token>, hidden: seq<Hidden>)
    requires chunk != [] && hidden == Rows(net, |net.layers|, toks, chunk)
    ensures hidden != [] && net.choose(hidden[|hidden| - 1]) == Next(net, toks + chunk)
  {
    assert chunk[..|chunk|] == chunk;
  }

  // ----- any sequence of requests -----

  /** What is done, and what the wire does to it: `begin` and `later` are how far the control frames before
      and after the closing roll-back are written, `end` how far that one is, or the freeing of the session. */
  datatype Request =
    | Speculative(prompt: seq<Token>, nNew: nat, draft: Net, K: nat, perturb: (nat, Token) -> Token,
                  begin: nat, wire: Wire, end: nat, later: nat)
    | Tree(prompt: seq<Token>, nNew: nat, d: Drafter, wire: Wire, end: nat)
    | Plain(prompt: seq<Token>, nNew: nat, wire: Wire, end: nat)

  ghost predicate Servable(r: Request)
  {
    r.prompt != [] && (r.Speculative? ==> |r.draft.layers| > 0) && (r.Tree? ==> RanksFrontier(r.d))
  }

  /** Every frame of the request arrives. */
  predicate Faultless(coord: Coordinator, r: Request)
  {
    && Lossless(coord, r.wire) && coord.ReachesAll(Open(r.end))
    && (r.Speculative? ==> coord.ReachesAll(Open(r.begin)) && coord.ReachesAll(Open(r.later)))
  }

  /** What the request yields on its own. */
  ghost function Answer(net: Net, eos: set<Token>, r: Request): seq<Token>
  {
    if r.prompt == [] then [] else Cut(Greedy(net, r.prompt, if r.Plain? then r.nNew else Max(1, r.nNew)), eos)
  }

  /** The next request would run on the warm session's id without being meant to. */
  predicate Clashes(coord: Coordinator, r: Request)
    reads coord
  {
    !r.Speculative? && coord.pc.sid == Some(coord.NextId())
  }

  /** The next request would go on from where some host does not stand. */
  predicate HitsAstray(coord: Coordinator, r: Request, open: bool, places: seq<Place>)
    requires r.prompt != [] && coord.Recorded() && |places| == |coord.hosts|
    reads coord
  {
    r.Speculative? && Spoiled(coord, r.prompt, if open then Open(r.begin) else Closed, places)
  }

  /** How a request ended. */
  datatype Outcome = Outcome(e: End, out: seq<Token>)

  ghost predicate Right(net: Net, eos: set<Token>, r: Request, o: Outcome)
  {
    o.out <= Answer(net, eos, r) && (o.e.Finished? ==> o.out == Answer(net, eos, r)) && !o.e.Stranded?
  }

  /** Any sequence of requests of any kinds on one slot, with any frames lost: each yields what it yields
      alone with the prefix cache disabled, or a prefix of that if it raises, up to the first that would draw
      the warm session's id or go on from a host that stands elsewhere.  `open` and `places` are what the
      sockets and the warm session have come to. */
  method ServeAll(coord: Coordinator, requests: seq<Request>, eos: set<Token>, open0: bool, places0: seq<Place>)
    returns (outs: seq<Outcome>, open: bool, places: seq<Place>)
    requires coord.HostsValid() && |places0| == |coord.hosts| && coord.RecordStands(places0)
    requires forall i :: 0 <= i < |requests| ==> Servable(requests[i])
    modifies coord, coord.hosts
    ensures coord.HostsValid() && |places| == |coord.hosts| && coord.RecordStands(places) && |outs| <= |requests|
    ensures forall i :: 0 <= i < |outs| ==> Right(coord.net, eos, requests[i], outs[i])
    ensures |outs| < |requests| ==>
              var r := requests[|outs|]; r.prompt != [] && (Clashes(coord, r) || HitsAstray(coord, r, open, places))
    ensures old(DrawnBefore(coord, |requests|) && AllWell(coord, open0, places0))
            && (forall i :: 0 <= i < |requests| ==> Faultless(coord, requests[i])) ==>
              |outs| == |requests| && AllWell(coord, open, places) && forall i :: 0 <= i < |outs| ==> outs[i].e.Finished?
  {
    hide Coordinator.HostsValid, Coordinator.RecordStands, Answer, Right, Spoiled, Faultless, Servable, AllWell;
    outs, open, places := [], open0, places0;
    ghost var calm := old(DrawnBefore(coord, |requests|) && AllWell(coord, open0, places0))
                      && forall i :: 0 <= i < |requests| ==> Faultless(coord, requests[i]);
    for i := 0 to |requests|
      invariant coord.HostsValid() && |places| == |coord.hosts| && coord.RecordStands(places) && |outs| == i
      invariant forall j :: 0 <= j < i ==> Right(coord.net, eos, requests[j], outs[j])
      invariant calm ==> DrawnBefore(coord, |requests| - i) && AllWell(coord, open, places)
      invariant calm ==> forall j :: 0 <= j < i ==> outs[j].e.Finished?
    {
      Standing(coord, places);
      Prompted(requests[i]);
      if calm { WellServed(coord, requests[i], open, places); }
      if Clashes(coord, requests[i]) || HitsAstray(coord, requests[i], open, places) {
        return;
      }
      var o;
      o, open, places := Serve(coord, requests[i], eos, open, places);
      outs := outs + [o];
    }
  }

  lemma Standing(coord: Coordinator, places: seq<Place>)
    requires coord.RecordStands(places)
    ensures coord.Recorded()
  {
  }

  lemma Prompted(r: Request)
    requires Servable(r)
    ensures r.prompt != []
  {
  }

  /** The slot after requests that lost nothing: open sockets, and the warm session on the recorded prompt. */
  predicate AllWell(coord: Coordinator, open: bool, places: seq<Place>)
    requires |places| == |coord.hosts|
    reads coord`pc
  {
    coord.pc.sid.Some? ==> open && places == WarmPlaces(coord)
  }

  /** Where nothing was lost the warm session is always reused right. */
  lemma WellServed(coord: Coordinator, r: Request, open: bool, places: seq<Place>)
    requires coord.Recorded() && r.prompt != [] && |places| == |coord.hosts| && AllWell(coord, open, places)
    requires Faultless(coord, r)
    ensures !HitsAstray(coord, r, open, places)
  {
    hide Coordinator.After, Coordinator.Everywhere;
    if r.Speculative? {
      var link := if open then Open(r.begin) else Closed;
      var hit := coord.HitAt(r.prompt, link);
      if hit.Some? {
        var ids, c := coord.pc.ids.value, hit.value;
        coord.UniformAfter(ids, c, link);
        assert c == |ids| ==> ids[..c] == ids;
        assert coord.AtHit(places, coord.pc.len, c, link) == coord.Everywhere(r.prompt[..c]);
        EverywhereContinues(coord, r.prompt[..c]);
      }
    }
  }

  /** The counter has not wrapped since the warm session was drawn, and will not within `n` draws. */
  predicate DrawnBefore(coord: Coordinator, n: nat)
    reads coord
  {
    Drawn(coord.prefix * 0x10000, coord.counter, coord.pc.sid, n)
  }

  predicate Drawn(base: nat, counter: nat, warm: Option<nat>, n: nat)
  {
    counter + n <= 0xFFFF && (warm.Some? ==> warm.value <= base + counter)
  }

  lemma DrawnOnce(base: nat, counter: nat, warm: Option<nat>, after: nat, warmAfter: Option<nat>, n: nat)
    requires n > 0 && Drawn(base, counter, warm, n)
    requires after == counter || after == counter % 0xFFFF + 1
    requires warmAfter.None? || warmAfter == warm || warmAfter == Some(base + after)
    ensures Drawn(base, after, warmAfter, n - 1)
  {
  }

  /** A speculative request that returned and lost no frame leaves the warm session on its prompt. */
  lemma FinishedIsWell(coord: Coordinator, prompt: seq<Token>, stood: seq<Place>, up: bool, end: nat)
    requires coord.Recorded() && coord.ReachesAll(Open(end)) && |stood| == |coord.hosts|
    requires up && exists toks :: prompt <= toks && stood == coord.Everywhere(toks)
    requires RecordedAs(coord, prompt, stood, Open(end))
    ensures coord.pc.sid.Some? ==> coord.After(stood, Truncate(|prompt|), Open(end)) == WarmPlaces(coord)
  {
    hide Coordinator.After, Coordinator.Everywhere, Coordinator.RecordStands;
    var toks :| prompt <= toks && stood == coord.Everywhere(toks);
    coord.UniformAfter(toks, |prompt|, Open(end));
    assert toks[..|prompt|] == prompt;
  }

  method Serve(coord: Coordinator, r: Request, eos: set<Token>, open: bool, places: seq<Place>)
    returns (o: Outcome, left: bool, after: seq<Place>)
    requires coord.HostsValid() && |places| == |coord.hosts| && coord.RecordStands(places) && Servable(r)
    requires !Clashes(coord, r) && !HitsAstray(coord, r, open, places)
    modifies coord, coord.hosts
    ensures coord.HostsValid() && |after| == |coord.hosts| && coord.RecordStands(after)
    ensures Right(coord.net, eos, r, o)
    ensures Faultless(coord, r) && old(AllWell(coord, open, places)) ==> o.e.Finished? && AllWell(coord, left, after)
    ensures forall n: nat :: n > 0 && old(DrawnBefore(coord, n)) ==> DrawnBefore(coord, n - 1)
  {
    hide Coordinator.HostsValid, Coordinator.Warm, Coordinator.Stands, Coordinator.PrefixCacheValid, RanksFrontier, Drawn,
      Spoiled, PromptLost, BlockLost, CutLost, Coordinator.HitAt, Coordinator.After, Coordinator.Everywhere, Cut, Greedy;
    ghost var base, counter, warm := coord.prefix * 0x10000, coord.counter, coord.pc.sid;
    after := places;
    match r {
      case Speculative(prompt, nNew, draft, K, perturb, begin, wire, end, later) =>
        var e, out, stood, up, link := GenerateSpeculativeStream(coord, draft, prompt, nNew, eos, K, perturb,
                                         if open then Open(begin) else Closed, wire, end, later, places);
        o, left := Outcome(e, out), link.Open?;
        after := coord.After(stood, Truncate(|prompt|), if up then Open(end) else Closed);
        if e.Finished? && coord.ReachesAll(Open(end)) { FinishedIsWell(coord, prompt, stood, up, end); }
      case Tree(prompt, nNew, d, wire, end) =>
        var e, out, link := GenerateTreeStream(coord, prompt, nNew, eos, d, wire, end, places);
        o, left := Outcome(e, out), link.Open?;
      case Plain(prompt, nNew, wire, end) =>
        var e, out, sid, link := GenerateState(coord, prompt, nNew, eos, None, false, wire, end, places);
        o, left := Outcome(e, out), link.Open?;
    }
    forall n: nat | n > 0 && Drawn(base, counter, warm, n) ensures Drawn(base, coord.counter, coord.pc.sid, n - 1) {
      DrawnOnce(base, counter, warm, coord.counter, coord.pc.sid, n);
    }
  }

  // ----- the counter -----

  /** The counter `k` draws later. */
  function CounterAfter(counter: nat, k: nat): nat
  {
    if k == 0 then counter else CounterAfter(counter, k - 1) % 0xFFFF + 1
  }

  lemma {:induction false} CounterIs(counter: nat, k: nat)
    requires 1 <= counter <= 0xFFFF
    ensures CounterAfter(counter, k) == (counter - 1 + k) % 0xFFFF + 1
  {
    if k > 0 {
      CounterIs(counter, k - 1);
      WrapNext(counter - 1 + (k - 1));
    }
  }

  lemma WrapNext(x: nat)
    ensures (x % 0xFFFF + 1) % 0xFFFF == (x + 1) % 0xFFFF
  {
  }

  /** An id comes back exactly every 65535 draws: that is when a warm session may be clobbered. */
  lemma IdComesBackIff(counter: nat, k: nat)
    requires 1 <= counter <= 0xFFFF
    ensures CounterAfter(counter, k) == counter <==> k % 0xFFFF == 0
  {
    CounterIs(counter, k);
    SameRemainder(counter - 1, k);
  }

  lemma SameRemainder(c: nat, k: nat)
    requires c < 0xFFFF
    ensures (c + k) % 0xFFFF == c <==> k % 0xFFFF == 0
  {
    var q, r := k / 0xFFFF, k % 0xFFFF;
    assert k == 0xFFFF * q + r;
    if c + r < 0xFFFF {
      Remainder(c + k, q, c + r);
    } else {
      Remainder(c + k, q + 1, c + r - 0xFFFF);
    }
  }

  lemma Remainder(x: nat, q: nat, r: nat)
    requires x == 0xFFFF * q + r && r < 0xFFFF
    ensures x % 0xFFFF == r
  {
  }

  /** Two orchestrators never hand out the same id. */
  lemma PrefixesApart(a: Coordinator, b: Coordinator)
    requires a.prefix != b.prefix
    ensures a.NextId() != b.NextId()
  {
    assert a.NextId() / 0x10000 == a.prefix && b.NextId() / 0x10000 == b.prefix;
  }

  /** At the wrapped counter: the first id ever drawn is warm, 65535 have been drawn, and a tree request
      empties the warm session. */
  method WrappedCounterClobbers(coord: Coordinator, prompt: seq<Token>, nNew: nat, eos: set<Token>, d: Drafter)
    returns (produced: seq<Token>)
    requires coord.HostsValid() && coord.PrefixCacheValid() && |coord.net.layers| > 0
    requires RanksFrontier(d) && prompt != []
    requires coord.pc.sid == Some(coord.prefix * 0x10000 + 1) && coord.counter == 0xFFFF
    modifies coord`counter, coord.hosts
    ensures coord.HostsValid() && !coord.PrefixCacheValid() && coord.pc == old(coord.pc)
    ensures coord.Stands(coord.pc.sid.value, coord.Everywhere([]))
  {
    hide Coordinator.HostsValid, Coordinator.Warm, Coordinator.Stands, RanksFrontier;
    SoundReachesAll(coord);
    var e, left;
    e, produced, left := GenerateTreeStream(coord, prompt, nNew, eos, d, Wire([], []), |coord.hosts|, []);
  }
}
