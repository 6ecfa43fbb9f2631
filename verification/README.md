# Mesh inference: verified model

The engine splits a causal language model over stages that live on different machines, and then
makes it fast: linear speculation, draft trees, batching, prefix reuse, chain relay, failover and
re-homing onto another orchestrator.  Each of these mutates, rolls back, compacts or reuses the
stages' key/value caches, and each promises tokens identical to plain greedy decoding.  This project
models the caches, the masks, the decode loops, the relay protocol, the control plane and the
planners, and proves those promises for every model and every split:

- speculation, draft trees, plain decoding and the prefix cache on a fixed pipeline of hosts, for every
  draft, every mix of requests and every pattern of lost frames: what a request streams is its answer, or a
  prefix of it if it raises, up to a reuse of the prefix cache that an earlier loss has spoiled;
- batching on that pipeline, as long as nothing is lost;
- plain decoding, failover, re-homing, both relay modes, speculation and draft trees on the live mesh, for
  every pattern of hop failures;
- on the live mesh a roll-back or a tree compaction reaches only the connected nodes, so there the
  promise does not always hold; the model says exactly when it does.

## How the model is built

- **The network** (`Model.dfy`).  A decoder layer is an arbitrary function of the slots its mask lets
  a query see, in slot order; a slot is the layer's input there and the position it was rotated to.
  Embedding and `argmax(lm_head(norm(.)))` are arbitrary functions.  `Model.Greedy` is the reference
  every decoding path refines; `Model.Cut` stops it before the first end-of-sequence token.
- **What a cache means** (`Attention.dfy`).  Each slot carries, in proofs only, a label: the token
  sequence it stands for.  A mask is right when it shows a query exactly the slots labelled with the
  prefixes of the query's own label.  `Attention.PassOnLabels` says that one pass through any layers
  under a right mask computes the uncached, unsplit values.  Causal, tree and padded batch masks are
  three instances.
- **Stages and workers** (`StageKV.dfy`, `Stage.dfy`, `Tree.dfy`, `Worker.dfy`).  Caches and workers
  are objects mutated in place, as in the engine.
- **Fixed pipeline** (`Coordinator.dfy`, `Requests.dfy`, `PrefixReuse.dfy`, `Batch.dfy`).  What the sockets
  take of every control frame (`Coordinators.Link`) and which hops of every relay are lost are inputs.
  Where a host stands for a session is a token sequence, or unknown (`Workers.Place`).
- **Live mesh** (`Fates.dfy`, `Chain.dfy`, `Mesh.dfy`, `Failover.dfy`, `Rehome.dfy`).  A hop is answered,
  lost before the worker sees the frame, or lost after the worker has appended to its cache.  The
  schedule of every try of every step is an input (`Failover.Attempt`): who is READY when it begins, what
  its re-prefill loses and what its relay loses.  When a request returns is stated in terms of it.
- **Loops over either** (`Targets.dfy`, `SpecDecode.dfy`, `TreeTarget.dfy`, `Generation.dfy`).  The speculative
  and the tree loop are written once, over a protocol that in-process stages, the fixed pipeline and the
  live mesh implement, and that may raise.
- **Control plane** (`Topology.dfy`, `Registry.dfy`, `Provider.dfy`).  Nodes, slots, trust, bans, pinned
  routes, load counters and balances, with one invariant that every call keeps, so that it holds after
  any interleaving of calls.  `Provider.dfy` shows that this registry is the route provider the live
  mesh is proved against.
- **Planners** (`Planner.dfy`, `OnChain.dfy`), with `Sorting.dfy`, `Products.dfy` and `Wrappers.dfy`
  beneath.

Check everything with `dafny verify dfyconfig.toml`.

## Where the code does less than it says

- A resumed session is exact if and only if every replaced holder's slot is empty
  (`Rehoming.ResumesExactlyIff`): a replacement starts with no cache and nothing re-prefills it, although
  the comment on `acquire_route` speaks of that slice re-prefilling.  A co-located stage of the
  orchestrator that resumes is such a replacement (`Rehoming.ColocatedResumesIff`).
- On the live mesh `_kv_truncate` and `_kv_tree_keep` write to the open connections and swallow a lost
  frame.  A session then stands where the decode loop believes it does if and only if nothing was to be
  dropped or every pinned holder with layers is connected and got the frame
  (`Failover.HeadNode.KvTruncate`, `KvTreeKeep`, `Verify`).  A chain connects to the head alone, so a
  rejected draft stays in every other holder's cache (`ChainStrandsIff`, `SecondOfChainStranded`), and
  what is decoded next goes wrong for some model (`Rehoming.RollsBackExactlyIff`).
- Session ids wrap after 65535 draws, and a prefix hit draws none.  A tree or plain request that draws
  the warm session's id empties it while the record still names it
  (`Requests.WrappedCounterClobbers`, `Requests.IdComesBackIff`).
- A request that raises is recorded as warm all the same, and one of another kind whose relay is
  lost closes the sockets under the warm session.  `PrefixReuse.HitExactIff` says when the next hit is right, wherever the
  hosts stand and whatever the sockets take of its roll-back; `PromptLostRightIff`, `BlockLostRightIff`,
  `CutLostHeals` and `ClosedRightIff` say what that comes to after each kind of loss.  After a block lost in a
  verify round, a prompt that extends the recorded one goes wrong even over sound sockets.
  `PrefixReuse.HalfPrefilledDiverges` is a pipeline on which no hit is right.
- `_build_tree_batched` appends its first level without looking at `n_nodes`
  (`Trees.FirstLevelIgnoresLimit`).
- `split_model` accepts boundaries out of order and then puts some layer into two stages
  (`Stages.SplitModel`).
- `plan_weighted_split` meets `min_size` if and only if the rounded split lacks at most `10 * n` layers
  of it (`Planner.PlanWeightedSplit`); `min_size <= 10` is enough (`Planner.SmallMinimumIsMet`), and
  `Planner.LargeMinimumMissed` is an input for which it is not met.  The early `break` in the repair
  loop is never taken.
- `acquire_route` puts load before trust; `Registries.Registry.FreshPickTrustedIff` says exactly when a fresh
  pick is trusted, and `Registries.TrustedPassedOver` passes over a READY trusted holder.
- The streaming loops yield their first token before they look at the limit, so a limit of 0 acts as 1.
- A stage with no layers always reports a cache length of 0 (`KV.LengthReadIff`), so `SplitTarget` needs
  a first stage that has some.
- A re-registration refused for lack of capacity has already dropped the node's slot, while its old
  entry stays in the node table.

## Model

| member | source | states |
|---|---|---|
| `Model.ChoicesAreGreedy` | engine/coordinator.py:1042-1058 | tokens that are each the choice after their predecessors are the greedy tokens: the argument behind every verify loop |
| `Model.GreedyAppend` | engine/coordinator.py:1095-1104 | stopping greedy decoding and going on is decoding in one go |
| `Model.CutResumes` | engine/coordinator.py:1082-1104 | resuming where a first part stopped, at its limit or at an end-of-sequence token, gives the uninterrupted answer |
| `Model.StoppedGreedy` | engine/specdecode.py:158-162 | clean greedy tokens that stop at the limit or right before an end-of-sequence token are the whole answer |
| `Attention.PassOnLabels` | engine/stage.py:65-95 | under any mask that shows each query its own history, a cached pass through any run of layers computes the uncached unsplit values and leaves every slot holding what its label says |
| `Attention.LinearPass` | engine/stage.py:65-95 | a forward call on a chunk after `toks` gives the true hidden rows and takes every layer's cache from `toks` to `toks + chunk` |
| `Attention.CausalMasksChains` | engine/stage.py:51-62 | the causal mask over a cache shows each new token exactly its own prefix |
| `Attention.HoldsIsContext` | engine/kv.py:22-33 | what a stage holds determines its cache entirely, layer by layer, and leaves the layers it does not own empty |
| `Attention.RunLayersSplit` | engine/stage.py:65-95 | running layers `[s, e)` is running `[s, m)` and then `[m, e)`, for any mask and any cache |
| `KV.StageKV.GetSeqLength` | engine/kv.py:27-33 | the length of the first populated layer |
| `KV.StageKV.TruncateTo` | engine/kv.py:53-66 | every longer layer is cut to the length, the others are untouched |
| `KV.StageKV.KeepTreePath` | engine/kv.py:68-85 | every populated layer keeps exactly the prefix and the accepted slots, in that order |
| `KV.LengthReadIff` | engine/kv.py:27-33 | the length read is the number of tokens held if and only if the stage has layers; without any it is 0 |
| `KV.TruncateHolds` | engine/kv.py:53-66 | rolling back gives exactly the cache of the shorter token sequence |
| `KV.CompactionIsLinear` | engine/kv.py:68-85 | keeping a root-to-node chain leaves exactly the cache that decoding that path token by token would have left |
| `Stages.Stage.Forward` | engine/stage.py:65-95 | the rows out and the whole new cache are those of running the stage's layers under the given mask, or the causal one |
| `Stages.SplitModel` | engine/stage.py:105-119 | for any boundaries: an error exactly when a non-empty range leaves the model; in order, the stages tile all layers; out of order, some layer lies in two stages |
| `Stages.SplitIsUnsplit` | engine/stage.py:105-119 | on any input, mask and caches, the composed stages give the unsplit model's rows, and each stage's cache is the unsplit one on its layers |
| `Stages.AnyChunkingIsOnePass` | engine/stage.py:65-95 | however a sequence is divided into successive calls, the rows and the cache are those of one call on all of it |
| `Trees.BuildTreeMask` | engine/tensors.py:128-143 | the loop up the parent pointers ends, and each row shows exactly the prefix and the node's root path |
| `Trees.TreeMasksChains` | engine/tensors.py:128-143 | so each tree node sees exactly the slots of its own token history, in order |
| `Trees.BuildTree` | engine/coordinator.py:785-808 | whatever the draft scores, the tree is rooted at the head, every parent comes earlier, every node lies one deeper than its parent, each carries a token the draft proposed there, no two the same proposal; it is full, or every node above the depth limit has all its children |
| `Trees.BuildTreeBatched` | engine/coordinator.py:811-863 | for any ranking, exactly the tree that level-by-level drafting with a beam gives; the size lies between the whole first level and the larger of that and the node limit; the depth limit acts as at least 1 |
| `Trees.FirstLevelIgnoresLimit` | engine/coordinator.py:825-836 | a node limit of 1 that gives three nodes |
| `Trees.AcceptTree` | engine/coordinator.py:866-882 | the path starts at the root, each step takes a child carrying the target's choice, and it stops only where no child does; what is committed is the path's tokens and the bonus token |
| `Trees.AcceptedIsGreedy` | engine/coordinator.py:866-882 | the accepted path and the bonus token are the target's next greedy tokens |
| `Workers.Worker.GetCache` | engine/stage_worker.py:263-274 | position 0 starts afresh, any other position continues the entry, a missing one starts empty |
| `Workers.Worker.Activation` | engine/stage_worker.py:293-301 | the reply and the session's new entry are those of the stage's causal call; no other session changes |
| `Workers.Worker.TreeActivation` | engine/stage_worker.py:317-334 | the same for a tree frame, on the mask rebuilt from the parent pointers |
| `Workers.Worker.KvCtrl` | engine/stage_worker.py:376-396 | free, reset, truncate and tree-keep act on one session's entry, and on an unknown session not at all |
| `Workers.ActivationContinues` | engine/stage_worker.py:293-301 | a frame at the position where the session stands yields the true rows and leaves it holding the longer sequence |
| `Workers.PlacedContinues` | engine/stage_worker.py:263-301 | so does one for position 0 wherever the session stands, and any on a stage without layers |
| `Workers.TreeCallOnLabels` | engine/stage_worker.py:317-334 | a tree frame after a warm prefix gives each node the row of decoding its own root path |
| `Coordinators.LcpLen` | engine/coordinator.py:583-588 | the loop finds the longest common prefix: equal up to there and not one token further |
| `Coordinators.Coordinator.NextSession` | engine/coordinator.py:274-281 | the low 16 bits are 1 to 65535, the high ones the orchestrator's prefix |
| `Coordinators.Coordinator.Relay` | engine/coordinator.py:337-355 | on the fixed pipeline, from hosts of which all with layers stand at `toks`: an error exactly if some reply is missed, else the true final rows; exactly the hosts that ran the frame stand at `toks + chunk`; other sessions untouched |
| `Coordinators.Coordinator.RelayTree` | engine/coordinator.py:731-747 | on the fixed pipeline, an error exactly if some reply is missed; else each node's final row is that of its own root path, on every host, through every stage |
| `Coordinators.Coordinator.KvTreeKeep` | engine/coordinator.py:765-782 | on the fixed pipeline, an error exactly if a write fails; else every host is left exactly at the accepted path, as if decoded token by token |
| `Coordinators.Coordinator.KvTruncate` | engine/coordinator.py:559-579 | on the fixed pipeline, exactly the co-located stage and the hosts up to the first failing write are cut, and an error is raised exactly if a write fails |
| `Coordinators.Coordinator.RollBack` | engine/coordinator.py:559-579 | wherever the hosts stand, where they stand after a roll-back of which only some writes arrive |
| `Coordinators.Coordinator.ResetSessions` | engine/coordinator.py:530-557 | on the fixed pipeline, exactly the hosts up to the first failing write drop the session; a failing write closes the sockets instead of raising |
| `Coordinators.Coordinator.BeginSession` | engine/coordinator.py:590-620 | wherever the hosts stand and whatever writes fail: the warm session is reused exactly if the common prefix, short of one token, is long enough and no write of its roll-back fails, and then all of that prefix is; a failed roll-back gives it up and frees it where the sockets reach; where every host stands at the start |
| `Coordinators.Coordinator.EndSession` | engine/coordinator.py:634-660 | the prompt is recorded with the hosts rolled back to it where the sockets reach, also over closed sockets; a failing write gives up the old and the new session; whatever is given up or replaced is freed wherever the sockets reach, and nothing else is disturbed |
| `Targets.SplitTarget.ForwardTokens` | engine/specdecode.py:189-195 | in-process stages, a first one without layers included, give the true rows and all stand at the longer sequence |
| `Targets.SplitTarget.KvLen` | engine/specdecode.py:180-181 | the length of what was fed, or 0 if the first stage has no layers |
| `Targets.SplitTarget.Rollback` | engine/specdecode.py:197-199 | all stages stand at the shorter sequence |
| `Targets.SocketTarget.ForwardTokens` | engine/coordinator.py:1293-1308 | relaying only the part of the prompt that is not warm gives the same last row as relaying all of it; an error exactly if a reply is missed, and then where every host stands |
| `Targets.SocketTarget.Rollback` | engine/coordinator.py:1310-1312 | on the fixed pipeline, the wire sessions and the local length agree on the shorter sequence, or an error is raised and where every host stands is known |
| `Targets.LiveTarget.ForwardTokens` | engine/coordinator.py:1293-1308 | the same relay on the live mesh, whoever is READY afterwards; a lost hop raises |
| `Targets.LiveTarget.Rollback` | engine/coordinator.py:1310-1312 | on the live mesh nothing is raised; the session stands at the shorter sequence exactly if the result says so, and always in a star whose writes arrive |
| `SpecDecode.GreedyDraft.Propose` | engine/specdecode.py:223-241 | exactly the `K` tokens the draft chooses after one another, unless perturbed, and the draft's cache grows by exactly the block the target verifies; the length assertion is a proved fact |
| `SpecDecode.GreedyDraft.Rollback` | engine/specdecode.py:243-244 | the draft stands at the shorter sequence |
| `SpecDecode.SpecStats.Bump` | engine/specdecode.py:35-48 | one round, its accepted and its proposed tokens are counted, and the window grows by one entry |
| `SpecDecode.Agreed` | engine/specdecode.py:82-87 | the longest prefix of the draft that the target chooses itself |
| `SpecDecode.AgreedIsGreedy` | engine/specdecode.py:82-90 | agreed drafts and the target's next choice are the next greedy tokens, whatever was proposed |
| `SpecDecode.Round` | engine/specdecode.py:77-98 | a round commits every draft up to the first that the target does not choose itself, and the target's own choice there; target, draft and position stay in step; or it is ended from outside |
| `SpecDecode.RoundCommits` | engine/specdecode.py:82-90 | how many that are: as many as the draft's proposals share with the greedy tokens, and never fewer |
| `SpecDecode.SpeculativeGreedy` | engine/specdecode.py:52-103 | the first `n_new` greedy tokens for any draft, any `K`, any perturbation, unless it raises; untruncated length is 1 + rounds + accepted; rounds and accepted are exactly those of draft and target, and the caller's counters grow by the call's |
| `SpecDecode.SelfDraftAcceptsAll` | engine/specdecode.py:52-103 | a model that drafts for itself has all `K` proposals accepted in every round, and needs as many rounds as the length divided by `K + 1`, rounded up |
| `SpecDecode.SpeculativeGreedyStream` | engine/specdecode.py:107-162 | the same tokens, stopped before the first end-of-sequence token or at the limit, with the exact rounds and accepted drafts up to there; a prefix of them whenever it is ended from outside |
| `TreeTargets.TreeTarget.Verify` | engine/coordinator.py:731-763 | a tree verify on either kind of pipeline: each node's row, and slots labelled with the nodes' paths on every stage |
| `TreeTargets.TreeTarget.Keep` | engine/coordinator.py:765-782 | every stage stands at the accepted path; a lost write raises on the fixed pipeline; on the mesh a holder is left behind only if a write is lost, also where the mesh relays in a chain |
| `Generation.TreeRound` | engine/coordinator.py:910-926 | a tree round drafts what the draft proposes, commits the longest accepted path and the bonus token, all of them greedy tokens, and every stage stands at exactly what was committed before the new head |
| `Generation.TreeStream` | engine/coordinator.py:888-935 | for any trees in any rounds, the stream is the plain greedy sequence cut at the limit or the first end-of-sequence token, or a prefix of that if it raises; no other session changes |
| `Generation.GenerateSpeculativeStream` | engine/coordinator.py:1174-1203 | wherever earlier losses left the warm session and whatever is lost now: unless the prompt reuses it astray, the request yields what it yields with the cache disabled, or a prefix if it raises, which it does not where nothing is lost; where the lost relay or roll-back leaves every host, and what is recorded |
| `Generation.SpeculativeStreamOnMesh` | engine/coordinator.py:1174-1203 | on the live mesh, a prefix of the greedy answer, and all of it unless it raises or a roll-back leaves a holder behind; it raises only if there is no route at the start or some scheduled relay is lost, and the latter happens never in a star whose writes arrive |
| `Generation.TreeStreamOnMesh` | engine/coordinator.py:888-937 | the same for trees, and there never if all writes arrive |
| `Requests.GenerateTreeStream` | engine/coordinator.py:888-937 | whatever is lost, a tree request touches one session; the warm session stays where it stands if the id drawn is another, and nothing is left of it if it is the same and could be freed |
| `Requests.GenerateState` | engine/coordinator.py:1060-1075 | a plain request yields the greedy answer, or a prefix if it raises, and leaves its session at exactly its tokens or freed; the same about the warm session |
| `Requests.ServeAll` | engine/api.py:345-412 | any sequence of speculative, tree and plain requests on one slot, with any frames lost: each yields what it yields alone with the cache disabled, or a prefix if it raises, up to the first that would draw the warm session's id or reuse it astray; there is none if nothing is lost and the counter has not wrapped |
| `Requests.IdComesBackIff` | engine/coordinator.py:274-281 | an id comes back exactly every 65535 draws |
| `Requests.WrappedCounterClobbers` | engine/coordinator.py:888-937 | at the wrapped counter a tree request empties the warm session, and the record still names it |
| `Requests.PrefixesApart` | engine/coordinator.py:274-281 | orchestrators with different prefixes never draw the same id |
| `PrefixReuse.HitExactIff` | engine/coordinator.py:590-620 | wherever the hosts stand and whatever the sockets take, a hit is exact for every model, any rest of the prompt and any number of tokens if and only if every host with layers is rolled back to the reused prefix or stands there and is not |
| `PrefixReuse.SpoiledIff` | engine/coordinator.py:590-620 | the hits the sequence of requests stops at are exactly those that go wrong for some model with as many layers and stores standing alike |
| `PrefixReuse.PromptLostRightIff` | engine/coordinator.py:634-651 | after a lost prompt a host is right if it ran the prompt and need not be rolled back or is, or if it did not and stood right before or is rolled back to there |
| `PrefixReuse.BlockLostRightIff` | engine/coordinator.py:634-651 | after a block lost in a later round the co-located stage is right, a remote host if the roll-back reaches it, or there is none and it stood at the prompt alone |
| `PrefixReuse.CutLostHeals` | engine/coordinator.py:634-651 | a lost roll-back does no harm: the closing one reaches every host, or nothing is recorded |
| `PrefixReuse.ClosedRightIff` | engine/coordinator.py:351-353 | after another request has closed the sockets, what has to go stays on every remote host |
| `PrefixReuse.LostPromptThenHit` | engine/coordinator.py:1174-1203 | one run: a request whose prompt is lost, and that the next hit goes wrong exactly if a host with layers is not right |
| `PrefixReuse.HalfPrefilledDiverges` | engine/coordinator.py:590-651 | two stages of which the second missed the prompt: whatever is reused over whatever sockets, some model goes wrong |
| `ChainRoute.EncodeRoute` | engine/chain.py:26-45 | an error exactly when some hop or the count does not fit its field |
| `ChainRoute.DecodeRoute` | engine/chain.py:48-66 | the loop reads exactly the route and the rest, or reports truncation |
| `ChainRoute.DecodeEncode` | engine/chain.py:26-66 | decoding an encoded route followed by anything gives both back |
| `ChainRoute.EncodeDecode` | engine/chain.py:26-66 | whatever decodes re-encodes to the same bytes, so a header has one reading |
| `MeshRelay.RouteContinues` | engine/coordinator.py:421-453 | along a route of ready holders the relay computes the true rows and leaves every holder at the longer sequence |
| `MeshRelay.RouteProvider.Acquire` | engine/registry.py:229-281 | a route exactly if every slot has a READY holder: one per slot, keeping every pinned one that is still READY |
| `Providing.Acquire` | engine/registry.py:229-281 | the registry's own call keeps that promise: a route exactly if every slot has a READY holder; same pins, same READY holders, every pinned one kept |
| `Providing.SameCoverage` | engine/registry.py:221-226 | the registry covers every slot exactly if the mesh sees a READY holder for each |
| `Providing.PickedIsAcquired` | engine/registry.py:248-259 | what the registry picks for a session is a route of READY holders that keeps the pinned ones |
| `Providing.MarkSuspect` | engine/registry.py:129-131 | suspecting a node takes exactly that node out of every slot's holders |
| `Providing.SomeViewMirrors` | engine/registry.py:221-226 | every state of the registry has such a view |
| `MeshRelay.Mesh.RunHere` | engine/stage_worker.py:336-351 | a hop appends to its own cache what the route's relay prescribes and disturbs no other holder |
| `MeshRelay.Mesh.Star` | engine/coordinator.py:421-453 | a round trip per holder: on success the whole relay; on failure the holder named is the first whose reply is missed, it has advanced exactly if only the reply was lost, and nothing behind it has |
| `MeshRelay.Mesh.HeadAndRoute` | engine/chain.py:76-92 | the head is dialled directly and the rest of the route travels in the frame, in order |
| `MeshRelay.Mesh.NextFrame` | engine/stage_worker.py:336-364 | popping and re-encoding at holder `k` yields exactly the header for holder `k + 1` |
| `MeshRelay.Mesh.ChainHop` | engine/stage_worker.py:336-374 | the nested hops relay the activation and bubble the reply up unchanged; an error names exactly the first hop whose predecessor missed its reply; exactly the holders up to the first that never saw the frame have advanced |
| `MeshRelay.Mesh.SuspectByEndpoint` | engine/coordinator.py:486-498 | the route's node at the reported address, if there is one |
| `MeshRelay.Mesh.Chain` | engine/coordinator.py:455-484 | on success the rows and caches of the star; on failure the suspect is exactly the first hop whose reply its predecessor missed, and each holder has advanced exactly if it saw the frame |
| `MeshRelay.Mesh.ControlAll` | engine/coordinator.py:565-576 | a control frame reaches exactly the connected nodes whose write succeeds, or with `strict` those before the first failing write; each failing write loses its connection; no other session or node changes |
| `Failover.HeadNode.Pin` | engine/coordinator.py:428-434 | the first hop of a session pins a fresh route, and a re-homed session gets back the very holders that hold its cache |
| `Failover.HeadNode.RelayDynamic` | engine/coordinator.py:421-453 | on success every pinned holder stands at exactly the tokens so far; on failure exactly the lost hop is suspected, its connection (in a chain, the head's) and the pin are dropped, and every holder has advanced exactly if it ran the frame |
| `Failover.HeadNode.RelayPinned` | engine/coordinator.py:431-453 | the same along a route already pinned |
| `Failover.HeadNode.Relay` | engine/coordinator.py:337-341 | the same with the co-located stage in front |
| `Failover.HeadNode.ResetSessions` | engine/coordinator.py:530-557 | the session is freed here, at the control plane, so that the next hop pins afresh, and at exactly the connected nodes whose write succeeds; the other connections are dropped |
| `Failover.HeadNode.KvTruncate` | engine/coordinator.py:559-576 | the pinned route stands at the shorter sequence if and only if nothing was to be cut or every pinned holder with layers is connected and got the frame |
| `Failover.HeadNode.Verify` | engine/coordinator.py:1293-1312 | one speculative verify on the live mesh: true rows, and the same condition for the roll-back behind it |
| `Failover.HeadNode.StarStrandsIff` | engine/coordinator.py:437-445 | in a star only a failing write strands a holder |
| `Failover.HeadNode.ChainStrandsIff` | engine/coordinator.py:465-484 | in a chain every holder with layers is stranded but the head and those dialled before |
| `Failover.HeadNode.SecondOfChainStranded` | engine/coordinator.py:465-484 | two holders on a fresh chain: the second never hears of a roll-back |
| `Failover.HeadNode.RelayTree` | engine/coordinator.py:748-763 | a tree verify over the pinned route gives each node the row of its own root path and leaves every holder with the tree's slots; an error exactly if some hop is lost |
| `Failover.HeadNode.KvTreeKeep` | engine/coordinator.py:765-780 | the pinned route stands at the accepted path if and only if the whole tree was accepted or every pinned holder with layers is connected and got the frame |
| `Failover.HeadNode.ReuseWarm` | engine/coordinator.py:606-611 | a warm session is reused if and only if every pinned holder is connected and no write fails, and what is reused is exact |
| `Failover.HeadNode.Reprefill` | engine/coordinator.py:500-509 | running the whole sequence again from position 0 on a fresh route rebuilds every holder, whatever stale caches it finds, and no other connected node keeps anything of the session; no coverage exactly if a slot has no READY holder, lost exactly if a reply is missed |
| `Failover.HeadNode.RelayWithFailover` | engine/coordinator.py:511-528 | for every schedule of tries: it returns exactly if, before every try is lost or one finds a slot without a READY holder, one loses neither its re-prefill nor its relay; then its last row is the true one and every holder of the final route stands at exactly the tokens so far |
| `Failover.HeadNode.EndsAsFirstToDecide` | engine/coordinator.py:511-528 | what a schedule comes to: lost exactly if every try up to the limit is, and else what the first try does that is not lost |
| `Failover.HeadNode.StepReturnsIff` | engine/coordinator.py:520-528 | a token step returns if and only if one of its three tries does before which every other was merely lost, and is lost if and only if all three are |
| `Failover.HeadNode.GreedySteps` | engine/coordinator.py:1042-1058 | for every schedule of failures, and whoever is READY after each step, what is streamed is a prefix of the failure-free answer; all of it exactly if every step of the answer returns, and else up to the first that does not, raising what that step does |
| `Failover.HeadNode.GenerateState` | engine/coordinator.py:1060-1075 | the same behind a prefill: it returns exactly if the prefill and every step of the answer do; then the tokens and the carried state are those of a run without failures, and a session kept warm holds exactly its tokens |
| `Failover.HeadNode.ResumeState` | engine/coordinator.py:1095-1104 | resuming from a carried state continues that run, and returns exactly if every step of the rest does |
| `Failover.Rehome` | engine/coordinator.py:1060-1104 | `n1` steps on one orchestrator and `n2` on another give the tokens and state of `n1 + n2` steps uninterrupted, if all pinned holders stay READY and the survivor has no stage of its own; it does not return only where the prefill or some step does not |
| `Rehoming.RunIsGreedy` | engine/stage_worker.py:263-301 | with only holders of empty slots astray, any chunk and any number of further tokens are exactly the uninterrupted ones |
| `Rehoming.StrayDiverges` | engine/stage_worker.py:263-301 | a holder with layers that stands elsewhere makes the next token wrong for some model |
| `Rehoming.ContinuesExactlyIff` | engine/stage_worker.py:263-301 | wherever the holders stand, going on is exact, for every model, every chunk and any number of tokens, if and only if only holders of empty slots stand elsewhere |
| `Rehoming.ResumesExactlyIff` | engine/registry.py:241-281 | a resumed session is exact for every model and any number of tokens if and only if only holders of empty slots were replaced |
| `Rehoming.ColocatedResumesIff` | engine/coordinator.py:329-335 | resumed by an orchestrator with its own first stage, it is exact if and only if that stage has no layers |
| `Rehoming.RollsBackExactlyIff` | engine/coordinator.py:559-576 | after a roll-back a session goes on exactly if and only if nothing was to be cut or every holder with layers got the frame |
| `Batching.CountLeftMask` | engine/coordinator.py:997-1001 | the mask's cumulative sum gives every real token its true position, however much padding precedes it |
| `Batching.PaddedMasksChains` | engine/coordinator.py:940-946 | the padded causal mask shows each query its own row's real tokens, never padding |
| `Batching.BatchStage.BatchActivation` | engine/stage_worker.py:303-315 | a batched call takes every row from where it stands to its longer sequence, with the true rows out |
| `Batching.BatchCoordinator.BatchInputs` | engine/coordinator.py:940-946 | every prompt is left-padded to the longest, and its mask marks exactly its own tokens |
| `Batching.BatchCoordinator.RelayBatch` | engine/coordinator.py:948-971 | the same through every stage |
| `Batching.BatchCoordinator.EmitRow` | engine/coordinator.py:1003-1015 | a row emits its current token unless it is finished, and is finished at its own cap or end-of-sequence token |
| `Batching.BatchCoordinator.Step` | engine/coordinator.py:1022-1027 | a step feeds every row, finished or not, its own next token |
| `Batching.BatchCoordinator.GenerateBatch` | engine/coordinator.py:984-1030 | each row emits what greedy decoding of its prompt alone emits under its own cap, for every batch of non-empty prompts; the batch's caches are freed |
| `MeshRegistry.ValidateTopology` | onchain/programs/mesh_registry/src/lib.rs:343-366 | accepts exactly the layouts within limits whose slots are non-empty and hold every layer exactly once, in any order; each limit error exactly when its limit is the first one broken |
| `Planner.BalancedSum` | engine/topology.py:263-267 | the balanced slot sizes use up the layer budget exactly, differ by at most one, and the larger come first |
| `Planner.PairwiseIsMatching` | engine/topology.py:94-103 | comparing sorted demands with sorted capacities succeeds if and only if some assignment gives every demand its own node with enough capacity |
| `Planner.PlanStages` | engine/topology.py:66-106 | the least stage count for which every copy of every slot can be put on a node of its own that holds it, and an error exactly when there is none |
| `Planner.FeasibleIsStaffable` | engine/topology.py:94-103 | giving every copy of every slot its own node is the same as meeting the list of demands the code compares |
| `Planner.RemainderBounds` | engine/topology.py:155-161 | the layers left after rounding down are non-negative and fewer than the stages, so each stage gets at most one |
| `Planner.RoundSplit` | engine/topology.py:155-161 | largest-remainder rounding, ties to the earlier stage, summing to the total |
| `Planner.RankIsPlace` | engine/topology.py:159 | the sorted order hands the remainder to the stages with the largest fractional parts |
| `Planner.RoundsByFraction` | engine/topology.py:155-161 | a stage gets its proportion rounded down or one more; one that is rounded up has a larger fractional part than one that is not, or an equal one and comes earlier |
| `Planner.PlanWeightedSplit` | engine/topology.py:140-172 | sizes sum to the total; they meet the minimum if and only if at most `10 * n` layers were missing; only short slices gain, the smallest first, and only the largest give, of equals the earlier first |
| `Planner.SmallMinimumIsMet` | engine/topology.py:162-172 | a minimum of at most 10 is always met |
| `Planner.LargeMinimumMissed` | engine/topology.py:162-172 | a concrete split whose minimum is not met although the total allows it |
| `Planner.EqualWeightsBalance` | engine/topology.py:140-147 | on equal weights the proportional split is the balanced one of the constructor |
| `Planner.EqualWeightsNeedNoMove` | engine/topology.py:162-172 | and with a minimum of 1 nothing is moved afterwards |
| `Planner.PlanPipelineLayout` | engine/topology.py:175-188 | contiguous ranges from 0 to the layer count whose widths are the planned sizes |
| `Topologies.Topology.Create` | engine/topology.py:223-267 | slots tile the layers behind the coordinator, with the given or the balanced sizes; an error exactly on improper arguments |
| `Topologies.Topology.ForFleet` | engine/topology.py:270-289 | the fewest stages the fleet can staff; slot sizes balanced, or the largest-remainder split of the weights with empty slots levelled up to 1 |
| `Topologies.Topology.PickSlot` | engine/topology.py:351-358 | of the slots the node can hold, the first with the fewest holders that are not dead, READY or not, and none exactly when it can hold none |
| `Topologies.Topology.Register` | engine/topology.py:302-332 | the node holds one slot, last in its list and nowhere else: the range it asked for if there is one it can hold, else one with the fewest other holders that are not dead; refusals and what they leave behind |
| `Topologies.Topology.RegisterAll` | engine/topology.py:294-299 | nodes that join an empty mesh and can hold any slot spread over the slots: the holder counts add up to all of them and differ by at most one, whoever has become READY in between |
| `Topologies.CommittedCounts` | engine/topology.py:357 | the count compared is the number of holders that are not dead |
| `Topologies.Topology.RegisterOrchestrator` | engine/topology.py:334-349 | the node is listed without a slot and holds nothing any more |
| `Topologies.HeldOnce` | engine/topology.py:302-349 | no id is held in two slots, in any state the calls can reach |
| `Topologies.Topology.Heartbeat` | engine/topology.py:361-372 | false exactly for unknown and dead nodes; a suspicion is cleared, nothing else |
| `Topologies.Topology.MarkReady` | engine/topology.py:374-378 | only a joining node becomes READY |
| `Topologies.Topology.MarkSuspect` | engine/topology.py:380-385 | only a READY node becomes SUSPECT |
| `Topologies.Topology.Drain` | engine/topology.py:387-390 | the node stops taking sessions, whatever its state |
| `Topologies.Topology.Reap` | engine/topology.py:392-400 | exactly the nodes silent for too long die, and exactly they are reported |
| `Topologies.Topology.Purge` | engine/topology.py:402-411 | exactly the long dead leave the node table, the distances and every holder list |
| `Topologies.Topology.Remove` | engine/topology.py:413-417 | removing a node from its own slot's list removes it from all of them |
| `Topologies.Topology.HoldersAreReady` | engine/topology.py:435-450 | the holders of a slot are exactly its READY nodes, each once, in key order |
| `Topologies.TiesKeepTheirOrder` | engine/topology.py:446-449 | the sort is stable, so equal keys keep the order of assignment |
| `Topologies.Topology.FirstIsPrimary` | engine/topology.py:435-450 | the primary is a trusted holder whenever the slot has a READY one, and no other precedes it by distance or freshness |
| `Topologies.Topology.WhoComesFirst` | engine/topology.py:435-450 | of two holders the trusted one comes first; of two alike the nearer, when routing by latency; of two as near, or otherwise, the one heard from last |
| `Topologies.RegionRttValues` | engine/topology.py:51-63 | the estimated distances, symmetric: same region, same continent, another one, unknown |
| `Topologies.Topology.HoldersApart` | engine/topology.py:486-498 | a route never uses one node in two slots |
| `Topologies.Topology.SetTrusted` | engine/topology.py:453-458 | one node becomes trusted, no place changes |
| `Topologies.Topology.RecordCheck` | engine/topology.py:460-484 | promotion and eviction on exactly their conditions, an evicted node is dead and untrusted |
| `Topologies.TrustIsEarned` | engine/topology.py:460-484 | over any series of checks, trust takes `promote_after` passes and eviction `strike_max` failures |
| `Topologies.Topology.Route` | engine/topology.py:486-498 | the ordered holders of every slot, or an error exactly when a slot has none |
| `Registries.Registry.Register` | engine/registry.py:78-113 | banned and unlisted nodes are refused and change nothing; seeds are trusted at once; orchestrators get consecutive session-id prefixes |
| `Registries.Registry.Heartbeat` | engine/registry.py:115-118 | keeps every invariant: a banned node does not come back by heartbeat |
| `Registries.Registry.MarkReady` | engine/registry.py:124-127 | keeps every invariant: a banned node does not become READY |
| `Registries.Registry.MarkSuspect` | engine/registry.py:129-131 | keeps every invariant |
| `Registries.Registry.Drain` | engine/registry.py:120-122 | keeps every invariant |
| `Registries.Registry.RecordCheck` | engine/registry.py:138-151 | the eviction that reaches `ban_after` bans the node, exactly then, and no ban is lifted |
| `Registries.Registry.Tick` | engine/registry.py:196-210 | who dies and who leaves, in one step, with every other node unchanged |
| `Registries.Registry.BannedNeverServes` | engine/registry.py:58-62 | in every reachable state a banned node is routable nowhere |
| `Registries.Registry.RouteSnapshot` | engine/registry.py:221-226 | a primary per slot, trusted wherever the slot has a READY trusted holder, never banned; an error exactly on a coverage gap |
| `Registries.Registry.AcquireRoute` | engine/registry.py:229-281 | pinned holders still READY in their slot are kept, so a session all of whose pins still serve gets the same route; every other slot gets its least loaded holder; and every load counter equals the number of tracked sessions through that node; a coverage gap changes nothing |
| `Registries.Retrack` | engine/registry.py:271-280 | re-acquiring by set difference leaves exact counters, even when a node moves to another slot of the same route |
| `Registries.Registry.FreshPickTrustedIff` | engine/registry.py:252-255 | a fresh pick is trusted if and only if some trusted holder carries no more load than every one on probation |
| `Registries.TrustedPassedOver` | engine/registry.py:252-255 | two sessions on one slot: the second passes over a READY trusted holder |
| `Registries.Registry.ReleaseRoute` | engine/registry.py:283-295 | every counter stays exact and a counter that reaches zero disappears; unknown sessions change nothing |
| `Registries.Registry.AcquireEntry` | engine/registry.py:298-312 | the READY orchestrator driving the fewest other sessions, first in id order, never banned; none exactly when there is none |
| `Registries.Registry.ReleaseEntry` | engine/registry.py:314-326 | the session is forgotten and every counter stays exact |
| `Registries.NewSessionIsStep` | engine/registry.py:248-259 | what acquiring a route promises a new session is a least-loaded step |
| `Registries.LoadsBalance` | engine/registry.py:248-259 | from zero load, after `n` new sessions over fixed holders, the loads in a slot add up to `n` and differ by at most one |
| `Registries.Registry.AcquireAll` | engine/registry.py:229-281 | `n` calls that acquire routes for new sessions leave exactly that balance |
| `Registries.SharesAreFair` | engine/registry.py:352-358 | shares add up to the pool; all but the last are the floor of their exact proportion, the last is at least exact and above it by at most one unit per other server |
| `Registries.Registry.RecordWork` | engine/registry.py:339-359 | what is earned is the payment less the fee rounded down; each server of a route of distinct ones gains its proportion of layers times tokens, to within rounding, and nobody else anything; the books balance; work of no weight records nothing |
| `Registries.Registry.Settle` | engine/registry.py:378-389 | pays exactly the balances at or above the threshold whose node has a wallet, zeroes exactly those, and what is owed plus what was paid stays what was earned |

## Left out

- `Requests.ServeAll`: ends at a hit that is astray and at a clash of ids; what such a request yields is some other text.
- `Batching.BatchCoordinator.GenerateBatch`: assumes no wire error on the fixed pipeline.
- `Generation.SpeculativeStreamOnMesh`: ends where a roll-back leaves a holder behind; `Rehoming.RollsBackExactlyIff` says what going on comes to.  The record of the prefix cache on the live mesh is modelled only where it is reused (`Failover.HeadNode.ReuseWarm`).
- `Generation.TreeStreamOnMesh`: needs a session id no worker has an entry for.
- `Failover.Rehome`: ends where a pinned holder is lost or the survivor has a stage of its own; `Rehoming` says what going on comes to.
- `MeshRelay.RouteProvider.Acquire`: leaves open which READY holder replaces another, because no result depends on it; the choice itself is `Registries.Registry.AcquireRoute`.  A worker keeps its layers throughout: a node that registers again for another slot while a session is pinned to it is not modelled.
- `SpecDecode.SpeculativeGreedy`: over in-process stages the first must have layers, because the length is read from its cache; without any the engine's own assertion fails in the first round.
- `Planner.PlanWeightedSplit`: weights are exact reals, so that rounding of floating-point proportions is not modelled.
- `Workers.Worker.GetCache`: sessions hold cache values instead of references; a cache is only ever reached through its own entry.
- `Topologies.Topology.Register`: the node record is a value stored in the table; later changes the caller makes to the object it passed in are not modelled.
- `Trees.BuildTree`: draft scores, heap order and beam choice are arbitrary, since any tree has to be safe.
- Frame header fields of 32 bits: positions and session ids are not wrapped on the wire.
- Workers that restart or reap idle sessions, and so lose caches while still READY.
- Frames delivered late from an abandoned connection; a hop is one atomic step that succeeds or fails.
- Streams abandoned by their consumer: they leave what a request with a smaller limit leaves, and are not a case of their own.
- Empty prompts, which the engine does not handle either.
- Several connection slots and their pool: one slot is modelled, used by one request at a time.
- `generate`, `generate_resume`, `generate_stream`, `generate_speculative`: thin forms of the loops above.
- Sliding-window attention masks: every layer is modelled with full attention.
- The EAGLE head: its proposals are covered by "any draft", its tensors are not modelled.
- Tensor arithmetic, quantization, model loading, float thresholds of the verifier, ties of `argmax`.
- Tensor packing, sealing and signatures: payloads travel as values; hosts in a route header are byte strings.
- The request scheduler, HTTP surface, relay sockets, distance probing and audit scheduling.
- Needs reported by `tick`, and the read-only snapshots for dashboards.
- Derivation of node keys, saving and loading of registry state, `payout_eligible`.
- Anchor accounts and instruction handlers around `validate_topology`.
- Text decoding and incremental text deltas: token sequences are what is proved.
