# Segnog in Dafny

A model of the algorithms and state machines inside Segnog's memory service, with proofs of what they
promise. The graph database and the session store appear as maps, sets and lists, one step per query;
what a language model, an embedding or the database answers is an arbitrary parameter, constrained only
by what the query text itself guarantees. `dafny verify dfyconfig.toml` checks the whole project.

| module (file) | what it models |
|---|---|
| `Workflow` (`Workflow.dfy`), `Engine` (`Engine.dfy`) | dependency order of a workflow and its execution |
| `Hierarchy` (`Hierarchy.dfy`) | the two class-hierarchy walks and triple validation |
| `Vocabulary` (`Vocabulary.dfy`), `RelatesStore` (`RelatesStore.dfy`) | canonical vocabulary and the inference-closed edge store |
| `Names` (`Names.dfy`) | canonical names |
| `CausalClaims` (`CausalClaims.dfy`) | merge keys, evidence and belief revision |
| `Hebbian` (`Hebbian.dfy`) | reinforcement, decay and pruning of co-activation edges |
| `Scoring` (`Scoring.dfy`), `Expansion` (`Expansion.dfy`) | blended scores and graph expansion of search results |
| `Accumulator` (`Accumulator.dfy`) | event accumulation and racing curation triggers |
| `Consolidation` (`Consolidation.dfy`), `Lifecycle` (`Lifecycle.dfy`) | group discovery, deduplication and consolidation by the polling worker, and episodes and links over runs |
| `Discovery` (`Discovery.dfy`), `Sweeps` (`Sweeps.dfy`) | which groups a cycle finds, which episodes it takes, and which ones series of cycles leave behind |
| `Surroundings` (`Surroundings.dfy`) | answers of the database that consolidation is stated for exist |
| `Follows` (`Follows.dfy`) | FOLLOWS links between episodes |
| `Pipeline` (`Pipeline.dfy`) | the two-pass ontology update of a group |
| `Basics` (`Basics.dfy`) | shared vocabulary, facts about real products and finite sets |

Objects whose methods update fields are classes (`Sorter`, `OntologyStore`, `CausalClaimStore`,
`ActivationGraph`, `GroupAccumulator`, `RemWorker`, `EpisodeChain`, `OntologyUpdate`); the scoring passes
overwrite and sort an array in place. Each method is proved against a specification function or relation,
and the results below are about those, over every run.

## Results that differ from the obvious claim

Where a promise fails, its exact condition is proved for all inputs, and a lemma names an input that fails.

- The documentation of `Workflow.topological_order` names Kahn's algorithm; the code is a depth-first
  search, and that is modelled. A stage whose name an earlier stage carries is silently left out of the
  order (`Workflow.NamesakeIsLeftOut`), so the order is a permutation of the stages exactly when names are
  unique (`Workflow.OrderIsPermutation`).
- `Stage.depends_on` is documented as stages that must complete first. The engine runs a stage after an
  attempt at its dependencies, whether or not they completed (`Engine.DependentsRunRegardless`). Even if
  every handler returns, the documented promise holds exactly for the workflows in which every stage found
  for a dependency is synchronous (`Engine.CompletedFirstIff`; it fails in `QueuedDependencyBreaksPromise`).
- Write-time inference closes the graph only for vocabularies that meet `Vocabulary.Coherent`. The condition
  is exact: for any other vocabulary a run of three calls leaves the graph open
  (`RelatesStore.ClosedOverAllRunsIff`).
- A contradiction can raise the confidence of a claim, in two ways, and
  `CausalClaims.ContradictionRaisesIff` gives the exact condition for every claim. As first weighted
  evidence it raises a confidence that has decayed below 1 / (2 + wn) (`FirstEvidenceCanRaise`, from 0.1 to
  0.4). Later, because evidence totals multiply across the two chained optional matches, it can raise the
  confidence of a supported claim that has been contradicted before (`ContradictionCanRaise`). A first
  contradiction never raises a claim with supporting weight (`FirstContradictionRaisesIff`).
- Below a confidence of 0.05 the outcome of decay depends on when revision happens to run
  (`CausalClaims.RevisionSplitsIff`, `EarlyRevisionRefutes`).
- Nothing keeps a knowledge entry from being recorded with a negative confidence, which its evidence takes
  over. Confidence stays in [0, 1] over all runs exactly when the sum of the negative recorded confidences,
  times the number of entries, is at least -1 (`CausalClaims.ConfidenceOverAllRunsIff`; four calls that fail
  in `NegativeEntryLeavesUnit`). Weights stay non-negative exactly when no entry is recorded so
  (`WeightsNonNegativeIff`).
- The Hebbian pass with beta 0 agrees with the temporal pass exactly when every hit without a creation time
  scores 0 or alpha is 0 (`Scoring.ZeroBetaIff`, `TimelessHitsDiffer`).
- The FOLLOWS links form a forest in every case (`Follows.RunsAreForests`), but not always one path per
  group. A store continues the path, whichever predecessor is picked on a tie, exactly when the last episode
  of the group is not newer and every other one that is not newer is strictly older than that last one
  (`Follows.StoreKeepsPathIff`; back-dated and simultaneous episodes fail in `TiesAndBackdatingBreakPaths`).
  Over whole runs: exactly when the times of each group never decrease and only its last two may be equal
  (`Follows.RunsArePathsIff`).
- A failed acknowledgement drops a trigger, so the threshold promise is proved for runs in which
  acknowledgements succeed. In all other runs a group at the threshold lacks a trigger exactly when one of
  its acknowledgements failed with no trigger outstanding and nothing has created one since
  (`Accumulator.StrandedIff`, `FailedAcknowledgementStrands`). A late trigger may pop a batch below the
  threshold, so no lower bound on batch sizes is claimed.
- Not every pending episode is consolidated. Once a sweep has passed, the pending episodes of a group stay
  pending over every series of cycles and arrivals in which fewer than the minimum number of newer ones come
  together (`Sweeps.PassedStayPending`). A sweep passes single episodes (`LoneEpisodeIsLeftBehind`),
  back-dated ones (`BackdatedAreLeftBehind`) and, although nothing fails, what is over in a group of more
  than twenty, of which only the oldest twenty are fetched (`OverflowIsLeftBehind`,
  `TwentyFirstIsLeftBehind`). `CycleReaches` says by counts when a cycle takes an episode. Groups without
  ontology data use up the limit twice, so a discoverable group can be missed although the limit has room
  (`Discovery.FirstPhaseTakesSlots`).
- A failed consolidation keeps its uniques pending exactly when curation or the ontology update failed
  (`Consolidation.FailureKeepsPendingIff`). If compression fails, they are consolidated already and never
  get a compressed episode (`Lifecycle.FailedCompressionIsFinal`).
- Links to originals and markings of duplicates fail without failing the consolidation. Each duplicate has
  exactly one original after exactly the runs in which one link went through for each marked episode and none
  for others (`Lifecycle.DuplicatesHaveOneOriginalIff`); after one failed marking a duplicate is linked
  twice (`FailedMarkLinksTwice`).
- A name whose first mention is rejected as an image or as too long, or whose write fails, is not written
  when it is mentioned again in the same update (`Pipeline.WrittenAreWorthyFirsts`,
  `RejectedFirstMentionBlocks`, `FailedWriteIsNotRetried`).
- A reinforced edge follows its closed form exactly when it had reached 0.01 at every pruning
  (`Hebbian.GrowthIsGeometric`). With a learning rate below 0.01 a fresh edge is gone after the next pruning
  (`LowRateIsPruned`).

## Model

| member | source | states |
|---|---|---|
| Workflow.GetStage | src/memory_service/workflows/base.py:43-45 | finds the first stage with the name; fails exactly when no stage carries it |
| Workflow.Sorter.Visit | src/memory_service/workflows/base.py:61-74 | the search keeps `visiting` equal to the names on the current path and the order dependency-first; an error it returns is a real cycle or a really missing dependency |
| Workflow.TopologicalOrder | src/memory_service/workflows/base.py:55-78 | terminates; succeeds exactly when every dependency resolves and the graph is acyclic; the result lists every name once, dependencies first; a permutation exactly when names are unique; an already ordered list is returned unchanged; errors are witnessed |
| Workflow.OrderImpliesWellFormed | src/memory_service/workflows/base.py:55-78 | an order exists only for resolving, acyclic workflows |
| Workflow.WitnessedImpliesIllFormed | src/memory_service/workflows/base.py:64-70 | whatever an error reports rules out a valid order |
| Workflow.BackEdgeIsCycle | src/memory_service/workflows/base.py:64-65 | meeting a name again on the current path is a dependency of that name on itself |
| Workflow.TransitiveDependenciesPrecede | src/memory_service/workflows/base.py:55-78 | every transitive dependency of a stage comes before it |
| Workflow.OrderIsPermutation | src/memory_service/workflows/base.py:43-78 | the order is a permutation of the stages if and only if no two stages share a name |
| Workflow.NamesakeIsLeftOut | src/memory_service/workflows/base.py:43-78 | of two stages with one name the second is left out of the order |
| Engine.Execute | src/memory_service/workflows/engine.py:44-84 | every stage of a well-formed workflow is dispatched once, in an order, whatever the handlers do; the returned results are those of the log; an ill-formed workflow is rejected before any dispatch |
| Engine.Walk | src/memory_service/workflows/engine.py:55-84 | each dispatch sees the context overlaid with the results so far, and results are kept for completed synchronous stages only |
| Engine.ResultsAreSuccesses | src/memory_service/workflows/engine.py:62-80 | the results hold exactly the synchronous stages that completed, with their values |
| Engine.PayloadEntry | src/memory_service/workflows/engine.py:57-60 | the entry of a payload under any key is the value of the stage it is the `_result` key of, if that stage completed earlier, and otherwise the context's own entry |
| Engine.DependenciesAttemptedFirst | src/memory_service/workflows/engine.py:55-82 | every transitive dependency was dispatched before the stage |
| Engine.CompletedFirstIff | src/memory_service/workflows/base.py:20-21 | with handlers that all return, every walk of an order completes dependencies first if and only if every stage found for a dependency of a stage in use is synchronous |
| Engine.DependentsRunRegardless | src/memory_service/workflows/engine.py:62-82 | a stage whose dependency failed, timed out or was queued is dispatched all the same, after it and without its result |
| Engine.QueuedDependencyBreaksPromise | src/memory_service/workflows/base.py:18-21 | two stages for which the documented completion fails |
| Hierarchy.Ancestors | src/memory_service/ontology/schema_org.py:340-354 | terminates on every parent map and returns exactly the classes reachable by parent steps, once each, starting with the class, in non-decreasing shortest distance |
| Hierarchy.NearerIsMarked | src/memory_service/ontology/schema_org.py:345-353 | although classes are marked on leaving the queue, everything nearer than the front has been marked at no greater depth |
| Hierarchy.IsSubclassOf | src/memory_service/ontology/schema_org.py:356-357 | subclassing is reachability in the parent relation |
| Hierarchy.AncestryIsPreorder | src/memory_service/ontology/schema_org.py:340-357 | subclassing is reflexive and transitive (rules rdfs10 and rdfs11, section 9.2.1 of RDF 1.1 Semantics) |
| Hierarchy.IsExcluded | src/memory_service/ontology/schema_org.py:33-47 | the early-exit stack search is true exactly when some ancestor is excluded |
| Hierarchy.ExclusionAgreesWithAncestors | src/memory_service/ontology/schema_org.py:33-47 | that is the case exactly when the list of the queue search meets the excluded set |
| Hierarchy.SubclassesInheritExclusion | src/memory_service/ontology/schema_org.py:28-47 | subclasses of an excluded class are excluded |
| Hierarchy.ValidateTriple | src/memory_service/ontology/schema_org.py:406-425 | a triple is valid exactly when the property is declared and each end has an ancestor in the declared list, or the list is empty |
| Hierarchy.SubclassesInheritFit | src/memory_service/ontology/schema_org.py:406-425 | a valid triple stays valid when an end is replaced by a subclass |
| Vocabulary.NormalizeClassRange | src/memory_service/ontology/schema_org.py:359-383 | results are exactly the declared classes and the fallback; normalizing twice changes nothing when the fallback is declared |
| Vocabulary.ClassSpellings | src/memory_service/ontology/schema_org.py:359-383 | a spelling leads to a declared class of the same lower-case form if there is one (itself, if declared), else to its alias, else to the class its letters and digits spell out, in whatever case, else to Thing |
| Vocabulary.NormalizePredicateRange | src/memory_service/ontology/schema_org.py:427-451 | results are exactly the declared properties and the fallback |
| Vocabulary.NormalizePredicateIdempotent | src/memory_service/ontology/schema_org.py:427-451 | normalizing a predicate twice changes nothing when the fallback is declared |
| Vocabulary.PredicateSpellings | src/memory_service/ontology/schema_org.py:427-451 | a spelling leads to a declared property of the same lower-case form if there is one (itself, if declared), else to its alias, else to its camel-case form, in whatever case, else to relatedTo |
| Vocabulary.CamelHumps | src/memory_service/ontology/schema_org.py:446-446 | wherever a hyphen stands before a small letter, the two become the capital letter |
| Vocabulary.HyphenatedProperty | src/memory_service/ontology/schema_org.py:445-448 | a hyphenated spelling such as works-for leads to worksFor unless declared or aliased itself |
| RelatesStore.OntologyStore.UpsertNode | src/memory_service/storage/long_term/ontology_store.py:78-142 | merges a node under the canonical name, with type, summary and embedding of this call; a name without one is refused and changes nothing |
| RelatesStore.OntologyStore.GetNode | src/memory_service/storage/long_term/ontology_store.py:148-181 | returns the node stored under the canonical name, if any |
| RelatesStore.OntologyStore.MergeRelatesEdge | src/memory_service/storage/long_term/ontology_store.py:297-351 | writes the edge when both ends exist, keeping the greater confidence; reports whether they do |
| RelatesStore.OntologyStore.StoreRelates | src/memory_service/storage/long_term/ontology_store.py:253-295 | writes the forward edge and, only if that succeeds, the symmetric and inverse edges |
| RelatesStore.OntologyStore.LinkAbout | src/memory_service/storage/long_term/ontology_store.py:357-386 | links episode and entity when both exist and otherwise does nothing |
| RelatesStore.KeyReachesNode | src/memory_service/storage/long_term/ontology_store.py:95-95 | writing under a raw name is writing under its canonical name |
| RelatesStore.NameFindsNodeIff | src/memory_service/storage/long_term/ontology_store.py:148-181 | over every run a raw name, or its key, finds a node if and only if a name of the same key has been written |
| RelatesStore.AboutIffLinked | src/memory_service/storage/long_term/ontology_store.py:357-386 | over every run an ABOUT link exists if and only if a call found both its episode and its entity; both are still there |
| RelatesStore.NodesCountTheirSources | src/memory_service/storage/long_term/ontology_store.py:109-127 | over every run nodes are never lost and `source_count` counts the writes of the name |
| RelatesStore.NodeRemembersWrites | src/memory_service/storage/long_term/ontology_store.py:109-127 | over every run a node has the identifier, group and creation time of its first write and the type, name, summary, embedding and time of its last |
| RelatesStore.StoreEffect | src/memory_service/storage/long_term/ontology_store.py:277-295 | a successful assertion raises exactly the edges it entails to at least its confidence and leaves all others alone |
| RelatesStore.AssertionWrites | src/memory_service/storage/long_term/ontology_store.py:277-351 | by the tables alone: an assertion of (a, p, b) stores at no less than its confidence exactly that edge, (b, p, a) if p is in the symmetric set or its own inverse, and (b, q, a) for the declared inverse q of p; a new edge carries the time of the call, a stored one keeps its own |
| RelatesStore.KnowsIsStoredBothWays | src/memory_service/storage/long_term/ontology_store.py:277-295 | with knows the only symmetric predicate and no inverses, one assertion leaves the two edges and no other |
| RelatesStore.EdgeKeepsFirstTime | src/memory_service/storage/long_term/ontology_store.py:297-351 | over every run an edge carries the time of the first successful assertion that supports it |
| RelatesStore.ConfidenceIsBestSupport | src/memory_service/storage/long_term/ontology_store.py:253-351 | over every run and for every vocabulary an edge exists exactly when a successful assertion entails it, and its confidence is the greatest of those |
| RelatesStore.CoherentRunsAreClosed | src/memory_service/storage/long_term/ontology_store.py:284-293 | over every run of a coherent vocabulary the edges are closed under symmetric and inverse predicates (prp-symp, prp-inv1, prp-inv2, section 4.3 of OWL 2 Web Ontology Language Profiles) with equal confidence on both sides |
| RelatesStore.CoherentRunsMirror | src/memory_service/storage/long_term/ontology_store.py:253-351 | by the tables alone, over every run of a coherent vocabulary: for a predicate in the symmetric set or its own inverse an edge stands exactly when its reverse does, for one with a declared inverse exactly when the reverse under that one does, at equal confidence |
| RelatesStore.ClosedProbeIsCoherent | src/memory_service/ontology/schema_org.py:392-404 | if two nodes and one assertion of a predicate leave the graph closed, the vocabulary is coherent at that predicate |
| RelatesStore.ClosedOverAllRunsIff | src/memory_service/storage/long_term/ontology_store.py:253-295 | the graph is closed over all runs if and only if the vocabulary is coherent |
| Names.NormalizeJoinsWords | src/memory_service/ontology/names.py:19-23 | the key is the hyphen-joined list of the alphanumeric words left after cleaning |
| Names.NormalizeByPieces | src/memory_service/ontology/names.py:11-23 | for every input the key is the hyphen-join of the pieces of the lower-cased name between hyphens, underscores and spaces, each reduced to its [a-z0-9] characters, without the empty ones; names of equal lower-case form share a key |
| Names.CapitalsCount | src/memory_service/ontology/names.py:15-19 | Julia Horrocks, lower-cased, becomes julia-horrocks |
| Names.PunctuationIsDeleted | src/memory_service/ontology/names.py:11-23 | an apostrophe inside a word is deleted and does not split it |
| Names.NormalizeFixpoints | src/memory_service/ontology/names.py:11-23 | exactly the hyphen-joined lists of non-empty [a-z0-9] words are left unchanged |
| Names.NormalizeIdempotent | src/memory_service/ontology/names.py:11-23 | every result is such a key, and normalizing again changes nothing |
| Names.SeparatorsAreInterchangeable | src/memory_service/ontology/names.py:20-23 | hyphens, underscores and spaces between words all give the same key |
| CausalClaims.SplitRecoversParts | src/memory_service/storage/long_term/causal_store.py:84-86 | the first double hyphen of a merge key ends the cause: a decoder recovers both parts, empty ones included |
| CausalClaims.MergeKeyInjective | src/memory_service/storage/long_term/causal_store.py:84-86 | two pairs share a merge key exactly when their canonical names agree |
| CausalClaims.CausalClaimStore.UpsertClaim | src/memory_service/storage/long_term/causal_store.py:67-143 | merges the claim under its key: created active, or confidence replaced and the longer mechanism kept |
| CausalClaims.CausalClaimStore.AddEvidence | src/memory_service/storage/long_term/causal_store.py:169-208 | merges one weighted edge per knowledge entry and counts the call even when the entry is missing |
| CausalClaims.CausalClaimStore.ReviseBeliefs | src/memory_service/storage/long_term/causal_store.py:214-270 | revises every claim that is not refuted and returns their number |
| CausalClaims.ClaimsKeepTheirIdentity | src/memory_service/storage/long_term/causal_store.py:97-118 | over every run a claim keeps what its creation fixed, and its mechanism is at least as long as every one proposed |
| CausalClaims.ClaimRemembersUpserts | src/memory_service/storage/long_term/causal_store.py:67-143 | over every run from the empty store a claim exists exactly when upserted; identifier, wording, creation time and type are those of the first upsert, the type causes unless given as one of the four; it is active at certainty 0 until a revision and has no evidence until some is added; the mechanism is the first of the longest proposed; confidence, cut off to [0, 1], and time are those of the last upsert unless a revision follows |
| CausalClaims.LaterConfidenceCounts | src/memory_service/storage/long_term/causal_store.py:112-118 | a claim upserted with 0.3 and then 0.9 stands at 0.9, under its first identifier |
| CausalClaims.MergeEvidenceSound | src/memory_service/storage/long_term/causal_store.py:188-190 | merging keeps one edge per knowledge entry, at the new weight |
| CausalClaims.NewSourceAppends | src/memory_service/storage/long_term/causal_store.py:188-190 | evidence from a new source is one more edge |
| CausalClaims.EvidenceEffect | src/memory_service/storage/long_term/causal_store.py:169-208 | counts for the named claim even without the entry; with it, one edge is added or overwritten on the side named, at the given weight if not negative, else the recorded confidence, else one half; no other claim and no other field changes |
| CausalClaims.ProductSums | src/memory_service/storage/long_term/causal_store.py:236-241 | the sums over the rows of the two chained matches are the single sums scaled by the number of rows on the other side |
| CausalClaims.TotalsMultiply | src/memory_service/storage/long_term/causal_store.py:236-241 | each evidence total is its weight sum times the number of edges of the other kind, or 1 |
| CausalClaims.EvidenceDecides | src/memory_service/storage/long_term/causal_store.py:221-261 | with weighted evidence the confidence lies strictly between 0 and 1; the claim is refuted exactly above D = 19S + 18 and weakened exactly above D = 4S + 3; certainty counts the n edges as n / (1 + n) |
| CausalClaims.RevisionEffect | src/memory_service/storage/long_term/causal_store.py:214-262 | with positive weight the confidence times S + D + 2 is S + 1, otherwise its distance from one half shrinks by exp(-0.01 per hour); the status follows from it at 0.05 and 0.2; nothing but confidence, certainty, count, status and time changes |
| CausalClaims.ContradictionRaisesIff | src/memory_service/storage/long_term/causal_store.py:236-250 | one more contradicting edge of weight w raises the confidence of a claim if and only if: as first weighted evidence, w > 0 and the decayed confidence is below 1 / (2 + wn); otherwise there are support and an earlier contradicting edge, and s(dn + 1) > wn(sm + 1) |
| CausalClaims.ContradictionCanRaise | src/memory_service/storage/long_term/causal_store.py:236-246 | a supported claim and a second contradicting edge for which it does |
| CausalClaims.FirstEvidenceCanRaise | src/memory_service/storage/long_term/causal_store.py:236-250 | a claim without evidence and a contradicting edge for which it does |
| CausalClaims.FirstContradictionRaisesIff | src/memory_service/storage/long_term/causal_store.py:236-250 | a first contradicting edge raises the confidence if and only if there is no supporting weight and the decayed confidence is below 1 / (2 + wn) |
| CausalClaims.DecayCompose | src/memory_service/storage/long_term/causal_store.py:248-250 | decay over two intervals is decay over their sum |
| CausalClaims.DecayTowardHalf | src/memory_service/storage/long_term/causal_store.py:224-226 | decay moves toward one half, strictly unless there already, and never past it |
| CausalClaims.RevisionsCollapse | src/memory_service/storage/long_term/causal_store.py:243-262 | for an unsupported claim of confidence at least 0.05, revising at any series of times is revising once at the last |
| CausalClaims.RevisionSplitsIff | src/memory_service/storage/long_term/causal_store.py:243-262 | an intermediate revision is harmless if and only if it leaves the confidence at 0.05 or above or comes at the same time |
| CausalClaims.EarlyRevisionRefutes | src/memory_service/storage/long_term/causal_store.py:243-262 | a claim of confidence 0 for which an intermediate revision matters |
| CausalClaims.RefutedIsAbsorbing | src/memory_service/storage/long_term/causal_store.py:112-262 | refuted claims stay refuted over every run of upserts, evidence and revisions |
| CausalClaims.RunsKeepSources | src/memory_service/storage/long_term/causal_store.py:188-190 | over every run evidence stays one edge per source and side, of an existing entry, with a weight below 0 only as far as the recorded confidence of the entry is |
| CausalClaims.WeightsNonNegativeIff | src/memory_service/storage/long_term/causal_store.py:183-190 | weights are non-negative after every run if and only if no entry is recorded with a negative confidence |
| CausalClaims.RunsKeepClaimsSound | src/memory_service/storage/long_term/causal_store.py:67-270 | over every run in time order confidence stays in [0, 1] and certainty in [0, 1), as long as the negative recorded confidences, added up once for each entry, do not come to less than -1 |
| CausalClaims.ConfidenceOverAllRunsIff | src/memory_service/storage/long_term/causal_store.py:67-270 | every confidence stays in [0, 1] over all runs in time order if and only if the sum of the negative recorded confidences, times the number of entries, is at least -1 |
| CausalClaims.NegativeEntryLeavesUnit | src/memory_service/storage/long_term/causal_store.py:169-246 | four calls and one entry recorded at -2 that lead to a negative confidence |
| Hebbian.ActivationGraph.ReinforceCoActivations | src/memory_service/storage/retrieval/hebbian.py:18-96 | activates the trigger, then activates and links every other result up to the limit, in order; a query that raises changes nothing, and a failed activation skips the link |
| Hebbian.ActivationGraph.ReinforceKnowledgeActivations | src/memory_service/storage/retrieval/hebbian.py:99-124 | activates each knowledge entry in order, passing over queries that raise |
| Hebbian.ActivationGraph.DecayWeights | src/memory_service/workers/rem_worker.py:402-456 | decays stale edges by 1 - rate, then prunes; a failed decay leaves out the pruning |
| Hebbian.ObservationEffect | src/memory_service/storage/retrieval/hebbian.py:18-96 | for distinct results and whichever queries raise: the trigger, if its activation goes through, and each other result within the limit whose activation does are activated once, up to the cap; a stored pair whose link query goes through too has its edge at count + 1 and weight w + lr(1 - w), or new at count 1 and weight lr, activated now; all else is unchanged |
| Hebbian.FirstObservation | src/memory_service/storage/retrieval/hebbian.py:69-81 | one observation of one result leaves exactly one edge, of weight lr and count 1 |
| Hebbian.KnowledgeEffect | src/memory_service/storage/retrieval/hebbian.py:99-124 | of distinct entries exactly those whose query goes through are activated once, up to the cap; all else is unchanged |
| Hebbian.SweepEffect | src/memory_service/workers/rem_worker.py:402-456 | a sweep scales exactly the edges last activated before the cutoff and then keeps exactly those at 0.01 or above; if the first query raises nothing changes, if the second does nothing is removed |
| Hebbian.WeightsStayInUnit | src/memory_service/storage/retrieval/hebbian.py:73-81 | weights stay in [0, 1] under every interleaving of reinforcement, decay and pruning |
| Hebbian.CountsStayCapped | src/memory_service/storage/retrieval/hebbian.py:38-44 | activation counts never pass the cap, over every run |
| Hebbian.CountIsCappedTotal | src/memory_service/storage/retrieval/hebbian.py:38-66 | a count is the number of activations cut off at the cap, and the time is that of the last activation |
| Hebbian.GrowthIsGeometric | src/memory_service/storage/retrieval/hebbian.py:69-81 | without decay, for any rate, an edge reinforced n times has count n and weight 1 - (1 - lr)^n, whatever happens to other edges, if and only if its reinforcements had reached 0.01 at every pruning |
| Hebbian.SteadyRateIsKept | src/memory_service/storage/retrieval/hebbian.py:69-81 | a rate from 0.01 to 1 is safe from every pruning |
| Hebbian.LowRateIsPruned | src/memory_service/workers/rem_worker.py:438-449 | with a rate below 0.01 a fresh edge is gone after the next pruning |
| Hebbian.GrowthIsStrict | src/memory_service/storage/retrieval/hebbian.py:1-9 | those weights grow strictly and stay below 1 |
| Hebbian.ReinforcementRefreshes | src/memory_service/storage/retrieval/hebbian.py:73-81 | over every run the activation time decay goes by is that of the last reinforcement of the pair |
| Hebbian.SurvivalIff | src/memory_service/workers/rem_worker.py:424-449 | an edge never reinforced again survives a run if and only if its faded weight was at least 0.01 at the last pruning, and then has exactly the faded weight |
| Hebbian.FadedBernoulli | src/memory_service/workers/rem_worker.py:417-431 | w(1 - r)^n (1 + nr) <= w |
| Hebbian.StaleEdgesArePruned | src/memory_service/workers/rem_worker.py:417-449 | a stale edge of weight at most 1 is gone after n sweeps with nr > 99, whatever else happens in between |
| Hebbian.CyclesCount | src/memory_service/workers/rem_worker.py:402-456 | consecutive worker cycles are such sweeps, one each |
| Hebbian.CyclesAreSweeps | src/memory_service/workers/rem_worker.py:98-99 | each of those cycles is a sweep whose two queries go through |
| Scoring.ApplyTemporalScore | src/memory_service/storage/retrieval/scoring.py:28-59 | the list becomes the stable descending sort of the rescored hits |
| Scoring.ApplyHebbianScore | src/memory_service/storage/retrieval/scoring.py:96-146 | the list becomes the stable descending sort of the rescored hits |
| Scoring.SortSorts | src/memory_service/storage/retrieval/scoring.py:145 | the sort is a descending permutation |
| Scoring.SortStable | src/memory_service/storage/retrieval/scoring.py:145 | hits of equal score keep their order |
| Scoring.FreshnessAntitone | src/memory_service/storage/retrieval/scoring.py:17-25 | freshness lies in (0, 1] and does not grow with age; it is 1 now, 1/2 after one half-life, 1/3 after two |
| Scoring.StrengthMonotone | src/memory_service/storage/retrieval/scoring.py:65-78 | activation strength lies in [0, 1] and does not fall with the count |
| Scoring.BoostMonotone | src/memory_service/storage/retrieval/scoring.py:65-93 | the boost lies in [0, 1] and falls with neither activation nor co-activation; each contributes half, saturating at the maximum count |
| Scoring.ScoreInUnit | src/memory_service/storage/retrieval/scoring.py:118-143 | scores of semantic scores in [0, 1] lie in [0, 1], also when beta is cut back |
| Scoring.DominanceKeepsRank | src/memory_service/storage/retrieval/scoring.py:124-145 | a hit at least as similar, recent, active and co-activated never scores below the other |
| Scoring.HebbianResult | src/memory_service/storage/retrieval/scoring.py:96-146 | the pass returns a descending permutation of the rescored hits, all in [0, 1] |
| Scoring.BareScore | src/memory_service/storage/retrieval/scoring.py:118-143 | a hit without creation time, activation and co-activation scores 1 - alpha - beta of its semantic score, beta replaced by max(0, 1 - alpha) when the two exceed 1 |
| Scoring.SemanticCounts | src/memory_service/storage/retrieval/scoring.py:139-143 | hits that differ in the semantic score alone differ by that share of the difference |
| Scoring.FreshnessCounts | src/memory_service/storage/retrieval/scoring.py:124-143 | hits that differ in the creation time alone differ by alpha times the difference of the attached freshness |
| Scoring.FreshnessByAge | src/memory_service/storage/retrieval/scoring.py:17-25 | the attached freshness times half-life plus age is the half-life; 1 for times to come, 0 without a creation time |
| Scoring.CoActivationCounts | src/memory_service/storage/retrieval/scoring.py:81-143 | hits that differ in co-activation weights within [0, 1] alone differ by half of beta, cut back as above, times the difference |
| Scoring.ActivationCounts | src/memory_service/storage/retrieval/scoring.py:65-143 | n activations up to the maximum, 100 if none is given, raise a score by half of beta, cut back as above, times log(1 + n) / log(1 + max), stated without the division |
| Scoring.StrengthIsLogarithmic | src/memory_service/storage/retrieval/scoring.py:65-78 | up to the maximum, strength times log(1 + max) is log(1 + n) |
| Scoring.WorkedExample | src/memory_service/storage/retrieval/scoring.py:96-146 | semantic 0.6, one half-life old, fully active and co-activated, alpha 0.1 and beta 0.3: 0.71 |
| Scoring.ZeroBetaIff | src/memory_service/storage/retrieval/scoring.py:45-58 | with beta 0 both passes return the same list if and only if every hit without a creation time scores 0 or alpha is 0 |
| Scoring.TimelessHitsDiffer | src/memory_service/storage/retrieval/scoring.py:45-58 | a hit without a creation time on which the passes disagree |
| Expansion.Expand | src/memory_service/storage/long_term/episode_store.py:571-588 | no episode twice, descending, every hit unchanged, every neighbour of a hit present, and each added one at 0.9 times the best hit next to it |
| Expansion.FirstIsBest | src/memory_service/storage/long_term/episode_store.py:574-581 | the first hit a neighbour is met at is the best one, because hits come in descending order |
| Expansion.SearchTail | src/memory_service/storage/long_term/episode_store.py:552-588 | rescoring, cutting to the best k and expanding compose, with no assumption on the order of the database rows |
| Accumulator.GroupAccumulator.Add | src/memory_service/workers/curation_worker.py:31-54 | accumulates pending raw events only, keeps the first arrival time, reports the group at the threshold |
| Accumulator.GroupAccumulator.PopGroup | src/memory_service/workers/curation_worker.py:56-61 | removes and returns the whole pending list of the group |
| Accumulator.GroupAccumulator.GetTimedOutGroups | src/memory_service/workers/curation_worker.py:63-71 | the groups whose first arrival lies further back than the limit |
| Accumulator.StepKeepsInv | src/memory_service/workers/curation_worker.py:137-178 | every step of the message loop, the timeout loop and the trigger tasks keeps the invariant |
| Accumulator.EventsAreConserved | src/memory_service/workers/curation_worker.py:31-71 | over every interleaving each group's accepted events are, in order, its popped batches followed by its pending list; both maps have the same keys and no list is empty |
| Accumulator.BatchIsStretch | src/memory_service/workers/curation_worker.py:174-178 | each batch is a stretch of its group's events, right after those popped before |
| Accumulator.OverThresholdIsTriggered | src/memory_service/workers/curation_worker.py:141-149 | with successful acknowledgements a group at the threshold has a trigger outstanding between messages; once all have run, every group is below it |
| Accumulator.StrandedIff | src/memory_service/workers/curation_worker.py:141-155 | over every run, between messages, a group at the threshold lacks a trigger if and only if one of its acknowledgements failed with no trigger outstanding and neither an acknowledgement nor a timeout scan has created one since |
| Accumulator.FailedAcknowledgementStrands | src/memory_service/workers/curation_worker.py:141-155 | a run of one message that leaves its group at the threshold without a trigger |
| Accumulator.ScanPicksWaitingGroups | src/memory_service/workers/curation_worker.py:63-71 | a timeout scan picks a group if and only if its oldest pending event has waited longer than the limit |
| Consolidation.RemWorker.FindPendingGroups | src/memory_service/workers/rem_worker.py:106-194 | the two discovery queries: priority groups first, the rest within what they leave of the limit, each ranked by score |
| Consolidation.RemWorker.SplitAndLink | src/memory_service/workers/rem_worker.py:231-250 | every fetched episode is kept as unique or set aside as a duplicate, and linked if the query goes through |
| Consolidation.RemWorker.ConsolidateGroup | src/memory_service/workers/rem_worker.py:196-310 | the new store and the outcome of one consolidation, for every answer of the database and every failure: of fetching, curation, ontology update or compression, which stop it, and of links and markings, which do not |
| Consolidation.RemWorker.RunCycle | src/memory_service/workers/rem_worker.py:65-99 | discovers groups by the last sweep and consolidates them in turn; the sweep time moves to the start of the cycle exactly when none failed |
| Consolidation.SplitIsPartition | src/memory_service/workers/rem_worker.py:231-250 | duplicates and uniques together are the fetched episodes |
| Consolidation.ConsolidateEffect | src/memory_service/workers/rem_worker.py:252-293 | duplicates are marked whatever follows, unless marking fails, uniques are consolidated if curation and ontology succeed and unchanged otherwise, all other episodes are untouched |
| Consolidation.FailureKeepsPendingIff | src/memory_service/workers/rem_worker.py:286-301 | the uniques of a failed consolidation stay pending if and only if curation or the ontology update failed; otherwise compression failed and no compressed episode exists |
| Consolidation.CompressionCoversUniques | src/memory_service/storage/long_term/episode_store.py:607-664 | a successful consolidation of two or more uniques adds one compressed episode, derived from exactly those of them whose link goes through, and nothing else adds one |
| Consolidation.MatchesAreLinked | src/memory_service/workers/rem_worker.py:231-250 | a consolidation adds exactly one DUPLICATE_OF edge from each fetched episode with an embedding to the consolidated one found for it, as far as the link queries go through |
| Consolidation.OutcomeTells | src/memory_service/workers/rem_worker.py:227-310 | the outcome is a failure exactly if fetching raises, or curation or the ontology update with an unmatched episode, or compression with two; otherwise it reports how many episodes matched and how many did not |
| Consolidation.SweepMovesIff | src/memory_service/workers/rem_worker.py:75-96 | the sweep time moves to the start of the cycle unless one of its consolidations fails |
| Lifecycle.SettledIsNeverCompressed | src/memory_service/workers/rem_worker.py:205-301 | over every run an episode that has left the pending state gains no DERIVED_FROM edge |
| Lifecycle.FailedCompressionIsFinal | src/memory_service/workers/rem_worker.py:293-301 | two episodes consolidated by a failed compression, without a compressed episode in any later run |
| Lifecycle.StatusIsFinal | src/memory_service/workers/rem_worker.py:210-293 | over every run an episode that has left the pending state never changes again |
| Lifecycle.RunsKeepLinksRaw | src/memory_service/workers/rem_worker.py:346-383 | over every run, whatever fails, DUPLICATE_OF edges lead from raw episodes to consolidated raw ones of their group |
| Lifecycle.EdgesCountLinks | src/memory_service/workers/rem_worker.py:373-383 | over every run an episode has as many DUPLICATE_OF edges as link queries for it went through |
| Lifecycle.DuplicatesHaveOneOriginalIff | src/memory_service/workers/rem_worker.py:346-400 | after a run each duplicate has exactly one DUPLICATE_OF edge and no other episode any, if and only if one link went through for each marked episode and none for the others |
| Lifecycle.DuplicatesHaveOneOriginal | src/memory_service/workers/rem_worker.py:346-400 | that is so whenever all links and markings of a run go through |
| Lifecycle.FailedLinksAndMarks | src/memory_service/workers/rem_worker.py:373-400 | a failed link leaves a duplicate without an edge; a failed marking leaves a linked episode pending, without failing the consolidation |
| Lifecycle.FailedMarkLinksTwice | src/memory_service/workers/rem_worker.py:373-400 | a duplicate with two edges after one failed marking |
| Lifecycle.TargetsAreNoDuplicates | src/memory_service/workers/rem_worker.py:346-383 | the target of a DUPLICATE_OF edge is consolidated and has no such edge of its own |
| Discovery.FoundByCount | src/memory_service/workers/rem_worker.py:106-194 | by counts in the store alone: a group is found only if it is discoverable and fewer others have more new episodes than rows can be open to it, and is found if fewer have at least as many than rows must be open to it |
| Discovery.ReachableWithoutTies | src/memory_service/workers/rem_worker.py:106-194 | if no two discoverable groups have equally many new episodes, the two conditions are one |
| Discovery.FoundOnce | src/memory_service/workers/rem_worker.py:106-126 | if both queries see the same ontology data, no group is found twice |
| Discovery.QueryRanks | src/memory_service/workers/rem_worker.py:172-194 | a discovery query yields the selected rows by descending urgency, 3600 seconds for each episode plus the age of the oldest in seconds, equally urgent ones in the order of the database |
| Discovery.UndescribedFirst | src/memory_service/workers/rem_worker.py:106-126 | groups without ontology data come before those with it, and no more are found than the limit |
| Discovery.FirstPhaseTakesSlots | src/memory_service/workers/rem_worker.py:113-126 | two discoverable groups of which one is missed under a limit of two |
| Sweeps.CycleIsRun | src/memory_service/workers/rem_worker.py:70-91 | a cycle is a run of its consolidations |
| Sweeps.CycleTakesByAge | src/memory_service/workers/rem_worker.py:205-310 | a cycle without a failure takes a pending episode if fewer than twenty others of its group are not newer, for each time the group is consolidated, and leaves it pending if as many are older; without ties exactly then |
| Sweeps.CycleIsActs | src/memory_service/workers/rem_worker.py:65-99 | an uninterrupted series of discovery, consolidations and finish has the effect proved for the worker's loop |
| Sweeps.CycleReaches | src/memory_service/workers/rem_worker.py:65-217 | one cycle takes an episode if its group is reachable and fewer than twenty others are not newer, and passes it by if the group is not or twenty are older |
| Sweeps.ActsAreRuns | src/memory_service/workers/rem_worker.py:65-104 | every interleaving of arrivals and cycles takes the store through a run, so what holds over runs holds over it |
| Sweeps.PassedStayPending | src/memory_service/workers/rem_worker.py:88-96 | once a sweep has passed, the pending episodes of a group stay pending over every series of cycles and arrivals with fewer than the minimum number of newer ones |
| Sweeps.LoneEpisodeIsLeftBehind | src/memory_service/workers/rem_worker.py:148-158 | a single episode passed over by an empty cycle and left behind, also by a later second one |
| Sweeps.BackdatedAreLeftBehind | src/memory_service/workers/rem_worker.py:148-158 | three episodes with dates before the last sweep that are never consolidated |
| Sweeps.OverflowIsLeftBehind | src/memory_service/workers/rem_worker.py:88-217 | an episode with twenty older ones is passed by a cycle without a failure, and stays pending over every later series of cycles and arrivals with fewer than the minimum number of newer ones |
| Sweeps.FirstTwentyAreTaken | src/memory_service/workers/rem_worker.py:205-217 | in a run of m episodes of one group and one cycle the first twenty are taken |
| Sweeps.TwentyFirstIsLeftBehind | src/memory_service/workers/rem_worker.py:88-217 | in such a run the twenty-first and all later ones are left behind |
| Surroundings.SurroundingsExist | src/memory_service/workers/rem_worker.py:106-310 | what the queries are assumed to guarantee can be met, whichever steps fail |
| Follows.EpisodeChain.FindPredecessor | src/memory_service/storage/long_term/episode_store.py:366-384 | a latest episode of the group not after the given time, if there is one |
| Follows.EpisodeChain.StoreEpisode | src/memory_service/storage/long_term/episode_store.py:192-247 | appends the episode and links it from its predecessor if asked to |
| Follows.RunsAreForests | src/memory_service/storage/long_term/episode_store.py:360-395 | whatever the creation times, every edge stays in its group, runs forward in storage order with a non-negative delta, and no episode is the target of two |
| Follows.PathsGoForward | src/memory_service/storage/long_term/episode_store.py:360-395 | paths run forward in storage and time within a group, so there is no cycle |
| Follows.StoreKeepsPathIff | src/memory_service/storage/long_term/episode_store.py:246-247 | whichever predecessor is picked on a tie, an auto-linked store continues the path of its group if and only if the last episode of the group is not newer and all others that are not newer are strictly older than that one |
| Follows.TiesAndBackdatingBreakPaths | src/memory_service/storage/long_term/episode_store.py:366-384 | a simultaneous and a back-dated third episode that do not continue the path |
| Follows.RunsArePathsIff | src/memory_service/storage/long_term/episode_store.py:205-247 | auto-linked stores build exactly one path per group, whatever is picked on ties, if and only if the times of each group never decrease and only its last two may be equal |
| Pipeline.OntologyUpdate.StoreMentions | src/memory_service/intelligence/graph/ontology_pipeline.py:89-131 | the entity loop writes the named, unseen, worthy mentions whose queries go through and remembers every named one |
| Pipeline.OntologyUpdate.ExtractAndStore | src/memory_service/intelligence/graph/ontology_pipeline.py:45-135 | short texts are passed over, a failed extraction raises, and all other mentions are met |
| Pipeline.OntologyUpdate.PerEpisodePass | src/memory_service/intelligence/graph/ontology_pipeline.py:230-245 | meets the mentions of every episode in order, or raises exactly when an extraction does |
| Pipeline.OntologyUpdate.WindowPass | src/memory_service/intelligence/graph/ontology_pipeline.py:248-265 | the same for the windows of two or more episodes |
| Pipeline.OntologyUpdate.UpdateGroup | src/memory_service/intelligence/graph/ontology_pipeline.py:206-265 | both passes share one set of seen names; raises exactly when an extraction does or the window size is zero |
| Pipeline.WindowsCover | src/memory_service/intelligence/graph/ontology_pipeline.py:248-252 | windows cover the episodes in order, up to a single one left over; windows of one are all skipped |
| Pipeline.WindowAt | src/memory_service/intelligence/graph/ontology_pipeline.py:248-252 | the k-th window holds the episodes from k times the size on, as many as the size or to the end, and at least two |
| Pipeline.BatchGrows | src/memory_service/intelligence/graph/ontology_pipeline.py:36-42 | the content of a batch, episode by episode: an empty content adds nothing, a first one stands alone, each further one follows a line of three hyphens |
| Pipeline.ShortTextsAreSkipped | src/memory_service/intelligence/graph/ontology_pipeline.py:68-85 | a text of under 20 characters, not counting the white space around it, is not extracted; any other yields its mentions or raises |
| Pipeline.WordsAreCounted | src/memory_service/intelligence/graph/ontology_pipeline.py:106-107 | white space sets words apart, and a non-empty string without any is one word |
| Pipeline.EachNameOnce | src/memory_service/intelligence/graph/ontology_pipeline.py:96-98 | over both passes no lower-cased name is written twice |
| Pipeline.WrittenAreWorthyFirsts | src/memory_service/intelligence/graph/ontology_pipeline.py:89-131 | a mention is written if and only if it is the first of its lower-cased name among those with a usable one, is neither of an image type nor too long, and its queries go through |
| Pipeline.RejectedFirstMentionBlocks | src/memory_service/intelligence/graph/ontology_pipeline.py:89-107 | a rejected first mention that keeps a worthy one out |
| Pipeline.FailedWriteIsNotRetried | src/memory_service/intelligence/graph/ontology_pipeline.py:96-131 | a write that fails is not tried again when the same mention comes back |

## Left out

- Databases, message broker, transports, clients, configuration, telemetry and the user interface: each query or message is one step, times are parameters.
- Language-model calls, embeddings and vector similarity: their answers are arbitrary parameters (`extract`, `similar`, `adjacent`, the semantic scores).
- Floating-point rounding: numbers are reals; the logarithm and the exponential are parameters with stated laws.
- Failing database writes: modelled in `Hebbian`, `Pipeline` and `Consolidation`; the other stores assume that their writes succeed.
- Names.Normalize: Python's `lower` and whitespace tables are a parameter with stated laws, so results hold for any case mapping that leaves lower-case ASCII letters, digits, hyphens, underscores and spaces alone.
- Engine.Execute: does not model the broker subject of a queued stage: with a broker, a context whose `group_id` is not a string makes the source raise at the first asynchronous stage. Nor handlers that mutate values shared with the context, or cancellation.
- CausalClaims.CausalClaimStore.UpsertClaim: does not model the embedding or the links to entities. The queries that chain claims (`auto_chain`, `build_chain`, similarity) match and merge edges without a state of their own and are not part of this model.
- Expansion.SearchTail: takes identifiers of the rows as distinct, which the store guarantees by generating them.
- Scoring.ApplyHebbianScore: rows carry all scored fields; the source's defaults for missing keys are the values 0.
- Accumulator.GroupAccumulator.GetTimedOutGroups: returns a set, the source a list in insertion order; each entry only spawns a task.
- Accumulator: the semaphore and the curation run after a batch has been popped, and redelivery by the broker beyond a new delivery of the same event.
- Consolidation.RemWorker.ConsolidateGroup: one polling worker alone; the event-driven worker marking the same episodes at the same time is not modelled.
- Consolidation.RemWorker.FindPendingGroups: the oldest time in a row, which orders the groups of a cycle, may be any number.
- Follows.EpisodeChain.StoreEpisode: stores run one at a time; two interleaved stores with equal times can link each other in the source. Episodes are identified by their position in storage order.
- Pipeline.OntologyUpdate.UpdateGroup: relationship, causal-claim and ABOUT writes of a batch are covered by their stores; the fast-coverage variant runs the same entity loop over the second pass only.
- Sessions, narrative and compressed-episode search, and knowledge and artifact stores: lookups and single-branch code.
