# cfmd-db: a Dafny model of its hard parts

This project models the parts of cfmd-db whose correctness depends on several functions, or on every step of a
protocol, and states what they guarantee as Dafny contracts and lemmas. `dafny verify dfyconfig.toml` checks all of it.

**Object predicates** (`RelationalAlgebra`, `TableLaws`, `QueryTypes`, `PredicateCompiler`, `PredicateAcceptance`,
`PredicateCorrectness`, `ObjectQueries`).
Object predicates are lowered to relational expressions, which the kernel evaluates over set relations whose columns
compare by canonical keys. The main theorem, `LowerCorrect`, says that a predicate is accepted exactly when none of its
parts has a fault, and that the lowered query then keeps exactly the rows on which the predicate holds, for predicates of
any depth: comparisons, connectives, references, reference paths, to-many `any`/`none`/`all` and to-many counts.
`EvaluateSound` says of every relational query that it is sound to run once its types were checked.

**Hosted connections** (`HostAdmission`, `HostSafety`, `HostAnswers`). Connect, drain, close, revocation and drop are an interleaving
of single atomic accesses by any number of threads. Over every interleaving: what `is_drained` promises, what `close`
promises, the exact meaning of the connection counter, and what each call answers.

**History** (`HistoryOrder`, `Undo`, `UndoComposition`). Kahn's algorithm, always taking the least ready effect, and
compensating plans.

**Plans** (`FieldPatches`, `PlanModel`, `PlanLaws`, `PlanAssociativity`, `PlanBuilder`, `DeletePlans`, `ObjectDeletion`).
Pending rows, annotations that point at row positions, history coverage, composition, and deletion of the objects a
query selects, from its predicates to the rows removed.

**Publication under power loss** (`CrashDisk`, `StoreGenerations`, `StoreSafety`, `StoreRecovery`, `StoreCompaction`). A
directory whose unsynced operations may or may not survive, each on its own. In it the directory store publishes generations with a
manifest each, opens at the highest one and compacts the others, while the process may stop, calls may fail and the
power may be lost at any point, any number of times. `Generations` and `GenerationSafety` repeat the campaign's protocol,
one manifest replaced by a rename; `PowerLossCampaign` is the campaign itself and its checker.

**Rules and requirements** (`ByteCodec`, `FrameLists`, `RuleSyntax`, `RuleIdentity`, `RuleDecoder`, `RuleMeaning`, `RuleLaws`,
`RequirementGuard`, `GuardDecoder`). The canonical bytes of rules: what they identify, that they can be read back, what
they say about meaning, and the guard bytes built from them. These bytes are an identity, which the code compares and
hashes but does not read; `RuleDecoder` and `GuardDecoder` say what their layout is, independently of the encoders.

**Text patterns** (`TextAutomaton`, `PatternAutomaton`, `TextMatcher`, `RuleEvaluator`). Compilation of patterns to
automata, simulation with reused visited marks, and evaluation of rules on top of it.

**Protocol limits** (`ProtocolLimits`), **query traces** (`QueryTrace`), **watch delivery** (`WatchDelivery`).

Where a property that one would expect does not hold, the code is modelled as it is, a lemma gives an input on which
the property fails, and another states exactly when it holds:

- Equal canonical bytes do not imply equal outcomes, because a conjunction or disjunction stops at the first deciding
  member and an error is such a member (`SameBytesDifferentOutcomes`, `BytesDetermineOutcomeIff`). The comment at
  `crates/kernel-schema/src/rules.rs:379-383` says that identity depends on the semantic predicate only.
- Plan composition drops history coverage of a relation the second plan does not mutate, so the empty plan is not
  always a left unit and grouping can matter (`EmptyIsLeftUnitIff`, `AssociativeIff`). Undo plans are such plans when
  an entry was authorized for a relation without touching its rows (`UntouchedAuthorizationSplits`, `UndoComposesIff`).
  Commits do not record such an entry; a decoded log can hold one, because decoding does not ask for rows
  (`crates/kernel-durability/src/metadata/intent_codec.rs:1083-1213`).
- Compaction can lose a published generation: a store that stopped between the rename of a manifest and the sync of
  its directory opens at the new generation, and removing the old one may then reach the disk before the rename does
  (`GenerationOneIsLost`, `PublishedCanBeLost`). In every run it is safe if and only if the manifest that is durable
  when it begins is the current one, or is pinned and nothing it rests on was removed since the directory was last
  synced (`CompactionSafeIff`; `PinnedOneInDanger` shows that pinning alone can come too late), and so always when
  nothing is pending (`SyncedCompactionSafe`). The loss shows through plain `open`, which the runtime uses
  (`crates/kernel-plan/src/runtime_impl/durable/runtime_open.rs:588`). `open_on_supported_platform` first runs a probe
  that syncs the directory; if every opening does, nothing durable is lost (`ProbedIsCareful`, `ProbedRecovers`).
- The power-loss checker accepts images that cannot occur at two of its seven cuts (`AcceptsOnlyImagesIff`).
- A to-many count is accepted on a root of any width; on some its query fails (`NarrowRootFails`, `CountOnAnyRoot`).
- A fluent query whose later filter was rejected still hands out the query built so far (`FilterRunCorrect`).
- A failed conversion loses a watch event, so what consumers see is a prefix of the stream exactly when no step hands
  over an event after a step whose conversion failed (`FailedConversionSkips`, `DeliversPrefixIff`).

## Model

| member | source | states |
|---|---|---|
| RelationalAlgebra.FilterRowsSpec | crates/kernel-query/src/rel_eval.rs:1470-1589 | a filter returns exactly the input rows that pass its test and keeps a set relation a set |
| RelationalAlgebra.DistinctRowsSpec | crates/kernel-query/src/relational_operators.rs:418-433 | deduplication returns input rows only, no two with the same canonical key |
| RelationalAlgebra.Representative | crates/kernel-query/src/relational_operators.rs:425-432 | every input row has a row of its own class among the deduplicated rows |
| RelationalAlgebra.JoinRowsSpec | crates/kernel-query/src/rel_eval.rs:1636-1656 | a join returns exactly the concatenations of left and right rows whose keys match |
| RelationalAlgebra.FilterKeepsOrder | crates/kernel-query/src/rel_eval.rs:1470-1589 | filtering two stretches of rows one after the other is filtering them together, in order |
| RelationalAlgebra.FirstIsKept | crates/kernel-query/src/relational_operators.rs:418-433 | deduplication keeps a row exactly when it is the first of its class |
| RelationalAlgebra.DistinctKeepsOrder | crates/kernel-query/src/relational_operators.rs:418-433 | rows added at the end never move or replace a row that was kept |
| RelationalAlgebra.JoinKeepsOrder | crates/kernel-query/src/rel_eval.rs:1745-1805 | joined rows come by left row, then by right row, one for every matching pair |
| QueryTypes.TypecheckAgrees | crates/kernel-query/src/rel_eval.rs:827-1306 | for every query, running it bears out the type check: the checked columns, or the checked error, unless a count overflows first |
| QueryTypes.EvalKeepsSets | crates/kernel-query/src/rel_eval.rs:1364-1744 | every query over set relations yields a set relation of the right width: no two rows agree in every canonical key |
| QueryTypes.EvaluateSound | crates/kernel-query/src/rel_eval.rs:1344-1352 | a checked query fails, other than by a count too large, exactly when the check does and with its error; only queries that count can fail so; what it returns is a set relation of the checked type |
| TableLaws.DifferenceSpec | crates/kernel-query/src/relational_operators.rs:57-118 | removing a part of a set relation removes exactly the rows of that part |
| TableLaws.UnionSpec | crates/kernel-query/src/relational_operators.rs:9-50 | the union of two parts of one set relation holds exactly the rows of both |
| TableLaws.SemiJoinSpec | crates/cfmd-runtime/src/entity.rs:669-693 | join, projection and deduplication together keep exactly the left rows that have a match |
| PredicateCorrectness.GroupRowsSpec | crates/kernel-query/src/relational_operators.rs:175-260 | grouping yields one row per key class that occurs, carrying the cardinality of the set of positions whose row is in the class |
| PredicateCorrectness.CountKeyIs | crates/kernel-query/src/relational_operators.rs:175-260 | the running count of a group is the number of positions whose row carries its key |
| PredicateCorrectness.GroupOverflowIff | crates/kernel-query/src/relational_operators.rs:215-260 | grouping edges overflows exactly when more rows share a key than the machine integer holds |
| PredicateCorrectness.GroupOfRow | crates/cfmd-runtime/src/entity.rs:1117-1151 | a source row has a group exactly when it has an edge, and the group carries the number of positions holding an edge from it |
| PredicateCorrectness.MatchingPositiveSpec | crates/cfmd-runtime/src/entity.rs:1040-1078 | the query for accepted groups keeps exactly the groups whose size meets the condition |
| PredicateCorrectness.NonmatchingPositiveSpec | crates/cfmd-runtime/src/entity.rs:1080-1115 | when zero meets the condition, the query for rejected groups keeps exactly the others, and its impossible branch is not reached |
| PredicateCorrectness.LowerCountCorrect | crates/cfmd-runtime/src/entity.rs:1022-1151 | a to-many count selects exactly the sources whose number of stored edges, as the size of a set of positions, meets the condition, although sources without edges have no group |
| PredicateCorrectness.SourcesSpec | crates/cfmd-runtime/src/entity.rs:871-889 | the edge sources computed for a target selection are, up to key, exactly those with an edge to a selected target |
| PredicateCorrectness.ManyCorrect | crates/cfmd-runtime/src/entity.rs:905-939 | `any`, `none` and `all` over a to-many field select by their direct meaning, `all` holding of sources without targets |
| PredicateCorrectness.RefCorrect | crates/cfmd-runtime/src/entity.rs:669-693 | a reference predicate selects the rows that refer to a stored row satisfying the inner predicate |
| PredicateCorrectness.HopsCorrect | crates/cfmd-runtime/src/entity.rs:566-605 | the hops lowered from right to left select exactly the rows from which the remaining hops reach a satisfying target |
| PredicateCorrectness.PathCorrect | crates/cfmd-runtime/src/entity.rs:566-605 | a whole reference path selects by reachability from the root row |
| PredicateCorrectness.OptionalCorrect | crates/cfmd-runtime/src/entity.rs:755-767 | `is_some` selects the rows whose reference is not none |
| PredicateCorrectness.NotCorrect | crates/cfmd-runtime/src/typed.rs:500-509 | negation selects the complement within the input |
| PredicateCorrectness.AndCorrect | crates/cfmd-runtime/src/typed.rs:511-521 | applying the right predicate to what the left one kept selects the conjunction |
| PredicateCorrectness.OrCorrect | crates/cfmd-runtime/src/typed.rs:523-534 | the union of both selections is the disjunction |
| PredicateCorrectness.BetweenCorrect | crates/cfmd-runtime/src/typed.rs:661-690 | two ordered filters select the values between both bounds, inclusively |
| PredicateCorrectness.FieldTestCorrect | crates/cfmd-runtime/src/typed.rs:589-690 | equality, column equality, order and range predicates select by their row meaning whenever lowering accepts them |
| PredicateCorrectness.LowerCorrect | crates/cfmd-runtime/src/typed.rs:494-690 | for predicates of any depth over any database of set relations: lowering succeeds exactly when no part of the predicate has a fault, and then the query evaluates without error to exactly the input rows on which the predicate holds |
| PredicateAcceptance.LowerAccepts | crates/cfmd-runtime/src/typed.rs:494-690 | lowering fails exactly when some part of the predicate, at whatever depth, names a foreign field or start, compares without an ordering or refers to an object without identity, and reports the first such part from the left |
| PredicateCorrectness.HoldsByRegistry | crates/cfmd-runtime/src/typed.rs:589-767 | comparisons mean what the registered keys and orderings say: equal keys, and the sign the comparison asks for |
| PredicateCompiler.LowerPathLoop | crates/cfmd-runtime/src/entity.rs:566-605 | the reversed loop that consumes the root input once builds the same query as the recursion over hops |
| ObjectQueries.ReachesIsChain | crates/cfmd-runtime/src/entity.rs:431-462 | reachability along hops is the existence of a chain of stored rows linked reference to identity |
| ObjectQueries.PathKeepsChains | crates/cfmd-runtime/src/entity.rs:566-605 | an acceptable path is lowered and keeps a root row iff a chain of linked rows leads from it to a satisfying row |
| ObjectQueries.CountOnAnyRoot | crates/cfmd-runtime/src/entity.rs:1117-1151 | on every root a to-many count is accepted; its query evaluates exactly when the root has the identity column and either the declared width or a condition that zero meets, and then answers the predicate |
| ObjectQueries.NarrowRootFails | crates/cfmd-runtime/src/entity.rs:1117-1151 | on a root one column narrower the predicate is accepted and its query fails |
| ObjectQueries.RelationQuery.Filter | crates/cfmd-runtime/src/typed.rs:772-781 | one filter call: unchanged after an error, otherwise the lowered query or the error is kept |
| ObjectQueries.LowerErrorOf | crates/cfmd-runtime/src/typed.rs:500-690 | whether a predicate is rejected depends on the predicate and the root, not on the query it is applied to |
| ObjectQueries.AllAccepted | crates/cfmd-runtime/src/typed.rs:761-781 | a chain of faultless filters, over the whole relation or a part of it, is accepted and evaluates to the rows satisfying all of them |
| ObjectQueries.FirstErrorSticks | crates/cfmd-runtime/src/typed.rs:772-781 | the first filter with a fault decides the error, that of its first faulty part, and nothing after it changes the query |
| ObjectQueries.FilterRunCorrect | crates/cfmd-runtime/src/typed.rs:866-869 | for every chain of filters the handed-out query evaluates to the rows satisfying exactly the filters before the first faulty one, and there is an error exactly when there is such a filter |
| HostSafety.StepKeepsOk | crates/cfmd-host/src/lib.rs:377-460 | every atomic access keeps, for every thread and connection, what admission, drain and close rely on |
| HostSafety.RunInv | crates/cfmd-host/src/lib.rs:235-662 | the whole invariant holds after every interleaving of any number of threads |
| HostSafety.DrainedForever | crates/cfmd-host/src/lib.rs:349-460 | once `is_drained` has returned true, every connection is closed then and after every continuation |
| HostSafety.ClosedForever | crates/cfmd-host/src/lib.rs:442-560 | once the `close` call that performed the swap has finished, every connection ever returned is closed, or dropped and about to be closed by its drop; no connect call passes its last check later |
| HostSafety.RunDropsClose | crates/cfmd-host/src/lib.rs:658-662 | in every interleaving a connection whose last reference is gone is closed or its drop is about to close it |
| HostSafety.CounterExact | crates/cfmd-host/src/lib.rs:235-267 | the counter equals reservations plus unreleased leases plus releases in progress, never negative and never over the limit |
| HostSafety.ReleasedExactlyOnce | crates/cfmd-host/src/lib.rs:632-662 | each slot is given back at most once, and a released lease whose slot is not back has exactly one thread giving it back |
| HostAnswers.ConnectAnswers | crates/cfmd-host/src/lib.rs:375-460 | in every interleaving a connect call returns a new connection exactly when it finds the host running at each of its four looks, a slot free and its credentials granted; otherwise it returns none |
| HostAnswers.ConnectSucceeds | crates/cfmd-host/src/lib.rs:375-460 | undisturbed, on a running host with a free slot, an authorized connect returns a new open connection that is registered and takes one slot |
| HostAnswers.LifecycleMoves | crates/cfmd-host/src/lib.rs:540-560 | drain takes a running host to draining, close takes any host to closed, and no other access changes the lifecycle |
| HostAnswers.DrainedAnswers | crates/cfmd-host/src/lib.rs:345-352 | `is_drained` answers true exactly when it read draining first and a zero counter then, whatever happened in between |
| HostAnswers.RevokeCloses | crates/cfmd-host/src/lib.rs:632-662 | revoking, or dropping the last reference, closes the connection, gives back its slot and removes it from the table, once, and changes nothing else |
| HostAnswers.CloseEnds | crates/cfmd-host/src/lib.rs:549-560 | a close call can always finish, and then every connection it found in the table is closed |
| HistoryOrder.TopologicalOrder | crates/cfmd-runtime/src/history.rs:487-545 | succeeds exactly when the in-set prerequisites are acyclic, yields the least-ready order, drains the list on a cycle; the other error and an underflow cannot happen |
| HistoryOrder.OrderIds | crates/cfmd-runtime/src/history.rs:493-531 | the counting loop with its ready set computes the least-ready order, with repeated prerequisites and without any missing child |
| HistoryOrder.ReleaseChildren | crates/cfmd-runtime/src/history.rs:520-530 | lowers each child by its number of mentions and readies exactly those that reach zero |
| HistoryOrder.Successors | crates/cfmd-runtime/src/history.rs:504-511 | lists every id under each prerequisite as often as it mentions it |
| HistoryOrder.LeastReadyOrderSpec | crates/cfmd-runtime/src/history.rs:512-531 | the order is free of repetition, keeps prerequisites first and stops only when nothing is ready |
| HistoryOrder.CompleteIffAcyclic | crates/cfmd-runtime/src/history.rs:532-537 | all ids are ordered exactly when no closed walk along prerequisites exists |
| HistoryOrder.LeastOfAllOrders | crates/cfmd-runtime/src/history.rs:512-517 | the order is lexicographically least among all orders with prerequisites first |
| HistoryOrder.CausalOrder | crates/cfmd-runtime/src/history.rs:538-544 | for distinct effects without a cycle the output is a permutation of the input with prerequisites first |
| HistoryOrder.InputOrderIrrelevant | crates/cfmd-runtime/src/history.rs:488-491 | the outcome depends on which effects are listed, not on their order |
| Undo.UndoPlan | crates/cfmd-runtime/src/history.rs:232-317 | the exact error in each obstructed case, a failing snapshot included, and otherwise the plan that swaps inserted and removed rows with inverted authorization |
| Undo.GrantedIff | crates/cfmd-runtime/src/history.rs:232-317 | an undo is granted exactly for a writable, open runtime with a snapshot, an exactly invertible entry that is current or certified, and something to undo |
| Undo.GrantedUndoes | crates/cfmd-runtime/src/history.rs:232-317 | a granted undo of an exact effect, at the head or certified over effects on other rows, leaves the rows those effects would have left without it |
| Undo.UndoRows | crates/cfmd-runtime/src/history.rs:290-296 | the plan removes, in order, what was inserted and inserts what was removed |
| Undo.UndoTwice | crates/cfmd-runtime/src/history.rs:474-485 | inverting twice gives back the original changes, authorization included, and undoing the inverse names the original rows |
| Undo.InvertedPermits | crates/cfmd-runtime/src/history.rs:474-485 | the inverted authorization permits exactly the inverses of the actions permitted before, and keeps relation writing |
| Undo.UndoCoverage | crates/cfmd-runtime/src/history.rs:287-307 | the coverage of a relation is that of its last change that calls for authorization: its inverted authorization and fields, over all rows that undo the changes up to it |
| Undo.UndoCoverageOnce | crates/cfmd-runtime/src/history.rs:287-307 | where an entry changes each relation once, coverage spans exactly the rows that undo the change, and exists only where the change calls for it |
| UndoComposition.UndoComposesIff | crates/cfmd-runtime/src/history.rs:281-317 | an undo plan composes associatively, and is unchanged behind the empty plan, exactly when every relation it needs authorization for has rows to undo |
| UndoComposition.UntouchedAuthorizationSplits | crates/cfmd-runtime/src/history.rs:287-307 | an entry authorized for a relation it did not touch yields a granted undo plan that loses coverage behind the empty plan and depends on grouping |
| Undo.UndoAtHead | crates/cfmd-runtime/src/history.rs:230-317 | undoing an exact effect behind any effects on other rows equals replaying those effects on the original state |
| Undo.UndoRestores | crates/cfmd-runtime/src/history.rs:228-317 | undoing an exact effect restores the source state |
| Undo.UndoRestoresIff | crates/cfmd-runtime/src/history.rs:289-296 | without exactness: the source comes back exactly when removed rows were stored and inserted ones were not, unless also removed |
| FieldPatches.MergeFields | crates/cfmd-runtime/src/plan.rs:326-337 | the find-or-push loop followed by the sort |
| FieldPatches.MergeSpec | crates/cfmd-runtime/src/plan.rs:326-337 | merging strictly sorted patches is right-biased map union and strictly sorted again |
| FieldPatches.PutSpec | crates/cfmd-runtime/src/plan.rs:273-287 | patching one field sets exactly that key |
| FieldPatches.Canonical | crates/cfmd-runtime/src/plan.rs:335-337 | a strictly sorted patch list is determined by the map it stands for |
| PlanBuilder.Plan.constructor | crates/cfmd-runtime/src/plan.rs:94-117 | a new plan is empty |
| PlanBuilder.Plan.Insert | crates/cfmd-runtime/src/plan.rs:123-130 | appends an inserted row and changes nothing else |
| PlanBuilder.Plan.Remove | crates/cfmd-runtime/src/plan.rs:132-139 | appends a removed row and changes nothing else |
| PlanBuilder.Plan.InsertSemantic | crates/cfmd-runtime/src/plan.rs:141-153 | appends an inserted row and annotates its position |
| PlanBuilder.Plan.RemoveSemantic | crates/cfmd-runtime/src/plan.rs:155-167 | appends a removed row and annotates its position |
| PlanBuilder.Plan.RegisterHistoryAuthorization | crates/cfmd-runtime/src/plan.rs:169-187 | covers the rows pending so far, with the field set |
| PlanBuilder.Plan.PatchObjectField | crates/cfmd-runtime/src/plan.rs:212-243 | patches a field, or fails without change when the identity disagrees |
| PlanBuilder.Plan.PatchModelField | crates/cfmd-runtime/src/plan.rs:253-289 | patches a model field, or fails without change on a non-field transition |
| PlanBuilder.Plan.Extend | crates/cfmd-runtime/src/plan.rs:299-402 | computes the composition, or reports its first error and leaves exactly the parts merged until then, whatever order the maps are walked in |
| PlanBuilder.Plan.IsEmpty | crates/cfmd-runtime/src/plan.rs:415-423 | true exactly without transition, object patch and pending row |
| PlanBuilder.MergeObjectPatches | crates/cfmd-runtime/src/plan.rs:347-367 | merges object patches field by field, failing exactly on disagreeing identities |
| PlanBuilder.MergeRows | crates/cfmd-runtime/src/plan.rs:368-400 | appends rows, moves annotations and takes over coverage, failing exactly when coverage meets pending rows |
| PlanBuilder.MoveAnnotations | crates/cfmd-runtime/src/plan.rs:389-399 | moves one relation's annotations behind the rows already there |
| PlanLaws.ComposeAppends | crates/cfmd-runtime/src/plan.rs:384-399 | composition appends the second plan's rows, each with its own annotation: none collides, none slides |
| PlanLaws.ComposeFailsIff | crates/cfmd-runtime/src/plan.rs:299-402 | composition fails with each of its four errors exactly when its cause is there and no earlier one is |
| PlanLaws.PatchFailsIff | crates/cfmd-runtime/src/plan.rs:212-290 | patching fails exactly on a non-field transition, or on a different identity for the same object |
| PlanLaws.BuildFaithful | crates/cfmd-runtime/src/plan.rs:123-402 | however a plan was built and composed, it holds exactly the rows added, each with the annotation it was added with |
| PlanLaws.BuildCoverage | crates/cfmd-runtime/src/plan.rs:169-402 | however a plan was built, a coverage prefix selects exactly the rows it was registered for |
| PlanLaws.BuildFields | crates/cfmd-runtime/src/plan.rs:253-345 | however a plan was built, its field patches are strictly sorted and stand for the values asked for, the right-hand plan winning |
| PlanLaws.BuildObjects | crates/cfmd-runtime/src/plan.rs:212-243 | however a plan was built, an object is patched under one identity and with exactly the values asked for, the right-hand plan winning |
| PlanAssociativity.Associative | crates/cfmd-runtime/src/plan.rs:299-408 | both groupings of three plans succeed or fail together and then agree, if the middle plan's coverage names only relations it mutates |
| PlanAssociativity.AssociativeIff | crates/cfmd-runtime/src/plan.rs:370-383 | that condition on the middle plan is exactly what associativity needs |
| PlanAssociativity.DeltaAssociative | crates/cfmd-runtime/src/plan.rs:309-340 | explicit transitions compose associatively, refusals included |
| PlanAssociativity.PatchesAssociative | crates/cfmd-runtime/src/plan.rs:347-367 | object patches compose associatively, refusals included |
| PlanAssociativity.EmptyIsRightUnit | crates/cfmd-runtime/src/plan.rs:299-408 | composing the empty plan in changes nothing |
| PlanAssociativity.EmptyIsLeftUnitIff | crates/cfmd-runtime/src/plan.rs:370-383 | composing into the empty plan gives the plan back exactly when its coverage names only relations it mutates |
| DeletePlans.BuildSelectAll | crates/cfmd-runtime/src/object.rs:4167-4179 | the loop builds the left-nested union of one lookup per identity |
| DeletePlans.SelectAllEval | crates/cfmd-runtime/src/object.rs:4167-4180 | the folded union evaluates to exactly the stored rows with a selected identity, each once |
| DeletePlans.CountCheck | crates/cfmd-runtime/src/object.rs:4180-4190 | the number of rows found is the sum, over the identities, of their stored rows |
| DeletePlans.CountCheckUnique | crates/cfmd-runtime/src/object.rs:4180-4190 | with unique identities the count check passes exactly when every identity resolves |
| DeletePlans.TotalOfResolved | crates/cfmd-runtime/src/object.rs:4180-4190 | where every identity resolves the count check passes exactly when each has one stored row |
| DeletePlans.CountCheckExactIff | crates/cfmd-runtime/src/object.rs:4180-4190 | over arbitrary lists of identities, also those no object query yields, the count tells exactly the lists that all resolve, if and only if stored identities are unique |
| DeletePlans.RegisteredSpec | crates/cfmd-runtime/src/object.rs:3143-3164 | registering owned relationships adds exactly their contracts, the last one for a relation standing, and leaves every other part of the plan as it was |
| DeletePlans.RegisteredContracts | crates/cfmd-runtime/src/object.rs:3143-3164 | the contracts registered are exactly those of the targets that have one, the last for a relation standing, beside those already there |
| DeletePlans.ContractedSpec | crates/cfmd-runtime/src/object.rs:4160-4162 | a deletion carries the contract of the objects deleted, unless an owned target replaces it, and of every owned target |
| DeletePlans.RegisterRelationships | crates/cfmd-runtime/src/object.rs:1302-1307 | the loop registers every owned relationship, or stops at a broken declaration |
| DeletePlans.SortedIdsSpec | crates/cfmd-runtime/src/object.rs:4146-4148 | sorting and deduplicating keeps exactly the selected identities, increasing |
| DeletePlans.DecodeIdsSpec | crates/cfmd-runtime/src/object.rs:4009-4031 | the identities of the projected rows, or an error if one is not an identity of the type |
| DeletePlans.SelectedIdsSpec | crates/cfmd-runtime/src/object.rs:4009-4031 | the identities looked up are exactly those of the rows the query selects, although the projection deduplicates |
| DeletePlans.DeletePlan | crates/cfmd-runtime/src/object.rs:4120-4199 | the loops over the mutable plan compute the deletion, of identified and of value objects, or its exact error |
| DeletePlans.DeletesSelected | crates/cfmd-runtime/src/object.rs:4120-4199 | granted exactly when the declarations are in order and the stored rows of the selected identities are as many as these, which where all resolve means one each; then one stored row per identity is removed as an object deletion |
| DeletePlans.DeletesQueried | crates/cfmd-runtime/src/object.rs:4120-4199 | the rows removed are exactly the stored rows whose identity is that of a row the query selects; where those are identities of stored rows it is granted exactly when each is stored once |
| DeletePlans.DeletesValues | crates/cfmd-runtime/src/object.rs:4121-4137 | objects without identity: refused exactly when the query does not have the stored shape, failing exactly as the query does, and otherwise every selected row is removed, in order and without annotation |
| DeletePlans.SelectionErrors | crates/cfmd-runtime/src/object.rs:4009-4031 | a failing selection is reported as such, and a selected value that is no identity of the type exactly when there is one |
| DeletePlans.DeletionFrame | crates/cfmd-runtime/src/object.rs:4120-4199 | a deletion inserts nothing, touches no other relation and patches nothing; it carries contracts exactly for objects with identity |
| ObjectDeletion.RelatedToEval | crates/cfmd-runtime/src/object.rs:372-402 | the query of a relationship value selects exactly the stored rows an edge from its owner leads to |
| ObjectDeletion.NamedIffChosen | crates/cfmd-runtime/src/object.rs:4009-4031 | the identities named by any part of the stored relation are those of stored rows; each is stored once exactly when no row of the part shares its identity |
| ObjectDeletion.DeletesChosen | crates/cfmd-runtime/src/object.rs:4120-4199 | end to end, without assuming unique identities: deleting what a filtered object query selects is granted exactly when the declarations are in order and no selected row shares its identity with another stored row, and removes exactly the selected rows |
| ObjectDeletion.DeletesChosenValues | crates/cfmd-runtime/src/object.rs:4121-4137 | end to end for objects without identity: what a filtered query selects is exactly what is removed, and only a projected shape is refused |
| ObjectDeletion.DeletesWhere | crates/cfmd-runtime/src/object.rs:3527-3541 | the same over the whole relation: exactly the stored rows that satisfy the accepted predicates |
| ObjectDeletion.DeletesRelated | crates/cfmd-runtime/src/object.rs:372-402 | the same over the objects related to one: exactly those that also satisfy the accepted predicates |
| CrashDisk.Untouched | artifacts/certification/pass120-qemu-ext4/platform_assurance.rs:585-590 | a name no pending operation touches keeps its binding in every image |
| CrashDisk.MoveTarget | artifacts/certification/pass120-qemu-ext4/platform_assurance.rs:568-571 | a rename target is never unbound: it is the old or a moved inode |
| GenerationSafety.ImageIntact | crates/kernel-durability/src/platform_assurance.rs:532-582 | after power loss at any stage the one manifest names the replaced or the published generation, as far as publication got, with its payload intact |
| GenerationSafety.AdvanceKeepsInv | formal/lean/check_refinement.py:70-126 | every stage of a publication can take its next step and keeps the invariant |
| GenerationSafety.AlwaysIntact | crates/kernel-durability/src/platform_assurance.rs:532-582 | repeating the campaign's protocol any number of times, with power losses and restarts, every image of every state has an intact named generation |
| GenerationSafety.PublicationIsDurable | crates/kernel-durability/src/platform_assurance.rs:561-576 | after the manifest's directory sync no power loss brings the old generation back, and before the rename none publishes the new one |
| GenerationSafety.CanPublish | crates/kernel-durability/src/platform_assurance.rs:532-582 | every idle run can go on to publish any data under any unused generation; that generation is then durable and the replaced one removed |
| GenerationSafety.CanPublishAfterPowerLoss | crates/kernel-durability/src/platform_assurance.rs:532-582 | so can every run cut short by a power loss, from whatever image it left |
| StoreSafety.ImageSafe | crates/kernel-durability/src/store/manifest.rs:130-168 | where no pending operation removes what the durable generation rests on, whichever of them reach the disk, the highest manifest left is whole, all its parts are, and it is no older than the durable one |
| StoreSafety.CurrentSafe | crates/kernel-durability/src/store/checkpoint_publication.rs:288-289 | syncing the directory makes the current generation the durable one and puts it out of danger, whatever was pending |
| StoreSafety.AdvanceKeepsInv | crates/kernel-durability/src/store/checkpoint_publication.rs:232-311 | every stage of a publication can take its next step, keeps the invariant and never moves the durable generation back |
| StoreSafety.RenameSafe | crates/kernel-durability/src/store/manifest.rs:44-71 | renaming the synced pending manifest, over durable parts, makes the new generation the current one and leaves the durable one untouched |
| StoreSafety.StepKeepsInv | crates/kernel-durability/src/store/backend.rs:248-315 | in any run every step but power loss keeps the invariant: stop, failed call, reopening, publishing, compacting |
| StoreSafety.NextKeepsInv | crates/kernel-durability/src/store/backend.rs:248-315 | where compaction is begun with the durable manifest current or pinned, every step, power loss included, keeps the durable generation out of danger |
| StoreRecovery.EveryState | crates/kernel-durability/src/store/recovery.rs:731-745 | in every run, whatever its compactions, a store once opened is sound until the power fails |
| StoreRecovery.StoppedReopens | crates/kernel-durability/src/store/recovery.rs:731-745 | in every run a store that stopped without losing power can be opened again |
| StoreRecovery.PowerLossCostsNothingIff | crates/kernel-durability/src/store/manifest.rs:130-168 | in every run, while the store is running, every power loss leaves a generation no older than the durable one if and only if nothing that one rests on was removed since the directory was last synced |
| StoreRecovery.RecoversAfterPowerLoss | crates/kernel-durability/src/store/manifest.rs:130-168 | over every run whose compactions are begun with the durable manifest current or pinned, whatever a power loss leaves opens at a generation no older than any that was durable before |
| StoreRecovery.PublishedStays | crates/kernel-durability/src/store/manifest.rs:44-71 | once a publication has returned, whatever came before it, no power loss goes back behind it as long as later compactions are begun so |
| StoreRecovery.PublishedReads | crates/kernel-durability/src/store/checkpoint_publication.rs:288-311 | when a publication returns, the disk durably holds the new generation with exactly the parts that were published, and nothing is pending |
| StoreRecovery.AlwaysReopens | crates/kernel-durability/src/store/recovery.rs:731-745 | over every run with such compactions a store that was stopped at any point, also by power loss, can be opened again |
| StoreRecovery.ProbedIsCareful | crates/kernel-durability/src/platform_assurance.rs:221-257 | if every opening first syncs the directory, as the platform probe does, every compaction is begun so |
| StoreRecovery.ProbedRecovers | crates/kernel-durability/src/store/recovery.rs:690-699 | and then over every run no power loss goes back behind any generation that was durable before |
| StoreCompaction.CompactionSafeIff | crates/kernel-durability/src/store/backend.rs:248-315 | in every run, compacting an open store leaves every power loss a generation no older than the durable one, in whatever order and however far it removes, if and only if the durable manifest is the current one, or is pinned and nothing it rests on was removed since the last sync |
| StoreCompaction.SyncedCompactionSafe | crates/kernel-durability/src/store/backend.rs:248-315 | in every run, with nothing pending compaction is safe whatever is pinned |
| StoreCompaction.CompactionLeaves | crates/kernel-durability/src/store/backend.rs:248-315 | a finished compaction, in whatever order it removes, leaves durably exactly the files of the current and the pinned generations without pending manifests |
| StoreCompaction.CanCompact | crates/kernel-durability/src/store/backend.rs:248-315 | every open store can compact to the end, whatever is pinned |
| StoreCompaction.CanPublish | crates/kernel-durability/src/store/checkpoint_publication.rs:232-311 | every run that leaves the store open can go on to publish any parts, which are then durable under a newer generation |
| StoreCompaction.CanPublishAfterFailure | crates/kernel-durability/src/store/checkpoint_publication.rs:232-311 | a publication or compaction whose call fails before a rename leaves the store open where it was, and any parts can be published from there |
| StoreCompaction.CanPublishAfterPowerLoss | crates/kernel-durability/src/store/recovery.rs:731-745 | where compactions are begun with care, after a power loss at any point the store opens on every image no older than what was durable, and any parts can be published from there |
| StoreCompaction.CompactedTooSoon | crates/kernel-durability/src/store/backend.rs:248-315 | from every state between a rename and its directory sync: stop, reopen, begin to compact, and one removal can lose the generation before |
| StoreCompaction.PinnedTooLate | crates/kernel-durability/src/store/backend.rs:248-315 | if that compaction then fails, the durable generation can be pinned and compacting is still unsafe |
| StoreCompaction.PublishedCanBeLost | crates/kernel-durability/src/store/backend.rs:248-315 | every run that leaves the store open has a continuation after which a power loss leaves nothing as new as that generation, unless it is pinned |
| StoreCompaction.PinningCanComeTooLate | crates/kernel-durability/src/store/backend.rs:248-315 | every run that leaves the store open has a continuation that leaves it open again with that generation durable, and pinning it does not make compaction safe |
| StoreCompaction.GenerationOneIsLost | crates/kernel-durability/src/store/backend.rs:248-315 | a run from a disk that holds generation 1 alone after which a power loss leaves nothing as new as generation 1 |
| StoreCompaction.PinnedOneInDanger | crates/kernel-durability/src/store/backend.rs:248-315 | a run from that disk after which compaction is unsafe with generation 1 durable and pinned |
| PowerLossCampaign.Volume.WriteSynced | artifacts/certification/pass120-qemu-ext4/platform_assurance.rs:655-660 | creates, writes and syncs a file that must not exist |
| PowerLossCampaign.Volume.RenameFile | artifacts/certification/pass120-qemu-ext4/platform_assurance.rs:568 | renames a file that must exist |
| PowerLossCampaign.Volume.RemoveFile | artifacts/certification/pass120-qemu-ext4/platform_assurance.rs:577 | removes a file that must exist |
| PowerLossCampaign.Prepare | artifacts/certification/pass120-qemu-ext4/platform_assurance.rs:532-582 | leaves the disk of the cut, on any directory that looks empty; no call in it fails |
| PowerLossCampaign.OnlySeen | artifacts/certification/pass120-qemu-ext4/platform_assurance.rs:587-653 | what can be observed after power loss at each cut is among the listed observations |
| PowerLossCampaign.AllSeen | artifacts/certification/pass120-qemu-ext4/platform_assurance.rs:587-653 | each listed observation does occur |
| PowerLossCampaign.AcceptsEveryImage | artifacts/certification/pass120-qemu-ext4/platform_assurance.rs:587-653 | the checker accepts every image that power loss at its cut can leave |
| PowerLossCampaign.AcceptsOnlyImagesIff | artifacts/certification/pass120-qemu-ext4/platform_assurance.rs:613-643 | it accepts nothing else exactly at five of the seven cuts |
| ByteCodec.LittleEndianInjective | crates/kernel-schema/src/rules.rs:220-222 | little-endian bytes determine the number within their range |
| ByteCodec.LittleEndianRoundTrip | crates/kernel-schema/src/rules.rs:220-222 | reading the bytes least significant first gives the number back |
| ByteCodec.SignedInjective | crates/kernel-schema/src/rules.rs:308-324 | two's complement bytes determine the signed number |
| ByteCodec.SignedRoundTrip | crates/kernel-schema/src/rules.rs:308-324 | reading eight bytes in two's complement gives the signed number back |
| ByteCodec.LengthAndIdRoundTrip | crates/kernel-schema/src/rules.rs:220-222 | reading a length or an id gives it back; lengths beyond 64 bits saturate |
| ByteCodec.Utf8Injective | crates/kernel-schema/src/rules.rs:224-227 | UTF-8 bytes determine the text |
| ByteCodec.ScalarRoundTrip | crates/kernel-schema/src/rules.rs:224-227 | reading a scalar by the layout of its bits gives it back, from as few bytes as its size allows |
| ByteCodec.Utf8RoundTrip | crates/kernel-schema/src/rules.rs:224-227 | reading UTF-8 bytes gives the scalars of the text back |
| ByteCodec.TextDelimits | crates/kernel-schema/src/rules.rs:224-227 | length-prefixed text tells where it ends and which text it is |
| FrameLists.SortDedupSameIff | crates/kernel-schema/src/rules.rs:294-295 | sorting and deduplicating frames forgets exactly order and repetition |
| FrameLists.FrameListDelimits | crates/kernel-schema/src/rules.rs:296-300 | a frame list tells where it ends and determines its frames |
| RuleIdentity.PatternDelimits | crates/kernel-schema/src/rules.rs:239-278 | pattern encodings are self-delimiting |
| RuleIdentity.PatternIdentity | crates/kernel-schema/src/rules.rs:239-278 | patterns have equal bytes iff they agree up to order and repetition of alternatives at every depth |
| RuleIdentity.RuleDelimits | crates/kernel-schema/src/rules.rs:280-377 | rule encodings are self-delimiting |
| RuleIdentity.Identity | crates/kernel-schema/src/rules.rs:280-389 | rules have equal bytes iff they agree up to order and repetition of conjuncts, disjuncts and alternatives at every depth |
| RuleIdentity.SameEncodes | crates/cfmd-runtime/src/transaction.rs:99-124 | rules that agree in that sense have equal bytes, of any size |
| RuleDecoder.PatternReads | crates/kernel-schema/src/rules.rs:239-278 | a reader of the layout gives every pattern back from its bytes, up to order and repetition of alternatives at every depth, and stops where they end |
| RuleDecoder.RuleReads | crates/kernel-schema/src/rules.rs:280-377 | the same for every rule: each form, each field in its place |
| RuleDecoder.ReadIsCanonical | crates/kernel-schema/src/rules.rs:379-389 | the rule read back has the very bytes it was read from |
| RuleMeaning.SamePatternSameLanguage | crates/kernel-schema/src/rules.rs:239-278 | such patterns have the same language |
| RuleMeaning.OutcomesOfBytes | crates/kernel-validation/src/rules.rs:171-224 | exactly the structurally possible outcomes are attained by rules with the same bytes |
| RuleMeaning.BytesDetermineOutcomeIff | crates/kernel-validation/src/rules.rs:180-195 | bytes determine the outcome iff only one outcome is possible |
| RuleMeaning.SameBytesSameMeaning | crates/kernel-schema/src/rules.rs:379-389 | where no error arises, rules with the same bytes evaluate alike |
| RuleMeaning.SameBytesDifferentOutcomes | crates/kernel-validation/src/rules.rs:180-187 | a missing value behind or before a false member: equal bytes, different outcomes |
| RequirementGuard.RequirementIdentity | crates/cfmd-runtime/src/intent_journal.rs:44-58 | a requirement's bytes determine relation, entity, column and rule up to sameness, and ignore the identity value |
| RequirementGuard.GuardDeterminesEncodings | crates/cfmd-runtime/src/intent_journal.rs:228-248 | the guard bytes depend only on the set of requirement encodings, and determine it |
| RequirementGuard.GuardIdentity | crates/cfmd-runtime/src/intent_journal.rs:228-248 | equal guards iff each requirement of either list is, up to sameness, one of the other |
| GuardDecoder.RequirementReads | crates/cfmd-runtime/src/intent_journal.rs:44-58 | reading a requirement's bytes gives back relation, entity, column and rule |
| GuardDecoder.GuardReads | crates/cfmd-runtime/src/intent_journal.rs:228-248 | the bytes behind a guard can be read and say all the requirements they were made of and no other |
| RequirementGuard.Buffer.PushFrames | crates/kernel-schema/src/rules.rs:294-300 | appends the sorted, deduplicated frames with count and lengths |
| RequirementGuard.Buffer.PushText | crates/kernel-schema/src/rules.rs:224-227 | appends a length-prefixed text |
| RequirementGuard.Buffer.PushValue | crates/kernel-schema/src/rules.rs:229-237 | appends a rule coordinate |
| RequirementGuard.EncodePatternInto | crates/kernel-schema/src/rules.rs:239-278 | the recursive encoder appends exactly the pattern's bytes |
| RequirementGuard.EncodeRuleInto | crates/kernel-schema/src/rules.rs:280-377 | the recursive encoder appends exactly the rule's bytes |
| RequirementGuard.EncodePlainInto | crates/kernel-schema/src/rules.rs:306-375 | the same for rules without inner rules |
| RequirementGuard.EncodeOne | crates/cfmd-runtime/src/intent_journal.rs:44-58 | encodes one requirement |
| RequirementGuard.ClientGuard | crates/cfmd-runtime/src/intent_journal.rs:228-248 | computes the guard bytes, and none without requirements |
| TextAutomaton.ThroughExit | crates/kernel-validation/src/rules.rs:3517-3579 | walks out of a closed part of an automaton are walks to its exit followed by walks from it |
| PatternAutomaton.SequenceCorrect | crates/kernel-validation/src/rules.rs:3542-3554 | connecting two parts reads the concatenation of their languages |
| PatternAutomaton.BranchCorrect | crates/kernel-validation/src/rules.rs:3555-3567 | adding a branch adds its language |
| PatternAutomaton.StarCorrect | crates/kernel-validation/src/rules.rs:3568-3577 | the loop edges read any number of repetitions, empty ones included |
| PatternAutomaton.LiteralCorrect | crates/kernel-validation/src/rules.rs:3526-3535 | the chain of a literal reads exactly the literal |
| PatternAutomaton.CompileCorrect | crates/kernel-validation/src/rules.rs:3517-3579 | the automaton of every pattern reads exactly the pattern's language |
| TextMatcher.CompilePattern | crates/kernel-validation/src/rules.rs:3517-3579 | the compiling loops build that automaton |
| TextMatcher.EpsilonClosure | crates/kernel-validation/src/rules.rs:3581-3604 | the marked worklist computes a set closed under silent edges that reads no more than its seeds |
| TextMatcher.NextEpoch | crates/kernel-validation/src/rules.rs:3657-3661 | no mark carries the new epoch, also when the 32-bit epoch wraps around |
| TextMatcher.ReadScalar | crates/kernel-validation/src/rules.rs:3642-3655 | from a closed set, reading a scalar moves to exactly the targets of its reading edges |
| TextMatcher.IsMatch | crates/kernel-validation/src/rules.rs:3626-3674 | the simulation accepts exactly the texts that label a walk to the accepting state |
| TextMatcher.MatchPattern | crates/kernel-validation/src/rules.rs:3678-3680 | compiling and simulating decides the pattern's language for every text |
| RuleEvaluator.Evaluate | crates/kernel-validation/src/rules.rs:171-224 | the evaluator with compiled patterns computes the rule's meaning, errors included; the laws of that meaning are stated without it below |
| RuleEvaluator.EvaluateUntil | crates/kernel-validation/src/rules.rs:180-195 | the loop stops at the first deciding member or error |
| RuleLaws.ErrsIff | crates/kernel-validation/src/rules.rs:138-166 | a rule on one value errs exactly when the value is missing or of another type |
| RuleLaws.ComparisonErrsIff | crates/kernel-validation/src/rules.rs:197-225 | a comparison errs exactly when a value is missing, or the registry gives no verdict on the two |
| RuleLaws.RangeHolds | crates/kernel-validation/src/rules.rs:138-144 | each bound of a range is inclusive, and an absent one bounds nothing |
| RuleLaws.RangeSplits | crates/kernel-validation/src/rules.rs:138-144 | a range holds exactly when both its half-bounded ranges do |
| RuleLaws.BoundsComplement | crates/kernel-validation/src/rules.rs:138-144 | at least n + 1 is the negation of at most n, errors included |
| RuleLaws.LengthHolds | crates/kernel-validation/src/rules.rs:145-152 | the same for text length, counted in scalars |
| RuleLaws.LengthSplits | crates/kernel-validation/src/rules.rs:145-152 | both length bounds together are their conjunction |
| RuleLaws.OneOfHolds | crates/kernel-validation/src/rules.rs:153-159 | a text is one of the allowed exactly when it equals one of them |
| RuleLaws.LiteralHolds | crates/kernel-validation/src/rules.rs:160-166 | a literal pattern accepts exactly its text |
| RuleLaws.EquivalentHolds | crates/kernel-validation/src/rules.rs:197-207 | equivalence is the registry's verdict on left and right |
| RuleLaws.OrderedHolds | crates/kernel-validation/src/rules.rs:208-225 | the four comparisons are the sign of left against right, two of them the negations of the others |
| RuleLaws.ConnectivesHold | crates/kernel-validation/src/rules.rs:178-196 | a conjunction or disjunction answers with its first member that is not neutral, negation flips verdicts and passes errors on |
| ProtocolLimits.CountValueNodes | crates/cfmd-protocol/src/session.rs:611-650 | counts the nodes of a value with a stack, failing exactly when they exceed the budget |
| ProtocolLimits.PushedInputs | crates/cfmd-protocol/src/session.rs:538-557 | replacing a stacked query by its inputs accounts for exactly its own node, constant and depth |
| ProtocolLimits.NoOverflow | crates/cfmd-protocol/src/session.rs:546-555 | the depth counter stays in the machine range |
| ProtocolLimits.ValidateQuery | crates/cfmd-protocol/src/session.rs:526-560 | accepts exactly when recursive node count, recursive depth and total constant size are within limits |
| ProtocolLimits.CheckRows | crates/cfmd-protocol/src/session.rs:587-606 | accepts rows exactly when all are narrow and the running value total stays within the limit |
| ProtocolLimits.ValidateCommit | crates/cfmd-protocol/src/session.rs:562-609 | accepts exactly the non-empty commits within all limits; only the empty one is an invalid request |
| QueryTrace.MergeNodes | crates/cfmd-runtime/src/query.rs:92-98 | the loop keeps the target's nodes and appends those with new ids |
| QueryTrace.MergeKeepsOrder | crates/cfmd-runtime/src/query.rs:92-98 | merging keeps ids unique and parents before children |
| QueryTrace.MergeLosesNothing | crates/cfmd-runtime/src/query.rs:92-98 | where ids mean the same nodes, merging keeps every node of both sides |
| QueryTrace.NodeIds.ScanQuery | crates/cfmd-runtime/src/query.rs:133-145 | a scan has one node with a new id |
| QueryTrace.NodeIds.UnaryQuery | crates/cfmd-runtime/src/query.rs:164-175 | a unary operator appends a new root over the old one |
| QueryTrace.NodeIds.BinaryQuery | crates/cfmd-runtime/src/query.rs:273-373 | a binary operator merges both traces and appends a new root over both |
| QueryTrace.StepKeepsInv | crates/cfmd-runtime/src/query.rs:133-373 | every constructor call on any queries built before keeps all traces well-formed and ids unambiguous |
| QueryTrace.EveryTrace | crates/cfmd-runtime/src/query.rs:151-157 | in every query ever built ids are unique, parents precede children, every node went into the query, and the reported source is the root's |
| QueryTrace.EveryTraceTells | crates/cfmd-runtime/src/query.rs:133-373 | in every query ever built, the trace read from its root tells how the query was built: each operator, its location and its inputs, left before right |
| QueryTrace.TellsOnce | crates/cfmd-runtime/src/query.rs:133-373 | and it tells no other construction |
| WatchDelivery.StepKeepsOwner | crates/cfmd-python-probe/src/lib.rs:671-690 | at most one consumer is past waiting, and then the replay queue is empty |
| WatchDelivery.StepTakes | crates/cfmd-python-probe/src/lib.rs:237-263 | only receiving takes an event from the stream; cancelling and handing over move it on |
| WatchDelivery.NextIsHanded | crates/cfmd-python-probe/src/lib.rs:217-263 | a `next` call that finds no other one is handed the replayed event, or else the next one of the stream |
| WatchDelivery.CallsEnd | crates/cfmd-python-probe/src/lib.rs:237-263 | a call that is cancelled, fails or hands over ends and gives the lock back; cancelling puts a taken event up for replay |
| WatchDelivery.NothingLostOrRepeated | crates/cfmd-python-probe/src/lib.rs:217-263 | in every run each event taken is accounted for once and in order, and at most one is queued for replay |
| WatchDelivery.DeliversPrefix | crates/cfmd-python-probe/src/lib.rs:671-690 | if conversions succeed, consumers together see a prefix of the stream, at most the event in flight short |
| WatchDelivery.FatesOfSchedule | crates/cfmd-python-probe/src/lib.rs:255-263 | which events were dropped, and whether any was delivered after one, can be read off the guards of the steps taken |
| WatchDelivery.DeliversPrefixIff | crates/cfmd-python-probe/src/lib.rs:255-263 | they see a prefix exactly when no step hands over an event after a step whose conversion failed |
| WatchDelivery.FailedConversionSkips | crates/cfmd-python-probe/src/lib.rs:255-263 | after a failed conversion of the first event the consumer is handed the second one alone |

## Left out

- HostSafety.ClosedForever: a connect call counts as returned when it passes its last check; one that passed it may hand out its connection after `close` has finished, closed by then.
- ProtocolLimits.ValidateQuery: stated for queries whose node count and constant size do not exceed the machine maximum; larger ones cannot be held in memory.
- ProtocolLimits.ValidateCommit: stated for commits whose row count and value size do not exceed the machine maximum.
- RuleDecoder.RuleReads: stated for encodings shorter than 2^64 bytes, like RuleIdentity.Identity.
- RuleIdentity.Identity: stated for encodings shorter than 2^64 bytes, beyond which length prefixes saturate.
- DeletePlans.DeletesSelected: takes exact comparison of identities as a hypothesis; the schema establishes it.
- ObjectDeletion.DeletesChosen: takes exact comparison of identities, and an identity of the type in every stored row, as hypotheses; sets over a projection of the stored relation are not covered.
- Undo.UndoAtHead: takes exact effects and disjoint rows as hypotheses; the certification that establishes them belongs to the kernel.
- Bag relations, `TopKWithTies`, exact floating-point sums; of the type checks, those that ask the semantic registry: value types, domains, refinement of equivalences and congruence of orderings.
- Memory orderings, mutex poisoning, panics in authenticators, failing upgrades of weak references, request permits and wrap-around of connection ids in the host.
- The second read of the lifecycle that only chooses between two error codes in `connect_with_context`.
- DeletePlans.DeletePlan: does not model the bridging of the finished plan to the current schema revision.
- StoreGenerations: log appends after publication, streamed checkpoints, prepared capsules and the single-file backend; a generation's parts are taken as written once.
- Real file I/O, signatures, hashing of guard bytes and of manifests, and checksums.
- Wrap-around of query node ids, and the relational expression a query carries beside its trace.
- Cancellation safety of the watch itself: a cancelled `next` is taken not to consume an event.
- Derive macros, Python and asyncio glue, wire formats and DTO conversions: one-to-one translations.
- Approval generations, subscriptions, migrations and permission checks.
