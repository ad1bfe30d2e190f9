# A model of Comunica's query rewriting, path traversal and stream state machines

Comunica evaluates SPARQL over several sources. This project models the parts of it where a small slip changes query
results silently, and proves what those parts are for. Solutions are partial mappings, results are multisets, and the
algebra is that of section 18.5 of SPARQL 1.1 Query Language with three-valued effective boolean values (section
17.2). JavaScript runs to completion between awaits, so asynchronous code is a state machine whose steps are the
stretches between two awaits, and steps of different activities interleave freely; next to each state machine stands a
class with the fields of the source class whose methods are proved to perform exactly its steps.

Where to start:

| topic | model | main results |
|---|---|---|
| multisets, joins, algebra | `Bags`, `Products`, `Joins`, `JoinGroups`, `Terms`, `Algebra`, `Scopes` | `JoinGroups.ClosedExactly`, and laws of joins and left joins for partial solutions |
| filter pushdown | `FilterPushdown` | `FilterPushdownProof.PushdownSound`, `FilterPushdownDepth.PushdownDeep`, `FilterPushdownRun.OptimizedSound`, `FilterPushdownSteady.SteadyOptimized`, the exact conditions in `FilterPushdownExact` and `FilterPushdownEquality`, the effects in `FilterPushdownEffects` |
| OPTIONAL conditions | `LeftJoinPushdown` | `LeftJoinPushdown.MoveExactly`, `LeftJoinPushdown.RewriteSound` |
| join clustering | `JoinConnected` | `JoinConnected.ComponentsExactly`, `JoinConnectedProof.ClusterJoinSound`, `JoinConnectedEffects.JoinsComponents` |
| pruning of empty sources | `PruneEmpty` | `PruneEmpty.RunSound`, `PruneEffects.MarkedAreGone`, `PruneEffects.HasEmptyExactly` |
| grouping by source | `GroupSources` | `GroupSourcesProof.GroupingSound`, `GroupSourcesEffects.AskedOnce` |
| property paths | `PathExprs`, `PathSpec`, `Paths` | `PathSpec.ModesAgree`, `PathsTheorem.PathsAreRight`, `PathsTheorem.SameVariableExactly` |
| graph traversals | `Reach`, `PathIterator`, `StarSearch` and their classes | `PathIterator.ClosesCompleteExactly`, `StarSearch.SearchesAreExact`, `StarSearch.RunsTerminate` |
| GROUP BY | `GroupsState`, `GroupsStateClass` | `GroupsState.CollectsExactly`, `GroupsRows.RowsHandedOver` |
| ORDER BY | `SortWindow`, `SortIterator`, `SortStability` | `SortWindow.OutputExactly`, `SortStability.StableExactly`, `SortStability.OrderByLexicographic` |
| body retries | `RetryBody` | `RetryBody.OneBody`, `RetryBody.NoRetryAfterDelivery`, `RetryBodyRuns.SomeBodyIsDelivered` |
| three-valued logic, language ranges, skolemization, Accept header | `Logic`, `LangMatches`, `Skolem`, `AcceptHeader` | see the table |

Parameters of the model stand for what cannot be seen from the code: the quads of each source, the functions behind
operators, effective boolean values, the answers of sub-queries (finite sequences, repeats included), the scope
computation (`Config.scope`, of which only "contains the domain of every solution" is assumed, as
`FilterPushdownProof.ScopeSound` states), the decision whether a filter should be pushed at all, selector shapes,
comparators and aggregators.

`Paths.Sol` describes the path actors in their own terms: patterns per source, generated variables, joins that are
cleaned of these variables, bindings where the later of two equal keys wins. `PathSpec.Spec` is section 18.4, written
from the standard. `PathsTheorem.PathsAreRight` connects the two, `PathsAlgebra.ActorsMeanAlgebra` connects them with
the algebra of the rewriting theorems, and `PathTraversals` connects the closures in `Paths.Sol` with the traversals.
In the same way `GroupSourcesProof.Mean` interprets a tree in any pair of commutative monoids, and is then read once
as solution multisets and once as the requests made to each source.

Where the code does not do what it is for, the code was followed, and the project says exactly when it is right:

- A filter that shares no variable with a projection, VALUES, NOP, a union branch or a join is dropped. If it reads
  nothing in scope there, that is right exactly if the filter accepts the empty solution or there is nothing to filter
  (`FilterPushdownProof.VoidCase`); whatever it reads, one filter can be dropped on all data of a scope exactly if it
  accepts every mapping of that scope (`FilterPushdownExact.DropExactly`).
- A filter that shares some variable with a projection is pushed below it, together with the variables that the
  projection hides: a filter `?x = ?y` over `SELECT ?x` invents a solution
  (`FilterPushdownExact.ProjectionInventsSolutions`). It is right for all data exactly if the projection keeps
  whatever the filter reads of its input (`FilterPushdownExact.ProjectExactly`).
- The inputs of a join that contain only some of a filter's variables are filtered with the others unbound
  (`FilterPushdownGaps.PartialOverlapLosesSolutions`). A split into groups is right for all data with the same scopes
  exactly if the groups are closed (`JoinGroups.ClosedExactly`), and one push can break this for the next
  (`FilterPushdownGaps.OnePushSpoilsNext`).
- `?x = <t>` substituted into a path makes `<t>` match itself with length zero even if it is no node, possibly in more
  ways than before, and the rebuilt path is asked of the default graph. That is right exactly if the path has the same
  matches there (`ValueSubstitution.PathEqualityExact`, `ValueSubstitution.PathWaysExact`).
- `?x = t` is substituted for constants of eleven datatypes, taken to be equal to themselves only
  (`FilterPushdownEquality.SubstitutedExactly`). The evaluator compares all string types by their texts, so
  `FILTER(?x = "test1")` loses a solution with the value `"test1"^^xsd:normalizedString`
  (`FilterPushdownEquality.StringSubstitutionLosesSolutions`). For patterns the substitution is right for all data
  exactly if the constant has no text in it and no value that can be written differently
  (`FilterPushdownEquality.EvaluatedExactly`, `TermEquality.SingularExactly`).
- A literal spelled `false` voids an operation whatever its datatype (`FilterPushdownGaps.FalseLiteralExact`).
- Variables inside named functions are not seen by either pushdown. A condition may move to the right of an OPTIONAL
  exactly if the right-hand solution decides it (`LeftJoinPushdown.MoveExactly`,
  `LeftJoinPushdown.NamedConditionWrong`). A filter with nothing but such variables is dropped at VALUES, projections
  and NOP (`FilterPushdownExact.NamedFilterDropped`), and over a join it goes into every input, also where the
  variable is not bound (`FilterPushdownExact.NamedFilterLosesSolutions`). The conditions of the filter theorems are
  therefore about the variables a filter reads, while the code's decisions are about those it sees: a join split by
  what is seen is right exactly if its groups are closed for what is read (`FilterPushdownGaps.JoinSplitExactly`), and
  there is such a theorem for dropping, projections, extensions and left joins in `FilterPushdownExact`.
- A MINUS with an empty right operand is taken to be empty, which is right exactly if its left operand is
  (`PruneEmpty.MinusExactly`).
- A variable named like a property that every JavaScript object inherits, such as `?constructor`, overlaps with
  everything (`JoinConnected.ComponentsExactly`).
- A metadata request still in flight makes the path iterator close before its first sub-query has answered
  (`PathIterator.ClosesCompleteExactly`).
- `?x p+ ?x` reports the end of a search as its start, and starts only where the path has a loop. Any path between
  `?x` and `?x`, with one-or-more parts at any depth, is answered rightly exactly if the loops found in this way are
  the loops of the path (`PathsTheorem.SameVariableExactly`); for a plain `p+`, if the nodes that self-loops lead to
  are the nodes on cycles (`PathsTheorem.ClosureLoops`). Paths whose subject variable is called `__p` or `__x` lose it
  (`PathsClosures.NodesExactly`).
- One sorting pass is not stable (`SortWindow.NotStable`). It is stable on every arrangement of distinct rows exactly if
  no three of them have an equal key, except three that share the smallest key (`SortStability.StableExactly`);
  ORDER BY with several keys sorts by all of them if the keys before the last one have this property
  (`SortStability.OrderByLexicographic`), and with two keys only then for every second key
  (`SortStability.TwoKeysExactly`).
- The language range `*` matches the empty language tag too (`LangMatches.AnyTag`), and a tag that begins with `*`
  passes the test of the first subtag with any range (`LangMatches.FirstSubtagExactly`). In all other cases the
  function is right (`LangMatches.AsIntendedExactly`).
- A skolem IRI without a colon after the source id belongs to the id without its last character
  (`Skolem.IriWithoutColon`).
- An Accept header limited to fewer than nine characters exceeds its limit as soon as something is cut
  (`AcceptHeader.LengthExactly`).

## Model

| member | source | states |
|---|---|---|
| FilterPushdownProof.PushdownSound | packages/actor-optimize-query-operation-filter-pushdown/lib/ActorOptimizeQueryOperationFilterPushdown.ts:262-466 | on the well-scoped fragment, pushing a filter into any operation tree leaves exactly the solution multiset of the filter on the original operation, substitution of `?v = term` into patterns and paths included |
| FilterPushdownProof.JoinCase | packages/actor-optimize-query-operation-filter-pushdown/lib/ActorOptimizeQueryOperationFilterPushdown.ts:296-332 | a join split by overlap, with the filter on each fully overlapping input and on the partially overlapping ones together, has the filtered solutions if every filtered group is closed |
| FilterPushdownProof.UnionCase | packages/actor-optimize-query-operation-filter-pushdown/lib/ActorOptimizeQueryOperationFilterPushdown.ts:347-378 | the same for unions all of whose branches overlap or have a scope all of whose mappings the filter accepts |
| FilterPushdownProof.LeftJoinCase | packages/actor-optimize-query-operation-filter-pushdown/lib/ActorOptimizeQueryOperationFilterPushdown.ts:386-402 | a filter moves onto the left operand if whatever it reads of the right one is bound on the left for certain |
| JoinGroups.ClosedFilters | packages/actor-optimize-query-operation-filter-pushdown/lib/ActorOptimizeQueryOperationFilterPushdown.ts:296-332 | filtering several closed groups of a join separately is filtering the join, for arbitrary partial solutions |
| JoinGroups.ClosedExactly | packages/actor-optimize-query-operation-filter-pushdown/lib/ActorOptimizeQueryOperationFilterPushdown.ts:296-332 | and only closed groups can be filtered so: it is right for all data with given certain and possible variables and all filters on given variables exactly if whatever a group may leave open is out of scope everywhere else |
| FilterPushdownGaps.JoinSplitExactly | packages/actor-optimize-query-operation-filter-pushdown/lib/ActorOptimizeQueryOperationFilterPushdown.ts:296-332 | the same for the groups into which the code splits the inputs of a join by the variables it sees: right for all filters on the variables read exactly if the groups are closed for these |
| FilterPushdownDepth.PushdownDeep | packages/actor-optimize-query-operation-filter-pushdown/lib/ActorOptimizeQueryOperationFilterPushdown.ts:249-466 | the filter goes as deep as it may: wherever it is left in the result, it sits on something it cannot pass |
| ValueSubstitution.PatternEqualityExact | packages/actor-optimize-query-operation-filter-pushdown/lib/ActorOptimizeQueryOperationFilterPushdown.ts:403-434 | substituting `?v = t` into a pattern and joining with VALUES is right exactly if the equality holds for no other value the pattern gives `?v` |
| ValueSubstitution.PathEqualityExact | packages/actor-optimize-query-operation-filter-pushdown/lib/ActorOptimizeQueryOperationFilterPushdown.ts:435-466 | for a path, and whatever graph the rebuilt path has: right exactly if the path with the end made a constant has, in that graph, each pair as often as the original has it |
| ValueSubstitution.PathWaysExact | packages/actor-optimize-query-operation-filter-pushdown/lib/ActorOptimizeQueryOperationFilterPushdown.ts:435-466 | within one graph this holds exactly if the term is a node, or another constant stands at the other end, or both forms of the path match it with length zero in equally many ways |
| FilterPushdownProof.VoidCase | packages/actor-optimize-query-operation-filter-pushdown/lib/ActorOptimizeQueryOperationFilterPushdown.ts:333-385 | where the filter is dropped and reads nothing in scope, this is right exactly if it accepts the empty solution or there is nothing to filter |
| FilterPushdownExact.DropExactly | packages/actor-optimize-query-operation-filter-pushdown/lib/ActorOptimizeQueryOperationFilterPushdown.ts:333-385 | a given filter can be dropped on all data of a scope exactly if it accepts every mapping of that scope |
| FilterPushdownExact.AlwaysDropsExactly | packages/actor-optimize-query-operation-filter-pushdown/lib/ActorOptimizeQueryOperationFilterPushdown.ts:333-385 | all filters on given variables that accept the empty solution can be dropped exactly if none of these variables is in scope |
| FilterPushdownExact.ProjectExactly | packages/actor-optimize-query-operation-filter-pushdown/lib/ActorOptimizeQueryOperationFilterPushdown.ts:336-343 | pushing below a projection is right for all data and all filters on given variables exactly if the projection keeps those of them that its input has in scope |
| FilterPushdownExact.ExtendExactly | packages/actor-optimize-query-operation-filter-pushdown/lib/ActorOptimizeQueryOperationFilterPushdown.ts:278-290 | below an extension exactly if the new variable is not read |
| FilterPushdownExact.LeftJoinExactly | packages/actor-optimize-query-operation-filter-pushdown/lib/ActorOptimizeQueryOperationFilterPushdown.ts:386-402 | onto the left operand of a left join exactly if the variables read and in scope on the right are bound on the left for certain |
| FilterPushdownExact.ProjectionInventsSolutions | packages/actor-optimize-query-operation-filter-pushdown/lib/ActorOptimizeQueryOperationFilterPushdown.ts:336-343 | `FILTER(?x = ?y)` over `SELECT ?x` of a row with two equal values of both: the filter rejects the projected row, the pushed one lets it through |
| FilterPushdownExact.NamedFilterDropped | packages/actor-optimize-query-operation-filter-pushdown/lib/ActorOptimizeQueryOperationFilterPushdown.ts:333-385 | a filter whose only variable is inside a named function is dropped at VALUES and at a projection, where it rejects the only solution |
| FilterPushdownExact.NamedFilterLosesSolutions | packages/actor-optimize-query-operation-filter-pushdown/lib/ActorOptimizeQueryOperationFilterPushdown.ts:220-246 | over a join such a filter goes into every input, and the only solution is lost |
| FilterPushdownRun.SplitSound | packages/actor-optimize-query-operation-filter-pushdown/lib/ActorOptimizeQueryOperationFilterPushdown.ts:52-66 | splitting conjunctions into nested filters keeps the solution multiset at any nesting |
| FilterPushdownRun.MergeSound | packages/actor-optimize-query-operation-filter-pushdown/lib/ActorOptimizeQueryOperationFilterPushdown.ts:116-132 | merging nested filters into one conjunction keeps the solution multiset at any nesting |
| FilterPushdownRun.MergeMerges | packages/actor-optimize-query-operation-filter-pushdown/lib/ActorOptimizeQueryOperationFilterPushdown.ts:560-573 | after merging no filter is directly inside another one |
| FilterPushdownRun.RoundsSound | packages/actor-optimize-query-operation-filter-pushdown/lib/ActorOptimizeQueryOperationFilterPushdown.ts:79-110 | any number of rounds of the push loop keeps the solution multiset, when each round is well-scoped and the tree has no EXISTS |
| FilterPushdownRun.OptimizedSound | packages/actor-optimize-query-operation-filter-pushdown/lib/ActorOptimizeQueryOperationFilterPushdown.ts:47-135 | splitting, pushing and merging together keep the solution multiset, under the same conditions |
| FilterPushdownGaps.OnePushSpoilsNext | packages/actor-optimize-query-operation-filter-pushdown/lib/ActorOptimizeQueryOperationFilterPushdown.ts:79-110 | why rounds need a condition: two filters, each well-scoped on the same join, of which one push makes the other lose the only solution |
| FilterPushdownSteady.SteadyRounds | packages/actor-optimize-query-operation-filter-pushdown/lib/ActorOptimizeQueryOperationFilterPushdown.ts:79-110 | on a fragment that pushing does not leave (filters in which some variable is seen, whose variables, seen or read, each join input binds all of or knows none of; several-variable filters apart from substitutable equalities) every number of rounds is well-scoped |
| FilterPushdownSteady.SteadyOptimized | packages/actor-optimize-query-operation-filter-pushdown/lib/ActorOptimizeQueryOperationFilterPushdown.ts:47-135 | on that fragment the whole optimizer is right with no condition on the intermediate trees |
| FilterPushdownEquality.SubstitutedExactly | packages/actor-optimize-query-operation-filter-pushdown/lib/ActorOptimizeQueryOperationFilterPushdown.ts:474-524 | exactly the equalities of a variable with a constant, on either side, are substituted, where the constant is no literal or has one of eleven datatypes |
| FilterPushdownEquality.EqualityMeans | packages/actor-optimize-query-operation-filter-pushdown/lib/ActorOptimizeQueryOperationFilterPushdown.ts:474-524 | wherever `=` is true of such a constant and itself only, a substituted equality holds for the substituted term only |
| FilterPushdownEquality.PatternsSound | packages/actor-optimize-query-operation-filter-pushdown/lib/ActorOptimizeQueryOperationFilterPushdown.ts:403-434 | there, pushing any filter into any pattern is right, with no further condition on the filter |
| FilterPushdownEquality.RegularFilters | packages/actor-optimize-query-operation-filter-pushdown/lib/ActorOptimizeQueryOperationFilterPushdown.ts:79-110 | and a filter belongs to the steady fragment by its variables alone |
| TermEquality.SingularExactly | packages/actor-function-factory-term-equality/lib/TermFunctionEquality.ts:29-104 | the evaluator's `=` is true of a term and itself only exactly if there is no text in it, quoted parts included, and no value that can be written differently: all string types are compared by their texts |
| FilterPushdownEquality.EvaluatedExactly | packages/actor-optimize-query-operation-filter-pushdown/lib/ActorOptimizeQueryOperationFilterPushdown.ts:403-434 | with the evaluator's `=`, substituting into a pattern is right for all data exactly for those terms |
| FilterPushdownEquality.StringsNotDistinguished | packages/actor-function-factory-term-equality/test/op.equality-test.ts:80-91 | so the evaluator is not among the environments of `PatternsSound` |
| FilterPushdownEquality.StringSubstitutionLosesSolutions | packages/actor-optimize-query-operation-filter-pushdown/lib/ActorOptimizeQueryOperationFilterPushdown.ts:403-434 | `FILTER(?x = "test1")` over a pattern with the value `"test1"^^xsd:normalizedString`: the filter keeps the solution, the substituted pattern loses it |
| FilterPushdownEffects.FilterIsPushed | packages/actor-optimize-query-operation-filter-pushdown/lib/ActorOptimizeQueryOperationFilterPushdown.ts:79-110 | one round pushes a filter wherever it stands in the tree, and leaves the rest as it is, if it is the only filter and is to be pushed |
| FilterPushdownEffects.ReportsExactly | packages/actor-optimize-query-operation-filter-pushdown/lib/ActorOptimizeQueryOperationFilterPushdown.ts:79-110 | a round reports a modification exactly if some filter of the tree, wherever it stands, moves into what the round has made of its input |
| FilterPushdownEffects.StaysExactly | packages/actor-optimize-query-operation-filter-pushdown/lib/ActorOptimizeQueryOperationFilterPushdown.ts:262-466 | a filter does not move exactly if it stays on top of the operation, or is dropped for the single input of a join or union |
| FilterPushdownEffects.KindExactly | packages/actor-optimize-query-operation-filter-pushdown/lib/ActorOptimizeQueryOperationFilterPushdown.ts:220-246 | an input overlaps fully if it has all variables of the filter in scope, partially if it has some but not all, and else not |
| FilterPushdownEffects.SeenExactly | packages/utils-query-operation/lib/Expressions.ts:10-27 | the variables seen in a filter are those outside of named functions and those in scope of its EXISTS patterns |
| FilterPushdownEffects.SplitsUp | packages/actor-optimize-query-operation-filter-pushdown/lib/ActorOptimizeQueryOperationFilterPushdown.ts:52-66 | after splitting no filter is a conjunction, if none was one of conjunctions |
| FilterPushdownEffects.PassesMade | packages/actor-optimize-query-operation-filter-pushdown/lib/ActorOptimizeQueryOperationFilterPushdown.ts:47-135 | the passes that are switched on are made, in this order; rounds go on until nothing moves or the limit is reached |
| FilterPushdown.GetOverlappingOperations | packages/actor-optimize-query-operation-filter-pushdown/lib/ActorOptimizeQueryOperationFilterPushdown.ts:220-246 | the three lists are the fully, partially and not overlapping inputs, each in order |
| FilterPushdown.Run | packages/actor-optimize-query-operation-filter-pushdown/lib/ActorOptimizeQueryOperationFilterPushdown.ts:47-135 | the loop with its `repeat` flag and iteration limit computes the function the theorems are about |
| FilterPushdownGaps.VoidsExactly | packages/actor-optimize-query-operation-filter-pushdown/lib/ActorOptimizeQueryOperationFilterPushdown.ts:268-274 | exactly the literals spelled `false`, of any datatype, void every operation |
| FilterPushdownGaps.FalseLiteralExact | packages/actor-optimize-query-operation-filter-pushdown/lib/ActorOptimizeQueryOperationFilterPushdown.ts:268-274 | a literal spelled `false` voids its operation, which is right exactly if that literal is not true or there is nothing to void |
| FilterPushdownGaps.PartialOverlapLosesSolutions | packages/actor-optimize-query-operation-filter-pushdown/lib/ActorOptimizeQueryOperationFilterPushdown.ts:311-318 | a concrete join whose only solution is lost, because a partially overlapping input is filtered with an unbound variable |
| FilterPushdownGaps.PathSubstitutionExact | packages/actor-optimize-query-operation-filter-pushdown/lib/ActorOptimizeQueryOperationFilterPushdown.ts:435-466 | the whole rule for a path, as the code rebuilds it |
| FilterPushdownGaps.PathSubstitutionInventsSolutions | packages/actor-optimize-query-operation-filter-pushdown/lib/ActorOptimizeQueryOperationFilterPushdown.ts:435-466 | a substituted path relates a term that is no node to itself, which the original did not |
| FilterPushdownGaps.PathSubstitutionCountsTwice | packages/actor-optimize-query-operation-filter-pushdown/lib/ActorOptimizeQueryOperationFilterPushdown.ts:435-466 | a constant end is not enough: the alternatives `p?` and `q?/r?` between `?x` and `<t>` get a second match |
| FilterPushdownGaps.PathSubstitutionLosesGraph | packages/actor-optimize-query-operation-filter-pushdown/lib/ActorOptimizeQueryOperationFilterPushdown.ts:446-453 | in every graph but the default one there is data on which the rebuilt path loses a solution |
| FilterPushdownGaps.PathSubstitutionRight | packages/actor-optimize-query-operation-filter-pushdown/lib/ActorOptimizeQueryOperationFilterPushdown.ts:435-466 | it is right for nodes, for paths that cannot have length zero, and for paths without alternatives that had a constant end and a zero-length match already |
| Scopes.InScopeSound | packages/actor-optimize-query-operation-filter-pushdown/lib/ActorOptimizeQueryOperationFilterPushdown.ts:220-246 | the scopes of section 18.2.1 satisfy the one assumption made on scopes: they contain the domain of every solution |
| LeftJoinPushdown.MovesWhenSeen | packages/actor-optimize-query-operation-leftjoin-expression-pushdown/lib/ActorOptimizeQueryOperationLeftjoinExpressionPushdown.ts:37-55 | the condition moves exactly if no variable seen in it is in scope on the left and some is on the right |
| LeftJoinPushdown.MoveExactly | packages/actor-optimize-query-operation-leftjoin-expression-pushdown/lib/ActorOptimizeQueryOperationLeftjoinExpressionPushdown.ts:37-55 | moving a condition into a filter on the right operand keeps the left join of all operands with given scopes exactly if the right-hand solution alone always decides the condition |
| LeftJoinPushdown.ApartDecided | packages/actor-optimize-query-operation-leftjoin-expression-pushdown/lib/ActorOptimizeQueryOperationLeftjoinExpressionPushdown.ts:37-55 | which it does if the condition reads nothing in scope on the left, named functions included |
| LeftJoinPushdown.PushConditionSound | packages/actor-optimize-query-operation-leftjoin-expression-pushdown/lib/ActorOptimizeQueryOperationLeftjoinExpressionPushdown.ts:37-55 | the rule of the optimizer keeps the left join multiset under that condition |
| LeftJoinPushdown.RewriteSound | packages/actor-optimize-query-operation-leftjoin-expression-pushdown/lib/ActorOptimizeQueryOperationLeftjoinExpressionPushdown.ts:28-62 | the whole bottom-up rewriting keeps the solution multiset, whatever the partial solutions, if the moved conditions read nothing in scope on the left |
| LeftJoinPushdown.RewriteSettles | packages/actor-optimize-query-operation-leftjoin-expression-pushdown/lib/ActorOptimizeQueryOperationLeftjoinExpressionPushdown.ts:28-62 | afterwards no left join keeps a condition that could have been moved |
| LeftJoinPushdown.NamedConditionWrong | packages/actor-optimize-query-operation-leftjoin-expression-pushdown/lib/ActorOptimizeQueryOperationLeftjoinExpressionPushdown.ts:37-50 | a variable inside a named function is not seen: a condition that the right-hand solution does not decide moves all the same, and an optional row is lost |
| JoinConnected.HaveOverlappingVariables | packages/actor-optimize-query-operation-join-connected/lib/ActorOptimizeQueryOperationJoinConnected.ts:98-108 | two records overlap if they share a name, or if the first has a name that every object inherits |
| JoinConnected.ClusterIteration | packages/actor-optimize-query-operation-join-connected/lib/ActorOptimizeQueryOperationJoinConnected.ts:65-91 | one iteration puts each cluster into the first earlier one that it overlaps with |
| JoinConnected.Clusters | packages/actor-optimize-query-operation-join-connected/lib/ActorOptimizeQueryOperationJoinConnected.ts:38-53 | the do-while loop terminates with the settled clusters |
| JoinConnected.ClustersAreComponents | packages/actor-optimize-query-operation-join-connected/lib/ActorOptimizeQueryOperationJoinConnected.ts:38-91 | two inputs are in the same cluster exactly if a chain of links connects them |
| JoinConnected.ComponentsExactly | packages/actor-optimize-query-operation-join-connected/lib/ActorOptimizeQueryOperationJoinConnected.ts:38-108 | the clusters are the connected components of "shares a variable" exactly if every input with a variable named like an inherited property is connected to the first input anyway |
| JoinConnected.ClustersPartition | packages/actor-optimize-query-operation-join-connected/lib/ActorOptimizeQueryOperationJoinConnected.ts:38-91 | every input is in exactly one cluster, once; clusters are pairwise variable-disjoint and internally connected |
| JoinConnected.InheritedNameClusters | packages/actor-optimize-query-operation-join-connected/lib/ActorOptimizeQueryOperationJoinConnected.ts:98-108 | an input over a variable with one of the twelve names that every object answers to, and no other, is clustered with an input it shares nothing with |
| JoinConnectedEffects.JoinsComponents | packages/actor-optimize-query-operation-join-connected/lib/ActorOptimizeQueryOperationJoinConnected.ts:38-60 | the join becomes a join of one operand for each connected component of its inputs: the input itself, or a join of the inputs of the component |
| JoinConnectedEffects.JoinIsClustered | packages/actor-optimize-query-operation-join-connected/lib/ActorOptimizeQueryOperationJoinConnected.ts:20-31 | wherever the join stands in the tree |
| JoinConnectedProof.ClusterJoinSound | packages/actor-optimize-query-operation-join-connected/lib/ActorOptimizeQueryOperationJoinConnected.ts:38-60 | the nested join of the clusters has the solution multiset of the flat join |
| JoinConnectedProof.RewriteSound | packages/actor-optimize-query-operation-join-connected/lib/ActorOptimizeQueryOperationJoinConnected.ts:20-31 | so has the rewritten tree |
| PruneEmpty.CollectMultiOperationInputs | packages/actor-optimize-query-operation-prune-empty-source-operations/lib/ActorOptimizeQueryOperationPruneEmptySourceOperations.ts:143-153 | the inputs of a union that have a source are collected in order |
| PruneEmpty.MapMultiOperation | packages/actor-optimize-query-operation-prune-empty-source-operations/lib/ActorOptimizeQueryOperationPruneEmptySourceOperations.ts:155-180 | the inputs that were marked in the original go, the others stay in order |
| PruneEmpty.MarkedGo | packages/actor-optimize-query-operation-prune-empty-source-operations/lib/ActorOptimizeQueryOperationPruneEmptySourceOperations.ts:155-180 | exactly the marked inputs of a union go |
| PruneEmpty.PruneCleans | packages/actor-optimize-query-operation-prune-empty-source-operations/lib/ActorOptimizeQueryOperationPruneEmptySourceOperations.ts:79-104 | afterwards no projection is over something taken to be empty, and no left join has such a right operand |
| PruneEffects.CollectedExactly | packages/actor-optimize-query-operation-prune-empty-source-operations/lib/ActorOptimizeQueryOperationPruneEmptySourceOperations.ts:44-58 | sources are asked exactly about the patterns that stand under some union |
| PruneEffects.MarkedAreGone | packages/actor-optimize-query-operation-prune-empty-source-operations/lib/ActorOptimizeQueryOperationPruneEmptySourceOperations.ts:79-104 | if marked patterns stand under unions only, none is left anywhere in the tree |
| PruneEffects.EmptyPatternsGo | packages/actor-optimize-query-operation-prune-empty-source-operations/lib/ActorOptimizeQueryOperationPruneEmptySourceOperations.ts:38-108 | so after the whole pass, for the patterns their sources have no results for |
| PruneEffects.HasEmptyExactly | packages/actor-optimize-query-operation-prune-empty-source-operations/lib/ActorOptimizeQueryOperationPruneEmptySourceOperations.ts:110-141 | over joins, unions and projections of patterns, what is taken to be empty is exactly what has no solutions on any data |
| PruneEmpty.HasEmptySound | packages/actor-optimize-query-operation-prune-empty-source-operations/lib/ActorOptimizeQueryOperationPruneEmptySourceOperations.ts:110-141 | on the fragment, what is taken to be empty has no solutions |
| PruneEmpty.PruneSound | packages/actor-optimize-query-operation-prune-empty-source-operations/lib/ActorOptimizeQueryOperationPruneEmptySourceOperations.ts:79-104 | if the marked operations have no solutions, pruning keeps the solution multiset |
| PruneEmpty.RunSound | packages/actor-optimize-query-operation-prune-empty-source-operations/lib/ActorOptimizeQueryOperationPruneEmptySourceOperations.ts:38-108 | the same for the whole pass, from the answers of the sources on |
| PruneEmpty.MinusExactly | packages/actor-optimize-query-operation-prune-empty-source-operations/lib/ActorOptimizeQueryOperationPruneEmptySourceOperations.ts:110-141 | MINUS is taken to be empty when its right operand is: pruning the projection over it is right exactly if the left operand has no solutions |
| GroupSources.ClusterOperationsWithEqualSources | packages/actor-optimize-query-operation-group-sources/lib/ActorOptimizeQueryOperationGroupSources.ts:129-157 | the loop over the source map yields the sourceless inputs and then one cluster per source, in order of first occurrence |
| GroupSources.ClustersBySource | packages/actor-optimize-query-operation-group-sources/lib/ActorOptimizeQueryOperationGroupSources.ts:129-157 | no cluster is empty, each has one source, different clusters have different sources |
| GroupSourcesEffects.ClustersAre | packages/actor-optimize-query-operation-group-sources/lib/ActorOptimizeQueryOperationGroupSources.ts:129-157 | each cluster is all inputs of its source, in order, and every source has its cluster |
| GroupSourcesEffects.AskedOnce | packages/actor-optimize-query-operation-group-sources/lib/ActorOptimizeQueryOperationGroupSources.ts:58-124 | a source that takes its inputs of a join or union as one operation is asked for them once: as the whole, as one input of the result, or as the one input there was |
| GroupSourcesProof.ClustersMean | packages/actor-optimize-query-operation-group-sources/lib/ActorOptimizeQueryOperationGroupSources.ts:129-157 | every input is kept once: in any commutative monoid the clusters fold to what the inputs fold to |
| GroupSourcesProof.OneCluster | packages/actor-optimize-query-operation-group-sources/lib/ActorOptimizeQueryOperationGroupSources.ts:69-76 | a single cluster is the list of inputs itself, in order |
| GroupSourcesProof.GroupMean | packages/actor-optimize-query-operation-group-sources/lib/ActorOptimizeQueryOperationGroupSources.ts:45-124 | regrouping keeps the meaning of a tree under every interpretation of leaves, joins and unions |
| GroupSourcesProof.GroupingSound | packages/actor-optimize-query-operation-group-sources/lib/ActorOptimizeQueryOperationGroupSources.ts:45-188 | the regrouped tree has the same solution multiset and asks the same source for each leaf |
| GroupSourcesProof.Hoists | packages/actor-optimize-query-operation-group-sources/lib/ActorOptimizeQueryOperationGroupSources.ts:50-76 | an operation whose grouped inputs all belong to one source that accepts it is handed to that source as a whole, and its inputs lose their annotations |
| GroupSourcesProof.GroupingWorks | packages/actor-optimize-query-operation-group-sources/lib/ActorOptimizeQueryOperationGroupSources.ts:78-103 | regrouping throws only for a node of another kind with more than two inputs |
| PathSpec.ModesAgree | packages/actor-query-operation-path-one-or-more/lib/ActorQueryOperationPathOneOrMore.ts:46-160 | section 18.4 in closed form: whichever ends are fixed, a path has the pairs of one relation on the nodes, plus a constant that is no node where it can have length zero; the closure of the inverse is the inverse of the closure |
| Paths.GeneratedIsNew | packages/actor-abstract-path/lib/ActorAbstractPath.ts:53-64 | a generated variable is the value of neither end |
| Paths.JoinersDiffer | packages/actor-query-operation-path-seq/lib/ActorQueryOperationPathSeq.ts:30-42 | the variables generated for one sequence differ from each other and from both ends |
| Paths.SeqOperations | packages/actor-query-operation-path-seq/lib/ActorQueryOperationPathSeq.ts:30-55 | the walking joiner produces the chain of sub-paths from the subject over the generated variables to the object |
| Paths.AssignedSources | packages/actor-abstract-path/lib/ActorAbstractPath.ts:399-416 | after exhaustive assignment the sources found in a path are all sources |
| PathsClosures.NodesExactly | packages/actor-query-operation-nodes/lib/ActorQueryOperationNodes.ts:26-51 | the `nodes` operation yields the nodes of the graph exactly if its variable is not called `__p` or `__x` |
| PathsClosures.ReservedNames | packages/actor-query-operation-nodes/lib/ActorQueryOperationNodes.ts:34-49 | with such a name the variable is never bound |
| PathsClosures.NodesAre | packages/actor-abstract-path/lib/ActorAbstractPath.ts:86-105 | the nodes of all sources, bound to both ends, are the nodes of the merged graph |
| PathsProof.ExactLink | packages/actor-query-operation-path-link/lib/ActorQueryOperationPathLink.ts:15-30 | a predicate asked of every source is the predicate on the merged graph |
| PathsProof.ExactNps | packages/actor-query-operation-path-nps/lib/ActorQueryOperationPathNps.ts:17-40 | a negated property set, through its generated variable |
| PathsProof.ExactInv | packages/actor-query-operation-path-inv/lib/ActorQueryOperationPathInv.ts:15-23 | an inverse path, by swapping the ends |
| PathsProof.ExactAlt | packages/actor-query-operation-path-alt/lib/ActorQueryOperationPathAlt.ts:28-48 | alternatives, by union |
| PathsSequence.ExactSeq | packages/actor-query-operation-path-seq/lib/ActorQueryOperationPathSeq.ts:22-75 | sequences, by joining over generated variables and deleting them |
| PathsClosures.ExactOptional | packages/actor-query-operation-path-zero-or-one/lib/ActorQueryOperationPathZeroOrOne.ts:34-106 | optional paths, by adding the zero-length part |
| PathsClosures.FixedEnds | packages/actor-query-operation-path-zero-or-more/lib/ActorQueryOperationPathZeroOrMore.ts:93-156 | closures with a fixed end, from either side |
| PathsClosures.ZeroPairs | packages/actor-query-operation-path-zero-or-more/lib/ActorQueryOperationPathZeroOrMore.ts:46-92 | zero-or-more between two variables, from every node |
| PathsClosures.OnePairs | packages/actor-query-operation-path-one-or-more/lib/ActorQueryOperationPathOneOrMore.ts:69-125 | one-or-more between two variables, from the pairs of a single step |
| PathsTheorem.PathsAreRight | packages/actor-optimize-query-operation-assign-sources-exhaustive/lib/ActorOptimizeQueryOperationAssignSourcesExhaustive.ts:110-129 | any path, nested to any depth, with any mix of constant and variable ends, on leaves assigned to every source: the solutions are those of section 18.4 on the union of the sources |
| PathsTheorem.ClosureCrossesSources | packages/actor-optimize-query-operation-assign-sources-exhaustive/lib/ActorOptimizeQueryOperationAssignSourcesExhaustive.ts:110-119 | in particular a closure follows routes that alternate between sources |
| PathsTheorem.SameVariableExactly | packages/actor-query-operation-path-one-or-more/lib/ActorQueryOperationPathOneOrMore.ts:69-114 | any path with the same variable at both ends, nested to any depth, is answered rightly exactly if the loops the actors find are the loops of the path |
| PathsTheorem.LoopSolutions | packages/actor-query-operation-path-one-or-more/lib/ActorQueryOperationPathOneOrMore.ts:69-114 | what they find, for every path: at a one-or-more part, whatever the loops found for the repeated path lead to |
| PathsTheorem.ClosureLoops | packages/actor-query-operation-path-one-or-more/lib/ActorQueryOperationPathOneOrMore.ts:69-114 | for a plain `p+` the condition is that the nodes self-loops lead to are the nodes on cycles |
| PathsTheorem.SameVariableInvents | packages/actor-query-operation-path-one-or-more/lib/ActorQueryOperationPathOneOrMore.ts:69-114 | an answer is invented where the actors find a loop that the path does not have |
| PathsTheorem.SameVariableMisses | packages/actor-query-operation-path-one-or-more/lib/ActorQueryOperationPathOneOrMore.ts:69-114 | and one is missed at a loop that they do not find |
| PathsTheorem.TwoNodeCycle | packages/actor-query-operation-path-one-or-more/lib/ActorQueryOperationPathOneOrMore.ts:69-114 | as on two nodes linked to each other |
| PathsTheorem.LeadsOffCycle | packages/actor-query-operation-path-one-or-more/lib/ActorQueryOperationPathOneOrMore.ts:69-114 | while a node with a self-loop and a link to another one has that other one invented |
| PathsAlgebra.ActorsMeanAlgebra | packages/actor-optimize-query-operation-assign-sources-exhaustive/lib/ActorOptimizeQueryOperationAssignSourcesExhaustive.ts:110-129 | what the actors deliver is what the algebra of the rewriting theorems says of the same path |
| PathTraversals.IteratorDelivers | packages/actor-abstract-path/lib/ActorAbstractPath.ts:177-222 | the iterator hands out exactly what the closure of the sub-query reaches, as the evaluation of closures relies on |
| PathTraversals.SearchDelivers | packages/actor-abstract-path/lib/ActorAbstractPath.ts:291-393 | so does a closed search |
| PathIterator.StepInv | packages/actor-abstract-path/lib/PathVariableObjectIterator.ts:54-154 | every step of the iterator keeps its invariant, whatever the order of answers, reads and ends |
| PathIterator.NothingHeldBack | packages/actor-abstract-path/lib/PathVariableObjectIterator.ts:111-141 | while no operation is awaited, the last pending one can be opened as long as fewer than the maximum run, and whatever has been answered can be read |
| PathIterator.ClosesCompleteExactly | packages/actor-abstract-path/lib/PathVariableObjectIterator.ts:111-154 | whenever the reader closes the iterator, the emitted terms are the reachable ones without duplicates, exactly if no metadata request is still waiting or there was nothing more to emit; the sub-queries issued are those terms, plus one for one-or-more |
| PathIterator.PrematureClose | packages/actor-abstract-path/lib/PathVariableObjectIterator.ts:36-43 | a metadata request in flight does make the reader close too early |
| PathIterator.BoundedSubQueries | packages/actor-abstract-path/lib/PathVariableObjectIterator.ts:111-121 | never more than the maximum of sub-queries at once, one per emitted term at most |
| PathIterator.NeverStuck | packages/actor-abstract-path/lib/PathVariableObjectIterator.ts:79-154 | an open iterator can always do something |
| PathIterator.RunsTerminate | packages/actor-abstract-path/lib/PathVariableObjectIterator.ts:79-154 | on a finite graph every run ends, by closing |
| PathIteratorClass.PathVariableObjectIterator.Push | packages/actor-abstract-path/lib/PathVariableObjectIterator.ts:54-77 | the object does what the state machine says on a push |
| PathIteratorClass.PathVariableObjectIterator.GetMetadata | packages/actor-abstract-path/lib/PathVariableObjectIterator.ts:36-43 | the kick-start |
| PathIteratorClass.PathVariableObjectIterator.PopPending | packages/actor-abstract-path/lib/PathVariableObjectIterator.ts:79-82 | the synchronous head of opening a sub-query |
| PathIteratorClass.PathVariableObjectIterator.Register | packages/actor-abstract-path/lib/PathVariableObjectIterator.ts:83-104 | what happens when it has answered |
| PathIteratorClass.PathVariableObjectIterator.OpenNext | packages/actor-abstract-path/lib/PathVariableObjectIterator.ts:115-121 | one turn of the opening loop |
| PathIteratorClass.PathVariableObjectIterator.OnEnd | packages/actor-abstract-path/lib/PathVariableObjectIterator.ts:98-104 | the end of a sub-query |
| PathIteratorClass.PathVariableObjectIterator.ReadPass | packages/actor-abstract-path/lib/PathVariableObjectIterator.ts:127-140 | one pass over the running sub-queries reads at most one item of each |
| PathIteratorClass.PathVariableObjectIterator.ReadItems | packages/actor-abstract-path/lib/PathVariableObjectIterator.ts:123-141 | the reading loop terminates, only performs reads, delivers no more than asked and stops short only when nothing is ready |
| PathIteratorClass.PathVariableObjectIterator.CloseIfNeeded | packages/actor-abstract-path/lib/PathVariableObjectIterator.ts:150-154 | closing |
| StarSearch.StepInv | packages/actor-abstract-path/lib/ActorAbstractPath.ts:291-393 | every step of every interleaving of searches over one shared table keeps the invariant |
| StarSearch.SearchesAreExact | packages/actor-abstract-path/lib/ActorAbstractPath.ts:291-393 | the counter is the number of unfinished calls, the iterator is closed exactly once and exactly when there are none, and then the search has emitted the reachable terms, each once |
| StarSearch.ClosedForGood | packages/actor-abstract-path/lib/ActorAbstractPath.ts:336-340 | a closed search never changes again: nothing is pushed after closing |
| StarSearch.NeverStuck | packages/actor-abstract-path/lib/ActorAbstractPath.ts:321-389 | waiting never deadlocks: either some sub-query or resolved promise can go on, or only loops are left and in every unfinished search some loop can take its next turn, although loops await their nested calls |
| StarSearch.TurnAwaits | packages/actor-abstract-path/lib/ActorAbstractPath.ts:321-339 | after a turn a loop is held up exactly if the call it made waits for the promise of an earlier one, and until that call is over |
| StarSearch.StepProgress | packages/actor-abstract-path/lib/ActorAbstractPath.ts:291-393 | every step uses up some of what remains, so the searches terminate on a finite graph |
| StarSearch.RunsTerminate | packages/actor-abstract-path/lib/ActorAbstractPath.ts:291-393 | a run on a finite graph has at most a fixed number of steps for each search, and can stop only with all searches closed, although calls await nested calls and promises of other searches |
| StarSearchClass.Traversal.Visit | packages/actor-abstract-path/lib/ActorAbstractPath.ts:306-319 | a call up to its first await |
| StarSearchClass.Traversal.OnData | packages/actor-abstract-path/lib/ActorAbstractPath.ts:359-377 | the data handler of a sub-query |
| StarSearchClass.Traversal.OnEnd | packages/actor-abstract-path/lib/ActorAbstractPath.ts:380-385 | its end handler: the shared promise is resolved |
| StarSearchClass.Traversal.OnResolved | packages/actor-abstract-path/lib/ActorAbstractPath.ts:321-323 | the continuation of a waiting call |
| StarSearchClass.Traversal.LoopTurn | packages/actor-abstract-path/lib/ActorAbstractPath.ts:323-346 | the loop over known neighbours, whose next turn awaits the call of the turn before |
| GroupsState.StepInv | packages/actor-query-operation-group/lib/GroupsState.ts:59-155 | every step of every interleaving of consume, create, put and collect keeps the invariant |
| GroupsState.CollectsExactly | packages/actor-query-operation-group/lib/GroupsState.ts:110-155 | the collection begins at most once, with the resolver in place, after every consumed row has been put exactly once into each aggregator of its group; one group per key, and one row per group or a single row for no input and no group variables |
| GroupsRows.KeyExactly | packages/actor-query-operation-group/lib/GroupsState.ts:66-69 | the group of a row binds what the row binds of the variables grouped by |
| GroupsRows.RowsHandedOver | packages/actor-query-operation-group/lib/GroupsState.ts:116-155 | in every run that hands rows over there is one row for each group of the rows fed, which binds what the group binds and, for each aggregate, its result on exactly these rows; without any row fed and nothing to group by, a single row of the aggregates of nothing |
| GroupsState.NeverStuck | packages/actor-query-operation-group/lib/GroupsState.ts:59-155 | until the rows are handed over some step is possible |
| GroupsState.StepProgress | packages/actor-query-operation-group/lib/GroupsState.ts:59-155 | and there are only finitely many |
| GroupsStateClass.GroupsState.ConsumeBindings | packages/actor-query-operation-group/lib/GroupsState.ts:59-108 | consuming a row, or rejecting it after the results were asked for |
| GroupsStateClass.GroupsState.SubtractWaitCounterAndCollect | packages/actor-query-operation-group/lib/GroupsState.ts:110-114 | the counter |
| GroupsStateClass.GroupsState.OnAggregator | packages/actor-query-operation-group/lib/GroupsState.ts:90-95 | an aggregator created for a new group |
| GroupsStateClass.GroupsState.PutBindings | packages/actor-query-operation-group/lib/GroupsState.ts:80-86 | a row put into an aggregator |
| GroupsStateClass.GroupsState.OnPut | packages/actor-query-operation-group/lib/GroupsState.ts:86-102 | all puts of a row done |
| GroupsStateClass.GroupsState.OnInitialized | packages/actor-query-operation-group/lib/GroupsState.ts:71-74 | a finished initialiser becomes visible to those awaiting it |
| GroupsStateClass.GroupsState.CollectResults | packages/actor-query-operation-group/lib/GroupsState.ts:169-180 | asking for the results, once |
| GroupsStateClass.GroupsState.HandleResultCollection | packages/actor-query-operation-group/lib/GroupsState.ts:116-155 | the loop over groups and aggregators builds the rows |
| SortWindow.InsertDescending | packages/actor-query-operation-orderby/lib/SortIterator.ts:31-49 | binary insertion keeps the window in order |
| SortWindow.OutputExactly | packages/actor-query-operation-orderby/lib/SortIterator.ts:21-64 | the output is a permutation, sorted exactly if every item has fewer strictly greater predecessors than the window has places |
| SortWindow.LargeWindowSorts | packages/actor-query-operation-orderby/lib/SortIterator.ts:21-64 | a window that holds the input sorts it |
| SortWindow.NotStable | packages/actor-query-operation-orderby/lib/SortIterator.ts:41-44 | of four equal items the fourth leaves before the third |
| SortWindow.ThreeTies | packages/actor-query-operation-orderby/lib/SortIterator.ts:31-49 | and of three, after two of them and a smaller item, the third takes its place behind the second |
| SortStability.BenignStable | packages/actor-query-operation-orderby/lib/SortIterator.ts:21-64 | with an unlimited window equal items leave in the order they came if each has at most one earlier equal one, or two and nothing smaller before it |
| SortStability.StableExactly | packages/actor-query-operation-orderby/lib/SortIterator.ts:21-64 | a pass over given distinct items is stable in every arrangement of them exactly if no three of them compare as equal, except exactly three that are the smallest |
| SortStability.OrderByLexicographic | packages/actor-query-operation-orderby/lib/ActorQueryOperationOrderBy.ts:38-86 | ORDER BY with any number of keys sorts by all of them, lexicographically, if every key but the last has this property |
| SortStability.TwoKeysExactly | packages/actor-query-operation-orderby/lib/ActorQueryOperationOrderBy.ts:38-86 | with two keys the result is lexicographic for every second key exactly if the first has it |
| SortIterator.SortIterator.FindPosition | packages/actor-query-operation-orderby/lib/SortIterator.ts:32-46 | the search loop |
| SortIterator.SortIterator.Fill | packages/actor-query-operation-orderby/lib/SortIterator.ts:24-49 | reading until the window is full |
| SortIterator.SortIterator.Read | packages/actor-query-operation-orderby/lib/SortIterator.ts:21-55 | one read of the iterator |
| SortIterator.SortIterator.Flush | packages/actor-query-operation-orderby/lib/SortIterator.ts:57-63 | emptying the window at the end |
| SortIterator.Pass | packages/actor-query-operation-orderby/lib/SortIterator.ts:5-64 | a whole pass delivers the same output however the source hands out its items |
| SortIterator.OrderBy | packages/actor-query-operation-orderby/lib/ActorQueryOperationOrderBy.ts:44-80 | one pass per key, the last key first |
| SortIterator.OrderBySorts | packages/actor-query-operation-orderby/lib/ActorQueryOperationOrderBy.ts:38-86 | with the default window ORDER BY yields a permutation sorted by its first key, ascending or descending |
| SortIterator.WindowedOrderBy | packages/actor-query-operation-orderby/lib/ActorQueryOperationOrderBy.ts:38-86 | with one key and a window of given length, exactly if the length is not positive, or each row has fewer rows before it that should come later than the window has places |
| RetryBody.StepInv | packages/actor-http-retry-body/lib/ActorHttpRetryBody.ts:126-300 | every event keeps the invariant of the retry machine |
| RetryBody.OneBody | packages/actor-http-retry-body/lib/ActorHttpRetryBody.ts:100-306 | the delivered bytes are a prefix of one attempt's body, all of it after a normal end, and at most the limit of requests is made |
| RetryBody.NoRetryAfterDelivery | packages/actor-http-retry-body/lib/ActorHttpRetryBody.ts:140-186 | after a delivered byte there is no further attempt, and later bytes continue the same body |
| RetryBody.AllOrNothing | packages/actor-http-retry-body/lib/ActorHttpRetryBody.ts:188-201 | without a byte limit nothing is delivered before the whole body is there |
| RetryBodyRuns.EndDelivers | packages/actor-http-retry-body/lib/ActorHttpRetryBody.ts:164-201 | whenever a body ends while the output is open, buffered or streamed, the output ends with exactly this body |
| RetryBodyRuns.FailRetries | packages/actor-http-retry-body/lib/ActorHttpRetryBody.ts:203-251 | a failure of a buffered body leads to another attempt exactly if nobody aborted and attempts are left; otherwise, and for a streamed body, the output is destroyed |
| RetryBodyRuns.RetryReads | packages/actor-http-retry-body/lib/ActorHttpRetryBody.ts:257-292 | the request is made, and its answer is read from the beginning, or destroys the output if it is none |
| RetryBodyRuns.DataPasses | packages/actor-http-retry-body/lib/ActorHttpRetryBody.ts:140-186 | data is kept back until the byte limit is exceeded; from then on everything seen is passed on |
| RetryBodyRuns.EndedForGood | packages/actor-http-retry-body/lib/ActorHttpRetryBody.ts:188-201 | an output that has ended stays as it is |
| RetryBodyRuns.ClosedForGood | packages/actor-http-retry-body/lib/ActorHttpRetryBody.ts:203-301 | once the output is closed nothing is delivered, requested or retried any more |
| RetryBodyRuns.SomeBodyIsDelivered | packages/actor-http-retry-body/lib/ActorHttpRetryBody.ts:100-306 | a run with fewer failures than attempts in which nobody aborts, closes or refuses delivers the body of the attempt after the last failure as soon as it ends |
| RetryBodyRuns.NeverStuck | packages/actor-http-retry-body/lib/ActorHttpRetryBody.ts:100-306 | until the output is closed or ended, a body can go on or end, or a request can be made or answered |
| RetryBody.RetryingBody.OnData | packages/actor-http-retry-body/lib/ActorHttpRetryBody.ts:140-186 | the data handler, with the switch to streaming |
| RetryBody.RetryingBody.OnEnd | packages/actor-http-retry-body/lib/ActorHttpRetryBody.ts:188-201 | the end handler |
| RetryBody.RetryingBody.OnFail | packages/actor-http-retry-body/lib/ActorHttpRetryBody.ts:203-251 | the error and close handlers up to the first await |
| RetryBody.RetryingBody.OnRetry | packages/actor-http-retry-body/lib/ActorHttpRetryBody.ts:261-273 | the repeated request |
| RetryBody.RetryingBody.OnResponse | packages/actor-http-retry-body/lib/ActorHttpRetryBody.ts:275-292 | its answer |
| Logic.TruthTables | packages/actor-function-factory-expression-logical-and/lib/ExpressionFunctionLogicalAnd.ts:17-36 | AND and OR are the tables of section 17.2 (minimum and maximum with error in the middle), and <= is the OR of < and = |
| Logic.InMeansOr | packages/actor-function-factory-expression-in/lib/ExpressionFunctionIn.ts:20-57 | IN over a list of any length is the OR of its equality tests when its left side evaluates, and an error otherwise |
| Logic.InIsDisjunction | packages/actor-function-factory-expression-in/lib/ExpressionFunctionIn.ts:35-57 | the recursion with its collected results, from any point on |
| LangMatches.LangMatches | packages/actor-function-factory-term-langmatches/lib/TermFunctionLangmatches.ts:28-57 | the loop computes the greedy match |
| LangMatches.GreedyComplete | packages/actor-function-factory-term-langmatches/lib/TermFunctionLangmatches.ts:38-55 | the greedy match succeeds exactly if some order-preserving embedding of the non-wildcard subtags exists that skips no one-character subtag before its last place |
| LangMatches.SplitExactly | packages/actor-function-factory-term-langmatches/lib/TermFunctionLangmatches.ts:29-30 | the subtags are the pieces without hyphens that joined with hyphens are the tag; there is only one way to choose them |
| LangMatches.TextsExactly | packages/actor-function-factory-term-langmatches/lib/TermFunctionLangmatches.ts:63-66 | subtags are equal if they differ in the case of Latin letters only |
| LangMatches.MatchesExactly | packages/actor-function-factory-term-langmatches/lib/TermFunctionLangmatches.ts:28-67 | the whole function in these terms |
| LangMatches.FirstSubtagExactly | packages/actor-function-factory-term-langmatches/lib/TermFunctionLangmatches.ts:32-35 | the test of the first subtags is right exactly if the tag does not begin with `*` or the range does |
| LangMatches.AnyTag | packages/actor-function-factory-term-langmatches/lib/TermFunctionLangmatches.ts:59-67 | the range `*` matches every tag, the empty one included, which is not to match |
| LangMatches.AsIntendedExactly | packages/actor-function-factory-term-langmatches/lib/TermFunctionLangmatches.ts:28-67 | the function decides what it is for exactly if, for the range `*`, the tag is not empty and, for any other range, not only the first subtag `*` of the tag makes it match |
| Skolem.SourceIds.GetSourceId | packages/actor-optimize-query-operation-query-source-skolemize/lib/utils.ts:23-30 | an id is handed out once per source |
| Skolem.IdsDiffer | packages/actor-optimize-query-operation-query-source-skolemize/lib/utils.ts:23-30 | different sources have different ids, and ids are numbers |
| Skolem.RoundTrip | packages/actor-optimize-query-operation-query-source-skolemize/lib/utils.ts:141-183 | deskolemizing for the same source returns the term; for another one it fails exactly if the term contains a blank node |
| Skolem.SkolemizesBlanks | packages/actor-optimize-query-operation-query-source-skolemize/lib/utils.ts:40-51 | the names that a blank node gets; nothing but blank nodes is changed |
| Skolem.IriTakenBack | packages/actor-optimize-query-operation-query-source-skolemize/lib/utils.ts:141-166 | a skolem IRI that comes in as a plain IRI is taken back to its blank node by its own source, and refused by any other |
| Skolem.IriWithoutColon | packages/actor-optimize-query-operation-query-source-skolemize/lib/utils.ts:149-162 | without a colon after the source id the last character is cut off the id, and the whole IRI becomes the label |
| Skolem.HandedRoundTrip | packages/actor-optimize-query-operation-query-source-skolemize/lib/utils.ts:141-183 | the same for ids that were handed out |
| Skolem.TermsKeptApart | packages/actor-optimize-query-operation-query-source-skolemize/lib/utils.ts:40-78 | terms of two sources become equal exactly if they are equal and of the same source, or contain no blank node |
| Skolem.SkolemInjective | packages/actor-optimize-query-operation-query-source-skolemize/lib/utils.ts:40-45 | no two pairs of source and label share a skolem IRI |
| Skolem.ScopedLabelInjective | packages/actor-optimize-query-operation-query-source-skolemize/lib/utils.ts:40-45 | nor the label of a scoped blank node |
| AcceptHeader.MediaTypesToAcceptString | packages/actor-dereference-http/lib/ActorDereferenceHttpBase.ts:18-43 | the loops terminate; the header is all types, or the longest prefix that leaves room for the wildcard as counted |
| AcceptHeader.MakeRoom | packages/actor-dereference-http/lib/ActorDereferenceHttpBase.ts:31-35 | the inner loop drops types from the end, as few as the count allows |
| AcceptHeader.LengthExactly | packages/actor-dereference-http/lib/ActorDereferenceHttpBase.ts:18-43 | for at least one type, the header is within the limit exactly if everything fits or the limit is at least nine |
| AcceptHeader.JoinedAt | packages/actor-dereference-http/lib/ActorDereferenceHttpBase.ts:43 | the parts are separated by commas |
| AcceptHeader.KeptIsPrefix | packages/actor-dereference-http/lib/ActorDereferenceHttpBase.ts:18-43 | the types kept are the first ones, and the wildcard is there exactly if something was cut |

## Left out

- PathsTheorem.PathsAreRight: speaks of solutions as sets; the number of times a solution is delivered, which the actors reduce by an enclosing DISTINCT, is not modelled. Ends are variables or ground terms, so quoted triples with variables inside are not covered; neither is a variable called `__p` or `__x`, where the statement is false or the same variable at both ends of a path with one-or-more parts, for which `PathsTheorem.SameVariableExactly` says when it is true.
- Paths.Sol: takes the graph as a fixed term. With a variable graph the code takes another route, which always emits the start node, even for one-or-more paths.
- FilterPushdownProof.PushdownSound: an EXISTS filter is left where it is, so nothing is said about its meaning; non-deterministic functions are excluded because expressions are functions of a solution.
- FilterPushdownDepth.PushdownDeep: for filters that do not occur in the operation already, so that the pushed one can be told apart.
- FilterPushdownRun.SplitSound: conjunctions have two operands, as parsed queries have them.
- FilterPushdownSteady.SteadyOptimized: for filters whose variables come from the same join inputs; for others `FilterPushdownRun.OptimizedSound` asks for every round to be well-scoped, and `FilterPushdownGaps.OnePushSpoilsNext` shows that the first round does not settle this.
- JoinGroups.ClosedExactly, LeftJoinPushdown.MoveExactly, and the theorems of `FilterPushdownExact`: for all data with the given scopes; on particular data a rewriting can be right by chance.
- FilterPushdownRun.RoundsSound, LeftJoinPushdown.RewriteSound, JoinConnectedProof.RewriteSound, PruneEmpty.RunSound: for trees without EXISTS, whose operations the tree walks enter and the model does not; `FilterPushdownRun.SplitSound` and `FilterPushdownRun.MergeSound` speak of the tree outside EXISTS.
- PruneEmpty.CollectMultiOperationInputs, PruneEmpty.RunSound: alternatives inside paths are collected and pruned by the code but excluded here, like the operators that are not looked into; for MINUS see `PruneEmpty.MinusExactly`. Marks are values rather than object identities.
- GroupSourcesProof.GroupingSound: the factory's flattening is taken to leave annotated nodes alone; a source answers a subtree as the algebra does; the sequence branch, which would reorder a path, cannot be reached because path predicates are not entered.
- StarSearchClass.Traversal: the search behind a variable graph (`getObjectsPredicateStar`) is not modelled.
- PathIteratorClass.PathVariableObjectIterator.ReadItems: which items a sub-query has ready at a moment is a parameter.
- GroupsState.KeyOf: groups are identified by their key bindings, not by the string made of them; aggregators are functions of the rows put into them.
- TermEquality.LiteralsEqual: comparisons of numbers, booleans, dates, times and durations, and of texts in a locale, are parameters; datatypes that a caller declares to be strings are not modelled.
- PruneEffects.HasEmptyExactly: for trees of patterns, joins, unions and projections; a left join passes on the emptiness of its left operand (`PruneEffects.EmptinessPasses`).
- SortStability.BenignStable: a sufficient condition for one arrangement of the rows; the exact condition, `SortStability.StableExactly`, is about all of them, with rows that can be told apart.
- SortIterator.OrderBy: the comparison of a key is a parameter with the laws of a total preorder; evaluation of the key expressions, errors included, is part of it.
- RetryBody.Apply: the early return for a content length above the limit, the safety checks on the request method, and events after the end of a streamed body are not modelled.
- LangMatches.LangMatches, LangMatches.MatchLangTag: subtags are compared as ASCII strings without case; characters that a regular expression would interpret do not occur in language ranges.
- AcceptHeader.MediaTypesToAcceptString: starts from the sorted list of types with their formatted priorities; sorting by priority and locale is not modelled.
- Skolem.Deskolemize: for single terms; the rewriting of whole operations and streams maps it over their terms.
- Error propagation, destroy and abort in traversals and grouping: the theorems are about error-free runs.
- Streams, buffers and back-pressure, mediators and buses, HTTP itself, files, logging, serialization: input and output.
- The rate limiter's spacing arithmetic, which relates no two operations; date, duration, cast and regular-expression functions, which are defined by utilities of other packages.
- Hash- and string-key-based DISTINCT, REDUCED and wildcard COUNT: they depend on collision-free keys.
- FROM and FROM NAMED rewriting, distinct-terms pushdown, DESCRIBE rewriting; cardinality and ordering metadata.
