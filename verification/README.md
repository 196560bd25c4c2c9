# GeneralManager: verified models of its algorithms and protocols

A Dafny 4.11 project about the parts of GeneralManager that are algorithms or protocols rather than
Django and Graphene plumbing. `dafny verify dfyconfig.toml` checks all of it.

Each file models one piece of the program. What a definition of the model means is pinned by lemmas on plain
values: fields, positions, histories of messages, cache entries, and the strings that keys are made of. Code that updates objects is a class with methods, proved
against functions on values; the laws are lemmas about those functions. Protocols whose participants
interleave are state machines over single steps, and their laws hold for every sequence of steps.

| file | what it is about |
|---|---|
| `Sequences.dfy`, `Ordering.dfy`, `Dicts.dfy` | Python's lists, `sorted`, and string-keyed dictionaries |
| `InputOrder.dfy` | the depth-first sort of calculation inputs |
| `InputEnumeration.dfy`, `EnumerationLaws.dfy` | the backtracking enumerator of dependent inputs and what it enumerates |
| `EnumerationFailures.dfy` | which input orders make it raise |
| `CalculationBuckets.dfy` | materialization, its order, the cache, the lazy preview |
| `BucketMeaning.dfy`, `QueryMeaning.dfy` | what lookups, criteria, derivations and slices mean on the values |
| `PropertyCriteria.dfy` | which criteria on computed properties a bucket honours |
| `BucketAlgebra.dfy` | derived buckets and the fence around a bucket |
| `QueryPlan.dfy` | the two-stage list pipeline of calculation managers |
| `Pagination.dfy` | pages of a list query |
| `ReadAuthorization.dfy` | read permissions in lists over tables and in search, and the search prefilter |
| `CalculationContents.dfy` | the contents of a calculation bucket, definition by definition |
| `CalculationPermissions.dfy` | the merged permission alternatives of a list over a calculation manager |
| `CalculationAuthorization.dfy` | that list with its row gate and its deferred criteria, compared with search |
| `SearchWindow.dfy`, `SearchOrder.dfy`, `SearchScan.dfy` | the search window, the order of hits, and the paged scan |
| `FilterFlattening.dfy` | nested relation filters as flat lookups |
| `WarmupLock.dfy`, `WarmupRegistry.dfy`, `WarmupMeaning.dfy` | the warm-up registry: its lock, its indexes, and its cache entries |
| `Subscriptions.dfy`, `SubscriptionHistory.dfy` | the server side of the `graphql-transport-ws` protocol, and what it has done after any messages |
| `NotificationBatch.dfy`, `NotificationLaws.dfy` | batched data-change notifications |
| `SelectionWalk.dfy`, `SelectionMeaning.dfy` | the two walks over GraphQL selections with fragments |
| `SelectionCycles.dfy`, `PropertyRoutes.dfy` | exactly what the path walk and the property walk miss on cyclic spreads |
| `FrozenKeys.dfy`, `BucketIndex.dfy`, `IndexMeaning.dfy` | freezing of index keys, unique and multi indexes |

## How the program is modelled

- A domain of possible values is a function of the declared dependency values. It may be missing,
  malformed, a list, or a list of managers. A predicate stands for the filters on an input, another
  one for a bucket's own `filter` and `exclude`.
- A generator is what it yields together with the exception that ends it, if there is one. A manager
  is represented by the combination it is built from; its identification, its frozen identification
  and its properties are functions of that combination.
- A search backend has one finite stream of candidates per manager class and answers
  `search(offset, limit)` with a slice of it. Sort values are integers or null, scores are reals.
- Iteration orders that Python leaves open (sets) are arbitrary: a method that iterates a set picks
  any remaining element.
- A lookup of a permission or a criterion says the same of a manager in a bucket and in search; what it
  says is arbitrary.
- Time is not a number: the expiry of a lock is a step that may happen at any point, a wait budget is a
  number of further attempts with whatever the others do in between.
- `str` is an arbitrary function of a value as it is presented, iteration orders included, that returns
  strings as they are. Equal frozensets may show differently.

## What the proofs found

Where a property that the program might be expected to have is false, there is an input at which it
fails and the exact condition under which it holds.

- Whether an enumeration *raises* depends on the input order: an empty domain placed first hides a
  required input without a domain (`FailuresDependOnOrder`). Some order raises iff some inputs, closed
  under dependencies, have admissible values under which the next domain raises
  (`SomeOrderRaisesExactly`). What is enumerated never depends on the order.
- Keyword criteria on manager-typed computed properties are parsed and then never evaluated
  (`src/general_manager/bucket/calculation_bucket.py:1135-1182`, `ManagerPropertyIsIgnored`). Of the
  combinations that it enumerates a bucket shows only such that satisfy its property criteria, whatever
  the properties are, iff no criterion is about such a property, or the fence lets none through, or an
  evaluated criterion is both filtered for and excluded (`HonouredExactly`).
- `partition_calculation_query_plan` accepts the `_id` alias of manager-typed inputs only, the bucket
  parser also that of manager-typed properties. A list query refuses a plan that the bucket would accept
  iff all its lookups parse and one of them is such an alias (`PropertyAliasIsRefused`,
  `OnlyStagesRefuseExactly`).
- A list query whose plan has only input criteria hands out identifications instead of raw
  combinations (`StagedIsSinglePass`).
- `bucket | manager` does not add the manager: the result asks for the bucket's own definitions, without an
  `id__in` that differs (`OrManagerMeans`).
- `with_instances` replaces a fence. What is derived afterwards stays inside the old fence iff the new
  frozen keys are among the old ones (`WithInstancesNarrowsExactly`). Every other derivation stays inside.
- Descending search order reverses after a stable sort, so every trim turns tied hits around. One trim
  is exact iff its window holds no two hits with the same non-null key (`OneRoundExactly`). For the page
  to be exact however the hits come in batches, this is necessary, and it is sufficient that no hit of
  the window shares a non-null key with any other one (`AlwaysExactBetween`). The keys on the page are always right.
- Over a database table a list and a search accept the same rows, except under a conditional permission
  plan without alternatives and without instance check: the list then shows every row, and search still
  applies the row gate (`PathsAgree`).
- Over a calculation manager the list does not union the alternatives of a permission plan. `|` keeps
  only the constraints that all of them share, so without instance check two alternatives with one different
  lookup each show every row (`TwoAlternativesShowEverything`). Without instance check the list shows the
  union iff the shared constraints imply one of the alternatives, or there is nothing to show
  (`MergeIsUnionExactly`).
- A calculation bucket excludes a manager of which *any* excluded lookup holds, search one of which *all*
  hold. Over a calculation manager a list and a search therefore agree under a single alternative iff it
  excludes at most one lookup, or only what it filters for as well (`OneAlternativeAgreesExactly`); the
  condition for any plan is in `PathsAgreeExactly`.
- A list over a calculation manager applies the deferred criteria after the permissions, and `filter`
  replaces earlier definitions of a lookup: a criterion on a lookup of the permission plan takes the place
  of the permission (`DeferredReplacesPermission`). Without instance check all that is shown satisfies the
  merged permission definitions iff the criteria repeat the values of the lookups they share with them, or
  nothing can be shown (`DeferredKeepsPermissionsExactly`). With the instance check nothing is shown that
  did not pass it (`PipelineStaysGated`).
- A permission alternative that reuses a lookup of the user's filter with another value replaces the
  user's condition in the merged search filter (`OverriddenFilterIsLost`). The merged filter is exact iff
  every alternative agrees with the user's filter on the lookups that both use (`PrefilterExactly`).
- Two conditions that flatten to the same lookup with different values: only the later one is kept
  (`OverwrittenLeafIsLost`). The flat filter means the nested one iff there are none
  (`MeansNestedExactly`).
- The release used without Redis compares and deletes in two steps; when the lock expires in between,
  it removes another holder's lock (`NonAtomicReleaseCanRemoveAnothersLock`). With the atomic release
  this cannot happen (`LocksAreOnlyReleasedByOwners`).
- When a lock expires after its holder's read, the update committed in between is lost iff it should
  change the index (`ExpiryLosesAnUpdate`).
- The lock of a recipe and the lock of an index have the same cache key iff the recipe's own cache key is
  `index:` followed by the index key (`KeyTextsAreSeparate`).
- A cyclic fragment spread can hide a selected path (`CyclicSpreadsHidePaths`). The walk hides nothing
  iff no fragment in use spreads itself inside of a field (`WalkAgreesExactly`).
- The property walk misses a selected name iff every way to it enters some fragment both outside of the
  root field and again below it (`CollectedExactly`). With `F = { root { ...F } total }` it finds nothing
  although `total` is selected under the root (`RootCycleMissesName`). Other cycles are harmless.
- A dictionary whose keys are not all strings can freeze in two ways: equal `str` of two keys, and items
  whose `str` depends on iteration order (`TiedKeysFreezeApart`), as `{1: {0, 8}, "1": frozenset({5})}`
  does (`MixedKeysFreezeApart`). It freezes alike in every presentation
  iff no two of its pairs clash in that way (`DictFreezesAlikeExactly`).
- The index builders check `key_spec` before `max_rows`, although their documentation states the
  opposite order (`src/general_manager/bucket/indexing.py:316-319`). The model follows the code.
- A list query by page number alone uses pages of ten but reports one page in total
  (`ReportedPagesExactly`).

## Model

| member | source | states |
|---|---|---|
| InputOrder.OrderExcludesCycles | src/general_manager/bucket/calculation_bucket.py:888-941 | an order that respects all dependencies and a dependency cycle exclude each other |
| InputOrder.TopologicalSorter.BuildGraph | src/general_manager/bucket/calculation_bucket.py:903-909 | the successor sets hold exactly the declared dependency edges |
| InputOrder.TopologicalSorter.Visit | src/general_manager/bucket/calculation_bucket.py:914-934 | a visit finishes a node after all that depend on it, or names a node on a cycle; for any iteration order |
| InputOrder.TopologicalSorter.TopologicalSortInputs | src/general_manager/bucket/calculation_bucket.py:888-941 | the result is a permutation of the inputs with dependencies first; it raises iff there is a cycle, and names a node on one |
| InputEnumeration.NarrowValues | src/general_manager/bucket/calculation_bucket.py:1052-1070 | filtering candidates step by step keeps exactly the values that pass all filters and excludes, in order |
| InputEnumeration.InputEnumerator.Helper | src/general_manager/bucket/calculation_bucket.py:1023-1081 | in-place assignment and deletion yield what the recursive enumeration on values yields, and restore the combination; what that enumeration is, is in the rows below |
| InputEnumeration.InputEnumerator.EachValue | src/general_manager/bucket/calculation_bucket.py:1074-1078 | the loop over the candidates of one input |
| EnumerationLaws.Counts | src/general_manager/bucket/calculation_bucket.py:984-1081 | every completion is yielded once for each way of picking its values from the domains that the declared dependency values give |
| EnumerationLaws.SoundAndComplete | src/general_manager/bucket/calculation_bucket.py:984-1108 | exactly the assignments are yielded in which each input has an offered value of its type that passes its criteria, or has no domain, is optional, absent and accepts None; a provider offers what it answers to exactly the declared dependencies with their values; filters decide for lists, the bucket for managers |
| EnumerationLaws.DependentLoops | src/general_manager/bucket/calculation_bucket.py:970-1081 | an input with a list and an input whose list depends on the first one's value: the run is two nested loops, in the order of the lists |
| EnumerationLaws.RaisedFailure | src/general_manager/bucket/calculation_bucket.py:970-982 | what is raised where the possible values cannot be had: the first missing dependency of a provider, or the required input without a domain, or the malformed domain; nothing else raises |
| EnumerationLaws.FailuresDependOnOrder | src/general_manager/bucket/calculation_bucket.py:943-982 | a pair of inputs for which one order raises and the other does not; the exact condition is the next row |
| EnumerationFailures.SomeOrderRaisesExactly | src/general_manager/bucket/calculation_bucket.py:943-1108 | some dependency-respecting order raises iff there are a dependency-closed set of inputs, admissible values for them, and an input outside of it whose domain raises under these values |
| EnumerationFailures.RaisingPointRaises | src/general_manager/bucket/calculation_bucket.py:1005-1081 | the order that raises: those inputs as they stand in any given order, then that input, then the rest |
| EnumerationFailures.OrdersAgreeExactly | src/general_manager/bucket/calculation_bucket.py:888-1108 | all orders yield the same combinations equally often and raise nothing iff there is no such point |
| EnumerationFailures.OrderIndependent | src/general_manager/bucket/calculation_bucket.py:943-982 | a check on the declared fields under which any two orders yield the same combinations equally often and none raises: no malformed domain, a domain for every required input, providers that depend on inputs with a domain |
| EnumerationLaws.PushDown | src/general_manager/bucket/calculation_bucket.py:1005-1081 | pruning at every level yields what filtering the complete dependent product yields: same combinations, same order, same multiplicities; where the product raises, what it yielded before comes first |
| EnumerationLaws.PushDownFromScratch | src/general_manager/bucket/calculation_bucket.py:1083-1108 | the same for the whole generator |
| CalculationBuckets.FinishSelects | src/general_manager/bucket/calculation_bucket.py:820-886 | a bucket contains exactly the enumerated combinations inside the fence that pass the evaluated property criteria, equally often; sort and reverse only permute |
| CalculationBuckets.FinishOrders | src/general_manager/bucket/calculation_bucket.py:753-793 | if all sort keys are inputs and no criterion is about a property: at the first key where two entries differ, the earlier one has the input, and the later one a greater value there or none; else the same with the managers' attributes; entries that agree on all keys keep their order; all read backwards when reversed |
| CalculationBuckets.FinishReverses | src/general_manager/bucket/calculation_bucket.py:882-886 | a reversed bucket lists the straight one from its end |
| CalculationBuckets.CalculationBucket.KeepsManager | src/general_manager/bucket/calculation_bucket.py:1161-1182 | the inner loops keep a manager iff it passes all evaluated property filters and no exclude |
| CalculationBuckets.CalculationBucket.FilterPropCombinations | src/general_manager/bucket/calculation_bucket.py:1135-1182 | the loop keeps exactly the managers that pass, in order |
| CalculationBuckets.CalculationBucket.GenerateInputCombinations | src/general_manager/bucket/calculation_bucket.py:1083-1108 | sorts the inputs and enumerates them in that order |
| CalculationBuckets.CalculationBucket.GenerateCombinations | src/general_manager/bucket/calculation_bucket.py:793-886 | returns the cache, or enumeration, fence, property criteria, sort and reverse in this order, and fills the cache unless it raises |
| CalculationBuckets.CalculationBucket.StrCombinationsPreview | src/general_manager/bucket/calculation_bucket.py:423-493 | returns the preview; a bucket that is neither sorted nor reversed nor fed by one-shot iterators keeps its cache untouched |
| CalculationBuckets.StreamIsFinish | src/general_manager/bucket/calculation_bucket.py:1110-1133 | the lazily filtered generator emits what full materialization returns |
| CalculationBuckets.PreviewAgrees | src/general_manager/bucket/calculation_bucket.py:423-486 | in every configuration the preview is the first `limit` entries of the materialized bucket, reports overflow iff there are more, and its count is exact without overflow |
| CalculationBuckets.LazyPreviewRaisesExactly | src/general_manager/bucket/calculation_bucket.py:465-486 | the lazy preview raises iff the generator raises before it has emitted one entry more than the limit |
| BucketMeaning.RootMeans | src/general_manager/utils/filter_parser.py:126-127 | the root of a lookup is all in front of its first double underscore |
| BucketMeaning.FieldMeans | src/general_manager/utils/filter_parser.py:126-138 | a lookup is about the input or property that its root names, or whose name with `_id` behind it is the root, if it is manager-typed and the root names nothing |
| BucketMeaning.PassesMeans | src/general_manager/bucket/calculation_bucket.py:832-860 | a combination passes iff the fence has its frozen identification, all filters about plain properties hold of it, and no such exclude does |
| BucketMeaning.InputTakes | src/general_manager/bucket/calculation_bucket.py:1060-1078 | from a list, an input takes the values of its type of which all filters about it hold and no exclude does |
| BucketMeaning.InputTakesManagers | src/general_manager/bucket/calculation_bucket.py:1052-1058 | from managers, a manager-typed input takes what the bucket keeps under the definitions about it, another one what it keeps under none |
| BucketMeaning.IdentifiedMeans | src/general_manager/bucket/calculation_bucket.py:832-886 | the contents are identifications iff there is a fence, a criterion about a property, or a sort key that is no input |
| PropertyCriteria.ManagerPropertyIsIgnored | src/general_manager/bucket/calculation_bucket.py:1135-1182 | for every plan with a definition about a manager-typed property whose evaluated definitions do not contradict each other: properties under which every manager inside of the fence passes and violates that definition |
| PropertyCriteria.HonouredExactly | src/general_manager/bucket/calculation_bucket.py:699-730 | of the enumerated combinations only such that satisfy all property definitions pass, whatever the properties and the lookups say, iff no definition is about a manager-typed property, or all combinations are outside of the fence, or an evaluated definition is both filtered for and excluded |
| BucketAlgebra.LaterDefinitionsReplace | src/general_manager/bucket/calculation_bucket.py:560-626 | `filter` and `exclude` replace earlier definitions of the same lookup and keep the rest, including the fence |
| BucketAlgebra.MeetKeepsCommon | src/general_manager/bucket/calculation_bucket.py:326-397 | merging keeps exactly the definitions that both buckets have with the same value |
| BucketAlgebra.ContentsWithin | src/general_manager/bucket/calculation_bucket.py:831-845 | a fenced bucket contains only fenced identifications |
| BucketAlgebra.MeetWithin | src/general_manager/bucket/calculation_bucket.py:326-397 | merging keeps the fence of either operand |
| BucketAlgebra.SliceStaysFenced | src/general_manager/bucket/calculation_bucket.py:1226-1250 | slices with any bounds and any stride stay inside the fence |
| BucketAlgebra.SliceForward | src/general_manager/bucket/calculation_bucket.py:1226-1250 | bounds from the start, without a stride: the contiguous part, cut at the end |
| BucketAlgebra.SliceFromEnd | src/general_manager/bucket/calculation_bucket.py:1226-1250 | negative bounds count from the end |
| BucketAlgebra.SliceBackward | src/general_manager/bucket/calculation_bucket.py:1226-1250 | the stride -1 turns the contents around |
| BucketMeaning.SliceMeans | src/general_manager/bucket/calculation_bucket.py:1226-1250 | any slice: entry i is i strides behind its begin, and it ends in front of its end, with bounds as Python counts them |
| BucketMeaning.DeriveMeans | src/general_manager/bucket/calculation_bucket.py:240-261 | a derived plan is refused iff a lookup is about nothing, and else has the given definitions and sort and the old fence |
| BucketMeaning.SortMeans | src/general_manager/bucket/calculation_bucket.py:1288-1313 | sorting sets keys and direction and keeps the rest |
| BucketMeaning.InstancesMean | src/general_manager/bucket/calculation_bucket.py:1341-1366 | `with_instances` makes the given identifications both the fence and the contents |
| BucketMeaning.MeetMeans | src/general_manager/bucket/calculation_bucket.py:326-397 | a merge is unsorted and allows exactly the frozen keys that both operands allow |
| BucketMeaning.OrManagerMeans | src/general_manager/bucket/calculation_bucket.py:326-397 | merging a bucket with a manager asks for the bucket's own definitions, without an `id__in` that differs from the manager's |
| BucketAlgebra.StepStaysFenced | src/general_manager/bucket/calculation_bucket.py:240-261 | no single derivation leaves the fence |
| BucketAlgebra.FenceIsPermanent | src/general_manager/bucket/calculation_bucket.py:560-626 | no sequence of filter, exclude, sort, merge in either direction and slice produces an identification outside the fence |
| BucketAlgebra.InstancesStayFenced | src/general_manager/bucket/calculation_bucket.py:1341-1366 | the same for everything derived from `with_instances` |
| BucketAlgebra.WithInstancesNarrowsExactly | src/general_manager/bucket/calculation_bucket.py:1341-1366 | on a fenced bucket, everything derived afterwards stays inside the old fence iff the given frozen keys are among the old ones |
| BucketAlgebra.NoneStaysEmpty | src/general_manager/bucket/calculation_bucket.py:1320-1339 | everything derived from `none()` is empty |
| CalculationContents.MemberByDefinition | src/general_manager/bucket/calculation_bucket.py:820-886 | for definitions that are evaluated one by one: a combination is in the bucket iff it is in the bucket without definitions and satisfies every filter and no exclude |
| CalculationContents.ContentsAreMembers | src/general_manager/bucket/calculation_bucket.py:793-886 | the materialized bucket holds exactly these combinations, or their identifications, sorted or not |
| CalculationContents.ShowsOnlyExactly | src/general_manager/bucket/calculation_bucket.py:793-886 | whatever the lookups say, a bucket shows nothing but what one of some other buckets with its fence shows iff its definitions imply those of one of them, or it has no candidates |
| QueryPlan.PartitionMapping | src/general_manager/api/graphql_resolvers.py:228-254 | the dictionary loop splits a mapping by the side of each lookup, in order, or raises for the first lookup that has no side |
| QueryPlan.PartitionIsExact | src/general_manager/api/graphql_resolvers.py:208-269 | every lookup goes to exactly one side and nothing is added |
| QueryMeaning.SideMeans | src/general_manager/api/graphql_resolvers.py:228-254 | a lookup is on the input side iff its root is an input or the `_id` alias of a manager-typed input that names nothing else, and deferred iff its root is a property and no input |
| QueryMeaning.PartitionMeans | src/general_manager/api/graphql_resolvers.py:228-254 | a mapping is refused iff some root is neither, and else each item goes to its side |
| QueryMeaning.PlanIsParted | src/general_manager/api/graphql_resolvers.py:256-269 | filters, excludes and normalized excludes are parted one by one |
| QueryMeaning.PropertyAliasMeans | src/general_manager/api/graphql_resolvers.py:231-246 | what only the stages refuse, on the root of the lookup |
| QueryPlan.ApplyPlanResult | src/general_manager/api/graphql_resolvers.py:292-309 | a plan is applied iff all its lookups parse; what it then adds to a bucket |
| QueryPlan.StagedSaysTheSame | src/general_manager/api/graphql_resolvers.py:968-993 | the parts applied one after the other say about every input and about the properties what the whole plan says |
| QueryPlan.StagedIsSinglePass | src/general_manager/api/graphql_resolvers.py:968-997 | under an allow-all permission plan, for every query plan: input part, fence, deferred part refuse what the whole plan refuses, and every plan with an `_id` alias of a manager-typed property; for all others they give the same combinations in the same order, or the same exception |
| QueryPlan.OnlyStagesRefuseExactly | src/general_manager/api/graphql_resolvers.py:228-254 | the stages refuse a plan that the bucket accepts iff all its lookups parse and one is an `_id` alias of a manager-typed property |
| QueryPlan.PropertyAliasIsRefused | src/general_manager/api/graphql_resolvers.py:231-246 | such a plan with a single lookup |
| Pagination.PagesCoverEverything | src/general_manager/api/graphql_resolvers.py:638-671 | the reported pages, read one after the other, are all rows |
| Pagination.PageShows | src/general_manager/api/graphql_resolvers.py:638-671 | which rows a request shows: from (number - 1) times size on, at most size, with ten and one for missing values; everything without arguments; negative values are refused |
| Pagination.ReportedPagesExactly | src/general_manager/api/graphql_resolvers.py:1038-1046 | the reported page count is right iff a positive page size was given or the rows fill one default page |
| ReadAuthorization.MatchesFilters | src/general_manager/api/graphql_search.py:319-350 | all lookups hold, with the given answer for an empty filter |
| ReadAuthorization.PassesPermissionFilters | src/general_manager/api/graphql_search.py:353-403 | some alternative is satisfied and the gate passes where it is required |
| ReadAuthorization.NarrowRows | src/general_manager/api/graphql_resolvers.py:451-456 | filter and exclude of one alternative |
| ReadAuthorization.UnionOfAlternatives | src/general_manager/api/graphql_resolvers.py:449-460 | over a database table the loop unions to the rows that satisfy some alternative |
| ReadAuthorization.FilterByReadPermission | src/general_manager/api/graphql_resolvers.py:484-544 | the row gate and its counts |
| ReadAuthorization.ApplyReadAuthorization | src/general_manager/api/graphql_resolvers.py:389-481 | the list path over a database table keeps exactly the rows its plan accepts |
| ReadAuthorization.PathsAgree | src/general_manager/api/graphql_resolvers.py:389-544 | over a table: list and search accept the same rows iff the plan is not of one kind, or the gate passes every row |
| ReadAuthorization.MergePermissionFilters | src/general_manager/api/graphql_search.py:282-316 | one group per alternative, the alternative overriding the user's lookups |
| ReadAuthorization.MergedGroupMeaning | src/general_manager/api/graphql_search.py:282-316 | a group asks for the alternative and for what is left of the user's filter |
| ReadAuthorization.PrefilterNeverDrops | src/general_manager/api/graphql_search.py:1062-1069 | no row that matches the user's filter and is accepted is dropped by the backend filter |
| ReadAuthorization.OverriddenFilterIsLost | src/general_manager/api/graphql_search.py:282-316 | for every alternative that gives a lookup of the user's filter another value: an environment in which the backend offers a row that the user's filter rules out, and search accepts it |
| ReadAuthorization.PrefilterExactly | src/general_manager/api/graphql_search.py:282-316 | the backend filter selects exactly the rows that match the user's filter and some alternative, in every environment, iff every alternative agrees with the user's filter on the lookups that both use |
| CalculationPermissions.MergeAlternatives | src/general_manager/api/graphql_resolvers.py:449-460 | the loop over the alternatives on a calculation bucket, merging as the bucket's own union operator does |
| CalculationPermissions.MergedIsCommon | src/general_manager/bucket/calculation_bucket.py:326-397 | the result asks for exactly the definitions that the plans of all alternatives have in common, inside of the fence of the bucket it starts from |
| CalculationPermissions.MergeNeverDrops | src/general_manager/api/graphql_resolvers.py:449-460 | nothing that some alternative accepts is dropped |
| CalculationPermissions.MergeIsUnionExactly | src/general_manager/api/graphql_resolvers.py:449-460 | whatever the lookups say, the members of the merged bucket are those of the buckets narrowed by one alternative each, iff in the truth table over their definitions the common ones imply one alternative, or there is no candidate at all (before the instance check) |
| CalculationPermissions.OneSidedMergeIsUnionExactly | src/general_manager/api/graphql_resolvers.py:449-460 | when no definition is both filtered for and excluded, this implication holds iff one alternative asks only for what all of them ask for |
| CalculationPermissions.TwoAlternativesShowEverything | src/general_manager/api/graphql_resolvers.py:449-460 | two alternatives with one different definition each over an unfiltered bucket leave no definition (before the instance check) |
| CalculationAuthorization.ReadableInstances | src/general_manager/api/graphql_resolvers.py:527-532 | the loop of the row gate keeps the identifications of exactly the readable instances, in order |
| CalculationAuthorization.ApplyReadAuthorization | src/general_manager/api/graphql_resolvers.py:389-544 | plan decision, merged alternatives, materialization and row gate on a calculation bucket, cached or not |
| CalculationAuthorization.ListShowsExactly | src/general_manager/api/graphql_resolvers.py:389-544 | the authorized list shows exactly the managers that pass the merged alternatives and, where it runs, the row gate |
| CalculationAuthorization.PathsAgreeExactly | src/general_manager/api/graphql_resolvers.py:389-544 | whatever the lookups and the row gate say, list and search accept the same managers iff the plan is not conditional, or its merged alternatives accept what search accepts in every row of their truth table, or it has no alternatives and the row gate runs in both or in neither; or there are no managers |
| CalculationAuthorization.OneAlternativeAgreesExactly | src/general_manager/api/graphql_search.py:353-403 | with one alternative they accept the same iff it excludes at most one definition, or only what it filters for |
| CalculationAuthorization.DeferredReplacesPermission | src/general_manager/api/graphql_resolvers.py:968-997 | a permission on one lookup and a deferred filter on the same lookup leave the deferred filter alone, and no fence |
| CalculationAuthorization.DeferredKeepsPermissionsExactly | src/general_manager/api/graphql_resolvers.py:968-997 | without instance check, whatever the lookups say: all that is shown after the deferred criteria satisfies the merged permission definitions iff the criteria give none of their lookups another value, or the definitions contradict each other, or there are no candidates |
| CalculationAuthorization.DeferredStaysPermittedExactly | src/general_manager/api/graphql_resolvers.py:968-997 | it satisfies some permission alternative iff the definitions that are left imply one, or there are no candidates |
| CalculationAuthorization.DeferredStaysGated | src/general_manager/api/graphql_resolvers.py:968-997 | behind the row gate the deferred criteria only narrow: what is shown passed the gate |
| CalculationAuthorization.PipelineStaysGated | src/general_manager/api/graphql_resolvers.py:968-997 | when the row gate runs, the whole list shows nothing that did not pass it |
| CalculationAuthorization.AllowAllPipeline | src/general_manager/api/graphql_resolvers.py:968-997 | under an allow-all permission plan the whole list is the two-stage pipeline of `QueryPlan.dfy` |
| SearchWindow.HitList.SortSearchHitEntries | src/general_manager/api/graphql_search.py:174-199 | the in-place sort, with the reversal of the non-null prefix; its order is in the next row |
| SearchOrder.EntriesInOrder | src/general_manager/api/graphql_search.py:174-199 | better scores first, a missing one counting as zero, or smaller sort values first, greater ones in descending order, missing values last; equal ones keep their order, and are turned around in descending order |
| SearchOrder.PageIsPart | src/general_manager/api/graphql_search.py:192-213 | however the hits come in batches, the page is the requested part of an arrangement of all hits in that order |
| SearchOrder.NothingBetterBehind | src/general_manager/api/graphql_search.py:1041-1164 | no hit behind the page is better than one on it, and none in front of it is worse |
| SearchWindow.HitList.TrimSearchHitEntriesToWindow | src/general_manager/api/graphql_search.py:202-213 | the in-place cut to the window |
| SearchWindow.StableWindow | src/general_manager/api/graphql_search.py:202-213 | trimming after every batch leaves the first k of a stable sort of everything |
| SearchWindow.WindowIsExact | src/general_manager/api/graphql_search.py:1041-1164 | in score order and ascending order the page is the page of one sort over all hits, ties included |
| SearchWindow.DescendingWindowIsExact | src/general_manager/api/graphql_search.py:192-213 | in descending order the page is exact too if no two hits share a non-null key that is at least the window's last one; ties below the window do not matter |
| SearchWindow.AlwaysExactBetween | src/general_manager/api/graphql_search.py:192-213 | for the first page to be exact however the hits are cut into batches, this is sufficient, and it is necessary that no two hits of the window share a non-null key |
| SearchWindow.DescendingKeysAreExact | src/general_manager/api/graphql_search.py:192-197 | in descending order the keys on the page are always right |
| SearchWindow.OneRoundExactly | src/general_manager/api/graphql_search.py:192-213 | one trim in descending order is exact iff its window holds no two hits with the same non-null key |
| SearchWindow.TiedPairIsShownTurned | src/general_manager/api/graphql_search.py:192-213 | a tied pair shows the difference |
| SearchScan.SearchScanner.TakePage | src/general_manager/api/graphql_search.py:1105-1135 | the authorized hits of a page are appended and counted, then trimmed |
| SearchScan.SearchScanner.ReadPage | src/general_manager/api/graphql_search.py:1084-1135 | one backend request reads the next stretch of the stream |
| SearchScan.SearchScanner.ScanPass | src/general_manager/api/graphql_search.py:1077-1143 | a pass reads further, ends at the end of the stream, or ends at the scan limit |
| SearchScan.SearchScanner.ScanManager | src/general_manager/api/graphql_search.py:1072-1146 | the loop terminates, reads a gap-free prefix up to the limit, counts its authorized hits, and knows whether it saw everything |
| SearchScan.SearchScanner.ScanAll | src/general_manager/api/graphql_search.py:1052-1146 | the same over all manager classes |
| SearchScan.CappedTotals | src/general_manager/api/graphql_search.py:1041-1143 | a capped scan never counts more than there is, and everything when every stream ends before the cap |
| SearchScan.AuthorizedAre | src/general_manager/api/graphql_search.py:1105-1129 | the authorized hits are those whose manager can be built and passes the permission plan, in stream order |
| SearchScan.ScannedIsFront | src/general_manager/api/graphql_search.py:1058-1146 | of each manager's stream the front is read, up to the cap, and nothing under a deny-all plan |
| SearchScan.AllScannedAre | src/general_manager/api/graphql_search.py:1052-1146 | the managers are read one after the other |
| SearchScan.PagesTile | src/general_manager/api/graphql_search.py:1022-1023 | the pages of a list, one after the other, are its front |
| SearchScan.ScanLimitSuffices | src/general_manager/api/graphql_search.py:1041-1048 | a bounded scan may read what is configured, and at least all that the page needs |
| SearchScan.Search | src/general_manager/api/graphql_search.py:1041-1170 | prefixes read, total, exactness flag, and a page on which no hit is worse than an authorized scanned hit behind it, for an offset, a limit and a cap |
| SearchScan.Resolve | src/general_manager/api/graphql_search.py:1022-1170 | which requests are refused, with one and ten for missing page arguments, and that all others are answered so |
| FilterFlattening.NormalizeFilterInput | src/general_manager/api/graphql_search.py:850-928 | the recursive loops fill the plan that the specification describes; what that plan contains is in the rows below |
| FilterFlattening.LeavesAreAsked | src/general_manager/api/graphql_search.py:874-928 | the leaves are the conditions that the nested filter contains: under direct relations, and under the mappings that a collection has under `any` and, on the other side, `none`, wherever these keys stand; other keys of a collection add nothing |
| FilterFlattening.FlatPlanHoldsTheLeaves | src/general_manager/api/graphql_search.py:850-928 | filter and exclude carry, per lookup, the last leaf written there; a leaf is excluded iff an odd number of `none` lie above it |
| FilterFlattening.NoLeafIsLost | src/general_manager/api/graphql_search.py:874-928 | every condition has its lookup in the filter, or in the exclude under an odd number of `none`, with its value unless conditions of that side dispute it |
| FilterFlattening.NothingIsAdded | src/general_manager/api/graphql_search.py:874-928 | every item of the filter and of the exclude is a condition of the nested filter, on its side |
| FilterFlattening.LaterItemsWin | src/general_manager/api/graphql_search.py:874-928 | where conditions dispute a lookup, the later items decide |
| FilterFlattening.FlatFilterMeansNested | src/general_manager/api/graphql_search.py:895-902 | for direct relations whose leaves do not contradict each other the flat filter holds iff the nested one does |
| FilterFlattening.OverwrittenLeafIsLost | src/general_manager/api/graphql_search.py:895-902 | for every leaf that a later one overwrites with another value: a world in which the flat filter holds and the nested one does not |
| FilterFlattening.MeansNestedExactly | src/general_manager/api/graphql_search.py:895-902 | for direct relations the flat filter means the nested one in every world iff leaves with the same lookup have the same value |
| WarmupLock.NoLostUpdate | src/general_manager/api/graphql_warmup_registry.py:332-434 | without expiry inside, at most one process is inside and the index is the replay of the committed updates in acquisition order |
| WarmupLock.RunFromScratch | src/general_manager/api/graphql_warmup_registry.py:332-378 | the same for every run from an empty lock |
| WarmupLock.ReplayMembership | src/general_manager/api/graphql_warmup_registry.py:332-359 | a member is in the index iff the last committed update about it added it, or it was there and there was none |
| WarmupLock.WriteTakesEffect | src/general_manager/api/graphql_warmup_registry.py:332-359 | without expiry inside, every write adds or removes its member in the index as it is then, touches no other, and is committed |
| WarmupLock.WaitsAndLeaves | src/general_manager/api/graphql_warmup_registry.py:362-396 | a waiting process gets in only when the lock is free and gives up only when it is not; one inside comes out by a release only |
| WarmupLock.UpdateRuns | src/general_manager/api/graphql_warmup_registry.py:332-378 | a process that finds the lock free can carry its update through, and leaves the lock free |
| WarmupLock.OverlapNeedsExpiry | src/general_manager/api/graphql_warmup_registry.py:381-434 | with compare-and-delete releases and any expiries, two processes are inside only if the earlier one's lock expired |
| WarmupLock.LocksAreOnlyReleasedByOwners | src/general_manager/api/graphql_warmup_registry.py:415-434 | with such releases a lock disappears only by expiring or by the release of the process that acquired it |
| WarmupLock.ForeignDeleteNeedsExpiry | src/general_manager/api/graphql_warmup_registry.py:399-412 | the first foreign delete is made by a process whose own lock has expired |
| WarmupLock.ExpiryLosesAnUpdate | src/general_manager/api/graphql_warmup_registry.py:332-378 | when the holder's lock expires after its read and another process commits, the index differs from the replay of the committed updates iff that update should change it |
| WarmupLock.NonAtomicReleaseCanRemoveAnothersLock | src/general_manager/api/graphql_warmup_registry.py:407-412 | when a lock expires between the comparison and the delete of the two-step release, the delete removes the next holder's lock |
| WarmupRegistry.KeyTextsAreSeparate | src/general_manager/api/graphql_warmup_registry.py:18-25 | two cache keys of the registry have the same text iff they are the same, or a recipe lock's cache key spells the lock of an index |
| WarmupRegistry.Cache.AcquireCacheLock | src/general_manager/api/graphql_warmup_registry.py:381-396 | the retry loop, with whatever other processes and expiry do to the cache while it sleeps |
| WarmupRegistry.AcquiredExactly | src/general_manager/api/graphql_warmup_registry.py:381-396 | the lock is acquired iff it is free at one of the attempts, at the first such; otherwise the cache is what the others made of it |
| WarmupRegistry.Cache.DeleteLockIfOwned | src/general_manager/api/graphql_warmup_registry.py:399-412 | only the caller's own lock is deleted |
| WarmupRegistry.Cache.UpdateIndexMember | src/general_manager/api/graphql_warmup_registry.py:332-396 | with whatever the others do between its attempts: once the lock is acquired exactly the index changes, and the lock is released; without the lock nothing is written |
| WarmupRegistry.Cache.Register | src/general_manager/api/graphql_warmup_registry.py:100-133 | stores the recipe and updates both indexes; what is left when a lock stays taken |
| WarmupRegistry.Cache.Delete | src/general_manager/api/graphql_warmup_registry.py:235-258 | drops the recipe and both index members; what is left when a lock stays taken |
| WarmupRegistry.RegistryRefinesMap | src/general_manager/api/graphql_warmup_registry.py:100-258 | over every sequential run the stored recipes, the recipe index and the timeout index stand for one map |
| WarmupMeaning.IndexUpdateMeans | src/general_manager/api/graphql_warmup_registry.py:332-359 | an index update adds or removes one member of the stored index and changes no other entry |
| WarmupMeaning.RegisteredMeans | src/general_manager/api/graphql_warmup_registry.py:120-133 | the entries after a registration: the recipe, its key in the recipe index, and in the timeout index iff it is a timeout recipe with a refresh time; all else unchanged |
| WarmupMeaning.DeletedMeans | src/general_manager/api/graphql_warmup_registry.py:252-258 | the entries after a deletion: no recipe, its key in neither index, all else unchanged |
| WarmupRegistry.Cache.DueKeys | src/general_manager/api/graphql_warmup_registry.py:190-232 | for any cache contents and iteration order: exactly the unbacked members are pruned and exactly the due keys returned, by refresh time and key, cut to the limit |
| WarmupRegistry.DueListIsUnique | src/general_manager/api/graphql_warmup_registry.py:213-232 | the due list does not depend on the iteration order |
| WarmupMeaning.DueListMeans | src/general_manager/api/graphql_warmup_registry.py:213-232 | due are the members of the timeout index whose stored recipe has the current version, the timeout scope and a refresh time that has come; earlier times first, then smaller keys as Python compares strings |
| WarmupMeaning.UnbackedMeans | src/general_manager/api/graphql_warmup_registry.py:217-227 | pruned are the members without such a recipe |
| WarmupMeaning.CutMeans | src/general_manager/api/graphql_warmup_registry.py:230-232 | a limit cuts the list behind so many keys, a negative one leaves nothing |
| Subscriptions.TaskMoveKeepsShape | src/general_manager/api/graphql_subscription_consumer.py:442-508 | along every step of a stream the trace keeps its shape |
| Subscriptions.InvThroughout | src/general_manager/api/graphql_subscription_consumer.py:227-523 | registration, numbering and trace shapes hold in every run |
| SubscriptionHistory.MessagesDecide | src/general_manager/api/graphql_subscription_consumer.py:155-283 | in every run: acknowledged iff a `connection_init` was received; closed with exactly the protocol's codes, message by message; a request for each well-formed `subscribe` behind a `connection_init`, and for no other |
| SubscriptionHistory.NothingBeforeInit | src/general_manager/api/graphql_subscription_consumer.py:280-282 | before a `connection_init` nothing is registered, running or sent for any request |
| SubscriptionHistory.CompleteStops | src/general_manager/api/graphql_subscription_consumer.py:426-440 | a `complete` for a registered id deregisters this id only and cancels its task; any other changes nothing |
| SubscriptionHistory.DisconnectCancelsRegistered | src/general_manager/api/graphql_subscription_consumer.py:148-150 | the start of a disconnect cancels exactly the registered tasks |
| SubscriptionHistory.DisconnectOutcome | src/general_manager/api/graphql_subscription_consumer.py:150-153 | a disconnect ends cleanly only if every awaited task ended without an exception, and else only if one ended with one |
| SubscriptionHistory.CancelledOnDemand | src/general_manager/api/graphql_subscription_consumer.py:510-523 | a stream is cancelled only by a `complete` or an iterator for its id or by a disconnect, and only a cancelled one is interrupted |
| SubscriptionHistory.UnstartedStaysSilent | src/general_manager/api/graphql_subscription_consumer.py:442-508 | a stream cancelled before its first step never takes one and sends nothing |
| SubscriptionHistory.AnswersComplete | src/general_manager/api/graphql_subscription_consumer.py:345-412 | a rejected request is answered by an error and its `complete`, a single result by a `next` and its `complete`, without a stream |
| SubscriptionHistory.IteratorIsServed | src/general_manager/api/graphql_subscription_consumer.py:414-424 | an iterator with a free id gets a stream; with a taken id the stream that has it is cancelled and awaited first |
| SubscriptionHistory.ReplacementIsRegistered | src/general_manager/api/graphql_subscription_consumer.py:414-424 | the replacement is registered under the same id once the old stream has ended, unless that one failed |
| SubscriptionHistory.TraceIsHistory | src/general_manager/api/graphql_subscription_consumer.py:473-506 | a stream's trace is one `next` per yielded value, an error where it failed recoverably, and its `complete`, in the order of its own steps |
| SubscriptionHistory.LeavingDeregisters | src/general_manager/api/graphql_subscription_consumer.py:507-508 | the last step of a stream deregisters it |
| Subscriptions.TracesAreWellShaped | src/general_manager/api/graphql_subscription_consumer.py:227-508 | every request's envelopes read `next* error?` or `next* error? complete`; an ended stream's read the latter |
| Subscriptions.FinishedCompletesOnce | src/general_manager/api/graphql_subscription_consumer.py:500-508 | exactly one `complete`, at the end |
| Subscriptions.OneLiveStreamPerId | src/general_manager/api/graphql_subscription_consumer.py:414-424 | at most one live stream per id |
| Subscriptions.ReplacementsSurvive | src/general_manager/api/graphql_subscription_consumer.py:507-523 | a finishing stream never deregisters another stream |
| Subscriptions.CancelledStreamsEnd | src/general_manager/api/graphql_subscription_consumer.py:442-523 | wherever a stream is cancelled, its own remaining steps end it, with its final `complete` if it had started |
| Subscriptions.StreamsAreBounded | src/general_manager/api/graphql_subscription_consumer.py:442-523 | in every continuation a stream takes at most five further steps besides its `next` envelopes, fewer the further it is, and as long as it is live such a step is possible |
| Subscriptions.DisconnectLeavesNothing | src/general_manager/api/graphql_subscription_consumer.py:137-153 | after `disconnect` nothing is registered, no stream is live, started streams have completed |
| Subscriptions.Consumer.constructor | src/general_manager/api/graphql_subscription_consumer.py:115-135 | the initial connection state |
| Subscriptions.Consumer.ReceiveJson | src/general_manager/api/graphql_subscription_consumer.py:155-207 | messages before any await: acknowledgement, close codes, stop requests |
| Subscriptions.Consumer.StopSubscription | src/general_manager/api/graphql_subscription_consumer.py:510-523 | pops the id, then cancels its task |
| Subscriptions.Consumer.FinishSetup | src/general_manager/api/graphql_subscription_consumer.py:349-424 | errors and single results answer, an iterator first replaces the stream with its id |
| Subscriptions.Consumer.FinishWithComplete | src/general_manager/api/graphql_subscription_consumer.py:345-412 | after the answer of a request without a stream its `complete` is sent, and the handler is done |
| Subscriptions.Consumer.AfterStop | src/general_manager/api/graphql_subscription_consumer.py:414-424 | an exception of the old task prevents the registration of the new one |
| Subscriptions.Consumer.BeginDisconnect | src/general_manager/api/graphql_subscription_consumer.py:148-150 | cancels every registered task |
| Subscriptions.Consumer.AwaitNextTask | src/general_manager/api/graphql_subscription_consumer.py:150-153 | awaits them in turn, then clears the registry |
| Subscriptions.Consumer.StreamStep | src/general_manager/api/graphql_subscription_consumer.py:473-508 | one stretch of a stream task |
| NotificationBatch.BatchState.Queue | src/general_manager/api/notification_batching.py:45-67 | the answer and the batch after a call |
| NotificationBatch.BatchState.Close | src/general_manager/api/notification_batching.py:70-72 | stops accepting |
| NotificationBatch.BatchState.Flush | src/general_manager/api/notification_batching.py:75-92 | attempts the targets in key order, up to the first fatal send |
| NotificationBatch.AttemptedIsPrefix | src/general_manager/api/notification_batching.py:75-87 | ordinary failures do not stop a flush; only a fatal send does, and it is the last attempt |
| NotificationBatch.NothingLostNothingTwice | src/general_manager/api/notification_batching.py:45-92 | in every interleaving a completed flush attempted every key answered True once, with its first message, and nothing else |
| NotificationLaws.FlushAscends | src/general_manager/api/notification_batching.py:75-77 | in every interleaving a flush attempts its targets in ascending order, as Python compares tuples of strings |
| NotificationLaws.BatchRuns | src/general_manager/api/notification_batching.py:45-92 | every batch can be filled, closed and flushed to its end |
| NotificationLaws.AnswerMeans | src/general_manager/api/notification_batching.py:54-67 | a call is answered True iff the caller has the batch and it is not closed; the batch then holds the key |
| NotificationBatch.ClosedForGood | src/general_manager/api/notification_batching.py:57-72 | after the close every call is answered False and leaves the batch unchanged |
| NotificationBatch.FlushOrderIsFixed | src/general_manager/api/notification_batching.py:75-77 | the order of the flush depends on the accepted keys only |
| NotificationBatch.InnerScopesAreTransparent | src/general_manager/api/notification_batching.py:95-101 | inside a batch scopes flush nothing, and every call is answered True |
| NotificationBatch.OutermostScopeFlushesOnce | src/general_manager/api/notification_batching.py:95-121 | the outermost scope flushes once, on success and on failure, and a failed flush joins the body's failure |
| NotificationLaws.ScopeEffect | src/general_manager/api/notification_batching.py:95-121 | answers, attempts and error of an outermost scope: one ascending flush of the first item per key, and the body's failure, the flush's, or both |
| NotificationLaws.OutsideIsNotBatched | src/general_manager/api/notification_batching.py:54-56 | outside of every scope a call is answered False and nothing is sent |
| NotificationLaws.StatementsAddUp | src/general_manager/api/notification_batching.py:95-121 | statements run one after the other, up to the first exception |
| NotificationBatch.Context.RunScope | src/general_manager/api/notification_batching.py:95-121 | sets, closes, resets and flushes as the specification says |
| SelectionWalk.FoundPathsExist | src/general_manager/api/graphql_resolvers.py:1077-1120 | on every document, cyclic ones included, the walk ends and finds only paths that are there |
| SelectionWalk.ExpansionIsComplete | src/general_manager/api/graphql_resolvers.py:1105-1119 | with acyclic spreads the inlined document is complete |
| SelectionWalk.PathWalkIsInlined | src/general_manager/api/graphql_resolvers.py:1055-1120 | with acyclic spreads the walk answers as on the inlined document |
| SelectionMeaning.PathInSomeNode | src/general_manager/api/graphql_resolvers.py:1055-1075 | a path is selected iff it is in some field node that has a selection set |
| SelectionWalk.CyclicSpreadsHidePaths | src/general_manager/api/graphql_resolvers.py:1105-1119 | a document with a cyclic spread in which the walk misses a selected path; the exact condition is the next row |
| SelectionCycles.WalkAgreesExactly | src/general_manager/api/graphql_resolvers.py:1055-1120 | for every document, the walk finds exactly the paths selected at some depth of expansion iff no fragment in use reaches itself through a field |
| SelectionCycles.FoundPathsAreShort | src/general_manager/api/graphql_resolvers.py:1077-1120 | the walk finds no path longer than the document's fields and fragments allow |
| SelectionCycles.HarmlessPathsAreFound | src/general_manager/api/graphql_resolvers.py:1077-1120 | a selected path is found if no fragment behind its fields reaches itself through a field |
| SelectionWalk.PropertyCollector.CollectDirectFields | src/general_manager/api/graphql_prefetch.py:96-118 | adds the available names directly in a selection |
| SelectionWalk.PropertyCollector.InspectForRoot | src/general_manager/api/graphql_prefetch.py:120-143 | adds those under every outermost root field |
| SelectionWalk.CollectSelectedPropertyNames | src/general_manager/api/graphql_prefetch.py:66-147 | collects over all field nodes, nothing when no property is available |
| SelectionWalk.CollectedNamesExist | src/general_manager/api/graphql_prefetch.py:96-143 | on every document only names that are selected under the root are collected |
| SelectionWalk.PropertyWalkIsInlined | src/general_manager/api/graphql_prefetch.py:66-147 | with acyclic spreads exactly the names selected in the inlined document are collected |
| SelectionMeaning.CollectedMeans | src/general_manager/api/graphql_prefetch.py:66-147 | with acyclic spreads, collected are the available properties whose normalized field names the document selects directly in an outermost root field |
| PropertyRoutes.SelectedByRoutes | src/general_manager/api/graphql_prefetch.py:66-147 | on every document: a name is selected under the root at some depth of expansion iff a sequence of fragments leads to it |
| PropertyRoutes.CollectedExactly | src/general_manager/api/graphql_prefetch.py:66-147 | on every document: the walk collects a name iff some such sequence enters no fragment both outside of the root field and below it |
| PropertyRoutes.NothingMissedWithoutRootCycles | src/general_manager/api/graphql_prefetch.py:66-147 | if no fragment in use reaches itself through a root field, exactly the selected names are collected |
| PropertyRoutes.RootCycleMissesName | src/general_manager/api/graphql_prefetch.py:96-143 | a fragment that reaches itself through the root field, with a selected name that is not collected |
| FrozenKeys.SortedEntriesAgree | src/general_manager/bucket/indexing.py:20-22 | frozen string-keyed dictionaries are equal iff they hold the same frozen items |
| IndexMeaning.FreezeMeans | src/general_manager/bucket/indexing.py:149-222 | what a value is frozen to, level by level, and when it cannot be; the pairs of dictionaries and identifications in ascending order of their texts |
| FrozenKeys.FreezeIgnoresOrder | src/general_manager/bucket/indexing.py:149-222 | freezing ignores the order of sets and string-keyed dictionaries at every depth |
| FrozenKeys.DictFreezesAlikeExactly | src/general_manager/bucket/indexing.py:149-222 | a dictionary with any keys freezes alike in every insertion order and presentation iff no two of its pairs can be sorted either way by the `str` of their keys and items |
| FrozenKeys.TiedKeysFreezeApart | src/general_manager/bucket/indexing.py:20-22 | two keys with equal `str`, and an item shown below and above the other one: two orders of one dictionary that freeze apart |
| FrozenKeys.MixedKeysFreezeApart | src/general_manager/bucket/indexing.py:20-22 | the dictionary `{1: {0, 8}, "1": frozenset({5})}`, with what `str` shows of its parts, freezes in two ways |
| BucketIndex.BuildMulti | src/general_manager/bucket/indexing.py:329-367 | looking up any key gives exactly its rows in source order; else the first offending row decides the error, the guardrail first |
| IndexMeaning.KeyMeans | src/general_manager/bucket/indexing.py:253-270 | which key specifications are supported; a row's key is the frozen value of the one field or the tuple of those of all fields, and the first field that is missing or cannot be hashed decides the error |
| IndexMeaning.IndexHolds | src/general_manager/bucket/indexing.py:329-367 | what an index holds under a key: all rows that have it, in source order, and no key without a row |
| IndexMeaning.OffenceMeans | src/general_manager/bucket/indexing.py:273-326 | when a row offends: behind the guardrail, without a key, or in a unique index with the key of an earlier row |
| BucketIndex.BuildUnique | src/general_manager/bucket/indexing.py:285-326 | the same for unique indexes, with duplicates as offences |
| BucketIndex.UniqueSucceedsExactly | src/general_manager/bucket/indexing.py:273-326 | a unique index succeeds iff the guardrail covers all rows, every key resolves and keys are pairwise distinct |

## Left out

- NoLostUpdate: stated for runs in which no lock expires while its holder is inside; with such an expiry updates can be lost (`ExpiryLosesAnUpdate`).
- DescendingWindowIsExact: over several trims sufficient, not necessary, because an even number of reversals restores a tied group. Over all ways to cut the hits into batches only ties across the window's edge stay open (`AlwaysExactBetween`).
- StagedIsSinglePass: without the permission step that runs between the fence and the deferred part; `CalculationAuthorization.dfy` has it for every permission plan.
- MemberByDefinition: for definitions about properties and inputs that are not managers, inputs whose values come as a list, and classes whose inputs raise in no order; and with it all that `CalculationPermissions.dfy` and `CalculationAuthorization.dfy` state about what is shown. Definitions about other inputs are passed on to the bucket of the values.
- PathsAgree: rows of a table, for which both paths evaluate a definition alike; calculation managers are in `PathsAgreeExactly`.
- PathsAgreeExactly: the list without criteria of its own, and search without a user filter.
- MeansNestedExactly: covers direct relations; for collection operators only polarity and preservation of leaves are stated, since `any` and `none` over several rows have no flat meaning.
- UnionOfAlternatives: `|` as the union of querysets over one table, as database buckets have it; `CalculationPermissions.dfy` has the loop over calculation buckets. Request buckets concatenate their operands; they are not modelled.
- OrderIndependent: the check on the fields is sufficient; the exact condition, which speaks of values, is in `OrdersAgreeExactly`.
- FreezeIgnoresOrder: for string-keyed dictionaries; one level of any keys is in `DictFreezesAlikeExactly`.
- Register: for one caller, as Delete and DueKeys: nothing else changes the cache while it waits for the lock of an index. UpdateIndexMember alone has other callers.
- DueKeys: one caller at a time; interleaved callers are in `WarmupLock.dfy`, which models one index and its lock.
- BuildUnique: errors carry no row or value, and exceptions of the row source are not modelled.
- Possible values that are one-shot iterators are not used up by a materialization; the preview's special case for them is modelled.
- Exceptions of manager construction, of properties, of filter casts, and as-of snapshots.
- Cached indexes on slices of calculation buckets: a slice shares its parent's signature.
- Several sort keys chained by repeated `sort` calls: a later call replaces the earlier key.
- Database, request and group buckets, the dependency index, the run-context cache and `parse_filters`: they appear as functions.
- The two token comparisons of the non-Redis release are one step, and its process-local mutex is left out.
- Real clocks: waiting is a number of attempts, expiry a step.
- Contents of GraphQL payloads, `pong` and `connection_ack` messages, connection parameters, `took_ms`, logging.
- Cancellation of a message handler while it awaits, and failures of its own sends.
- The subscription consumer: `aclose` and the envelope sends are steps that may fail; what the iterator does is arbitrary.
- Sort values are integers and scores reals, both totally ordered; normalization and incomparable values are left out.
- GraphQL parsing, directives and type conditions: the walks ignore the latter two in the program as well.
- Warm-up recipe locks per recipe, which are one attempt of the same acquire, and the same release.
- Schema generation, annotation mapping, URL and ASGI wiring, scripts and example projects.
