# Multi-edge example builder, modelled in Dafny

This project models the example builder of a protein–protein interaction
extraction pipeline. For each sentence it turns every pair of tokens into
labelled machine-learning examples. One example holds:

- an id of the form `<sentence id>.x<index>`;
- a numeric class: the class registry's id of the category name, or ±1 in
  "binary" style;
- a sparse feature vector, built from the shortest dependency path between
  the two tokens and from their linear context;
- extra attributes giving the pair's orientation.

The category of a pair comes from the gold interaction edges between its
tokens. The allowed types are kept, their type names are sorted, and the
names are joined with "-". A pair with no such edge is labelled "neg".

The model has these parts:

- `Sentence` holds what a call works on: tokens, the entity-head table, the
  interaction graph, the precomputed shortest-path table and the
  configuration (styles, allowed path lengths, type allow-list). The
  feature builders appear only as the `setFeature` writes they perform.
- `IdRegistry` models the append-only name→id registries (`IdSet`): a class
  with a value view `Registry`.
- `Ordering` is Python's string order and the sort `getType` relies on.
- `EdgeCategory` covers `filterEdgesByType` and `getType`.
- `TokenIds` covers `int(id.split("_")[-1])` and `str(index)`.
- `PairPolicy` lists which examples `buildExamples` emits, in which order
  and with which labels, as a list of build requests (`Plan`).
- `Features` covers the feature writes of `buildExample`, the out-of-scope
  sentinels, the extra attributes, the class id and the example id.
- `Emission` is the value semantics of `buildExample` (`Build`), of one
  request (`Serve`) and of a whole sentence (`Run`, a left fold over the
  requests that stops at the first failure).
- `ExampleBuilder` is the builder class itself. Its methods follow the
  source's loops and branches, and each one is proved equal to the value
  semantics above.
- `Folds` holds the generic left fold and flat map that the loops are
  specified by.

Two behaviours of the code are worth stating plainly, since the model
follows them:

- `getType` keeps one name per edge, so a type that occurs on two edges
  appears twice in the category ("Binding-Phosphorylation-Phosphorylation"),
  `MultiEdgeExampleBuilder.py` lines 38-50.
- When no path exists, the code writes only the sentinel features. It uses
  the two-token path `[token1, token2]` only for the extra attributes; no
  feature builder runs on it (lines 191-195).

## Model

| member | source | states |
|---|---|---|
| IdRegistry.IdSet.constructor | JariSandbox/ComplexPPI/Source/ExampleBuilders/MultiEdgeExampleBuilder.py:15 | `IdSet(firstNum)` is an empty registry whose next id is `firstNum` |
| IdRegistry.IdSet.GetId | JariSandbox/ComplexPPI/Source/ExampleBuilders/MultiEdgeExampleBuilder.py:188-190 | `getId` returns the name's id. A new name gets the next free id; a known name keeps its id. The registry stays injective |
| IdRegistry.Register | JariSandbox/ComplexPPI/Source/ExampleBuilders/MultiEdgeExampleBuilder.py:211 | one registration adds exactly the name to the known names and changes no existing id |
| IdRegistry.RegisterAll | JariSandbox/ComplexPPI/Source/ExampleBuilders/MultiEdgeExampleBuilder.py:145-159 | registering a list of names adds exactly those names and changes no existing id |
| IdRegistry.RegisterSpec | JariSandbox/ComplexPPI/Source/ExampleBuilders/MultiEdgeExampleBuilder.py:211 | a registration keeps ids unique and inside `[first, next)` |
| IdRegistry.RegisterAllSpec | JariSandbox/ComplexPPI/Source/ExampleBuilders/MultiEdgeExampleBuilder.py:145-159 | a run of registrations keeps the registry well-formed, and the next id never decreases |
| IdRegistry.RegisterAllConcat | JariSandbox/ComplexPPI/Source/ExampleBuilders/MultiEdgeExampleBuilder.py:145-173 | registering `a + b` equals registering `a`, then `b` |
| EdgeCategory.FilterEdgesByType | JariSandbox/ComplexPPI/Source/ExampleBuilders/MultiEdgeExampleBuilder.py:27-34 | an empty allow-list returns the edges unchanged. Otherwise the result is the allowed edges in their original order, and each has an allowed type |
| EdgeCategory.Kept | JariSandbox/ComplexPPI/Source/ExampleBuilders/MultiEdgeExampleBuilder.py:27-34 | the edges whose type is allowed, in their original order: never more edges than given, and each kept edge is one of the given edges with an allowed type. `FilteredCount` counts the copies exactly |
| EdgeCategory.Filtered | JariSandbox/ComplexPPI/Source/ExampleBuilders/MultiEdgeExampleBuilder.py:27-34 | what `filterEdgesByType` returns: the edges unchanged for an empty allow-list, else `Kept`. Every result edge is a given edge, with an allowed type whenever the allow-list is non-empty |
| EdgeCategory.FilteredConcat | JariSandbox/ComplexPPI/Source/ExampleBuilders/MultiEdgeExampleBuilder.py:30-34 | filtering distributes over concatenation, so it preserves order |
| EdgeCategory.FilteredCount | JariSandbox/ComplexPPI/Source/ExampleBuilders/MultiEdgeExampleBuilder.py:27-34 | every copy of an allowed edge survives and no copy of any other edge does; an empty allow-list keeps all |
| EdgeCategory.TypeNames | JariSandbox/ComplexPPI/Source/ExampleBuilders/MultiEdgeExampleBuilder.py:38-40 | name `k` is the type of edge `k` |
| EdgeCategory.NonEmptyNoneIff | JariSandbox/ComplexPPI/Source/ExampleBuilders/MultiEdgeExampleBuilder.py:43-50 | the join loop builds nothing exactly when every name is empty |
| EdgeCategory.NonEmpty | JariSandbox/ComplexPPI/Source/ExampleBuilders/MultiEdgeExampleBuilder.py:43-46 | the names the join loop actually contributes to the string: the non-empty ones, in order. `NonEmptyNoneIff` proves when it is empty |
| EdgeCategory.HyphenJoin | JariSandbox/ComplexPPI/Source/ExampleBuilders/MultiEdgeExampleBuilder.py:42-46 | `"-".join(names)`: the result starts with the first name and ends with the last one. `JoinStep` proves it is what the source loop builds, one sorted name at a time |
| EdgeCategory.HyphenJoinNonEmpty | JariSandbox/ComplexPPI/Source/ExampleBuilders/MultiEdgeExampleBuilder.py:42-50 | joining non-empty names gives "" exactly when there are no names |
| EdgeCategory.SortedEmptyFirst | JariSandbox/ComplexPPI/Source/ExampleBuilders/MultiEdgeExampleBuilder.py:41-46 | after sorting, the empty names come before all others |
| EdgeCategory.JoinStep | JariSandbox/ComplexPPI/Source/ExampleBuilders/MultiEdgeExampleBuilder.py:43-46 | one iteration of the join loop adds "-" only when the string so far is non-empty, then appends the name |
| EdgeCategory.GetType | JariSandbox/ComplexPPI/Source/ExampleBuilders/MultiEdgeExampleBuilder.py:36-50 | `getType` returns the allowed edges' type names, sorted and "-"-joined, or None when nothing is joined |
| EdgeCategory.Category | JariSandbox/ComplexPPI/Source/ExampleBuilders/MultiEdgeExampleBuilder.py:36-50 | the category of a pair of tokens; a category that exists is never "". `CategoryNoneIff`, `CategoryKeepsDuplicates` and `EdgeOrderIrrelevant` prove what it is |
| EdgeCategory.CategoryNoneIff | JariSandbox/ComplexPPI/Source/ExampleBuilders/MultiEdgeExampleBuilder.py:47-50 | None exactly when every allowed edge has an empty type, or no edge is allowed |
| EdgeCategory.NameBagConcat | JariSandbox/ComplexPPI/Source/ExampleBuilders/MultiEdgeExampleBuilder.py:30-40 | the bag of allowed type names of `a + b` is the sum of the two bags |
| EdgeCategory.NameBagPermutation | JariSandbox/ComplexPPI/Source/ExampleBuilders/MultiEdgeExampleBuilder.py:30-40 | reordered edges give the same bag of allowed type names |
| EdgeCategory.CategoryOfNameBag | JariSandbox/ComplexPPI/Source/ExampleBuilders/MultiEdgeExampleBuilder.py:36-50 | the category depends only on the bag of allowed type names |
| EdgeCategory.EdgeOrderIrrelevant | JariSandbox/ComplexPPI/Source/ExampleBuilders/MultiEdgeExampleBuilder.py:36-50 | the order of parallel edges does not affect the category |
| EdgeCategory.PooledCategorySymmetric | JariSandbox/ComplexPPI/Source/ExampleBuilders/MultiEdgeExampleBuilder.py:108-115 | pooling two directions' edges in either order gives the same category |
| EdgeCategory.SortExample | JariSandbox/ComplexPPI/Source/ExampleBuilders/MultiEdgeExampleBuilder.py:41 | `["Phosphorylation", "Phosphorylation", "Binding"]` sorts to `["Binding", "Phosphorylation", "Phosphorylation"]` |
| EdgeCategory.JoinExample | JariSandbox/ComplexPPI/Source/ExampleBuilders/MultiEdgeExampleBuilder.py:42-46 | those sorted names join to "Binding-Phosphorylation-Phosphorylation" |
| EdgeCategory.CategoryKeepsDuplicates | JariSandbox/ComplexPPI/Source/ExampleBuilders/MultiEdgeExampleBuilder.py:36-50 | two Phosphorylation edges and one Binding edge give "Binding-Phosphorylation-Phosphorylation"; duplicates are kept |
| Ordering.StrLeqReflexive | JariSandbox/ComplexPPI/Source/ExampleBuilders/MultiEdgeExampleBuilder.py:41 | string order is reflexive |
| Ordering.StrLeq | JariSandbox/ComplexPPI/Source/ExampleBuilders/MultiEdgeExampleBuilder.py:41 | Python 2 string comparison: code-point order, a proper prefix first. Its order laws are the four `StrLeq…` lemmas below |
| Ordering.StrLeqTotal | JariSandbox/ComplexPPI/Source/ExampleBuilders/MultiEdgeExampleBuilder.py:41 | string order is total |
| Ordering.StrLeqAntisymmetric | JariSandbox/ComplexPPI/Source/ExampleBuilders/MultiEdgeExampleBuilder.py:41 | string order is antisymmetric |
| Ordering.StrLeqTransitive | JariSandbox/ComplexPPI/Source/ExampleBuilders/MultiEdgeExampleBuilder.py:41 | string order is transitive |
| Ordering.EmptyIsLeast | JariSandbox/ComplexPPI/Source/ExampleBuilders/MultiEdgeExampleBuilder.py:41 | "" is below every string, and only "" is below "" |
| Ordering.InsertMultiset | JariSandbox/ComplexPPI/Source/ExampleBuilders/MultiEdgeExampleBuilder.py:41 | insertion adds exactly the one element |
| Ordering.InsertSorted | JariSandbox/ComplexPPI/Source/ExampleBuilders/MultiEdgeExampleBuilder.py:41 | inserting into a sorted list keeps it sorted |
| Ordering.SortNamesSpec | JariSandbox/ComplexPPI/Source/ExampleBuilders/MultiEdgeExampleBuilder.py:41 | `sort()` returns an ascending permutation of its input |
| Ordering.SortNames | JariSandbox/ComplexPPI/Source/ExampleBuilders/MultiEdgeExampleBuilder.py:41 | `categoryNames.sort()`. `SortNamesSpec` and `SortIsCanonical` prove it is the unique ascending permutation |
| Ordering.SortedUnique | JariSandbox/ComplexPPI/Source/ExampleBuilders/MultiEdgeExampleBuilder.py:41 | two sorted permutations of the same names are equal |
| Ordering.SortIsCanonical | JariSandbox/ComplexPPI/Source/ExampleBuilders/MultiEdgeExampleBuilder.py:41 | any ascending permutation of the names is what the sort returns |
| TokenIds.LastSegmentSpec | JariSandbox/ComplexPPI/Source/ExampleBuilders/MultiEdgeExampleBuilder.py:197 | `split("_")[-1]` is a suffix with no "_", preceded by "_" unless it is the whole id |
| TokenIds.LastSegment | JariSandbox/ComplexPPI/Source/ExampleBuilders/MultiEdgeExampleBuilder.py:197 | `id.split("_")[-1]`. `LastSegmentSpec` and `LastSegmentAfterUnderscore` prove what it is |
| TokenIds.LastSegmentAfterUnderscore | JariSandbox/ComplexPPI/Source/ExampleBuilders/MultiEdgeExampleBuilder.py:197 | the last segment of `prefix + "_" + seg` is `seg` whenever `seg` has no "_" |
| TokenIds.TrimLeftSpec | JariSandbox/ComplexPPI/Source/ExampleBuilders/MultiEdgeExampleBuilder.py:197 | `int()` drops exactly the white space before the first other character |
| TokenIds.TrimLeftNoSpace | JariSandbox/ComplexPPI/Source/ExampleBuilders/MultiEdgeExampleBuilder.py:197 | text that does not start with white space is unchanged |
| TokenIds.TrimRight | JariSandbox/ComplexPPI/Source/ExampleBuilders/MultiEdgeExampleBuilder.py:197 | `int()` ignoring trailing white space: the text without its white-space suffix |
| TokenIds.DecimalString | JariSandbox/ComplexPPI/Source/ExampleBuilders/MultiEdgeExampleBuilder.py:212 | `str(n)` is a non-empty string of digits whose value is `n` |
| TokenIds.SkipSpace | JariSandbox/ComplexPPI/Source/ExampleBuilders/MultiEdgeExampleBuilder.py:197 | the white space `int()` skips after a sign: every skipped character is white space, and the scan stops at the first one that is not |
| TokenIds.ParseInt | JariSandbox/ComplexPPI/Source/ExampleBuilders/MultiEdgeExampleBuilder.py:197 | Python 2 `int()` on text: optional white space around it, an optional sign, optional white space after the sign, then ASCII digits; None where `int` raises. `DecimalRoundTrip`, `NegativeRoundTrip` and `SpaceAfterSign` prove its round trips |
| TokenIds.ParseNegative | JariSandbox/ComplexPPI/Source/ExampleBuilders/MultiEdgeExampleBuilder.py:197 | a trimmed text led by "-", with digits after the white space that follows the sign, parses to minus their value |
| TokenIds.SpaceAfterSign | JariSandbox/ComplexPPI/Source/ExampleBuilders/MultiEdgeExampleBuilder.py:197 | `int("- " + str(n)) == -n`: white space after the sign is skipped |
| TokenIds.DecimalRoundTrip | JariSandbox/ComplexPPI/Source/ExampleBuilders/MultiEdgeExampleBuilder.py:197 | `int(str(n)) == n` |
| TokenIds.NegativeRoundTrip | JariSandbox/ComplexPPI/Source/ExampleBuilders/MultiEdgeExampleBuilder.py:197 | `int("-" + str(n)) == -n` |
| TokenIds.DecimalInjective | JariSandbox/ComplexPPI/Source/ExampleBuilders/MultiEdgeExampleBuilder.py:212 | different indices render differently |
| TokenIds.TokenNumberOfId | JariSandbox/ComplexPPI/Source/ExampleBuilders/MultiEdgeExampleBuilder.py:197 | an id `<prefix>_<n>` has number `n`, whatever the prefix |
| TokenIds.TokenNumber | JariSandbox/ComplexPPI/Source/ExampleBuilders/MultiEdgeExampleBuilder.py:197 | `int(id.split("_")[-1])`, None where it raises. `TokenNumberOfId` and `TokenNumberMissing` prove both cases |
| TokenIds.TokenNumberMissing | JariSandbox/ComplexPPI/Source/ExampleBuilders/MultiEdgeExampleBuilder.py:197 | an id that ends in "_" has no number; `int` raises |
| PairPolicy.RowPairs | JariSandbox/ComplexPPI/Source/ExampleBuilders/MultiEdgeExampleBuilder.py:73 | the inner loop visits only pairs `(i, j)` with `i < j < jEnd` |
| PairPolicy.PairsUpTo | JariSandbox/ComplexPPI/Source/ExampleBuilders/MultiEdgeExampleBuilder.py:72-73 | the first `iEnd` rows hold only pairs `i < iEnd`, `i < j < n` |
| PairPolicy.RowPairsComplete | JariSandbox/ComplexPPI/Source/ExampleBuilders/MultiEdgeExampleBuilder.py:73 | each `j` in `(i, jEnd)` is visited |
| PairPolicy.RowPairsAscending | JariSandbox/ComplexPPI/Source/ExampleBuilders/MultiEdgeExampleBuilder.py:73 | `j` strictly increases along a row |
| PairPolicy.PairsUpToComplete | JariSandbox/ComplexPPI/Source/ExampleBuilders/MultiEdgeExampleBuilder.py:72-73 | every pair of the first rows is visited |
| PairPolicy.PairsUpToAscending | JariSandbox/ComplexPPI/Source/ExampleBuilders/MultiEdgeExampleBuilder.py:72-73 | pairs are visited in strictly increasing lexicographic order |
| PairPolicy.PairsEnumeration | JariSandbox/ComplexPPI/Source/ExampleBuilders/MultiEdgeExampleBuilder.py:72-75 | the two loops visit exactly the pairs `i < j < n`, each once, in lexicographic order |
| PairPolicy.Pairs | JariSandbox/ComplexPPI/Source/ExampleBuilders/MultiEdgeExampleBuilder.py:72-73 | the pairs the two loops visit. `PairsEnumeration` proves they are exactly `i < j < n`, once each, in lexicographic order |
| PairPolicy.EligiblePairs | JariSandbox/ComplexPPI/Source/ExampleBuilders/MultiEdgeExampleBuilder.py:77-79 | the pairs kept by `headsOnly` stay within the sentence |
| PairPolicy.HeadsKnown | JariSandbox/ComplexPPI/Source/ExampleBuilders/MultiEdgeExampleBuilder.py:76-79 | the entity-head table covers every token whenever `headsOnly` reads it; with the style off nothing is demanded of it |
| PairPolicy.Eligible | JariSandbox/ComplexPPI/Source/ExampleBuilders/MultiEdgeExampleBuilder.py:76-79 | the `headsOnly` test of a pair. `EligiblePairsMembers` and `PlanOnlyHeads` prove its effect |
| PairPolicy.EligiblePairsMembers | JariSandbox/ComplexPPI/Source/ExampleBuilders/MultiEdgeExampleBuilder.py:77-79 | a pair is kept exactly when it is visited and both tokens are entity heads, or `headsOnly` is off |
| PairPolicy.RequestsConcat | JariSandbox/ComplexPPI/Source/ExampleBuilders/MultiEdgeExampleBuilder.py:72-73 | the examples of `a + b` are those of `a`, then those of `b` |
| PairPolicy.Requests | JariSandbox/ComplexPPI/Source/ExampleBuilders/MultiEdgeExampleBuilder.py:72-127 | the examples the pair loop emits for a list of visited pairs, pair by pair in order; `Plan` is this over all pairs. `RequestsConcat`, `RequestsPrefix` and `RequestsEndpoints` prove its laws |
| PairPolicy.DirectedRequests | JariSandbox/ComplexPPI/Source/ExampleBuilders/MultiEdgeExampleBuilder.py:81-105 | directed style gives exactly two examples per kept pair, in pair order. The first is `(tI, tJ)`, the second `(tJ, tI)`. Each is labelled with its own direction's category, or "neg" |
| PairPolicy.DirectedLabel | JariSandbox/ComplexPPI/Source/ExampleBuilders/MultiEdgeExampleBuilder.py:83-93 | the label of one direction: its category, or "neg" when it has no edges or no category. `DirectedRequests` proves each directed example carries it |
| PairPolicy.PooledEdges | JariSandbox/ComplexPPI/Source/ExampleBuilders/MultiEdgeExampleBuilder.py:108-112 | the edges of `(tI, tJ)`, then those of `(tJ, tI)`. `PooledCategorySymmetric` proves the order does not change the category |
| PairPolicy.UndirectedLabel | JariSandbox/ComplexPPI/Source/ExampleBuilders/MultiEdgeExampleBuilder.py:106-116 | the pooled edges' category, or "neg". `UndirectedLabelSymmetric` proves it does not depend on which token comes first |
| PairPolicy.PairRequests | JariSandbox/ComplexPPI/Source/ExampleBuilders/MultiEdgeExampleBuilder.py:74-127 | the examples of one visited pair: none when `headsOnly` skips it, two directed ones, or one merged one. `DirectedRequests` and `UndirectedRequests` prove their number, order and labels |
| PairPolicy.Plan | JariSandbox/ComplexPPI/Source/ExampleBuilders/MultiEdgeExampleBuilder.py:72-127 | every example `buildExamples` emits, in order. `PairsEnumeration`, `DirectedRequests`, `UndirectedRequests` and `PlanOnlyHeads` prove what it holds |
| PairPolicy.UndirectedRequests | JariSandbox/ComplexPPI/Source/ExampleBuilders/MultiEdgeExampleBuilder.py:106-127 | undirected style gives exactly one merged example per kept pair, in pair order, built from `(tI, tJ)` and labelled from both directions' edges |
| PairPolicy.RequestsEndpoints | JariSandbox/ComplexPPI/Source/ExampleBuilders/MultiEdgeExampleBuilder.py:74-79 | every example is about two tokens of the sentence that pass the `headsOnly` filter |
| PairPolicy.PlanOnlyHeads | JariSandbox/ComplexPPI/Source/ExampleBuilders/MultiEdgeExampleBuilder.py:76-79 | with `headsOnly`, no example involves a token that is not an entity head |
| PairPolicy.UndirectedLabelSymmetric | JariSandbox/ComplexPPI/Source/ExampleBuilders/MultiEdgeExampleBuilder.py:108-116 | the undirected label does not depend on which token comes first |
| PairPolicy.RowPairsPrefix | JariSandbox/ComplexPPI/Source/ExampleBuilders/MultiEdgeExampleBuilder.py:73 | a shorter row is a prefix of a longer one |
| PairPolicy.PairsUpToPrefix | JariSandbox/ComplexPPI/Source/ExampleBuilders/MultiEdgeExampleBuilder.py:72 | fewer rows give a prefix of more rows |
| PairPolicy.RequestsPrefix | JariSandbox/ComplexPPI/Source/ExampleBuilders/MultiEdgeExampleBuilder.py:72-73 | a prefix of the pairs yields a prefix of the examples |
| PairPolicy.RowRequestsStep | JariSandbox/ComplexPPI/Source/ExampleBuilders/MultiEdgeExampleBuilder.py:73-127 | inner-loop step: visiting `(i, j)` appends that pair's examples |
| PairPolicy.RowsRequestsStep | JariSandbox/ComplexPPI/Source/ExampleBuilders/MultiEdgeExampleBuilder.py:72-73 | outer-loop step: row `i` appends its examples |
| PairPolicy.RowsPrefixOfPlan | JariSandbox/ComplexPPI/Source/ExampleBuilders/MultiEdgeExampleBuilder.py:72-73 | the first rows' examples are a prefix of the sentence's |
| PairPolicy.RowsPrefixOfPairs | JariSandbox/ComplexPPI/Source/ExampleBuilders/MultiEdgeExampleBuilder.py:72 | the first rows' pairs are a prefix of all pairs |
| PairPolicy.AllRowsArePlan | JariSandbox/ComplexPPI/Source/ExampleBuilders/MultiEdgeExampleBuilder.py:72 | after `range(n - 1)` rows, every example of the sentence is accounted for |
| Features.PathForEndpoints | JariSandbox/ComplexPPI/Source/ExampleBuilders/MultiEdgeExampleBuilder.py:138-139 | the path used (found, or `[token1, token2]` as at line 195) runs from `token1` to `token2` |
| Features.PathFor | JariSandbox/ComplexPPI/Source/ExampleBuilders/MultiEdgeExampleBuilder.py:138-195 | the path an example is built on: the looked-up one (lines 138-139), or `[token1, token2]` (line 195). `PathForEndpoints` proves its ends |
| Features.InScope | JariSandbox/ComplexPPI/Source/ExampleBuilders/MultiEdgeExampleBuilder.py:138-140 | a path exists and its length in edges is allowed. `OutOfScopeFeatures` proves what happens otherwise |
| Features.LastIndex | JariSandbox/ComplexPPI/Source/ExampleBuilders/MultiEdgeExampleBuilder.py:163-167 | the search finds an index exactly when the token occurs, and the token is at that index |
| Features.LastIndexIsLast | JariSandbox/ComplexPPI/Source/ExampleBuilders/MultiEdgeExampleBuilder.py:163-167 | the search loop keeps the last occurrence |
| Features.Position | JariSandbox/ComplexPPI/Source/ExampleBuilders/MultiEdgeExampleBuilder.py:163-167 | the index the position loop leaves for a token of the sentence: its last position, which `LastIndex` and `LastIndexIsLast` characterise |
| Features.LinearPositions | JariSandbox/ComplexPPI/Source/ExampleBuilders/MultiEdgeExampleBuilder.py:163-171 | the two tokens' positions, swapped so that the smaller comes first; `ExampleBuilder.LocateTokens` is proved to compute exactly this |
| Features.WriteNamesAt | JariSandbox/ComplexPPI/Source/ExampleBuilders/MultiEdgeExampleBuilder.py:145-173 | one registered name per `setFeature`, in order |
| Features.Apply | JariSandbox/ComplexPPI/Source/ExampleBuilders/MultiEdgeExampleBuilder.py:145-194 | the dict after the writes `features[getId(name)] = value`, in order, where a later write to the same id wins. `ApplyConcat`, `ApplyStable` and `WritePrefixStep` prove its laws |
| Features.Vector | JariSandbox/ComplexPPI/Source/ExampleBuilders/MultiEdgeExampleBuilder.py:137-194 | the feature vector the writes produce from the empty dict of line 137. `OutOfScopeFeatures` and `ExampleBuilder.MultiEdgeExampleBuilder.PathFeatures` are stated through it |
| Features.ScopedWrites | JariSandbox/ComplexPPI/Source/ExampleBuilders/MultiEdgeExampleBuilder.py:145-182 | the writes of an example in scope: dependency features, then `linTok1` and `linTok2` features at the ordered positions, each unless switched off. `ScopedFeatures` is proved to perform them |
| Features.SentinelWrites | JariSandbox/ComplexPPI/Source/ExampleBuilders/MultiEdgeExampleBuilder.py:187-194 | `always_negative` = 1, then `out_of_scope` = 1 under "subset". `OutOfScopeFeatures` proves the vector they give |
| Features.FeatureWrites | JariSandbox/ComplexPPI/Source/ExampleBuilders/MultiEdgeExampleBuilder.py:137-195 | every feature write of `buildExample` in order: the scoped writes in scope, the sentinels otherwise. `PathFeatures` is proved to perform them |
| Features.ApplyConcat | JariSandbox/ComplexPPI/Source/ExampleBuilders/MultiEdgeExampleBuilder.py:145-173 | the writes of two builders in turn equal their concatenation; later writes win |
| Features.ApplyStable | JariSandbox/ComplexPPI/Source/ExampleBuilders/MultiEdgeExampleBuilder.py:145-173 | later registrations do not change a vector already written |
| Features.WriteNamesConcat | JariSandbox/ComplexPPI/Source/ExampleBuilders/MultiEdgeExampleBuilder.py:145-173 | the names of `a + b` are those of `a`, then those of `b` |
| Features.ComposeWrites | JariSandbox/ComplexPPI/Source/ExampleBuilders/MultiEdgeExampleBuilder.py:145-173 | running the builders one after another into the same dict equals running their concatenated writes |
| Features.WriteSnoc | JariSandbox/ComplexPPI/Source/ExampleBuilders/MultiEdgeExampleBuilder.py:188 | one more write registers its name last and sets its slot |
| Features.WritePrefixStep | JariSandbox/ComplexPPI/Source/ExampleBuilders/MultiEdgeExampleBuilder.py:145-173 | one `setFeature` extends the writes performed so far by one |
| Features.RegisteredAfter | JariSandbox/ComplexPPI/Source/ExampleBuilders/MultiEdgeExampleBuilder.py:145-173 | after the writes, every written name is registered |
| Features.OutOfScopeFeatures | JariSandbox/ComplexPPI/Source/ExampleBuilders/MultiEdgeExampleBuilder.py:187-194 | with no path, or a disallowed length, the vector is exactly `always_negative` = 1, plus `out_of_scope` = 1 under "subset". It has 1 or 2 entries and no feature builder runs |
| Features.NoPathIsDegenerate | JariSandbox/ComplexPPI/Source/ExampleBuilders/MultiEdgeExampleBuilder.py:191-195 | with no path, the path is `[token1, token2]` and the example is out of scope |
| Features.OrientationSpec | JariSandbox/ComplexPPI/Source/ExampleBuilders/MultiEdgeExampleBuilder.py:197-202 | extras exist exactly when both ends have numbers. They are "edge"/"i"; `t1` has the smaller number; `deprev` is true exactly when the first end's number is not smaller |
| Features.Oriented | JariSandbox/ComplexPPI/Source/ExampleBuilders/MultiEdgeExampleBuilder.py:197-202 | the extra attributes for a path whose ends have numbers `a` and `b`. `OrientationSpec` proves their meaning |
| Features.Orientation | JariSandbox/ComplexPPI/Source/ExampleBuilders/MultiEdgeExampleBuilder.py:197-202 | the extra attributes of a path, or the failure of `int` on an end without a number. `OrientationSpec` and `OrientationSwap` prove its cases |
| Features.OrientationSwap | JariSandbox/ComplexPPI/Source/ExampleBuilders/MultiEdgeExampleBuilder.py:197-202 | swapping two ends with different numbers keeps `t1`/`t2` and flips `deprev` |
| Features.NegativeClass | JariSandbox/ComplexPPI/Source/ExampleBuilders/MultiEdgeExampleBuilder.py:204-211 | outside binary style, class 1 means exactly "neg"; in binary style, -1 means exactly "neg" and 1 anything else |
| Features.ClassIdOf | JariSandbox/ComplexPPI/Source/ExampleBuilders/MultiEdgeExampleBuilder.py:204-211 | the numeric class: ±1 in binary style, else the class id. `NegativeClass` proves what 1 and -1 mean |
| Features.ExampleIdsDistinct | JariSandbox/ComplexPPI/Source/ExampleBuilders/MultiEdgeExampleBuilder.py:212 | different indices give different example ids |
| Features.ExampleId | JariSandbox/ComplexPPI/Source/ExampleBuilders/MultiEdgeExampleBuilder.py:212 | `sentenceId + ".x" + str(index)`. `ExampleIdsDistinct` proves different indices give different ids |
| Emission.DescribesStable | JariSandbox/ComplexPPI/Source/ExampleBuilders/MultiEdgeExampleBuilder.py:135-212 | an example's description survives later registrations |
| Emission.BuildSpec | JariSandbox/ComplexPPI/Source/ExampleBuilders/MultiEdgeExampleBuilder.py:135-212 | `buildExample` keeps the registries well-formed and loses no id. It fails exactly on a token id without a number. Otherwise its id, extras, class and features are as the source defines them |
| Emission.Build | JariSandbox/ComplexPPI/Source/ExampleBuilders/MultiEdgeExampleBuilder.py:135-212 | `buildExample` as a value: the feature writes, then the extras, then the class. `BuildSpec` proves its result and its effect on the registries |
| Emission.ServeSpec | JariSandbox/ComplexPPI/Source/ExampleBuilders/MultiEdgeExampleBuilder.py:88-127 | serving one example: it fails exactly on a missing token number, else the example is described by its request |
| Emission.Serve | JariSandbox/ComplexPPI/Source/ExampleBuilders/MultiEdgeExampleBuilder.py:88-127 | the example of one request: a plain build, or the merged undirected build. `ServeSpec` and `MergedSpec` prove it |
| Emission.Next | JariSandbox/ComplexPPI/Source/ExampleBuilders/MultiEdgeExampleBuilder.py:65-127 | serving one request after the outcome so far, numbered by the examples already emitted; a failure stays. `RunStep` and `ContinueAfterFailure` prove it |
| Emission.Run | JariSandbox/ComplexPPI/Source/ExampleBuilders/MultiEdgeExampleBuilder.py:65-133 | `buildExamples` on a list of requests, as a left fold of `Next` from no examples. `RunFails`, `RunDescribes`, `RunState` and `ExampleIdsUnique` prove what it yields |
| Emission.MergedSpec | JariSandbox/ComplexPPI/Source/ExampleBuilders/MultiEdgeExampleBuilder.py:117-119 | the undirected merge: the reverse "temp" build cannot fail after the forward one succeeded, and the features are the forward vector updated with the reverse one |
| Emission.RunState | JariSandbox/ComplexPPI/Source/ExampleBuilders/MultiEdgeExampleBuilder.py:65-127 | a sentence keeps both registries well-formed and never loses or changes an id |
| Emission.AllNumberedMeans | JariSandbox/ComplexPPI/Source/ExampleBuilders/MultiEdgeExampleBuilder.py:197 | "all numbered" means that every request's ends have token numbers |
| Emission.AllNumberedAt | JariSandbox/ComplexPPI/Source/ExampleBuilders/MultiEdgeExampleBuilder.py:197 | in an all-numbered list, request `k` has numbered ends |
| Emission.FirstUnnumbered | JariSandbox/ComplexPPI/Source/ExampleBuilders/MultiEdgeExampleBuilder.py:197 | a list that is not all numbered has a request without a number |
| Emission.RunFails | JariSandbox/ComplexPPI/Source/ExampleBuilders/MultiEdgeExampleBuilder.py:65-133 | a sentence fails exactly when some example's ends lack a token number; otherwise it yields one example per request |
| Emission.RunDescribes | JariSandbox/ComplexPPI/Source/ExampleBuilders/MultiEdgeExampleBuilder.py:65-133 | in a successful sentence, example `k` is built for request `k` with index `k` |
| Emission.RunStep | JariSandbox/ComplexPPI/Source/ExampleBuilders/MultiEdgeExampleBuilder.py:65-127 | the last request is served after the others, and a success implies the others succeeded |
| Emission.DescribesExtend | JariSandbox/ComplexPPI/Source/ExampleBuilders/MultiEdgeExampleBuilder.py:89-127 | appending one example keeps the earlier descriptions |
| Emission.ContinueAfterFailure | JariSandbox/ComplexPPI/Source/ExampleBuilders/MultiEdgeExampleBuilder.py:197 | after a raise, nothing more is built and the registries are frozen |
| Emission.ContinueConcat | JariSandbox/ComplexPPI/Source/ExampleBuilders/MultiEdgeExampleBuilder.py:72-127 | serving `a + b` equals serving `a`, then `b` |
| Emission.Step | JariSandbox/ComplexPPI/Source/ExampleBuilders/MultiEdgeExampleBuilder.py:65-127 | one turn of the loop over the requests, as a function of the outcome so far and the request (`Next`) |
| Emission.Continue | JariSandbox/ComplexPPI/Source/ExampleBuilders/MultiEdgeExampleBuilder.py:65-127 | the loop going on over the requests from a given outcome: a left fold of `Step`. `ContinueConcat`, `ContinueAfterFailure`, `ContinueOne` and `ContinueTwo` prove its laws |
| Emission.ContinueOne | JariSandbox/ComplexPPI/Source/ExampleBuilders/MultiEdgeExampleBuilder.py:106-127 | serving one request is one step |
| Emission.ContinueTwo | JariSandbox/ComplexPPI/Source/ExampleBuilders/MultiEdgeExampleBuilder.py:81-105 | serving forward then reverse is two chained steps |
| Emission.ExampleIdsUnique | JariSandbox/ComplexPPI/Source/ExampleBuilders/MultiEdgeExampleBuilder.py:67-127 | within a sentence, example ids are pairwise different |
| Emission.NegativeExamples | JariSandbox/ComplexPPI/Source/ExampleBuilders/MultiEdgeExampleBuilder.py:15-16 | with "neg" = 1: outside binary style, class 1 exactly for "neg" requests; in binary style, -1 exactly for "neg" and 1 otherwise |
| Emission.PrefixFailure | JariSandbox/ComplexPPI/Source/ExampleBuilders/MultiEdgeExampleBuilder.py:197 | a failure on a prefix of the requests is the outcome of all of them |
| Emission.RunPrefixFailure | JariSandbox/ComplexPPI/Source/ExampleBuilders/MultiEdgeExampleBuilder.py:197 | a sentence that fails on a prefix fails identically overall |
| Emission.RowStep | JariSandbox/ComplexPPI/Source/ExampleBuilders/MultiEdgeExampleBuilder.py:73-127 | inner-loop step on the outcome: the row up to `j + 1` is the row up to `j`, then pair `(i, j)` |
| Emission.RowFailure | JariSandbox/ComplexPPI/Source/ExampleBuilders/MultiEdgeExampleBuilder.py:73 | after a failure in a row, the row's remaining pairs change nothing |
| Emission.RowsStep | JariSandbox/ComplexPPI/Source/ExampleBuilders/MultiEdgeExampleBuilder.py:72-73 | outer-loop step on the outcome |
| Emission.RowsFailure | JariSandbox/ComplexPPI/Source/ExampleBuilders/MultiEdgeExampleBuilder.py:72 | a failure in row `i` is the outcome of the whole sentence |
| Emission.RowsAdvance | JariSandbox/ComplexPPI/Source/ExampleBuilders/MultiEdgeExampleBuilder.py:72-73 | the outer-loop step the builder takes: the outcome after row `i` is that of the rows up to `i + 1`, and a failure there is the outcome of the whole sentence |
| ExampleBuilder.LocateTokens | JariSandbox/ComplexPPI/Source/ExampleBuilders/MultiEdgeExampleBuilder.py:163-171 | the position loop gives the tokens' last positions, smaller first, and they hold exactly the two tokens |
| ExampleBuilder.MultiEdgeExampleBuilder.constructor | JariSandbox/ComplexPPI/Source/ExampleBuilders/MultiEdgeExampleBuilder.py:12-16 | empty registries, except "neg" registered as class 1. This assumes assertions are enabled: the registration happens inside the `assert` at line 16, which `python -O` skips, leaving "neg" to take whatever id its first `getId` gives it |
| ExampleBuilder.MultiEdgeExampleBuilder.SetFeature | JariSandbox/ComplexPPI/Source/ExampleBuilders/MultiEdgeExampleBuilder.py:188 | `features[getId(name)] = value` registers the name and sets its slot |
| ExampleBuilder.MultiEdgeExampleBuilder.ApplyWrites | JariSandbox/ComplexPPI/Source/ExampleBuilders/MultiEdgeExampleBuilder.py:145-159 | one builder's writes, in order, register their names and give the vector those writes define |
| ExampleBuilder.MultiEdgeExampleBuilder.MarkOutOfScope | JariSandbox/ComplexPPI/Source/ExampleBuilders/MultiEdgeExampleBuilder.py:187-194 | writes the sentinel features |
| ExampleBuilder.MultiEdgeExampleBuilder.ScopedFeatures | JariSandbox/ComplexPPI/Source/ExampleBuilders/MultiEdgeExampleBuilder.py:145-182 | dependency features, then linTok1/linTok2 features at the ordered positions, unless switched off |
| ExampleBuilder.MultiEdgeExampleBuilder.PathFeatures | JariSandbox/ComplexPPI/Source/ExampleBuilders/MultiEdgeExampleBuilder.py:137-195 | in scope: the scoped features; otherwise the sentinels. Also returns the path the extras are read from |
| ExampleBuilder.MultiEdgeExampleBuilder.BuildExample | JariSandbox/ComplexPPI/Source/ExampleBuilders/MultiEdgeExampleBuilder.py:135-212 | new registries and result equal `Build`, whose properties `BuildSpec` proves |
| ExampleBuilder.MultiEdgeExampleBuilder.DirectedExample | JariSandbox/ComplexPPI/Source/ExampleBuilders/MultiEdgeExampleBuilder.py:83-93 | one direction: the category example, or "neg" when there are no edges or no category |
| ExampleBuilder.MultiEdgeExampleBuilder.DirectedPair | JariSandbox/ComplexPPI/Source/ExampleBuilders/MultiEdgeExampleBuilder.py:81-105 | forward example, then reverse example; a failure stops |
| ExampleBuilder.MultiEdgeExampleBuilder.MergedExample | JariSandbox/ComplexPPI/Source/ExampleBuilders/MultiEdgeExampleBuilder.py:117-119 | forward build plus "temp" reverse build, features merged; equals `Serve` |
| ExampleBuilder.MultiEdgeExampleBuilder.UndirectedPair | JariSandbox/ComplexPPI/Source/ExampleBuilders/MultiEdgeExampleBuilder.py:106-127 | pooled edges give the label (else "neg") of one merged example |
| ExampleBuilder.MultiEdgeExampleBuilder.PairExamples | JariSandbox/ComplexPPI/Source/ExampleBuilders/MultiEdgeExampleBuilder.py:74-127 | the loop body: skip non-heads under `headsOnly`, else emit by style |
| ExampleBuilder.MultiEdgeExampleBuilder.RowExamples | JariSandbox/ComplexPPI/Source/ExampleBuilders/MultiEdgeExampleBuilder.py:73-127 | the inner loop serves the row's examples in order, stopping at a failure |
| ExampleBuilder.MultiEdgeExampleBuilder.BuildExamples | JariSandbox/ComplexPPI/Source/ExampleBuilders/MultiEdgeExampleBuilder.py:65-133 | `buildExamples` equals `Run` over `Plan`. With `RunFails`, `RunDescribes`, `ExampleIdsUnique` and `DirectedRequests`/`UndirectedRequests`, this says what it emits and when it fails |

## Left out

- The feature builders (dependency-path, token, ontology and random) are not part of this model. Each appears only as the list of `setFeature` writes it performs, given as a function parameter. The random builder is nondeterministic.
- The "ontology" and "random" styles are not modelled.
- The shortest-path computation (`all_pairs_shortest_path` over the undirected dependency graph) is not part of this model. The path table is an input, assumed to map each pair to a path from its first to its second token.
- `preProcessExamples` and feature-vector normalisation (floating point, in `ExampleUtils`) are not part of this model.
- The base `ExampleBuilder` class and `IdSet` are not part of this model beyond what the builder calls. The feature registry's first id is a constructor parameter.
- The constructor's default arguments (style `["typed", "directed", "headsOnly"]`, no path-length limit, no type allow-list) are not modelled; the configuration is a constructor parameter.
- `linearPreTag` is computed and never used, and the binary-style rename of `categoryName` to "i" is never read after it. Neither is modelled.
- Python aliasing of the feature dict is not modelled. Each builder's writes are applied to a value that is passed along.
- Interaction edges are assumed to carry a "type" attribute: `Edge` always has `etype`. The source raises KeyError on an edge without one, when filtering (line 32) and when collecting type names (line 40, read even with an empty allow-list); that error path is not modelled.
- PairPolicy.HeadsKnown: the entity-head table is assumed to cover every token of the sentence under "headsOnly", as a precondition of `Requests`, `Plan`, the lemmas about them and the builder's loops. The source raises KeyError at line 78 for a token missing from the table; that error path is not modelled, and the sentence graph that fills the table is not part of this model.
- Tokens are identified by their `id` attribute: the model compares tokens, keys the path and interaction tables and searches positions by that string. The source compares and keys token elements by object identity (lines 74-75, 84-85, 138 and 164-166). The two agree whenever a sentence's token ids are distinct.
- Python 2 byte strings are modelled as sequences of characters compared by code point.
- Features.Position: a token missing from the sentence gets position 0. The source would instead fail on an unbound index, but it only ever asks for tokens of the sentence.
- ExampleBuilder.MultiEdgeExampleBuilder.BuildExample: requires both tokens to belong to the sentence and the path table to be well formed (each path runs from its first to its last token). `buildExamples` (lines 72-127) only ever passes two of the sentence's own tokens and the shortest-path table, so both hold at every call site. Outside them the model and the source part in two ways:
  - For a token outside the sentence, the model's position is 0 (`Features.Position`). The source reaches its position loop (lines 163-167) only for a pair in scope with "no_linear" off; there such a token leaves an index unbound, and elsewhere it raises nothing.
  - The model reads the extra attributes from the two tokens (`Orientation(token1, token2)` in `Emission.Build`), the source from `path[0]` and `path[-1]` (line 197). They agree exactly when the path runs from `token1` to `token2`.
- PairPolicy.PairRequests: a pair outside `i < j < n` gives no requests. The loops never produce one.
