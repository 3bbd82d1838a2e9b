# Metaphysics, verified in Dafny

A Dafny model of the algorithmic parts of the Metaphysics GraphQL server, with proofs of what they
promise. Each module follows one part of the source:

| module | part |
|---|---|
| `Params`, `BatchLoader`, `LoaderRuns`, `LoaderPairs` | the batching loaders: how keys are grouped by their serialized parameters, how reply arrays are reversed and popped to hand every key its own entity, whole runs of the wrapper over DataLoader's per-key promise cache and chunks of 20, and runs of the two loaders built on one `multipleLoader` |
| `SaleArtworks` | the sale artworks loader: grouping by sale, assembling results, the promise cache |
| `JsNumbers`, `Words`, `Doubles`, `Hashing`, `Shuffle`, `ShuffleReferences` | the seeded shuffle: JavaScript's 32-bit operators and the words they compute, `xmur3`, `mulberry32` with its unwrapped double counter, the in-place Fisher-Yates loop, and the values the tests expect |
| `Increments` | the walk of a sale's tier table that lists the next bids, and the resolver that hides a leader's own maximum |
| `Selections`, `SelectionAddresses` | the visitor behind `hasFieldSelection`, with fragments, early exit and skipped subtrees, and where the spreads stand that it enters |
| `DirectivePaths`, `DirectiveOccurrences` | the visitors that turn `@principalField` and `@optionalField` into response paths, and where in a document and its response these lead |
| `CacheRuns`, `CacheAnswers` | runs of the caching loader over the shared store: concurrent reads, calls, writes and expiries; what loads may be given, and when and how each ends |
| `Races` | timers that race replies: `withTimeout`, the cache read, the rate limiter |
| `AllPages`, `Fair` | loading all pages of a list, and grouping a fair's exhibitors by initial |
| `PartnerOffers` | stamping a page of offers as purchased, against one lookup an offer |
| `Wrappers`, `Sequences`, `Strings`, `Sorting`, `Arithmetic` | helpers: optional values, distinct and flattened lists, string order and joining, a stable sort and permutations, quotients |

`dafny verify dfyconfig.toml` checks the whole project.

## What the model takes as given

- A backend is a function: an id and a dictionary of parameters to an entity, `null` or nothing;
  `BatchLoader.Replies` is one that answers one entry an id in id order. What the batch function does
  with any other reply is stated without that assumption (`BatchLoader.Deal`,
  `BatchLoader.DealtIsRightExactly`).
- The libraries behave as documented: DataLoader 1.3 (promises cached by key, the queue cut into chunks
  of `maxBatchSize` at dispatch, a failed chunk's keys forgotten), lodash's `groupBy` (first-seen
  order; a serialized parameter list is never an integer-like property name), graphql-js's `visit`
  (depth first, with the path, `BREAK` and skipping), a stable `Array.prototype.sort`.
- Parameter values are strings. `JSON.stringify` of keys is a parameter of the runs; where its
  injectivity matters it is a hypothesis.
- A `multipleLoader` that remembers its calls takes two for the same when they have the same ids and the
  same parameters in the same property order. It forgets calls that fail.
- Sale artwork endpoints serve a catalogue for each sale, in which no id or slug names two entries where
  that is stated; the filter of the batch's endpoint may take slugs or not. A lookup that fails and one
  that finds nothing are not told apart.
- An order service answers with a page of the collector's matching orders, at least one to a page.
- Strings are compared by code unit. Only that the order is total matters to `serializeParams`.
- `random()` is a 32-bit word over 2^32 and an index is the exact floor. Doubles round the product
  `random() * m` only for arrays of more than 2^21 elements.
- A fair's names are lower-cased, compared and reduced to an initial by functions the model takes as
  parameters; the comparison is a total preorder where order is concluded.
- Tier amounts are positive. With an amount that is not, the source's loop need not end.
- A selection set's own fields and spreads, in GraphQL's sense, are those to which only inline fragments lead
  (`SelectionAddresses.OwnFieldsExactly`, `SelectionAddresses.OwnSpreadsExactly`).
- Requests are validated: spreads name fragments and do not form cycles (sections 5.5.2.1 and 5.5.2.2
  of the GraphQL specification, October 2021).

## Where the code does something else than its documentation says

- The optional-field collector, documented by its tests as returning full paths, empties its path at
  every directive. It is right exactly when no top-level field holds two optional fields
  (`DirectivePaths.CollectorIsFaithfulExactly`); otherwise all but the first path below such a field
  lack their beginning.
- `hasFieldSelection` says it stops at nodes deeper than its threshold, but it enters fragment spreads
  one level below it, and it does not see fields written in inline fragments
  (`Selections.NestedSpreadsLeak`, `Selections.InlineFragmentsHideFields`). Which selection sets it
  answers as GraphQL means is stated exactly (`Selections.RequestsAreAnsweredExactly`).
- The two loaders of `createBatchLoaders` share one `multipleLoader`, and one such as that of
  `saleLoader` and `salesLoader` remembers its promises by call within a request
  (`src/lib/loaders/loaders_without_authentication/gravity.ts:20-25`,
  `src/lib/loaders/api/loader_without_authentication_factory.ts:165-169`). When both make the same call,
  they get the same array; the first batch drains it and the second gets nothing. Both are right exactly
  when they make no call in common (`BatchLoader.BothBatchesAreRightExactly`); over whole runs, when
  they share at most one key, a bare id (`LoaderPairs.PairsAnswerAloneExactly`).
- The batched sale artworks loader keeps only artworks whose `_id` is the id asked for, but
  `Sale.saleArtwork(id:)` hands it whatever the client sends (`src/schema/v2/sale/index.ts:573-579`), and
  the unbatched endpoint takes slugs too (`SaleArtworks.BatchingIsUnseenExactly`).
- Exhibitors whose initial normalises to two letters, or who have none, are put before or beside those
  under A (`Fair.GroupsAreAlphabeticalExactly`).
- A list of one id drops an `undefined` result, a longer list keeps it (`LoaderRuns.ListsFollowOneRuleExactly`).
- The cache stamps replies by assigning a property, so a reply that is `null`, a scalar, or a list with
  a truthy scalar makes a load fail although the API answered (`CacheRuns.LoadsFailExactly`).
- The rate limiter may both let a request go on and answer it with a 429
  (`Races.LateHitAnswersTwice`).
- The batch of partner offers may miss a purchase that the single lookup finds, as soon as one more
  order matches than there are offers (`PartnerOffers.BatchAgreesExactly`).

## Model

| member | source | states |
|---|---|---|
| Params.SerializeIgnoresOrder | src/lib/loaders/batchLoader.ts:37-43 | keys with the same dictionary of parameters serialize alike, whatever the property order, names and values |
| Params.SerializeIsCanonical | src/lib/loaders/batchLoader.ts:37-43 | with no `=` or `&` in names and no `=` behind an `&` in values, two keys serialize alike if and only if their parameters are the same dictionary |
| Params.ValueIsUnconfusedExactly | src/lib/loaders/batchLoader.ts:37-43 | a parameter with a given value serializes like no other parameters with such names, whatever its own, if and only if the value has no `=` behind an `&` |
| Params.SerializeConfusesAmpersands | src/lib/loaders/batchLoader.ts:37-43 | a value with `&` can make two different dictionaries serialize alike |
| Params.SerializeConfusesEqualsSigns | src/lib/loaders/batchLoader.ts:37-43 | so can a name with `=` |
| BatchLoader.GroupByParams | src/lib/loaders/batchLoader.ts:55-70 | the loop yields the serialized parameters in first-seen order and, for each, exactly its keys in order |
| BatchLoader.RankInGroup | src/lib/loaders/batchLoader.ts:107-131 | every key stands in its group at the position given by the number of earlier keys of that group |
| BatchLoader.Deal | src/lib/loaders/batchLoader.ts:107-131 | for unshared reply arrays of any content: one rejected call fails the batch and touches no array; else each key gets the entry of its group's reply at its own position, `undefined` past the end, and each array keeps just the reversed rest |
| BatchLoader.Normalize | src/lib/loaders/batchLoader.ts:122-124 | array replies are reversed in place, others become one-element arrays, all of them distinct |
| BatchLoader.PopEach | src/lib/loaders/batchLoader.ts:125-130 | popping the reversed replies key by key deals them out in order |
| BatchLoader.DealtIsRightExactly | src/lib/loaders/batchLoader.ts:122-130 | the results are those wanted if and only if each group's reply holds, at every position of the group, the entity wanted for the key there |
| BatchLoader.BatchIsRightExactly | src/lib/loaders/batchLoader.ts:72-80 | every backend that replies one entry an id in id order makes the batch answer each key as a lone lookup, if and only if every group's head has the same dictionary as all its members |
| BatchLoader.PlainKeysAreAnswered | src/lib/loaders/batchLoader.ts:107-131 | for every list of keys with plain names and values, duplicates allowed, position i gets what a lone lookup of key i gives |
| BatchLoader.DealBoth | src/lib/loaders/batchLoader.ts:107-131 | two batches dealt one after the other, from replies of which any may be the same arrays: the first is dealt as if nothing were shared; the second gets, of a shared array, what the first left, in reverse |
| BatchLoader.LeftoversComeLastFirst | src/lib/loaders/batchLoader.ts:122-130 | with one group each, the second batch gets the entries behind those of the first, the last entry first, then `undefined` |
| BatchLoader.BothBatchesAreRightExactly | src/lib/loaders/batchLoader.ts:190-209 | with a `multipleLoader` that hands out the same promise for the same call, two batches answer every key as a lone lookup for every backend, if and only if each would on its own and they make no call of it in common |
| LoaderRuns.CacheKeysCollide | src/lib/loaders/batchLoader.ts:26-32 | two different keys share a cache key if and only if one is a bare id that reads as the JSON text of the other |
| LoaderRuns.RunIsSound | src/lib/loaders/batchLoader.ts:106-136 | over every run, whatever the keys: a promise waits if and only if it is pending exactly once, chunks have 1 to 20 keys, the cache remembers the one unbroken promise of each cache key and no broken one |
| LoaderRuns.RunKeeps | src/lib/loaders/batchLoader.ts:106-183 | over every run of calls, dispatches and settled or failed chunks, with keys that are not confused: settled promises hold lone lookups, and all that `RunIsSound` says |
| LoaderRuns.EveryCallIsAnsweredAlone | src/lib/loaders/batchLoader.ts:144-182 | over every run, a call whose promises have settled holds the lone lookups of its ids in the requested order, given that keys with one serialization have the same parameters and keys with one cache key are for the same lookup |
| LoaderRuns.CallsAreAnsweredAloneExactly | src/lib/loaders/batchLoader.ts:26-43 | calls for a set of keys are answered so over every run and for every backend, if and only if the set has these two properties |
| LoaderRuns.PlainKeysAreUnconfusing | src/lib/loaders/batchLoader.ts:26-43 | sets of keys with plain names and values have them, if the JSON text is injective and no bare id reads as another key's |
| LoaderRuns.ListsDropNulls | src/lib/loaders/batchLoader.ts:157-178 | with a backend of values and `null`, a string id gets its entity and a list of any length gets its ids' entities in order without the nulls |
| LoaderRuns.ListsFollowOneRuleExactly | src/lib/loaders/batchLoader.ts:157-172 | over every run, a list of ids is answered by the rule for longer lists, if and only if it is no list of one id whose entity is `undefined` |
| LoaderRuns.SettlesOnce | src/lib/loaders/batchLoader.ts:106-136 | no step changes a promise that has settled or broken |
| LoaderRuns.OnePromisePerCacheKey | src/lib/loaders/batchLoader.ts:26-32 | of two promises with one cache key at least one is broken: nothing is fetched twice unless it failed |
| LoaderRuns.NothingWaitsExactly | src/lib/loaders/batchLoader.ts:132-135 | over every run, no promise waits if and only if nothing is queued or in flight |
| LoaderRuns.NothingIsLost | src/lib/loaders/batchLoader.ts:132-135 | from every state of a run, one dispatch and the end of all chunks, in any order and successful or not, leave no promise waiting |
| LoaderRuns.PromisesEndExactly | src/lib/loaders/batchLoader.ts:106-136 | over every run, a promise is settled if and only if a chunk that held it ended successfully, and broken if and only if one failed |
| LoaderRuns.CallsSettleExactly | src/lib/loaders/batchLoader.ts:144-182 | once nothing is queued or in flight, a call has all its results if and only if no chunk with one of its promises failed; in a run without failures every call has |
| LoaderRuns.BrokenIsAskedAgain | src/lib/loaders/batchLoader.ts:132-136 | over every run, a call is handed no broken promise: each of its keys gets the promise that waits or is settled, and a new one exactly where there is none |
| LoaderRuns.ChunksAreFull | src/lib/loaders/batchLoader.ts:132-135 | a dispatch cuts the queue into chunks of 20, but for the last |
| LoaderRuns.WithoutKeepsOrder | src/lib/loaders/batchLoader.ts:157-178 | dropping results keeps the others, each judged for itself, in their order |
| LoaderPairs.PairRunKeeps | src/lib/loaders/batchLoader.ts:190-209 | over every run of two loaders on one remembering `multipleLoader`, with keys that share nothing: both sides keep the invariant of a loader of its own, and every array that has been dealt from belongs to a call whose first key one side has settled |
| LoaderPairs.PairsAnswerAloneExactly | src/lib/loaders/batchLoader.ts:190-209 | every call of every run of both loaders is answered alone, for every backend, if and only if the keys of each are unconfusing and the two have at most one key in common, a bare id that one of them asks its single loader for |
| LoaderPairs.PairPromisesEndExactly | src/lib/loaders/batchLoader.ts:190-209 | over every run of both loaders, a promise of either is settled if and only if a chunk that held it ended successfully, and broken if and only if one failed |
| LoaderPairs.PairCallsSettleExactly | src/lib/loaders/batchLoader.ts:190-209 | once nothing of a side is queued or in flight, a call of that side has all its results if and only if no chunk with one of its promises failed |
| LoaderPairs.PairAsksAgain | src/lib/loaders/batchLoader.ts:190-209 | over every run of both loaders, no call is handed a broken promise |
| SaleArtworks.GroupByParams | src/lib/loaders/batchSaleArtworkLoader.ts:6-21 | the dictionary has the sales asked for in first-seen order, each with its artwork ids, none twice |
| SaleArtworks.Batch | src/lib/loaders/batchSaleArtworkLoader.ts:28-65 | one request a sale, with all its ids; each key's result depends only on the reply for its own sale |
| SaleArtworks.BatchedIsAloneExactly | src/lib/loaders/batchSaleArtworkLoader.ts:51-67 | every key of every batch of at most 20 gets what it would get in a batch of its own, if and only if the endpoint, asked for at most 20 ids, says the same of an artwork whatever else it is asked for |
| SaleArtworks.CataloguesAreConsistent | src/lib/loaders/batchSaleArtworkLoader.ts:32-37 | a page of as many entries as ids is enough: filtered catalogues in which no id names two entries are such endpoints |
| SaleArtworks.BatchingIsUnseenExactly | src/lib/loaders/loaders_without_authentication/gravity.ts:304-310 | a key gets the same with and without batching if and only if it does not ask for an artwork of the sale by a slug; if it does, the unbatched loader has the sale artwork and the batch has not |
| SaleArtworks.KeyStringsCollideExactly | src/lib/loaders/batchSaleArtworkLoader.ts:71-73 | two pairs share a cache string if and only if they are equal, or one artwork id goes on from the other with a hyphen and a rest, and the other's sale id is that rest, a hyphen and the first's sale id |
| SaleArtworks.KeyStringsDiffer | src/lib/loaders/batchSaleArtworkLoader.ts:71-73 | without hyphens in artwork ids, different pairs have different cache strings |
| SaleArtworks.HyphensConfuse | src/lib/loaders/batchSaleArtworkLoader.ts:71-73 | for every hyphenated artwork id there is another pair with the same cache string |
| SaleArtworks.PromiseCache.Load | src/lib/loaders/batchSaleArtworkLoader.ts:71-85 | a call gets the promise first dispatched for its string; with no hyphens that is the promise of its own pair, dispatched once |
| SaleArtworks.CallsAreAnsweredAloneExactly | src/lib/loaders/batchSaleArtworkLoader.ts:23-86 | over every run of wrapper calls and dispatches in batches of at most 20, on every such endpoint, each call gets what a lone lookup of its own key gives, if and only if no artwork id of the keys asked for goes on from another's so that they share a cache string |
| Words.ImulInverse | src/lib/shuffle.ts:12-18 | multiplying by a constant modulo 2^32 is undone by multiplying by its inverse |
| Hashing.Xmur3.constructor | src/lib/shuffle.ts:8-14 | the loop folds the whole string into the hash |
| Hashing.Xmur3.Next | src/lib/shuffle.ts:16-20 | a draw replaces the hash by its output step and returns it |
| Hashing.OutputIsBijective | src/lib/shuffle.ts:16-20 | the output step is a bijection on 32-bit words, with an explicit inverse on both sides |
| Hashing.AbsorbUnitInjective | src/lib/shuffle.ts:11-14 | two rounds that end alike started from the same hash if and only if they read the same code unit |
| Hashing.OneUnitChangesSeed | src/lib/shuffle.ts:8-21 | strings that differ in exactly one code unit never give the same seed, at any draw |
| Hashing.SeedIs | src/lib/shuffle.ts:8-21 | for every string, the loop and any number of draws written in JavaScript's operators (signed results of `^`, `\|`, `<<` and `Math.imul`, `>>>` without sign, as the ECMAScript language specification defines them on bits) give the 32-bit words the other lemmas speak of |
| Hashing.DrawIs | src/lib/shuffle.ts:26-35 | the same for `mulberry32`: for every counter, with the sum of `t` and a product left unwrapped until `^` takes it, the word drawn is the mixed low 32 bits |
| Hashing.Mulberry32.Next | src/lib/shuffle.ts:26-35 | a draw advances the rounded double counter and returns the word that JavaScript's operators compute from it |
| ShuffleReferences.XmurReference | src/lib/__tests__/shuffle.test.ts:6-9 | the first draw for `hello world` is 2225606010 |
| ShuffleReferences.MulberryReference | src/lib/__tests__/shuffle.test.ts:20-24 | the generator seeded with 1 first draws 0.6270739405881613 and then 0.002735721180215478, that is, 2693262067 and 11749833 over 2^32 |
| Doubles.RoundedIsNearest | src/lib/shuffle.ts:28 | the sum of the counter is rounded as doubles are: to a number with a 53-bit significand, none is nearer, and of two as near to the one with an even significand |
| Hashing.CounterWraps | src/lib/shuffle.ts:26-29 | while seed + n steps stays below 2^53 the counter is that of the wrapping 32-bit generator |
| Hashing.CounterWrapsExactly | src/lib/shuffle.ts:26-29 | the counter agrees with the wrapping one in all draws up to the n-th, if and only if the n-th sum is below 2^53, or is the first to reach it and even: the next odd sum is no double |
| Hashing.StatesAreDistinct | src/lib/shuffle.ts:26-29 | no two draws below 2^53 start from the same 32-bit state |
| Shuffle.IndexIsFloor | src/lib/shuffle.ts:53 | the index drawn is the floor of the word times m over 2^32 |
| Shuffle.Choices | src/lib/shuffle.ts:52-53 | every index drawn lies below the m it is drawn for |
| Shuffle.FirstPlaced | src/lib/shuffle.ts:52-57 | each step puts the element at the index drawn in the last place left |
| Shuffle.ArrangeIsPermutation | src/lib/shuffle.ts:45-60 | the loop permutes its input |
| Shuffle.ArrangeIsInjective | src/lib/shuffle.ts:52-57 | on distinct elements different in-range choices give different arrangements |
| Shuffle.ArrangeIsSurjective | src/lib/shuffle.ts:52-57 | every permutation arises from in-range choices |
| Shuffle.ShuffleIsBijection | src/lib/shuffle.ts:45-60 | on distinct elements an arrangement is a permutation if and only if it arises, and then from one sequence of choices |
| Shuffle.SeededShuffle.Shuffle | src/lib/shuffle.ts:41-63 | the in-place loop on a fresh copy yields the arrangement of the generator's choices, a permutation, leaves the input alone and draws once an element |
| Increments.BidIncrements | src/schema/v2/sale_artwork.ts:38-72 | the loop ends and returns the minimum followed by the first 99 grid prices above it and at most the limit; a missing strategy and an empty table fail; the cached table is not modified |
| Increments.OffersAreTheGrid | src/schema/v2/sale_artwork.ts:61-70 | the offers are exactly the grid prices in the window, each once, increasing |
| Increments.BidsMeetTheirStatement | src/schema/v2/sale_artwork.ts:61-71 | the list starts with the minimum, increases strictly, has at most 100 entries, all others on the grid and within the limit, and skips none it has room for |
| Increments.BidListIsUnique | src/schema/v2/sale_artwork.ts:61-71 | that statement determines the list |
| Increments.FrontTierIsRight | src/schema/v2/sale_artwork.ts:61-70 | at every step the tier in front is the one whose range holds the current price, if and only if every tier but the last is entered within its range |
| Increments.ExitIsJustAbove | src/schema/v2/sale_artwork.ts:67-69 | a tier entered within its range is left by less than or exactly one raise above it |
| Increments.WideTiersAreEntered | src/schema/v2/sale_artwork.ts:67-69 | it is enough that no raise exceeds the next tier's width |
| Increments.NarrowTierIsOverrun | src/schema/v2/sale_artwork.ts:67-69 | a table where dropping one tier a step leaves the wrong one in front |
| Increments.Resolve | src/schema/v2/sale_artwork.ts:228-274 | a leader gets the grid prices above their own maximum without it, anyone else the list from the next minimum bid |
| Selections.FieldVisitor.Visit | src/lib/hasFieldSelection.ts:23-54 | the visitor ends on acyclic fragments and sets `matched` exactly when a matching field other than `__typename` stands directly in the node's selection set or that of a fragment reached through entered spreads; breaking off and skipping lose nothing |
| SelectionAddresses.EnteredExactly | src/lib/hasFieldSelection.ts:28-52 | the spreads the visitor enters below a node are those to which only inline fragments lead, but for the first node on the way, which may be a field |
| Selections.HasFieldSelection | src/lib/hasFieldSelection.ts:14-58 | true exactly when there are no field nodes to look at or some root node selects a match |
| Selections.HasIntersectionWithSelectionSet | src/lib/hasFieldSelection.ts:60-67 | the same, for the names listed |
| Selections.IncludesFieldsOtherThanSelectionSet | src/lib/hasFieldSelection.ts:69-77 | the same, for all names but those listed |
| Selections.InliningASpread | src/lib/hasFieldSelection.ts:48-51 | writing out a fragment in place of a spread that stands directly in a selection set changes no answer |
| Selections.RequestsAreAnsweredExactly | src/lib/hasFieldSelection.ts:28-52 | for every valid request with straight fragments and whatever is looked for, the answer is whether GraphQL takes the field to be asked for, if and only if the selection set is straight: every field in its inline fragments stands outside them too, and every spread entered below a field is also spread by the set itself |
| Selections.DocumentIsAnsweredExactly | src/lib/hasFieldSelection.ts:23-57 | for any one document and selection set: no field asked for is missed, whatever is looked for, if and only if all own fields stand where the visitor looks; and none is made up if and only if all fields that stand there are own ones |
| Selections.InlineFragmentsHideFields | src/lib/hasFieldSelection.ts:28-32 | of an inline fragment only the spreads below it are looked into |
| Selections.NestedSpreadsLeak | src/lib/hasFieldSelection.ts:48-51 | a spread one level down counts as if it stood in the root's own selection set |
| DirectiveOccurrences.DocumentPathsLeadToOccurrences | src/directives/optionalField/getOptionalFieldsDirectivePaths.ts:8-24 | the full paths lead, by the keys of the response (of every field its alias, or its name if it has none), to the occurrences of the directive: to each one, in document order |
| DirectiveOccurrences.PrincipalPathLeadsToTheFirst | src/directives/principalField/getPrincipalFieldDirectivePath.ts:7-22 | the path of the principal field leads by those keys to the occurrence before all others in the document, and is empty if there is none |
| DirectivePaths.GetPrincipalFieldDirectivePath | src/directives/principalField/getPrincipalFieldDirectivePath.ts:3-26 | the visitor, with its pushes and pops and its break, returns the first of the document's full paths, and none where there is none; where these lead is said below |
| DirectivePaths.GetOptionalFieldsDirectivePaths | src/directives/optionalField/getOptionalFieldsDirectivePaths.ts:3-27 | the visitor, with its pushes, pops and resets, returns one path for each occurrence, each a suffix of the full path, and all of them full if and only if no top-level field holds two occurrences |
| DirectivePaths.RecordTracks | src/directives/optionalField/getOptionalFieldsDirectivePaths.ts:8-24 | anywhere in a document: one recorded path for each full one, a suffix of it; the first is full if nothing was lost before; all later ones below a field lack some of the chain |
| DirectivePaths.RecordedAreSuffixes | src/directives/optionalField/getOptionalFieldsDirectivePaths.ts:8-26 | for every document the recorded paths are suffixes of the full ones, in order, and the first is full |
| DirectivePaths.CollectorIsFaithfulExactly | src/directives/optionalField/getOptionalFieldsDirectivePaths.ts:18-23 | the recorded paths are the full paths if and only if no top-level field holds two occurrences of the directive |
| DirectivePaths.RecordedAreNotEmpty | src/directives/optionalField/getOptionalFieldsDirectivePaths.ts:9-23 | with the directive on fields only and at most once on each, no recorded path is empty |
| DirectivePaths.SecondOptionalFieldLosesItsRoot | src/directives/optionalField/getOptionalFieldsDirectivePaths.ts:18-23 | two optional fields below one root: the second path comes out without the root |
| CacheRuns.StampEach | src/lib/cache.ts:135-138 | the in-place loop stamps every object, leaves the rest, and throws exactly when an item is a truthy scalar |
| CacheRuns.StampingKeepsData | src/lib/cache.ts:132-141 | stamping changes nothing but the stamps of objects, which all say when, and keeps the shape |
| CacheRuns.StoreKeysCollide | src/lib/loaders/api/loader_without_authentication_factory.ts:107-109 | different requests share an entry if and only if one asks for headers and the other's key is its key followed by `::headers` |
| CacheRuns.RunKeeps | src/lib/loaders/api/loader_without_authentication_factory.ts:98-162 | over every run, all entries, all writes on their way and all answers of caching loads are, but for the stamp, earlier successful replies to caching loads with that store key; what a load that skips the cache ends with is the reply to its own call |
| CacheRuns.LoadsAreAnsweredRightExactly | src/lib/loaders/api/loader_without_authentication_factory.ts:104-162 | over every run for a set of keys, no caching load sees a reply to a load that skips the cache, to another key or of another shape, and a load that skips it sees its own reply, if and only if no key of the set is another followed by `::headers` |
| CacheRuns.NothingIsStored | src/lib/loaders/api/loader_without_authentication_factory.ts:116-131 | a run in which every reply went to a load that skips the cache, or could not be stamped, leaves the store and the pending writes empty, whatever calls failed |
| CacheRuns.LoadsFailExactly | src/lib/loaders/api/loader_without_authentication_factory.ts:98-160 | over every run, a load fails if and only if its call failed, or it is a caching load without headers and the API answered `null`, a scalar or a list with a truthy scalar |
| CacheAnswers.LoadsAreTheStarted | src/lib/loaders/api/loader_without_authentication_factory.ts:46-56 | over every run, the loads are those started, in order, each with its own request |
| CacheAnswers.LoadsReadExactly | src/lib/loaders/api/loader_without_authentication_factory.ts:132-137 | over every run, a load waits for the cache if and only if it started as a caching one and its read has not ended |
| CacheAnswers.LoadsCallExactly | src/lib/loaders/api/loader_without_authentication_factory.ts:116-162 | over every run, a load's call is under way if and only if it has begun (at the start, or when the read failed or found nothing) and neither a reply nor a failure has come since |
| CacheAnswers.CallsEndWithTheirReply | src/lib/loaders/api/loader_without_authentication_factory.ts:123-161 | over every run, the reply to a call under way ends its load for good: as it came for a load that skips the cache, stamped when it came for another, failed when it takes no stamp; a caching load's data is then queued to be written under its store key, and nothing else |
| CacheAnswers.CallsEndWithTheirFailure | src/lib/loaders/api/loader_without_authentication_factory.ts:98-102 | over every run, the failure of a call under way ends its load for good |
| CacheAnswers.RepliedLoadsHaveEnded | src/lib/loaders/api/loader_without_authentication_factory.ts:98-131 | over every run, every load that the API has answered has ended, with that reply if it skips the cache, and was answered once |
| CacheAnswers.StoreHoldsExactly | src/lib/cache.ts:132-170 | over every run, the store holds data under a key if and only if a write of it there was stored, and no expiry of the key and no other write to it since |
| CacheAnswers.LoadsAreServedExactly | src/lib/loaders/api/loader_without_authentication_factory.ts:132-144 | over every run, a load whose read is delivered ends with given data, for good and without a call, if and only if a write of that data was stored under its store key and not replaced since; when there is nothing, its call begins |
| CacheAnswers.StoredRepliesAreServed | src/lib/loaders/api/loader_without_authentication_factory.ts:104-162 | over every run, once a caching load's reply is stored and until it is replaced, every load of the same store key whose read is delivered ends with that reply, stamped when it came, and makes no call |
| CacheAnswers.WritesAreConserved | src/lib/loaders/api/loader_without_authentication_factory.ts:111-114 | over every run, each write queued by a reply has ended once or is on its way, and there are no others |
| Races.FirstEventDecides | src/lib/cache.ts:88-126 | over every interleaving the cache read settles with the timeout, the reply, or the inflation of a compressed reply, whichever comes first |
| Races.LateEventsAreIgnored | src/lib/loaders/helpers.ts:17-44 | once settled, whatever else happens changes nothing |
| Races.Await | src/lib/loaders/helpers.ts:10-54 | the promise and its handlers, driven over any schedule of events, end up settled with the first of timeout, reply and inflation |
| Races.RateLimiterMiddleware | src/lib/rateLimiter.ts:14-62 | the middleware and its handlers, driven over any schedule: `next` is called once, unless the first event is a hit limit or none comes; a 429 is sent once if a hit limit is reported |
| Races.FirstVerdictDecides | src/lib/rateLimiter.ts:14-62 | over every interleaving `next` is called once if the first event is not a hit limit, and never if it is |
| Races.HitsAreAnswered | src/lib/rateLimiter.ts:31-34 | a 429 is sent exactly when a hit limit is reported, be it too late |
| Races.LateHitAnswersTwice | src/lib/rateLimiter.ts:17-61 | a request both goes on and gets a 429 if and only if the timer comes first and a hit limit is reported after all |
| AllPages.AllViaLoader | src/lib/all.ts:19-41 | the calls it makes are one for the count, then pages 1, 2, … of the given size, as many as cover the count and no more |
| AllPages.AllPagesAreReturned | src/lib/all.ts:26-41 | for every announced count what it returns are the first pages in order, and the whole collection if and only if those pages cover it, as with the true count |
| Fair.ExhibitorsGroupedByName | src/schema/v2/fair.ts:415-506 | fetching, sorting, filling the dictionary and rearranging the special group yield the groups that the lemmas below speak of, with every exhibitor of the fetched pages in them as often as it is listed |
| Fair.GroupingConserves | src/schema/v2/fair.ts:440-473 | the groups hold every exhibitor as often as the API lists it, whatever the initials |
| Fair.ExhibitorsAreWellGrouped | src/schema/v2/fair.ts:433-505 | whatever the initials: groups come in the order of `indexOf` in the alphabet and `#`, no letter twice, each with exactly its letter's exhibitors in name order, under `#` those starting with a digit last |
| Fair.GroupsAscendExactly | src/schema/v2/fair.ts:494-502 | no two groups have the same such index if and only if different initials have different ones |
| Fair.GroupsAreAlphabeticalExactly | src/schema/v2/fair.ts:443-502 | every group is for one character A to Z or `#`, the letters ascend and `#` comes last, if and only if every initial is one character A to Z or has one that is no letter |
| Fair.ExhibitorsAreTheirPartners | src/schema/v2/fair.ts:443-472 | every exhibitor returned has the name, id, partner id and first show id, if any, of a partner of the fair, and stands under that partner's initial, or `#` when that has a character that is no letter; every partner has one |
| Fair.AlikeNamesKeepOrder | src/schema/v2/fair.ts:433-492 | in every group returned, exhibitors whose names compare alike keep the order of the API, under `#` those with a digit in front and the others each for themselves |
| PartnerOffers.StampPartnerOfferPurchases | src/schema/v2/partnerOfferToCollector.ts:28-62 | with a loader and ids every offer is stamped with whether the one reply mentions it, all with false when the request fails, those without an id always; else no offer is touched |
| PartnerOffers.IdsInOrder | src/schema/v2/partnerOfferToCollector.ts:30-34 | the ids asked for are those of the single offers, in their order |
| PartnerOffers.IdOfOne | src/schema/v2/partnerOfferToCollector.ts:34 | a missing id and an empty one are left out |
| PartnerOffers.IsPurchased | src/schema/v2/partnerOfferToCollector.ts:90-113 | a stamp is final; an offer without one is purchased if and only if it has an id and the request for it succeeds with an order; with an order service, if and only if some order of the collector mentions it |
| PartnerOffers.ResolvePage | src/schema/v2/me/index.ts:560-575 | a page stamped and then resolved node by node: with an order service that has no more matching orders than there are ids, every node answers as it would without its stamp |
| PartnerOffers.BatchAgreesExactly | src/schema/v2/partnerOfferToCollector.ts:35-56 | stamps and single lookups agree on all ids for all orders of which at most n match, if and only if n is at most the number of ids, or all ids are the same |
| PartnerOffers.RepeatPurchasesHideAnother | src/schema/v2/partnerOfferToCollector.ts:36-40 | as many orders for one offer as there are ids push an order for another off the page, and its offer is stamped as not purchased |

## Left out

- HTTP clients, memcached, compression, tracing, logging and the express and yoga set-up: only the replies and events they produce are modelled.
- `batchLoader` with batching disabled, keys without ids (handed straight to `multipleLoader`) and keys of other types (which throw): no state is involved.
- Parameter values that are not strings: `null`, `undefined` and the empty string serialize alike, as do a list and its comma-joined text.
- DataLoader's memory of calls within one request in front of the caching loader, but for the arrays it makes two batches share; and two APIs that use the same path key in the one store.
- CacheRuns.RunKeeps: the store, the loads and their data are values moved by events, so that any number of concurrent loads can interleave; that the data returned on a miss is the very object that was stamped is not captured, its stamped value is.
- SaleArtworks.CallsAreAnsweredAloneExactly: the batches of a dispatch are answered at once, because the endpoint is a function and no batch looks at another's end.
- LoaderRuns.RunKeeps: DataLoader's promises, cache and queue are values too, for the same reason; the arrays that the batch function reverses and pops are objects in `BatchLoader`.
- Races: the deadline lengths, and a reply callback that is invoked twice.
- Hashing.Mulberry32.Next: the statistical quality of the words drawn is no property of the model.
- Increments.BidIncrements: does not model a minimum that is missing, because a leader without a recorded maximum would compare prices with `undefined`.
- SaleArtworks.GroupByParams: does not model sale ids that are names of built-in object properties, such as `constructor`, nor that `Object.entries` puts ids that read as array indices first, in ascending order; that changes the order of the requests only.
- Fair.ExhibitorsGroupedByName: sorts a list value where the source sorts its freshly flattened array in place.
- Selections: `parseConnectionArgsFromConnection` and `isSkipped`, which read arguments and directives on the same walk.
- `isFieldRequested`: plain recursion over a parsed tree, which would only add an easy member.
- GraphQL type, mutation and connection declarations, schema stitching, pagination, dates and money formatting.
