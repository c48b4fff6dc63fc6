# Verified model of varco's examples and release scripts

This project models, in Dafny 4.11, the parts of the varco workspace that carry real logic, and proves
properties of them for every input, every run or every reachable state.

- **Product caching** (`examples/12`, `examples/13`, `varco_core/cache`). A cache sits in front of an
  authoritative store; reads populate it, writes invalidate it. `LookAside` (one Redis tier) and
  `Layered` (in-process L1, Memcached L2, promotion) are step systems in which the steps of concurrent
  requests interleave freely, the cache drops entries at will and time passes. `Catalog` is the same
  service one request at a time, as classes. `LookAsideRuns` and `LayeredRuns` exhibit particular runs.
  `ProductService` is the service of `examples/13` without a cache, `StoreHistory` the history of the store
  that the step systems refer to.
- **Documents with owners and grants** (`examples/06`, `varco_core/service/base.py`). `Documents` is the
  service and its repository, `NonInterference` what one caller can learn about another.
- **Query pipeline** (`examples/11`, `varco_core/query`). `Values` and `Filter` are the filter AST, the
  visitor that compiles it and the optimiser that rewrites it; `Sort` the multi-key in-place sort;
  `SortDirective` the `sort` parameter; `Paging` and `Listing` the endpoint.
- **Lockstep version bump** (`scripts/bump.py`). `Strings`, `Versions`, `Requirements`, `Bump`.
- **API snapshot diff** (`scripts/api_surface.py`) in `ApiSurface`, and the insertion-ordered product
  repository with partial updates (`examples/01`) in `ProductRepository`.

`dafny verify dfyconfig.toml` checks everything.

## Main results

1. In every interleaving of reads and writes a cached value that differs from the store's has one of two
   causes, an outstanding delete or a read that fetched before a save and wrote after it
   (`LookAside.StaleEntryHasCause`, and per tier `Layered.StaleEntryHasCause`). The race is real
   (`LookAsideRuns.RaceLeavesStaleEntry`), and once nothing older is in flight an invalidation is final
   (`InvalidationSticks`). With two tiers and nothing older in flight it is final if the slow tier is cleared
   first (`Layered.SlowTierFirstSticks`); clearing the fast tier first, as the cache does without a backplane,
   lets a read between the two deletes revive the old value (`LayeredRuns.FastTierFirstRevives`).
2. Every request is answered as a service without cache would have answered it at a version current between
   its arrival and its answer, writes at their arrival, except reads that hit (`RepliesWereTrue`). How
   old the answer of a hit can be is determined exactly. Let w bound the time from a fetch to each set of it
   and from an L2 read to the L1 copy. With one tier the worst age is ttl + w - 1. With two tiers there is a
   bound if and only if the ttl is positive, and then the worst age is ttl + promote + 2w - 1, or ttl where
   promote and w are 0 (`LookAsideRuns.WorstAgeExactly`, `LayeredRuns.WorstAgeExactly`).
3. Run one request at a time, the cached service is indistinguishable from the store alone
   (`Catalog.Service.Serve`).
4. Two-run non-interference: a caller's responses to create, read, update and delete calls depend on nothing
   but that caller's own documents and requests, as long as no admin overrides ownership
   (`NonInterference.SameViewSameResponses`), and owners never change (`Documents.OwnerIsCreator`, `Documents.DisappearanceIsAuthorized`).
5. The sequence of stable passes, last directive first, is the one and only stable lexicographic sort, and
   it commutes with filtering (`Sort.PassesAreOneStableSort`, `Sort.SortCommutesWithFilter`). What the endpoint
   answers is stated in the catalogue's own terms (`Listing.ListedMeans`).
6. The optimiser preserves outcome, raising included, and the leaves looked at
   (`Filter.OptimizePreservesMeaning`); the normal form it is documented to produce is reached exactly on
   a stated class of inputs (`Filter.RightLeaningExactly`), and the number of passes that any other input needs
   is given exactly (`Filter.PassesNeededExactly`).
7. Setting any version makes the coherence check pass; when the check passes and the rewriter would still
   write, when the last version set wins, when a run of bumps changes no requirement string, and which
   versions a published requirement accepts, are each characterised exactly
   (`Bump.CheckedMeansSettledExactly`, `Bump.LastVersionWinsExactly`, `Bump.BumpRunStands`,
   `Bump.PublishedPinsExactly`).

## Where code and documentation disagree

The model follows the code.

- `varco_core/varco_core/query/visitor/query_optimizer.py:9-10` promises a right-leaning AND chain. One
  pass does not deliver it when an AND has more than two conjuncts on its left: see
  `Filter.LeftChainOfFour` and `Filter.RightLeaningExactly`.
- `examples/12-cache-look-aside-redis/cache_layer.py:167-169` says that invalidating a tag evicts the entry
  on the next read. `RedisCache.get` consults the strategy with empty metadata, so tags have no effect and
  only the delete counts: `LookAside.TagInvalidationIsInert`.
- `examples/13-layered-cache-memcached/cache_layer.py:48-49` and `75-77` speak of a 30 s L1. A write-through
  set passes the layer's 300 s default to both tiers; only promoted copies get 30 s. L1 keeps to the
  promotion ttl exactly when the default is no longer: `LayeredRuns.L1LifetimeExactly`, with the failing run
  in `LayeredRuns.L1ServesForTtl`.
- `examples/13-layered-cache-memcached/router.py:78` says the cache is warmed on create so that the first GET
  is a hit; the code invalidates, and the first GET is a miss: `Catalog.Service.CreateThenRead`.
- `examples/06-grant-based-authz/service.py:247-249` says a document without owner is hidden from every
  non-admin. It is visible to an anonymous caller (whom the app never lets through):
  `NonInterference.OwnerlessHiddenExactly`.
- `examples/11-query-filtering/router.py:141-143` says an unknown sort field reads as `None`; the lookup
  raises, unless there is nothing to sort: `Sort.ApplySort`.
- `scripts/bump.py:22` describes the check as covering every shipped sibling requirement. It records one
  requirement per sibling and file, the last: `Bump.CheckedMeansSettledExactly`,
  `Bump.ShadowedRequirementPasses`. The remark at `scripts/bump.py:48-49`
  that minor bumps change no requirement holds exactly when nothing is hidden in this way and the major
  number is written without leading zeros: `Bump.BumpOnce`, with failing inputs in
  `Bump.ShadowedRequirementIsRewritten` and `Bump.LeadingZeroIsRewritten`.

## Model

| member | source | states |
|---|---|---|
| `LookAside.InvStep` | examples/12-cache-look-aside-redis/router.py:82-156 | every step of every handler keeps the cache invariant: each entry came from a recorded store version, and each later write of its key still has a delete to execute |
| `LookAside.StaleEntryHasCause` | examples/12-cache-look-aside-redis/cache_layer.py:139-183 | in every reachable state a stale entry has an outstanding delete of a later save, or was written by a read that fetched before a save and set after it |
| `LookAside.CachedValuesWereStored` | examples/12-cache-look-aside-redis/cache_layer.py:150-158 | no cached value was ever absent from the store's history for its key |
| `LookAside.BoundedStaleness` | examples/12-cache-look-aside-redis/cache_layer.py:139-161 | if each set follows its fetch within w, what a read finds in the cache, and is answered with, is what the store held less than ttl + w before the read found it |
| `LookAside.InvalidationSticks` | examples/12-cache-look-aside-redis/cache_layer.py:163-184 | once nothing cached or in flight predates a version, no continuation of the run brings anything older back, and no read that starts later finds it or is answered with it |
| `LookAside.DeleteLeavesNoneOlder` | examples/12-cache-look-aside-redis/router.py:154-156 | an update's delete establishes that state for its own version exactly when no read with an older value is in flight |
| `LookAsideRuns.RaceLeavesStaleEntry` | examples/12-cache-look-aside-redis/cache_layer.py:150-158 | for every product, every real update and every delay w there is a run that ends, all requests answered, with the old product cached |
| `LookAsideRuns.StaleUntilExpiry` | examples/12-cache-look-aside-redis/cache_layer.py:139-145 | after that run every read until the entry expires is answered with the old product |
| `LookAsideRuns.WorstAgeExactly` | examples/12-cache-look-aside-redis/cache_layer.py:139-161 | no read is ever answered with anything more than b old, if and only if b is at least ttl + w - 1 or the ttl is 0 |
| `LookAside.CountersCount` | examples/12-cache-look-aside-redis/cache_layer.py:141-147 | in every reachable state hits is the number of requests answered from the cache and misses the number of reads that went on to the store |
| `LookAside.RepliesWereTrue` | examples/12-cache-look-aside-redis/router.py:82-162 | each request is answered as a store-only service would at a version current between its arrival and its answer (a write at its arrival, its own version being the next), or is a read served by an unexpired entry found since its arrival |
| `LookAside.WritesWereDone` | examples/12-cache-look-aside-redis/router.py:90-156 | in every reachable state an answered update took each given field and kept the others as they were on its arrival, an answered create stored its product, each as the next version and nothing else in it; a refusal fits what the store held on arrival |
| `LookAside.StepTouchesOneKey` | examples/12-cache-look-aside-redis/cache_layer.py:150-183 | a set puts what its read fetched under its key, a delete takes that key's entry away, and no step touches another entry |
| `LookAside.StepHistory` | examples/12-cache-look-aside-redis/store.py:56-63 | only a request that saves on arrival adds a version, with that product under its own id and all else the same |
| `LookAside.NothingIsStuck` | examples/12-cache-look-aside-redis/router.py:82-162 | at any moment time may pass, any entry may be lost, any request may come in, and every unanswered request can go on |
| `LookAside.TagInvalidationIsInert` | varco_redis/varco_redis/cache.py:244-252 | what a get finds does not depend on which tags are invalidated |
| `Layered.InvStep` | examples/13-layered-cache-memcached/router.py:62-136 | every step, each tier's part of a set, delete or promotion being its own, keeps both tiers' entries sound and covered |
| `Layered.StaleEntryHasCause` | varco_core/varco_core/cache/layered.py:364-382 | in either tier a stale entry, or one whose product is gone, has an outstanding delete in that tier or was put there past a write |
| `Layered.BoundedStaleness` | varco_core/varco_core/cache/layered.py:297-321 | a direct copy in L1 is at most ttl + w old when seen; for a positive ttl one found in L2 is less than ttl + w old, a promoted one less than ttl + promote + 2w |
| `Layered.RepliesWereTrue` | examples/13-layered-cache-memcached/router.py:62-136 | the same over two tiers with promotion and deletes |
| `Layered.StepTouchesOneKey` | varco_core/varco_core/cache/layered.py:297-382 | what each step leaves under each key of each tier: sets, promotions, deletes and expiry touch one key of one tier |
| `Layered.StepHistory` | examples/13-layered-cache-memcached/router.py:62-136 | only an accepted write adds a version, namely what the store-only service makes of the store |
| `Layered.NothingIsStuck` | examples/13-layered-cache-memcached/router.py:62-136 | the same, with the tiers' parts of a set or delete in either order |
| `Layered.CountersCount` | examples/13-layered-cache-memcached/cache_layer.py:170-185 | in every reachable state hits is the number of requests answered from a tier and misses the number of reads that went on to the store |
| `Layered.InvalidationSticks` | varco_core/varco_core/cache/layered.py:297-321 | once nothing older than a version is in a tier or in flight, no continuation brings it back and no later read finds it |
| `Layered.DeleteLeavesNoneOlder` | varco_core/varco_core/cache/layered.py:364-382 | a write's delete in one tier establishes that state exactly when the other tier and everything in flight hold nothing older |
| `Layered.SlowTierFirstSticks` | varco_core/varco_core/cache/layered.py:374-380 | if the slow tier is cleared first, with nothing older in flight, the invalidation is complete once the fast tier is cleared, whatever happens in between |
| `LayeredRuns.BoundIsReached` | examples/13-layered-cache-memcached/cache_layer.py:81-89 | for every positive ttl and all promote and w some run with no call past its deadline and all requests answered serves a promoted copy one tick short of the bound, the store having dropped the value at time 0 |
| `LayeredRuns.DirectBoundIsReached` | examples/13-layered-cache-memcached/cache_layer.py:170-185 | for every configuration some such run serves a direct L1 copy of age ttl + w |
| `LayeredRuns.ZeroTtlServesForever` | varco_memcached/varco_memcached/cache.py:353-363 | with ttl 0 some such run answers a read, at any time however late, with a product the store dropped at time 0 |
| `LayeredRuns.WorstAgeExactly` | examples/13-layered-cache-memcached/cache_layer.py:81-89 | no read is ever answered with anything more than b old, if and only if the ttl is positive and b is at least ttl + promote + 2w - 1 (ttl, where promote and w are both 0) |
| `LayeredRuns.FastTierFirstRevives` | varco_core/varco_core/cache/layered.py:381-382 | from a state with every request answered, a write that clears L1, a read, and only then the delete in L2 end with every request answered and L1 serving the old product |
| `LayeredRuns.L1ServesForTtl` | examples/13-layered-cache-memcached/cache_layer.py:184-184 | for every configuration some read is answered from an L1 copy set ttl earlier |
| `LayeredRuns.L1LifetimeExactly` | examples/13-layered-cache-memcached/cache_layer.py:48-49 | no read is ever answered from an L1 copy older than the promotion ttl, if and only if ttl <= promote |
| `Catalog.LayeredCache.Get` | varco_core/varco_core/cache/layered.py:297-321 | returns the value of the fastest tier still serving the key, for any number of tiers, and copies it to exactly the faster ones |
| `Catalog.LayeredCache.Set` | varco_core/varco_core/cache/layered.py:355-357 | write-through: every tier gets the entry with the given ttl, other keys untouched |
| `Catalog.LayeredCache.Delete` | varco_core/varco_core/cache/layered.py:381-382 | every tier loses exactly that key |
| `Catalog.PromotionIsInvisible` | varco_core/varco_core/cache/layered.py:303-319 | a second get at the same instant answers as the first, promotion or not |
| `Catalog.OneKeyOnly` | varco_core/varco_core/cache/layered.py:297-382 | setting, deleting and promoting touch one key only; a promoted copy has the found value and the promotion ttl and is in exactly the faster tiers |
| `Catalog.ServedForTtl` | varco_memcached/varco_memcached/cache.py:353-363 | an entry is served up to and including its ttl in process, short of it by Memcached, for ever with ttl 0 |
| `Catalog.CacheKeyInjective` | examples/13-layered-cache-memcached/cache_layer.py:146-148 | different products never share a cache key |
| `Catalog.Service.GetProduct` | examples/13-layered-cache-memcached/cache_layer.py:170-185 | answers with the store's product whatever the tiers hold, keeps coherence, counts a hit exactly when some tier served the key |
| `Catalog.Service.InvalidateProduct` | examples/13-layered-cache-memcached/cache_layer.py:187-195 | the product's key leaves every tier, other keys stay |
| `Catalog.InvalidationKeepsCoherent` | examples/13-layered-cache-memcached/router.py:117-119 | a write to one product followed by its invalidation leaves every remaining entry equal to the store |
| `Catalog.Service.Handle` | examples/13-layered-cache-memcached/router.py:62-136 | each request's reply and effect on the store are those of a service without cache; a read counts as a hit exactly when a tier serves the key; a write leaves its product in no tier, and no request brings in another product |
| `Catalog.Service.CreateThenRead` | examples/13-layered-cache-memcached/router.py:76-80 | after a create, any requests for other products and any losses, the first read of the product is a miss |
| `Catalog.Service.Serve` | examples/13-layered-cache-memcached/router.py:62-141 | over any run with arbitrary losses of entries all replies equal the store-only service's, and hits + misses counts the reads |
| `ProductService.ReadAfterWrite` | examples/13-layered-cache-memcached/router.py:62-136 | after a write and any requests that do not write the same product a read gives what was written, or not found after a delete; a refused write changes nothing |
| `Documents.Repository.Save` | examples/06-grant-based-authz/repo.py:119-130 | first save assigns key and creation time, every save the update time; stored under the document's key |
| `Documents.Service.CreateDocument` | varco_core/varco_core/service/base.py:1091-1114 | without grant forbidden and no effect; otherwise answers and stores the document with the given title and content, the caller as owner, the new key and both times now |
| `Documents.Service.FetchChecked` | examples/06-grant-based-authz/service.py:254-271 | missing and foreign documents are both not found, decided before grants |
| `Documents.Service.GetDocument` | varco_core/varco_core/service/base.py:767-787 | a missing or foreign document is not found, without grant forbidden, otherwise exactly the stored document; nothing changes |
| `Documents.Service.UpdateDocument` | varco_core/varco_core/service/base.py:1164-1195 | the same refusals; otherwise takes each given field, keeps each missing one, sets the update time, and answers what it stored |
| `Documents.Service.DeleteDocument` | varco_core/varco_core/service/base.py:1260-1281 | the same refusals; otherwise removes exactly that document |
| `Documents.Service.Serve` | examples/06-grant-based-authz/router.py:6-9 | a run of create, read, update and delete calls has the responses and final store of the rules applied in order |
| `Documents.StepMeans` | examples/06-grant-based-authz/assembler.py:71-133 | what each of the four requests answers and stores, field by field |
| `Documents.GrantsDecide` | varco_core/varco_core/auth/base.py:292-329 | a grant authorizes an action exactly if it lists the action and is on documents or on everything; no grants, no action |
| `Documents.CreatedReadsBack` | examples/06-grant-based-authz/assembler.py:71-74 | what a create answered is what its owner reads later, as long as nobody updates or deletes it in between |
| `Documents.RunWellFormed` | examples/06-grant-based-authz/repo.py:119-130 | over any run with a clock that does not go back, documents sit under their own key with creation no later than update, and no call fails |
| `Documents.StepKeepsOrigin` | examples/06-grant-based-authz/assembler.py:129-133 | no call changes the owner or creation time of a document that stays |
| `Documents.OriginStands` | examples/06-grant-based-authz/assembler.py:129-133 | the same over any run of calls |
| `Documents.OwnerIsCreator` | examples/06-grant-based-authz/service.py:197-224 | in every run a stored document's owner is the subject of the granted request that created it, and has been ever since |
| `Documents.DisappearanceIsAuthorized` | examples/06-grant-based-authz/service.py:226-271 | every disappearance is a delete of that document by its owner or an admin holding a delete grant |
| `NonInterference.ForeignLooksMissing` | examples/06-grant-based-authz/service.py:262-268 | another's document and a missing one give the same response and no effect |
| `NonInterference.OwnStep` | examples/06-grant-based-authz/service.py:226-271 | two stores that agree on a caller's documents give that caller's call the same response and still agree |
| `NonInterference.ForeignStep` | examples/06-grant-based-authz/service.py:254-268 | another's call leaves a user's documents alone unless it is an admin override |
| `NonInterference.SameViewSameResponses` | README.md:686-695 | two runs with the same create, read, update and delete calls of a user give that user the same responses, however others' calls differ and interleave, as long as the user is no admin and no admin updates or deletes by override |
| `NonInterference.DeleteDisturbsExactly` | examples/06-grant-based-authz/service.py:258-260 | another's delete changes a user's documents exactly when it is a granted admin delete of one of them |
| `NonInterference.UpdateDisturbsExactly` | examples/06-grant-based-authz/service.py:258-260 | another's update changes a user's documents exactly when it is a granted admin update of one of them that gives it a new time, title or content |
| `NonInterference.OwnerlessHiddenExactly` | examples/06-grant-based-authz/service.py:244-264 | a document without owner is hidden from a non-admin exactly when the caller is identified |
| `Values.NotLessIsTotalPreorder` | examples/11-query-filtering/query_visitor.py:163-173 | comparisons raise symmetrically, and where they do not "not greater" is a total preorder |
| `Values.StrLessExactly` | examples/11-query-filtering/query_visitor.py:163-173 | strings are ordered as in a dictionary: proper prefix, or smaller code point at the first difference |
| `Filter.CompiledMeaning` | examples/11-query-filtering/query_visitor.py:83-194 | a compiled predicate returns classical truth unless a leaf it reaches raises, and raises exactly at the last leaf it looks at |
| `Filter.OptimizePreservesMeaning` | varco_core/varco_core/query/visitor/query_optimizer.py:46-117 | on every object the optimised filter has the same outcome and looks at the same leaves in the same order |
| `Filter.OptimizeShape` | varco_core/varco_core/query/visitor/query_optimizer.py:99-117 | one pass leaves no double negation and keeps all comparisons in order |
| `Filter.RightLeaningExactly` | varco_core/varco_core/query/visitor/query_optimizer.py:61-84 | one pass yields right-leaning form exactly when every AND has at most two conjuncts on its left |
| `Filter.LeftChainOfFour` | varco_core/varco_core/query/visitor/query_optimizer.py:8-10 | four conjuncts chained to the left are not flattened |
| `Filter.FixedPointExactly` | varco_core/varco_core/query/visitor/query_optimizer.py:61-117 | the optimiser leaves an AST unchanged exactly when it is in normal form |
| `Filter.PassesNeededExactly` | varco_core/varco_core/query/visitor/query_optimizer.py:61-117 | k passes reach right-leaning form, and the next changes nothing, exactly when no AND has more than k + 1 conjuncts on its left |
| `Filter.EnoughPasses` | varco_core/varco_core/query/visitor/query_optimizer.py:61-117 | as many passes as there are comparisons always reach the normal form |
| `Filter.PassesPreserveMeaning` | varco_core/varco_core/query/visitor/query_optimizer.py:46-117 | any number of passes keeps outcome and visited leaves |
| `Filter.InIsAnyEqual` | examples/11-query-filtering/query_visitor.py:181-183 | IN is the OR-chain of equalities, and false on an empty list |
| `Filter.NegationDuality` | examples/11-query-filtering/query_visitor.py:157-173 | NOT(=) is !=; NOT(>) is <= and NOT(<) is >= exactly on non-null fields |
| `Filter.OrderLaws` | examples/11-query-filtering/query_visitor.py:157-173 | on a non-null field either all order tests raise, the kinds being unordered, or exactly one of <, = and > is true and <=, >= are the disjunctions |
| `Filter.NumberTests` | examples/11-query-filtering/query_visitor.py:157-173 | on numbers, booleans counting as 0 and 1, each comparison is true exactly when the arithmetic relation of its name holds |
| `Filter.StringTests` | examples/11-query-filtering/query_visitor.py:157-173 | on strings each comparison is true exactly by dictionary order |
| `Filter.NullTests` | examples/11-query-filtering/query_visitor.py:185-189 | the null tests are true and false exactly on a missing or None field, where all order tests are false |
| `Filter.ListOperandTests` | examples/11-query-filtering/query_visitor.py:157-173 | a list as right-hand side equals nothing and cannot be ordered |
| `Filter.LikeExactly` | examples/11-query-filtering/query_visitor.py:175-179 | LIKE never raises and is true exactly when the lower-cased text contains the lower-cased pattern, which is not None |
| `Sort.KnownKeysCompare` | examples/11-query-filtering/models.py:52-56 | the sort keys of products can always be compared |
| `Sort.SortPass` | examples/11-query-filtering/router.py:186-186 | one in-place pass leaves the stable sort of the list on its key |
| `Sort.ApplySort` | examples/11-query-filtering/router.py:164-187 | the list becomes the result of the passes; an unknown field raises unless the list is empty, with the passes before it done |
| `Sort.StableSortIsUnique` | examples/11-query-filtering/router.py:168-169 | two sorted lists that keep the same ties in order are equal |
| `Sort.PassesAreOneStableSort` | examples/11-query-filtering/router.py:183-187 | the passes give the lexicographic stable sort with a direction per key, a list being sorted and stable if and only if it is that one |
| `Sort.BeforeExactly` | examples/11-query-filtering/router.py:185-186 | ASC runs up and DESC runs down, numbers by size, false before true, strings by the dictionary |
| `Sort.PassesInOrder` | examples/11-query-filtering/router.py:183-187 | any two products of the result stand in the direction of the first directive on which they differ |
| `Sort.OneKeyOrder` | examples/11-query-filtering/router.py:185-186 | for each field and direction, what one directive makes of the products' own values |
| `Sort.TiedExactly` | examples/11-query-filtering/router.py:168-169 | the products whose order is kept are those alike in every field the directives name |
| `Sort.SortCommutesWithFilter` | examples/11-query-filtering/router.py:250-257 | sorting what a predicate keeps is keeping from what was sorted |
| `SortDirective.ParseSort` | examples/11-query-filtering/router.py:145-161 | the loop computes the parsed directives, blank parts skipped |
| `SortDirective.PartMeans` | examples/11-query-filtering/router.py:149-159 | white space around a part does not matter; a sign gives the direction, no sign means ascending, an empty part nothing |
| `SortDirective.UnsignedAscends` | examples/11-query-filtering/router.py:145-159 | plain field names joined by commas are those fields, ascending, in that order |
| `SortDirective.RoundTripExactly` | examples/11-query-filtering/router.py:149-159 | printing and parsing directives is the identity exactly when no field has a comma or trailing white space |
| `SortDirective.ReparseIsIdentity` | examples/11-query-filtering/router.py:125-161 | whatever was parsed survives printing and parsing |
| `Paging.PagesTile` | examples/11-query-filtering/router.py:259-263 | consecutive pages of any size tile the list, once and in order |
| `Paging.PageExactly` | examples/11-query-filtering/router.py:259-263 | length and every element of a page, for every offset and limit, none and 0 included |
| `Listing.FilterItemsMeaning` | examples/11-query-filtering/query_visitor.py:225-231 | the matching items in order, failing exactly when some item raises |
| `Listing.OptimizerKeepsResults` | examples/11-query-filtering/router.py:119-122 | optimising first changes neither the result nor whether it raises |
| `Listing.FilterOfSorted` | examples/11-query-filtering/router.py:250-257 | filtering a sorted catalogue gives the sorted filtered catalogue, errors included |
| `Listing.PresortedCatalogue` | examples/11-query-filtering/router.py:247-263 | the endpoint answers the same, page or error, over a catalogue kept sorted |
| `Listing.ListProducts` | examples/11-query-filtering/router.py:247-276 | the endpoint's code answers with the requested page of the stably sorted matches of the unoptimised filter |
| `Listing.ListedMeans` | examples/11-query-filtering/router.py:247-276 | an answer without error is the requested page of a list that holds each product the filter is true of, as often as the catalogue, and no other, in the order of the directives |
| `Listing.ListedErrors` | examples/11-query-filtering/router.py:247-257 | the answer is an error exactly when the filter raises on a product, or else products are wanted and a sort field is unknown |
| `Listing.ApplyFilterExactly` | examples/11-query-filtering/query_visitor.py:225-231 | filtering fails exactly when the filter raises on some product, and otherwise keeps exactly the products it is true of; no filter keeps all |
| `Versions.ShowRoundTrip` | scripts/bump.py:132-141 | printing a version and parsing it gives it back, its first part being the major number |
| `Versions.ParseExactly` | scripts/bump.py:81-81 | the versions are three numbers with dots between them, and possibly one newline after |
| `Versions.BumpIsNext` | scripts/bump.py:132-142 | a bump fails exactly on a text that is no version or a part that is none; otherwise it raises its own number by one, resets the ones after it and keeps the ones before, giving a higher version |
| `Versions.RunOfBumps` | scripts/bump.py:113-142 | along a run each version is higher than all before it, and any two share their major exactly when no bump between them was major |
| `Requirements.SiblingNameIsTheMatch` | scripts/bump.py:79-79 | the recognised name is the longest that lets the pattern match, and one is recognised whenever any match exists |
| `Requirements.PatternCharacters` | scripts/bump.py:79-79 | the character classes of the pattern, spelled out |
| `Requirements.PinSiblingStrings` | scripts/bump.py:159-170 | every sibling becomes its canonical pin, nothing else moves, and the flag says whether anything changed |
| `Requirements.CanonicalIsSibling` | scripts/bump.py:165-166 | a canonical pin is recognised under its own name exactly when the major text has only specifier characters |
| `Requirements.PinTwice` | scripts/bump.py:160-169 | pinning again changes nothing, and the later pin wins exactly under that condition |
| `Requirements.CanonicalAdmitsExactly` | scripts/bump.py:43-50 | read back from its text under PEP 440, a canonical requirement accepts exactly the versions of the same major number |
| `Versions.CompatibleExactly` | scripts/bump.py:43-50 | what the compatible-release clause of PEP 440 accepts for two and three numbers |
| `Bump.Document.ApplyVersion` | scripts/bump.py:189-206 | version and all shipped pins rewritten, the rest untouched, the flag exact |
| `Bump.Document.PinExtras` | scripts/bump.py:201-204 | every extra's list is pinned in place |
| `Bump.ComputeChanges` | scripts/bump.py:224-233 | exactly the files that would differ, none if and only if nothing would |
| `Bump.WriteVersion` | scripts/bump.py:254-257 | writing just those changes brings every package to the version |
| `Bump.ReadPins` | scripts/bump.py:287-296 | per sibling the last requirement read |
| `Bump.AllCanonical` | scripts/bump.py:337-347 | true exactly when every recorded requirement is its canonical pin |
| `Bump.CheckCoherence` | scripts/bump.py:314-349 | raises without packages, otherwise decides coherence at the first package's version |
| `Bump.SetVersionIsCoherent` | scripts/bump.py:236-257 | after setting any version string the check passes at it |
| `Bump.SetVersionIsIdempotent` | scripts/bump.py:244-246 | setting the same version again changes nothing |
| `Bump.LastVersionWinsExactly` | scripts/bump.py:159-206 | for any two texts, setting v and then w is setting w exactly when v's major leaves pins recognisable, or equals w's, or there are no siblings, and, where w is the text None, v is too or no version is missing |
| `Bump.ValidMajorIsSpec` | scripts/bump.py:189-189 | every parsable version is of that kind |
| `Bump.CheckedMeansSettledExactly` | scripts/bump.py:292-296 | after a passing check nothing is left to write exactly when no file names a sibling in two ways |
| `Bump.SettledExactly` | scripts/bump.py:145-257 | nothing is left to write for a version exactly when the check passes at it and no file names a sibling in two ways |
| `Bump.ShadowedRequirementPasses` | scripts/bump.py:296-296 | for every name and version a file with a bare and then a pinned requirement passes the check and would still be rewritten |
| `Bump.SetKeepsRequirementsExactly` | scripts/bump.py:189-206 | setting a version on a workspace that passes the check at another leaves all requirements alone exactly when there are no siblings, or none is named in two ways and the major texts agree |
| `Bump.BumpOnce` | scripts/bump.py:394-400 | from any coherent workspace a bump succeeds, every package then carries the text of the next version, and nothing is left to write for it; a minor or patch bump changes no requirement exactly when there are no siblings, or none is named in two ways and the major number has no leading zero |
| `Bump.BumpRunIsOneSet` | scripts/bump.py:394-414 | a run of bumps is the same as setting its last version at once |
| `Bump.BumpRunStands` | scripts/bump.py:394-414 | from any coherent workspace a run of bumps succeeds, ends coherent at the bumped version, and leaves all requirements alone exactly under that condition and without a major bump |
| `Bump.ShadowedRequirementIsRewritten` | scripts/bump.py:48-49 | for every name and version a coherent workspace with a hidden requirement, which a minor bump rewrites |
| `Bump.LeadingZeroIsRewritten` | scripts/bump.py:48-49 | for every name and version a coherent workspace with a leading zero in its version, whose pins a minor bump rewrites |
| `Bump.CheckedPinsAdmitExactly` | scripts/bump.py:337-347 | a requirement recorded by a passing check accepts exactly the versions of the workspace's major number |
| `Bump.PublishedPinsExactly` | scripts/bump.py:43-50 | along a run, every sibling requirement published after one bump accepts the version of another exactly when no bump between them was major |
| `ProductRepository.PatchesMerge` | examples/01-minimal-crud-api/assembler.py:129-135 | any sequence of partial updates is one update with their right-biased merge |
| `ProductRepository.Repository.FindById` | examples/01-minimal-crud-api/repo.py:101-103 | the product under the key, or nothing |
| `ProductRepository.Repository.Save` | examples/01-minimal-crud-api/repo.py:134-145 | a first save assigns key and creation time, every save the update time; the product is then found under its key, other keys are untouched, an existing key keeps its place and a new one goes last |
| `ProductRepository.Repository.Delete` | examples/01-minimal-crud-api/repo.py:157-162 | takes one key out of the sequence of keys and closes the gap, what is under the other keys stays; refuses an unsaved entity |
| `ProductRepository.Repository.SaveMany` | examples/01-minimal-crud-api/repo.py:224-224 | saves one by one, each with its own UUID and clock reading, results in input order |
| `ProductRepository.Repository.FindByQuery` | examples/01-minimal-crud-api/repo.py:178-183 | the slice is offset first, limit after |
| `ProductRepository.StepKeys` | examples/01-minimal-crud-api/repo.py:144-162 | insert appends a key, update keeps the key sequence, removal takes one key out in place |
| `ProductRepository.StepMeans` | examples/01-minimal-crud-api/assembler.py:129-135 | what insert, update and removal leave under every key, field by field |
| `ProductRepository.CreationStands` | examples/01-minimal-crud-api/repo.py:136-142 | creation time is write-once over any run, for as long as the product stays |
| `ProductRepository.RunInv` | examples/01-minimal-crud-api/repo.py:134-162 | over any run keys are distinct, every product is under its own, and created no later than updated |
| `ApiSurface.DiffPackage` | scripts/api_surface.py:349-365 | exactly the breaking and informational findings of one package |
| `ApiSurface.DiffSnapshots` | scripts/api_surface.py:337-367 | exactly the breaking and informational findings of two snapshots |
| `ApiSurface.ChainPasses` | scripts/api_surface.py:343-360 | along a chain of releases without breaking lines, first to last has none |
| `ApiSurface.MutualPassIsSameSurface` | scripts/api_surface.py:84-84 | no breaking line either way means same packages, names, kinds and signatures, and conversely |
| `ApiSurface.SilentIsEqual` | scripts/api_surface.py:343-365 | both lists are empty exactly on equal snapshots |

## Left out

- Redis, Memcached, network and clock: a cache tier is a map that may lose entries at any time and expires
  them by its ttl rule; the clock and the UUID generator are inputs, a UUID being unused when it is handed out.
- The step systems start from a cold cache and an empty store, as the applications do in one process with a
  fresh cache server; entries left by an earlier process are not modelled.
- The step systems are state machines over values, so update in place and aliasing of the store and cache
  dictionaries are captured only in `Catalog`.
- Cache calls that fail. An error raised by Redis or Memcached would end a handler with the store written and the
  delete never executed; in the step systems every call takes effect and returns, sooner or later. In particular
  `RedisCache.set` refuses a ttl of 0, where `LookAside` stores an entry that has already expired.
- The store's `get_calls` counter, which only tests read.
- Time is counted in whole ticks; fractions of a second, and Memcached's rounding up to whole seconds, are not
  modelled.
- Entities are values: that `save` stamps the very object it was given, and that a fetched entity is the stored
  object, is not modelled.
- Events, hooks other than the two this service overrides, units of work (their commit and rollback do nothing in
  these examples).
- The service's `list`, `count`, `exists` and `stream` for documents, which the example's router does not expose.
  They ask for a grant and make no ownership test, so the non-interference result does not extend to them.
- Parsing of filter expressions and type coercion; filters start as ASTs. How a value is printed for LIKE is a
  parameter.
- Not-a-number floats, and attribute values that are lists.
- Sort.ApplySort: a field name other than the five product fields raises. `getattr` also finds names such as
  `__module__` or `to_dict`, which every product has and which do not raise, or raise only from two items on.
- Listing.ListProducts: takes the same view of field names.
- ProductRepository.Repository.SaveMany: entities are values, so an unsaved object listed twice is saved as two
  rows, where the source stamps the object once and stores one row.
- `\d` in the version and requirement patterns is taken as the ASCII digits; other Unicode decimal digits are not
  modelled.
- TOML text: a file is a record of version, dependencies, extras and an untouched rest. `uv lock`, the dry-run diff
  and the check's report text are not modelled.
- The alphabetical order of the diff's lines and their wording; the order of package directories.
- Bulk delete, counting and streaming in the repositories, which add only easy members.
- JWT handling, dependency injection, routing, metrics, the cache backplane, job, outbox, saga and resilience
  packages, and all database and broker integrations.
