# Verified models of the metagraphed tooling

This project models the stateful and branching algorithms of the repository in Dafny and
proves what they promise, for every input, server, schedule and failure. Each `.dfy` file
is one component:

- `LittleEndian`, `ParquetFooter`, `SequentialReader`, `PageIndex`: the forward-only Parquet
  reader, the footer lookup, and the page indexer that the reader serves in place of a random
  access file.
- `Paging`, `Request`, `EtagLru`, `PathTemplate`: the client SDK. Checked snapshot paging
  against an arbitrary server, the retry and conditional-request loop, the recency store, and
  the path-template scanner.
- `BundleModel`, `BundleValues`, `BundlePaths`, `BundleIndex`, `BundleFamilies`,
  `BundleScene`, `BundleAudit`, `BundleCover`, `BundleExamples`: the archive-bundle auditor. The
  audit is a set of loops that push problems; it is proved equal to a declarative reading.
  `BundleScene` and `BundleCover` say what that reading guarantees; `BundleExamples` has two
  accepted declarations, one of six tables and one that shows what is not guaranteed.
- `LogoPublication`, `NetworkRegistry`: two file-system protocols, one with faults at any
  action, one with any interleaving of any number of builds.
- `WorkerPool`, `SchemaCycles`, `RootBasketCapture`, `Decimal`, `Scale`, `ArtifactBudgets`,
  `SelectionSet`: the concurrency-limited pool, the cycle finder, the capture validator and
  its decimal strings, the SCALE decoders and ranks, the glob compiler, and the GraphQL
  selection generator.
- `Common`: options, results, and facts about lists without repetition.

Code that updates variables is a method or a class here and is proved against a function of
its inputs or its old state; the theorems are about that function.

## Promises that hold only under a condition

Some promises do not hold of the code for every input. The model keeps the code as it is, shows
the failure, and proves exactly when the promise holds.

- Backoff delays lie in `[0, maxDelayMs]`: without a readable `Retry-After` a negative
  `minDelayMs` gives a negative delay (`Request.NegativeBase`). For every header all delays lie
  there if and only if `minDelayMs` is not negative or the header is readable
  (`Request.BackoffExactly`).
- Every item of a pool is processed: a limit of zero or less creates no worker and processes
  nothing, silently. All items are processed if and only if the limit is at least one or there
  is nothing to do (`WorkerPool.FinishedPool`).
- Two concurrent registry builds converge instead of racing: an atomic write stages inside the
  detail directory. One build's prune can remove what another has staged, so its rename fails
  (`NetworkRegistry.PruneBreaksAnotherBuild`). A build can fail if and only if at least two run
  and there is a file to write (`NetworkRegistry.BuildCanFail`). How a directory is removed is
  left to the library. If it lists the directory before it tries to remove it, a write in between
  makes the prune itself fail (`NetworkRegistry.WriteBreaksAPrune`), and only then
  (`NetworkRegistry.PruneCanFailExactly`). Either way every interleaving comes to a stop
  (`NetworkRegistry.BuildsStop`, `NetworkRegistry.StuckIsStopped`), and then some build has
  finished and the directory holds exactly the wanted files (`NetworkRegistry.BuildsConverge`).
- An accepted audit bundles six tables a mapping: an empty source name is skipped without a
  problem, and `BundleExamples.EmptyNamesAreAccepted` gives an accepted mapping with no table. The
  number is exact if and only if no source name is empty (`BundleCover.SixTablesAMapping`).
- The 39 and 40 character caps of `integerString` reject no in-range integer: true if and only
  if the magnitude of the range is at most 10^39 (`Decimal.CapRejectsNone`), which the widths
  in use satisfy (`Decimal.WidthsInUse`).
- An accepted declaration carries every value of its column: all of them come back unchanged,
  and they fit the declared value if and only if they are not NaN or infinite, which an unbounded
  `numeric` column may hold (`BundleValues.LosslessCarriesEveryValue`).
- `fetchAll` ends: a checked run does, against every server (`Paging.CheckedPaging`). An unchecked
  one never does against a server that always sends one more cursor (`Paging.EndlessHasNoOutcome`).
  It ends if and only if some request fails or is answered without a cursor
  (`Paging.EndsExactly`); then it gives all rows, or the failure (`Paging.FetchAll`).
- The path scan takes linear time: for every constant some template of unclosed braces costs more
  than that constant times its length, since each turn searches for a closing brace again
  (`PathTemplate.NotLinear`). The cost of a set of templates is linear if and only if the
  characters searched in vain behind unclosed braces are (`PathTemplate.LinearExactly`). None are if and only if every brace but a
  last character has a closing one behind it (`PathTemplate.NoWasteExactly`), and then the cost
  is at most twice the length (`PathTemplate.ScanCostBounds`).
- No arbitrarily deep query can be written when no cycle is reported: the walk passes over fields
  of interface and union types, and `SchemaCycles.InterfaceCycleIsMissed` has a cycle through an
  interface, an empty report and queries of any depth. Depth is bounded if and only if the same
  walk, seeing through abstract types, would report nothing (`SchemaCycles.QueriesBoundedExactly`).
  Where no reachable type has such a field an empty report is enough
  (`SchemaCycles.QueriesAreBounded`).
- A planned query is valid: on a type without a leaf in reach the selection is empty, and the query
  is not (`SelectionSet.RingProbeIsInvalid`). It is valid if and only if the field has a leaf type
  or a leaf in reach of the descent (`SelectionSet.ProbeIsValid`).

## Assumptions

SHA-256 and the store key are injective. An honest server (only where `Request` says so) sends
its current representation on success, answers 304 only to the matching current entity tag
(section 13.1.2 of RFC 9110), and never reuses a non-empty tag for another body. The image
builder records what it built. The Thrift page-header decoder, image decoding, JSON parsing,
`Number(cursor)`, clocks, jitter and the network are parameters.

## Model

| member | source | states |
|---|---|---|
| LittleEndian.LittleRoundTrip | scripts/backfill-neuron-history.py:80-84 | a number that fits in k bytes is recovered from its k little-endian bytes |
| ParquetFooter.FooterOfSealed | scripts/build-parquet-page-index.ts:9-21 | the footer of body + metadata + length + magic is that metadata with its trailer, for any body of at least 4 bytes |
| ParquetFooter.FooterExactly | scripts/build-parquet-page-index.ts:9-21 | a footer is found if and only if the file is such a concatenation within the 6 MiB limit |
| ParquetFooter.TrailerBytes | scripts/build-parquet-page-index.ts:12-16 | a sealed file ends in its metadata length, least significant byte first, and the letters PAR1 |
| SequentialReader.SequentialBuffer.constructor | scripts/build-parquet-page-index.ts:107-115 | a new reader over any chunking stands for the whole file at offset 0 |
| SequentialReader.SequentialBuffer.Pull | scripts/build-parquet-page-index.ts:129-145 | taking one chunk keeps `buffer == file[offset..position)` and `offset == min(start, position)` |
| SequentialReader.SequentialBuffer.Slice | scripts/build-parquet-page-index.ts:117-148 | result and new offset equal the plain-file answer for every chunking, empty chunks included; a refused range changes nothing; retained bytes stay within 65536 + C - 1 |
| SequentialReader.AscendingReadsSeeTheFile | scripts/build-parquet-page-index.ts:103-106 | every sequence of in-range reads with non-decreasing starts returns exactly `file[start..end)` each time |
| SequentialReader.BackwardReadRefused | scripts/build-parquet-page-index.ts:118-124 | a read below the start of an accepted one is refused, whatever the file |
| PageIndex.Classify | scripts/build-parquet-page-index.ts:71-95 | an accepted header advances by a positive size within the chunk, has the positive row count of its own page version, and is a dictionary page only at the declared offset (the converse is `StepExactly`) |
| PageIndex.SortByStartSorts | scripts/build-parquet-page-index.ts:45-55 | the chunk order is by first byte (and `SortByStart` is a permutation) |
| PageIndex.SortIsStable | scripts/build-parquet-page-index.ts:45-55 | chunks with the same first byte keep their order |
| PageIndex.ScanPage | scripts/build-parquet-page-index.ts:64-97 | one turn over the forward-only reader agrees with random access and moves strictly forward, or refuses a range that really lies behind or outside |
| PageIndex.ScanColumn | scripts/build-parquet-page-index.ts:56-98 | one chunk's pages equal the random access pages unless the reader refused; the scan ends |
| PageIndex.StaysAhead | scripts/build-parquet-page-index.ts:45-66 | reading one chunk leaves every later disjoint chunk ahead of the reader |
| PageIndex.IndexColumns | scripts/build-parquet-page-index.ts:56-99 | for sorted, disjoint, in-range chunks the backward guard is never hit and the index equals random access |
| PageIndex.BuildPageIndex | scripts/build-parquet-page-index.ts:23-101 | the same for chunks in any order: for disjoint chunks in the file an index is built if and only if each is a flat column of pages, and it lists exactly those; for other metadata the only possible difference is a refused range |
| PageIndex.ColumnTiles | scripts/build-parquet-page-index.ts:61-98 | at most one leading dictionary page, accepted at the declared offset, and the recorded pages tile `[start, end)` exactly |
| PageIndex.PagesTileTheRest | scripts/build-parquet-page-index.ts:64-97 | past the first byte no dictionary page is accepted, so data pages tile what is left |
| PageIndex.TilingIsContiguous | scripts/build-parquet-page-index.ts:88-97 | each page starts where the one before ended and `row` is the sum of all earlier `rows` |
| PageIndex.StepExactly | scripts/build-parquet-page-index.ts:64-95 | a step accepts a data page if and only if the bytes there decode to a version 1 or version 2 header with its own positive row count, and a dictionary page if and only if they decode to one at the declared offset |
| PageIndex.PagesExactly | scripts/build-parquet-page-index.ts:63-97 | from a place without a dictionary page on, the pages found are exactly the data pages laid out end to end up to the end of the chunk |
| PageIndex.ColumnExactly | scripts/build-parquet-page-index.ts:56-98 | a chunk is indexed with a list of pages if and only if it is a flat column that consists of them, perhaps behind one dictionary page at the declared offset |
| PageIndex.IndexExactly | scripts/build-parquet-page-index.ts:56-99 | an index is built if and only if every chunk is a flat column of such pages |
| PageIndex.IndexHoldsEveryColumn | scripts/build-parquet-page-index.ts:56-99 | with distinct columns per group the index holds each chunk's own pages and nothing else |
| Paging.ClaimIsUnique | generated/metagraphed-client.ts:106-139 | a page makes at most one claim about snapshot, collection, cursor, rows and total |
| Paging.SnapshotIdExactly | generated/metagraphed-client.ts:124-124 | a snapshot identifier is `v1.` and 64 lower-case hexadecimal digits |
| Paging.Pager.NextPageCursor | generated/metagraphed-client.ts:106-139 | a page is accepted if and only if its claim follows from the state; the new state is that claim; a refusal changes nothing; unchecked paging passes the cursor through |
| Paging.RunIsCoherent | generated/metagraphed-client.ts:761-785 | against any server the yielded pages are consecutive, with one snapshot, total and collection |
| Paging.RunYieldsVerifiedPages | generated/metagraphed-client.ts:761-785 | every yielded page is the verified answer to its own request |
| Paging.RunCompletes | generated/metagraphed-client.ts:780-783 | a run completes if and only if its last page says it is the last |
| Paging.CoherentPages | generated/metagraphed-client.ts:123-134 | page i starts at the number of rows before it, and only the last page is marked last |
| Paging.CoherentIsShort | generated/metagraphed-client.ts:131-134 | requests never outnumber max(1, rows left) |
| Paging.CheckedPaging | generated/metagraphed-client.ts:761-785 | from the first page: rows 0 on, at most max(1, total) fetches, completion if and only if all `total` rows were delivered; the run ends against every server |
| Paging.FetchedStep | generated/metagraphed-client.ts:787-820 | collecting rows page by page equals the rows of the run |
| Paging.RunReadsTheList | generated/metagraphed-client.ts:787-820 | a server that slices a fixed list in any page sizes is read back as exactly that list |
| Paging.FirstCallReadsTheList | generated/metagraphed-client.ts:761-820 | the ordinary first call, `page_snapshot: "start"` without a cursor, reads the whole list of such a server |
| Paging.PagesCanBeServed | generated/metagraphed-client.ts:106-139 | any list of safe length can be served that way, in pages of any size |
| Paging.ItemsOf | generated/metagraphed-client.ts:797-817 | rows of a page: the named collection, else the only array member, else none |
| Paging.ClaimedRows | generated/metagraphed-client.ts:797-810 | of a verified page these are exactly its rows |
| Paging.FollowIsStable | generated/metagraphed-client.ts:761-785 | how an unchecked run ends does not depend on how long one waits for it |
| Paging.FollowReadsTheList | generated/metagraphed-client.ts:787-820 | unchecked paging reads a slicing server back exactly, within one request more than there are rows |
| Paging.UncheckedCallReadsTheList | generated/metagraphed-client.ts:761-820 | so does the ordinary unchecked call without a cursor |
| Paging.EndsExactly | generated/metagraphed-client.ts:761-785 | an unchecked run has an outcome if and only if some request fails or sends no cursor to follow |
| Paging.EndlessHasNoOutcome | generated/metagraphed-client.ts:761-785 | against a server that always sends one more cursor an unchecked run has no outcome after any number of requests |
| Paging.NextPage | generated/metagraphed-client.ts:770-784 | one turn, checked or not, yields the rows or the failure and moves the cursor on |
| Paging.FetchAll | generated/metagraphed-client.ts:787-820 | `fetchAll` returns all rows of the run or its failure: of every checked run, and of every unchecked run in which some request fails or sends no cursor |
| EtagLru.LruStore.Get | generated/metagraphed-client.ts:396-403 | returns the entry and makes its key the most recent |
| EtagLru.LruStore.Set | generated/metagraphed-client.ts:404-414 | inserts as most recent and evicts the oldest beyond the bound |
| EtagLru.TrimMirrorsEvict | generated/metagraphed-client.ts:407-413 | dropping list heads evicts exactly the least recently touched keys |
| EtagLru.LruRefinesTimestamps | generated/metagraphed-client.ts:391-416 | after every trace the map order is the recency order of a store with explicit timestamps |
| EtagLru.LookupsAgree | generated/metagraphed-client.ts:396-403 | the two stores answer every look-up alike |
| EtagLru.SetKeepsNested | generated/metagraphed-client.ts:404-414 | a set keeps the smaller store a subsequence of the larger, full up to its own bound |
| EtagLru.GetKeepsNested | generated/metagraphed-client.ts:396-403 | a get does as well |
| EtagLru.LruInclusion | generated/metagraphed-client.ts:391-416 | for every trace a store of capacity n holds a same-order part of what a larger one holds, and neither exceeds its bound |
| EtagLru.SetMembers | generated/metagraphed-client.ts:404-414 | a store only ever holds what was put in |
| EtagLru.SetThenFind | generated/metagraphed-client.ts:396-414 | a store with room for one entry finds what was put in last |
| EtagLru.GetThenFind | generated/metagraphed-client.ts:396-403 | a look-up does not change what the next one of its key finds |
| PathTemplate.NextMatch | generated/metagraphed-client.ts:317-322 | the leftmost match of a brace, one or more non-`}`, a brace |
| PathTemplate.SkipLiteral | generated/metagraphed-client.ts:333-342 | text in front of the next match is copied unchanged |
| PathTemplate.BraceIsNoMatch | generated/metagraphed-client.ts:338-343 | an unmatched or empty brace, and the text in front of it, match nothing |
| PathTemplate.LiteralTurn | generated/metagraphed-client.ts:333-343 | text without a match is emitted as it is |
| PathTemplate.MatchAhead | generated/metagraphed-client.ts:344-351 | literal text and a filled match are one step of the replacement |
| PathTemplate.ScanTurn | generated/metagraphed-client.ts:332-352 | one turn emits a piece of the replacement and moves on, or names the missing parameter |
| PathTemplate.InterpolatePath | generated/metagraphed-client.ts:323-354 | the scan equals leftmost non-overlapping replacement on every template, in at most `path.length` turns, and its searches look at no more characters than the cost the next rows bound |
| PathTemplate.ScanCostBounds | generated/metagraphed-client.ts:317-354 | the cost lies between the characters searched in vain and that plus twice the length |
| PathTemplate.NoWasteExactly | generated/metagraphed-client.ts:338-343 | nothing is searched in vain if and only if every brace but a last character has a closing one behind it |
| PathTemplate.BracesAreQuadratic | generated/metagraphed-client.ts:317-322 | n unclosed braces search n(n - 1) / 2 characters in vain |
| PathTemplate.NotLinear | generated/metagraphed-client.ts:317-322 | for every constant some template costs more than that constant times its length |
| PathTemplate.LinearExactly | generated/metagraphed-client.ts:317-354 | a set of templates is scanned in linear time if and only if its searches in vain are linear |
| PathTemplate.ThrowsOnFirstMissing | generated/metagraphed-client.ts:345-349 | it throws if and only if some matched name has no value, and names the first |
| PathTemplate.EncodedIsSafe | generated/metagraphed-client.ts:350-350 | an encoded value has only characters that `encodeURIComponent` leaves alone and percent-escapes, so neither slashes nor braces |
| PathTemplate.UnreservedStays | generated/metagraphed-client.ts:350-350 | exactly letters, digits and `-_.!~*'()` are left as they are |
| PathTemplate.EncodedReadsBack | generated/metagraphed-client.ts:350-350 | percent-decoding (section 2.1 of RFC 3986) and UTF-8 decoding (section 3 of RFC 3629) give an encoded value back |
| PathTemplate.ValuesAddNoSlash | generated/metagraphed-client.ts:323-354 | a filled path has exactly the slashes of the template's literal text |
| Request.ResolveRetry | generated/metagraphed-client.ts:435-457 | retries are on only with a positive count, and an explicit count is kept |
| Request.DefaultsFillIn | generated/metagraphed-client.ts:433-457 | what a setting leaves open is the default: 2 retries, 200 to 10000 ms, statuses 429, 500, 502, 503 and 504; a bare count is nothing else |
| Request.JitteredInRange | generated/metagraphed-client.ts:480-481 | jitter never leaves `[0, backoff]`, for every draw |
| Request.ReadableIsHonoured | generated/metagraphed-client.ts:469-479 | a readable Retry-After is waited for as it says, seconds as 1000 ms, up to the cap |
| Request.JitterSpansHalf | generated/metagraphed-client.ts:480-481 | any other wait is half to all of the base delay times a power of two, up to the cap, and the draw spans that range |
| Request.PowersOfTwo | generated/metagraphed-client.ts:480-480 | the factor is two to the power of the attempt |
| Request.BackoffInRange | generated/metagraphed-client.ts:464-482 | a non-negative base or a readable Retry-After keeps the wait in `[0, maxDelayMs]` |
| Request.NegativeBase | generated/metagraphed-client.ts:480-481 | without a readable header a negative base delay gives a negative wait |
| Request.BackoffExactly | generated/metagraphed-client.ts:464-482 | for every header all waits are in range if and only if the base delay is not negative or the header is readable |
| Request.Decide | generated/metagraphed-client.ts:697-751 | a turn goes on only within the retry budget, re-issues once, and resolves a 304 only from a stored body |
| Request.StoredBodyIsCurrent | generated/metagraphed-client.ts:713-719 | a 304 to a stored tag means the stored body is current |
| Request.FetchesAreBounded | generated/metagraphed-client.ts:656-759 | every request makes between 1 and retries + 2 fetches, all of one URL and one set of plain headers |
| Request.RetriesUntilAnswered | generated/metagraphed-client.ts:678-757 | after any k transient answers (retryable statuses or faults) within the budget, the first other answer, or the one that uses it up, decides the result, after exactly k + 1 fetches |
| Request.AbortedWait | generated/metagraphed-client.ts:704-739 | a wait that does not finish ends the request with the fetch before it |
| Request.StoredBodyAnswers | generated/metagraphed-client.ts:680-718 | with a stored body the fetch names its tag, and a 304, at once or after transient answers, resolves to that body |
| Request.ReissuedOnce | generated/metagraphed-client.ts:711-730 | a 304 that no stored body answers is asked again without conditions and retried like any other fetch; a second 304 is an error |
| Request.FreshBodyIsHeld | generated/metagraphed-client.ts:749-755 | a tagged body that a request resolves to is what the next request finds in the store |
| Request.CheckedVerdict | generated/metagraphed-client.ts:711-757 | a checked request takes its one answer as it is, and a 304 as a stale catalog |
| Request.CheckedIsOneBareFetch | generated/metagraphed-client.ts:676-717 | a checked request is exactly one unconditional fetch that neither reads nor writes the store |
| Request.AttemptIsCurrent | generated/metagraphed-client.ts:678-757 | one turn resolves only to the representation current at its fetch and stores only true representations |
| Request.ResolvedIsCurrent | generated/metagraphed-client.ts:656-759 | against an honest server a resolved body is current at the last fetch, with any store contents, and the store stays sound |
| Request.CachingIsTransparent | generated/metagraphed-client.ts:656-759 | a client with a store and one without, whose last fetches meet the same representation, resolve to the same body, however the resource changes otherwise |
| Request.Client.Attempt | generated/metagraphed-client.ts:678-757 | one turn of the loop against the store object |
| Request.Client.Request | generated/metagraphed-client.ts:656-759 | result, fetches and final store of the loop are those of the specification the lemmas are about |
| BundleValues.NumericRoundTrip | scripts/archive-policy-bundles.ts:182-189 | a numeric of any scale is recovered from its decimal string |
| BundleValues.IntegerTypes | scripts/archive-policy-bundles.ts:180-192 | the ranges of the three integer types are those of signed 16, 32 and 64 bits |
| BundleValues.LosslessCarriesEveryValue | scripts/archive-policy-bundles.ts:131-197 | whenever `lossless` accepts, every value of the column encodes and decodes back unchanged, and fits the declared value if and only if it is not NaN or infinite |
| BundleValues.LosslessIsExact | scripts/archive-policy-bundles.ts:136-197 | a PostgreSQL declaration is accepted if and only if it is a plain one (known type, same nullability, text alone as string) and every finite column value conforms and comes back |
| BundleValues.LosslessD1IsExact | scripts/archive-policy-bundles.ts:136-166 | a D1 declaration is accepted if and only if its encoding suits its type and kind and every column value conforms and comes back |
| BundleValues.SumBounds | scripts/archive-policy-bundles.ts:121-128 | totals of per-parent lengths lie between the products of the bounds |
| BundleValues.AchievableTotals | scripts/archive-policy-bundles.ts:100-129 | a total is achievable if and only if some admissible number of parents brackets it |
| BundleValues.CountBoundsAreAchievable | scripts/archive-policy-bundles.ts:100-129 | count bounds are accepted if and only if they lie between the least and the greatest achievable total, both attained |
| BundleValues.IndexFitsExactly | scripts/archive-policy-bundles.ts:199-217 | a bounded integer is accepted if and only if all its numbers fit its 32-bit int or 64-bit long column |
| BundleValues.IndexFitsAllValues | scripts/archive-policy-bundles.ts:199-217 | a declared value fits an index column if and only if the column is required and its type can hold every value of that declaration |
| BundlePaths.SplitThenJoin | scripts/archive-policy-bundles.ts:323-323 | splitting a path at dots loses nothing |
| BundlePaths.NameGrows | scripts/archive-policy-bundles.ts:88-88 | names are a letter followed by letters, digits and underscores |
| BundlePaths.PathExactly | scripts/archive-policy-bundles.ts:87-87 | a path is one or more names, each perhaps marked `[]`, joined by dots |
| BundlePaths.BelowExactly | scripts/archive-policy-bundles.ts:95-96 | a path is below a base if and only if it continues it and runs through no further array |
| BundlePaths.ChildArrayExactly | scripts/archive-policy-bundles.ts:97-98 | a path is a child array if and only if it ends as an array, continues the base, and runs through exactly one array more |
| BundlePaths.DeclareShape | scripts/archive-policy-bundles.ts:321-337 | declaring a path reports a conflict if and only if it gives some prefix a second shape |
| BundlePaths.DeclareAll | scripts/archive-policy-bundles.ts:338-358 | the same for whole sets of paths, in any order |
| BundlePaths.CoveredIsConsistent | scripts/archive-policy-bundles.ts:320-358 | no conflict is reported if and only if all declarations agree pairwise |
| BundleIndex.CheckExpected | scripts/archive-policy-bundles.ts:365-391 | no problem if and only if every contract field is valid, unrepeated and in the catalog |
| BundleIndex.CheckActual | scripts/archive-policy-bundles.ts:392-399 | no problem if and only if every catalog field is expected and unrepeated |
| BundleIndex.CheckIndex | scripts/archive-policy-bundles.ts:360-399 | both, and the table is present |
| BundleIndex.CatalogEqualsContract | scripts/archive-policy-bundles.ts:360-399 | an accepted index has the same fields in contract and catalog, none twice |
| BundleIndex.PhysicalIdsAreComplete | scripts/archive-policy-bundles.ts:262-291 | an accepted version-2 index numbers its fields exactly 1 to 29 |
| BundleFamilies.CheckTree | scripts/archive-policy-bundles.ts:312-358 | no problem if and only if paths, bounds and shapes of the bundle tree are right |
| BundleFamilies.ValuesAreLeaves | scripts/archive-policy-bundles.ts:320-358 | where all declarations agree no declared path continues below a value |
| BundleFamilies.CheckSource | scripts/archive-policy-bundles.ts:439-446 | no problem if and only if every source column is mapped and unrepeated |
| BundleFamilies.CheckProjections | scripts/archive-policy-bundles.ts:447-488 | the same for all columns, and no two share a value |
| BundleFamilies.CheckFamily | scripts/archive-policy-bundles.ts:404-508 | no problem if and only if the family's own rules hold |
| BundleFamilies.CheckNext | scripts/archive-policy-bundles.ts:408-512 | also nothing the family uses was used before |
| BundleFamilies.CheckFamilies | scripts/archive-policy-bundles.ts:400-513 | the loop over the six families decides all their rules and records their tables |
| BundleFamilies.CheckReceipt | scripts/archive-policy-bundles.ts:514-544 | no problem if and only if the three receipt roles are distinct and fully bound |
| BundleAudit.CheckLocal | scripts/archive-policy-bundles.ts:253-399 | no problem if and only if the rules about one mapping alone hold |
| BundleAudit.CheckMappingTurn | scripts/archive-policy-bundles.ts:238-545 | one turn of the mapping loop decides one mapping; unknown contracts and versions are reported and skipped |
| BundleAudit.ValidateArchiveBundles | scripts/archive-policy-bundles.ts:224-557 | the problem list is empty if and only if the declarative reading holds |
| BundleCover.PairsHaveOwnTables | scripts/archive-policy-bundles.ts:408-410 | in an accepted audit no two pairs of mapping and family share a source table |
| BundleCover.BundledIsMapped | scripts/archive-policy-bundles.ts:403-412 | a table has the bundled policy if and only if an audited pair maps it |
| BundleCover.SixTablesAMapping | scripts/archive-policy-bundles.ts:403-412 | at most six tables a mapping, and exactly six if and only if no source name is empty |
| BundleCover.IndexIsCatalog | scripts/archive-policy-bundles.ts:262-399 | each accepted mapping has its own catalog table, equal to its contract's index, with IDs 1 to 29 in version 2 |
| BundleCover.ColumnsMapInjectively | scripts/archive-policy-bundles.ts:439-460 | source columns and rules are the same set, types and nullability are the declared ones, and different columns bind different values |
| BundleCover.BindingsOccurOncePerRow | scripts/archive-policy-bundles.ts:448-477 | what an audited column is bound to is a declared value with as many `[]` as its scope, so once for each row, or the length of an array each row has one of |
| BundleCover.SnapshotIsTheDialects | scripts/archive-policy-bundles.ts:253-261 | source columns come from the snapshot of the contract's own dialect, PostgreSQL or D1 |
| BundleCover.LookupFields | scripts/archive-policy-bundles.ts:262-291 | a version-2 index has the required lookup fields 28 and 29, a version-1 index has neither |
| BundleCover.DeclaredTree | scripts/archive-policy-bundles.ts:292-358 | capture and receipt are different object paths, values are no arrays, arrays have bounds from zero up |
| BundleCover.EveryCellSurvives | scripts/archive-policy-bundles.ts:448-488 | every value a mapped column can hold has a bundle value that decodes to it and conforms if and only if it is not NaN or infinite |
| BundleCover.EveryCountFits | scripts/archive-policy-bundles.ts:489-507 | every count within accepted bounds fits the manifest value and its index column; object families count one |
| BundleCover.DeclaredCountsAreAttainable | scripts/archive-policy-bundles.ts:489-507 | accepted count bounds lie between two captures that the array bounds allow |
| BundleCover.RowsAreNested | scripts/archive-policy-bundles.ts:417-437 | with all names given, capture and completion are the two declared objects, pages and funds are arrays of the capture, holdings and targets arrays of the funds |
| BundleCover.RowsDiffer | scripts/archive-policy-bundles.ts:435-512 | two families of a mapping share neither rows nor either half of their count binding |
| BundleCover.ReceiptIsBound | scripts/archive-policy-bundles.ts:514-544 | each receipt role is a required value in the receipt, an index field, and a source column of the completion family |
| BundleExamples.SixNamesAreAccepted | scripts/archive-policy-bundles.ts:224-557 | a concrete mapping with all six source names is accepted, every family is audited and six tables are bundled |
| BundleExamples.EmptyNamesAreAccepted | scripts/archive-policy-bundles.ts:404-406 | the same contract mapped with empty source names is accepted although it covers no table |
| LogoPublication.SafeKeepsBacking | scripts/build-logo-thumbnails.ts:302-421 | in every safe state a displayed manifest is backed by sharing objects, if it was at the start |
| LogoPublication.DerivativesExactly | scripts/build-logo-thumbnails.ts:239-299 | derivatives verify if and only if hash and length are the recorded ones and the bytes are a WebP image up to 96 pixels a side, or a PNG image up to 256 pixels and 512 KiB, of the recorded size |
| LogoPublication.CheckEntry | scripts/build-logo-thumbnails.ts:444-465 | one turn accepts exactly a verified derivative at a path not yet in use |
| LogoPublication.CheckEntries | scripts/build-logo-thumbnails.ts:441-465 | the entry loop passes if and only if every entry is a verified derivative of its source |
| LogoPublication.CheckDerivatives | scripts/build-logo-thumbnails.ts:423-493 | the check passes if and only if the tree is exactly the release of its sources and smaller than them |
| LogoPublication.EntryStays | scripts/build-logo-thumbnails.ts:351-355 | a later source overwrites a sharing object only with the same bytes |
| LogoPublication.NextBatch | scripts/build-logo-thumbnails.ts:350-355 | adding one built source keeps every earlier entry's own derivatives |
| LogoPublication.Collides | scripts/build-logo-thumbnails.ts:308-311 | collision is found if and only if two sources share a display path |
| LogoPublication.Publisher.Link | scripts/build-logo-thumbnails.ts:379-390 | a link appears complete or not at all and never replaces an object |
| LogoPublication.Publisher.PublishSharing | scripts/build-logo-thumbnails.ts:374-391 | on success every object is present with its bytes; existing ones are untouched; a conflict is a real one |
| LogoPublication.Publisher.SetAside | scripts/build-logo-thumbnails.ts:392-398 | the previous tree is in the backup, or nothing changed |
| LogoPublication.Publisher.Install | scripts/build-logo-thumbnails.ts:392-408 | outcome and backup flag for each pattern of faults; a rolled-back failure leaves the display as before |
| LogoPublication.Publisher.Cleanup | scripts/build-logo-thumbnails.ts:410-420 | a preserved or undeletable backup stays |
| LogoPublication.Publisher.Reuse | scripts/build-logo-thumbnails.ts:235-300 | a prior entry is reused with its present bytes if and only if both derivatives are readable and verify again |
| LogoPublication.Publisher.BuildOne | scripts/build-logo-thumbnails.ts:334-350 | the first previous entry of an unchanged source whose derivatives verify is reused with its bytes; without one, or if reading it fails, the builder's result is taken |
| LogoPublication.DueExactly | scripts/build-logo-thumbnails.ts:334-350 | reused or else built, at most one entry is due to a source |
| LogoPublication.Publisher.BuildAll | scripts/build-logo-thumbnails.ts:333-356 | a complete batch has every source's own derivatives, and without a fault exactly the entries due; failures are read failures or sources to which nothing is due |
| LogoPublication.Publisher.Release | scripts/build-logo-thumbnails.ts:357-420 | without a fault a complete batch is released unless a sharing object really conflicts |
| LogoPublication.Publisher.WriteDerivatives | scripts/build-logo-thumbnails.ts:303-421 | every state passed through is safe; success displays exactly the release; failure leaves the display as it was or in the backup; without a fault the manifest has the entry due to each source, and only a collision, a source to which nothing is due, or a wrongly named object fails |
| LogoPublication.AddressedAgree | scripts/build-logo-thumbnails.ts:374-391 | objects named by their hashes never conflict |
| LogoPublication.BatchIsReleased | scripts/build-logo-thumbnails.ts:357-391 | a batch whose sharing objects are in place is a release, backed by them |
| NetworkRegistry.StepKeepsWanted | scripts/build-network-registry.ts:308-343 | no action of any build removes a wanted file or gives it other content than the snapshot's |
| NetworkRegistry.StepSound | scripts/build-network-registry.ts:307-343 | after every action some build has not failed and is not bound to fail |
| NetworkRegistry.RunInv | scripts/build-network-registry.ts:300-343 | the protocol invariant holds after every interleaving of any number of builds |
| NetworkRegistry.WantedStays | scripts/build-network-registry.ts:300-343 | a wanted file once present is present in every later state |
| NetworkRegistry.BuildsConverge | scripts/build-network-registry.ts:300-343 | when all builds have stopped, one has finished and the directory is exactly the wanted files with their content |
| NetworkRegistry.BuildsStop | scripts/build-network-registry.ts:308-343 | in every interleaving at most 4 actions a file, 3 a name there may be, and 5 more for each build change anything |
| NetworkRegistry.StuckIsStopped | scripts/build-network-registry.ts:308-343 | no action changes anything if and only if every build has stopped |
| NetworkRegistry.PruneBreaksAnotherBuild | scripts/lib.ts:451-469 | an interleaving in which a prune removes the file another build has staged and its rename fails |
| NetworkRegistry.WriteBreaksAPrune | scripts/build-network-registry.ts:337-343 | if removal lists a directory before it tries to remove it: an interleaving in which a build writes into its staging directory in between and the prune fails |
| NetworkRegistry.PruneCanFailExactly | scripts/build-network-registry.ts:337-343 | a prune itself can fail if and only if a build can fail and removal works that way |
| NetworkRegistry.BuildCanFail | scripts/build-network-registry.ts:300-343 | some interleaving fails a build if and only if two builds run and there is a file to write |
| WorkerPool.StepUsesUp | scripts/capture-fixtures.ts:55-61 | every step uses up one of at most three steps an item, so no schedule runs for ever |
| WorkerPool.RunInv | scripts/capture-fixtures.ts:48-65 | under every schedule each item is on one worker at most, results are there exactly for items left behind, one status each, and fixtures are written once for exactly the captured items whose write has finished |
| WorkerPool.CountsAddUp | scripts/capture-fixtures.ts:296-307 | captured and failed statuses add up to all statuses |
| WorkerPool.FinishedPool | scripts/capture-fixtures.ts:245-307 | at the end each item was started once and all results, statuses and captures are accounted for, if and only if the limit is at least one or there is nothing to do; exactly min(limit, items) workers ran, none for a limit below one |
| SchemaCycles.SimpleIsShort | scripts/check-adversarial-surface.ts:261-271 | a path without repetition is no longer than the schema, so the walk ends |
| SchemaCycles.Walk | scripts/check-adversarial-surface.ts:261-272 | the recursive walk appends exactly what its specification reports |
| SchemaCycles.ReportsExactlyTheLassos | scripts/check-adversarial-surface.ts:246-275 | a path is reported if and only if it is a root path whose last type, and no earlier one, repeats |
| SchemaCycles.EmptyIffAcyclic | scripts/check-adversarial-surface.ts:246-275 | nothing is reported if and only if no reachable object type reaches itself |
| SchemaCycles.FindCycles | scripts/check-adversarial-surface.ts:246-275 | both, of the returned list; empty without a Query root |
| SchemaCycles.BoundedExactly | scripts/check-adversarial-surface.ts:236-275 | queries through object types only have bounded depth if and only if nothing is reported |
| SchemaCycles.QueriesAreBounded | scripts/check-adversarial-surface.ts:236-275 | with nothing reported and no interface or union field in reach every query is at most as deep as there are object types |
| SchemaCycles.QueriesBoundedExactly | scripts/check-adversarial-surface.ts:236-275 | queries of all kinds have bounded depth if and only if the walk that sees through interfaces and unions reports nothing |
| SchemaCycles.InterfaceCycleIsMissed | scripts/check-adversarial-surface.ts:261-272 | a schema with an empty report and queries of every depth |
| Decimal.IntRoundTrip | schemas-src/root-basket-capture.ts:12-18 | canonical text of an integer has that value |
| Decimal.TextRoundTrip | schemas-src/root-basket-capture.ts:12-18 | a canonical string is the text of its value |
| Decimal.CapRejectsNone | schemas-src/root-basket-capture.ts:7-11 | the length cap rejects no in-range integer if and only if the range's magnitude is at most 10^39 |
| Decimal.IntegerStringExactly | schemas-src/root-basket-capture.ts:7-22 | at any width the validator accepts exactly the canonical decimals of in-range integers up to 39 characters, 40 if signed |
| Decimal.IntegerStringIsCanonical | schemas-src/root-basket-capture.ts:7-22 | the validator accepts exactly the canonical decimals of in-range integers |
| Decimal.WidthsInUse | schemas-src/root-basket-capture.ts:24-26 | u64, Q64 and i128 are within that magnitude |
| RootBasketCapture.GreaterUnsignedIsNumeric | schemas-src/root-basket-capture.ts:33-39 | on validated stamps the comparison is the order of the numbers |
| RootBasketCapture.HeaderIsOrdered | schemas-src/root-basket-capture.ts:156-173 | for validated stamps the header rules hold if and only if start is not after finish, completion not after the finalized block, and both counts are right |
| RootBasketCapture.FundsAreNotLate | schemas-src/root-basket-capture.ts:201-216 | a fund passes if and only if its first block is not after the finalized one and it has a receipt, its own address and unique parts |
| RootBasketCapture.TallyFunds | schemas-src/root-basket-capture.ts:174-177 | the tally counts the funds of every page |
| RootBasketCapture.CheckReceipts | schemas-src/root-basket-capture.ts:178-200 | no issue if and only if every receipt continues the chain, repeats no cursor and counts its funds |
| RootBasketCapture.CheckFunds | schemas-src/root-basket-capture.ts:201-216 | no issue if and only if every fund is unique, has a receipt, a valid stamp and unique parts |
| RootBasketCapture.Refine | schemas-src/root-basket-capture.ts:156-217 | no issue if and only if the capture meets all cross-field rules |
| RootBasketCapture.ContinuesExactly | schemas-src/root-basket-capture.ts:178-196 | in an accepted capture a cursor leads from each page to the next and nowhere else |
| RootBasketCapture.FollowingVisitsInOrder | schemas-src/root-basket-capture.ts:178-196 | every walk along `next_after` from null visits pages 0, 1, 2 and so on, each once |
| RootBasketCapture.FollowingReachesTheEnd | schemas-src/root-basket-capture.ts:178-196 | that walk covers all pages and can stop only at the last |
| RootBasketCapture.ReceiptsAccountForFunds | schemas-src/root-basket-capture.ts:168-200 | receipt counts sum to the funds, to `expected_funds`, and to at most 256 a page |
| Scale.CompactRoundTrip | scripts/backfill-neuron-history.py:73-84 | decoding inverts compact encoding in all four modes, after and before any bytes, with the exact next index (Appendix A.2.2 of the Polkadot Protocol Specification) |
| Scale.HexRoundTrip | scripts/backfill-neuron-history.py:87-88 | hexadecimal text of any bytes reads back |
| Scale.CaseIsIgnored | scripts/backfill-neuron-history.py:87-88 | hexadecimal digits count the same in either case |
| Scale.VecUintRoundTrip | scripts/backfill-neuron-history.py:91-96 | every vector of unsigned integers of every length and width comes back |
| Scale.VecBoolRoundTrip | scripts/backfill-neuron-history.py:99-104 | every vector of booleans comes back |
| Scale.TruncatedElementIsZero | scripts/backfill-neuron-history.py:96-96 | elements past the end of truncated data read as zero instead of failing |
| Scale.AbsentIsEmpty | scripts/backfill-neuron-history.py:91-104 | absent or empty storage is an empty vector |
| Scale.RatioKeepsOrder | scripts/backfill-neuron-history.py:107-108 | nine-decimal rounding never merges or reorders readings |
| Scale.FloatRoundsAlike | scripts/backfill-neuron-history.py:107-108 | any double as near to v / 65535 as a rounded division gives has the nine decimals of the exact ratio |
| Scale.RanksFollowReadings | scripts/backfill-neuron-history.py:266-274 | the rows ahead of a row are those with a higher raw 16-bit reading, ties by uid |
| Scale.AheadCount | scripts/backfill-neuron-history.py:267-273 | the place of a row in the sorted list is the number of rows ahead of it |
| Scale.AssignRanks | scripts/backfill-neuron-history.py:266-274 | a row's rank is one more than the number of rows ahead of it; rows without incentive have none |
| ArtifactBudgets.CompileGlob | scripts/artifact-budgets.ts:148-151 | escape-then-replace yields the intended expression for every pattern |
| ArtifactBudgets.MatchGivesFills | scripts/artifact-budgets.ts:144-151 | a match gives slash-free strings for the stars |
| ArtifactBudgets.FillsGiveMatch | scripts/artifact-budgets.ts:144-151 | any slash-free strings for the stars give a match |
| ArtifactBudgets.BudgetMatchesIsGlob | scripts/artifact-budgets.ts:137-152 | an entry matches if and only if the path is the pattern with slash-free strings for its stars |
| ArtifactBudgets.MatchKeepsDepth | scripts/artifact-budgets.ts:144-147 | a match has exactly the slashes of the pattern |
| ArtifactBudgets.BudgetFor | scripts/artifact-budgets.ts:130-135 | the first matching entry, or the default when none matches |
| SelectionSet.SelectFields | scripts/check-graphql-conformance.ts:203-221 | the loop computes the specified selection |
| SelectionSet.SelectionIsValid | scripts/check-graphql-conformance.ts:203-221 | on every schema, cyclic ones included, leaf fields are bare, object fields have a non-empty valid sub-selection, no required argument is left out (sections 5.3.3 and 5.4.2.1 of the GraphQL October 2021 specification) |
| SelectionSet.SelectionIsSmall | scripts/check-graphql-conformance.ts:203-221 | height and leaves at every depth |
| SelectionSet.ProbeIsBounded | scripts/check-graphql-conformance.ts:256-256 | a probe is at most 3 deep with at most 56 leaves |
| SelectionSet.NonEmptyIffProductive | scripts/check-graphql-conformance.ts:203-221 | a selection is empty if and only if no leaf is in reach without arguments |
| SelectionSet.SelectionTakesFirst | scripts/check-graphql-conformance.ts:203-221 | a selection is the first eight argument-free leaf fields followed by the first two argument-free fields with something below them |
| SelectionSet.ProbeIsValid | scripts/check-graphql-conformance.ts:256-264 | the selection of a planned query, wide or narrow, is valid for its field if and only if the field has a leaf type or a leaf in reach |
| SelectionSet.RingProbeIsInvalid | scripts/check-graphql-conformance.ts:256-264 | a field whose type only leads back to itself gets an invalid query |
| SelectionSet.NeedsNonNull | scripts/check-graphql-conformance.ts:209-209 | a field needs an argument if and only if it declares one of a non-null type, read off the type's text |
| SelectionSet.PlanArguments | scripts/check-graphql-conformance.ts:241-255 | every required argument is supplied in order, by its field's own fixture or else by the general one, and the plan is refused exactly when one has neither |

## Left out

- Network, timers, abort signals, DNS pinning and child processes; `Request` takes replies, clock steps and jitter as parameters.
- Thrift page headers, image decoding and building, JSON parsing and Zod base schemas; they are parameters, or their results are the model's input.
- `validateParquetPageIndex`, base64 of the footer and the row totals copied into a page index.
- Paging.FetchAll: a call for an unchecked run that never ends, where the source does not return; `Paging.EndsExactly` says which those are.
- `fetchAll` when `data` is itself an array or is not an object; `data` is a record of named values.
- `metagraphedFetch` and `metagraphedPaginate`, the same paging over a request without retries and store.
- Custom ETag stores that forget or share entries; the store is the bounded one. Its key hash is injective by assumption.
- Request.BackoffInRange: integer delay settings and retry counts; fractional ones and overflow of `2 ** attempt` are not modelled.
- PathTemplate.EncodedIsSafe: characters are Unicode scalar values; lone surrogates, for which encoding throws, are not modelled.
- PathTemplate.ThrowsOnFirstMissing: inherited object properties such as `constructor` count as missing.
- WorkerPool.FinishedPool: callbacks always settle; a rejecting callback and `readBoundedResponseText`, redirects and sanitizing of fixtures are not modelled.
- Order and wording of audit problems and validation issues: only whether there are any.
- Contract records are finite maps, so inherited property names and the order of entries are not modelled.
- Writers and readers of archive bundles, and deployed coverage; the audit is about declarations only.
- LogoPublication.Publisher.WriteDerivatives: symbolic links, the hexadecimal syntax of recorded hashes, partial cleanup and a second publisher at the same time are not modelled. The switch is not atomic: `display/` is absent between the two renames.
- NetworkRegistry.BuildsConverge: removing a listed entry that is no staging directory is one action, and a first try to remove one and the listing after it are one; other registry artifacts and crashes of a build are not modelled.
- Scale.CompactRoundTrip: numbers above 67 bytes, which the encoding excludes. White space inside hexadecimal text, storage keys and TAO conversion are not modelled.
- Scale.FloatRoundsAlike: the last step, from nine decimals to the nearest double, is not modelled; neighbouring results differ by 1e-9.
- The budget table, its thresholds and the summaries of `evaluateArtifactBudgets`.
- SelectionSet.SelectionIsValid: the text a selection is rendered to, `mirroredRoute` and argument literals.
- Declarations and tables of the OpenAPI registry, routes and lakehouse, Worker handlers, changelog and freshness verdicts: they would only add single-branch facts.
