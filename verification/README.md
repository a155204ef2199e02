# OpenNGC catalog query engine, modelled in Dafny

This project models the in-memory query engine of the astro-server `server`
module. The engine serves the OpenNGC deep-sky catalog. It has three parts:

- **The catalog store.** `OpenNGCService` holds "the current catalog, or none"
  in `catalogReference`. The startup load (`postConstruct`) and the scheduled
  reload (`fetchCatalog`) replace it wholesale on success. On failure they keep it
  unchanged and report nothing to the caller.
- **The predicate compiler.** `EntryFilters` turns optional criteria into an ordered
  list of entry predicates. The criteria are Messier flag, catalog name, object
  names, constellations, `vMagnitudeMax`, `vMagnitudeMin` and object types. A second
  list holds altitude predicates over extended entries. The service also has its
  own private four-criterion compiler.
- **The queries.** `list` and `listExtended` validate paging, return an empty page
  when no catalog is loaded, and filter by the AND of the predicates (every entry
  matches when there are none). They then hand the matches to the paginator
  `listToPage`. `getObject` returns the first entry with a given name.

Modules, one per file:

| file | module | models |
|---|---|---|
| `nullable.dfy` | `Nullable` | Kotlin nullable values as `Option` |
| `catalog.dfy` | `Catalog` | `Entry`, `ExtendedEntry`, the catalog's `find`, `findExtendedEntries`, `firstOrNull` by name |
| `exceptions.dfy` | `Exceptions` | the four request failures and `Result` |
| `paging.dfy` | `Paging` | `PagedList` and `listToPage` |
| `entry_filters.dfy` | `EntryFilters` | `EntryFilters.kt` |
| `ngc_service.dfy` | `NgcService` | `OpenNGCService.kt`: the store class, `list`, `listExtended`, `getObject`, the private compiler |

How the source maps to Dafny:

- Each compiled filter is a variant of `EntryFilters.Predicate`, interpreted by
  `EntryFilters.Eval`. `EntryFilters.Accepts` states directly, on the entry's
  fields, which entries a set of criteria admits. That is the reference the compiled
  lists are proved against.
- `vMagnitudeMax` keeps magnitudes numerically **at or above** its bound, and
  `vMagnitudeMin` keeps them **at or below** it. This inverted naming is the source's
  behaviour and is kept.
- The compilers append to a mutable list, so each is modelled as a method that
  appends step by step. Each method is proved equal to a function (`EntryPredicates`,
  `ExtendedEntryPredicates`, `ServicePredicates`). The lemmas are stated about
  those functions.
- `list`, `listExtended`, `listToPage` and `getObject` are expression pipelines, so
  they are functions. The service's functions read the `catalogReference` field.
- `ceil(n / pageSize.toDouble())` is computed as the integer `(n + pageSize - 1) / pageSize`.
  The two agree for every pair of positive 32-bit ints.
- The collaborators are passed in as parameters:
  - the catalog loader, as a `LoadOutcome` (a parsed catalog, or a failure);
  - the entry mapper `CatalogEntryMapper.map`, as a function `mapper`;
  - the horizontal-coordinate transform, as a function of the equatorial position,
    the observer and the time.

Where the versions of the code disagree, the model follows the code of
`OpenNGCService.kt` and `EntryFilters.kt` as they stand:

- `list` and `listExtended` take their four criteria as separate arguments. They
  filter with the service's private compiler (`OpenNGCService.kt:160-188`).
  `NgcService.ServicePredicates` is proved equal to `EntryFilters`' compiler with
  the magnitude and type criteria absent.
- `listExtended` applies only those entry predicates. The altitude predicates of
  `compileExtendedEntryPredicates` are modelled, but this `listExtended` does not use them.
- With no catalog loaded, both queries return `numberOfPages = -1`, as
  `OpenNGCService.kt:60` and `:101` are written. The test at
  `OpenNGCServiceNoCatalogTest.kt:45` targets a later version and expects 0.
- The catalog-name test is written two ways: `entry.catalogName.toString()` in the
  service's compiler (`OpenNGCService.kt:172`) and `entry.id.catalogName.name` in
  `EntryFilters.kt:60`. The model has one field, `Entry.catalogName`, for both. It
  therefore takes the two strings to be equal for every entry, and the proved
  equality of `NgcService.ServicePredicates` with `EntryFilters`' compiler rests on that.
- `PagedList` has no `numberOfEntries` field, so the model has none.
- `NoObjectsFoundError` is thrown at `OpenNGCService.kt:133` but is not declared in
  `Exceptions.kt`. The model still has it as a distinct failure, `NoObjectsFound`.

## Model

| member | source | states |
|---|---|---|
| `Catalog.Find` | server/src/main/kotlin/ch/guengel/astro/server/ngc/OpenNGCService.kt:70-75 | the catalog scan returns no more entries than the catalog holds, and exactly the catalog entries the test accepts |
| `Catalog.FindConcat` | server/src/main/kotlin/ch/guengel/astro/server/ngc/OpenNGCService.kt:70-75 | scanning a concatenation gives the first part's matches followed by the second part's, so matches stay in catalog order |
| `Catalog.FindAcceptingAll` | server/src/main/kotlin/ch/guengel/astro/server/ngc/OpenNGCService.kt:71 | a scan with an always-true test (`find { true }`) returns the catalog unchanged |
| `Catalog.FindRejectingAll` | server/src/main/kotlin/ch/guengel/astro/server/ngc/OpenNGCService.kt:70-75 | a scan whose test rejects every catalog entry returns nothing |
| `Catalog.FindExtendedEntries` | server/src/main/kotlin/ch/guengel/astro/server/ngc/OpenNGCService.kt:113-120 | the extended scan returns exactly the entries that have an equatorial position, paired with the transform's horizontal coordinates for the observer and time, that the test accepts, in catalog order (see `Catalog.FindExtendedEntriesConcat`); entries without a position never appear |
| `Catalog.FindExtendedEntriesConcat` | server/src/main/kotlin/ch/guengel/astro/server/ngc/OpenNGCService.kt:113-120 | the extended scan of a concatenation is the first part's extended matches followed by the second's, so extended matches stay in catalog order and each entry contributes at most once where it stands |
| `Catalog.FirstIndexNamed` | server/src/main/kotlin/ch/guengel/astro/server/ngc/OpenNGCService.kt:190-192 | `firstOrNull` by name: the index found carries the name and no earlier entry does; none is found only when no entry carries the name |
| `Paging.NumberOfPages` | server/src/main/kotlin/ch/guengel/astro/server/ngc/OpenNGCService.kt:136 | the page count is the ceiling of n / pageSize: k pages hold all n entries, k - 1 pages do not, and it is 0 only for no entries |
| `Paging.PageStartsInside` | server/src/main/kotlin/ch/guengel/astro/server/ngc/OpenNGCService.kt:137-141 | a page index below the page count starts inside the match list |
| `Paging.ListToPage` | server/src/main/kotlin/ch/guengel/astro/server/ngc/OpenNGCService.kt:125-158 | no matches fail with NoObjectsFound; an index at or past the page count fails with PageOutOfBounds, carrying index and count; otherwise the page holds min(pageSize, n - pageIndex*pageSize) entries, the i-th being the mapped match at pageIndex*pageSize + i; index, size and count are echoed; firstPage iff the index is 0; lastPage iff the index is count - 1, iff the page reaches the end; next and previous index are index + 1 and index - 1 except on the last and first page |
| `Paging.PagesUpToArePrefix` | server/src/main/kotlin/ch/guengel/astro/server/ngc/OpenNGCService.kt:136-145 | pages 0 .. k-1 concatenated are exactly the first min(n, k*pageSize) mapped matches |
| `Paging.PagesRebuildAllEntries` | server/src/main/kotlin/ch/guengel/astro/server/ngc/OpenNGCService.kt:136-145 | concatenating all pages in index order rebuilds the full mapped match list, each match once and in order |
| `Paging.SinglePageIsFirstAndLast` | server/src/main/kotlin/ch/guengel/astro/server/ngc/OpenNGCService.kt:147-148 | a page is both first and last iff there is exactly one page |
| `Paging.HundredMatchesLastPage` | server/src/test/kotlin/ch/guengel/astro/server/ngc/OpenNGCServiceIT.kt:117-127 | 100 matches at 24 per page: page 4 exists, holds 4 entries, is the last of 5, has no next index and previous index 3 |
| `EntryFilters.Eval` | server/src/main/kotlin/ch/guengel/astro/server/ngc/EntryFilters.kt:26-66 | a filter on an optional field (constellation, vMag) rejects every entry that lacks the field; both magnitude bounds are inclusive, an entry whose vMag equals the bound passes |
| `EntryFilters.MessierFilter` | server/src/main/kotlin/ch/guengel/astro/server/ngc/EntryFilters.kt:64-68 | adds one predicate iff the Messier flag is given; it holds iff the entry's Messier status equals the flag |
| `EntryFilters.CatalogFilter` | server/src/main/kotlin/ch/guengel/astro/server/ngc/EntryFilters.kt:58-62 | adds one predicate iff a catalog name is given; it holds iff the entry's catalog name equals it exactly |
| `EntryFilters.ObjectsFilter` | server/src/main/kotlin/ch/guengel/astro/server/ngc/EntryFilters.kt:52-56 | adds one predicate iff the object-name set is given and non-empty; it holds iff the entry's name is in the set |
| `EntryFilters.ConstellationFilter` | server/src/main/kotlin/ch/guengel/astro/server/ngc/EntryFilters.kt:42-50 | adds one predicate iff the constellation set is given and non-empty; it holds iff the entry has a constellation whose abbreviation or full name is in the set |
| `EntryFilters.VMagnitudeMaxFilter` | server/src/main/kotlin/ch/guengel/astro/server/ngc/EntryFilters.kt:36-40 | adds one predicate iff vMagnitudeMax is given; it holds iff the entry has a vMag and vMag >= the bound |
| `EntryFilters.VMagnitudeMinFilter` | server/src/main/kotlin/ch/guengel/astro/server/ngc/EntryFilters.kt:30-34 | adds one predicate iff vMagnitudeMin is given; it holds iff the entry has a vMag and vMag <= the bound |
| `EntryFilters.TypesFilter` | server/src/main/kotlin/ch/guengel/astro/server/ngc/EntryFilters.kt:24-28 | adds one predicate iff the type set is given and non-empty; it holds iff the entry's object-type abbreviation is in the set |
| `EntryFilters.EntryPredicates` | server/src/main/kotlin/ch/guengel/astro/server/ngc/EntryFilters.kt:10-22 | the compiled list has at most seven predicates, each standing for a criterion in force |
| `EntryFilters.AppendCriterion` | server/src/main/kotlin/ch/guengel/astro/server/ngc/EntryFilters.kt:10-22 | appending one criterion's contribution behind the earlier criteria keeps the list in criterion order and covering exactly the criteria in force |
| `EntryFilters.AllHoldConcat` | server/src/main/kotlin/ch/guengel/astro/server/ngc/EntryFilters.kt:10-22 | the AND over a concatenated list is the AND of both parts |
| `EntryFilters.EntryPredicatesOnePerCriterion` | server/src/main/kotlin/ch/guengel/astro/server/ngc/EntryFilters.kt:10-22 | the compiled list has at most 7 predicates in the fixed order messier, catalog, objects, constellations, vMagnitudeMax, vMagnitudeMin, types, and has one exactly for each criterion in force |
| `EntryFilters.EntryPredicatesMeanAccepts` | server/src/main/kotlin/ch/guengel/astro/server/ngc/EntryFilters.kt:10-68 | an entry passes all compiled predicates iff it meets every criterion in force |
| `EntryFilters.AllCriteriaGiveSevenPredicates` | server/src/test/kotlin/ch/guengel/astro/server/ngc/EntryFiltersTest.kt:23-38 | every criterion given, with non-empty sets: seven predicates |
| `EntryFilters.NoCriteriaGiveNoPredicates` | server/src/main/kotlin/ch/guengel/astro/server/ngc/EntryFilters.kt:10-22 | no criterion in force (absent, or an empty set): the empty list |
| `EntryFilters.MagnitudeBoundsAreInverted` | server/src/test/kotlin/ch/guengel/astro/server/ngc/EntryFiltersTest.kt:140-175 | vMag 8.1 passes "max 8.0" and fails "min 8.0"; vMag 7.9 the converse |
| `EntryFilters.CompileEntryPredicates` | server/src/main/kotlin/ch/guengel/astro/server/ngc/EntryFilters.kt:10-22 | the appending compiler builds exactly the list `EntryPredicates` describes |
| `EntryFilters.ExtendedEntryPredicates` | server/src/main/kotlin/ch/guengel/astro/server/ngc/EntryFilters.kt:70-82 | at most two predicates; an altitudeMax predicate iff that bound is given, an altitudeMin one iff that bound is given, max before min; together they hold iff the altitude is <= altitudeMax and >= altitudeMin where given |
| `EntryFilters.EvalExtended` | server/src/main/kotlin/ch/guengel/astro/server/ngc/EntryFilters.kt:74-78 | both altitude bounds are inclusive: an altitude equal to the bound passes, one above altitudeMax or below altitudeMin fails |
| `EntryFilters.CompileExtendedEntryPredicates` | server/src/main/kotlin/ch/guengel/astro/server/ngc/EntryFilters.kt:70-82 | the appending compiler builds exactly the list `ExtendedEntryPredicates` describes |
| `Paging.MapEntries` | server/src/main/kotlin/ch/guengel/astro/server/ngc/OpenNGCService.kt:142-144 | the page slice mapped through `mapper`: same length, and the i-th result is the mapper applied to the i-th entry |
| `NgcService.ReduceAnd` | server/src/main/kotlin/ch/guengel/astro/server/ngc/OpenNGCService.kt:72-74 | the left fold of AND over a non-empty list holds iff every element holds |
| `NgcService.EvalAll` | server/src/main/kotlin/ch/guengel/astro/server/ngc/OpenNGCService.kt:72-73 | one truth value per predicate, in predicate order, each the predicate applied to the entry |
| `NgcService.MatchingEntries` | server/src/main/kotlin/ch/guengel/astro/server/ngc/OpenNGCService.kt:70-75 | the match list is no longer than the catalog and holds exactly the catalog entries on which every predicate holds; with no predicates, every entry |
| `NgcService.NoPredicatesMatchWholeCatalog` | server/src/main/kotlin/ch/guengel/astro/server/ngc/OpenNGCService.kt:71 | with no predicates the match list is the catalog itself |
| `NgcService.NothingAcceptedMatchesNothing` | server/src/main/kotlin/ch/guengel/astro/server/ngc/OpenNGCService.kt:70-75 | when the predicates reject every catalog entry the match list is empty |
| `NgcService.MatchingKeepsCatalogOrder` | server/src/main/kotlin/ch/guengel/astro/server/ngc/OpenNGCService.kt:70-75 | matching over a concatenated catalog gives the first part's matches followed by the second's |
| `NgcService.MatchingExtendedEntries` | server/src/main/kotlin/ch/guengel/astro/server/ngc/OpenNGCService.kt:113-120 | the extended match list holds exactly the positioned catalog entries, extended for the observer and time, on which every predicate holds, in catalog order (see `NgcService.MatchingExtendedKeepsCatalogOrder`) |
| `NgcService.MatchingExtendedKeepsCatalogOrder` | server/src/main/kotlin/ch/guengel/astro/server/ngc/OpenNGCService.kt:113-120 | extended matching over a concatenated catalog gives the first part's extended matches followed by the second's, so the pages of `listExtended` follow catalog order |
| `NgcService.NoCatalogPage` | server/src/main/kotlin/ch/guengel/astro/server/ngc/OpenNGCService.kt:56-65 | the no-catalog page is empty, has index 0 and the caller's size, a negative page count, no navigation, and is neither first nor last |
| `NgcService.NoCatalogPageIsNoListedPage` | server/src/main/kotlin/ch/guengel/astro/server/ngc/OpenNGCService.kt:56-65 | the paginator never returns the no-catalog page, so a caller can tell "no catalog loaded" from every page of a loaded catalog |
| `NgcService.ServicePredicates` | server/src/main/kotlin/ch/guengel/astro/server/ngc/OpenNGCService.kt:160-188 | the private four-criterion compiler gives the same list as `EntryFilters`' compiler with magnitude and type criteria absent |
| `NgcService.ServicePredicatesMeanAccepts` | server/src/main/kotlin/ch/guengel/astro/server/ngc/OpenNGCService.kt:160-188 | an entry passes the private compiler's predicates iff it meets each of the Messier, catalog, object-name and constellation criteria in force |
| `NgcService.OpenNGCService.constructor` | server/src/main/kotlin/ch/guengel/astro/server/ngc/OpenNGCService.kt:25 | the store starts with no catalog |
| `NgcService.OpenNGCService.Entries` | server/src/main/kotlin/ch/guengel/astro/server/ngc/OpenNGCService.kt:191 | the loaded entries; with no catalog loaded, the empty list |
| `NgcService.OpenNGCService.PostConstruct` | server/src/main/kotlin/ch/guengel/astro/server/ngc/OpenNGCService.kt:32-40 | a successful load replaces the stored catalog; a failed one leaves it unchanged and raises nothing |
| `NgcService.OpenNGCService.FetchCatalog` | server/src/main/kotlin/ch/guengel/astro/server/ngc/OpenNGCService.kt:202-211 | a successful fetch replaces the stored catalog; a failed one leaves it unchanged and raises nothing |
| `NgcService.OpenNGCService.CompileEntryPredicates` | server/src/main/kotlin/ch/guengel/astro/server/ngc/OpenNGCService.kt:160-188 | the appending private compiler builds exactly `ServicePredicates` |
| `NgcService.OpenNGCService.List` | server/src/main/kotlin/ch/guengel/astro/server/ngc/OpenNGCService.kt:42-78 | negative index, then non-positive size, fail with InvalidArgument whatever the store holds; with no catalog, an empty page with index 0, the caller's size, numberOfPages -1, no navigation, neither first nor last; otherwise the paginated matches of the compiled predicates |
| `NgcService.OpenNGCService.ListExtended` | server/src/main/kotlin/ch/guengel/astro/server/ngc/OpenNGCService.kt:80-123 | the same validation and no-catalog page as `List`; otherwise the paginated extended matches for the observer at (latitude, longitude) and the local time |
| `NgcService.OpenNGCService.GetObject` | server/src/main/kotlin/ch/guengel/astro/server/ngc/OpenNGCService.kt:190-194 | succeeds iff some loaded entry carries the name (no catalog counts as empty), returning the mapped first such entry; otherwise fails with ObjectNotFound for that name |
| `NgcService.ListPageHoldsOnlyAcceptedEntries` | server/src/main/kotlin/ch/guengel/astro/server/ngc/OpenNGCService.kt:68-77 | every entry on a page of `list` is the mapped form of a catalog entry that meets every given criterion |
| `NgcService.ListWithoutCriteriaPagesWholeCatalog` | server/src/main/kotlin/ch/guengel/astro/server/ngc/OpenNGCService.kt:68-77 | with no criteria, or only empty sets, `list` pages the whole catalog |
| `NgcService.ListUnknownObjectFindsNothing` | server/src/test/kotlin/ch/guengel/astro/server/ngc/OpenNGCServiceIT.kt:154-162 | filtering by a name no entry carries fails with NoObjectsFound |
| `NgcService.SingleNamedMatch` | server/src/main/kotlin/ch/guengel/astro/server/ngc/OpenNGCService.kt:70-75 | matching on a name carried by exactly one entry yields that entry alone |
| `NgcService.ListSingleNamedObject` | server/src/main/kotlin/ch/guengel/astro/server/ngc/OpenNGCService.kt:68-77 | filtering by a name exactly one entry carries gives one page holding exactly that entry's mapped form, both first and last |
| `NgcService.ListExtendedPageHoldsOnlyPositionedEntries` | server/src/main/kotlin/ch/guengel/astro/server/ngc/OpenNGCService.kt:109-122 | every entry on a page of `listExtended` is the mapped form of a positioned catalog entry that meets every criterion, with the transform's coordinates for the observer and time |

## Left out

- Catalog acquisition (`CatalogProvider.loadCatalog` / `fetchCatalog`, CSV parsing, file I/O) is not modelled. Its result is a `LoadOutcome` parameter.
- Logging is dropped: the load and fetch failure messages (`OpenNGCService.kt:38`, `:209`), "No catalog loaded" (`:55`, `:96`) and "Reload catalog" (`:204`). None of them changes a result.
- `CatalogEntryMapper` is not part of this model. Mapping to the external records is an arbitrary `mapper` function parameter.
- The equatorial-to-horizontal transform and the `Angle` arithmetic are not modelled. They are an arbitrary function parameter.
- Latitude, longitude, magnitudes and altitudes are `real`, not `Double`. The model only compares them.
- `AtomicReference` concurrency is not modelled. The store is one field, assigned in one step.
- `objectTypes` and `constellations` (`OpenNGCService.kt:26-30`) are left out. They only map the library's enumerations.
- `getLastCatalogUpdate` is left out. It passes a file timestamp through.
- Entry fields that no query reads (axes, other magnitude bands, notes) are left out.
- `getObjectExtended` and the `numberOfEntries` field are not in this version of the code.
- Paging uses unbounded integers. `pageIndex * pageSize + pageSize` in 32-bit `Int` could only overflow for match lists of more than 2^30 entries, and the model does not reproduce that overflow.
- `Paging.ListToPage` requires `pageSize > 0` and `pageIndex >= 0`. It is private, and both of its callers check these first (`OpenNGCService.kt:50-51`, `:91-92`).
- Exception messages are kept only for the validation failures and NoObjectsFound. PageOutOfBounds and ObjectNotFound carry the values their messages embed.
- The HTTP layer, the exception mappers and the catalog-fetcher module are not part of this model.
