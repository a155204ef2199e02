/**
 * The query engine of `OpenNGCService`: the catalog store, the list queries
 * with their validation and filtering, and the single-object lookup.
 *
 * The catalog loader, the entry mapper and the coordinate transform are
 * collaborators whose results are passed in as parameters.
 */
module NgcService {
  import opened Nullable
  import opened Catalog
  import opened Exceptions
  import opened Paging
  import EntryFilters

  type Predicate = EntryFilters.Predicate

  const PageIndexMessage := "page index must be equal or greater than 0"
  const PageSizeMessage := "page size must be greater than 1"

  /** What the catalog loader produced: a fully parsed catalog, or a failure. */
  datatype LoadOutcome = Loaded(catalog: Catalog) | LoadFailed(reason: string)

  /** Kotlin's `reduce { acc, b -> acc && b }` over a non-empty list: a left fold of AND. */
  function ReduceAnd(bs: seq<bool>): (r: bool)
    requires |bs| > 0
    ensures r <==> forall i :: 0 <= i < |bs| ==> bs[i]
  {
    if |bs| == 1 then bs[0] else ReduceAnd(bs[..|bs| - 1]) && bs[|bs| - 1]
  }

  /** `predicates.map { predicate -> predicate(entry) }` */
  function EvalAll(predicates: seq<Predicate>, e: Entry): (r: seq<bool>)
    ensures |r| == |predicates|
    ensures forall i :: 0 <= i < |predicates| ==> r[i] == EntryFilters.Eval(predicates[i], e)
  {
    seq(|predicates|, i requires 0 <= i < |predicates| => EntryFilters.Eval(predicates[i], e))
  }

  /**
   * The match list of `list`: the whole catalog when there are no predicates,
   * otherwise the entries on which the AND of all predicates holds, in catalog order.
   */
  function MatchingEntries(catalog: Catalog, predicates: seq<Predicate>): (r: seq<Entry>)
    ensures |r| <= |catalog|
    ensures forall e :: e in r <==> e in catalog && EntryFilters.AllHold(predicates, e)
  {
    if predicates == [] then Find(catalog, e => true)
    else Find(catalog, e => ReduceAnd(EvalAll(predicates, e)))
  }

  /** Without predicates every entry matches: the match list is the catalog itself. */
  lemma NoPredicatesMatchWholeCatalog(catalog: Catalog)
    ensures MatchingEntries(catalog, []) == catalog
  {
    FindAcceptingAll(catalog, e => true);
  }

  /** When the predicates reject every entry, nothing matches. */
  lemma NothingAcceptedMatchesNothing(catalog: Catalog, predicates: seq<Predicate>)
    requires forall e :: e in catalog ==> !EntryFilters.AllHold(predicates, e)
    ensures MatchingEntries(catalog, predicates) == []
  {
    if predicates == [] {
      FindRejectingAll(catalog, e => true);
    } else {
      FindRejectingAll(catalog, e => ReduceAnd(EvalAll(predicates, e)));
    }
  }

  /** Matches keep catalog order: matching a concatenation matches each part, the first part first. */
  lemma MatchingKeepsCatalogOrder(a: Catalog, b: Catalog, predicates: seq<Predicate>)
    ensures MatchingEntries(a + b, predicates) == MatchingEntries(a, predicates) + MatchingEntries(b, predicates)
  {
    if predicates == [] {
      FindConcat(a, b, e => true);
    } else {
      FindConcat(a, b, e => ReduceAnd(EvalAll(predicates, e)));
    }
  }

  /**
   * The match list of `listExtended`: entries with an equatorial position,
   * extended for the observer and time, on which the AND of all predicates
   * holds, in catalog order.
   */
  function MatchingExtendedEntries(catalog: Catalog, observer: GeographicCoordinates, time: OffsetDateTime,
                                   toHorizontal: HorizontalTransform, predicates: seq<Predicate>): (r: seq<ExtendedEntry>)
    ensures forall x :: x in r <==>
      && x.entry in catalog
      && x.entry.position.Some?
      && x.horizontalCoordinates == toHorizontal(x.entry.position.value, observer, time)
      && EntryFilters.AllHold(predicates, x.entry)
  {
    if predicates == [] then FindExtendedEntries(catalog, observer, time, toHorizontal, (x: ExtendedEntry) => true)
    else FindExtendedEntries(catalog, observer, time, toHorizontal, (x: ExtendedEntry) => ReduceAnd(EvalAll(predicates, x.entry)))
  }

  /** Extended matches keep catalog order: matching a concatenation matches each part, the first part first. */
  lemma MatchingExtendedKeepsCatalogOrder(a: Catalog, b: Catalog, observer: GeographicCoordinates, time: OffsetDateTime,
                                          toHorizontal: HorizontalTransform, predicates: seq<Predicate>)
    ensures MatchingExtendedEntries(a + b, observer, time, toHorizontal, predicates)
         == MatchingExtendedEntries(a, observer, time, toHorizontal, predicates)
          + MatchingExtendedEntries(b, observer, time, toHorizontal, predicates)
  {
    if predicates == [] {
      FindExtendedEntriesConcat(a, b, observer, time, toHorizontal, (x: ExtendedEntry) => true);
    } else {
      FindExtendedEntriesConcat(a, b, observer, time, toHorizontal,
                                (x: ExtendedEntry) => ReduceAnd(EvalAll(predicates, x.entry)));
    }
  }

  /**
   * The page `list` returns while no catalog is loaded: empty, neither first
   * nor last, with no navigation and a page count of -1.
   */
  function NoCatalogPage<O>(pageSize: int): (r: PagedList<O>)
    ensures r.entryList == [] && r.pageIndex == 0 && r.pageSize == pageSize
    ensures r.numberOfPages < 0
    ensures !r.firstPage && !r.lastPage && r.nextPageIndex.None? && r.previousPageIndex.None?
  {
    PagedList([], 0, pageSize, -1, None, None, false, false)
  }

  /**
   * A caller can tell the no-catalog page from every page of a loaded catalog:
   * the paginator never returns it, whatever the matches.
   */
  lemma NoCatalogPageIsNoListedPage<I, O>(allEntries: seq<I>, pageSize: int, pageIndex: int, mapper: I -> O)
    requires pageSize > 0 && pageIndex >= 0
    ensures ListToPage(allEntries, pageSize, pageIndex, mapper) != Ok(NoCatalogPage(pageSize))
  {
  }

  /** The service's private `compileEntryPredicates`, over the four criteria its `list` accepts. */
  function ServicePredicates(messier: Option<bool>, catalog: Option<string>,
                             objects: Option<set<string>>, constellations: Option<set<string>>): (r: seq<Predicate>)
    ensures r == EntryFilters.EntryPredicates(
      EntryFilters.ListArguments(messier, catalog, objects, constellations, None, None, None))
  {
    (if messier.Some? then [EntryFilters.MessierIs(messier.value)] else [])
    + (if catalog.Some? then [EntryFilters.CatalogIs(catalog.value)] else [])
    + (if objects.Some? && objects.value != {} then [EntryFilters.NameIn(objects.value)] else [])
    + (if constellations.Some? && constellations.value != {}
       then [EntryFilters.ConstellationIn(constellations.value)] else [])
  }

  /** The four-criterion filter admits exactly the entries that meet every criterion given. */
  lemma ServicePredicatesMeanAccepts(messier: Option<bool>, catalog: Option<string>,
                                     objects: Option<set<string>>, constellations: Option<set<string>>, e: Entry)
    ensures EntryFilters.AllHold(ServicePredicates(messier, catalog, objects, constellations), e) <==>
      && (messier.Some? ==> e.IsMessier() == messier.value)
      && (catalog.Some? ==> e.catalogName == catalog.value)
      && (EntryFilters.NonEmpty(objects) ==> e.name in objects.value)
      && (EntryFilters.NonEmpty(constellations) ==>
            e.constellation.Some? &&
            (e.constellation.value.abbrev in constellations.value ||
             e.constellation.value.fullname in constellations.value))
  {
    EntryFilters.EntryPredicatesMeanAccepts(
      EntryFilters.ListArguments(messier, catalog, objects, constellations, None, None, None), e);
  }

  /** The service: the current catalog snapshot, or none. */
  class OpenNGCService {
    var catalogReference: Option<Catalog>

    constructor ()
      ensures catalogReference == None
    {
      catalogReference := None;
    }

    /** The loaded entries; a missing catalog counts as an empty one. */
    function Entries(): (r: Catalog)
      reads this
      ensures catalogReference.None? ==> r == []
      ensures catalogReference.Some? ==> r == catalogReference.value
    {
      if catalogReference.Some? then catalogReference.value else []
    }

    /** Startup load: replaces the snapshot on success, keeps it on failure, never fails itself. */
    method PostConstruct(loaded: LoadOutcome)
      modifies this
      ensures loaded.Loaded? ==> catalogReference == Some(loaded.catalog)
      ensures loaded.LoadFailed? ==> catalogReference == old(catalogReference)
    {
      match loaded
      case Loaded(catalog) =>
        catalogReference := Some(catalog);
      case LoadFailed(_) =>
    }

    /** Scheduled reload: replaces the snapshot on success, keeps it on failure, never fails itself. */
    method FetchCatalog(fetched: LoadOutcome)
      modifies this
      ensures fetched.Loaded? ==> catalogReference == Some(fetched.catalog)
      ensures fetched.LoadFailed? ==> catalogReference == old(catalogReference)
    {
      if fetched.Loaded? {
        catalogReference := Some(fetched.catalog);
      }
    }

    /** The private `compileEntryPredicates`: appends one predicate per supplied criterion. */
    static method CompileEntryPredicates(messier: Option<bool>, catalog: Option<string>,
                                         objects: Option<set<string>>, constellations: Option<set<string>>)
      returns (predicates: seq<Predicate>)
      ensures predicates == ServicePredicates(messier, catalog, objects, constellations)
    {
      ghost var m := if messier.Some? then [EntryFilters.MessierIs(messier.value)] else [];
      ghost var c := if catalog.Some? then [EntryFilters.CatalogIs(catalog.value)] else [];
      ghost var o := if objects.Some? && objects.value != {} then [EntryFilters.NameIn(objects.value)] else [];
      ghost var cs := if constellations.Some? && constellations.value != {}
                then [EntryFilters.ConstellationIn(constellations.value)] else [];
      predicates := [];
      if messier.Some? {
        predicates := predicates + [EntryFilters.MessierIs(messier.value)];
      }
      assert predicates == m;
      if catalog.Some? {
        predicates := predicates + [EntryFilters.CatalogIs(catalog.value)];
      }
      assert predicates == m + c;
      if objects.Some? && objects.value != {} {
        predicates := predicates + [EntryFilters.NameIn(objects.value)];
      }
      assert predicates == m + c + o;
      if constellations.Some? && constellations.value != {} {
        predicates := predicates + [EntryFilters.ConstellationIn(constellations.value)];
      }
      assert predicates == m + c + o + cs;
    }

    /**
     * `list`: validates the paging arguments before anything else; with no
     * catalog returns an empty page; otherwise pages the matching entries.
     */
    function List<O>(pageIndex: int, pageSize: int, messier: Option<bool>, catalog: Option<string>,
                     objects: Option<set<string>>, constellations: Option<set<string>>,
                     mapper: Entry -> O): (r: Result<PagedList<O>>)
      reads this
      ensures pageIndex < 0 ==> r == Err(InvalidArgument(PageIndexMessage))
      ensures pageIndex >= 0 && pageSize <= 0 ==> r == Err(InvalidArgument(PageSizeMessage))
      ensures pageIndex >= 0 && pageSize > 0 && catalogReference.None? ==>
        && r.Ok?
        && r.value.entryList == []
        && r.value.pageIndex == 0 && r.value.pageSize == pageSize && r.value.numberOfPages == -1
        && r.value.nextPageIndex.None? && r.value.previousPageIndex.None?
        && !r.value.firstPage && !r.value.lastPage
      ensures pageIndex >= 0 && pageSize > 0 && catalogReference.Some? ==>
        r == ListToPage(MatchingEntries(catalogReference.value,
                                        ServicePredicates(messier, catalog, objects, constellations)),
                        pageSize, pageIndex, mapper)
    {
      if pageIndex < 0 then Err(InvalidArgument(PageIndexMessage))
      else if pageSize <= 0 then Err(InvalidArgument(PageSizeMessage))
      else if catalogReference.None? then Ok(NoCatalogPage(pageSize))
      else
        var entryPredicates := ServicePredicates(messier, catalog, objects, constellations);
        ListToPage(MatchingEntries(catalogReference.value, entryPredicates), pageSize, pageIndex, mapper)
    }

    /**
     * `listExtended`: as `list`, but over the entries that have a position,
     * each extended with its horizontal coordinates for the given observer and time.
     */
    function ListExtended<O>(longitude: real, latitude: real, localTime: OffsetDateTime,
                             pageIndex: int, pageSize: int, messier: Option<bool>, catalog: Option<string>,
                             objects: Option<set<string>>, constellations: Option<set<string>>,
                             toHorizontal: HorizontalTransform, mapper: ExtendedEntry -> O): (r: Result<PagedList<O>>)
      reads this
      ensures pageIndex < 0 ==> r == Err(InvalidArgument(PageIndexMessage))
      ensures pageIndex >= 0 && pageSize <= 0 ==> r == Err(InvalidArgument(PageSizeMessage))
      ensures pageIndex >= 0 && pageSize > 0 && catalogReference.None? ==>
        && r.Ok?
        && r.value.entryList == []
        && r.value.pageIndex == 0 && r.value.pageSize == pageSize && r.value.numberOfPages == -1
        && r.value.nextPageIndex.None? && r.value.previousPageIndex.None?
        && !r.value.firstPage && !r.value.lastPage
      ensures pageIndex >= 0 && pageSize > 0 && catalogReference.Some? ==>
        r == ListToPage(MatchingExtendedEntries(catalogReference.value, GeographicCoordinates(latitude, longitude),
                                                localTime, toHorizontal,
                                                ServicePredicates(messier, catalog, objects, constellations)),
                        pageSize, pageIndex, mapper)
    {
      if pageIndex < 0 then Err(InvalidArgument(PageIndexMessage))
      else if pageSize <= 0 then Err(InvalidArgument(PageSizeMessage))
      else if catalogReference.None? then Ok(NoCatalogPage(pageSize))
      else
        var entryPredicates := ServicePredicates(messier, catalog, objects, constellations);
        var geographicCoordinates := GeographicCoordinates(latitude, longitude);
        ListToPage(MatchingExtendedEntries(catalogReference.value, geographicCoordinates, localTime,
                                           toHorizontal, entryPredicates),
                   pageSize, pageIndex, mapper)
    }

    /**
     * `getObject`: the mapped first entry carrying the name; ObjectNotFound
     * when there is none, a missing catalog counting as an empty one.
     */
    function GetObject<O>(objectName: string, mapper: Entry -> O): (r: Result<O>)
      reads this
      ensures r.Err? ==> r.error == ObjectNotFound(objectName)
      ensures r.Ok? <==> exists i :: 0 <= i < |Entries()| && Entries()[i].name == objectName
      ensures r.Ok? ==> exists i ::
        && 0 <= i < |Entries()|
        && Entries()[i].name == objectName
        && r.value == mapper(Entries()[i])
        && (forall j :: 0 <= j < i ==> Entries()[j].name != objectName)
    {
      var entries := Entries();
      match FirstIndexNamed(entries, objectName)
      case Some(i) => Ok(mapper(entries[i]))
      case None => Err(ObjectNotFound(objectName))
    }
  }

  /** The filter arguments the service's four-criterion `list` stands for. */
  function FourCriteria(messier: Option<bool>, catalog: Option<string>,
                        objects: Option<set<string>>, constellations: Option<set<string>>): EntryFilters.ListArguments
  {
    EntryFilters.ListArguments(messier, catalog, objects, constellations, None, None, None)
  }

  /** `item` is the mapped form of a catalog entry that meets the criteria. */
  ghost predicate MappedFromAccepted<O>(catalog: Catalog, args: EntryFilters.ListArguments, mapper: Entry -> O, item: O) {
    exists e :: e in catalog && EntryFilters.Accepts(args, e) && item == mapper(e)
  }

  /**
   * Every entry on a page of `list` is the mapped form of a catalog entry that
   * meets every given criterion.
   */
  lemma ListPageHoldsOnlyAcceptedEntries<O>(service: OpenNGCService, pageIndex: int, pageSize: int,
                                            messier: Option<bool>, catalog: Option<string>,
                                            objects: Option<set<string>>, constellations: Option<set<string>>,
                                            mapper: Entry -> O, page: PagedList<O>)
    requires service.catalogReference.Some?
    requires service.List(pageIndex, pageSize, messier, catalog, objects, constellations, mapper) == Ok(page)
    ensures forall i :: 0 <= i < |page.entryList| ==>
      MappedFromAccepted(service.catalogReference.value, FourCriteria(messier, catalog, objects, constellations),
                         mapper, page.entryList[i])
  {
    var cat := service.catalogReference.value;
    var args := FourCriteria(messier, catalog, objects, constellations);
    var matches := MatchingEntries(cat, ServicePredicates(messier, catalog, objects, constellations));
    assert ListToPage(matches, pageSize, pageIndex, mapper) == Ok(page);
    forall i | 0 <= i < |page.entryList|
      ensures MappedFromAccepted(cat, args, mapper, page.entryList[i])
    {
      PageEntryIsMappedMatch(matches, pageSize, pageIndex, mapper, page, i);
      var e := matches[pageIndex * pageSize + i];
      MatchIsAccepted(cat, messier, catalog, objects, constellations, e);
    }
  }

  /** A match of the four-criterion predicates is a catalog entry that meets the criteria. */
  lemma MatchIsAccepted(cat: Catalog, messier: Option<bool>, catalog: Option<string>,
                        objects: Option<set<string>>, constellations: Option<set<string>>, e: Entry)
    requires e in MatchingEntries(cat, ServicePredicates(messier, catalog, objects, constellations))
    ensures e in cat && EntryFilters.Accepts(FourCriteria(messier, catalog, objects, constellations), e)
  {
    EntryFilters.EntryPredicatesMeanAccepts(FourCriteria(messier, catalog, objects, constellations), e);
  }

  /** Absent criteria and empty sets filter nothing: `list` pages the whole catalog. */
  lemma ListWithoutCriteriaPagesWholeCatalog<O>(service: OpenNGCService, pageIndex: int, pageSize: int,
                                                objects: Option<set<string>>, constellations: Option<set<string>>,
                                                mapper: Entry -> O)
    requires service.catalogReference.Some? && pageIndex >= 0 && pageSize > 0
    requires objects.None? || objects == Some({})
    requires constellations.None? || constellations == Some({})
    ensures service.List(pageIndex, pageSize, None, None, objects, constellations, mapper)
         == ListToPage(service.catalogReference.value, pageSize, pageIndex, mapper)
  {
    assert ServicePredicates(None, None, objects, constellations) == [];
    NoPredicatesMatchWholeCatalog(service.catalogReference.value);
  }

  /** Filtering by a name no entry carries: NoObjectsFound. */
  lemma ListUnknownObjectFindsNothing<O>(service: OpenNGCService, pageIndex: int, pageSize: int,
                                         name: string, mapper: Entry -> O)
    requires service.catalogReference.Some? && pageIndex >= 0 && pageSize > 0
    requires forall e :: e in service.catalogReference.value ==> e.name != name
    ensures service.List(pageIndex, pageSize, None, None, Some({name}), None, mapper)
         == Err(NoObjectsFound(NoObjectsMessage))
  {
    var predicates := ServicePredicates(None, None, Some({name}), None);
    var matches := MatchingEntries(service.catalogReference.value, predicates);
    assert predicates == [EntryFilters.NameIn({name})];
    EntryFilters.AllHoldOfSingletons();
    NothingAcceptedMatchesNothing(service.catalogReference.value, predicates);
  }

  /** Matching on the name of an entry whose name no other entry carries finds that entry alone. */
  lemma SingleNamedMatch(cat: Catalog, j: nat)
    requires j < |cat|
    requires forall k :: 0 <= k < |cat| && k != j ==> cat[k].name != cat[j].name
    ensures MatchingEntries(cat, [EntryFilters.NameIn({cat[j].name})]) == [cat[j]]
  {
    var entry := cat[j];
    var predicates := [EntryFilters.NameIn({entry.name})];
    var before, after := cat[..j], cat[j + 1..];
    assert MatchingEntries(before, predicates) == [] by {
      EntryFilters.AllHoldOfSingletons();
      NothingAcceptedMatchesNothing(before, predicates);
    }
    assert MatchingEntries(after, predicates) == [] by {
      EntryFilters.AllHoldOfSingletons();
      NothingAcceptedMatchesNothing(after, predicates);
    }
    assert MatchingEntries([entry], predicates) == [entry] by {
      EntryFilters.AllHoldOfSingletons();
      var single := MatchingEntries([entry], predicates);
      assert entry in single;
    }
    assert cat == before + [entry] + after;
    MatchingKeepsCatalogOrder(before + [entry], after, predicates);
    MatchingKeepsCatalogOrder(before, [entry], predicates);
  }

  /** Filtering by the one name a single entry carries: exactly that entry, on a single page. */
  lemma ListSingleNamedObject<O>(service: OpenNGCService, pageSize: int, j: nat, mapper: Entry -> O)
    requires service.catalogReference.Some? && pageSize > 0
    requires j < |service.catalogReference.value|
    requires forall k :: 0 <= k < |service.catalogReference.value| && k != j ==>
      service.catalogReference.value[k].name != service.catalogReference.value[j].name
    ensures var entry := service.catalogReference.value[j];
      service.List(0, pageSize, None, None, Some({entry.name}), None, mapper)
        == Ok(PagedList([mapper(entry)], 0, pageSize, 1, None, None, true, true))
  {
    var cat := service.catalogReference.value;
    assert ServicePredicates(None, None, Some({cat[j].name}), None) == [EntryFilters.NameIn({cat[j].name})];
    SingleNamedMatch(cat, j);
    var r := ListToPage([cat[j]], pageSize, 0, mapper);
    assert NumberOfPages(1, pageSize) == 1;
    assert r.value.entryList == [mapper(cat[j])];
  }

  /**
   * `item` is the mapped form of a catalog entry that has a position and meets
   * the criteria, extended with the transform's coordinates for the observer and time.
   */
  ghost predicate MappedFromPositioned<O>(catalog: Catalog, args: EntryFilters.ListArguments,
                                          observer: GeographicCoordinates, time: OffsetDateTime,
                                          toHorizontal: HorizontalTransform, mapper: ExtendedEntry -> O, item: O) {
    exists x: ExtendedEntry ::
      && x.entry in catalog
      && x.entry.position.Some?
      && x.horizontalCoordinates == toHorizontal(x.entry.position.value, observer, time)
      && EntryFilters.Accepts(args, x.entry)
      && item == mapper(x)
  }

  /**
   * Every entry on a page of `listExtended` is the mapped form of a positioned
   * catalog entry that meets every given criterion, extended for the observer
   * at (latitude, longitude) and the local time.
   */
  lemma ListExtendedPageHoldsOnlyPositionedEntries<O>(service: OpenNGCService, longitude: real, latitude: real,
                                                      localTime: OffsetDateTime, pageIndex: int, pageSize: int,
                                                      messier: Option<bool>, catalog: Option<string>,
                                                      objects: Option<set<string>>, constellations: Option<set<string>>,
                                                      toHorizontal: HorizontalTransform, mapper: ExtendedEntry -> O,
                                                      page: PagedList<O>)
    requires service.catalogReference.Some?
    requires service.ListExtended(longitude, latitude, localTime, pageIndex, pageSize, messier, catalog,
                                  objects, constellations, toHorizontal, mapper) == Ok(page)
    ensures forall i :: 0 <= i < |page.entryList| ==>
      MappedFromPositioned(service.catalogReference.value, FourCriteria(messier, catalog, objects, constellations),
                           GeographicCoordinates(latitude, longitude), localTime, toHorizontal, mapper,
                           page.entryList[i])
  {
    var cat := service.catalogReference.value;
    var args := FourCriteria(messier, catalog, objects, constellations);
    var observer := GeographicCoordinates(latitude, longitude);
    var matches := MatchingExtendedEntries(cat, observer, localTime, toHorizontal,
                                           ServicePredicates(messier, catalog, objects, constellations));
    assert ListToPage(matches, pageSize, pageIndex, mapper) == Ok(page);
    forall i | 0 <= i < |page.entryList|
      ensures MappedFromPositioned(cat, args, observer, localTime, toHorizontal, mapper, page.entryList[i])
    {
      PageEntryIsMappedMatch(matches, pageSize, pageIndex, mapper, page, i);
      var x := matches[pageIndex * pageSize + i];
      assert x in matches;
      EntryFilters.EntryPredicatesMeanAccepts(args, x.entry);
    }
  }

}
