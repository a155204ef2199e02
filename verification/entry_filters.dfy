/**
 * The predicate compiler: optional filter criteria become an ordered list of
 * predicates over catalog entries (and, for the extended query, over entries
 * with a computed altitude). Each supplied criterion contributes one
 * predicate; absent criteria, and empty sets, contribute none.
 */
module EntryFilters {
  import opened Nullable
  import opened Catalog

  /** The filter criteria of a list query; every one of them is optional. */
  datatype ListArguments = ListArguments(
    messier: Option<bool>,
    catalog: Option<string>,
    objects: Option<set<string>>,
    constellations: Option<set<string>>,
    vMagnitudeMax: Option<real>,
    vMagnitudeMin: Option<real>,
    types: Option<set<string>>)

  /** The criteria of an extended list query: the plain ones, the observer, and altitude bounds. */
  datatype ListExtendedArguments = ListExtendedArguments(
    listArguments: ListArguments,
    longitude: real,
    latitude: real,
    localTime: OffsetDateTime,
    altitudeMin: Option<real>,
    altitudeMax: Option<real>)

  /** One compiled entry filter, one variant per criterion. */
  datatype Predicate =
    | MessierIs(wanted: bool)
    | CatalogIs(catalogName: string)
    | NameIn(objects: set<string>)
    | ConstellationIn(constellations: set<string>)
    /** Named "max", but keeps magnitudes numerically at or above the bound. */
    | VMagnitudeMax(bound: real)
    /** Named "min", but keeps magnitudes numerically at or below the bound. */
    | VMagnitudeMin(bound: real)
    | TypeIn(types: set<string>)

  /**
   * What a compiled filter says about one entry. A filter on an optional
   * field (constellation, visual magnitude) rejects every entry that lacks it.
   */
  predicate Eval(p: Predicate, e: Entry): (r: bool)
    ensures r && p.ConstellationIn? ==> e.constellation.Some?
    ensures r && (p.VMagnitudeMax? || p.VMagnitudeMin?) ==> e.vMag.Some?
    ensures p.VMagnitudeMax? && e.vMag.Some? && p.bound == e.vMag.value ==> r
    ensures p.VMagnitudeMin? && e.vMag.Some? && p.bound == e.vMag.value ==> r
  {
    match p
    case MessierIs(wanted) => e.IsMessier() == wanted
    case CatalogIs(catalogName) => e.catalogName == catalogName
    case NameIn(objects) => e.name in objects
    case ConstellationIn(constellations) =>
      e.constellation.Some? &&
      (e.constellation.value.abbrev in constellations || e.constellation.value.fullname in constellations)
    case VMagnitudeMax(bound) => e.vMag.Some? && e.vMag.value >= bound
    case VMagnitudeMin(bound) => e.vMag.Some? && e.vMag.value <= bound
    case TypeIn(types) => e.objectType in types
  }

  /** The position of a predicate's criterion in the compiler's fixed order. */
  function Rank(p: Predicate): nat {
    match p
    case MessierIs(_) => 0
    case CatalogIs(_) => 1
    case NameIn(_) => 2
    case ConstellationIn(_) => 3
    case VMagnitudeMax(_) => 4
    case VMagnitudeMin(_) => 5
    case TypeIn(_) => 6
  }

  /** The logical AND of a list of filters; true of every entry when the list is empty. */
  predicate AllHold(predicates: seq<Predicate>, e: Entry) {
    forall i :: 0 <= i < |predicates| ==> Eval(predicates[i], e)
  }

  /** A set criterion is in force only when it is present and not empty. */
  predicate NonEmpty(s: Option<set<string>>) {
    s.Some? && s.value != {}
  }

  /** Whether the criterion at position `rank` of the fixed order is in force. */
  predicate Supplied(args: ListArguments, rank: nat) {
    if rank == 0 then args.messier.Some?
    else if rank == 1 then args.catalog.Some?
    else if rank == 2 then NonEmpty(args.objects)
    else if rank == 3 then NonEmpty(args.constellations)
    else if rank == 4 then args.vMagnitudeMax.Some?
    else if rank == 5 then args.vMagnitudeMin.Some?
    else if rank == 6 then NonEmpty(args.types)
    else false
  }

  /**
   * The entries the criteria admit, stated directly on the entry's fields:
   * the reference the compiled list is measured against.
   */
  predicate Accepts(args: ListArguments, e: Entry) {
    && (args.messier.Some? ==> e.IsMessier() == args.messier.value)
    && (args.catalog.Some? ==> e.catalogName == args.catalog.value)
    && (NonEmpty(args.objects) ==> e.name in args.objects.value)
    && (NonEmpty(args.constellations) ==>
          e.constellation.Some? &&
          (e.constellation.value.abbrev in args.constellations.value ||
           e.constellation.value.fullname in args.constellations.value))
    && (args.vMagnitudeMax.Some? ==> e.vMag.Some? && e.vMag.value >= args.vMagnitudeMax.value)
    && (args.vMagnitudeMin.Some? ==> e.vMag.Some? && e.vMag.value <= args.vMagnitudeMin.value)
    && (NonEmpty(args.types) ==> e.objectType in args.types.value)
  }

  /** `addMessierFilter` */
  function MessierFilter(args: ListArguments): (r: seq<Predicate>)
    ensures |r| <= 1 && (r != [] <==> Supplied(args, 0))
    ensures forall i :: 0 <= i < |r| ==> Rank(r[i]) == 0
    ensures forall e :: AllHold(r, e) <==> (args.messier.Some? ==> e.IsMessier() == args.messier.value)
  {
    AllHoldOfSingletons();
    if args.messier.Some? then [MessierIs(args.messier.value)] else []
  }

  /** `addCatalogFilter` */
  function CatalogFilter(args: ListArguments): (r: seq<Predicate>)
    ensures |r| <= 1 && (r != [] <==> Supplied(args, 1))
    ensures forall i :: 0 <= i < |r| ==> Rank(r[i]) == 1
    ensures forall e :: AllHold(r, e) <==> (args.catalog.Some? ==> e.catalogName == args.catalog.value)
  {
    AllHoldOfSingletons();
    if args.catalog.Some? then [CatalogIs(args.catalog.value)] else []
  }

  /** `addObjectsFilter` */
  function ObjectsFilter(args: ListArguments): (r: seq<Predicate>)
    ensures |r| <= 1 && (r != [] <==> Supplied(args, 2))
    ensures forall i :: 0 <= i < |r| ==> Rank(r[i]) == 2
    ensures forall e :: AllHold(r, e) <==> (NonEmpty(args.objects) ==> e.name in args.objects.value)
  {
    AllHoldOfSingletons();
    if args.objects.Some? && args.objects.value != {} then [NameIn(args.objects.value)] else []
  }

  /** `addConstellationFilter` */
  function ConstellationFilter(args: ListArguments): (r: seq<Predicate>)
    ensures |r| <= 1 && (r != [] <==> Supplied(args, 3))
    ensures forall i :: 0 <= i < |r| ==> Rank(r[i]) == 3
    ensures forall e :: AllHold(r, e) <==>
      (NonEmpty(args.constellations) ==>
         e.constellation.Some? &&
         (e.constellation.value.abbrev in args.constellations.value ||
          e.constellation.value.fullname in args.constellations.value))
  {
    AllHoldOfSingletons();
    if args.constellations.Some? && args.constellations.value != {}
    then [ConstellationIn(args.constellations.value)]
    else []
  }

  /** `addVMagnitudeMaxFilter` */
  function VMagnitudeMaxFilter(args: ListArguments): (r: seq<Predicate>)
    ensures |r| <= 1 && (r != [] <==> Supplied(args, 4))
    ensures forall i :: 0 <= i < |r| ==> Rank(r[i]) == 4
    ensures forall e :: AllHold(r, e) <==>
      (args.vMagnitudeMax.Some? ==> e.vMag.Some? && e.vMag.value >= args.vMagnitudeMax.value)
  {
    AllHoldOfSingletons();
    if args.vMagnitudeMax.Some? then [VMagnitudeMax(args.vMagnitudeMax.value)] else []
  }

  /** `addVMagnitudeMinFilter` */
  function VMagnitudeMinFilter(args: ListArguments): (r: seq<Predicate>)
    ensures |r| <= 1 && (r != [] <==> Supplied(args, 5))
    ensures forall i :: 0 <= i < |r| ==> Rank(r[i]) == 5
    ensures forall e :: AllHold(r, e) <==>
      (args.vMagnitudeMin.Some? ==> e.vMag.Some? && e.vMag.value <= args.vMagnitudeMin.value)
  {
    AllHoldOfSingletons();
    if args.vMagnitudeMin.Some? then [VMagnitudeMin(args.vMagnitudeMin.value)] else []
  }

  /** `addTypesFilter` */
  function TypesFilter(args: ListArguments): (r: seq<Predicate>)
    ensures |r| <= 1 && (r != [] <==> Supplied(args, 6))
    ensures forall i :: 0 <= i < |r| ==> Rank(r[i]) == 6
    ensures forall e :: AllHold(r, e) <==> (NonEmpty(args.types) ==> e.objectType in args.types.value)
  {
    AllHoldOfSingletons();
    if args.types.Some? && args.types.value != {} then [TypeIn(args.types.value)] else []
  }

  /** Ranks strictly increase along the list: fixed order, at most one predicate per criterion. */
  predicate InCriterionOrder(predicates: seq<Predicate>) {
    forall i, j :: 0 <= i < j < |predicates| ==> Rank(predicates[i]) < Rank(predicates[j])
  }

  /** Some predicate of the list belongs to the criterion at position `rank`. */
  predicate HasRank(predicates: seq<Predicate>, rank: nat) {
    exists i :: 0 <= i < |predicates| && Rank(predicates[i]) == rank
  }

  /** The list holds a predicate for exactly the criteria in force among the first `upTo`. */
  predicate Covers(args: ListArguments, predicates: seq<Predicate>, upTo: nat) {
    && (forall i :: 0 <= i < |predicates| ==> Rank(predicates[i]) < upTo)
    && (forall rank: nat :: rank < upTo ==> (Supplied(args, rank) <==> HasRank(predicates, rank)))
  }

  /** Appending the contribution of criterion `rank` behind the earlier ones keeps order and coverage. */
  lemma AppendCriterion(args: ListArguments, front: seq<Predicate>, next: seq<Predicate>, rank: nat)
    requires InCriterionOrder(front) && Covers(args, front, rank)
    requires |next| <= 1 && (next != [] <==> Supplied(args, rank))
    requires forall i :: 0 <= i < |next| ==> Rank(next[i]) == rank
    ensures InCriterionOrder(front + next) && Covers(args, front + next, rank + 1)
  {
    var r := front + next;
    forall k: nat | k <= rank
      ensures Supplied(args, k) <==> HasRank(r, k)
    {
      if HasRank(r, k) {
        var i :| 0 <= i < |r| && Rank(r[i]) == k;
        if i < |front| {
          assert r[i] == front[i];
        } else {
          assert r[i] == next[i - |front|];
        }
      }
      if k < rank && HasRank(front, k) {
        var i :| 0 <= i < |front| && Rank(front[i]) == k;
        assert r[i] == front[i];
      }
      if k == rank && next != [] {
        assert r[|front|] == next[0];
      }
    }
  }

  /** A one-element list holds exactly when its predicate does. */
  lemma AllHoldOfSingletons()
    ensures forall p, e :: AllHold([p], e) <==> Eval(p, e)
  {
    forall p, e ensures AllHold([p], e) <==> Eval(p, e) {
      assert [p][0] == p;
    }
  }

  /** AND over a concatenation is the AND of both parts. */
  lemma AllHoldConcat(a: seq<Predicate>, b: seq<Predicate>, e: Entry)
    ensures AllHold(a + b, e) <==> AllHold(a, e) && AllHold(b, e)
  {
    if AllHold(a, e) && AllHold(b, e) {
      forall i | 0 <= i < |a + b| ensures Eval((a + b)[i], e) {
        if i < |a| {
          assert (a + b)[i] == a[i];
        } else {
          assert (a + b)[i] == b[i - |a|];
        }
      }
    }
    if AllHold(a + b, e) {
      forall i | 0 <= i < |a| ensures Eval(a[i], e) {
        assert (a + b)[i] == a[i];
      }
      forall i | 0 <= i < |b| ensures Eval(b[i], e) {
        assert (a + b)[|a| + i] == b[i];
      }
    }
  }

  /** Every predicate of the list stands for a criterion in force. */
  predicate OnlySupplied(args: ListArguments, predicates: seq<Predicate>) {
    forall i :: 0 <= i < |predicates| ==> Supplied(args, Rank(predicates[i]))
  }

  /** Appending predicates for criteria in force keeps every predicate standing for one. */
  lemma OnlySuppliedConcat(args: ListArguments, a: seq<Predicate>, b: seq<Predicate>)
    requires OnlySupplied(args, a) && OnlySupplied(args, b)
    ensures OnlySupplied(args, a + b)
  {
    forall i | 0 <= i < |a + b| ensures Supplied(args, Rank((a + b)[i])) {
      if i >= |a| {
        assert (a + b)[i] == b[i - |a|];
      }
    }
  }

  /** `compileEntryPredicates`, stated as the concatenation of the seven filters' contributions. */
  function EntryPredicates(args: ListArguments): (r: seq<Predicate>)
    ensures |r| <= 7
    ensures OnlySupplied(args, r)
  {
    var r1 := MessierFilter(args) + CatalogFilter(args);
    OnlySuppliedConcat(args, MessierFilter(args), CatalogFilter(args));
    var r2 := r1 + ObjectsFilter(args);
    OnlySuppliedConcat(args, r1, ObjectsFilter(args));
    var r3 := r2 + ConstellationFilter(args);
    OnlySuppliedConcat(args, r2, ConstellationFilter(args));
    var r4 := r3 + VMagnitudeMaxFilter(args);
    OnlySuppliedConcat(args, r3, VMagnitudeMaxFilter(args));
    var r5 := r4 + VMagnitudeMinFilter(args);
    OnlySuppliedConcat(args, r4, VMagnitudeMinFilter(args));
    OnlySuppliedConcat(args, r5, TypesFilter(args));
    r5 + TypesFilter(args)
  }

  /** The compiled list is in the fixed criterion order and holds a predicate exactly for each criterion in force. */
  lemma EntryPredicatesOnePerCriterion(args: ListArguments)
    ensures |EntryPredicates(args)| <= 7
    ensures InCriterionOrder(EntryPredicates(args))
    ensures forall rank: nat :: Supplied(args, rank) <==> HasRank(EntryPredicates(args), rank)
  {
    var r := EntryPredicates(args);
    assert InCriterionOrder(r) && Covers(args, r, 7) by {
      var m, c, o, cs := MessierFilter(args), CatalogFilter(args), ObjectsFilter(args), ConstellationFilter(args);
      var mx, mn, t := VMagnitudeMaxFilter(args), VMagnitudeMinFilter(args), TypesFilter(args);
      assert [] + m == m;
      AppendCriterion(args, [], m, 0);
      AppendCriterion(args, m, c, 1);
      AppendCriterion(args, m + c, o, 2);
      AppendCriterion(args, m + c + o, cs, 3);
      AppendCriterion(args, m + c + o + cs, mx, 4);
      AppendCriterion(args, m + c + o + cs + mx, mn, 5);
      AppendCriterion(args, m + c + o + cs + mx + mn, t, 6);
    }
    forall rank: nat
      ensures Supplied(args, rank) <==> HasRank(r, rank)
    {
      if rank >= 7 {
        assert !Supplied(args, rank);
      }
    }
  }

  /** An entry passes every compiled predicate exactly when it meets every criterion in force. */
  lemma EntryPredicatesMeanAccepts(args: ListArguments, e: Entry)
    ensures AllHold(EntryPredicates(args), e) <==> Accepts(args, e)
  {
    var m, c, o, cs := MessierFilter(args), CatalogFilter(args), ObjectsFilter(args), ConstellationFilter(args);
    var mx, mn, t := VMagnitudeMaxFilter(args), VMagnitudeMinFilter(args), TypesFilter(args);
    AllHoldConcat(m, c, e);
    AllHoldConcat(m + c, o, e);
    AllHoldConcat(m + c + o, cs, e);
    AllHoldConcat(m + c + o + cs, mx, e);
    AllHoldConcat(m + c + o + cs + mx, mn, e);
    AllHoldConcat(m + c + o + cs + mx + mn, t, e);
    assert EntryPredicates(args) == m + c + o + cs + mx + mn + t;
  }

  /** Every criterion supplied, each set non-empty: seven predicates. */
  lemma AllCriteriaGiveSevenPredicates(args: ListArguments)
    requires args.messier.Some? && args.catalog.Some? && args.vMagnitudeMax.Some? && args.vMagnitudeMin.Some?
    requires NonEmpty(args.objects) && NonEmpty(args.constellations) && NonEmpty(args.types)
    ensures |EntryPredicates(args)| == 7
  {
  }

  /** No criterion in force (absent, or an empty set): no predicate at all, so every entry passes. */
  lemma NoCriteriaGiveNoPredicates(args: ListArguments)
    requires forall rank: nat :: !Supplied(args, rank)
    ensures EntryPredicates(args) == []
  {
    assert !Supplied(args, 0) && !Supplied(args, 1) && !Supplied(args, 2) && !Supplied(args, 3);
    assert !Supplied(args, 4) && !Supplied(args, 5) && !Supplied(args, 6);
  }

  /** The inverted magnitude bounds: 8.1 passes "max 8.0" and fails "min 8.0"; 7.9 the converse. */
  lemma MagnitudeBoundsAreInverted(e: Entry)
    requires e.vMag == Some(8.1) || e.vMag == Some(7.9)
    ensures Eval(VMagnitudeMax(8.0), e) <==> e.vMag == Some(8.1)
    ensures Eval(VMagnitudeMin(8.0), e) <==> e.vMag == Some(7.9)
  {
  }

  /** `compileEntryPredicates`: appends one predicate per supplied criterion, in the fixed order. */
  method CompileEntryPredicates(args: ListArguments) returns (predicates: seq<Predicate>)
    ensures predicates == EntryPredicates(args)
  {
    predicates := [];
    if args.messier.Some? {
      predicates := predicates + [MessierIs(args.messier.value)];
    }
    assert predicates == MessierFilter(args);
    if args.catalog.Some? {
      predicates := predicates + [CatalogIs(args.catalog.value)];
    }
    assert predicates == MessierFilter(args) + CatalogFilter(args);
    if args.objects.Some? && args.objects.value != {} {
      predicates := predicates + [NameIn(args.objects.value)];
    }
    assert predicates == MessierFilter(args) + CatalogFilter(args) + ObjectsFilter(args);
    if args.constellations.Some? && args.constellations.value != {} {
      predicates := predicates + [ConstellationIn(args.constellations.value)];
    }
    assert predicates == MessierFilter(args) + CatalogFilter(args) + ObjectsFilter(args) + ConstellationFilter(args);
    ghost var front := predicates;
    if args.vMagnitudeMax.Some? {
      predicates := predicates + [VMagnitudeMax(args.vMagnitudeMax.value)];
    }
    assert predicates == front + VMagnitudeMaxFilter(args);
    front := predicates;
    if args.vMagnitudeMin.Some? {
      predicates := predicates + [VMagnitudeMin(args.vMagnitudeMin.value)];
    }
    assert predicates == front + VMagnitudeMinFilter(args);
    front := predicates;
    if args.types.Some? && args.types.value != {} {
      predicates := predicates + [TypeIn(args.types.value)];
    }
    assert predicates == front + TypesFilter(args);
  }

  /** One compiled filter over an extended entry. */
  datatype ExtendedPredicate =
    | AltitudeMax(maxBound: real)
    | AltitudeMin(minBound: real)

  /**
   * What a compiled altitude filter says about an extended entry. Both bounds
   * are inclusive: an altitude on the bound passes, one beyond it fails.
   */
  predicate EvalExtended(p: ExtendedPredicate, x: ExtendedEntry): (r: bool)
    ensures p.AltitudeMax? && x.horizontalCoordinates.altitude == p.maxBound ==> r
    ensures p.AltitudeMin? && x.horizontalCoordinates.altitude == p.minBound ==> r
    ensures p.AltitudeMax? && x.horizontalCoordinates.altitude > p.maxBound ==> !r
    ensures p.AltitudeMin? && x.horizontalCoordinates.altitude < p.minBound ==> !r
  {
    match p
    case AltitudeMax(bound) => x.horizontalCoordinates.altitude <= bound
    case AltitudeMin(bound) => x.horizontalCoordinates.altitude >= bound
  }

  predicate AllHoldExtended(predicates: seq<ExtendedPredicate>, x: ExtendedEntry) {
    forall i :: 0 <= i < |predicates| ==> EvalExtended(predicates[i], x)
  }

  /** The AND of two optional altitude predicates is the AND of each. */
  lemma AllHoldExtendedOfTwo(upper: seq<ExtendedPredicate>, lower: seq<ExtendedPredicate>, x: ExtendedEntry)
    requires |upper| <= 1 && |lower| <= 1
    ensures AllHoldExtended(upper + lower, x) <==>
      (upper != [] ==> EvalExtended(upper[0], x)) && (lower != [] ==> EvalExtended(lower[0], x))
  {
    if upper != [] {
      assert (upper + lower)[0] == upper[0];
    }
    if lower != [] {
      assert (upper + lower)[|upper|] == lower[0];
    }
  }

  /**
   * `compileExtendedEntryPredicates`: at most two predicates, the upper altitude
   * bound before the lower one, each only when given; together they admit
   * exactly the altitudes inside the given bounds.
   */
  function ExtendedEntryPredicates(arguments: ListExtendedArguments): (r: seq<ExtendedPredicate>)
    ensures |r| <= 2
    ensures (exists i :: 0 <= i < |r| && r[i].AltitudeMax?) <==> arguments.altitudeMax.Some?
    ensures (exists i :: 0 <= i < |r| && r[i].AltitudeMin?) <==> arguments.altitudeMin.Some?
    ensures forall i, j :: 0 <= i < j < |r| ==> r[i].AltitudeMax? && r[j].AltitudeMin?
    ensures forall x :: AllHoldExtended(r, x) <==>
      && (arguments.altitudeMax.Some? ==> x.horizontalCoordinates.altitude <= arguments.altitudeMax.value)
      && (arguments.altitudeMin.Some? ==> x.horizontalCoordinates.altitude >= arguments.altitudeMin.value)
  {
    var upper := if arguments.altitudeMax.Some? then [AltitudeMax(arguments.altitudeMax.value)] else [];
    var lower := if arguments.altitudeMin.Some? then [AltitudeMin(arguments.altitudeMin.value)] else [];
    var r := upper + lower;
    assert forall x :: AllHoldExtended(r, x) <==>
      (upper != [] ==> EvalExtended(upper[0], x)) && (lower != [] ==> EvalExtended(lower[0], x)) by {
      forall x ensures AllHoldExtended(r, x) <==>
        (upper != [] ==> EvalExtended(upper[0], x)) && (lower != [] ==> EvalExtended(lower[0], x)) {
        AllHoldExtendedOfTwo(upper, lower, x);
      }
    }
    assert upper != [] ==> r[0] == upper[0];
    assert lower != [] ==> r[|upper|] == lower[0];
    assert forall i :: 0 <= i < |upper| ==> r[i] == upper[i];
    assert forall i :: |upper| <= i < |r| ==> r[i] == lower[i - |upper|];
    r
  }

  /** `compileExtendedEntryPredicates`, appending to a list. */
  method CompileExtendedEntryPredicates(arguments: ListExtendedArguments) returns (predicates: seq<ExtendedPredicate>)
    ensures predicates == ExtendedEntryPredicates(arguments)
  {
    predicates := [];
    if arguments.altitudeMax.Some? {
      predicates := predicates + [AltitudeMax(arguments.altitudeMax.value)];
    }
    if arguments.altitudeMin.Some? {
      predicates := predicates + [AltitudeMin(arguments.altitudeMin.value)];
    }
  }

}
