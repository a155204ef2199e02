/**
 * The catalog data model (the OpenNGC library's `Entry`, `ExtendedEntry` and
 * `Catalog`) and the two scans the library offers over a catalog.
 */
module Catalog {
  import opened Nullable

  /** A constellation: its IAU abbreviation and its full name. */
  datatype Constellation = Constellation(abbrev: string, fullname: string)

  datatype EquatorialCoordinates = EquatorialCoordinates(rightAscension: real, declination: real)

  datatype HorizontalCoordinates = HorizontalCoordinates(altitude: real, azimuth: real)

  /** An observer's location on Earth, in degrees. */
  datatype GeographicCoordinates = GeographicCoordinates(latitude: real, longitude: real)

  /** An observer's local date and time: an instant and its UTC offset. */
  datatype OffsetDateTime = OffsetDateTime(epochSecond: int, offsetSeconds: int)

  /**
   * One catalog object. `catalogName` is the catalog of its identifier
   * ("NGC", "IC"), `name` its full designation ("NGC0001"), `objectType` the
   * abbreviation of its object type; the rest is optional.
   */
  datatype Entry = Entry(
    catalogName: string,
    name: string,
    objectType: string,
    constellation: Option<Constellation>,
    messier: Option<int>,
    vMag: Option<real>,
    position: Option<EquatorialCoordinates>)
  {
    /** An entry is a Messier object iff it carries a Messier number. */
    predicate IsMessier() {
      messier.Some?
    }
  }

  /** An entry together with its position as seen by one observer at one time. */
  datatype ExtendedEntry = ExtendedEntry(entry: Entry, horizontalCoordinates: HorizontalCoordinates)

  type Catalog = seq<Entry>

  /** The equatorial-to-horizontal transform, supplied by a coordinate library. */
  type HorizontalTransform = (EquatorialCoordinates, GeographicCoordinates, OffsetDateTime) -> HorizontalCoordinates

  /** `Catalog.find`: the entries that `keep` accepts, in catalog order. */
  function Find(entries: seq<Entry>, keep: Entry -> bool): (r: seq<Entry>)
    ensures |r| <= |entries|
    ensures forall e :: e in r <==> e in entries && keep(e)
  {
    if entries == [] then []
    else (if keep(entries[0]) then [entries[0]] else []) + Find(entries[1..], keep)
  }

  /** Finding in a concatenation finds in each part, the first part's matches first. */
  lemma {:induction false} FindConcat(a: seq<Entry>, b: seq<Entry>, keep: Entry -> bool)
    ensures Find(a + b, keep) == Find(a, keep) + Find(b, keep)
  {
    if a == [] {
      assert a + b == b;
    } else {
      assert (a + b)[0] == a[0];
      assert (a + b)[1..] == a[1..] + b;
      FindConcat(a[1..], b, keep);
    }
  }

  /** A test that rejects every entry finds nothing. */
  lemma {:induction false} FindRejectingAll(entries: seq<Entry>, keep: Entry -> bool)
    requires forall e :: e in entries ==> !keep(e)
    ensures Find(entries, keep) == []
  {
    if entries != [] {
      assert entries[0] in entries;
      FindRejectingAll(entries[1..], keep);
    }
  }

  /** A test that accepts every entry returns the catalog unchanged. */
  lemma {:induction false} FindAcceptingAll(entries: seq<Entry>, keep: Entry -> bool)
    requires forall e :: keep(e)
    ensures Find(entries, keep) == entries
  {
    if entries != [] {
      FindAcceptingAll(entries[1..], keep);
    }
  }

  /**
   * `Catalog.findExtendedEntries`: each entry that has an equatorial position is
   * extended with its horizontal position for the observer and time; those that
   * `keep` accepts are returned in catalog order. Entries without a position
   * are never returned.
   */
  function FindExtendedEntries(entries: seq<Entry>, observer: GeographicCoordinates, time: OffsetDateTime,
                               toHorizontal: HorizontalTransform, keep: ExtendedEntry -> bool): (r: seq<ExtendedEntry>)
    ensures |r| <= |entries|
    ensures forall x :: x in r <==>
      && x.entry in entries
      && x.entry.position.Some?
      && x.horizontalCoordinates == toHorizontal(x.entry.position.value, observer, time)
      && keep(x)
  {
    if entries == [] then []
    else
      var head :=
        match entries[0].position
        case None => []
        case Some(p) =>
          var x := ExtendedEntry(entries[0], toHorizontal(p, observer, time));
          if keep(x) then [x] else [];
      head + FindExtendedEntries(entries[1..], observer, time, toHorizontal, keep)
  }

  /**
   * The extended scan distributes over concatenation: the matches of the first
   * part come first, so the extended matches stay in catalog order.
   */
  lemma {:induction false} FindExtendedEntriesConcat(a: seq<Entry>, b: seq<Entry>, observer: GeographicCoordinates,
                                                     time: OffsetDateTime, toHorizontal: HorizontalTransform,
                                                     keep: ExtendedEntry -> bool)
    ensures FindExtendedEntries(a + b, observer, time, toHorizontal, keep)
         == FindExtendedEntries(a, observer, time, toHorizontal, keep)
          + FindExtendedEntries(b, observer, time, toHorizontal, keep)
  {
    if a == [] {
      assert a + b == b;
    } else {
      assert (a + b)[0] == a[0];
      assert (a + b)[1..] == a[1..] + b;
      FindExtendedEntriesConcat(a[1..], b, observer, time, toHorizontal, keep);
    }
  }

  /** `firstOrNull { it.name == name }`, as the index of the first entry with that name. */
  function FirstIndexNamed(entries: seq<Entry>, name: string): (r: Option<nat>)
    ensures r.None? ==> forall j :: 0 <= j < |entries| ==> entries[j].name != name
    ensures r.Some? ==> r.value < |entries| && entries[r.value].name == name
    ensures r.Some? ==> forall j :: 0 <= j < r.value ==> entries[j].name != name
  {
    if entries == [] then None
    else if entries[0].name == name then Some(0)
    else match FirstIndexNamed(entries[1..], name)
      case None => None
      case Some(i) => Some(i + 1)
  }

}
