/**
 * The home dashboard: the listener that mirrors the user's trips with their
 * count and the "next trip", and the yearly figures and calendar marks
 * derived from them. Today's year and the weekday of the shown month's first
 * day come from the clock and are parameters here.
 */
module Home {
  import opened Wrappers
  import opened Seqs
  import opened Strings
  import opened Decimal
  import opened TripModel
  import opened Snapshot

  // ---------------------------------------------------------------------------
  // "Next trip": `trips.minByOrNull { it.date }`

  /**
   * The index `minByOrNull` settles on, scanning left to right and replacing
   * the candidate only when a strictly smaller date comes along.
   */
  function FirstMinByDate(trips: seq<Trip>): (i: nat)
    requires |trips| > 0
    ensures i < |trips|
  {
    if |trips| == 1 then 0
    else
      var m := FirstMinByDate(trips[..|trips| - 1]);
      if !LexLe(trips[m].date, trips[|trips| - 1].date) then |trips| - 1 else m
  }

  /** `minByOrNull { it.date }`: null exactly for no trips, otherwise one of the trips. */
  function NextTrip(trips: seq<Trip>): (r: Option<Trip>)
    ensures r.None? <==> trips == []
    ensures r.Some? ==> r.value in trips
  {
    if trips == [] then None else Some(trips[FirstMinByDate(trips)])
  }

  /** The scan ends on a smallest date, and on the first trip carrying it. */
  lemma {:induction false} FirstMinByDateSpec(trips: seq<Trip>)
    requires |trips| > 0
    ensures forall j :: 0 <= j < |trips| ==> LexLe(trips[FirstMinByDate(trips)].date, trips[j].date)
    ensures forall j :: 0 <= j < FirstMinByDate(trips) ==> trips[j].date != trips[FirstMinByDate(trips)].date
  {
    var n := |trips|;
    if n == 1 {
      LexLeReflexive(trips[0].date);
    } else {
      var init := trips[..n - 1];
      FirstMinByDateSpec(init);
      var m := FirstMinByDate(init);
      var last := trips[n - 1].date;
      LexLeReflexive(last);
      if !LexLe(trips[m].date, last) {
        LexLeTotal(trips[m].date, last);
        forall j | 0 <= j < n
          ensures LexLe(last, trips[j].date)
        {
          if j < n - 1 {
            assert init[j] == trips[j];
            LexLeTransitive(last, trips[m].date, trips[j].date);
          }
        }
        forall j | 0 <= j < n - 1
          ensures trips[j].date != last
        {
          assert init[j] == trips[j];
        }
      } else {
        forall j | 0 <= j < n
          ensures LexLe(trips[m].date, trips[j].date)
        {
          if j < n - 1 {
            assert init[j] == trips[j];
          }
        }
        forall j | 0 <= j < m
          ensures trips[j].date != trips[m].date
        {
          assert init[j] == trips[j];
        }
      }
    }
  }

  /**
   * There is no next trip exactly when there are no trips; otherwise it is the
   * first trip with the smallest date, whatever today's date is.
   */
  lemma NextTripSpec(trips: seq<Trip>)
    ensures NextTrip(trips).None? <==> trips == []
    ensures NextTrip(trips).Some? ==>
              exists i :: 0 <= i < |trips| && trips[i] == NextTrip(trips).value &&
                (forall j :: 0 <= j < |trips| ==> LexLe(trips[i].date, trips[j].date)) &&
                (forall j :: 0 <= j < i ==> trips[j].date != trips[i].date)
  {
    if trips != [] {
      FirstMinByDateSpec(trips);
      var i := FirstMinByDate(trips);
      assert trips[i] == NextTrip(trips).value;
    }
  }

  // ---------------------------------------------------------------------------
  // The year summary: `tripsThisYear` and `mostVisited`

  function InYear(year: int): Trip -> bool
  {
    (t: Trip) => StartsWith(t.date, IntToString(year))
  }

  /** `trips.filter { it.date.startsWith("$currentYear") }`. */
  function TripsThisYear(trips: seq<Trip>, year: int): (r: seq<Trip>)
    ensures |r| <= |trips|
    ensures forall i :: 0 <= i < |r| ==> StartsWith(r[i].date, IntToString(year))
  {
    Filter(trips, InYear(year))
  }

  /** The trips of the year are the trips whose date begins with the year's digits, each as often and in order. */
  lemma TripsThisYearSpec(trips: seq<Trip>, year: int)
    ensures forall t :: t in TripsThisYear(trips, year) <==> t in trips && StartsWith(t.date, IntToString(year))
    ensures forall t: Trip :: StartsWith(t.date, IntToString(year)) ==>
              multiset(TripsThisYear(trips, year))[t] == multiset(trips)[t]
  {
    forall t
      ensures t in TripsThisYear(trips, year) <==> t in trips && StartsWith(t.date, IntToString(year))
    {
      FilterMembers(trips, InYear(year), t);
    }
    FilterMultiset(trips, InYear(year));
  }

  function Locations(trips: seq<Trip>): (locs: seq<string>)
    ensures |locs| == |trips| && forall i :: 0 <= i < |trips| ==> locs[i] == trips[i].location
  {
    seq(|trips|, i requires 0 <= i < |trips| => trips[i].location)
  }

  datatype LocationCount = LocationCount(location: string, count: nat)

  /**
   * `groupingBy { it.location }.eachCount()`: one entry per location, in the
   * order locations are first met, with the number of trips there.
   */
  function EachCount(locs: seq<string>): (entries: seq<LocationCount>)
    ensures |entries| == |Distinct(locs)|
    ensures forall i :: 0 <= i < |entries| ==>
              entries[i] == LocationCount(Distinct(locs)[i], multiset(locs)[Distinct(locs)[i]])
  {
    var keys := Distinct(locs);
    seq(|keys|, i requires 0 <= i < |keys| => LocationCount(keys[i], multiset(locs)[keys[i]]))
  }

  /** `maxByOrNull { it.value }`: scanning left to right, the candidate changes only on a strictly larger count. */
  function FirstMaxByCount(entries: seq<LocationCount>): (i: nat)
    requires |entries| > 0
    ensures i < |entries|
    ensures forall j :: 0 <= j < |entries| ==> entries[j].count <= entries[i].count
    ensures forall j :: 0 <= j < i ==> entries[j].count < entries[i].count
  {
    if |entries| == 1 then 0
    else
      var m := FirstMaxByCount(entries[..|entries| - 1]);
      if entries[m].count < entries[|entries| - 1].count then |entries| - 1 else m
  }

  /** The most visited location of `trips`, `None` when there is no trip. */
  function MostVisited(trips: seq<Trip>): (r: Option<string>)
    ensures r.None? <==> trips == []
    ensures r.Some? ==> r.value in Locations(trips)
  {
    assert trips != [] ==> Locations(trips)[0] in Distinct(Locations(trips));
    var entries := EachCount(Locations(trips));
    if entries == [] then None else Some(entries[FirstMaxByCount(entries)].location)
  }

  /** `mostVisited`: the location, or "N/A" (`?: "N/A"`). */
  function MostVisitedLabel(tripsThisYear: seq<Trip>): (r: string)
    ensures tripsThisYear == [] ==> r == "N/A"
    ensures tripsThisYear != [] ==> r in Locations(tripsThisYear)
  {
    MostVisited(tripsThisYear).GetOr("N/A")
  }

  /** How many of `trips` are at `location`. */
  function Visits(trips: seq<Trip>, location: string): nat
  {
    multiset(Locations(trips))[location]
  }

  /**
   * No trips gives no location. Otherwise the answer is a location of some
   * trip, visited at least as often as any other, and strictly more often
   * than every location met before it.
   */
  lemma MostVisitedSpec(trips: seq<Trip>)
    ensures MostVisited(trips).None? <==> trips == []
    ensures MostVisited(trips).Some? ==>
              var l := MostVisited(trips).value;
              l in Locations(trips) &&
              (forall j :: 0 <= j < |trips| ==> Visits(trips, trips[j].location) <= Visits(trips, l)) &&
              (forall j :: 0 <= j < |trips| ==>
                 FirstIndex(Locations(trips), trips[j].location) < FirstIndex(Locations(trips), l) ==>
                 Visits(trips, trips[j].location) < Visits(trips, l))
  {
    var locs := Locations(trips);
    var entries := EachCount(locs);
    if trips == [] {
      assert locs == [];
    } else {
      assert locs[0] == trips[0].location;
      var _ := EntryOf(locs, locs[0]);
      var m := FirstMaxByCount(entries);
      var l := entries[m].location;
      assert MostVisited(trips) == Some(l);
      var _ := EntryOf(locs, l);
      forall j | 0 <= j < |trips|
        ensures Visits(trips, trips[j].location) <= Visits(trips, l)
        ensures FirstIndex(locs, trips[j].location) < FirstIndex(locs, l) ==>
                Visits(trips, trips[j].location) < Visits(trips, l)
      {
        assert locs[j] == trips[j].location;
        CountAgainstMax(locs, trips[j].location);
      }
    }
  }

  /** Every location of `locs` has its own entry in `EachCount(locs)`, holding its count. */
  lemma EntryOf(locs: seq<string>, x: string) returns (k: nat)
    requires x in locs
    ensures k < |Distinct(locs)| && Distinct(locs)[k] == x
    ensures EachCount(locs)[k].count == multiset(locs)[x]
  {
    DistinctSpec(locs);
    k :| 0 <= k < |Distinct(locs)| && Distinct(locs)[k] == x;
  }

  /**
   * Any location of `locs` is counted no more often than the entry `maxByOrNull`
   * picks, and strictly less often when it was met before that entry.
   */
  lemma CountAgainstMax(locs: seq<string>, x: string)
    requires x in locs
    ensures var entries := EachCount(locs);
            var m := FirstMaxByCount(entries);
            entries[m].location in locs &&
            multiset(locs)[x] <= entries[m].count &&
            (FirstIndex(locs, x) < FirstIndex(locs, entries[m].location) ==> multiset(locs)[x] < entries[m].count)
  {
    var keys := Distinct(locs);
    var entries := EachCount(locs);
    var k := EntryOf(locs, x);
    var m := FirstMaxByCount(entries);
    assert entries[m].location == keys[m];
    if m < k {
      KeysInFirstOrder(locs, m, k);
    }
  }

  /** The entries of `EachCount` follow the order in which their locations are first met. */
  lemma KeysInFirstOrder(locs: seq<string>, i: nat, j: nat)
    requires i < j < |Distinct(locs)|
    ensures FirstIndex(locs, Distinct(locs)[i]) < FirstIndex(locs, Distinct(locs)[j])
  {
    DistinctSpec(locs);
  }

  /** With no trips this year the summary reads "N/A". */
  lemma NoTripsReadsNotApplicable(trips: seq<Trip>)
    requires trips == []
    ensures MostVisitedLabel(trips) == "N/A"
  {
    MostVisitedSpec(trips);
  }

  /** "N/A" is also shown for a year whose most visited location is literally named "N/A". */
  lemma NotApplicableLocation()
    ensures MostVisitedLabel([Trip("k", "t", "d", "2025-01-01", "N/A")]) == "N/A"
  {
    var trips := [Trip("k", "t", "d", "2025-01-01", "N/A")];
    assert Locations(trips) == ["N/A"];
    assert Distinct(["N/A"]) == Distinct(["N/A"][..0]) + ["N/A"];
  }

  // ---------------------------------------------------------------------------
  // The calendar

  /** `DayOfWeek.value`: Monday is 1, Sunday is 7. */
  type DayOfWeek = d: int | 1 <= d <= 7 witness 1

  const DayOfWeekNames: seq<string> := ["Mon", "Tue", "Wed", "Thu", "Fri", "Sat", "Sun"]

  /** The calendar's header row, Sunday first. */
  const CalendarHeader: seq<string> := ["Sun", "Mon", "Tue", "Wed", "Thu", "Fri", "Sat"]

  /**
   * `startDay`: the number of blank cells before day 1, so that day 1 lands
   * in the header column of its weekday.
   */
  function StartDay(firstDayOfMonth: DayOfWeek): (blanks: nat)
    ensures blanks < 7
    ensures CalendarHeader[blanks] == DayOfWeekNames[firstDayOfMonth - 1]
  {
    firstDayOfMonth % 7
  }

  /** `trips.any { it.date == dateStr }`. */
  predicate IsTripDay(trips: seq<Trip>, dateStr: string)
  {
    trips != [] && (trips[0].date == dateStr || IsTripDay(trips[1..], dateStr))
  }

  /** A calendar day is marked exactly when some trip's date string equals that day's string. */
  lemma {:induction false} IsTripDaySpec(trips: seq<Trip>, dateStr: string)
    ensures IsTripDay(trips, dateStr) <==> exists i :: 0 <= i < |trips| && trips[i].date == dateStr
  {
    if trips != [] {
      IsTripDaySpec(trips[1..], dateStr);
      if exists i :: 0 <= i < |trips| && trips[i].date == dateStr {
        var i :| 0 <= i < |trips| && trips[i].date == dateStr;
        if i > 0 {
          assert trips[1..][i - 1] == trips[i];
        }
      }
    }
  }

  // ---------------------------------------------------------------------------
  // The screen's state

  class Dashboard {
    var trips: seq<Trip>
    var tripCount: int
    var nextTrip: Option<Trip>

    constructor ()
      ensures trips == [] && tripCount == 0 && nextTrip == None
    {
      trips := [];
      tripCount := 0;
      nextTrip := None;
    }

    /** `onDataChange`: rebuild `trips`, then publish its size and its earliest trip. */
    method OnDataChange(snapshot: seq<Child<Trip>>)
      modifies this
      ensures trips == Rebuilt(snapshot)
      ensures tripCount == |trips|
      ensures nextTrip == NextTrip(trips)
    {
      trips := [];
      for i := 0 to |snapshot|
        invariant trips == Rebuilt(snapshot[..i])
      {
        assert snapshot[..i + 1][..i] == snapshot[..i];
        var trip := snapshot[i].value;
        if trip.Some? {
          trips := trips + [WithId(trip.value, snapshot[i].key.GetOr(""))];
        }
      }
      assert snapshot[..|snapshot|] == snapshot;
      tripCount := |trips|;
      nextTrip := NextTrip(trips);
    }

    /** The figures of the year summary dialog: the number of trips this year and the most visited location. */
    function YearSummary(currentYear: int): (r: (int, string))
      reads this
      ensures r.0 <= |trips|
      ensures r.0 == 0 <==> forall t :: t in trips ==> !StartsWith(t.date, IntToString(currentYear))
      ensures r.0 == 0 ==> r.1 == "N/A"
    {
      var thisYear := TripsThisYear(trips, currentYear);
      TripsThisYearSpec(trips, currentYear);
      (|thisYear|, MostVisitedLabel(thisYear))
    }

    /** Whether the calendar cell for `dateStr` is highlighted as a trip day. */
    function IsMarked(dateStr: string): (r: bool)
      reads this
      ensures r <==> exists i :: 0 <= i < |trips| && trips[i].date == dateStr
    {
      IsTripDaySpec(trips, dateStr);
      IsTripDay(trips, dateStr)
    }
  }
}
