/**
 * The trip list screen: the listener that mirrors the `trips` reference into
 * `tripList`, and the displayed list derived from it by search and sort order.
 */
module TripList {
  import opened Seqs
  import opened Strings
  import opened TripModel
  import opened Snapshot

  // ---------------------------------------------------------------------------
  // Search: `filter { it.title.contains(searchQuery, ignoreCase = true) }`

  predicate TitleMatches(query: string, t: Trip)
  {
    ContainsIgnoreCase(t.title, query)
  }

  function Query(query: string): Trip -> bool
  {
    (t: Trip) => TitleMatches(query, t)
  }

  /** The trips whose title contains the query up to case: each kept trip matches, each matching trip is kept. */
  function Filtered(trips: seq<Trip>, query: string): (r: seq<Trip>)
    ensures forall i :: 0 <= i < |r| ==> TitleMatches(query, r[i])
    ensures forall i :: 0 <= i < |trips| && TitleMatches(query, trips[i]) ==> trips[i] in r
    ensures multiset(r) <= multiset(trips)
  {
    FilterMultiset(trips, Query(query));
    FilterKeeps(trips, Query(query));
    Filter(trips, Query(query))
  }

  // ---------------------------------------------------------------------------
  // Sort: `sortedBy { it.date }`, a stable sort on the date string

  predicate SortedByDate(s: seq<Trip>)
  {
    forall i, j :: 0 <= i < j < |s| ==> LexLe(s[i].date, s[j].date)
  }

  /** Inserts `t` before the first trip whose date is not smaller, so it precedes trips with its own date. */
  function Insert(t: Trip, s: seq<Trip>): (r: seq<Trip>)
    ensures multiset(r) == multiset(s) + multiset{t}
  {
    if s == [] || LexLe(t.date, s[0].date) then [t] + s
    else
      assert s == [s[0]] + s[1..];
      [s[0]] + Insert(t, s[1..])
  }

  /** A stable sort ascending by date: an earlier trip is inserted in front of the sorted later ones. */
  function SortByDate(s: seq<Trip>): (r: seq<Trip>)
    ensures SortedByDate(r)
    ensures multiset(r) == multiset(s)
  {
    if s == [] then []
    else
      InsertSorted(s[0], SortByDate(s[1..]));
      assert s == [s[0]] + s[1..];
      Insert(s[0], SortByDate(s[1..]))
  }

  function DatedOn(d: string): Trip -> bool
  {
    (t: Trip) => t.date == d
  }

  /** The trips of `s` dated exactly `d`, in their order in `s`. */
  function WithDate(s: seq<Trip>, d: string): seq<Trip>
  {
    Filter(s, DatedOn(d))
  }

  /** The relative order of trips with equal dates: the same in `r` as in `s`. */
  ghost predicate SameTies(r: seq<Trip>, s: seq<Trip>)
  {
    forall d :: WithDate(r, d) == WithDate(s, d)
  }

  // ---------------------------------------------------------------------------
  // The displayed list

  const DescendingOrder: string := "Descending"
  const AscendingOrder: string := "Ascending"

  /** `filter` by title, `sortedBy` date, then `reversed()` only when the order is exactly "Descending". */
  function DisplayTrips(trips: seq<Trip>, query: string, sortOrder: string): (r: seq<Trip>)
    ensures multiset(r) == multiset(Filtered(trips, query))
  {
    var ascending := SortByDate(Filtered(trips, query));
    if sortOrder == DescendingOrder then
      ReverseMultiset(ascending);
      Reverse(ascending)
    else ascending
  }

  // ---------------------------------------------------------------------------
  // Properties of the sort

  lemma {:induction false} InsertSorted(t: Trip, s: seq<Trip>)
    requires SortedByDate(s)
    ensures SortedByDate(Insert(t, s))
  {
    if s != [] && !LexLe(t.date, s[0].date) {
      InsertSorted(t, s[1..]);
      assert s == [s[0]] + s[1..];
      var r := Insert(t, s[1..]);
      LexLeTotal(t.date, s[0].date);
      forall j | 0 <= j < |r|
        ensures LexLe(s[0].date, r[j].date)
      {
        assert r[j] in multiset(s[1..]) + multiset{t};
        if r[j] != t {
          assert r[j] in multiset(s[1..]);
          var k :| 0 <= k < |s[1..]| && s[1..][k] == r[j];
          assert s[k + 1] == r[j];
        }
      }
    } else if s != [] {
      forall j | 0 < j < |s|
        ensures LexLe(t.date, s[j].date)
      {
        LexLeTransitive(t.date, s[0].date, s[j].date);
      }
    }
  }

  lemma {:induction false} InsertTies(t: Trip, s: seq<Trip>, d: string)
    ensures WithDate(Insert(t, s), d) == WithDate([t] + s, d)
  {
    if s != [] && !LexLe(t.date, s[0].date) {
      LexLeReflexive(t.date);
      InsertTies(t, s[1..], d);
      FilterCons(s[0], Insert(t, s[1..]), DatedOn(d));
      FilterCons(t, s[1..], DatedOn(d));
      FilterCons(t, s, DatedOn(d));
      assert s == [s[0]] + s[1..];
      FilterCons(s[0], s[1..], DatedOn(d));
    }
  }

  /** `sortedBy` yields the trips sorted by date, the same trips, and equal dates in input order. */
  lemma {:induction false} SortByDateSpec(s: seq<Trip>)
    ensures SortedByDate(SortByDate(s))
    ensures multiset(SortByDate(s)) == multiset(s)
    ensures SameTies(SortByDate(s), s)
  {
    if s != [] {
      SortByDateSpec(s[1..]);
      InsertSorted(s[0], SortByDate(s[1..]));
      assert s == [s[0]] + s[1..];
      forall d
        ensures WithDate(SortByDate(s), d) == WithDate(s, d)
      {
        var h := if DatedOn(d)(s[0]) then [s[0]] else [];
        calc {
          WithDate(SortByDate(s), d);
          { InsertTies(s[0], SortByDate(s[1..]), d); }
          WithDate([s[0]] + SortByDate(s[1..]), d);
          { FilterCons(s[0], SortByDate(s[1..]), DatedOn(d)); }
          h + WithDate(SortByDate(s[1..]), d);
          { assert SameTies(SortByDate(s[1..]), s[1..]); }
          h + WithDate(s[1..], d);
          { FilterCons(s[0], s[1..], DatedOn(d)); }
          WithDate(s, d);
        }
      }
    }
  }

  /**
   * A list sorted by date with the same per-date order as another sorted list is that list:
   * so `SortByDate` is the only result a stable sort by date can give.
   */
  lemma {:induction false} StableSortIsUnique(a: seq<Trip>, b: seq<Trip>)
    requires SortedByDate(a) && SortedByDate(b) && SameTies(a, b)
    ensures a == b
  {
    EmptyTies(a, b);
    if a != [] {
      var da, db := a[0].date, b[0].date;
      FirstDateIsLeast(a, b);
      FirstDateIsLeast(b, a);
      LexLeAntisymmetric(da, db);
      assert a == [a[0]] + a[1..] && b == [b[0]] + b[1..];
      FilterCons(a[0], a[1..], DatedOn(da));
      FilterCons(b[0], b[1..], DatedOn(da));
      assert WithDate(a, da) == WithDate(b, da);
      assert WithDate(a, da)[0] == a[0] && WithDate(b, da)[0] == b[0];
      forall d
        ensures WithDate(a[1..], d) == WithDate(b[1..], d)
      {
        var h := if DatedOn(d)(a[0]) then [a[0]] else [];
        FilterCons(a[0], a[1..], DatedOn(d));
        FilterCons(b[0], b[1..], DatedOn(d));
        assert WithDate(a, d) == WithDate(b, d);
        assert (h + WithDate(a[1..], d))[|h|..] == WithDate(a[1..], d);
        assert (h + WithDate(b[1..], d))[|h|..] == WithDate(b[1..], d);
      }
      StableSortIsUnique(a[1..], b[1..]);
    }
  }

  lemma EmptyTies(a: seq<Trip>, b: seq<Trip>)
    requires SameTies(a, b)
    ensures a == [] <==> b == []
  {
    if a != [] {
      FilterMembers(a, DatedOn(a[0].date), a[0]);
      FilterMembers(b, DatedOn(a[0].date), a[0]);
      assert WithDate(a, a[0].date) == WithDate(b, a[0].date);
    }
    if b != [] {
      FilterMembers(a, DatedOn(b[0].date), b[0]);
      FilterMembers(b, DatedOn(b[0].date), b[0]);
      assert WithDate(a, b[0].date) == WithDate(b, b[0].date);
    }
  }

  /** The first date of a sorted list is at most every date of a list with the same ties. */
  lemma FirstDateIsLeast(a: seq<Trip>, b: seq<Trip>)
    requires a != [] && b != [] && SortedByDate(b) && SameTies(a, b)
    ensures LexLe(b[0].date, a[0].date)
  {
    var d := a[0].date;
    FilterMembers(a, DatedOn(d), a[0]);
    assert WithDate(a, d) == WithDate(b, d);
    FilterMembers(b, DatedOn(d), a[0]);
    var k :| 0 <= k < |b| && b[k] == a[0];
    if k == 0 {
      LexLeReflexive(d);
    }
  }

  // ---------------------------------------------------------------------------
  // Properties of the displayed list

  /** Whatever the order, the displayed trips are the input trips whose title contains the query, each as often. */
  lemma DisplayTripsMembers(trips: seq<Trip>, query: string, sortOrder: string)
    ensures multiset(DisplayTrips(trips, query, sortOrder)) == multiset(Filtered(trips, query))
    ensures forall t :: t in DisplayTrips(trips, query, sortOrder) <==> t in trips && TitleMatches(query, t)
  {
    var f := Filtered(trips, query);
    SortByDateSpec(f);
    ReverseMultiset(SortByDate(f));
    forall t
      ensures t in DisplayTrips(trips, query, sortOrder) <==> t in trips && TitleMatches(query, t)
    {
      FilterMembers(trips, Query(query), t);
      assert t in DisplayTrips(trips, query, sortOrder) <==> t in multiset(DisplayTrips(trips, query, sortOrder));
    }
  }

  /** With an empty query every trip is displayed. */
  lemma EmptyQueryShowsAll(trips: seq<Trip>, sortOrder: string)
    ensures multiset(DisplayTrips(trips, "", sortOrder)) == multiset(trips)
  {
    forall i | 0 <= i < |trips|
      ensures Query("")(trips[i])
    {
      EmptyQueryContained(trips[i].title);
    }
    FilterAll(trips, Query(""));
    DisplayTripsMembers(trips, "", sortOrder);
  }

  /** Any order other than exactly "Descending" gives the stable ascending sort of the matching trips. */
  lemma AscendingDisplay(trips: seq<Trip>, query: string, sortOrder: string)
    requires sortOrder != DescendingOrder
    ensures SortedByDate(DisplayTrips(trips, query, sortOrder))
    ensures SameTies(DisplayTrips(trips, query, sortOrder), Filtered(trips, query))
  {
    SortByDateSpec(Filtered(trips, query));
  }

  /**
   * "Descending" is the ascending list reversed: dates are non-increasing, and
   * trips with equal dates appear in reverse input order.
   */
  lemma DescendingDisplay(trips: seq<Trip>, query: string)
    ensures DisplayTrips(trips, query, DescendingOrder) == Reverse(DisplayTrips(trips, query, AscendingOrder))
    ensures forall i, j :: 0 <= i < j < |DisplayTrips(trips, query, DescendingOrder)| ==>
              LexLe(DisplayTrips(trips, query, DescendingOrder)[j].date,
                    DisplayTrips(trips, query, DescendingOrder)[i].date)
    ensures forall d :: WithDate(DisplayTrips(trips, query, DescendingOrder), d) ==
                        Reverse(WithDate(Filtered(trips, query), d))
  {
    var asc := SortByDate(Filtered(trips, query));
    assert DisplayTrips(trips, query, AscendingOrder) == asc;
    assert DisplayTrips(trips, query, DescendingOrder) == Reverse(asc);
    SortByDateSpec(Filtered(trips, query));
    ReversedSortIsDescending(asc);
    forall d
      ensures WithDate(Reverse(asc), d) == Reverse(WithDate(Filtered(trips, query), d))
    {
      FilterReverse(asc, DatedOn(d));
    }
  }

  lemma ReversedSortIsDescending(asc: seq<Trip>)
    requires SortedByDate(asc)
    ensures forall i, j :: 0 <= i < j < |Reverse(asc)| ==> LexLe(Reverse(asc)[j].date, Reverse(asc)[i].date)
  {
    var desc := Reverse(asc);
    forall i, j | 0 <= i < j < |desc|
      ensures LexLe(desc[j].date, desc[i].date)
    {
      assert desc[i] == asc[|asc| - 1 - i] && desc[j] == asc[|asc| - 1 - j];
    }
  }

  // ---------------------------------------------------------------------------
  // The screen's state

  class TripListScreen {
    var tripList: seq<Trip>
    var isLoading: bool
    var searchQuery: string
    var sortOrder: string

    constructor ()
      ensures tripList == [] && isLoading
      ensures searchQuery == "" && sortOrder == AscendingOrder
    {
      tripList := [];
      isLoading := true;
      searchQuery := "";
      sortOrder := AscendingOrder;
    }

    /** `onDataChange`: clear, then add every non-null child re-keyed, then stop loading. */
    method OnDataChange(snapshot: seq<Child<Trip>>)
      modifies this`tripList, this`isLoading
      ensures tripList == Rebuilt(snapshot)
      ensures !isLoading
      ensures searchQuery == old(searchQuery) && sortOrder == old(sortOrder)
    {
      tripList := [];
      for i := 0 to |snapshot|
        invariant tripList == Rebuilt(snapshot[..i])
      {
        assert snapshot[..i + 1][..i] == snapshot[..i];
        var trip := snapshot[i].value;
        if trip.Some? {
          tripList := tripList + [WithId(trip.value, snapshot[i].key.GetOr(""))];
        }
      }
      assert snapshot[..|snapshot|] == snapshot;
      isLoading := false;
    }

    /** `onCancelled`: stop loading, keep the list. */
    method OnCancelled()
      modifies this`isLoading
      ensures !isLoading
      ensures tripList == old(tripList)
      ensures searchQuery == old(searchQuery) && sortOrder == old(sortOrder)
    {
      isLoading := false;
    }

    method SearchQueryChange(query: string)
      modifies this`searchQuery
      ensures searchQuery == query
      ensures tripList == old(tripList) && isLoading == old(isLoading) && sortOrder == old(sortOrder)
    {
      searchQuery := query;
    }

    method SortOrderChange(order: string)
      modifies this`sortOrder
      ensures sortOrder == order
      ensures tripList == old(tripList) && isLoading == old(isLoading) && searchQuery == old(searchQuery)
    {
      sortOrder := order;
    }

    /** The list shown once loading has finished; while loading, a spinner is shown instead. */
    function Displayed(): (r: seq<Trip>)
      requires !isLoading
      reads this
      ensures multiset(r) == multiset(Filtered(tripList, searchQuery))
      ensures sortOrder != DescendingOrder ==> SortedByDate(r)
    {
      DisplayTripsMembers(tripList, searchQuery, sortOrder);
      if sortOrder != DescendingOrder then
        AscendingDisplay(tripList, searchQuery, sortOrder);
        DisplayTrips(tripList, searchQuery, sortOrder)
      else
        DisplayTrips(tripList, searchQuery, sortOrder)
    }
  }
}
