# Trip-Roster in Dafny

Trip-Roster is an Android trip journal. A signed-in user keeps trips, each
with a title, a description, a date and a location, and keeps one written
summary per year. The app shows:

- a searchable, sortable trip list;
- a dashboard with the trip count, the next trip, a month calendar that
  marks trip days, and a year summary (trips this year, most visited place);
- the year summaries, newest year first;
- forms to add a trip, edit a trip and edit a summary.

This project models the logic inside those screens and proves what it
promises. The logic covers:

- the `Trip` record;
- the rebuild every database listener performs on each snapshot;
- the list view's filter / stable sort / reverse chain;
- the dashboard aggregates;
- the descending-year ordering of summaries;
- the state machines of the three forms.

Modules, one per file:

- `Wrappers`: `Option`.
- `Seqs`: `filter`, `reversed`, first index, and distinct values in
  encounter order.
- `Strings`: Kotlin `String.compareTo`, `startsWith`, and
  `contains(ignoreCase = true)`.
- `Decimal`: `Int.toString` and `String.toInt`. The latter takes an
  optional sign, ASCII digits, leading zeros, and the 32-bit range.
- `TripModel`: the `Trip` data class.
- `Snapshot`: the listener rebuild shared by the trip list and the
  dashboard.
- `TripList`: the trip list screen.
- `Home`: the dashboard.
- `Summaries`: the summary list.
- `AddTrip`, `EditTrip`, `EditSummary`: the forms.

Each screen's mutable state is a class. Its fields are what the screen
keeps in `remember`. Its methods are the callbacks:

- database ticks and cancellations;
- text-field changes;
- clicks;
- completion of a write.

A database snapshot is a sequence of children. Each child has an optional
key and an optional payload. A write's outcome is a `success` parameter.
Pure expressions of the screens become functions, and lemmas prove their
properties. The listener loops are `for` loops proved against those
functions.

Where the model departs from a natural reading of the screens:

- **Equal dates in descending order.** The descending trip list is exactly
  the reverse of the ascending one. Trips with equal dates therefore appear
  in reverse input order (`TripList.DescendingDisplay`).
- **A location named "N/A".** `mostVisited` falls back to `"N/A"` when no
  trip is dated this year. A trip whose location is literally `"N/A"`
  produces the same label. So "the label is N/A exactly when there are no
  trips this year" does not hold: only the "if" direction holds
  (`Home.NoTripsReadsNotApplicable`, `Home.NotApplicableLocation`). The
  exact statement is made about `Home.MostVisited`, an `Option`.
- **Year keys that do not parse.** The summary list is sorted by
  `toSortedMap(compareByDescending { it.toInt() })`:
  - The tree map compares every inserted key, so a single year key that
    does not parse as an integer makes the screen throw. This is modelled
    as a `Crashed` view, not as a precondition.
  - Two keys with the same integer value, such as "2025" and "02025",
    compare equal. The map keeps the first key with the last value, so
    one entry disappears (`Summaries.EqualYearsCollapse`).
- **Location lost on edit.** The edit-trip form rebuilds the trip without
  its location, so updating a trip clears its stored location
  (`EditTrip.LoadThenUpdate`).

## Model

All paths are under `app/src/main/java/com/example/triproster/`, written
out in full below.

| member | source | states |
|---|---|---|
| TripModel.DefaultTrip | app/src/main/java/com/example/triproster/model/TripDataModel.kt:3-9 | a default trip has all five fields equal to "" |
| TripModel.NewTrip | app/src/main/java/com/example/triproster/model/TripDataModel.kt:8 | a trip built without a location carries the given id, title, description and date, and location "" |
| TripModel.WithId | app/src/main/java/com/example/triproster/model/TripDataModel.kt:3 | `copy(id = key)` sets the id and keeps title, description, date and location |
| TripModel.TripEquality | app/src/main/java/com/example/triproster/model/TripDataModel.kt:3-9 | two trips are equal exactly when all five fields are equal |
| TripModel.WithIdOverwrites | app/src/main/java/com/example/triproster/model/TripDataModel.kt:3 | re-keying twice keeps only the last key; re-keying with the trip's own id changes nothing |
| Snapshot.Pick | app/src/main/java/com/example/triproster/ui/theme/screens/TripListScreen.kt:35-38 | a child without a payload contributes nothing; otherwise it contributes its trip re-keyed with the child's key, or "" without one |
| Snapshot.Rebuilt | app/src/main/java/com/example/triproster/ui/theme/screens/TripListScreen.kt:33-39 | the rebuilt list has at most one trip per child |
| Snapshot.RebuiltConcat | app/src/main/java/com/example/triproster/ui/theme/screens/TripListScreen.kt:34-39 | the rebuild of two runs of children is the rebuild of the first followed by that of the second, so snapshot order is kept |
| Snapshot.RebuiltMembers | app/src/main/java/com/example/triproster/ui/theme/screens/TripListScreen.kt:34-39 | a trip is in the rebuilt list exactly when some child with a payload yields it, re-keyed with that child's key |
| Snapshot.RebuiltLength | app/src/main/java/com/example/triproster/ui/theme/screens/home/HomeScreen.kt:55-61 | when every child has a payload, the list (and so `tripCount`) has one trip per child |
| Seqs.Filter | app/src/main/java/com/example/triproster/ui/theme/screens/TripListScreen.kt:54 | Kotlin `filter`: no longer than the input, and every element kept satisfies the predicate |
| Seqs.FilterKeeps | app/src/main/java/com/example/triproster/ui/theme/screens/TripListScreen.kt:54 | every element of the input that satisfies the predicate is kept |
| Seqs.FilterMembers | app/src/main/java/com/example/triproster/ui/theme/screens/TripListScreen.kt:54 | an element is kept by `filter` exactly when it is in the input and satisfies the predicate |
| Seqs.FilterMultiset | app/src/main/java/com/example/triproster/ui/theme/screens/TripListScreen.kt:54 | `filter` keeps a sub-multiset of the input, and every selected value as often as in the input |
| Seqs.FilterAll | app/src/main/java/com/example/triproster/ui/theme/screens/TripListScreen.kt:54 | a filter every element passes returns the input unchanged |
| Seqs.FilterConcat | app/src/main/java/com/example/triproster/ui/theme/screens/TripListScreen.kt:54 | filtering a concatenation filters each part, keeping order |
| Seqs.FilterReverse | app/src/main/java/com/example/triproster/ui/theme/screens/TripListScreen.kt:54-57 | filtering commutes with `reversed` |
| Seqs.Reverse | app/src/main/java/com/example/triproster/ui/theme/screens/TripListScreen.kt:57 | Kotlin `reversed`: the same length, and position k holds the element at position size-1-k |
| Seqs.ReverseConcat | app/src/main/java/com/example/triproster/ui/theme/screens/TripListScreen.kt:57 | the reverse of a concatenation is the reversed second part followed by the reversed first part |
| Seqs.ReverseMultiset | app/src/main/java/com/example/triproster/ui/theme/screens/TripListScreen.kt:57 | `reversed` is a permutation |
| Seqs.FirstIndex | app/src/main/java/com/example/triproster/ui/theme/screens/home/HomeScreen.kt:80 | the index of the first occurrence of a present value: it holds the value, and no earlier position does |
| Seqs.FirstIndexAppend | app/src/main/java/com/example/triproster/ui/theme/screens/home/HomeScreen.kt:80 | appending keeps the first occurrence of a value already present |
| Seqs.Distinct | app/src/main/java/com/example/triproster/ui/theme/screens/home/HomeScreen.kt:80 | the keys `groupingBy` collects: no more than the input, each one an input value, and every input value among them |
| Seqs.DistinctSpec | app/src/main/java/com/example/triproster/ui/theme/screens/home/HomeScreen.kt:80 | the groups of `groupingBy`: the distinct values, with no repeats, in order of first occurrence |
| Strings.LexLe | app/src/main/java/com/example/triproster/ui/theme/screens/TripListScreen.kt:55 | Kotlin `String.compareTo(b) <= 0`, compared character by character with a proper prefix first; its order laws are the lemmas below |
| Strings.LexLePrefix | app/src/main/java/com/example/triproster/ui/theme/screens/TripListScreen.kt:55 | a string orders no later than any string it is a prefix of |
| Strings.LexLeReflexive | app/src/main/java/com/example/triproster/ui/theme/screens/TripListScreen.kt:55 | string order used by `sortedBy { it.date }` is reflexive |
| Strings.LexLeTotal | app/src/main/java/com/example/triproster/ui/theme/screens/TripListScreen.kt:55 | any two dates are ordered one way or the other |
| Strings.LexLeAntisymmetric | app/src/main/java/com/example/triproster/ui/theme/screens/TripListScreen.kt:55 | dates ordered both ways are equal |
| Strings.LexLeTransitive | app/src/main/java/com/example/triproster/ui/theme/screens/TripListScreen.kt:55 | the date order is transitive |
| Strings.Fold | app/src/main/java/com/example/triproster/ui/theme/screens/TripListScreen.kt:54 | an upper-case ASCII letter maps to its own lower-case letter (code plus 32), every other character to itself |
| Strings.FoldIdempotent | app/src/main/java/com/example/triproster/ui/theme/screens/TripListScreen.kt:54 | folding twice is folding once |
| Strings.FoldAll | app/src/main/java/com/example/triproster/ui/theme/screens/TripListScreen.kt:54 | folding a string folds each character and keeps its length |
| Strings.StartsWith | app/src/main/java/com/example/triproster/ui/theme/screens/home/HomeScreen.kt:79 | Kotlin `startsWith`: the prefix is no longer than the string and agrees with it position by position |
| Strings.ContainsIgnoreCase | app/src/main/java/com/example/triproster/ui/theme/screens/TripListScreen.kt:54 | Kotlin `contains(q, ignoreCase = true)` as a left-to-right scan; it holds only when the query fits in the title |
| Strings.SearchIgnoresOnlyCase | app/src/main/java/com/example/triproster/ui/theme/screens/TripListScreen.kt:54 | "GOA" is found in "Goa trip" while "Gob" is not found in "Goa": only case is ignored |
| Strings.ContainsIgnoreCaseWindow | app/src/main/java/com/example/triproster/ui/theme/screens/TripListScreen.kt:54 | `contains(q, ignoreCase = true)` holds exactly when some window of the title equals q up to case |
| Strings.EmptyQueryContained | app/src/main/java/com/example/triproster/ui/theme/screens/TripListScreen.kt:54 | every title contains the empty query |
| Strings.ContainsIgnoreCaseFolded | app/src/main/java/com/example/triproster/ui/theme/screens/TripListScreen.kt:54 | case-insensitive search gives the same answer on the folded title and query |
| Decimal.NatToString | app/src/main/java/com/example/triproster/ui/theme/screens/home/HomeScreen.kt:79 | the decimal digits of a number are non-empty, all digits, without a leading zero |
| Decimal.IntToString | app/src/main/java/com/example/triproster/ui/theme/screens/home/HomeScreen.kt:79 | `"$currentYear"` is non-empty and starts with '-' exactly when the year is negative |
| Decimal.InIntRange | app/src/main/java/com/example/triproster/ui/theme/screens/SummaryScreen.kt:81 | a parsed value is kept exactly when it fits a 32-bit `Int` |
| Decimal.ParseInt | app/src/main/java/com/example/triproster/ui/theme/screens/SummaryScreen.kt:81 | `toInt` yields only 32-bit values |
| Decimal.DigitsValueOfNatToString | app/src/main/java/com/example/triproster/ui/theme/screens/home/HomeScreen.kt:79 | reading back the digits of a number gives the number |
| Decimal.ParseIntToString | app/src/main/java/com/example/triproster/ui/theme/screens/SummaryScreen.kt:81 | `toInt` of `toString` of any 32-bit value is that value |
| Decimal.LeadingZeroIgnored | app/src/main/java/com/example/triproster/ui/theme/screens/SummaryScreen.kt:81 | a leading zero does not change the value `toInt` reads |
| TripList.Filtered | app/src/main/java/com/example/triproster/ui/theme/screens/TripListScreen.kt:54 | every kept trip has a title containing the query up to case, every such trip is kept, and nothing is added |
| TripList.Insert | app/src/main/java/com/example/triproster/ui/theme/screens/TripListScreen.kt:55 | the insertion step of the stable sort adds exactly the one trip |
| TripList.SortByDate | app/src/main/java/com/example/triproster/ui/theme/screens/TripListScreen.kt:55 | `sortedBy { it.date }`: the result is sorted by date and a permutation of the input (stability is SortByDateSpec) |
| TripList.InsertSorted | app/src/main/java/com/example/triproster/ui/theme/screens/TripListScreen.kt:55 | inserting into a date-sorted list keeps it sorted |
| TripList.InsertTies | app/src/main/java/com/example/triproster/ui/theme/screens/TripListScreen.kt:55 | insertion puts a trip before every later trip with its date, so the trips of each date keep their order |
| TripList.SortByDateSpec | app/src/main/java/com/example/triproster/ui/theme/screens/TripListScreen.kt:55 | `sortedBy { it.date }` is sorted by date, a permutation, and stable: the trips of each date keep their input order |
| TripList.StableSortIsUnique | app/src/main/java/com/example/triproster/ui/theme/screens/TripListScreen.kt:55 | two date-sorted lists with the same trips per date in the same order are equal, so the stable sort's output is determined |
| TripList.EmptyTies | app/src/main/java/com/example/triproster/ui/theme/screens/TripListScreen.kt:55 | lists with the same trips per date are empty together |
| TripList.FirstDateIsLeast | app/src/main/java/com/example/triproster/ui/theme/screens/TripListScreen.kt:55 | the head of a sorted rearrangement has a date no later than any trip of the input |
| TripList.DisplayTrips | app/src/main/java/com/example/triproster/ui/theme/screens/TripListScreen.kt:53-57 | the displayed list, for any order, is a permutation of the filtered trips |
| TripList.DisplayTripsMembers | app/src/main/java/com/example/triproster/ui/theme/screens/TripListScreen.kt:53-57 | the displayed list is a permutation of the trips whose title contains the query case-insensitively, for either order |
| TripList.EmptyQueryShowsAll | app/src/main/java/com/example/triproster/ui/theme/screens/TripListScreen.kt:54 | with an empty query every trip is displayed, as often as it occurs |
| TripList.AscendingDisplay | app/src/main/java/com/example/triproster/ui/theme/screens/TripListScreen.kt:55-57 | for any order other than exactly "Descending" the display is sorted by date and keeps input order among equal dates |
| TripList.DescendingDisplay | app/src/main/java/com/example/triproster/ui/theme/screens/TripListScreen.kt:57 | the "Descending" display is the reverse of the ascending one: dates non-increasing, equal dates in reverse input order |
| TripList.ReversedSortIsDescending | app/src/main/java/com/example/triproster/ui/theme/screens/TripListScreen.kt:57 | reversing a date-sorted list gives non-increasing dates |
| TripList.TripListScreen.constructor | app/src/main/java/com/example/triproster/ui/theme/screens/TripListScreen.kt:22-26 | an empty list, loading, empty query, order "Ascending" |
| TripList.TripListScreen.OnDataChange | app/src/main/java/com/example/triproster/ui/theme/screens/TripListScreen.kt:32-41 | the list becomes exactly the rebuild of the snapshot (earlier contents gone), loading ends, query and order unchanged |
| TripList.TripListScreen.OnCancelled | app/src/main/java/com/example/triproster/ui/theme/screens/TripListScreen.kt:43-45 | loading ends and nothing else changes |
| TripList.TripListScreen.SearchQueryChange | app/src/main/java/com/example/triproster/ui/theme/screens/TripListScreen.kt:73 | sets the query and nothing else |
| TripList.TripListScreen.SortOrderChange | app/src/main/java/com/example/triproster/ui/theme/screens/TripListScreen.kt:75 | sets the order and nothing else |
| TripList.TripListScreen.Displayed | app/src/main/java/com/example/triproster/ui/theme/screens/TripListScreen.kt:53-62 | once loading has finished, the shown list is a permutation of the matching trips, and is sorted by date unless the order is "Descending" |
| Home.FirstMinByDate | app/src/main/java/com/example/triproster/ui/theme/screens/home/HomeScreen.kt:62 | the scan of `minByOrNull` returns a position of the list |
| Home.NextTrip | app/src/main/java/com/example/triproster/ui/theme/screens/home/HomeScreen.kt:62 | `minByOrNull { it.date }` is null exactly when there are no trips, and otherwise one of the trips |
| Home.FirstMinByDateSpec | app/src/main/java/com/example/triproster/ui/theme/screens/home/HomeScreen.kt:62 | that position holds a least date, and no earlier trip has that date |
| Home.NextTripSpec | app/src/main/java/com/example/triproster/ui/theme/screens/home/HomeScreen.kt:62 | the next trip is absent exactly when there are no trips; otherwise it is the first trip with the least date, whatever today is |
| Home.TripsThisYear | app/src/main/java/com/example/triproster/ui/theme/screens/home/HomeScreen.kt:79 | the trips of the year are no more than the trips, and each has a date starting with the year's digits |
| Home.TripsThisYearSpec | app/src/main/java/com/example/triproster/ui/theme/screens/home/HomeScreen.kt:79 | the trips of the year are those whose date starts with the year's digits, each as often as in the list |
| Home.Locations | app/src/main/java/com/example/triproster/ui/theme/screens/home/HomeScreen.kt:80 | the location of each trip, position by position |
| Home.EachCount | app/src/main/java/com/example/triproster/ui/theme/screens/home/HomeScreen.kt:80 | `eachCount`: one entry per distinct location in encounter order, with its number of occurrences |
| Home.FirstMaxByCount | app/src/main/java/com/example/triproster/ui/theme/screens/home/HomeScreen.kt:80 | `maxByOrNull` picks an entry with the largest count, and every earlier entry has a strictly smaller count |
| Home.MostVisited | app/src/main/java/com/example/triproster/ui/theme/screens/home/HomeScreen.kt:80 | the most visited location is absent exactly when there are no trips, and otherwise the location of some trip |
| Home.MostVisitedLabel | app/src/main/java/com/example/triproster/ui/theme/screens/home/HomeScreen.kt:80 | with no trips the label is "N/A"; otherwise it is the location of one of the trips |
| Home.MostVisitedSpec | app/src/main/java/com/example/triproster/ui/theme/screens/home/HomeScreen.kt:80 | the most visited location is absent exactly when there are no trips; otherwise it is visited at least as often as any other, and strictly more often than every location met before it |
| Home.CountAgainstMax | app/src/main/java/com/example/triproster/ui/theme/screens/home/HomeScreen.kt:80 | `maxByOrNull` over the per-location counts picks an entry counted at least as often as any location, and strictly more often than any location met before it |
| Home.KeysInFirstOrder | app/src/main/java/com/example/triproster/ui/theme/screens/home/HomeScreen.kt:80 | the `eachCount` entries come in the order their locations are first met |
| Home.NoTripsReadsNotApplicable | app/src/main/java/com/example/triproster/ui/theme/screens/home/HomeScreen.kt:80 | with no trips this year the label is "N/A" |
| Home.NotApplicableLocation | app/src/main/java/com/example/triproster/ui/theme/screens/home/HomeScreen.kt:80 | a year whose only trip is at location "N/A" reads "N/A" too |
| Home.StartDay | app/src/main/java/com/example/triproster/ui/theme/screens/home/HomeScreen.kt:48 | the number of blank cells is below 7, and the header column after them names the month's first weekday (Sunday gives 0) |
| Home.IsTripDay | app/src/main/java/com/example/triproster/ui/theme/screens/home/HomeScreen.kt:205 | `trips.any { it.date == dateStr }` as a scan; its meaning is IsTripDaySpec |
| Home.IsTripDaySpec | app/src/main/java/com/example/triproster/ui/theme/screens/home/HomeScreen.kt:204-205 | a day is a trip day exactly when some trip's date equals its date string |
| Home.Dashboard.constructor | app/src/main/java/com/example/triproster/ui/theme/screens/home/HomeScreen.kt:38-40 | no trips, count 0, no next trip |
| Home.Dashboard.OnDataChange | app/src/main/java/com/example/triproster/ui/theme/screens/home/HomeScreen.kt:53-63 | trips become the rebuild of the snapshot, the count is their number, and the next trip is the first with the least date |
| Home.Dashboard.YearSummary | app/src/main/java/com/example/triproster/ui/theme/screens/home/HomeScreen.kt:79-80 | the year's count is at most the trip count, is 0 exactly when no date starts with the year, and then the place reads "N/A" |
| Home.Dashboard.IsMarked | app/src/main/java/com/example/triproster/ui/theme/screens/home/HomeScreen.kt:205 | a calendar cell is marked exactly when some trip has that date |
| Summaries.Collected | app/src/main/java/com/example/triproster/ui/theme/screens/SummaryScreen.kt:36-41 | the map a tick leaves has at most one entry per child |
| Summaries.CollectedKeys | app/src/main/java/com/example/triproster/ui/theme/screens/SummaryScreen.kt:36-40 | after a tick a year is a key exactly when some child with that key has a text value; every other year is gone |
| Summaries.CollectedLast | app/src/main/java/com/example/triproster/ui/theme/screens/SummaryScreen.kt:37-40 | the last child with a given key and a text value decides that year's text |
| Summaries.CollectedSpec | app/src/main/java/com/example/triproster/ui/theme/screens/SummaryScreen.kt:36-41 | a year is in the map exactly when some child with that key has a text value, and it maps to the text of the last such child |
| Summaries.SummaryScreen.constructor | app/src/main/java/com/example/triproster/ui/theme/screens/SummaryScreen.kt:29 | the map starts empty |
| Summaries.SummaryScreen.Shown | app/src/main/java/com/example/triproster/ui/theme/screens/SummaryScreen.kt:78-81 | the screen shows the empty message exactly for an empty map, crashes exactly when some key does not parse, and otherwise shows cards in strictly descending year order |
| Summaries.SummaryScreen.OnDataChange | app/src/main/java/com/example/triproster/ui/theme/screens/SummaryScreen.kt:35-42 | the map becomes exactly what the snapshot stores, skipping children without key or text; years no longer present are gone |
| Summaries.Put | app/src/main/java/com/example/triproster/ui/theme/screens/SummaryScreen.kt:81 | a tree-map put adds at most one card |
| Summaries.ToSortedDescending | app/src/main/java/com/example/triproster/ui/theme/screens/SummaryScreen.kt:81 | the sorted map has at most one card per key, and no keys give no cards |
| Summaries.View | app/src/main/java/com/example/triproster/ui/theme/screens/SummaryScreen.kt:78-81 | "No summaries available." exactly when the map is empty; otherwise any cards shown are at least one and at most one per key |
| Summaries.PutValues | app/src/main/java/com/example/triproster/ui/theme/screens/SummaryScreen.kt:81 | a tree-map put adds the key's value to the set of values shown |
| Summaries.PutDescending | app/src/main/java/com/example/triproster/ui/theme/screens/SummaryScreen.kt:81 | a put keeps the cards in strictly descending year order |
| Summaries.PutCards | app/src/main/java/com/example/triproster/ui/theme/screens/SummaryScreen.kt:81 | after a put every card shows a year key of the map with that key's integer value, and a summary of the map |
| Summaries.ToSortedDescendingSpec | app/src/main/java/com/example/triproster/ui/theme/screens/SummaryScreen.kt:81 | the sorted map fails exactly when some key does not parse; otherwise its cards are strictly descending, one per integer value of the keys, each backed by a map entry |
| Summaries.ViewSpec | app/src/main/java/com/example/triproster/ui/theme/screens/SummaryScreen.kt:78-81 | "No summaries available." exactly when the map is empty; a crash exactly when it is not and some key does not parse; otherwise descending cards covering every key's value |
| Summaries.DistinctYearsShowEveryEntry | app/src/main/java/com/example/triproster/ui/theme/screens/SummaryScreen.kt:81 | when no two keys have the same integer value, each card is an entry of the map and every entry has a card |
| Summaries.EqualYearsCollapse | app/src/main/java/com/example/triproster/ui/theme/screens/SummaryScreen.kt:81 | keys "2025" and "02025" collapse into one card, keeping the first key with the last text |
| AddTrip.SubmittedTrip | app/src/main/java/com/example/triproster/ui/theme/screens/AddTripScreen.kt:32-34 | a click writes a trip only when a key was generated; it has that key as id, the form's fields, and location "" |
| AddTrip.SubmittedTripIsFilled | app/src/main/java/com/example/triproster/ui/theme/screens/AddTripScreen.kt:100 | a trip submitted through the enabled button has non-empty title, description and date |
| AddTrip.AddEnabled | app/src/main/java/com/example/triproster/ui/theme/screens/AddTripScreen.kt:100 | the Add button's `enabled` as written: title, description and date all non-empty, with no reference to `isSubmitting` |
| AddTrip.CanSubmit | app/src/main/java/com/example/triproster/ui/theme/screens/AddTripScreen.kt:29-30 | the guard the comment at line 29 describes: the fields are filled and no write is pending |
| AddTrip.AddTripScreen.constructor | app/src/main/java/com/example/triproster/ui/theme/screens/AddTripScreen.kt:16-19 | empty fields, not submitting |
| AddTrip.AddTripScreen.TitleChange | app/src/main/java/com/example/triproster/ui/theme/screens/AddTripScreen.kt:25 | sets the title |
| AddTrip.AddTripScreen.DescriptionChange | app/src/main/java/com/example/triproster/ui/theme/screens/AddTripScreen.kt:26 | sets the description |
| AddTrip.AddTripScreen.DateChange | app/src/main/java/com/example/triproster/ui/theme/screens/AddTripScreen.kt:27 | sets the date |
| AddTrip.AddTripScreen.ClickAdd | app/src/main/java/com/example/triproster/ui/theme/screens/AddTripScreen.kt:28-53 | taken whenever the fields are filled, even with a write pending: writes the new trip under the generated key and stays submitting, which the intended guard would refuse; without a key writes nothing and is no longer submitting |
| AddTrip.AddTripScreen.OnWriteComplete | app/src/main/java/com/example/triproster/ui/theme/screens/AddTripScreen.kt:38-49 | in any state, submitting ends whatever the outcome; only success goes on to the trip list |
| AddTrip.DoubleClickWritesTwice | app/src/main/java/com/example/triproster/ui/theme/screens/AddTripScreen.kt:28-53 | as written: filling the form and clicking Add twice with a write pending writes the same trip twice, under two different keys |
| AddTrip.GuardedDoubleClickWritesOnce | app/src/main/java/com/example/triproster/ui/theme/screens/AddTripScreen.kt:29-30 | with the intended guard: after the first click the second is refused, one trip is written, and the form is enabled again once the write completes |
| EditTrip.UpdatedTrip | app/src/main/java/com/example/triproster/ui/theme/screens/EditTripScreen.kt:79 | the updated trip has the screen's id and the form's fields, and location "" |
| EditTrip.EditTripScreen.constructor | app/src/main/java/com/example/triproster/ui/theme/screens/EditTripScreen.kt:18-21 | empty fields and loading |
| EditTrip.EditTripScreen.OnDataChange | app/src/main/java/com/example/triproster/ui/theme/screens/EditTripScreen.kt:27-35 | a fetched trip fills title, description and date; a missing one leaves them; loading ends either way |
| EditTrip.EditTripScreen.OnCancelled | app/src/main/java/com/example/triproster/ui/theme/screens/EditTripScreen.kt:37-39 | loading ends and the fields are unchanged |
| EditTrip.EditTripScreen.TitleChange | app/src/main/java/com/example/triproster/ui/theme/screens/EditTripScreen.kt:58 | sets the title |
| EditTrip.EditTripScreen.DescriptionChange | app/src/main/java/com/example/triproster/ui/theme/screens/EditTripScreen.kt:65 | sets the description |
| EditTrip.EditTripScreen.DateChange | app/src/main/java/com/example/triproster/ui/theme/screens/EditTripScreen.kt:72 | sets the date |
| EditTrip.EditTripScreen.ClickUpdate | app/src/main/java/com/example/triproster/ui/theme/screens/EditTripScreen.kt:77-82 | once loaded, writes the updated trip, with no check on the fields |
| EditTrip.LoadThenUpdate | app/src/main/java/com/example/triproster/ui/theme/screens/EditTripScreen.kt:27-35 | loading a stored trip and updating without edits writes it back with its location cleared, so a trip with a location is not preserved |
| EditTrip.UpdateEmptyForm | app/src/main/java/com/example/triproster/ui/theme/screens/EditTripScreen.kt:77-90 | when the fetch finds nothing, Update still writes a trip with only its id |
| EditSummary.EditSummaryScreen.constructor | app/src/main/java/com/example/triproster/ui/theme/screens/EditSummaryScreen.kt:22-25 | the text starts as the initial summary, not loading, no error |
| EditSummary.EditSummaryScreen.CurrentPhase | app/src/main/java/com/example/triproster/ui/theme/screens/EditSummaryScreen.kt:24-25 | the idle/saving/failed phase the two flags encode: saving exactly while loading, failed only with an error shown, and (in a valid state) any error shown means failed |
| EditSummary.EditSummaryScreen.SaveEnabled | app/src/main/java/com/example/triproster/ui/theme/screens/EditSummaryScreen.kt:88 | Save is enabled exactly when no save is pending (the phase is not saving) |
| EditSummary.EditSummaryScreen.SummaryChange | app/src/main/java/com/example/triproster/ui/theme/screens/EditSummaryScreen.kt:50 | sets the text |
| EditSummary.EditSummaryScreen.ClickSave | app/src/main/java/com/example/triproster/ui/theme/screens/EditSummaryScreen.kt:63-72 | only when enabled (not loading): starts saving, clears the error, and writes exactly the text at summaries/uid/year, with "" for a missing uid |
| EditSummary.EditSummaryScreen.OnSaveComplete | app/src/main/java/com/example/triproster/ui/theme/screens/EditSummaryScreen.kt:73-88 | saving ends and Save is enabled again; success returns to idle and goes back; failure shows "Failed to update summary." and keeps the text |

## Left out

- Firebase Realtime Database and Authentication are not modelled: the
  listeners, `push().key`, `setValue`, `removeValue` and sign-in. A
  snapshot is an input sequence, a generated key an `Option` parameter,
  the signed-in user's id an `Option` parameter, and a completion a
  `success` flag.
- Deleting a trip (TripListScreen.kt:68-71) and a summary
  (SummaryScreen.kt:104-107) is a single remote call with no local state.
  It is not modelled.
- The dashboard's fetch and save of the year's summary text
  (HomeScreen.kt:70-76, 258-261) are remote reads and writes of one string.
  They are not modelled.
- Listener lifecycle: the `onDispose` the trip list calls is a local no-op.
  Registration and release of listeners are resource management.
- The dashboard's `onCancelled` only prints an error. Console output is not
  modelled.
- Compose layout, dialogs, toasts, navigation routes and the login,
  register, settings and splash screens are not modelled.
- `java.time.LocalDate` is not modelled:
  - the current year is a parameter;
  - the first weekday of the month is a `DayOfWeek` parameter (1 = Monday
    … 7 = Sunday);
  - the ISO date string of a calendar day is a parameter.
- Strings.Fold: `contains(ignoreCase = true)` folds case over all of
  Unicode. The model folds ASCII letters only.
- Strings.LexLe: Kotlin compares UTF-16 code units. The model compares
  Dafny characters in order. The two agree for dates and other text
  without surrogate pairs.
- Decimal.ParseInt: `toInt` also accepts non-ASCII decimal digits. The
  model accepts ASCII digits only.
- Summaries.View: the order in which the observable map hands its keys to
  `toSortedMap` is a parameter (any enumeration of the keys). Which of two
  keys with equal integer value survives depends on it.
- EditSummary.EditSummaryScreen.OnSaveComplete requires a pending save.
  The Save button is disabled while `isLoading` is set, so at most one
  save is outstanding, and its completion is what clears the flag.
- EditTrip.EditTripScreen.OnDataChange and OnCancelled require the form to
  be loading. The read is a single-value read, so exactly one of the two
  callbacks runs, once, while `isLoading` is still set.

## Findings

| source | as written | input that shows it | evidently intended | confidence | as-written member | corrected member |
|---|---|---|---|---|---|---|
| app/src/main/java/com/example/triproster/ui/theme/screens/AddTripScreen.kt:100 | the Add button's `enabled` depends only on the three fields; `isSubmitting` is set on click but never read | fill in "Goa", "Beach vacation", "2025-06-20", click Add, click again before the first write completes: two trips are written under two keys | the button is disabled while a write is pending, as the comment at line 29 says | not executed | AddTrip.DoubleClickWritesTwice | AddTrip.GuardedDoubleClickWritesOnce |
