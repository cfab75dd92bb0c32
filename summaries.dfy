/**
 * The summaries screen: the listener that mirrors `summaries/<uid>` into a
 * year-to-text map, and the cards listing it by descending year.
 */
module Summaries {
  import opened Wrappers
  import opened Decimal
  import opened Snapshot

  // ---------------------------------------------------------------------------
  // The listener

  /** A child that is kept: it has a key, and its value reads as a string. */
  predicate Stores(c: Child<string>, year: string)
  {
    c.key == Some(year) && c.value.Some?
  }

  /** The map a listener tick leaves: each kept child written under its key, later children last. */
  function Collected(children: seq<Child<string>>): (m: map<string, string>)
    ensures |m| <= |children|
  {
    if children == [] then map[]
    else
      var m := Collected(children[..|children| - 1]);
      var c := children[|children| - 1];
      if c.key.Some? && c.value.Some? then m[c.key.value := c.value.value] else m
  }

  /** A year is in the map exactly when some kept child has it as key, so years absent from the snapshot are gone. */
  lemma {:induction false} CollectedKeys(children: seq<Child<string>>, year: string)
    ensures year in Collected(children) <==> exists i :: 0 <= i < |children| && Stores(children[i], year)
  {
    if children != [] {
      var n := |children|;
      var init := children[..n - 1];
      CollectedKeys(init, year);
      if exists i :: 0 <= i < n && Stores(children[i], year) {
        var i :| 0 <= i < n && Stores(children[i], year);
        if i < n - 1 {
          assert Stores(init[i], year);
        }
      }
      if exists i :: 0 <= i < n - 1 && Stores(init[i], year) {
        var i :| 0 <= i < n - 1 && Stores(init[i], year);
        assert Stores(children[i], year);
      }
    }
  }

  /** The last kept child with a given key decides that key's value. */
  lemma {:induction false} CollectedLast(children: seq<Child<string>>, year: string, i: nat)
    requires i < |children| && Stores(children[i], year)
    requires forall j :: i < j < |children| ==> !Stores(children[j], year)
    ensures year in Collected(children) && Collected(children)[year] == children[i].value.value
  {
    var n := |children|;
    if i < n - 1 {
      var init := children[..n - 1];
      assert Stores(init[i], year);
      assert !Stores(children[n - 1], year);
      forall j | i < j < n - 1
        ensures !Stores(init[j], year)
      {
        assert init[j] == children[j];
      }
      CollectedLast(init, year, i);
    }
  }

  /**
   * A year is in the map exactly when some kept child has it as key (so years
   * absent from the snapshot are gone), and it holds the value of the last such child.
   */
  lemma CollectedSpec(children: seq<Child<string>>, year: string)
    ensures year in Collected(children) <==> exists i :: 0 <= i < |children| && Stores(children[i], year)
    ensures forall i :: 0 <= i < |children| && Stores(children[i], year) &&
                        (forall j :: i < j < |children| ==> !Stores(children[j], year)) ==>
                        year in Collected(children) && Collected(children)[year] == children[i].value.value
  {
    CollectedKeys(children, year);
    forall i | 0 <= i < |children| && Stores(children[i], year) &&
               (forall j :: i < j < |children| ==> !Stores(children[j], year))
      ensures year in Collected(children) && Collected(children)[year] == children[i].value.value
    {
      CollectedLast(children, year, i);
    }
  }

  class SummaryScreen {
    var summaries: map<string, string>

    constructor ()
      ensures summaries == map[]
    {
      summaries := map[];
    }

    /** `onDataChange`: clear, then store each child that has a key and a string value. */
    method OnDataChange(snapshot: seq<Child<string>>)
      modifies this
      ensures summaries == Collected(snapshot)
    {
      summaries := map[];
      for i := 0 to |snapshot|
        invariant summaries == Collected(snapshot[..i])
      {
        assert snapshot[..i + 1][..i] == snapshot[..i];
        var year := snapshot[i].key;
        if year.None? {
          continue;
        }
        var summary := snapshot[i].value;
        if summary.None? {
          continue;
        }
        summaries := summaries[year.value := summary.value];
      }
      assert snapshot[..|snapshot|] == snapshot;
    }

    /** What the screen shows, with the map's keys visited in `order`. */
    function Shown(order: seq<string>): (v: SummaryView)
      reads this
      requires IsIterationOrder(order, summaries)
      ensures v == NoSummaries <==> |summaries| == 0
      ensures v.Cards? ==> Descending(v.cards)
      ensures v == Crashed <==> |summaries| > 0 && exists k :: k in summaries && ParseInt(k).None?
    {
      ViewSpec(summaries, order);
      View(summaries, order)
    }
  }

  // ---------------------------------------------------------------------------
  // The cards: `summaries.toSortedMap(compareByDescending { it.toInt() })`

  /** One card: the year key the sorted map kept, its integer value and the text shown. */
  datatype Card = Card(value: int, year: string, summary: string)

  datatype SummaryView =
    | NoSummaries            // "No summaries available."
    | Cards(cards: seq<Card>)
    | Crashed                // `toInt` threw NumberFormatException

  /** An order in which the map's entries can be visited: each key once. */
  predicate IsIterationOrder(order: seq<string>, m: map<string, string>)
  {
    && (forall i :: 0 <= i < |order| ==> order[i] in m)
    && (forall k :: k in m ==> k in order)
    && (forall i, j :: 0 <= i < j < |order| ==> order[i] != order[j])
  }

  predicate Descending(cards: seq<Card>)
  {
    forall i, j :: 0 <= i < j < |cards| ==> cards[i].value > cards[j].value
  }

  function Values(cards: seq<Card>): set<int>
  {
    set i | 0 <= i < |cards| :: cards[i].value
  }

  /**
   * `TreeMap.put` under the descending comparator: a new year goes before the
   * first smaller one; a year comparing equal keeps its key and takes the new text.
   */
  function Put(cards: seq<Card>, year: string, value: int, summary: string): (r: seq<Card>)
    ensures |cards| <= |r| <= |cards| + 1
  {
    if cards == [] || value > cards[0].value then [Card(value, year, summary)] + cards
    else if value == cards[0].value then [cards[0].(summary := summary)] + cards[1..]
    else [cards[0]] + Put(cards[1..], year, value, summary)
  }

  /** `putAll` in iteration order; every key goes through `toInt`, so one bad key makes it throw. */
  function ToSortedDescending(order: seq<string>, m: map<string, string>): (r: Option<seq<Card>>)
    requires forall i :: 0 <= i < |order| ==> order[i] in m
    ensures r.Some? ==> |r.value| <= |order|
    ensures order == [] ==> r == Some([])
  {
    if order == [] then Some([])
    else
      var year := order[|order| - 1];
      match ToSortedDescending(order[..|order| - 1], m)
      case None => None
      case Some(cards) =>
        match ParseInt(year)
        case None => None
        case Some(value) => Some(Put(cards, year, value, m[year]))
  }

  /** The screen's body: the empty message, or the cards, or the exception. */
  function View(m: map<string, string>, order: seq<string>): (v: SummaryView)
    requires IsIterationOrder(order, m)
    ensures v == NoSummaries <==> |m| == 0
    ensures v.Cards? ==> 0 < |v.cards| <= |order|
  {
    if |m| == 0 then NoSummaries
    else
      match ToSortedDescending(order, m)
      case None => Crashed
      case Some(cards) => Cards(cards)
  }

  // ---------------------------------------------------------------------------
  // Properties of the cards

  /** A card shows a key of `m` with its integer value, and the text stored under a key of that value. */
  ghost predicate CardOf(m: map<string, string>, c: Card)
  {
    && c.year in m
    && ParseInt(c.year) == Some(c.value)
    && exists k :: k in m && ParseInt(k) == Some(c.value) && m[k] == c.summary
  }

  lemma ValuesCons(c: Card, cards: seq<Card>)
    ensures Values([c] + cards) == {c.value} + Values(cards)
  {
    var r := [c] + cards;
    forall x | x in Values(r) ensures x in {c.value} + Values(cards) {
      var i :| 0 <= i < |r| && r[i].value == x;
      if i > 0 { assert r[i] == cards[i - 1]; }
    }
    forall x | x in Values(cards) ensures x in Values(r) {
      var i :| 0 <= i < |cards| && cards[i].value == x;
      assert r[i + 1] == cards[i];
    }
    assert r[0] == c;
  }

  /** Putting a year adds its value to the values shown, and nothing else. */
  lemma {:induction false} PutValues(cards: seq<Card>, year: string, value: int, summary: string)
    ensures Values(Put(cards, year, value, summary)) == Values(cards) + {value}
  {
    if cards == [] || value > cards[0].value {
      ValuesCons(Card(value, year, summary), cards);
    } else {
      assert cards == [cards[0]] + cards[1..];
      ValuesCons(cards[0], cards[1..]);
      if value == cards[0].value {
        ValuesCons(cards[0].(summary := summary), cards[1..]);
      } else {
        PutValues(cards[1..], year, value, summary);
        ValuesCons(cards[0], Put(cards[1..], year, value, summary));
      }
    }
  }

  /** Putting into cards in strictly descending order keeps them so. */
  lemma {:induction false} PutDescending(cards: seq<Card>, year: string, value: int, summary: string)
    requires Descending(cards)
    ensures Descending(Put(cards, year, value, summary))
  {
    if cards != [] && value < cards[0].value {
      var tail := Put(cards[1..], year, value, summary);
      PutDescending(cards[1..], year, value, summary);
      PutValues(cards[1..], year, value, summary);
      forall i | 0 <= i < |tail|
        ensures cards[0].value > tail[i].value
      {
        assert tail[i].value in Values(tail);
        if tail[i].value != value {
          var j :| 0 <= j < |cards[1..]| && cards[1..][j].value == tail[i].value;
          assert cards[j + 1].value == tail[i].value;
        }
      }
    }
  }

  /** Putting a key of `m` with its value and text keeps every card a card of `m`. */
  lemma {:induction false} PutCards(cards: seq<Card>, year: string, value: int, m: map<string, string>)
    requires forall i :: 0 <= i < |cards| ==> CardOf(m, cards[i])
    requires year in m && ParseInt(year) == Some(value)
    ensures forall i :: 0 <= i < |Put(cards, year, value, m[year])| ==> CardOf(m, Put(cards, year, value, m[year])[i])
  {
    var r := Put(cards, year, value, m[year]);
    if cards == [] || value > cards[0].value {
      assert r == [Card(value, year, m[year])] + cards;
      ConsCards(Card(value, year, m[year]), cards, m);
    } else if value == cards[0].value {
      assert r == [cards[0].(summary := m[year])] + cards[1..];
      assert CardOf(m, cards[0]);
      ConsCards(cards[0].(summary := m[year]), cards[1..], m);
    } else {
      PutCards(cards[1..], year, value, m);
      assert r == [cards[0]] + Put(cards[1..], year, value, m[year]);
      ConsCards(cards[0], Put(cards[1..], year, value, m[year]), m);
    }
  }

  lemma ConsCards(c: Card, cards: seq<Card>, m: map<string, string>)
    requires CardOf(m, c)
    requires forall i :: 0 <= i < |cards| ==> CardOf(m, cards[i])
    ensures forall i :: 0 <= i < |[c] + cards| ==> CardOf(m, ([c] + cards)[i])
  {
    forall i | 0 < i < |[c] + cards| ensures CardOf(m, ([c] + cards)[i]) {
      assert ([c] + cards)[i] == cards[i - 1];
    }
  }

  /** The integer values of the keys in `order` that parse. */
  function ParsedValues(order: seq<string>): set<int>
  {
    set i | 0 <= i < |order| && ParseInt(order[i]).Some? :: ParseInt(order[i]).value
  }

  lemma ParsedValuesSnoc(order: seq<string>, year: string, value: int)
    requires ParseInt(year) == Some(value)
    ensures ParsedValues(order + [year]) == ParsedValues(order) + {value}
  {
    var o := order + [year];
    forall x | x in ParsedValues(o) ensures x in ParsedValues(order) + {value} {
      var i :| 0 <= i < |o| && ParseInt(o[i]).Some? && ParseInt(o[i]).value == x;
      if i < |order| { assert o[i] == order[i]; }
    }
    forall x | x in ParsedValues(order) ensures x in ParsedValues(o) {
      var i :| 0 <= i < |order| && ParseInt(order[i]).Some? && ParseInt(order[i]).value == x;
      assert o[i] == order[i];
    }
    assert o[|order|] == year;
  }

  /**
   * Sorting fails exactly when some key is not an `Int`; otherwise the cards
   * run in strictly descending year, show one card per distinct year value,
   * and each card is a key of the map with the text of a key of that value.
   */
  lemma {:induction false} ToSortedDescendingSpec(order: seq<string>, m: map<string, string>)
    requires forall i :: 0 <= i < |order| ==> order[i] in m
    ensures ToSortedDescending(order, m).None? <==> exists i :: 0 <= i < |order| && ParseInt(order[i]).None?
    ensures ToSortedDescending(order, m).Some? ==>
              var cards := ToSortedDescending(order, m).value;
              Descending(cards) && Values(cards) == ParsedValues(order) &&
              forall i :: 0 <= i < |cards| ==> CardOf(m, cards[i])
  {
    if order != [] {
      var n := |order|;
      var init, year := order[..n - 1], order[n - 1];
      assert order == init + [year];
      assert forall i :: 0 <= i < n - 1 ==> init[i] == order[i];
      ToSortedDescendingSpec(init, m);
      match ToSortedDescending(init, m)
      case None =>
        var i :| 0 <= i < n - 1 && ParseInt(init[i]).None?;
        assert ParseInt(order[i]).None?;
      case Some(cards) =>
        match ParseInt(year)
        case None =>
        case Some(value) =>
          PutDescending(cards, year, value, m[year]);
          PutValues(cards, year, value, m[year]);
          PutCards(cards, year, value, m);
          ParsedValuesSnoc(init, year, value);
          forall i | 0 <= i < n
            ensures ParseInt(order[i]).Some?
          {
            if i < n - 1 {
              assert order[i] == init[i];
            }
          }
    } else {
      assert Values([]) == {};
    }
  }

  /**
   * "No summaries available." shows exactly for an empty map; otherwise a key
   * that is not an `Int` makes the screen throw, and else every year of the
   * map has a card, the cards run in strictly descending year, and each shows
   * a key of the map with the text of a key of equal value.
   */
  lemma ViewSpec(m: map<string, string>, order: seq<string>)
    requires IsIterationOrder(order, m)
    ensures View(m, order) == NoSummaries <==> |m| == 0
    ensures View(m, order) == Crashed <==> |m| > 0 && exists k :: k in m && ParseInt(k).None?
    ensures View(m, order).Cards? ==>
              var cards := View(m, order).cards;
              Descending(cards) &&
              (forall i :: 0 <= i < |cards| ==> CardOf(m, cards[i])) &&
              (forall k :: k in m ==> exists i :: 0 <= i < |cards| && ParseInt(k) == Some(cards[i].value))
  {
    ToSortedDescendingSpec(order, m);
    if exists k :: k in m && ParseInt(k).None? {
      var k :| k in m && ParseInt(k).None?;
      var i :| 0 <= i < |order| && order[i] == k;
    }
    if exists i :: 0 <= i < |order| && ParseInt(order[i]).None? {
      var i :| 0 <= i < |order| && ParseInt(order[i]).None?;
      assert order[i] in m;
    }
    if View(m, order).Cards? {
      var cards := View(m, order).cards;
      forall k | k in m
        ensures exists i :: 0 <= i < |cards| && ParseInt(k) == Some(cards[i].value)
      {
        var j :| 0 <= j < |order| && order[j] == k;
        assert ParseInt(order[j]).Some?;
        assert ParseInt(k).value in ParsedValues(order);
        assert ParseInt(k).value in Values(cards);
      }
    }
  }

  /** When no two keys share an integer value, the cards are exactly the map's entries. */
  lemma DistinctYearsShowEveryEntry(m: map<string, string>, order: seq<string>)
    requires IsIterationOrder(order, m)
    requires forall k1, k2 :: k1 in m && k2 in m && ParseInt(k1) == ParseInt(k2) ==> k1 == k2
    requires View(m, order).Cards?
    ensures forall i :: 0 <= i < |View(m, order).cards| ==>
              View(m, order).cards[i].year in m &&
              View(m, order).cards[i].summary == m[View(m, order).cards[i].year]
    ensures forall k :: k in m ==> exists i :: 0 <= i < |View(m, order).cards| && View(m, order).cards[i].year == k
  {
    ViewSpec(m, order);
    var cards := View(m, order).cards;
    forall i | 0 <= i < |cards|
      ensures cards[i].year in m && cards[i].summary == m[cards[i].year]
    {
      assert CardOf(m, cards[i]);
      var k :| k in m && ParseInt(k) == Some(cards[i].value) && m[k] == cards[i].summary;
    }
    forall k | k in m
      ensures exists i :: 0 <= i < |cards| && cards[i].year == k
    {
      var i :| 0 <= i < |cards| && ParseInt(k) == Some(cards[i].value);
      assert CardOf(m, cards[i]);
    }
  }

  /** "2025" and "02025" compare equal: one card, under the key put first, with the text put last. */
  lemma EqualYearsCollapse()
    ensures View(map["2025" := "a", "02025" := "b"], ["2025", "02025"]) == Cards([Card(2025, "2025", "b")])
  {
    var m := map["2025" := "a", "02025" := "b"];
    assert "2025"[..3] == "202" && "202"[..2] == "20" && "20"[..1] == "2" && "2"[..0] == "";
    assert DigitsValue("2025") == 2025;
    assert ParseInt("2025") == Some(2025);
    LeadingZeroIgnored("2025");
    assert "0" + "2025" == "02025";
    assert ParseInt("02025") == Some(2025);
    assert ["2025", "02025"][..1] == ["2025"];
    assert ["2025"][..0] == [];
    assert |m| == 2;
  }
}
