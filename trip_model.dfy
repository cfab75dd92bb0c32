/** The `Trip` record: five strings, each defaulting to the empty string. */
module TripModel {

  /** A Kotlin data class: equality is field by field, which a Dafny datatype gives for free. */
  datatype Trip = Trip(id: string, title: string, description: string, date: string, location: string)

  /** `Trip()`: every field at its default. */
  function DefaultTrip(): (t: Trip)
    ensures t.id == "" && t.title == "" && t.description == "" && t.date == "" && t.location == ""
  {
    Trip("", "", "", "", "")
  }

  /** `Trip(id = .., title = .., description = .., date = ..)`: `location` keeps its default. */
  function NewTrip(id: string, title: string, description: string, date: string): (t: Trip)
    ensures t.id == id && t.title == title && t.description == description && t.date == date
    ensures t.location == ""
  {
    Trip(id, title, description, date, "")
  }

  /** `trip.copy(id = key)`. */
  function WithId(t: Trip, key: string): (r: Trip)
    ensures r.id == key
    ensures r.title == t.title && r.description == t.description
    ensures r.date == t.date && r.location == t.location
  {
    t.(id := key)
  }

  /** Two trips are equal exactly when all five fields are. */
  lemma TripEquality(a: Trip, b: Trip)
    ensures a == b <==>
            a.id == b.id && a.title == b.title && a.description == b.description &&
            a.date == b.date && a.location == b.location
  {
  }

  /** Copying with a key only ever keeps the last key, and copying with a trip's own id is the trip. */
  lemma WithIdOverwrites(t: Trip, k1: string, k2: string)
    ensures WithId(WithId(t, k1), k2) == WithId(t, k2)
    ensures WithId(t, t.id) == t
  {
  }
}
