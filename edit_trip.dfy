/**
 * The edit-trip form: it loads the stored trip once, lets the user change
 * title, description and date, and writes back a trip built from the form.
 */
module EditTrip {
  import opened Wrappers
  import opened TripModel

  /** `Trip(id = tripId, title = .., description = .., date = ..)`: the stored location is not carried over. */
  function UpdatedTrip(tripId: string, title: string, description: string, date: string): (t: Trip)
    ensures t.id == tripId && t.title == title && t.description == description && t.date == date
    ensures t.location == ""
  {
    NewTrip(tripId, title, description, date)
  }

  class EditTripScreen {
    const tripId: string
    var title: string
    var description: string
    var date: string
    var isLoading: bool

    constructor (tripId: string)
      ensures this.tripId == tripId
      ensures title == "" && description == "" && date == "" && isLoading
    {
      this.tripId := tripId;
      title, description, date := "", "", "";
      isLoading := true;
    }

    /** The single read's result: a trip fills the form; either way loading ends. */
    method OnDataChange(fetched: Option<Trip>)
      requires isLoading
      modifies this`title, this`description, this`date, this`isLoading
      ensures !isLoading
      ensures fetched.Some? ==>
                title == fetched.value.title && description == fetched.value.description &&
                date == fetched.value.date
      ensures fetched.None? ==>
                title == old(title) && description == old(description) && date == old(date)
    {
      if fetched.Some? {
        title := fetched.value.title;
        description := fetched.value.description;
        date := fetched.value.date;
      }
      isLoading := false;
    }

    /** A cancelled read: loading ends, the form stays as it was. */
    method OnCancelled()
      requires isLoading
      modifies this`isLoading
      ensures !isLoading
    {
      isLoading := false;
    }

    method TitleChange(value: string)
      modifies this`title
      ensures title == value
    {
      title := value;
    }

    method DescriptionChange(value: string)
      modifies this`description
      ensures description == value
    {
      description := value;
    }

    method DateChange(value: string)
      modifies this`date
      ensures date == value
    {
      date := value;
    }

    /** The Update button, shown once loading has ended; there is no check on the fields. */
    method ClickUpdate() returns (written: Trip)
      requires !isLoading
      ensures written == UpdatedTrip(tripId, title, description, date)
    {
      written := NewTrip(tripId, title, description, date);
    }
  }

  /**
   * Opening a stored trip and pressing Update without edits writes the trip
   * back with the same id, title, description and date, but an empty location.
   */
  method LoadThenUpdate(stored: Trip) returns (written: Trip)
    ensures written == stored.(location := "")
    ensures stored.location != "" ==> written != stored
  {
    var screen := new EditTripScreen(stored.id);
    screen.OnDataChange(Some(stored));
    written := screen.ClickUpdate();
  }

  /** An empty form can be submitted: the written trip then has only its id. */
  method UpdateEmptyForm(tripId: string) returns (written: Trip)
    ensures written == Trip(tripId, "", "", "", "")
  {
    var screen := new EditTripScreen(tripId);
    screen.OnDataChange(None);
    written := screen.ClickUpdate();
  }
}
