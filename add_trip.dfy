/**
 * The add-trip form: three text fields, an Add button, and the
 * `isSubmitting` flag set on click and cleared when the write settles.
 * Generating a key (`push().key`) and writing the trip are remote calls:
 * the key is a parameter of the click, and the written trip its result.
 */
module AddTrip {
  import opened Wrappers
  import opened TripModel

  /** The Add button's `enabled`, as written: title, description and date are all non-empty. */
  predicate AddEnabled(title: string, description: string, date: string)
  {
    title != "" && description != "" && date != ""
  }

  /** The trip a click writes under a generated key: `location` is left at its default. */
  function SubmittedTrip(key: Option<string>, title: string, description: string, date: string): (r: Option<Trip>)
    ensures r.None? <==> key.None?
    ensures r.Some? ==> r.value.id == key.value && r.value.title == title &&
                        r.value.description == description && r.value.date == date &&
                        r.value.location == ""
  {
    match key
    case None => None
    case Some(k) => Some(NewTrip(k, title, description, date))
  }

  /** A trip submitted through an enabled button has a title, a description and a date. */
  lemma SubmittedTripIsFilled(key: Option<string>, title: string, description: string, date: string)
    requires AddEnabled(title, description, date) && key.Some?
    ensures var t := SubmittedTrip(key, title, description, date).value;
            t.title != "" && t.description != "" && t.date != "" && t.location == ""
  {
  }

  /** The form's state as a value, for stating the guard. */
  datatype AddForm = AddForm(title: string, description: string, date: string, isSubmitting: bool)

  /**
   * The guard the `isSubmitting` flag was meant to provide: filled fields and
   * no write pending. The button as written checks only `AddEnabled`.
   */
  predicate CanSubmit(form: AddForm)
  {
    AddEnabled(form.title, form.description, form.date) && !form.isSubmitting
  }

  class AddTripScreen {
    var title: string
    var description: string
    var date: string
    var isSubmitting: bool

    constructor ()
      ensures title == "" && description == "" && date == "" && !isSubmitting
    {
      title, description, date := "", "", "";
      isSubmitting := false;
    }

    function Form(): AddForm
      reads this
    {
      AddForm(title, description, date, isSubmitting)
    }

    method TitleChange(value: string)
      modifies this`title
      ensures title == value
    {
      title := value;
    }

    method DescriptionChange(value: string)
      modifies this`description
      ensures description == value
    {
      description := value;
    }

    method DateChange(value: string)
      modifies this`date
      ensures date == value
    {
      date := value;
    }

    /**
     * `onAddClick`, reachable whenever the button is enabled: mark the form as
     * submitting, then write the new trip under the generated key; without a
     * key nothing is written and the flag drops again. A write still pending
     * does not stop it.
     */
    method ClickAdd(key: Option<string>) returns (written: Option<Trip>)
      requires AddEnabled(title, description, date)
      modifies this`isSubmitting
      ensures written == SubmittedTrip(key, title, description, date)
      ensures isSubmitting <==> key.Some?
      ensures key.Some? ==> !CanSubmit(Form())
    {
      isSubmitting := true;
      if key.Some? {
        written := Some(NewTrip(key.value, title, description, date));
      } else {
        written := None;
        isSubmitting := false;
      }
    }

    /** The write's completion: the flag drops whatever the outcome; only success goes on to the trip list. */
    method OnWriteComplete(success: bool) returns (navigateToList: bool)
      modifies this`isSubmitting
      ensures !isSubmitting
      ensures navigateToList == success
    {
      isSubmitting := false;
      navigateToList := success;
    }
  }

  /**
   * As written: with a write pending the button stays enabled, and a second
   * click writes the same trip again under a second key.
   */
  method DoubleClickWritesTwice(title: string, description: string, date: string, k1: string, k2: string)
    returns (first: Option<Trip>, second: Option<Trip>)
    requires AddEnabled(title, description, date) && k1 != k2
    ensures first == Some(NewTrip(k1, title, description, date))
    ensures second == Some(NewTrip(k2, title, description, date))
    ensures first != second
  {
    var screen := new AddTripScreen();
    screen.TitleChange(title);
    screen.DescriptionChange(description);
    screen.DateChange(date);
    first := screen.ClickAdd(Some(k1));
    assert screen.isSubmitting && AddEnabled(screen.title, screen.description, screen.date);
    second := screen.ClickAdd(Some(k2));
  }

  /**
   * With the intended guard: once a click has started a write, `CanSubmit`
   * refuses a second click, and once the write completes the form can be
   * submitted again.
   */
  method GuardedDoubleClickWritesOnce(title: string, description: string, date: string, key: string)
    returns (written: Option<Trip>, secondClickTaken: bool, enabledAfterCompletion: bool)
    requires AddEnabled(title, description, date)
    ensures written == Some(NewTrip(key, title, description, date))
    ensures !secondClickTaken
    ensures enabledAfterCompletion
  {
    var screen := new AddTripScreen();
    screen.TitleChange(title);
    screen.DescriptionChange(description);
    screen.DateChange(date);
    assert CanSubmit(screen.Form());
    written := screen.ClickAdd(Some(key));
    secondClickTaken := CanSubmit(screen.Form());
    var _ := screen.OnWriteComplete(true);
    enabledAfterCompletion := CanSubmit(screen.Form());
  }
}
