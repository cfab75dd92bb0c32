/**
 * The edit-summary form: one text field and a Save button. Saving sets
 * `isLoading` and clears the error; the write's completion clears
 * `isLoading` and, on failure, sets the error message.
 */
module EditSummary {
  import opened Wrappers

  const FailureMessage: string := "Failed to update summary."

  /** The form's phase, as the flags encode it. */
  datatype Phase = Idle | Saving | Failed

  class EditSummaryScreen {
    const year: string
    var newSummary: string
    var isLoading: bool
    var errorMessage: Option<string>

    /** No error is shown while a save is pending (the click clears it, only the completion sets it). */
    predicate Valid()
      reads this
    {
      isLoading ==> errorMessage == None
    }

    function CurrentPhase(): (p: Phase)
      reads this
      ensures p == Saving <==> isLoading
      ensures p == Failed ==> errorMessage.Some?
      ensures Valid() && errorMessage.Some? ==> p == Failed
    {
      if isLoading then Saving else if errorMessage.Some? then Failed else Idle
    }

    /** The Save button's `enabled`. */
    function SaveEnabled(): (enabled: bool)
      reads this
      ensures enabled <==> CurrentPhase() != Saving
    {
      !isLoading
    }

    constructor (year: string, initialSummary: string)
      ensures Valid() && this.year == year
      ensures newSummary == initialSummary && !isLoading && errorMessage == None
      ensures CurrentPhase() == Idle
    {
      this.year := year;
      newSummary := initialSummary;
      isLoading := false;
      errorMessage := None;
    }

    method SummaryChange(value: string)
      requires Valid()
      modifies this`newSummary
      ensures Valid() && newSummary == value
    {
      newSummary := value;
    }

    /**
     * The Save click: mark saving, clear the error, and write `newSummary`
     * at `summaries/<uid>/<year>`, with "" for the uid when nobody is signed in.
     */
    method ClickSave(uid: Option<string>) returns (path: seq<string>, value: string)
      requires Valid() && SaveEnabled()
      modifies this`isLoading, this`errorMessage
      ensures Valid() && isLoading && errorMessage == None && CurrentPhase() == Saving
      ensures path == ["summaries", uid.GetOr(""), year]
      ensures value == newSummary
    {
      isLoading := true;
      errorMessage := None;
      path := ["summaries", uid.GetOr(""), year];
      value := newSummary;
    }

    /** The write's completion: saving ends; a failure shows the error and keeps the text; success goes back. */
    method OnSaveComplete(success: bool) returns (navigateBack: bool)
      requires Valid() && isLoading
      modifies this`isLoading, this`errorMessage
      ensures Valid() && !isLoading && SaveEnabled()
      ensures success ==> errorMessage == None && CurrentPhase() == Idle
      ensures !success ==> errorMessage == Some(FailureMessage) && CurrentPhase() == Failed
      ensures navigateBack == success
    {
      isLoading := false;
      if !success {
        errorMessage := Some(FailureMessage);
      }
      navigateBack := success;
    }
  }
}
