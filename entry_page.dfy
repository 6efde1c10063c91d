/** `FlightLogEntryPage`: the page that records a new flight. Its state hooks are the fields
    of the class; the store mutation and the clock are parameters of the save handler. */
module EntryPage {
  import opened Options
  import opened Backend
  import opened Forms
  import FlightTime

  /** Where the page navigates after a successful save. */
  const RecordsRoute := "/flight-records"

  /** The message shown when the store rejects the record with something other than an
      `Error`. */
  const SaveFailed := "Failed to save flight entry"

  class FlightLogEntryPage {
    /** The ten input hooks, from `date` to `landingCount`. */
    var form: Form
    /** The error line under the form; `None` hides it. */
    var formError: Option<string>
    /** The route the page navigated to, once it has. */
    var route: Option<string>

    /** The selects only hold their buttons' values. */
    predicate Valid()
      reads this
    {
      ChoicesSet(form)
    }

    /** The page as it mounts on `today`: an empty form dated today, dual and by day, with one
        landing. */
    constructor(today: string)
      ensures Valid()
      ensures form == DefaultForm(today) && formError == None && route == None
    {
      form := DefaultForm(today);
      formError := None;
      route := None;
    }

    /** `totalFlightTime`, shown under the times as they are typed: for times of the
        `H:MM` shape, the duration their digits spell. */
    function TotalFlightTime(): (t: string)
      reads this
      ensures MatchesClock(form.takeoffTime) && MatchesClock(form.landingTime)
              ==> t == ClockDuration(form.takeoffTime, form.landingTime)
    {
      ValidTimesDuration(form.takeoffTime, form.landingTime);
      FlightTime.CalcFlightTime(form.takeoffTime, form.landingTime)
    }

    /** A text input's `onChange`: the input takes the value and the error line clears. */
    method EditText(field: TextField, value: string)
      requires Valid()
      modifies this
      ensures Valid()
      ensures form == WithText(old(form), field, value)
      ensures formError == None && route == old(route)
    {
      form := WithText(form, field, value);
      formError := None;
    }

    /** The dual and solo buttons; the error line stays. */
    method ChooseFlightType(t: FlightType)
      requires Valid()
      modifies this
      ensures Valid()
      ensures form == old(form).(flightType := FlightChoice(t))
      ensures formError == old(formError) && route == old(route)
    {
      form := form.(flightType := FlightChoice(t));
    }

    /** The day and night buttons; the error line stays. */
    method ChooseLandingType(t: LandingType)
      requires Valid()
      modifies this
      ensures Valid()
      ensures form == old(form).(landingType := LandingChoice(t))
      ensures formError == old(formError) && route == old(route)
    {
      form := form.(landingType := LandingChoice(t));
    }

    /** `handleSave` with the clock reading `nowMs` and the way the store's mutation ends.
        An invalid form shows the first broken rule's message and submits nothing. A valid
        one submits the record keyed by the clock in nanoseconds; a save navigates to the
        records, a rejection shows its message. The inputs are left as they are. */
    method HandleSave(nowMs: nat, outcome: Outcome) returns (submitted: Option<FlightEntry>)
      requires Valid()
      modifies this
      ensures Valid() && form == old(form)
      ensures old(Validate(form)).Some? ==>
        submitted == None && formError == old(Validate(form)) && route == old(route)
      ensures old(Validate(form)) == None ==>
        Forms.Valid(form) && submitted == Some(NewEntry(form, nowMs))
      ensures old(Validate(form)) == None && outcome.Saved? ==>
        formError == None && route == Some(RecordsRoute)
      ensures old(Validate(form)) == None && outcome.Rejected? ==>
        formError == Some(FailureMessage(outcome.error, SaveFailed)) && route == old(route)
    {
      formError := None;
      var validationError := Validate(form);
      if validationError.Some? {
        formError := validationError;
        return None;
      }
      ValidateNoneIffValid(form);
      var entry := NewEntry(form, nowMs);
      submitted := Some(entry);
      match outcome
      case Saved =>
        route := Some(RecordsRoute);
      case Rejected(error) =>
        formError := Some(FailureMessage(error, SaveFailed));
    }
  }

  /** A record the page submits carries the page's types, a landing count of at least 1, the
      duration of its times and a key that is the clock reading in nanoseconds. */
  lemma SubmittedRecord(f: Form, nowMs: nat)
    requires ChoicesSet(f) && Forms.Valid(f)
    ensures FlightChoice(NewEntry(f, nowMs).flightType) == f.flightType
    ensures LandingChoice(NewEntry(f, nowMs).landingType) == f.landingType
    ensures NewEntry(f, nowMs).landingCount >= 1
    ensures NewEntry(f, nowMs).totalFlightTime == ClockDuration(f.takeoffTime, f.landingTime)
    ensures NewEntry(f, nowMs).dateEpoch / 1_000_000 == nowMs
  {
    ChoicesRoundTrip(Dual, Day, f.flightType, f.landingType);
    RecordDerivedFields(f, nowMs * 1_000_000);
  }
}
