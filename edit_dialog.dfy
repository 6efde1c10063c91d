/** `EditFlightEntryModal`: the dialog that edits a stored flight. Its props are `open` and
    `entry`; its state hooks are the fields of the class; the effect that loads or resets
    the inputs runs when the props change; the store mutation, its pending flag and the
    parent's `onOpenChange` are parameters and results of the handlers. */
module EditDialog {
  import opened Options
  import opened Backend
  import opened Forms
  import FlightTime

  /** The message shown when the store rejects the edit with something other than an
      `Error`. */
  const UpdateFailed := "Failed to update flight entry"

  /** The inputs of the dialog when it is closed, or as it mounts. */
  const ClosedForm := DefaultForm("")

  class EditFlightEntryDialog {
    /** The `open` prop. */
    var open: bool
    /** The `entry` prop: the record being edited, if any. */
    var entry: Option<FlightEntry>
    /** The ten input hooks, from `date` to `landingCount`. */
    var form: Form
    /** The error line; `None` hides it. */
    var formError: Option<string>

    /** The selects only hold their buttons' values. */
    predicate Valid()
      reads this
    {
      ChoicesSet(form)
    }

    /** The inputs the effect puts in place for the props: the record's values while open
        on a record, the empty form while closed, and (open without a record) whatever the
        inputs held. */
    static function Synced(open: bool, entry: Option<FlightEntry>, current: Form): (f: Form)
      ensures open && entry.Some? ==> f == LoadForm(entry.value)
      ensures !open ==> f == ClosedForm
      ensures open && entry.None? ==> f == current
    {
      if open && entry.Some? then LoadForm(entry.value)
      else if !open then ClosedForm
      else current
    }

    /** The dialog as it mounts with its first props; the effect runs once. */
    constructor(open0: bool, entry0: Option<FlightEntry>)
      ensures Valid()
      ensures open == open0 && entry == entry0
      ensures form == Synced(open0, entry0, ClosedForm) && formError == None
    {
      open := open0;
      entry := entry0;
      if open0 && entry0.Some? {
        form := LoadForm(entry0.value);
      } else {
        form := ClosedForm;
      }
      formError := None;
    }

    /** A render with new props. The effect runs only when `open` or `entry` differ from
        the previous render's; loading or resetting the inputs also clears the error line. */
    method Rerender(newOpen: bool, newEntry: Option<FlightEntry>)
      requires Valid()
      modifies this
      ensures Valid()
      ensures open == newOpen && entry == newEntry
      ensures old(open) == newOpen && old(entry) == newEntry ==>
        form == old(form) && formError == old(formError)
      ensures (old(open) != newOpen || old(entry) != newEntry) ==>
        form == Synced(newOpen, newEntry, old(form))
      ensures (old(open) != newOpen || old(entry) != newEntry) && (!newOpen || newEntry.Some?) ==>
        formError == None
      ensures newOpen && newEntry.None? ==> formError == old(formError)
    {
      var changed := open != newOpen || entry != newEntry;
      open := newOpen;
      entry := newEntry;
      if changed {
        if open && entry.Some? {
          form := LoadForm(entry.value);
          formError := None;
        } else if !open {
          form := ClosedForm;
          formError := None;
        }
      }
    }

    /** A text input's `onChange`: the input takes the value and the error line clears. */
    method EditText(field: TextField, value: string)
      requires Valid()
      modifies this
      ensures Valid()
      ensures form == WithText(old(form), field, value)
      ensures formError == None && open == old(open) && entry == old(entry)
    {
      form := WithText(form, field, value);
      formError := None;
    }

    /** The dual and solo buttons; the error line stays. */
    method ChooseFlightType(t: FlightType)
      requires Valid()
      modifies this
      ensures Valid()
      ensures form == old(form).(flightType := FlightChoice(t))
      ensures formError == old(formError) && open == old(open) && entry == old(entry)
    {
      form := form.(flightType := FlightChoice(t));
    }

    /** The day and night buttons; the error line stays. */
    method ChooseLandingType(t: LandingType)
      requires Valid()
      modifies this
      ensures Valid()
      ensures form == old(form).(landingType := LandingChoice(t))
      ensures formError == old(formError) && open == old(open) && entry == old(entry)
    {
      form := form.(landingType := LandingChoice(t));
    }

    /** `handleSave` with the way the store's mutation ends. Without a record nothing
        happens. An invalid form shows the first broken rule's message. A valid one sends
        the edit keyed by the record's `dateEpoch`, with the record's key kept and every
        other field from the inputs; a save asks the parent to close the dialog, a
        rejection shows its message. */
    method HandleSave(outcome: Outcome) returns (request: Option<EditRequest>, close: bool)
      requires Valid()
      modifies this
      ensures Valid() && form == old(form) && open == old(open) && entry == old(entry)
      ensures entry.None? ==> request == None && !close && formError == old(formError)
      ensures entry.Some? && old(Validate(form)).Some? ==>
        request == None && !close && formError == old(Validate(form))
      ensures entry.Some? && old(Validate(form)) == None ==>
        Forms.Valid(form)
        && request == Some(EditRequest(entry.value.dateEpoch, UpdatedEntry(form, entry.value)))
      ensures entry.Some? && old(Validate(form)) == None && outcome.Saved? ==>
        close && formError == None
      ensures entry.Some? && old(Validate(form)) == None && outcome.Rejected? ==>
        !close && formError == Some(FailureMessage(outcome.error, UpdateFailed))
    {
      request, close := None, false;
      if entry.None? {
        return;
      }
      formError := None;
      var validationError := Validate(form);
      if validationError.Some? {
        formError := validationError;
        return;
      }
      ValidateNoneIffValid(form);
      var original := entry.value;
      request := Some(EditRequest(original.dateEpoch, UpdatedEntry(form, original)));
      match outcome
      case Saved =>
        close := true;
      case Rejected(error) =>
        formError := Some(FailureMessage(error, UpdateFailed));
    }

    /** `handleOpenChange`: the dialog's own requests to open or close reach the parent only
        while no edit is pending. */
    static method HandleOpenChange(newOpen: bool, pending: bool) returns (forwarded: Option<bool>)
      ensures forwarded.None? <==> pending
      ensures forwarded.Some? ==> forwarded.value == newOpen
    {
      if !pending {
        forwarded := Some(newOpen);
      } else {
        forwarded := None;
      }
    }
  }

  /** The edit sent for a record keeps the record's key, both as the request's `entryId` and
      in the updated record, and carries a landing count of at least 1. */
  lemma EditKeepsKey(f: Form, original: FlightEntry)
    requires Forms.Valid(f)
    ensures UpdatedEntry(f, original).dateEpoch == original.dateEpoch
    ensures EditRequest(original.dateEpoch, UpdatedEntry(f, original)).entryId
            == UpdatedEntry(f, original).dateEpoch
    ensures UpdatedEntry(f, original).landingCount >= 1
  {
  }

  /** Opening the dialog on a record and saving without touching the inputs sends the record
      back under its own key, with only `totalFlightTime` recomputed from its times. */
  lemma OpenAndSaveUnchanged(e: FlightEntry, current: Form)
    requires Forms.Valid(LoadForm(e))
    ensures Validate(EditFlightEntryDialog.Synced(true, Some(e), current)) == None
    ensures UpdatedEntry(EditFlightEntryDialog.Synced(true, Some(e), current), e)
            == e.(totalFlightTime := FlightTime.CalcFlightTime(e.takeoffTime, e.landingTime))
  {
    ValidateNoneIffValid(LoadForm(e));
    SaveUnchanged(e);
  }
}
