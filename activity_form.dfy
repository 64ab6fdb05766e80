/**
 * The activity form as a small state machine over its text fields. Integer
 * parsing (`Number.parseInt`) is the function `parse`, None standing for NaN;
 * the current time (`new Date().toISOString()`) is the parameter `now`.
 */
module ActivityForm {
  import opened Wrappers
  import opened Text
  import opened Volunteer
  import opened VolunteerContext

  const DurationError := "Please enter a duration greater than 0"

  /** `Number.parseInt(s) || 0`: NaN and 0 both give 0. */
  function ParsedOrZero(parse: string -> Option<int>, s: string): int {
    match parse(s)
    case Some(n) => n
    case None => 0
  }

  /** `Number.parseInt(s) > 0`; every comparison with NaN is false. */
  predicate ParsesPositive(parse: string -> Option<int>, s: string) {
    parse(s).Some? && parse(s).value > 0
  }

  /** `Number.parseInt(s) >= 0 && Number.parseInt(s) <= 59`. */
  predicate ParsesAsMinute(parse: string -> Option<int>, s: string) {
    parse(s).Some? && 0 <= parse(s).value <= 59
  }

  /** The editable fields; `date` is None when no date is picked. */
  datatype Fields = Fields(
    name: string,
    organization: string,
    description: string,
    date: Option<string>,
    hours: string,
    minutes: string)

  /** Which store operation a submit called, if any. */
  datatype SubmitOutcome = Rejected | Added | Edited

  class ActivityForm {
    const store: VolunteerStore
    const existingActivity: Option<Activity>
    const hasOnComplete: bool
    const parse: string -> Option<int>
    var name: string
    var organization: string
    var description: string
    var date: Option<string>
    var hours: string
    var minutes: string
    var error: Option<string>
    var calendarOpen: bool

    function Current(): Fields
      reads this
    {
      Fields(name, organization, description, date, hours, minutes)
    }

    ghost predicate Valid()
      reads this, store
    {
      store.Valid()
    }

    /** The initial state: the edited activity's values, or empty text and "0" durations. */
    constructor (store: VolunteerStore, existingActivity: Option<Activity>, hasOnComplete: bool,
                 parse: string -> Option<int>, now: string)
      requires store.Valid()
      ensures Valid()
      ensures this.store == store && this.existingActivity == existingActivity
      ensures this.hasOnComplete == hasOnComplete && this.parse == parse
      ensures existingActivity.Some? ==>
        var e := existingActivity.value;
        Current() == Fields(e.name, e.organization, e.description, Some(e.date),
                            IntToString(e.hours), IntToString(e.minutes))
      ensures existingActivity.None? ==> Current() == Fields("", "", "", Some(now), "0", "0")
      ensures error.None? && !calendarOpen
    {
      this.store := store;
      this.existingActivity := existingActivity;
      this.hasOnComplete := hasOnComplete;
      this.parse := parse;
      match existingActivity {
        case Some(e) =>
          name, organization, description := e.name, e.organization, e.description;
          date := Some(e.date);
          hours, minutes := IntToString(e.hours), IntToString(e.minutes);
        case None =>
          name, organization, description := "", "", "";
          date := Some(now);
          hours, minutes := "0", "0";
      }
      error := None;
      calendarOpen := false;
    }

    /**
     * handleSubmit. A duration that parses to 0 hours and 0 minutes sets the
     * error and calls nothing. Otherwise the record is sent to editActivity
     * under the edited activity's id, or to addActivity (which gives it the
     * id `newId`); only an add resets the fields; the error is cleared and
     * onComplete, when given, is called (`completed`).
     */
    method HandleSubmit(now: string, newId: string) returns (outcome: SubmitOutcome, completed: bool)
      requires Valid()
      requires existingActivity.None? ==> IsFresh(store.State(), newId)
      modifies this, store
      ensures Valid()
      ensures
        var h, m := ParsedOrZero(parse, old(hours)), ParsedOrZero(parse, old(minutes));
        var when := if old(date).Some? then old(date).value else now;
        var draft := Draft(old(name), old(organization), old(description), when, h, m);
        if h == 0 && m == 0 then
          && outcome == Rejected && !completed
          && error == Some(DurationError)
          && Current() == old(Current())
          && store.State() == old(store.State())
        else
          && error.None? && completed == hasOnComplete
          && (existingActivity.Some? ==>
                && outcome == Edited
                && store.State() == Edit(old(store.State()), WithId(draft, existingActivity.value.id))
                && Current() == old(Current()))
          && (existingActivity.None? ==>
                && outcome == Added
                && store.State() == Add(old(store.State()), draft, newId)
                && Current() == Fields("", "", "", old(date), "0", "0"))
      ensures calendarOpen == old(calendarOpen)
    {
      var hoursNum := ParsedOrZero(parse, hours);
      var minutesNum := ParsedOrZero(parse, minutes);

      if hoursNum == 0 && minutesNum == 0 {
        error := Some(DurationError);
        return Rejected, false;
      }

      var when := if date.Some? then date.value else now;
      var activity := Draft(name, organization, description, when, hoursNum, minutesNum);

      if existingActivity.Some? {
        store.EditActivity(WithId(activity, existingActivity.value.id));
        outcome := Edited;
      } else {
        store.AddActivity(activity, newId);
        outcome := Added;
      }

      if existingActivity.None? {
        name := "";
        organization := "";
        description := "";
        hours := "0";
        minutes := "0";
      }

      error := None;
      completed := hasOnComplete;
    }

    /** handleHoursChange: takes the text; clears a shown error once some duration is positive. */
    method HandleHoursChange(value: string)
      modifies this
      ensures Current() == old(Current()).(hours := value)
      ensures error == (if old(error).Some? && (ParsesPositive(parse, value) || ParsesPositive(parse, old(minutes)))
                        then None else old(error))
      ensures calendarOpen == old(calendarOpen)
    {
      hours := value;
      if error.Some? && (ParsesPositive(parse, value) || ParsesPositive(parse, minutes)) {
        error := None;
      }
    }

    /**
     * handleMinutesChange: text that does not parse to a value in [0, 59] is
     * ignored; otherwise it is taken and a shown error is cleared once some
     * duration is positive.
     */
    method HandleMinutesChange(value: string)
      modifies this
      ensures !ParsesAsMinute(parse, value) ==> Current() == old(Current()) && error == old(error)
      ensures ParsesAsMinute(parse, value) ==>
        && Current() == old(Current()).(minutes := value)
        && error == (if old(error).Some? && (ParsesPositive(parse, old(hours)) || ParsesPositive(parse, value))
                     then None else old(error))
      ensures calendarOpen == old(calendarOpen)
    {
      if ParsesAsMinute(parse, value) {
        minutes := value;
        if error.Some? && (ParsesPositive(parse, hours) || ParsesPositive(parse, value)) {
          error := None;
        }
      }
    }

    /** handleDateSelect: takes the picked date (None when the pick is cleared) and closes the calendar. */
    method HandleDateSelect(selected: Option<string>)
      modifies this
      ensures Current() == old(Current()).(date := selected)
      ensures error == old(error) && !calendarOpen
    {
      date := selected;
      calendarOpen := false;
    }
  }
}
