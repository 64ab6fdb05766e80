/**
 * The activity form schema as a function from a parsed form record to the
 * list of validation issues it raises; a record is accepted when there are
 * none. The number fields arrive already coerced to whole numbers, and a
 * date that is not picked is None.
 */
module Schema {
  import opened Wrappers

  datatype FormValues = FormValues(
    name: string,
    organization: string,
    description: string,
    date: Option<string>,
    hours: int,
    minutes: int)

  /** A validation message and the field it is shown on. */
  datatype Issue = Issue(path: string, message: string)

  const NameRequired := "Activity name is required"
  const OrganizationRequired := "Organization name is required"
  const DescriptionRequired := "Description is required"
  const DateRequired := "Please select a date"
  const HoursNonNegative := "Hours must be 0 or greater"
  const MinutesNonNegative := "Minutes must be 0 or greater"
  const MinutesBelowSixty := "Minutes must be less than 60"
  const DurationPositive := "Duration must be greater than 0"

  function IssueIf(failed: bool, path: string, message: string): seq<Issue> {
    if failed then [Issue(path, message)] else []
  }

  /** The per-field rules, in the order the fields are declared. */
  function FieldIssues(v: FormValues): (r: seq<Issue>)
    ensures r == [] <==>
      && v.name != "" && v.organization != "" && v.description != ""
      && v.date.Some? && v.hours >= 0 && 0 <= v.minutes <= 59
  {
    IssueIf(|v.name| < 1, "name", NameRequired)
    + IssueIf(|v.organization| < 1, "organization", OrganizationRequired)
    + IssueIf(|v.description| < 1, "description", DescriptionRequired)
    + IssueIf(v.date.None?, "date", DateRequired)
    + IssueIf(v.hours < 0, "hours", HoursNonNegative)
    + IssueIf(v.minutes < 0, "minutes", MinutesNonNegative)
    + IssueIf(v.minutes > 59, "minutes", MinutesBelowSixty)
  }

  /**
   * activityFormSchema: the field rules, then the refinement "some duration
   * is positive", reported on `hours`. A missing date is a type error that
   * stops the object, and the refinement is then not run; a failed min/max
   * does not stop it.
   */
  function Issues(v: FormValues): (r: seq<Issue>)
    ensures r == [] <==>
      && v.name != "" && v.organization != "" && v.description != ""
      && v.date.Some? && v.hours >= 0 && 0 <= v.minutes <= 59
      && (v.hours > 0 || v.minutes > 0)
    ensures FieldIssues(v) <= r
  {
    var fields := FieldIssues(v);
    if v.date.None? then fields
    else fields + IssueIf(!(v.hours > 0 || v.minutes > 0), "hours", DurationPositive)
  }

  predicate Accepts(v: FormValues) {
    Issues(v) == []
  }

  /**
   * A zero duration is rejected even when every field on its own is valid,
   * with exactly one issue, shown on the hours field.
   */
  lemma ZeroDurationRejected(v: FormValues)
    requires FieldIssues(v) == []
    requires v.hours == 0 && v.minutes == 0
    ensures !Accepts(v)
    ensures Issues(v) == [Issue("hours", DurationPositive)]
  {
  }

  /** Minutes outside [0, 59] are reported on `minutes` with the bound they break. */
  lemma MinutesOutOfRange(v: FormValues)
    requires v.minutes < 0 || v.minutes > 59
    ensures !Accepts(v)
    ensures Issue("minutes", if v.minutes < 0 then MinutesNonNegative else MinutesBelowSixty) in Issues(v)
  {
    var r := Issues(v);
    var tail := IssueIf(v.minutes < 0, "minutes", MinutesNonNegative)
              + IssueIf(v.minutes > 59, "minutes", MinutesBelowSixty);
    assert tail == [Issue("minutes", if v.minutes < 0 then MinutesNonNegative else MinutesBelowSixty)];
    assert FieldIssues(v)[|FieldIssues(v)| - 1] == tail[0];
    assert r[|FieldIssues(v)| - 1] == tail[0];
  }
}
