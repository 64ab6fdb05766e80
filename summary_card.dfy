/**
 * The Markdown summary report: a header with the totals, then one numbered
 * section per activity in list order. Date formatting (date-fns `format`) is
 * the parameter `formatDate`, and the "Generated on" date is `generatedOn`.
 */
module SummaryCard {
  import opened Text
  import opened Volunteer

  const ReportTitle := "# Volunteer Activity Summary\n\n"

  /** The lines after the title: generation date, totals and the activity count. */
  function HeaderBody(generatedOn: string, total: Duration, count: nat): string {
    "Generated on: " + generatedOn + "\n\n"
    + "## Total Hours: " + IntToString(total.hours) + " hours and " + IntToString(total.minutes) + " minutes\n\n"
    + "## Activities (" + NatToString(count) + "):\n\n"
  }

  /** `activity.name || "Unnamed Activity"`. */
  function DisplayName(a: Activity): (r: string)
    ensures r != []
    ensures a.name == [] ==> r == "Unnamed Activity"
    ensures a.name != [] ==> r == a.name
  {
    if a.name == "" then "Unnamed Activity" else a.name
  }

  /** The section of the activity numbered `number`, with its raw hours, minutes and description. */
  function Section(number: nat, a: Activity, formatDate: string -> string): string {
    "### " + NatToString(number) + ". " + DisplayName(a) + " - " + a.organization + "\n"
    + "Date: " + formatDate(a.date) + "\n"
    + "Duration: " + IntToString(a.hours) + " hours and " + IntToString(a.minutes) + " minutes\n"
    + "Description: " + a.description + "\n\n"
  }

  /** The sections of a list, the activity at index i numbered i + 1. */
  function Sections(s: seq<Activity>, formatDate: string -> string): string {
    if s == [] then ""
    else Sections(s[..|s| - 1], formatDate) + Section(|s|, s[|s| - 1], formatDate)
  }

  /** The report of a list of activities with the given totals. */
  function Report(activities: seq<Activity>, generatedOn: string, total: Duration, formatDate: string -> string): string {
    ReportTitle + HeaderBody(generatedOn, total, |activities|) + Sections(activities, formatDate)
  }

  /**
   * generateReport: the header lines, then one section per activity added
   * with `+=` in list order. The totals are those getTotalHours gives for
   * the same list.
   */
  method GenerateReport(activities: seq<Activity>, generatedOn: string, formatDate: string -> string)
    returns (report: string)
    ensures report == Report(activities, generatedOn, SplitMinutes(TotalMinutes(activities)), formatDate)
  {
    var total := SplitMinutes(TotalMinutes(activities));
    var header := ReportTitle + HeaderBody(generatedOn, total, |activities|);
    report := header;
    var i := 0;
    while i < |activities|
      invariant 0 <= i <= |activities|
      invariant report == header + Sections(activities[..i], formatDate)
    {
      var section := Section(i + 1, activities[i], formatDate);
      SectionsStep(activities, i, formatDate);
      ConcatAssociates(header, Sections(activities[..i], formatDate), section);
      report := report + section;
      i := i + 1;
    }
    assert activities[..i] == activities;
  }

  /** The sections of the first i + 1 activities: those of the first i, then activity i's, numbered i + 1. */
  lemma SectionsStep(s: seq<Activity>, i: int, formatDate: string -> string)
    requires 0 <= i < |s|
    ensures Sections(s[..i + 1], formatDate) == Sections(s[..i], formatDate) + Section(i + 1, s[i], formatDate)
  {
    assert s[..i + 1][..i] == s[..i];
  }

  /** The sections of the first i activities open the sections of the whole list. */
  lemma {:induction false} SectionsPrefix(s: seq<Activity>, i: int, formatDate: string -> string)
    requires 0 <= i <= |s|
    ensures Sections(s[..i], formatDate) <= Sections(s, formatDate)
  {
    if i < |s| {
      var p := s[..|s| - 1];
      assert p[..i] == s[..i];
      SectionsPrefix(p, i, formatDate);
    } else {
      assert s[..i] == s;
    }
  }

  /**
   * The report opens with the title, and activity k's section, numbered
   * k + 1, follows the sections of the activities before it.
   */
  lemma ReportLayout(activities: seq<Activity>, generatedOn: string, total: Duration,
                     formatDate: string -> string, k: int)
    requires 0 <= k < |activities|
    ensures ReportTitle <= Report(activities, generatedOn, total, formatDate)
    ensures
      var header := ReportTitle + HeaderBody(generatedOn, total, |activities|);
      header + Sections(activities[..k], formatDate) + Section(k + 1, activities[k], formatDate)
        <= Report(activities, generatedOn, total, formatDate)
  {
    var body := HeaderBody(generatedOn, total, |activities|);
    var header := ReportTitle + body;
    var all := Sections(activities, formatDate);
    var done, section := Sections(activities[..k], formatDate), Section(k + 1, activities[k], formatDate);
    SectionsPrefix(activities, k + 1, formatDate);
    SectionsStep(activities, k, formatDate);
    PrefixExtend(header, done + section, all);
    ConcatAssociates(header, done, section);
    ConcatAssociates(ReportTitle, body, all);
    assert ReportTitle <= ReportTitle + (body + all);
  }

  /** The download button is enabled only when there is at least one activity. */
  function CanDownload(activities: seq<Activity>): (enabled: bool)
    ensures enabled <==> |activities| > 0
  {
    activities != []
  }
}
