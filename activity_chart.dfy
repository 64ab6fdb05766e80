/**
 * The distribution chart: activities grouped by organization with their
 * summed minutes, and the pie-chart definition text built from the groups.
 * Groups are listed in the order their organization first appears.
 */
module ActivityChart {
  import opened Wrappers
  import opened Text
  import opened Volunteer

  /** One organization's accumulator: its summed minutes and its activities. */
  datatype OrgGroup = OrgGroup(totalMinutes: int, activities: seq<Activity>)

  /** The activities of one organization, in list order. */
  function OfOrganization(s: seq<Activity>, org: string): (r: seq<Activity>)
    ensures |r| <= |s|
  {
    if s == [] then []
    else
      var last := s[|s| - 1];
      OfOrganization(s[..|s| - 1], org) + (if last.organization == org then [last] else [])
  }

  /** The distinct organizations of a list, in order of first appearance. */
  function Organizations(s: seq<Activity>): (r: seq<string>)
    ensures forall i, j :: 0 <= i < j < |r| ==> r[i] != r[j]
  {
    if s == [] then []
    else
      var before := Organizations(s[..|s| - 1]);
      var org := s[|s| - 1].organization;
      if org in before then before else before + [org]
  }

  function GroupOf(s: seq<Activity>, org: string): OrgGroup {
    OrgGroup(TotalMinutes(OfOrganization(s, org)), OfOrganization(s, org))
  }

  /**
   * The listed organizations are exactly those some activity carries, and
   * every listed organization has at least one activity: no slice is empty.
   */
  lemma {:induction false} OrganizationsOccur(s: seq<Activity>, org: string)
    ensures org in Organizations(s) <==> exists k :: 0 <= k < |s| && s[k].organization == org
    ensures org in Organizations(s) ==> OfOrganization(s, org) != []
  {
    if s != [] {
      var p, a := s[..|s| - 1], s[|s| - 1];
      OrganizationsOccur(p, org);
      if exists k :: 0 <= k < |p| && p[k].organization == org {
        var k :| 0 <= k < |p| && p[k].organization == org;
        assert s[k] == p[k];
      }
      if exists k :: 0 <= k < |s| && s[k].organization == org {
        var k :| 0 <= k < |s| && s[k].organization == org;
        if k < |p| {
          assert p[k] == s[k];
        }
      }
    }
  }

  /** An organization that no activity carries has no activities. */
  lemma {:induction false} OfAbsentOrganization(s: seq<Activity>, org: string)
    requires org !in Organizations(s)
    ensures OfOrganization(s, org) == []
  {
    if s != [] {
      OfAbsentOrganization(s[..|s| - 1], org);
    }
  }

  /** An activity's organization is listed, and the activity is in that organization's list. */
  lemma {:induction false} ActivityInOwnGroup(s: seq<Activity>, k: int)
    requires 0 <= k < |s|
    ensures s[k].organization in Organizations(s)
    ensures s[k] in OfOrganization(s, s[k].organization)
  {
    var p := s[..|s| - 1];
    if k < |s| - 1 {
      assert p[k] == s[k];
      ActivityInOwnGroup(p, k);
    }
  }

  /** A group holds only activities of its own organization. */
  lemma {:induction false} GroupMembersShareOrganization(s: seq<Activity>, org: string, a: Activity)
    requires a in OfOrganization(s, org)
    ensures a.organization == org && a in s
  {
    if s != [] {
      var p := s[..|s| - 1];
      if a in OfOrganization(p, org) {
        GroupMembersShareOrganization(p, org, a);
        assert a in p ==> a in s;
      }
    }
  }

  /** The last activity changes only its own organization's group, by one entry. */
  lemma GroupOfLast(s: seq<Activity>, org: string)
    requires s != []
    ensures
      var p, a := s[..|s| - 1], s[|s| - 1];
      var before := GroupOf(p, org);
      GroupOf(s, org)
        == if a.organization == org
           then OrgGroup(before.totalMinutes + DurationOf(a), before.activities + [a])
           else before
  {
    var p, a := s[..|s| - 1], s[|s| - 1];
    var acts := OfOrganization(p, org);
    assert OfOrganization(s, org) == acts + (if a.organization == org then [a] else []);
    if a.organization == org {
      TotalMinutesOfSingleton(a);
      TotalMinutesAppend(acts, [a]);
    } else {
      assert acts + [] == acts;
    }
  }

  /**
   * The reducer of the grouping `reduce`, as a value: the accumulator of the
   * activity's exact organization string (created empty on first sight)
   * gains its minutes and the activity itself.
   */
  function Accumulate(acc: map<string, OrgGroup>, activity: Activity): map<string, OrgGroup> {
    var org := activity.organization;
    var start := if org in acc then acc[org] else OrgGroup(0, []);
    acc[org := OrgGroup(start.totalMinutes + DurationOf(activity), start.activities + [activity])]
  }

  /** The accumulator the `reduce` returns: Accumulate folded left to right from `{}`. */
  function Grouping(s: seq<Activity>): map<string, OrgGroup> {
    if s == [] then map[] else Accumulate(Grouping(s[..|s| - 1]), s[|s| - 1])
  }

  /**
   * What the accumulator holds: a group for exactly the organizations that
   * occur, each with that organization's activities in list order and their
   * summed minutes.
   */
  lemma {:induction false} GroupingAt(s: seq<Activity>, org: string)
    ensures org in Grouping(s) <==> org in Organizations(s)
    ensures org in Grouping(s) ==> Grouping(s)[org] == GroupOf(s, org)
  {
    if s != [] {
      var p, a := s[..|s| - 1], s[|s| - 1];
      GroupingAt(p, org);
      GroupOfLast(s, org);
      if a.organization == org && org !in Organizations(p) {
        OfAbsentOrganization(p, org);
      }
    }
  }

  /**
   * The grouping `reduce`: each activity is added to the accumulator of its
   * exact organization string, created on first sight.
   */
  method GroupByOrganization(activities: seq<Activity>) returns (order: seq<string>, groups: map<string, OrgGroup>)
    ensures order == Organizations(activities)
    ensures groups == Grouping(activities)
  {
    order, groups := [], map[];
    var i := 0;
    while i < |activities|
      invariant 0 <= i <= |activities|
      invariant order == Organizations(activities[..i])
      invariant groups == Grouping(activities[..i])
    {
      var activity := activities[i];
      var org := activity.organization;
      ghost var done, next := activities[..i], activities[..i + 1];
      ghost var before := groups;
      assert next[..|next| - 1] == done && next[|next| - 1] == activity;
      assert Grouping(next) == Accumulate(before, activity);
      GroupingAt(done, org);
      if org !in groups {
        groups := groups[org := OrgGroup(0, [])];
        order := order + [org];
      }
      groups := groups[org := OrgGroup(groups[org].totalMinutes + DurationOf(activity),
                                      groups[org].activities + [activity])];
      assert groups == Accumulate(before, activity);
      i := i + 1;
    }
    assert activities[..i] == activities;
  }

  /** The sum of the group totals over a list of organizations. */
  function SumOfTotals(s: seq<Activity>, orgs: seq<string>): int {
    if orgs == [] then 0
    else SumOfTotals(s, orgs[..|orgs| - 1]) + TotalMinutes(OfOrganization(s, orgs[|orgs| - 1]))
  }

  /** The last activity adds its minutes to the sum iff its organization is listed. */
  lemma {:induction false} SumOfTotalsLast(s: seq<Activity>, orgs: seq<string>)
    requires s != []
    requires forall i, j :: 0 <= i < j < |orgs| ==> orgs[i] != orgs[j]
    ensures
      var a := s[|s| - 1];
      SumOfTotals(s, orgs)
        == SumOfTotals(s[..|s| - 1], orgs) + (if a.organization in orgs then DurationOf(a) else 0)
  {
    if orgs != [] {
      var init, o := orgs[..|orgs| - 1], orgs[|orgs| - 1];
      assert orgs == init + [o];
      SumOfTotalsLast(s, init);
      GroupOfLast(s, o);
      assert s[|s| - 1].organization in orgs <==> s[|s| - 1].organization in init || s[|s| - 1].organization == o;
    }
  }

  /** The group totals add up to the store's total minutes. */
  lemma {:induction false} GroupTotalsSum(s: seq<Activity>)
    ensures SumOfTotals(s, Organizations(s)) == TotalMinutes(s)
  {
    if s != [] {
      var p, a := s[..|s| - 1], s[|s| - 1];
      var o, before := a.organization, Organizations(p);
      GroupTotalsSum(p);
      SumOfTotalsLast(s, before);
      if o !in before {
        var after := before + [o];
        assert after[..|after| - 1] == before;
        assert SumOfTotals(s, after) == SumOfTotals(s, before) + TotalMinutes(OfOrganization(s, o));
        OfAbsentOrganization(p, o);
        GroupOfLast(s, o);
      }
    }
  }

  /** Every activity is in the group of its own organization and in no other. */
  lemma EachActivityInOneGroup(s: seq<Activity>, k: int)
    requires 0 <= k < |s|
    ensures s[k].organization in Grouping(s)
    ensures s[k] in Grouping(s)[s[k].organization].activities
    ensures forall o :: o in Grouping(s) && o != s[k].organization ==> s[k] !in Grouping(s)[o].activities
  {
    ActivityInOwnGroup(s, k);
    GroupingAt(s, s[k].organization);
    forall o | o in Grouping(s) && o != s[k].organization
      ensures s[k] !in Grouping(s)[o].activities
    {
      GroupingAt(s, o);
      if s[k] in OfOrganization(s, o) {
        GroupMembersShareOrganization(s, o, s[k]);
      }
    }
  }

  const ChartTitle := "pie title Volunteer Hours by Organization\n"

  /** One slice: the organization in quotes and its total in minutes. */
  function ChartLine(org: string, totalMinutes: int): string {
    "    \"" + org + "\" : " + IntToString(totalMinutes) + "\n"
  }

  /** The total of an organization's accumulator (0 for one with none, which never occurs). */
  function TotalOf(groups: map<string, OrgGroup>, org: string): int {
    if org in groups then groups[org].totalMinutes else 0
  }

  /** The slice lines for a sequence of organizations, in that order. */
  function ChartLines(orgs: seq<string>, groups: map<string, OrgGroup>): string {
    if orgs == [] then ""
    else
      var last := orgs[|orgs| - 1];
      ChartLines(orgs[..|orgs| - 1], groups) + ChartLine(last, TotalOf(groups, last))
  }

  lemma {:induction false} ChartLinesAppend(a: seq<string>, b: seq<string>, groups: map<string, OrgGroup>)
    ensures ChartLines(a + b, groups) == ChartLines(a, groups) + ChartLines(b, groups)
  {
    if b == [] {
      assert a + b == a;
    } else {
      var init, last := b[..|b| - 1], b[|b| - 1];
      var line := ChartLine(last, TotalOf(groups, last));
      assert (a + b)[..|a + b| - 1] == a + init;
      assert (a + b)[|a + b| - 1] == last;
      assert ChartLines(a + b, groups) == ChartLines(a + init, groups) + line;
      assert ChartLines(b, groups) == ChartLines(init, groups) + line;
      ChartLinesAppend(a, init, groups);
      ConcatAssociates(ChartLines(a, groups), ChartLines(init, groups), line);
    }
  }

  /** The lines of the first i + 1 organizations: those of the first i, then the i-th one's. */
  lemma ChartLinesStep(orgs: seq<string>, groups: map<string, OrgGroup>, i: int)
    requires 0 <= i < |orgs|
    ensures ChartLines(orgs[..i + 1], groups)
         == ChartLines(orgs[..i], groups) + ChartLine(orgs[i], TotalOf(groups, orgs[i]))
  {
    assert orgs[..i + 1][..i] == orgs[..i];
  }

  /** The k-th organization's line sits between the lines of those before and after it. */
  lemma ChartLineAt(orgs: seq<string>, groups: map<string, OrgGroup>, k: int)
    requires 0 <= k < |orgs|
    ensures ChartLines(orgs, groups)
         == ChartLines(orgs[..k], groups)
          + ChartLine(orgs[k], TotalOf(groups, orgs[k]))
          + ChartLines(orgs[k + 1..], groups)
  {
    assert orgs == orgs[..k] + [orgs[k]] + orgs[k + 1..];
    ChartLinesAppend(orgs[..k] + [orgs[k]], orgs[k + 1..], groups);
    ChartLinesAppend(orgs[..k], [orgs[k]], groups);
    assert [orgs[k]][..0] == [];
  }

  /** The definition is built with `+=`, one line per group in the accumulator's order. */
  method ChartDefinition(order: seq<string>, groups: map<string, OrgGroup>) returns (definition: string)
    requires forall o :: o in order ==> o in groups
    ensures definition == ChartTitle + ChartLines(order, groups)
  {
    definition := ChartTitle;
    var i := 0;
    while i < |order|
      invariant 0 <= i <= |order|
      invariant definition == ChartTitle + ChartLines(order[..i], groups)
    {
      var org := order[i];
      var data := groups[org];
      var line := ChartLine(org, data.totalMinutes);
      ChartLinesStep(order, groups, i);
      ConcatAssociates(ChartTitle, ChartLines(order[..i], groups), line);
      definition := definition + line;
      i := i + 1;
    }
    assert order[..i] == order;
  }

  /** generateChart's text: nothing for an empty list, else the title and one line per organization. */
  method GenerateChart(activities: seq<Activity>) returns (definition: Option<string>)
    ensures definition.None? <==> activities == []
    ensures definition.Some? ==>
      definition.value == ChartTitle + ChartLines(Organizations(activities), Grouping(activities))
  {
    if |activities| == 0 {
      return None;
    }
    var order, groups := GroupByOrganization(activities);
    forall o | o in order ensures o in groups {
      GroupingAt(activities, o);
    }
    var text := ChartDefinition(order, groups);
    definition := Some(text);
  }

  /**
   * For each organization, the definition holds, after the title and the
   * lines of the organizations first seen before it, the line with its
   * summed minutes.
   */
  lemma ChartShowsEveryOrganization(s: seq<Activity>, k: int)
    requires 0 <= k < |Organizations(s)|
    ensures
      var orgs, groups := Organizations(s), Grouping(s);
      ChartLines(orgs, groups)
        == ChartLines(orgs[..k], groups)
         + ChartLine(orgs[k], TotalMinutes(OfOrganization(s, orgs[k])))
         + ChartLines(orgs[k + 1..], groups)
  {
    var orgs, groups := Organizations(s), Grouping(s);
    ChartLineAt(orgs, groups, k);
    assert orgs[k] in orgs;
    GroupingAt(s, orgs[k]);
  }
}
