/** The records shared by the store and the components that use it. */
module Volunteer {
  import opened Wrappers

  /** One logged volunteer activity. Durations are whole numbers of hours and minutes. */
  datatype Activity = Activity(
    id: string,
    name: string,
    organization: string,
    description: string,
    date: string,
    hours: int,
    minutes: int)

  /** An activity before the store has given it an id (`Omit<VolunteerActivity, "id">`). */
  datatype Draft = Draft(
    name: string,
    organization: string,
    description: string,
    date: string,
    hours: int,
    minutes: int)

  /** The one-slot undo buffer: the activity last deleted and the index it had. */
  datatype DeletedActivityInfo = DeletedActivityInfo(activity: Activity, position: nat)

  /** What `getTotalHours` returns. */
  datatype Duration = Duration(hours: int, minutes: int)

  /** The draft's fields under the id `id`. */
  function WithId(d: Draft, id: string): (a: Activity)
    ensures a.id == id
    ensures Draft(a.name, a.organization, a.description, a.date, a.hours, a.minutes) == d
  {
    Activity(id, d.name, d.organization, d.description, d.date, d.hours, d.minutes)
  }

  /** Minutes contributed by one activity: `hours * 60 + minutes`. */
  function DurationOf(a: Activity): int {
    a.hours * 60 + a.minutes
  }

  /** The `reduce` of `getTotalHours`: the sum of DurationOf, left to right. */
  function TotalMinutes(s: seq<Activity>): int {
    if s == [] then 0 else TotalMinutes(s[..|s| - 1]) + DurationOf(s[|s| - 1])
  }

  /** Summing is additive over concatenation. */
  lemma {:induction false} TotalMinutesAppend(s: seq<Activity>, t: seq<Activity>)
    ensures TotalMinutes(s + t) == TotalMinutes(s) + TotalMinutes(t)
  {
    if t != [] {
      assert (s + t)[..|s + t| - 1] == s + t[..|t| - 1];
      TotalMinutesAppend(s, t[..|t| - 1]);
    } else {
      assert s + t == s;
    }
  }

  lemma TotalMinutesOfSingleton(a: Activity)
    ensures TotalMinutes([a]) == DurationOf(a)
  {
    assert [a][..0] == [];
  }

  /** With non-negative durations the total is non-negative. */
  lemma {:induction false} TotalMinutesNonNegative(s: seq<Activity>)
    requires forall k :: 0 <= k < |s| ==> s[k].hours >= 0 && s[k].minutes >= 0
    ensures TotalMinutes(s) >= 0
  {
    if s != [] {
      TotalMinutesNonNegative(s[..|s| - 1]);
    }
  }

  /** JavaScript's `a % 60`: the remainder takes the sign of the dividend. */
  function JsRemainder60(a: int): (r: int)
    ensures a >= 0 ==> 0 <= r < 60
    ensures a < 0 ==> -60 < r <= 0
    ensures (a - r) % 60 == 0
  {
    if a >= 0 then a % 60 else -((-a) % 60)
  }

  /**
   * `{hours: Math.floor(total / 60), minutes: total % 60}`. For a total that is
   * not negative the two parts recombine to the total with minutes in [0, 60).
   */
  function SplitMinutes(total: int): (d: Duration)
    ensures d.hours * 60 <= total < d.hours * 60 + 60
    ensures total >= 0 ==> d.hours * 60 + d.minutes == total && 0 <= d.minutes < 60
    ensures total >= 0 ==> d.hours >= 0
  {
    Duration(total / 60, JsRemainder60(total))
  }

  /** The ids of a list, in order. */
  function Ids(s: seq<Activity>): (r: seq<string>)
    ensures |r| == |s| && forall k :: 0 <= k < |s| ==> r[k] == s[k].id
  {
    seq(|s|, k requires 0 <= k < |s| => s[k].id)
  }

  predicate HasId(s: seq<Activity>, id: string) {
    exists k :: 0 <= k < |s| && s[k].id == id
  }

  predicate UniqueIds(s: seq<Activity>) {
    forall i, j :: 0 <= i < j < |s| ==> s[i].id != s[j].id
  }
}
