/**
 * The activity store: an ordered list of activities and a one-slot undo
 * buffer holding the last deleted activity with the index it had.
 *
 * Each operation is first defined on a value (Snapshot) and the class
 * VolunteerStore, whose two fields the operations update in place, is proved
 * to follow those definitions. The lemmas at the end relate operations.
 */
module VolunteerContext {
  import opened Wrappers
  import opened Volunteer

  /** `findIndex(a => a.id === id)`: the first index carrying `id`, or -1. */
  function FindIndex(s: seq<Activity>, id: string): (i: int)
    ensures -1 <= i < |s|
    ensures i == -1 <==> !HasId(s, id)
    ensures 0 <= i ==> s[i].id == id && forall k :: 0 <= k < i ==> s[k].id != id
  {
    if s == [] then -1
    else if s[0].id == id then 0
    else
      var j := FindIndex(s[1..], id);
      if j == -1 then -1 else j + 1
  }

  /** `filter((_, index) => index !== i)`: every entry but the i-th, in their order. */
  function RemoveAt(s: seq<Activity>, i: int): (r: seq<Activity>)
    requires 0 <= i < |s|
    ensures |r| == |s| - 1
    ensures forall k :: 0 <= k < i ==> r[k] == s[k]
    ensures forall k :: i <= k < |r| ==> r[k] == s[k + 1]
  {
    s[..i] + s[i + 1..]
  }

  /** `splice(i, 0, x)` on a copy: `x` lands at index `i`, later entries shift by one. */
  function InsertAt(s: seq<Activity>, i: int, x: Activity): (r: seq<Activity>)
    requires 0 <= i <= |s|
    ensures |r| == |s| + 1 && r[i] == x
    ensures forall k :: 0 <= k < i ==> r[k] == s[k]
    ensures forall k :: i < k < |r| ==> r[k] == s[k - 1]
  {
    s[..i] + [x] + s[i..]
  }

  /** `map(a => a.id === u.id ? u : a)`. */
  function ReplaceById(s: seq<Activity>, u: Activity): (r: seq<Activity>)
    ensures |r| == |s|
    ensures forall k :: 0 <= k < |s| ==> r[k] == (if s[k].id == u.id then u else s[k])
  {
    if s == [] then []
    else ReplaceById(s[..|s| - 1], u) + [if s[|s| - 1].id == u.id then u else s[|s| - 1]]
  }

  /** The store's two state cells. */
  datatype Snapshot = Snapshot(activities: seq<Activity>, lastDeleted: Option<DeletedActivityInfo>)

  /** What restore hands back: the new state and the boolean it returns. */
  datatype Restoration = Restoration(state: Snapshot, restored: bool)

  /**
   * The store's invariant: ids are unique in the list, and the activity held
   * for undo is not in the list.
   */
  predicate Consistent(st: Snapshot) {
    && UniqueIds(st.activities)
    && (st.lastDeleted.Some? ==> !HasId(st.activities, st.lastDeleted.value.activity.id))
  }

  /** An id that neither the list nor the undo slot uses. */
  predicate IsFresh(st: Snapshot, id: string) {
    && !HasId(st.activities, id)
    && (st.lastDeleted.Some? ==> st.lastDeleted.value.activity.id != id)
  }

  const Empty := Snapshot([], None)

  /** addActivity: the draft, under a fresh id, is appended at the end. */
  function Add(st: Snapshot, draft: Draft, id: string): (r: Snapshot)
    ensures |r.activities| == |st.activities| + 1
    ensures r.activities[..|st.activities|] == st.activities
    ensures r.activities[|st.activities|] == WithId(draft, id)
    ensures r.lastDeleted == st.lastDeleted
    ensures Consistent(st) && IsFresh(st, id) ==> Consistent(r)
  {
    Snapshot(st.activities + [WithId(draft, id)], st.lastDeleted)
  }

  /**
   * deleteActivity: an id that is present is removed at its first index, and
   * the slot is overwritten with that entry and index; an absent id changes
   * nothing.
   */
  function Delete(st: Snapshot, id: string): (r: Snapshot)
    ensures !HasId(st.activities, id) ==> r == st
    ensures HasId(st.activities, id) ==>
      var i := FindIndex(st.activities, id);
      && r.lastDeleted == Some(DeletedActivityInfo(st.activities[i], i))
      && r.activities == RemoveAt(st.activities, i)
    ensures Consistent(st) ==> Consistent(r) && !HasId(r.activities, id)
  {
    var i := FindIndex(st.activities, id);
    if i == -1 then st
    else Snapshot(RemoveAt(st.activities, i), Some(DeletedActivityInfo(st.activities[i], i)))
  }

  /** editActivity: entries with the edited id are replaced where they stand. */
  function Edit(st: Snapshot, u: Activity): (r: Snapshot)
    ensures r.lastDeleted == st.lastDeleted
    ensures |r.activities| == |st.activities| && Ids(r.activities) == Ids(st.activities)
    ensures forall k :: 0 <= k < |st.activities| ==>
      r.activities[k] == (if st.activities[k].id == u.id then u else st.activities[k])
    ensures !HasId(st.activities, u.id) ==> r == st
    ensures Consistent(st) ==> Consistent(r)
  {
    var r := Snapshot(ReplaceById(st.activities, u), st.lastDeleted);
    assert !HasId(st.activities, u.id) ==> r.activities == st.activities;
    r
  }

  /** `Math.min(position, length)`: where restore inserts. */
  function RestorePosition(info: DeletedActivityInfo, s: seq<Activity>): (p: int)
    ensures 0 <= p <= |s|
    ensures p == info.position || p == |s|
    ensures p <= info.position
  {
    if info.position < |s| then info.position else |s|
  }

  /**
   * restoreLastDeletedActivity: with an empty slot nothing changes and the
   * result is false; otherwise the held activity is inserted at the clamped
   * index, the slot is cleared and the result is true.
   */
  function Restore(st: Snapshot): (r: Restoration)
    ensures r.restored <==> st.lastDeleted.Some?
    ensures !r.restored ==> r.state == st
    ensures r.state.lastDeleted.None?
    ensures r.restored ==>
      && |r.state.activities| == |st.activities| + 1
      && r.state.activities == InsertAt(st.activities,
           RestorePosition(st.lastDeleted.value, st.activities), st.lastDeleted.value.activity)
    ensures Consistent(st) ==> Consistent(r.state)
  {
    match st.lastDeleted
    case None => Restoration(st, false)
    case Some(info) =>
      var s' := InsertAt(st.activities, RestorePosition(info, st.activities), info.activity);
      assert Consistent(st) ==> UniqueIds(s') by {
        if Consistent(st) {
          forall i, j | 0 <= i < j < |s'| ensures s'[i].id != s'[j].id {
            var p := RestorePosition(info, st.activities);
            if i == p {
              assert s'[j] == st.activities[j - 1];
            } else if j == p {
              assert i < p && s'[i] == st.activities[i];
            }
          }
        }
      }
      Restoration(Snapshot(s', None), true)
  }

  /** clearAllActivities: both cells emptied. */
  function ClearAll(st: Snapshot): (r: Snapshot)
    ensures r.activities == [] && r.lastDeleted.None?
    ensures Consistent(r)
  {
    Empty
  }

  /** The activity store, updated in place by its operations. */
  class VolunteerStore {
    var activities: seq<Activity>
    var lastDeletedActivity: Option<DeletedActivityInfo>

    function State(): Snapshot
      reads this
    {
      Snapshot(activities, lastDeletedActivity)
    }

    ghost predicate Valid()
      reads this
    {
      Consistent(State())
    }

    constructor ()
      ensures Valid() && State() == Empty
    {
      activities := [];
      lastDeletedActivity := None;
    }

    /** `newId` stands for `crypto.randomUUID()`, required not to collide. */
    method AddActivity(draft: Draft, newId: string)
      requires Valid() && IsFresh(State(), newId)
      modifies this
      ensures Valid() && State() == Add(old(State()), draft, newId)
    {
      activities := activities + [WithId(draft, newId)];
    }

    method DeleteActivity(id: string)
      requires Valid()
      modifies this
      ensures Valid() && State() == Delete(old(State()), id)
    {
      var i := FindIndex(activities, id);
      if i != -1 {
        lastDeletedActivity := Some(DeletedActivityInfo(activities[i], i));
        activities := RemoveAt(activities, i);
      }
    }

    method EditActivity(updated: Activity)
      requires Valid()
      modifies this
      ensures Valid() && State() == Edit(old(State()), updated)
    {
      activities := ReplaceById(activities, updated);
    }

    method RestoreLastDeletedActivity() returns (restored: bool)
      requires Valid()
      modifies this
      ensures Valid() && Restoration(State(), restored) == Restore(old(State()))
    {
      match lastDeletedActivity
      case None =>
        restored := false;
      case Some(info) =>
        var copy := activities;
        copy := InsertAt(copy, RestorePosition(info, copy), info.activity);
        activities := copy;
        lastDeletedActivity := None;
        restored := true;
    }

    method ClearAllActivities()
      requires Valid()
      modifies this
      ensures Valid() && State() == ClearAll(old(State()))
    {
      activities := [];
      lastDeletedActivity := None;
    }

    /** getTotalHours: the summed minutes split back into hours and minutes. */
    function GetTotalHours(): (d: Duration)
      reads this
      ensures TotalMinutes(activities) >= 0 ==>
        d.hours * 60 + d.minutes == TotalMinutes(activities) && 0 <= d.minutes < 60
      ensures d.hours * 60 <= TotalMinutes(activities) < d.hours * 60 + 60
    {
      SplitMinutes(TotalMinutes(activities))
    }
  }

  /** Delete followed at once by restore gives back the original list. */
  lemma DeleteThenRestore(st: Snapshot, id: string)
    requires HasId(st.activities, id)
    ensures Restore(Delete(st, id)).restored
    ensures Restore(Delete(st, id)).state == Snapshot(st.activities, None)
  {
    var s := st.activities;
    var i := FindIndex(s, id);
    var d := Delete(st, id);
    assert RestorePosition(d.lastDeleted.value, d.activities) == i;
    var back := InsertAt(RemoveAt(s, i), i, s[i]);
    assert |back| == |s|;
    forall k | 0 <= k < |s| ensures back[k] == s[k] {
    }
    assert back == s;
  }

  /** After any restore the slot is empty, so a second restore returns false and changes nothing. */
  lemma SecondRestoreIsNoOp(st: Snapshot)
    ensures Restore(Restore(st).state) == Restoration(Restore(st).state, false)
  {
  }

  /** After clear-all there is nothing to restore, whatever was pending before. */
  lemma RestoreAfterClearAll(st: Snapshot)
    ensures Restore(ClearAll(st)) == Restoration(Empty, false)
  {
  }

  /** Adding an activity adds exactly its duration to the total. */
  lemma AddAddsDuration(st: Snapshot, draft: Draft, id: string)
    ensures TotalMinutes(Add(st, draft, id).activities)
         == TotalMinutes(st.activities) + draft.hours * 60 + draft.minutes
  {
    var a := WithId(draft, id);
    TotalMinutesAppend(st.activities, [a]);
    assert [a][..0] == [];
  }

  /**
   * Delete at index 3 of five entries, then two adds, then restore: the
   * activity comes back at index 3 (the clamp `min(3, 6)` leaves it there),
   * and the two new entries follow the original ones.
   */
  lemma RestoreAfterLaterAdds(st: Snapshot, id: string, d1: Draft, id1: string, d2: Draft, id2: string)
    requires |st.activities| == 5 && FindIndex(st.activities, id) == 3
    ensures
      var after := Restore(Add(Add(Delete(st, id), d1, id1), d2, id2)).state.activities;
      && |after| == 7
      && after[..5] == st.activities
      && after[5] == WithId(d1, id1) && after[6] == WithId(d2, id2)
  {
    var s1 := Delete(st, id);
    var s3 := Add(Add(s1, d1, id1), d2, id2);
    assert s3.activities == s1.activities + [WithId(d1, id1), WithId(d2, id2)];
    var after := Restore(s3).state.activities;
    assert RestorePosition(s3.lastDeleted.value, s3.activities) == 3;
    forall k | 0 <= k < 5 ensures after[k] == st.activities[k] {
    }
  }
}
