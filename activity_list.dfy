/**
 * The logic of the activity table: duration text, the drag-and-drop guard
 * that decides whether a reorder is requested, and the delete-confirmation
 * flow with its undo action.
 */
module ActivityList {
  import opened Wrappers
  import opened Text
  import opened Volunteer
  import opened VolunteerContext

  /** formatDuration: minutes only when there are no hours, hours only when there are no minutes. */
  function FormatDuration(hours: int, minutes: int): string {
    if hours == 0 then IntToString(minutes) + " min"
    else if minutes == 0 then IntToString(hours) + " hr"
    else IntToString(hours) + " hr " + IntToString(minutes) + " min"
  }

  /** Reads the three shapes FormatDuration writes for non-negative durations. */
  function ParseDuration(s: string): Option<Duration> {
    var (d1, r1) := SplitDigits(s);
    if d1 == [] then None
    else if r1 == " min" then Some(Duration(0, ParseNat(d1)))
    else if r1 == " hr" then Some(Duration(ParseNat(d1), 0))
    else if |r1| > 4 && r1[..4] == " hr " then
      var (d2, r2) := SplitDigits(r1[4..]);
      if d2 != [] && r2 == " min" then Some(Duration(ParseNat(d1), ParseNat(d2))) else None
    else None
  }

  /** Text of the form `<m> min` reads back as `m` minutes. */
  lemma ParseMinutesOnly(minutes: nat)
    ensures ParseDuration(NatToString(minutes) + " min") == Some(Duration(0, minutes))
  {
    SplitDigitsPrefix(NatToString(minutes), " min");
    ParseNatToString(minutes);
  }

  /** Text of the form `<h> hr` reads back as `h` hours. */
  lemma ParseHoursOnly(hours: nat)
    ensures ParseDuration(NatToString(hours) + " hr") == Some(Duration(hours, 0))
  {
    SplitDigitsPrefix(NatToString(hours), " hr");
    ParseNatToString(hours);
  }

  /** Text of the form `<h> hr <m> min` reads back as `h` hours and `m` minutes. */
  lemma ParseHoursAndMinutes(hours: nat, minutes: nat)
    ensures ParseDuration(NatToString(hours) + " hr " + NatToString(minutes) + " min")
         == Some(Duration(hours, minutes))
  {
    var h, m := NatToString(hours), NatToString(minutes);
    assert h + " hr " + m + " min" == h + (" hr " + (m + " min"));
    ParseTwoRuns(h, m);
    ParseNatToString(hours);
    ParseNatToString(minutes);
  }

  /** Two digit runs around " hr " and before " min" are read as hours and minutes. */
  lemma ParseTwoRuns(h: string, m: string)
    requires h != [] && AllDigits(h) && m != [] && AllDigits(m)
    ensures ParseDuration(h + (" hr " + (m + " min"))) == Some(Duration(ParseNat(h), ParseNat(m)))
  {
    var tail := m + " min";
    var r1 := " hr " + tail;
    assert r1[0] == ' ' && |r1| > 4;
    assert r1[..4] == " hr " && r1[4..] == tail;
    SplitDigitsPrefix(h, r1);
    SplitDigitsPrefix(m, " min");
    assert r1 != " min" && r1 != " hr";
  }

  /**
   * The duration text loses nothing: every non-negative duration reads back
   * as itself, so two different durations never show the same text.
   */
  lemma FormatDurationRoundTrip(hours: int, minutes: int)
    requires hours >= 0 && minutes >= 0
    ensures ParseDuration(FormatDuration(hours, minutes)) == Some(Duration(hours, minutes))
  {
    if hours == 0 {
      ParseMinutesOnly(minutes);
    } else if minutes == 0 {
      ParseHoursOnly(hours);
    } else {
      ParseHoursAndMinutes(hours, minutes);
    }
  }

  /** The three shapes, as the table shows them. */
  lemma FormatDurationShapes(hours: int, minutes: int)
    ensures hours == 0 ==> FormatDuration(hours, minutes) == IntToString(minutes) + " min"
    ensures hours != 0 && minutes == 0 ==> FormatDuration(hours, minutes) == IntToString(hours) + " hr"
    ensures hours != 0 && minutes != 0 ==>
      FormatDuration(hours, minutes) == IntToString(hours) + " hr " + IntToString(minutes) + " min"
    ensures FormatDuration(0, 0) == "0 min"
  {
  }

  /** The call `reorderActivities(oldIndex, newIndex)` that a drop requests. */
  datatype ReorderRequest = ReorderRequest(oldIndex: int, newIndex: int)

  /**
   * handleDragEnd: a reorder is requested only when there is a drop target
   * other than the dragged row; the indices are the first positions of the
   * two ids (-1 for an id not in the list).
   */
  function HandleDragEnd(activities: seq<Activity>, activeId: string, overId: Option<string>): (r: Option<ReorderRequest>)
    ensures r.Some? <==> overId.Some? && overId.value != activeId
    ensures r.Some? ==>
      r.value.oldIndex == FindIndex(activities, activeId) && r.value.newIndex == FindIndex(activities, overId.value)
    ensures r.Some? && HasId(activities, activeId) && HasId(activities, overId.value) ==>
      && 0 <= r.value.oldIndex < |activities| && 0 <= r.value.newIndex < |activities|
      && r.value.oldIndex != r.value.newIndex
    ensures r.Some? && !HasId(activities, activeId) ==> r.value.oldIndex == -1
  {
    match overId
    case Some(over) =>
      if activeId != over then
        Some(ReorderRequest(FindIndex(activities, activeId), FindIndex(activities, over)))
      else None
    case None => None
  }

  /** The delete-dialog state of the table and the store it deletes from. */
  class ActivityActions {
    const store: VolunteerStore
    var activityToDelete: Option<Activity>
    var isDeleteDialogOpen: bool

    ghost predicate Valid()
      reads this, store
    {
      store.Valid()
    }

    constructor (store: VolunteerStore)
      requires store.Valid()
      ensures Valid() && this.store == store
      ensures activityToDelete.None? && !isDeleteDialogOpen
    {
      this.store := store;
      activityToDelete := None;
      isDeleteDialogOpen := false;
    }

    /** handleDeleteClick: remember the row and open the confirmation dialog. */
    method HandleDeleteClick(activity: Activity)
      modifies this
      ensures activityToDelete == Some(activity) && isDeleteDialogOpen
    {
      activityToDelete := Some(activity);
      isDeleteDialogOpen := true;
    }

    /**
     * handleConfirmDelete: deletes the remembered activity, if any, by its
     * id; in every case forgets it and closes the dialog.
     */
    method HandleConfirmDelete()
      requires Valid()
      modifies this, store
      ensures Valid()
      ensures activityToDelete.None? && !isDeleteDialogOpen
      ensures old(activityToDelete).Some? ==>
        store.State() == Delete(old(store.State()), old(activityToDelete).value.id)
      ensures old(activityToDelete).None? ==> store.State() == old(store.State())
    {
      if activityToDelete.Some? {
        var deleted := activityToDelete.value;
        store.DeleteActivity(deleted.id);
      }
      activityToDelete := None;
      isDeleteDialogOpen := false;
    }

    /** The toast's undo button: restore the last deleted activity. */
    method HandleUndoClick() returns (restored: bool)
      requires Valid()
      modifies store
      ensures Valid()
      ensures Restoration(store.State(), restored) == Restore(old(store.State()))
    {
      restored := store.RestoreLastDeletedActivity();
    }
  }

  /**
   * Confirming the deletion of a listed activity and then pressing undo
   * gives back the list as it was.
   */
  method ConfirmDeleteThenUndo(actions: ActivityActions, activity: Activity) returns (restored: bool)
    requires actions.Valid() && activity in actions.store.activities
    modifies actions, actions.store
    ensures actions.Valid() && restored
    ensures actions.store.activities == old(actions.store.activities)
  {
    actions.HandleDeleteClick(activity);
    ghost var before := actions.store.State();
    assert HasId(before.activities, activity.id);
    actions.HandleConfirmDelete();
    restored := actions.HandleUndoClick();
    DeleteThenRestore(before, activity.id);
  }
}
