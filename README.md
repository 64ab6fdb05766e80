# Volunteer hours tracker — a Dafny model

This project models the logic of a small volunteer-hours tracker: a
React/TypeScript web application in which a volunteer logs activities. Each
activity has a name, an organization, a description, a date and a duration in
whole hours and minutes. The volunteer can then edit, delete (with a one-step
undo), total and chart these activities, and download a report.

The model covers the following parts:

- **The activity store** (`VolunteerContext`). It holds an ordered list of
  activities and a one-slot undo buffer, `lastDeletedActivity`, that records
  the last deleted activity together with the index it had.
  - Add, delete, edit, restore, clear-all and the total duration are each
    defined on a value `Snapshot`.
  - The class `VolunteerStore` updates its two fields in place and is proved
    to follow those definitions.
  - The store keeps an invariant: ids are unique, and the activity held for
    undo is not in the list.
  - Delete followed by restore gives back the original list.
- **The event bus** (`Events`). It maps each event name to an ordered list of
  handlers, and supports `on`, `off` and `emit`. Delivery is in order, and a
  handler that throws does not stop the later ones.
- **The activity table** (`ActivityList`):
  - the duration text, with a parser that reads it back;
  - the drag-and-drop guard that decides whether a reorder is requested, and
    with which indices;
  - the delete-confirmation flow, whose undo button restores the activity.
- **The activity form** (`ActivityForm`). This is a state machine over its
  text fields. Submit rejects a zero duration, and otherwise either edits the
  activity or adds a new one and resets the fields. The minutes field only
  accepts values in [0, 59].
- **The validation schema** (`Schema`). It maps a parsed form record to the
  list of issues it raises.
- **The distribution chart** (`ActivityChart`). It groups activities by
  organization with their summed minutes, and builds the pie-chart definition
  text.
- **The summary report** (`SummaryCard`). It produces the Markdown text the
  volunteer downloads.

`Text` renders whole numbers the way JavaScript template literals do, and
reads decimal digits back. `Volunteer` holds the shared records.

## Model

| member | source | states |
|---|---|---|
| Volunteer.WithId | types/volunteer.ts:1-9 | the stored record carries the given id and exactly the draft's other fields |
| Volunteer.TotalMinutes | context/volunteer-context.tsx:136 | the left-to-right sum of hours*60+minutes; stated by TotalMinutesAppend and TotalMinutesNonNegative |
| Volunteer.TotalMinutesAppend | context/volunteer-context.tsx:136 | the summed minutes of two lists joined together is the sum of their totals |
| Volunteer.TotalMinutesNonNegative | context/volunteer-context.tsx:136 | with no negative hours or minutes, the summed minutes are not negative |
| Volunteer.JsRemainder60 | context/volunteer-context.tsx:140 | `% 60` keeps the sign of the dividend, has magnitude below 60, and differs from the dividend by a multiple of 60 |
| Volunteer.SplitMinutes | context/volunteer-context.tsx:138-141 | hours is the floor of total/60; for a non-negative total, hours*60+minutes is the total with 0 <= minutes < 60 |
| Text.IntToString | components/activity-list.tsx:55 | `${n}` for a whole number: the decimal text of a non-negative number, and "-" followed by the decimal text of its magnitude for a negative one |
| Text.NatToString | components/activity-list.tsx:55 | the decimal text of a number is non-empty, all digits, and has no leading zero |
| Text.ParseNatToString | components/activity-list.tsx:53-61 | reading the decimal text of a number gives the number back |
| VolunteerContext.FindIndex | context/volunteer-context.tsx:111 | the first index holding the id, or -1 exactly when no entry has the id |
| VolunteerContext.RemoveAt | context/volunteer-context.tsx:124 | one entry fewer; the entries before the index stay, and those after it move down by one |
| VolunteerContext.InsertAt | context/volunteer-context.tsx:28-31 | one entry more, the new one at the index; the others keep their order around it |
| VolunteerContext.ReplaceById | context/volunteer-context.tsx:132 | same length; each entry with the edited id is replaced, every other entry is kept |
| VolunteerContext.Add | context/volunteer-context.tsx:98-103 | exactly one entry is appended (the draft under the new id); earlier entries and the slot are unchanged; with a fresh id the invariant is kept |
| VolunteerContext.Delete | context/volunteer-context.tsx:109-128 | a present id is removed at its first index and the slot is overwritten with that entry and index; an absent id changes nothing; the invariant is kept and the id is gone |
| VolunteerContext.Edit | context/volunteer-context.tsx:131-133 | same length, ids and order; exactly the entries with the edited id are replaced; the slot is unchanged; with no match nothing changes; the invariant is kept |
| VolunteerContext.RestorePosition | context/volunteer-context.tsx:30 | the insertion index is the recorded position clamped to the list length, so it is never out of bounds |
| VolunteerContext.Restore | context/volunteer-context.tsx:18-52 | returns true iff the slot was full; an empty slot changes nothing; a full slot is inserted at the clamped index, the list grows by one and the slot is cleared; the invariant is kept |
| VolunteerContext.ClearAll | context/volunteer-context.tsx:144-149 | both the list and the slot are empty |
| VolunteerContext.VolunteerStore.constructor | context/volunteer-context.tsx:13-14 | the store starts with an empty list and an empty slot |
| VolunteerContext.VolunteerStore.AddActivity | context/volunteer-context.tsx:98-107 | the new state is Add of the old state; the invariant is kept |
| VolunteerContext.VolunteerStore.DeleteActivity | context/volunteer-context.tsx:109-129 | the new state is Delete of the old state; the invariant is kept |
| VolunteerContext.VolunteerStore.EditActivity | context/volunteer-context.tsx:131-133 | the new state is Edit of the old state; the invariant is kept |
| VolunteerContext.VolunteerStore.RestoreLastDeletedActivity | context/volunteer-context.tsx:18-52 | the new state and the returned boolean are Restore of the old state; the invariant is kept |
| VolunteerContext.VolunteerStore.ClearAllActivities | context/volunteer-context.tsx:144-159 | the new state is ClearAll of the old state |
| VolunteerContext.VolunteerStore.GetTotalHours | context/volunteer-context.tsx:135-142 | the total is hours*60+minutes (the summed minutes of the list) with 0 <= minutes < 60, when that sum is not negative |
| VolunteerContext.DeleteThenRestore | context/volunteer-context.tsx:109-129 | deleting a present id and then restoring returns true and gives back the original list with an empty slot |
| VolunteerContext.SecondRestoreIsNoOp | context/volunteer-context.tsx:20-51 | after any restore, a second restore returns false and changes nothing |
| VolunteerContext.RestoreAfterClearAll | context/volunteer-context.tsx:144-149 | after clear-all nothing can be restored |
| VolunteerContext.AddAddsDuration | context/volunteer-context.tsx:98-103 | adding an activity raises the summed minutes by exactly hours*60+minutes of the draft |
| VolunteerContext.RestoreAfterLaterAdds | context/volunteer-context.tsx:27-33 | delete at index 3 of five, two adds, then restore: the deleted activity is back at index 3 and the two new entries follow the original five |
| Events.RemoveAll | lib/event-bus.ts:16 | the handler no longer occurs; every other handler occurs as often as before; a list without the handler is unchanged |
| Events.RemoveAllAppend | lib/event-bus.ts:16 | filtering commutes with concatenation, so the remaining handlers keep their order |
| Events.WithHandler | lib/event-bus.ts:7-12 | the event gets a list if it had none, the handler goes at its end, and every other event's list is unchanged |
| Events.WithoutHandler | lib/event-bus.ts:14-17 | an unknown event leaves the registry as is and creates no entry; otherwise every occurrence of the handler is removed from that event's list only |
| Events.Throwing | lib/event-bus.ts:21-26 | a handler is reported as failed iff it was invoked and throws, so every caught error is logged |
| Events.OnTwiceListsTwice | lib/event-bus.ts:11 | registering the same handler twice lists it twice |
| Events.OffUndoesOn | lib/event-bus.ts:7-17 | `off` after `on` leaves the earlier handlers minus the removed one, in their order |
| Events.EventBus.constructor | lib/event-bus.ts:5 | the registry starts empty |
| Events.EventBus.On | lib/event-bus.ts:7-12 | the new registry is WithHandler of the old one |
| Events.EventBus.Off | lib/event-bus.ts:14-17 | the new registry is WithoutHandler of the old one |
| Events.EventBus.Emit | lib/event-bus.ts:19-27 | every handler of the event is invoked once, in registration order (none for an unknown event); the ones that throw are reported, later ones still run, and the registry is not changed |
| ActivityList.FormatDurationRoundTrip | components/activity-list.tsx:53-61 | every non-negative duration's text reads back as that duration, so distinct durations never show the same text |
| ActivityList.FormatDuration | components/activity-list.tsx:53-61 | the duration text; its shapes and its round trip are stated by FormatDurationShapes and FormatDurationRoundTrip |
| ActivityList.FormatDurationShapes | components/activity-list.tsx:54-60 | zero hours shows "<m> min" (including "0 min"); zero minutes with non-zero hours shows "<h> hr"; both non-zero shows "<h> hr <m> min" |
| ActivityList.HandleDragEnd | components/activity-list.tsx:222-232 | a reorder is requested iff there is a drop target whose id differs from the dragged id; the indices are the first positions of the two ids, in range and distinct when both are listed, and -1 for an unlisted dragged id |
| ActivityList.ActivityActions.constructor | components/activity-list.tsx:48-49 | no activity is pending deletion and the dialog is closed |
| ActivityList.ActivityActions.HandleDeleteClick | components/activity-list.tsx:73-76 | the clicked activity is remembered and the dialog opens |
| ActivityList.ActivityActions.HandleConfirmDelete | components/activity-list.tsx:78-109 | the remembered activity, if any, is deleted by id, otherwise the store is unchanged; the pending activity is always forgotten and the dialog closed |
| ActivityList.ActivityActions.HandleUndoClick | components/activity-list.tsx:95-98 | the store's new state and the result are Restore of its old state |
| ActivityList.ConfirmDeleteThenUndo | components/activity-list.tsx:78-98 | confirming the deletion of a listed activity and then pressing undo succeeds and gives back the original list |
| ActivityForm.ParsedOrZero | components/activity-form.tsx:41-42 | `Number.parseInt(s) \|\| 0`: the parsed value, or 0 when the text does not parse; its use is stated by HandleSubmit |
| ActivityForm.ParsesPositive | components/activity-form.tsx:84 | `Number.parseInt(s) > 0`, false for text that does not parse; its use is stated by HandleHoursChange and HandleMinutesChange |
| ActivityForm.ParsesAsMinute | components/activity-form.tsx:92 | the parsed value lies in [0, 59], false for text that does not parse; its use is stated by HandleMinutesChange |
| ActivityForm.ActivityForm.constructor | components/activity-form.tsx:28-35 | the fields start from the edited activity's values, or from empty text, the current date and "0" durations; no error |
| ActivityForm.ActivityForm.HandleSubmit | components/activity-form.tsx:37-78 | unparsable durations count as 0; a zero duration sets the error and calls nothing; otherwise edit sends the record under the edited id and keeps the fields, add sends a draft under the new id and resets the fields, and both clear the error and complete exactly when onComplete is given |
| ActivityForm.ActivityForm.HandleHoursChange | components/activity-form.tsx:80-87 | the hours text is taken; the error is cleared only when one is shown and some parsed duration is positive |
| ActivityForm.ActivityForm.HandleMinutesChange | components/activity-form.tsx:89-99 | text that does not parse into [0, 59] changes nothing; otherwise it is taken, and the error is cleared only when one is shown and some parsed duration is positive |
| ActivityForm.ActivityForm.HandleDateSelect | components/activity-form.tsx:101-104 | the picked date is taken and the calendar closes |
| Schema.FieldIssues | lib/schema.ts:5-14 | there is no field issue iff the three texts are non-empty, a date is picked, hours >= 0 and minutes lie in [0, 59] |
| Schema.Issues | lib/schema.ts:4-18 | the record is accepted iff every field rule holds and hours > 0 or minutes > 0; the field issues come first |
| Schema.ZeroDurationRejected | lib/schema.ts:15-17 | a zero duration is rejected even when each field is valid, with the one issue reported on `hours` |
| Schema.MinutesOutOfRange | lib/schema.ts:13 | minutes outside [0, 59] are rejected with an issue on `minutes` naming the bound broken |
| ActivityChart.Organizations | components/activity-chart.tsx:50 | the groups are listed without repetition, in first-appearance order |
| ActivityChart.OrganizationsOccur | components/activity-chart.tsx:31-37 | an organization is listed iff some activity carries it, and a listed organization has at least one activity, so no slice is empty |
| ActivityChart.ActivityInOwnGroup | components/activity-chart.tsx:31-40 | every activity's organization has a group, and that group holds the activity |
| ActivityChart.GroupMembersShareOrganization | components/activity-chart.tsx:31-40 | a group holds only activities of the list whose organization is exactly its key |
| ActivityChart.GroupOfLast | components/activity-chart.tsx:39-40 | the last activity adds its minutes and itself to its own organization's group and changes no other group |
| ActivityChart.Accumulate | components/activity-chart.tsx:30-43 | the reducer: the accumulator of the activity's organization, created empty on first sight, gains its minutes and the activity; its effect on each key is stated by GroupOfLast and GroupingAt |
| ActivityChart.Grouping | components/activity-chart.tsx:29-45 | the `reduce` from `{}`; what each key holds is stated by GroupingAt |
| ActivityChart.GroupingAt | components/activity-chart.tsx:29-45 | the accumulator has a key iff the organization is listed (by OrganizationsOccur, iff some activity carries it), and its value is that organization's summed minutes and activities in list order |
| ActivityChart.GroupByOrganization | components/activity-chart.tsx:29-45 | the reduce yields the grouping above, with keys in first-appearance order |
| ActivityChart.GroupTotalsSum | components/activity-chart.tsx:29-45 | the group totals add up to the summed minutes of the whole list |
| ActivityChart.EachActivityInOneGroup | components/activity-chart.tsx:31-37 | each activity is in its own organization's group and in no other |
| ActivityChart.ChartLine | components/activity-chart.tsx:53 | one slice line: the quoted organization and its total in minutes |
| ActivityChart.ChartLines | components/activity-chart.tsx:50-54 | the slice lines of a sequence of organizations, in order; stated by ChartLinesStep, ChartLinesAppend and ChartLineAt |
| ActivityChart.ChartLinesStep | components/activity-chart.tsx:50-54 | the lines of the first i + 1 organizations are those of the first i followed by the i-th one's |
| ActivityChart.ChartLinesAppend | components/activity-chart.tsx:50-54 | the lines of two organization lists joined are the lines of each, joined |
| ActivityChart.ChartLineAt | components/activity-chart.tsx:50-54 | the k-th organization's line sits between the lines of those before and after it |
| ActivityChart.ChartDefinition | components/activity-chart.tsx:48-54 | the definition is the title line followed by one line per organization, in order |
| ActivityChart.GenerateChart | components/activity-chart.tsx:25-54 | nothing is produced iff the list is empty; otherwise the text is the title followed by one line per organization in first-appearance order |
| ActivityChart.ChartShowsEveryOrganization | components/activity-chart.tsx:48-54 | each organization's line shows its summed minutes, after the lines of the organizations seen before it |
| SummaryCard.HeaderBody | components/summary-card.tsx:16-18 | the generation date, total and count lines; their place in the report is stated by GenerateReport and ReportLayout |
| SummaryCard.Section | components/summary-card.tsx:21-24 | one activity's section with its number, display name, organization, formatted date, raw hours, minutes and description |
| SummaryCard.Sections | components/summary-card.tsx:20-25 | the sections of a list, activity i numbered i + 1; stated by SectionsStep, SectionsPrefix and ReportLayout |
| SummaryCard.SectionsStep | components/summary-card.tsx:20-25 | the sections of the first i + 1 activities are those of the first i followed by activity i's, numbered i + 1 |
| SummaryCard.Report | components/summary-card.tsx:15-25 | the whole report text; GenerateReport computes it and ReportLayout states its layout |
| SummaryCard.DisplayName | components/summary-card.tsx:21 | an empty name shows as "Unnamed Activity", and any other name as itself |
| SummaryCard.GenerateReport | components/summary-card.tsx:13-25 | the report is the title, the generation date, the total hours and minutes from getTotalHours, and the activity count, followed by one section per activity in list order |
| SummaryCard.SectionsPrefix | components/summary-card.tsx:20-25 | the sections of the first i activities open the sections of the whole list |
| SummaryCard.ReportLayout | components/summary-card.tsx:15-25 | the report starts with "# Volunteer Activity Summary"; activity k's section, numbered k+1, follows the header and the sections of the activities before it |
| SummaryCard.CanDownload | components/summary-card.tsx:66 | the download button is enabled iff there is at least one activity |

## Left out

- Persistence to `localStorage` (context/volunteer-context.tsx:59-96, 151-157) is browser I/O and JSON parsing. The model keeps the state in memory only.
- `crypto.randomUUID()` is a foreign call. The new id is a parameter of `AddActivity` and `HandleSubmit`, required to be unused by both the list and the undo slot.
- Toasts, `console.log` output and the store's `eventBus.emit` calls are side effects with no bearing on the state, so they are not modelled. The one `console.error` that is modelled is the bus's report of a failing handler, which `Emit` returns as `failed`.
- React's batched state updates and stale closures are not modelled. Each operation runs to completion on the current state. This includes restore capturing `lastDeletedActivity`, and `setLastDeletedActivity` being called inside a `setActivities` updater.
- `reorderActivities` is destructured by the table (components/activity-list.tsx:193), but the provider value does not contain it (context/volunteer-context.tsx:163-172). The name is therefore `undefined`, and the call at components/activity-list.tsx:230 throws a TypeError: no requested reorder ever changes the list. Only the guard and index lookup of `handleDragEnd` are modelled, as the request they produce. No reorder operation is modelled, because the source has none to follow.
- Events.EventBus: `events` is a plain object literal (lib/event-bus.ts:5). An event named after an `Object.prototype` member such as "constructor", "toString" or "__proto__" finds an inherited truthy value at lines 8, 15 and 20, and `on`, `off` and `emit` then throw. The model treats every event name as an ordinary key.
- Events.EventBus.Emit: a handler that calls `on` or `off` while `emit` runs (re-entrancy) is not modelled. `Emit` modifies nothing, so the registry changes such a handler makes are lost in the model. The delivered sequence is unaffected: `forEach` visits only the entries present when it began, and `off` replaces the array instead of changing it. Handler arguments (`...args`) are not modelled either.
- `lib/global-actions.ts` is not part of this model. It only forwards to the registered restore function, so the undo button calls the store's restore directly.
- Page layout, the clear-all and restore buttons, and the toast provider have no logic to model.
- Rendering and foreign libraries are not modelled: dnd-kit sensors, the highlight timer, mermaid initialisation and rendering, date-fns formatting, and the Blob download.
  - Date formatting is the parameter `formatDate`.
  - The report date is the parameter `generatedOn`.
  - The current time in the form is the parameter `now`.
- Dates are opaque strings. `new Date(...)` and `toISOString()` normalisation is not modelled.
- `Number.parseInt` and zod's number coercion are abstracted:
  - In the form, parsing is the parameter `parse`, with None standing for NaN.
  - In the schema, numbers arrive already coerced to whole numbers.
- Numbers are unbounded integers. Fractional and floating-point durations are not modelled.
- ActivityChart.Organizations: the key order follows first appearance. This is how `Object.entries` orders ordinary string keys. JavaScript lists integer-like keys first, and prototype keys such as "constructor" would break the reducer's `!acc[org]` test. Neither case is modelled.
- ActivityChart.GenerateChart: lines 51-52 compute hours and minutes for each group but never use them, so the model leaves them out. The asynchronous mermaid render that follows is not modelled.
- VolunteerContext.VolunteerStore.GetTotalHours: the recombination `hours*60 + minutes == total` is stated only for a non-negative total. For a negative total, `Math.floor` and JavaScript's truncating `%` disagree; for example, -1 minute splits into -1 hours and -1 minutes. The form's number inputs carry `min="0"`, so such totals do not arise through the user interface.
- Volunteer.SplitMinutes: stated only for a non-negative total, for the same reason as GetTotalHours.
