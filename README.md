# Clock: a Dafny model of the event-countdown core

Clock is an Android app. The user records upcoming events, each with a name, a place and a date and time. The app then shows how long remains until each one:

- in a list, as "DDd HHh MMm";
- on a detail screen, as four two-digit fields;
- in a home-screen widget, as "DDd HHh" or "HHh MMm".

A reminder fires ten minutes before each event. Past events are listed on a history screen. The user can also pick an accent colour.

This project models the sequential core under the Android glue. The platform is replaced by plain state:

- The event store (`Repository.EventRepository`) holds the persisted list as a value. Every read and every write sorts it by timestamp.
- The preference stores are classes over maps: the widget store (`Widget.WidgetPreferences`) and the theme store (`Theme.ThemePreferences`).
- The alarm service (`Notifications.AlarmManager`) is a map from alarm slot to the reminder it will deliver.
- The current time and a new event's random id are parameters.

Modules follow the source files:

| module | source |
|---|---|
| `Events` | `model/Event.java` |
| `Repository` | `data/EventRepository.java` |
| `Countdown` | the day/hour/minute/second arithmetic shared by the three views |
| `DetailScreen` | `DetailActivity.updateTimer` |
| `EventList` | `adapter/EventAdapter.java` |
| `History` | `HistoryActivity.loadHistoryEvents` |
| `Widget` | `widget/CountdownWidgetProvider.java` |
| `Notifications` | `utils/NotificationScheduler.java` |
| `AddEvent` | `AddEventActivity.saveEvent` |
| `Theme` | `utils/ThemeHelper.java` |

Two helper modules support them:

- `Decimal` writes numbers the way `Integer.toString` and `%02d` do, and reads them back.
- `Wrappers` holds `Option`.

The mutable Java `Event` is a class (`Events.Event`) with setters. `Snapshot()` is the value its getters report. Stores persist events as JSON, so they hold snapshots (`Events.EventData`), not references.

`Collections.sort` with `Event.compareTo` is modelled as an insertion sort, `Repository.SortByTime`. Lemmas prove that it returns a sorted permutation of its input, and that it leaves an already sorted list unchanged. A further lemma proves it stable, as `Collections.sort` is: events with equal timestamps keep their relative order.

The countdown views are specified through small parsers (`ParseFields`, `ParseCountdownText`, `ParseWidgetTimeText`). Each parser reads the displayed text back into numbers. This makes the "reads back" lemmas state exactly which values each view shows. It also gives the "same text exactly when …" lemmas their if-and-only-if.

The scheduler fetches its pending intent with FLAG_UPDATE_CURRENT even when it sets no alarm. So re-saving an event whose reminder time has passed replaces the event details carried by an alarm already in its slot, and keeps that alarm's trigger time. `Notifications.Schedule` models this. `Notifications.LateRescheduleKeepsTrigger` states it.

## Model

Source paths are relative to the repository root, under `app/src/main/java/com/example/clock/`.

| member | source | states |
|---|---|---|
| Events.EventData.CompareTo | app/src/main/java/com/example/clock/model/Event.java:52-55 | the result is -1, 0 or 1, and is negative, zero or positive exactly when this timestamp is less than, equal to or greater than the other |
| Events.CompareAntisymmetric | app/src/main/java/com/example/clock/model/Event.java:52-55 | swapping the operands negates the comparison |
| Events.CompareTransitive | app/src/main/java/com/example/clock/model/Event.java:52-55 | "compares at most 0" is transitive, so the ordering is a total preorder fit for sorting |
| Events.CompareIgnoresIdentity | app/src/main/java/com/example/clock/model/Event.java:52-55 | events with equal timestamps compare equal and compare alike against any third event, whatever their id, name or place |
| Events.Event.constructor | app/src/main/java/com/example/clock/model/Event.java:12-17 | the new object holds the fresh id and exactly the given name, place and timestamp |
| Events.Event.SetId | app/src/main/java/com/example/clock/model/Event.java:35-37 | only the id changes, to the given value |
| Events.Event.SetName | app/src/main/java/com/example/clock/model/Event.java:39-41 | only the name changes, to the given value |
| Events.Event.SetPlace | app/src/main/java/com/example/clock/model/Event.java:43-45 | only the place changes, to the given value |
| Events.Event.SetTimestamp | app/src/main/java/com/example/clock/model/Event.java:47-49 | only the timestamp changes, to the given value |
| Events.Event.CompareTo | app/src/main/java/com/example/clock/model/Event.java:52-55 | on the objects' current fields: -1, 0 or 1, with each sign exactly when the timestamps are in that order |
| Repository.SortedCons | app/src/main/java/com/example/clock/data/EventRepository.java:35 | an event no later than the head of a sorted list can be put in front of it, and the list stays sorted |
| Repository.Insert | app/src/main/java/com/example/clock/data/EventRepository.java:35 | one step of the sort: the list grows by exactly one |
| Repository.SortByTime | app/src/main/java/com/example/clock/data/EventRepository.java:35 | `Collections.sort` by timestamp keeps the length; its order, contents and stability are in the lemmas below |
| Repository.InsertSortedPermutation | app/src/main/java/com/example/clock/data/EventRepository.java:35 | inserting adds exactly that event to the multiset, and keeps a sorted list sorted |
| Repository.SortByTimeSortedPermutation | app/src/main/java/com/example/clock/data/EventRepository.java:35 | the sort returns a permutation of its input, ascending by timestamp |
| Repository.SortSortedIsIdentity | app/src/main/java/com/example/clock/data/EventRepository.java:35 | sorting a list that is already sorted returns it unchanged |
| Repository.InsertAtTime | app/src/main/java/com/example/clock/data/EventRepository.java:35 | inserting puts the event ahead of the events sharing its timestamp and reorders none of them |
| Repository.SortByTimeStable | app/src/main/java/com/example/clock/data/EventRepository.java:35 | the sort is stable: for every timestamp, the events carrying it keep their relative order |
| Repository.PermutationKeepsIds | app/src/main/java/com/example/clock/data/EventRepository.java:35 | a permutation holds an id exactly when the original does |
| Repository.IndexOfId | app/src/main/java/com/example/clock/data/EventRepository.java:42-48 | the position found carries the id and no earlier position does; there is none exactly when no event carries the id |
| Repository.IndexOfIdAt | app/src/main/java/com/example/clock/data/EventRepository.java:42-48 | the first position whose event carries the id is the one the search finds |
| Repository.Upsert | app/src/main/java/com/example/clock/data/EventRepository.java:42-52 | the result holds the event; same length when the id is present; the list with the event appended when it is absent |
| Repository.UpsertProperties | app/src/main/java/com/example/clock/data/EventRepository.java:42-52 | the result holds the event; when the id is present, exactly the first position carrying it is replaced and every other position is kept; when absent, the event is appended; the length follows; other ids' multiplicities are kept |
| Repository.RemoveFirst | app/src/main/java/com/example/clock/data/EventRepository.java:59-65 | the list is unchanged when no event carries the id, and one shorter otherwise |
| Repository.RemoveFirstProperties | app/src/main/java/com/example/clock/data/EventRepository.java:59-65 | nothing changes when the id is absent; otherwise the list is one shorter, and the first event carrying the id leaves the multiset |
| Repository.RemoveAtMultiset | app/src/main/java/com/example/clock/data/EventRepository.java:62 | cutting one position out removes exactly that event from the multiset |
| Repository.AfterAddProperties | app/src/main/java/com/example/clock/data/EventRepository.java:39-53 | after addEvent the list is sorted and holds the event; its count is unchanged when the id was stored and one more otherwise; every event of another id keeps its multiplicity |
| Repository.AfterDeleteProperties | app/src/main/java/com/example/clock/data/EventRepository.java:55-67 | after deleteEvent the list is sorted; it is a permutation of the old list when the id is absent, and otherwise exactly one stored event carrying the id is gone |
| Repository.EventRepository.constructor | app/src/main/java/com/example/clock/data/EventRepository.java:21-24 | the repository starts with the given stored entry, or none |
| Repository.EventRepository.GetEvents | app/src/main/java/com/example/clock/data/EventRepository.java:26-37 | the empty list when nothing is stored; otherwise the stored list sorted by timestamp |
| Repository.EventRepository.AddEvent | app/src/main/java/com/example/clock/data/EventRepository.java:39-53 | the stored list becomes the sorted upsert of the event into the sorted old list; the loop is proved to find the first matching id |
| Repository.EventRepository.DeleteEvent | app/src/main/java/com/example/clock/data/EventRepository.java:55-67 | the stored list becomes the sorted old list without its first event carrying the id |
| Repository.EventRepository.SaveEvents | app/src/main/java/com/example/clock/data/EventRepository.java:69-73 | the stored entry becomes the given list sorted by timestamp |
| Repository.SavedListReadsBack | app/src/main/java/com/example/clock/data/EventRepository.java:26-37 | what saveEvents stores is what getEvents reads back |
| Countdown.BreakDown | app/src/main/java/com/example/clock/DetailActivity.java:80-83 | days is the remaining time divided by 86 400 000; hours are below 24, minutes and seconds below 60 |
| Countdown.BreakDownReconstructs | app/src/main/java/com/example/clock/DetailActivity.java:80-83 | days, hours, minutes and seconds add back up to the remaining time rounded down to a whole second |
| Countdown.BreakDownUnique | app/src/main/java/com/example/clock/DetailActivity.java:80-83 | the breakdown is the only one in range that adds up to the remaining time to the second |
| Countdown.BreakDownMinutes | app/src/main/java/com/example/clock/adapter/EventAdapter.java:83-85 | days, hours and minutes count the whole minutes remaining, and each is a function of that count |
| Countdown.BreakDownHours | app/src/main/java/com/example/clock/widget/CountdownWidgetProvider.java:38-39 | days and hours count the whole hours remaining, and each is a function of that count |
| Countdown.BreakDownSameSecond | app/src/main/java/com/example/clock/DetailActivity.java:80-83 | two remaining times have equal breakdowns exactly when they agree to the second |
| Countdown.BreakDownSameMinute | app/src/main/java/com/example/clock/adapter/EventAdapter.java:83-85 | days, hours and minutes agree exactly when the whole minutes remaining agree |
| Countdown.BreakDownSameHour | app/src/main/java/com/example/clock/widget/CountdownWidgetProvider.java:38-39 | days and hours agree exactly when the whole hours remaining agree |
| Decimal.NatToString | app/src/main/java/com/example/clock/widget/CountdownWidgetProvider.java:76 | the decimal text is non-empty digits, a single digit exactly below 10, and has no leading zero |
| Decimal.IntToString | app/src/main/java/com/example/clock/widget/CountdownWidgetProvider.java:76 | the text is non-empty, starts with '-' exactly for negative numbers, and is all digits otherwise |
| Decimal.Pad2 | app/src/main/java/com/example/clock/DetailActivity.java:85-88 | `%02d`: digits whose value is the number, at least two of them, exactly two below 100, and no leading zero from 10 on, which fixes the text |
| Decimal.NatToStringRoundTrip | app/src/main/java/com/example/clock/widget/CountdownWidgetProvider.java:76 | the decimal text of a natural number reads back as that number |
| Decimal.IntToStringRoundTrip | app/src/main/java/com/example/clock/widget/CountdownWidgetProvider.java:76 | the decimal text of an integer reads back as that integer |
| Decimal.IntToStringInjective | app/src/main/java/com/example/clock/widget/CountdownWidgetProvider.java:76 | different integers have different decimal texts |
| DetailScreen.UpdateTimer | app/src/main/java/com/example/clock/DetailActivity.java:70-90 | all four fields are "00" once the event has passed; every field is digits, the days at least two and the others exactly two |
| DetailScreen.UpdateTimerAhead | app/src/main/java/com/example/clock/DetailActivity.java:79-88 | while the event is ahead, the fields are the padded breakdown of the remaining time |
| DetailScreen.UpdateTimerReadsBack | app/src/main/java/com/example/clock/DetailActivity.java:70-90 | the fields read back as all zeros after the event, and as the breakdown of the remaining time before it |
| DetailScreen.UpdateTimerAtZero | app/src/main/java/com/example/clock/DetailActivity.java:73-83 | at the moment of the event the ahead branch is taken and shows all zeros, the same as a moment later |
| DetailScreen.UpdateTimerSameSecond | app/src/main/java/com/example/clock/DetailActivity.java:80-88 | while the event is ahead, two moments show the same fields exactly when the remaining times agree to the second |
| EventList.CountdownText | app/src/main/java/com/example/clock/adapter/EventAdapter.java:78-86 | "Done" once the event has passed; otherwise a text of at least 11 characters ending in 'm' |
| EventList.CountdownTextReadsBack | app/src/main/java/com/example/clock/adapter/EventAdapter.java:78-86 | "Done" reads back as nothing; otherwise the text reads back as the days, the hour of the day and the minute of the hour |
| EventList.ParseCountdownLayout | app/src/main/java/com/example/clock/adapter/EventAdapter.java:82-86 | any padded digits laid out as "DDd HHh MMm" read back as their values |
| EventList.CountdownTextSameMinute | app/src/main/java/com/example/clock/adapter/EventAdapter.java:78-86 | two remaining times show the same text exactly when both are past, or both are ahead by the same number of whole minutes |
| EventList.Bind | app/src/main/java/com/example/clock/adapter/EventAdapter.java:75-98 | the row shows the event's name and the countdown text of the remaining time, which is "Done" exactly when the event is before now |
| EventList.EventAdapter.constructor | app/src/main/java/com/example/clock/adapter/EventAdapter.java:21 | a new adapter shows no events |
| EventList.EventAdapter.SetEvents | app/src/main/java/com/example/clock/adapter/EventAdapter.java:32-35 | the adapter shows exactly the given list, and the item count is its length |
| EventList.EventAdapter.GetItemCount | app/src/main/java/com/example/clock/adapter/EventAdapter.java:51-53 | the item count is the length of the list shown |
| EventList.EventAdapter.OnBindViewHolder | app/src/main/java/com/example/clock/adapter/EventAdapter.java:45-53 | for a position below the item count, the row shows the name and countdown of the event at that position |
| History.PastEvents | app/src/main/java/com/example/clock/HistoryActivity.java:57-61 | the history is no longer than the list |
| History.PastEventsExactly | app/src/main/java/com/example/clock/HistoryActivity.java:57-61 | the history holds exactly the events at or before now, each as often as the list does, and nothing else |
| History.PastEventsSnoc | app/src/main/java/com/example/clock/HistoryActivity.java:57-61 | one more event in the list appends it to the history exactly when it is past |
| History.PastEventsKeepsOrder | app/src/main/java/com/example/clock/HistoryActivity.java:53-61 | a list sorted by time gives a history sorted by time |
| History.DueNowIsPast | app/src/main/java/com/example/clock/HistoryActivity.java:58 | an event due exactly now is in the history |
| History.CollectPastEvents | app/src/main/java/com/example/clock/HistoryActivity.java:54-61 | the loop collects exactly the filtered list, in order |
| History.LoadHistoryEvents | app/src/main/java/com/example/clock/HistoryActivity.java:52-63 | the adapter shows the past events of the repository's sorted list, and that list is sorted by time |
| Widget.WidgetKey | app/src/main/java/com/example/clock/widget/CountdownWidgetProvider.java:76 | the entry is "appwidget_" followed by text that reads back as the widget id |
| Widget.WidgetKeyDistinct | app/src/main/java/com/example/clock/widget/CountdownWidgetProvider.java:76 | two widgets share an entry exactly when they are the same widget, and no widget's entry is the global one |
| Widget.LoadEventPref | app/src/main/java/com/example/clock/widget/CountdownWidgetProvider.java:88-98 | the widget's own entry when present, otherwise the global entry, otherwise nothing |
| Widget.SaveThenLoad | app/src/main/java/com/example/clock/widget/CountdownWidgetProvider.java:72-98 | saving an event for a widget and loading it back gives that event |
| Widget.SaveKeepsOtherWidgets | app/src/main/java/com/example/clock/widget/CountdownWidgetProvider.java:72-98 | saving for one widget does not change what any other widget loads |
| Widget.DeleteKeepsOthers | app/src/main/java/com/example/clock/widget/CountdownWidgetProvider.java:81-98 | deleting a widget's entry leaves other widgets' loads and the global entry unchanged; that widget falls back to the global entry |
| Widget.WidgetTimeText | app/src/main/java/com/example/clock/widget/CountdownWidgetProvider.java:31-47 | "Done" once passed; a text ending in 'h' with a day or more to go; a 7-character text ending in 'm' within the last day |
| Widget.ParseDaysHoursLayout | app/src/main/java/com/example/clock/widget/CountdownWidgetProvider.java:43-44 | padded digits laid out as "DDd HHh" read back as days and hours |
| Widget.ParseHoursMinutesLayout | app/src/main/java/com/example/clock/widget/CountdownWidgetProvider.java:45-46 | two-digit fields laid out as "HHh MMm" read back as hours and minutes |
| Widget.WidgetTimeTextReadsBack | app/src/main/java/com/example/clock/widget/CountdownWidgetProvider.java:31-47 | "Done" reads back as nothing; with days > 0 the text reads back as days and hour of the day, otherwise as hour and minute |
| Widget.WidgetTimeTextSameHour | app/src/main/java/com/example/clock/widget/CountdownWidgetProvider.java:43-44 | a day or more ahead, two remaining times show the same text exactly when they agree to the hour |
| Widget.WidgetTimeTextSameMinute | app/src/main/java/com/example/clock/widget/CountdownWidgetProvider.java:45-46 | within the last day, two remaining times show the same text exactly when they agree to the minute |
| Widget.WidgetKeysMembers | app/src/main/java/com/example/clock/widget/CountdownWidgetProvider.java:100-105 | a widget's entry is among the deleted entries exactly when the widget is listed; the global entry never is |
| Widget.DeletedWidgetsKeepOthers | app/src/main/java/com/example/clock/widget/CountdownWidgetProvider.java:100-105 | after onDeleted, every widget not listed loads what it loaded before |
| Widget.RemoveOneMore | app/src/main/java/com/example/clock/widget/CountdownWidgetProvider.java:102-104 | one more pass of the onDeleted loop removes the entries of a prefix one longer |
| Widget.UpdateAppWidget | app/src/main/java/com/example/clock/widget/CountdownWidgetProvider.java:25-62 | "No Event" and "--" when nothing is stored for the widget; otherwise the event's name and the widget time text of the remaining time, which is "Done" exactly when the event is before now |
| Widget.WidgetPreferences.constructor | app/src/main/java/com/example/clock/widget/CountdownWidgetProvider.java:72-78 | the store starts with the given entries |
| Widget.WidgetPreferences.SaveEventPref | app/src/main/java/com/example/clock/widget/CountdownWidgetProvider.java:72-78 | only the widget's own entry changes, and loading it gives the saved event |
| Widget.WidgetPreferences.DeleteEventPref | app/src/main/java/com/example/clock/widget/CountdownWidgetProvider.java:81-85 | only the widget's own entry is removed |
| Widget.WidgetPreferences.OnDeleted | app/src/main/java/com/example/clock/widget/CountdownWidgetProvider.java:100-105 | exactly the entries of the listed widgets are removed |
| Notifications.SlotKey | app/src/main/java/com/example/clock/utils/NotificationScheduler.java:54 | the slot is "event://" followed by exactly the event id |
| Notifications.TriggerTime | app/src/main/java/com/example/clock/utils/NotificationScheduler.java:62 | the reminder is due exactly ten minutes, 600 000 ms, before the event |
| Notifications.SlotKeyInjective | app/src/main/java/com/example/clock/utils/NotificationScheduler.java:54 | two events share an alarm slot exactly when they have the same id |
| Notifications.Schedule | app/src/main/java/com/example/clock/utils/NotificationScheduler.java:47-74 | with the trigger time 600 000 ms before the event and ahead of now, the slot holds a reminder for it with the event's id, name and place; otherwise no slot is added and an existing one keeps its trigger time with new details; other slots are unchanged |
| Notifications.Cancel | app/src/main/java/com/example/clock/utils/NotificationScheduler.java:77-91 | only the event's slot is removed, and nothing happens when it is not set |
| Notifications.ScheduledReminderIsAhead | app/src/main/java/com/example/clock/utils/NotificationScheduler.java:62-64 | a scheduled reminder fires after now and exactly ten minutes before the event, carrying its id, name and place |
| Notifications.CancelUndoesSchedule | app/src/main/java/com/example/clock/utils/NotificationScheduler.java:54-79 | scheduling then cancelling an event leaves the table as cancelling alone does, since both address the same slot |
| Notifications.OtherSlotsUntouched | app/src/main/java/com/example/clock/utils/NotificationScheduler.java:54-79 | scheduling or cancelling one event never adds, removes or changes another event's slot |
| Notifications.LateRescheduleKeepsTrigger | app/src/main/java/com/example/clock/utils/NotificationScheduler.java:56-64 | when the trigger time is not ahead, no slot is added and an existing alarm keeps its trigger time |
| Notifications.AlarmManager.constructor | app/src/main/java/com/example/clock/utils/NotificationScheduler.java:33-34 | the alarm table starts as given |
| Notifications.AlarmManager.ScheduleNotification | app/src/main/java/com/example/clock/utils/NotificationScheduler.java:33-75 | the alarm table becomes the scheduled table |
| Notifications.AlarmManager.CancelNotification | app/src/main/java/com/example/clock/utils/NotificationScheduler.java:77-91 | the alarm table becomes the cancelled table |
| AddEvent.TrimStartIndex | app/src/main/java/com/example/clock/AddEventActivity.java:130-131 | skips exactly the leading characters at or below the space |
| AddEvent.TrimEndIndex | app/src/main/java/com/example/clock/AddEventActivity.java:130-131 | skips exactly the trailing characters at or below the space |
| AddEvent.Trim | app/src/main/java/com/example/clock/AddEventActivity.java:130-131 | a slice of the input with only characters at or below the space cut from either end, starting and ending above the space; empty exactly when the input has nothing else |
| AddEvent.TrimIdempotent | app/src/main/java/com/example/clock/AddEventActivity.java:130-131 | trimming twice is trimming once |
| AddEvent.SaveEvent | app/src/main/java/com/example/clock/AddEventActivity.java:129-155 | an empty trimmed name changes nothing; otherwise the saved event keeps the edited id or takes the fresh one, has the trimmed name and place and the selected time, and is upserted and scheduled; an edit keeps the count and a creation adds one |
| Theme.ToJavaInt | app/src/main/java/com/example/clock/utils/ThemeHelper.java:16 | a 32-bit colour value as the Java int it reads as, which agrees with it modulo 2^32 |
| Theme.GetAccentColor | app/src/main/java/com/example/clock/utils/ThemeHelper.java:23-26 | the saved colour, or the default when none is saved |
| Theme.GetPresetColors | app/src/main/java/com/example/clock/utils/ThemeHelper.java:32-44 | nine distinct opaque colours, the default first |
| Theme.ThemePreferences.constructor | app/src/main/java/com/example/clock/utils/ThemeHelper.java:18-26 | the store starts with the given entries |
| Theme.ThemePreferences.SaveAccentColor | app/src/main/java/com/example/clock/utils/ThemeHelper.java:18-21 | only the accent entry changes, and reading it gives the colour |
| Theme.ThemePreferences.ResetToDefault | app/src/main/java/com/example/clock/utils/ThemeHelper.java:28-30 | the accent entry becomes the default, and reading it gives the default |

## Left out

- utils/CalendarUtils.java is not part of this model. It queries and writes the system calendar through a content resolver.
- receiver/NotificationReceiver.java is not part of this model. It only builds the notification.
- utils/ColorWheelView.java is not part of this model. It is floating-point colour-wheel geometry and drawing.
- MainActivity.java is not part of this model. It is UI wiring only.
- The one-second Handler refresh of the detail screen and the widgets' `onUpdate` loop are not modelled. Only the function each of them calls is modelled.
- Screen setup (`onCreate`, view lookup, click listeners, `finish()`, `onCreateViewHolder`) is not modelled. Nor are date strings formatted with `SimpleDateFormat`, or the date and time pickers filling a `Calendar`. The selected time is a parameter.
- Gson serialisation is treated as the identity. The stored entry is the list itself, and the JSON text is not modelled.
- SharedPreferences and AlarmManager are maps. Asynchronous `apply()` and the power-saving differences between `setExact` and `setExactAndAllowWhileIdle` are not modelled.
- Of PendingIntent, only two things are modelled: slot identity by the "event://" URI, and FLAG_UPDATE_CURRENT replacing the extras.
- The Android version checks, the exact-alarm permission check and the caught SecurityException are not modelled. Scheduling is modelled as if it always succeeds.
- `createNotificationChannel` is not modelled.
- `System.currentTimeMillis` is the parameter `now`, and `UUID.randomUUID` is the parameter `freshId`.
- Java `long` arithmetic is modelled with unbounded integers. Overflow of `timestamp - now` is not modelled.
- `String.format("%02d")` is modelled with ASCII digits. Locale-specific digits are not modelled.
- `Color.parseColor` is not modelled. The preset colours are the int constants it yields for the literals in the source.
- Object aliasing is not modelled. In the source, `addEvent` puts the caller's object into the list, while the model stores its value. Since the list is serialised straight away, the stored data is the same.
- The Event getters are not separate members. `Events.Event.Snapshot` returns the values they report.
- History.PastEvents: its own contract states only the length bound. What it selects is stated by `History.PastEventsExactly` and `History.PastEventsKeepsOrder`.
- EventList.CountdownText, Widget.WidgetTimeText and DetailScreen.UpdateTimer: their own contracts state only the shape of the text. The values shown are stated by their "reads back" lemmas.
- AddEvent.SaveEvent: the copy into the system calendar after scheduling (AddEventActivity.java lines 146 and 151) is not modelled, and neither is closing the screen.
