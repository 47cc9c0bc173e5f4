/**
 * Event reminders (utils/NotificationScheduler.java). The system's alarm
 * table is a map from an alarm slot to the reminder it will deliver; a slot
 * is named by the intent's data URI "event://" + the event id, so scheduling
 * and cancelling the same event address the same slot.
 */
module Notifications {
  import opened Events

  /** A reminder fires ten minutes before its event. */
  const ReminderLeadMillis: int := 10 * 60 * 1000

  /** What a scheduled alarm delivers: its trigger time and the event's id, name and place. */
  datatype Reminder = Reminder(triggerAt: int, eventId: string, eventName: string, eventPlace: string)

  type AlarmTable = map<string, Reminder>

  const SlotScheme: string := "event://"

  /** The data URI naming the event's alarm: the scheme followed by the id. */
  function SlotKey(eventId: string): (k: string)
    ensures |k| == |SlotScheme| + |eventId|
    ensures k[..|SlotScheme|] == SlotScheme && k[|SlotScheme|..] == eventId
  {
    SlotScheme + eventId
  }

  /** Different events own different slots. */
  lemma SlotKeyInjective(a: string, b: string)
    ensures SlotKey(a) == SlotKey(b) <==> a == b
  {
    if SlotKey(a) == SlotKey(b) {
      assert a == SlotKey(a)[|SlotScheme|..];
      assert b == SlotKey(b)[|SlotScheme|..];
    }
  }

  /** The moment the reminder is due: ten minutes before the event. */
  function TriggerTime(e: EventData): (t: int)
    ensures t < e.timestamp && e.timestamp - t == ReminderLeadMillis
  {
    e.timestamp - ReminderLeadMillis
  }

  /**
   * `scheduleNotification` on the alarm table. When the trigger time is
   * still ahead the event's slot is set to a reminder for that time.
   * Otherwise no alarm is set, but the pending intent is still fetched with
   * FLAG_UPDATE_CURRENT, which replaces the extras of an alarm already in
   * the slot and keeps its trigger time.
   */
  function Schedule(alarms: AlarmTable, e: EventData, now: int): (r: AlarmTable)
    ensures r.Keys == if e.timestamp - 600_000 > now then alarms.Keys + {SlotKey(e.id)} else alarms.Keys
    ensures e.timestamp - 600_000 > now ==>
      r[SlotKey(e.id)] == Reminder(e.timestamp - 600_000, e.id, e.name, e.place)
    ensures e.timestamp - 600_000 <= now && SlotKey(e.id) in alarms ==>
      r[SlotKey(e.id)] == Reminder(alarms[SlotKey(e.id)].triggerAt, e.id, e.name, e.place)
    ensures forall k :: k in alarms && k != SlotKey(e.id) ==> r[k] == alarms[k]
  {
    var slot := SlotKey(e.id);
    if TriggerTime(e) > now then
      alarms[slot := Reminder(TriggerTime(e), e.id, e.name, e.place)]
    else if slot in alarms then
      alarms[slot := alarms[slot].(eventId := e.id, eventName := e.name, eventPlace := e.place)]
    else
      alarms
  }

  /** `cancelNotification` on the alarm table: the event's slot is emptied, if it was set. */
  function Cancel(alarms: AlarmTable, e: EventData): (r: AlarmTable)
    ensures r.Keys == alarms.Keys - {SlotKey(e.id)}
    ensures forall k :: k in r ==> r[k] == alarms[k]
  {
    if SlotKey(e.id) in alarms then alarms - {SlotKey(e.id)} else alarms
  }

  /**
   * When the moment ten minutes before the event is still ahead, the event's
   * slot holds a reminder for exactly that moment, carrying the event's id,
   * name and place.
   */
  lemma ScheduledReminderIsAhead(alarms: AlarmTable, e: EventData, now: int)
    requires e.timestamp - ReminderLeadMillis > now
    ensures SlotKey(e.id) in Schedule(alarms, e, now)
    ensures var rem := Schedule(alarms, e, now)[SlotKey(e.id)];
      rem.triggerAt > now && rem.triggerAt + ReminderLeadMillis == e.timestamp
      && rem.eventId == e.id && rem.eventName == e.name && rem.eventPlace == e.place
  {
  }

  /** Scheduling then cancelling the same event leaves the table as cancelling alone would. */
  lemma CancelUndoesSchedule(alarms: AlarmTable, e: EventData, now: int)
    ensures Cancel(Schedule(alarms, e, now), e) == Cancel(alarms, e)
  {
  }

  /** Scheduling or cancelling one event never touches another event's slot. */
  lemma OtherSlotsUntouched(alarms: AlarmTable, e: EventData, other: EventData, now: int)
    requires other.id != e.id
    ensures var k := SlotKey(other.id);
      && (k in Schedule(alarms, e, now) <==> k in alarms)
      && (k in alarms ==> Schedule(alarms, e, now)[k] == alarms[k])
      && (k in Cancel(alarms, e) <==> k in alarms)
  {
    SlotKeyInjective(e.id, other.id);
  }

  /**
   * Re-scheduling an event whose trigger time has passed sets no new alarm:
   * a reminder already in its slot keeps its old trigger time, and only the
   * event details it carries change.
   */
  lemma LateRescheduleKeepsTrigger(alarms: AlarmTable, e: EventData, now: int)
    requires e.timestamp - ReminderLeadMillis <= now
    ensures Schedule(alarms, e, now).Keys == alarms.Keys
    ensures SlotKey(e.id) in alarms ==>
      Schedule(alarms, e, now)[SlotKey(e.id)].triggerAt == alarms[SlotKey(e.id)].triggerAt
  {
  }

  /** The device's alarm table. */
  class AlarmManager {
    var alarms: AlarmTable

    constructor (alarms: AlarmTable)
      ensures this.alarms == alarms
    {
      this.alarms := alarms;
    }

    method ScheduleNotification(event: EventData, now: int)
      modifies this
      ensures alarms == Schedule(old(alarms), event, now)
    {
      var slot := SlotKey(event.id);
      var triggerTime := event.timestamp - 10 * 60 * 1000;
      if triggerTime > now {
        alarms := alarms[slot := Reminder(triggerTime, event.id, event.name, event.place)];
      } else if slot in alarms {
        alarms := alarms[slot := alarms[slot].(eventId := event.id, eventName := event.name, eventPlace := event.place)];
      }
    }

    method CancelNotification(event: EventData)
      modifies this
      ensures alarms == Cancel(old(alarms), event)
    {
      var slot := SlotKey(event.id);
      if slot in alarms {
        alarms := alarms - {slot};
      }
    }
  }
}
