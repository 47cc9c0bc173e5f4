/**
 * The home-screen widget (widget/CountdownWidgetProvider.java): which event
 * a widget shows, kept in the "widget_prefs" store under a key per widget
 * with a global fallback, and the text it shows for that event.
 */
module Widget {
  import opened Wrappers
  import opened Decimal
  import opened Countdown
  import opened Events

  const PrefPrefixKey: string := "appwidget_"
  const GlobalWidgetKey: string := "global_widget_event"

  /** The store entry of widget `appWidgetId`: the prefix followed by the id in decimal. */
  function WidgetKey(appWidgetId: int): (k: string)
    ensures |k| > |PrefPrefixKey| && k[..|PrefPrefixKey|] == PrefPrefixKey
    ensures ParseInt(k[|PrefPrefixKey|..]) == appWidgetId
  {
    IntToStringRoundTrip(appWidgetId);
    assert (PrefPrefixKey + IntToString(appWidgetId))[|PrefPrefixKey|..] == IntToString(appWidgetId);
    PrefPrefixKey + IntToString(appWidgetId)
  }

  /** Different widgets use different entries, and none of them is the global one. */
  lemma WidgetKeyDistinct(a: int, b: int)
    ensures WidgetKey(a) == WidgetKey(b) <==> a == b
    ensures WidgetKey(a) != GlobalWidgetKey
  {
    if WidgetKey(a) == WidgetKey(b) {
      assert IntToString(a) == WidgetKey(a)[|PrefPrefixKey|..];
      assert IntToString(b) == WidgetKey(b)[|PrefPrefixKey|..];
      IntToStringInjective(a, b);
    }
    assert WidgetKey(a)[0] != GlobalWidgetKey[0];
  }

  /** `loadEventPref`: the widget's own entry, else the global entry, else none. */
  function LoadEventPref(prefs: map<string, EventData>, appWidgetId: int): (r: Option<EventData>)
    ensures r.None? <==> WidgetKey(appWidgetId) !in prefs && GlobalWidgetKey !in prefs
    ensures WidgetKey(appWidgetId) in prefs ==> r == Some(prefs[WidgetKey(appWidgetId)])
    ensures WidgetKey(appWidgetId) !in prefs && GlobalWidgetKey in prefs ==> r == Some(prefs[GlobalWidgetKey])
  {
    var key := WidgetKey(appWidgetId);
    if key in prefs then Some(prefs[key])
    else if GlobalWidgetKey in prefs then Some(prefs[GlobalWidgetKey])
    else None
  }

  /** Saving an event for a widget and loading it back gives that event. */
  lemma SaveThenLoad(prefs: map<string, EventData>, appWidgetId: int, e: EventData)
    ensures LoadEventPref(prefs[WidgetKey(appWidgetId) := e], appWidgetId) == Some(e)
  {
  }

  /** Saving for one widget does not change what another widget loads. */
  lemma SaveKeepsOtherWidgets(prefs: map<string, EventData>, appWidgetId: int, other: int, e: EventData)
    requires other != appWidgetId
    ensures LoadEventPref(prefs[WidgetKey(appWidgetId) := e], other) == LoadEventPref(prefs, other)
  {
    WidgetKeyDistinct(appWidgetId, other);
    WidgetKeyDistinct(other, appWidgetId);
  }

  /**
   * Deleting a widget's entry leaves every other widget's entry and the
   * global entry as they were; the widget itself falls back to the global entry.
   */
  lemma DeleteKeepsOthers(prefs: map<string, EventData>, appWidgetId: int, other: int)
    ensures var after := prefs - {WidgetKey(appWidgetId)};
      && (other != appWidgetId ==> LoadEventPref(after, other) == LoadEventPref(prefs, other))
      && (GlobalWidgetKey in after <==> GlobalWidgetKey in prefs)
      && LoadEventPref(after, appWidgetId)
         == (if GlobalWidgetKey in prefs then Some(prefs[GlobalWidgetKey]) else None)
  {
    var after := prefs - {WidgetKey(appWidgetId)};
    WidgetKeyDistinct(appWidgetId, other);
    if other != appWidgetId {
      assert WidgetKey(other) in after <==> WidgetKey(other) in prefs;
    }
    assert GlobalWidgetKey in after <==> GlobalWidgetKey in prefs;
  }

  /** The time text of a widget whose event is `diff` milliseconds away. */
  function WidgetTimeText(diff: int): (t: string)
    ensures diff < 0 ==> t == "Done"
    ensures diff >= 0 && diff / MillisPerDay > 0 ==> |t| >= 7 && t[|t| - 1] == 'h'
    ensures diff >= 0 && diff / MillisPerDay == 0 ==> |t| == 7 && t[|t| - 1] == 'm'
  {
    if diff < 0 then
      "Done"
    else
      var p := BreakDown(diff);
      if p.days > 0 then
        Pad2(p.days) + "d " + Pad2(p.hours) + "h"
      else
        Pad2(p.hours) + "h " + Pad2(p.minutes) + "m"
  }

  /** What a widget time text shows: days and hours, or hours and minutes. */
  datatype ShownTime = DaysHours(days: nat, hours: nat) | HoursMinutes(hours: nat, minutes: nat)

  /** Reads a widget time text, "DDd HHh" or "HHh MMm", back into the values it shows. */
  function ParseWidgetTimeText(t: string): Option<ShownTime>
  {
    var n := |t|;
    if n >= 7 && IsDigits(t[..n - 5]) && t[n - 5..n - 3] == "d " && IsDigits(t[n - 3..n - 1]) && t[n - 1..] == "h" then
      Some(DaysHours(DigitsValue(t[..n - 5]), DigitsValue(t[n - 3..n - 1])))
    else if n == 7 && IsDigits(t[..2]) && t[2..4] == "h " && IsDigits(t[4..6]) && t[6..] == "m" then
      Some(HoursMinutes(DigitsValue(t[..2]), DigitsValue(t[4..6])))
    else
      None
  }

  /** Any digits laid out as "<a>d <b>h" read back as days and hours. */
  lemma ParseDaysHoursLayout(a: string, b: string)
    requires IsDigits(a) && IsDigits(b) && |a| >= 2 && |b| == 2
    ensures ParseWidgetTimeText(a + "d " + b + "h") == Some(DaysHours(DigitsValue(a), DigitsValue(b)))
  {
    TwoFieldLayout(a, "d ", b, "h");
  }

  /** Two digits and two digits laid out as "<a>h <b>m" read back as hours and minutes. */
  lemma ParseHoursMinutesLayout(a: string, b: string)
    requires IsDigits(a) && IsDigits(b) && |a| == 2 && |b| == 2
    ensures ParseWidgetTimeText(a + "h " + b + "m") == Some(HoursMinutes(DigitsValue(a), DigitsValue(b)))
  {
    TwoFieldLayout(a, "h ", b, "m");
    var t := a + "h " + b + "m";
    assert t[|t| - 1..] != "h" by { assert t[|t| - 1] == 'm'; }
  }

  /**
   * With a day or more to go the text reads back as the days and the hour
   * of the day; with less than a day, as the hour and the minute; "Done"
   * reads back as nothing.
   */
  lemma WidgetTimeTextReadsBack(diff: int)
    ensures diff < 0 ==> ParseWidgetTimeText(WidgetTimeText(diff)).None?
    ensures diff >= 0 ==>
      var p := BreakDown(diff);
      ParseWidgetTimeText(WidgetTimeText(diff))
        == if p.days > 0 then Some(DaysHours(p.days, p.hours)) else Some(HoursMinutes(p.hours, p.minutes))
  {
    if diff >= 0 {
      var p := BreakDown(diff);
      if p.days > 0 {
        ParseDaysHoursLayout(Pad2(p.days), Pad2(p.hours));
      } else {
        ParseHoursMinutesLayout(Pad2(p.hours), Pad2(p.minutes));
      }
    }
  }

  /**
   * While the event is a day or more away, two remaining times show the same
   * text exactly when they agree to the hour: the minutes are not shown.
   */
  lemma WidgetTimeTextSameHour(d1: int, d2: int)
    requires d1 >= 0 && d2 >= 0 && d1 / MillisPerDay > 0
    ensures WidgetTimeText(d1) == WidgetTimeText(d2) <==> d1 / MillisPerHour == d2 / MillisPerHour
  {
    BreakDownSameHour(d1, d2);
    WidgetTimeTextReadsBack(d1);
    WidgetTimeTextReadsBack(d2);
  }

  /**
   * Within the last day, two remaining times show the same text exactly when
   * they agree to the minute.
   */
  lemma WidgetTimeTextSameMinute(d1: int, d2: int)
    requires d1 >= 0 && d2 >= 0 && d1 / MillisPerDay == 0
    ensures WidgetTimeText(d1) == WidgetTimeText(d2) <==> d1 / MillisPerMinute == d2 / MillisPerMinute
  {
    BreakDownSameMinute(d1, d2);
    WidgetTimeTextReadsBack(d1);
    WidgetTimeTextReadsBack(d2);
  }

  /** The store entries of the listed widgets. */
  function WidgetKeys(appWidgetIds: seq<int>): set<string>
  {
    if appWidgetIds == [] then {}
    else WidgetKeys(appWidgetIds[..|appWidgetIds| - 1]) + {WidgetKey(appWidgetIds[|appWidgetIds| - 1])}
  }

  /** Removing the entries of one more listed widget is removing the entries of a longer prefix. */
  lemma RemoveOneMore(prefs: map<string, EventData>, appWidgetIds: seq<int>, i: nat)
    requires i < |appWidgetIds|
    ensures (prefs - WidgetKeys(appWidgetIds[..i])) - {WidgetKey(appWidgetIds[i])}
      == prefs - WidgetKeys(appWidgetIds[..i + 1])
  {
    assert appWidgetIds[..i + 1][..i] == appWidgetIds[..i];
  }

  /** An entry is among the listed widgets' entries exactly when it belongs to a listed widget. */
  lemma {:induction false} WidgetKeysMembers(appWidgetIds: seq<int>, id: int)
    ensures WidgetKey(id) in WidgetKeys(appWidgetIds) <==> id in appWidgetIds
    ensures GlobalWidgetKey !in WidgetKeys(appWidgetIds)
  {
    if appWidgetIds != [] {
      var init, last := appWidgetIds[..|appWidgetIds| - 1], appWidgetIds[|appWidgetIds| - 1];
      assert appWidgetIds == init + [last];
      WidgetKeysMembers(init, id);
      WidgetKeyDistinct(id, last);
      WidgetKeyDistinct(last, id);
    }
  }

  /**
   * After widgets are deleted, every widget not among them loads what it
   * loaded before.
   */
  lemma DeletedWidgetsKeepOthers(prefs: map<string, EventData>, appWidgetIds: seq<int>, other: int)
    requires other !in appWidgetIds
    ensures LoadEventPref(prefs - WidgetKeys(appWidgetIds), other) == LoadEventPref(prefs, other)
  {
    WidgetKeysMembers(appWidgetIds, other);
  }

  /** What a widget shows: the event name line and the main time line. */
  datatype WidgetView = WidgetView(eventName: string, timeMain: string)

  /** `updateAppWidget`: the view of widget `appWidgetId` when the clock reads `now`. */
  function UpdateAppWidget(prefs: map<string, EventData>, appWidgetId: int, now: int): (v: WidgetView)
    ensures LoadEventPref(prefs, appWidgetId).None? ==> v == WidgetView("No Event", "--")
    ensures LoadEventPref(prefs, appWidgetId).Some? ==>
      var e := LoadEventPref(prefs, appWidgetId).value;
      && v.eventName == e.name
      && (v.timeMain == "Done" <==> e.timestamp < now)
      && v.timeMain == WidgetTimeText(e.timestamp - now)
  {
    match LoadEventPref(prefs, appWidgetId)
    case None => WidgetView("No Event", "--")
    case Some(e) => WidgetView(e.name, WidgetTimeText(e.timestamp - now))
  }

  /** The "widget_prefs" store. */
  class WidgetPreferences {
    var prefs: map<string, EventData>

    constructor (prefs: map<string, EventData>)
      ensures this.prefs == prefs
    {
      this.prefs := prefs;
    }

    /** `saveEventPref`: the widget's own entry now holds `event`. */
    method SaveEventPref(appWidgetId: int, event: EventData)
      modifies this
      ensures prefs == old(prefs)[WidgetKey(appWidgetId) := event]
      ensures LoadEventPref(prefs, appWidgetId) == Some(event)
    {
      prefs := prefs[WidgetKey(appWidgetId) := event];
    }

    /** `deleteEventPref`: only the widget's own entry is removed. */
    method DeleteEventPref(appWidgetId: int)
      modifies this
      ensures prefs == old(prefs) - {WidgetKey(appWidgetId)}
    {
      prefs := prefs - {WidgetKey(appWidgetId)};
    }

    /** `onDeleted`: the entries of all the deleted widgets are removed, and nothing else. */
    method OnDeleted(appWidgetIds: seq<int>)
      modifies this
      ensures prefs == old(prefs) - WidgetKeys(appWidgetIds)
    {
      var i := 0;
      while i < |appWidgetIds|
        invariant 0 <= i <= |appWidgetIds|
        invariant prefs == old(prefs) - WidgetKeys(appWidgetIds[..i])
      {
        RemoveOneMore(old(prefs), appWidgetIds, i);
        DeleteEventPref(appWidgetIds[i]);
        i := i + 1;
      }
      assert appWidgetIds[..|appWidgetIds|] == appWidgetIds;
    }
  }
}
