/**
 * The list of events on the main and history screens
 * (adapter/EventAdapter.java): the list the adapter shows, and the countdown
 * text of one row, "DDd HHh MMm" or "Done".
 */
module EventList {
  import opened Wrappers
  import opened Decimal
  import opened Countdown
  import opened Events

  /** The countdown text of a row whose event is `diff` milliseconds away. */
  function CountdownText(diff: int): (t: string)
    ensures diff < 0 ==> t == "Done"
    ensures diff >= 0 ==> |t| >= 11 && t[|t| - 1] == 'm'
  {
    if diff < 0 then
      "Done"
    else
      var p := BreakDown(diff);
      Pad2(p.days) + "d " + Pad2(p.hours) + "h " + Pad2(p.minutes) + "m"
  }

  /** Reads a countdown text "DDd HHh MMm" back into its days, hours and minutes. */
  function ParseCountdownText(t: string): Option<(nat, nat, nat)>
  {
    var n := |t|;
    if && n >= 11
       && IsDigits(t[..n - 9]) && t[n - 9..n - 7] == "d "
       && IsDigits(t[n - 7..n - 5]) && t[n - 5..n - 3] == "h "
       && IsDigits(t[n - 3..n - 1]) && t[n - 1..] == "m"
    then Some((DigitsValue(t[..n - 9]), DigitsValue(t[n - 7..n - 5]), DigitsValue(t[n - 3..n - 1])))
    else None
  }

  /**
   * The text of an event still ahead reads back as its whole days, hours of
   * the day and minutes of the hour (the seconds are not shown); "Done"
   * reads back as nothing.
   */
  lemma CountdownTextReadsBack(diff: int)
    ensures diff < 0 ==> ParseCountdownText(CountdownText(diff)).None?
    ensures diff >= 0 ==>
      var p := BreakDown(diff);
      ParseCountdownText(CountdownText(diff)) == Some((p.days, p.hours, p.minutes))
  {
    if diff >= 0 {
      var p := BreakDown(diff);
      ParseCountdownLayout(Pad2(p.days), Pad2(p.hours), Pad2(p.minutes));
    }
  }

  /** Any digits laid out as "<a>d <b>h <c>m" read back as their values. */
  lemma ParseCountdownLayout(a: string, b: string, c: string)
    requires IsDigits(a) && IsDigits(b) && IsDigits(c)
    requires |a| >= 2 && |b| == 2 && |c| == 2
    ensures ParseCountdownText(a + "d " + b + "h " + c + "m")
      == Some((DigitsValue(a), DigitsValue(b), DigitsValue(c)))
  {
    ThreeFieldLayout(a, "d ", b, "h ", c, "m");
  }

  /**
   * Two remaining times show the same text exactly when both are past, or
   * both are ahead by the same number of whole minutes.
   */
  lemma CountdownTextSameMinute(d1: int, d2: int)
    ensures CountdownText(d1) == CountdownText(d2)
      <==> (d1 < 0 && d2 < 0) || (d1 >= 0 && d2 >= 0 && d1 / MillisPerMinute == d2 / MillisPerMinute)
  {
    CountdownTextReadsBack(d1);
    CountdownTextReadsBack(d2);
    if d1 >= 0 && d2 >= 0 {
      BreakDownSameMinute(d1, d2);
    }
  }

  /** One row of the list: the event's name and its countdown. */
  datatype Row = Row(name: string, countdown: string)

  /** `EventViewHolder.bind`: what a row shows for `event` when the clock reads `now`. */
  function Bind(event: EventData, now: int): (r: Row)
    ensures r.name == event.name
    ensures r.countdown == "Done" <==> event.timestamp < now
    ensures r.countdown == CountdownText(event.timestamp - now)
  {
    Row(event.name, CountdownText(event.timestamp - now))
  }

  /** The adapter behind a list screen. */
  class EventAdapter {
    var events: seq<EventData>

    constructor ()
      ensures events == []
    {
      events := [];
    }

    /** `getItemCount`. */
    function GetItemCount(): (n: nat)
      reads this
      ensures n == |events|
    {
      |events|
    }

    /** `setEvents`: the list shown from now on; one row per event, in order. */
    method SetEvents(events: seq<EventData>)
      modifies this
      ensures this.events == events
      ensures GetItemCount() == |events|
    {
      this.events := events;
    }

    /** `onBindViewHolder`: row `position` shows the event at that position. */
    method OnBindViewHolder(position: nat, now: int) returns (row: Row)
      requires position < GetItemCount()
      ensures row.name == events[position].name
      ensures row.countdown == CountdownText(events[position].timestamp - now)
    {
      var event := events[position];
      row := Bind(event, now);
    }
  }
}
