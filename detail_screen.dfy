/**
 * The countdown of the detail screen (DetailActivity.updateTimer): four
 * text fields for days, hours, minutes and seconds. The one-second refresh
 * loop that calls it is not part of this model; the current time is a
 * parameter.
 */
module DetailScreen {
  import opened Wrappers
  import opened Decimal
  import opened Countdown

  datatype Fields = Fields(days: string, hours: string, minutes: string, seconds: string)

  /** The four fields shown for an event at `timestamp` when the clock reads `now`. */
  function UpdateTimer(timestamp: int, now: int): (f: Fields)
    ensures timestamp - now < 0 ==> f == Fields("00", "00", "00", "00")
    ensures IsDigits(f.days) && IsDigits(f.hours) && IsDigits(f.minutes) && IsDigits(f.seconds)
    ensures |f.days| >= 2 && |f.hours| == 2 && |f.minutes| == 2 && |f.seconds| == 2
  {
    var diff := timestamp - now;
    if diff < 0 then
      Fields("00", "00", "00", "00")
    else
      PartsFields(BreakDown(diff))
  }

  /** Each part of a breakdown written with at least two digits. */
  function PartsFields(p: Parts): Fields {
    Fields(Pad2(p.days), Pad2(p.hours), Pad2(p.minutes), Pad2(p.seconds))
  }

  /** Reads the four fields back into the breakdown they show. */
  function ParseFields(f: Fields): Option<Parts> {
    if IsDigits(f.days) && IsDigits(f.hours) && IsDigits(f.minutes) && IsDigits(f.seconds) then
      Some(Parts(DigitsValue(f.days), DigitsValue(f.hours), DigitsValue(f.minutes), DigitsValue(f.seconds)))
    else
      None
  }

  /** While the event is ahead, the fields are the breakdown of the remaining time. */
  lemma UpdateTimerAhead(timestamp: int, now: int)
    requires timestamp - now >= 0
    ensures UpdateTimer(timestamp, now) == PartsFields(BreakDown(timestamp - now))
  {
  }

  /**
   * The fields read back as the breakdown of the remaining time (whole days,
   * an hour below 24, a minute and a second below 60), and as all zeros once
   * the event has passed.
   */
  lemma UpdateTimerReadsBack(timestamp: int, now: int)
    ensures timestamp - now < 0 ==> ParseFields(UpdateTimer(timestamp, now)) == Some(Parts(0, 0, 0, 0))
    ensures timestamp - now >= 0 ==> ParseFields(UpdateTimer(timestamp, now)) == Some(BreakDown(timestamp - now))
  {
    if timestamp - now < 0 {
      assert DigitsValue("00") == 0 by { assert "00"[..1] == "0" && "0"[..0] == []; }
    } else {
      UpdateTimerAhead(timestamp, now);
    }
  }

  /** At the moment of the event the screen shows all zeros, as it does afterwards. */
  lemma UpdateTimerAtZero(timestamp: int)
    ensures UpdateTimer(timestamp, timestamp) == Fields("00", "00", "00", "00")
    ensures UpdateTimer(timestamp, timestamp) == UpdateTimer(timestamp, timestamp + 1)
  {
    assert Pad2(0) == "00";
  }

  /**
   * While the event is ahead, two moments show the same fields exactly when
   * the remaining times agree to the second.
   */
  lemma UpdateTimerSameSecond(timestamp: int, now1: int, now2: int)
    requires timestamp - now1 >= 0 && timestamp - now2 >= 0
    ensures UpdateTimer(timestamp, now1) == UpdateTimer(timestamp, now2)
      <==> (timestamp - now1) / MillisPerSecond == (timestamp - now2) / MillisPerSecond
  {
    BreakDownSameSecond(timestamp - now1, timestamp - now2);
    UpdateTimerReadsBack(timestamp, now1);
    UpdateTimerReadsBack(timestamp, now2);
    UpdateTimerAhead(timestamp, now1);
    UpdateTimerAhead(timestamp, now2);
  }
}
