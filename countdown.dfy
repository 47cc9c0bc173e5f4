/**
 * The time arithmetic the three countdown views share: a non-negative
 * remaining time in milliseconds split into whole days, hours of the day,
 * minutes of the hour and seconds of the minute, each computed as the source
 * does with `TimeUnit.MILLISECONDS.toX(diff) % n`.
 */
module Countdown {

  const MillisPerSecond: nat := 1000
  const MillisPerMinute: nat := 60_000
  const MillisPerHour: nat := 3_600_000
  const MillisPerDay: nat := 86_400_000

  datatype Parts = Parts(days: nat, hours: nat, minutes: nat, seconds: nat)

  /** The breakdown of a remaining time `diff >= 0`. */
  function BreakDown(diff: nat): (p: Parts)
    ensures p.days == diff / MillisPerDay
    ensures p.hours < 24 && p.minutes < 60 && p.seconds < 60
  {
    Parts(diff / 86_400_000, (diff / 3_600_000) % 24, (diff / 60_000) % 60, (diff / 1000) % 60)
  }

  /** The milliseconds a breakdown stands for. */
  function PartsMillis(p: Parts): nat {
    p.days * 86_400_000 + p.hours * 3_600_000 + p.minutes * 60_000 + p.seconds * 1000
  }

  /** The breakdown gives back the remaining time, rounded down to a whole second. */
  lemma BreakDownReconstructs(diff: nat)
    ensures PartsMillis(BreakDown(diff)) == diff - diff % MillisPerSecond
  {
    var s := diff / 1000;
    assert diff / 60_000 == s / 60;
    assert diff / 3_600_000 == s / 3600;
    assert diff / 86_400_000 == s / 86400;
    assert s / 3600 == (s / 60) / 60;
    assert s / 86400 == (s / 3600) / 24;
    assert s == (s / 86400) * 86400 + ((s / 3600) % 24) * 3600 + ((s / 60) % 60) * 60 + s % 60;
  }

  /**
   * The breakdown is the only one with hours below 24, minutes and seconds
   * below 60 that stands for the remaining time to the second.
   */
  lemma BreakDownUnique(diff: nat, p: Parts)
    requires p.hours < 24 && p.minutes < 60 && p.seconds < 60
    requires PartsMillis(p) == diff - diff % MillisPerSecond
    ensures p == BreakDown(diff)
  {
    var s := diff / 1000;
    assert s == p.days * 86400 + p.hours * 3600 + p.minutes * 60 + p.seconds;
    assert diff / 60_000 == s / 60;
    assert diff / 3_600_000 == s / 3600;
    assert diff / 86_400_000 == s / 86400;
    assert s / 60 == p.days * 1440 + p.hours * 60 + p.minutes;
    assert s / 3600 == p.days * 24 + p.hours;
    assert s / 86400 == p.days;
  }

  /**
   * Days, hours and minutes together count the whole minutes remaining, and
   * each of them is a function of that count.
   */
  lemma BreakDownMinutes(diff: nat)
    ensures var p, m := BreakDown(diff), diff / MillisPerMinute;
      && p.days * 1440 + p.hours * 60 + p.minutes == m
      && p.days == m / 1440 && p.hours == (m / 60) % 24 && p.minutes == m % 60
  {
    var m := diff / 60_000;
    assert diff / 3_600_000 == m / 60;
    assert diff / 86_400_000 == m / 1440;
    assert m / 1440 == (m / 60) / 24;
  }

  /** Days and hours together count the whole hours remaining, and each is a function of that count. */
  lemma BreakDownHours(diff: nat)
    ensures var p, h := BreakDown(diff), diff / MillisPerHour;
      p.days * 24 + p.hours == h && p.days == h / 24 && p.hours == h % 24
  {
    var h := diff / 3_600_000;
    assert diff / 86_400_000 == h / 24;
  }

  /** Two remaining times have the same breakdown exactly when they agree to the second. */
  lemma BreakDownSameSecond(d1: nat, d2: nat)
    ensures BreakDown(d1) == BreakDown(d2) <==> d1 / MillisPerSecond == d2 / MillisPerSecond
  {
    BreakDownReconstructs(d1);
    BreakDownReconstructs(d2);
    if d1 / 1000 == d2 / 1000 {
      assert d1 - d1 % 1000 == d2 - d2 % 1000;
      BreakDownUnique(d2, BreakDown(d1));
    }
  }

  /** Days, hours and minutes agree exactly when the whole minutes remaining agree. */
  lemma BreakDownSameMinute(d1: nat, d2: nat)
    ensures var p1, p2 := BreakDown(d1), BreakDown(d2);
      (p1.days == p2.days && p1.hours == p2.hours && p1.minutes == p2.minutes)
      <==> d1 / MillisPerMinute == d2 / MillisPerMinute
  {
    BreakDownMinutes(d1);
    BreakDownMinutes(d2);
    var p1, p2 := BreakDown(d1), BreakDown(d2);
    var m1, m2 := d1 / MillisPerMinute, d2 / MillisPerMinute;
    if p1.days == p2.days && p1.hours == p2.hours && p1.minutes == p2.minutes {
      assert m1 == p1.days * 1440 + p1.hours * 60 + p1.minutes;
      assert m2 == p2.days * 1440 + p2.hours * 60 + p2.minutes;
    }
  }

  /** Days and hours agree exactly when the whole hours remaining agree. */
  lemma BreakDownSameHour(d1: nat, d2: nat)
    ensures var p1, p2 := BreakDown(d1), BreakDown(d2);
      (p1.days == p2.days && p1.hours == p2.hours) <==> d1 / MillisPerHour == d2 / MillisPerHour
  {
    BreakDownHours(d1);
    BreakDownHours(d2);
    var p1, p2 := BreakDown(d1), BreakDown(d2);
    if p1.days == p2.days && p1.hours == p2.hours {
      assert d1 / MillisPerHour == p1.days * 24 + p1.hours;
      assert d2 / MillisPerHour == p2.days * 24 + p2.hours;
    }
  }
}
