/**
 * The history screen (HistoryActivity.loadHistoryEvents): the events whose
 * time has come, in the order the repository returns them.
 */
module History {
  import opened Events
  import opened Repository
  import opened EventList

  /** The events of `s` whose timestamp is at or before `now`, in their order in `s`. */
  function PastEvents(s: seq<EventData>, now: int): (r: seq<EventData>)
    ensures |r| <= |s|
  {
    if s == [] then []
    else
      var init, last := s[..|s| - 1], s[|s| - 1];
      assert s == init + [last];
      PastEvents(init, now) + (if last.timestamp <= now then [last] else [])
  }

  /**
   * The history holds exactly the events due at or before `now`, each as
   * many times as the list holds it, and no other.
   */
  lemma {:induction false} PastEventsExactly(s: seq<EventData>, now: int)
    ensures forall x :: multiset(PastEvents(s, now))[x] == if x.timestamp <= now then multiset(s)[x] else 0
    ensures forall x :: x in PastEvents(s, now) <==> x in s && x.timestamp <= now
  {
    if s != [] {
      var init, last := s[..|s| - 1], s[|s| - 1];
      assert s == init + [last];
      PastEventsExactly(init, now);
      var r := PastEvents(s, now);
      assert multiset(r) == multiset(PastEvents(init, now)) + multiset(if last.timestamp <= now then [last] else []);
      forall x
        ensures x in r <==> x in s && x.timestamp <= now
      {
        assert x in r <==> x in multiset(r);
        assert x in s <==> x in multiset(s);
      }
    }
  }

  /** Filtering a list one event longer appends that event exactly when it is past. */
  lemma PastEventsSnoc(s: seq<EventData>, e: EventData, now: int)
    ensures PastEvents(s + [e], now) == PastEvents(s, now) + (if e.timestamp <= now then [e] else [])
  {
    assert (s + [e])[..|s|] == s;
  }

  /** Filtering keeps the order, so a list sorted by time gives a history sorted by time. */
  lemma {:induction false} PastEventsKeepsOrder(s: seq<EventData>, now: int)
    requires Sorted(s)
    ensures Sorted(PastEvents(s, now))
  {
    if s != [] {
      var init, last := s[..|s| - 1], s[|s| - 1];
      assert Sorted(init);
      PastEventsKeepsOrder(init, now);
      PastEventsExactly(init, now);
      var p := PastEvents(init, now);
      forall i | 0 <= i < |p|
        ensures p[i].timestamp <= last.timestamp
      {
        assert p[i] in init;
      }
    }
  }

  /** An event due exactly now already belongs to the history. */
  lemma {:induction false} DueNowIsPast(s: seq<EventData>, e: EventData)
    requires e in s
    ensures e in PastEvents(s, e.timestamp)
  {
    PastEventsExactly(s, e.timestamp);
  }

  /** The loop of `loadHistoryEvents`: keep, in order, each event whose time is at or before `now`. */
  method CollectPastEvents(allEvents: seq<EventData>, now: int) returns (pastEvents: seq<EventData>)
    ensures pastEvents == PastEvents(allEvents, now)
  {
    pastEvents := [];
    var i := 0;
    while i < |allEvents|
      invariant 0 <= i <= |allEvents|
      invariant pastEvents == PastEvents(allEvents[..i], now)
    {
      var e := allEvents[i];
      assert allEvents[..i + 1] == allEvents[..i] + [e];
      PastEventsSnoc(allEvents[..i], e, now);
      if e.timestamp <= now {
        pastEvents := pastEvents + [e];
      }
      i := i + 1;
    }
    assert allEvents[..|allEvents|] == allEvents;
  }

  /** `loadHistoryEvents`: show the past events of the repository, in time order. */
  method LoadHistoryEvents(repository: EventRepository, adapter: EventAdapter, now: int)
    modifies adapter
    ensures adapter.events == PastEvents(SortByTime(repository.Contents()), now)
    ensures Sorted(adapter.events)
  {
    var allEvents := repository.GetEvents();
    var pastEvents := CollectPastEvents(allEvents, now);
    SortByTimeSortedPermutation(repository.Contents());
    PastEventsKeepsOrder(allEvents, now);
    adapter.SetEvents(pastEvents);
  }
}
