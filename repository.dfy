/**
 * The persisted event list (data/EventRepository.java). The "events" entry of
 * the preferences store holds the list serialised as JSON; here it holds the
 * list itself (serialising and reading back give the same list). Every read
 * sorts the list by timestamp and every write sorts it before storing.
 */
module Repository {
  import opened Wrappers
  import opened Events

  /** Ascending by timestamp. */
  predicate Sorted(s: seq<EventData>) {
    forall i, j :: 0 <= i < j < |s| ==> s[i].timestamp <= s[j].timestamp
  }

  /** Some stored event carries this id. */
  predicate HasId(s: seq<EventData>, id: string) {
    exists x :: x in s && x.id == id
  }

  /** Insert `e` before the first event that does not come before it. */
  function Insert(e: EventData, s: seq<EventData>): (r: seq<EventData>)
    ensures |r| == |s| + 1
  {
    if s == [] || e.CompareTo(s[0]) <= 0 then [e] + s
    else [s[0]] + Insert(e, s[1..])
  }

  /** An event no later than the head of a sorted list can go in front of it. */
  lemma SortedCons(x: EventData, t: seq<EventData>)
    requires Sorted(t)
    requires t != [] ==> x.timestamp <= t[0].timestamp
    ensures Sorted([x] + t)
  {
    var r := [x] + t;
    forall i, j | 0 <= i < j < |r|
      ensures r[i].timestamp <= r[j].timestamp
    {
      assert r[j] == t[j - 1];
      if i > 0 {
        assert r[i] == t[i - 1];
      }
    }
  }

  /** Inserting adds exactly `e` and keeps a sorted list sorted. */
  lemma {:induction false} InsertSortedPermutation(e: EventData, s: seq<EventData>)
    ensures multiset(Insert(e, s)) == multiset(s) + multiset{e}
    ensures Sorted(s) ==> Sorted(Insert(e, s))
  {
    if s == [] || e.CompareTo(s[0]) <= 0 {
      if Sorted(s) {
        SortedCons(e, s);
      }
    } else {
      assert s == [s[0]] + s[1..];
      var rest := Insert(e, s[1..]);
      InsertSortedPermutation(e, s[1..]);
      if Sorted(s) {
        assert Sorted(s[1..]);
        assert rest[0] == e || rest[0] == s[1];
        SortedCons(s[0], rest);
      }
    }
  }

  /**
   * `Collections.sort` with `Event.compareTo`: a stable sort by timestamp
   * (events with equal timestamps keep their order).
   */
  function SortByTime(s: seq<EventData>): (r: seq<EventData>)
    ensures |r| == |s|
  {
    if s == [] then [] else Insert(s[0], SortByTime(s[1..]))
  }

  /** The sort yields an ascending permutation of its input. */
  lemma {:induction false} SortByTimeSortedPermutation(s: seq<EventData>)
    ensures Sorted(SortByTime(s))
    ensures multiset(SortByTime(s)) == multiset(s)
  {
    if s != [] {
      assert s == [s[0]] + s[1..];
      SortByTimeSortedPermutation(s[1..]);
      InsertSortedPermutation(s[0], SortByTime(s[1..]));
    }
  }

  /** Sorting a list that is already sorted gives it back unchanged. */
  lemma {:induction false} SortSortedIsIdentity(s: seq<EventData>)
    requires Sorted(s)
    ensures SortByTime(s) == s
  {
    if s != [] {
      assert Sorted(s[1..]);
      SortSortedIsIdentity(s[1..]);
      assert s == [s[0]] + s[1..];
    }
  }

  /** The events of `s` with timestamp `t`, in their order in `s`. */
  function AtTime(s: seq<EventData>, t: int): seq<EventData>
  {
    if s == [] then [] else (if s[0].timestamp == t then [s[0]] else []) + AtTime(s[1..], t)
  }

  /** Inserting puts `e` ahead of the events sharing its timestamp and moves none of them. */
  lemma {:induction false} InsertAtTime(e: EventData, s: seq<EventData>, t: int)
    ensures AtTime(Insert(e, s), t) == (if e.timestamp == t then [e] else []) + AtTime(s, t)
  {
    if s == [] || e.CompareTo(s[0]) <= 0 {
      assert ([e] + s)[1..] == s;
    } else {
      var rest := Insert(e, s[1..]);
      InsertAtTime(e, s[1..], t);
      assert ([s[0]] + rest)[1..] == rest;
    }
  }

  /**
   * The sort is stable, as `Collections.sort` is: for every timestamp, the
   * events carrying it keep their relative order.
   */
  lemma {:induction false} SortByTimeStable(s: seq<EventData>, t: int)
    ensures AtTime(SortByTime(s), t) == AtTime(s, t)
  {
    if s != [] {
      SortByTimeStable(s[1..], t);
      InsertAtTime(s[0], SortByTime(s[1..]), t);
    }
  }

  /** A permutation stores the same ids. */
  lemma PermutationKeepsIds(a: seq<EventData>, b: seq<EventData>, id: string)
    requires multiset(a) == multiset(b)
    ensures HasId(a, id) <==> HasId(b, id)
  {
    if HasId(a, id) {
      var x :| x in a && x.id == id;
      assert x in multiset(a);
    }
    if HasId(b, id) {
      var x :| x in b && x.id == id;
      assert x in multiset(b);
    }
  }

  /** The position of the first event carrying `id`, as the repository's loops find it. */
  function IndexOfId(s: seq<EventData>, id: string): (r: Option<nat>)
    ensures r.Some? ==> r.value < |s| && s[r.value].id == id
    ensures r.Some? ==> forall k :: 0 <= k < r.value ==> s[k].id != id
    ensures r.None? <==> !HasId(s, id)
  {
    if s == [] then None
    else if s[0].id == id then Some(0)
    else
      match IndexOfId(s[1..], id)
      case None =>
        assert forall x :: x in s ==> x == s[0] || x in s[1..];
        None
      case Some(i) => Some(i + 1)
  }

  /** The first position carrying `id` is the one the ensures of `IndexOfId` pin down. */
  lemma IndexOfIdAt(s: seq<EventData>, id: string, i: nat)
    requires i < |s| && s[i].id == id
    requires forall k :: 0 <= k < i ==> s[k].id != id
    ensures IndexOfId(s, id) == Some(i)
  {
    assert s[i] in s;
  }

  /** The loop of `addEvent`: replace the first event with the same id, or append. */
  function Upsert(s: seq<EventData>, e: EventData): (r: seq<EventData>)
    ensures e in r
    ensures HasId(s, e.id) ==> |r| == |s|
    ensures !HasId(s, e.id) ==> r == s + [e]
  {
    match IndexOfId(s, e.id)
    case Some(i) =>
      assert s[i := e][i] == e;
      s[i := e]
    case None => s + [e]
  }

  /**
   * The upsert holds `e`, grows only when the id was absent, and leaves the
   * events of every other id where they were.
   */
  lemma UpsertProperties(s: seq<EventData>, e: EventData)
    ensures e in Upsert(s, e)
    ensures |Upsert(s, e)| == if HasId(s, e.id) then |s| else |s| + 1
    ensures IndexOfId(s, e.id).Some? ==>
      var i := IndexOfId(s, e.id).value;
      Upsert(s, e)[i] == e && forall k :: 0 <= k < |s| && k != i ==> Upsert(s, e)[k] == s[k]
    ensures IndexOfId(s, e.id).None? ==> Upsert(s, e) == s + [e]
    ensures forall k :: 0 <= k < |s| && s[k].id != e.id ==> Upsert(s, e)[k] == s[k]
    ensures forall x: EventData :: x.id != e.id ==> multiset(Upsert(s, e))[x] == multiset(s)[x]
  {
    match IndexOfId(s, e.id)
    case Some(i) =>
      assert s[i := e][i] == e;
      assert multiset(s[i := e]) == multiset(s) - multiset{s[i]} + multiset{e};
    case None =>
  }

  /** The loop of `deleteEvent`: drop the first event with the id, if any. */
  function RemoveFirst(s: seq<EventData>, id: string): (r: seq<EventData>)
    ensures !HasId(s, id) ==> r == s
    ensures HasId(s, id) ==> |r| == |s| - 1
  {
    match IndexOfId(s, id)
    case None => s
    case Some(i) => s[..i] + s[i + 1..]
  }

  /** Removing changes nothing when the id is absent, and otherwise drops exactly the first match. */
  lemma RemoveFirstProperties(s: seq<EventData>, id: string)
    ensures !HasId(s, id) ==> RemoveFirst(s, id) == s
    ensures HasId(s, id) ==> |RemoveFirst(s, id)| == |s| - 1
    ensures IndexOfId(s, id).Some? ==>
      multiset(RemoveFirst(s, id)) == multiset(s) - multiset{s[IndexOfId(s, id).value]}
  {
    match IndexOfId(s, id)
    case None =>
    case Some(i) =>
      RemoveAtMultiset(s, i);
  }

  /** Cutting one position out of a list removes exactly that event from its multiset. */
  lemma RemoveAtMultiset(s: seq<EventData>, i: nat)
    requires i < |s|
    ensures multiset(s[..i] + s[i + 1..]) == multiset(s) - multiset{s[i]}
  {
    assert s == s[..i] + ([s[i]] + s[i + 1..]);
    assert multiset(s) == multiset(s[..i]) + multiset{s[i]} + multiset(s[i + 1..]);
  }

  /** The list `addEvent` stores, given the list stored before. */
  function AfterAdd(stored: seq<EventData>, e: EventData): seq<EventData>
  {
    SortByTime(Upsert(SortByTime(stored), e))
  }

  /**
   * After `addEvent` the list is sorted and holds the event; it has as many
   * events as before when the id was already stored and one more otherwise;
   * the events of every other id are kept.
   */
  lemma AfterAddProperties(stored: seq<EventData>, e: EventData)
    ensures Sorted(AfterAdd(stored, e))
    ensures e in AfterAdd(stored, e)
    ensures HasId(stored, e.id) ==> |AfterAdd(stored, e)| == |stored|
    ensures !HasId(stored, e.id) ==> |AfterAdd(stored, e)| == |stored| + 1
    ensures forall x: EventData :: x.id != e.id ==> multiset(AfterAdd(stored, e))[x] == multiset(stored)[x]
  {
    var sorted := SortByTime(stored);
    SortByTimeSortedPermutation(stored);
    PermutationKeepsIds(stored, sorted, e.id);
    var upserted := Upsert(sorted, e);
    UpsertProperties(sorted, e);
    SortByTimeSortedPermutation(upserted);
    assert e in multiset(upserted);
    assert |AfterAdd(stored, e)| == |multiset(upserted)|;
  }

  /** The list `deleteEvent` stores, given the list stored before. */
  function AfterDelete(stored: seq<EventData>, id: string): seq<EventData>
  {
    SortByTime(RemoveFirst(SortByTime(stored), id))
  }

  /**
   * After `deleteEvent` the list is sorted; it is a permutation of the old
   * list when the id was absent, and otherwise lacks exactly one event that
   * carried the id.
   */
  lemma AfterDeleteProperties(stored: seq<EventData>, id: string)
    ensures Sorted(AfterDelete(stored, id))
    ensures !HasId(stored, id) ==> multiset(AfterDelete(stored, id)) == multiset(stored)
    ensures HasId(stored, id) ==> |AfterDelete(stored, id)| == |stored| - 1
    ensures HasId(stored, id) ==>
      exists x :: x in stored && x.id == id && multiset(AfterDelete(stored, id)) == multiset(stored) - multiset{x}
  {
    var sorted := SortByTime(stored);
    SortByTimeSortedPermutation(stored);
    PermutationKeepsIds(stored, sorted, id);
    var removed := RemoveFirst(sorted, id);
    RemoveFirstProperties(sorted, id);
    SortByTimeSortedPermutation(removed);
    var r := AfterDelete(stored, id);
    assert |r| == |multiset(removed)|;
    if HasId(stored, id) {
      var x := sorted[IndexOfId(sorted, id).value];
      assert x in stored by { assert x in multiset(sorted); }
      assert multiset(r) == multiset(stored) - multiset{x};
    }
  }

  /** The repository over the "events" entry of its preferences store. */
  class EventRepository {
    /** The stored list; `None` while nothing has been saved. */
    var stored: Option<seq<EventData>>

    constructor (stored: Option<seq<EventData>>)
      ensures this.stored == stored
    {
      this.stored := stored;
    }

    /** The stored events, the empty list when nothing is stored. */
    function Contents(): seq<EventData>
      reads this
    {
      match stored
      case None => []
      case Some(s) => s
    }

    /** `getEvents`: the stored events sorted by timestamp. */
    method GetEvents() returns (events: seq<EventData>)
      ensures stored.None? ==> events == []
      ensures events == SortByTime(Contents())
    {
      events := [];
      if stored.Some? {
        events := stored.value;
      }
      events := SortByTime(events);
    }

    /** `addEvent`: an upsert by id on the sorted list, then saved. */
    method AddEvent(event: EventData)
      modifies this
      ensures stored == Some(AfterAdd(old(Contents()), event))
    {
      ghost var before := Contents();
      var events := GetEvents();
      ghost var sorted := events;
      var found := false;
      var i := 0;
      while i < |events|
        invariant 0 <= i <= |events|
        invariant events == sorted && !found
        invariant forall k :: 0 <= k < i ==> events[k].id != event.id
      {
        if events[i].id == event.id {
          IndexOfIdAt(sorted, event.id, i);
          events := events[i := event];
          found := true;
          break;
        }
        i := i + 1;
      }
      if !found {
        assert IndexOfId(sorted, event.id).None?;
        events := events + [event];
      }
      assert events == Upsert(sorted, event);
      assert SortByTime(events) == AfterAdd(before, event);
      SaveEvents(events);
    }

    /** `deleteEvent`: remove the first event carrying the id, then save. */
    method DeleteEvent(event: EventData)
      modifies this
      ensures stored == Some(AfterDelete(old(Contents()), event.id))
    {
      ghost var before := Contents();
      var events := GetEvents();
      ghost var sorted := events;
      var i := 0;
      while i < |events|
        invariant 0 <= i <= |events|
        invariant events == sorted
        invariant forall k :: 0 <= k < i ==> events[k].id != event.id
      {
        if events[i].id == event.id {
          IndexOfIdAt(sorted, event.id, i);
          events := events[..i] + events[i + 1..];
          break;
        }
        i := i + 1;
      }
      assert events == RemoveFirst(sorted, event.id);
      assert SortByTime(events) == AfterDelete(before, event.id);
      SaveEvents(events);
    }

    /** `saveEvents`: sort, then overwrite the stored entry. */
    method SaveEvents(events: seq<EventData>)
      modifies this
      ensures stored == Some(SortByTime(events))
    {
      var sorted := SortByTime(events);
      stored := Some(sorted);
    }
  }

  /** What `saveEvents` wrote is what `getEvents` reads back. */
  lemma SavedListReadsBack(events: seq<EventData>)
    ensures SortByTime(SortByTime(events)) == SortByTime(events)
  {
    SortByTimeSortedPermutation(events);
    SortSortedIsIdentity(SortByTime(events));
  }
}
