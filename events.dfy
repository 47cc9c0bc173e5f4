/**
 * The event entity (model/Event.java). `EventData` is an event as a value,
 * which is what the stores persist (they serialise events to JSON); `Event`
 * is the mutable object whose setters the edit screen calls.
 */
module Events {

  /** An event as stored: identifier, name, place and timestamp in milliseconds since the epoch. */
  datatype EventData = EventData(id: string, name: string, place: string, timestamp: int)
  {
    /**
     * `compareTo`: `Long.compare` of the two timestamps, so -1, 0 or 1
     * according to which event comes first; id, name and place play no part.
     */
    function CompareTo(o: EventData): (r: int)
      ensures r == -1 || r == 0 || r == 1
      ensures r < 0 <==> timestamp < o.timestamp
      ensures r == 0 <==> timestamp == o.timestamp
      ensures r > 0 <==> timestamp > o.timestamp
    {
      if timestamp < o.timestamp then -1 else if timestamp == o.timestamp then 0 else 1
    }
  }

  /** Swapping the operands flips the sign of the comparison. */
  lemma CompareAntisymmetric(a: EventData, b: EventData)
    ensures a.CompareTo(b) == -b.CompareTo(a)
  {
  }

  /** "No later than" is transitive, so the comparison is a total preorder fit for sorting. */
  lemma CompareTransitive(a: EventData, b: EventData, c: EventData)
    requires a.CompareTo(b) <= 0 && b.CompareTo(c) <= 0
    ensures a.CompareTo(c) <= 0
  {
  }

  /** Events with equal timestamps compare equal, whatever their id, name or place. */
  lemma CompareIgnoresIdentity(a: EventData, b: EventData, c: EventData)
    requires a.timestamp == b.timestamp
    ensures a.CompareTo(b) == 0 && a.CompareTo(c) == b.CompareTo(c)
  {
  }

  /** The mutable event object. */
  class Event {
    var id: string
    var name: string
    var place: string
    var timestamp: int

    /** `new Event(name, place, timestamp)`; the random UUID is passed in as `freshId`. */
    constructor (freshId: string, name: string, place: string, timestamp: int)
      ensures Snapshot() == EventData(freshId, name, place, timestamp)
    {
      this.id := freshId;
      this.name := name;
      this.place := place;
      this.timestamp := timestamp;
    }

    /** The value the getters report, and what serialising the object captures. */
    function Snapshot(): EventData
      reads this
    {
      EventData(id, name, place, timestamp)
    }

    method SetId(id: string)
      modifies this`id
      ensures Snapshot() == old(Snapshot()).(id := id)
    {
      this.id := id;
    }

    method SetName(name: string)
      modifies this`name
      ensures Snapshot() == old(Snapshot()).(name := name)
    {
      this.name := name;
    }

    method SetPlace(place: string)
      modifies this`place
      ensures Snapshot() == old(Snapshot()).(place := place)
    {
      this.place := place;
    }

    method SetTimestamp(timestamp: int)
      modifies this`timestamp
      ensures Snapshot() == old(Snapshot()).(timestamp := timestamp)
    {
      this.timestamp := timestamp;
    }

    /** `compareTo` on the objects: the comparison of their current values. */
    function CompareTo(o: Event): (r: int)
      reads this, o
      ensures r == -1 || r == 0 || r == 1
      ensures r < 0 <==> timestamp < o.timestamp
      ensures r == 0 <==> timestamp == o.timestamp
      ensures r > 0 <==> timestamp > o.timestamp
    {
      Snapshot().CompareTo(o.Snapshot())
    }
  }
}
