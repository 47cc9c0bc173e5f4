/**
 * Saving the add/edit form (AddEventActivity.saveEvent): trim the inputs,
 * refuse an empty name, then either update the event being edited (same id)
 * or create a new one, store it and schedule its reminder.
 */
module AddEvent {
  import opened Wrappers
  import opened Events
  import opened Repository
  import opened Notifications

  /** `String.trim`'s first loop: skip the characters at or below the space from `st` on. */
  function TrimStartIndex(s: string, st: nat): (r: nat)
    requires st <= |s|
    ensures st <= r <= |s|
    ensures forall k :: st <= k < r ==> s[k] <= ' '
    ensures r < |s| ==> s[r] > ' '
    decreases |s| - st
  {
    if st < |s| && s[st] <= ' ' then TrimStartIndex(s, st + 1) else st
  }

  /** `String.trim`'s second loop: move the end back over characters at or below the space, not past `st`. */
  function TrimEndIndex(s: string, st: nat, len: nat): (r: nat)
    requires st <= len <= |s|
    ensures st <= r <= len
    ensures forall k :: r <= k < len ==> s[k] <= ' '
    ensures st < r ==> s[r - 1] > ' '
  {
    if st < len && s[len - 1] <= ' ' then TrimEndIndex(s, st, len - 1) else len
  }

  /**
   * `String.trim`: the input with its leading and trailing characters at or
   * below the space removed; it is empty exactly when the input has nothing else.
   */
  function Trim(s: string): (r: string)
    ensures var st := TrimStartIndex(s, 0);
      && st + |r| <= |s| && r == s[st..st + |r|]
      && (forall k :: 0 <= k < st ==> s[k] <= ' ')
      && (forall k :: st + |r| <= k < |s| ==> s[k] <= ' ')
    ensures r == [] || (r[0] > ' ' && r[|r| - 1] > ' ')
    ensures r == [] <==> forall k :: 0 <= k < |s| ==> s[k] <= ' '
  {
    var st := TrimStartIndex(s, 0);
    var len := TrimEndIndex(s, st, |s|);
    s[st..len]
  }

  /** Trimming twice is trimming once. */
  lemma TrimIdempotent(s: string)
    ensures Trim(Trim(s)) == Trim(s)
  {
  }

  /** The outcome of pressing save. */
  datatype SaveResult =
    | NameRequired         // the name field shows its error; nothing is saved
    | Saved(event: EventData)  // the event was stored, its reminder scheduled and the screen closed

  /**
   * `saveEvent`. `eventToEdit` is the event the screen was opened for, or
   * null when creating; `freshId` stands for the random UUID a new event
   * gets; `now` is the clock reading used to schedule the reminder.
   */
  method SaveEvent(nameInput: string, placeInput: string, selectedMillis: int, eventToEdit: Event?,
                   repository: EventRepository, alarmManager: AlarmManager, freshId: string, now: int)
    returns (result: SaveResult)
    modifies eventToEdit, repository, alarmManager
    ensures Trim(nameInput) == [] ==>
      && result == NameRequired
      && unchanged(repository, alarmManager)
      && (eventToEdit != null ==> unchanged(eventToEdit))
    ensures Trim(nameInput) != [] ==>
      && result.Saved?
      && result.event.id == (if eventToEdit != null then old(eventToEdit.id) else freshId)
      && result.event.name == Trim(nameInput)
      && result.event.place == Trim(placeInput)
      && result.event.timestamp == selectedMillis
      && repository.stored == Some(AfterAdd(old(repository.Contents()), result.event))
      && alarmManager.alarms == Schedule(old(alarmManager.alarms), result.event, now)
      && (eventToEdit != null ==> eventToEdit.Snapshot() == result.event)
    ensures Trim(nameInput) != [] && eventToEdit != null && HasId(old(repository.Contents()), old(eventToEdit.id)) ==>
      |repository.Contents()| == |old(repository.Contents())|
    ensures Trim(nameInput) != [] && eventToEdit == null && !HasId(old(repository.Contents()), freshId) ==>
      |repository.Contents()| == |old(repository.Contents())| + 1
  {
    ghost var before := repository.Contents();
    var name := Trim(nameInput);
    var place := Trim(placeInput);
    if name == [] {
      return NameRequired;
    }
    var saved: EventData;
    if eventToEdit != null {
      eventToEdit.SetName(name);
      eventToEdit.SetPlace(place);
      eventToEdit.SetTimestamp(selectedMillis);
      saved := eventToEdit.Snapshot();
    } else {
      var event := new Event(freshId, name, place, selectedMillis);
      saved := event.Snapshot();
    }
    repository.AddEvent(saved);
    AfterAddProperties(before, saved);
    alarmManager.ScheduleNotification(saved, now);
    result := Saved(saved);
  }
}
