/** FirebaseArray: an ordered, keyed local list of snapshots that follows the child events of a
    database query and tells one change listener, by index, what each event did to the list. */
module FirebaseArrays {
  import opened Wrappers
  import opened SnapshotLists

  /** The kinds of index-based change a listener is told about. */
  datatype EventType = Added | Changed | Removed | Moved

  /** The error the database reports when a query is cancelled. */
  datatype DatabaseError = DatabaseError(code: int, message: string)

  /** One call made on a change listener. `oldIndex` is -1 except for a move. */
  datatype ListenerEvent =
    | ChildChanged(kind: EventType, index: int, oldIndex: int)
    | DataChanged
    | Cancelled(error: DatabaseError)

  /** Which listener object was called; listeners are told apart by identity only. */
  type ListenerId = nat

  /** One entry of the log of calls made on listeners: who was called, and with what. */
  datatype Notification = Notification(listener: ListenerId, event: ListenerEvent)

  /** The Java exceptions the array's methods can throw. */
  datatype Exception = IllegalArgument | IllegalState | NullPointer | IndexOutOfBounds

  /** How a void Java method ends: normally, or by throwing. */
  datatype Outcome = Ok | Thrown(exception: Exception)

  /** What a call on the current listener adds to the log: nothing when there is no listener. */
  function Delivered(listener: Option<ListenerId>, e: ListenerEvent): (log: seq<Notification>)
    ensures listener.None? ==> log == []
    ensures listener.Some? ==> |log| == 1 && log[0].listener == listener.value && log[0].event == e
  {
    match listener
    case None => []
    case Some(l) => [Notification(l, e)]
  }

  /** How a call on the current listener ends: a null listener throws NullPointerException. */
  function DeliveryOutcome(listener: Option<ListenerId>): (out: Outcome)
    ensures out.Ok? <==> listener.Some?
    ensures out.Thrown? ==> out.exception == NullPointer
  {
    if listener.Some? then Ok else Thrown(NullPointer)
  }

  class FirebaseArray<V> {
    /** The change listener, None while it is null. */
    var listener: Option<ListenerId>
    /** Whether startListening has succeeded since the last stopListening. */
    var isListening: bool
    /** The local copy of the query's children, in query order. */
    var snapshots: seq<Snapshot<V>>
    /** Every call made on a change listener, oldest first. */
    var log: seq<Notification>
    /** Whether this array is registered with the query for child and value events. */
    ghost var registered: bool

    /** The array is registered with the query exactly while it is listening, and a listener
        is always set while listening: startListening refuses a null listener and a null
        listener cannot be set while listening. */
    ghost predicate Valid()
      reads this
    {
      registered == isListening && (isListening ==> listener.Some?)
    }

    /** A new array on a query: no listener, not listening, empty. */
    constructor ()
      ensures Valid()
      ensures listener.None? && !isListening && snapshots == [] && log == [] && !registered
    {
      listener := None;
      isListening := false;
      snapshots := [];
      log := [];
      registered := false;
    }

    method SetChangeEventListener(l: Option<ListenerId>) returns (out: Outcome)
      requires Valid()
      modifies this`listener
      ensures Valid()
      ensures old(isListening) && l.None? ==> out == Thrown(IllegalState) && listener == old(listener)
      ensures !(old(isListening) && l.None?) ==> out == Ok && listener == l
    {
      if isListening && l.None? {
        return Thrown(IllegalState);
      }
      listener := l;
      out := Ok;
    }

    method StartListening() returns (out: Outcome)
      requires Valid()
      modifies this`isListening, this`registered
      ensures Valid()
      ensures listener.None? ==> out == Thrown(IllegalState) && isListening == old(isListening) && registered == old(registered)
      ensures listener.Some? ==> out == Ok && isListening && registered
    {
      if listener.None? {
        return Thrown(IllegalState);
      }
      registered := true;
      isListening := true;
      out := Ok;
    }

    method StopListening()
      requires Valid()
      modifies this`snapshots, this`isListening, this`registered
      ensures Valid()
      ensures snapshots == [] && !isListening && !registered
    {
      registered := false;
      snapshots := [];
      isListening := false;
    }

    method Size() returns (n: nat)
      ensures n == |snapshots|
    {
      n := |snapshots|;
    }

    method Get(index: int) returns (r: Result<Snapshot<V>, Exception>)
      ensures r.Success? <==> 0 <= index < |snapshots|
      ensures r.Success? ==> r.value == snapshots[index]
      ensures r.Failure? ==> r.error == IndexOutOfBounds
    {
      if 0 <= index < |snapshots| {
        r := Success(snapshots[index]);
      } else {
        r := Failure(IndexOutOfBounds);
      }
    }

    /** The linear search of the list for a key: the first match, or IllegalArgumentException. */
    method GetIndexForKey(key: string) returns (r: Result<nat, Exception>)
      ensures r.Success? ==> r.value < |snapshots| && snapshots[r.value].key == key
      ensures r.Success? ==> forall j :: 0 <= j < r.value ==> snapshots[j].key != key
      ensures r.Failure? ==> r.error == IllegalArgument && forall j :: 0 <= j < |snapshots| ==> snapshots[j].key != key
      ensures IndexForKey(snapshots, key) == (if r.Success? then Some(r.value) else None)
    {
      var index := 0;
      while index < |snapshots|
        invariant 0 <= index <= |snapshots|
        invariant forall j :: 0 <= j < index ==> snapshots[j].key != key
      {
        if snapshots[index].key == key {
          return Success(index);
        }
        index := index + 1;
      }
      r := Failure(IllegalArgument);
    }

    /** One call on the current listener; a null listener throws NullPointerException. */
    method CallListener(e: ListenerEvent) returns (out: Outcome)
      modifies this`log
      ensures log == old(log) + Delivered(listener, e)
      ensures out == DeliveryOutcome(listener)
    {
      if listener.None? {
        return Thrown(NullPointer);
      }
      log := log + [Notification(listener.value, e)];
      out := Ok;
    }

    method NotifyChangeListener(kind: EventType, index: int) returns (out: Outcome)
      modifies this`log
      ensures log == old(log) + Delivered(listener, ChildChanged(kind, index, -1))
      ensures out == DeliveryOutcome(listener)
    {
      out := CallListener(ChildChanged(kind, index, -1));
    }

    method OnChildAdded(snapshot: Snapshot<V>, previousChildKey: Option<string>) returns (out: Outcome)
      requires Valid()
      modifies this`snapshots, this`log
      ensures Valid()
      ensures InsertionIndex(old(snapshots), previousChildKey).None? ==>
        out == Thrown(IllegalArgument) && snapshots == old(snapshots) && log == old(log)
      ensures InsertionIndex(old(snapshots), previousChildKey).Some? ==>
        var index := InsertionIndex(old(snapshots), previousChildKey).value;
        snapshots == InsertAt(old(snapshots), index, snapshot) &&
        log == old(log) + Delivered(listener, ChildChanged(Added, index, -1)) &&
        out == DeliveryOutcome(listener)
      ensures old(isListening) ==> out != Thrown(NullPointer)
    {
      var index := 0;
      if previousChildKey.Some? {
        var found := GetIndexForKey(previousChildKey.value);
        if found.Failure? {
          return Thrown(found.error);
        }
        index := found.value + 1;
      }
      snapshots := InsertAt(snapshots, index, snapshot);
      out := NotifyChangeListener(Added, index);
    }

    method OnChildChanged(snapshot: Snapshot<V>, previousChildKey: Option<string>) returns (out: Outcome)
      requires Valid()
      modifies this`snapshots, this`log
      ensures Valid()
      ensures IndexForKey(old(snapshots), snapshot.key).None? ==>
        out == Thrown(IllegalArgument) && snapshots == old(snapshots) && log == old(log)
      ensures IndexForKey(old(snapshots), snapshot.key).Some? ==>
        var index := IndexForKey(old(snapshots), snapshot.key).value;
        snapshots == old(snapshots)[index := snapshot] &&
        log == old(log) + Delivered(listener, ChildChanged(Changed, index, -1)) &&
        out == DeliveryOutcome(listener)
      ensures old(isListening) ==> out != Thrown(NullPointer)
    {
      var found := GetIndexForKey(snapshot.key);
      if found.Failure? {
        return Thrown(found.error);
      }
      var index := found.value;
      snapshots := snapshots[index := snapshot];
      out := NotifyChangeListener(Changed, index);
    }

    method OnChildRemoved(snapshot: Snapshot<V>) returns (out: Outcome)
      requires Valid()
      modifies this`snapshots, this`log
      ensures Valid()
      ensures IndexForKey(old(snapshots), snapshot.key).None? ==>
        out == Thrown(IllegalArgument) && snapshots == old(snapshots) && log == old(log)
      ensures IndexForKey(old(snapshots), snapshot.key).Some? ==>
        var index := IndexForKey(old(snapshots), snapshot.key).value;
        snapshots == RemoveAt(old(snapshots), index) &&
        log == old(log) + Delivered(listener, ChildChanged(Removed, index, -1)) &&
        out == DeliveryOutcome(listener)
      ensures old(isListening) ==> out != Thrown(NullPointer)
    {
      var found := GetIndexForKey(snapshot.key);
      if found.Failure? {
        return Thrown(found.error);
      }
      var index := found.value;
      snapshots := RemoveAt(snapshots, index);
      out := NotifyChangeListener(Removed, index);
    }

    /** The child is taken out first and its new place is looked up in what is left; when the
        predecessor is not found there the child stays removed and the exception escapes. */
    method OnChildMoved(snapshot: Snapshot<V>, previousChildKey: Option<string>) returns (out: Outcome)
      requires Valid()
      modifies this`snapshots, this`log
      ensures Valid()
      ensures IndexForKey(old(snapshots), snapshot.key).None? ==>
        out == Thrown(IllegalArgument) && snapshots == old(snapshots) && log == old(log)
      ensures IndexForKey(old(snapshots), snapshot.key).Some? ==>
        var oldIndex := IndexForKey(old(snapshots), snapshot.key).value;
        var rest := RemoveAt(old(snapshots), oldIndex);
        (InsertionIndex(rest, previousChildKey).None? ==>
          out == Thrown(IllegalArgument) && snapshots == rest && log == old(log)) &&
        (InsertionIndex(rest, previousChildKey).Some? ==>
          var newIndex := InsertionIndex(rest, previousChildKey).value;
          snapshots == InsertAt(rest, newIndex, snapshot) &&
          log == old(log) + Delivered(listener, ChildChanged(Moved, newIndex, oldIndex)) &&
          out == DeliveryOutcome(listener))
      ensures old(isListening) ==> out != Thrown(NullPointer)
    {
      var found := GetIndexForKey(snapshot.key);
      if found.Failure? {
        return Thrown(found.error);
      }
      var oldIndex := found.value;
      snapshots := RemoveAt(snapshots, oldIndex);
      var newIndex := 0;
      if previousChildKey.Some? {
        var previous := GetIndexForKey(previousChildKey.value);
        if previous.Failure? {
          return Thrown(previous.error);
        }
        newIndex := previous.value + 1;
      }
      snapshots := InsertAt(snapshots, newIndex, snapshot);
      out := CallListener(ChildChanged(Moved, newIndex, oldIndex));
    }

    method OnDataChange() returns (out: Outcome)
      requires Valid()
      modifies this`log
      ensures Valid()
      ensures log == old(log) + Delivered(listener, DataChanged)
      ensures out == DeliveryOutcome(listener)
      ensures old(isListening) ==> out == Ok
    {
      out := CallListener(DataChanged);
    }

    method OnCancelled(error: DatabaseError) returns (out: Outcome)
      requires Valid()
      modifies this`log
      ensures Valid()
      ensures log == old(log) + Delivered(listener, Cancelled(error))
      ensures out == DeliveryOutcome(listener)
      ensures old(isListening) ==> out == Ok
    {
      out := CallListener(Cancelled(error));
    }
  }
}
