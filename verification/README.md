# FirebaseUI-Android: FirebaseArray and IdpResponse in Dafny

This project models two pieces of FirebaseUI-Android.

**FirebaseArray** (database module) keeps a local, ordered list of the children of a Realtime
Database query. The database delivers child events: a child was added after a named predecessor,
changed, removed, or moved after a named predecessor. The array turns each event into one edit of
its list. It then tells its change listener, by index, what it did: `ADDED`, `CHANGED`, `REMOVED` or
`MOVED`, plus the old index for a move. It also forwards the query's "data changed" and "cancelled"
signals. Children are found by a linear search on their key. The array starts and stops listening
under two guards: no listening without a listener, and no null listener while listening.

The model is the class `FirebaseArrays.FirebaseArray`:

- `snapshots` is the list, a `seq` of `Snapshot(key, value)` records that each method reassigns.
- `log` records every call made on a listener: which listener was called, and with what event.
- `listener` and `isListening` are the array's two state fields.
- Java exceptions (IllegalArgument, IllegalState, NullPointer, IndexOutOfBounds) are returned as
  `Outcome` / `Result` values. A method that throws leaves exactly the state the Java code has
  reached at that point.

Each method's contract gives the new list and log in terms of pure functions on the old list.
Those functions are in module `SnapshotLists`: the key lookup, insertion at an index, removal at
an index. Their own properties are proved there:

- the lookup finds the first match, or reports that there is none;
- insertion and removal shift the other elements and undo each other;
- a move keeps the other elements in their order;
- when the server keeps keys distinct, every edit keeps them distinct, and the lookup then finds
  the child at the index reported in the event.

The class invariant `Valid()` says two things. The array is registered with the query exactly
while it is listening. A listener is set whenever the array is listening. The invariant holds in
every reachable state. So while listening, no callback fails for lack of a listener.

Two edge cases follow the code:

- A callback that arrives while the listener is null edits the list first and then throws
  NullPointerException.
- `onChildMoved` removes the child before it looks up the predecessor. If the predecessor is not
  in the remaining list (for example, it is the moved child itself), the child stays removed and
  IllegalArgumentException escapes.

**IdpResponse** (auth module) is the immutable result of signing in with an identity provider. It
has five nullable strings: provider id, email, token, secret and previous user id. There are
convenience constructors that default fields to null, and a copy constructor that replaces only
the previous user id. The type is Parcelable: `writeToParcel` writes the five strings in a fixed
order, and `CREATOR.createFromParcel` reads them back in the same order.

The model is a datatype `IdpResponses.IdpResponse`, so a response can never change after it is
built. A parcel is modelled as a sequence of nullable strings plus a read position. Reading past
the end gives null. The round-trip is proved in both directions.

## Model

| member | source | states |
|---|---|---|
| `SnapshotLists.IndexForKey` | database/src/main/java/com/firebase/ui/database/FirebaseArray.java:123-133 | the result is the smallest index whose snapshot has the key; it is None exactly when no snapshot has the key |
| `SnapshotLists.InsertionIndex` | database/src/main/java/com/firebase/ui/database/FirebaseArray.java:82-85 | a child with no predecessor goes to index 0; otherwise it goes just behind the first snapshot with the predecessor's key; the result is None exactly when that key is absent |
| `SnapshotLists.InsertAt` | database/src/main/java/com/firebase/ui/database/FirebaseArray.java:86 | the list grows by one; the new element is at the index; earlier elements stay in place and later ones shift one place right |
| `SnapshotLists.RemoveAt` | database/src/main/java/com/firebase/ui/database/FirebaseArray.java:100 | the list shrinks by one; earlier elements stay in place and later ones shift one place left |
| `SnapshotLists.RemoveAtInsertAt` | database/src/main/java/com/firebase/ui/database/FirebaseArray.java:86 | removing the element just inserted at an index gives back the original list |
| `SnapshotLists.InsertAtRemoveAt` | database/src/main/java/com/firebase/ui/database/FirebaseArray.java:100 | putting a removed element back at its index gives back the original list |
| `SnapshotLists.MoveKeepsOthers` | database/src/main/java/com/firebase/ui/database/FirebaseArray.java:105-111 | a move keeps the length; the moved child ends at the new index; taking it out leaves the other children in their old order |
| `SnapshotLists.LookupFindsOwnIndex` | database/src/main/java/com/firebase/ui/database/FirebaseArray.java:123-133 | with distinct keys, looking up an element's key gives that element's index |
| `SnapshotLists.InsertFreshKey` | database/src/main/java/com/firebase/ui/database/FirebaseArray.java:81-88 | adding a child with a new key keeps keys distinct; looking up the key then gives the index reported in the ADDED event |
| `SnapshotLists.ReplaceKeepsKeys` | database/src/main/java/com/firebase/ui/database/FirebaseArray.java:91-95 | replacing a child by a snapshot with the same key keeps the key sequence; every key lookup gives the same result as before |
| `SnapshotLists.RemoveDropsKey` | database/src/main/java/com/firebase/ui/database/FirebaseArray.java:98-102 | removing a child keeps keys distinct; its key is no longer found |
| `SnapshotLists.MoveKeepsDistinctKeys` | database/src/main/java/com/firebase/ui/database/FirebaseArray.java:105-111 | moving a child keeps keys distinct; looking up its key then gives the new index reported in the MOVED event |
| `FirebaseArrays.Delivered` | database/src/main/java/com/firebase/ui/database/FirebaseArray.java:135-137 | a listener call adds exactly one entry, addressed to the current listener, when a listener is set; with a null listener it adds nothing |
| `FirebaseArrays.DeliveryOutcome` | database/src/main/java/com/firebase/ui/database/FirebaseArray.java:135-137 | a listener call ends normally exactly when a listener is set; otherwise it throws NullPointerException |
| `FirebaseArrays.FirebaseArray.constructor` | database/src/main/java/com/firebase/ui/database/FirebaseArray.java:42-49 | a new array has no listener, is not listening, and has an empty list and an empty log |
| `FirebaseArrays.FirebaseArray.SetChangeEventListener` | database/src/main/java/com/firebase/ui/database/FirebaseArray.java:51-56 | setting a null listener while listening throws IllegalStateException and changes nothing; otherwise the listener is replaced; the invariant is kept |
| `FirebaseArrays.FirebaseArray.StartListening` | database/src/main/java/com/firebase/ui/database/FirebaseArray.java:58-63 | with no listener, throws IllegalStateException and changes nothing; otherwise registers with the query and sets the listening flag; the invariant (registered exactly while listening, a listener while listening) is kept |
| `FirebaseArrays.FirebaseArray.StopListening` | database/src/main/java/com/firebase/ui/database/FirebaseArray.java:65-70 | unregisters from the query, empties the list and clears the listening flag; the invariant is kept |
| `FirebaseArrays.FirebaseArray.Size` | database/src/main/java/com/firebase/ui/database/FirebaseArray.java:72-74 | the size is the length of the list |
| `FirebaseArrays.FirebaseArray.Get` | database/src/main/java/com/firebase/ui/database/FirebaseArray.java:76-78 | an index inside the list gives that element; any other index throws IndexOutOfBoundsException |
| `FirebaseArrays.FirebaseArray.GetIndexForKey` | database/src/main/java/com/firebase/ui/database/FirebaseArray.java:123-133 | the loop returns the first index whose key matches; when no snapshot matches it throws IllegalArgumentException; the result agrees with `IndexForKey` |
| `FirebaseArrays.FirebaseArray.CallListener` | database/src/main/java/com/firebase/ui/database/FirebaseArray.java:110 | one call on the current listener: it is logged when a listener is set; otherwise NullPointerException |
| `FirebaseArrays.FirebaseArray.NotifyChangeListener` | database/src/main/java/com/firebase/ui/database/FirebaseArray.java:135-137 | logs exactly one `(type, index, -1)` event to the current listener; a null listener throws NullPointerException |
| `FirebaseArrays.FirebaseArray.OnChildAdded` | database/src/main/java/com/firebase/ui/database/FirebaseArray.java:80-88 | an unknown predecessor throws IllegalArgumentException and changes nothing; otherwise the snapshot is inserted at 0 or just behind the predecessor, and exactly one `(ADDED, index, -1)` event is logged; no NullPointerException while listening |
| `FirebaseArrays.FirebaseArray.OnChildChanged` | database/src/main/java/com/firebase/ui/database/FirebaseArray.java:90-95 | an unknown key throws IllegalArgumentException and changes nothing; otherwise only the first element with the key is replaced, and exactly one `(CHANGED, index, -1)` event is logged |
| `FirebaseArrays.FirebaseArray.OnChildRemoved` | database/src/main/java/com/firebase/ui/database/FirebaseArray.java:97-102 | an unknown key throws IllegalArgumentException and changes nothing; otherwise the new list is the old one with the first element with the key removed, and exactly one `(REMOVED, index, -1)` event is logged |
| `FirebaseArrays.FirebaseArray.OnChildMoved` | database/src/main/java/com/firebase/ui/database/FirebaseArray.java:104-111 | an unknown key throws and changes nothing; otherwise the child is removed from `oldIndex`; the new index is looked up in the remaining list; if that lookup fails the child stays removed and IllegalArgumentException escapes; otherwise the child is reinserted and one `(MOVED, newIndex, oldIndex)` event is logged |
| `FirebaseArrays.FirebaseArray.OnDataChange` | database/src/main/java/com/firebase/ui/database/FirebaseArray.java:113-116 | forwards exactly one data-changed call and leaves the list alone; it cannot fail while listening |
| `FirebaseArrays.FirebaseArray.OnCancelled` | database/src/main/java/com/firebase/ui/database/FirebaseArray.java:118-121 | forwards exactly one cancelled call with the error and leaves the list alone; it cannot fail while listening |
| `IdpResponses.IdpResponse.GetProviderType` | auth/src/main/java/com/firebase/ui/auth/IdpResponse.java:85-87 | returns the provider id stored when the response was built, unchanged since; with `GettersReturnConstructorArguments`, this is the value passed to the five-argument constructor |
| `IdpResponses.IdpResponse.GetEmail` | auth/src/main/java/com/firebase/ui/auth/IdpResponse.java:93-95 | returns the email stored when the response was built, unchanged since; with `GettersReturnConstructorArguments`, this is the value passed to the five-argument constructor |
| `IdpResponses.IdpResponse.GetIdpToken` | auth/src/main/java/com/firebase/ui/auth/IdpResponse.java:101-103 | returns the token stored when the response was built, unchanged since; with `GettersReturnConstructorArguments`, this is the value passed to the five-argument constructor |
| `IdpResponses.IdpResponse.GetIdpSecret` | auth/src/main/java/com/firebase/ui/auth/IdpResponse.java:109-111 | returns the secret stored when the response was built, unchanged since; with `GettersReturnConstructorArguments`, this is the value passed to the five-argument constructor |
| `IdpResponses.IdpResponse.GetPrevUid` | auth/src/main/java/com/firebase/ui/auth/IdpResponse.java:120-122 | returns the previous user id stored when the response was built, unchanged since; with `GettersReturnConstructorArguments`, this is the value passed to the five-argument constructor |
| `IdpResponses.IdpResponse.DescribeContents` | auth/src/main/java/com/firebase/ui/auth/IdpResponse.java:124-127 | always 0 |
| `IdpResponses.WithToken` | auth/src/main/java/com/firebase/ui/auth/IdpResponse.java:39-41 | the three-argument constructor keeps its arguments and leaves secret and prevUid null |
| `IdpResponses.WithEmail` | auth/src/main/java/com/firebase/ui/auth/IdpResponse.java:35-37 | the two-argument constructor keeps its arguments and leaves token, secret and prevUid null |
| `IdpResponses.WithPrevUid` | auth/src/main/java/com/firebase/ui/auth/IdpResponse.java:56-62 | the copy constructor keeps providerId, email, token and secret, and sets prevUid to the given id |
| `IdpResponses.GettersReturnConstructorArguments` | auth/src/main/java/com/firebase/ui/auth/IdpResponse.java:43-54 | each of the five getters returns the value passed to the five-argument constructor |
| `IdpResponses.WriteToParcel` | auth/src/main/java/com/firebase/ui/auth/IdpResponse.java:130-136 | appends exactly five strings after what the parcel already held: providerId, email, token, secret, prevUid, in that order |
| `IdpResponses.CreateFromParcel` | auth/src/main/java/com/firebase/ui/auth/IdpResponse.java:64-74 | reads at most five strings and does not change the data; with five strings available it moves exactly five places on; from an exhausted parcel it gives an all-null response |
| `IdpResponses.ParcelRoundTrip` | auth/src/main/java/com/firebase/ui/auth/IdpResponse.java:64-74 | reading from where writeToParcel started gives a response equal to the original in all five fields, and leaves the read position just past them |
| `IdpResponses.ParcelDecodeEncode` | auth/src/main/java/com/firebase/ui/auth/IdpResponse.java:130-136 | five strings read from a parcel and written back are the same five strings |

## Left out

- Query registration (`addChildEventListener`, `addValueEventListener`, `removeEventListener`) is SDK code. It is a ghost flag `registered`. The database's delivery of events is not modelled: the callbacks are called directly.
- A `DataSnapshot` is reduced to its key and an opaque value. The snapshot passed to `onDataChange` is ignored, as in the code. `DatabaseError` is a code and a message.
- A listener is known by an identity number. Only what the array calls on it is modelled, as the `log` field. What the listener does with the calls is outside the model.
- Indices are unbounded integers. Java's `int` would overflow only beyond 2^31 children, which no list reaches.
- `IdpResponse.fromResultIntent` reads an Android `Intent` extra. It is not modelled.
- `CREATOR.newArray` only allocates a Java array of nulls for Android's Parcelable machinery. It is not modelled.
- A `Parcel` is reduced to its string entries and a read position. Writes always append, as they do when writing a fresh parcel. Android's typed headers, its write position and `setDataPosition` are not modelled.
- Java's `@NonNull` / `@Nullable` annotations are not enforced at run time. Every string field may therefore be null in the model.
- The other files of the repository are not part of this model: the account-linking and sign-in flows, the SDK factories, the interfaces without behaviour, the Firestore lifecycle wiring and the demo app.
