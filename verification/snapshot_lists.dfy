/** The list of snapshots that a FirebaseArray keeps, as a value: the key lookup it relies
    on, the three edits it makes (insert at an index, replace, remove at an index) and what
    those edits do to positions and keys. */
module SnapshotLists {
  import opened Wrappers

  /** One child of the query result as the database delivers it: its key and an opaque value. */
  datatype Snapshot<V> = Snapshot(key: string, value: V)

  /** The keys of a list of snapshots, in order. */
  function Keys<V>(s: seq<Snapshot<V>>): (ks: seq<string>)
    ensures |ks| == |s|
    ensures forall j :: 0 <= j < |s| ==> ks[j] == s[j].key
  {
    seq(|s|, j requires 0 <= j < |s| => s[j].key)
  }

  /** The smallest index whose snapshot has the given key, or None when no snapshot has it. */
  function IndexForKey<V>(s: seq<Snapshot<V>>, key: string): (r: Option<nat>)
    ensures r.Some? ==> r.value < |s| && s[r.value].key == key
    ensures r.Some? ==> forall j :: 0 <= j < r.value ==> s[j].key != key
    ensures r.None? <==> forall j :: 0 <= j < |s| ==> s[j].key != key
  {
    if |s| == 0 then None
    else if s[0].key == key then Some(0)
    else match IndexForKey(s[1..], key)
      case None => None
      case Some(i) => Some(i + 1)
  }

  /** Where a child announced after `previousChildKey` goes: the front when there is no
      predecessor, otherwise just behind the predecessor; None when the predecessor's key
      is not in the list. */
  function InsertionIndex<V>(s: seq<Snapshot<V>>, previousChildKey: Option<string>): (r: Option<nat>)
    ensures previousChildKey.None? ==> r == Some(0)
    ensures previousChildKey.Some? ==> (r.None? <==> forall j :: 0 <= j < |s| ==> s[j].key != previousChildKey.value)
    ensures r.Some? ==> r.value <= |s|
    ensures r.Some? && previousChildKey.Some? ==>
      0 < r.value && s[r.value - 1].key == previousChildKey.value &&
      forall j :: 0 <= j < r.value - 1 ==> s[j].key != previousChildKey.value
  {
    match previousChildKey
    case None => Some(0)
    case Some(k) =>
      match IndexForKey(s, k)
      case None => None
      case Some(i) => Some(i + 1)
  }

  /** The list with `x` inserted at index `i`: later elements move one place right. */
  function InsertAt<V>(s: seq<Snapshot<V>>, i: nat, x: Snapshot<V>): (r: seq<Snapshot<V>>)
    requires i <= |s|
    ensures |r| == |s| + 1 && r[i] == x
    ensures forall j :: 0 <= j < i ==> r[j] == s[j]
    ensures forall j :: i < j < |r| ==> r[j] == s[j - 1]
  {
    s[..i] + [x] + s[i..]
  }

  /** The list with the element at index `i` taken out: later elements move one place left. */
  function RemoveAt<V>(s: seq<Snapshot<V>>, i: nat): (r: seq<Snapshot<V>>)
    requires i < |s|
    ensures |r| == |s| - 1
    ensures forall j :: 0 <= j < i ==> r[j] == s[j]
    ensures forall j :: i <= j < |r| ==> r[j] == s[j + 1]
  {
    s[..i] + s[i + 1..]
  }

  /** Removing what was just inserted gives back the list. */
  lemma RemoveAtInsertAt<V>(s: seq<Snapshot<V>>, i: nat, x: Snapshot<V>)
    requires i <= |s|
    ensures RemoveAt(InsertAt(s, i, x), i) == s
  {
  }

  /** Putting back the element that was removed, at the index it was removed from, gives back
      the list. */
  lemma InsertAtRemoveAt<V>(s: seq<Snapshot<V>>, i: nat)
    requires i < |s|
    ensures InsertAt(RemoveAt(s, i), i, s[i]) == s
  {
  }

  /** A move takes the element at `oldIndex` out and puts `x` in at `newIndex` of what is left:
      the length is kept, `x` ends at `newIndex`, and taking it out again leaves exactly the
      other elements in their old order. */
  lemma MoveKeepsOthers<V>(s: seq<Snapshot<V>>, oldIndex: nat, newIndex: nat, x: Snapshot<V>)
    requires oldIndex < |s| && newIndex < |s|
    ensures var t := InsertAt(RemoveAt(s, oldIndex), newIndex, x);
      |t| == |s| && t[newIndex] == x && RemoveAt(t, newIndex) == RemoveAt(s, oldIndex)
  {
  }

  /** No two snapshots of the list share a key. */
  ghost predicate DistinctKeys<V>(s: seq<Snapshot<V>>) {
    forall i, j :: 0 <= i < j < |s| ==> s[i].key != s[j].key
  }

  /** In a list with distinct keys the lookup of an element's key finds that element. */
  lemma LookupFindsOwnIndex<V>(s: seq<Snapshot<V>>, i: nat)
    requires DistinctKeys(s) && i < |s|
    ensures IndexForKey(s, s[i].key) == Some(i)
  {
  }

  /** Inserting a child whose key is new keeps keys distinct, and the lookup of that key
      then gives the index it was inserted at. */
  lemma InsertFreshKey<V>(s: seq<Snapshot<V>>, i: nat, x: Snapshot<V>)
    requires DistinctKeys(s) && i <= |s| && IndexForKey(s, x.key).None?
    ensures DistinctKeys(InsertAt(s, i, x))
    ensures IndexForKey(InsertAt(s, i, x), x.key) == Some(i)
  {
  }

  /** Replacing an element by a snapshot with the same key keeps the keys as they were. */
  lemma ReplaceKeepsKeys<V>(s: seq<Snapshot<V>>, i: nat, x: Snapshot<V>)
    requires i < |s| && s[i].key == x.key
    ensures Keys(s[i := x]) == Keys(s)
    ensures forall k :: IndexForKey(s[i := x], k) == IndexForKey(s, k)
  {
  }

  /** Removing an element of a list with distinct keys keeps keys distinct, and its key is
      then no longer found. */
  lemma RemoveDropsKey<V>(s: seq<Snapshot<V>>, i: nat)
    requires DistinctKeys(s) && i < |s|
    ensures DistinctKeys(RemoveAt(s, i))
    ensures IndexForKey(RemoveAt(s, i), s[i].key).None?
  {
  }

  /** Moving a child of a list with distinct keys to a new index keeps keys distinct, and its
      key is then found at the new index. */
  lemma MoveKeepsDistinctKeys<V>(s: seq<Snapshot<V>>, oldIndex: nat, newIndex: nat, x: Snapshot<V>)
    requires DistinctKeys(s) && oldIndex < |s| && newIndex < |s| && s[oldIndex].key == x.key
    ensures DistinctKeys(InsertAt(RemoveAt(s, oldIndex), newIndex, x))
    ensures IndexForKey(InsertAt(RemoveAt(s, oldIndex), newIndex, x), x.key) == Some(newIndex)
  {
  }
}
