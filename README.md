# FirebaseListUtil, modelled in Dafny

`FirebaseListUtil` keeps an in-memory, key-ordered mirror (`mSnapshotList`) of a
remote collection that is ordered by key. Two mechanisms feed it:

- The **backward loader** (`loadOlderEntries`) pages older children onto the
  front of the mirror. On a non-empty window it asks for one child more than it
  needs, bounded inclusively by the oldest held key. It then drops whichever
  returned child has that boundary key.
- The **live follower** keeps one child-added listener on a query that starts
  inclusively at the newest held key. It ignores the echo of that newest child,
  appends every other delivered child at the tail and moves the listener to the
  new tail after each append.

The model has two modules.

- `RemoteStore` (`remote_store.dfy`) is the collection as the window sees it.
  It has integer keys, opaque payloads and one read:
  `orderByKey()[.endAt(k)].limitToLast(n)`. That read is `RangeQuery` over a
  key-ordered snapshot. The module also proves what the read returns on a
  strictly ascending snapshot.
- `FirebaseListUtil` (`firebase_list_util.dfy`) is the component. Class
  `WindowStore` holds the source's fields:
  - `items` is `mSnapshotList`;
  - `monitor` is `mMonitorQuery`: none, `OrderByKey`, or `StartAt(key)`;
  - `hasListener` says whether `mListener` is set.

  Two logs record what the component does to the outside:
  - `listenerOps` is a ghost log of every `removeEventListener` and
    `addChildEventListener` call;
  - `notifications` logs every call made on the `Listener`.

  The asynchronous `loadOlderEntries` is split in two. `BeginLoad` returns what
  the request captures (the query, `entryToIgnore`, `originalEntryNum`).
  `CompleteLoad` is `onDataChange`, applied to the children of the read.
  `OnChildAdded` is the child-added callback. `UpdateMonitorQuery` is the
  re-anchoring step.

The object invariant `Valid()` has two parts. First, the child-added listener is
registered on the current monitor query and nowhere else. `Live(listenerOps)`
is the multiset of queries that still carry a registration once the log has
been replayed. An addition registers its query, and a removal takes one
registration off the query it names. That multiset is `{monitor}` when
`monitor` is set and empty otherwise. Second, a non-empty window is followed
from its newest key. Every operation preserves the invariant.

The source's `loadedEntryNum` is computed as written. It is the size after the
splice minus the `originalEntryNum` captured at request time. If live children
were appended while a load was in flight, this count also includes them. The
`CompleteLoad` contract states that value exactly.

Two behaviours of the source worth noting:
- `cleanup()` only clears the list. It does not remove the child-added
  listener. So `Cleanup` leaves `monitor` and `listenerOps` as they are, and a
  child delivered after it is still appended.
- Read failures are ignored (`onCancelled` does nothing). No failure result is
  modelled.

## Model

| member | source | states |
|---|---|---|
| `FirebaseListUtil.WindowStore.constructor` | app/src/main/java/com/firebase/androidchat/FirebaseListUtil.java:33-36 | A new store has an empty window, no monitor query, no listener and empty logs, and satisfies the invariant |
| `FirebaseListUtil.WindowStore.Cleanup` | app/src/main/java/com/firebase/androidchat/FirebaseListUtil.java:38-41 | The window becomes empty. Only `items` may change, so the monitor query and its registration stay as they were, and the invariant holds |
| `FirebaseListUtil.WindowStore.GetCount` | app/src/main/java/com/firebase/androidchat/FirebaseListUtil.java:43-45 | The count is the window length |
| `FirebaseListUtil.WindowStore.GetSnapshot` | app/src/main/java/com/firebase/androidchat/FirebaseListUtil.java:47-49 | For `0 <= i < count`, the result is entry `i` of the window |
| `FirebaseListUtil.WindowStore.SetListener` | app/src/main/java/com/firebase/androidchat/FirebaseListUtil.java:51-53 | Only the listener's presence changes |
| `FirebaseListUtil.WindowStore.BeginLoad` | app/src/main/java/com/firebase/androidchat/FirebaseListUtil.java:55-66 | An empty window asks for the last `num` children with no bound and ignores nothing. A non-empty window asks for the last `num + 1` children with inclusive upper bound equal to the oldest held key, and captures the oldest entry to ignore. Both capture the window size before the load |
| `FirebaseListUtil.WindowStore.CompleteLoad` | app/src/main/java/com/firebase/androidchat/FirebaseListUtil.java:70-88 | The new window is the kept children in result order, followed by the held entries unchanged. If a listener is set, exactly one `(originalEntryNum, newSize - originalEntryNum)` report is logged; otherwise none. The listener is then re-anchored at the new newest key. If the result and the window are strictly ascending and no result key exceeds the captured boundary key, the window stays strictly ascending |
| `FirebaseListUtil.WindowStore.UpdateMonitorQuery` | app/src/main/java/com/firebase/androidchat/FirebaseListUtil.java:97-111 | The monitor query becomes `OrderByKey` for an empty window and `StartAt(newest key)` otherwise. The log gains the removal from the previous query (if there was one), then the addition to the new one. The invariant holds afterwards: the listener is registered on the new query and nowhere else |
| `FirebaseListUtil.WindowStore.OnChildAdded` | app/src/main/java/com/firebase/androidchat/FirebaseListUtil.java:116-128 | A child with the newest held key changes nothing: no append, no report, no re-anchor. Any other child, including any child on an empty window, is appended at the tail. Then `(oldSize, 1)` is logged and the listener is re-anchored at the child's key. If the window was strictly ascending and the child's key is one the installed query delivers (at least its `startAt` key), the window stays strictly ascending |
| `FirebaseListUtil.NewEntryList` | app/src/main/java/com/firebase/androidchat/FirebaseListUtil.java:71-79 | The loop that builds the new-children list returns exactly `Kept` of the result |
| `FirebaseListUtil.Kept` | app/src/main/java/com/firebase/androidchat/FirebaseListUtil.java:72-79 | Filtering never lengthens the result |
| `FirebaseListUtil.KeptMembers` | app/src/main/java/com/firebase/androidchat/FirebaseListUtil.java:73-78 | A child is kept if and only if it is in the result and its key differs from the captured boundary's key |
| `FirebaseListUtil.KeptAscending` | app/src/main/java/com/firebase/androidchat/FirebaseListUtil.java:71-79 | Filtering keeps a strictly ascending result strictly ascending, so result order is preserved |
| `FirebaseListUtil.KeptAll` | app/src/main/java/com/firebase/androidchat/FirebaseListUtil.java:73-78 | A result with no child carrying the boundary key is kept whole. With no boundary, as on the first load, everything is kept |
| `FirebaseListUtil.KeptCount` | app/src/main/java/com/firebase/androidchat/FirebaseListUtil.java:60-62 | On a strictly ascending result, exactly one child is dropped if some child has the boundary key, and none otherwise. So over-fetching by one costs at most one child |
| `FirebaseListUtil.KeptDropsBoundary` | app/src/main/java/com/firebase/androidchat/FirebaseListUtil.java:65-78 | Take a result made of older children followed by the boundary child. Exactly those older children are kept |
| `FirebaseListUtil.SpliceAscending` | app/src/main/java/com/firebase/androidchat/FirebaseListUtil.java:60-80 | Let the result and the window be strictly ascending, let the captured boundary have the oldest held key, and let no result key exceed it. Then kept children followed by the window are strictly ascending, with no duplicate key |
| `FirebaseListUtil.DeliveredAppendAscending` | app/src/main/java/com/firebase/androidchat/FirebaseListUtil.java:117-125 | Take a window followed from its newest key and a delivered child that is not the echo of that key. If the subscription delivers the child's key, appending it keeps a strictly ascending window strictly ascending |
| `FirebaseListUtil.AppendAscending` | app/src/main/java/com/firebase/androidchat/FirebaseListUtil.java:117-125 | Appending a child whose key exceeds the newest held key keeps the window strictly ascending |
| `FirebaseListUtil.AnchorFor` | app/src/main/java/com/firebase/androidchat/FirebaseListUtil.java:102-107 | The re-anchored subscription delivers exactly the children whose key is at least the newest held key, and every child on an empty window. So it re-delivers the newest held child itself |
| `FirebaseListUtil.ReanchorLeavesNext` | app/src/main/java/com/firebase/androidchat/FirebaseListUtil.java:98-109 | Start where the listener is registered on the previous query alone, or nowhere if there is none. After the removal and the addition, it is registered on the next query alone |
| `FirebaseListUtil.ReanchorNeverTwo` | app/src/main/java/com/firebase/androidchat/FirebaseListUtil.java:98-109 | Under the same start, at no step of the re-anchoring is the listener registered more than once, because the removal precedes the addition |
| `FirebaseListUtil.OlderPageExtendsSlice` | app/src/main/java/com/firebase/androidchat/FirebaseListUtil.java:57-80 | Take a strictly ascending snapshot and a window that is the slice `remote[lo..hi]`. The page a load asks for, with the boundary child dropped and the window appended, is the contiguous slice starting `min(num, lo)` children earlier: no child twice, none missing. Exactly `min(num, lo)` children are inserted, so fewer than `num` means the history is exhausted |
| `FirebaseListUtil.FirstPageIsSuffix` | app/src/main/java/com/firebase/androidchat/FirebaseListUtil.java:57-58 | On an empty window, the load keeps the last `num` children of the collection whole (all of them if there are fewer) |
| `FirebaseListUtil.FirstLoadThenOlderPage` | app/src/main/java/com/firebase/androidchat/FirebaseListUtil.java:55-80 | A first load of `initial` children yields the last `initial`. A following load of `incremental` older ones yields the last `initial + incremental`, each once. With keys 1..10 and 3 each time, that is [8, 9, 10] and then [5, ..., 10] |
| `RemoteStore.AtMost` | app/src/main/java/com/firebase/androidchat/FirebaseListUtil.java:60-61 | The inclusive `endAt` bound never adds children |
| `RemoteStore.AtMostMembers` | app/src/main/java/com/firebase/androidchat/FirebaseListUtil.java:60-61 | A child passes the inclusive `endAt(k)` bound if and only if it is in the collection and its key is at most `k` |
| `RemoteStore.AtMostSplit` | app/src/main/java/com/firebase/androidchat/FirebaseListUtil.java:60-61 | If the first `n` keys are at most `k` and the rest exceed it, the bound keeps exactly the first `n` children |
| `RemoteStore.AtMostOfSorted` | app/src/main/java/com/firebase/androidchat/FirebaseListUtil.java:60-61 | On a strictly ascending snapshot, bounding by child `i`'s key keeps exactly the prefix ending with child `i` |
| `RemoteStore.AtMostAscending` | app/src/main/java/com/firebase/androidchat/FirebaseListUtil.java:60-61 | On a strictly ascending snapshot, the `endAt` bound keeps the children in key order |
| `RemoteStore.RangeQuery` | app/src/main/java/com/firebase/androidchat/FirebaseListUtil.java:58-62 | A `limitToLast(n)` read returns `min(n, number of eligible children)` children |
| `RemoteStore.RangeQueryWithinBound` | app/src/main/java/com/firebase/androidchat/FirebaseListUtil.java:58-62 | Every child a read returns is in the collection and within its `endAt` bound. On a strictly ascending snapshot, the read is strictly ascending too. With the bound at the oldest held key, these are the two facts `CompleteLoad`'s ascending clause asks of a result |
| `RemoteStore.BoundedChildren` | app/src/main/java/com/firebase/androidchat/FirebaseListUtil.java:60-62 | On a strictly ascending snapshot, `endAt(remote[i].key).limitToLast(n)` returns the `min(n, i + 1)` children that end with child `i` |

## Left out

- The Firebase SDK is left out: `Query` construction, `DataSnapshot`, and Firebase's ordering of string keys. Keys are integers and payloads are opaque strings. The remote collection appears only as the snapshot that `RangeQuery` reads.
- Callbacks are not scheduled asynchronously. Each callback (`CompleteLoad`, `OnChildAdded`) is one atomic method call on one thread. A load in flight is the `PendingLoad` value held by the caller between `BeginLoad` and `CompleteLoad`.
- The caller (`MainActivity.java`) is not part of this model, including its `mLoading` flag that keeps at most one load in flight. The model does not enforce that. Overlapping loads can be expressed, and their outcome follows the contracts.
- The ordered child-added subscription itself is not modelled. Which keys a registration delivers appears only as the predicate `Delivers`, used as a hypothesis in `OnChildAdded`'s ascending clause.
- `onCancelled` of the one-shot read, and `onChildChanged`, `onChildRemoved`, `onChildMoved` and `onCancelled` of the child listener, have empty bodies in the source. They are not modelled because they change nothing.
- The `previousChildKey` argument of `onChildAdded` is unused by the source and is not modelled.
- `FirebaseListUtil.WindowStore.OnChildAdded`: the source calls `mListener.onNewerEntriesLoaded` without a null check, which throws when no listener is set. The model always logs the notification and does not model that exception.
- `FirebaseListUtil.WindowStore.BeginLoad`: the SDK rejects a limit below one. So on an empty window the model requires `num > 0`, and on a non-empty window, where the limit is `num + 1`, it requires `num >= 0`. On a non-empty window it also requires `num < 2^31 - 1`, because at `Integer.MAX_VALUE` the source's `num + 1` wraps to a negative limit. That overflow and the SDK's exception are not modelled.
- `FirebaseListUtil.WindowStore.GetSnapshot`: requires `0 <= i < count`. Outside that range the source's `List.get` throws `IndexOutOfBoundsException`, which is not modelled. The chat screen only asks for positions within the count.
- Counts are unbounded integers. A window longer than `Integer.MAX_VALUE` entries, where Java's `int` sizes would overflow, is not modelled.
- The `Listener` object is modelled only by whether one is set. Its calls are recorded in `notifications`.
