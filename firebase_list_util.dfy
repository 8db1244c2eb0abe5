/** An in-memory, key-ordered mirror of a remote ordered collection. It is fed
    from two sides: the backward loader pages older children onto the front,
    and the live follower keeps one standing child-added subscription anchored
    at the newest held key and appends what it delivers at the tail. */
module FirebaseListUtil {
  import opened RemoteStore

  /** Largest value of a Java `int`. */
  const MaxInt: int := 0x7fff_ffff

  /** A one-shot read: `orderByKey()`, optionally `.endAt(endAt)`, then
      `.limitToLast(limitToLast)`. */
  datatype Query = Query(limitToLast: nat, endAt: Option<Key>)

  /** The query the child-added listener is attached to: all children in key
      order, or those from an inclusive `startAt` key on. */
  datatype MonitorQuery = OrderByKey | StartAt(key: Key)

  /** What a load captures when it is requested: the read it issues, the child
      whose echo it ignores and the window size before it. */
  datatype PendingLoad = PendingLoad(query: Query, entryToIgnore: Option<Entry>, originalEntryNum: nat)

  /** A call on the registered `Listener`. */
  datatype Notification =
    | OlderEntriesLoaded(originalEntryNum: int, loadedEntryNum: int)
    | NewerEntriesLoaded(originalEntryNum: int, loadedEntryNum: int)

  /** A change to the set of child-added registrations at the remote store. */
  datatype ListenerOp = Removed(query: MonitorQuery) | Added(query: MonitorQuery)

  /** A child of a load result is skipped when it has the captured boundary's key. */
  predicate Ignored(entryToIgnore: Option<Entry>, child: Entry) {
    entryToIgnore.Some? && entryToIgnore.value.key == child.key
  }

  /** The children of a load result that are kept, in result order. */
  function Kept(entryToIgnore: Option<Entry>, children: seq<Entry>): (r: seq<Entry>)
    ensures |r| <= |children|
  {
    if children == [] then []
    else
      var last := children[|children| - 1];
      Kept(entryToIgnore, children[..|children| - 1]) + (if Ignored(entryToIgnore, last) then [] else [last])
  }

  /** A child is kept exactly when it is in the result and not ignored. */
  lemma {:induction false} KeptMembers(entryToIgnore: Option<Entry>, children: seq<Entry>)
    ensures forall e :: e in Kept(entryToIgnore, children) <==> e in children && !Ignored(entryToIgnore, e)
  {
    if children != [] {
      var n := |children| - 1;
      assert children == children[..n] + [children[n]];
      KeptMembers(entryToIgnore, children[..n]);
    }
  }

  /** The queries that carry a live child-added registration after a sequence
      of operations, one occurrence per registration: an addition registers the
      listener on its query, a removal takes one registration off the query it
      names and does nothing when that query has none. */
  function Live(ops: seq<ListenerOp>): multiset<MonitorQuery> {
    if ops == [] then multiset{}
    else
      var live := Live(ops[..|ops| - 1]);
      match ops[|ops| - 1]
      case Added(q) => live + multiset{q}
      case Removed(q) => live - multiset{q}
  }

  /** The registrations a consistent store has live: the monitor query alone,
      or none before the first one. */
  function LiveAt(monitor: Option<MonitorQuery>): multiset<MonitorQuery> {
    if monitor.Some? then multiset{monitor.value} else multiset{}
  }

  /** The registrations one re-anchoring performs: remove the listener from the
      previous query, if there is one, then add it to the next. */
  function ReanchorOps(previous: Option<MonitorQuery>, next: MonitorQuery): seq<ListenerOp> {
    (if previous.Some? then [Removed(previous.value)] else []) + [Added(next)]
  }

  /** The query the live follower is anchored at, for a given window. */
  function AnchorFor(items: seq<Entry>): (q: MonitorQuery)
    ensures forall k :: Delivers(Some(q), k) <==> items == [] || items[|items| - 1].key <= k
  {
    if items == [] then OrderByKey else StartAt(items[|items| - 1].key)
  }

  /** Whether the registration behind `monitor` can deliver a child with key `k`. */
  predicate Delivers(monitor: Option<MonitorQuery>, k: Key) {
    match monitor
    case None => false
    case Some(OrderByKey) => true
    case Some(StartAt(anchor)) => anchor <= k
  }

  /** Builds the list of new children of a load result, as `onDataChange` does. */
  method NewEntryList(entryToIgnore: Option<Entry>, children: seq<Entry>) returns (newEntries: seq<Entry>)
    ensures newEntries == Kept(entryToIgnore, children)
  {
    newEntries := [];
    for i := 0 to |children|
      invariant newEntries == Kept(entryToIgnore, children[..i])
    {
      var child := children[i];
      assert children[..i + 1] == children[..i] + [child];
      if !Ignored(entryToIgnore, child) {
        newEntries := newEntries + [child];
      }
    }
    assert children[..|children|] == children;
  }

  /** A prefix of a strictly ascending sequence is strictly ascending. */
  lemma PrefixAscending(s: seq<Entry>, n: nat)
    requires StrictlyAscending(s) && n <= |s|
    ensures StrictlyAscending(s[..n])
  {
  }

  /** Filtering a result keeps it strictly ascending. */
  lemma {:induction false} KeptAscending(entryToIgnore: Option<Entry>, children: seq<Entry>)
    requires StrictlyAscending(children)
    ensures StrictlyAscending(Kept(entryToIgnore, children))
  {
    if children != [] {
      var n := |children| - 1;
      var front := children[..n];
      var last := children[n];
      PrefixAscending(children, n);
      KeptAscending(entryToIgnore, front);
      var k := Kept(entryToIgnore, front);
      if !Ignored(entryToIgnore, last) {
        KeptMembers(entryToIgnore, front);
        forall i | 0 <= i < |k| ensures k[i].key < last.key {
          assert k[i] in front;
          var m :| 0 <= m < |front| && front[m] == k[i];
          assert children[m] == k[i];
        }
        var s := k + [last];
        assert Kept(entryToIgnore, children) == s;
        forall i, j | 0 <= i < j < |s| ensures s[i].key < s[j].key {
          if j < |k| {
            assert s[i] == k[i] && s[j] == k[j];
          } else {
            assert s[i] == k[i] && s[j] == last;
          }
        }
      } else {
        assert Kept(entryToIgnore, children) == k;
      }
    }
  }

  /** A result none of whose children is ignored is kept whole. */
  lemma {:induction false} KeptAll(entryToIgnore: Option<Entry>, children: seq<Entry>)
    requires forall e :: e in children ==> !Ignored(entryToIgnore, e)
    ensures Kept(entryToIgnore, children) == children
  {
    if children != [] {
      var n := |children| - 1;
      assert children == children[..n] + [children[n]];
      KeptAll(entryToIgnore, children[..n]);
    }
  }

  /** On a strictly ascending result, at most the one child carrying the
      boundary's key is dropped. */
  lemma {:induction false} KeptCount(entryToIgnore: Option<Entry>, children: seq<Entry>)
    requires StrictlyAscending(children)
    ensures |Kept(entryToIgnore, children)| ==
            |children| - (if exists e :: e in children && Ignored(entryToIgnore, e) then 1 else 0)
  {
    if children != [] {
      var n := |children| - 1;
      var front := children[..n];
      var last := children[n];
      assert children == front + [last];
      PrefixAscending(children, n);
      KeptCount(entryToIgnore, front);
      if Ignored(entryToIgnore, last) {
        forall e | e in front ensures !Ignored(entryToIgnore, e) {
          var m :| 0 <= m < |front| && front[m] == e;
          assert children[m].key < children[n].key;
        }
      }
    }
  }

  /** Splicing a load result onto the front keeps the window strictly ascending
      when the result is, and none of its keys exceeds the boundary key. */
  lemma SpliceAscending(entryToIgnore: Option<Entry>, result: seq<Entry>, items: seq<Entry>)
    requires StrictlyAscending(result) && StrictlyAscending(items)
    requires items != [] ==> entryToIgnore.Some? && entryToIgnore.value.key == items[0].key
    requires items != [] ==> forall e :: e in result ==> e.key <= items[0].key
    ensures StrictlyAscending(Kept(entryToIgnore, result) + items)
  {
    var k := Kept(entryToIgnore, result);
    KeptAscending(entryToIgnore, result);
    KeptMembers(entryToIgnore, result);
    var s := k + items;
    forall i, j | 0 <= i < j < |s| ensures s[i].key < s[j].key {
      if j < |k| {
        assert s[i] == k[i] && s[j] == k[j];
      } else if i >= |k| {
        assert s[i] == items[i - |k|] && s[j] == items[j - |k|];
      } else {
        assert s[i] == k[i] && k[i] in k;
        assert s[j] == items[j - |k|];
        assert items[0].key <= items[j - |k|].key;
      }
    }
  }

  /** Appending a child whose key exceeds the newest held key keeps the window
      strictly ascending. */
  lemma AppendAscending(items: seq<Entry>, e: Entry)
    requires StrictlyAscending(items)
    requires items != [] ==> items[|items| - 1].key < e.key
    ensures StrictlyAscending(items + [e])
  {
  }

  /** A child the anchored subscription delivers, other than the echo of the
      newest held child, extends a strictly ascending window in key order. */
  lemma DeliveredAppendAscending(items: seq<Entry>, monitor: Option<MonitorQuery>, e: Entry)
    requires items != [] ==> monitor == Some(StartAt(items[|items| - 1].key)) && items[|items| - 1].key != e.key
    ensures StrictlyAscending(items) && Delivers(monitor, e.key) ==> StrictlyAscending(items + [e])
  {
  }

  /** Re-anchoring from a consistent registration state leaves the listener
      registered on the next query alone. */
  lemma ReanchorLeavesNext(ops: seq<ListenerOp>, previous: Option<MonitorQuery>, next: MonitorQuery)
    requires Live(ops) == LiveAt(previous)
    ensures Live(ops + ReanchorOps(previous, next)) == multiset{next}
  {
    var all := ops + ReanchorOps(previous, next);
    var mid := if previous.Some? then ops + [Removed(previous.value)] else ops;
    assert all[..|all| - 1] == mid;
    if previous.Some? {
      assert mid[..|ops|] == ops;
      assert Live(mid) == multiset{previous.value} - multiset{previous.value};
    }
    assert Live(mid) == multiset{};
  }

  /** While re-anchoring, the listener is never registered on two queries at
      once: the old registration is removed before the new one is added. */
  lemma ReanchorNeverTwo(ops: seq<ListenerOp>, previous: Option<MonitorQuery>, next: MonitorQuery)
    requires Live(ops) == LiveAt(previous)
    ensures forall k :: |ops| <= k <= |ops + ReanchorOps(previous, next)| ==>
              |Live((ops + ReanchorOps(previous, next))[..k])| <= 1
  {
    var all := ops + ReanchorOps(previous, next);
    ReanchorLeavesNext(ops, previous, next);
    forall k | |ops| <= k <= |all| ensures |Live(all[..k])| <= 1 {
      if k == |ops| {
        assert all[..k] == ops;
      } else if k == |all| {
        assert all[..k] == all;
      } else {
        var mid := ops + [Removed(previous.value)];
        assert all[..k] == mid && mid[..|ops|] == ops;
        assert Live(mid) == multiset{previous.value} - multiset{previous.value};
      }
    }
  }

  /** Against a key-ordered snapshot, a load requested on the window
      `remote[lo..hi]` extends it to the contiguous slice that starts `num`
      children earlier (or at the first child), with no child twice and none
      missing; fewer than `num` are inserted exactly when history runs out. */
  lemma OlderPageExtendsSlice(remote: seq<Entry>, lo: nat, hi: nat, num: nat)
    requires StrictlyAscending(remote)
    requires lo < hi <= |remote|
    ensures Kept(Some(remote[lo]), RangeQuery(remote, num + 1, Some(remote[lo].key))) + remote[lo..hi]
            == remote[lo - Min(num, lo)..hi]
    ensures |Kept(Some(remote[lo]), RangeQuery(remote, num + 1, Some(remote[lo].key)))| == Min(num, lo)
  {
    var m := Min(num, lo);
    var result := RangeQuery(remote, num + 1, Some(remote[lo].key));
    BoundedChildren(remote, lo, num + 1);
    assert lo + 1 - Min(num + 1, lo + 1) == lo - m;
    assert result == remote[lo - m..lo + 1];
    KeptDropsBoundary(remote, lo - m, lo);
    var older := remote[lo - m..lo];
    assert Kept(Some(remote[lo]), result) == older;
    SlicesJoin(remote, lo - m, lo, hi);
  }

  /** Two adjacent slices join into one. */
  lemma SlicesJoin(s: seq<Entry>, a: nat, b: nat, c: nat)
    requires a <= b <= c <= |s|
    ensures s[a..b] + s[b..c] == s[a..c]
  {
  }

  /** A slice running to the end is the suffix from the same index. */
  lemma SuffixUpToEnd(s: seq<Entry>, a: nat)
    requires a <= |s|
    ensures s[a..|s|] == s[a..]
  {
  }

  /** A result that ends with the boundary child and holds only older children
      before it keeps exactly those older children. */
  lemma KeptDropsBoundary(remote: seq<Entry>, from: nat, lo: nat)
    requires StrictlyAscending(remote)
    requires from <= lo < |remote|
    ensures Kept(Some(remote[lo]), remote[from..lo + 1]) == remote[from..lo]
  {
    var result := remote[from..lo + 1];
    var older := remote[from..lo];
    assert result[..|result| - 1] == older;
    assert result[|result| - 1] == remote[lo];
    forall e | e in older ensures !Ignored(Some(remote[lo]), e) {
      var t :| 0 <= t < |older| && older[t] == e;
      assert older[t] == remote[from + t];
    }
    KeptAll(Some(remote[lo]), older);
  }

  /** The first load, on an empty window, keeps the last `num` children whole. */
  lemma FirstPageIsSuffix(remote: seq<Entry>, num: nat)
    ensures Kept(None, RangeQuery(remote, num, None)) == remote[|remote| - Min(num, |remote|)..]
  {
    LastChildren(remote, num);
    KeptAll(None, RangeQuery(remote, num, None));
  }

  /** The window store: the mirrored children, the monitor query the
      child-added listener is attached to, and the optional listener. */
  class WindowStore {
    /** The mirrored children, oldest first. */
    var items: seq<Entry>
    /** The query the child-added listener is attached to; None before the first one. */
    var monitor: Option<MonitorQuery>
    /** Whether a `Listener` has been set. */
    var hasListener: bool
    /** Every registration change made at the remote store, in order. */
    ghost var listenerOps: seq<ListenerOp>
    /** Every call made on the listener, in order. */
    var notifications: seq<Notification>

    /** The listener is registered on the current monitor query and nowhere
        else, and a non-empty window is followed from its newest key. */
    ghost predicate Valid()
      reads this`items, this`monitor, this`listenerOps
    {
      LiveAtMonitor() && (items != [] ==> monitor == Some(StartAt(items[|items| - 1].key)))
    }

    /** The listener is registered on the current monitor query and nowhere else. */
    ghost predicate LiveAtMonitor()
      reads this`monitor, this`listenerOps
    {
      Live(listenerOps) == LiveAt(monitor)
    }

    constructor ()
      ensures Valid()
      ensures items == [] && monitor == None && !hasListener
      ensures listenerOps == [] && notifications == []
    {
      items := [];
      monitor := None;
      hasListener := false;
      listenerOps := [];
      notifications := [];
    }

    /** Drops every mirrored child; the live registration stays as it is. */
    method Cleanup()
      requires Valid()
      modifies this`items
      ensures Valid()
      ensures items == []
      ensures monitor == old(monitor) && listenerOps == old(listenerOps)
    {
      items := [];
    }

    method GetCount() returns (n: int)
      ensures n == |items|
    {
      n := |items|;
    }

    method GetSnapshot(i: int) returns (e: Entry)
      requires 0 <= i < |items|
      ensures e == items[i]
    {
      e := items[i];
    }

    method SetListener(present: bool)
      modifies this`hasListener
      ensures hasListener == present
    {
      hasListener := present;
    }

    /** The request half of `loadOlderEntries(num)`: the read it issues and
        what it captures for the completion. */
    method BeginLoad(num: int) returns (p: PendingLoad)
      requires items == [] ==> 0 < num
      requires items != [] ==> 0 <= num < MaxInt
      ensures p.originalEntryNum == |items|
      ensures items == [] ==> p.query == Query(num, None) && p.entryToIgnore == None
      ensures items != [] ==>
                p.query == Query(num + 1, Some(items[0].key)) && p.entryToIgnore == Some(items[0])
    {
      var query;
      if |items| == 0 {
        query := Query(num, None);
      } else {
        query := Query(num + 1, Some(items[0].key));
      }
      var entryToIgnore := if |items| == 0 then None else Some(items[0]);
      p := PendingLoad(query, entryToIgnore, |items|);
    }

    /** `updateMonitorQuery`: moves the child-added listener to the query
        anchored at the newest held key. */
    method UpdateMonitorQuery()
      requires LiveAtMonitor()
      modifies this`monitor, this`listenerOps
      ensures Valid()
      ensures monitor == Some(AnchorFor(items))
      ensures listenerOps == old(listenerOps) + ReanchorOps(old(monitor), AnchorFor(items))
    {
      var next := AnchorFor(items);
      ReanchorLeavesNext(listenerOps, monitor, next);
      // The removal from the previous query, if any, then the addition to the next.
      listenerOps := listenerOps + ReanchorOps(monitor, next);
      monitor := Some(next);
    }

    /** The completion half of `loadOlderEntries`: `onDataChange` with the
        children of the read, in key order. */
    method CompleteLoad(p: PendingLoad, result: seq<Entry>)
      requires Valid()
      modifies this
      ensures Valid()
      ensures items == Kept(p.entryToIgnore, result) + old(items)
      ensures hasListener == old(hasListener)
      ensures notifications == old(notifications) +
                (if hasListener then [OlderEntriesLoaded(p.originalEntryNum, |items| - p.originalEntryNum)] else [])
      ensures monitor == Some(AnchorFor(items))
      ensures listenerOps == old(listenerOps) + ReanchorOps(old(monitor), AnchorFor(items))
      ensures StrictlyAscending(result) && StrictlyAscending(old(items)) &&
              (old(items) != [] ==> p.entryToIgnore == Some(old(items)[0]) &&
                                    forall e :: e in result ==> e.key <= old(items)[0].key)
              ==> StrictlyAscending(items)
    {
      if StrictlyAscending(result) && StrictlyAscending(items) &&
         (items != [] ==> p.entryToIgnore == Some(items[0]) &&
                          forall e :: e in result ==> e.key <= items[0].key) {
        SpliceAscending(p.entryToIgnore, result, items);
      }
      var newEntryList := NewEntryList(p.entryToIgnore, result);
      items := newEntryList + items;

      var loadedEntryNum := |items| - p.originalEntryNum;
      if hasListener {
        notifications := notifications + [OlderEntriesLoaded(p.originalEntryNum, loadedEntryNum)];
      }

      UpdateMonitorQuery();
    }

    /** `onChildAdded`: ignores the echo of the newest held child, otherwise
        appends the delivered child, reports it and re-anchors. */
    method OnChildAdded(e: Entry)
      requires Valid()
      modifies this
      ensures Valid()
      ensures hasListener == old(hasListener)
      ensures old(items) != [] && old(items)[|old(items)| - 1].key == e.key ==>
                items == old(items) && monitor == old(monitor) &&
                listenerOps == old(listenerOps) && notifications == old(notifications)
      ensures !(old(items) != [] && old(items)[|old(items)| - 1].key == e.key) ==>
                && items == old(items) + [e]
                && notifications == old(notifications) + [NewerEntriesLoaded(|old(items)|, 1)]
                && monitor == Some(StartAt(e.key))
                && listenerOps == old(listenerOps) + ReanchorOps(old(monitor), StartAt(e.key))
      ensures StrictlyAscending(old(items)) && Delivers(old(monitor), e.key) ==> StrictlyAscending(items)
    {
      if |items| != 0 {
        var entryToIgnore := items[|items| - 1];
        if entryToIgnore.key == e.key {
          return;
        }
      }
      DeliveredAppendAscending(items, monitor, e);

      var oldSize := |items|;
      items := items + [e];
      assert AnchorFor(items) == StartAt(e.key);
      notifications := notifications + [NewerEntriesLoaded(oldSize, 1)];
      UpdateMonitorQuery();
    }
  }

  /** What the chat screen asks for: a first load of `initial` children on the
      empty window, then, on scrolling up, `incremental` older ones, both
      answered from the same key-ordered snapshot. The first page is the last
      `initial` children; splicing the second in front of it gives the last
      `initial + incremental` children, each once (with ten children 1..10 and
      `initial == incremental == 3`: [8, 9, 10], then [5, ..., 10]). */
  lemma FirstLoadThenOlderPage(remote: seq<Entry>, initial: nat, incremental: nat, lo: nat)
    requires StrictlyAscending(remote)
    requires lo + initial == |remote| && incremental <= lo && 0 < initial
    ensures Kept(None, RangeQuery(remote, initial, None)) == remote[lo..]
    ensures Kept(Some(remote[lo]), RangeQuery(remote, incremental + 1, Some(remote[lo].key))) + remote[lo..]
            == remote[lo - incremental..]
  {
    assert Kept(None, RangeQuery(remote, initial, None)) == remote[lo..] by {
      FirstPageIsSuffix(remote, initial);
      assert |remote| - Min(initial, |remote|) == lo;
      assert remote[|remote| - Min(initial, |remote|)..] == remote[lo..];
    }
    var kept := Kept(Some(remote[lo]), RangeQuery(remote, incremental + 1, Some(remote[lo].key)));
    assert kept + remote[lo..|remote|] == remote[lo - incremental..|remote|] by {
      OlderPageExtendsSlice(remote, lo, |remote|, incremental);
      assert Min(incremental, lo) == incremental;
    }
    SuffixUpToEnd(remote, lo);
    SuffixUpToEnd(remote, lo - incremental);
    calc {
      kept + remote[lo..];
      kept + remote[lo..|remote|];
      remote[lo - incremental..|remote|];
      remote[lo - incremental..];
    }
  }
}
