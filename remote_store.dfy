/** The ordered remote collection the window mirrors, seen only through the one
    read the window issues: `orderByKey()`, optionally `endAt(key)`, then
    `limitToLast(n)`. Keys stand for the collection's ordering keys; values are
    opaque payloads the window never inspects. */
module RemoteStore {

  type Key = int

  /** The serialised payload of one child; the model never looks inside. */
  type Value = seq<char>

  /** One child of the collection: its ordering key and its payload. */
  datatype Entry = Entry(key: Key, value: Value)

  datatype Option<T> = None | Some(value: T)

  function Min(a: int, b: int): int { if a <= b then a else b }

  /** Keys strictly increase along the sequence (so no key occurs twice). */
  predicate StrictlyAscending(s: seq<Entry>) {
    forall i, j :: 0 <= i < j < |s| ==> s[i].key < s[j].key
  }

  /** The children whose key is at most `k` (inclusive upper bound), in order. */
  function AtMost(remote: seq<Entry>, k: Key): (r: seq<Entry>)
    ensures |r| <= |remote|
    decreases |remote|
  {
    if remote == [] then []
    else
      if remote[0].key <= k then [remote[0]] + AtMost(remote[1..], k)
      else AtMost(remote[1..], k)
  }

  /** The children an `endAt` bound lets through: all of them without a bound. */
  function Eligible(remote: seq<Entry>, endAt: Option<Key>): seq<Entry> {
    match endAt
    case None => remote
    case Some(k) => AtMost(remote, k)
  }

  /** The answer to `orderByKey()[.endAt(key)].limitToLast(limit)` against the
      key-ordered snapshot `remote`: the last `limit` eligible children, in key order. */
  function RangeQuery(remote: seq<Entry>, limit: nat, endAt: Option<Key>): (r: seq<Entry>)
    ensures |r| == Min(limit, |Eligible(remote, endAt)|)
  {
    var eligible := Eligible(remote, endAt);
    if |eligible| <= limit then eligible else eligible[|eligible| - limit..]
  }

  /** The inclusive bound keeps exactly the children whose key is at most `k`. */
  lemma {:induction false} AtMostMembers(remote: seq<Entry>, k: Key)
    ensures forall e :: e in AtMost(remote, k) <==> e in remote && e.key <= k
    decreases |remote|
  {
    if remote != [] {
      assert remote == [remote[0]] + remote[1..];
      AtMostMembers(remote[1..], k);
    }
  }

  /** The inclusive bound keeps a key-ordered snapshot in key order. */
  lemma {:induction false} AtMostAscending(remote: seq<Entry>, k: Key)
    requires StrictlyAscending(remote)
    ensures StrictlyAscending(AtMost(remote, k))
    decreases |remote|
  {
    if remote != [] {
      var rest := remote[1..];
      var t := AtMost(rest, k);
      assert StrictlyAscending(t) by {
        forall i, j | 0 <= i < j < |rest| ensures rest[i].key < rest[j].key {
          assert rest[i] == remote[i + 1] && rest[j] == remote[j + 1];
        }
        AtMostAscending(rest, k);
      }
      if remote[0].key <= k {
        assert forall e :: e in t ==> remote[0].key < e.key by {
          AtMostMembers(rest, k);
          forall e | e in t ensures remote[0].key < e.key {
            var m :| 0 <= m < |rest| && rest[m] == e;
            assert rest[m] == remote[m + 1];
          }
        }
        var s := [remote[0]] + t;
        assert AtMost(remote, k) == s;
        forall i, j | 0 <= i < j < |s| ensures s[i].key < s[j].key {
          if i == 0 {
            assert s[j] == t[j - 1] && t[j - 1] in t;
          } else {
            assert s[i] == t[i - 1] && s[j] == t[j - 1];
          }
        }
      } else {
        assert AtMost(remote, k) == t;
      }
    }
  }

  /** Every child a read returns is a child of the collection within the bound,
      and on a key-ordered snapshot the read returns its children in key order. */
  lemma RangeQueryWithinBound(remote: seq<Entry>, limit: nat, endAt: Option<Key>)
    ensures forall e :: e in RangeQuery(remote, limit, endAt) ==>
              e in remote && (endAt.Some? ==> e.key <= endAt.value)
    ensures StrictlyAscending(remote) ==> StrictlyAscending(RangeQuery(remote, limit, endAt))
  {
    if endAt.Some? {
      AtMostMembers(remote, endAt.value);
      if StrictlyAscending(remote) {
        AtMostAscending(remote, endAt.value);
      }
    }
  }

  /** If the keys of the first `n` children are at most `k` and those of the
      rest exceed it, the inclusive bound keeps exactly the first `n`. */
  lemma {:induction false} AtMostSplit(remote: seq<Entry>, k: Key, n: nat)
    requires n <= |remote|
    requires forall j :: 0 <= j < n ==> remote[j].key <= k
    requires forall j :: n <= j < |remote| ==> k < remote[j].key
    ensures AtMost(remote, k) == remote[..n]
    decreases |remote|
  {
    if remote != [] {
      var rest := remote[1..];
      if n == 0 {
        assert k < remote[0].key;
        AtMostSplit(rest, k, 0);
      } else {
        assert remote[0].key <= k;
        forall j | 0 <= j < n - 1 ensures rest[j].key <= k {
          assert rest[j] == remote[j + 1];
        }
        forall j | n - 1 <= j < |rest| ensures k < rest[j].key {
          assert rest[j] == remote[j + 1];
        }
        AtMostSplit(rest, k, n - 1);
        assert [remote[0]] + rest[..n - 1] == remote[..n];
      }
    }
  }

  /** On a key-ordered snapshot, `endAt(remote[i].key)` lets through exactly
      the prefix that ends with child `i`. */
  lemma AtMostOfSorted(remote: seq<Entry>, i: nat)
    requires StrictlyAscending(remote)
    requires i < |remote|
    ensures AtMost(remote, remote[i].key) == remote[..i + 1]
  {
    AtMostSplit(remote, remote[i].key, i + 1);
  }

  /** Without a bound, `limitToLast(n)` returns the last `n` children (all of
      them if there are fewer). */
  lemma LastChildren(remote: seq<Entry>, n: nat)
    ensures RangeQuery(remote, n, None) == remote[|remote| - Min(n, |remote|)..]
  {
  }

  /** Bounded by child `i`'s key, `limitToLast(n)` returns the `n` children
      ending with child `i`: those from index `i + 1 - Min(n, i + 1)` to `i`. */
  lemma BoundedChildren(remote: seq<Entry>, i: nat, n: nat)
    requires StrictlyAscending(remote)
    requires i < |remote|
    ensures RangeQuery(remote, n, Some(remote[i].key)) == remote[i + 1 - Min(n, i + 1)..i + 1]
  {
    AtMostOfSorted(remote, i);
    var eligible := remote[..i + 1];
    if i + 1 > n {
      assert eligible[i + 1 - n..] == remote[i + 1 - n..i + 1];
    }
  }
}
