/** The bounded scan history: a new entry goes to the head, any older entry
    with the same id is dropped, and the list is cut to its first 50
    entries. */
module HistoryStore {
  import opened Types

  const Capacity: nat := 50

  /** The entry built from a draft with the given id and timestamp. */
  function Entry(draft: Draft, id: string, timestamp: string): HistoryItem {
    HistoryItem(id, draft.image, draft.result, timestamp, draft.points)
  }

  /** `slice(0, n)`: the first `n` elements, or all of them when fewer. */
  function Take<T>(s: seq<T>, n: nat): (r: seq<T>)
    ensures |r| == if |s| <= n then |s| else n
    ensures forall k :: 0 <= k < |r| ==> r[k] == s[k]
  {
    if |s| <= n then s else s[..n]
  }

  /** `filter(h => h.id !== id)`: the entries whose id differs from `id`,
      in their original order. */
  function Without(s: seq<HistoryItem>, id: string): (r: seq<HistoryItem>)
    ensures |r| <= |s|
    ensures forall x :: x in r <==> x in s && x.id != id
  {
    if s == [] then []
    else (if s[0].id == id then [] else [s[0]]) + Without(s[1..], id)
  }

  /** The history after adding `draft` under `id` and `timestamp` to `prev`. */
  function Append(prev: seq<HistoryItem>, draft: Draft, id: string, timestamp: string): (r: seq<HistoryItem>)
    ensures 1 <= |r| <= Capacity
    ensures r[0] == Entry(draft, id, timestamp)
    ensures forall k :: 1 <= k < |r| ==> r[k].id != id && r[k] in prev
    ensures |r| == if 1 + |Without(prev, id)| <= Capacity then 1 + |Without(prev, id)| else Capacity
    ensures r[1..] == Without(prev, id)[..|r| - 1]
  {
    Take([Entry(draft, id, timestamp)] + Without(prev, id), Capacity)
  }

  /** No two entries share an id. */
  ghost predicate UniqueIds(s: seq<HistoryItem>) {
    forall i, j :: 0 <= i < j < |s| ==> s[i].id != s[j].id
  }

  /** `r` can be obtained from `s` by deleting elements (order kept). */
  ghost predicate IsSubsequence<T>(r: seq<T>, s: seq<T>)
    decreases |s|
  {
    r == [] || (s != [] && ((r[0] == s[0] && IsSubsequence(r[1..], s[1..])) || IsSubsequence(r, s[1..])))
  }

  lemma {:induction false} WithoutIsSubsequence(s: seq<HistoryItem>, id: string)
    ensures IsSubsequence(Without(s, id), s)
  {
    if s != [] {
      WithoutIsSubsequence(s[1..], id);
      if s[0].id != id {
        assert Without(s, id) == [s[0]] + Without(s[1..], id);
        assert Without(s, id)[1..] == Without(s[1..], id);
      } else {
        assert Without(s, id) == Without(s[1..], id);
      }
    }
  }

  /** The filter keeps every copy of a surviving entry and drops every copy
      of an entry with the id. */
  lemma {:induction false} WithoutCount(s: seq<HistoryItem>, id: string, x: HistoryItem)
    ensures multiset(Without(s, id))[x] == if x.id != id then multiset(s)[x] else 0
  {
    if s != [] {
      WithoutCount(s[1..], id, x);
      assert s == [s[0]] + s[1..];
      assert Without(s, id) == (if s[0].id == id then [] else [s[0]]) + Without(s[1..], id);
    }
  }

  lemma {:induction false} WithoutAbsentId(s: seq<HistoryItem>, id: string)
    requires forall x :: x in s ==> x.id != id
    ensures Without(s, id) == s
  {
    if s != [] {
      assert s[0] in s;
      assert forall x :: x in s[1..] ==> x in s;
      WithoutAbsentId(s[1..], id);
      assert s == [s[0]] + s[1..];
    }
  }

  lemma UniqueIdsTail(s: seq<HistoryItem>)
    requires UniqueIds(s) && s != []
    ensures UniqueIds(s[1..])
  {
    forall i, j | 0 <= i < j < |s[1..]| ensures s[1..][i].id != s[1..][j].id {
      assert s[1..][i] == s[i + 1] && s[1..][j] == s[j + 1];
    }
  }

  /** Putting an entry whose id is new in front keeps ids unique. */
  lemma UniqueIdsCons(x: HistoryItem, rest: seq<HistoryItem>)
    requires UniqueIds(rest)
    requires forall y :: y in rest ==> y.id != x.id
    ensures UniqueIds([x] + rest)
  {
    var r := [x] + rest;
    forall i, j | 0 <= i < j < |r| ensures r[i].id != r[j].id {
      assert r[j] == rest[j - 1];
      if i == 0 {
        assert r[j] in rest;
      } else {
        assert r[i] == rest[i - 1];
      }
    }
  }

  lemma {:induction false} WithoutKeepsUniqueIds(s: seq<HistoryItem>, id: string)
    requires UniqueIds(s)
    ensures UniqueIds(Without(s, id))
  {
    if s != [] {
      var rest := Without(s[1..], id);
      UniqueIdsTail(s);
      WithoutKeepsUniqueIds(s[1..], id);
      if s[0].id != id {
        forall y | y in rest ensures y.id != s[0].id {
          var j :| 0 <= j < |s[1..]| && s[1..][j] == y;
          assert s[j + 1] == y;
        }
        UniqueIdsCons(s[0], rest);
        assert Without(s, id) == [s[0]] + rest;
      } else {
        assert Without(s, id) == rest;
      }
    }
  }

  /** Ids stay unique across an append. */
  lemma AppendKeepsUniqueIds(prev: seq<HistoryItem>, draft: Draft, id: string, timestamp: string)
    requires UniqueIds(prev)
    ensures UniqueIds(Append(prev, draft, id, timestamp))
  {
    var r := Append(prev, draft, id, timestamp);
    var all := [Entry(draft, id, timestamp)] + Without(prev, id);
    WithoutKeepsUniqueIds(prev, id);
    forall i, j | 0 <= i < j < |r| ensures r[i].id != r[j].id {
      assert r[i] == all[i] && r[j] == all[j];
      if i > 0 {
        assert all[i] == Without(prev, id)[i - 1] && all[j] == Without(prev, id)[j - 1];
      }
    }
  }

  /** A fresh id below capacity makes the history grow by exactly the new entry. */
  lemma AppendFreshGrows(prev: seq<HistoryItem>, draft: Draft, id: string, timestamp: string)
    requires forall x :: x in prev ==> x.id != id
    ensures Append(prev, draft, id, timestamp) == Take([Entry(draft, id, timestamp)] + prev, Capacity)
    ensures |prev| < Capacity ==> |Append(prev, draft, id, timestamp)| == |prev| + 1
  {
    WithoutAbsentId(prev, id);
  }

  /** The filter of a non-empty list: its head, if kept, then the filter of its tail. */
  lemma WithoutUnfold(s: seq<HistoryItem>, id: string)
    requires s != []
    ensures Without(s, id) == (if s[0].id == id then [] else [s[0]]) + Without(s[1..], id)
  {
  }

  lemma PrefixOfConcat<T>(a: seq<T>, b: seq<T>, n: nat)
    requires |a| <= n <= |a| + |b|
    ensures (a + b)[..n] == a + b[..n - |a|]
  {
  }

  /** Every prefix of the filter is the filter of a prefix: `m` is where it is cut. */
  lemma {:induction false} WithoutPrefix(s: seq<HistoryItem>, id: string, n: nat) returns (m: nat)
    requires n <= |Without(s, id)|
    ensures m <= |s| && Without(s, id)[..n] == Without(s[..m], id)
  {
    if n == 0 {
      m := 0;
      assert Without(s, id)[..0] == [] == Without(s[..0], id);
    } else {
      var head := if s[0].id == id then [] else [s[0]];
      var tail := Without(s[1..], id);
      WithoutUnfold(s, id);
      var m' := WithoutPrefix(s[1..], id, n - |head|);
      m := m' + 1;
      var p := s[..m];
      assert p[0] == s[0] && p[1..] == s[1..][..m'];
      WithoutUnfold(p, id);
      PrefixOfConcat(head, tail, n);
    }
  }

  /** The entries after the head are the prior list, cut after some entry, with
      the entries carrying the new id removed; their relative order is kept,
      and when they fit, every survivor is kept. */
  lemma AppendTail(prev: seq<HistoryItem>, draft: Draft, id: string, timestamp: string)
    ensures var r := Append(prev, draft, id, timestamp);
      && (exists m :: 0 <= m <= |prev| && r[1..] == Without(prev[..m], id))
      && IsSubsequence(r[1..], prev)
      && (|Without(prev, id)| < Capacity ==> r[1..] == Without(prev, id))
  {
    var r := Append(prev, draft, id, timestamp);
    var w := Without(prev, id);
    assert r[1..] == w[..|r| - 1];
    var m := WithoutPrefix(prev, id, |r| - 1);
    WithoutIsSubsequence(prev[..m], id);
    PrefixSubsequence(r[1..], prev[..m], prev);
  }

  lemma {:induction false} PrefixSubsequence<T>(r: seq<T>, p: seq<T>, s: seq<T>)
    requires IsSubsequence(r, p) && p <= s
    ensures IsSubsequence(r, s)
    decreases |p|
  {
    if r != [] {
      assert p != [] && p[0] == s[0];
      assert p[1..] <= s[1..];
      if r[0] == p[0] && IsSubsequence(r[1..], p[1..]) {
        PrefixSubsequence(r[1..], p[1..], s[1..]);
      } else {
        PrefixSubsequence(r, p[1..], s[1..]);
      }
    }
  }

  /** One call of the scanner's callback, with the id and time it was given. */
  datatype Scan = Scan(draft: Draft, id: string, timestamp: string)

  /** The history after the given scans, in order, from an empty history. */
  function Replay(scans: seq<Scan>): (h: seq<HistoryItem>)
    ensures |h| <= Capacity
  {
    if scans == [] then []
    else
      var last := scans[|scans| - 1];
      Append(Replay(scans[..|scans| - 1]), last.draft, last.id, last.timestamp)
  }

  /** The entries of the given scans, most recent first. */
  function NewestFirst(scans: seq<Scan>): (h: seq<HistoryItem>)
    ensures |h| == |scans|
  {
    if scans == [] then []
    else
      var last := scans[|scans| - 1];
      [Entry(last.draft, last.id, last.timestamp)] + NewestFirst(scans[..|scans| - 1])
  }

  ghost predicate DistinctIds(scans: seq<Scan>) {
    forall i, j :: 0 <= i < j < |scans| ==> scans[i].id != scans[j].id
  }

  lemma {:induction false} NewestFirstIds(scans: seq<Scan>, x: HistoryItem)
    requires x in NewestFirst(scans)
    ensures exists i :: 0 <= i < |scans| && scans[i].id == x.id
  {
    var last := scans[|scans| - 1];
    if x != Entry(last.draft, last.id, last.timestamp) {
      NewestFirstIds(scans[..|scans| - 1], x);
      var i :| 0 <= i < |scans| - 1 && scans[..|scans| - 1][i].id == x.id;
      assert scans[i].id == x.id;
    }
  }

  /** Cutting before or after putting an element in front gives the same list. */
  lemma TakeConsTake<T>(e: T, q: seq<T>, n: nat)
    ensures Take([e] + Take(q, n), n) == Take([e] + q, n)
  {
    var a, b := Take([e] + Take(q, n), n), Take([e] + q, n);
    assert |a| == |b|;
    forall k | 0 <= k < |a| ensures a[k] == b[k] {
      if k > 0 {
        assert a[k] == Take(q, n)[k - 1];
      }
    }
  }

  /** Every entry of a replayed history carries the id of an earlier scan. */
  lemma ReplayIdsFrom(init: seq<Scan>, last: Scan)
    requires DistinctIds(init + [last])
    requires Replay(init) == Take(NewestFirst(init), Capacity)
    ensures forall x :: x in Replay(init) ==> x.id != last.id
  {
    var s := init + [last];
    forall x | x in Replay(init) ensures x.id != last.id {
      var k :| 0 <= k < |Replay(init)| && Replay(init)[k] == x;
      assert x in NewestFirst(init);
      NewestFirstIds(init, x);
      var i :| 0 <= i < |init| && init[i].id == x.id;
      assert s[i] == init[i] && s[|init|] == last;
    }
  }

  /** Appending N scans with distinct ids to an empty history leaves the
      min(N, 50) most recent entries, newest first. */
  lemma {:induction false} ReplayKeepsNewest(scans: seq<Scan>)
    requires DistinctIds(scans)
    ensures Replay(scans) == Take(NewestFirst(scans), Capacity)
    ensures |Replay(scans)| == if |scans| <= Capacity then |scans| else Capacity
  {
    if scans != [] {
      var init := scans[..|scans| - 1];
      var last := scans[|scans| - 1];
      assert scans == init + [last];
      assert DistinctIds(init);
      ReplayKeepsNewest(init);
      ReplayIdsFrom(init, last);
      AppendFreshGrows(Replay(init), last.draft, last.id, last.timestamp);
      var e := Entry(last.draft, last.id, last.timestamp);
      assert NewestFirst(scans) == [e] + NewestFirst(init);
      TakeConsTake(e, NewestFirst(init), Capacity);
    }
  }

  /** The app's history state; every update replaces it with `Append`'s result. */
  class Store {
    var items: seq<HistoryItem>

    ghost predicate Valid()
      reads this
    {
      |items| <= Capacity && UniqueIds(items)
    }

    constructor ()
      ensures Valid() && items == []
    {
      items := [];
    }

    /** `handleAddToHistory`, with the generated id and timestamp as parameters. */
    method Add(draft: Draft, id: string, timestamp: string)
      requires Valid()
      modifies this
      ensures Valid()
      ensures items == Append(old(items), draft, id, timestamp)
    {
      AppendKeepsUniqueIds(items, draft, id, timestamp);
      items := Append(items, draft, id, timestamp);
    }
  }
}
