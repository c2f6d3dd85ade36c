/** Ordering messages by creation time. Both sorts the program relies on
    order by `createdAt` alone: the client's `Array.prototype.sort` with
    `(a, b) => a.createdAt - b.createdAt` (stable, oldest first) and the
    database's `sort({ createdAt: -1 })` (newest first). One insertion sort
    stands for both and is proved stable. The client's sort is stable too;
    for the database, keeping ties in storage order is a choice of this
    model, since the database leaves their order open. */
module TimeOrder {
  import opened Domain

  /** The sort key: creation time, negated for newest-first. */
  function Key(m: Message, newestFirst: bool): int {
    if newestFirst then -m.createdAt else m.createdAt
  }

  predicate Sorted(s: seq<Message>, newestFirst: bool) {
    forall i, j :: 0 <= i < j < |s| ==> Key(s[i], newestFirst) <= Key(s[j], newestFirst)
  }

  predicate UniqueIds(s: seq<Message>) {
    forall i, j :: 0 <= i < j < |s| ==> s[i].id != s[j].id
  }

  /** Places `x` after every element of `t`, taken from the back, whose key
      is not greater than its own: among equal keys `x` comes last. */
  function Insert(t: seq<Message>, x: Message, newestFirst: bool): (r: seq<Message>)
    ensures |r| == |t| + 1
    ensures multiset(r) == multiset(t) + multiset{x}
    decreases |t|
  {
    if t == [] then [x]
    else if Key(t[|t| - 1], newestFirst) <= Key(x, newestFirst) then t + [x]
    else
      assert t == t[..|t| - 1] + [t[|t| - 1]];
      Insert(t[..|t| - 1], x, newestFirst) + [t[|t| - 1]]
  }

  /** Stable insertion sort by creation time. */
  function Sort(s: seq<Message>, newestFirst: bool): (r: seq<Message>)
    ensures |r| == |s|
    ensures multiset(r) == multiset(s)
    decreases |s|
  {
    if s == [] then []
    else
      assert s == s[..|s| - 1] + [s[|s| - 1]];
      Insert(Sort(s[..|s| - 1], newestFirst), s[|s| - 1], newestFirst)
  }

  /** An element of a reordering of `t` is an element of `t`. */
  lemma InMultiset(r: seq<Message>, t: seq<Message>, i: nat)
    requires multiset(r) == multiset(t) && i < |r|
    ensures exists k :: 0 <= k < |t| && t[k] == r[i]
  {
    assert r[i] in multiset(r);
    assert r[i] in t;
  }

  /** Inserting an element under a bound into a list under it stays under it. */
  lemma {:induction false} InsertBounded(t: seq<Message>, x: Message, newestFirst: bool, b: int)
    requires forall i :: 0 <= i < |t| ==> Key(t[i], newestFirst) <= b
    requires Key(x, newestFirst) <= b
    ensures forall i :: 0 <= i < |t| + 1 ==> Key(Insert(t, x, newestFirst)[i], newestFirst) <= b
    decreases |t|
  {
    if t != [] && Key(t[|t| - 1], newestFirst) > Key(x, newestFirst) {
      InsertBounded(t[..|t| - 1], x, newestFirst, b);
      assert Insert(t, x, newestFirst) == Insert(t[..|t| - 1], x, newestFirst) + [t[|t| - 1]];
    }
  }

  lemma {:induction false} InsertSorted(t: seq<Message>, x: Message, newestFirst: bool)
    requires Sorted(t, newestFirst)
    ensures Sorted(Insert(t, x, newestFirst), newestFirst)
    decreases |t|
  {
    if t != [] && Key(t[|t| - 1], newestFirst) > Key(x, newestFirst) {
      var last := t[|t| - 1];
      var front := t[..|t| - 1];
      assert Sorted(front, newestFirst);
      InsertSorted(front, x, newestFirst);
      InsertBounded(front, x, newestFirst, Key(last, newestFirst));
      var r0 := Insert(front, x, newestFirst);
      var r := r0 + [last];
      assert Insert(t, x, newestFirst) == r;
      forall i, j | 0 <= i < j < |r| ensures Key(r[i], newestFirst) <= Key(r[j], newestFirst) {
        assert r[i] == r0[i];
        if j < |r0| { assert r[j] == r0[j]; }
      }
    }
  }

  /** The sort's result is in order. */
  lemma {:induction false} SortSorted(s: seq<Message>, newestFirst: bool)
    ensures Sorted(Sort(s, newestFirst), newestFirst)
    decreases |s|
  {
    if s != [] {
      SortSorted(s[..|s| - 1], newestFirst);
      InsertSorted(Sort(s[..|s| - 1], newestFirst), s[|s| - 1], newestFirst);
    }
  }

  /** Sorting a list that is already in order returns it unchanged. */
  lemma {:induction false} SortSortedIsIdentity(s: seq<Message>, newestFirst: bool)
    requires Sorted(s, newestFirst)
    ensures Sort(s, newestFirst) == s
    decreases |s|
  {
    if s != [] {
      var front := s[..|s| - 1];
      var last := s[|s| - 1];
      SortedFront(s, newestFirst);
      assert Sort(s, newestFirst) == Insert(Sort(front, newestFirst), last, newestFirst);
      SortSortedIsIdentity(front, newestFirst);
      InsertAfterLast(front, last, newestFirst);
      FrontAndLast(s);
    }
  }

  /** A sorted list without its last element is sorted, and that element
      is not below the one before it. */
  lemma SortedFront(s: seq<Message>, newestFirst: bool)
    requires s != [] && Sorted(s, newestFirst)
    ensures Sorted(s[..|s| - 1], newestFirst)
    ensures |s| > 1 ==> Key(s[|s| - 2], newestFirst) <= Key(s[|s| - 1], newestFirst)
  {
  }

  /** An element not below the last one is inserted at the end. */
  lemma InsertAfterLast(t: seq<Message>, x: Message, newestFirst: bool)
    requires t != [] ==> Key(t[|t| - 1], newestFirst) <= Key(x, newestFirst)
    ensures Insert(t, x, newestFirst) == t + [x]
  {
  }

  lemma FrontAndLast(s: seq<Message>)
    requires s != []
    ensures s == s[..|s| - 1] + [s[|s| - 1]]
  {
  }

  /** Sorting twice is sorting once. */
  lemma SortIdempotent(s: seq<Message>, newestFirst: bool)
    ensures Sort(Sort(s, newestFirst), newestFirst) == Sort(s, newestFirst)
  {
    SortSorted(s, newestFirst);
    SortSortedIsIdentity(Sort(s, newestFirst), newestFirst);
  }

  /** Inserting an element whose id differs from `id` into a list without
      `id` gives a list without `id`. */
  /** The messages of `s` whose key is `k`, in their order in `s`. */
  function WithKey(s: seq<Message>, k: int, newestFirst: bool): seq<Message>
    decreases |s|
  {
    if s == [] then []
    else WithKey(s[..|s| - 1], k, newestFirst) + (if Key(s[|s| - 1], newestFirst) == k then [s[|s| - 1]] else [])
  }

  lemma WithKeySnoc(s: seq<Message>, y: Message, k: int, newestFirst: bool)
    ensures WithKey(s + [y], k, newestFirst) == WithKey(s, k, newestFirst) + (if Key(y, newestFirst) == k then [y] else [])
  {
    assert (s + [y])[..|s|] == s;
  }

  /** Inserting adds `x` after every element with its key. */
  lemma {:induction false} InsertStable(t: seq<Message>, x: Message, k: int, newestFirst: bool)
    ensures WithKey(Insert(t, x, newestFirst), k, newestFirst)
         == WithKey(t, k, newestFirst) + (if Key(x, newestFirst) == k then [x] else [])
    decreases |t|
  {
    if t == [] {
      WithKeySnoc([], x, k, newestFirst);
      assert [] + [x] == [x];
    } else if Key(t[|t| - 1], newestFirst) <= Key(x, newestFirst) {
      WithKeySnoc(t, x, k, newestFirst);
    } else {
      var front, last := t[..|t| - 1], t[|t| - 1];
      var r0 := Insert(front, x, newestFirst);
      assert Insert(t, x, newestFirst) == r0 + [last];
      WithKeySnoc(r0, last, k, newestFirst);
      InsertStable(front, x, k, newestFirst);
      FrontAndLast(t);
      WithKeySnoc(front, last, k, newestFirst);
    }
  }

  /** The sort is stable: messages with the same creation time keep their
      relative order. */
  lemma {:induction false} SortStable(s: seq<Message>, k: int, newestFirst: bool)
    ensures WithKey(Sort(s, newestFirst), k, newestFirst) == WithKey(s, k, newestFirst)
    decreases |s|
  {
    if s != [] {
      var front, last := s[..|s| - 1], s[|s| - 1];
      SortStable(front, k, newestFirst);
      InsertStable(Sort(front, newestFirst), last, k, newestFirst);
    }
  }

  lemma {:induction false} InsertAvoidsId(t: seq<Message>, x: Message, newestFirst: bool, id: MessageId)
    requires forall i :: 0 <= i < |t| ==> t[i].id != id
    requires x.id != id
    ensures forall i :: 0 <= i < |t| + 1 ==> Insert(t, x, newestFirst)[i].id != id
    decreases |t|
  {
    if t != [] && Key(t[|t| - 1], newestFirst) > Key(x, newestFirst) {
      InsertAvoidsId(t[..|t| - 1], x, newestFirst, id);
      assert Insert(t, x, newestFirst) == Insert(t[..|t| - 1], x, newestFirst) + [t[|t| - 1]];
    }
  }

  lemma {:induction false} InsertKeepsIdsUnique(t: seq<Message>, x: Message, newestFirst: bool)
    requires UniqueIds(t)
    requires forall i :: 0 <= i < |t| ==> t[i].id != x.id
    ensures UniqueIds(Insert(t, x, newestFirst))
    decreases |t|
  {
    if t != [] && Key(t[|t| - 1], newestFirst) > Key(x, newestFirst) {
      var last := t[|t| - 1];
      var front := t[..|t| - 1];
      assert UniqueIds(front);
      InsertKeepsIdsUnique(front, x, newestFirst);
      InsertAvoidsId(front, x, newestFirst, last.id);
      var r0 := Insert(front, x, newestFirst);
      var r := r0 + [last];
      assert Insert(t, x, newestFirst) == r;
      forall i, j | 0 <= i < j < |r| ensures r[i].id != r[j].id {
        assert r[i] == r0[i];
        if j < |r0| { assert r[j] == r0[j]; }
      }
    } else if t != [] {
      var r := t + [x];
      forall i, j | 0 <= i < j < |r| ensures r[i].id != r[j].id {
        assert r[i] == t[i];
        if j < |t| { assert r[j] == t[j]; }
      }
    }
  }

  /** Sorting never creates two messages with the same id. */
  lemma {:induction false} SortKeepsIdsUnique(s: seq<Message>, newestFirst: bool)
    requires UniqueIds(s)
    ensures UniqueIds(Sort(s, newestFirst))
    decreases |s|
  {
    if s != [] {
      var front := s[..|s| - 1];
      var x := s[|s| - 1];
      assert UniqueIds(front);
      SortKeepsIdsUnique(front, newestFirst);
      var sf := Sort(front, newestFirst);
      forall i | 0 <= i < |sf| ensures sf[i].id != x.id {
        InMultiset(sf, front, i);
        var k :| 0 <= k < |front| && front[k] == sf[i];
        assert s[k] == sf[i];
      }
      InsertKeepsIdsUnique(sf, x, newestFirst);
    }
  }

  /** Appending a message at least as new as every other to a list sorted
      oldest first: the sort then leaves the list as it is. */
  lemma AppendNewestStaysSorted(s: seq<Message>, x: Message)
    requires Sorted(s, false)
    requires forall i :: 0 <= i < |s| ==> s[i].createdAt <= x.createdAt
    ensures Sort(s + [x], false) == s + [x]
  {
    SortSortedIsIdentity(s + [x], false);
  }
}
