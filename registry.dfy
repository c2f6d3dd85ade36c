/** The connection registry: a process-wide map from user id to the id of
    that user's socket. It behaves as a JavaScript `Map`: one value per key,
    keys kept in first-insertion order, `set` on a present key overwrites its
    value in place. A user therefore has at most ONE registered socket; a
    second connection replaces the first. */
module Registry {
  import opened Domain

  type Entries = seq<(UserId, SocketId)>

  /** `[...map.keys()]`, in insertion order. */
  function Keys(es: Entries): (ks: seq<UserId>)
    ensures |ks| == |es| && forall i :: 0 <= i < |es| ==> ks[i] == es[i].0
  {
    if es == [] then [] else [es[0].0] + Keys(es[1..])
  }

  /** `map.get(u)`. */
  function Get(es: Entries, u: UserId): (r: Option<SocketId>)
    ensures r.Some? <==> u in Keys(es)
    ensures r.Some? ==> (u, r.value) in es
  {
    if es == [] then None
    else if es[0].0 == u then Some(es[0].1)
    else Get(es[1..], u)
  }

  /** The keys of an entry followed by more entries. */
  lemma KeysCons(e: (UserId, SocketId), rest: Entries)
    ensures Keys([e] + rest) == [e.0] + Keys(rest)
  {
    assert ([e] + rest)[1..] == rest;
  }

  /** `map.set(u, s)`: a present key keeps its place, a new key goes last. */
  function Put(es: Entries, u: UserId, s: SocketId): (r: Entries)
    ensures Keys(r) == if u in Keys(es) then Keys(es) else Keys(es) + [u]
  {
    if es == [] then [(u, s)]
    else if es[0].0 == u then
      KeysCons((u, s), es[1..]);
      [(u, s)] + es[1..]
    else
      KeysCons(es[0], Put(es[1..], u, s));
      [es[0]] + Put(es[1..], u, s)
  }

  /** Distinct keys, stated on the entries themselves. */
  predicate UniqueKeys(es: Entries) {
    forall i, j :: 0 <= i < j < |es| ==> es[i].0 != es[j].0
  }

  lemma UniqueKeysIsNoDup(es: Entries)
    ensures UniqueKeys(es) <==> NoDup(Keys(es))
  {
    var ks := Keys(es);
    assert forall i :: 0 <= i < |es| ==> ks[i] == es[i].0;
  }

  /** With unique keys, `set(u, s)` leaves the entry of every other key as
      it was, at the same place, and the entry of `u` holds `s`. */
  lemma {:induction false} PutEntries(es: Entries, u: UserId, s: SocketId)
    requires UniqueKeys(es)
    ensures var r := Put(es, u, s);
      && |es| <= |r| <= |es| + 1
      && forall i :: 0 <= i < |r| ==>
           if i < |es| && es[i].0 != u then r[i] == es[i] else r[i] == (u, s)
  {
    if es != [] {
      if es[0].0 == u {
        assert Put(es, u, s) == [(u, s)] + es[1..];
      } else {
        var rest := Put(es[1..], u, s);
        assert UniqueKeys(es[1..]) by {
          forall i, j | 0 <= i < j < |es| - 1 ensures es[1..][i].0 != es[1..][j].0 {
            assert es[i + 1].0 != es[j + 1].0;
          }
        }
        PutEntries(es[1..], u, s);
        assert Put(es, u, s) == [es[0]] + rest;
        forall i | 1 <= i < |rest| + 1
          ensures if i < |es| && es[i].0 != u then ([es[0]] + rest)[i] == es[i] else ([es[0]] + rest)[i] == (u, s)
        {
          assert ([es[0]] + rest)[i] == rest[i - 1];
          assert i < |es| ==> es[1..][i - 1] == es[i];
        }
      }
    }
  }

  /** After `set(u, s)`, `get(u)` is `s` and every other key reads as before. */
  lemma {:induction false} PutGet(es: Entries, u: UserId, s: SocketId, v: UserId)
    ensures Get(Put(es, u, s), v) == if v == u then Some(s) else Get(es, v)
  {
    if es != [] && es[0].0 != u {
      PutGet(es[1..], u, s, v);
    }
  }

  /** `map.delete(u)`. */
  function Remove(es: Entries, u: UserId): (r: Entries)
    ensures Keys(r) == Without(Keys(es), u)
    ensures forall i :: 0 <= i < |r| ==> r[i] in es
  {
    if es == [] then []
    else if es[0].0 == u then Remove(es[1..], u)
    else [es[0]] + Remove(es[1..], u)
  }

  /** After `delete(u)`, `get(u)` is undefined and every other key reads as before. */
  lemma {:induction false} RemoveGet(es: Entries, u: UserId, v: UserId)
    ensures Get(Remove(es, u), v) == if v == u then None else Get(es, v)
  {
    if es != [] {
      RemoveGet(es[1..], u, v);
    }
  }

  /** Position of the first entry whose socket id is `sid`: where the
      disconnect handler's `for ... of map.entries()` loop stops. */
  function SocketIndex(es: Entries, sid: SocketId): (r: Option<nat>)
    ensures r.Some? ==> r.value < |es| && es[r.value].1 == sid
    ensures r.Some? ==> forall k :: 0 <= k < r.value ==> es[k].1 != sid
    ensures r.None? ==> forall k :: 0 <= k < |es| ==> es[k].1 != sid
  {
    if es == [] then None
    else if es[0].1 == sid then Some(0)
    else match SocketIndex(es[1..], sid)
      case None => None
      case Some(i) => Some(i + 1)
  }

  /** What a disconnect does to the registry: the entry holding the closing
      socket's id goes, and nothing else. */
  function RemoveSocket(es: Entries, sid: SocketId): Entries {
    match SocketIndex(es, sid)
    case None => es
    case Some(i) => Remove(es, es[i].0)
  }

  /** Filtering a key out of a duplicate-free list that holds it drops one element. */
  lemma {:induction false} WithoutDropsOne(ks: seq<UserId>, u: UserId)
    requires NoDup(ks) && u in ks
    ensures |Without(ks, u)| == |ks| - 1
  {
    if ks[0] == u {
      assert u !in ks[1..] by {
        forall j | 0 <= j < |ks| - 1 ensures ks[1..][j] != u {
          assert ks[j + 1] != ks[0];
        }
      }
    } else {
      assert NoDup(ks[1..]) by {
        forall i, j | 0 <= i < j < |ks| - 1 ensures ks[1..][i] != ks[1..][j] {
          assert ks[i + 1] != ks[j + 1];
        }
      }
      assert u in ks[1..];
      WithoutDropsOne(ks[1..], u);
    }
  }

  /** With unique keys, removing a present key drops exactly one entry. */
  lemma RemoveDropsOne(es: Entries, u: UserId)
    requires NoDup(Keys(es)) && u in Keys(es)
    ensures |Remove(es, u)| == |es| - 1
  {
    WithoutDropsOne(Keys(es), u);
    assert |Remove(es, u)| == |Keys(Remove(es, u))|;
  }

  /** A disconnect removes at most one registry entry: the closing socket's,
      if it is still the registered one. Every other user keeps its socket. */
  lemma RemoveSocketAtMostOne(es: Entries, sid: SocketId)
    requires NoDup(Keys(es))
    ensures var r := RemoveSocket(es, sid);
      && |es| - 1 <= |r| <= |es|
      && (SocketIndex(es, sid).None? ==> r == es)
      && (SocketIndex(es, sid).Some? ==>
            forall v :: Get(r, v) == if v == es[SocketIndex(es, sid).value].0 then None else Get(es, v))
  {
    match SocketIndex(es, sid)
    case None =>
    case Some(i) =>
      var u := es[i].0;
      RemoveDropsOne(es, u);
      forall v ensures Get(Remove(es, u), v) == if v == u then None else Get(es, v) {
        RemoveGet(es, u, v);
      }
  }

  /** `set` keeps the keys distinct. */
  lemma PutKeepsUniqueKeys(es: Entries, u: UserId, s: SocketId)
    requires UniqueKeys(es)
    ensures UniqueKeys(Put(es, u, s))
  {
    UniqueKeysIsNoDup(es);
    UniqueKeysIsNoDup(Put(es, u, s));
    assert Keys(Put(es, u, s)) == AddToSet(Keys(es), u);
  }

  /** After two `set`s of one user onto a registry holding neither socket,
      no entry holds the older socket and only the user's holds the newer. */
  lemma TwoPutsSockets(es: Entries, u: UserId, older: SocketId, newer: SocketId, one: Entries, both: Entries)
    requires UniqueKeys(es) && older != newer
    requires forall k :: 0 <= k < |es| ==> es[k].1 != older && es[k].1 != newer
    requires one == Put(es, u, older) && both == Put(one, u, newer)
    ensures forall k :: 0 <= k < |both| ==> both[k].1 != older && (both[k].1 == newer ==> both[k].0 == u)
  {
    PutEntries(es, u, older);
    PutKeepsUniqueKeys(es, u, older);
    PutEntries(one, u, newer);
    assert forall k :: 0 <= k < |one| && one[k].0 != u ==> one[k].1 != older && one[k].1 != newer;
    forall k | 0 <= k < |both|
      ensures both[k].1 != older && (both[k].1 == newer ==> both[k].0 == u)
    {
      if k < |one| && one[k].0 != u {
        assert both[k] == one[k];
      } else {
        assert both[k] == (u, newer);
      }
    }
  }

  /** Two sockets of one user, the newer having replaced the older: closing
      the older changes nothing, while closing the newer takes the user out
      of the registry although the older socket is still open. */
  lemma SecondConnectionOverwrites(es: Entries, u: UserId, older: SocketId, newer: SocketId)
    requires NoDup(Keys(es))
    requires older != newer
    requires forall k :: 0 <= k < |es| ==> es[k].1 != older && es[k].1 != newer
    ensures var both := Put(Put(es, u, older), u, newer);
      && Get(both, u) == Some(newer)
      && RemoveSocket(both, older) == both
      && u !in Keys(RemoveSocket(both, newer))
  {
    var one := Put(es, u, older);
    var both := Put(one, u, newer);
    UniqueKeysIsNoDup(es);
    PutGet(one, u, newer, u);
    TwoPutsSockets(es, u, older, newer, one, both);
    assert SocketIndex(both, older).None?;
    var i := SocketIndex(both, newer).value;
    assert both[i].1 == newer;
    assert both[i].0 == u;
    assert RemoveSocket(both, newer) == Remove(both, u);
  }

  /** The registry as an object: `connectedUsers`. */
  class ConnectionRegistry {
    var entries: Entries

    ghost predicate Valid()
      reads this
    {
      NoDup(Keys(entries))
    }

    constructor ()
      ensures Valid() && entries == []
    {
      entries := [];
    }

    /** `connectedUsers.has(u)`. */
    function Has(u: UserId): bool
      reads this
    {
      Get(entries, u).Some?
    }

    /** `[...connectedUsers.keys()]`. */
    function UserIds(): seq<UserId>
      reads this
    {
      Keys(entries)
    }

    /** `connectedUsers.set(u, s)`. */
    method Set(u: UserId, s: SocketId)
      requires Valid()
      modifies this
      ensures Valid() && entries == Put(old(entries), u, s)
    {
      entries := Put(entries, u, s);
    }

    /** `connectedUsers.delete(u)`. */
    method Delete(u: UserId)
      requires Valid()
      modifies this
      ensures Valid() && entries == Remove(old(entries), u)
    {
      entries := Remove(entries, u);
    }
  }
}
