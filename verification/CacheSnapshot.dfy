/** Saving the cache at one time and loading it at a later one. A snapshot is a value here; how it is
    written as JSON is not part of this model. */
module CacheSnapshot {
  import opened Bytes
  import opened ReplyTtl
  import opened ResponseCache

  datatype DiskRecord = DiskRecord(reply: seq<Byte>, storedAt: int, expiresAt: int)

  datatype Snapshot = Snapshot(version: int, fingerprint: string, records: map<Key, DiskRecord>)

  /** The records of saveSnapshot: the entries that have not expired at `now`. */
  function Saved(c: Cache, now: int): map<Key, DiskRecord> {
    map k | k in c.entries && now < c.entries[k].expiresAt ::
      DiskRecord(c.entries[k].response, c.entries[k].storedAt, c.entries[k].expiresAt)
  }

  /** loadSnapshot over the records in the given order: the stored time of each is kept. */
  function LoadAll(c: Cache, records: map<Key, DiskRecord>, order: seq<Key>, now: int): Cache
    requires forall k :: k in order ==> k in records
    decreases |order|
  {
    if order == [] then c else
    var before, k := LoadAll(c, records, order[..|order| - 1], now), order[|order| - 1];
    var r := records[k];
    if now < r.expiresAt && r.storedAt < now then Put(before, k, r.reply, r.storedAt) else before
  }

  function Loaded(c: Cache, snap: Snapshot, fingerprint: string, order: seq<Key>, now: int): Cache
    requires forall k :: k in order ==> k in snap.records
  {
    if snap.version != 1 || snap.fingerprint != fingerprint then c else LoadAll(c, snap.records, order, now)
  }

  lemma {:induction false} DistinctAppend(keys: seq<Key>, k: Key)
    requires Distinct(keys) && k !in keys
    ensures Distinct(keys + [k])
  {
    if keys != [] {
      DistinctAppend(keys[1..], k);
      assert (keys + [k])[1..] == keys[1..] + [k];
    }
  }

  ghost function AnyOrder(keys: set<Key>): (order: seq<Key>)
    ensures Distinct(order) && forall k :: k in order <==> k in keys
  {
    if keys == {} then [] else
    var k :| k in keys;
    var rest := AnyOrder(keys - {k});
    assert ([k] + rest)[1..] == rest;
    [k] + rest
  }

  /** Fewer keys, each with the same entry, hold no more bytes. */
  lemma {:induction false} FewerBytes(m: map<Key, Entry>, a: seq<Key>, n: map<Key, Entry>, b: seq<Key>)
    requires Distinct(a) && Distinct(b)
    requires forall k :: k in a ==> k in m && k in b && k in n && m[k] == n[k]
    ensures |a| <= |b| && HeldBytes(m, a) <= HeldBytes(n, b)
  {
    if a != [] {
      WithoutKeys(b, a[0]);
      HeldBytesWithout(n, b, a[0]);
      FewerBytes(m, a[1..], n, Without(b, a[0]));
    }
  }

  /** The entries that a load at `now` can bring back. */
  predicate Restorable(e: Entry, now: int) {
    e.storedAt < now < e.expiresAt
  }

  lemma {:induction false} PutAgain(d: Cache, c: Cache, k: Key)
    requires Valid(d) && Valid(c) && d.maxEntries == c.maxEntries && d.maxBytes == c.maxBytes
    requires k in c.entries && k !in d.entries
    requires forall x :: x in d.entries ==> x in c.entries && d.entries[x] == c.entries[x]
    ensures var e := c.entries[k]; var p := Put(d, k, e.response, e.storedAt);
      p.entries == d.entries[k := e] && p.order == [k] + d.order
  {
    hide HeldBytes, ResponseTtls, EvictWhileOver;
    var e := c.entries[k];
    assert NewEntry(e.response, e.storedAt) == e && Storable(e.response);
    var more, p := d.entries[k := e], Insert(d, k, e);
    EntryCount(d);
    assert ([k] + d.order)[1..] == d.order;
    FewerBytes(more, [k] + d.order, c.entries, c.order);
    InsertKeeps(d, k, e);
    EvictWhileOverKeeps(p);
  }

  function Restored(c: Cache, keys: seq<Key>, now: int): map<Key, Entry> {
    map k | k in c.entries && k in keys && Restorable(c.entries[k], now) :: c.entries[k]
  }

  lemma {:induction false} RestoredStep(c: Cache, front: seq<Key>, k: Key, now: int)
    requires k in c.entries
    ensures Restored(c, front + [k], now) ==
      if Restorable(c.entries[k], now) then Restored(c, front, now)[k := c.entries[k]] else Restored(c, front, now)
  {
    assert forall x :: x in front + [k] <==> x in front || x == k;
  }

  lemma {:induction false} LoadRestores(c: Cache, epoch: nat, t1: int, order: seq<Key>, t2: int)
    requires Valid(c) && t1 <= t2 && Distinct(order)
    requires forall k :: k in order ==> k in Saved(c, t1)
    ensures var d := LoadAll(Empty(c.maxEntries, c.maxBytes, epoch), Saved(c, t1), order, t2);
      && Valid(d) && d.maxEntries == c.maxEntries && d.maxBytes == c.maxBytes
      && d.entries == Restored(c, order, t2)
    decreases |order|
  {
    hide Valid, Put, Distinct, Without;
    if order == [] {
      EmptyValid(c, epoch);
    } else {
      var front, k := order[..|order| - 1], order[|order| - 1];
      assert order == front + [k] && k in order;
      DropLast(order);
      LoadRestores(c, epoch, t1, front, t2);
      var d := LoadAll(Empty(c.maxEntries, c.maxBytes, epoch), Saved(c, t1), front, t2);
      var e := c.entries[k];
      RestoredStep(c, front, k, t2);
      if Restorable(e, t2) {
        PutAgain(d, c, k);
        PutKeeps(d, k, e.response, e.storedAt);
        PutBounds(d, k, e.response, e.storedAt);
      }
    }
  }

  lemma {:induction false} EmptyValid(c: Cache, epoch: nat)
    requires Valid(c)
    ensures Valid(Empty(c.maxEntries, c.maxBytes, epoch))
  {
  }

  /** A snapshot of another configuration, or of another format, changes nothing. */
  lemma {:induction false} ForeignSnapshot(c: Cache, snap: Snapshot, fingerprint: string, order: seq<Key>, now: int)
    requires forall k :: k in order ==> k in snap.records
    requires snap.version != 1 || snap.fingerprint != fingerprint
    ensures Loaded(c, snap, fingerprint, order, now) == c
  {
  }

  /** Saving at t1 and loading at t2 into an empty cache with the same bounds restores every entry that
      was stored before t2 and is still unexpired then, as it was and without any eviction, in
      whatever order the records are visited; so later hits answer the same octets. Under
      another fingerprint nothing is restored. */
  lemma {:induction false} SnapshotRoundTrip(c: Cache, epoch: nat, saved: string, current: string,
                                             t1: int, order: seq<Key>, t2: int)
    requires Valid(c) && t1 <= t2 && Distinct(order)
    requires forall k :: k in order <==> k in Saved(c, t1)
    ensures var d := Loaded(Empty(c.maxEntries, c.maxBytes, epoch), Snapshot(1, saved, Saved(c, t1)), current,
                            order, t2);
      && Valid(d)
      && d.entries == (map k | k in c.entries && saved == current
                         && c.entries[k].storedAt < t2 < c.entries[k].expiresAt :: c.entries[k])
      && forall k, query, now :: k in d.entries ==> Get(d, k, query, now).1 == Get(c, k, query, now).1
  {
    hide EntryOk, HeldBytes, Reply, Valid, LoadAll;
    var snap := Snapshot(1, saved, Saved(c, t1));
    if saved == current {
      LoadRestores(c, epoch, t1, order, t2);
      assert forall k :: k in c.entries && Restorable(c.entries[k], t2) ==> k in order;
    } else {
      EmptyValid(c, epoch);
      ForeignSnapshot(Empty(c.maxEntries, c.maxBytes, epoch), snap, current, order, t2);
    }
  }
}
