/** The cache object of the source, whose methods update its fields in place. */
module CacheObject {
  import opened Bytes
  import opened Wrappers
  import opened ReplyTtl
  import opened ResponseCache
  import opened CacheSnapshot

  class DnsCache {
    const maxEntries: int
    const maxBytes: int
    var usedBytes: int
    var entries: map<Key, Entry>
    var order: seq<Key>
    var epoch: nat

    ghost function State(): Cache
      reads this
    {
      Cache(maxEntries, maxBytes, usedBytes, entries, order, epoch)
    }

    constructor (maxEntries: int)
      ensures Valid(State())
      ensures State() == Empty(if maxEntries <= 0 then 10_000 else maxEntries, 64 * 1024 * 1024, 0)
    {
      this.maxEntries := if maxEntries <= 0 then DEFAULT_ENTRIES else maxEntries;
      maxBytes := MAX_BYTES;
      usedBytes, entries, order, epoch := 0, map[], [], 0;
    }

    method EvictOne()
      requires Inv(State())
      modifies this
      ensures Inv(State()) && State() == Evict(old(State()))
    {
      hide EntryOk, HeldBytes, Distinct, Drop;
      EvictKeeps(State());
      if order == [] { return; }
      var oldKey := order[|order| - 1];
      usedBytes := usedBytes - Size(oldKey, entries[oldKey]);
      entries := entries - {oldKey};
      order := order[..|order| - 1];
    }

    method Put(key: Key, response: seq<Byte>, now: int)
      requires Valid(State())
      modifies this
      ensures Valid(State()) && State() == ResponseCache.Put(old(State()), key, response, now)
    {
      hide EntryOk, ResponseTtls, HeldBytes, Distinct, Without, Evict;
      var ttls := ResponseTTLs(response);
      if ttls.None? || ttls.value.min == 0 || |response| > MAX_REPLY { return; }
      ghost var before, entry := State(), NewEntry(response, now);
      NewEntryOk(response, now);
      InsertKeeps(before, key, entry);
      if key in entries {
        order := Without(order, key);
        usedBytes := usedBytes - Size(key, entries[key]);
      } else if |entries| >= maxEntries {
        EvictOne();
      }
      usedBytes := usedBytes + |response| + |key|;
      entries := entries[key := Entry(response, now, now + ttls.value.min * SECOND, ttls.value.offsets)];
      order := [key] + order;
      assert State() == Insert(before, key, entry);
      EvictWhileOverKeeps(State());
      while usedBytes > maxBytes
        invariant Inv(State())
        invariant EvictWhileOver(State()) == EvictWhileOver(Insert(before, key, entry))
        decreases |order|
      {
        OverBoundHasOldest(State());
        EvictKeeps(State());
        EvictOne();
      }
    }

    method Get(key: Key, query: seq<Byte>, now: int) returns (answer: Option<seq<Byte>>)
      requires Valid(State())
      modifies this
      ensures Valid(State())
      ensures (State(), answer) == ResponseCache.Get(old(State()), key, query, now)
    {
      GetKeeps(State(), key, query, now);
      GetBounds(State(), key, query, now);
      if |query| < 2 || key !in entries { return None; }
      var entry := entries[key];
      if now >= entry.expiresAt {
        order := Without(order, key);
        usedBytes := usedBytes - Size(key, entry);
        entries := entries - {key};
        return None;
      }
      order := [key] + Without(order, key);
      var response := AgedCopy(entry, query, ElapsedSeconds(now, entry.storedAt));
      return Some(response);
    }

    method Clear()
      requires Valid(State())
      modifies this
      ensures Valid(State()) && State() == ResponseCache.Clear(old(State()))
    {
      entries, usedBytes, epoch, order := map[], 0, epoch + 1, [];
    }

    method SaveSnapshot(fingerprint: string, now: int) returns (snap: Snapshot)
      ensures snap == Snapshot(1, fingerprint, Saved(State(), now))
      ensures snap.records == map k | k in entries && now < entries[k].expiresAt ::
        DiskRecord(entries[k].response, entries[k].storedAt, entries[k].expiresAt)
    {
      var records := map[];
      var rest := entries.Keys;
      while rest != {}
        invariant rest <= entries.Keys
        invariant records == map k | k in entries && k !in rest && now < entries[k].expiresAt ::
          DiskRecord(entries[k].response, entries[k].storedAt, entries[k].expiresAt)
        decreases rest
      {
        var key :| key in rest;
        var e := entries[key];
        if now < e.expiresAt { records := records[key := DiskRecord(e.response, e.storedAt, e.expiresAt)]; }
        rest := rest - {key};
      }
      return Snapshot(1, fingerprint, records);
    }

    /** The records are visited in an order that the source leaves open. */
    method LoadSnapshot(snap: Snapshot, fingerprint: string, now: int) returns (ghost visited: seq<Key>)
      requires Valid(State())
      modifies this
      ensures Valid(State())
      ensures Distinct(visited) && (forall k :: k in visited <==> k in snap.records)
      ensures State() == Loaded(old(State()), snap, fingerprint, visited, now)
    {
      visited := AnyOrder(snap.records.Keys);
      if snap.version != 1 || snap.fingerprint != fingerprint { return; }
      visited := [];
      var rest := snap.records.Keys;
      while rest != {}
        invariant Valid(State()) && Distinct(visited)
        invariant rest <= snap.records.Keys
        invariant forall k :: k in visited <==> k in snap.records && k !in rest
        invariant State() == LoadAll(old(State()), snap.records, visited, now)
        decreases rest
      {
        var key :| key in rest;
        var record := snap.records[key];
        if now < record.expiresAt && record.storedAt < now { Put(key, record.reply, record.storedAt); }
        DistinctAppend(visited, key);
        assert (visited + [key])[..|visited|] == visited;
        visited := visited + [key];
        rest := rest - {key};
      }
    }
  }

  /** The reply copied under the query's ID, then aged in the copy. */
  method AgedCopy(entry: Entry, query: seq<Byte>, elapsed: nat) returns (r: seq<Byte>)
    requires EntryOk(entry) && |query| >= 2
    ensures r == Hit(entry.response, query, entry.ttlOffsets, elapsed)
  {
    var response := new Byte[|entry.response|](i requires 0 <= i < |entry.response| => entry.response[i]);
    response[0], response[1] := query[0], query[1];
    assert response[..] == query[..2] + entry.response[2..];
    HitChangesOnlyTtls(entry.response, query, elapsed);
    ApartLower(entry.ttlOffsets, 12, 0, response.Length);
    AgeInPlace(response, entry.ttlOffsets, elapsed);
    r := response[..];
  }
}
