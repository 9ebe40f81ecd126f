/** The DNS response cache: a least-recently-used map with a bound on entries and one on bytes.
    Times are nanoseconds. Each method is one critical section of the source's mutex. */
module ResponseCache {
  import opened Bytes
  import opened Wrappers
  import opened ReplyTtl

  type Key = seq<Byte>

  const SECOND := 1_000_000_000
  const MAX_REPLY := 8192
  const DEFAULT_ENTRIES := 10000
  const MAX_BYTES := 67108864

  /** A DNS message has at least its header. */
  type Packet = m: seq<Byte> | |m| >= 12 witness [0, 0, 0, 0, 0, 0, 0, 0, 0, 0, 0, 0]

  datatype Entry = Entry(response: Packet, storedAt: int, expiresAt: int, ttlOffsets: seq<nat>)

  /** The value of the cache; order lists the keys from the most to the least recently used. */
  datatype Cache = Cache(maxEntries: int, maxBytes: int, usedBytes: int,
                         entries: map<Key, Entry>, order: seq<Key>, epoch: nat)

  function Size(k: Key, e: Entry): nat { |e.response| + |k| }

  /** The bytes held for the listed keys. */
  function HeldBytes(entries: map<Key, Entry>, keys: seq<Key>): nat {
    if keys == [] then 0
    else (if keys[0] in entries then Size(keys[0], entries[keys[0]]) else 0) + HeldBytes(entries, keys[1..])
  }

  function Without(keys: seq<Key>, k: Key): (r: seq<Key>) {
    if keys == [] then [] else if keys[0] == k then keys[1..] else [keys[0]] + Without(keys[1..], k)
  }

  // ---------------------------------------------------------------- the operations on values

  function Empty(maxEntries: int, maxBytes: int, epoch: nat): Cache {
    Cache(maxEntries, maxBytes, 0, map[], [], epoch)
  }

  function Evict(c: Cache): Cache {
    if c.order == [] then c else
    var k := c.order[|c.order| - 1];
    c.(usedBytes := c.usedBytes - (if k in c.entries then Size(k, c.entries[k]) else |k|),
       entries := c.entries - {k}, order := c.order[..|c.order| - 1])
  }

  function EvictWhileOver(c: Cache): Cache
    decreases |c.order|
  {
    if c.usedBytes > c.maxBytes && c.order != [] then EvictWhileOver(Evict(c)) else c
  }

  function NewEntry(response: seq<Byte>, now: int): Entry
    requires ResponseTtls(response).Some?
  {
    var t := ResponseTtls(response).value;
    Entry(response, now, now + t.min * SECOND, t.offsets)
  }

  predicate Storable(response: seq<Byte>) {
    ResponseTtls(response).Some? && ResponseTtls(response).value.min != 0 && |response| <= MAX_REPLY
  }

  /** Makes place for k: its old entry leaves, or else the oldest one if the cache is full. */
  function MakeRoom(c: Cache, k: Key): Cache {
    if k in c.entries
    then c.(order := Without(c.order, k), usedBytes := c.usedBytes - Size(k, c.entries[k]))
    else if |c.entries| >= c.maxEntries then Evict(c) else c
  }

  function Insert(c: Cache, k: Key, e: Entry): Cache {
    var room := MakeRoom(c, k);
    room.(usedBytes := room.usedBytes + Size(k, e), entries := room.entries[k := e], order := [k] + room.order)
  }

  function Put(c: Cache, k: Key, response: seq<Byte>, now: int): Cache {
    if !Storable(response) then c else EvictWhileOver(Insert(c, k, NewEntry(response, now)))
  }

  /** uint32(now.Sub(storedAt) / time.Second): truncated towards zero, then modulo 2^32. */
  function ElapsedSeconds(now: int, storedAt: int): nat {
    var d := now - storedAt;
    (if d >= 0 then d / SECOND else -((-d) / SECOND)) % TWO_TO_THE_32
  }

  function Reply(e: Entry, query: seq<Byte>, now: int): seq<Byte>
    requires |query| >= 2
  {
    Hit(e.response, query, e.ttlOffsets, ElapsedSeconds(now, e.storedAt))
  }

  function Drop(c: Cache, k: Key): Cache
    requires k in c.entries
  {
    c.(order := Without(c.order, k), usedBytes := c.usedBytes - Size(k, c.entries[k]), entries := c.entries - {k})
  }

  function Get(c: Cache, k: Key, query: seq<Byte>, now: int): (Cache, Option<seq<Byte>>) {
    if |query| < 2 || k !in c.entries then (c, None)
    else if now >= c.entries[k].expiresAt then (Drop(c, k), None)
    else
      (c.(order := [k] + Without(c.order, k)), Some(Reply(c.entries[k], query, now)))
  }

  function Clear(c: Cache): Cache {
    Empty(c.maxEntries, c.maxBytes, c.epoch + 1)
  }

  // ---------------------------------------------------------------- what every operation keeps

  predicate EntryOk(e: Entry) {
    && Storable(e.response)
    && e.ttlOffsets == ResponseTtls(e.response).value.offsets
    && e.expiresAt == e.storedAt + ResponseTtls(e.response).value.min * SECOND
  }

  predicate Distinct(keys: seq<Key>) {
    keys == [] || (keys[0] !in keys[1..] && Distinct(keys[1..]))
  }

  /** usedBytes is what the replies and keys take, the recency list is a permutation of the keys
      without repetition, and the entry bound holds. The byte bound is kept by put's loop. */
  ghost predicate Inv(c: Cache) {
    && Distinct(c.order)
    && (forall k :: k in c.order <==> k in c.entries)
    && (forall k :: k in c.entries ==> EntryOk(c.entries[k]))
    && c.usedBytes == HeldBytes(c.entries, c.order)
    && 0 < c.maxEntries && 0 <= c.maxBytes && |c.order| <= c.maxEntries
  }

  ghost predicate Valid(c: Cache) {
    Inv(c) && c.usedBytes <= c.maxBytes
  }

  lemma {:induction false} WithoutKeys(keys: seq<Key>, k: Key)
    requires Distinct(keys)
    ensures Distinct(Without(keys, k)) && k !in Without(keys, k)
    ensures forall x :: x in Without(keys, k) <==> x in keys && x != k
    ensures |Without(keys, k)| == if k in keys then |keys| - 1 else |keys|
  {
    if keys != [] && keys[0] != k {
      var w := Without(keys[1..], k);
      WithoutKeys(keys[1..], k);
      assert ([keys[0]] + w)[1..] == w;
    }
  }

  lemma {:induction false} HeldBytesFrame(m: map<Key, Entry>, n: map<Key, Entry>, keys: seq<Key>)
    requires forall k :: k in keys ==> k in m && k in n && m[k] == n[k]
    ensures HeldBytes(m, keys) == HeldBytes(n, keys)
  {
    if keys != [] { HeldBytesFrame(m, n, keys[1..]); }
  }

  lemma {:induction false} HeldBytesWithout(m: map<Key, Entry>, keys: seq<Key>, k: Key)
    requires k in keys && k in m
    ensures HeldBytes(m, keys) == HeldBytes(m, Without(keys, k)) + Size(k, m[k])
  {
    if keys[0] != k {
      HeldBytesWithout(m, keys[1..], k);
      assert ([keys[0]] + Without(keys[1..], k))[1..] == Without(keys[1..], k);
    }
  }

  lemma {:induction false} DropLast(keys: seq<Key>)
    requires Distinct(keys) && keys != []
    ensures var last, rest := keys[|keys| - 1], keys[..|keys| - 1];
      Distinct(rest) && rest == Without(keys, last) && last !in rest
  {
    if |keys| > 1 {
      var rest := keys[1..];
      DropLast(rest);
      assert rest[|rest| - 1] == keys[|keys| - 1] && rest[..|rest| - 1] == keys[..|keys| - 1][1..];
      assert keys[..|keys| - 1] == [keys[0]] + rest[..|rest| - 1];
    } else {
      assert keys[..0] == [];
    }
  }

  lemma {:induction false} DistinctCount(keys: seq<Key>)
    requires Distinct(keys)
    ensures |set k | k in keys| == |keys|
  {
    if keys != [] {
      DistinctCount(keys[1..]);
      assert (set k | k in keys) == {keys[0]} + set k | k in keys[1..];
    }
  }

  lemma {:induction false} EntryCount(c: Cache)
    requires Inv(c)
    ensures |c.entries| == |c.order|
  {
    DistinctCount(c.order);
    assert c.entries.Keys == set k | k in c.order;
  }

  lemma {:induction false} DropKeeps(c: Cache, k: Key)
    requires Inv(c) && k in c.entries
    ensures Inv(Drop(c, k)) && Drop(c, k).usedBytes <= c.usedBytes
  {
    hide EntryOk;
    WithoutKeys(c.order, k);
    HeldBytesWithout(c.entries, c.order, k);
    HeldBytesFrame(c.entries, c.entries - {k}, Without(c.order, k));
  }

  lemma {:induction false} EvictKeeps(c: Cache)
    requires Inv(c)
    ensures Inv(Evict(c)) && Evict(c).usedBytes <= c.usedBytes
    ensures c.order != [] ==> Evict(c) == Drop(c, c.order[|c.order| - 1]) && |Evict(c).order| == |c.order| - 1
  {
    if c.order != [] {
      DropLast(c.order);
      DropKeeps(c, c.order[|c.order| - 1]);
    }
  }

  /** Over the bound there is an entry to evict: without the accounting the loop would not end. */
  lemma {:induction false} OverBoundHasOldest(c: Cache)
    requires Inv(c) && c.usedBytes > c.maxBytes
    ensures c.order != []
  {
  }

  lemma {:induction false} EvictWhileOverKeeps(c: Cache)
    requires Inv(c)
    ensures Valid(EvictWhileOver(c))
    ensures c.usedBytes <= c.maxBytes ==> EvictWhileOver(c) == c
    decreases |c.order|
  {
    if c.usedBytes > c.maxBytes {
      EvictKeeps(c);
      EvictWhileOverKeeps(Evict(c));
    }
  }

  lemma {:induction false} MakeRoomKeeps(c: Cache, k: Key)
    requires Inv(c)
    ensures var room := MakeRoom(c, k);
      && Distinct(room.order) && k !in room.order && |room.order| < c.maxEntries
      && (forall x :: x in room.order <==> x in room.entries && x != k)
      && (forall x :: x in room.order ==> x in c.entries && room.entries[x] == c.entries[x])
      && room.usedBytes == HeldBytes(room.entries, room.order)
      && room.maxEntries == c.maxEntries && room.maxBytes == c.maxBytes && room.epoch == c.epoch
  {
    hide EntryOk;
    EntryCount(c);
    if k in c.entries {
      WithoutKeys(c.order, k);
      HeldBytesWithout(c.entries, c.order, k);
    } else if |c.entries| >= c.maxEntries {
      EvictKeeps(c);
      DropLast(c.order);
    }
  }

  lemma {:induction false} InsertKeeps(c: Cache, k: Key, e: Entry)
    requires Inv(c) && EntryOk(e)
    ensures Inv(Insert(c, k, e))
  {
    hide EntryOk, MakeRoom, HeldBytes, Distinct;
    var room, c' := MakeRoom(c, k), Insert(c, k, e);
    MakeRoomKeeps(c, k);
    HeldBytesFrame(room.entries, c'.entries, room.order);
    NewFront(c'.entries, k, room.order);
  }

  lemma {:induction false} NewFront(m: map<Key, Entry>, k: Key, keys: seq<Key>)
    requires k in m && k !in keys && Distinct(keys)
    ensures Distinct([k] + keys) && HeldBytes(m, [k] + keys) == Size(k, m[k]) + HeldBytes(m, keys)
    ensures |[k] + keys| == |keys| + 1 && forall x :: x in [k] + keys <==> x == k || x in keys
  {
    assert ([k] + keys)[1..] == keys;
  }

  lemma {:induction false} PutKeeps(c: Cache, k: Key, response: seq<Byte>, now: int)
    requires Valid(c)
    ensures Valid(Put(c, k, response, now))
  {
    if Storable(response) {
      InsertKeeps(c, k, NewEntry(response, now));
      EvictWhileOverKeeps(Insert(c, k, NewEntry(response, now)));
    }
  }

  lemma {:induction false} GetKeeps(c: Cache, k: Key, query: seq<Byte>, now: int)
    requires Inv(c)
    ensures Inv(Get(c, k, query, now).0)
    ensures Get(c, k, query, now).0.usedBytes <= c.usedBytes
  {
    hide EntryOk, Reply;
    if |query| >= 2 && k in c.entries {
      if now >= c.entries[k].expiresAt {
        DropKeeps(c, k);
      } else {
        WithoutKeys(c.order, k);
        HeldBytesWithout(c.entries, c.order, k);
        assert ([k] + Without(c.order, k))[1..] == Without(c.order, k);
      }
    }
  }

  /** put keeps a storable reply unless the reply alone is over the byte bound. */
  lemma {:induction false} PutStores(c: Cache, k: Key, response: seq<Byte>, now: int)
    requires Valid(c) && Storable(response)
    ensures var c', e := Put(c, k, response, now), NewEntry(response, now);
      if |response| + |k| <= c.maxBytes
      then k in c'.entries && c'.entries[k] == e && c'.order != [] && c'.order[0] == k
      else c'.entries == map[]
  {
    hide EntryOk, ResponseTtls, MakeRoom;
    var e := NewEntry(response, now);
    assert EntryOk(e) by { NewEntryOk(response, now); }
    InsertKeeps(c, k, e);
    MakeRoomKeeps(c, k);
    FirstSurvives(Insert(c, k, e));
  }

  lemma {:induction false} NewEntryOk(response: seq<Byte>, now: int)
    requires Storable(response)
    ensures EntryOk(NewEntry(response, now))
  {
  }

  /** The eviction loop stops before the most recently used entry unless that one does not fit. */
  lemma {:induction false} FirstSurvives(c: Cache)
    requires Inv(c) && c.order != []
    ensures var first, c' := c.order[0], EvictWhileOver(c);
      if Size(first, c.entries[first]) <= c.maxBytes
      then c'.order != [] && c'.order[0] == first && first in c'.entries && c'.entries[first] == c.entries[first]
      else c'.entries == map[]
    decreases |c.order|
  {
    hide EntryOk;
    var first := c.order[0];
    if c.usedBytes > c.maxBytes {
      EvictKeeps(c);
      if |c.order| == 1 {
        assert Evict(c).order == [];
        assert forall k :: k !in Evict(c).entries;
      } else {
        assert c.order[|c.order| - 1] != first;
        FirstSurvives(Evict(c));
      }
    } else {
      assert first in c.entries;
    }
  }

  predicate SubMap(m: map<Key, Entry>, n: map<Key, Entry>) {
    forall k :: k in m ==> k in n && m[k] == n[k]
  }

  lemma {:induction false} EvictShrinks(c: Cache)
    ensures SubMap(EvictWhileOver(c).entries, c.entries)
    decreases |c.order|
  {
    if c.usedBytes > c.maxBytes && c.order != [] { EvictShrinks(Evict(c)); }
  }

  lemma {:induction false} PutNothing(c: Cache, k: Key, response: seq<Byte>, now: int)
    requires !Storable(response)
    ensures Put(c, k, response, now) == c
  {
  }

  // ---------------------------------------------------------------- what a hit answers

  function WholeSeconds(now: int, storedAt: int): nat {
    if now >= storedAt then (now - storedAt) / SECOND else 0
  }

  /** A clock at most a second behind the moment of storing gives the whole seconds since then,
      and before the entry expires they are fewer than its lifetime. */
  lemma {:induction false} ElapsedBeforeExpiry(e: Entry, now: int)
    requires EntryOk(e) && e.storedAt - SECOND < now < e.expiresAt
    ensures ElapsedSeconds(now, e.storedAt) == WholeSeconds(now, e.storedAt) < ResponseTtls(e.response).value.min
  {
    hide ResponseTtls;
    var d, min := now - e.storedAt, ResponseTtls(e.response).value.min;
    LifetimeFits(e.response);
    if d >= 0 {
      assert d / SECOND < min;
      assert (d / SECOND) % TWO_TO_THE_32 == d / SECOND;
    } else {
      assert (-d) / SECOND == 0;
    }
  }

  lemma {:induction false} LifetimeFits(m: seq<Byte>)
    requires ResponseTtls(m).Some?
    ensures ResponseTtls(m).value.min < NO_TTL
  {
    LifetimeIsLeast(m, ReplyRecords(m).value, U16(m, 6), U16(m, 8));
  }

  /** On a clock k whole seconds behind the moment of storing, the unsigned count is -k modulo 2^32. */
  lemma {:induction false} ElapsedOfAnOlderClock(now: int, storedAt: int)
    requires now <= storedAt
    ensures var k := (storedAt - now) / SECOND;
      ElapsedSeconds(now, storedAt) == (TWO_TO_THE_32 - k % TWO_TO_THE_32) % TWO_TO_THE_32
  {
    var k := (storedAt - now) / SECOND;
    var q, r := k / TWO_TO_THE_32, k % TWO_TO_THE_32;
    assert -k == TWO_TO_THE_32 * (-q) - r;
    if now == storedAt { assert k == 0; } else { assert ElapsedSeconds(now, storedAt) == (-k) % TWO_TO_THE_32; }
  }

  /** For clock readings less than 2^32 seconds apart, the count is the whole seconds since storing
      exactly when the reading is less than a second older than the entry. */
  lemma {:induction false} ElapsedIsWholeIff(now: int, storedAt: int)
    requires -TWO_TO_THE_32 * SECOND < now - storedAt < TWO_TO_THE_32 * SECOND
    ensures ElapsedSeconds(now, storedAt) == WholeSeconds(now, storedAt) <==> storedAt - SECOND < now
  {
    if now >= storedAt {
      assert (now - storedAt) / SECOND < TWO_TO_THE_32;
    } else {
      var k := (storedAt - now) / SECOND;
      ElapsedOfAnOlderClock(now, storedAt);
      assert 0 <= k < TWO_TO_THE_32;
      assert k == 0 <==> storedAt - now < SECOND;
    }
  }

  /** What a hit promises on any clock: it comes before the expiry; the reply differs from the stored
      one in the ID and in the TTL fields, each lowered by the elapsed count; it parses again with
      the same fields. On a clock less than a second behind the moment of storing the count is the
      whole seconds since then, and with answers the lifetime is what is left of the stored one. */
  lemma {:induction false} HitIsFresh(c: Cache, k: Key, query: seq<Byte>, now: int)
    requires Inv(c) && Get(c, k, query, now).1.Some?
    ensures k in c.entries && |query| >= 2 && now < c.entries[k].expiresAt
    ensures var e, r := c.entries[k], Get(c, k, query, now).1.value;
      var t, again, elapsed := ResponseTtls(e.response).value, ResponseTtls(r), ElapsedSeconds(now, e.storedAt);
      && |r| == |e.response| && r[0] == query[0] && r[1] == query[1]
      && Apart(t.offsets, 12, |r|)
      && (forall i :: 2 <= i < |r| && !Covered(i, t.offsets) ==> r[i] == e.response[i])
      && (forall o :: o in t.offsets ==> o + 4 <= |r| && U32(r, o) == AgedTtl(U32(e.response, o), elapsed))
      && again.Some? && again.value.offsets == t.offsets
      && (e.storedAt - SECOND < now ==>
            && elapsed == WholeSeconds(now, e.storedAt)
            && (U16(e.response, 6) > 0 ==> again.value.min == t.min - elapsed >= 1))
  {
    hide ResponseTtls, Hit, ElapsedSeconds, WholeSeconds;
    var e := c.entries[k];
    if e.storedAt - SECOND < now { ElapsedBeforeExpiry(e, now); }
    HitChangesOnlyTtls(e.response, query, ElapsedSeconds(now, e.storedAt));
    HitParsesAgain(e.response, query, ElapsedSeconds(now, e.storedAt));
  }

  /** A query whose clock reading lies between a second and 2^31 seconds before the entry still hits, and
      every TTL of the answer that was at most 2^31 is zero. */
  lemma {:induction false} OldClockAnswersZero(c: Cache, k: Key, query: seq<Byte>, now: int)
    requires Inv(c) && |query| >= 2 && k in c.entries
    requires SECOND <= c.entries[k].storedAt - now < 0x8000_0000 * SECOND
    ensures var e, hit := c.entries[k], Get(c, k, query, now).1;
      && hit.Some?
      && forall o :: o in e.ttlOffsets ==>
           o + 4 <= |hit.value| && |hit.value| == |e.response|
           && (U32(e.response, o) <= 0x8000_0000 ==> U32(hit.value, o) == 0)
  {
    hide ResponseTtls, ElapsedSeconds, Reply, U32;
    var e := c.entries[k];
    var behind := (e.storedAt - now) / SECOND;
    assert EntryOk(e);
    HitIsFresh(c, k, query, now);
    ElapsedOfAnOlderClock(now, e.storedAt);
    assert 1 <= behind < 0x8000_0000;
    assert ElapsedSeconds(now, e.storedAt) == TWO_TO_THE_32 - behind;
  }

  // ---------------------------------------------------------------- runs

  datatype Op =
    | PutOp(key: Key, response: seq<Byte>, now: int)
    | GetOp(key: Key, query: seq<Byte>, now: int)
    | ClearOp

  function Apply(c: Cache, op: Op): Cache {
    match op
    case PutOp(k, response, now) => Put(c, k, response, now)
    case GetOp(k, query, now) => Get(c, k, query, now).0
    case ClearOp => Clear(c)
  }

  function Answer(c: Cache, op: Op): Option<seq<Byte>> {
    if op.GetOp? then Get(c, op.key, op.query, op.now).1 else None
  }

  function Run(c: Cache, ops: seq<Op>): Cache
    decreases |ops|
  {
    if ops == [] then c else Apply(Run(c, ops[..|ops| - 1]), ops[|ops| - 1])
  }

  lemma {:induction false} ApplyKeeps(c: Cache, op: Op)
    requires Valid(c)
    ensures Valid(Apply(c, op))
    ensures Apply(c, op).maxEntries == c.maxEntries && Apply(c, op).maxBytes == c.maxBytes
  {
    hide Put, Get;
    match op
    case PutOp(k, response, now) => PutKeeps(c, k, response, now); PutBounds(c, k, response, now);
    case GetOp(k, query, now) => GetKeeps(c, k, query, now); GetBounds(c, k, query, now);
    case ClearOp =>
  }

  lemma {:induction false} EvictBounds(c: Cache)
    ensures EvictWhileOver(c).maxEntries == c.maxEntries && EvictWhileOver(c).maxBytes == c.maxBytes
    ensures EvictWhileOver(c).epoch == c.epoch
    decreases |c.order|
  {
    if c.usedBytes > c.maxBytes && c.order != [] { EvictBounds(Evict(c)); }
  }

  lemma {:induction false} PutBounds(c: Cache, k: Key, response: seq<Byte>, now: int)
    ensures var p := Put(c, k, response, now);
      p.maxEntries == c.maxEntries && p.maxBytes == c.maxBytes && p.epoch == c.epoch
  {
    if Storable(response) { EvictBounds(Insert(c, k, NewEntry(response, now))); }
  }

  lemma {:induction false} GetBounds(c: Cache, k: Key, query: seq<Byte>, now: int)
    ensures var g := Get(c, k, query, now).0;
      g.maxEntries == c.maxEntries && g.maxBytes == c.maxBytes && g.epoch == c.epoch
  {
  }

  /** Both bounds, the accounting and the shape of the recency list hold after any run. */
  lemma {:induction false} RunKeeps(c: Cache, ops: seq<Op>)
    requires Valid(c)
    ensures Valid(Run(c, ops))
    ensures Run(c, ops).maxEntries == c.maxEntries && Run(c, ops).maxBytes == c.maxBytes
    decreases |ops|
  {
    if ops != [] {
      RunKeeps(c, ops[..|ops| - 1]);
      ApplyKeeps(Run(c, ops[..|ops| - 1]), ops[|ops| - 1]);
    }
  }
}
