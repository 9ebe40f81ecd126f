/** What the byte bound of the response cache does to the inclusion of smaller caches in larger ones: for
    which configurations it is never reached, and how a larger cache loses a hit once it is. */
module ByteBound {
  import opened Bytes
  import opened Wrappers
  import opened ReplyTtl
  import opened ResponseCache
  import opened LruTheory

  // ---------------------------------------------------------------- configurations that never reach it

  predicate KeysUpTo(ops: seq<Op>, n: nat) {
    forall i :: 0 <= i < |ops| && ops[i].PutOp? ==> |ops[i].key| <= n
  }

  lemma {:induction false} StoredKeys(ops: seq<Op>, n: nat)
    requires KeysUpTo(ops, n)
    ensures forall k :: k in LastStored(ops) ==> |k| <= n
    decreases |ops|
  {
    hide NewEntry, Storable;
    if ops != [] { StoredKeys(ops[..|ops| - 1], n); }
  }

  lemma {:induction false} HeldAtMost(entries: map<Key, Entry>, keys: seq<Key>, size: nat)
    requires forall k :: k in keys ==> k in entries && Size(k, entries[k]) <= size
    ensures HeldBytes(entries, keys) <= |keys| * size
  {
    hide Size;
    if keys != [] {
      HeldAtMost(entries, keys[1..], size);
      assert |keys| * size == size + (|keys| - 1) * size;
    }
  }

  lemma {:induction false} Times(a: nat, b: nat, size: nat)
    requires a <= b
    ensures a * size <= b * size
  {
  }

  lemma {:induction false} InsertFits(c: Cache, k: Key, response: seq<Byte>, now: int, n: nat)
    requires Valid(c) && Storable(response) && |k| <= n && c.maxEntries * (MAX_REPLY + n) <= c.maxBytes
    requires forall x :: x in c.entries ==> |x| <= n
    ensures Insert(c, k, NewEntry(response, now)).usedBytes <= c.maxBytes
  {
    hide HeldBytes, Distinct, NewEntry, ResponseTtls, MakeRoom;
    var e := NewEntry(response, now);
    NewEntryOk(response, now);
    InsertKeeps(c, k, e);
    MakeRoomKeeps(c, k);
    InsertBounds(c, k, e);
    var p := Insert(c, k, e);
    forall x | x in p.order ensures x in p.entries && Size(x, p.entries[x]) <= MAX_REPLY + n {
      assert EntryOk(p.entries[x]);
    }
    HeldAtMost(p.entries, p.order, MAX_REPLY + n);
    Times(|p.order|, c.maxEntries, MAX_REPLY + n);
  }

  /** If the entries it may hold fit into the byte bound at their largest, no run reaches the bound. */
  lemma {:induction false} ConfiguredWithin(maxEntries: int, maxBytes: int, n: nat, ops: seq<Op>)
    requires maxEntries > 0 && maxEntries * (MAX_REPLY + n) <= maxBytes && KeysUpTo(ops, n)
    ensures WithinBytes(Empty(maxEntries, maxBytes, 0), ops)
    decreases |ops|
  {
    hide Insert, Storable, NewEntry, Run;
    var c := Empty(maxEntries, maxBytes, 0);
    assert maxBytes >= 0 by { Times(0, maxEntries, MAX_REPLY + n); }
    EmptyIsValid(maxEntries, maxBytes);
    if ops != [] {
      var front, op := ops[..|ops| - 1], ops[|ops| - 1];
      ConfiguredWithin(maxEntries, maxBytes, n, front);
      RunKeeps(c, front);
      HoldsLastStored(c, front);
      StoredKeys(front, n);
      if op.PutOp? && Storable(op.response) { InsertFits(Run(c, front), op.key, op.response, op.now, n); }
    }
  }

  /** So under such a configuration a cache with more room never loses a hit of one with less: at the
      source's 64 MiB, with keys up to 256 octets, for every size up to 7943 entries. */
  lemma {:induction false} ConfiguredRoomKeepsHits(small: int, large: int, maxBytes: int, n: nat, ops: seq<Op>)
    requires 0 < small <= large && large * (MAX_REPLY + n) <= maxBytes && KeysUpTo(ops, n)
    ensures var s, l := Empty(small, maxBytes, 0), Empty(large, maxBytes, 0);
      && SubMap(Run(s, ops).entries, Run(l, ops).entries) && Subsequence(Run(s, ops).order, Run(l, ops).order)
      && forall i :: 0 <= i < |ops| && Answer(Run(s, ops[..i]), ops[i]).Some? ==>
           Answer(Run(l, ops[..i]), ops[i]) == Answer(Run(s, ops[..i]), ops[i])
  {
    hide WithinBytes, Run, Answer, KeysUpTo;
    assert maxBytes >= 0 by { Times(0, large, MAX_REPLY + n); }
    ConfiguredWithin(large, maxBytes, n, ops);
    MoreRoomKeepsHits(small, large, maxBytes, ops);
  }

  // ---------------------------------------------------------------- single puts

  lemma {:induction false} EmptyIsValid(n: int, maxBytes: int)
    requires n > 0 && maxBytes >= 0
    ensures Valid(Empty(n, maxBytes, 0))
  {
  }

  lemma {:induction false} Unexpired(response: seq<Byte>, now: int)
    requires Storable(response)
    ensures NewEntry(response, now).expiresAt > now
  {
    hide ResponseTtls;
  }

  /** Into a cache that has room in both bounds. */
  lemma {:induction false} PutRoomy(c: Cache, k: Key, response: seq<Byte>, now: int)
    requires Valid(c) && Storable(response) && k !in c.entries && |c.order| < c.maxEntries
    requires c.usedBytes + |response| + |k| <= c.maxBytes
    ensures var p := Put(c, k, response, now);
      && Valid(p) && p.order == [k] + c.order && p.entries == c.entries[k := NewEntry(response, now)]
      && p.usedBytes == c.usedBytes + |response| + |k| && p.maxEntries == c.maxEntries && p.maxBytes == c.maxBytes
  {
    hide NewEntry, EntryOk, HeldBytes, Valid, Inv;
    PutKeeps(c, k, response, now);
    assert |c.entries| == |c.order| && Inv(c) by { CountOf(c); }
    var e := NewEntry(response, now);
    assert Size(k, e) == |response| + |k| by { NewEntrySize(k, response, now); }
    assert EvictWhileOver(Insert(c, k, e)) == Insert(c, k, e);
  }

  lemma {:induction false} NewEntrySize(k: Key, response: seq<Byte>, now: int)
    requires Storable(response)
    ensures Size(k, NewEntry(response, now)) == |response| + |k|
  {
  }

  lemma {:induction false} CountOf(c: Cache)
    requires Valid(c)
    ensures |c.entries| == |c.order| && Inv(c)
  {
    EntryCount(c);
  }

  /** Into a cache of which only its last entry has to leave. */
  lemma {:induction false} PutFull(c: Cache, k: Key, response: seq<Byte>, now: int)
    requires Valid(c) && Storable(response) && k !in c.entries && |c.order| == c.maxEntries
    requires var last := c.order[|c.order| - 1];
      last in c.entries && c.usedBytes - Size(last, c.entries[last]) + |response| + |k| <= c.maxBytes
    ensures var p, last := Put(c, k, response, now), c.order[|c.order| - 1];
      && Valid(p) && p.order == [k] + c.order[..|c.order| - 1]
      && p.entries == (c.entries - {last})[k := NewEntry(response, now)]
      && p.usedBytes == c.usedBytes - Size(last, c.entries[last]) + |response| + |k|
      && p.maxEntries == c.maxEntries && p.maxBytes == c.maxBytes
  {
    hide NewEntry, EntryOk, HeldBytes, Valid, Inv, Size;
    PutKeeps(c, k, response, now);
    assert |c.entries| == |c.order| by { CountOf(c); }
    var e := NewEntry(response, now);
    assert Size(k, e) == |response| + |k| by { NewEntrySize(k, response, now); }
    assert MakeRoom(c, k) == Evict(c);
    assert EvictWhileOver(Insert(c, k, e)) == Insert(c, k, e);
  }

  // ---------------------------------------------------------------- filling a cache

  datatype Item = Item(key: Key, reply: seq<Byte>)

  function ItemSize(item: Item): nat { |item.reply| + |item.key| }

  /** Storable replies of one size under different keys. */
  ghost predicate Uniform(items: seq<Item>, size: nat) {
    && (forall i :: 0 <= i < |items| ==> Storable(items[i].reply) && ItemSize(items[i]) == size)
    && forall i, j :: 0 <= i < j < |items| ==> items[i].key != items[j].key
  }

  /** The items are put one after the other, the first one last. */
  function Puts(items: seq<Item>, now: int): seq<Op> {
    if items == [] then [] else Puts(items[1..], now) + [PutOp(items[0].key, items[0].reply, now)]
  }

  function KeysOf(items: seq<Item>): (r: seq<Key>)
    ensures |r| == |items| && forall i :: 0 <= i < |r| ==> r[i] == items[i].key
  {
    seq(|items|, i requires 0 <= i < |items| => items[i].key)
  }

  ghost predicate HeldAs(c: Cache, item: Item, now: int) {
    item.key in c.entries && Storable(item.reply) && c.entries[item.key] == NewEntry(item.reply, now)
  }

  /** The cache holds exactly the items, the first one most recently used. */
  ghost predicate Holds(c: Cache, items: seq<Item>, size: nat, now: int) {
    && Valid(c) && c.order == KeysOf(items) && c.usedBytes == |items| * size
    && forall i :: 0 <= i < |items| ==> HeldAs(c, items[i], now)
  }

  lemma {:induction false} RunLast(c: Cache, ops: seq<Op>, op: Op)
    ensures Run(c, ops + [op]) == Apply(Run(c, ops), op)
  {
    assert (ops + [op])[..|ops|] == ops;
  }

  lemma {:induction false} KeyInCache(c: Cache, items: seq<Item>, size: nat, now: int, k: Key)
    requires Holds(c, items, size, now)
    ensures k in c.entries <==> exists i :: 0 <= i < |items| && items[i].key == k
  {
    assert k in c.entries <==> k in c.order;
    if k in c.entries { var i :| 0 <= i < |c.order| && c.order[i] == k; assert items[i].key == k; }
  }

  lemma {:induction false} Filled(maxEntries: int, maxBytes: int, items: seq<Item>, size: nat, now: int)
    requires 0 < maxEntries && |items| <= maxEntries && |items| * size <= maxBytes && Uniform(items, size)
    ensures var c := Run(Empty(maxEntries, maxBytes, 0), Puts(items, now));
      Holds(c, items, size, now) && c.maxEntries == maxEntries && c.maxBytes == maxBytes
    decreases |items|
  {
    hide NewEntry, Storable, Put, Run, Valid;
    var c0 := Empty(maxEntries, maxBytes, 0);
    assert maxBytes >= 0 by { Times(0, |items|, size); }
    EmptyIsValid(maxEntries, maxBytes);
    if items == [] {
      NoOps(c0);
    } else {
      var rest, first := items[1..], items[0];
      assert |items| * size == |rest| * size + size;
      Filled(maxEntries, maxBytes, rest, size, now);
      var c := Run(c0, Puts(rest, now));
      RunLast(c0, Puts(rest, now), PutOp(first.key, first.reply, now));
      FilledStep(c, items, size, now);
    }
  }

  lemma {:induction false} NoOps(c: Cache)
    ensures Run(c, []) == c
  {
  }

  lemma {:induction false} FilledStep(c: Cache, items: seq<Item>, size: nat, now: int)
    requires items != [] && Uniform(items, size) && Holds(c, items[1..], size, now)
    requires |items| <= c.maxEntries && |items| * size <= c.maxBytes
    ensures var p := Put(c, items[0].key, items[0].reply, now);
      Holds(p, items, size, now) && p.maxEntries == c.maxEntries && p.maxBytes == c.maxBytes
  {
    hide NewEntry, Storable, Put, Valid;
    var rest, first := items[1..], items[0];
    assert |items| * size == |rest| * size + size;
    KeyInCache(c, rest, size, now, first.key);
    PutRoomy(c, first.key, first.reply, now);
    var p := Put(c, first.key, first.reply, now);
    assert [first.key] + KeysOf(rest) == KeysOf(items);
    forall i | 0 <= i < |items| ensures HeldAs(p, items[i], now) {
      if i > 0 { assert items[i] == rest[i - 1] && HeldAs(c, rest[i - 1], now); }
    }
  }

  // ---------------------------------------------------------------- losing a hit

  /** A full cache makes place for one new item by dropping its last one. */
  lemma {:induction false} PutOnFull(c: Cache, items: seq<Item>, item: Item, size: nat, now: int)
    requires items != [] && Uniform(items, size) && Holds(c, items, size, now) && |items| == c.maxEntries
    requires Storable(item.reply) && forall i :: 0 <= i < |items| ==> items[i].key != item.key
    requires (|items| - 1) * size + ItemSize(item) <= c.maxBytes
    ensures var p, rest := Put(c, item.key, item.reply, now), items[..|items| - 1];
      && Valid(p) && p.order == [item.key] + KeysOf(rest) && p.usedBytes == (|items| - 1) * size + ItemSize(item)
      && p.maxEntries == c.maxEntries && p.maxBytes == c.maxBytes
      && HeldAs(p, item, now) && forall i :: 0 <= i < |rest| ==> HeldAs(p, rest[i], now)
  {
    hide NewEntry, Storable, Put, Valid;
    var n := |items|;
    var last, rest := items[n - 1], items[..n - 1];
    assert n * size == (n - 1) * size + size;
    KeyInCache(c, items, size, now, item.key);
    NewEntrySize(last.key, last.reply, now);
    assert c.order[n - 1] == last.key;
    PutFull(c, item.key, item.reply, now);
    assert c.order[..n - 1] == KeysOf(rest);
    forall i | 0 <= i < n - 1 ensures HeldAs(Put(c, item.key, item.reply, now), rest[i], now) {
      assert rest[i] == items[i] && HeldAs(c, items[i], now) && items[i].key != last.key;
    }
  }

  /** What follows the puts: a query for the oldest item, and one more put. */
  function Refill(items: seq<Item>, y: Item, query: seq<Byte>, now: int): seq<Op>
    requires items != []
  {
    Puts(items, now) + [GetOp(items[|items| - 1].key, query, now)] + [PutOp(y.key, y.reply, now)]
  }

  /** All of the items fill the byte bound so far that one of them and the new one do not fit beside the
      others, while without two of them the new one does. */
  ghost predicate Crowding(items: seq<Item>, y: Item, size: nat, maxBytes: int) {
    && |items| >= 3 && Uniform(items, size) && Storable(y.reply)
    && (forall i :: 0 <= i < |items| ==> items[i].key != y.key)
    && |items| * size <= maxBytes < (|items| - 1) * size + ItemSize(y)
    && (|items| - 2) * size + ItemSize(y) <= maxBytes
  }

  lemma {:induction false} SmallerKeeps(items: seq<Item>, y: Item, size: nat, maxBytes: int, query: seq<Byte>, now: int)
    requires Crowding(items, y, size, maxBytes)
    ensures items[|items| - 3].key in Run(Empty(|items| - 1, maxBytes, 0), Refill(items, y, query, now)).entries
  {
    hide NewEntry, Storable, Put, Run, Valid, Puts;
    var n := |items|;
    var c0, first, newest := Empty(n - 1, maxBytes, 0), items[0], items[..n - 1];
    assert n * size == (n - 1) * size + size == (n - 2) * size + 2 * size;
    assert Uniform(items[1..], size) && Uniform(newest, size);
    Filled(n - 1, maxBytes, items[1..], size, now);
    var c1 := Run(c0, Puts(items[1..], now));
    PutOnFull(c1, items[1..], first, size, now);
    var c2 := Put(c1, first.key, first.reply, now);
    assert Run(c0, Puts(items, now)) == c2 by { PutsLast(c0, items, now); }
    assert newest[1..] == items[1..][..n - 2] && newest[0] == first;
    HoldsNewest(c2, newest, size, now);
    KeyInCache(c2, newest, size, now, items[n - 1].key);
    assert Get(c2, items[n - 1].key, query, now).0 == c2;
    PutOnFull(c2, newest, y, size, now);
    assert newest[..n - 2][n - 3] == items[n - 3];
    RunRefill(c0, items, y, query, now);
  }

  lemma {:induction false} PutsLast(c: Cache, items: seq<Item>, now: int)
    requires items != []
    ensures Run(c, Puts(items, now)) == Put(Run(c, Puts(items[1..], now)), items[0].key, items[0].reply, now)
  {
    hide Put, Run;
    RunLast(c, Puts(items[1..], now), PutOp(items[0].key, items[0].reply, now));
  }

  lemma {:induction false} RunRefill(c: Cache, items: seq<Item>, y: Item, query: seq<Byte>, now: int)
    requires items != []
    ensures Run(c, Refill(items, y, query, now)) ==
      Put(Get(Run(c, Puts(items, now)), items[|items| - 1].key, query, now).0, y.key, y.reply, now)
  {
    hide Put, Get, Run, Puts;
    var front, get := Puts(items, now), GetOp(items[|items| - 1].key, query, now);
    RunLast(c, front, get);
    RunLast(c, front + [get], PutOp(y.key, y.reply, now));
  }

  /** After all puts the smaller cache holds all items but the oldest. */
  lemma {:induction false} HoldsNewest(c: Cache, newest: seq<Item>, size: nat, now: int)
    requires newest != [] && Valid(c) && HeldAs(c, newest[0], now)
    requires c.order == [newest[0].key] + KeysOf(newest[1..]) && c.usedBytes == |newest| * size
    requires var rest := newest[1..]; forall i :: 0 <= i < |rest| ==> HeldAs(c, rest[i], now)
    ensures Holds(c, newest, size, now)
  {
    hide HeldAs, Valid;
    var rest := newest[1..];
    assert c.order == KeysOf(newest);
    forall i | 0 <= i < |newest| ensures HeldAs(c, newest[i], now) {
      if i > 0 { assert newest[i] == rest[i - 1]; }
    }
  }

  lemma {:induction false} EvictsTwo(c: Cache, p: Key, q: Key)
    requires |c.order| >= 2 && c.order[|c.order| - 1] == p && c.order[|c.order| - 2] == q && p != q
    requires p in c.entries && q in c.entries
    requires var left := c.usedBytes - Size(p, c.entries[p]);
      c.usedBytes > c.maxBytes && left > c.maxBytes && left - Size(q, c.entries[q]) <= c.maxBytes
    ensures q !in EvictWhileOver(c).entries
  {
    hide Size;
    var c2 := Evict(c);
    var c3 := Evict(c2);
    assert EvictWhileOver(c) == EvictWhileOver(c2) == EvictWhileOver(c3) == c3;
  }

  /** The sizes of a crowding list in terms of what its items use. */
  lemma {:induction false} CrowdingSizes(items: seq<Item>, y: Item, size: nat, maxBytes: int, used: int)
    requires Crowding(items, y, size, maxBytes) && used == |items| * size
    ensures used <= maxBytes < used - size + ItemSize(y) && used - 2 * size + ItemSize(y) <= maxBytes
    ensures |items| >= 3 && Storable(y.reply) && forall i :: 0 <= i < |items| ==> items[i].key != y.key
  {
    var n := |items|;
    assert n * size == (n - 1) * size + size == (n - 2) * size + 2 * size;
  }

  lemma {:induction false} HeldSize(c: Cache, item: Item, now: int)
    requires HeldAs(c, item, now)
    ensures item.key in c.entries && Size(item.key, c.entries[item.key]) == ItemSize(item)
  {
    NewEntrySize(item.key, item.reply, now);
  }

  lemma {:induction false} LargerEvicts(c: Cache, items: seq<Item>, y: Item, size: nat, now: int)
    requires Crowding(items, y, size, c.maxBytes)
    requires Valid(c) && |items| < c.maxEntries && c.usedBytes == |items| * size
    requires c.order == [items[|items| - 1].key] + KeysOf(items[..|items| - 1])
    requires forall i :: 0 <= i < |items| ==> HeldAs(c, items[i], now)
    ensures items[|items| - 3].key !in Put(c, y.key, y.reply, now).entries
  {
    hide Crowding, Uniform, HeldAs, Valid, Put, Size, KeysOf, ItemSize;
    CrowdingSizes(items, y, size, c.maxBytes, c.usedBytes);
    var p, q := items[|items| - 2], items[|items| - 3];
    LastTwo(c, items);
    TwoItems(items, y, size, c.maxBytes);
    HeldSize(c, p, now);
    HeldSize(c, q, now);
    if y.key in c.entries { AmongItems(c, items, y.key); }
    PutEvictsTwo(c, y, p.key, q.key, now);
  }

  lemma {:induction false} LastTwo(c: Cache, items: seq<Item>)
    requires |items| >= 3 && c.order == [items[|items| - 1].key] + KeysOf(items[..|items| - 1])
    ensures var n := |items|; |c.order| == n && c.order[n - 1] == items[n - 2].key && c.order[n - 2] == items[n - 3].key
  {
  }

  lemma {:induction false} TwoItems(items: seq<Item>, y: Item, size: nat, maxBytes: int)
    requires Crowding(items, y, size, maxBytes)
    ensures var p, q := items[|items| - 2], items[|items| - 3];
      p.key != q.key && ItemSize(p) == size && ItemSize(q) == size
  {
  }

  /** A put into a cache with room for entries, but in bytes only once its last two entries have left. */
  lemma {:induction false} PutEvictsTwo(c: Cache, y: Item, p: Key, q: Key, now: int)
    requires Valid(c) && y.key !in c.entries && 2 <= |c.order| < c.maxEntries && Storable(y.reply)
    requires c.order[|c.order| - 1] == p && c.order[|c.order| - 2] == q && p != q && p in c.entries && q in c.entries
    requires var left := c.usedBytes + ItemSize(y) - Size(p, c.entries[p]);
      left > c.maxBytes && left - Size(q, c.entries[q]) <= c.maxBytes
    ensures q !in Put(c, y.key, y.reply, now).entries
  {
    hide NewEntry, ResponseTtls, Valid, EvictWhileOver, Size;
    var e := NewEntry(y.reply, now);
    NewEntrySize(y.key, y.reply, now);
    CountOf(c);
    hide Inv;
    var c1 := Insert(c, y.key, e);
    assert MakeRoom(c, y.key) == c && c1.order == [y.key] + c.order;
    assert 0 <= Size(p, c.entries[p]);
    EvictsTwo(c1, p, q);
  }

  lemma {:induction false} AmongItems(c: Cache, items: seq<Item>, k: Key)
    requires Valid(c) && items != [] && k in c.entries
    requires c.order == [items[|items| - 1].key] + KeysOf(items[..|items| - 1])
    ensures exists i :: 0 <= i < |items| && items[i].key == k
  {
    InOrder(c, k);
    hide Valid;
    var i :| 0 <= i < |c.order| && c.order[i] == k;
    if i > 0 { assert items[i - 1].key == k; }
  }

  lemma {:induction false} InOrder(c: Cache, k: Key)
    requires Valid(c) && k in c.entries
    ensures k in c.order
  {
  }

  /** After the query the larger cache still holds all items, the oldest one now the most recent. */
  lemma {:induction false} LargerHits(c: Cache, items: seq<Item>, size: nat, query: seq<Byte>, now: int)
    requires items != [] && Holds(c, items, size, now) && |query| >= 2
    ensures var d := Get(c, items[|items| - 1].key, query, now).0;
      && Valid(d) && d.usedBytes == c.usedBytes && d.maxEntries == c.maxEntries && d.maxBytes == c.maxBytes
      && d.order == [items[|items| - 1].key] + KeysOf(items[..|items| - 1])
      && forall i :: 0 <= i < |items| ==> HeldAs(d, items[i], now)
  {
    var oldest := items[|items| - 1];
    assert HeldAs(c, oldest, now);
    StillFresh(c, oldest, now);
    WithoutLast(c, items, size, now);
    GetIsValid(c, oldest.key, query, now);
    var d := Get(c, oldest.key, query, now).0;
    HitState(c, oldest.key, query, now);
    hide HeldAs, Valid, Get, Without, KeysOf;
    forall i | 0 <= i < |items| ensures HeldAs(d, items[i], now) { SameEntries(c, d, items[i], now); }
  }

  lemma {:induction false} HitState(c: Cache, k: Key, query: seq<Byte>, now: int)
    requires |query| >= 2 && k in c.entries && now < c.entries[k].expiresAt
    ensures Get(c, k, query, now).0 == c.(order := [k] + Without(c.order, k))
  {
  }

  lemma {:induction false} LargerLoses(items: seq<Item>, y: Item, size: nat, large: int, maxBytes: int,
                                       query: seq<Byte>, now: int)
    requires Crowding(items, y, size, maxBytes) && large > |items| && |query| >= 2
    ensures |items| >= 3
    ensures items[|items| - 3].key !in Run(Empty(large, maxBytes, 0), Refill(items, y, query, now)).entries
  {
    hide Put, Get, Run, Valid, Puts, Crowding, HeldAs;
    CrowdingParts(items, y, size, maxBytes);
    var c0 := Empty(large, maxBytes, 0);
    Filled(large, maxBytes, items, size, now);
    var c1 := Run(c0, Puts(items, now));
    LargerHits(c1, items, size, query, now);
    LargerEvicts(Get(c1, items[|items| - 1].key, query, now).0, items, y, size, now);
    RunRefill(c0, items, y, query, now);
  }

  lemma {:induction false} StillFresh(c: Cache, item: Item, now: int)
    requires HeldAs(c, item, now)
    ensures item.key in c.entries && now < c.entries[item.key].expiresAt
  {
    Unexpired(item.reply, now);
  }

  lemma {:induction false} SameEntries(c: Cache, d: Cache, item: Item, now: int)
    requires HeldAs(c, item, now) && d.entries == c.entries
    ensures HeldAs(d, item, now)
  {
  }

  lemma {:induction false} CrowdingParts(items: seq<Item>, y: Item, size: nat, maxBytes: int)
    requires Crowding(items, y, size, maxBytes)
    ensures Uniform(items, size) && |items| >= 3 && |items| * size <= maxBytes
  {
  }

  lemma {:induction false} GetIsValid(c: Cache, k: Key, query: seq<Byte>, now: int)
    requires Valid(c)
    ensures Valid(Get(c, k, query, now).0)
  {
    GetKeeps(c, k, query, now);
    GetBounds(c, k, query, now);
  }

  lemma {:induction false} WithoutLast(c: Cache, items: seq<Item>, size: nat, now: int)
    requires items != [] && Holds(c, items, size, now)
    ensures Without(c.order, items[|items| - 1].key) == KeysOf(items[..|items| - 1])
  {
    DropLast(c.order);
  }

  /** Once the byte bound is reached a cache with more room can lose a hit. The query for the oldest item hits
      only there and makes it the most recent one, and the next put then evicts two items, one of
      which the smaller cache still holds. */
  lemma {:induction false} LargerLosesHit(items: seq<Item>, y: Item, size: nat, large: int, maxBytes: int,
                                          query: seq<Byte>, now: int)
    requires Crowding(items, y, size, maxBytes) && large > |items| && |query| >= 2
    ensures var ops, lost := Refill(items, y, query, now), items[|items| - 3].key;
      var s, l := Run(Empty(|items| - 1, maxBytes, 0), ops), Run(Empty(large, maxBytes, 0), ops);
      && lost in s.entries && lost !in l.entries && Get(l, lost, query, now).1 == None
      && !WithinBytes(Empty(large, maxBytes, 0), ops)
  {
    hide Run, Refill, Crowding, WithinBytes;
    CrowdingParts(items, y, size, maxBytes);
    SmallerKeeps(items, y, size, maxBytes, query, now);
    LargerLoses(items, y, size, large, maxBytes, query, now);
    if WithinBytes(Empty(large, maxBytes, 0), Refill(items, y, query, now)) {
      Times(0, |items|, size);
      MoreRoomKeepsHits(|items| - 1, large, maxBytes, Refill(items, y, query, now));
    }
  }
}
