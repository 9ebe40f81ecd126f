/** What the recency order of the response cache means over whole runs: agreement with a plain map,
    eviction of the least recently used entry, and the inclusion of smaller caches in larger ones. */
module LruTheory {
  import opened Bytes
  import opened Wrappers
  import opened ReplyTtl
  import opened ResponseCache

  // ---------------------------------------------------------------- the plain map

  /** The reply last stored under each key since the last clear, whatever was evicted since. */
  function LastStored(ops: seq<Op>): map<Key, Entry>
    decreases |ops|
  {
    if ops == [] then map[] else
    var before := LastStored(ops[..|ops| - 1]);
    match ops[|ops| - 1]
    case PutOp(k, response, now) => if Storable(response) then before[k := NewEntry(response, now)] else before
    case GetOp(_, _, _) => before
    case ClearOp => map[]
  }

  /** Whatever its bounds, the cache never holds anything but the last reply stored under a key. */
  lemma {:induction false} HoldsLastStored(c: Cache, ops: seq<Op>)
    requires c.entries == map[]
    ensures SubMap(Run(c, ops).entries, LastStored(ops))
    decreases |ops|
  {
    hide NewEntry, ResponseTtls, Without;
    if ops != [] {
      HoldsLastStored(c, ops[..|ops| - 1]);
      var before, op := Run(c, ops[..|ops| - 1]), ops[|ops| - 1];
      if op.PutOp? && Storable(op.response) {
        EvictShrinks(Insert(before, op.key, NewEntry(op.response, op.now)));
      }
    }
  }

  /** So a hit is the aged form of the reply last stored under its key, not yet expired. */
  lemma {:induction false} HitIsLastStored(c: Cache, ops: seq<Op>, k: Key, query: seq<Byte>, now: int)
    requires c.entries == map[] && Get(Run(c, ops), k, query, now).1.Some?
    ensures |query| >= 2 && k in LastStored(ops) && now < LastStored(ops)[k].expiresAt
    ensures Get(Run(c, ops), k, query, now).1 == Some(Reply(LastStored(ops)[k], query, now))
  {
    hide LastStored, Run, Reply;
    HoldsLastStored(c, ops);
  }

  // ---------------------------------------------------------------- recency

  /** The position in the run of the last operation that stored or hit each key. */
  function LastUse(c: Cache, ops: seq<Op>): map<Key, nat>
    decreases |ops|
  {
    if ops == [] then map[] else
    var n := |ops| - 1;
    var before, op := LastUse(c, ops[..n]), ops[n];
    if op.PutOp? && Storable(op.response) then before[op.key := n]
    else if op.GetOp? && Answer(Run(c, ops[..n]), op).Some? then before[op.key := n]
    else before
  }

  /** Along the recency list the last uses go strictly back in time. */
  ghost predicate ByRecency(order: seq<Key>, use: map<Key, nat>) {
    && (forall k :: k in order ==> k in use)
    && (forall i, j :: 0 <= i < j < |order| ==> use[order[i]] > use[order[j]])
  }

  lemma {:induction false} RecencyTail(order: seq<Key>, use: map<Key, nat>)
    requires order != [] && ByRecency(order, use)
    ensures ByRecency(order[1..], use) && order[0] in use
    ensures forall x :: x in order[1..] ==> x in use && use[order[0]] > use[x]
  {
  }

  lemma {:induction false} RecencyCons(first: Key, rest: seq<Key>, use: map<Key, nat>)
    requires ByRecency(rest, use) && first in use && forall x :: x in rest ==> x in use && use[first] > use[x]
    ensures ByRecency([first] + rest, use)
  {
  }

  lemma {:induction false} RecencyWithout(order: seq<Key>, use: map<Key, nat>, k: Key)
    requires ByRecency(order, use) && Distinct(order)
    ensures ByRecency(Without(order, k), use)
  {
    hide ByRecency;
    if order != [] {
      RecencyTail(order, use);
      if order[0] != k {
        RecencyWithout(order[1..], use, k);
        WithoutKeys(order[1..], k);
        RecencyCons(order[0], Without(order[1..], k), use);
      }
    }
  }

  lemma {:induction false} RecencyFront(order: seq<Key>, use: map<Key, nat>, k: Key, n: nat)
    requires ByRecency(order, use) && k !in order && forall x :: x in order ==> use[x] < n
    ensures ByRecency([k] + order, use[k := n])
  {
  }

  lemma {:induction false} EvictedOrder(c: Cache)
    requires Inv(c)
    ensures EvictWhileOver(c).order <= c.order
    decreases |c.order|
  {
    hide Inv;
    if c.usedBytes > c.maxBytes && c.order != [] { EvictKeeps(c); EvictedOrder(Evict(c)); }
  }

  lemma {:induction false} RecencyRoom(c: Cache, k: Key, use: map<Key, nat>)
    requires ByRecency(c.order, use) && Distinct(c.order)
    ensures ByRecency(MakeRoom(c, k).order, use)
  {
    RecencyWithout(c.order, use, k);
  }

  lemma {:induction false} RecencyPrefix(a: seq<Key>, b: seq<Key>, use: map<Key, nat>)
    requires a <= b && ByRecency(b, use)
    ensures ByRecency(a, use)
  {
  }

  lemma {:induction false} RecencyPut(c: Cache, k: Key, response: seq<Byte>, now: int, use: map<Key, nat>, n: nat)
    requires Valid(c) && ByRecency(c.order, use) && Storable(response)
    requires forall x :: x in use ==> use[x] < n
    ensures ByRecency(Put(c, k, response, now).order, use[k := n])
  {
    hide EntryOk, NewEntry, HeldBytes, ResponseTtls, MakeRoom, ByRecency, EvictWhileOver, Distinct;
    var e := NewEntry(response, now);
    NewEntryOk(response, now);
    MakeRoomKeeps(c, k);
    InsertKeeps(c, k, e);
    EvictedOrder(Insert(c, k, e));
    RecencyRoom(c, k, use);
    assert forall x :: x in MakeRoom(c, k).order ==> x in use by { RecencyKeys(MakeRoom(c, k).order, use); }
    RecencyFront(MakeRoom(c, k).order, use, k, n);
    RecencyPrefix(Put(c, k, response, now).order, Insert(c, k, e).order, use[k := n]);
  }

  lemma {:induction false} RecencyKeys(order: seq<Key>, use: map<Key, nat>)
    requires ByRecency(order, use)
    ensures forall k :: k in order ==> k in use
  {
  }

  /** The list is in order of last use at every point of every run. */
  lemma {:induction false} RunByRecency(c: Cache, ops: seq<Op>)
    requires Valid(c) && c.order == []
    ensures ByRecency(Run(c, ops).order, LastUse(c, ops))
    ensures forall k :: k in LastUse(c, ops) ==> LastUse(c, ops)[k] < |ops|
    decreases |ops|
  {
    hide EntryOk, HeldBytes, Put, Distinct, Reply;
    if ops != [] {
      var n := |ops| - 1;
      var before, op, use := Run(c, ops[..n]), ops[n], LastUse(c, ops[..n]);
      RunByRecency(c, ops[..n]);
      RunKeeps(c, ops[..n]);
      match op
      case PutOp(k, response, now) =>
        if Storable(response) { RecencyPut(before, k, response, now, use, n); }
        else { assert Put(before, k, response, now) == before by { PutNothing(before, k, response, now); } }
      case GetOp(k, query, now) =>
        RecencyWithout(before.order, use, k);
        WithoutKeys(before.order, k);
        RecencyFront(Without(before.order, k), use, k, n);
      case ClearOp =>
    }
  }

  /** evictOne drops the entry whose last use lies furthest back, and only that entry. */
  lemma {:induction false} EvictsLeastRecentlyUsed(c: Cache, ops: seq<Op>)
    requires Valid(c) && c.order == [] && Run(c, ops).order != []
    ensures var full, use := Run(c, ops), LastUse(c, ops);
      var victim := full.order[|full.order| - 1];
      && victim in full.entries && victim in use
      && Evict(full).entries == full.entries - {victim}
      && forall k :: k in full.entries && k != victim ==> k in use && use[victim] < use[k]
  {
    hide Run, LastUse, EntryOk, HeldBytes, Distinct;
    var full, use := Run(c, ops), LastUse(c, ops);
    var victim := full.order[|full.order| - 1];
    RunKeeps(c, ops);
    RunByRecency(c, ops);
    assert victim in full.order;
    forall k | k in full.entries && k != victim ensures k in use && use[victim] < use[k] {
      assert k in full.order;
      var i :| 0 <= i < |full.order| && full.order[i] == k;
    }
  }

  // ---------------------------------------------------------------- inclusion

  predicate Subsequence(a: seq<Key>, b: seq<Key>)
    decreases |b|
  {
    if a == [] then true else if b == [] then false
    else if a[0] == b[0] then Subsequence(a[1..], b[1..]) else Subsequence(a, b[1..])
  }

  lemma {:induction false} SubsequenceKeys(a: seq<Key>, b: seq<Key>)
    requires Subsequence(a, b)
    ensures forall k :: k in a ==> k in b
    ensures |a| <= |b|
    decreases |b|
  {
    if a != [] {
      SubsequenceKeys(if a[0] == b[0] then a[1..] else a, b[1..]);
      assert forall k :: k in a ==> k == a[0] || k in a[1..];
      assert forall k :: k in b[1..] ==> k in b;
    }
  }

  lemma {:induction false} SubsequenceTail(a: seq<Key>, b: seq<Key>)
    requires a != [] && Subsequence(a, b)
    ensures Subsequence(a[1..], b)
    decreases |b|
  {
    if a[0] == b[0] {
      if |a| > 1 { if a[1] != b[0] { } else { SubsequenceTail(a[1..], b[1..]); } }
    } else {
      SubsequenceTail(a, b[1..]);
      if |a| > 1 && a[1] == b[0] { SubsequenceTail(a[1..], b[1..]); }
    }
  }

  lemma {:induction false} SubsequenceWithout(a: seq<Key>, b: seq<Key>, k: Key)
    requires Subsequence(a, b) && Distinct(b)
    ensures Subsequence(Without(a, k), Without(b, k))
    decreases |b|
  {
    if a != [] {
      var rest := if a[0] == b[0] then a[1..] else a;
      SubsequenceKeys(rest, b[1..]);
      SubsequenceWithout(rest, b[1..], k);
      if b[0] == k {
        if a[0] != b[0] { NotInWithout(a, k); } else { NotInWithout(a[1..], k); }
      } else {
        var wa, wb := Without(a, k), Without(b, k);
        assert wb[1..] == Without(b[1..], k);
        if a[0] == b[0] { assert wa[1..] == Without(a[1..], k); }
        else if wa != [] && wa[0] == wb[0] {
          SubsequenceTail(wa, wb[1..]);
        }
      }
    }
  }

  lemma {:induction false} NotInWithout(a: seq<Key>, k: Key)
    requires k !in a
    ensures Without(a, k) == a
  {
    if a != [] { NotInWithout(a[1..], k); }
  }

  lemma {:induction false} SubsequenceInit(a: seq<Key>, b: seq<Key>)
    requires a != [] && Subsequence(a, b)
    ensures Subsequence(a[..|a| - 1], b)
    decreases |b|
  {
    if a[0] == b[0] {
      if |a| > 1 {
        SubsequenceInit(a[1..], b[1..]);
        assert a[..|a| - 1][1..] == a[1..][..|a| - 2];
      }
    } else {
      SubsequenceInit(a, b[1..]);
    }
  }

  lemma {:induction false} SubsequenceInits(a: seq<Key>, b: seq<Key>)
    requires a != [] && Subsequence(a, b)
    ensures Subsequence(a[..|a| - 1], b[..|b| - 1])
    decreases |b|
  {
    if |a| > 1 || a[0] != b[0] {
      var rest := if a[0] == b[0] then a[1..] else a;
      SubsequenceInits(rest, b[1..]);
      assert b[..|b| - 1][1..] == b[1..][..|b| - 2];
      if a[0] == b[0] { assert a[..|a| - 1][1..] == a[1..][..|a| - 2]; }
    }
  }

  lemma {:induction false} SubsequenceBytes(m: map<Key, Entry>, a: seq<Key>, n: map<Key, Entry>, b: seq<Key>)
    requires Subsequence(a, b) && SubMap(m, n)
    ensures HeldBytes(m, a) <= HeldBytes(n, b)
    decreases |b|
  {
    if a != [] { SubsequenceBytes(m, if a[0] == b[0] then a[1..] else a, n, b[1..]); }
  }

  /** The small cache is contained in the large one: equal entries, recency order respected, and
      the large one is not ahead by more than the difference of the capacities. */
  ghost predicate Included(s: Cache, l: Cache) {
    && Valid(s) && Valid(l)
    && s.maxEntries <= l.maxEntries && s.maxBytes == l.maxBytes
    && Subsequence(s.order, l.order) && SubMap(s.entries, l.entries)
    && |l.order| - |s.order| <= l.maxEntries - s.maxEntries
  }

  lemma {:induction false} RoomIncluded(s: Cache, l: Cache, k: Key)
    requires Included(s, l)
    ensures Subsequence(MakeRoom(s, k).order, MakeRoom(l, k).order)
    ensures |MakeRoom(l, k).order| - |MakeRoom(s, k).order| <= l.maxEntries - s.maxEntries
  {
    hide EntryOk, HeldBytes, Subsequence, Without, Distinct;
    EntryCount(s);
    EntryCount(l);
    WithoutKeys(s.order, k);
    WithoutKeys(l.order, k);
    SubsequenceWithout(s.order, l.order, k);
    if k !in s.entries { NotInWithout(s.order, k); }
    if k !in l.entries { NotInWithout(l.order, k); }
    if |s.order| >= s.maxEntries {
      SubsequenceInits(s.order, l.order);
      SubsequenceInit(s.order, l.order);
      if k !in s.entries { SubsequenceInit(s.order, Without(l.order, k)); }
    }
  }

  lemma {:induction false} InsertIncluded(s: Cache, l: Cache, k: Key, e: Entry)
    requires Included(s, l) && EntryOk(e)
    ensures Inv(Insert(s, k, e)) && Inv(Insert(l, k, e))
    ensures Subsequence(Insert(s, k, e).order, Insert(l, k, e).order)
    ensures SubMap(Insert(s, k, e).entries, Insert(l, k, e).entries)
    ensures |Insert(l, k, e).order| - |Insert(s, k, e).order| <= l.maxEntries - s.maxEntries
    ensures Insert(s, k, e).usedBytes <= Insert(l, k, e).usedBytes
  {
    hide EntryOk, HeldBytes, MakeRoom, Distinct;
    var rs, rl, s', l' := MakeRoom(s, k), MakeRoom(l, k), Insert(s, k, e), Insert(l, k, e);
    RoomIncluded(s, l, k);
    MakeRoomKeeps(s, k);
    MakeRoomKeeps(l, k);
    InsertKeeps(s, k, e);
    InsertKeeps(l, k, e);
    SubsequenceKeys(rs.order, rl.order);
    assert s'.order[1..] == rs.order && l'.order[1..] == rl.order;
    forall x | x in s'.entries ensures x in l'.entries && s'.entries[x] == l'.entries[x] {
      if x != k { assert x in rs.order; }
    }
    SubsequenceBytes(s'.entries, s'.order, l'.entries, l'.order);
  }

  /** Storing never pushes the cache over its byte bound during the run. */
  predicate WithinBytes(c: Cache, ops: seq<Op>)
    decreases |ops|
  {
    ops == [] ||
    var before, op := Run(c, ops[..|ops| - 1]), ops[|ops| - 1];
    && WithinBytes(c, ops[..|ops| - 1])
    && (op.PutOp? && Storable(op.response) ==>
          Insert(before, op.key, NewEntry(op.response, op.now)).usedBytes <= c.maxBytes)
  }

  lemma {:induction false} PutIncluded(s: Cache, l: Cache, k: Key, response: seq<Byte>, now: int)
    requires Included(s, l)
    requires Storable(response) ==> Insert(l, k, NewEntry(response, now)).usedBytes <= l.maxBytes
    ensures Included(Put(s, k, response, now), Put(l, k, response, now))
  {
    hide EntryOk, HeldBytes, ResponseTtls, NewEntry, Insert, EvictWhileOver;
    if Storable(response) {
      var e := NewEntry(response, now);
      NewEntryOk(response, now);
      InsertIncluded(s, l, k, e);
      EvictWhileOverKeeps(Insert(s, k, e));
      EvictWhileOverKeeps(Insert(l, k, e));
      InsertBounds(s, k, e);
      InsertBounds(l, k, e);
    }
  }

  lemma {:induction false} InsertBounds(c: Cache, k: Key, e: Entry)
    ensures Insert(c, k, e).maxEntries == c.maxEntries && Insert(c, k, e).maxBytes == c.maxBytes
  {
  }

  lemma {:induction false} OrdersIncluded(s: Cache, l: Cache, k: Key)
    requires Included(s, l)
    ensures k in s.entries ==> k in l.entries
    ensures Subsequence(Without(s.order, k), Without(l.order, k))
    ensures Subsequence([k] + Without(s.order, k), [k] + Without(l.order, k))
    ensures k !in s.entries ==> Subsequence(s.order, Without(l.order, k))
    ensures k !in s.entries ==> Subsequence(s.order, [k] + Without(l.order, k))
    ensures |Without(s.order, k)| == if k in s.entries then |s.order| - 1 else |s.order|
    ensures |Without(l.order, k)| == if k in l.entries then |l.order| - 1 else |l.order|
  {
    hide EntryOk, HeldBytes;
    SubsequenceWithout(s.order, l.order, k);
    WithoutKeys(s.order, k);
    WithoutKeys(l.order, k);
    var ws, wl := Without(s.order, k), Without(l.order, k);
    assert ([k] + ws)[1..] == ws && ([k] + wl)[1..] == wl;
    if k !in s.entries { NotInWithout(s.order, k); }
  }

  lemma {:induction false} GetIncluded(s: Cache, l: Cache, k: Key, query: seq<Byte>, now: int)
    requires Included(s, l)
    ensures Included(Get(s, k, query, now).0, Get(l, k, query, now).0)
    ensures Get(s, k, query, now).1.Some? ==> Get(l, k, query, now).1 == Get(s, k, query, now).1
  {
    hide Inv, Reply, Without, Subsequence;
    GetKeeps(s, k, query, now);
    GetKeeps(l, k, query, now);
    OrdersIncluded(s, l, k);
  }

  /** Caches that start empty, or are cleared, are included. */
  lemma {:induction false} EmptyIncluded(n: int, m: int, maxBytes: int, i: nat, j: nat)
    requires 0 < n <= m && maxBytes >= 0
    ensures Included(Empty(n, maxBytes, i), Empty(m, maxBytes, j))
  {
  }

  /** Raising the number of entries never loses a hit. On the same run, with the byte bound not
      reached in the larger cache, the smaller one stays contained in it, and every query the
      smaller one answers the larger one answers with the same octets. */
  lemma {:induction false} LargerKeepsHits(s: Cache, l: Cache, ops: seq<Op>)
    requires Included(s, l) && WithinBytes(l, ops)
    ensures Included(Run(s, ops), Run(l, ops))
    ensures forall i :: 0 <= i < |ops| && Answer(Run(s, ops[..i]), ops[i]).Some? ==>
      Answer(Run(l, ops[..i]), ops[i]) == Answer(Run(s, ops[..i]), ops[i])
    decreases |ops|
  {
    hide Put, Get, EntryOk, HeldBytes, Storable, Insert, NewEntry, Distinct, Subsequence;
    if ops != [] {
      var n := |ops| - 1;
      LargerKeepsHits(s, l, ops[..n]);
      RunKeeps(s, ops[..n]);
      RunKeeps(l, ops[..n]);
      var s', l' := Run(s, ops[..n]), Run(l, ops[..n]);
      StepIncluded(s', l', ops[n]);
      forall i | 0 <= i < |ops| && Answer(Run(s, ops[..i]), ops[i]).Some?
        ensures Answer(Run(l, ops[..i]), ops[i]) == Answer(Run(s, ops[..i]), ops[i])
      {
        if i < n { assert ops[..n][..i] == ops[..i] && ops[..n][i] == ops[i]; }
      }
    }
  }

  lemma {:induction false} StepIncluded(s: Cache, l: Cache, op: Op)
    requires Included(s, l)
    requires op.PutOp? && Storable(op.response) ==>
      Insert(l, op.key, NewEntry(op.response, op.now)).usedBytes <= l.maxBytes
    ensures Included(Apply(s, op), Apply(l, op))
    ensures Answer(s, op).Some? ==> Answer(l, op) == Answer(s, op)
  {
    hide Put, Get, EntryOk, Storable, Insert, NewEntry;
    match op
    case PutOp(k, response, now) => PutIncluded(s, l, k, response, now);
    case GetOp(k, query, now) => GetIncluded(s, l, k, query, now);
    case ClearOp =>
  }

  /** Two caches that start empty, one with room for more entries. */
  lemma {:induction false} MoreRoomKeepsHits(n: int, m: int, maxBytes: int, ops: seq<Op>)
    requires 0 < n <= m && maxBytes >= 0 && WithinBytes(Empty(m, maxBytes, 0), ops)
    ensures var s, l := Empty(n, maxBytes, 0), Empty(m, maxBytes, 0);
      && SubMap(Run(s, ops).entries, Run(l, ops).entries) && Subsequence(Run(s, ops).order, Run(l, ops).order)
      && forall i :: 0 <= i < |ops| && Answer(Run(s, ops[..i]), ops[i]).Some? ==>
           Answer(Run(l, ops[..i]), ops[i]) == Answer(Run(s, ops[..i]), ops[i])
  {
    hide WithinBytes, Run, Answer;
    EmptyIncluded(n, m, maxBytes, 0, 0);
    LargerKeepsHits(Empty(n, maxBytes, 0), Empty(m, maxBytes, 0), ops);
  }
}
