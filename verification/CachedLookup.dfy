/** One lookup through the cache and the next question for the same key, from the first caller to the octets that the
    second one gets. */
module CachedLookup {
  import opened Bytes
  import opened Wrappers
  import opened WireFormat
  import opened ReplyTtl
  import opened ResponseCache
  import opened ReplyWire
  import opened Flights

  /** Caller u asks, is not in the cache, looks up, and stores what it gets at time t. */
  function Lookup(u: Caller, key: Key, query: seq<Byte>, asked: int, reply: seq<Byte>, t: int): seq<Action> {
    [Arrive(u, key, query), TryCache(u, asked), Enter(u), Return(u, Fetched(reply, false)), Check(u), Store(u, t),
     Finish(u)]
  }

  /** The state before a lookup: nobody looks up the key, it is not cached, and u is new. */
  predicate Idle(s: System, u: Caller, key: Key) {
    u !in s.threads && key !in s.flights && key !in s.cache.entries
  }

  /** u owns a new lookup for the key and everything else is as it was. */
  ghost predicate LookingUpAlone(s: System, s': System, u: Caller, key: Key, query: seq<Byte>) {
    && s'.cache == s.cache && s'.origin == s.origin && s'.flights == s.flights[key := |s.table|]
    && s'.table == s.table + [Flight(key, u, s.cache.epoch, None, false)]
    && s'.threads == s.threads[u := Thread(key, query, LookingUp(|s.table|))]
  }

  lemma {:induction false} MissOpens(s: System, u: Caller, key: Key, query: seq<Byte>, asked: int)
    requires Idle(s, u, key)
    ensures var run := [Arrive(u, key, query), TryCache(u, asked), Enter(u)];
      Legal(s, run) && LookingUpAlone(s, After(s, run), u, key, query)
  {
    hide Reply;
    var none: seq<Action> := [];
    var s1 := Step(s, Arrive(u, key, query));
    assert s1.threads[u] == Thread(key, query, Calling);
    var s2 := Step(s1, TryCache(u, asked));
    assert s2.threads == s1.threads[u := Thread(key, query, Entering)] && s2.cache == s1.cache;
    var s3 := Step(s2, Enter(u));
    assert s3.threads == s.threads[u := Thread(key, query, LookingUp(|s.table|))];
    Extend(s, none, Arrive(u, key, query));
    Extend(s, none + [Arrive(u, key, query)], TryCache(u, asked));
    Extend(s, none + [Arrive(u, key, query)] + [TryCache(u, asked)], Enter(u));
    assert none + [Arrive(u, key, query)] + [TryCache(u, asked)] + [Enter(u)]
        == [Arrive(u, key, query), TryCache(u, asked), Enter(u)];
  }

  /** The lookup is over: the reply is in the cache as put leaves it there, and u has it. */
  ghost predicate LookedUp(s: System, s': System, u: Caller, key: Key, query: seq<Byte>, reply: seq<Byte>, t: int) {
    && s'.cache == Put(s.cache, key, reply, t) && s'.flights == s.flights
    && s'.threads == s.threads[u := Thread(key, query, Done(Fetched(Rebind(reply, query), false), Some(|s.table|)))]
  }

  lemma {:induction false} ReturnThenCheck(s: System, s0: System, u: Caller, key: Key, query: seq<Byte>,
                                           reply: seq<Byte>) returns (s2: System)
    requires Idle(s, u, key) && LookingUpAlone(s, s0, u, key, query)
    ensures Enabled(s0, Return(u, Fetched(reply, false)))
    ensures var s1 := Step(s0, Return(u, Fetched(reply, false))); Enabled(s1, Check(u)) && s2 == Step(s1, Check(u))
    ensures ReadyToStore(s, s2, u, key, query, reply)
  {
    hide Put;
    var f := |s.table|;
    var s1 := Step(s0, Return(u, Fetched(reply, false)));
    assert s1.threads[u] == Thread(key, query, Answered(f)) && s1.table[f].result == Some(Fetched(reply, false));
    s2 := Step(s1, Check(u));
    assert s2.threads == s.threads[u := Thread(key, query, Checked(f, true, s.cache.epoch))];
  }

  ghost predicate ReadyToStore(s: System, s2: System, u: Caller, key: Key, query: seq<Byte>, reply: seq<Byte>) {
    var f := |s.table|;
    && s2.cache == s.cache && s2.flights == s.flights[key := f] && |s2.table| == f + 1
    && s2.table[f] == Flight(key, u, s.cache.epoch, Some(Fetched(reply, false)), false)
    && s2.threads == s.threads[u := Thread(key, query, Checked(f, true, s.cache.epoch))]
  }

  lemma {:induction false} StoreThenFinish(s: System, s2: System, u: Caller, key: Key, query: seq<Byte>,
                                           reply: seq<Byte>, t: int) returns (s4: System)
    requires Idle(s, u, key) && ReadyToStore(s, s2, u, key, query, reply)
    ensures Enabled(s2, Store(u, t))
    ensures var s3 := Step(s2, Store(u, t)); Enabled(s3, Finish(u)) && s4 == Step(s3, Finish(u))
    ensures LookedUp(s, s4, u, key, query, reply, t)
  {
    hide Put, Rebind, Storable;
    var s3 := Step(s2, Store(u, t));
    assert s3.threads == s.threads[u := Thread(key, query, Finishing(|s.table|))];
    s4 := Step(s3, Finish(u));
    assert s4.flights == s.flights;
  }

  lemma {:induction false} ReturnStores(s: System, s0: System, u: Caller, key: Key, query: seq<Byte>, reply: seq<Byte>,
                                        t: int)
    requires Idle(s, u, key) && LookingUpAlone(s, s0, u, key, query)
    ensures var run := [Return(u, Fetched(reply, false)), Check(u), Store(u, t), Finish(u)];
      Legal(s0, run) && LookedUp(s, After(s0, run), u, key, query, reply, t)
  {
    hide Put, Rebind, Storable, Step, Enabled, ReadyToStore, LookedUp, LookingUpAlone, Idle;
    var none: seq<Action> := [];
    var a, b, c, d := Return(u, Fetched(reply, false)), Check(u), Store(u, t), Finish(u);
    var s2 := ReturnThenCheck(s, s0, u, key, query, reply);
    var s4 := StoreThenFinish(s, s2, u, key, query, reply, t);
    Extend(s0, none, a);
    Extend(s0, none + [a], b);
    Extend(s0, none + [a] + [b], c);
    Extend(s0, none + [a] + [b] + [c], d);
    assert none + [a] + [b] + [c] + [d] == [a, b, c, d];
  }

  lemma {:induction false} Joined(s: System, x: seq<Action>, y: seq<Action>)
    requires Legal(s, x) && Legal(After(s, x), y)
    ensures Legal(s, x + y) && After(s, x + y) == After(After(s, x), y)
    decreases |y|
  {
    hide Step, Enabled;
    if y == [] {
      assert x + y == x;
    } else {
      var n := |y| - 1;
      PrefixLegal(After(s, x), y, n);
      Joined(s, x, y[..n]);
      assert y == y[..n] + [y[n]] && x + y == x + y[..n] + [y[n]];
      LastEnabled(After(s, x), y);
      Extend(s, x + y[..n], y[n]);
    }
  }

  lemma {:induction false} LastEnabled(s: System, run: seq<Action>)
    requires Legal(s, run) && run != []
    ensures Legal(s, run[..|run| - 1]) && Enabled(After(s, run[..|run| - 1]), run[|run| - 1])
    ensures After(s, run) == Step(After(s, run[..|run| - 1]), run[|run| - 1])
  {
    hide Step, Enabled;
  }

  /** What the first caller gets: the reply under its own ID. */
  lemma {:induction false} RebindIs(m: WireMessage, tail: seq<Byte>, query: seq<Byte>)
    requires MessageFits(m) && |query| >= 2
    ensures MessageFits(m.(id := U16(query, 0)))
    ensures Rebind(EncodeMessage(m) + tail, query) == EncodeMessage(m.(id := U16(query, 0))) + tail
  {
    hide RecordsFit, QuestionsFit, EncodeQuestions, EncodeRecords, EncodeFlags, FlagsFit, Be16;
    var id := U16(query, 0);
    U16Back(query, 0);
    assert query[..2] == query[0..2] == Be16(id);
    assert RecordsOf(m.(id := id)) == RecordsOf(m);
    SameBehind(m, id);
    assert EncodeMessage(m) == Be16(m.id) + EncodeMessage(m)[2..];
  }

  lemma {:induction false} SameBehind(m: WireMessage, id: nat)
    requires MessageFits(m) && id < 65536
    ensures MessageFits(m.(id := id)) && EncodeMessage(m.(id := id)) == Be16(id) + EncodeMessage(m)[2..]
  {
    hide RecordsFit, QuestionsFit, EncodeQuestions, EncodeRecords, EncodeFlags, FlagsFit, Be16;
    var n := m.(id := id);
    assert RecordsOf(n) == RecordsOf(m);
  }

  /** In every state in which nobody looks up the key and it is not cached: a caller that asks and is answered with a
      message that its fields let live n seconds gets it under its own ID; and whoever asks for the key
      next, less than n seconds after it was stored, gets the same message from the cache without a
      lookup, under its own ID and with every time lowered by the whole seconds gone. */
  lemma {:induction false} SecondCaller(s: System, u: Caller, v: Caller, key: Key, first: seq<Byte>, second: seq<Byte>,
                                        m: WireMessage, tail: seq<Byte>, n: nat, asked: int, t: int, now: int)
    requires SystemInv(s) && Idle(s, u, key) && v !in s.threads && u != v
    requires MessageFits(m) && LivesFor(m, n) && |first| >= 2 && |second| >= 2
    requires |EncodeMessage(m) + tail| <= 8192 && |EncodeMessage(m) + tail| + |key| <= s.cache.maxBytes
    requires t - 1_000_000_000 < now < t + n * 1_000_000_000 && n > 0
    ensures MessageFits(m.(id := U16(first, 0)))
    ensures var elapsed := if now < t then 0 else (now - t) / 1_000_000_000;
      var run := Lookup(u, key, first, asked, EncodeMessage(m) + tail, t) + [Arrive(v, key, second), TryCache(v, now)];
      && MessageFits(AgedMessage(m, U16(second, 0), elapsed)) && Legal(s, run)
      && u in After(s, run).threads && v in After(s, run).threads
      && After(s, run).threads[u].pc
         == Done(Fetched(EncodeMessage(m.(id := U16(first, 0))) + tail, false), Some(|s.table|))
      && After(s, run).threads[v].pc
         == AfterHit(EncodeMessage(AgedMessage(m, U16(second, 0), elapsed)) + tail, now)
  {
    hide Put, Get, EncodeMessage, MessageFits, LivesFor, AgedMessage, Rebind, U16, Step, Enabled, Legal, After;
    var b := EncodeMessage(m) + tail;
    var elapsed := if now < t then 0 else (now - t) / 1_000_000_000;
    var x := [Arrive(u, key, first), TryCache(u, asked), Enter(u)];
    var y := [Return(u, Fetched(b, false)), Check(u), Store(u, t), Finish(u)];
    MissOpens(s, u, key, first, asked);
    ReturnStores(s, After(s, x), u, key, first, b, t);
    Joined(s, x, y);
    assert x + y == Lookup(u, key, first, asked, b, t);
    var s1 := After(s, x + y);
    ServedUntil(s.cache, key, m, tail, n, t, second, now);
    RebindIs(m, tail, first);
    Asks(s1, v, key, second, now);
    Joined(s, x + y, [Arrive(v, key, second), TryCache(v, now)]);
  }

  lemma {:induction false} Asks(s: System, v: Caller, key: Key, query: seq<Byte>, now: int)
    requires v !in s.threads && Get(s.cache, key, query, now).1.Some?
    ensures var run := [Arrive(v, key, query), TryCache(v, now)];
      && Legal(s, run)
      && After(s, run).threads
         == s.threads[v := Thread(key, query, AfterHit(Get(s.cache, key, query, now).1.value, now))]
  {
    hide Get;
    var none: seq<Action> := [];
    var s1 := Step(s, Arrive(v, key, query));
    assert s1.threads[v] == Thread(key, query, Calling) && s1.cache == s.cache;
    Extend(s, none, Arrive(v, key, query));
    Extend(s, none + [Arrive(v, key, query)], TryCache(v, now));
    assert none + [Arrive(v, key, query)] + [TryCache(v, now)] == [Arrive(v, key, query), TryCache(v, now)];
    assert Step(s1, TryCache(v, now)).threads
        == s.threads[v := Thread(key, query, AfterHit(Get(s.cache, key, query, now).1.value, now))];
  }
}
