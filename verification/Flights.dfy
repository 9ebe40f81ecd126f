/** Concurrent callers of the response cache: fetch and fetchFresh as a state machine. A step is one
    critical section of the source's mutex, or the return of an upstream lookup; any interleaving
    of the steps of any number of callers is a run. Lookups return whatever they like. */
module Flights {
  import opened Bytes
  import opened Wrappers
  import opened ReplyTtl
  import opened ResponseCache

  type Caller = nat
  type FlightId = nat

  /** What a lookup or a caller gets: the reply octets and whether there was an error. */
  datatype Fetched = Fetched(response: seq<Byte>, failed: bool)

  /** rebindDNSID: the shared reply under the transaction ID of this query. */
  function Rebind(response: seq<Byte>, query: seq<Byte>): seq<Byte> {
    if |response| < 2 || |query| < 2 then response else query[..2] + response[2..]
  }

  /** One upstream lookup. The epoch is the one in which it started. */
  datatype Flight = Flight(key: Key, owner: Caller, epoch: nat, result: Option<Fetched>, closed: bool)

  datatype Pc =
    | Calling                                           // in fetch, before get
    | AfterHit(reply: seq<Byte>, now: int)              // get hit, before the refresh check
    | Entering                                          // in fetchFresh, before its first section
    | Waiting(flight: FlightId)                         // joined a lookup
    | LookingUp(flight: FlightId)                       // owns a lookup that runs
    | Answered(flight: FlightId)                        // it returned, epoch not yet checked
    | Checked(flight: FlightId, valid: bool, at: nat)   // checked in epoch `at`, put not yet called
    | Finishing(flight: FlightId)                       // put done, flight not yet closed
    | Done(answer: Fetched, via: Option<FlightId>)

  datatype Thread = Thread(key: Key, query: seq<Byte>, pc: Pc)

  /** The cache, the running lookups by key, all lookups ever started, the callers, and the epoch in
      which the lookup behind each stored reply started. */
  datatype System = System(cache: Cache, flights: map<Key, FlightId>, table: seq<Flight>,
                           threads: map<Caller, Thread>, origin: map<Key, nat>)

  datatype Action =
    | Arrive(t: Caller, key: Key, query: seq<Byte>)
    | TryCache(t: Caller, now: int)
    | CheckRefresh(t: Caller, spawned: Caller)
    | Enter(t: Caller)
    | Return(t: Caller, result: Fetched)
    | Check(t: Caller)
    | Store(t: Caller, now: int)
    | Finish(t: Caller)
    | Wake(t: Caller)
    | ClearAll

  const THIRTY_SECONDS := 30 * SECOND

  function NeedsRefresh(c: Cache, k: Key, now: int): bool {
    k in c.entries &&
    var e := c.entries[k];
    e.expiresAt - now < (e.expiresAt - e.storedAt) / 5 && e.expiresAt - now < THIRTY_SECONDS
  }

  predicate Enabled(s: System, a: Action) {
    if a.ClearAll? then true
    else if a.Arrive? then a.t !in s.threads
    else
      a.t in s.threads &&
      var pc := s.threads[a.t].pc;
      match a
      case TryCache(_, _) => pc.Calling?
      case CheckRefresh(_, spawned) => pc.AfterHit? && spawned !in s.threads
      case Enter(_) => pc.Entering?
      case Return(_, _) => pc.LookingUp? && pc.flight < |s.table|
      case Check(_) => pc.Answered? && pc.flight < |s.table|
      case Store(_, _) => pc.Checked? && pc.flight < |s.table| && s.table[pc.flight].result.Some?
      case Finish(_) => pc.Finishing? && pc.flight < |s.table| && s.table[pc.flight].result.Some?
      case Wake(_) =>
        pc.Waiting? && pc.flight < |s.table| && s.table[pc.flight].closed && s.table[pc.flight].result.Some?
      case _ => true
  }

  function Moved(s: System, t: Caller, pc: Pc): map<Caller, Thread>
    requires t in s.threads
  {
    s.threads[t := s.threads[t].(pc := pc)]
  }

  function Join(s: System, t: Caller): System
    requires t in s.threads && s.threads[t].key in s.flights
  {
    s.(threads := Moved(s, t, Waiting(s.flights[s.threads[t].key])))
  }

  function Open(s: System, t: Caller): System
    requires t in s.threads
  {
    var key := s.threads[t].key;
    s.(flights := s.flights[key := |s.table|], table := s.table + [Flight(key, t, s.cache.epoch, None, false)],
       threads := Moved(s, t, LookingUp(|s.table|)))
  }

  function Step(s: System, a: Action): System
    requires Enabled(s, a)
  {
    match a
    case Arrive(t, key, query) => s.(threads := s.threads[t := Thread(key, query, Calling)])
    case TryCache(t, now) =>
      var th := s.threads[t];
      var (cache, hit) := Get(s.cache, th.key, th.query, now);
      s.(cache := cache, threads := Moved(s, t, if hit.Some? then AfterHit(hit.value, now) else Entering))
    case CheckRefresh(t, spawned) =>
      var th := s.threads[t];
      var moved := Moved(s, t, Done(Fetched(th.pc.reply, false), None));
      if NeedsRefresh(s.cache, th.key, th.pc.now) && th.key !in s.flights
      then s.(threads := moved[spawned := Thread(th.key, th.query, Entering)])
      else s.(threads := moved)
    case Enter(t) =>
      if s.threads[t].key in s.flights then Join(s, t) else Open(s, t)
    case Return(t, result) =>
      var f := s.threads[t].pc.flight;
      s.(table := s.table[f := s.table[f].(result := Some(result))], threads := Moved(s, t, Answered(f)))
    case Check(t) =>
      var f := s.threads[t].pc.flight;
      s.(threads := Moved(s, t, Checked(f, s.cache.epoch == s.table[f].epoch, s.cache.epoch)))
    case Store(t, now) =>
      var th := s.threads[t];
      var f := th.pc.flight;
      var result := s.table[f].result.value;
      if !result.failed && th.pc.valid then
        s.(cache := Put(s.cache, th.key, result.response, now), threads := Moved(s, t, Finishing(f)),
           origin := if Storable(result.response) then s.origin[th.key := s.table[f].epoch] else s.origin)
      else s.(threads := Moved(s, t, Finishing(f)))
    case Finish(t) =>
      var th := s.threads[t];
      var f := th.pc.flight;
      var result := s.table[f].result.value;
      s.(flights := s.flights - {th.key}, table := s.table[f := s.table[f].(closed := true)],
         threads := Moved(s, t, Done(Fetched(Rebind(result.response, th.query), result.failed), Some(f))))
    case Wake(t) =>
      var th := s.threads[t];
      var f := th.pc.flight;
      var result := s.table[f].result.value;
      s.(threads := Moved(s, t, Done(Fetched(Rebind(result.response, th.query), result.failed), Some(f))))
    case ClearAll => s.(cache := Clear(s.cache))
  }

  // ---------------------------------------------------------------- what every step keeps

  function Owns(pc: Pc): Option<FlightId> {
    match pc
    case LookingUp(f) => Some(f)
    case Answered(f) => Some(f)
    case Checked(f, _, _) => Some(f)
    case Finishing(f) => Some(f)
    case _ => None
  }

  predicate ThreadOk(table: seq<Flight>, epoch: nat, t: Caller, th: Thread) {
    match th.pc
    case Waiting(f) => f < |table| && table[f].key == th.key
    case Done(answer, Some(f)) =>
      && f < |table| && table[f].key == th.key && table[f].closed && table[f].result.Some?
      && answer == Fetched(Rebind(table[f].result.value.response, th.query), table[f].result.value.failed)
    case pc =>
      Owns(pc).Some? ==>
        var f := Owns(pc).value;
        && f < |table| && table[f].key == th.key && table[f].owner == t && !table[f].closed
        && (table[f].result.Some? <==> !pc.LookingUp?)
        && (pc.Checked? ==> (pc.valid <==> pc.at == table[f].epoch) && pc.at <= epoch)
  }

  predicate FlightOk(s: System, f: FlightId, flight: Flight) {
    && flight.epoch <= s.cache.epoch
    && flight.owner in s.threads && s.threads[flight.owner].key == flight.key
    && (flight.closed ==> flight.result.Some?)
    && (!flight.closed ==>
          && Owns(s.threads[flight.owner].pc) == Some(f)
          && flight.key in s.flights && s.flights[flight.key] == f)
  }

  ghost predicate SystemInv(s: System) {
    && Valid(s.cache)
    && (forall t :: t in s.threads ==> ThreadOk(s.table, s.cache.epoch, t, s.threads[t]))
    && (forall f :: 0 <= f < |s.table| ==> FlightOk(s, f, s.table[f]))
    && (forall k :: k in s.flights ==>
          s.flights[k] < |s.table| && !s.table[s.flights[k]].closed && s.table[s.flights[k]].key == k)
  }

  lemma {:induction false} ArriveKeeps(s: System, a: Action)
    requires SystemInv(s) && a.Arrive? && Enabled(s, a)
    ensures SystemInv(Step(s, a))
  {
    hide Valid, Put, Get, Rebind, NeedsRefresh, Storable;
  }

  lemma {:induction false} TryCacheKeeps(s: System, a: Action)
    requires SystemInv(s) && a.TryCache? && Enabled(s, a)
    ensures SystemInv(Step(s, a))
  {
    hide Valid, Put, Get, Rebind, NeedsRefresh, Storable;
    GetValid(s.cache, s.threads[a.t].key, s.threads[a.t].query, a.now);
  }

  lemma {:induction false} CheckRefreshKeeps(s: System, a: Action)
    requires SystemInv(s) && a.CheckRefresh? && Enabled(s, a)
    ensures SystemInv(Step(s, a))
  {
    hide Valid, Put, Get, Rebind, NeedsRefresh, Storable;
  }

  lemma {:induction false} JoinKeeps(s: System, t: Caller)
    requires SystemInv(s) && t in s.threads && s.threads[t].pc.Entering? && s.threads[t].key in s.flights
    ensures SystemInv(Join(s, t))
  {
    hide Valid, Rebind;
  }

  lemma {:induction false} OpenThread(table: seq<Flight>, more: Flight, epoch: nat, t: Caller, th: Thread)
    requires ThreadOk(table, epoch, t, th)
    ensures ThreadOk(table + [more], epoch, t, th)
  {
    hide Rebind;
  }

  lemma {:induction false} OpenFlight(s: System, t: Caller, f: FlightId)
    requires t in s.threads && s.threads[t].pc.Entering? && s.threads[t].key !in s.flights
    requires f < |s.table| && FlightOk(s, f, s.table[f])
    ensures FlightOk(Open(s, t), f, Open(s, t).table[f])
  {
  }

  lemma {:induction false} OpenKeeps(s: System, t: Caller)
    requires SystemInv(s) && t in s.threads && s.threads[t].pc.Entering? && s.threads[t].key !in s.flights
    ensures SystemInv(Open(s, t))
  {
    hide Valid, Rebind, ThreadOk, FlightOk;
    var s', n := Open(s, t), |s.table|;
    forall u | u in s.threads ensures ThreadOk(s'.table, s.cache.epoch, u, s'.threads[u]) {
      if u == t { OpenedByOwner(s, t); } else { OpenThread(s.table, s'.table[n], s.cache.epoch, u, s.threads[u]); }
    }
    forall f | 0 <= f < |s'.table| ensures FlightOk(s', f, s'.table[f]) {
      if f < n { OpenFlight(s, t, f); } else { OpenedByOwner(s, t); }
    }
  }

  lemma {:induction false} OpenedByOwner(s: System, t: Caller)
    requires t in s.threads
    ensures var s', n := Open(s, t), |s.table|;
      ThreadOk(s'.table, s.cache.epoch, t, s'.threads[t]) && FlightOk(s', n, s'.table[n])
  {
  }

  lemma {:induction false} EnterKeeps(s: System, a: Action)
    requires SystemInv(s) && a.Enter? && Enabled(s, a)
    ensures SystemInv(Step(s, a))
  {
    hide SystemInv;
    if s.threads[a.t].key in s.flights { JoinKeeps(s, a.t); } else { OpenKeeps(s, a.t); }
  }

  lemma {:induction false} ReturnKeeps(s: System, a: Action)
    requires SystemInv(s) && a.Return? && Enabled(s, a)
    ensures SystemInv(Step(s, a))
  {
    hide Valid, Put, Get, Rebind, NeedsRefresh, Storable;
  }

  lemma {:induction false} CheckKeeps(s: System, a: Action)
    requires SystemInv(s) && a.Check? && Enabled(s, a)
    ensures SystemInv(Step(s, a))
  {
    hide Valid, Put, Get, Rebind, NeedsRefresh, Storable;
  }

  lemma {:induction false} StoreKeeps(s: System, a: Action)
    requires SystemInv(s) && a.Store? && Enabled(s, a)
    ensures SystemInv(Step(s, a))
  {
    hide Valid, Put, Get, Rebind, NeedsRefresh, Storable;
    var result := s.table[s.threads[a.t].pc.flight].result.value;
    PutKeeps(s.cache, s.threads[a.t].key, result.response, a.now);
    PutBounds(s.cache, s.threads[a.t].key, result.response, a.now);
  }

  lemma {:induction false} OwnerFacts(s: System, t: Caller)
    requires SystemInv(s) && t in s.threads && Owns(s.threads[t].pc).Some?
    ensures var f, key := Owns(s.threads[t].pc).value, s.threads[t].key;
      && f < |s.table| && s.table[f].owner == t && s.table[f].key == key && !s.table[f].closed
      && key in s.flights && s.flights[key] == f
  {
    assert ThreadOk(s.table, s.cache.epoch, t, s.threads[t]);
    var f := Owns(s.threads[t].pc).value;
    assert FlightOk(s, f, s.table[f]);
  }

  lemma {:induction false} FinishThread(s: System, a: Action, t: Caller)
    requires SystemInv(s) && a.Finish? && Enabled(s, a) && t in s.threads
    ensures ThreadOk(Step(s, a).table, s.cache.epoch, t, Step(s, a).threads[t])
  {
    OwnerFacts(s, a.t);
    assert ThreadOk(s.table, s.cache.epoch, t, s.threads[t]);
    hide SystemInv, Rebind;
  }

  lemma {:induction false} FinishFlight(s: System, a: Action, f: FlightId)
    requires SystemInv(s) && a.Finish? && Enabled(s, a) && f < |s.table|
    ensures FlightOk(Step(s, a), f, Step(s, a).table[f])
  {
    OwnerFacts(s, a.t);
    assert FlightOk(s, f, s.table[f]);
    hide SystemInv, Rebind;
  }

  lemma {:induction false} FinishKeeps(s: System, a: Action)
    requires SystemInv(s) && a.Finish? && Enabled(s, a)
    ensures SystemInv(Step(s, a))
  {
    hide Valid, ThreadOk, FlightOk, Rebind;
    forall t | t in s.threads ensures ThreadOk(Step(s, a).table, s.cache.epoch, t, Step(s, a).threads[t]) {
      FinishThread(s, a, t);
    }
    forall f | 0 <= f < |s.table| ensures FlightOk(Step(s, a), f, Step(s, a).table[f]) {
      FinishFlight(s, a, f);
    }
    OwnerFacts(s, a.t);
  }

  lemma {:induction false} WakeKeeps(s: System, a: Action)
    requires SystemInv(s) && a.Wake? && Enabled(s, a)
    ensures SystemInv(Step(s, a))
  {
    hide Valid, Put, Get, Rebind, NeedsRefresh, Storable;
  }

  lemma {:induction false} ClearAllKeeps(s: System, a: Action)
    requires SystemInv(s) && a.ClearAll? && Enabled(s, a)
    ensures SystemInv(Step(s, a))
  {
    hide Valid, Put, Get, Rebind, NeedsRefresh, Storable;
    ClearValid(s.cache);
  }

  lemma {:induction false} GetValid(c: Cache, k: Key, query: seq<Byte>, now: int)
    requires Valid(c)
    ensures Valid(Get(c, k, query, now).0) && Get(c, k, query, now).0.epoch == c.epoch
  {
    GetKeeps(c, k, query, now);
    GetBounds(c, k, query, now);
  }

  lemma {:induction false} ClearValid(c: Cache)
    requires Valid(c)
    ensures Valid(Clear(c))
  {
  }

  lemma {:induction false} StepKeeps(s: System, a: Action)
    requires SystemInv(s) && Enabled(s, a)
    ensures SystemInv(Step(s, a))
  {
    hide SystemInv, Step, Enabled;
    match a
    case Arrive(_, _, _) => ArriveKeeps(s, a);
    case TryCache(_, _) => TryCacheKeeps(s, a);
    case CheckRefresh(_, _) => CheckRefreshKeeps(s, a);
    case Enter(_) => EnterKeeps(s, a);
    case Return(_, _) => ReturnKeeps(s, a);
    case Check(_) => CheckKeeps(s, a);
    case Store(_, _) => StoreKeeps(s, a);
    case Finish(_) => FinishKeeps(s, a);
    case Wake(_) => WakeKeeps(s, a);
    case ClearAll => ClearAllKeeps(s, a);
  }

  // ---------------------------------------------------------------- runs

  function Init(maxEntries: int, maxBytes: int): System {
    System(Empty(maxEntries, maxBytes, 0), map[], [], map[], map[])
  }

  /** Every step of the run is enabled where it is taken. */
  predicate Legal(s: System, run: seq<Action>)
    decreases |run|, 0
  {
    run == [] || (Legal(s, run[..|run| - 1]) && Enabled(After(s, run[..|run| - 1]), run[|run| - 1]))
  }

  function After(s: System, run: seq<Action>): System
    requires Legal(s, run)
    decreases |run|, 1
  {
    if run == [] then s else Step(After(s, run[..|run| - 1]), run[|run| - 1])
  }

  lemma {:induction false} Extend(s: System, run: seq<Action>, a: Action)
    requires Legal(s, run) && Enabled(After(s, run), a)
    ensures Legal(s, run + [a]) && After(s, run + [a]) == Step(After(s, run), a)
  {
    assert (run + [a])[..|run + [a]| - 1] == run;
  }

  lemma {:induction false} PrefixLegal(s: System, run: seq<Action>, i: nat)
    requires Legal(s, run) && i <= |run|
    ensures Legal(s, run[..i])
    decreases |run|
  {
    if i < |run| {
      PrefixLegal(s, run[..|run| - 1], i);
      assert run[..|run| - 1][..i] == run[..i];
    } else {
      assert run[..i] == run;
    }
  }

  lemma {:induction false} RunKeepsInv(maxEntries: int, maxBytes: int, run: seq<Action>)
    requires maxEntries > 0 && maxBytes >= 0 && Legal(Init(maxEntries, maxBytes), run)
    ensures SystemInv(After(Init(maxEntries, maxBytes), run))
    ensures After(Init(maxEntries, maxBytes), run).cache.maxBytes == maxBytes
    decreases |run|
  {
    hide Step, Enabled;
    if run != [] {
      var before := After(Init(maxEntries, maxBytes), run[..|run| - 1]);
      RunKeepsInv(maxEntries, maxBytes, run[..|run| - 1]);
      StepKeeps(before, run[|run| - 1]);
      StepBounds(before, run[|run| - 1]);
    }
  }

  lemma {:induction false} StepBounds(s: System, a: Action)
    requires Enabled(s, a)
    ensures Step(s, a).cache.maxBytes == s.cache.maxBytes
    ensures Step(s, a).cache.epoch == s.cache.epoch + (if a.ClearAll? then 1 else 0)
  {
    hide Put, Get;
    match a
    case TryCache(t, now) => GetBounds(s.cache, s.threads[t].key, s.threads[t].query, now);
    case Store(t, now) =>
      PutBounds(s.cache, s.threads[t].key, s.table[s.threads[t].pc.flight].result.value.response, now);
    case _ =>
  }

  // ---------------------------------------------------------------- lookups are shared

  /** In every interleaving, the cache's flights are exactly the keys with a caller that has started
      a lookup and not yet finished, and no key has two such callers. */
  lemma {:induction false} OneLookupPerKey(maxEntries: int, maxBytes: int, run: seq<Action>)
    requires maxEntries > 0 && maxBytes >= 0 && Legal(Init(maxEntries, maxBytes), run)
    ensures var s := After(Init(maxEntries, maxBytes), run);
      && (forall k :: k in s.flights <==>
            exists t :: t in s.threads && s.threads[t].key == k && Owns(s.threads[t].pc).Some?)
      && (forall t, u | t in s.threads && u in s.threads && s.threads[t].key == s.threads[u].key
            :: Owns(s.threads[t].pc).Some? && Owns(s.threads[u].pc).Some? ==> t == u)
  {
    hide After, Legal, Valid;
    RunKeepsInv(maxEntries, maxBytes, run);
    var s := After(Init(maxEntries, maxBytes), run);
    forall k | k in s.flights
      ensures exists t :: t in s.threads && s.threads[t].key == k && Owns(s.threads[t].pc).Some?
    {
      var t := s.table[s.flights[k]].owner;
      assert t in s.threads && s.threads[t].key == k;
    }
  }

  lemma {:induction false} ResultFixed(s: System, a: Action, f: FlightId)
    requires SystemInv(s) && Enabled(s, a) && f < |s.table|
    ensures var s' := Step(s, a);
      && f < |s'.table| && s'.table[f].key == s.table[f].key && s'.table[f].owner == s.table[f].owner
      && s'.table[f].epoch == s.table[f].epoch
      && (s.table[f].result.Some? ==> s'.table[f].result == s.table[f].result)
      && (s'.table[f].result.Some? && s.table[f].result.None? ==>
            a.Return? && a.t == s.table[f].owner && s'.table[f].result == Some(a.result))
  {
    hide Put, Get, Valid, NeedsRefresh;
  }

  /** A recorded result is what the owner's lookup returned. */
  lemma {:induction false} ResultOfOwner(maxEntries: int, maxBytes: int, run: seq<Action>, f: FlightId)
    requires maxEntries > 0 && maxBytes >= 0 && Legal(Init(maxEntries, maxBytes), run)
    requires f < |After(Init(maxEntries, maxBytes), run).table|
    requires After(Init(maxEntries, maxBytes), run).table[f].result.Some?
    ensures var flight := After(Init(maxEntries, maxBytes), run).table[f];
      exists i :: 0 <= i < |run| && run[i] == Return(flight.owner, flight.result.value)
    decreases |run|
  {
    hide Step, Enabled;
    if run != [] {
      var front := run[..|run| - 1];
      var before := After(Init(maxEntries, maxBytes), front);
      RunKeepsInv(maxEntries, maxBytes, front);
      if f < |before.table| {
        ResultFixed(before, run[|run| - 1], f);
        if before.table[f].result.Some? {
          ResultOfOwner(maxEntries, maxBytes, front, f);
          var i :| 0 <= i < |front| && front[i] == Return(before.table[f].owner, before.table[f].result.value);
          assert run[i] == front[i];
        }
      } else {
        NewFlightHasNoResult(before, run[|run| - 1], f);
      }
    }
  }

  lemma {:induction false} NewFlightHasNoResult(s: System, a: Action, f: FlightId)
    requires SystemInv(s) && Enabled(s, a) && |s.table| <= f < |Step(s, a).table|
    ensures Step(s, a).table[f].result.None?
  {
    hide Put, Get, Valid, NeedsRefresh;
  }

  /** The lookup a caller takes part in or got its answer from. */
  function FlightOf(pc: Pc): Option<FlightId> {
    match pc
    case Waiting(f) => Some(f)
    case Done(_, via) => via
    case _ => Owns(pc)
  }

  /** At step j of the run caller t entered fetchFresh and took part in flight f: the one that stood
      there for its key, still open, or a new one of its own. */
  ghost predicate EnteredAt(s: System, run: seq<Action>, j: int, t: Caller, f: FlightId) {
    && 0 <= j < |run| && run[j] == Enter(t) && Legal(s, run[..j]) && t in After(s, run[..j]).threads
    && var before := After(s, run[..j]);
      var key := before.threads[t].key;
      if key in before.flights
      then f < |before.table| && before.flights[key] == f && before.table[f].key == key && !before.table[f].closed
      else f == |before.table|
  }

  lemma {:induction false} FlightKept(s: System, a: Action, t: Caller)
    requires Enabled(s, a) && a != Enter(t)
    requires t in Step(s, a).threads && FlightOf(Step(s, a).threads[t].pc).Some?
    ensures t in s.threads && s.threads[t].key == Step(s, a).threads[t].key
    ensures FlightOf(s.threads[t].pc) == FlightOf(Step(s, a).threads[t].pc)
  {
    hide Put, Get, NeedsRefresh, Storable, Rebind;
  }

  lemma {:induction false} FlightEntered(s: System, t: Caller)
    requires SystemInv(s) && Enabled(s, Enter(t))
    ensures var f, key := FlightOf(Step(s, Enter(t)).threads[t].pc), s.threads[t].key;
      f.Some? &&
      if key in s.flights
      then f.value < |s.table| && s.flights[key] == f.value && s.table[f.value].key == key && !s.table[f.value].closed
      else f.value == |s.table|
  {
  }

  lemma {:induction false} EnteredLater(s: System, front: seq<Action>, a: Action, j: int, t: Caller, f: FlightId)
    requires EnteredAt(s, front, j, t, f)
    ensures EnteredAt(s, front + [a], j, t, f)
  {
    assert (front + [a])[j] == front[j] && (front + [a])[..j] == front[..j];
  }

  lemma {:induction false} EnteredItsFlight(maxEntries: int, maxBytes: int, run: seq<Action>, t: Caller)
    requires maxEntries > 0 && maxBytes >= 0 && Legal(Init(maxEntries, maxBytes), run)
    requires var s := After(Init(maxEntries, maxBytes), run); t in s.threads && FlightOf(s.threads[t].pc).Some?
    ensures var f := FlightOf(After(Init(maxEntries, maxBytes), run).threads[t].pc).value;
      exists j :: EnteredAt(Init(maxEntries, maxBytes), run, j, t, f)
    decreases |run|
  {
    hide Step, Enabled, SystemInv, FlightOf, EnteredAt;
    if run == [] {
      assert false;
    } else {
      var s0, n := Init(maxEntries, maxBytes), |run| - 1;
      var front, a := run[..n], run[n];
      var before := After(s0, front);
      var f := FlightOf(After(s0, run).threads[t].pc).value;
      assert run == front + [a];
      RunKeepsInv(maxEntries, maxBytes, front);
      if a == Enter(t) {
        NewlyEntered(s0, run, n, t, f);
      } else {
        FlightKept(before, a, t);
        EnteredItsFlight(maxEntries, maxBytes, front, t);
        var j :| EnteredAt(s0, front, j, t, f);
        EnteredLater(s0, front, a, j, t, f);
      }
    }
  }

  lemma {:induction false} NewlyEntered(s: System, run: seq<Action>, n: nat, t: Caller, f: FlightId)
    requires |run| == n + 1 && run[n] == Enter(t) && Legal(s, run) && SystemInv(After(s, run[..n]))
    requires t in After(s, run).threads && FlightOf(After(s, run).threads[t].pc) == Some(f)
    ensures EnteredAt(s, run, n, t, f)
  {
    hide Step, SystemInv, FlightOf;
    FlightEntered(After(s, run[..n]), t);
  }

  /** A caller that shared a lookup, as its owner or by joining it, gets the reply of the very flight it
      entered: what the owner of that flight was returned, changed only in the first two octets,
      which are those of the caller's own query. */
  lemma {:induction false} SharedAnswer(maxEntries: int, maxBytes: int, run: seq<Action>, t: Caller)
    requires maxEntries > 0 && maxBytes >= 0 && Legal(Init(maxEntries, maxBytes), run)
    requires var s := After(Init(maxEntries, maxBytes), run);
      t in s.threads && s.threads[t].pc.Done? && s.threads[t].pc.via.Some?
    ensures var s := After(Init(maxEntries, maxBytes), run);
      var th, f := s.threads[t], s.threads[t].pc.via.value;
      && f < |s.table| && s.table[f].key == th.key && s.table[f].result.Some?
      && (exists j :: EnteredAt(Init(maxEntries, maxBytes), run, j, t, f))
      && (exists i :: 0 <= i < |run| && run[i] == Return(s.table[f].owner, s.table[f].result.value))
      && var result := s.table[f].result.value;
        && th.pc.answer.failed == result.failed && |th.pc.answer.response| == |result.response|
        && (|result.response| < 2 || |th.query| < 2 ==> th.pc.answer.response == result.response)
        && (|result.response| >= 2 && |th.query| >= 2 ==>
              && th.pc.answer.response[..2] == th.query[..2]
              && th.pc.answer.response[2..] == result.response[2..])
  {
    hide After, Legal, EnteredAt;
    var s := After(Init(maxEntries, maxBytes), run);
    RunKeepsInv(maxEntries, maxBytes, run);
    assert ThreadOk(s.table, s.cache.epoch, t, s.threads[t]);
    hide SystemInv;
    ResultOfOwner(maxEntries, maxBytes, run, s.threads[t].pc.via.value);
    EnteredItsFlight(maxEntries, maxBytes, run, t);
  }

  /** A caller that was answered from the cache starts a refresh, for its own question, exactly when the entry is still
      there, less than a fifth of its lifetime and less than 30 seconds of it are left, and no lookup runs. */
  lemma {:induction false} RefreshIff(s: System, a: Action)
    requires SystemInv(s) && a.CheckRefresh? && Enabled(s, a)
    ensures var th := s.threads[a.t];
      && (a.spawned in Step(s, a).threads <==>
            && th.key in s.cache.entries && th.key !in s.flights
            && var e := s.cache.entries[th.key];
               var left := e.expiresAt - th.pc.now;
               5 * left < e.expiresAt - e.storedAt && left < 30_000_000_000)
      && (a.spawned in Step(s, a).threads ==> Step(s, a).threads[a.spawned] == Thread(th.key, th.query, Entering))
  {
    hide ThreadOk, FlightOk, Storable, HeldBytes, Distinct;
    var th := s.threads[a.t];
    if th.key in s.cache.entries {
      var e := s.cache.entries[th.key];
      assert EntryOk(e);
      Fifth(e, th.pc.now);
    }
  }

  lemma {:induction false} Fifth(e: Entry, now: int)
    requires EntryOk(e)
    ensures e.expiresAt - now < (e.expiresAt - e.storedAt) / 5 <==> 5 * (e.expiresAt - now) < e.expiresAt - e.storedAt
  {
    hide ResponseTtls;
    assert e.expiresAt - e.storedAt == 5 * (ResponseTtls(e.response).value.min * 200_000_000);
  }

  // ---------------------------------------------------------------- nobody waits in vain

  /** How many of its own steps an owner still has to take. */
  function Left(pc: Pc): nat {
    match pc
    case LookingUp(_) => 4
    case Answered(_) => 3
    case Checked(_, _, _) => 2
    case Finishing(_) => 1
    case _ => 0
  }

  /** The owner's next step, if its lookup returns `result` and a put falls at `now`. */
  function NextOf(pc: Pc, owner: Caller, result: Fetched, now: int): Action
    requires Owns(pc).Some?
  {
    match pc
    case LookingUp(_) => Return(owner, result)
    case Answered(_) => Check(owner)
    case Checked(_, _, _) => Store(owner, now)
    case Finishing(_) => Finish(owner)
  }

  /** o owns flight f, and t waits. */
  predicate Owning(s: System, o: Caller, f: FlightId, t: Caller) {
    && t in s.threads && o in s.threads && o != t && s.threads[t].pc.Waiting?
    && Owns(s.threads[o].pc) == Some(f) && f < |s.table| && s.table[f].owner == o
    && (s.table[f].result.Some? <==> !s.threads[o].pc.LookingUp?)
  }

  lemma {:induction false} OwnerOf(s: System, t: Caller)
    requires SystemInv(s) && t in s.threads && s.threads[t].pc.Waiting?
    requires var f := s.threads[t].pc.flight; f < |s.table| && !s.table[f].closed
    ensures var f := s.threads[t].pc.flight; Owning(s, s.table[f].owner, f, t)
  {
    var f := s.threads[t].pc.flight;
    assert FlightOk(s, f, s.table[f]);
    assert ThreadOk(s.table, s.cache.epoch, s.table[f].owner, s.threads[s.table[f].owner]);
  }

  lemma {:induction false} OwnerMoves(s: System, t: Caller, o: Caller, f: FlightId, result: Fetched, now: int)
    requires Owning(s, o, f, t)
    ensures var a := NextOf(s.threads[o].pc, o, result, now);
      && Enabled(s, a) && StepOf(a, o)
      && var s' := Step(s, a);
        && t in s'.threads && s'.threads[t] == s.threads[t] && f < |s'.table| && s'.table[f].owner == o
        && o in s'.threads && Left(s'.threads[o].pc) < Left(s.threads[o].pc)
  {
    hide Put, Get, Rebind, Storable, NeedsRefresh;
  }

  predicate StepOf(a: Action, t: Caller) { !a.ClearAll? && a.t == t }

  /** The run `more` takes at most k steps, all of o, and then t wakes with the reply of flight f. */
  ghost predicate Answers(s: System, more: seq<Action>, t: Caller, o: Caller, f: FlightId, k: nat) {
    && 0 < |more| <= k + 1 && Legal(s, more)
    && (forall i :: 0 <= i < |more| - 1 ==> StepOf(more[i], o)) && more[|more| - 1] == Wake(t)
    && t in After(s, more).threads && After(s, more).threads[t].pc.Done?
    && After(s, more).threads[t].pc.via == Some(f)
  }

  lemma {:induction false} RunFrom(s: System, a: Action, more: seq<Action>)
    requires Enabled(s, a) && Legal(Step(s, a), more)
    ensures Legal(s, [a] + more) && After(s, [a] + more) == After(Step(s, a), more)
    decreases |more|
  {
    hide Step, Enabled;
    var all := [a] + more;
    if more == [] {
      assert all[..0] == [] && Legal(s, all[..0]);
    } else {
      RunFrom(s, a, more[..|more| - 1]);
      assert all[..|all| - 1] == [a] + more[..|more| - 1] && all[|all| - 1] == more[|more| - 1];
    }
  }

  lemma {:induction false} WakesAtOnce(s: System, t: Caller, o: Caller, k: nat)
    requires SystemInv(s) && t in s.threads && s.threads[t].pc.Waiting?
    requires var f := s.threads[t].pc.flight; f < |s.table| && s.table[f].closed
    ensures Answers(s, [Wake(t)], t, o, s.threads[t].pc.flight, k)
  {
    assert FlightOk(s, s.threads[t].pc.flight, s.table[s.threads[t].pc.flight]);
    hide SystemInv, Rebind;
    var none: seq<Action> := [];
    RunFrom(s, Wake(t), none);
    assert [Wake(t)] + none == [Wake(t)];
  }

  lemma {:induction false} AnswersAfter(s: System, a: Action, more: seq<Action>, t: Caller, o: Caller, f: FlightId,
                                        k: nat)
    requires Enabled(s, a) && StepOf(a, o) && Answers(Step(s, a), more, t, o, f, k)
    ensures Answers(s, [a] + more, t, o, f, k + 1)
  {
    hide Step, Enabled;
    RunFrom(s, a, more);
  }

  lemma {:induction false} WaiterCanFinish(s: System, t: Caller, result: Fetched, now: int, k: nat)
    requires SystemInv(s) && t in s.threads && s.threads[t].pc.Waiting?
    requires var f := s.threads[t].pc.flight;
      && f < |s.table|
      && (s.table[f].closed || (s.table[f].owner in s.threads && Left(s.threads[s.table[f].owner].pc) <= k))
    ensures var f := s.threads[t].pc.flight; exists more :: Answers(s, more, t, s.table[f].owner, f, k)
    decreases k
  {
    hide Step, Enabled, SystemInv, Answers;
    var f := s.threads[t].pc.flight;
    var o := s.table[f].owner;
    if s.table[f].closed {
      WakesAtOnce(s, t, o, k);
    } else {
      OwnerOf(s, t);
      OwnerMoves(s, t, o, f, result, now);
      var a := NextOf(s.threads[o].pc, o, result, now);
      StepKeeps(s, a);
      WaiterCanFinish(Step(s, a), t, result, now, k - 1);
      var more :| Answers(Step(s, a), more, t, o, f, k - 1);
      AnswersAfter(s, a, more, t, o, f, k - 1);
    }
  }

  /** In every reachable state a caller that waits can still be answered: whatever the lookup of its flight
      returns, at most four steps of the flight's owner and the caller's own wake-up are enough. */
  lemma {:induction false} NobodyWaitsInVain(maxEntries: int, maxBytes: int, run: seq<Action>, t: Caller,
                                             result: Fetched, now: int)
    requires maxEntries > 0 && maxBytes >= 0 && Legal(Init(maxEntries, maxBytes), run)
    requires var s := After(Init(maxEntries, maxBytes), run); t in s.threads && s.threads[t].pc.Waiting?
    ensures var s := After(Init(maxEntries, maxBytes), run);
      var f := s.threads[t].pc.flight;
      f < |s.table| && exists more :: Answers(s, more, t, s.table[f].owner, f, 4)
  {
    hide After, Legal, Answers, SystemInv;
    var s := After(Init(maxEntries, maxBytes), run);
    RunKeepsInv(maxEntries, maxBytes, run);
    WaitsOnAFlight(s, t);
    WaiterCanFinish(s, t, result, now, 4);
  }

  lemma {:induction false} WaitsOnAFlight(s: System, t: Caller)
    requires SystemInv(s) && t in s.threads && s.threads[t].pc.Waiting?
    ensures var f := s.threads[t].pc.flight;
      f < |s.table| && s.table[f].owner in s.threads && Left(s.threads[s.table[f].owner].pc) <= 4
  {
    assert ThreadOk(s.table, s.cache.epoch, t, s.threads[t]);
    assert FlightOk(s, s.threads[t].pc.flight, s.table[s.threads[t].pc.flight]);
  }

  // ---------------------------------------------------------------- policy changes

  /** Every stored reply was looked up in the current epoch. */
  ghost predicate Fresh(s: System) {
    forall k :: k in s.cache.entries ==> k in s.origin && s.origin[k] == s.cache.epoch
  }

  /** The step stores a reply whose epoch check a clear has overtaken. */
  predicate Overtaken(s: System, a: Action)
    requires Enabled(s, a)
  {
    a.Store? &&
    var th := s.threads[a.t];
    var result := s.table[th.pc.flight].result.value;
    && th.pc.valid && th.pc.at != s.cache.epoch
    && !result.failed && Storable(result.response) && |result.response| + |th.key| <= s.cache.maxBytes
  }

  lemma {:induction false} PutEntries(c: Cache, k: Key, response: seq<Byte>, now: int)
    ensures forall x :: x in Put(c, k, response, now).entries ==> x in c.entries || (x == k && Storable(response))
  {
    hide NewEntry, ResponseTtls, Without;
    if Storable(response) { EvictShrinks(Insert(c, k, NewEntry(response, now))); }
  }

  lemma {:induction false} GetEntries(c: Cache, k: Key, query: seq<Byte>, now: int)
    ensures forall x :: x in Get(c, k, query, now).0.entries ==> x in c.entries
  {
  }

  lemma {:induction false} StepFresh(s: System, a: Action)
    requires SystemInv(s) && Enabled(s, a) && Fresh(s)
    ensures Fresh(Step(s, a)) <==> !Overtaken(s, a)
  {
    hide Put, Get, Valid, NeedsRefresh, Storable, Rebind;
    match a
    case TryCache(t, now) =>
      GetEntries(s.cache, s.threads[t].key, s.threads[t].query, now);
      GetBounds(s.cache, s.threads[t].key, s.threads[t].query, now);
    case Store(t, now) =>
      var th := s.threads[t];
      var result := s.table[th.pc.flight].result.value;
      PutEntries(s.cache, th.key, result.response, now);
      PutBounds(s.cache, th.key, result.response, now);
      if Storable(result.response) { PutStores(s.cache, th.key, result.response, now); }
      else { PutNothing(s.cache, th.key, result.response, now); }
    case _ =>
  }

  ghost predicate FreshThroughout(s: System, run: seq<Action>)
    requires Legal(s, run)
    decreases |run|
  {
    Fresh(After(s, run)) && (run != [] ==> FreshThroughout(s, run[..|run| - 1]))
  }

  predicate NeverOvertaken(s: System, run: seq<Action>)
    requires Legal(s, run)
    decreases |run|
  {
    run == [] ||
    (NeverOvertaken(s, run[..|run| - 1]) && !Overtaken(After(s, run[..|run| - 1]), run[|run| - 1]))
  }

  /** All stored replies belong to the current epoch at every point of a run if and only if no
      clear falls between the epoch check of a lookup and the put of its storable reply. */
  lemma {:induction false} FreshIff(maxEntries: int, maxBytes: int, run: seq<Action>)
    requires maxEntries > 0 && maxBytes >= 0 && Legal(Init(maxEntries, maxBytes), run)
    ensures FreshThroughout(Init(maxEntries, maxBytes), run) <==> NeverOvertaken(Init(maxEntries, maxBytes), run)
    decreases |run|
  {
    hide Step, Enabled, SystemInv, Fresh, Overtaken;
    if run == [] {
      StartFresh(maxEntries, maxBytes);
    } else {
      var front := run[..|run| - 1];
      var before := After(Init(maxEntries, maxBytes), front);
      FreshIff(maxEntries, maxBytes, front);
      RunKeepsInv(maxEntries, maxBytes, front);
      if Fresh(before) { StepFresh(before, run[|run| - 1]); }
      assert FreshThroughout(Init(maxEntries, maxBytes), front) ==> Fresh(before);
    }
  }

  lemma {:induction false} StartFresh(maxEntries: int, maxBytes: int)
    ensures Fresh(Init(maxEntries, maxBytes))
  {
  }

  function Clears(run: seq<Action>): nat {
    if run == [] then 0 else Clears(run[..|run| - 1]) + if run[|run| - 1].ClearAll? then 1 else 0
  }

  /** The epoch counts the clears of the run; a pending put remembers how many there were at its
      check. So `at` differs from the epoch exactly when a clear fell in between. */
  lemma {:induction false} EpochCountsClears(maxEntries: int, maxBytes: int, run: seq<Action>, t: Caller)
    requires maxEntries > 0 && maxBytes >= 0 && Legal(Init(maxEntries, maxBytes), run)
    ensures After(Init(maxEntries, maxBytes), run).cache.epoch == Clears(run)
    ensures var s := After(Init(maxEntries, maxBytes), run);
      t in s.threads && s.threads[t].pc.Checked? ==>
        exists i :: 0 <= i < |run| && run[i] == Check(t) && s.threads[t].pc.at == Clears(run[..i])
    decreases |run|
  {
    hide SystemInv, Put, Get, NeedsRefresh, Rebind;
    if run != [] {
      var n := |run| - 1;
      var front := run[..n];
      var before := After(Init(maxEntries, maxBytes), front);
      EpochCountsClears(maxEntries, maxBytes, front, t);
      StepBounds(before, run[n]);
      var s := After(Init(maxEntries, maxBytes), run);
      if t in s.threads && s.threads[t].pc.Checked? {
        if run[n] == Check(t) {
          assert run[n] == Check(t) && s.threads[t].pc.at == Clears(run[..n]);
        } else {
          assert t in before.threads && before.threads[t].pc == s.threads[t].pc;
          var i :| 0 <= i < n && front[i] == Check(t) && before.threads[t].pc.at == Clears(front[..i]);
          assert run[i] == front[i] && run[..i] == front[..i];
        }
      }
    }
  }

  /** The README says that replies from an earlier policy cannot refill the cache. They can, when
      the clear falls between the two critical sections: for every storable reply there is such a run. */
  lemma {:induction false} StaleRefill(maxEntries: int, maxBytes: int, key: Key, query: seq<Byte>, response: seq<Byte>)
    requires maxEntries > 0 && Storable(response) && |response| + |key| <= maxBytes
    ensures var run := [Arrive(0, key, query), TryCache(0, 0), Enter(0), Return(0, Fetched(response, false)),
                        Check(0), ClearAll, Store(0, 0)];
      Legal(Init(maxEntries, maxBytes), run) && !Fresh(After(Init(maxEntries, maxBytes), run))
  {
    hide Put, Storable, NewEntry;
    var s0 := Init(maxEntries, maxBytes);
    var result := Fetched(response, false);
    var r0: seq<Action> := [];
    var r1, r2 := r0 + [Arrive(0, key, query)], r0 + [Arrive(0, key, query)] + [TryCache(0, 0)];
    var r3, r4 := r2 + [Enter(0)], r2 + [Enter(0)] + [Return(0, result)];
    var r5, r6 := r4 + [Check(0)], r4 + [Check(0)] + [ClearAll];
    Extend(s0, r0, Arrive(0, key, query));
    Extend(s0, r1, TryCache(0, 0));
    Extend(s0, r2, Enter(0));
    Extend(s0, r3, Return(0, result));
    Extend(s0, r4, Check(0));
    Extend(s0, r5, ClearAll);
    var s6 := After(s0, r6);
    assert s6.threads[0] == Thread(key, query, Checked(0, true, 0)) && s6.cache == Empty(maxEntries, maxBytes, 1);
    Extend(s0, r6, Store(0, 0));
    PutStores(s6.cache, key, response, 0);
    PutBounds(s6.cache, key, response, 0);
    var s7 := Step(s6, Store(0, 0));
    assert key in s7.cache.entries && s7.origin[key] == 0 && s7.cache.epoch == 1;
    assert r6 + [Store(0, 0)] == [Arrive(0, key, query), TryCache(0, 0), Enter(0), Return(0, result),
                                  Check(0), ClearAll, Store(0, 0)];
  }

  // ---------------------------------------------------------------- answers from the cache

  /** The stored reply for k is what the lookup of flight f returned, and its epoch is that flight's. */
  ghost predicate SourcedBy(s: System, k: Key, f: FlightId) {
    && k in s.cache.entries && k in s.origin && f < |s.table|
    && s.table[f].key == k && s.table[f].epoch == s.origin[k]
    && s.table[f].result == Some(Fetched(s.cache.entries[k].response, false))
  }

  ghost predicate Sourced(s: System) {
    forall k :: k in s.cache.entries ==> exists f: FlightId :: SourcedBy(s, k, f)
  }

  lemma {:induction false} PutValues(c: Cache, k: Key, response: seq<Byte>, now: int)
    ensures forall x :: x in Put(c, k, response, now).entries ==>
      if x == k && Storable(response) then Put(c, k, response, now).entries[x].response == response
      else x in c.entries && Put(c, k, response, now).entries[x] == c.entries[x]
  {
    hide ResponseTtls, Without;
    if Storable(response) { EvictShrinks(Insert(c, k, NewEntry(response, now))); }
  }

  lemma {:induction false} GetValues(c: Cache, k: Key, query: seq<Byte>, now: int)
    ensures SubMap(Get(c, k, query, now).0.entries, c.entries)
  {
  }

  /** Where the entries of the cache after a step come from. */
  lemma {:induction false} StepEntries(s: System, a: Action, k: Key)
    requires Enabled(s, a) && k in Step(s, a).cache.entries
    ensures (k in s.cache.entries && Step(s, a).cache.entries[k] == s.cache.entries[k]
             && (k in s.origin ==> k in Step(s, a).origin && Step(s, a).origin[k] == s.origin[k]))
      || (a.Store? && k == s.threads[a.t].key
          && var f := s.threads[a.t].pc.flight;
             && s.table[f].result == Some(Fetched(Step(s, a).cache.entries[k].response, false))
             && k in Step(s, a).origin && Step(s, a).origin[k] == s.table[f].epoch)
  {
    hide Put, Get, NeedsRefresh, Storable, Rebind;
    match a
    case TryCache(t, now) => GetValues(s.cache, s.threads[t].key, s.threads[t].query, now);
    case Store(t, now) =>
      PutValues(s.cache, s.threads[t].key, s.table[s.threads[t].pc.flight].result.value.response, now);
    case _ =>
  }

  lemma {:induction false} StepSourced(s: System, a: Action)
    requires SystemInv(s) && Enabled(s, a) && Sourced(s)
    ensures Sourced(Step(s, a))
  {
    hide Step, Enabled;
    var s' := Step(s, a);
    forall k | k in s'.cache.entries ensures exists f: FlightId :: SourcedBy(s', k, f) {
      StepEntries(s, a, k);
      if k in s.cache.entries && s'.cache.entries[k] == s.cache.entries[k]
        && exists f: FlightId :: SourcedBy(s, k, f) && k in s'.origin && s'.origin[k] == s.origin[k]
      {
        var f: FlightId :| SourcedBy(s, k, f);
        ResultFixed(s, a, f);
        assert SourcedBy(s', k, f);
      } else {
        StoredByOwner(s, a);
        ResultFixed(s, a, s.threads[a.t].pc.flight);
        assert SourcedBy(s', k, s.threads[a.t].pc.flight);
      }
    }
  }

  lemma {:induction false} StoredByOwner(s: System, a: Action)
    requires SystemInv(s) && Enabled(s, a) && a.Store?
    ensures a.t in s.threads && s.threads[a.t].pc.Checked?
    ensures var f := s.threads[a.t].pc.flight; f < |s.table| && s.table[f].key == s.threads[a.t].key
  {
    OwnerFacts(s, a.t);
  }

  lemma {:induction false} RunSourced(maxEntries: int, maxBytes: int, run: seq<Action>)
    requires maxEntries > 0 && maxBytes >= 0 && Legal(Init(maxEntries, maxBytes), run)
    ensures Sourced(After(Init(maxEntries, maxBytes), run))
    decreases |run|
  {
    hide Step, Enabled, SystemInv, SourcedBy;
    if run != [] {
      RunSourced(maxEntries, maxBytes, run[..|run| - 1]);
      RunKeepsInv(maxEntries, maxBytes, run[..|run| - 1]);
      StepSourced(After(Init(maxEntries, maxBytes), run[..|run| - 1]), run[|run| - 1]);
    }
  }

  /** The answer a caller got from the cache. */
  function HitOf(pc: Pc): Option<Fetched> {
    match pc
    case AfterHit(reply, _) => Some(Fetched(reply, false))
    case Done(answer, None) => Some(answer)
    case _ => None
  }

  /** At step j the caller asked the cache, and got this answer. */
  ghost predicate HitAt(s: System, run: seq<Action>, j: int, t: Caller, th: Thread, answer: Fetched) {
    && 0 <= j < |run| && run[j].TryCache? && run[j].t == t && Legal(s, run[..j])
    && var before := After(s, run[..j]);
      && t in before.threads && before.threads[t].key == th.key && before.threads[t].query == th.query
      && var hit := Get(before.cache, th.key, th.query, run[j].now).1;
        hit.Some? && answer == Fetched(hit.value, false)
  }

  lemma {:induction false} HitKept(s: System, a: Action, t: Caller)
    requires Enabled(s, a) && t in Step(s, a).threads && HitOf(Step(s, a).threads[t].pc).Some?
    ensures t in s.threads
    ensures var th, th' := s.threads[t], Step(s, a).threads[t];
      && th.key == th'.key && th.query == th'.query
      && if a.TryCache? && a.t == t
         then
           var hit := Get(s.cache, th.key, th.query, a.now).1;
           hit.Some? && HitOf(th'.pc) == Some(Fetched(hit.value, false))
         else HitOf(th.pc) == HitOf(th'.pc)
  {
    hide Put, Get, NeedsRefresh, Storable, Rebind;
  }

  lemma {:induction false} HitLater(s: System, front: seq<Action>, a: Action, j: int, t: Caller, th: Thread,
                                    answer: Fetched)
    requires HitAt(s, front, j, t, th, answer)
    ensures HitAt(s, front + [a], j, t, th, answer)
  {
    hide Get;
    assert (front + [a])[j] == front[j] && (front + [a])[..j] == front[..j];
  }

  lemma {:induction false} HitHappened(maxEntries: int, maxBytes: int, run: seq<Action>, t: Caller)
    requires maxEntries > 0 && maxBytes >= 0 && Legal(Init(maxEntries, maxBytes), run)
    requires var s := After(Init(maxEntries, maxBytes), run); t in s.threads && HitOf(s.threads[t].pc).Some?
    ensures var th := After(Init(maxEntries, maxBytes), run).threads[t];
      exists j :: HitAt(Init(maxEntries, maxBytes), run, j, t, th, HitOf(th.pc).value)
    decreases |run|
  {
    hide Step, Enabled, Get, HitOf;
    if run != [] {
      var s0, n := Init(maxEntries, maxBytes), |run| - 1;
      var front, a := run[..n], run[n];
      var before, th := After(s0, front), After(s0, run).threads[t];
      assert run == front + [a];
      HitKept(before, a, t);
      if a.TryCache? && a.t == t {
        assert HitAt(s0, run, n, t, th, HitOf(th.pc).value);
      } else {
        HitHappened(maxEntries, maxBytes, front, t);
        var j :| HitAt(s0, front, j, t, before.threads[t], HitOf(before.threads[t].pc).value);
        HitLater(s0, front, a, j, t, before.threads[t], HitOf(th.pc).value);
        assert HitAt(s0, run, j, t, th, HitOf(th.pc).value);
      }
    }
  }

  lemma {:induction false} FreshPrefix(s: System, run: seq<Action>, j: nat)
    requires Legal(s, run) && FreshThroughout(s, run) && j <= |run|
    ensures Legal(s, run[..j]) && Fresh(After(s, run[..j]))
    decreases |run|
  {
    hide Step, Enabled, Fresh;
    if j < |run| {
      FreshPrefix(s, run[..|run| - 1], j);
      assert run[..|run| - 1][..j] == run[..j];
    } else {
      assert run[..j] == run;
    }
  }

  /** Step j of the run gave t its answer: the cached form of what the lookup of flight f returned in the
      earlier step i, successfully and for the same key. */
  ghost predicate CachedFrom(s: System, run: seq<Action>, i: int, j: int, f: FlightId, t: Caller, th: Thread) {
    && 0 <= i < j < |run| && run[j].TryCache? && run[j].t == t && Legal(s, run[..j])
    && var before := After(s, run[..j]);
      && SourcedBy(before, th.key, f) && |th.query| >= 2
      && run[i] == Return(before.table[f].owner, Fetched(before.cache.entries[th.key].response, false))
      && th.pc.Done? && th.pc.answer == Fetched(Reply(before.cache.entries[th.key], th.query, run[j].now), false)
  }

  lemma {:induction false} GetHit(c: Cache, k: Key, query: seq<Byte>, now: int)
    requires Get(c, k, query, now).1.Some?
    ensures k in c.entries && |query| >= 2 && Get(c, k, query, now).1.value == Reply(c.entries[k], query, now)
  {
  }

  /** A caller answered from the cache gets the cached form of a reply that an earlier successful lookup for
      its key returned; if no put was overtaken by a clear, that lookup began in the epoch in which
      the caller asked. */
  lemma {:induction false} CachedAnswer(maxEntries: int, maxBytes: int, run: seq<Action>, t: Caller)
    requires maxEntries > 0 && maxBytes >= 0 && Legal(Init(maxEntries, maxBytes), run)
    requires var s := After(Init(maxEntries, maxBytes), run);
      t in s.threads && s.threads[t].pc.Done? && s.threads[t].pc.via.None?
    ensures var s0, th := Init(maxEntries, maxBytes), After(Init(maxEntries, maxBytes), run).threads[t];
      exists i, j, f: FlightId :: CachedFrom(s0, run, i, j, f, t, th)
        && (NeverOvertaken(s0, run) ==>
              After(s0, run[..j]).table[f].epoch == After(s0, run[..j]).cache.epoch)
  {
    hide Legal, After, Get, Reply, SystemInv, NeverOvertaken, FreshThroughout;
    var s0 := Init(maxEntries, maxBytes);
    var th := After(s0, run).threads[t];
    HitHappened(maxEntries, maxBytes, run, t);
    var j :| HitAt(s0, run, j, t, th, HitOf(th.pc).value);
    var before := After(s0, run[..j]);
    GetHit(before.cache, th.key, th.query, run[j].now);
    RunSourced(maxEntries, maxBytes, run[..j]);
    var f: FlightId :| SourcedBy(before, th.key, f);
    ResultOfOwner(maxEntries, maxBytes, run[..j], f);
    var i :| 0 <= i < j && run[..j][i] == Return(before.table[f].owner, before.table[f].result.value);
    assert CachedFrom(s0, run, i, j, f, t, th);
    if NeverOvertaken(s0, run) {
      FreshIff(maxEntries, maxBytes, run);
      FreshPrefix(s0, run, j);
    }
  }
}
