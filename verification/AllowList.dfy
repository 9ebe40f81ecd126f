/** The edge allow-list: who may pass the edge, which domain a plain-UDP client last asked for, and
    the periodic cleanup of both. Times are milliseconds; addresses are already normalized. */
module AllowList {
  import opened Wrappers

  type Ip = string

  datatype IpEntry = IpEntry(until: int, source: string, lastSeen: int, permanent: bool)

  datatype DomainEntry = DomainEntry(until: int, domain: string, port: int, source: string)

  datatype State = State(allowed: map<Ip, IpEntry>, domains: map<Ip, DomainEntry>)

  const DEFAULT_TTL := 120000
  const DAY := 86400000
  const DEFAULT_INACTIVITY := 30 * 24 * 3600 * 1000

  function EffectiveInactivity(configured: int): int {
    if configured == 0 then DEFAULT_INACTIVITY else configured
  }

  // ---------------------------------------------------------------- the operations

  /** A body of POST /edge-allowlist; the source label is already resolved. */
  datatype Request = Request(ip: Ip, source: string, permanent: Option<bool>, ttlMs: int, domain: string, port: int)

  predicate IsPermanent(r: Request) {
    match r.permanent
    case Some(p) => p
    case None => "panel" <= r.source
  }

  function UntilOf(r: Request, configuredTtl: int, now: int): int {
    if IsPermanent(r) then 0
    else now + (if r.ttlMs > 0 then r.ttlMs else if configuredTtl > 0 then configuredTtl else DAY)
  }

  datatype Op =
    | Remember(ip: Ip, ttl: int, source: string, now: int)
    | Grant(ip: Ip, until: int, seen: int, mapUntil: int, source: string, domain: string)
    | Post(request: Request, configuredTtl: int, now: int)
    | Delete(ip: Ip)
    | Auth(ip: Ip, now: int)
    | Cleanup(inactivity: int, now: int)

  predicate Granted(s: State, ip: Ip, now: int) {
    ip in s.allowed && (s.allowed[ip].permanent || s.allowed[ip].until > now)
  }

  /** The entry has outlived its stay at `now`: a pin by inactivity, any other by its end time. */
  predicate Stale(e: IpEntry, inactivity: int, now: int) {
    if e.permanent then inactivity >= 0 && e.lastSeen > 0 && now - e.lastSeen > inactivity
    else e.until < now
  }

  function Cleaned(s: State, inactivity: int, now: int): State {
    var allowed := map ip | ip in s.allowed && !Stale(s.allowed[ip], inactivity, now) :: s.allowed[ip];
    State(allowed, map ip | ip in s.domains && ip in allowed
                      && (allowed[ip].permanent || s.domains[ip].until >= now) :: s.domains[ip])
  }

  function Apply(s: State, op: Op): State {
    match op
    case Remember(ip, ttl, source, now) =>
      if ip == "" then s
      else s.(allowed := s.allowed[ip := IpEntry(now + (if ttl <= 0 then DEFAULT_TTL else ttl), source, 0, false)])
    case Grant(ip, until, seen, mapUntil, source, domain) =>
      State(s.allowed[ip := IpEntry(until, source, seen, false)],
            s.domains[ip := DomainEntry(mapUntil, domain, 443, source)])
    case Post(r, configuredTtl, now) =>
      if r.ip == "" then s else
      var until := UntilOf(r, configuredTtl, now);
      State(s.allowed[r.ip := IpEntry(until, r.source, now, IsPermanent(r))],
            if r.domain == "" then s.domains
            else s.domains[r.ip := DomainEntry(until, r.domain, if r.port == 0 then 443 else r.port, r.source)])
    case Delete(ip) =>
      if ip == "" then s else State(s.allowed - {ip}, s.domains - {ip})
    case Auth(ip, now) =>
      if Granted(s, ip, now) then s.(allowed := s.allowed[ip := s.allowed[ip].(lastSeen := now)]) else s
    case Cleanup(inactivity, now) => Cleaned(s, inactivity, now)
  }

  /** The object whose maps the handlers and the cleanup loop change under one lock. */
  class Table {
    var allowed: map<Ip, IpEntry>
    var domains: map<Ip, DomainEntry>

    function Value(): State
      reads this
    {
      State(allowed, domains)
    }

    constructor ()
      ensures Value() == State(map[], map[])
    {
      allowed, domains := map[], map[];
    }

    method RememberEdgeIP(ip: Ip, ttl: int, source: string, now: int)
      modifies this
      ensures Value() == Apply(old(Value()), Remember(ip, ttl, source, now))
    {
      if ip == "" { return; }
      var t := ttl;
      if t <= 0 { t := DEFAULT_TTL; }
      allowed := allowed[ip := IpEntry(now + t, source, 0, false)];
    }

    /** The remember step of resolve. */
    method GrantEdge(ip: Ip, until: int, seen: int, mapUntil: int, source: string, domain: string)
      modifies this
      ensures Value() == Apply(old(Value()), Grant(ip, until, seen, mapUntil, source, domain))
    {
      allowed := allowed[ip := IpEntry(until, source, seen, false)];
      domains := domains[ip := DomainEntry(mapUntil, domain, 443, source)];
    }

    method HandlePost(r: Request, configuredTtl: int, now: int)
      modifies this
      ensures Value() == Apply(old(Value()), Post(r, configuredTtl, now))
    {
      if r.ip == "" { return; }
      var permanent := IsPermanent(r);
      var until := 0;
      if !permanent {
        var ttl := r.ttlMs;
        if ttl <= 0 { ttl := configuredTtl; }
        if ttl <= 0 { ttl := DAY; }
        until := now + ttl;
      }
      allowed := allowed[r.ip := IpEntry(until, r.source, now, permanent)];
      if r.domain != "" {
        var port := r.port;
        if port == 0 { port := 443; }
        domains := domains[r.ip := DomainEntry(until, r.domain, port, r.source)];
      }
    }

    method HandleDelete(ip: Ip)
      modifies this
      ensures Value() == Apply(old(Value()), Delete(ip))
    {
      if ip == "" { return; }
      allowed := allowed - {ip};
      domains := domains - {ip};
    }

    method HandleAuth(ip: Ip, now: int) returns (granted: bool)
      modifies this
      ensures granted == Granted(old(Value()), ip, now)
      ensures Value() == Apply(old(Value()), Auth(ip, now))
    {
      if ip in allowed && (allowed[ip].permanent || allowed[ip].until > now) {
        allowed := allowed[ip := allowed[ip].(lastSeen := now)];
        return true;
      }
      return false;
    }

    /** The first loop of the cleanup; the map is visited in an order the source leaves open. */
    method DropStale(inactivity: int, now: int)
      modifies this
      ensures Value() == State(Cleaned(old(Value()), inactivity, now).allowed, old(domains))
    {
      var rest := allowed.Keys;
      while rest != {}
        invariant rest <= old(allowed).Keys && domains == old(domains)
        invariant allowed == map k | k in old(allowed) && (k in rest || !Stale(old(allowed)[k], inactivity, now)) ::
          old(allowed)[k]
        decreases rest
      {
        var k :| k in rest;
        var v := allowed[k];
        if v.permanent {
          if inactivity >= 0 && v.lastSeen > 0 && now - v.lastSeen > inactivity { allowed := allowed - {k}; }
        } else if v.until < now {
          allowed := allowed - {k};
        }
        rest := rest - {k};
      }
    }

    /** The second loop, over the domain entries. */
    method DropDomains(now: int)
      modifies this
      ensures allowed == old(allowed)
      ensures domains == map k | k in old(domains) && k in allowed
        && (allowed[k].permanent || old(domains)[k].until >= now) :: old(domains)[k]
    {
      var rest := domains.Keys;
      while rest != {}
        invariant rest <= old(domains).Keys && allowed == old(allowed)
        invariant domains == map k | k in old(domains) && (k in rest ||
            (k in allowed && (allowed[k].permanent || old(domains)[k].until >= now))) :: old(domains)[k]
        decreases rest
      {
        var k :| k in rest;
        if k !in allowed {
          domains := domains - {k};
        } else if !allowed[k].permanent && domains[k].until < now {
          domains := domains - {k};
        }
        rest := rest - {k};
      }
    }

    /** One tick of the cleanup loop. */
    method CleanupTick(configuredInactivity: int, now: int)
      modifies this
      ensures Value() == Apply(old(Value()),
                               Cleanup(if configuredInactivity == 0 then 2_592_000_000 else configuredInactivity, now))
    {
      var inactivity := EffectiveInactivity(configuredInactivity);
      DropStale(inactivity, now);
      DropDomains(now);
    }
  }

  // ---------------------------------------------------------------- what holds in every run

  function From(s: State, ops: seq<Op>): State
    decreases |ops|
  {
    if ops == [] then s else Apply(From(s, ops[..|ops| - 1]), ops[|ops| - 1])
  }

  function Run(ops: seq<Op>): State { From(State(map[], map[]), ops) }

  /** Every address with a domain entry is on the allow-list. */
  predicate DomainsAllowed(s: State) {
    s.domains.Keys <= s.allowed.Keys
  }

  lemma {:induction false} AlwaysDomainsAllowed(ops: seq<Op>)
    ensures DomainsAllowed(Run(ops))
    decreases |ops|
  {
    if ops != [] { AlwaysDomainsAllowed(ops[..|ops| - 1]); }
  }

  /** Once stale, an entry stays stale. */
  lemma {:induction false} StaleForGood(e: IpEntry, inactivity: int, t1: int, t2: int)
    requires t1 <= t2 && Stale(e, inactivity, t1)
    ensures Stale(e, inactivity, t2)
  {
  }

  /** Cleaning at t1 and again at a later t2 is cleaning once at t2. */
  lemma {:induction false} CleaningTwice(s: State, inactivity: int, t1: int, t2: int)
    requires t1 <= t2
    ensures Cleaned(Cleaned(s, inactivity, t1), inactivity, t2) == Cleaned(s, inactivity, t2)
  {
    var once, twice := Cleaned(s, inactivity, t2), Cleaned(Cleaned(s, inactivity, t1), inactivity, t2);
    forall ip | ip in s.allowed && !Stale(s.allowed[ip], inactivity, t2)
      ensures !Stale(s.allowed[ip], inactivity, t1)
    {
      if Stale(s.allowed[ip], inactivity, t1) { StaleForGood(s.allowed[ip], inactivity, t1, t2); }
    }
    assert twice.allowed == once.allowed;
    assert twice.domains == once.domains;
  }

  /** A cleanup changes a later authorization of an address only if it ends an inactive pin. */
  lemma {:induction false} CleanupChangesAuthIff(s: State, inactivity: int, cleaned: int, ip: Ip, now: int)
    requires cleaned <= now
    ensures Granted(Cleaned(s, inactivity, cleaned), ip, now) != Granted(s, ip, now) <==>
      ip in s.allowed && s.allowed[ip].permanent && Stale(s.allowed[ip], inactivity, cleaned)
  {
  }

  /** The step writes the entry of the address, whatever was there before. */
  predicate Writes(op: Op, ip: Ip) {
    match op
    case Remember(i, _, _, _) => i == ip && ip != ""
    case Grant(i, _, _, _, _, _) => i == ip
    case Post(r, _, _) => r.ip == ip && ip != ""
    case Delete(i) => i == ip && ip != ""
    case _ => false
  }

  /** GET /edge-map takes the lock twice: it reads the domain entry in the first section and looks the
      address up in the second, between which other steps may fall. */
  predicate MapServed(first: State, second: State, ip: Ip, now: int) {
    ip in first.domains && first.domains[ip].until >= now && ip in second.allowed
  }

  /** No step writes the entry of the address, and no cleanup is later than t. */
  predicate Untouched(ops: seq<Op>, ip: Ip, t: int) {
    forall i :: 0 <= i < |ops| ==> !Writes(ops[i], ip) && (ops[i].Cleanup? ==> ops[i].now <= t)
  }

  lemma {:induction false} PostedStays(s: State, r: Request, configuredTtl: int, now: int, ops: seq<Op>, t: int)
    requires r.ip != "" && r.domain != "" && Untouched(ops, r.ip, t)
    ensures var posted := Apply(s, Post(r, configuredTtl, now));
      var later := From(posted, ops);
      && (r.ip in later.domains ==> later.domains[r.ip] == posted.domains[r.ip])
      && (r.ip in later.allowed ==>
            later.allowed[r.ip].permanent == IsPermanent(r)
            && later.allowed[r.ip].until == UntilOf(r, configuredTtl, now))
      && (IsPermanent(r) ==> (r.ip in later.domains <==> r.ip in later.allowed))
      && (!IsPermanent(r) && t <= UntilOf(r, configuredTtl, now) ==> r.ip in later.domains && r.ip in later.allowed)
    decreases |ops|
  {
    hide UntilOf, IsPermanent;
    if ops != [] { PostedStays(s, r, configuredTtl, now, ops[..|ops| - 1], t); }
  }

  /** A domain posted with an address is served exactly until the end time stored with it, whatever steps on
      other addresses, visits and cleanups come before the first section of the request (ops) and
      between its sections (between). For a permanent entry that time is zero: it is never served,
      although it stays as long as its pin. */
  lemma {:induction false} PostedDomainServedIff(s: State, r: Request, configuredTtl: int, now: int,
                                                 ops: seq<Op>, between: seq<Op>, t: int)
    requires r.ip != "" && r.domain != "" && t > 0 && Untouched(ops + between, r.ip, t)
    ensures var posted := Apply(s, Post(r, configuredTtl, now));
      && (MapServed(From(posted, ops), From(posted, ops + between), r.ip, t) <==>
            !IsPermanent(r) && t <= UntilOf(r, configuredTtl, now))
      && (IsPermanent(r) ==> (r.ip in From(posted, ops).domains <==> r.ip in From(posted, ops).allowed))
  {
    hide From;
    forall i | 0 <= i < |ops| ensures ops[i] == (ops + between)[i] { }
    assert Untouched(ops, r.ip, t);
    PostedStays(s, r, configuredTtl, now, ops, t);
    PostedStays(s, r, configuredTtl, now, ops + between, t);
  }

  /** The last step of the run that wrote the entry of the address. */
  function LastWrite(ops: seq<Op>, ip: Ip): Option<Op>
    decreases |ops|
  {
    if ops == [] then None
    else if Writes(ops[|ops| - 1], ip) then Some(ops[|ops| - 1]) else LastWrite(ops[..|ops| - 1], ip)
  }

  /** What the last write stored, but for the visits recorded since; a deletion stored nothing. */
  predicate StoredBy(e: IpEntry, op: Op) {
    match op
    case Remember(_, ttl, source, now) =>
      e.until == now + (if ttl <= 0 then DEFAULT_TTL else ttl) && e.source == source && !e.permanent
    case Grant(_, until, _, _, source, _) => e.until == until && e.source == source && !e.permanent
    case Post(r, ttl, now) => e.until == UntilOf(r, ttl, now) && e.source == r.source && e.permanent == IsPermanent(r)
    case _ => false
  }

  /** In every run the entry of an address is what its last write stored: it is a pin exactly when that
      was a permanent post, so a DNS answer or a DoT connection from a pinned address ends the pin. */
  lemma {:induction false} EntryIsLastWrite(ops: seq<Op>, ip: Ip)
    requires ip in Run(ops).allowed
    ensures var op := LastWrite(ops, ip); op.Some? && StoredBy(Run(ops).allowed[ip], op.value)
    ensures Run(ops).allowed[ip].permanent <==>
      LastWrite(ops, ip).value.Post? && IsPermanent(LastWrite(ops, ip).value.request)
    decreases |ops|
  {
    hide UntilOf, IsPermanent, Stale;
    if ops != [] && !Writes(ops[|ops| - 1], ip) { EntryIsLastWrite(ops[..|ops| - 1], ip); }
  }

  /** So once the new end time has passed, a cleanup removes a formerly pinned address and its domain. */
  lemma {:induction false} GrantEndsPin(s: State, g: Op, inactivity: int, now: int)
    requires (g.Grant? || g.Remember?) && Writes(g, g.ip)
    requires Apply(s, g).allowed[g.ip].until < now
    ensures g.ip !in Cleaned(Apply(s, g), inactivity, now).allowed
    ensures g.ip !in Cleaned(Apply(s, g), inactivity, now).domains
  {
    assert StoredBy(Apply(s, g).allowed[g.ip], g);
  }

  // ---------------------------------------------------------------- who passes the edge

  /** When the address was last seen in the run: at its last visit, or at the request that pinned it. */
  function LastSeen(ops: seq<Op>, ip: Ip): int
    decreases |ops|
  {
    if ops == [] then 0 else
    var op := ops[|ops| - 1];
    if op.Auth? && op.ip == ip then op.now
    else if op.Post? && op.request.ip == ip then op.now
    else LastSeen(ops[..|ops| - 1], ip)
  }

  /** Step i of the run is a cleanup that finds the pinned address unseen for longer than it allows. */
  predicate EndsPin(ops: seq<Op>, i: nat, ip: Ip)
    requires i < |ops|
  {
    ops[i].Cleanup? && ops[i].inactivity >= 0
    && var seen := LastSeen(ops[..i], ip); seen > 0 && ops[i].now - seen > ops[i].inactivity
  }

  /** The post asks for a pin: it says so, or says nothing and comes from a panel. */
  predicate AsksForPin(r: Request) {
    r.permanent == Some(true) || (r.permanent == None && |r.source| >= 5 && r.source[..5] == "panel")
  }

  /** What the last write of the address, at step w, lets it do at time now. */
  ghost predicate PassesBy(ops: seq<Op>, w: nat, ip: Ip, now: int)
    requires w < |ops|
  {
    match ops[w]
    case Remember(_, ttl, _, at) => now < at + (if ttl > 0 then ttl else 120_000)
    case Grant(_, until, _, _, _, _) => now < until
    case Post(r, configured, at) =>
      if AsksForPin(r) then forall i: nat :: w < i < |ops| ==> !EndsPin(ops, i, ip)
      else now < at + (if r.ttlMs > 0 then r.ttlMs else if configured > 0 then configured else 86_400_000)
    case _ => false
  }

  /** Step w is the last that writes the entry of the address. */
  predicate LastWriteAt(ops: seq<Op>, w: nat, ip: Ip) {
    w < |ops| && Writes(ops[w], ip) && forall i :: w < i < |ops| ==> !Writes(ops[i], ip)
  }

  /** The entry of an address after a run: what its last write left of it. */
  ghost predicate EntryIs(ops: seq<Op>, w: nat, ip: Ip, now: int)
    requires w < |ops|
  {
    var s := Run(ops);
    match ops[w]
    case Post(r, configured, at) =>
      if IsPermanent(r)
      then (ip in s.allowed <==> forall i: nat :: w < i < |ops| ==> !EndsPin(ops, i, ip))
        && (ip in s.allowed ==> s.allowed[ip].permanent && s.allowed[ip].lastSeen == LastSeen(ops, ip))
      else Expiring(s, ip, UntilOf(r, configured, at), now)
    case Remember(_, ttl, _, at) => Expiring(s, ip, at + (if ttl <= 0 then DEFAULT_TTL else ttl), now)
    case Grant(_, until, _, _, _, _) => Expiring(s, ip, until, now)
    case _ => ip !in s.allowed
  }

  predicate Expiring(s: State, ip: Ip, until: int, now: int) {
    if ip in s.allowed then !s.allowed[ip].permanent && s.allowed[ip].until == until else until <= now
  }

  lemma {:induction false} RunStep(ops: seq<Op>)
    requires ops != []
    ensures Run(ops) == Apply(Run(ops[..|ops| - 1]), ops[|ops| - 1])
  {
  }

  lemma {:induction false} ExpiringStep(s: State, op: Op, ip: Ip, until: int, now: int)
    requires Expiring(s, ip, until, now) && !Writes(op, ip) && (op.Cleanup? ==> op.now <= now)
    ensures Expiring(Apply(s, op), ip, until, now)
  {
    hide UntilOf, IsPermanent;
  }

  /** A pin survives every step that does not write it, but a cleanup that finds it stale. */
  lemma {:induction false} PinStep(s: State, op: Op, ip: Ip, seen: int)
    requires !Writes(op, ip) && (ip in s.allowed ==> s.allowed[ip].permanent && s.allowed[ip].lastSeen == seen)
    ensures var s' := Apply(s, op);
      && (ip in s'.allowed <==>
            ip in s.allowed && !(op.Cleanup? && op.inactivity >= 0 && seen > 0 && op.now - seen > op.inactivity))
      && (ip in s'.allowed ==>
            s'.allowed[ip].permanent && s'.allowed[ip].lastSeen == if op.Auth? && op.ip == ip then op.now else seen)
  {
    hide UntilOf, IsPermanent;
  }

  lemma {:induction false} EntryStep(ops: seq<Op>, w: nat, ip: Ip, now: int)
    requires LastWriteAt(ops, w, ip) && w < |ops| - 1 && EntryIs(ops[..|ops| - 1], w, ip, now)
    requires ops[|ops| - 1].Cleanup? ==> ops[|ops| - 1].now <= now
    ensures EntryIs(ops, w, ip, now)
  {
    hide UntilOf, IsPermanent, Run, Apply, Expiring;
    var n := |ops| - 1;
    var front := ops[..n];
    RunStep(ops);
    assert front[w] == ops[w] && !Writes(ops[n], ip);
    match ops[w]
    case Post(r, configured, at) =>
      if IsPermanent(r) {
        forall i: nat | i < n ensures EndsPin(front, i, ip) == EndsPin(ops, i, ip) { assert front[..i] == ops[..i]; }
        PinStep(Run(front), ops[n], ip, LastSeen(front, ip));
        assert EndsPin(ops, n, ip) == (
          ops[n].Cleanup? && ops[n].inactivity >= 0 && LastSeen(front, ip) > 0
          && ops[n].now - LastSeen(front, ip) > ops[n].inactivity);
        hide EndsPin;
        assert (forall i: nat :: w < i < |ops| ==> !EndsPin(ops, i, ip)) == (
          (forall i: nat :: w < i < n ==> !EndsPin(front, i, ip)) && !EndsPin(ops, n, ip));
      } else {
        ExpiringStep(Run(front), ops[n], ip, UntilOf(r, configured, at), now);
      }
    case Remember(_, ttl, _, at) =>
      ExpiringStep(Run(front), ops[n], ip, at + (if ttl <= 0 then DEFAULT_TTL else ttl), now);
    case Grant(_, until, _, _, _, _) => ExpiringStep(Run(front), ops[n], ip, until, now);
    case Delete(_) => GoneStep(Run(front), ops[n], ip);
    case _ =>
  }

  lemma {:induction false} GoneStep(s: State, op: Op, ip: Ip)
    requires ip !in s.allowed && !Writes(op, ip)
    ensures ip !in Apply(s, op).allowed
  {
  }

  lemma {:induction false} EntryAfter(ops: seq<Op>, w: nat, ip: Ip, now: int)
    requires LastWriteAt(ops, w, ip) && forall i :: 0 <= i < |ops| && ops[i].Cleanup? ==> ops[i].now <= now
    ensures EntryIs(ops, w, ip, now)
    decreases |ops|
  {
    hide UntilOf, IsPermanent, EndsPin;
    var n := |ops| - 1;
    if w == n {
      RunStep(ops);
      hide Run;
    } else {
      assert LastWriteAt(ops[..n], w, ip);
      EntryAfter(ops[..n], w, ip, now);
      hide Run;
      EntryStep(ops, w, ip, now);
    }
  }

  lemma {:induction false} NeverWritten(ops: seq<Op>, ip: Ip)
    requires forall i :: 0 <= i < |ops| ==> !Writes(ops[i], ip)
    ensures ip !in Run(ops).allowed
    decreases |ops|
  {
    if ops != [] {
      NeverWritten(ops[..|ops| - 1], ip);
      RunStep(ops);
      hide Run;
      assert !Writes(ops[|ops| - 1], ip);
    }
  }

  lemma {:induction false} PinIff(r: Request)
    ensures IsPermanent(r) <==> AsksForPin(r)
  {
  }

  /** Who passes the edge, in every run: an address that was never written does not; one whose last write is a visit
      over DNS or DoT passes until that write's end time; one posted passes for the time asked for, else
      the configured time, else a day, and if pinned until a cleanup finds it unseen for too long. */
  lemma {:induction false} PassesIff(ops: seq<Op>, ip: Ip, now: int)
    requires forall i :: 0 <= i < |ops| && ops[i].Cleanup? ==> ops[i].now <= now
    ensures Granted(Run(ops), ip, now) <==> exists w: nat :: LastWriteAt(ops, w, ip) && PassesBy(ops, w, ip, now)
  {
    hide Run, EndsPin, AsksForPin, IsPermanent;
    if w: nat :| LastWriteAt(ops, w, ip) {
      EntryAfter(ops, w, ip, now);
      if ops[w].Post? { PinIff(ops[w].request); }
      forall v: nat | LastWriteAt(ops, v, ip) ensures v == w { assert !(v < w) && !(w < v); }
    } else {
      LastOf(ops, ip);
      NeverWritten(ops, ip);
    }
  }

  lemma {:induction false} LastOf(ops: seq<Op>, ip: Ip)
    ensures (forall i :: 0 <= i < |ops| ==> !Writes(ops[i], ip)) || exists w: nat :: LastWriteAt(ops, w, ip)
    decreases |ops|
  {
    if ops != [] {
      var n := |ops| - 1;
      LastOf(ops[..n], ip);
      if Writes(ops[n], ip) {
        assert LastWriteAt(ops, n, ip);
      } else if w: nat :| LastWriteAt(ops[..n], w, ip) {
        assert LastWriteAt(ops, w, ip);
      } else {
        forall i | 0 <= i < |ops| ensures !Writes(ops[i], ip) { if i < n { assert ops[..n][i] == ops[i]; } }
      }
    }
  }

  /** An address that was deleted is not served by /edge-map, although its domain entry was read before. */
  lemma {:induction false} DeletedIsNotServed(first: State, ops: seq<Op>, w: nat, ip: Ip, now: int)
    requires LastWriteAt(ops, w, ip) && ops[w].Delete?
    requires forall i :: 0 <= i < |ops| && ops[i].Cleanup? ==> ops[i].now <= now
    ensures !MapServed(first, Run(ops), ip, now)
  {
    EntryAfter(ops, w, ip, now);
  }

  /** The step gives the address this domain entry: a DNS answer its name at port 443, a post with a domain that one, at
      port 443 if it names none, both with the end time of the step. */
  ghost predicate Names(op: Op, ip: Ip, e: DomainEntry) {
    match op
    case Grant(i, _, _, mapUntil, source, domain) => i == ip && e == DomainEntry(mapUntil, domain, 443, source)
    case Post(r, configured, now) =>
      && r.ip == ip && ip != "" && r.domain != "" && e.domain == r.domain && e.source == r.source
      && e.port == (if r.port == 0 then 443 else r.port)
      && e.until == (if AsksForPin(r) then 0 else
           now + (if r.ttlMs > 0 then r.ttlMs else if configured > 0 then configured else 86_400_000))
    case _ => false
  }

  predicate NamesOther(op: Op, ip: Ip) {
    (op.Grant? && op.ip == ip) || (op.Post? && op.request.ip == ip && ip != "" && op.request.domain != "")
    || (op.Delete? && op.ip == ip && ip != "")
  }

  /** Step w gives the address the domain entry e, and no later one touches its domain. */
  ghost predicate LastNamedAt(ops: seq<Op>, w: nat, ip: Ip, e: DomainEntry) {
    w < |ops| && Names(ops[w], ip, e) && forall i :: w < i < |ops| ==> !NamesOther(ops[i], ip)
  }

  /** In every run the domain entry of an address is what the last step that named a domain for it gave it. */
  lemma {:induction false} DomainIsLastNamed(ops: seq<Op>, ip: Ip)
    requires ip in Run(ops).domains
    ensures exists w: nat :: LastNamedAt(ops, w, ip, Run(ops).domains[ip])
    decreases |ops|
  {
    var n := |ops| - 1;
    assert ops != [];
    RunStep(ops);
    DomainStep(Run(ops[..n]), ops[n], ip);
    if !NamesOther(ops[n], ip) {
      DomainIsLastNamed(ops[..n], ip);
      hide Run, Names, NamesOther;
      var w: nat :| LastNamedAt(ops[..n], w, ip, Run(ops[..n]).domains[ip]);
      assert ops[..n][w] == ops[w];
      forall i | w < i < |ops| ensures !NamesOther(ops[i], ip) { if i < n { assert ops[..n][i] == ops[i]; } }
      assert LastNamedAt(ops, w, ip, Run(ops).domains[ip]);
    } else {
      assert LastNamedAt(ops, n, ip, Run(ops).domains[ip]);
    }
  }

  lemma {:induction false} DomainStep(s: State, op: Op, ip: Ip)
    requires ip in Apply(s, op).domains
    ensures if NamesOther(op, ip) then Names(op, ip, Apply(s, op).domains[ip])
            else ip in s.domains && Apply(s, op).domains[ip] == s.domains[ip]
  {
    if op.Post? { PinIff(op.request); }
  }
}
