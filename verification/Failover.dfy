/** The failover search of the SNI edge: candidateUpstreams, connectUpstream and its three waits under
    one deadline. What the network does is an arbitrary list of attempts; writes take no time. */
module Failover {
  import opened Numbers
  import opened UpstreamHealth

  const CONNECT_TIMEOUT: int := 3_000_000_000

  /** floorTotalTimeout. */
  function FloorTotal(total: int, idle: int): int {
    if total < idle + CONNECT_TIMEOUT then idle + CONNECT_TIMEOUT else total
  }

  function RemainingBudget(deadline: int, now: int): int {
    if deadline - now > 0 then deadline - now else 0
  }

  // ---------------------------------------------------------------- the order of the candidates

  function Filter(hs: seq<Health>, now: int, quarantined: bool, n: nat): (r: seq<nat>)
    requires n <= |hs|
    ensures forall a :: 0 <= a < |r| ==> r[a] < n
  {
    if n == 0 then [] else
    Filter(hs, now, quarantined, n - 1) + (if Quarantined(hs[n - 1], now) == quarantined then [n - 1] else [])
  }

  /** The indices of all upstreams, the usable ones before the quarantined ones. */
  function Candidates(hs: seq<Health>, now: int): (r: seq<nat>)
    ensures forall a :: 0 <= a < |r| ==> r[a] < |hs|
  {
    Filter(hs, now, false, |hs|) + Filter(hs, now, true, |hs|)
  }

  method CandidateUpstreams(hs: seq<Health>, now: int) returns (order: seq<nat>)
    ensures order == Candidates(hs, now)
  {
    var ready: seq<nat>, cooling: seq<nat> := [], [];
    for i := 0 to |hs|
      invariant ready == Filter(hs, now, false, i) && cooling == Filter(hs, now, true, i)
    {
      if Quarantined(hs[i], now) { cooling := cooling + [i]; } else { ready := ready + [i]; }
    }
    if |ready| == 0 {
      AllOfOneKind(hs, now, |hs|);
      return seq(|hs|, i => i);
    }
    return ready + cooling;
  }

  lemma {:induction false} AllOfOneKind(hs: seq<Health>, now: int, n: nat)
    requires n <= |hs| && Filter(hs, now, false, n) == []
    ensures Filter(hs, now, true, n) == seq(n, i => i)
  {
    if n > 0 {
      AllOfOneKind(hs, now, n - 1);
      assert seq(n, i => i) == seq(n - 1, i => i) + [n - 1];
    }
  }

  lemma {:induction false} FilterExact(hs: seq<Health>, now: int, quarantined: bool, n: nat)
    requires n <= |hs|
    ensures forall i :: i in Filter(hs, now, quarantined, n) <==> 0 <= i < n && Quarantined(hs[i], now) == quarantined
  {
    hide Quarantined;
    if n > 0 {
      FilterExact(hs, now, quarantined, n - 1);
      var front := Filter(hs, now, quarantined, n - 1);
      assert forall i :: i in front + [n - 1] <==> i in front || i == n - 1;
      assert front + [] == front;
    }
  }

  lemma {:induction false} FilterAscends(hs: seq<Health>, now: int, quarantined: bool, n: nat)
    requires n <= |hs|
    ensures forall a, b :: 0 <= a < b < |Filter(hs, now, quarantined, n)| ==>
      Filter(hs, now, quarantined, n)[a] < Filter(hs, now, quarantined, n)[b]
  {
    hide Quarantined;
    if n > 0 {
      FilterAscends(hs, now, quarantined, n - 1);
      var front := Filter(hs, now, quarantined, n - 1);
      assert front + [] == front && forall a :: 0 <= a < |front| ==> front[a] < n - 1;
    }
  }

  /** Every upstream is a candidate exactly once; the usable ones come first, and within both
      groups the configured order stays. */
  lemma {:induction false} CandidatesKeepOrder(hs: seq<Health>, now: int)
    ensures forall i :: i in Candidates(hs, now) <==> 0 <= i < |hs|
    ensures var order := Candidates(hs, now);
      forall a, b :: 0 <= a < b < |order| ==>
        order[a] != order[b]
        && (now < hs[order[a]].cooldownUntil ==> now < hs[order[b]].cooldownUntil)
        && ((now < hs[order[a]].cooldownUntil <==> now < hs[order[b]].cooldownUntil) ==> order[a] < order[b])
  {
    FilterExact(hs, now, false, |hs|);
    FilterExact(hs, now, true, |hs|);
    FilterAscends(hs, now, false, |hs|);
    FilterAscends(hs, now, true, |hs|);
    var ready, cooling, order := Filter(hs, now, false, |hs|), Filter(hs, now, true, |hs|), Candidates(hs, now);
    forall a | 0 <= a < |order|
      ensures if a < |ready| then order[a] == ready[a] && order[a] in ready
              else order[a] == cooling[a - |ready|] && order[a] in cooling
    {
    }
    forall i | 0 <= i < |hs| ensures i in order {
      assert i in ready || i in cooling;
    }
  }

  // ---------------------------------------------------------------- one search

  /** How long a wait lasted and how it ended. */
  datatype Phase = Phase(time: int, ok: bool)

  /** What an attempt meets: the dial, the CONNECT reply, the write of the hello, the first bytes. */
  datatype Attempt = Attempt(dial: Phase, reply: Phase, writeOk: bool, forward: Phase, received: nat)

  datatype Outcome = Forwarded | ConnectFailed | HandshakeIdle

  function OutcomeOf(a: Attempt): Outcome {
    if !a.dial.ok || !a.reply.ok || !a.writeOk then ConnectFailed
    else if a.forward.ok then Forwarded else HandshakeIdle
  }

  function Duration(a: Attempt): int {
    a.dial.time + (if !a.dial.ok then 0 else
    a.reply.time + (if !a.reply.ok || !a.writeOk then 0 else a.forward.time))
  }

  /** Every wait that takes place ends by its own deadline; all three are cut with the budget read
      before the dial. */
  predicate Admissible(a: Attempt, budget: int, idle: int) {
    && 0 <= a.dial.time <= Min(CONNECT_TIMEOUT, budget)
    && (a.dial.ok ==> 0 <= a.reply.time <= Min(CONNECT_TIMEOUT, budget))
    && (a.dial.ok && a.reply.ok && a.writeOk ==> 0 <= a.forward.time <= Min(idle, budget))
  }

  /** The end of the search, the outcomes of the candidates tried, and whether the last one won. */
  datatype Search = Search(end: int, tried: seq<Outcome>, found: bool)

  function SearchFrom(attempts: seq<Attempt>, now: int, deadline: int): Search {
    if attempts == [] || RemainingBudget(deadline, now) <= 0 then Search(now, [], false) else
    var a := attempts[0];
    if OutcomeOf(a) == Forwarded then Search(now + Duration(a), [Forwarded], true) else
    var rest := SearchFrom(attempts[1..], now + Duration(a), deadline);
    Search(rest.end, [OutcomeOf(a)] + rest.tried, rest.found)
  }

  predicate AdmissibleRun(attempts: seq<Attempt>, now: int, deadline: int, idle: int) {
    attempts == [] || RemainingBudget(deadline, now) <= 0 ||
    (Admissible(attempts[0], RemainingBudget(deadline, now), idle)
     && (OutcomeOf(attempts[0]) == Forwarded
         || AdmissibleRun(attempts[1..], now + Duration(attempts[0]), deadline, idle)))
  }

  /** What the search records on a candidate it tried. */
  function Recorded(c: Config, h: Health, a: Attempt, now: int): Health {
    match OutcomeOf(a)
    case Forwarded => RecordSuccess(c, h)
    case ConnectFailed => MarkFailure(c, h.(connectFails := h.connectFails + 1), now)
    case HandshakeIdle =>
      MarkFailure(c, h.(handshakeIdles := h.handshakeIdles + 1, stallBytes := h.stallBytes + a.received), now)
  }

  /** The tunnel was obtained: dial, CONNECT reply and the write of the hello went well. */
  predicate HasTunnel(a: Attempt) { a.dial.ok && a.reply.ok && a.writeOk }

  /** What an attempt leaves on its upstream, field by field. First bytes clear the failures and lift the quarantine.
      A tunnel without them counts as stalled, with the octets that did come; no tunnel counts as a
      connect failure; either adds to the streak and, from the threshold on, quarantines from its end. */
  lemma {:induction false} RecordedIs(c: Config, h: Health, a: Attempt, end: int)
    ensures var r := Recorded(c, h, a, end);
      if HasTunnel(a) && a.forward.ok
      then r == h.(consecFails := 0, consecOKs := h.consecOKs + 1, successes := h.successes + 1,
                   cooldownUntil := 0, cooldownCur := c.initial)
      else
        && OutcomeOf(a) != Forwarded && r.consecFails == h.consecFails + 1 && r.consecOKs == 0
        && r.handshakeIdles == h.handshakeIdles + (if HasTunnel(a) then 1 else 0)
        && r.stallBytes == h.stallBytes + (if HasTunnel(a) then a.received else 0)
        && r.connectFails == h.connectFails + (if HasTunnel(a) then 0 else 1)
        && r.cooldownUntil == (if r.consecFails < c.failThreshold then h.cooldownUntil
                               else end + if h.cooldownCur <= 0 then c.initial else h.cooldownCur)
        && r.successes == h.successes && r.probeOK == h.probeOK && r.probeFails == h.probeFails
        && r.consecProbeFails == h.consecProbeFails
  {
  }

  /** An attempt lasts until its last wait is over: a wait that another one failed before does not take place. */
  lemma {:induction false} AttemptLasts(a: Attempt)
    ensures Duration(a) ==
      if HasTunnel(a) then a.dial.time + a.reply.time + a.forward.time
      else if a.dial.ok then a.dial.time + a.reply.time else a.dial.time
  {
  }

  /** When attempt number i ends, if the search gets that far. */
  function EndOf(attempts: seq<Attempt>, start: int, i: nat): int
    requires i <= |attempts|
  {
    if i == 0 then start else EndOf(attempts, start, i - 1) + Duration(attempts[i - 1])
  }

  /** One pass of the search loop; `end` is the time at which the attempt is over. */
  method Try(u: Upstream, a: Attempt, end: int) returns (outcome: Outcome)
    modifies u
    ensures outcome == OutcomeOf(a)
    ensures u.State() == Recorded(u.config, old(u.State()), a, end)
  {
    hide MarkFailure, RecordSuccess;
    if a.dial.ok && a.reply.ok && a.writeOk {
      if a.forward.ok {
        u.RecordSuccessNow();
        return Forwarded;
      }
      u.RecordHandshakeIdle(a.received, end);
      return HandshakeIdle;
    }
    u.RecordConnectFailure(end);
    return ConnectFailed;
  }

  ghost function States(candidates: seq<Upstream>): (r: seq<Health>)
    reads candidates
    ensures |r| == |candidates| && forall i :: 0 <= i < |r| ==> r[i] == candidates[i].State()
  {
    if candidates == [] then []
    else States(candidates[..|candidates| - 1]) + [candidates[|candidates| - 1].State()]
  }

  /** The first i candidates carry the record of their attempts, the others are as they were. */
  ghost predicate RecordedUpTo(candidates: seq<Upstream>, before: seq<Health>, after: seq<Health>,
                               attempts: seq<Attempt>, start: int, i: nat)
    requires |candidates| == |before| == |after| == |attempts| && i <= |candidates|
  {
    && (forall j :: 0 <= j < i ==>
          after[j] == Recorded(candidates[j].config, before[j], attempts[j], EndOf(attempts, start, j + 1)))
    && (forall j :: i <= j < |candidates| ==> after[j] == before[j])
  }

  /** One pass over candidate i changes the state of that candidate only. */
  method TryCandidate(candidates: seq<Upstream>, i: nat, a: Attempt, end: int) returns (outcome: Outcome)
    requires i < |candidates| && forall j, k :: 0 <= j < k < |candidates| ==> candidates[j] != candidates[k]
    modifies candidates[i]
    ensures outcome == OutcomeOf(a)
    ensures States(candidates) ==
      old(States(candidates))[i := Recorded(candidates[i].config, old(candidates[i].State()), a, end)]
  {
    hide Recorded, OutcomeOf, Upstream.State;
    outcome := Try(candidates[i], a, end);
  }

  lemma {:induction false} EndOfNext(attempts: seq<Attempt>, start: int, i: nat)
    requires i < |attempts|
    ensures EndOf(attempts, start, 0) == start
    ensures EndOf(attempts, start, i + 1) == EndOf(attempts, start, i) + Duration(attempts[i])
  {
  }

  lemma {:induction false} NoneRecorded(candidates: seq<Upstream>, before: seq<Health>, attempts: seq<Attempt>,
                                        start: int)
    requires |candidates| == |before| == |attempts|
    ensures RecordedUpTo(candidates, before, before, attempts, start, 0) && EndOf(attempts, start, 0) == start
  {
  }

  lemma {:induction false} RecordedNext(candidates: seq<Upstream>, before: seq<Health>, mid: seq<Health>,
                                        attempts: seq<Attempt>, start: int, i: nat)
    requires |candidates| == |before| == |mid| == |attempts| && i < |candidates|
    requires RecordedUpTo(candidates, before, mid, attempts, start, i)
    ensures var next := Recorded(candidates[i].config, mid[i], attempts[i], EndOf(attempts, start, i + 1));
      RecordedUpTo(candidates, before, mid[i := next], attempts, start, i + 1)
  {
    hide Recorded, EndOf;
  }

  /** connectUpstream over proxy candidates; attempt i is what candidate i would meet. */
  method ConnectUpstream(candidates: seq<Upstream>, attempts: seq<Attempt>, start: int, total: int)
    returns (r: Search)
    requires |candidates| == |attempts|
    requires forall i, j :: 0 <= i < j < |candidates| ==> candidates[i] != candidates[j]
    modifies candidates
    ensures r == SearchFrom(attempts, start, start + total) && |r.tried| <= |candidates|
    ensures RecordedUpTo(candidates, old(States(candidates)), States(candidates), attempts, start, |r.tried|)
  {
    hide Recorded, OutcomeOf, Duration, Upstream.State, SearchFrom, RecordedUpTo, EndOf;
    var deadline := start + total;
    var now := start;
    var tried: seq<Outcome> := [];
    var i: nat := 0;
    ghost var before := States(candidates);
    assert attempts[0..] == attempts;
    NoneRecorded(candidates, before, attempts, start);
    Prepended([], SearchFrom(attempts, start, deadline));
    while i < |candidates|
      invariant i <= |candidates| && |tried| == i && now == EndOf(attempts, start, i)
      invariant SearchFrom(attempts, start, deadline) == After(tried, SearchFrom(attempts[i..], now, deadline))
      invariant RecordedUpTo(candidates, before, States(candidates), attempts, start, i)
    {
      var budget := RemainingBudget(deadline, now);
      if budget <= 0 { break; }
      var a := attempts[i];
      SearchStep(attempts, i, now, deadline);
      now := now + Duration(a);
      EndOfNext(attempts, start, i);
      ghost var mid := States(candidates);
      var outcome := TryCandidate(candidates, i, a, now);
      RecordedNext(candidates, before, mid, attempts, start, i);
      AfterNext(tried, outcome, SearchFrom(attempts[i + 1..], now, deadline));
      tried := tried + [outcome];
      i := i + 1;
      if outcome.Forwarded? {
        assert After(tried[..i - 1], Search(now, [Forwarded], true)).tried == tried;
        return Search(now, tried, true);
      }
    }
    SearchStop(attempts[i..], now, deadline);
    Prepended(tried, SearchFrom(attempts[i..], now, deadline));
    return Search(now, tried, false);
  }

  lemma {:induction false} SearchStop(attempts: seq<Attempt>, now: int, deadline: int)
    requires attempts == [] || RemainingBudget(deadline, now) <= 0
    ensures SearchFrom(attempts, now, deadline) == Search(now, [], false)
  {
  }

  lemma {:induction false} SearchStep(attempts: seq<Attempt>, i: nat, now: int, deadline: int)
    requires i < |attempts| && RemainingBudget(deadline, now) > 0
    ensures var a := attempts[i];
      var rest := SearchFrom(attempts[i + 1..], now + Duration(a), deadline);
      SearchFrom(attempts[i..], now, deadline) ==
        if OutcomeOf(a) == Forwarded then Search(now + Duration(a), [Forwarded], true)
        else Search(rest.end, [OutcomeOf(a)] + rest.tried, rest.found)
  {
    assert attempts[i..][0] == attempts[i] && attempts[i..][1..] == attempts[i + 1..];
  }

  function After(tried: seq<Outcome>, rest: Search): Search {
    Search(rest.end, tried + rest.tried, rest.found)
  }

  lemma {:induction false} Prepended(tried: seq<Outcome>, s: Search)
    ensures After([], s) == s
    ensures s.tried == [] ==> After(tried, s).tried == tried
  {
    assert [] + s.tried == s.tried;
    assert tried + [] == tried;
  }

  lemma {:induction false} AfterNext(tried: seq<Outcome>, o: Outcome, rest: Search)
    ensures After(tried, Search(rest.end, [o] + rest.tried, rest.found)) == After(tried + [o], rest)
    ensures tried + [o] == After(tried, Search(rest.end, [o], true)).tried
  {
    assert tried + ([o] + rest.tried) == tried + [o] + rest.tried;
  }

  // ---------------------------------------------------------------- what a search promises

  /** The candidates are tried in order, each once; the search stops at the first that forwards, and
      otherwise only when none is left or the deadline has passed. */
  lemma {:induction false} FirstForwarderWins(attempts: seq<Attempt>, now: int, deadline: int)
    ensures var s := SearchFrom(attempts, now, deadline);
      && |s.tried| <= |attempts|
      && (forall i :: 0 <= i < |s.tried| ==> s.tried[i] == OutcomeOf(attempts[i]))
      && (s.found <==> Forwarded in s.tried)
      && (forall i :: 0 <= i < |s.tried| - 1 ==> s.tried[i] != Forwarded)
      && (s.found ==> s.tried[|s.tried| - 1] == Forwarded)
      && (!s.found && |s.tried| < |attempts| ==> s.end >= deadline)
  {
    if attempts != [] && RemainingBudget(deadline, now) > 0 {
      FirstForwarderWins(attempts[1..], now + Duration(attempts[0]), deadline);
    }
  }

  /** Whatever the upstreams do and however many there are, the search ends within the configured
      total plus one connect timeout plus the shorter of connect timeout and handshake wait. */
  lemma {:induction false} SearchBound(attempts: seq<Attempt>, now: int, deadline: int, idle: int)
    requires idle >= 0 && now <= deadline && AdmissibleRun(attempts, now, deadline, idle)
    ensures SearchFrom(attempts, now, deadline).end <= deadline + CONNECT_TIMEOUT + Min(CONNECT_TIMEOUT, idle)
  {
    if attempts != [] && RemainingBudget(deadline, now) > 0 {
      var a := attempts[0];
      var next := now + Duration(a);
      assert next <= deadline + CONNECT_TIMEOUT + Min(CONNECT_TIMEOUT, idle);
      if OutcomeOf(a) != Forwarded {
        if next <= deadline { SearchBound(attempts[1..], next, deadline, idle); }
      }
    }
  }

  function DialFails(time: int): Attempt {
    Attempt(Phase(time, false), Phase(0, false), false, Phase(0, false), 0)
  }

  /** Failing dials that use up a given time. */
  function Wasted(time: int): seq<Attempt>
    decreases time
  {
    if time <= 0 then [] else if time <= CONNECT_TIMEOUT then [DialFails(time)]
    else [DialFails(CONNECT_TIMEOUT)] + Wasted(time - CONNECT_TIMEOUT)
  }

  lemma {:induction false} DialFailsLasts(time: int, budget: int, idle: int)
    requires 0 <= time <= CONNECT_TIMEOUT && time <= budget
    ensures Admissible(DialFails(time), budget, idle) && OutcomeOf(DialFails(time)) == ConnectFailed
    ensures Duration(DialFails(time)) == time
  {
  }

  /** An attempt that fails hands the search on to the rest at the time it ends. */
  lemma {:induction false} FailedStep(a: Attempt, rest: seq<Attempt>, now: int, deadline: int, idle: int)
    requires now < deadline && OutcomeOf(a) != Forwarded && Admissible(a, deadline - now, idle)
    ensures AdmissibleRun([a] + rest, now, deadline, idle) == AdmissibleRun(rest, now + Duration(a), deadline, idle)
    ensures SearchFrom([a] + rest, now, deadline).end == SearchFrom(rest, now + Duration(a), deadline).end
  {
    hide Admissible, Duration, OutcomeOf;
    var all := [a] + rest;
    assert all[0] == a && all[1..] == rest;
  }

  lemma {:induction false} WastedThen(time: int, last: Attempt, now: int, deadline: int, idle: int)
    requires 0 <= time && now + time + CONNECT_TIMEOUT == deadline && OutcomeOf(last) == HandshakeIdle
    requires Admissible(last, CONNECT_TIMEOUT, idle)
    ensures AdmissibleRun(Wasted(time) + [last], now, deadline, idle)
    ensures SearchFrom(Wasted(time) + [last], now, deadline).end == now + time + Duration(last)
    decreases time
  {
    hide Admissible, AdmissibleRun, SearchFrom, Duration, OutcomeOf, DialFails;
    if time == 0 {
      var none: seq<Attempt> := [];
      assert Wasted(time) + [last] == [last] + none;
      FailedStep(last, none, now, deadline, idle);
      NothingLeft(now + Duration(last), deadline, idle);
    } else {
      var first := if time <= CONNECT_TIMEOUT then time else CONNECT_TIMEOUT;
      var rest := Wasted(time - first) + [last];
      assert Wasted(time) + [last] == [DialFails(first)] + rest;
      WastedThen(time - first, last, now + first, deadline, idle);
      DialFailsLasts(first, deadline - now, idle);
      FailedStep(DialFails(first), rest, now, deadline, idle);
    }
  }

  lemma {:induction false} NothingLeft(now: int, deadline: int, idle: int)
    ensures AdmissibleRun([], now, deadline, idle) && SearchFrom([], now, deadline).end == now
  {
  }

  predicate ReachesBound(attempts: seq<Attempt>, start: int, total: int, idle: int) {
    && AdmissibleRun(attempts, start, start + total, idle)
    && SearchFrom(attempts, start, start + total).end
       == start + total + CONNECT_TIMEOUT + Min(CONNECT_TIMEOUT, idle)
  }

  /** No smaller bound holds: for every total of at least one connect timeout there are upstreams that
      keep the search running to exactly that bound, so the configured total is not a deadline. */
  lemma {:induction false} SearchBoundIsReached(start: int, total: int, idle: int)
    requires idle >= 0 && total >= CONNECT_TIMEOUT
    ensures exists attempts: seq<Attempt> :: ReachesBound(attempts, start, total, idle)
  {
    var last := Attempt(Phase(CONNECT_TIMEOUT, true), Phase(CONNECT_TIMEOUT, true), true,
                        Phase(Min(CONNECT_TIMEOUT, idle), false), 0);
    WastedThen(total - CONNECT_TIMEOUT, last, start, start + total, idle);
    var attempts := Wasted(total - CONNECT_TIMEOUT) + [last];
    assert ReachesBound(attempts, start, total, idle);
  }

  // ---------------------------------------------------------------- when the total is a deadline

  /** The longest one candidate can hold the search: a full dial, a full reply and a full handshake wait. */
  function FullAttempt(idle: int): int { 2 * CONNECT_TIMEOUT + idle }

  predicate EndsInTime(attempts: seq<Attempt>, now: int, deadline: int, idle: int) {
    AdmissibleRun(attempts, now, deadline, idle) ==> SearchFrom(attempts, now, deadline).end <= deadline
  }

  lemma {:induction false} EachAddsAtMostOne(attempts: seq<Attempt>, now: int, deadline: int, idle: int)
    requires idle >= 0 && AdmissibleRun(attempts, now, deadline, idle)
    ensures SearchFrom(attempts, now, deadline).end <= now + |attempts| * FullAttempt(idle)
  {
    if attempts != [] {
      var m, k := FullAttempt(idle), |attempts| - 1;
      assert |attempts| * m == k * m + m && k * m >= 0;
      if RemainingBudget(deadline, now) > 0 && OutcomeOf(attempts[0]) != Forwarded {
        EachAddsAtMostOne(attempts[1..], now + Duration(attempts[0]), deadline, idle);
      }
    }
  }

  /** A candidate that answers everything as late as the budget allows, and then does not forward. */
  function Stall(budget: int, idle: int): Attempt {
    var wait := Min(CONNECT_TIMEOUT, budget);
    Attempt(Phase(wait, true), Phase(wait, true), true, Phase(Min(idle, budget), false), 0)
  }

  /** n candidates that waste the budget: full stalls while more than one fits, and at a remainder of
      exactly one a failing dial of a nanosecond, so that the last stall does not fit. */
  function Overrun(n: nat, budget: int, idle: int): (r: seq<Attempt>)
    ensures |r| == n
  {
    if n == 0 then []
    else if budget == FullAttempt(idle) then [DialFails(1)] + Overrun(n - 1, budget - 1, idle)
    else [Stall(budget, idle)] + Overrun(n - 1, budget - FullAttempt(idle), idle)
  }

  lemma {:induction false} LateStep(a: Attempt, rest: seq<Attempt>, now: int, deadline: int, idle: int)
    requires now < deadline && OutcomeOf(a) != Forwarded && Admissible(a, deadline - now, idle)
    requires now + Duration(a) > deadline || !EndsInTime(rest, now + Duration(a), deadline, idle)
    ensures !EndsInTime([a] + rest, now, deadline, idle)
  {
    hide Admissible, Duration, OutcomeOf;
    FailedStep(a, rest, now, deadline, idle);
    if now + Duration(a) > deadline { SearchStop(rest, now + Duration(a), deadline); }
  }

  lemma {:induction false} FewerFit(n: nat, m: int, budget: int)
    requires 1 < m && 0 < budget < n * m
    ensures n > 0 && budget - m < (n - 1) * m
    ensures budget == m ==> budget - 1 < (n - 1) * m
  {
    assert n * m == (n - 1) * m + m;
    if n == 1 {
      assert (n - 1) * m == 0;
    } else {
      assert (n - 1) * m == (n - 2) * m + m && (n - 2) * m >= 0;
    }
  }

  lemma {:induction false} OverrunEndsLate(n: nat, now: int, budget: int, idle: int)
    requires idle >= 0 && 0 < budget < n * FullAttempt(idle)
    ensures !EndsInTime(Overrun(n, budget, idle), now, now + budget, idle)
  {
    hide EndsInTime, Admissible, FullAttempt, Stall, DialFails;
    var m := FullAttempt(idle);
    FullLength(idle);
    FewerFit(n, m, budget);
    if budget == m {
      OverrunEndsLate(n - 1, now + 1, budget - 1, idle);
      DialFailsLasts(1, budget, idle);
      LateStep(DialFails(1), Overrun(n - 1, budget - 1, idle), now, now + budget, idle);
    } else {
      if budget > m { OverrunEndsLate(n - 1, now + m, budget - m, idle); }
      StallLength(budget, idle);
      LateStep(Stall(budget, idle), Overrun(n - 1, budget - m, idle), now, now + budget, idle);
    }
  }

  lemma {:induction false} FullLength(idle: int)
    ensures FullAttempt(idle) == 2 * CONNECT_TIMEOUT + idle
  {
  }

  /** A stall fills a budget of a full attempt or more by a full attempt, and overruns a smaller one. */
  lemma {:induction false} StallLength(budget: int, idle: int)
    requires budget > 0 && idle >= 0
    ensures Admissible(Stall(budget, idle), budget, idle) && OutcomeOf(Stall(budget, idle)) == HandshakeIdle
    ensures budget >= FullAttempt(idle) ==> Duration(Stall(budget, idle)) == FullAttempt(idle)
    ensures budget < FullAttempt(idle) ==> Duration(Stall(budget, idle)) > budget
  {
  }

  /** The configured total is a deadline for a search over n candidates exactly when it covers n full
      attempts: otherwise some behaviour of the candidates makes the search end later. */
  lemma {:induction false} EndsInTimeIff(n: nat, start: int, total: int, idle: int)
    requires idle >= 0 && total > 0
    ensures (forall attempts: seq<Attempt> :: |attempts| == n ==> EndsInTime(attempts, start, start + total, idle)) <==>
      n * FullAttempt(idle) <= total
  {
    if n * FullAttempt(idle) <= total {
      forall attempts: seq<Attempt> | |attempts| == n ensures EndsInTime(attempts, start, start + total, idle) {
        if AdmissibleRun(attempts, start, start + total, idle) {
          EachAddsAtMostOne(attempts, start, start + total, idle);
        }
      }
    } else {
      OverrunEndsLate(n, start, total, idle);
    }
  }

  // ---------------------------------------------------------------- the first candidate

  /** The attempt keeps to the waits of the configuration, whatever the budget. */
  predicate WithinWaits(a: Attempt, idle: int) {
    && 0 <= a.dial.time <= CONNECT_TIMEOUT
    && (a.dial.ok ==> 0 <= a.reply.time <= CONNECT_TIMEOUT)
    && (a.dial.ok && a.reply.ok && a.writeOk ==> 0 <= a.forward.time <= idle)
  }

  /** The budget cuts no wait of the first candidate exactly when the total is at least as long as the
      longer of the two waits. */
  lemma {:induction false} FirstAttemptWholeIff(total: int, idle: int)
    requires total > 0 && idle >= 0
    ensures (forall a :: WithinWaits(a, idle) ==> Admissible(a, total, idle)) <==>
      CONNECT_TIMEOUT <= total && idle <= total
    ensures Min(idle, RemainingBudget(total, 0)) == idle <==> idle <= total
  {
    var slow := Attempt(Phase(CONNECT_TIMEOUT, true), Phase(CONNECT_TIMEOUT, true), true, Phase(idle, true), 0);
    assert WithinWaits(slow, idle);
  }

  /** With the floor on the total, a first candidate that forwards within the configured waits, however
      late in each of them, wins the search. */
  lemma {:induction false} FirstCandidateServed(attempts: seq<Attempt>, start: int, total: int, idle: int)
    requires idle > 0 && attempts != [] && WithinWaits(attempts[0], idle)
    requires HasTunnel(attempts[0]) && attempts[0].forward.ok
    ensures var deadline := start + Max(total, idle + CONNECT_TIMEOUT);
      && FloorTotal(total, idle) == Max(total, idle + CONNECT_TIMEOUT)
      && AdmissibleRun(attempts, start, deadline, idle)
      && SearchFrom(attempts, start, deadline) == Search(
           start + attempts[0].dial.time + attempts[0].reply.time + attempts[0].forward.time, [Forwarded], true)
      && RemainingBudget(deadline, start + attempts[0].dial.time) >= idle
  {
    FirstAttemptWholeIff(FloorTotal(total, idle), idle);
  }
}
