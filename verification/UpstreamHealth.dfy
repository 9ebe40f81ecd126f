/** The health of one proxy upstream of the SNI edge: the quarantine with capped exponential growth,
    and the separate streak of liveness probes. Each method is one critical section, or two
    where the source takes the lock twice. Times and durations are nanoseconds. */
module UpstreamHealth {
  import opened Numbers

  /** The configuration the source reads once at start. */
  datatype Config = Config(failThreshold: int, probeThreshold: int, initial: int, max: int)

  datatype Health = Health(consecFails: int, consecOKs: int, cooldownUntil: int, cooldownCur: int,
                           successes: int, connectFails: int, handshakeIdles: int, stallBytes: int,
                           probeOK: int, probeFails: int, consecProbeFails: int)

  const FRESH := Health(0, 0, 0, 0, 0, 0, 0, 0, 0, 0, 0)

  function Doubled(c: Config, cur: int): int {
    if cur < c.max then (if cur * 2 > c.max then c.max else cur * 2) else cur
  }

  function MarkFailure(c: Config, h: Health, now: int): Health {
    var cur := if h.cooldownCur <= 0 then c.initial else h.cooldownCur;
    var marked := h.(consecFails := h.consecFails + 1, consecOKs := 0, cooldownCur := cur);
    if marked.consecFails >= c.failThreshold
    then marked.(cooldownUntil := now + cur, cooldownCur := Doubled(c, cur))
    else marked
  }

  function RecordSuccess(c: Config, h: Health): Health {
    h.(consecFails := 0, consecOKs := h.consecOKs + 1, successes := h.successes + 1,
       cooldownUntil := 0, cooldownCur := c.initial)
  }

  function RecordProbeOK(h: Health): Health {
    h.(probeOK := h.probeOK + 1, consecProbeFails := 0)
  }

  function CountProbeFail(h: Health): Health {
    h.(probeFails := h.probeFails + 1, consecProbeFails := h.consecProbeFails + 1)
  }

  predicate Tripped(c: Config, h: Health) {
    c.probeThreshold > 0 && h.consecProbeFails >= c.probeThreshold
  }

  predicate Quarantined(h: Health, now: int) { now < h.cooldownUntil }

  class Upstream {
    const config: Config
    var consecFails: int
    var consecOKs: int
    var cooldownUntil: int
    var cooldownCur: int
    var successes: int
    var connectFails: int
    var handshakeIdles: int
    var stallBytes: int
    var probeOK: int
    var probeFails: int
    var consecProbeFails: int

    function State(): Health
      reads this
    {
      Health(consecFails, consecOKs, cooldownUntil, cooldownCur, successes, connectFails, handshakeIdles,
             stallBytes, probeOK, probeFails, consecProbeFails)
    }

    constructor (config: Config)
      ensures State() == FRESH && this.config == config
    {
      this.config := config;
      consecFails, consecOKs, cooldownUntil, cooldownCur := 0, 0, 0, 0;
      successes, connectFails, handshakeIdles, stallBytes := 0, 0, 0, 0;
      probeOK, probeFails, consecProbeFails := 0, 0, 0;
    }

    method MarkFailureNow(now: int)
      modifies this
      ensures State() == MarkFailure(config, old(State()), now)
    {
      consecFails := consecFails + 1;
      consecOKs := 0;
      if cooldownCur <= 0 { cooldownCur := config.initial; }
      if consecFails >= config.failThreshold {
        cooldownUntil := now + cooldownCur;
        if cooldownCur < config.max {
          cooldownCur := cooldownCur * 2;
          if cooldownCur > config.max { cooldownCur := config.max; }
        }
      }
    }

    method RecordConnectFailure(now: int)
      modifies this
      ensures State() == MarkFailure(config, old(State()).(connectFails := old(connectFails) + 1), now)
    {
      connectFails := connectFails + 1;
      MarkFailureNow(now);
    }

    method RecordHandshakeIdle(received: int, now: int)
      modifies this
      ensures State() == MarkFailure(config,
        old(State()).(handshakeIdles := old(handshakeIdles) + 1, stallBytes := old(stallBytes) + received), now)
    {
      handshakeIdles := handshakeIdles + 1;
      stallBytes := stallBytes + received;
      MarkFailureNow(now);
    }

    method RecordSuccessNow()
      modifies this
      ensures State() == RecordSuccess(config, old(State()))
    {
      consecFails := 0;
      consecOKs := consecOKs + 1;
      successes := successes + 1;
      cooldownUntil := 0;
      cooldownCur := config.initial;
    }

    method RecordProbeSuccess()
      modifies this
      ensures State() == RecordProbeOK(old(State()))
    {
      probeOK := probeOK + 1;
      consecProbeFails := 0;
    }

    /** The first section of recordProbeFail. If it trips, markFailure follows in a section of its own. */
    method RecordProbeFailure() returns (tripped: bool)
      modifies this
      ensures State() == CountProbeFail(old(State())) && tripped == Tripped(config, State())
    {
      probeFails := probeFails + 1;
      consecProbeFails := consecProbeFails + 1;
      tripped := config.probeThreshold > 0 && consecProbeFails >= config.probeThreshold;
    }

    method CooldownLeft(now: int) returns (left: int)
      ensures left == (if Quarantined(State(), now) then cooldownUntil - now else 0) && left >= 0
    {
      if now >= cooldownUntil { return 0; }
      return cooldownUntil - now;
    }
  }

  // ---------------------------------------------------------------- runs

  /** A step of any caller. Mark is markFailure, on behalf of traffic or of a probe streak. */
  datatype Event = Mark(now: int, byProbe: bool) | Success | ProbeOK | ProbeFail

  function Step(c: Config, h: Health, e: Event): Health {
    match e
    case Mark(now, _) => MarkFailure(c, h, now)
    case Success => RecordSuccess(c, h)
    case ProbeOK => RecordProbeOK(h)
    case ProbeFail => CountProbeFail(h)
  }

  function After(c: Config, h: Health, events: seq<Event>): Health
    decreases |events|
  {
    if events == [] then h else Step(c, After(c, h, events[..|events| - 1]), events[|events| - 1])
  }

  /** How many failures were marked since the last success. */
  function FailuresSinceSuccess(events: seq<Event>): nat
    decreases |events|
  {
    if events == [] then 0
    else
      match events[|events| - 1]
      case Mark(_, _) => FailuresSinceSuccess(events[..|events| - 1]) + 1
      case Success => 0
      case _ => FailuresSinceSuccess(events[..|events| - 1])
  }

  /** initial * 2^k, capped: the documented length of a quarantine, written without the loop. */
  function Power2(k: nat): (r: nat)
    ensures r >= 1
  {
    if k == 0 then 1 else 2 * Power2(k - 1)
  }

  /** A failure quarantines from this many on; a configured threshold below one works as one. */
  function Threshold(c: Config): nat { Max(c.failThreshold, 1) }

  /** The documented cap, or the initial length when that is configured longer. */
  function Cap(c: Config): int { Max(c.initial, c.max) }

  /** The length of the quarantine that the next failure after j of them sets, if it sets one. An initial
      length of zero or less is never doubled. */
  function NextQuarantine(c: Config, j: nat): int {
    if c.initial <= 0 then c.initial
    else Min(c.initial * Power2(if j + 1 <= Threshold(c) then 0 else j + 1 - Threshold(c)), Cap(c))
  }

  lemma {:induction false} DoublingIsCapped(c: Config, k: nat)
    requires c.initial > 0
    ensures Doubled(c, Min(c.initial * Power2(k), Cap(c))) == Min(c.initial * Power2(k + 1), Cap(c))
  {
    var x := c.initial * Power2(k);
    assert c.initial * Power2(k + 1) == 2 * x;
    assert x >= c.initial by { MultiplyUp(c.initial, Power2(k)); }
  }

  lemma {:induction false} MultiplyUp(a: int, b: int)
    requires a > 0 && b >= 1
    ensures a * b >= a
  {
    assert a * b == a + a * (b - 1);
    assert a * (b - 1) >= 0;
  }

  /** The length markFailure would use next: a stored one of zero or less stands for the initial one. */
  function NextLength(c: Config, h: Health): int { if h.cooldownCur <= 0 then c.initial else h.cooldownCur }

  /** The lengths by recursion, as the code computes them. */
  lemma {:induction false} LengthsStep(c: Config, j: nat)
    ensures NextQuarantine(c, 0) == c.initial
    ensures NextQuarantine(c, j + 1) ==
      if c.initial > 0 && j + 1 >= Threshold(c) then Doubled(c, NextQuarantine(c, j)) else NextQuarantine(c, j)
    ensures c.initial > 0 ==> NextQuarantine(c, j) > 0
  {
    assert Power2(0) == 1;
    NextQuarantineGrows(c, j);
    if c.initial > 0 && j + 1 >= Threshold(c) { DoublingIsCapped(c, j + 1 - Threshold(c)); }
  }

  predicate Reflects(c: Config, h: Health, j: nat) {
    && h.consecFails == j && NextLength(c, h) == NextQuarantine(c, j)
    && (c.initial > 0 ==> h.cooldownCur == NextQuarantine(c, j) || (j == 0 && h.cooldownCur == 0))
    && (c.initial <= 0 ==> h.cooldownCur <= 0)
  }

  lemma {:induction false} MarkReflects(c: Config, h: Health, j: nat, now: int)
    requires Reflects(c, h, j)
    ensures Reflects(c, MarkFailure(c, h, now), j + 1)
  {
    hide NextQuarantine;
    LengthsStep(c, j);
  }

  /** Under every configuration: consecFails counts the failures since the last success, and the stored
      state gives the length of the quarantine the next failure would set (with a positive initial
      length, cooldownCur is it, but for an upstream that never failed or succeeded). */
  lemma {:induction false} StreakAndCooldown(c: Config, events: seq<Event>)
    ensures Reflects(c, After(c, FRESH, events), FailuresSinceSuccess(events))
    decreases |events|
  {
    hide NextQuarantine;
    LengthsStep(c, 0);
    if events != [] {
      var front, e := events[..|events| - 1], events[|events| - 1];
      StreakAndCooldown(c, front);
      if e.Mark? { MarkReflects(c, After(c, FRESH, front), FailuresSinceSuccess(front), e.now); }
    }
  }

  /** The j-th failure since the last success, for j at least the threshold T, quarantines the upstream for
      exactly min(initial * 2^(j - T), cap), and for the initial length if that is not positive; an
      earlier one changes no quarantine. */
  lemma {:induction false} QuarantineOfFailure(c: Config, events: seq<Event>, now: int, byProbe: bool)
    ensures var before, h := After(c, FRESH, events), After(c, FRESH, events + [Mark(now, byProbe)]);
      var j := FailuresSinceSuccess(events) + 1;
      h.cooldownUntil ==
        if j < Threshold(c) then before.cooldownUntil
        else if c.initial <= 0 then now + c.initial
        else now + Min(c.initial * Power2(j - Threshold(c)), Cap(c))
  {
    StreakAndCooldown(c, events);
    assert (events + [Mark(now, byProbe)])[..|events|] == events;
    assert Power2(0) == 1;
  }

  /** When the quarantine of a run ends: a failure that reaches the threshold sets it, a success lifts it. */
  function QuarantineEnd(c: Config, events: seq<Event>): int
    decreases |events|
  {
    if events == [] then 0 else
    var front, e := events[..|events| - 1], events[|events| - 1];
    var j := FailuresSinceSuccess(front) + 1;
    if e.Success? then 0
    else if !e.Mark? || j < Threshold(c) then QuarantineEnd(c, front)
    else e.now + if c.initial <= 0 then c.initial else Min(c.initial * Power2(j - Threshold(c)), Cap(c))
  }

  /** Successes since the last failure. */
  function SuccessesSinceFailure(events: seq<Event>): nat
    decreases |events|
  {
    if events == [] then 0
    else
      match events[|events| - 1]
      case Mark(_, _) => 0
      case Success => SuccessesSinceFailure(events[..|events| - 1]) + 1
      case _ => SuccessesSinceFailure(events[..|events| - 1])
  }

  lemma {:induction false} CountersOfRun(c: Config, events: seq<Event>)
    ensures var h := After(c, FRESH, events);
      && h.consecOKs == SuccessesSinceFailure(events)
      && h.successes == multiset(events)[Success] && h.probeOK == multiset(events)[ProbeOK]
      && h.probeFails == multiset(events)[ProbeFail] && h.consecProbeFails == ProbeStreak(events)
      && h.connectFails == 0 && h.handshakeIdles == 0 && h.stallBytes == 0
    decreases |events|
  {
    if events != [] {
      CountersOfRun(c, events[..|events| - 1]);
      assert events == events[..|events| - 1] + [events[|events| - 1]];
    }
  }

  lemma {:induction false} QuarantineOfRun(c: Config, events: seq<Event>)
    ensures After(c, FRESH, events).cooldownUntil == QuarantineEnd(c, events)
    decreases |events|
  {
    hide Power2, Cap, Threshold;
    if events != [] {
      var front, e := events[..|events| - 1], events[|events| - 1];
      QuarantineOfRun(c, front);
      assert events == front + [e];
      if e.Mark? {
        QuarantineOfFailure(c, front, e.now, e.byProbe);
        hide MarkFailure;
      }
    }
  }

  /** The whole state after any run, field by field: an upstream is out of rotation exactly before the end of the
      quarantine, and each counter counts its own events. */
  lemma {:induction false} StateOfRun(c: Config, events: seq<Event>)
    ensures var h := After(c, FRESH, events);
      && h.consecFails == FailuresSinceSuccess(events) && h.consecOKs == SuccessesSinceFailure(events)
      && h.cooldownUntil == QuarantineEnd(c, events)
      && (forall now :: Quarantined(h, now) <==> now < QuarantineEnd(c, events))
      && (Tripped(c, h) <==> c.probeThreshold > 0 && ProbeStreak(events) >= c.probeThreshold)
      && h.successes == multiset(events)[Success] && h.probeOK == multiset(events)[ProbeOK]
      && h.probeFails == multiset(events)[ProbeFail] && h.consecProbeFails == ProbeStreak(events)
      && h.connectFails == 0 && h.handshakeIdles == 0 && h.stallBytes == 0
  {
    hide After, QuarantineEnd, NextQuarantine, NextLength;
    StreakAndCooldown(c, events);
    QuarantineOfRun(c, events);
    CountersOfRun(c, events);
  }

  /** A quarantine exceeds the configured maximum exactly when the initial length does, and is then that. */
  lemma {:induction false} LongerThanMaxIff(c: Config)
    ensures (exists j :: NextQuarantine(c, j) > c.max) <==> c.initial > c.max
    ensures c.initial > c.max ==> forall j :: NextQuarantine(c, j) == c.initial
  {
    forall j ensures c.initial <= NextQuarantine(c, j) <= Cap(c) { NextQuarantineGrows(c, j); }
    assert c.initial <= NextQuarantine(c, 0) <= Cap(c);
  }

  /** The marks of the run are in the order of the clock, up to `latest`; the clock starts far enough from
      its zero for a quarantine of negative length not to end before it. */
  predicate Ordered(c: Config, events: seq<Event>, latest: int)
    decreases |events|
  {
    if events == [] then 0 <= latest && 0 <= latest + c.initial else
    var e := events[|events| - 1];
    if e.Mark? then e.now <= latest && Ordered(c, events[..|events| - 1], e.now)
    else Ordered(c, events[..|events| - 1], latest)
  }

  lemma {:induction false} NextQuarantineGrows(c: Config, j: nat)
    ensures NextQuarantine(c, j) <= NextQuarantine(c, j + 1)
    ensures c.initial <= NextQuarantine(c, j) && (c.initial > 0 ==> NextQuarantine(c, j) <= Cap(c))
  {
    if c.initial > 0 {
      var k := if j + 1 <= Threshold(c) then 0 else j + 1 - Threshold(c);
      var x := c.initial * Power2(k);
      MultiplyUp(c.initial, Power2(k));
      assert c.initial * Power2(k + 1) == 2 * x;
    }
  }

  lemma {:induction false} QuarantineBound(c: Config, events: seq<Event>, latest: int)
    requires Ordered(c, events, latest)
    ensures 0 <= latest && 0 <= latest + c.initial
    ensures After(c, FRESH, events).cooldownUntil <= latest + NextQuarantine(c, FailuresSinceSuccess(events))
    decreases |events|
  {
    var j := FailuresSinceSuccess(events);
    NextQuarantineGrows(c, j);
    if events != [] {
      var front, e := events[..|events| - 1], events[|events| - 1];
      var i := FailuresSinceSuccess(front);
      StreakAndCooldown(c, front);
      NextQuarantineGrows(c, i);
      QuarantineBound(c, front, if e.Mark? then e.now else latest);
    }
  }

  /** Until a success ends it, a quarantine never moves to an earlier end. */
  lemma {:induction false} QuarantineNeverShrinks(c: Config, events: seq<Event>, e: Event, latest: int)
    requires Ordered(c, events + [e], latest) && !e.Success?
    ensures After(c, FRESH, events + [e]).cooldownUntil >= After(c, FRESH, events).cooldownUntil
  {
    assert (events + [e])[..|events|] == events;
    if e.Mark? {
      StreakAndCooldown(c, events);
      QuarantineBound(c, events, e.now);
    }
  }

  // ---------------------------------------------------------------- probes and traffic are separate

  /** Probe failures since the last probe success. */
  function ProbeStreak(events: seq<Event>): nat
    decreases |events|
  {
    if events == [] then 0
    else
      match events[|events| - 1]
      case ProbeOK => 0
      case ProbeFail => ProbeStreak(events[..|events| - 1]) + 1
      case _ => ProbeStreak(events[..|events| - 1])
  }

  lemma {:induction false} StreakIsCounted(c: Config, events: seq<Event>)
    ensures After(c, FRESH, events).consecProbeFails == ProbeStreak(events)
    decreases |events|
  {
    if events != [] { StreakIsCounted(c, events[..|events| - 1]); }
  }

  /** Probe failures that tripped and whose markFailure has not run yet. */
  function Owed(c: Config, events: seq<Event>): int
    decreases |events|
  {
    if events == [] then 0 else
    var before, e := Owed(c, events[..|events| - 1]), events[|events| - 1];
    if e.ProbeFail? && Tripped(c, After(c, FRESH, events)) then before + 1
    else if e.Mark? && e.byProbe then before - 1
    else before
  }

  /** A failure is marked on behalf of probes only when a tripped probe failure owes it. */
  predicate Legal(c: Config, events: seq<Event>)
    decreases |events|
  {
    events == [] ||
    (Legal(c, events[..|events| - 1])
     && (events[|events| - 1].Mark? && events[|events| - 1].byProbe ==> Owed(c, events[..|events| - 1]) > 0))
  }

  predicate IsTraffic(e: Event) { e.Success? || (e.Mark? && !e.byProbe) }

  function Erased(events: seq<Event>): seq<Event>
    decreases |events|
  {
    if events == [] then [] else
    Erased(events[..|events| - 1]) + (if IsTraffic(events[|events| - 1]) then [events[|events| - 1]] else [])
  }

  predicate SameQuarantine(g: Health, h: Health) {
    g.consecFails == h.consecFails && g.cooldownUntil == h.cooldownUntil && g.cooldownCur == h.cooldownCur
  }

  /** At every point of the run, erasing all probe events leaves the quarantine state as it is. */
  predicate ProbesInvisible(c: Config, events: seq<Event>)
    decreases |events|
  {
    SameQuarantine(After(c, FRESH, events), After(c, FRESH, Erased(events)))
    && (events == [] || ProbesInvisible(c, events[..|events| - 1]))
  }

  predicate NoProbeMarks(events: seq<Event>) {
    events == [] ||
    (NoProbeMarks(events[..|events| - 1]) && !(events[|events| - 1].Mark? && events[|events| - 1].byProbe))
  }

  lemma {:induction false} AfterAppend(c: Config, events: seq<Event>, e: Event)
    ensures After(c, FRESH, events + [e]) == Step(c, After(c, FRESH, events), e)
  {
    assert (events + [e])[..|events|] == events;
  }

  /** Probes touch the quarantine exactly when a failure is marked on their behalf. */
  lemma {:induction false} ProbesInvisibleIff(c: Config, events: seq<Event>)
    ensures ProbesInvisible(c, events) <==> NoProbeMarks(events)
    decreases |events|
  {
    if events != [] {
      var front, e := events[..|events| - 1], events[|events| - 1];
      ProbesInvisibleIff(c, front);
      if IsTraffic(e) {
        AfterAppend(c, Erased(front), e);
      } else {
        assert Erased(front) + [] == Erased(front);
      }
    }
  }

  /** Every streak of probe failures stays below the probe threshold (a threshold of zero or less
      switches the escalation off). */
  predicate StreaksBelow(c: Config, events: seq<Event>)
    decreases |events|
  {
    events == [] ||
    (StreaksBelow(c, events[..|events| - 1]) && (c.probeThreshold <= 0 || ProbeStreak(events) < c.probeThreshold))
  }

  lemma {:induction false} NothingOwed(c: Config, events: seq<Event>)
    requires Legal(c, events) && StreaksBelow(c, events)
    ensures Owed(c, events) == 0 && NoProbeMarks(events)
    decreases |events|
  {
    if events != [] {
      NothingOwed(c, events[..|events| - 1]);
      StreakIsCounted(c, events);
    }
  }

  /** Transient probe loss never quarantines a working upstream: in any run without a full streak of
      probe failures, at every point the quarantine is what the traffic alone would have made it. */
  lemma {:induction false} TransientProbesInvisible(c: Config, events: seq<Event>)
    requires Legal(c, events) && StreaksBelow(c, events)
    ensures ProbesInvisible(c, events)
  {
    NothingOwed(c, events);
    ProbesInvisibleIff(c, events);
  }
}
