/** The DNS-over-TLS stream decoder: nextDoTFrame, dnsMessageLen, skipDNSNameLabels and
    the buffer loop of handleDoT. Bare messages and length-prefixed ones share a stream. */
module DotStream {
  import opened Bytes

  // ---------------------------------------------------------------- names

  datatype NameScan = NameDone(next: nat, labels: nat) | NameCut | NameBad

  /** The name at off, after `labels` labels of it were already walked. */
  function ScanName(b: seq<Byte>, off: nat, labels: nat): (r: NameScan)
    ensures r.NameDone? ==> off < r.next <= |b|
    decreases |b| - off
  {
    if off >= |b| then NameBad
    else if b[off] == 0 then NameDone(off + 1, labels)
    else if b[off] >= 192 then (if off + 2 > |b| then NameCut else NameDone(off + 2, labels))
    else if b[off] >= 64 then NameBad
    else if labels + 1 > 128 then NameBad
    else if off + 1 + b[off] > |b| then NameCut
    else ScanName(b, off + 1 + b[off], labels + 1)
  }

  method SkipDNSNameLabels(b: seq<Byte>, start: nat) returns (r: NameScan)
    ensures r == ScanName(b, start, 0)
  {
    var off: nat, labels: nat := start, 0;
    while true
      invariant ScanName(b, start, 0) == ScanName(b, off, labels)
      decreases |b| - off
    {
      if off >= |b| { return NameBad; }
      var length := b[off];
      if length == 0 {
        return NameDone(off + 1, labels);
      } else if length >= 192 {
        return if off + 2 > |b| then NameCut else NameDone(off + 2, labels);
      } else if length >= 64 {
        return NameBad;
      }
      labels := labels + 1;
      if labels > 128 { return NameBad; }
      off := off + 1 + length;
      if off > |b| { return NameCut; }
    }
  }

  // ---------------------------------------------------------------- messages

  /** Done: a complete item ends at next. Cut: more octets may complete it. Bad: they cannot. */
  datatype Scan = Done(next: nat) | Cut | Bad

  function ScanQuestions(b: seq<Byte>, off: nat, n: nat): (r: Scan)
    ensures r.Done? && off <= |b| ==> off <= r.next <= |b|
    decreases n
  {
    if n == 0 then Done(off) else
    match ScanName(b, off, 0)
    case NameBad => Bad
    case NameCut => Cut
    case NameDone(next, _) =>
      if next + 4 > |b| then Cut
      else if U16(b, next) == 0 || U16(b, next + 2) == 0 then Bad
      else ScanQuestions(b, next + 4, n - 1)
  }

  function ScanAdditional(b: seq<Byte>, off: nat, n: nat): (r: Scan)
    ensures r.Done? && off <= |b| ==> off <= r.next <= |b|
    decreases n
  {
    if n == 0 then Done(off) else
    match ScanName(b, off, 0)
    case NameBad => Bad
    case NameCut => Cut
    case NameDone(next, _) =>
      if next + 10 > |b| then Cut
      else if next + 10 + U16(b, next + 8) > |b| then Cut
      else ScanAdditional(b, next + 10 + U16(b, next + 8), n - 1)
  }

  /** The header of a query: 1 to 16 questions, no answers, no authority, at most 16 additional. */
  predicate QueryHeader(b: seq<Byte>)
    requires |b| >= 12
  {
    1 <= U16(b, 4) <= 16 && U16(b, 6) == 0 && U16(b, 8) == 0 && U16(b, 10) <= 16
  }

  /** The sections after the header. A query whose first name has no label is refused. */
  function ScanBody(b: seq<Byte>, qd: nat, ar: nat): (r: Scan)
    requires |b| >= 12 && qd > 0
    ensures r.Done? ==> 12 <= r.next <= |b|
  {
    var questions := ScanQuestions(b, 12, qd);
    if !questions.Done? then questions
    else if ScanName(b, 12, 0).labels == 0 then Bad
    else ScanAdditional(b, questions.next, ar)
  }

  function MessageLen(b: seq<Byte>): (r: Scan)
    ensures r.Done? ==> 12 <= r.next <= |b|
  {
    if |b| < 12 then Cut
    else if !QueryHeader(b) then Bad
    else ScanBody(b, U16(b, 4), U16(b, 10))
  }

  method DnsMessageLen(b: seq<Byte>) returns (r: Scan)
    ensures r == MessageLen(b)
  {
    hide ScanName, U16;
    if |b| < 12 { return Cut; }
    var qd, an, ns, ar := U16(b, 4), U16(b, 6), U16(b, 8), U16(b, 10);
    if qd == 0 || qd > 16 || an > 0 || ns > 0 || ar > 16 { return Bad; }
    var off: nat, labels: nat := 12, 0;
    for i: nat := 0 to qd
      invariant off <= |b|
      invariant ScanQuestions(b, 12, qd) == ScanQuestions(b, off, qd - i)
      invariant i == 0 ==> off == 12
      invariant i > 0 ==> ScanName(b, 12, 0).NameDone? && labels == ScanName(b, 12, 0).labels
    {
      var name := SkipDNSNameLabels(b, off);
      if name.NameBad? { return Bad; }
      if name.NameCut? { return Cut; }
      off := name.next;
      if i == 0 { labels := name.labels; }
      if off + 4 > |b| { return Cut; }
      if U16(b, off) == 0 || U16(b, off + 2) == 0 { return Bad; }
      off := off + 4;
    }
    if labels == 0 { return Bad; }
    ghost var additional := ScanAdditional(b, off, ar);
    for i: nat := 0 to ar
      invariant off <= |b|
      invariant additional == ScanAdditional(b, off, ar - i)
    {
      var name := SkipDNSNameLabels(b, off);
      if name.NameBad? { return Bad; }
      if name.NameCut? { return Cut; }
      off := name.next;
      if off + 10 > |b| { return Cut; }
      var rdlen := U16(b, off + 8);
      off := off + 10 + rdlen;
      if off > |b| { return Cut; }
    }
    return Done(off);
  }

  // ---------------------------------------------------------------- frames

  datatype Frame = Emit(query: seq<Byte>, rest: seq<Byte>, framed: bool) | NeedMore | Reject

  function NextFrame(buf: seq<Byte>): (r: Frame)
    ensures r.Emit? && r.framed ==> |buf| >= 2 && U16(buf, 0) == |r.query| <= 4096
    ensures r.Emit? ==> |r.query| >= 12 && buf == (if r.framed then buf[..2] else []) + r.query + r.rest
  {
    var plain := MessageLen(buf);
    if plain.Done? then Emit(buf[..plain.next], buf[plain.next..], false)
    else if |buf| >= 2 && 12 <= U16(buf, 0) <= 4096 then
      var qlen := U16(buf, 0);
      if |buf| >= 2 + qlen then
        if MessageLen(buf[2..2 + qlen]) == Done(qlen) then Emit(buf[2..2 + qlen], buf[2 + qlen..], true)
        else Reject
      else NeedMore
    else if plain.Cut? then NeedMore
    else Reject
  }

  datatype Msg = Msg(query: seq<Byte>, framed: bool)

  /** What a drained buffer leaves: the queries handed to the resolver, the octets kept, and
      whether the connection was closed on an invalid stream. */
  datatype Drained = Drained(emitted: seq<Msg>, buf: seq<Byte>, closed: bool)

  function Drain(buf: seq<Byte>): Drained
    decreases |buf|
  {
    if buf == [] then Drained([], [], false) else
    match NextFrame(buf)
    case Reject => Drained([], buf, true)
    case NeedMore => Drained([], buf, false)
    case Emit(query, rest, framed) =>
      var d := Drain(rest);
      Drained([Msg(query, framed)] + d.emitted, d.buf, d.closed)
  }

  /** A connection after it was given the reads, in order. A read of no octets changes nothing. */
  function Run(chunks: seq<seq<Byte>>): Drained
    decreases |chunks|
  {
    if chunks == [] then Drained([], [], false) else OnRead(Run(chunks[..|chunks| - 1]), chunks[|chunks| - 1])
  }

  function OnRead(s: Drained, chunk: seq<Byte>): Drained {
    if s.closed || chunk == [] then s else
    var d := Drain(s.buf + chunk);
    Drained(s.emitted + d.emitted, d.buf, d.closed)
  }

  /** handleDoT: the buffer and the queries sent on so far are updated in place. */
  class Connection {
    var buf: seq<Byte>
    var emitted: seq<Msg>
    var closed: bool

    function State(): Drained
      reads this
    {
      Drained(emitted, buf, closed)
    }

    constructor ()
      ensures State() == Run([])
    {
      buf, emitted, closed := [], [], false;
    }

    method Read(chunk: seq<Byte>)
      modifies this
      ensures State() == OnRead(old(State()), chunk)
    {
      if closed { return; }
      if |chunk| > 0 {
        buf := buf + chunk;
        ghost var whole := Drain(buf);
        while |buf| > 0
          invariant !closed
          invariant emitted + Drain(buf).emitted == old(emitted) + whole.emitted
          invariant Drain(buf).buf == whole.buf && Drain(buf).closed == whole.closed
          decreases |buf|
        {
          var f := NextFrame(buf);
          if f.Reject? {
            closed := true;
            return;
          }
          if f.NeedMore? { break; }
          assert emitted + ([Msg(f.query, f.framed)] + Drain(f.rest).emitted)
              == emitted + [Msg(f.query, f.framed)] + Drain(f.rest).emitted;
          buf := f.rest;
          emitted := emitted + [Msg(f.query, f.framed)];
        }
      }
    }
  }

  // ---------------------------------------------------------------- stability under more octets

  lemma {:induction false} NameStable(b: seq<Byte>, c: seq<Byte>, off: nat, labels: nat)
    requires ScanName(b, off, labels).NameDone?
    requires Agree(b, c, ScanName(b, off, labels).next)
    ensures ScanName(c, off, labels) == ScanName(b, off, labels)
    decreases |b| - off
  {
    if 0 < b[off] < 64 { NameStable(b, c, off + 1 + b[off], labels + 1); }
  }

  lemma {:induction false} QuestionsStable(b: seq<Byte>, c: seq<Byte>, off: nat, n: nat)
    requires off <= |b| && ScanQuestions(b, off, n).Done?
    requires Agree(b, c, ScanQuestions(b, off, n).next)
    ensures ScanQuestions(c, off, n) == ScanQuestions(b, off, n)
    decreases n
  {
    hide ScanName;
    if n > 0 {
      var next := ScanName(b, off, 0).next;
      QuestionsStable(b, c, next + 4, n - 1);
      NameStable(b, c, off, 0);
    }
  }

  lemma {:induction false} AdditionalStable(b: seq<Byte>, c: seq<Byte>, off: nat, n: nat)
    requires off <= |b| && ScanAdditional(b, off, n).Done?
    requires Agree(b, c, ScanAdditional(b, off, n).next)
    ensures ScanAdditional(c, off, n) == ScanAdditional(b, off, n)
    decreases n
  {
    hide ScanName;
    if n > 0 {
      var next := ScanName(b, off, 0).next;
      AdditionalStable(b, c, next + 10 + U16(b, next + 8), n - 1);
      NameStable(b, c, off, 0);
    }
  }

  lemma {:induction false} FirstQuestion(b: seq<Byte>, qd: nat)
    requires |b| >= 12 && qd > 0 && ScanQuestions(b, 12, qd).Done?
    ensures ScanName(b, 12, 0).NameDone?
    ensures ScanName(b, 12, 0).next <= ScanQuestions(b, 12, qd).next
  {
  }

  lemma {:induction false} BodyStable(b: seq<Byte>, c: seq<Byte>, qd: nat, ar: nat)
    requires |b| >= 12 && qd > 0 && ScanBody(b, qd, ar).Done?
    requires Agree(b, c, ScanBody(b, qd, ar).next)
    ensures ScanBody(c, qd, ar) == ScanBody(b, qd, ar)
  {
    FirstQuestion(b, qd);
    NameStable(b, c, 12, 0);
    QuestionsStable(b, c, 12, qd);
    AdditionalStable(b, c, ScanQuestions(b, 12, qd).next, ar);
  }

  lemma {:induction false} HeaderStable(b: seq<Byte>, c: seq<Byte>)
    requires Agree(b, c, 12)
    ensures U16(c, 4) == U16(b, 4) && U16(c, 6) == U16(b, 6)
    ensures U16(c, 8) == U16(b, 8) && U16(c, 10) == U16(b, 10)
  {
  }

  /** A complete message is found at the same place whatever octets follow it; so no complete
      message is a proper prefix of another one. */
  lemma {:induction false} MessageStable(b: seq<Byte>, c: seq<Byte>)
    requires MessageLen(b).Done? && Agree(b, c, MessageLen(b).next)
    ensures MessageLen(c) == MessageLen(b)
  {
    HeaderStable(b, c);
    BodyStable(b, c, U16(b, 4), U16(b, 10));
  }

  predicate WellFormed(m: Msg) {
    MessageLen(m.query) == Done(|m.query|) && (m.framed ==> |m.query| <= 4096)
  }

  /** What the client writes: the message, after its length when it is length-prefixed. */
  function Encode(m: Msg): seq<Byte> {
    if m.framed then Be16(|m.query| % 65536) + m.query else m.query
  }

  lemma {:induction false} EncodingOf(m: Msg)
    requires WellFormed(m)
    ensures |m.query| >= 12
    ensures !m.framed ==> Encode(m) == m.query
    ensures m.framed ==> |Encode(m)| == 2 + |m.query| && U16(Encode(m), 0) == |m.query| && Encode(m)[2..] == m.query
  {
    hide ScanBody, Be16;
    if m.framed {
      var prefix := Be16(|m.query|);
      assert U16(prefix + m.query, 0) == U16(prefix, 0);
      assert (prefix + m.query)[2..] == m.query;
    }
  }

  predicate AllWellFormed(ms: seq<Msg>) {
    ms == [] || (WellFormed(ms[0]) && AllWellFormed(ms[1..]))
  }

  predicate AllFramed(ms: seq<Msg>) {
    ms == [] || (ms[0].framed && AllFramed(ms[1..]))
  }

  function EncodeAll(ms: seq<Msg>): seq<Byte> {
    if ms == [] then [] else Encode(ms[0]) + EncodeAll(ms[1..])
  }

  /** Two messages neither of which is the other never start with one another. */
  lemma {:induction false} PrefixFree(m: seq<Byte>, n: seq<Byte>)
    requires MessageLen(m) == Done(|m|) && MessageLen(n) == Done(|n|)
    requires m <= n
    ensures m == n
  {
    MessageStable(m, n);
  }

  /** Read as a bare message, a length-prefixed one has the inner QDCOUNT where ANCOUNT
      belongs, and that is never zero. */
  lemma {:induction false} FramedIsNeverBare(m: Msg, p: seq<Byte>)
    requires WellFormed(m) && m.framed
    requires p <= Encode(m) || Encode(m) <= p
    ensures !MessageLen(p).Done?
  {
    hide Encode, ScanBody;
    var e := Encode(m);
    EncodingOf(m);
    if |p| >= 12 {
      assert e[6] == e[2..][4] && e[7] == e[2..][5];
      assert p[6] == e[6] == m.query[4] && p[7] == e[7] == m.query[5];
      assert U16(p, 6) == U16(m.query, 4) > 0;
    }
  }

  /** The other way round: read as a length-prefixed message, a bare one has its ANCOUNT, zero,
      where QDCOUNT belongs. */
  lemma {:induction false} BareIsNeverFramed(m: Msg, p: seq<Byte>, qlen: nat)
    requires WellFormed(m) && !m.framed
    requires p <= m.query && 12 <= qlen && 2 + qlen <= |p|
    ensures MessageLen(p[2..2 + qlen]) == Bad
  {
    var inner := p[2..2 + qlen];
    assert inner[4] == m.query[6] && inner[5] == m.query[7];
    assert U16(inner, 4) == U16(m.query, 6) == 0;
  }

  // ---------------------------------------------------------------- where a cut bare message is refused

  /** Offsets at which a label, a terminating zero or a pointer of the name at off starts. */
  function LabelStarts(b: seq<Byte>, off: nat): set<nat>
    decreases |b| - off
  {
    if off >= |b| then {}
    else {off} + (if 0 < b[off] < 64 then LabelStarts(b, off + 1 + b[off]) else {})
  }

  function QuestionCuts(b: seq<Byte>, off: nat, n: nat): set<nat>
    decreases n
  {
    if n == 0 || !ScanName(b, off, 0).NameDone? then {}
    else LabelStarts(b, off) + QuestionCuts(b, ScanName(b, off, 0).next + 4, n - 1)
  }

  function AdditionalCuts(b: seq<Byte>, off: nat, n: nat): set<nat>
    decreases n
  {
    if n == 0 || !ScanName(b, off, 0).NameDone? then {}
    else
      var next := ScanName(b, off, 0).next;
      LabelStarts(b, off) +
      (if next + 10 <= |b| then AdditionalCuts(b, next + 10 + U16(b, next + 8), n - 1) else {})
  }

  function BodyCuts(b: seq<Byte>, qd: nat, ar: nat): set<nat>
  {
    var questions := ScanQuestions(b, 12, qd);
    QuestionCuts(b, 12, qd) + (if questions.Done? then AdditionalCuts(b, questions.next, ar) else {})
  }

  /** Every offset of a message at which one of its names, or a later part of one, starts. */
  function NameCuts(b: seq<Byte>): set<nat>
    requires |b| >= 12
  {
    BodyCuts(b, U16(b, 4), U16(b, 10))
  }

  lemma {:induction false} LabelStartsRange(b: seq<Byte>, off: nat, labels: nat)
    requires ScanName(b, off, labels).NameDone?
    ensures forall k :: k in LabelStarts(b, off) ==> off <= k < ScanName(b, off, labels).next
    decreases |b| - off
  {
    if 0 < b[off] < 64 { LabelStartsRange(b, off + 1 + b[off], labels + 1); }
  }

  lemma {:induction false} CutName(b: seq<Byte>, k: nat, off: nat, labels: nat)
    requires ScanName(b, off, labels).NameDone?
    requires off <= k < ScanName(b, off, labels).next
    ensures ScanName(b[..k], off, labels) == if k in LabelStarts(b, off) then NameBad else NameCut
    decreases |b| - off
  {
    if k > off && 0 < b[off] < 64 {
      var next := off + 1 + b[off];
      LabelStartsRange(b, next, labels + 1);
      if next <= k { CutName(b, k, next, labels + 1); }
    }
  }

  lemma {:induction false} QuestionCutsRange(b: seq<Byte>, off: nat, n: nat)
    requires off <= |b| && ScanQuestions(b, off, n).Done?
    ensures forall k :: k in QuestionCuts(b, off, n) ==> off <= k < ScanQuestions(b, off, n).next
    decreases n
  {
    if n > 0 {
      LabelStartsRange(b, off, 0);
      QuestionCutsRange(b, ScanName(b, off, 0).next + 4, n - 1);
    }
  }

  lemma {:induction false} AdditionalCutsRange(b: seq<Byte>, off: nat, n: nat)
    requires off <= |b| && ScanAdditional(b, off, n).Done?
    ensures forall k :: k in AdditionalCuts(b, off, n) ==> off <= k < ScanAdditional(b, off, n).next
    decreases n
  {
    if n > 0 {
      var next := ScanName(b, off, 0).next;
      LabelStartsRange(b, off, 0);
      AdditionalCutsRange(b, next + 10 + U16(b, next + 8), n - 1);
    }
  }

  lemma {:induction false} CutQuestions(b: seq<Byte>, k: nat, off: nat, n: nat)
    requires off <= |b| && ScanQuestions(b, off, n).Done?
    requires off <= k < ScanQuestions(b, off, n).next
    ensures ScanQuestions(b[..k], off, n) == if k in QuestionCuts(b, off, n) then Bad else Cut
    decreases n
  {
    hide ScanName, LabelStarts;
    if n > 0 {
      var next := ScanName(b, off, 0).next;
      LabelStartsRange(b, off, 0);
      QuestionCutsRange(b, next + 4, n - 1);
      if k < next {
        CutName(b, k, off, 0);
      } else {
        NameStable(b, b[..k], off, 0);
        if next + 4 <= k { CutQuestions(b, k, next + 4, n - 1); }
      }
    }
  }

  lemma {:induction false} CutAdditional(b: seq<Byte>, k: nat, off: nat, n: nat)
    requires off <= |b| && ScanAdditional(b, off, n).Done?
    requires off <= k < ScanAdditional(b, off, n).next
    ensures ScanAdditional(b[..k], off, n) == if k in AdditionalCuts(b, off, n) then Bad else Cut
    decreases n
  {
    hide ScanName, LabelStarts;
    if n > 0 {
      var next := ScanName(b, off, 0).next;
      var after := next + 10 + U16(b, next + 8);
      LabelStartsRange(b, off, 0);
      AdditionalCutsRange(b, after, n - 1);
      if k < next {
        CutName(b, k, off, 0);
      } else {
        NameStable(b, b[..k], off, 0);
        if after <= k { CutAdditional(b, k, after, n - 1); }
      }
    }
  }

  lemma {:induction false} CutBody(b: seq<Byte>, k: nat, qd: nat, ar: nat)
    requires 12 <= k < |b| && qd > 0 && ScanBody(b, qd, ar) == Done(|b|)
    ensures ScanBody(b[..k], qd, ar)
         == if k in BodyCuts(b, qd, ar) then Bad else Cut
  {
    var q := ScanQuestions(b, 12, qd).next;
    QuestionCutsRange(b, 12, qd);
    AdditionalCutsRange(b, q, ar);
    if k < q {
      CutQuestions(b, k, 12, qd);
    } else {
      QuestionsStable(b, b[..k], 12, qd);
      FirstQuestion(b, qd);
      NameStable(b, b[..k], 12, 0);
      CutAdditional(b, k, q, ar);
    }
  }

  /** A proper prefix of a complete message is refused as a message exactly when it contains the
      header and ends where a name or a later part of one would start. */
  lemma {:induction false} CutMessage(b: seq<Byte>, k: nat)
    requires MessageLen(b) == Done(|b|) && k < |b|
    ensures MessageLen(b[..k]) == if k >= 12 && k in NameCuts(b) then Bad else Cut
  {
    if k >= 12 {
      HeaderStable(b, b[..k]);
      CutBody(b, k, U16(b, 4), U16(b, 10));
    }
  }

  /** The prefixes of length k of a bare message on which the connection is closed. The first two
      octets of a bare message, its transaction ID, may look like a length from 12 to 4096. */
  predicate BareRefused(m: seq<Byte>, k: nat)
    requires |m| >= 12
  {
    k >= 2 &&
    if 12 <= U16(m, 0) <= 4096 then k >= 2 + U16(m, 0) else k >= 12 && k in NameCuts(m)
  }

  lemma {:induction false} BarePrefixVerdict(m: Msg, k: nat)
    requires WellFormed(m) && !m.framed && k < |m.query|
    ensures NextFrame(m.query[..k]) == if BareRefused(m.query, k) then Reject else NeedMore
  {
    var p := m.query[..k];
    CutMessage(m.query, k);
    if k >= 2 && 12 <= U16(p, 0) <= 4096 && k >= 2 + U16(p, 0) {
      BareIsNeverFramed(m, p, U16(p, 0));
    }
  }

  lemma {:induction false} FramedPrefixVerdict(m: Msg, k: nat)
    requires WellFormed(m) && m.framed && k < |Encode(m)|
    ensures NextFrame(Encode(m)[..k]) == NeedMore
  {
    hide Encode, ScanBody;
    var p := Encode(m)[..k];
    EncodingOf(m);
    FramedIsNeverBare(m, p);
    if k >= 2 { assert U16(p, 0) == U16(Encode(m), 0); }
  }

  /** A message at the front of the buffer comes out whole, with its own kind, whatever follows. */
  lemma {:induction false} FrontMessage(m: Msg, rest: seq<Byte>)
    requires WellFormed(m)
    ensures NextFrame(Encode(m) + rest) == Emit(m.query, rest, m.framed)
  {
    hide Encode, ScanBody;
    var buf := Encode(m) + rest;
    EncodingOf(m);
    if m.framed {
      FramedIsNeverBare(m, buf);
      assert U16(buf, 0) == U16(Encode(m), 0) == |m.query|;
      assert buf[2..2 + |m.query|] == Encode(m)[2..] == m.query;
      assert buf[2 + |m.query|..] == rest;
    } else {
      MessageStable(m.query, buf);
      assert buf[..|m.query|] == m.query && buf[|m.query|..] == rest;
    }
  }

  /** The decoder emits a query exactly when the buffer starts with its encoding: a bare message, or a
      length-prefixed one of at most 4096 octets. It can then be no other. */
  lemma {:induction false} EmitsIff(buf: seq<Byte>, m: Msg, rest: seq<Byte>)
    ensures NextFrame(buf) == Emit(m.query, rest, m.framed) <==> WellFormed(m) && buf == Encode(m) + rest
  {
    hide Encode, ScanBody;
    if NextFrame(buf) == Emit(m.query, rest, m.framed) {
      EmittedIsWellFormed(buf);
      EncodedFront(buf, m, rest);
    } else if WellFormed(m) && buf == Encode(m) + rest {
      FrontMessage(m, rest);
    }
  }

  lemma {:induction false} EmittedIsWellFormed(buf: seq<Byte>)
    requires NextFrame(buf).Emit?
    ensures WellFormed(Msg(NextFrame(buf).query, NextFrame(buf).framed))
  {
    hide ScanBody;
    if !NextFrame(buf).framed { MessageStable(buf, buf[..MessageLen(buf).next]); }
  }

  lemma {:induction false} EncodedFront(buf: seq<Byte>, m: Msg, rest: seq<Byte>)
    requires NextFrame(buf) == Emit(m.query, rest, m.framed)
    ensures buf == Encode(m) + rest
  {
    hide MessageLen;
    if m.framed {
      assert Be16(|m.query|) == buf[..2] by { PrefixIsLength(buf); }
    } else {
      assert [] + m.query == m.query;
    }
  }

  lemma {:induction false} PrefixIsLength(buf: seq<Byte>)
    requires |buf| >= 2
    ensures Be16(U16(buf, 0)) == buf[..2]
  {
  }

  // ---------------------------------------------------------------- whole streams

  /** How many of the messages lie wholly within the first pos octets of their encoding. */
  function WholeMessages(ms: seq<Msg>, pos: nat): (i: nat)
    ensures i <= |ms|
  {
    if ms == [] || pos < |Encode(ms[0])| then 0 else 1 + WholeMessages(ms[1..], pos - |Encode(ms[0])|)
  }

  /** The first pos octets of the stream end inside a bare message, at a place the decoder refuses. */
  predicate RefusedAt(ms: seq<Msg>, pos: nat)
  {
    if ms == [] then false
    else if pos >= |Encode(ms[0])| then RefusedAt(ms[1..], pos - |Encode(ms[0])|)
    else !ms[0].framed && |ms[0].query| >= 12 && BareRefused(ms[0].query, pos)
  }

  function TakeWhole(ms: seq<Msg>, pos: nat): seq<Msg>
  {
    ms[..WholeMessages(ms, pos)]
  }

  lemma {:induction false} WholeLength(ms: seq<Msg>, pos: nat)
    requires pos <= |EncodeAll(ms)|
    ensures |EncodeAll(TakeWhole(ms, pos))| <= pos
    ensures pos == |EncodeAll(ms)| ==> TakeWhole(ms, pos) == ms
  {
    hide Encode, BareRefused;
    if ms != [] && pos >= |Encode(ms[0])| {
      WholeLength(ms[1..], pos - |Encode(ms[0])|);
      TakeWholeCons(ms, pos);
    }
  }

  lemma {:induction false} TakeWholeCons(ms: seq<Msg>, pos: nat)
    requires ms != [] && pos >= |Encode(ms[0])|
    ensures TakeWhole(ms, pos) == [ms[0]] + TakeWhole(ms[1..], pos - |Encode(ms[0])|)
  {
    hide Encode, BareRefused;
  }

  lemma {:induction false} EncodeAllCons(m: Msg, ms: seq<Msg>)
    ensures EncodeAll([m] + ms) == Encode(m) + EncodeAll(ms)
  {
    hide Encode, BareRefused;
    assert ([m] + ms)[1..] == ms;
  }

  /** The octets kept after the whole messages of the first pos octets of a stream. */
  function Leftover(ms: seq<Msg>, pos: nat): seq<Byte>
    requires pos <= |EncodeAll(ms)|
  {
    if ms == [] || pos < |Encode(ms[0])| then EncodeAll(ms)[..pos]
    else Leftover(ms[1..], pos - |Encode(ms[0])|)
  }

  /** Draining the first pos octets of any well-formed stream: exactly the whole messages come
      out, the octets of the unfinished one stay, and the stream is refused exactly where a bare
      message is cut badly. */
  lemma {:induction false} DrainPrefix(ms: seq<Msg>, pos: nat)
    requires AllWellFormed(ms) && pos <= |EncodeAll(ms)|
    ensures Drain(EncodeAll(ms)[..pos])
         == Drained(TakeWhole(ms, pos), Leftover(ms, pos), RefusedAt(ms, pos))
    decreases |ms|
  {
    hide NextFrame, NameCuts, Encode, WellFormed;
    if ms != [] {
      var first, all := Encode(ms[0]), EncodeAll(ms);
      var p := all[..pos];
      EncodingOf(ms[0]);
      if pos < |first| {
        assert p == first[..pos];
        if ms[0].framed { FramedPrefixVerdict(ms[0], pos); } else { BarePrefixVerdict(ms[0], pos); }
      } else {
        var tail := EncodeAll(ms[1..])[..pos - |first|];
        assert p == first + tail;
        FrontMessage(ms[0], tail);
        DrainPrefix(ms[1..], pos - |first|);
        TakeWholeCons(ms, pos);
        assert Msg(ms[0].query, ms[0].framed) == ms[0];
      }
    }
  }

  lemma {:induction false} SplitEncoding(front: seq<Msg>, rest: seq<Msg>)
    ensures EncodeAll(front + rest) == EncodeAll(front) + EncodeAll(rest)
  {
    hide Encode, BareRefused;
    if front == [] {
      assert front + rest == rest;
    } else {
      assert (front + rest)[1..] == front[1..] + rest;
      SplitEncoding(front[1..], rest);
    }
  }

  /** Reading on from a message boundary is reading the rest of the stream. */
  lemma {:induction false} SplitTake(front: seq<Msg>, rest: seq<Msg>, extra: nat)
    ensures TakeWhole(front + rest, |EncodeAll(front)| + extra) == front + TakeWhole(rest, extra)
  {
    hide Encode;
    if front == [] {
      assert front + rest == rest;
    } else {
      SplitTake(front[1..], rest, extra);
      assert (front + rest)[1..] == front[1..] + rest;
      TakeWholeCons(front + rest, |EncodeAll(front)| + extra);
    }
  }

  lemma {:induction false} SplitStream(front: seq<Msg>, rest: seq<Msg>, extra: nat)
    requires extra <= |EncodeAll(rest)|
    ensures |EncodeAll(front)| + extra <= |EncodeAll(front + rest)|
    ensures Leftover(front + rest, |EncodeAll(front)| + extra) == Leftover(rest, extra)
    ensures RefusedAt(front + rest, |EncodeAll(front)| + extra) == RefusedAt(rest, extra)
  {
    hide Encode, BareRefused;
    SplitEncoding(front, rest);
    if front == [] {
      assert front + rest == rest;
    } else {
      SplitStream(front[1..], rest, extra);
      assert (front + rest)[1..] == front[1..] + rest;
    }
  }

  lemma {:induction false} LeftoverIsUnfinished(ms: seq<Msg>, pos: nat)
    requires pos <= |EncodeAll(ms)|
    ensures |EncodeAll(TakeWhole(ms, pos))| + |Leftover(ms, pos)| == pos
    ensures EncodeAll(TakeWhole(ms, pos)) + Leftover(ms, pos) == EncodeAll(ms)[..pos]
  {
    hide Encode, BareRefused;
    if ms != [] && pos >= |Encode(ms[0])| {
      var n := |Encode(ms[0])|;
      LeftoverIsUnfinished(ms[1..], pos - n);
      TakeWholeCons(ms, pos);
      EncodeAllCons(ms[0], TakeWhole(ms[1..], pos - n));
      assert EncodeAll(ms)[..pos] == Encode(ms[0]) + EncodeAll(ms[1..])[..pos - n];
    }
  }

  lemma {:induction false} SuffixWellFormed(ms: seq<Msg>, i: nat)
    requires AllWellFormed(ms) && i <= |ms|
    ensures AllWellFormed(ms[i..])
    decreases i
  {
    hide WellFormed;
    if i == 0 {
      assert ms[0..] == ms;
    } else {
      SuffixWellFormed(ms[1..], i - 1);
      assert ms[1..][i - 1..] == ms[i..];
    }
  }

  /** The stream split after the messages that are whole within pos: what the next octets add to the
      kept ones is a prefix of the rest of the stream. */
  lemma {:induction false} RestOfStream(ms: seq<Msg>, pos: nat, more: nat)
    requires AllWellFormed(ms) && pos + more <= |EncodeAll(ms)|
    ensures var i, kept := WholeMessages(ms, pos), Leftover(ms, pos);
      && AllWellFormed(ms[i..]) && |EncodeAll(ms[..i])| + |kept| == pos
      && |kept| + more <= |EncodeAll(ms[i..])|
      && kept + EncodeAll(ms)[pos..pos + more] == EncodeAll(ms[i..])[..|kept| + more]
  {
    hide Encode, Leftover, EncodeAll, WholeMessages;
    var i := WholeMessages(ms, pos);
    LeftoverIsUnfinished(ms, pos);
    SuffixWellFormed(ms, i);
    SplitEncoding(ms[..i], ms[i..]);
    assert ms[..i] + ms[i..] == ms;
    UnfinishedWithNext(EncodeAll(ms), EncodeAll(ms[..i]), EncodeAll(ms[i..]), Leftover(ms, pos), pos, more);
  }

  /** Draining what was kept together with the next octets is draining all of them at once. */
  lemma {:induction false} DrainMore(ms: seq<Msg>, pos: nat, more: nat)
    requires AllWellFormed(ms) && pos + more <= |EncodeAll(ms)|
    ensures var d := Drain(Leftover(ms, pos) + EncodeAll(ms)[pos..pos + more]);
      Drained(TakeWhole(ms, pos) + d.emitted, d.buf, d.closed)
      == Drained(TakeWhole(ms, pos + more), Leftover(ms, pos + more), RefusedAt(ms, pos + more))
  {
    hide Drain, Leftover, RefusedAt, EncodeAll, AllWellFormed, WholeMessages;
    RestOfStream(ms, pos, more);
    var i := WholeMessages(ms, pos);
    var front, rest, extra := ms[..i], ms[i..], |Leftover(ms, pos)| + more;
    assert TakeWhole(ms, pos) == front && front + rest == ms;
    hide TakeWhole;
    DrainPrefix(rest, extra);
    SplitStream(front, rest, extra);
    SplitTake(front, rest, extra);
  }

  lemma {:induction false} UnfinishedWithNext(all: seq<Byte>, done: seq<Byte>, rest: seq<Byte>, kept: seq<Byte>,
                                              pos: nat, more: nat)
    requires all == done + rest && pos + more <= |all| && done + kept == all[..pos]
    ensures |kept| + more <= |rest| && |done| + |kept| == pos
    ensures kept + all[pos..pos + more] == rest[..|kept| + more]
  {
    assert |done + kept| == pos;
    var l, r := kept + all[pos..pos + more], rest[..|kept| + more];
    forall k | 0 <= k < |l| ensures l[k] == r[k] {
      assert r[k] == all[|done| + k];
      if k < |kept| { assert kept[k] == (done + kept)[|done| + k]; }
    }
  }

  // ---------------------------------------------------------------- any way of cutting a stream into reads

  /** How far into the stream the connection gets: it stops at the first refused read end. */
  function Consumed(ms: seq<Msg>, chunks: seq<seq<Byte>>): nat
    decreases |chunks|
  {
    if chunks == [] then 0 else
    var before := Consumed(ms, chunks[..|chunks| - 1]);
    if RefusedAt(ms, before) then before else before + |chunks[|chunks| - 1]|
  }

  /** No read ends where the decoder refuses the stream. */
  ghost predicate NeverRefused(ms: seq<Msg>, chunks: seq<seq<Byte>>) {
    forall j :: 0 <= j <= |chunks| ==> !RefusedAt(ms, |Flatten(chunks[..j])|)
  }

  lemma {:induction false} StartNotRefused(ms: seq<Msg>)
    ensures !RefusedAt(ms, 0)
  {
    if ms != [] { StartNotRefused(ms[1..]); }
  }

  lemma {:induction false} ConsumedIsAll(ms: seq<Msg>, chunks: seq<seq<Byte>>)
    ensures Consumed(ms, chunks) <= |Flatten(chunks)|
    ensures NeverRefused(ms, chunks) <==> !RefusedAt(ms, Consumed(ms, chunks))
    ensures NeverRefused(ms, chunks) ==> Consumed(ms, chunks) == |Flatten(chunks)|
    decreases |chunks|
  {
    hide Encode, BareRefused;
    if chunks == [] {
      StartNotRefused(ms);
      assert chunks[..0] == [];
    } else {
      var before, last := chunks[..|chunks| - 1], chunks[|chunks| - 1];
      ConsumedIsAll(ms, before);
      FlattenAppend(before, last);
      assert chunks == before + [last] && chunks[..|chunks|] == chunks;
      assert forall j :: 0 <= j < |chunks| ==> chunks[..j] == before[..j];
    }
  }

  lemma {:induction false} AtStart(ms: seq<Msg>)
    requires AllWellFormed(ms)
    ensures TakeWhole(ms, 0) == [] && Leftover(ms, 0) == [] && !RefusedAt(ms, 0)
  {
    hide BareRefused;
    StartNotRefused(ms);
    if ms != [] { EncodingOf(ms[0]); }
  }

  /** The state of the connection after any reads of any well-formed stream. */
  lemma {:induction false} RunStream(ms: seq<Msg>, chunks: seq<seq<Byte>>)
    requires AllWellFormed(ms) && Flatten(chunks) <= EncodeAll(ms)
    ensures Consumed(ms, chunks) <= |EncodeAll(ms)|
    ensures Run(chunks) == Drained(TakeWhole(ms, Consumed(ms, chunks)), Leftover(ms, Consumed(ms, chunks)),
                                   RefusedAt(ms, Consumed(ms, chunks)))
    decreases |chunks|
  {
    hide Encode, BareRefused, Drain, Leftover, RefusedAt, EncodeAll, TakeWhole, MessageLen;
    ConsumedIsAll(ms, chunks);
    if chunks == [] {
      AtStart(ms);
    } else {
      var before, last := chunks[..|chunks| - 1], chunks[|chunks| - 1];
      FlattenAppend(before, last);
      assert chunks == before + [last];
      ConsumedIsAll(ms, before);
      RunStream(ms, before);
      var pos := Consumed(ms, before);
      if !RefusedAt(ms, pos) {
        assert EncodeAll(ms)[pos..pos + |last|] == last;
        DrainMore(ms, pos, |last|);
      }
    }
  }

  /** Never a wrong or merged query: for any mix of bare and length-prefixed messages and any way
      of cutting any part of the stream into reads, the queries handed on are a prefix of those sent. */
  lemma {:induction false} NeverAWrongQuery(ms: seq<Msg>, chunks: seq<seq<Byte>>)
    requires AllWellFormed(ms) && Flatten(chunks) <= EncodeAll(ms)
    ensures Run(chunks).emitted <= ms
  {
    RunStream(ms, chunks);
  }

  /** A fully delivered stream is handed on in full, with nothing left, if and only if no read
      ends inside a bare message at one of the places BareRefused names. */
  lemma {:induction false} DeliveredIff(ms: seq<Msg>, chunks: seq<seq<Byte>>)
    requires AllWellFormed(ms) && Flatten(chunks) == EncodeAll(ms)
    ensures Run(chunks) == Drained(ms, [], false) <==> NeverRefused(ms, chunks)
  {
    RunStream(ms, chunks);
    ConsumedIsAll(ms, chunks);
    WholeLength(ms, |EncodeAll(ms)|);
    LeftoverIsUnfinished(ms, |EncodeAll(ms)|);
  }

  lemma {:induction false} HeaderIsACut(m: seq<Byte>)
    requires MessageLen(m) == Done(|m|)
    ensures |m| > 12 && 12 in NameCuts(m)
  {
    hide U16, ScanAdditional, AdditionalCuts;
    FirstQuestion(m, U16(m, 4));
  }

  /** A bare message that arrives in two parts, its header first, is refused, unless its ID looks
      like a length: the name parser takes the end of the buffer for an error. */
  lemma {:induction false} HeaderFirstIsRefused(m: Msg)
    requires WellFormed(m) && !m.framed && !(12 <= U16(m.query, 0) <= 4096)
    ensures Run([m.query[..12], m.query[12..]]) == Drained([], m.query[..12], true)
  {
    hide NextFrame, MessageLen, NameCuts;
    var first, second := m.query[..12], m.query[12..];
    HeaderIsACut(m.query);
    BarePrefixVerdict(m, 12);
    var none: seq<seq<Byte>> := [];
    assert [] + first == first && [first, second][..1] == [first] && [first][..0] == none;
    assert Run([first]) == OnRead(Run(none), first);
  }

  const ONE_LABEL: seq<Byte> := [0, 1, 1, 0, 0, 1, 0, 0, 0, 0, 0, 0, 1, 97, 0, 0, 1, 0, 1]

  /** There are such messages: the plain query for the name "a". */
  lemma {:induction false} OneLabelQuery()
    ensures WellFormed(Msg(ONE_LABEL, false)) && U16(ONE_LABEL, 0) == 1
  {
    var b := ONE_LABEL;
    assert U16(b, 4) == 1 && U16(b, 6) == 0 && U16(b, 8) == 0 && U16(b, 10) == 0;
    assert U16(b, 15) == 1 && U16(b, 17) == 1;
    hide U16;
    assert ScanName(b, 14, 1) == NameDone(15, 1);
    assert ScanName(b, 12, 0) == NameDone(15, 1);
    assert ScanQuestions(b, 19, 0) == Done(19);
    assert ScanQuestions(b, 12, 1) == Done(19);
    assert ScanAdditional(b, 19, 0) == Done(19);
  }

  lemma {:induction false} FramedNeverRefused(ms: seq<Msg>, pos: nat)
    requires AllFramed(ms)
    ensures !RefusedAt(ms, pos)
  {
    if ms != [] && pos >= |Encode(ms[0])| { FramedNeverRefused(ms[1..], pos - |Encode(ms[0])|); }
  }

  /** Length-prefixed streams are never refused: however they are cut, each message comes out as
      soon as its last octet has arrived. */
  lemma {:induction false} FramedStreams(ms: seq<Msg>, chunks: seq<seq<Byte>>)
    requires AllWellFormed(ms) && AllFramed(ms)
    requires Flatten(chunks) <= EncodeAll(ms)
    ensures Run(chunks) == Drained(TakeWhole(ms, |Flatten(chunks)|), Leftover(ms, |Flatten(chunks)|), false)
    ensures Flatten(chunks) == EncodeAll(ms) ==> Run(chunks) == Drained(ms, [], false)
  {
    FramedNeverRefused(ms, Consumed(ms, chunks));
    ConsumedIsAll(ms, chunks);
    RunStream(ms, chunks);
    if Flatten(chunks) == EncodeAll(ms) { DeliveredIff(ms, chunks); }
  }

  /** Iterating the decoder over a complete stream gives back the messages and their kinds. */
  lemma {:induction false} WholeStream(ms: seq<Msg>)
    requires AllWellFormed(ms)
    ensures Drain(EncodeAll(ms)) == Drained(ms, [], false)
  {
    var all := EncodeAll(ms);
    assert all[..|all|] == all;
    DrainPrefix(ms, |all|);
    WholeLength(ms, |all|);
    LeftoverIsUnfinished(ms, |all|);
    AtEndNotRefused(ms);
  }

  lemma {:induction false} AtEndNotRefused(ms: seq<Msg>)
    ensures !RefusedAt(ms, |EncodeAll(ms)|)
  {
    if ms != [] { AtEndNotRefused(ms[1..]); }
  }
}
