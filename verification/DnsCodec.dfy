/** The DNS messages the resolver and its client exchange: parseQuestion, makeAResponse and the
    error response on the server side, buildQuery and parseAnswers on the client side. */
module DnsCodec {
  import opened Bytes
  import opened Wrappers
  import opened Names
  import opened ReplyTtl

  // ---------------------------------------------------------------- parseQuestion

  datatype Fault = ShortPacket | NoQuestion | CompressedName | BadName | MissingType

  datatype Question = Question(name: Name, qtype: nat, qclass: nat, end: nat)

  datatype Parsed = Ok(q: Question) | Malformed(fault: Fault)

  datatype LabelScan = LabelScan(labels: seq<Name>, next: nat) | LabelFault(fault: Fault)

  /** The labels of the name at off; the buffer may end before the terminating zero. */
  function ScanLabels(buf: seq<Byte>, off: nat): (r: LabelScan)
    ensures r.LabelScan? ==> r.next >= off
    decreases |buf| - off
  {
    if off >= |buf| then LabelScan([], off)
    else if buf[off] >= 192 then LabelFault(CompressedName)
    else if buf[off] == 0 then LabelScan([], off + 1)
    else if buf[off] > 63 || off + 1 + buf[off] > |buf| then LabelFault(BadName)
    else
      var rest := ScanLabels(buf, off + 1 + buf[off]);
      if rest.LabelFault? then rest
      else LabelScan([buf[off + 1..off + 1 + buf[off]]] + rest.labels, rest.next)
  }

  function QuestionOf(buf: seq<Byte>): Parsed {
    if |buf| < 12 then Malformed(ShortPacket)
    else if U16(buf, 4) < 1 then Malformed(NoQuestion)
    else
      match ScanLabels(buf, 12)
      case LabelFault(fault) => Malformed(fault)
      case LabelScan(labels, off) =>
        if off + 4 > |buf| then Malformed(MissingType)
        else Ok(Question(NormalizeName(Join(labels)), U16(buf, off), U16(buf, off + 2), off + 4))
  }

  method ParseQuestion(buf: seq<Byte>) returns (r: Parsed)
    ensures r == QuestionOf(buf)
  {
    hide U16, NormalizeName, Join;
    if |buf| < 12 { return Malformed(ShortPacket); }
    var qd := U16(buf, 4);
    if qd < 1 { return Malformed(NoQuestion); }
    var off: nat := 12;
    var labels: seq<Name> := [];
    while off < |buf|
      invariant ScanLabels(buf, 12) ==
        match ScanLabels(buf, off)
        case LabelFault(fault) => LabelFault(fault)
        case LabelScan(rest, next) => LabelScan(labels + rest, next)
      decreases |buf| - off
    {
      ghost var at, before := off, labels;
      var l: nat := buf[off];
      if l >= 192 { return Malformed(CompressedName); }
      off := off + 1;
      if l == 0 {
        assert ScanLabels(buf, at) == LabelScan([], off) && labels + [] == labels;
        break;
      }
      if l > 63 || off + l > |buf| { return Malformed(BadName); }
      labels := labels + [buf[off..off + l]];
      off := off + l;
      assert forall rest :: before + ([buf[at + 1..at + 1 + l]] + rest) == labels + rest;
    }
    if off >= |buf| { assert labels + [] == labels; }
    if off + 4 > |buf| { return Malformed(MissingType); }
    return Ok(Question(NormalizeName(Join(labels)), U16(buf, off), U16(buf, off + 2), off + 4));
  }

  // ---------------------------------------------------------------- makeAResponse

  type Address = a: seq<Byte> | |a| == 4 witness [0, 0, 0, 0]

  function Or80(x: Byte): Byte { if x >= 128 then x else x + 128 }

  /** (flags | 0x8000 | 0x0080) & 0xfff0 on the two flag octets. */
  function ReplyFlags(hi: Byte, lo: Byte): (r: seq<Byte>)
    ensures |r| == 2 && r[1] % 16 == 0
  {
    [Or80(hi), Or80(lo) - Or80(lo) % 16]
  }

  /** The header of a reply: the query's ID and flags as a response, the counts, the code. */
  function ReplyHeader(query: seq<Byte>, qd: seq<Byte>, answers: nat, rcode: nat): (r: seq<Byte>)
    requires |query| >= 12 && |qd| == 2 && answers < 65536 && rcode < 16
    ensures |r| == 12
  {
    var flags := ReplyFlags(query[2], query[3]);
    query[..2] + [flags[0], flags[1] + rcode] + qd + Be16(answers) + [0, 0, 0, 0]
  }

  function ErrorResponse(query: seq<Byte>, rcode: nat): seq<Byte>
    requires |query| >= 12 && rcode < 16
  {
    ReplyHeader(query, query[4..6], 0, rcode) + query[12..]
  }

  function ARecord(address: Address, ttl: nat): (r: seq<Byte>)
    requires ttl < TWO_TO_THE_32
    ensures |r| == 16
  {
    [0xc0, 0x0c, 0, 1, 0, 1] + Be32(ttl) + [0, 4] + address
  }

  function ARecords(addresses: seq<Address>, ttl: nat): (r: seq<Byte>)
    requires ttl < TWO_TO_THE_32
    ensures |r| == 16 * |addresses|
    decreases |addresses|
  {
    if addresses == [] then [] else
    ARecords(addresses[..|addresses| - 1], ttl) + ARecord(addresses[|addresses| - 1], ttl)
  }

  /** An address text that does not parse is None; those are skipped. */
  function Parsable(ips: seq<Option<Address>>): seq<Address> {
    if ips == [] then [] else (if ips[0].Some? then [ips[0].value] else []) + Parsable(ips[1..])
  }

  function EffectiveTtl(ttl: nat): nat { if ttl == 0 then 60 else ttl }

  function AResponse(query: seq<Byte>, q: Question, ips: seq<Option<Address>>, ttl: nat): seq<Byte>
    requires |query| >= 12 && 12 <= q.end && ttl < TWO_TO_THE_32
  {
    var addresses := Parsable(ips);
    if addresses == [] then ErrorResponse(query, 2)
    else
      var qEnd := if q.end > |query| then |query| else q.end;
      ReplyHeader(query, [0, 1], |addresses| % 65536, 0) + query[12..qEnd] + ARecords(addresses, EffectiveTtl(ttl))
  }

  /** setFlags, on the first twelve octets of the reply. */
  method SetFlags(out: array<Byte>, rcode: nat)
    requires out.Length >= 12 && rcode < 16
    modifies out
    ensures out[..] == old(ReplyHeader(out[..], out[4..6], 0, rcode)) + old(out[12..])
  {
    ghost var before := out[..];
    out[2], out[3] := Or80(out[2]), Or80(out[3]) - Or80(out[3]) % 16 + rcode;
    out[6], out[7], out[8], out[9], out[10], out[11] := 0, 0, 0, 0, 0, 0;
    assert out[..12] == before[..2] + [out[2], out[3]] + before[4..6] + [0, 0] + [0, 0, 0, 0];
    assert out[..] == out[..12] + before[12..];
  }

  /** A packet too short for flags comes back as it is; None when the source would index past it. */
  method MakeErrorResponse(query: seq<Byte>, rcode: Byte) returns (r: Option<seq<Byte>>)
    ensures r == if |query| < 4 then Some(query) else if |query| < 12 then None
                 else Some(ErrorResponse(query, rcode % 16))
  {
    if |query| < 4 { return Some(query); }
    if |query| < 12 { return None; }
    var out := new Byte[|query|](i requires 0 <= i < |query| => query[i]);
    assert out[..] == query && out[4..6] == query[4..6] && out[12..] == query[12..];
    SetFlags(out, rcode % 16);
    return Some(out[..]);
  }

  lemma {:induction false} ParsableAppend(ips: seq<Option<Address>>, ip: Option<Address>)
    ensures Parsable(ips + [ip]) == Parsable(ips) + (if ip.Some? then [ip.value] else [])
  {
    if ips == [] {
      assert ips + [ip] == [ip];
    } else {
      ParsableAppend(ips[1..], ip);
      assert (ips + [ip])[1..] == ips[1..] + [ip];
    }
  }

  method MakeAResponse(query: seq<Byte>, q: Question, ips: seq<Option<Address>>, ttl: nat) returns (r: seq<Byte>)
    requires |query| >= 12 && 12 <= q.end && ttl < TWO_TO_THE_32
    ensures r == AResponse(query, q, ips, ttl)
  {
    hide ReplyHeader, ARecord, ErrorResponse;
    var parsed: seq<Address> := [];
    for i := 0 to |ips|
      invariant parsed == Parsable(ips[..i])
    {
      ParsableAppend(ips[..i], ips[i]);
      assert ips[..i + 1] == ips[..i] + [ips[i]];
      if ips[i].Some? { parsed := parsed + [ips[i].value]; }
    }
    assert ips[..|ips|] == ips;
    if |parsed| == 0 {
      var failure := MakeErrorResponse(query, 2);
      return failure.value;
    }
    var qEnd := if q.end > |query| then |query| else q.end;
    var front := HeaderAndQuestion(query, qEnd, |parsed| % 65536);
    var t := EffectiveTtl(ttl);
    var size := qEnd + |parsed| * 16;
    var out := new Byte[size](i requires 0 <= i < size => if i < qEnd then front[i] else 0);
    assert out[..qEnd] == front;
    PutRecords(out, qEnd, parsed, t);
    r := out[..];
  }

  /** The loop of makeAResponse over the addresses. */
  method PutRecords(out: array<Byte>, start: nat, addresses: seq<Address>, t: nat)
    requires out.Length == start + |addresses| * 16 && t < TWO_TO_THE_32
    modifies out
    ensures out[..] == old(out[..start]) + ARecords(addresses, t)
  {
    hide ARecord;
    ghost var front := out[..start];
    var off := start;
    for i := 0 to |addresses|
      invariant off == start + i * 16
      invariant out[..off] == front + ARecords(addresses[..i], t)
    {
      PutRecord(out, off, addresses[i], t);
      assert addresses[..i + 1][..i] == addresses[..i];
      assert front + (ARecords(addresses[..i], t) + ARecord(addresses[i], t)) == out[..off + 16];
      off := off + 16;
    }
    assert addresses[..|addresses|] == addresses && out[..off] == out[..];
  }

  method HeaderAndQuestion(query: seq<Byte>, qEnd: nat, answers: nat) returns (front: seq<Byte>)
    requires 12 <= qEnd <= |query| && answers < 65536
    ensures front == ReplyHeader(query, [0, 1], answers, 0) + query[12..qEnd]
  {
    var head := new Byte[12](i requires 0 <= i < 12 => query[i]);
    assert head[..] == query[..12];
    SetFlags(head, 0);
    head[4], head[5] := 0, 1;
    head[6], head[7] := answers / 256, answers % 256;
    front := head[..] + query[12..qEnd];
  }

  /** Writes octets into the buffer, as copy and the PutUint calls do. */
  method CopyIn(out: array<Byte>, off: nat, octets: seq<Byte>)
    requires off + |octets| <= out.Length
    modifies out
    ensures out[..off + |octets|] == old(out[..off]) + octets
  {
    forall k | 0 <= k < |octets| { out[off + k] := octets[k]; }
  }

  method PutRecord(out: array<Byte>, off: nat, p: Address, t: nat)
    requires off + 16 <= out.Length && t < TWO_TO_THE_32
    modifies out
    ensures out[..off + 16] == old(out[..off]) + ARecord(p, t)
  {
    hide Be16, Be32;
    ghost var before := out[..off];
    CopyIn(out, off, [0xc0, 0x0c]);
    CopyIn(out, off + 2, [0, 1]);
    CopyIn(out, off + 4, [0, 1]);
    CopyIn(out, off + 6, Be32(t));
    CopyIn(out, off + 10, [0, 4]);
    CopyIn(out, off + 12, p);
    assert out[..off + 16] == before + [0xc0, 0x0c] + [0, 1] + [0, 1] + Be32(t) + [0, 4] + p;
    assert before + [0xc0, 0x0c] + [0, 1] + [0, 1] + Be32(t) + [0, 4] + p == before + ARecord(p, t);
  }

  // ---------------------------------------------------------------- buildQuery

  function QueryLabels(name: Name): seq<Name> {
    NonEmpty(Split(TrimDot(name)))
  }

  function NonEmpty(labels: seq<Name>): seq<Name> {
    if labels == [] then [] else (if labels[0] == [] then [] else [labels[0]]) + NonEmpty(labels[1..])
  }

  function EncodeLabel(text: Name): seq<Byte> { [|text| % 256] + text }

  function EncodeLabels(labels: seq<Name>): seq<Byte> {
    if labels == [] then [] else EncodeLabel(labels[0]) + EncodeLabels(labels[1..])
  }

  const QUERY_HEADER: seq<Byte> := [0x12, 0x34, 1, 0, 0, 1, 0, 0, 0, 0, 0, 0]

  function QueryFor(name: Name): (r: seq<Byte>)
    ensures |r| >= 17
  {
    QUERY_HEADER + EncodeLabels(QueryLabels(name)) + [0, 0, 1, 0, 1]
  }

  lemma {:induction false} EncodeLabelsAppend(labels: seq<Name>, text: Name)
    ensures EncodeLabels(labels + [text]) == EncodeLabels(labels) + EncodeLabel(text)
  {
    if labels == [] {
      assert labels + [text] == [text];
    } else {
      EncodeLabelsAppend(labels[1..], text);
      assert (labels + [text])[1..] == labels[1..] + [text];
    }
  }

  lemma {:induction false} NonEmptyAppend(labels: seq<Name>, text: Name)
    ensures NonEmpty(labels + [text]) == NonEmpty(labels) + (if text == [] then [] else [text])
  {
    if labels == [] {
      assert labels + [text] == [text];
    } else {
      NonEmptyAppend(labels[1..], text);
      assert (labels + [text])[1..] == labels[1..] + [text];
    }
  }

  lemma {:induction false} NonEmptyAll(labels: seq<Name>)
    requires forall i :: 0 <= i < |labels| ==> labels[i] != []
    ensures NonEmpty(labels) == labels
  {
    if labels != [] { NonEmptyAll(labels[1..]); }
  }

  lemma {:induction false} NoLabels(labels: seq<Name>)
    ensures EncodeLabels(NonEmpty(labels[..0])) == []
  {
  }

  method BuildQuery(name: Name) returns (q: seq<Byte>)
    ensures q == QueryFor(name)
  {
    hide EncodeLabels, NonEmpty, Split, TrimDot;
    q := QUERY_HEADER;
    var labels := Split(TrimDot(name));
    assert EncodeLabels(NonEmpty(labels[..0])) == [] by { NoLabels(labels); }
    for i := 0 to |labels|
      invariant q == QUERY_HEADER + EncodeLabels(NonEmpty(labels[..i]))
    {
      assert labels[..i + 1] == labels[..i] + [labels[i]];
      NonEmptyAppend(labels[..i], labels[i]);
      ghost var done := NonEmpty(labels[..i]);
      assert done + [] == done;
      if |labels[i]| != 0 {
        EncodeLabelsAppend(done, labels[i]);
        assert QUERY_HEADER + (EncodeLabels(done) + EncodeLabel(labels[i])) == q + [|labels[i]| % 256] + labels[i];
        q := q + [|labels[i]| % 256] + labels[i];
      }
    }
    assert labels[..|labels|] == labels;
    q := q + [0] + [0, 1] + [0, 1];
  }

  // ---------------------------------------------------------------- parseAnswers

  datatype Answers =
    | Answers(ips: seq<Address>, rcode: nat, qname: Name)
    | AnswerError          // one of the errors parseAnswers returns
    | OutOfRange           // the source would index past the message

  /** skipName of parseAnswers: unlike the resolver's it does not check text lengths. */
  function SkipLoose(m: seq<Byte>, off: nat): Option<nat>
    decreases |m| - off
  {
    if off >= |m| then None
    else if m[off] == 0 then Some(off + 1)
    else if m[off] >= 192 then (if off + 1 >= |m| then None else Some(off + 2))
    else SkipLoose(m, off + 1 + m[off])
  }

  /** The end of the name of a question; it may lie past the end of the message. */
  function QNameEnd(m: seq<Byte>, off: nat): (r: nat)
    ensures r >= off
    decreases |m| - off
  {
    if off >= |m| then off
    else if m[off] == 0 then off + 1
    else if m[off] >= 192 then off + 2
    else QNameEnd(m, off + 1 + m[off])
  }

  /** The labels from cur up to off; None when the source would index past the message. cap is the capacity
      of the slice that holds it: text past the message but within that is no fault yet. It is not
      known here, and does not matter, since the message is then refused. */
  function QNameLabels(m: seq<Byte>, cap: nat, cur: nat, off: nat): Option<seq<Name>>
    requires |m| <= cap
    decreases off - cur
  {
    if cur >= off then Some([])
    else if cur >= |m| then None
    else if m[cur] == 0 || m[cur] >= 192 then Some([])
    else if cur + 1 + m[cur] > off then Some([])
    else if cur + 1 + m[cur] > cap then None
    else
      var next := cur + 1 + m[cur];
      var rest := QNameLabels(m, cap, next, off);
      if rest.None? then None else Some([m[cur + 1..if next > |m| then |m| else next]] + rest.value)
  }

  function QuestionSection(m: seq<Byte>, cap: nat, off: nat, qname: Name, n: nat): Option<(nat, Name)>
    requires |m| <= cap
    decreases n
  {
    if n == 0 then Some((off, qname)) else
    var end := QNameEnd(m, off);
    var labels := QNameLabels(m, cap, off, end);
    if labels.None? || end + 4 > |m| then None else QuestionSection(m, cap, end + 4, Join(labels.value), n - 1)
  }

  function QuestionPanics(m: seq<Byte>, cap: nat, off: nat, n: nat): bool
    requires |m| <= cap
    decreases n
  {
    n > 0 &&
    var end := QNameEnd(m, off);
    QNameLabels(m, cap, off, end).None? || (end + 4 <= |m| && QuestionPanics(m, cap, end + 4, n - 1))
  }

  /** The addresses of the A records; a cut record ends the list, a name that cannot be skipped
      is an error. */
  function AnswerSection(m: seq<Byte>, off: nat, n: nat): Option<seq<Address>>
    decreases n
  {
    if n == 0 || off >= |m| then Some([])
    else
      var name := SkipLoose(m, off);
      if name.None? then None
      else if name.value + 10 > |m| then Some([])
      else
        var at := name.value;
        var length := U16(m, at + 8);
        if at + 10 + length > |m| then Some([])
        else
          var rest := AnswerSection(m, at + 10 + length, n - 1);
          if rest.None? then None
          else Some((if U16(m, at) == 1 && length == 4 then [m[at + 10..at + 14]] else []) + rest.value)
  }

  function AnswersOf(m: seq<Byte>, cap: nat): Answers
    requires |m| <= cap
  {
    if |m| < 12 then AnswerError
    else if QuestionPanics(m, cap, 12, U16(m, 4)) then OutOfRange
    else
      var questions := QuestionSection(m, cap, 12, [], U16(m, 4));
      if questions.None? then AnswerError
      else
        var ips := AnswerSection(m, questions.value.0, U16(m, 6));
        if ips.None? then AnswerError else Answers(ips.value, m[3] % 16, questions.value.1)
  }

  method SkipNameLoose(m: seq<Byte>, start: nat) returns (r: Option<nat>)
    ensures r == SkipLoose(m, start)
  {
    var off: nat := start;
    while off < |m|
      invariant SkipLoose(m, start) == SkipLoose(m, off)
      decreases |m| - off
    {
      var l := m[off];
      if l == 0 { return Some(off + 1); }
      if l >= 192 {
        if off + 1 >= |m| { return None; }
        return Some(off + 2);
      }
      off := off + 1 + l;
    }
    return None;
  }

  /** One question: its end, and its labels unless the source would index past the message. */
  method ReadQuestion(m: seq<Byte>, cap: nat, start: nat) returns (off: nat, labels: Option<seq<Name>>)
    requires |m| <= cap
    ensures off == QNameEnd(m, start) && labels == QNameLabels(m, cap, start, off)
  {
    off := start;
    while off < |m|
      invariant QNameEnd(m, start) == QNameEnd(m, off)
      decreases |m| - off
    {
      var l := m[off];
      if l == 0 {
        off := off + 1;
        break;
      }
      if l >= 192 {
        off := off + 2;
        break;
      }
      off := off + 1 + l;
    }
    assert off == QNameEnd(m, start);
    var cur: nat, found: seq<Name> := start, [];
    assert forall rest: seq<Name> :: [] + rest == rest;
    while cur < off
      invariant QNameLabels(m, cap, start, off) ==
        match QNameLabels(m, cap, cur, off)
        case None => None
        case Some(rest) => Some(found + rest)
      decreases off - cur
    {
      if cur >= |m| { return off, None; }
      if m[cur] == 0 || m[cur] >= 192 { break; }
      ghost var at, before := cur, found;
      var l: nat := m[cur];
      cur := cur + 1;
      if cur + l > off {
        assert QNameLabels(m, cap, at, off) == Some([]);
        assert found + [] == found;
        return off, Some(found);
      }
      if cur + l > cap { return off, None; }
      var text := m[cur..if cur + l > |m| then |m| else cur + l];
      found := found + [text];
      cur := cur + l;
      assert forall rest :: before + ([text] + rest) == found + rest;
    }
    assert found + [] == found;
    labels := Some(found);
  }

  method ParseAnswers(m: seq<Byte>, cap: nat) returns (r: Answers)
    requires |m| <= cap
    ensures r == AnswersOf(m, cap)
  {
    hide QNameEnd, QNameLabels, SkipLoose, U16, Join;
    if |m| < 12 { return AnswerError; }
    var rcode := m[3] % 16;
    var qd, an := U16(m, 4), U16(m, 6);
    var off: nat, qname: Name := 12, [];
    for i: nat := 0 to qd
      invariant QuestionSection(m, cap, 12, [], qd) == QuestionSection(m, cap, off, qname, qd - i)
      invariant QuestionPanics(m, cap, 12, qd) == QuestionPanics(m, cap, off, qd - i)
    {
      var end, labels := ReadQuestion(m, cap, off);
      if labels.None? { return OutOfRange; }
      off, qname := end, Join(labels.value);
      if off + 4 > |m| { return AnswerError; }
      off := off + 4;
    }
    ghost var start := off;
    var ips: seq<Address> := [];
    assert forall rest: seq<Address> :: [] + rest == rest;
    for i: nat := 0 to an
      invariant AnswerSection(m, start, an) ==
        match AnswerSection(m, off, an - i)
        case None => None
        case Some(rest) => Some(ips + rest)
    {
      assert ips + [] == ips;
      if off >= |m| { return Answers(ips, rcode, qname); }
      var name := SkipNameLoose(m, off);
      if name.None? { return AnswerError; }
      off := name.value;
      if off + 10 > |m| { return Answers(ips, rcode, qname); }
      var rtype, rdlen := U16(m, off), U16(m, off + 8);
      off := off + 10;
      if off + rdlen > |m| { return Answers(ips, rcode, qname); }
      ghost var before := ips;
      if rtype == 1 && rdlen == 4 { ips := ips + [m[off..off + 4]]; }
      assert forall rest ::
        before + ((if rtype == 1 && rdlen == 4 then [m[off..off + 4]] else []) + rest) == ips + rest;
      off := off + rdlen;
    }
    assert ips + [] == ips;
    return Answers(ips, rcode, qname);
  }
}
