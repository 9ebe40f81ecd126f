/** DNS messages as section 4.1 of RFC 1035 lays them out, written from their fields alone. No parser of the
    resolver is used here: it is what their results are measured against. */
module WireFormat {
  import opened Bytes

  // ---------------------------------------------------------------- the fields

  /** Labels, ended by the empty label or by a compression pointer of two octets. */
  datatype WireName = WireName(labels: seq<seq<Byte>>, end: seq<Byte>)

  datatype WireQuestion = WireQuestion(name: WireName, qtype: nat, qclass: nat)

  datatype WireRecord = WireRecord(name: WireName, rtype: nat, rclass: nat, ttl: nat, data: seq<Byte>)

  /** The flags of section 4.1.1, in their order on the wire. */
  datatype Flags = Flags(response: bool, opcode: nat, authoritative: bool, truncated: bool, wanted: bool,
                         available: bool, reserved: nat, code: nat)

  datatype WireMessage = WireMessage(id: nat, flags: Flags, questions: seq<WireQuestion>, answers: seq<WireRecord>,
                                     authority: seq<WireRecord>, additional: seq<WireRecord>)

  predicate LabelsFit(labels: seq<seq<Byte>>) { forall i :: 0 <= i < |labels| ==> 1 <= |labels[i]| <= 63 }

  predicate NameFits(n: WireName) { LabelsFit(n.labels) && (n.end == [0] || (|n.end| == 2 && n.end[0] >= 192)) }

  predicate QuestionFits(q: WireQuestion) { NameFits(q.name) && q.qtype < 65536 && q.qclass < 65536 }

  predicate RecordFits(r: WireRecord) {
    NameFits(r.name) && r.rtype < 65536 && r.rclass < 65536 && r.ttl < TWO_TO_THE_32 && |r.data| < 65536
  }

  ghost predicate QuestionsFit(qs: seq<WireQuestion>) { forall i :: 0 <= i < |qs| ==> QuestionFits(qs[i]) }

  ghost predicate RecordsFit(rs: seq<WireRecord>) { forall i :: 0 <= i < |rs| ==> RecordFits(rs[i]) }

  predicate FlagsFit(f: Flags) { f.opcode < 16 && f.reserved < 8 && f.code < 16 }

  ghost predicate MessageFits(m: WireMessage) {
    && m.id < 65536 && FlagsFit(m.flags) && |m.questions| < 65536 && |m.answers| < 65536 && |m.authority| < 65536
    && |m.additional| < 65536 && QuestionsFit(m.questions) && RecordsFit(RecordsOf(m))
  }

  function RecordsOf(m: WireMessage): seq<WireRecord> { m.answers + m.authority + m.additional }

  // ---------------------------------------------------------------- the octets

  function EncodeName(n: WireName): (r: seq<Byte>)
    requires NameFits(n)
    ensures |r| >= 1
    decreases |n.labels|
  {
    if n.labels == [] then n.end
    else [|n.labels[0]|] + (n.labels[0] + EncodeName(WireName(n.labels[1..], n.end)))
  }

  function EncodeQuestion(q: WireQuestion): seq<Byte>
    requires QuestionFits(q)
  {
    EncodeName(q.name) + (Be16(q.qtype) + Be16(q.qclass))
  }

  function EncodeRecord(r: WireRecord): seq<Byte>
    requires RecordFits(r)
  {
    EncodeName(r.name) + (Be16(r.rtype) + (Be16(r.rclass) + (Be32(r.ttl) + (Be16(|r.data|) + r.data))))
  }

  ghost function EncodeQuestions(qs: seq<WireQuestion>): seq<Byte>
    requires QuestionsFit(qs)
  {
    if qs == [] then [] else EncodeQuestion(qs[0]) + EncodeQuestions(qs[1..])
  }

  ghost function EncodeRecords(rs: seq<WireRecord>): seq<Byte>
    requires RecordsFit(rs)
  {
    if rs == [] then [] else EncodeRecord(rs[0]) + EncodeRecords(rs[1..])
  }

  function Bit(b: bool): nat { if b then 1 else 0 }

  function EncodeFlags(f: Flags): (r: seq<Byte>)
    requires FlagsFit(f)
    ensures |r| == 2
  {
    [128 * Bit(f.response) + 8 * f.opcode + 4 * Bit(f.authoritative) + 2 * Bit(f.truncated) + Bit(f.wanted),
     128 * Bit(f.available) + 16 * f.reserved + f.code]
  }

  ghost function EncodeHeader(m: WireMessage): (r: seq<Byte>)
    requires MessageFits(m)
    ensures |r| == 12
  {
    Be16(m.id) + (EncodeFlags(m.flags) + (Be16(|m.questions|) + (Be16(|m.answers|) + (Be16(|m.authority|)
      + Be16(|m.additional|)))))
  }

  ghost function EncodeMessage(m: WireMessage): (r: seq<Byte>)
    requires MessageFits(m)
    ensures |r| >= 12
  {
    EncodeHeader(m) + (EncodeQuestions(m.questions) + EncodeRecords(RecordsOf(m)))
  }

  // ---------------------------------------------------------------- parts in place

  /** The first part of a name: its end, or a label and the rest. */
  lemma {:induction false} NameStands(b: seq<Byte>, o: nat, n: WireName)
    requires NameFits(n) && At(b, o, EncodeName(n))
    ensures o + |EncodeName(n)| <= |b|
    ensures n.labels == [] ==> At(b, o, n.end) && b[o] == n.end[0] && |EncodeName(n)| == |n.end|
    ensures n.labels != [] ==> (
      var rest := WireName(n.labels[1..], n.end);
      && NameFits(rest) && b[o] == |n.labels[0]| && At(b, o + 1, n.labels[0])
      && At(b, o + 1 + |n.labels[0]|, EncodeName(rest))
      && |EncodeName(n)| == 1 + |n.labels[0]| + |EncodeName(rest)|)
  {
    if n.labels == [] {
      assert b[o] == b[o..o + |n.end|][0];
    } else {
      var rest := EncodeName(WireName(n.labels[1..], n.end));
      AtSplit(b, o, [|n.labels[0]|], n.labels[0] + rest);
      AtSplit(b, o + 1, n.labels[0], rest);
      assert b[o] == b[o..o + 1][0];
    }
  }

  /** The labels of a name without what ends it. */
  function LabelOctets(labels: seq<seq<Byte>>): seq<Byte>
    requires LabelsFit(labels)
    decreases |labels|
  {
    if labels == [] then [] else [|labels[0]|] + (labels[0] + LabelOctets(labels[1..]))
  }

  lemma {:induction false} LabelsStand(b: seq<Byte>, o: nat, labels: seq<seq<Byte>>)
    requires LabelsFit(labels) && labels != [] && At(b, o, LabelOctets(labels))
    ensures LabelsFit(labels[1..]) && o + 1 + |labels[0]| <= |b| && b[o] == |labels[0]| && At(b, o + 1, labels[0])
    ensures At(b, o + 1 + |labels[0]|, LabelOctets(labels[1..]))
    ensures |LabelOctets(labels)| == 1 + |labels[0]| + |LabelOctets(labels[1..])|
  {
    var rest := LabelOctets(labels[1..]);
    AtSplit(b, o, [|labels[0]|], labels[0] + rest);
    AtSplit(b, o + 1, labels[0], rest);
    assert b[o] == b[o..o + 1][0];
  }

  lemma {:induction false} LabelsBack(b: seq<Byte>, o: nat, text: seq<Byte>, rest: seq<seq<Byte>>)
    requires 1 <= |text| <= 63 && LabelsFit(rest) && o < |b| && b[o] == |text|
    requires At(b, o + 1, text) && At(b, o + 1 + |text|, LabelOctets(rest))
    ensures LabelsFit([text] + rest) && At(b, o, LabelOctets([text] + rest))
    ensures |LabelOctets([text] + rest)| == 1 + |text| + |LabelOctets(rest)|
  {
    assert ([text] + rest)[1..] == rest;
    AtJoin(b, o + 1, text, LabelOctets(rest));
    assert b[o..o + 1] == [b[o]];
    AtJoin(b, o, [b[o]], text + LabelOctets(rest));
  }

  lemma {:induction false} NameBack(b: seq<Byte>, o: nat, text: seq<Byte>, rest: WireName) returns (n: WireName)
    requires 1 <= |text| <= 63 && NameFits(rest) && o < |b| && b[o] == |text|
    requires At(b, o + 1, text) && At(b, o + 1 + |text|, EncodeName(rest))
    ensures NameFits(n) && At(b, o, EncodeName(n)) && |n.labels| == 1 + |rest.labels|
    ensures |EncodeName(n)| == 1 + |text| + |EncodeName(rest)| && n == WireName([text] + rest.labels, rest.end)
  {
    n := WireName([text] + rest.labels, rest.end);
    assert n.labels[1..] == rest.labels;
    AtJoin(b, o + 1, text, EncodeName(rest));
    assert b[o..o + 1] == [b[o]];
    AtJoin(b, o, [b[o]], text + EncodeName(rest));
  }

  lemma {:induction false} QuestionStands(b: seq<Byte>, o: nat, q: WireQuestion)
    requires QuestionFits(q) && At(b, o, EncodeQuestion(q))
    ensures At(b, o, EncodeName(q.name))
    ensures var at := o + |EncodeName(q.name)|;
      && |EncodeQuestion(q)| == |EncodeName(q.name)| + 4 && at + 4 <= |b|
      && U16(b, at) == q.qtype && U16(b, at + 2) == q.qclass
  {
    hide Be16, U16, EncodeName;
    AtSplit(b, o, EncodeName(q.name), Be16(q.qtype) + Be16(q.qclass));
    var at := o + |EncodeName(q.name)|;
    AtSplit(b, at, Be16(q.qtype), Be16(q.qclass));
    U16At(b, at, q.qtype);
    U16At(b, at + 2, q.qclass);
  }

  lemma {:induction false} QuestionBack(b: seq<Byte>, o: nat, q: WireQuestion)
    requires QuestionFits(q) && At(b, o, EncodeName(q.name))
    requires var at := o + |EncodeName(q.name)|;
      at + 4 <= |b| && U16(b, at) == q.qtype && U16(b, at + 2) == q.qclass
    ensures At(b, o, EncodeQuestion(q)) && |EncodeQuestion(q)| == |EncodeName(q.name)| + 4
  {
    hide Be16, U16, EncodeName;
    var at := o + |EncodeName(q.name)|;
    U16Back(b, at);
    U16Back(b, at + 2);
    AtJoin(b, at, Be16(q.qtype), Be16(q.qclass));
    AtJoin(b, o, EncodeName(q.name), Be16(q.qtype) + Be16(q.qclass));
  }

  /** The fields of the record whose TYPE field is at octet at. */
  ghost predicate FieldsAt(b: seq<Byte>, at: nat, r: WireRecord) {
    && at + 10 + |r.data| <= |b| && U16(b, at) == r.rtype && U16(b, at + 2) == r.rclass
    && U32(b, at + 4) == r.ttl && U16(b, at + 8) == |r.data| && At(b, at + 10, r.data)
  }

  lemma {:induction false} RecordStands(b: seq<Byte>, o: nat, r: WireRecord)
    requires RecordFits(r) && At(b, o, EncodeRecord(r))
    ensures At(b, o, EncodeName(r.name)) && FieldsAt(b, o + |EncodeName(r.name)|, r)
    ensures |EncodeRecord(r)| == |EncodeName(r.name)| + 10 + |r.data|
  {
    hide Be16, Be32, U16, U32, EncodeName, At;
    var last := Be16(|r.data|) + r.data;
    var third := Be32(r.ttl) + last;
    var second := Be16(r.rclass) + third;
    AtSplit(b, o, EncodeName(r.name), Be16(r.rtype) + second);
    var at := o + |EncodeName(r.name)|;
    AtSplit(b, at, Be16(r.rtype), second);
    AtSplit(b, at + 2, Be16(r.rclass), third);
    AtSplit(b, at + 4, Be32(r.ttl), last);
    AtSplit(b, at + 8, Be16(|r.data|), r.data);
    AtInside(b, at + 10, r.data);
    U16At(b, at, r.rtype);
    U16At(b, at + 2, r.rclass);
    U32At(b, at + 4, r.ttl);
    U16At(b, at + 8, |r.data|);
  }

  lemma {:induction false} RecordBack(b: seq<Byte>, o: nat, r: WireRecord)
    requires RecordFits(r) && At(b, o, EncodeName(r.name)) && FieldsAt(b, o + |EncodeName(r.name)|, r)
    ensures At(b, o, EncodeRecord(r)) && |EncodeRecord(r)| == |EncodeName(r.name)| + 10 + |r.data|
  {
    hide Be16, Be32, U16, U32, EncodeName, At;
    var at := o + |EncodeName(r.name)|;
    var last := Be16(|r.data|) + r.data;
    var third := Be32(r.ttl) + last;
    var second := Be16(r.rclass) + third;
    U16Back(b, at);
    U16Back(b, at + 2);
    U32Back(b, at + 4);
    U16Back(b, at + 8);
    AtJoin(b, at + 8, Be16(|r.data|), r.data);
    AtJoin(b, at + 4, Be32(r.ttl), last);
    AtJoin(b, at + 2, Be16(r.rclass), third);
    AtJoin(b, at, Be16(r.rtype), second);
    AtJoin(b, o, EncodeName(r.name), Be16(r.rtype) + second);
  }

  lemma {:induction false} RecordsSplit(b: seq<Byte>, o: nat, rs: seq<WireRecord>)
    requires RecordsFit(rs) && rs != [] && At(b, o, EncodeRecords(rs))
    ensures RecordFits(rs[0]) && RecordsFit(rs[1..])
    ensures At(b, o, EncodeRecord(rs[0])) && At(b, o + |EncodeRecord(rs[0])|, EncodeRecords(rs[1..]))
    ensures |EncodeRecords(rs)| == |EncodeRecord(rs[0])| + |EncodeRecords(rs[1..])|
  {
    hide EncodeRecord;
    AtSplit(b, o, EncodeRecord(rs[0]), EncodeRecords(rs[1..]));
  }

  lemma {:induction false} QuestionsSplit(b: seq<Byte>, o: nat, qs: seq<WireQuestion>)
    requires QuestionsFit(qs) && qs != [] && At(b, o, EncodeQuestions(qs))
    ensures QuestionFits(qs[0]) && QuestionsFit(qs[1..])
    ensures At(b, o, EncodeQuestion(qs[0])) && At(b, o + |EncodeQuestion(qs[0])|, EncodeQuestions(qs[1..]))
    ensures |EncodeQuestions(qs)| == |EncodeQuestion(qs[0])| + |EncodeQuestions(qs[1..])|
  {
    hide EncodeQuestion;
    AtSplit(b, o, EncodeQuestion(qs[0]), EncodeQuestions(qs[1..]));
  }

  lemma {:induction false} RecordsJoin(b: seq<Byte>, o: nat, r: WireRecord, rs: seq<WireRecord>)
    requires RecordFits(r) && RecordsFit(rs)
    requires At(b, o, EncodeRecord(r)) && At(b, o + |EncodeRecord(r)|, EncodeRecords(rs))
    ensures RecordsFit([r] + rs) && At(b, o, EncodeRecords([r] + rs))
    ensures |EncodeRecords([r] + rs)| == |EncodeRecord(r)| + |EncodeRecords(rs)|
  {
    hide EncodeRecord;
    AtJoin(b, o, EncodeRecord(r), EncodeRecords(rs));
    assert ([r] + rs)[1..] == rs;
  }

  lemma {:induction false} QuestionsJoin(b: seq<Byte>, o: nat, q: WireQuestion, qs: seq<WireQuestion>)
    requires QuestionFits(q) && QuestionsFit(qs)
    requires At(b, o, EncodeQuestion(q)) && At(b, o + |EncodeQuestion(q)|, EncodeQuestions(qs))
    ensures QuestionsFit([q] + qs) && At(b, o, EncodeQuestions([q] + qs))
    ensures |EncodeQuestions([q] + qs)| == |EncodeQuestion(q)| + |EncodeQuestions(qs)|
  {
    hide EncodeQuestion;
    AtJoin(b, o, EncodeQuestion(q), EncodeQuestions(qs));
    assert ([q] + qs)[1..] == qs;
  }

  // ---------------------------------------------------------------- the header

  /** The header of m stands at the front of b. */
  ghost predicate HeaderAt(b: seq<Byte>, m: WireMessage) {
    && |b| >= 12 && U16(b, 0) == m.id && FlagsFit(m.flags) && [b[2], b[3]] == EncodeFlags(m.flags)
    && U16(b, 4) == |m.questions| && U16(b, 6) == |m.answers| && U16(b, 8) == |m.authority|
    && U16(b, 10) == |m.additional|
  }

  lemma {:induction false} HeaderIs(b: seq<Byte>, m: WireMessage)
    requires MessageFits(m) && At(b, 0, EncodeHeader(m))
    ensures HeaderAt(b, m)
  {
    hide Be16, U16, EncodeFlags, RecordsFit, QuestionsFit;
    var n4 := Be16(|m.authority|) + Be16(|m.additional|);
    var n3 := Be16(|m.answers|) + n4;
    var n2 := Be16(|m.questions|) + n3;
    AtSplit(b, 0, Be16(m.id), EncodeFlags(m.flags) + n2);
    AtSplit(b, 2, EncodeFlags(m.flags), n2);
    AtSplit(b, 4, Be16(|m.questions|), n3);
    AtSplit(b, 6, Be16(|m.answers|), n4);
    AtSplit(b, 8, Be16(|m.authority|), Be16(|m.additional|));
    U16At(b, 0, m.id);
    U16At(b, 4, |m.questions|);
    U16At(b, 6, |m.answers|);
    U16At(b, 8, |m.authority|);
    U16At(b, 10, |m.additional|);
    assert [b[2], b[3]] == b[2..4];
  }

  lemma {:induction false} HeaderBack(b: seq<Byte>, m: WireMessage)
    requires MessageFits(m) && HeaderAt(b, m)
    ensures At(b, 0, EncodeHeader(m))
  {
    hide Be16, U16, EncodeFlags, RecordsFit, QuestionsFit;
    var n4 := Be16(|m.authority|) + Be16(|m.additional|);
    var n3 := Be16(|m.answers|) + n4;
    var n2 := Be16(|m.questions|) + n3;
    U16Back(b, 0);
    U16Back(b, 4);
    U16Back(b, 6);
    U16Back(b, 8);
    U16Back(b, 10);
    assert [b[2], b[3]] == b[2..4];
    AtJoin(b, 8, Be16(|m.authority|), Be16(|m.additional|));
    AtJoin(b, 6, Be16(|m.answers|), n4);
    AtJoin(b, 4, Be16(|m.questions|), n3);
    AtJoin(b, 2, EncodeFlags(m.flags), n2);
    AtJoin(b, 0, Be16(m.id), EncodeFlags(m.flags) + n2);
  }

  /** The sections of m stand at the front of b. */
  lemma {:induction false} SectionsAt(b: seq<Byte>, m: WireMessage)
    requires MessageFits(m) && EncodeMessage(m) <= b
    ensures HeaderAt(b, m) && At(b, 12, EncodeQuestions(m.questions))
    ensures At(b, 12 + |EncodeQuestions(m.questions)|, EncodeRecords(RecordsOf(m)))
    ensures |EncodeMessage(m)| == 12 + |EncodeQuestions(m.questions)| + |EncodeRecords(RecordsOf(m))|
  {
    hide EncodeHeader, EncodeQuestions, EncodeRecords;
    assert At(b, 0, EncodeMessage(m)) by { assert b[0..|EncodeMessage(m)|] == EncodeMessage(m); }
    AtSplit(b, 0, EncodeHeader(m), EncodeQuestions(m.questions) + EncodeRecords(RecordsOf(m)));
    AtSplit(b, 12, EncodeQuestions(m.questions), EncodeRecords(RecordsOf(m)));
    HeaderIs(b, m);
  }

  lemma {:induction false} SectionsBack(b: seq<Byte>, m: WireMessage)
    requires MessageFits(m) && HeaderAt(b, m) && At(b, 12, EncodeQuestions(m.questions))
    requires At(b, 12 + |EncodeQuestions(m.questions)|, EncodeRecords(RecordsOf(m)))
    ensures EncodeMessage(m) <= b
    ensures |EncodeMessage(m)| == 12 + |EncodeQuestions(m.questions)| + |EncodeRecords(RecordsOf(m))|
  {
    HeaderBack(b, m);
    hide EncodeHeader, EncodeQuestions, EncodeRecords, HeaderAt;
    AtJoin(b, 12, EncodeQuestions(m.questions), EncodeRecords(RecordsOf(m)));
    AtJoin(b, 0, EncodeHeader(m), EncodeQuestions(m.questions) + EncodeRecords(RecordsOf(m)));
  }

  /** The response code is the low half of the fourth octet. */
  lemma {:induction false} CodeOctet(b: seq<Byte>, m: WireMessage)
    requires HeaderAt(b, m)
    ensures b[3] % 16 == m.flags.code && (b[2] >= 128 <==> m.flags.response)
  {
    hide U16;
    var flags := [b[2], b[3]];
    assert flags[0] == b[2] && flags[1] == b[3];
  }

  /** Every two octets are the flags of some message. */
  function ReadFlags(hi: Byte, lo: Byte): Flags {
    Flags(hi >= 128, hi / 8 % 16, hi / 4 % 2 == 1, hi / 2 % 2 == 1, hi % 2 == 1, lo >= 128, lo / 16 % 8, lo % 16)
  }

  lemma {:induction false} Halves(x: nat)
    requires x < 256
    ensures x == 128 * Bit(x >= 128) + 16 * (x / 16 % 8) + x % 16
    ensures x == 128 * Bit(x >= 128) + 8 * (x / 8 % 16) + x % 8
    ensures x % 8 == 4 * Bit(x / 4 % 2 == 1) + x % 4
    ensures x % 4 == 2 * Bit(x / 2 % 2 == 1) + Bit(x % 2 == 1)
  {
    var a, b, c, d := x / 16, x / 8, x / 4, x / 2;
    assert x == 16 * a + x % 16 && x == 8 * b + x % 8 && x == 4 * c + x % 4 && x == 2 * d + x % 2;
    assert a == 8 * (a / 8) + a % 8 && b == 16 * (b / 16) + b % 16;
    assert c == 2 * (b) + c % 2;
    assert d == 2 * c + d % 2;
  }

  lemma {:induction false} FlagsBack(hi: Byte, lo: Byte)
    ensures FlagsFit(ReadFlags(hi, lo)) && EncodeFlags(ReadFlags(hi, lo)) == [hi, lo]
  {
    hide Bit;
    Halves(hi);
    Halves(lo);
  }
}
