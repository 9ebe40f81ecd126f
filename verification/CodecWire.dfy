/** What the resolver and its client read and write, in the fields of RFC 1035. */
module CodecWire {
  import opened Bytes
  import opened Wrappers
  import opened Names
  import opened WireFormat
  import opened DnsCodec

  // ---------------------------------------------------------------- the question the resolver reads

  lemma {:induction false} LabelsScanned(b: seq<Byte>, o: nat, n: WireName)
    requires NameFits(n) && n.end == [0] && At(b, o, EncodeName(n))
    ensures ScanLabels(b, o) == LabelScan(n.labels, o + |EncodeName(n)|)
    decreases |n.labels|
  {
    hide EncodeName;
    NameStands(b, o, n);
    if n.labels != [] { LabelsScanned(b, o + 1 + |n.labels[0]|, WireName(n.labels[1..], n.end)); }
  }

  lemma {:induction false} ReadPlainName(b: seq<Byte>, o: nat) returns (n: WireName)
    requires ScanLabels(b, o).LabelScan? && ScanLabels(b, o).next + 4 <= |b|
    ensures NameFits(n) && n.end == [0] && At(b, o, EncodeName(n))
    ensures ScanLabels(b, o) == LabelScan(n.labels, o + |EncodeName(n)|)
    decreases |b| - o
  {
    if b[o] == 0 {
      n := WireName([], [0]);
      assert b[o..o + 1] == [0];
    } else {
      var rest := ReadPlainName(b, o + 1 + b[o]);
      n := NameBack(b, o, b[o + 1..o + 1 + b[o]], rest);
    }
  }

  /** An uncompressed first question of these fields stands behind the header. */
  ghost predicate FirstQuestion(b: seq<Byte>, q: WireQuestion) {
    && |b| >= 12 && U16(b, 4) >= 1 && QuestionFits(q) && q.name.end == [0] && At(b, 12, EncodeQuestion(q))
  }

  /** parseQuestion succeeds exactly on the messages that start with an uncompressed question, and reads its fields:
      the labels joined with dots and normalized, the type, the class and the place after them. */
  lemma {:induction false} QuestionIff(b: seq<Byte>, r: Question)
    ensures QuestionOf(b) == Ok(r) <==> exists q ::
      FirstQuestion(b, q)
      && r == Question(NormalizeName(Join(q.name.labels)), q.qtype, q.qclass, 12 + |EncodeQuestion(q)|)
  {
    hide NormalizeName, Join, EncodeName, EncodeQuestion, ScanLabels, U16, At;
    if QuestionOf(b) == Ok(r) {
      var n := ReadPlainName(b, 12);
      var at := 12 + |EncodeName(n)|;
      var q := WireQuestion(n, U16(b, at), U16(b, at + 2));
      QuestionBack(b, 12, q);
      assert FirstQuestion(b, q);
    }
    forall q | FirstQuestion(b, q)
      ensures QuestionOf(b)
        == Ok(Question(NormalizeName(Join(q.name.labels)), q.qtype, q.qclass, 12 + |EncodeQuestion(q)|))
    {
      QuestionStands(b, 12, q);
      LabelsScanned(b, 12, q.name);
    }
  }

  lemma {:induction false} FirstOf(b: seq<Byte>, m: WireMessage)
    requires MessageFits(m) && EncodeMessage(m) <= b && m.questions != [] && m.questions[0].name.end == [0]
    ensures FirstQuestion(b, m.questions[0])
  {
    hide EncodeMessage, EncodeQuestion, EncodeQuestions, EncodeRecords, U16, At;
    SectionsAt(b, m);
    QuestionsSplit(b, 12, m.questions);
  }

  /** ... so of every message it reads the first question, whatever its type and class. */
  lemma {:induction false} QuestionOfMessage(m: WireMessage, tail: seq<Byte>)
    requires MessageFits(m) && m.questions != [] && m.questions[0].name.end == [0]
    ensures var q := m.questions[0];
      QuestionOf(EncodeMessage(m) + tail)
      == Ok(Question(NormalizeName(Join(q.name.labels)), q.qtype, q.qclass, 12 + |EncodeQuestion(q)|))
  {
    hide EncodeMessage, QuestionOf, NormalizeName, Join, EncodeQuestion, FirstQuestion;
    var q := m.questions[0];
    FirstOf(EncodeMessage(m) + tail, m);
    QuestionIff(EncodeMessage(m) + tail,
                Question(NormalizeName(Join(q.name.labels)), q.qtype, q.qclass, 12 + |EncodeQuestion(q)|));
  }

  function Prefixed(labels: seq<Name>, s: LabelScan): LabelScan {
    if s.LabelFault? then s else LabelScan(labels + s.labels, s.next)
  }

  lemma {:induction false} OneLabelThen(b: seq<Byte>, o: nat, text: Name)
    requires 1 <= |text| <= 63 && o + 1 + |text| <= |b| && b[o] == |text| && At(b, o + 1, text)
    ensures ScanLabels(b, o) == Prefixed([text], ScanLabels(b, o + 1 + |text|))
  {
  }

  lemma {:induction false} PrefixedTwice(text: Name, labels: seq<Name>, s: LabelScan)
    ensures Prefixed([], s) == s
    ensures Prefixed([text], Prefixed(labels, s)) == Prefixed([text] + labels, s)
  {
    if s.LabelScan? {
      assert [text] + (labels + s.labels) == [text] + labels + s.labels;
      assert [] + s.labels == s.labels;
    }
  }

  lemma {:induction false} LabelsThen(b: seq<Byte>, o: nat, labels: seq<Name>)
    requires LabelsFit(labels) && At(b, o, LabelOctets(labels))
    ensures ScanLabels(b, o) == Prefixed(labels, ScanLabels(b, o + |LabelOctets(labels)|))
    decreases |labels|
  {
    hide ScanLabels, Prefixed, At;
    var last := ScanLabels(b, o + |LabelOctets(labels)|);
    if labels == [] {
      PrefixedTwice([], [], last);
    } else {
      LabelsStand(b, o, labels);
      OneLabelThen(b, o, labels[0]);
      LabelsThen(b, o + 1 + |labels[0]|, labels[1..]);
      PrefixedTwice(labels[0], labels[1..], last);
      assert [labels[0]] + labels[1..] == labels;
    }
  }

  /** What parseQuestion reports, in the order it looks: a packet without a header, a header without a question, and
      then, behind any number of good labels, a compression pointer, an octet that is neither a pointer nor
      the length of a label or a label that is cut off, or a name that nothing or too little follows. */
  lemma {:induction false} QuestionFaults(b: seq<Byte>, labels: seq<Name>)
    ensures |b| < 12 ==> QuestionOf(b) == Malformed(ShortPacket)
    ensures |b| >= 12 && U16(b, 4) == 0 ==> QuestionOf(b) == Malformed(NoQuestion)
    ensures |b| >= 12 && U16(b, 4) > 0 && LabelsFit(labels) && At(b, 12, LabelOctets(labels)) ==>
      var p := 12 + |LabelOctets(labels)|;
      && (p < |b| && b[p] >= 192 ==> QuestionOf(b) == Malformed(CompressedName))
      && (p < |b| && 64 <= b[p] < 192 ==> QuestionOf(b) == Malformed(BadName))
      && (p < |b| && 0 < b[p] < 64 && p + 1 + b[p] > |b| ==> QuestionOf(b) == Malformed(BadName))
      && (p == |b| || (b[p] == 0 && p + 5 > |b|) ==> QuestionOf(b) == Malformed(MissingType))
  {
    hide U16, NormalizeName, Join, LabelOctets;
    if |b| >= 12 && LabelsFit(labels) && At(b, 12, LabelOctets(labels)) { LabelsThen(b, 12, labels); }
  }

  // ---------------------------------------------------------------- the query the client writes

  /** The question for the IPv4 address of a name. */
  function AddressQuestion(labels: seq<Name>): WireQuestion { WireQuestion(WireName(labels, [0]), 1, 1) }

  lemma {:induction false} LabelsWritten(labels: seq<Name>)
    requires LabelsFit(labels)
    ensures EncodeName(WireName(labels, [0])) == EncodeLabels(labels) + [0]
    decreases |labels|
  {
    if labels != [] {
      LabelsWritten(labels[1..]);
      assert [|labels[0]|] + (labels[0] + (EncodeLabels(labels[1..]) + [0]))
          == EncodeLabel(labels[0]) + EncodeLabels(labels[1..]) + [0];
    }
  }

  lemma {:induction false} OneQuestion(m: WireMessage)
    requires MessageFits(m) && |m.questions| == 1 && RecordsOf(m) == []
    ensures EncodeMessage(m) == EncodeHeader(m) + EncodeQuestion(m.questions[0])
  {
    hide EncodeQuestion, EncodeHeader;
    assert EncodeQuestions([]) == [];
    var q := m.questions[0];
    assert m.questions[1..] == [];
    assert EncodeQuestions(m.questions) == EncodeQuestion(q) + [] == EncodeQuestion(q);
    assert EncodeQuestion(q) + [] == EncodeQuestion(q);
  }

  /** A standard query with recursion desired, under a fixed ID. */
  function AddressQuery(labels: seq<Name>): WireMessage {
    WireMessage(0x1234, Flags(false, 0, false, false, true, false, 0, 0), [AddressQuestion(labels)], [], [], [])
  }

  lemma {:induction false} AddressQueryFits(labels: seq<Name>)
    requires LabelsFit(labels)
    ensures MessageFits(AddressQuery(labels)) && RecordsOf(AddressQuery(labels)) == []
    ensures EncodeHeader(AddressQuery(labels)) == QUERY_HEADER
  {
    var m := AddressQuery(labels);
    NoRecords(m);
    NoneFit();
    hide RecordsFit, RecordsOf, LabelsFit, Be16, EncodeFlags, QUERY_HEADER;
    assert MessageFits(m);
    FixedFields(m.flags);
  }

  lemma {:induction false} FixedFields(f: Flags)
    requires !f.response && f.opcode == 0 && !f.authoritative && !f.truncated && f.wanted && !f.available
    requires f.reserved == 0 && f.code == 0
    ensures QUERY_HEADER == Be16(0x1234) + (EncodeFlags(f) + (Be16(1) + (Be16(0) + (Be16(0) + Be16(0)))))
  {
    FixedOctets();
    FixedFlags(f);
    FixedNumbers();
    hide QUERY_HEADER, EncodeFlags, Be16;
  }

  lemma {:induction false} FixedOctets()
    ensures QUERY_HEADER == [0x12, 0x34] + ([1, 0] + ([0, 1] + ([0, 0] + ([0, 0] + [0, 0]))))
  {
  }

  lemma {:induction false} FixedFlags(f: Flags)
    requires !f.response && f.opcode == 0 && !f.authoritative && !f.truncated && f.wanted && !f.available
    requires f.reserved == 0 && f.code == 0
    ensures EncodeFlags(f) == [1, 0]
  {
  }

  lemma {:induction false} FixedNumbers()
    ensures Be16(0x1234) == [0x12, 0x34] && Be16(1) == [0, 1] && Be16(0) == [0, 0]
  {
  }

  /** buildQuery writes that query for the labels of the name. */
  lemma {:induction false} QueryIs(name: Name)
    requires LabelsFit(QueryLabels(name))
    ensures MessageFits(AddressQuery(QueryLabels(name)))
    ensures QueryFor(name) == EncodeMessage(AddressQuery(QueryLabels(name)))
  {
    hide QueryLabels, EncodeLabels, EncodeName, EncodeHeader, EncodeMessage, RecordsOf, QUERY_HEADER;
    var labels := QueryLabels(name);
    AddressQueryFits(labels);
    LabelsWritten(labels);
    OneQuestion(AddressQuery(labels));
    assert Be16(1) == [0, 1];
    assert EncodeQuestion(AddressQuestion(labels)) == EncodeLabels(labels) + [0, 0, 1, 0, 1];
    assert QUERY_HEADER + (EncodeLabels(labels) + [0, 0, 1, 0, 1]) == QueryFor(name);
  }

  /** The labels buildQuery writes for a name are the pieces of it, with or without a dot at its end. */
  lemma {:induction false} QueryLabelsOf(labels: seq<Name>)
    requires labels != [] && forall i :: 0 <= i < |labels| ==> labels[i] != [] && 46 !in labels[i]
    ensures QueryLabels(Join(labels)) == labels && QueryLabels(Join(labels) + [46]) == labels
  {
    var name := Join(labels);
    LastOctet(labels);
    assert TrimDot(name) == name;
    assert (name + [46])[..|name|] == name;
    assert TrimDot(name + [46]) == name;
    hide TrimDot, Join, Split;
    SplitJoin(labels);
    NonEmptyAll(labels);
  }

  lemma {:induction false} LastOctet(labels: seq<Name>)
    requires labels != [] && forall i :: 0 <= i < |labels| ==> labels[i] != [] && 46 !in labels[i]
    ensures Join(labels) != [] && Join(labels)[|Join(labels)| - 1] != 46
    decreases |labels|
  {
    if |labels| == 1 {
      assert labels[0][|labels[0]| - 1] in labels[0];
    } else {
      LastOctet(labels[1..]);
    }
  }

  // ---------------------------------------------------------------- the reply the resolver writes

  /** A response that offers recursion, with this code. */
  function Answered(f: Flags, code: nat): Flags { f.(response := true, available := true, code := code) }

  lemma {:induction false} FlagsAnswered(f: Flags, code: nat)
    requires FlagsFit(f) && code < 16
    ensures FlagsFit(Answered(f, code))
    ensures var flags := ReplyFlags(EncodeFlags(f)[0], EncodeFlags(f)[1]);
      EncodeFlags(Answered(f, code)) == [flags[0], flags[1] + code]
  {
    var hi, lo: nat := EncodeFlags(f)[0], EncodeFlags(f)[1];
    assert hi >= 128 <==> f.response;
    assert lo >= 128 <==> f.available;
    assert Or80(lo) == 16 * (8 + f.reserved) + f.code;
    assert Or80(lo) % 16 == f.code;
  }

  lemma {:induction false} HeaderOfReply(query: seq<Byte>, m: WireMessage, qd: seq<Byte>, reply: WireMessage)
    requires HeaderAt(query, m) && MessageFits(reply) && |qd| == 2
    requires reply.id == m.id && reply.flags.code < 16 && reply.flags == Answered(m.flags, reply.flags.code)
    requires U16(qd, 0) == |reply.questions| && reply.authority == [] && reply.additional == []
    ensures ReplyHeader(query, qd, |reply.answers|, reply.flags.code) == EncodeHeader(reply)
  {
    hide EncodeFlags, EncodeHeader, QuestionsFit, RecordsFit, Be16, ReplyFlags;
    var h := ReplyHeader(query, qd, |reply.answers|, reply.flags.code);
    FlagsAnswered(m.flags, reply.flags.code);
    var flags := [query[2], query[3]];
    assert flags[0] == query[2] && flags[1] == query[3];
    assert [h[2], h[3]] == EncodeFlags(reply.flags);
    assert h[0] == query[0] && h[1] == query[1] && h[4] == qd[0] && h[5] == qd[1];
    assert h[6] == Be16(|reply.answers|)[0] && h[7] == Be16(|reply.answers|)[1];
    assert U16(h, 6) == U16(Be16(|reply.answers|), 0);
    HeaderBack(h, reply);
    assert h[0..12] == h;
  }

  /** The A record of an address, under a pointer to the name at octet 12. */
  function AnswerRecord(p: Address, ttl: nat): WireRecord { WireRecord(WireName([], [0xc0, 0x0c]), 1, 1, ttl, p) }

  function AnswerRecords(addresses: seq<Address>, ttl: nat): (r: seq<WireRecord>)
    ensures |r| == |addresses| && forall i :: 0 <= i < |r| ==> r[i] == AnswerRecord(addresses[i], ttl)
  {
    seq(|addresses|, i requires 0 <= i < |addresses| => AnswerRecord(addresses[i], ttl))
  }

  lemma {:induction false} EncodeAppend(rs: seq<WireRecord>, r: WireRecord)
    requires RecordsFit(rs) && RecordFits(r)
    ensures RecordsFit(rs + [r]) && EncodeRecords(rs + [r]) == EncodeRecords(rs) + EncodeRecord(r)
    decreases |rs|
  {
    hide EncodeRecord;
    if rs == [] {
      assert rs + [r] == [r] && [r][1..] == [];
      assert EncodeRecord(r) + [] == EncodeRecord(r) == [] + EncodeRecord(r);
    } else {
      EncodeAppend(rs[1..], r);
      assert (rs + [r])[1..] == rs[1..] + [r];
    }
  }

  lemma {:induction false} OneAnswer(p: Address, ttl: nat)
    requires ttl < TWO_TO_THE_32
    ensures RecordFits(AnswerRecord(p, ttl)) && EncodeRecord(AnswerRecord(p, ttl)) == ARecord(p, ttl)
  {
    hide Be32;
    assert EncodeName(WireName([], [0xc0, 0x0c])) == [0xc0, 0x0c];
    assert Be16(1) == [0, 1] && Be16(4) == [0, 4];
  }

  lemma {:induction false} AnswersWritten(addresses: seq<Address>, ttl: nat)
    requires ttl < TWO_TO_THE_32
    ensures RecordsFit(AnswerRecords(addresses, ttl))
    ensures EncodeRecords(AnswerRecords(addresses, ttl)) == ARecords(addresses, ttl)
    decreases |addresses|
  {
    hide ARecord, EncodeRecord;
    if addresses == [] {
      assert AnswerRecords(addresses, ttl) == [];
    } else {
      var n := |addresses| - 1;
      AnswersWritten(addresses[..n], ttl);
      OneAnswer(addresses[n], ttl);
      EncodeAppend(AnswerRecords(addresses[..n], ttl), AnswerRecord(addresses[n], ttl));
      assert AnswerRecords(addresses, ttl)
          == AnswerRecords(addresses[..n], ttl) + [AnswerRecord(addresses[n], ttl)];
    }
  }

  /** The message makeAResponse sends: the first question, answered with one A record per address. */
  function ReplyMessage(m: WireMessage, addresses: seq<Address>, ttl: nat): WireMessage
    requires m.questions != []
  {
    WireMessage(m.id, Answered(m.flags, 0), [m.questions[0]],
                AnswerRecords(addresses, if ttl == 0 then 60 else ttl), [], [])
  }

  lemma {:induction false} ReplyFits(m: WireMessage, addresses: seq<Address>, ttl: nat)
    requires MessageFits(m) && m.questions != [] && |addresses| < 65536 && ttl < TWO_TO_THE_32
    ensures var r := ReplyMessage(m, addresses, ttl);
      && MessageFits(r) && RecordsOf(r) == r.answers
      && EncodeRecords(r.answers) == ARecords(addresses, EffectiveTtl(ttl))
      && EncodeQuestions(r.questions) == EncodeQuestion(m.questions[0])
  {
    var r := ReplyMessage(m, addresses, ttl);
    hide EncodeQuestion, AnswerRecord, ARecord, EncodeRecords;
    AnswersWritten(addresses, EffectiveTtl(ttl));
    assert RecordsOf(r) == r.answers;
    assert QuestionFits(m.questions[0]) && r.questions[1..] == [];
    assert EncodeQuestion(m.questions[0]) + [] == EncodeQuestion(m.questions[0]);
  }

  /** For every message that starts with an uncompressed question, and 1 to 65535 addresses: the reply is that
      message under the same ID, its flags turned into a response's, with that question and, for each
      address in order, an A record of class IN with the TTL asked for, 60 seconds if that is zero. */
  lemma {:induction false} ReplyIs(m: WireMessage, tail: seq<Byte>, q: Question, ips: seq<Option<Address>>, ttl: nat)
    requires MessageFits(m) && m.questions != [] && m.questions[0].name.end == [0]
    requires QuestionOf(EncodeMessage(m) + tail) == Ok(q)
    requires 1 <= |Parsable(ips)| <= 65535 && ttl < TWO_TO_THE_32
    ensures MessageFits(ReplyMessage(m, Parsable(ips), ttl)) && 12 <= q.end
    ensures AResponse(EncodeMessage(m) + tail, q, ips, ttl) == EncodeMessage(ReplyMessage(m, Parsable(ips), ttl))
  {
    hide EncodeMessage, EncodeQuestion, EncodeQuestions, EncodeRecords, ARecords, QuestionOf, NormalizeName, Join,
         ReplyHeader, EncodeHeader, U16, QuestionsFit, RecordsFit;
    var query, addresses := EncodeMessage(m) + tail, Parsable(ips);
    var r := ReplyMessage(m, addresses, ttl);
    SectionsAt(query, m);
    FirstOf(query, m);
    QuestionOfMessage(m, tail);
    ReplyFits(m, addresses, ttl);
    OneQuestionCounted();
    HeaderOfReply(query, m, [0, 1], r);
    assert query[12..q.end] == EncodeQuestion(m.questions[0]);
    WholeReply(r);
  }

  lemma {:induction false} WholeReply(r: WireMessage)
    requires MessageFits(r)
    ensures EncodeMessage(r) == EncodeHeader(r) + EncodeQuestions(r.questions) + EncodeRecords(RecordsOf(r))
  {
    hide EncodeHeader, EncodeQuestions, EncodeRecords;
  }

  lemma {:induction false} OneQuestionCounted()
    ensures U16([0, 1], 0) == 1
  {
  }

  function ErrorMessage(m: WireMessage, code: nat): WireMessage {
    WireMessage(m.id, Answered(m.flags, code), m.questions, [], [], [])
  }

  lemma {:induction false} ErrorParts(m: WireMessage, code: nat)
    requires MessageFits(m) && code < 16
    ensures MessageFits(ErrorMessage(m, code))
    ensures EncodeMessage(ErrorMessage(m, code)) == EncodeHeader(ErrorMessage(m, code)) + EncodeQuestions(m.questions)
  {
    hide EncodeHeader, EncodeQuestions;
    var r := ErrorMessage(m, code);
    NoRecords(r);
    NoneFit();
    assert EncodeQuestions(r.questions) + [] == EncodeQuestions(r.questions);
  }

  /** An error response is the same message as a response with this code, its records no longer counted: their
      octets and what stood behind them are left after the message. */
  lemma {:induction false} ErrorIs(m: WireMessage, tail: seq<Byte>, code: nat)
    requires MessageFits(m) && code < 16
    ensures MessageFits(ErrorMessage(m, code))
    ensures ErrorResponse(EncodeMessage(m) + tail, code)
      == EncodeMessage(ErrorMessage(m, code)) + (EncodeRecords(RecordsOf(m)) + tail)
  {
    hide EncodeMessage, EncodeQuestions, EncodeRecords, ReplyHeader, EncodeHeader, U16, QuestionsFit, RecordsFit,
         FlagsFit, HeaderAt, RecordsOf;
    var query := EncodeMessage(m) + tail;
    ErrorParts(m, code);
    SectionsAt(query, m);
    ErrorHeaderIs(query, m, code);
    WholeReply(m);
    Regroup(EncodeHeader(m), EncodeHeader(ErrorMessage(m, code)), EncodeQuestions(m.questions),
            EncodeRecords(RecordsOf(m)), tail);
  }

  lemma {:induction false} Regroup(h: seq<Byte>, g: seq<Byte>, q: seq<Byte>, r: seq<Byte>, tail: seq<Byte>)
    requires |h| == 12
    ensures |h + q + r + tail| >= 12 && g + (h + q + r + tail)[12..] == (g + q) + (r + tail)
  {
    assert (h + q + r + tail)[12..] == q + r + tail;
  }

  lemma {:induction false} ErrorHeaderIs(query: seq<Byte>, m: WireMessage, code: nat)
    requires HeaderAt(query, m) && MessageFits(ErrorMessage(m, code)) && code < 16
    ensures ReplyHeader(query, query[4..6], 0, code) == EncodeHeader(ErrorMessage(m, code))
  {
    hide ReplyHeader, EncodeHeader, U16, RecordsFit, QuestionsFit, EncodeFlags;
    U16Slice(query);
    HeaderOfReply(query, m, query[4..6], ErrorMessage(m, code));
  }

  /** Without a usable address the reply is the error response of code 2, a server failure. */
  lemma {:induction false} NoAddressIs(m: WireMessage, tail: seq<Byte>, q: Question, ips: seq<Option<Address>>,
                                       ttl: nat)
    requires MessageFits(m) && 12 <= q.end && ttl < TWO_TO_THE_32 && forall i :: 0 <= i < |ips| ==> ips[i].None?
    ensures MessageFits(ErrorMessage(m, 2))
    ensures AResponse(EncodeMessage(m) + tail, q, ips, ttl)
      == EncodeMessage(ErrorMessage(m, 2)) + (EncodeRecords(RecordsOf(m)) + tail)
  {
    hide EncodeMessage, ErrorResponse, EncodeRecords, MessageFits, ErrorMessage;
    NoneParsable(ips);
    ErrorIs(m, tail, 2);
  }

  lemma {:induction false} NoneParsable(ips: seq<Option<Address>>)
    requires forall i :: 0 <= i < |ips| ==> ips[i].None?
    ensures Parsable(ips) == []
    decreases |ips|
  {
    if ips != [] { NoneParsable(ips[1..]); }
  }

  lemma {:induction false} NoRecords(r: WireMessage)
    requires r.answers == [] && r.authority == [] && r.additional == []
    ensures RecordsOf(r) == []
  {
  }

  lemma {:induction false} NoneFit()
    ensures RecordsFit([]) && EncodeRecords([]) == []
  {
  }

  lemma {:induction false} U16Slice(b: seq<Byte>)
    requires |b| >= 6
    ensures U16(b[4..6], 0) == U16(b, 4)
  {
  }

  /** The usable addresses of a list are those of its parts. */
  lemma {:induction false} ParsableParts(xs: seq<Option<Address>>, ys: seq<Option<Address>>)
    ensures Parsable(xs + ys) == Parsable(xs) + Parsable(ys)
    decreases |xs|
  {
    if xs == [] {
      assert xs + ys == ys;
    } else {
      ParsableParts(xs[1..], ys);
      assert (xs + ys)[1..] == xs[1..] + ys;
    }
  }

  /** ... and of a single entry, the address if it parsed. */
  lemma {:induction false} ParsableOne(x: Option<Address>)
    ensures Parsable([x]) == if x.Some? then [x.value] else []
  {
    assert [x][1..] == [];
  }

  // ---------------------------------------------------------------- the answers the client reads

  lemma {:induction false} NameEnds(b: seq<Byte>, o: nat, n: WireName)
    requires NameFits(n) && At(b, o, EncodeName(n))
    ensures QNameEnd(b, o) == o + |EncodeName(n)| && SkipLoose(b, o) == Some(o + |EncodeName(n)|)
    decreases |n.labels|
  {
    hide EncodeName;
    NameStands(b, o, n);
    if n.labels != [] { NameEnds(b, o + 1 + |n.labels[0]|, WireName(n.labels[1..], n.end)); }
  }

  lemma {:induction false} NameRead(b: seq<Byte>, cap: nat, o: nat, n: WireName)
    requires NameFits(n) && At(b, o, EncodeName(n)) && |b| <= cap
    ensures QNameLabels(b, cap, o, o + |EncodeName(n)|) == Some(n.labels)
    decreases |n.labels|
  {
    hide EncodeName;
    NameStands(b, o, n);
    if n.labels != [] {
      NameRead(b, cap, o + 1 + |n.labels[0]|, WireName(n.labels[1..], n.end));
      assert n.labels == [n.labels[0]] + n.labels[1..];
    }
  }

  /** The name of the last question, up to a pointer; the given one without questions. */
  function LastName(name: Name, qs: seq<WireQuestion>): Name {
    if qs == [] then name else Join(qs[|qs| - 1].name.labels)
  }

  lemma {:induction false} QuestionsRead(b: seq<Byte>, cap: nat, o: nat, name: Name, qs: seq<WireQuestion>)
    requires QuestionsFit(qs) && At(b, o, EncodeQuestions(qs)) && |b| <= cap
    ensures QuestionSection(b, cap, o, name, |qs|) == Some((o + |EncodeQuestions(qs)|, LastName(name, qs)))
    ensures !QuestionPanics(b, cap, o, |qs|)
    decreases |qs|
  {
    hide EncodeQuestion, EncodeName, QNameEnd, QNameLabels, U16, At, Join;
    if qs != [] {
      QuestionsSplit(b, o, qs);
      QuestionStands(b, o, qs[0]);
      NameEnds(b, o, qs[0].name);
      NameRead(b, cap, o, qs[0].name);
      QuestionsRead(b, cap, o + |EncodeQuestion(qs[0])|, Join(qs[0].name.labels), qs[1..]);
    }
  }

  /** The data of the A records, in order; the client looks at neither their names nor their class. */
  function Addresses(rs: seq<WireRecord>): seq<Address> {
    if rs == [] then [] else
    (if rs[0].rtype == 1 && |rs[0].data| == 4 then [rs[0].data] else []) + Addresses(rs[1..])
  }

  lemma {:induction false} AnswersSection(b: seq<Byte>, o: nat, rs: seq<WireRecord>)
    requires RecordsFit(rs) && At(b, o, EncodeRecords(rs))
    ensures AnswerSection(b, o, |rs|) == Some(Addresses(rs))
    decreases |rs|
  {
    hide EncodeRecord, EncodeName, SkipLoose, U16, U32;
    if rs != [] {
      RecordsSplit(b, o, rs);
      RecordStands(b, o, rs[0]);
      NameEnds(b, o, rs[0].name);
      AnswersSection(b, o + |EncodeRecord(rs[0])|, rs[1..]);
    }
  }

  lemma {:induction false} AnswersFirst(b: seq<Byte>, o: nat, xs: seq<WireRecord>, ys: seq<WireRecord>)
    requires RecordsFit(xs + ys) && At(b, o, EncodeRecords(xs + ys))
    ensures RecordsFit(xs) && At(b, o, EncodeRecords(xs))
    decreases |xs|
  {
    hide EncodeRecord;
    forall i | 0 <= i < |xs| ensures RecordFits(xs[i]) { assert (xs + ys)[i] == xs[i]; }
    if xs == [] {
      AtInside(b, o, EncodeRecords(xs + ys));
    } else {
      RecordsSplit(b, o, xs + ys);
      assert (xs + ys)[1..] == xs[1..] + ys;
      AnswersFirst(b, o + |EncodeRecord(xs[0])|, xs[1..], ys);
      RecordsJoin(b, o, xs[0], xs[1..]);
      assert [xs[0]] + xs[1..] == xs;
    }
  }

  /** Of every message, parseAnswers reads the code, the addresses of its A records in order, whatever other records
      stand between them, and the name of its last question; records of other sections change nothing. */
  lemma {:induction false} AnswersOfMessage(m: WireMessage, tail: seq<Byte>, cap: nat)
    requires MessageFits(m) && |EncodeMessage(m) + tail| <= cap
    ensures AnswersOf(EncodeMessage(m) + tail, cap)
      == Answers(Addresses(m.answers), m.flags.code, LastName([], m.questions))
  {
    hide EncodeMessage, EncodeQuestions, EncodeRecords, EncodeFlags, QuestionSection, QuestionPanics, AnswerSection,
         U16, At, Addresses, LastName;
    var b := EncodeMessage(m) + tail;
    SectionsAt(b, m);
    QuestionsRead(b, cap, 12, [], m.questions);
    var o := 12 + |EncodeQuestions(m.questions)|;
    assert RecordsOf(m) == m.answers + (m.authority + m.additional);
    AnswersFirst(b, o, m.answers, m.authority + m.additional);
    AnswersSection(b, o, m.answers);
    CodeOctet(b, m);
  }

  function Joined(seen: seq<Address>, rest: Option<seq<Address>>): Option<seq<Address>> {
    if rest.None? then None else Some(seen + rest.value)
  }

  lemma {:induction false} AnswersThen(b: seq<Byte>, o: nat, got: seq<WireRecord>, n: nat)
    requires RecordsFit(got) && At(b, o, EncodeRecords(got)) && |got| <= n
    ensures AnswerSection(b, o, n)
      == Joined(Addresses(got), AnswerSection(b, o + |EncodeRecords(got)|, n - |got|))
    decreases |got|
  {
    hide EncodeRecord, AnswerSection;
    var rest := AnswerSection(b, o + |EncodeRecords(got)|, n - |got|);
    if got == [] {
      if rest.Some? { assert [] + rest.value == rest.value; }
    } else {
      RecordsSplit(b, o, got);
      AnswersThen(b, o + |EncodeRecord(got[0])|, got[1..], n - 1);
      OneAnswerThen(b, o, got[0], n);
      if rest.Some? { Regrouped(Addresses([got[0]]), Addresses(got[1..]), rest.value); }
      AddressesSplit(got);
    }
  }

  lemma {:induction false} AddressesSplit(rs: seq<WireRecord>)
    requires rs != []
    ensures Addresses(rs) == Addresses([rs[0]]) + Addresses(rs[1..])
  {
    assert [rs[0]][1..] == [];
  }

  lemma {:induction false} Regrouped(x: seq<Address>, y: seq<Address>, z: seq<Address>)
    ensures x + (y + z) == x + y + z
  {
  }

  lemma {:induction false} OneAnswerThen(b: seq<Byte>, o: nat, r: WireRecord, n: nat)
    requires RecordFits(r) && At(b, o, EncodeRecord(r)) && n > 0
    ensures AnswerSection(b, o, n) == Joined(Addresses([r]), AnswerSection(b, o + |EncodeRecord(r)|, n - 1))
  {
    hide EncodeRecord, EncodeName, SkipLoose, U16, U32;
    RecordStands(b, o, r);
    NameEnds(b, o, r.name);
    AtInside(b, o, EncodeName(r.name));
    var own: seq<Address> := if r.rtype == 1 && |r.data| == 4 then [r.data] else [];
    assert [r][1..] == [] && own + [] == own;
    assert Addresses([r]) == own;
  }

  /** A name that is cut off, but not before its first octet, cannot be skipped. */
  lemma {:induction false} CutNameLoose(b: seq<Byte>, o: nat, n: WireName)
    requires NameFits(n) && o < |b| < o + |EncodeName(n)| && b[o..] == EncodeName(n)[..|b| - o]
    ensures SkipLoose(b, o) == None
    decreases |n.labels|
  {
    assert b[o] == b[o..][0];
    if n.labels != [] {
      var rest := WireName(n.labels[1..], n.end);
      var next := o + 1 + |n.labels[0]|;
      assert EncodeName(n)[1 + |n.labels[0]|..] == EncodeName(rest);
      if next < |b| {
        assert b[next..] == b[o..][1 + |n.labels[0]|..] == EncodeName(rest)[..|b| - next];
        CutNameLoose(b, next, rest);
      }
    }
  }

  lemma {:induction false} CutRecord(b: seq<Byte>, o: nat, r: WireRecord, n: nat)
    requires RecordFits(r) && n > 0 && o <= |b| < o + |EncodeRecord(r)| && b[o..] == EncodeRecord(r)[..|b| - o]
    ensures AnswerSection(b, o, n) == if o < |b| < o + |EncodeName(r.name)| then None else Some([])
  {
    hide U16, U32, EncodeName, SkipLoose, Be16, Be32;
    var k, name := |b| - o, EncodeName(r.name);
    if 0 < k < |name| {
      assert b[o..] == name[..k];
      CutNameLoose(b, o, r.name);
    } else if k > 0 {
      assert b[o..o + |name|] == b[o..][..|name|] == name;
      NameEnds(b, o, r.name);
      var c := b[..o] + EncodeRecord(r);
      assert c[o..o + |EncodeRecord(r)|] == EncodeRecord(r);
      RecordStands(c, o, r);
      var at := o + |name|;
      if at + 10 <= |b| {
        assert forall i :: at <= i < |b| ==> b[i] == b[o..][i - o] == c[i];
        U16Same(c, b, at + 8);
      }
    }
  }

  /** A reply cut off anywhere in its answers: the addresses of the records that came whole, or an error if the cut
      lies in a name, behind its first octet. */
  lemma {:induction false} CutReply(m: WireMessage, got: seq<WireRecord>, r: WireRecord, k: nat, cap: nat)
    requires MessageFits(m) && got + [r] <= m.answers && RecordsFit(got) && RecordFits(r) && k < |EncodeRecord(r)|
    requires |EncodeHeader(m) + EncodeQuestions(m.questions) + EncodeRecords(got) + EncodeRecord(r)[..k]| <= cap
    ensures var b := EncodeHeader(m) + EncodeQuestions(m.questions) + EncodeRecords(got) + EncodeRecord(r)[..k];
      AnswersOf(b, cap) == if 0 < k < |EncodeName(r.name)| then AnswerError
                           else Answers(Addresses(got), m.flags.code, LastName([], m.questions))
  {
    hide EncodeQuestions, EncodeRecords, EncodeRecord, EncodeName, EncodeHeader, EncodeFlags, QuestionSection,
         QuestionPanics, AnswerSection, U16, Addresses, LastName, RecordsFit, QuestionsFit, RecordFits;
    var h, q, g, x := EncodeHeader(m), EncodeQuestions(m.questions), EncodeRecords(got), EncodeRecord(r)[..k];
    var b := h + q + g + x;
    FourParts(h, q, g, x);
    HeaderIs(b, m);
    QuestionsRead(b, cap, 12, [], m.questions);
    AnswersThen(b, 12 + |q|, got, |m.answers|);
    CutRecord(b, 12 + |q| + |g|, r, |m.answers| - |got|);
    assert Addresses(got) + [] == Addresses(got);
    CodeOctet(b, m);
  }

  lemma {:induction false} FourParts(h: seq<Byte>, q: seq<Byte>, g: seq<Byte>, x: seq<Byte>)
    ensures var b := h + q + g + x;
      At(b, 0, h) && At(b, |h|, q) && At(b, |h| + |q|, g) && b[|h| + |q| + |g|..] == x
  {
  }

  /** The client reads the addresses the resolver writes. */
  lemma {:induction false} AddressesBack(addresses: seq<Address>, ttl: nat)
    ensures Addresses(AnswerRecords(addresses, ttl)) == addresses
    decreases |addresses|
  {
    if addresses != [] {
      AddressesBack(addresses[1..], ttl);
      assert AnswerRecords(addresses, ttl)[1..] == AnswerRecords(addresses[1..], ttl);
      assert addresses == [addresses[0]] + addresses[1..];
    } else {
      assert AnswerRecords(addresses, ttl) == [];
    }
  }
}
