/** What the stream decoder takes for a query, in the fields of RFC 1035 alone. */
module DotQueries {
  import opened Bytes
  import opened WireFormat
  import opened DotStream

  /** A query as nextDoTFrame wants it: 1 to 16 questions of any type and class but zero, no answer and no
      authority record, at most 16 additional records of any kind, names of at most 128 labels, and a first
      name with a label. Any name may end in a compression pointer. */
  ghost predicate IsQuery(m: WireMessage) {
    && MessageFits(m) && 1 <= |m.questions| <= 16 && m.answers == [] && m.authority == [] && |m.additional| <= 16
    && (forall i :: 0 <= i < |m.questions| ==>
          m.questions[i].qtype > 0 && m.questions[i].qclass > 0 && |m.questions[i].name.labels| <= 128)
    && (forall i :: 0 <= i < |m.additional| ==> |m.additional[i].name.labels| <= 128)
    && m.questions[0].name.labels != []
  }

  // ---------------------------------------------------------------- every query is accepted

  lemma {:induction false} NameScanned(b: seq<Byte>, o: nat, n: WireName, seen: nat)
    requires NameFits(n) && At(b, o, EncodeName(n)) && seen + |n.labels| <= 128
    ensures ScanName(b, o, seen) == NameDone(o + |EncodeName(n)|, seen + |n.labels|)
    decreases |n.labels|
  {
    hide EncodeName, At;
    NameStands(b, o, n);
    if n.labels != [] { NameScanned(b, o + 1 + |n.labels[0]|, WireName(n.labels[1..], n.end), seen + 1); }
  }

  ghost predicate Askable(qs: seq<WireQuestion>) {
    QuestionsFit(qs)
    && forall i :: 0 <= i < |qs| ==> qs[i].qtype > 0 && qs[i].qclass > 0 && |qs[i].name.labels| <= 128
  }

  ghost predicate Attachable(rs: seq<WireRecord>) {
    RecordsFit(rs) && forall i :: 0 <= i < |rs| ==> |rs[i].name.labels| <= 128
  }

  lemma {:induction false} QuestionsScanned(b: seq<Byte>, o: nat, qs: seq<WireQuestion>)
    requires Askable(qs) && At(b, o, EncodeQuestions(qs))
    ensures ScanQuestions(b, o, |qs|) == Done(o + |EncodeQuestions(qs)|)
    decreases |qs|
  {
    hide EncodeQuestion, EncodeName, ScanName, U16, At;
    if qs != [] {
      QuestionsSplit(b, o, qs);
      QuestionStands(b, o, qs[0]);
      NameScanned(b, o, qs[0].name, 0);
      QuestionsScanned(b, o + |EncodeQuestion(qs[0])|, qs[1..]);
    }
  }

  lemma {:induction false} AdditionalScanned(b: seq<Byte>, o: nat, rs: seq<WireRecord>)
    requires Attachable(rs) && At(b, o, EncodeRecords(rs))
    ensures ScanAdditional(b, o, |rs|) == Done(o + |EncodeRecords(rs)|)
    decreases |rs|
  {
    hide EncodeRecord, EncodeName, ScanName, U16, U32, At;
    if rs != [] {
      RecordsSplit(b, o, rs);
      RecordStands(b, o, rs[0]);
      NameScanned(b, o, rs[0].name, 0);
      AdditionalScanned(b, o + |EncodeRecord(rs[0])|, rs[1..]);
    }
  }

  /** Every query is a complete message, whatever follows it. */
  lemma {:induction false} QueryAccepted(m: WireMessage, tail: seq<Byte>)
    requires IsQuery(m)
    ensures MessageLen(EncodeMessage(m) + tail) == Done(|EncodeMessage(m)|)
  {
    hide EncodeQuestions, EncodeRecords, EncodeMessage, ScanName, ScanQuestions, ScanAdditional, U16, At;
    var b := EncodeMessage(m) + tail;
    SectionsAt(b, m);
    NoAnswers(m);
    QuestionsScanned(b, 12, m.questions);
    AdditionalScanned(b, 12 + |EncodeQuestions(m.questions)|, m.additional);
    FirstName(b, m.questions);
  }

  lemma {:induction false} NoAnswers(m: WireMessage)
    requires m.answers == [] && m.authority == []
    ensures RecordsOf(m) == m.additional
  {
  }

  lemma {:induction false} FirstName(b: seq<Byte>, qs: seq<WireQuestion>)
    requires Askable(qs) && qs != [] && At(b, 12, EncodeQuestions(qs))
    ensures ScanName(b, 12, 0) == NameDone(12 + |EncodeName(qs[0].name)|, |qs[0].name.labels|)
  {
    hide EncodeQuestion, EncodeQuestions, EncodeName, ScanName, At;
    QuestionsSplit(b, 12, qs);
    QuestionStands(b, 12, qs[0]);
    NameScanned(b, 12, qs[0].name, 0);
  }

  // ---------------------------------------------------------------- nothing else is

  lemma {:induction false} ReadName(b: seq<Byte>, o: nat, seen: nat) returns (n: WireName)
    requires ScanName(b, o, seen).NameDone? && seen <= 128
    ensures NameFits(n) && At(b, o, EncodeName(n))
    ensures ScanName(b, o, seen) == NameDone(o + |EncodeName(n)|, seen + |n.labels|) && seen + |n.labels| <= 128
    decreases |b| - o
  {
    if b[o] == 0 {
      n := WireName([], [0]);
      assert b[o..o + 1] == [0];
    } else if b[o] >= 192 {
      n := WireName([], b[o..o + 2]);
    } else {
      var text := b[o + 1..o + 1 + b[o]];
      var rest := ReadName(b, o + 1 + b[o], seen + 1);
      n := NameBack(b, o, text, rest);
    }
  }

  lemma {:induction false} ReadQuestions(b: seq<Byte>, o: nat, n: nat) returns (qs: seq<WireQuestion>)
    requires o <= |b| && ScanQuestions(b, o, n).Done?
    ensures Askable(qs) && |qs| == n && At(b, o, EncodeQuestions(qs))
    ensures ScanQuestions(b, o, n).next == o + |EncodeQuestions(qs)|
    decreases n
  {
    hide EncodeName, EncodeQuestion, ScanName, U16, At;
    if n == 0 {
      qs := [];
      Nothing(b, o);
    } else {
      var name := ReadName(b, o, 0);
      var at := o + |EncodeName(name)|;
      var q := WireQuestion(name, U16(b, at), U16(b, at + 2));
      QuestionBack(b, o, q);
      var rest := ReadQuestions(b, at + 4, n - 1);
      QuestionsJoin(b, o, q, rest);
      qs := [q] + rest;
    }
  }

  lemma {:induction false} ReadAdditional(b: seq<Byte>, o: nat, n: nat) returns (rs: seq<WireRecord>)
    requires o <= |b| && ScanAdditional(b, o, n).Done?
    ensures Attachable(rs) && |rs| == n && At(b, o, EncodeRecords(rs))
    ensures ScanAdditional(b, o, n).next == o + |EncodeRecords(rs)|
    decreases n
  {
    hide EncodeName, EncodeRecord, ScanName, U16, U32;
    if n == 0 {
      rs := [];
    } else {
      var name := ReadName(b, o, 0);
      var at := o + |EncodeName(name)|;
      var r := WireRecord(name, U16(b, at), U16(b, at + 2), U32(b, at + 4), b[at + 10..at + 10 + U16(b, at + 8)]);
      RecordBack(b, o, r);
      var rest := ReadAdditional(b, at + 10 + |r.data|, n - 1);
      RecordsJoin(b, o, r, rest);
      rs := [r] + rest;
    }
  }

  lemma {:induction false} ReadQuery(b: seq<Byte>) returns (m: WireMessage)
    requires MessageLen(b) == Done(|b|)
    ensures IsQuery(m) && b == EncodeMessage(m)
  {
    hide EncodeQuestions, EncodeRecords, EncodeMessage, EncodeFlags, ReadFlags, ScanName, ScanQuestions,
         ScanAdditional, U16, At;
    var qs := ReadQuestions(b, 12, U16(b, 4));
    var rs := ReadAdditional(b, 12 + |EncodeQuestions(qs)|, U16(b, 10));
    FlagsBack(b[2], b[3]);
    m := WireMessage(U16(b, 0), ReadFlags(b[2], b[3]), qs, [], [], rs);
    NoAnswers(m);
    SectionsBack(b, m);
    assert |EncodeMessage(m)| == |b|;
    assert EncodeMessage(m) == b;
    FirstName(b, qs);
  }

  /** The octets are those of a query and of nothing else. */
  ghost predicate EncodesAQuery(b: seq<Byte>) { exists m :: IsQuery(m) && b == EncodeMessage(m) }

  /** The complete messages are the queries, written out: a buffer is one message exactly if it is the encoding
      of a query. */
  lemma {:induction false} MessageIff(b: seq<Byte>)
    ensures MessageLen(b) == Done(|b|) <==> EncodesAQuery(b)
  {
    hide EncodeMessage, MessageLen;
    if MessageLen(b) == Done(|b|) {
      var m := ReadQuery(b);
      assert EncodesAQuery(b);
    }
    if EncodesAQuery(b) {
      var m :| IsQuery(m) && b == EncodeMessage(m);
      QueryAccepted(m, []);
      assert EncodeMessage(m) + [] == EncodeMessage(m);
    }
  }

  /** The messages of the stream theorems are these: any query bare, and one of at most 4096 octets behind its
      length. */
  lemma {:induction false} WellFormedIff(q: seq<Byte>, framed: bool)
    ensures WellFormed(Msg(q, framed)) <==> EncodesAQuery(q) && (framed ==> |q| <= 4096)
  {
    hide MessageLen, EncodesAQuery;
    MessageIff(q);
  }

  /** A buffer gives a query, of either kind, exactly if it starts with one; the rest is what follows it. */
  lemma {:induction false} FrameIff(buf: seq<Byte>, q: seq<Byte>, rest: seq<Byte>, framed: bool)
    ensures NextFrame(buf) == Emit(q, rest, framed) <==>
      EncodesAQuery(q) && (if framed then |q| <= 4096 && buf == Be16(|q|) + q + rest else buf == q + rest)
  {
    hide WellFormed, EncodesAQuery, NextFrame;
    EmitsIff(buf, Msg(q, framed), rest);
    WellFormedIff(q, framed);
  }

  // ---------------------------------------------------------------- what is refused at once

  /** After these labels of a name the buffer ends, or an octet stands that starts no label, or one label too many. */
  predicate StopsAfter(b: seq<Byte>, o: nat, labels: seq<seq<Byte>>, room: nat) {
    && LabelsFit(labels) && |labels| <= room && o + |LabelOctets(labels)| <= |b|
    && b[o..o + |LabelOctets(labels)|] == LabelOctets(labels)
    && var p := o + |LabelOctets(labels)|;
       p == |b| || 64 <= b[p] < 192 || (|labels| == room && 0 < b[p] < 64)
  }

  /** A name of at most `room` labels cannot start at o, or the buffer ends where a label or the name would start. */
  ghost predicate NameFault(b: seq<Byte>, o: nat, room: nat) {
    exists labels :: StopsAfter(b, o, labels, room)
  }

  lemma {:induction false} NameFaultIff(b: seq<Byte>, o: nat, seen: nat)
    requires o <= |b| && seen <= 128
    ensures ScanName(b, o, seen).NameBad? <==> NameFault(b, o, 128 - seen)
    decreases |b| - o
  {
    var room: nat := 128 - seen;
    if ScanName(b, o, seen).NameBad? {
      var labels := ReadFault(b, o, seen);
      assert StopsAfter(b, o, labels, room);
    }
    if labels :| StopsAfter(b, o, labels, room) { FaultScanned(b, o, seen, labels); }
  }

  lemma {:induction false} FaultScanned(b: seq<Byte>, o: nat, seen: nat, labels: seq<seq<Byte>>)
    requires o <= |b| && seen <= 128 && StopsAfter(b, o, labels, 128 - seen)
    ensures ScanName(b, o, seen).NameBad?
    decreases |labels|
  {
    if labels != [] {
      LabelsStand(b, o, labels);
      FaultScanned(b, o + 1 + |labels[0]|, seen + 1, labels[1..]);
    }
  }

  lemma {:induction false} StopsLater(b: seq<Byte>, o: nat, labels: seq<seq<Byte>>, room: nat)
    requires o < |b| && 0 < b[o] < 64 && room > 0 && o + 1 + b[o] <= |b|
    requires StopsAfter(b, o + 1 + b[o], labels, room - 1)
    ensures StopsAfter(b, o, [b[o + 1..o + 1 + b[o]]] + labels, room)
  {
    hide LabelOctets;
    LabelsBack(b, o, b[o + 1..o + 1 + b[o]], labels);
  }

  lemma {:induction false} ReadFault(b: seq<Byte>, o: nat, seen: nat) returns (labels: seq<seq<Byte>>)
    requires o <= |b| && seen <= 128 && ScanName(b, o, seen).NameBad?
    ensures StopsAfter(b, o, labels, 128 - seen)
    decreases |b| - o
  {
    if o < |b| && 0 < b[o] < 64 && seen < 128 {
      hide StopsAfter;
      var rest := ReadFault(b, o + 1 + b[o], seen + 1);
      StopsLater(b, o, rest, 128 - seen);
      labels := [b[o + 1..o + 1 + b[o]]] + rest;
    } else {
      labels := [];
    }
  }

  /** After these questions stands a name that cannot be one, or a question of type or class zero. */
  ghost predicate QuestionStops(b: seq<Byte>, o: nat, qs: seq<WireQuestion>) {
    && Askable(qs) && At(b, o, EncodeQuestions(qs))
    && var p := o + |EncodeQuestions(qs)|;
       NameFault(b, p, 128) || exists n :: ZeroField(b, p, n)
  }

  /** The name n, and behind it a type or a class of zero. */
  predicate ZeroField(b: seq<Byte>, p: nat, n: WireName) {
    && NameFits(n) && |n.labels| <= 128 && p + |EncodeName(n)| + 4 <= |b|
    && b[p..p + |EncodeName(n)|] == EncodeName(n)
    && (U16(b, p + |EncodeName(n)|) == 0 || U16(b, p + |EncodeName(n)| + 2) == 0)
  }

  lemma {:induction false} QuestionStopScanned(b: seq<Byte>, o: nat, qs: seq<WireQuestion>, n: nat)
    requires |qs| < n && QuestionStops(b, o, qs)
    ensures ScanQuestions(b, o, n) == Bad
    decreases |qs|
  {
    hide EncodeQuestion, EncodeName, ScanName, U16, NameFault;
    AtInside(b, o, EncodeQuestions(qs));
    if qs == [] {
      NameFaultIff(b, o, 0);
      if name :| ZeroField(b, o, name) { NameScanned(b, o, name, 0); }
    } else {
      QuestionsSplit(b, o, qs);
      QuestionStands(b, o, qs[0]);
      NameScanned(b, o, qs[0].name, 0);
      QuestionStopScanned(b, o + |EncodeQuestion(qs[0])|, qs[1..], n - 1);
    }
  }

  lemma {:induction false} ReadQuestionStop(b: seq<Byte>, o: nat, n: nat) returns (qs: seq<WireQuestion>)
    requires o <= |b| && ScanQuestions(b, o, n) == Bad
    ensures |qs| < n && QuestionStops(b, o, qs)
    decreases n
  {
    hide EncodeName, EncodeQuestion, ScanName, U16, At, NameFault;
    if ScanName(b, o, 0).NameBad? {
      qs := [];
      NameFaultIff(b, o, 0);
      Nothing(b, o);
    } else {
      var name := ReadName(b, o, 0);
      var at := o + |EncodeName(name)|;
      if U16(b, at) == 0 || U16(b, at + 2) == 0 {
        qs := [];
        Nothing(b, o);
        assert ZeroField(b, o, name) by { NameSlice(b, o, name); }
      } else {
        var q := WireQuestion(name, U16(b, at), U16(b, at + 2));
        QuestionBack(b, o, q);
        var rest := ReadQuestionStop(b, at + 4, n - 1);
        QuestionsJoin(b, o, q, rest);
        qs := [q] + rest;
      }
    }
  }

  lemma {:induction false} NameSlice(b: seq<Byte>, o: nat, n: WireName)
    requires NameFits(n) && At(b, o, EncodeName(n))
    ensures o + |EncodeName(n)| <= |b| && b[o..o + |EncodeName(n)|] == EncodeName(n)
  {
  }

  /** After these additional records stands a name that cannot be one. */
  ghost predicate RecordStops(b: seq<Byte>, o: nat, rs: seq<WireRecord>) {
    Attachable(rs) && At(b, o, EncodeRecords(rs)) && NameFault(b, o + |EncodeRecords(rs)|, 128)
  }

  lemma {:induction false} RecordStopScanned(b: seq<Byte>, o: nat, rs: seq<WireRecord>, n: nat)
    requires |rs| < n && RecordStops(b, o, rs)
    ensures ScanAdditional(b, o, n) == Bad
    decreases |rs|
  {
    hide EncodeRecord, EncodeName, ScanName, U16, U32, NameFault;
    AtInside(b, o, EncodeRecords(rs));
    if rs == [] {
      NameFaultIff(b, o, 0);
    } else {
      RecordsSplit(b, o, rs);
      RecordStands(b, o, rs[0]);
      NameScanned(b, o, rs[0].name, 0);
      RecordStopScanned(b, o + |EncodeRecord(rs[0])|, rs[1..], n - 1);
    }
  }

  lemma {:induction false} ReadRecordStop(b: seq<Byte>, o: nat, n: nat) returns (rs: seq<WireRecord>)
    requires o <= |b| && ScanAdditional(b, o, n) == Bad
    ensures |rs| < n && RecordStops(b, o, rs)
    decreases n
  {
    hide EncodeName, EncodeRecord, ScanName, U16, U32, NameFault;
    if ScanName(b, o, 0).NameBad? {
      rs := [];
      NameFaultIff(b, o, 0);
    } else {
      var name := ReadName(b, o, 0);
      var at := o + |EncodeName(name)|;
      var r := WireRecord(name, U16(b, at), U16(b, at + 2), U32(b, at + 4), b[at + 10..at + 10 + U16(b, at + 8)]);
      RecordBack(b, o, r);
      var rest := ReadRecordStop(b, at + 10 + |r.data|, n - 1);
      RecordsJoin(b, o, r, rest);
      rs := [r] + rest;
    }
  }

  /** The sections behind the header cannot become a query, or the buffer ends where a name or a label would start. */
  ghost predicate BodyFault(b: seq<Byte>, qd: nat, ar: nat) {
    || (exists qs :: |qs| < qd && QuestionStops(b, 12, qs))
    || (exists qs :: |qs| == qd && Askable(qs) && At(b, 12, EncodeQuestions(qs)) && AfterQuestions(b, qs, ar))
  }

  /** The first question has no label, or the additional records are at fault. */
  ghost predicate AfterQuestions(b: seq<Byte>, qs: seq<WireQuestion>, ar: nat)
    requires Askable(qs)
  {
    (qs != [] && qs[0].name.labels == [])
    || exists rs :: |rs| < ar && RecordStops(b, 12 + |EncodeQuestions(qs)|, rs)
  }

  /** What is never a query, written out: a header with another number of questions than 1 to 16, with an answer, an
      authority record or more than 16 additional ones, or a fault behind it. All else that is no
      complete message waits for more octets. */
  lemma {:induction false} RefusedIff(b: seq<Byte>)
    ensures MessageLen(b) == Bad <==>
      |b| >= 12 && (!(1 <= U16(b, 4) <= 16 && U16(b, 6) == 0 && U16(b, 8) == 0 && U16(b, 10) <= 16)
                    || BodyFault(b, U16(b, 4), U16(b, 10)))
  {
    hide ScanBody, BodyFault, U16;
    if |b| >= 12 && QueryHeader(b) { BodyFaultIff(b, U16(b, 4), U16(b, 10)); }
  }

  lemma {:induction false} BodyFaultIff(b: seq<Byte>, qd: nat, ar: nat)
    requires |b| >= 12 && qd > 0
    ensures ScanBody(b, qd, ar) == Bad <==> BodyFault(b, qd, ar)
  {
    hide ScanQuestions, ScanAdditional, ScanName, QuestionStops, RecordStops, QuestionsFit, EncodeQuestions, At;
    if ScanBody(b, qd, ar) == Bad {
      if ScanQuestions(b, 12, qd) == Bad {
        var qs := ReadQuestionStop(b, 12, qd);
      } else {
        var qs := ReadQuestions(b, 12, qd);
        FirstName(b, qs);
        if qs[0].name.labels != [] {
          var rs := ReadRecordStop(b, 12 + |EncodeQuestions(qs)|, ar);
        }
        assert AfterQuestions(b, qs, ar);
      }
    }
    forall qs | |qs| < qd && QuestionStops(b, 12, qs) ensures ScanBody(b, qd, ar) == Bad {
      QuestionStopScanned(b, 12, qs, qd);
    }
    forall qs | |qs| == qd && Askable(qs) && At(b, 12, EncodeQuestions(qs)) && AfterQuestions(b, qs, ar)
      ensures ScanBody(b, qd, ar) == Bad
    {
      FirstName(b, qs);
      QuestionsScanned(b, 12, qs);
      if rs :| |rs| < ar && RecordStops(b, 12 + |EncodeQuestions(qs)|, rs) {
        RecordStopScanned(b, 12 + |EncodeQuestions(qs)|, rs, ar);
      }
    }
  }

  /** When the connection is closed: the buffer starts with no query, and either its first two octets are a length from
      12 to 4096 whose octets are all there and are not a query, or they are none and no query can follow. */
  lemma {:induction false} RejectIff(buf: seq<Byte>)
    ensures NextFrame(buf) == Reject <==>
      && !MessageLen(buf).Done?
      && (if |buf| >= 2 && 12 <= U16(buf, 0) <= 4096
          then |buf| >= 2 + U16(buf, 0) && !EncodesAQuery(buf[2..2 + U16(buf, 0)])
          else MessageLen(buf) == Bad)
  {
    hide MessageLen, EncodesAQuery, U16;
    if |buf| >= 2 && |buf| >= 2 + U16(buf, 0) { MessageIff(buf[2..2 + U16(buf, 0)]); }
  }
}
