/** What responseTTLs and the ageing of get mean for a reply in the fields of RFC 1035. */
module ReplyWire {
  import opened Bytes
  import opened Numbers
  import opened Wrappers
  import opened WireFormat
  import opened ReplyTtl
  import opened ResponseCache

  // ---------------------------------------------------------------- finding the records

  lemma {:induction false} NameSkipped(b: seq<Byte>, o: nat, n: WireName)
    requires NameFits(n) && At(b, o, EncodeName(n))
    ensures SkipName(b, o) == Some(o + |EncodeName(n)|)
    decreases |n.labels|
  {
    hide EncodeName, At;
    NameStands(b, o, n);
    if n.labels != [] { NameSkipped(b, o + 1 + |n.labels[0]|, WireName(n.labels[1..], n.end)); }
  }

  lemma {:induction false} QuestionsSkipped(b: seq<Byte>, o: nat, qs: seq<WireQuestion>)
    requires QuestionsFit(qs) && At(b, o, EncodeQuestions(qs))
    ensures SkipQuestions(b, o, |qs|) == Some(o + |EncodeQuestions(qs)|)
    decreases |qs|
  {
    hide EncodeQuestion, EncodeName, SkipName, U16, At;
    if qs != [] {
      QuestionsSplit(b, o, qs);
      QuestionStands(b, o, qs[0]);
      NameSkipped(b, o, qs[0].name);
      QuestionsSkipped(b, o + |EncodeQuestion(qs[0])|, qs[1..]);
    }
  }

  /** The records as responseTTLs lists them when they stand in a message from offset o on. */
  ghost function Found(o: nat, rs: seq<WireRecord>): (r: seq<Record>)
    requires RecordsFit(rs)
    ensures |r| == |rs|
    ensures forall i :: 0 <= i < |rs| ==>
      r[i].rtype == rs[i].rtype && r[i].ttl == rs[i].ttl && r[i].length == |rs[i].data|
    decreases |rs|
  {
    if rs == [] then [] else
    [Record(o + |EncodeName(rs[0].name)|, rs[0].rtype, rs[0].ttl, |rs[0].data|)]
    + Found(o + |EncodeRecord(rs[0])|, rs[1..])
  }

  lemma {:induction false} RecordsFound(b: seq<Byte>, o: nat, rs: seq<WireRecord>)
    requires RecordsFit(rs) && At(b, o, EncodeRecords(rs))
    ensures Records(b, o, |rs|) == Some(Found(o, rs))
    ensures forall i :: 0 <= i < |rs| ==> At(b, Found(o, rs)[i].at + 10, rs[i].data)
    decreases |rs|
  {
    hide EncodeRecord, EncodeName, SkipName, U16, U32, At;
    if rs != [] {
      RecordsSplit(b, o, rs);
      RecordStands(b, o, rs[0]);
      NameSkipped(b, o, rs[0].name);
      RecordsFound(b, o + |EncodeRecord(rs[0])|, rs[1..]);
    }
  }

  /** The records of a message, as responseTTLs lists them. */
  ghost function FoundIn(m: WireMessage): (r: seq<Record>)
    requires MessageFits(m)
    ensures |r| == |RecordsOf(m)|
  {
    Found(12 + |EncodeQuestions(m.questions)|, RecordsOf(m))
  }

  lemma {:induction false} MessageParsed(b: seq<Byte>, m: WireMessage)
    requires MessageFits(m) && EncodeMessage(m) <= b
    ensures ReplyRecords(b) == Some(FoundIn(m))
  {
    hide EncodeQuestions, EncodeRecords, EncodeMessage, SkipQuestions, Records, Found, U16, At;
    SectionsAt(b, m);
    QuestionsSkipped(b, 12, m.questions);
    RecordsFound(b, 12 + |EncodeQuestions(m.questions)|, RecordsOf(m));
  }

  lemma {:induction false} ReadName(b: seq<Byte>, o: nat) returns (n: WireName)
    requires SkipName(b, o).Some?
    ensures NameFits(n) && At(b, o, EncodeName(n)) && SkipName(b, o) == Some(o + |EncodeName(n)|)
    decreases |b| - o
  {
    if b[o] == 0 {
      n := WireName([], [0]);
      assert b[o..o + 1] == [0];
    } else if b[o] >= 192 {
      n := WireName([], b[o..o + 2]);
    } else {
      var rest := ReadName(b, o + 1 + b[o]);
      n := NameBack(b, o, b[o + 1..o + 1 + b[o]], rest);
    }
  }

  lemma {:induction false} ReadQuestions(b: seq<Byte>, o: nat, n: nat) returns (qs: seq<WireQuestion>)
    requires o <= |b| && SkipQuestions(b, o, n).Some?
    ensures QuestionsFit(qs) && |qs| == n && At(b, o, EncodeQuestions(qs))
    ensures SkipQuestions(b, o, n) == Some(o + |EncodeQuestions(qs)|)
    decreases n
  {
    hide EncodeName, EncodeQuestion, SkipName, U16, At;
    if n == 0 {
      qs := [];
      Nothing(b, o);
    } else {
      var name := ReadName(b, o);
      var at := o + |EncodeName(name)|;
      var q := WireQuestion(name, U16(b, at), U16(b, at + 2));
      QuestionBack(b, o, q);
      var rest := ReadQuestions(b, at + 4, n - 1);
      QuestionsJoin(b, o, q, rest);
      qs := [q] + rest;
    }
  }

  lemma {:induction false} ReadRecords(b: seq<Byte>, o: nat, n: nat) returns (rs: seq<WireRecord>)
    requires o <= |b| && Records(b, o, n).Some?
    ensures RecordsFit(rs) && |rs| == n && At(b, o, EncodeRecords(rs))
    decreases n
  {
    hide EncodeName, EncodeRecord, SkipName, U16, U32;
    if n == 0 {
      rs := [];
    } else {
      var name := ReadName(b, o);
      var at := o + |EncodeName(name)|;
      var r := WireRecord(name, U16(b, at), U16(b, at + 2), U32(b, at + 4), b[at + 10..at + 10 + U16(b, at + 8)]);
      RecordBack(b, o, r);
      var rest := ReadRecords(b, at + 10 + |r.data|, n - 1);
      RecordsJoin(b, o, r, rest);
      rs := [r] + rest;
    }
  }

  lemma {:induction false} ReadMessage(b: seq<Byte>) returns (m: WireMessage)
    requires |b| >= 12 && ReplyRecords(b).Some?
    ensures MessageFits(m) && EncodeMessage(m) <= b
  {
    hide EncodeQuestions, EncodeRecords, EncodeMessage, EncodeFlags, ReadFlags, SkipQuestions, Records, U16, At;
    var qs := ReadQuestions(b, 12, U16(b, 4));
    AtInside(b, 12, EncodeQuestions(qs));
    var rs := ReadRecords(b, 12 + |EncodeQuestions(qs)|, U16(b, 6) + U16(b, 8) + U16(b, 10));
    FlagsBack(b[2], b[3]);
    var an, ns := U16(b, 6), U16(b, 8);
    m := WireMessage(U16(b, 0), ReadFlags(b[2], b[3]), qs, rs[..an], rs[an..an + ns], rs[an + ns..]);
    assert RecordsOf(m) == rs;
    SectionsBack(b, m);
  }

  // ---------------------------------------------------------------- how long a reply may be kept

  /** A number of seconds the reply says it may be kept: the TTL of an answer, pseudo-records (41) apart, or if
      it has no answer at all, the TTL or the MINIMUM of a SOA record (6) of its authority section. */
  ghost predicate Allows(m: WireMessage, n: nat) {
    if m.answers != [] then exists i :: 0 <= i < |m.answers| && m.answers[i].rtype != 41 && m.answers[i].ttl == n
    else exists i :: 0 <= i < |m.authority| && IsNegative(m.authority[i]) && n in NegativeTimes(m.authority[i])
  }

  predicate IsNegative(r: WireRecord) { r.rtype == 6 && |r.data| >= 20 }

  /** The TTL of a SOA record and the last number of its data, the MINIMUM. */
  function NegativeTimes(r: WireRecord): seq<nat>
    requires IsNegative(r)
  {
    [r.ttl, U32(r.data, |r.data| - 4)]
  }

  /** The reply may be kept for n seconds: nothing in it says less. */
  ghost predicate LivesFor(m: WireMessage, n: nat) {
    && (m.flags.code == 0 || m.flags.code == 3)
    && n < 0xFFFF_FFFF && Allows(m, n) && forall k :: Allows(m, k) ==> n <= k
  }

  lemma {:induction false} BoundFound(b: seq<Byte>, m: WireMessage, i: nat)
    requires MessageFits(m) && EncodeMessage(m) <= b && i < |RecordsOf(m)|
    ensures var r, an, ns := RecordsOf(m)[i], |m.answers|, |m.authority|;
      && (i < an ==> r == m.answers[i]) && (an == 0 && i < ns ==> r == m.authority[i])
      && Bound(b, FoundIn(m)[i], i, an, ns) ==
           if an > 0 then (if i < an && r.rtype != 41 then r.ttl else NO_TTL)
           else if i < ns && IsNegative(r) then Min(NegativeTimes(r)[1], NegativeTimes(r)[0]) else NO_TTL
  {
    hide EncodeQuestions, EncodeRecords, EncodeMessage, Found, Records, At, U32;
    var rs := RecordsOf(m);
    SectionsAt(b, m);
    RecordsFound(b, 12 + |EncodeQuestions(m.questions)|, rs);
    LastNumber(b, FoundIn(m)[i].at + 10, rs[i].data);
  }

  lemma {:induction false} LastNumber(b: seq<Byte>, o: nat, data: seq<Byte>)
    requires At(b, o, data)
    ensures o + |data| <= |b| && (|data| >= 4 ==> U32(b, o + |data| - 4) == U32(data, |data| - 4))
  {
    if |data| >= 4 {
      assert b[o..o + |data|][|data| - 4..] == b[o + |data| - 4..o + |data|];
      assert U32(b, o + |data| - 4) == U32(b[o + |data| - 4..o + |data|], 0) == U32(data[|data| - 4..], 0);
    }
  }

  lemma {:induction false} BoundIsAllowed(b: seq<Byte>, m: WireMessage, i: nat)
    requires MessageFits(m) && EncodeMessage(m) <= b && i < |RecordsOf(m)|
    ensures var n := Bound(b, FoundIn(m)[i], i, |m.answers|, |m.authority|);
      n <= NO_TTL && (n != NO_TTL ==> Allows(m, n))
  {
    BoundFound(b, m, i);
    hide EncodeMessage, FoundIn, Bound, U32, IsNegative;
    assert RecordFits(RecordsOf(m)[i]);
  }

  lemma {:induction false} AllowedIsBounded(b: seq<Byte>, m: WireMessage, n: nat) returns (i: nat)
    requires MessageFits(m) && EncodeMessage(m) <= b && Allows(m, n)
    ensures i < |RecordsOf(m)|
    ensures Bound(b, FoundIn(m)[i], i, |m.answers|, |m.authority|) <= n
  {
    hide EncodeMessage, FoundIn, Bound, U32, IsNegative;
    if m.answers != [] {
      i :| 0 <= i < |m.answers| && m.answers[i].rtype != 41 && m.answers[i].ttl == n;
    } else {
      i :| 0 <= i < |m.authority| && IsNegative(m.authority[i]) && n in NegativeTimes(m.authority[i]);
    }
    BoundFound(b, m, i);
  }

  lemma {:induction false} LifetimeFacts(b: seq<Byte>, m: WireMessage)
    requires MessageFits(m) && EncodeMessage(m) <= b
    ensures var n := Lifetime(b, FoundIn(m), |m.answers|, |m.authority|);
      n <= NO_TTL && (n != NO_TTL ==> Allows(m, n)) && forall k :: Allows(m, k) ==> n <= k
  {
    hide EncodeMessage, FoundIn, Bound, Lifetime, Allows, MessageFits;
    var rs := FoundIn(m);
    LifetimeIsLeast(b, rs, |m.answers|, |m.authority|);
    var n := Lifetime(b, rs, |m.answers|, |m.authority|);
    if n != NO_TTL {
      var i :| 0 <= i < |rs| && n == Bound(b, rs[i], i, |m.answers|, |m.authority|);
      BoundIsAllowed(b, m, i);
    }
    forall k: nat | Allows(m, k) ensures n <= k {
      var i := AllowedIsBounded(b, m, k);
      assert n <= Bound(b, rs[i], i, |m.answers|, |m.authority|);
    }
  }

  /** responseTTLs gives a reply the lifetime its fields say, and none to any other. */
  lemma {:induction false} LifetimeIff(b: seq<Byte>, m: WireMessage, n: nat)
    requires MessageFits(m) && EncodeMessage(m) <= b
    ensures ResponseTtls(b).Some? && ResponseTtls(b).value.min == n <==> LivesFor(m, n)
  {
    SectionsAt(b, m);
    CodeOctet(b, m);
    MessageParsed(b, m);
    LifetimeFacts(b, m);
    if m.answers == [] && m.authority == [] { NothingAllowed(m); }
    hide EncodeQuestions, EncodeRecords, EncodeMessage, ReplyRecords, FoundIn, TtlOffsets, Lifetime, U16, At, FlagsFit,
         EncodeFlags, MessageFits, Allows;
  }

  lemma {:induction false} NothingAllowed(m: WireMessage)
    requires m.answers == [] && m.authority == []
    ensures forall n :: !Allows(m, n)
  {
  }

  // ---------------------------------------------------------------- ageing

  function AgedRecord(r: WireRecord, elapsed: nat): WireRecord {
    if r.rtype == 41 then r else r.(ttl := if elapsed >= r.ttl then 0 else r.ttl - elapsed)
  }

  function AgedSection(rs: seq<WireRecord>, elapsed: nat): (r: seq<WireRecord>)
    ensures |r| == |rs|
  {
    seq(|rs|, i requires 0 <= i < |rs| => AgedRecord(rs[i], elapsed))
  }

  /** The message under another ID, every TTL lowered by elapsed seconds but not below zero. The TTL field of a
      pseudo-record is no time and stays. */
  function AgedMessage(m: WireMessage, id: nat, elapsed: nat): WireMessage {
    m.(id := id, answers := AgedSection(m.answers, elapsed), authority := AgedSection(m.authority, elapsed),
       additional := AgedSection(m.additional, elapsed))
  }

  lemma {:induction false} AgedFits(m: WireMessage, id: nat, elapsed: nat)
    requires MessageFits(m) && id < 65536
    ensures MessageFits(AgedMessage(m, id, elapsed))
    ensures RecordsOf(AgedMessage(m, id, elapsed)) == AgedSection(RecordsOf(m), elapsed)
  {
    var a := AgedMessage(m, id, elapsed);
    assert RecordsOf(a) == AgedSection(RecordsOf(m), elapsed);
    forall i | 0 <= i < |RecordsOf(a)| ensures RecordFits(RecordsOf(a)[i]) { assert RecordFits(RecordsOf(m)[i]); }
  }

  /** The TTL fields of the first record and of the others. */
  ghost function OwnOffsets(o: nat, r: WireRecord): seq<nat>
    requires RecordFits(r)
  {
    if r.rtype != OPT then [o + |EncodeName(r.name)| + 4] else []
  }

  lemma {:induction false} OffsetsSplit(o: nat, rs: seq<WireRecord>)
    requires RecordsFit(rs) && rs != []
    ensures TtlOffsets(Found(o, rs)) == OwnOffsets(o, rs[0]) + TtlOffsets(Found(o + |EncodeRecord(rs[0])|, rs[1..]))
  {
    hide EncodeName, EncodeRecord;
    assert Found(o, rs)[1..] == Found(o + |EncodeRecord(rs[0])|, rs[1..]);
  }

  lemma {:induction false} FoundApart(o: nat, rs: seq<WireRecord>)
    requires RecordsFit(rs)
    ensures Apart(TtlOffsets(Found(o, rs)), o, o + |EncodeRecords(rs)|)
    decreases |rs|
  {
    hide EncodeName, EncodeRecord, Found;
    if rs == [] {
      assert Found(o, rs) == [];
    } else {
      var r, next := rs[0], o + |EncodeRecord(rs[0])|;
      FoundApart(next, rs[1..]);
      OffsetsSplit(o, rs);
      RecordLength(r);
      var offs := TtlOffsets(Found(next, rs[1..]));
      OneMore(OwnOffsets(o, r), offs, o, next, o + |EncodeRecords(rs)|);
    }
  }

  lemma {:induction false} OneMore(own: seq<nat>, rest: seq<nat>, lo: nat, next: nat, hi: nat)
    requires Apart(rest, next, hi) && lo <= next <= hi
    requires own == [] || (|own| == 1 && lo <= own[0] && own[0] + 4 <= next)
    ensures Apart(own + rest, lo, hi)
  {
    ApartLower(rest, next, if own == [] then lo else own[0] + 4, hi);
    assert own == [] ==> own + rest == rest;
    assert own != [] ==> (own + rest)[1..] == rest;
  }

  lemma {:induction false} RecordLength(r: WireRecord)
    requires RecordFits(r)
    ensures |EncodeRecord(r)| == |EncodeName(r.name)| + 10 + |r.data|
  {
    hide EncodeName;
  }

  /** One record under an aged TTL field. */
  lemma {:induction false} RecordAged(b: seq<Byte>, c: seq<Byte>, o: nat, r: WireRecord, elapsed: nat)
    requires RecordFits(r) && At(b, o, EncodeRecord(r)) && |b| == |c|
    requires var at := o + |EncodeName(r.name)|;
      && (forall i :: o <= i < o + |EncodeRecord(r)| && (r.rtype == OPT || !(at + 4 <= i < at + 8)) ==> c[i] == b[i])
      && (r.rtype != OPT ==> at + 8 <= |b| && U32(c, at + 4) == AgedTtl(U32(b, at + 4), elapsed))
    ensures RecordFits(AgedRecord(r, elapsed)) && At(c, o, EncodeRecord(AgedRecord(r, elapsed)))
    ensures |EncodeRecord(AgedRecord(r, elapsed))| == |EncodeRecord(r)|
  {
    hide EncodeName, EncodeRecord, U16, U32, At;
    RecordStands(b, o, r);
    RecordLength(r);
    RecordLength(AgedRecord(r, elapsed));
    AtInside(b, o, EncodeRecord(r));
    var at := o + |EncodeName(r.name)|;
    AtSame(b, c, o, EncodeName(r.name));
    U16Same(b, c, at);
    U16Same(b, c, at + 2);
    U16Same(b, c, at + 8);
    if r.rtype == OPT { U32Same(b, c, at + 4); }
    AtSame(b, c, at + 10, r.data);
    RecordBack(c, o, AgedRecord(r, elapsed));
  }

  lemma {:induction false} FirstAged(b: seq<Byte>, c: seq<Byte>, o: nat, rs: seq<WireRecord>, elapsed: nat)
    requires RecordsFit(rs) && rs != [] && At(b, o, EncodeRecords(rs))
    requires AgedFrom(b, c, o, TtlOffsets(Found(o, rs)), elapsed)
    ensures var r, next := AgedRecord(rs[0], elapsed), o + |EncodeRecord(rs[0])|;
      && RecordFits(r) && At(c, o, EncodeRecord(r)) && |EncodeRecord(r)| == |EncodeRecord(rs[0])|
      && RecordsFit(rs[1..]) && At(b, next, EncodeRecords(rs[1..]))
      && AgedFrom(b, c, next, TtlOffsets(Found(next, rs[1..])), elapsed)
      && |EncodeRecords(rs)| == |EncodeRecord(r)| + |EncodeRecords(rs[1..])|
  {
    hide EncodeName, EncodeRecord, EncodeRecords, At, U32, AgedFrom, Apart, AgedRecord, Found;
    var r := rs[0];
    RecordsSplit(b, o, rs);
    RecordLength(r);
    AtInside(b, o, EncodeRecord(r));
    var next, at := o + |EncodeRecord(r)|, o + |EncodeName(r.name)|;
    var own, rest := OwnOffsets(o, r), TtlOffsets(Found(next, rs[1..]));
    OffsetsSplit(o, rs);
    FoundApart(next, rs[1..]);
    ApartEach(rest, next, next + |EncodeRecords(rs[1..])|);
    AgedFromSplit(b, c, o, next, own, rest, elapsed);
    assert r.rtype != OPT ==> own[0] == at + 4;
    forall i | o <= i < next && (r.rtype == OPT || !(at + 4 <= i < at + 8)) ensures c[i] == b[i] {
      assert !Covered(i, own);
    }
    RecordAged(b, c, o, r, elapsed);
  }

  lemma {:induction false} SectionAged(b: seq<Byte>, c: seq<Byte>, o: nat, rs: seq<WireRecord>, elapsed: nat)
    requires RecordsFit(rs) && At(b, o, EncodeRecords(rs))
    requires AgedFrom(b, c, o, TtlOffsets(Found(o, rs)), elapsed)
    ensures RecordsFit(AgedSection(rs, elapsed)) && At(c, o, EncodeRecords(AgedSection(rs, elapsed)))
    ensures |EncodeRecords(AgedSection(rs, elapsed))| == |EncodeRecords(rs)|
    decreases |rs|
  {
    hide EncodeName, EncodeRecord, At, AgedFrom, Apart, AgedRecord;
    if rs == [] {
      SameLengthFrom(b, c, o, elapsed);
      AtInside(b, o, []);
      Nothing(c, o);
    } else {
      FirstAged(b, c, o, rs, elapsed);
      hide Found;
      SectionAged(b, c, o + |EncodeRecord(rs[0])|, rs[1..], elapsed);
      RecordsJoin(c, o, AgedRecord(rs[0], elapsed), AgedSection(rs[1..], elapsed));
      assert AgedSection(rs, elapsed) == [AgedRecord(rs[0], elapsed)] + AgedSection(rs[1..], elapsed);
    }
  }

  lemma {:induction false} SameLengthFrom(b: seq<Byte>, c: seq<Byte>, o: nat, elapsed: nat)
    requires AgedFrom(b, c, o, [], elapsed)
    ensures |b| == |c|
  {
  }

  /** The octets of a hit outside the TTL fields and the ID. */
  lemma {:induction false} HitAround(m: WireMessage, tail: seq<Byte>, query: seq<Byte>, elapsed: nat)
    requires MessageFits(m) && |query| >= 2 && ResponseTtls(EncodeMessage(m) + tail).Some?
    ensures var b, o := EncodeMessage(m) + tail, 12 + |EncodeQuestions(m.questions)|;
      var c := Hit(b, query, ResponseTtls(b).value.offsets, elapsed);
      && |c| == |b| && c[0] == query[0] && c[1] == query[1] && o <= |EncodeMessage(m)|
      && AgedFrom(b, c, o, TtlOffsets(FoundIn(m)), elapsed)
      && forall i :: 2 <= i < |b| && !(o <= i < |EncodeMessage(m)|) ==> c[i] == b[i]
  {
    hide Hit, U16, U32, Found, EncodeMessage, EncodeQuestions, EncodeRecords, Lifetime, TtlOffsets, ReplyRecords,
         RecordsFit, QuestionsFit;
    var b, o := EncodeMessage(m) + tail, 12 + |EncodeQuestions(m.questions)|;
    var offs := TtlOffsets(FoundIn(m));
    SectionsAt(b, m);
    MessageParsed(b, m);
    HitChangesOnlyTtls(b, query, elapsed);
    FoundApart(o, RecordsOf(m));
    ApartEach(offs, o, |EncodeMessage(m)|);
    forall i | 2 <= i < |b| && !(o <= i < |EncodeMessage(m)|) ensures !Covered(i, offs) { }
  }

  lemma {:induction false} HeaderAged(b: seq<Byte>, c: seq<Byte>, m: WireMessage, id: nat, elapsed: nat)
    requires HeaderAt(b, m) && |c| >= 12 && (forall i :: 2 <= i < 12 ==> c[i] == b[i]) && U16(c, 0) == id
    ensures HeaderAt(c, AgedMessage(m, id, elapsed))
  {
    hide U16, EncodeFlags;
    U16Same(b, c, 4);
    U16Same(b, c, 6);
    U16Same(b, c, 8);
    U16Same(b, c, 10);
  }

  /** A hit is the stored message under the query's ID with its times lowered: whatever stands behind the message
      and whatever the names look like, it is encoded as the stored one was. */
  lemma {:induction false} HitIsAged(m: WireMessage, tail: seq<Byte>, query: seq<Byte>, elapsed: nat)
    requires MessageFits(m) && |query| >= 2 && ResponseTtls(EncodeMessage(m) + tail).Some?
    ensures MessageFits(AgedMessage(m, U16(query, 0), elapsed))
    ensures Hit(EncodeMessage(m) + tail, query, ResponseTtls(EncodeMessage(m) + tail).value.offsets, elapsed)
      == EncodeMessage(AgedMessage(m, U16(query, 0), elapsed)) + tail
  {
    hide Hit, ResponseTtls, U16, Found, EncodeMessage, EncodeQuestions, EncodeRecords, AgedFrom, AgedSection, HeaderAt,
         At, RecordsFit, QuestionsFit, TtlOffsets;
    var b, o, id := EncodeMessage(m) + tail, 12 + |EncodeQuestions(m.questions)|, U16(query, 0);
    var c, aged := Hit(b, query, ResponseTtls(b).value.offsets, elapsed), AgedMessage(m, id, elapsed);
    SectionsAt(b, m);
    HitAround(m, tail, query, elapsed);
    AgedFits(m, id, elapsed);
    SectionAged(b, c, o, RecordsOf(m), elapsed);
    AtSame(b, c, 12, EncodeQuestions(m.questions));
    U16Same(query, c, 0);
    HeaderAged(b, c, m, id, elapsed);
    SectionsBack(c, aged);
    assert c == EncodeMessage(aged) + tail;
  }

  // ---------------------------------------------------------------- through the cache

  /** The reply is stored exactly if it has at most 8192 octets and its fields let it live a second or more. */
  lemma {:induction false} StorableIff(b: seq<Byte>)
    ensures Storable(b) <==>
      |b| <= 8192 && exists m, n :: MessageFits(m) && EncodeMessage(m) <= b && n > 0 && LivesFor(m, n)
  {
    hide ResponseTtls, LivesFor, EncodeMessage, MessageFits;
    if Storable(b) {
      Parses(b);
      var m := ReadMessage(b);
      LifetimeIff(b, m, ResponseTtls(b).value.min);
    }
    forall m, n: nat | MessageFits(m) && EncodeMessage(m) <= b && n > 0 && LivesFor(m, n)
      ensures ResponseTtls(b).Some? && ResponseTtls(b).value.min > 0
    {
      LifetimeIff(b, m, n);
    }
  }

  lemma {:induction false} Parses(b: seq<Byte>)
    requires ResponseTtls(b).Some?
    ensures |b| >= 12 && ReplyRecords(b).Some?
  {
  }

  /** On every clock: until n seconds after it was stored, a reply that its fields let live n seconds is answered as
      the same message, its times lowered by the elapsed count, and then no longer. */
  lemma {:induction false} ServedOnAnyClock(c: Cache, k: Key, m: WireMessage, tail: seq<Byte>, n: nat, stored: int,
                                            query: seq<Byte>, now: int)
    requires Valid(c) && MessageFits(m) && LivesFor(m, n) && n > 0 && |query| >= 2
    requires |EncodeMessage(m) + tail| <= 8192 && |EncodeMessage(m) + tail| + |k| <= c.maxBytes
    ensures MessageFits(AgedMessage(m, U16(query, 0), ElapsedSeconds(now, stored)))
    ensures Get(Put(c, k, EncodeMessage(m) + tail, stored), k, query, now).1
      == if now < stored + n * 1_000_000_000
         then Some(EncodeMessage(AgedMessage(m, U16(query, 0), ElapsedSeconds(now, stored))) + tail) else None
  {
    hide Put, ResponseTtls, LivesFor, EncodeMessage, MessageFits, Hit, AgedMessage, U16, ElapsedSeconds;
    var b := EncodeMessage(m) + tail;
    LifetimeIff(b, m, n);
    PutStores(c, k, b, stored);
    HitIsAged(m, tail, query, ElapsedSeconds(now, stored));
  }

  /** ... and on a clock less than a second behind the moment of storing, that count is the whole seconds gone. */
  lemma {:induction false} ServedUntil(c: Cache, k: Key, m: WireMessage, tail: seq<Byte>, n: nat, stored: int,
                                       query: seq<Byte>, now: int)
    requires Valid(c) && MessageFits(m) && LivesFor(m, n) && n > 0 && |query| >= 2
    requires |EncodeMessage(m) + tail| <= 8192 && |EncodeMessage(m) + tail| + |k| <= c.maxBytes
    requires stored - 1_000_000_000 < now
    ensures var elapsed := if now < stored then 0 else (now - stored) / 1_000_000_000;
      && MessageFits(AgedMessage(m, U16(query, 0), elapsed))
      && Get(Put(c, k, EncodeMessage(m) + tail, stored), k, query, now).1
         == if now < stored + n * 1_000_000_000
            then Some(EncodeMessage(AgedMessage(m, U16(query, 0), elapsed)) + tail) else None
  {
    var b := EncodeMessage(m) + tail;
    ServedOnAnyClock(c, k, m, tail, n, stored, query, now);
    AgedFits(m, U16(query, 0), if now < stored then 0 else (now - stored) / 1_000_000_000);
    hide Put, Get, ResponseTtls, LivesFor, EncodeMessage, MessageFits, AgedMessage, U16, ElapsedSeconds;
    LifetimeIff(b, m, n);
    if now < stored + n * 1_000_000_000 {
      NewEntryOk(b, stored);
      ElapsedBeforeExpiry(NewEntry(b, stored), now);
    }
  }

  /** A reply without answers, of code 0 or 3, whose authority section has one SOA record, lives for the smaller of
      that record's TTL and its MINIMUM, the last four octets of its data. */
  lemma {:induction false} NegativeLivesFor(m: WireMessage, soa: WireRecord, front: seq<Byte>, minimum: nat)
    requires m.answers == [] && (m.flags.code == 0 || m.flags.code == 3)
    requires soa in m.authority && forall r :: r in m.authority && r.rtype == 6 ==> r == soa
    requires soa.rtype == 6 && |front| >= 16 && minimum < TWO_TO_THE_32 && soa.data == front + Be32(minimum)
    requires (if soa.ttl < minimum then soa.ttl else minimum) < 0xFFFF_FFFF
    ensures LivesFor(m, if soa.ttl < minimum then soa.ttl else minimum)
  {
    hide Be32, U32;
    var n := if soa.ttl < minimum then soa.ttl else minimum;
    assert At(soa.data, |front|, Be32(minimum));
    U32At(soa.data, |front|, minimum);
    var i :| 0 <= i < |m.authority| && m.authority[i] == soa;
    assert NegativeTimes(soa) == [soa.ttl, minimum];
    assert n in NegativeTimes(m.authority[i]);
    forall k: nat | Allows(m, k) ensures n <= k {
      var j :| 0 <= j < |m.authority| && IsNegative(m.authority[j]) && k in NegativeTimes(m.authority[j]);
      assert m.authority[j] in m.authority;
    }
  }
}
