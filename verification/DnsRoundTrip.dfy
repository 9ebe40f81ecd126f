/** The codecs of the two sides fit together: what one writes the other reads back. */
module DnsRoundTrip {
  import opened Bytes
  import opened Wrappers
  import opened Names
  import opened ReplyTtl
  import opened DnsCodec
  import DotStream

  // ---------------------------------------------------------------- the question

  lemma {:induction false} LabelsSame(b: seq<Byte>, c: seq<Byte>, off: nat)
    requires ScanLabels(b, off).LabelScan? && ScanLabels(b, off).next + 4 <= |b|
    requires ScanLabels(b, off).next <= |c|
    requires forall i :: off <= i < ScanLabels(b, off).next ==> c[i] == b[i]
    ensures ScanLabels(c, off) == ScanLabels(b, off)
    decreases |b| - off
  {
    if b[off] != 0 {
      var next := off + 1 + b[off];
      LabelsSame(b, c, next);
      assert c[off + 1..next] == b[off + 1..next];
    }
  }

  /** The three walks over a complete uncompressed name agree on where it ends. */
  lemma {:induction false} LabelsSkip(b: seq<Byte>, off: nat)
    requires ScanLabels(b, off).LabelScan? && ScanLabels(b, off).next + 4 <= |b|
    ensures var s := ScanLabels(b, off);
      SkipName(b, off) == Some(s.next) && QNameEnd(b, off) == s.next && off < s.next
    decreases |b| - off
  {
    if b[off] != 0 { LabelsSkip(b, off + 1 + b[off]); }
  }

  lemma {:induction false} LabelsRead(b: seq<Byte>, cap: nat, off: nat)
    requires |b| <= cap && ScanLabels(b, off).LabelScan? && ScanLabels(b, off).next + 4 <= |b|
    ensures QNameLabels(b, cap, off, ScanLabels(b, off).next) == Some(ScanLabels(b, off).labels)
    decreases |b| - off
  {
    LabelsSkip(b, off);
    if b[off] != 0 { LabelsRead(b, cap, off + 1 + b[off]); }
  }

  // ---------------------------------------------------------------- the answers

  predicate IsA(m: seq<Byte>, o: nat, p: Address, t: nat) {
    && o + 16 <= |m| && m[o] == 0xc0 && m[o + 1] == 0x0c && U16(m, o + 2) == 1 && U16(m, o + 4) == 1
    && U32(m, o + 6) == t && U16(m, o + 10) == 4 && m[o + 12..o + 16] == p
  }

  ghost predicate HasAnswers(m: seq<Byte>, base: nat, addresses: seq<Address>, t: nat) {
    |m| == base + 16 * |addresses|
    && forall i :: 0 <= i < |addresses| ==> IsA(m, base + 16 * i, addresses[i], t)
  }

  lemma {:induction false} RecordOctets(p: Address, t: nat)
    requires t < TWO_TO_THE_32
    ensures var r := ARecord(p, t);
      && r[0] == 0xc0 && r[1] == 0x0c && r[2] == 0 && r[3] == 1 && r[4] == 0 && r[5] == 1 && r[10] == 0 && r[11] == 4
      && r[6..10] == Be32(t) && r[12..16] == p
  {
    hide Be32;
  }

  lemma {:induction false} OneRecord(front: seq<Byte>, p: Address, t: nat)
    requires t < TWO_TO_THE_32
    ensures IsA(front + ARecord(p, t), |front|, p, t)
  {
    RecordOctets(p, t);
    hide Be32, ARecord;
    var o, r := |front|, ARecord(p, t);
    var m := front + r;
    assert m[o] == r[0] && m[o + 1] == r[1] && m[o + 2] == r[2] && m[o + 3] == r[3] && m[o + 4] == r[4];
    assert m[o + 5] == r[5] && m[o + 10] == r[10] && m[o + 11] == r[11];
    assert m[o + 6..o + 10] == r[6..10] && m[o + 12..o + 16] == r[12..16];
    assert U32(m, o + 6) == U32(m[o + 6..o + 10], 0);
  }

  lemma {:induction false} IsAStable(m: seq<Byte>, tail: seq<Byte>, o: nat, p: Address, t: nat)
    requires IsA(m, o, p, t)
    ensures IsA(m + tail, o, p, t)
  {
    assert (m + tail)[o + 12..o + 16] == m[o + 12..o + 16];
  }

  lemma {:induction false} AnswersInPlace(front: seq<Byte>, addresses: seq<Address>, t: nat)
    requires t < TWO_TO_THE_32
    ensures HasAnswers(front + ARecords(addresses, t), |front|, addresses, t)
    decreases |addresses|
  {
    hide ARecord, IsA;
    if addresses != [] {
      var n := |addresses| - 1;
      var before, last := front + ARecords(addresses[..n], t), ARecord(addresses[n], t);
      AnswersInPlace(front, addresses[..n], t);
      OneRecord(before, addresses[n], t);
      assert front + (ARecords(addresses[..n], t) + last) == before + last;
      forall i | 0 <= i < n ensures IsA(before + last, |front| + 16 * i, addresses[i], t) {
        assert addresses[..n][i] == addresses[i];
        IsAStable(before, last, |front| + 16 * i, addresses[i], t);
      }
    }
  }

  function ExpectedRecords(base: nat, t: nat, i: nat, n: nat): (r: seq<Record>)
    requires i <= n
    ensures |r| == n - i
    ensures forall j :: 0 <= j < n - i ==> r[j] == Record(base + 16 * (i + j) + 2, 1, t, 4)
  {
    seq(n - i, j requires 0 <= j < n - i => Record(base + 16 * (i + j) + 2, 1, t, 4))
  }

  lemma {:induction false} RecordsRead(m: seq<Byte>, base: nat, addresses: seq<Address>, t: nat, i: nat)
    requires HasAnswers(m, base, addresses, t) && i <= |addresses|
    ensures Records(m, base + 16 * i, |addresses| - i) == Some(ExpectedRecords(base, t, i, |addresses|))
    decreases |addresses| - i
  {
    hide U16, U32, ExpectedRecords;
    var n := |addresses|;
    if i < n {
      var o := base + 16 * i;
      assert IsA(m, o, addresses[i], t);
      RecordsRead(m, base, addresses, t, i + 1);
      assert SkipName(m, o) == Some(o + 2);
      assert RecordAt(m, o + 2) == Record(o + 2, 1, t, 4);
      assert o + 2 + 10 + 4 == base + 16 * (i + 1);
      assert ExpectedRecords(base, t, i, n) == [Record(o + 2, 1, t, 4)] + ExpectedRecords(base, t, i + 1, n);
    } else {
      assert ExpectedRecords(base, t, i, n) == [];
    }
  }

  lemma {:induction false} AddressesRead(m: seq<Byte>, base: nat, addresses: seq<Address>, t: nat, i: nat)
    requires HasAnswers(m, base, addresses, t) && i <= |addresses|
    ensures AnswerSection(m, base + 16 * i, |addresses| - i) == Some(addresses[i..])
    decreases |addresses| - i
  {
    hide U16, U32;
    if i < |addresses| {
      var o := base + 16 * i;
      assert IsA(m, o, addresses[i], t);
      AddressesRead(m, base, addresses, t, i + 1);
      assert SkipLoose(m, o) == Some(o + 2) && U16(m, o + 2) == 1 && U16(m, o + 2 + 8) == 4;
      assert m[o + 2 + 10..o + 2 + 14] == addresses[i];
      assert o + 2 + 10 + 4 == base + 16 * (i + 1);
      assert addresses[i..] == [addresses[i]] + addresses[i + 1..];
    } else {
      assert addresses[i..] == [];
    }
  }

  lemma {:induction false} ExpectedOffsets(base: nat, t: nat, i: nat, n: nat)
    requires i <= n
    ensures TtlOffsets(ExpectedRecords(base, t, i, n))
      == seq(n - i, j requires 0 <= j < n - i => base + 6 + 16 * (i + j))
    decreases n - i
  {
    var rs := ExpectedRecords(base, t, i, n);
    if i < n {
      ExpectedOffsets(base, t, i + 1, n);
      assert rs[1..] == ExpectedRecords(base, t, i + 1, n);
      assert seq(n - i, j requires 0 <= j < n - i => base + 6 + 16 * (i + j))
          == [base + 6 + 16 * i] + seq(n - i - 1, j requires 0 <= j < n - i - 1 => base + 6 + 16 * (i + 1 + j));
    }
  }

  lemma {:induction false} ExpectedLifetime(m: seq<Byte>, base: nat, t: nat, n: nat)
    requires n > 0 && t <= NO_TTL
    ensures Lifetime(m, ExpectedRecords(base, t, 0, n), n, 0) == t
  {
    hide ExpectedRecords;
    var rs := ExpectedRecords(base, t, 0, n);
    LifetimeIsLeast(m, rs, n, 0);
    assert forall i :: 0 <= i < n ==> Bound(m, rs[i], i, n, 0) == t;
    assert Bound(m, rs[0], 0, n, 0) == t;
  }

  // ---------------------------------------------------------------- the whole reply

  /** The parts of a reply with answers: the header, the echoed question, the answer records. */
  lemma {:induction false} ReplyParts(query: seq<Byte>, q: Question, ips: seq<Option<Address>>, ttl: nat)
    requires 12 <= q.end <= |query| && ttl < TWO_TO_THE_32 && 1 <= |Parsable(ips)| <= 65535
    ensures var m, n := AResponse(query, q, ips, ttl), |Parsable(ips)|;
      && HasAnswers(m, q.end, Parsable(ips), EffectiveTtl(ttl))
      && m[..2] == query[..2] && m[3] % 16 == 0 && m[2] >= 128
      && U16(m, 4) == 1 && U16(m, 6) == n && U16(m, 8) == 0 && U16(m, 10) == 0
      && (forall i :: 12 <= i < q.end ==> m[i] == query[i])
  {
    hide ARecords, Be16, HasAnswers;
    var addresses, t := Parsable(ips), EffectiveTtl(ttl);
    var head := ReplyHeader(query, [0, 1], |addresses|, 0);
    var front := head + query[12..q.end];
    AnswersInPlace(front, addresses, t);
    var m := AResponse(query, q, ips, ttl);
    assert m == front + ARecords(addresses, t);
    assert head[6..8] == Be16(|addresses|);
    assert U16(m, 6) == U16(head[6..8], 0);
    assert m[..2] == head[..2] == query[..2];
  }

  lemma {:induction false} ReplyQuestion(query: seq<Byte>, q: Question, m: seq<Byte>, cap: nat)
    requires |m| <= cap
    requires QuestionOf(query) == Ok(q) && |m| >= q.end && U16(m, 4) == 1
    requires forall i :: 12 <= i < q.end ==> m[i] == query[i]
    ensures 12 <= q.end <= |query| && QuestionOf(m) == Ok(q)
    ensures var s := ScanLabels(query, 12);
      && s.LabelScan? && q.end == s.next + 4 && q.name == NormalizeName(Join(s.labels))
      && SkipQuestions(m, 12, 1) == Some(q.end)
      && !QuestionPanics(m, cap, 12, 1) && QuestionSection(m, cap, 12, [], 1) == Some((q.end, Join(s.labels)))
  {
    hide NormalizeName, Join, SkipName, QNameEnd, QNameLabels;
    LabelsSame(query, m, 12);
    LabelsSkip(m, 12);
    LabelsRead(m, cap, 12);
  }

  /** The offsets of the TTL fields of n answers that start at base. */
  function AnswerTtlOffsets(base: nat, n: nat): seq<nat> {
    seq(n, j requires 0 <= j < n => base + 6 + 16 * j)
  }

  /** For a query that parses and 1 to 65535 valid addresses: the reply carries the query's ID and
      the same question, the client reads back the addresses in order under the name it asked for,
      and the cache finds one TTL per answer, in the same place of each, with the value asked for
      (60 when that is zero) - unless it is 2^32 - 1, which responseTTLs takes for no TTL at all. */
  lemma {:induction false} ReplyRoundTrip(query: seq<Byte>, q: Question, ips: seq<Option<Address>>, ttl: nat,
                                          spare: nat)
    requires QuestionOf(query) == Ok(q) && ttl < TWO_TO_THE_32 && 1 <= |Parsable(ips)| <= 65535
    ensures 12 <= q.end <= |query|
    ensures var m, t := AResponse(query, q, ips, ttl), EffectiveTtl(ttl);
      && m[..2] == query[..2]
      && QuestionOf(m) == Ok(q)
      && ResponseTtls(m) == (if t == NO_TTL then None else Some(Ttls(AnswerTtlOffsets(q.end, |Parsable(ips)|), t)))
    ensures ScanLabels(query, 12).LabelScan? && q.name == NormalizeName(Join(ScanLabels(query, 12).labels))
    ensures var m := AResponse(query, q, ips, ttl);
      AnswersOf(m, |m| + spare) == Answers(Parsable(ips), 0, Join(ScanLabels(query, 12).labels))
  {
    hide NormalizeName, Join, SkipQuestions, QuestionSection, QuestionPanics, AnswerSection, AResponse, Records,
         TtlOffsets, Lifetime, U16, ExpectedRecords, ScanLabels;
    assert 12 <= q.end <= |query| by { QuestionInside(query, q); }
    var addresses, t := Parsable(ips), EffectiveTtl(ttl);
    var m, n := AResponse(query, q, ips, ttl), |addresses|;
    ReplyParts(query, q, ips, ttl);
    ReplyQuestion(query, q, m, |m| + spare);
    RecordsRead(m, q.end, addresses, t, 0);
    ExpectedOffsets(q.end, t, 0, n);
    assert seq(n - 0, j requires 0 <= j < n - 0 => q.end + 6 + 16 * (0 + j)) == AnswerTtlOffsets(q.end, n);
    ExpectedLifetime(m, q.end, t, n);
    AddressesRead(m, q.end, addresses, t, 0);
    assert addresses[0..] == addresses;
  }

  lemma {:induction false} QuestionInside(query: seq<Byte>, q: Question)
    requires QuestionOf(query) == Ok(q)
    ensures 12 <= q.end <= |query|
  {
  }

  lemma {:induction false} ErrorHeader(query: seq<Byte>, rcode: nat)
    requires |query| >= 12 && rcode < 16
    ensures var m := ErrorResponse(query, rcode);
      && |m| == |query| && m[..2] == query[..2] && m[2] >= 128 && m[3] % 16 == rcode
      && U16(m, 4) == U16(query, 4) && U16(m, 6) == 0 && U16(m, 8) == 0
      && forall i :: 12 <= i < |m| ==> m[i] == query[i]
  {
    var head := ReplyHeader(query, query[4..6], 0, rcode);
    var m := ErrorResponse(query, rcode);
    assert m[..2] == query[..2];
    assert forall i :: 0 <= i < 12 ==> m[i] == head[i];
    assert head[4] == query[4] && head[5] == query[5];
  }

  /** From octet o on, both messages are the same. */
  ghost predicate SameFrom(b: seq<Byte>, c: seq<Byte>, o: nat) {
    |b| == |c| && forall i :: o <= i < |b| ==> b[i] == c[i]
  }

  lemma {:induction false} QNameEndSame(b: seq<Byte>, c: seq<Byte>, off: nat)
    requires SameFrom(b, c, 12) && off >= 12
    ensures QNameEnd(c, off) == QNameEnd(b, off)
    decreases |b| - off
  {
    if off < |b| && 0 < b[off] < 192 { QNameEndSame(b, c, off + 1 + b[off]); }
  }

  lemma {:induction false} QNameLabelsSame(b: seq<Byte>, c: seq<Byte>, cap: nat, cur: nat, off: nat)
    requires |b| <= cap && SameFrom(b, c, 12) && cur >= 12
    ensures QNameLabels(c, cap, cur, off) == QNameLabels(b, cap, cur, off)
    decreases off - cur
  {
    if cur < off && cur < |b| && 0 < b[cur] < 192 && cur + 1 + b[cur] <= off && cur + 1 + b[cur] <= cap {
      var next := cur + 1 + b[cur];
      QNameLabelsSame(b, c, cap, next, off);
      var end := if next > |b| then |b| else next;
      assert b[cur + 1..end] == c[cur + 1..end];
    }
  }

  lemma {:induction false} QuestionsSame(b: seq<Byte>, c: seq<Byte>, cap: nat, off: nat, qname: Name, n: nat)
    requires |b| <= cap && SameFrom(b, c, 12) && off >= 12
    ensures QuestionSection(c, cap, off, qname, n) == QuestionSection(b, cap, off, qname, n)
    ensures QuestionPanics(c, cap, off, n) == QuestionPanics(b, cap, off, n)
    decreases n
  {
    hide QNameEnd, QNameLabels, Join, SameFrom;
    if n > 0 {
      var end := QNameEnd(b, off);
      QNameEndSame(b, c, off);
      QNameLabelsSame(b, c, cap, off, end);
      assert |b| == |c| by { SameLength(b, c); }
      if QNameLabels(b, cap, off, end).Some? && end + 4 <= |b| {
        QuestionsSame(b, c, cap, end + 4, Join(QNameLabels(b, cap, off, end).value), n - 1);
      } else if end + 4 <= |b| {
        QuestionsSame(b, c, cap, end + 4, qname, n - 1);
      }
    }
  }

  lemma {:induction false} SameLength(b: seq<Byte>, c: seq<Byte>)
    requires SameFrom(b, c, 12)
    ensures |b| == |c|
  {
  }

  /** An error response keeps the ID, the length and the question, and no cache keeps it. Its client reads
      the code, no address, and the name of the last question, or fails on the questions as it
      would on those of the query; with one question, it reads that one's name. */
  lemma {:induction false} ErrorRoundTrip(query: seq<Byte>, q: Question, rcode: nat, spare: nat)
    requires QuestionOf(query) == Ok(q) && rcode < 16
    ensures |query| >= 12 && ScanLabels(query, 12).LabelScan?
    ensures var m := ErrorResponse(query, rcode);
      && |m| == |query| && m[..2] == query[..2] && m[2] >= 128
      && QuestionOf(m) == Ok(q) && ResponseTtls(m) == None
    ensures var m, n, cap := ErrorResponse(query, rcode), U16(query, 4), |query| + spare;
      && AnswersOf(m, cap) == (
           if QuestionPanics(query, cap, 12, n) then OutOfRange
           else
             match QuestionSection(query, cap, 12, [], n)
             case None => AnswerError
             case Some(last) => Answers([], rcode, last.1))
      && (n == 1 ==> AnswersOf(m, cap) == Answers([], rcode, Join(ScanLabels(query, 12).labels)))
  {
    hide NormalizeName, Join, SkipName, QNameEnd, QNameLabels, U16, QuestionSection, QuestionPanics;
    var m, n := ErrorResponse(query, rcode), U16(query, 4);
    ErrorHeader(query, rcode);
    hide ErrorResponse;
    QuestionsSame(query, m, |query| + spare, 12, [], n);
    var s := ScanLabels(query, 12);
    LabelsSame(query, m, 12);
    U16Same(query, m, s.next);
    U16Same(query, m, s.next + 2);
    if n == 1 { OneQuestion(query, |query| + spare); }
  }

  lemma {:induction false} OneQuestion(query: seq<Byte>, cap: nat)
    requires |query| <= cap && QuestionOf(query).Ok?
    ensures !QuestionPanics(query, cap, 12, 1)
    ensures var s := ScanLabels(query, 12); QuestionSection(query, cap, 12, [], 1) == Some((s.next + 4, Join(s.labels)))
  {
    hide NormalizeName, Join, QNameEnd, QNameLabels;
    LabelsSkip(query, 12);
    LabelsRead(query, cap, 12);
  }

  // ---------------------------------------------------------------- the query

  predicate ShortLabels(labels: seq<Name>) {
    forall i :: 0 <= i < |labels| ==> 1 <= |labels[i]| <= 63
  }

  lemma {:induction false} PeelLabel(b: seq<Byte>, off: nat, text: Name, tail: seq<Byte>)
    requires off <= |b| && |text| <= 63 && b[off..] == EncodeLabel(text) + tail
    ensures off + 1 + |text| <= |b| && b[off] == |text|
    ensures b[off + 1..off + 1 + |text|] == text && b[off + 1 + |text|..] == tail
  {
    var rest := b[off..];
    assert b[off] == rest[0] && |rest| == 1 + |text| + |tail|;
    assert b[off + 1..off + 1 + |text|] == rest[1..1 + |text|];
    assert b[off + 1 + |text|..] == rest[1 + |text|..];
  }

  lemma {:induction false} LabelsInPlace(b: seq<Byte>, off: nat, labels: seq<Name>, rest: seq<Byte>)
    requires off <= |b| && b[off..] == EncodeLabels(labels) + ([0] + rest) && ShortLabels(labels)
    ensures ScanLabels(b, off) == LabelScan(labels, off + |EncodeLabels(labels)| + 1)
    decreases |labels|
  {
    hide EncodeLabel;
    if labels != [] {
      var first, others := EncodeLabel(labels[0]), EncodeLabels(labels[1..]);
      assert (first + others) + ([0] + rest) == first + (others + ([0] + rest));
      PeelLabel(b, off, labels[0], others + ([0] + rest));
      LabelsInPlace(b, off + 1 + |labels[0]|, labels[1..], rest);
      assert |first| == 1 + |labels[0]| by { LabelLength(labels[0]); }
    } else {
      assert b[off] == b[off..][0] == 0;
    }
  }

  lemma {:induction false} LabelLength(text: Name)
    ensures |EncodeLabel(text)| == 1 + |text|
  {
  }

  lemma {:induction false} QueryParts(name: Name)
    requires ShortLabels(QueryLabels(name))
    ensures var b, labels := QueryFor(name), QueryLabels(name);
      && |b| == 12 + |EncodeLabels(labels)| + 5
      && ScanLabels(b, 12) == LabelScan(labels, |b| - 4)
      && U16(b, |b| - 4) == 1 && U16(b, |b| - 2) == 1
      && U16(b, 4) == 1 && U16(b, 6) == 0 && U16(b, 8) == 0 && U16(b, 10) == 0
  {
    hide QueryLabels;
    var b, labels := QueryFor(name), QueryLabels(name);
    assert b[12..] == EncodeLabels(labels) + ([0] + [0, 1, 0, 1]);
    LabelsInPlace(b, 12, labels, [0, 1, 0, 1]);
  }

  /** parseQuestion undoes buildQuery when no label is longer than the 63 octets section 2.3.4 of
      RFC 1035 allows. */
  lemma {:induction false} QueryRoundTrip(name: Name)
    requires ShortLabels(QueryLabels(name))
    ensures QuestionOf(QueryFor(name))
         == Ok(Question(NormalizeName(Join(QueryLabels(name))), 1, 1, |QueryFor(name)|))
  {
    hide QueryLabels, QueryFor, U16, NormalizeName, Join;
    QueryParts(name);
  }

  lemma {:induction false} ScannedAreShort(b: seq<Byte>, off: nat)
    requires ScanLabels(b, off).LabelScan?
    ensures ShortLabels(ScanLabels(b, off).labels)
    decreases |b| - off
  {
    if off < |b| && b[off] != 0 { ScannedAreShort(b, off + 1 + b[off]); }
  }

  /** buildQuery does not check the length of a label, and writes only its last eight bits: the labels
      it writes are read back exactly when all of them are within the limit. */
  lemma {:induction false} LabelsReadBackIff(name: Name)
    ensures ScanLabels(QueryFor(name), 12) == LabelScan(QueryLabels(name), |QueryFor(name)| - 4) <==>
      forall i :: 0 <= i < |QueryLabels(name)| ==> |QueryLabels(name)[i]| <= 63
  {
    hide QueryLabels, QueryFor, U16;
    QueryLabelsArePlain(name);
    if ShortLabels(QueryLabels(name)) { QueryParts(name); }
    if ScanLabels(QueryFor(name), 12).LabelScan? { ScannedAreShort(QueryFor(name), 12); }
  }

  // ---------------------------------------------------------------- a label that is too long

  /** What Split and NonEmpty leave: no label is empty, none holds a dot. */
  ghost predicate Plain(labels: seq<Name>) {
    forall i :: 0 <= i < |labels| ==> labels[i] != [] && DOT !in labels[i]
  }

  lemma {:induction false} SplitHasNoDots(s: Name)
    ensures forall i :: 0 <= i < |Split(s)| ==> DOT !in Split(s)[i]
  {
    if s != [] {
      SplitHasNoDots(s[1..]);
      var rest := Split(s[1..]);
      assert Split(s) == if s[0] == DOT then [[]] + rest else [[s[0]] + rest[0]] + rest[1..];
    }
  }

  lemma {:induction false} NonEmptyIsPlain(labels: seq<Name>)
    requires forall i :: 0 <= i < |labels| ==> DOT !in labels[i]
    ensures Plain(NonEmpty(labels))
  {
    if labels != [] { NonEmptyIsPlain(labels[1..]); }
  }

  lemma {:induction false} QueryLabelsArePlain(name: Name)
    ensures Plain(QueryLabels(name))
  {
    SplitHasNoDots(TrimDot(name));
    NonEmptyIsPlain(Split(TrimDot(name)));
  }

  lemma {:induction false} JoinLength(labels: seq<Name>)
    ensures |Join(labels)| == if labels == [] then 0 else |EncodeLabels(labels)| - 1
    ensures labels != [] ==> |EncodeLabels(labels)| >= 1 + |labels[0]|
  {
    if labels != [] {
      JoinLength(labels[1..]);
      LabelLength(labels[0]);
    }
  }

  lemma {:induction false} FewOctets(labels: seq<Name>)
    requires ShortLabels(labels) && |labels| <= 1
    ensures |Join(labels)| <= 63
  {
  }

  /** The labels read take up the octets that were walked over. */
  lemma {:induction false} ScanLength(b: seq<Byte>, off: nat)
    requires ScanLabels(b, off).LabelScan? && ScanLabels(b, off).next < |b|
    ensures ScanLabels(b, off).next == off + |EncodeLabels(ScanLabels(b, off).labels)| + 1
    decreases |b| - off
  {
    if b[off] != 0 {
      var next := off + 1 + b[off];
      ScanLength(b, next);
      var first, others := b[off + 1..next], ScanLabels(b, next).labels;
      LabelLength(first);
      assert ([first] + others)[1..] == others;
    }
  }

  /** The names agree up to i; there one has a dot, and the other 256 octets of text without one. */
  ghost predicate Misread(a: Name, b: Name, i: int) {
    && 0 <= i < |a| && i + 256 <= |b| && a[..i] == b[..i] && a[i] == DOT
    && forall j :: i <= j < i + 256 ==> b[j] != DOT
  }

  /** The wire at off holds the labels, and the scan reads other ones up to the same end. */
  ghost predicate ReadAs(b: seq<Byte>, off: nat, labels: seq<Name>, rest: seq<Byte>, read: seq<Name>) {
    && off <= |b| && rest != [] && b[off..] == EncodeLabels(labels) + ([0] + rest)
    && ScanLabels(b, off) == LabelScan(read, off + |EncodeLabels(labels)| + 1)
  }

  lemma {:induction false} ScanStep(b: seq<Byte>, off: nat)
    requires off < |b| && ScanLabels(b, off).LabelScan?
    ensures b[off] == 0 ==> ScanLabels(b, off).next == off + 1
    ensures b[off] != 0 ==> (
      var next := off + 1 + b[off];
      && b[off] <= 63 && next <= |b| && ScanLabels(b, next).LabelScan?
      && ScanLabels(b, off).next == ScanLabels(b, next).next
      && ScanLabels(b, off).labels == [b[off + 1..next]] + ScanLabels(b, next).labels)
  {
  }

  lemma {:induction false} FirstLabelOnWire(b: seq<Byte>, off: nat, labels: seq<Name>, rest: seq<Byte>, read: seq<Name>)
    requires labels != [] && ReadAs(b, off, labels, rest, read)
    ensures var tail := EncodeLabels(labels[1..]) + ([0] + rest);
      && off + 1 + |labels[0]| <= |b| && b[off..] == EncodeLabel(labels[0]) + tail
      && |tail| == |EncodeLabels(labels[1..])| + 1 + |rest| && rest != []
    ensures ScanLabels(b, off) == LabelScan(read, off + 2 + |labels[0]| + |EncodeLabels(labels[1..])|)
    ensures off + 2 + |labels[0]| + |EncodeLabels(labels[1..])| < |b|
  {
    hide EncodeLabel, ScanLabels;
    LabelLength(labels[0]);
    var first, others := EncodeLabel(labels[0]), EncodeLabels(labels[1..]);
    assert (first + others) + ([0] + rest) == first + (others + ([0] + rest));
  }

  /** Of a label that is too long the scan reads a beginning, and then more labels. */
  lemma {:induction false} LongLabelRead(b: seq<Byte>, off: nat, labels: seq<Name>, rest: seq<Byte>, read: seq<Name>)
    requires labels != [] && |labels[0]| > 63 && ReadAs(b, off, labels, rest, read)
    ensures |read| > 1 && |read[0]| + 256 <= |labels[0]| && read[0] == labels[0][..|read[0]|]
  {
    hide ReadAs, EncodeLabel, EncodeLabels, ScanLabels;
    FirstLabelOnWire(b, off, labels, rest, read);
    LengthOctet(b, off, labels[0], EncodeLabels(labels[1..]) + ([0] + rest));
    ScanStep(b, off);
    var next := off + 1 + b[off];
    ScanLength(b, next);
    if ScanLabels(b, next).labels == [] { assert |EncodeLabels([])| == 0 by { NothingEncoded(); } }
  }

  lemma {:induction false} NothingEncoded()
    ensures EncodeLabels([]) == []
  {
  }

  lemma {:induction false} LengthOctet(b: seq<Byte>, off: nat, text: Name, tail: seq<Byte>)
    requires off <= |b| && b[off..] == EncodeLabel(text) + tail
    ensures off + 1 + |text| <= |b| && b[off] == |text| % 256 && b[off + 1..off + 1 + |text|] == text
    ensures b[off + 1..off + 1 + |text| % 256] == text[..|text| % 256]
  {
    var wire := b[off..];
    assert b[off] == wire[0] && |wire| == 1 + |text| + |tail|;
    assert b[off + 1..off + 1 + |text|] == wire[1..1 + |text|];
  }

  lemma {:induction false} LongLabelCut(b: seq<Byte>, off: nat, labels: seq<Name>, rest: seq<Byte>, read: seq<Name>)
    requires Plain(labels) && labels != [] && |labels[0]| > 63 && ReadAs(b, off, labels, rest, read)
    ensures exists i :: Misread(Join(read), Join(labels), i)
  {
    LongLabelRead(b, off, labels, rest, read);
    hide Join, ReadAs;
    JoinOfTwo(read);
    JoinOfTwo(labels);
    var l := |read[0]|;
    assert Join(labels)[..l] == labels[0][..l] && Join(read)[..l] == read[0];
    forall j | l <= j < l + 256 ensures Join(labels)[j] != DOT { assert labels[0][j] in labels[0]; }
    assert Misread(Join(read), Join(labels), l);
  }

  lemma {:induction false} JoinOfTwo(labels: seq<Name>)
    requires labels != []
    ensures labels[0] <= Join(labels)
    ensures |labels| > 1 ==> |Join(labels)| > |labels[0]| && Join(labels)[|labels[0]|] == DOT
    ensures |labels| > 1 ==> Join(labels) == labels[0] + [DOT] + Join(labels[1..])
  {
  }

  lemma {:induction false} ShortLabelRead(b: seq<Byte>, off: nat, labels: seq<Name>, rest: seq<Byte>, read: seq<Name>)
    requires labels != [] && 1 <= |labels[0]| <= 63 && ReadAs(b, off, labels, rest, read)
    ensures read != [] && read[0] == labels[0]
    ensures ReadAs(b, off + 1 + |labels[0]|, labels[1..], rest, read[1..])
  {
    hide ReadAs, EncodeLabel, EncodeLabels, ScanLabels;
    FirstLabelOnWire(b, off, labels, rest, read);
    PeelLabel(b, off, labels[0], EncodeLabels(labels[1..]) + ([0] + rest));
    ScanStep(b, off);
    var next := off + 1 + |labels[0]|;
    assert read[1..] == ScanLabels(b, next).labels;
    RestReadAs(b, next, labels[1..], rest, read[1..]);
  }

  lemma {:induction false} RestReadAs(b: seq<Byte>, off: nat, labels: seq<Name>, rest: seq<Byte>, read: seq<Name>)
    requires off <= |b| && rest != [] && b[off..] == EncodeLabels(labels) + ([0] + rest)
    requires ScanLabels(b, off) == LabelScan(read, off + |EncodeLabels(labels)| + 1)
    ensures ReadAs(b, off, labels, rest, read)
  {
    hide EncodeLabels, ScanLabels;
  }

  lemma {:induction false} LongLabelMisread(b: seq<Byte>, off: nat, labels: seq<Name>, rest: seq<Byte>, read: seq<Name>)
    requires Plain(labels) && ReadAs(b, off, labels, rest, read) && !ShortLabels(labels)
    ensures exists i :: Misread(Join(read), Join(labels), i)
    decreases |labels|
  {
    hide Join, ReadAs;
    if |labels[0]| > 63 {
      LongLabelCut(b, off, labels, rest, read);
    } else {
      ShortLabelRead(b, off, labels, rest, read);
      var others, more := labels[1..], read[1..];
      assert Plain(others) && !ShortLabels(others);
      LongLabelMisread(b, off + 1 + |labels[0]|, others, rest, more);
      var i :| Misread(Join(more), Join(others), i);
      assert more != [] by { JoinLength(more); }
      JoinOfTwo(read);
      JoinOfTwo(labels);
      MisreadLater(Join(more), Join(others), i, labels[0]);
      assert Misread(Join(read), Join(labels), |labels[0]| + 1 + i);
    }
  }

  lemma {:induction false} MisreadLater(a: Name, b: Name, i: int, text: Name)
    requires Misread(a, b, i)
    ensures Misread(text + [DOT] + a, text + [DOT] + b, |text| + 1 + i)
  {
    var n := |text| + 1;
    var a', b' := text + [DOT] + a, text + [DOT] + b;
    assert a'[..n + i] == text + [DOT] + a[..i] && b'[..n + i] == text + [DOT] + b[..i];
    forall j | n + i <= j < n + i + 256 ensures b'[j] != DOT { assert b'[j] == b[j - n]; }
  }

  /** The last dot of a name with short labels is near its end. */
  lemma {:induction false} LastDot(labels: seq<Name>)
    requires ShortLabels(labels) && |labels| > 1
    ensures exists p :: 0 <= p < |Join(labels)| <= p + 64 && Join(labels)[p] == DOT
  {
    JoinOfTwo(labels);
    var n := |labels[0]|;
    if |labels| == 2 {
      assert Join(labels)[n] == DOT && |Join(labels)| == n + 1 + |labels[1]|;
    } else {
      LastDot(labels[1..]);
      var p :| 0 <= p < |Join(labels[1..])| <= p + 64 && Join(labels[1..])[p] == DOT;
      assert Join(labels)[n + 1 + p] == DOT;
    }
  }

  lemma {:induction false} LeftSlice(s: Name)
    ensures var c := |s| - |TrimLeft(s)|;
      && 0 <= c <= |s| && TrimLeft(s) == s[c..] && (c < |s| ==> !IsSpace(s[c]))
      && forall j :: 0 <= j < c ==> IsSpace(s[j])
  {
    if s != [] && IsSpace(s[0]) { LeftSlice(s[1..]); }
  }

  lemma {:induction false} RightSlice(s: Name, p: nat)
    requires p < |s| && !IsSpace(s[p])
    ensures var r := TrimRight(s); p < |r| <= |s| && r == s[..|r|]
  {
    if IsSpace(s[|s| - 1]) { RightSlice(s[..|s| - 1], p); }
  }

  /** Normalizing keeps a slice in lower case. It starts at the first octet that is no space, and does not end
      before a dot. */
  lemma {:induction false} NormalSlice(s: Name, p: nat)
    requires p < |s| && s[p] == DOT
    ensures var c, n := |s| - |TrimLeft(s)|, |NormalizeName(s)|;
      && 0 <= c <= p <= c + n <= |s| && NormalizeName(s) == Lower(s[c..c + n])
      && !IsSpace(s[c]) && forall j :: 0 <= j < c ==> IsSpace(s[j])
  {
    LeftSlice(s);
    var c := |s| - |TrimLeft(s)|;
    RightSlice(TrimLeft(s), p - c);
    SliceOfSlice(s, c, TrimDot(TrimRight(TrimLeft(s))));
  }

  lemma {:induction false} NormalStart(s: Name)
    ensures var c, n := |s| - |TrimLeft(s)|, |NormalizeName(s)|;
      && 0 <= c && c + n <= |s| && NormalizeName(s) == Lower(s[c..c + n])
      && (c < |s| ==> !IsSpace(s[c])) && forall j :: 0 <= j < c ==> IsSpace(s[j])
  {
    LeftSlice(s);
    RightPrefix(TrimLeft(s));
    SliceOfSlice(s, |s| - |TrimLeft(s)|, TrimDot(TrimRight(TrimLeft(s))));
  }

  lemma {:induction false} SliceOfSlice(s: Name, c: nat, t: Name)
    requires c <= |s| && |t| <= |s| - c && t == s[c..][..|t|]
    ensures t == s[c..c + |t|]
  {
  }

  lemma {:induction false} RightPrefix(s: Name)
    ensures |TrimRight(s)| <= |s| && TrimRight(s) == s[..|TrimRight(s)|]
  {
    if s != [] && IsSpace(s[|s| - 1]) { RightPrefix(s[..|s| - 1]); }
  }

  /** A misread name never normalizes to what the name itself does, whatever spaces stand around them. */
  lemma {:induction false} NormalizedApart(a: Name, b: Name, i: int, p: nat)
    requires |a| == |b| && Misread(a, b, i) && p < |a| <= p + 64 && a[p] == DOT
    ensures NormalizeName(a) != NormalizeName(b)
  {
    hide NormalizeName, TrimLeft;
    NormalSlice(a, p);
    NormalSlice(a, i);
    NormalStart(b);
    var c, d, n := |a| - |TrimLeft(a)|, |b| - |TrimLeft(b)|, |NormalizeName(a)|;
    if NormalizeName(a) == NormalizeName(b) {
      SpacesBefore(a, b, i, c, d);
      SameSlices(a, b, i, c, d, n);
    }
  }

  /** Where the text of both starts: at the same octet, or in the misread one at the dot. */
  lemma {:induction false} SpacesBefore(a: Name, b: Name, i: int, c: nat, d: nat)
    requires Misread(a, b, i) && c <= i && d <= |b|
    requires !IsSpace(a[c]) && (forall j :: 0 <= j < c ==> IsSpace(a[j]))
    requires (d < |b| ==> !IsSpace(b[d])) && (forall j :: 0 <= j < d ==> IsSpace(b[j]))
    ensures c == d || (c == i && d > i)
  {
    forall j | 0 <= j < i ensures a[j] == b[j] { assert a[..i][j] == b[..i][j]; }
  }

  lemma {:induction false} SameSlices(a: Name, b: Name, i: int, c: nat, d: nat, n: nat)
    requires |a| == |b| && Misread(a, b, i) && c <= i && |a| <= c + n + 64 && c + n <= |a| && d + n <= |b|
    requires c == d || (c == i && d > i)
    ensures Lower(a[c..c + n]) != Lower(b[d..d + n])
  {
    var x, y := Lower(a[c..c + n]), Lower(b[d..d + n]);
    if c == d {
      assert x[i - c] == DOT && y[i - c] != DOT;
    } else {
      assert n > 0 && d < i + 256;
      assert x[0] == DOT && y[0] != DOT;
    }
  }

  /** buildQuery does not check its labels: for every name, parseQuestion undoes it if and only if no label
      is longer than the 63 octets section 2.3.4 of RFC 1035 allows. */
  lemma {:induction false} QueryRoundTripIff(name: Name)
    ensures QuestionOf(QueryFor(name)) == Ok(Question(NormalizeName(Join(QueryLabels(name))), 1, 1, |QueryFor(name)|))
      <==> forall i :: 0 <= i < |QueryLabels(name)| ==> |QueryLabels(name)[i]| <= 63
  {
    hide QueryLabels, U16, NormalizeName, Join;
    var b, labels := QueryFor(name), QueryLabels(name);
    QueryLabelsArePlain(name);
    if ShortLabels(labels) {
      QueryRoundTrip(name);
    } else if ScanLabels(b, 12).LabelScan? && ScanLabels(b, 12).next == |b| - 4 {
      OtherName(name);
    }
  }

  lemma {:induction false} WrittenAs(name: Name)
    requires ScanLabels(QueryFor(name), 12).LabelScan? && ScanLabels(QueryFor(name), 12).next == |QueryFor(name)| - 4
    ensures var read, labels := ScanLabels(QueryFor(name), 12).labels, QueryLabels(name);
      && ReadAs(QueryFor(name), 12, labels, [0, 1, 0, 1], read)
      && |EncodeLabels(read)| == |EncodeLabels(labels)| && |QueryFor(name)| == 12 + |EncodeLabels(labels)| + 5
  {
    hide QueryLabels, EncodeLabels, ScanLabels;
    var b, labels := QueryFor(name), QueryLabels(name);
    assert b[12..] == EncodeLabels(labels) + ([0] + [0, 1, 0, 1]);
    ScanLength(b, 12);
  }

  /** A label that is too long makes the name on the wire another one. */
  lemma {:induction false} OtherName(name: Name)
    requires !ShortLabels(QueryLabels(name))
    requires ScanLabels(QueryFor(name), 12).LabelScan? && ScanLabels(QueryFor(name), 12).next == |QueryFor(name)| - 4
    ensures NormalizeName(Join(ScanLabels(QueryFor(name), 12).labels)) != NormalizeName(Join(QueryLabels(name)))
  {
    hide QueryLabels, NormalizeName, Join, QueryFor, EncodeLabels, ScanLabels, ReadAs;
    var b, labels := QueryFor(name), QueryLabels(name);
    QueryLabelsArePlain(name);
    var read := ScanLabels(b, 12).labels;
    WrittenAs(name);
    LongLabelMisread(b, 12, labels, [0, 1, 0, 1], read);
    var i :| Misread(Join(read), Join(labels), i);
    JoinLength(read);
    JoinLength(labels);
    ScannedAreShort(b, 12);
    hide Misread;
    MisreadIsLong(Join(read), Join(labels), i);
    if |read| <= 1 { FewOctets(read); }
    LastDot(read);
    var p :| 0 <= p < |Join(read)| <= p + 64 && Join(read)[p] == DOT;
    NormalizedApart(Join(read), Join(labels), i, p);
  }

  lemma {:induction false} MisreadIsLong(a: Name, b: Name, i: int)
    requires Misread(a, b, i)
    ensures |a| > 0 && |b| >= 256
  {
  }

  /** A name as the resolver writes names: already normalized, with labels of 1 to 63 octets. */
  predicate Hostname(name: Name) {
    Normalized(name) && ShortLabels(Split(name))
  }

  lemma {:induction false} HostnameLabels(name: Name)
    requires Hostname(name)
    ensures QueryLabels(name) == Split(name) && Join(QueryLabels(name)) == name
  {
    NormalizedIff(name);
    NonEmptyAll(Split(name));
    JoinSplit(name);
  }

  /** The whole exchange: the resolver sees the name the client asked for, and the client reads back
      that name with the addresses the resolver put into its reply. */
  lemma {:induction false} ClientServerRoundTrip(name: Name, ips: seq<Option<Address>>, ttl: nat, spare: nat)
    requires Hostname(name) && ttl < TWO_TO_THE_32 && 1 <= |Parsable(ips)| <= 65535
    ensures QuestionOf(QueryFor(name)) == Ok(Question(name, 1, 1, |QueryFor(name)|))
    ensures |QueryFor(name)| >= 17
    ensures var query := QueryFor(name);
      var m := AResponse(query, Question(name, 1, 1, |query|), ips, ttl);
      AnswersOf(m, |m| + spare) == Answers(Parsable(ips), 0, name)
  {
    hide QuestionOf, AnswersOf, AResponse, QueryFor, QueryLabels;
    HostnameLabels(name);
    QueryParts(name);
    QueryRoundTrip(name);
    ReplyRoundTrip(QueryFor(name), Question(name, 1, 1, |QueryFor(name)|), ips, ttl, spare);
  }

  // ---------------------------------------------------------------- the query on a DoT stream

  lemma {:induction false} LabelsAsStreamName(b: seq<Byte>, off: nat, seen: nat)
    requires ScanLabels(b, off).LabelScan? && ScanLabels(b, off).next + 4 <= |b|
    requires seen + |ScanLabels(b, off).labels| <= 128
    ensures DotStream.ScanName(b, off, seen)
         == DotStream.NameDone(ScanLabels(b, off).next, seen + |ScanLabels(b, off).labels|)
    decreases |b| - off
  {
    if b[off] != 0 { LabelsAsStreamName(b, off + 1 + b[off], seen + 1); }
  }

  /** What buildQuery writes for a name of 1 to 128 labels is a complete message for the stream
      decoder, so by FramedStreams a client that prefixes it with its length is always answered. */
  lemma {:induction false} QueryIsAMessage(name: Name)
    requires ShortLabels(QueryLabels(name)) && 1 <= |QueryLabels(name)| <= 128
    ensures DotStream.MessageLen(QueryFor(name)) == DotStream.Done(|QueryFor(name)|)
    ensures |QueryFor(name)| <= 4096 ==> DotStream.WellFormed(DotStream.Msg(QueryFor(name), true))
  {
    hide QueryLabels, QueryFor, U16, DotStream.ScanName;
    var b := QueryFor(name);
    QueryParts(name);
    LabelsAsStreamName(b, 12, 0);
    assert DotStream.ScanQuestions(b, 12, 1) == DotStream.Done(|b|);
  }
}
