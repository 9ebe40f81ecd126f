/** The time-to-live fields of a DNS reply: how responseTTLs and skipDNSName find them, how long
    a reply may be kept, and how the cache's get ages them in place on the wire bytes. */
module ReplyTtl {
  import opened Bytes
  import opened Numbers
  import opened Wrappers

  const OPT := 41
  const SOA := 6
  const NO_TTL: nat := 0xFFFF_FFFF

  // ---------------------------------------------------------------- finding the records

  function SkipName(m: seq<Byte>, offset: nat): (r: Option<nat>)
    ensures r.Some? ==> offset < r.value <= |m|
    decreases |m| - offset
  {
    if offset >= |m| then None
    else if m[offset] >= 192 then (if offset + 2 > |m| then None else Some(offset + 2))
    else if m[offset] == 0 then Some(offset + 1)
    else if m[offset] > 63 || offset + 1 + m[offset] > |m| then None
    else SkipName(m, offset + 1 + m[offset])
  }

  method SkipDNSName(message: seq<Byte>, start: nat) returns (r: Option<nat>)
    ensures r == SkipName(message, start)
  {
    var offset: nat := start;
    while true
      invariant SkipName(message, start) == SkipName(message, offset)
      decreases |message| - offset
    {
      if offset >= |message| { return None; }
      var length := message[offset];
      if length >= 192 {
        if offset + 2 > |message| { return None; }
        return Some(offset + 2);
      }
      if length == 0 { return Some(offset + 1); }
      if length > 63 || offset + 1 + length > |message| { return None; }
      offset := offset + 1 + length;
    }
  }

  function SkipQuestions(m: seq<Byte>, offset: nat, n: nat): (r: Option<nat>)
    ensures r.Some? ==> r.value >= offset
    decreases n
  {
    if n == 0 then Some(offset) else
    var name := SkipName(m, offset);
    if name.None? || name.value + 4 > |m| then None else SkipQuestions(m, name.value + 4, n - 1)
  }

  /** A resource record: at is the offset of its TYPE field; its data starts ten octets later. */
  datatype Record = Record(at: nat, rtype: nat, ttl: nat, length: nat)

  function RecordAt(m: seq<Byte>, at: nat): Record
    requires at + 10 <= |m|
  {
    Record(at, U16(m, at), U32(m, at + 4), U16(m, at + 8))
  }

  function Records(m: seq<Byte>, offset: nat, n: nat): (r: Option<seq<Record>>)
    ensures r.Some? ==> |r.value| == n
    decreases n
  {
    if n == 0 then Some([]) else
    var name := SkipName(m, offset);
    if name.None? || name.value + 10 > |m| then None else
    var head := RecordAt(m, name.value);
    if head.at + 10 + head.length > |m| then None else
    var tail := Records(m, head.at + 10 + head.length, n - 1);
    if tail.None? then None else Some([head] + tail.value)
  }

  function Prepend(seen: seq<Record>, rest: Option<seq<Record>>): Option<seq<Record>> {
    if rest.None? then None else Some(seen + rest.value)
  }

  lemma {:induction false} PrependNothing(rest: Option<seq<Record>>)
    ensures Prepend([], rest) == rest
  {
    if rest.Some? { assert [] + rest.value == rest.value; }
  }

  lemma {:induction false} PrependNext(m: seq<Byte>, seen: seq<Record>, offset: nat, n: nat)
    ensures n == 0 ==> Prepend(seen, Records(m, offset, n)) == Some(seen)
    ensures n > 0 ==> (
      var name := SkipName(m, offset);
      Prepend(seen, Records(m, offset, n)) ==
        if name.None? || name.value + 10 > |m| then None else
        var head := RecordAt(m, name.value);
        if head.at + 10 + head.length > |m| then None
        else Prepend(seen + [head], Records(m, head.at + 10 + head.length, n - 1)))
  {
    hide SkipName, RecordAt;
    if n > 0 && SkipName(m, offset).Some? && SkipName(m, offset).value + 10 <= |m| {
      var head := RecordAt(m, SkipName(m, offset).value);
      var tail := Records(m, head.at + 10 + head.length, n - 1);
      if tail.Some? { assert seen + ([head] + tail.value) == seen + [head] + tail.value; }
    } else {
      assert seen + [] == seen;
    }
  }

  function TtlOffsets(rs: seq<Record>): seq<nat> {
    if rs == [] then []
    else (if rs[0].rtype != OPT then [rs[0].at + 4] else []) + TtlOffsets(rs[1..])
  }

  /** The last four octets of a record's data: in a SOA record, the MINIMUM field. */
  function LastField(m: seq<Byte>, r: Record): nat {
    if 4 <= r.length && r.at + 10 + r.length <= |m| then U32(m, r.at + 10 + r.length - 4) else NO_TTL
  }

  /** What record number i says about how long the reply may be kept; NO_TTL if nothing. */
  function Bound(m: seq<Byte>, r: Record, i: nat, an: nat, ns: nat): nat {
    if r.rtype == OPT then NO_TTL
    else if i < an then r.ttl
    else if an == 0 && i < ns && r.rtype == SOA && r.length >= 20 then Min(LastField(m, r), r.ttl)
    else NO_TTL
  }

  function Lifetime(m: seq<Byte>, rs: seq<Record>, an: nat, ns: nat): nat {
    if rs == [] then NO_TTL
    else Min(Lifetime(m, rs[..|rs| - 1], an, ns), Bound(m, rs[|rs| - 1], |rs| - 1, an, ns))
  }

  lemma {:induction false} NoLifetime(m: seq<Byte>, an: nat, ns: nat)
    ensures Lifetime(m, [], an, ns) == NO_TTL
  {
  }

  lemma {:induction false} LifetimeAppend(m: seq<Byte>, rs: seq<Record>, r: Record, an: nat, ns: nat)
    ensures Lifetime(m, rs + [r], an, ns) == Min(Lifetime(m, rs, an, ns), Bound(m, r, |rs|, an, ns))
  {
    assert (rs + [r])[..|rs + [r]| - 1] == rs;
  }

  lemma {:induction false} BoundOf(m: seq<Byte>, r: Record, i: nat, an: nat, ns: nat)
    requires r.at + 10 + r.length <= |m|
    ensures Bound(m, r, i, an, ns) ==
      if r.rtype == OPT then NO_TTL
      else if i < an then r.ttl
      else if an == 0 && i < ns && r.rtype == SOA && r.length >= 20
      then Min(U32(m, r.at + 10 + r.length - 4), r.ttl)
      else NO_TTL
  {
  }

  predicate Cacheable(m: seq<Byte>): (r: bool)
    ensures r ==> |m| >= 12
  {
    |m| >= 12 && (m[3] % 16 == 0 || m[3] % 16 == 3) && !(U16(m, 6) == 0 && U16(m, 8) == 0)
  }

  function ReplyRecords(m: seq<Byte>): Option<seq<Record>>
    requires |m| >= 12
  {
    var questions := SkipQuestions(m, 12, U16(m, 4));
    if questions.None? then None
    else Records(m, questions.value, U16(m, 6) + U16(m, 8) + U16(m, 10))
  }

  datatype Ttls = Ttls(offsets: seq<nat>, min: nat)

  function ResponseTtls(m: seq<Byte>): (r: Option<Ttls>)
  {
    if !Cacheable(m) || ReplyRecords(m).None? then None else
    var rs := ReplyRecords(m).value;
    var min := Lifetime(m, rs, U16(m, 6), U16(m, 8));
    if min == NO_TTL then None else Some(Ttls(TtlOffsets(rs), min))
  }

  method ResponseTTLs(response: seq<Byte>) returns (r: Option<Ttls>)
    ensures r == ResponseTtls(response)
  {
    hide SkipName, U16, U32, Records, Prepend, Lifetime, Bound;
    if |response| < 12 || (response[3] % 16 != 0 && response[3] % 16 != 3) { return None; }
    var qd, an, ns, ar := U16(response, 4), U16(response, 6), U16(response, 8), U16(response, 10);
    if an == 0 && ns == 0 { return None; }
    var offset: nat := 12;
    for index: nat := 0 to qd
      invariant SkipQuestions(response, 12, qd) == SkipQuestions(response, offset, qd - index)
    {
      var name := SkipDNSName(response, offset);
      if name.None? || name.value + 4 > |response| { return None; }
      offset := name.value + 4;
    }
    var ttlOffsets: seq<nat>, minTTL: nat := [], NO_TTL;
    var recordCount := an + ns + ar;
    ghost var all, seen := Records(response, offset, recordCount), [];
    PrependNothing(all);
    NoLifetime(response, an, ns);
    for index: nat := 0 to recordCount
      invariant |seen| == index
      invariant all == Prepend(seen, Records(response, offset, recordCount - index))
      invariant ttlOffsets == TtlOffsets(seen)
      invariant minTTL == Lifetime(response, seen, an, ns) && minTTL <= NO_TTL
    {
      PrependNext(response, seen, offset, recordCount - index);
      PrependNothing(all);
      var name := SkipDNSName(response, offset);
      if name.None? || name.value + 10 > |response| { return None; }
      offset := name.value;
      var recordType := U16(response, offset);
      var ttlOffset := offset + 4;
      var ttl := U32(response, ttlOffset);
      var dataLength := U16(response, offset + 8);
      ghost var head, before := RecordAt(response, offset), minTTL;
      offset := offset + 10;
      if offset + dataLength > |response| { return None; }
      if recordType != OPT {
        ttlOffsets := ttlOffsets + [ttlOffset];
        if index < an && ttl < minTTL { minTTL := ttl; }
        if an == 0 && index < an + ns && recordType == SOA && dataLength >= 20 {
          var neg := U32(response, offset + dataLength - 4);
          if ttl < neg { neg := ttl; }
          if neg < minTTL { minTTL := neg; }
        }
      }
      BoundOf(response, head, index, an, ns);
      offset := offset + dataLength;
      TtlOffsetsAppend(seen, head);
      LifetimeAppend(response, seen, head, an, ns);
      seen := seen + [head];
    }
    PrependNext(response, seen, offset, 0);
    PrependNothing(all);
    if minTTL == NO_TTL { return None; }
    return Some(Ttls(ttlOffsets, minTTL));
  }

  lemma {:induction false} TtlOffsetsAppend(rs: seq<Record>, r: Record)
    ensures TtlOffsets(rs + [r]) == TtlOffsets(rs) + (if r.rtype != OPT then [r.at + 4] else [])
  {
    if rs != [] {
      TtlOffsetsAppend(rs[1..], r);
      assert (rs + [r])[1..] == rs[1..] + [r];
    }
  }

  // ---------------------------------------------------------------- how long a reply may be kept

  lemma {:induction false} LifetimeIsLeast(m: seq<Byte>, rs: seq<Record>, an: nat, ns: nat)
    ensures forall i :: 0 <= i < |rs| ==> Lifetime(m, rs, an, ns) <= Bound(m, rs[i], i, an, ns)
    ensures Lifetime(m, rs, an, ns) == NO_TTL
         || exists i :: 0 <= i < |rs| && Lifetime(m, rs, an, ns) == Bound(m, rs[i], i, an, ns)
  {
    if rs != [] { LifetimeIsLeast(m, rs[..|rs| - 1], an, ns); }
  }

  /** The answers of a reply that has answers bound its lifetime; their least TTL is it. */
  lemma {:induction false} PositiveLifetime(m: seq<Byte>)
    requires ResponseTtls(m).Some? && U16(m, 6) > 0
    ensures var min, rs, an := ResponseTtls(m).value.min, ReplyRecords(m).value, U16(m, 6);
      && (forall i :: 0 <= i < an && rs[i].rtype != OPT ==> min <= rs[i].ttl)
      && (exists i :: 0 <= i < an && rs[i].rtype != OPT && min == rs[i].ttl)
  {
    LifetimeIsLeast(m, ReplyRecords(m).value, U16(m, 6), U16(m, 8));
  }

  /** The records of a reply lie inside it, in order and without overlap. */
  lemma {:induction false} RecordsInside(m: seq<Byte>, offset: nat, n: nat)
    requires Records(m, offset, n).Some?
    ensures var rs := Records(m, offset, n).value;
      && (forall i :: 0 <= i < n ==>
            offset < rs[i].at && rs[i].at + 10 + rs[i].length <= |m| && rs[i].ttl < TWO_TO_THE_32)
      && (forall i, j :: 0 <= i < j < n ==> rs[i].at + 10 + rs[i].length < rs[j].at)
    decreases n
  {
    if n > 0 {
      var head := RecordAt(m, SkipName(m, offset).value);
      RecordsInside(m, head.at + 10 + head.length, n - 1);
    }
  }

  predicate IsSoa(m: seq<Byte>, r: Record) {
    r.rtype == SOA && 20 <= r.length && r.at + 10 + r.length <= |m|
  }

  /** A reply without answers is kept as section 5 of RFC 2308 says: only with a SOA record in its
      authority section, for the smaller of that record's TTL and its MINIMUM field. */
  lemma {:induction false} NegativeLifetime(m: seq<Byte>)
    requires ResponseTtls(m).Some? && U16(m, 6) == 0
    ensures var min, rs, ns := ResponseTtls(m).value.min, ReplyRecords(m).value, U16(m, 8);
      && (forall i :: 0 <= i < ns && IsSoa(m, rs[i]) ==> min <= rs[i].ttl && min <= LastField(m, rs[i]))
      && (exists i :: 0 <= i < ns && IsSoa(m, rs[i]) && (min == rs[i].ttl || min == LastField(m, rs[i])))
  {
    var rs := ReplyRecords(m).value;
    LifetimeIsLeast(m, rs, 0, U16(m, 8));
    RecordsInside(m, SkipQuestions(m, 12, U16(m, 4)).value, |rs|);
  }

  /** The record lets a reply without answers be kept. */
  predicate NegativeBound(m: seq<Byte>, r: Record) {
    IsSoa(m, r) && (r.ttl != NO_TTL || LastField(m, r) != NO_TTL)
  }

  /** What lets a reply be kept: with answers, one other than OPT with a TTL other than 2^32 - 1, which the code
      takes for no TTL; without, a SOA record of at least 20 octets in its authority section whose TTL
      or MINIMUM is another. */
  ghost predicate HasLifetime(m: seq<Byte>, rs: seq<Record>, an: nat, ns: nat)
    requires an + ns <= |rs|
  {
    if an > 0 then exists i :: 0 <= i < an && rs[i].rtype != OPT && rs[i].ttl != NO_TTL
    else exists i :: 0 <= i < ns && NegativeBound(m, rs[i])
  }

  lemma {:induction false} HasLifetimeIff(m: seq<Byte>)
    requires |m| >= 12 && ReplyRecords(m).Some?
    ensures var rs, an, ns := ReplyRecords(m).value, U16(m, 6), U16(m, 8);
      Lifetime(m, rs, an, ns) != NO_TTL <==> HasLifetime(m, rs, an, ns)
  {
    var rs, an, ns := ReplyRecords(m).value, U16(m, 6), U16(m, 8);
    LifetimeIsLeast(m, rs, an, ns);
    RecordsInside(m, SkipQuestions(m, 12, U16(m, 4)).value, |rs|);
    hide Lifetime, Records, ReplyRecords;
    if an == 0 {
      forall i | 0 <= i < |rs| ensures Bound(m, rs[i], i, an, ns) != NO_TTL <==> i < ns && NegativeBound(m, rs[i]) {
        BoundOf(m, rs[i], i, an, ns);
      }
    } else {
      forall i | 0 <= i < |rs|
        ensures Bound(m, rs[i], i, an, ns) != NO_TTL <==> i < an && rs[i].rtype != OPT && rs[i].ttl != NO_TTL
      {
        BoundOf(m, rs[i], i, an, ns);
      }
    }
  }

  /** Which messages may be kept at all: those whose response code is 0 or 3, whose records can be read, and which
      have one that lets them. */
  lemma {:induction false} KeptIff(m: seq<Byte>)
    requires |m| >= 12
    ensures ResponseTtls(m).Some? <==>
      && (m[3] % 16 == 0 || m[3] % 16 == 3) && ReplyRecords(m).Some?
      && HasLifetime(m, ReplyRecords(m).value, U16(m, 6), U16(m, 8))
  {
    hide Lifetime, Bound, NegativeBound, U16, Records, SkipQuestions;
    if ReplyRecords(m).Some? { HasLifetimeIff(m); }
  }

  // ---------------------------------------------------------------- ageing

  /** The four-octet windows at offs lie in [lo, hi), in order and pairwise disjoint. */
  predicate Apart(offs: seq<nat>, lo: nat, hi: nat) {
    offs == [] || (lo <= offs[0] && offs[0] + 4 <= hi && Apart(offs[1..], offs[0] + 4, hi))
  }

  ghost predicate Covered(i: int, offs: seq<nat>) {
    exists k :: 0 <= k < |offs| && offs[k] <= i < offs[k] + 4
  }

  lemma {:induction false} ApartEach(offs: seq<nat>, lo: nat, hi: nat)
    requires Apart(offs, lo, hi)
    ensures forall k :: 0 <= k < |offs| ==> lo <= offs[k] && offs[k] + 4 <= hi
    ensures forall j, k :: 0 <= j < k < |offs| ==> offs[j] + 4 <= offs[k]
    decreases |offs|
  {
    if offs != [] { ApartEach(offs[1..], offs[0] + 4, hi); }
  }

  lemma {:induction false} ApartLower(offs: seq<nat>, lo: nat, low: nat, hi: nat)
    requires Apart(offs, lo, hi) && low <= lo
    ensures Apart(offs, low, hi)
  {
  }

  lemma {:induction false} OffsetsApart(m: seq<Byte>, offset: nat, n: nat)
    requires Records(m, offset, n).Some?
    ensures Apart(TtlOffsets(Records(m, offset, n).value), offset, |m|)
    decreases n
  {
    hide SkipName, U16, U32;
    if n > 0 {
      var head := RecordAt(m, SkipName(m, offset).value);
      var next := head.at + 10 + head.length;
      OffsetsApart(m, next, n - 1);
      var tail := Records(m, next, n - 1).value;
      assert ([head] + tail)[1..] == tail;
      assert ([head.at + 4] + TtlOffsets(tail))[1..] == TtlOffsets(tail) == [] + TtlOffsets(tail);
      ApartLower(TtlOffsets(tail), next, if head.rtype != OPT then head.at + 8 else offset, |m|);
    }
  }

  function AgedTtl(ttl: nat, elapsed: nat): (r: nat) {
    if elapsed >= ttl then 0 else ttl - elapsed
  }

  function PutU32(m: seq<Byte>, o: nat, v: nat): (r: seq<Byte>)
    requires o + 4 <= |m| && v < TWO_TO_THE_32
    ensures |r| == |m| && U32(r, o) == v
    ensures forall i :: 0 <= i < |m| && !(o <= i < o + 4) ==> r[i] == m[i]
  {
    var field := Be32(v);
    assert U32(m[..o] + field + m[o + 4..], o) == U32(field, 0);
    m[..o] + field + m[o + 4..]
  }

  /** A reply with every TTL at offs lowered by elapsed seconds, but not below zero. */
  function Aged(m: seq<Byte>, offs: seq<nat>, elapsed: nat): (r: seq<Byte>)
    ensures |r| == |m|
    decreases |offs|
  {
    if offs == [] then m
    else if offs[0] + 4 > |m| then m
    else Aged(PutU32(m, offs[0], AgedTtl(U32(m, offs[0]), elapsed)), offs[1..], elapsed)
  }

  /** The loop of get over its private copy of the reply. */
  method AgeInPlace(response: array<Byte>, ttlOffsets: seq<nat>, elapsed: nat)
    requires Apart(ttlOffsets, 0, response.Length)
    modifies response
    ensures response[..] == Aged(old(response[..]), ttlOffsets, elapsed)
  {
    hide U32, PutU32;
    ApartEach(ttlOffsets, 0, response.Length);
    ghost var before := response[..];
    assert ttlOffsets[0..] == ttlOffsets;
    for k := 0 to |ttlOffsets|
      invariant Aged(response[..], ttlOffsets[k..], elapsed) == Aged(before, ttlOffsets, elapsed)
    {
      var offset := ttlOffsets[k];
      var original := U32(response[..], offset);
      PutInPlace(response, offset, if elapsed >= original then 0 else original - elapsed);
      assert ttlOffsets[k..][0] == offset && ttlOffsets[k..][1..] == ttlOffsets[k + 1..];
    }
  }

  method PutInPlace(a: array<Byte>, o: nat, v: nat)
    requires o + 4 <= a.Length && v < TWO_TO_THE_32
    modifies a
    ensures a[..] == PutU32(old(a[..]), o, v)
  {
    var field := Be32(v);
    a[o], a[o + 1], a[o + 2], a[o + 3] := field[0], field[1], field[2], field[3];
  }

  lemma {:induction false} AgedFields(m: seq<Byte>, offs: seq<nat>, lo: nat, elapsed: nat)
    requires Apart(offs, lo, |m|)
    ensures var aged := Aged(m, offs, elapsed);
      && (forall i :: 0 <= i < |m| && !Covered(i, offs) ==> aged[i] == m[i])
      && (forall k :: 0 <= k < |offs| ==> offs[k] + 4 <= |m| && U32(aged, offs[k]) == AgedTtl(U32(m, offs[k]), elapsed))
    decreases |offs|
  {
    hide PutU32, U32;
    ApartEach(offs, lo, |m|);
    if offs != [] {
      var first, rest := offs[0], offs[1..];
      var put := PutU32(m, first, AgedTtl(U32(m, first), elapsed));
      var aged := Aged(m, offs, elapsed);
      AgedFields(put, rest, first + 4, elapsed);
      assert forall k :: 0 <= k < |rest| ==> rest[k] == offs[k + 1];
      forall i | 0 <= i < |m| && !Covered(i, offs) ensures aged[i] == m[i] {
        assert !(offs[0] <= i < offs[0] + 4);
        assert !Covered(i, rest);
      }
      assert forall i :: first <= i < first + 4 ==> !Covered(i, rest);
      U32Same(put, aged, first);
      forall k | 0 < k < |offs| ensures U32(aged, offs[k]) == AgedTtl(U32(m, offs[k]), elapsed) {
        assert offs[k] == rest[k - 1];
        U32Same(m, put, offs[k]);
      }
    }
  }

  function AgedRecords(rs: seq<Record>, elapsed: nat): (r: seq<Record>)
    ensures |r| == |rs|
    ensures forall i :: 0 <= i < |rs| ==>
      r[i] == (if rs[i].rtype != OPT then rs[i].(ttl := AgedTtl(rs[i].ttl, elapsed)) else rs[i])
  {
    seq(|rs|, i requires 0 <= i < |rs| =>
      if rs[i].rtype != OPT then rs[i].(ttl := AgedTtl(rs[i].ttl, elapsed)) else rs[i])
  }

  /** From offset on, c is m with the TTLs at offs aged and nothing else changed. */
  ghost predicate AgedFrom(m: seq<Byte>, c: seq<Byte>, offset: nat, offs: seq<nat>, elapsed: nat) {
    && |m| == |c|
    && (forall i :: offset <= i < |m| && !Covered(i, offs) ==> c[i] == m[i])
    && (forall k :: 0 <= k < |offs| ==> offs[k] + 4 <= |m| && U32(c, offs[k]) == AgedTtl(U32(m, offs[k]), elapsed))
  }

  lemma {:induction false} SkipNameSame(m: seq<Byte>, c: seq<Byte>, offset: nat)
    requires SkipName(m, offset).Some? && |m| == |c|
    requires forall i :: offset <= i < SkipName(m, offset).value ==> c[i] == m[i]
    ensures SkipName(c, offset) == SkipName(m, offset)
    decreases |m| - offset
  {
    if 0 < m[offset] < 64 { SkipNameSame(m, c, offset + 1 + m[offset]); }
  }

  lemma {:induction false} SkipQuestionsSame(m: seq<Byte>, c: seq<Byte>, offset: nat, n: nat)
    requires SkipQuestions(m, offset, n).Some? && |m| == |c|
    requires forall i :: offset <= i < SkipQuestions(m, offset, n).value && i < |m| ==> c[i] == m[i]
    ensures SkipQuestions(c, offset, n) == SkipQuestions(m, offset, n)
    decreases n
  {
    hide SkipName;
    if n > 0 {
      var next := SkipName(m, offset).value;
      SkipQuestionsSame(m, c, next + 4, n - 1);
      SkipNameSame(m, c, offset);
    }
  }

  lemma {:induction false} HeadSame(m: seq<Byte>, c: seq<Byte>, at: nat, elapsed: nat)
    requires at + 10 <= |m| == |c|
    requires forall i :: at <= i < at + 10 && !(at + 4 <= i < at + 8) ==> c[i] == m[i]
    ensures RecordAt(c, at).rtype == RecordAt(m, at).rtype && RecordAt(c, at).length == RecordAt(m, at).length
  {
  }

  lemma {:induction false} AgedFromSplit(m: seq<Byte>, c: seq<Byte>, offset: nat, next: nat,
                                         own: seq<nat>, rest: seq<nat>, elapsed: nat)
    requires AgedFrom(m, c, offset, own + rest, elapsed) && offset <= next
    requires forall k :: 0 <= k < |rest| ==> next <= rest[k]
    requires forall k :: 0 <= k < |own| ==> own[k] + 4 <= next
    ensures |m| == |c| && AgedFrom(m, c, next, rest, elapsed)
    ensures forall i :: offset <= i < next && i < |m| && !Covered(i, own) ==> c[i] == m[i]
    ensures forall k :: 0 <= k < |own| ==> own[k] + 4 <= |m| && U32(c, own[k]) == AgedTtl(U32(m, own[k]), elapsed)
  {
    hide U32;
    var offs := own + rest;
    forall i | offset <= i < |m| && !Covered(i, rest) && !Covered(i, own) ensures c[i] == m[i] {
      forall k | 0 <= k < |offs| ensures !(offs[k] <= i < offs[k] + 4) {
        if k >= |own| { assert offs[k] == rest[k - |own|]; } else { assert offs[k] == own[k]; }
      }
    }
    forall k | 0 <= k < |rest| ensures rest[k] == offs[|own| + k] {}
    forall k | 0 <= k < |own| ensures own[k] == offs[k] {}
  }

  lemma {:induction false} HeadAged(m: seq<Byte>, c: seq<Byte>, offset: nat, head: Record, elapsed: nat)
    requires SkipName(m, offset) == Some(head.at) && head.at + 10 <= |m| == |c| && head == RecordAt(m, head.at)
    requires forall i :: offset <= i < head.at + 10 && (head.rtype == OPT || !(head.at + 4 <= i < head.at + 8))
               ==> c[i] == m[i]
    requires head.rtype != OPT ==> U32(c, head.at + 4) == AgedTtl(U32(m, head.at + 4), elapsed)
    ensures SkipName(c, offset) == Some(head.at)
    ensures [RecordAt(c, head.at)] == AgedRecords([head], elapsed)
  {
    SkipNameSame(m, c, offset);
    HeadSame(m, c, head.at, elapsed);
    if head.rtype == OPT { U32Same(m, c, head.at + 4); }
  }

  lemma {:induction false} AgedRecordsCons(head: Record, tail: seq<Record>, elapsed: nat)
    ensures AgedRecords([head] + tail, elapsed) == AgedRecords([head], elapsed) + AgedRecords(tail, elapsed)
  {
  }

  /** The first record of an aged reply, given the TTL fields of the others. */
  lemma {:induction false} FirstAged(m: seq<Byte>, c: seq<Byte>, offset: nat, head: Record, rest: seq<nat>,
                                     elapsed: nat)
    requires SkipName(m, offset) == Some(head.at) && head.at + 10 + head.length <= |m| && head == RecordAt(m, head.at)
    requires Apart(rest, head.at + 10 + head.length, |m|)
    requires AgedFrom(m, c, offset, (if head.rtype != OPT then [head.at + 4] else []) + rest, elapsed)
    ensures |c| == |m| && SkipName(c, offset) == Some(head.at)
    ensures [RecordAt(c, head.at)] == AgedRecords([head], elapsed)
    ensures AgedFrom(m, c, head.at + 10 + head.length, rest, elapsed)
  {
    hide SkipName, U16, U32, AgedFrom, AgedRecords, Apart;
    var next := head.at + 10 + head.length;
    var own := if head.rtype != OPT then [head.at + 4] else [];
    ApartEach(rest, next, |m|);
    AgedFromSplit(m, c, offset, next, own, rest, elapsed);
    assert head.rtype != OPT ==> own[0] == head.at + 4;
    forall i | offset <= i < head.at + 10 && (head.rtype == OPT || !(head.at + 4 <= i < head.at + 8))
      ensures c[i] == m[i]
    {
      assert !Covered(i, own);
    }
    HeadAged(m, c, offset, head, elapsed);
  }

  /** The records of an aged reply are found where they were, with aged TTLs. */
  lemma {:induction false} RecordsAged(m: seq<Byte>, c: seq<Byte>, offset: nat, n: nat, elapsed: nat)
    requires Records(m, offset, n).Some?
    requires AgedFrom(m, c, offset, TtlOffsets(Records(m, offset, n).value), elapsed)
    ensures Records(c, offset, n) == Some(AgedRecords(Records(m, offset, n).value, elapsed))
    decreases n
  {
    hide SkipName, U16, U32, AgedFrom, AgedRecords, Apart;
    if n > 0 {
      var head := RecordAt(m, SkipName(m, offset).value);
      var next := head.at + 10 + head.length;
      var tail := Records(m, next, n - 1).value;
      assert ([head] + tail)[1..] == tail;
      OffsetsApart(m, next, n - 1);
      FirstAged(m, c, offset, head, TtlOffsets(tail), elapsed);
      hide TtlOffsets;
      RecordsAged(m, c, next, n - 1, elapsed);
      AgedRecordsCons(head, tail, elapsed);
    }
  }

  lemma {:induction false} AgedOffsets(rs: seq<Record>, elapsed: nat)
    ensures TtlOffsets(AgedRecords(rs, elapsed)) == TtlOffsets(rs)
  {
    if rs != [] {
      AgedOffsets(rs[1..], elapsed);
      assert AgedRecords(rs, elapsed)[1..] == AgedRecords(rs[1..], elapsed);
    }
  }

  // ---------------------------------------------------------------- a hit

  /** What get answers to a query: the stored reply under the query's ID, with aged TTLs. */
  function Hit(m: seq<Byte>, query: seq<Byte>, offs: seq<nat>, elapsed: nat): (r: seq<Byte>)
    requires |m| >= 2 && |query| >= 2
    ensures |r| == |m|
  {
    Aged(query[..2] + m[2..], offs, elapsed)
  }

  lemma {:induction false} QuestionsEnd(m: seq<Byte>)
    requires |m| >= 12 && SkipQuestions(m, 12, U16(m, 4)).Some?
    ensures SkipQuestions(m, 12, U16(m, 4)).value >= 12
  {
  }

  /** A hit changes the ID and pairwise disjoint TTL fields after the header, nothing else. */
  lemma {:induction false} HitChangesOnlyTtls(m: seq<Byte>, query: seq<Byte>, elapsed: nat)
    requires ResponseTtls(m).Some? && |query| >= 2
    ensures var offs := ResponseTtls(m).value.offsets;
      var r := Hit(m, query, offs, elapsed);
      && Apart(offs, 12, |m|)
      && r[0] == query[0] && r[1] == query[1]
      && (forall i :: 2 <= i < |m| && !Covered(i, offs) ==> r[i] == m[i])
      && (forall k :: 0 <= k < |offs| ==> offs[k] + 4 <= |m| && U32(r, offs[k]) == AgedTtl(U32(m, offs[k]), elapsed))
  {
    hide Lifetime, SkipQuestions, Records, TtlOffsets, Aged, U16, U32;
    var start := SkipQuestions(m, 12, U16(m, 4)).value;
    var offs := ResponseTtls(m).value.offsets;
    QuestionsEnd(m);
    OffsetsApart(m, start, U16(m, 6) + U16(m, 8) + U16(m, 10));
    ApartLower(offs, start, 12, |m|);
    ApartEach(offs, 12, |m|);
    var own := query[..2] + m[2..];
    AgedFields(own, offs, 12, elapsed);
    assert !Covered(0, offs) && !Covered(1, offs);
    forall k | 0 <= k < |offs| ensures U32(own, offs[k]) == U32(m, offs[k]) {
      U32Same(m, own, offs[k]);
    }
  }

  ghost predicate TtlFieldOf(o: nat, rs: seq<Record>) {
    exists j :: 0 <= j < |rs| && o == rs[j].at + 4
  }

  lemma {:induction false} OffsetsAreRecords(rs: seq<Record>)
    ensures forall k :: 0 <= k < |TtlOffsets(rs)| ==> TtlFieldOf(TtlOffsets(rs)[k], rs)
  {
    if rs != [] {
      OffsetsAreRecords(rs[1..]);
      forall o: nat | TtlFieldOf(o, rs[1..]) ensures TtlFieldOf(o, rs) {
        var j :| 0 <= j < |rs[1..]| && o == rs[1..][j].at + 4;
        assert rs[j + 1] == rs[1..][j];
      }
      assert TtlFieldOf(rs[0].at + 4, rs);
    }
  }

  /** No TTL window reaches into the data of a record, so a SOA's MINIMUM is never aged. */
  lemma {:induction false} DataIsNotAged(m: seq<Byte>, offset: nat, n: nat, j: nat, i: int)
    requires Records(m, offset, n).Some? && j < n
    requires var r := Records(m, offset, n).value[j]; r.at + 10 <= i < r.at + 10 + r.length
    ensures !Covered(i, TtlOffsets(Records(m, offset, n).value))
  {
    hide Records, TtlOffsets;
    var rs := Records(m, offset, n).value;
    OffsetsAreRecords(rs);
    RecordsInside(m, offset, n);
    forall k | 0 <= k < |TtlOffsets(rs)| ensures !(TtlOffsets(rs)[k] <= i < TtlOffsets(rs)[k] + 4) {
      assert TtlFieldOf(TtlOffsets(rs)[k], rs);
    }
  }

  lemma {:induction false} LastFieldKept(m: seq<Byte>, c: seq<Byte>, offset: nat, n: nat, j: nat, elapsed: nat)
    requires Records(m, offset, n).Some? && j < n
    requires AgedFrom(m, c, offset, TtlOffsets(Records(m, offset, n).value), elapsed)
    ensures LastField(c, Records(m, offset, n).value[j]) == LastField(m, Records(m, offset, n).value[j])
  {
    hide Records, TtlOffsets, U32, Covered;
    RecordsInside(m, offset, n);
    var r := Records(m, offset, n).value[j];
    if 4 <= r.length {
      var o := r.at + 10 + r.length - 4;
      forall i | o <= i < o + 4 ensures c[i] == m[i] { DataIsNotAged(m, offset, n, j, i); }
      U32Same(m, c, o);
    }
  }

  /** What one record says about the lifetime of the aged reply, and of the stored one. */
  lemma {:induction false} BoundAged(m: seq<Byte>, c: seq<Byte>, r: Record, i: nat, an: nat, ns: nat, elapsed: nat)
    requires LastField(c, r) == LastField(m, r) && r.ttl < TWO_TO_THE_32
    ensures var b, aged := Bound(m, r, i, an, ns), Bound(c, AgedRecords([r], elapsed)[0], i, an, ns);
      && aged <= b
      && b <= aged + elapsed
      && (an > 0 && elapsed <= b < NO_TTL ==> aged == b - elapsed)
  {
    assert LastField(c, AgedRecords([r], elapsed)[0]) == LastField(c, r);
  }

  lemma {:induction false} LifetimeAged(m: seq<Byte>, c: seq<Byte>, rs: seq<Record>, an: nat, ns: nat, elapsed: nat)
    requires forall j :: 0 <= j < |rs| ==> LastField(c, rs[j]) == LastField(m, rs[j]) && rs[j].ttl < TWO_TO_THE_32
    ensures var l, aged := Lifetime(m, rs, an, ns), Lifetime(c, AgedRecords(rs, elapsed), an, ns);
      && aged <= l
      && l <= aged + elapsed
      && (an > 0 && elapsed <= l < NO_TTL ==> aged == l - elapsed)
  {
    hide Bound, LastField, AgedRecords;
    if rs != [] {
      var front, last := rs[..|rs| - 1], rs[|rs| - 1];
      LifetimeAged(m, c, front, an, ns, elapsed);
      BoundAged(m, c, last, |front|, an, ns, elapsed);
      assert rs == front + [last];
      assert AgedRecords(rs, elapsed) == AgedRecords(front, elapsed) + AgedRecords([last], elapsed);
      LifetimeAppend(m, front, last, an, ns);
      LifetimeAppend(c, AgedRecords(front, elapsed), AgedRecords([last], elapsed)[0], an, ns);
    }
  }

  lemma {:induction false} HitIsAged(m: seq<Byte>, query: seq<Byte>, elapsed: nat)
    requires ResponseTtls(m).Some? && |query| >= 2
    ensures AgedFrom(m, Hit(m, query, ResponseTtls(m).value.offsets, elapsed), 2,
                     ResponseTtls(m).value.offsets, elapsed)
  {
    hide ResponseTtls, Hit;
    HitChangesOnlyTtls(m, query, elapsed);
  }

  lemma {:induction false} HeaderKept(m: seq<Byte>, c: seq<Byte>, offs: seq<nat>, elapsed: nat)
    requires |m| >= 12 && AgedFrom(m, c, 2, offs, elapsed) && Apart(offs, 12, |m|)
    ensures Cacheable(c) == Cacheable(m) && U16(c, 4) == U16(m, 4)
    ensures U16(c, 6) == U16(m, 6) && U16(c, 8) == U16(m, 8) && U16(c, 10) == U16(m, 10)
  {
    ApartEach(offs, 12, |m|);
    forall i | 2 <= i < 12 ensures c[i] == m[i] { assert !Covered(i, offs); }
  }

  lemma {:induction false} ReplyRecordsAged(m: seq<Byte>, c: seq<Byte>, elapsed: nat)
    requires ResponseTtls(m).Some?
    requires AgedFrom(m, c, 2, ResponseTtls(m).value.offsets, elapsed)
    ensures Cacheable(c) && U16(c, 6) == U16(m, 6) && U16(c, 8) == U16(m, 8)
    ensures ReplyRecords(c) == Some(AgedRecords(ReplyRecords(m).value, elapsed))
    ensures forall j :: 0 <= j < |ReplyRecords(m).value| ==>
      var r := ReplyRecords(m).value[j]; LastField(c, r) == LastField(m, r) && r.ttl < TWO_TO_THE_32
  {
    hide Lifetime, SkipQuestions, Records, TtlOffsets, U16, U32, LastField, Cacheable;
    var start, n := SkipQuestions(m, 12, U16(m, 4)).value, U16(m, 6) + U16(m, 8) + U16(m, 10);
    var offs := ResponseTtls(m).value.offsets;
    QuestionsEnd(m);
    OffsetsApart(m, start, n);
    ApartEach(offs, start, |m|);
    ApartLower(offs, start, 12, |m|);
    HeaderKept(m, c, offs, elapsed);
    forall i | 12 <= i < start && i < |m| ensures c[i] == m[i] { assert !Covered(i, offs); }
    SkipQuestionsSame(m, c, 12, U16(m, 4));
    RecordsAged(m, c, start, n, elapsed);
    forall j | 0 <= j < n
      ensures var r := ReplyRecords(m).value[j]; LastField(c, r) == LastField(m, r) && r.ttl < TWO_TO_THE_32
    {
      LastFieldKept(m, c, start, n, j, elapsed);
      RecordsInside(m, start, n);
    }
  }

  /** The aged reply parses again with the same TTL fields. If the stored one had answers, its
      lifetime is exactly the stored lifetime less the elapsed time, so it is at least one second
      until the entry expires; without answers it lies between that and the stored lifetime. */
  lemma {:induction false} HitParsesAgain(m: seq<Byte>, query: seq<Byte>, elapsed: nat)
    requires ResponseTtls(m).Some? && |query| >= 2
    ensures var t := ResponseTtls(m).value;
      var again := ResponseTtls(Hit(m, query, t.offsets, elapsed));
      && again.Some? && again.value.offsets == t.offsets
      && again.value.min <= t.min <= again.value.min + elapsed
      && (U16(m, 6) > 0 && elapsed < t.min ==> again.value.min == t.min - elapsed >= 1)
  {
    hide Lifetime, ReplyRecords, TtlOffsets, U16, Cacheable, Aged, AgedRecords, LastField;
    var t := ResponseTtls(m).value;
    var c := Hit(m, query, t.offsets, elapsed);
    var rs := ReplyRecords(m).value;
    HitIsAged(m, query, elapsed);
    ReplyRecordsAged(m, c, elapsed);
    AgedOffsets(rs, elapsed);
    LifetimeAged(m, c, rs, U16(m, 6), U16(m, 8), elapsed);
    LifetimeIsLeast(m, rs, U16(m, 6), U16(m, 8));
  }
}
