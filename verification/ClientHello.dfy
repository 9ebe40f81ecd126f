/** The SNI edge's reading of a TLS ClientHello: parseSNI on a buffer, and readHello on a connection
    that delivers the octets in arbitrary reads. */
module ClientHello {
  import opened Bytes
  import opened Wrappers
  import opened Names

  const HANDSHAKE: Byte := 0x16
  const READ_HELLO_MAX := 8192

  // ---------------------------------------------------------------- parseSNI

  /** The server name as parseSNI returns it: lower case, without one trailing dot. */
  function HostName(name: Name): Name { TrimDot(Lower(name)) }

  /** s is the name with its last dot removed, if it ends in one, and A to Z turned into a to z. */
  predicate ReadsAs(s: Name, name: Name) {
    && |s| == (if name != [] && name[|name| - 1] == 46 then |name| - 1 else |name|)
    && forall i :: 0 <= i < |s| ==> s[i] == if 65 <= name[i] <= 90 then name[i] + 32 else name[i]
  }

  /** In lower case already, and without a dot at its end. */
  predicate IsPlain(name: Name) {
    (name == [] || name[|name| - 1] != 46) && forall i :: 0 <= i < |name| ==> !(65 <= name[i] <= 90)
  }

  lemma {:induction false} HostNameIff(name: Name, s: Name)
    ensures s == HostName(name) <==> ReadsAs(s, name)
    ensures IsPlain(name) ==> HostName(name) == name
  {
    var h := HostName(name);
    assert name != [] ==> (Lower(name)[|name| - 1] == 46 <==> name[|name| - 1] == 46);
    assert ReadsAs(h, name);
    if ReadsAs(s, name) { assert s == h; }
    if IsPlain(name) { assert h == name; }
  }

  /** Past a vector whose length field has one octet. */
  function SkipVector8(b: seq<Byte>, pos: nat, end: nat): (r: Option<nat>)
    requires end <= |b|
    ensures r.Some? ==> pos < r.value <= end
  {
    if pos + 1 > end then None
    else if pos + 1 + b[pos] > end then None else Some(pos + 1 + b[pos])
  }

  function SkipVector16(b: seq<Byte>, pos: nat, end: nat): (r: Option<nat>)
    requires end <= |b|
    ensures r.Some? ==> pos < r.value <= end
  {
    if pos + 2 > end then None
    else if pos + 2 + U16(b, pos) > end then None else Some(pos + 2 + U16(b, pos))
  }

  /** The name in the server_name extension that spans [pos, end). */
  function ServerName(b: seq<Byte>, pos: nat, end: nat): Name
    requires pos <= end <= |b|
  {
    if pos + 5 > end || b[pos + 2] != 0 then []
    else if pos + 5 + U16(b, pos + 3) > end then []
    else HostName(b[pos + 5..pos + 5 + U16(b, pos + 3)])
  }

  function ScanExtensions(b: seq<Byte>, pos: nat, end: nat): Name
    requires end <= |b|
    decreases end - pos
  {
    if pos + 4 > end then []
    else
      var next := pos + 4 + U16(b, pos + 2);
      if next > end then []
      else if U16(b, pos) == 0 then ServerName(b, pos + 4, next)
      else ScanExtensions(b, next, end)
  }

  /** The handshake body [pos, end): past version, random, session, ciphers and compression. */
  function ExtensionsStart(b: seq<Byte>, pos: nat, end: nat): (r: Option<nat>)
    requires end <= |b|
    ensures r.Some? ==> pos <= r.value <= end
  {
    if pos + 34 > end then None else
    var session := SkipVector8(b, pos + 34, end);
    if session.None? then None else
    var ciphers := SkipVector16(b, session.value, end);
    if ciphers.None? then None else SkipVector8(b, ciphers.value, end)
  }

  function ParseBody(b: seq<Byte>, pos: nat, end: nat): Name
    requires end <= |b|
  {
    var start := ExtensionsStart(b, pos, end);
    if start.None? || start.value + 2 > end then []
    else
      var p := start.value + 2;
      var claimed := p + U16(b, start.value);
      ScanExtensions(b, p, if claimed > end then end else claimed)
  }

  function RecordEnd(b: seq<Byte>): nat
    requires |b| >= 5
  {
    5 + U16(b, 3)
  }

  function Be24At(b: seq<Byte>, o: nat): nat
    requires o + 3 <= |b|
  {
    65536 * b[o] as int + U16(b, o + 1)
  }

  function Sni(b: seq<Byte>): Name {
    if |b| < 5 || b[0] != HANDSHAKE then []
    else if RecordEnd(b) < 9 || |b| < RecordEnd(b) then []
    else if b[5] != 1 then []
    else if 9 + Be24At(b, 6) > RecordEnd(b) then []
    else ParseBody(b, 9, 9 + Be24At(b, 6))
  }

  method ParseSNI(b: seq<Byte>) returns (sni: Name)
    ensures sni == Sni(b)
  {
    hide U16, Be24At, HostName;
    if |b| < 5 || b[0] != HANDSHAKE { return []; }
    var recLen := U16(b, 3);
    var recordEnd := 5 + recLen;
    if recLen < 4 || |b| < recordEnd { return []; }
    var pos: nat := 5;
    if b[pos] != 1 { return []; }
    var hsLen := Be24At(b, pos + 1);
    var end: nat := pos + 4 + hsLen;
    if end > recordEnd || end > |b| { return []; }
    pos := pos + 4;
    if pos + 34 > end { return []; }
    pos := pos + 34;
    if pos + 1 > end { return []; }
    var sidLen: nat := b[pos];
    pos := pos + 1;
    if pos + sidLen > end { return []; }
    pos := pos + sidLen;
    if pos + 2 > end { return []; }
    var csLen := U16(b, pos);
    pos := pos + 2;
    if pos + csLen > end { return []; }
    pos := pos + csLen;
    if pos + 1 > end { return []; }
    var compLen: nat := b[pos];
    pos := pos + 1;
    if pos + compLen > end { return []; }
    pos := pos + compLen;
    if pos + 2 > end { return []; }
    var extLen := U16(b, pos);
    pos := pos + 2;
    var extEnd := pos + extLen;
    if extEnd > end { extEnd := end; }
    sni := FindServerName(b, pos, extEnd);
  }

  /** The loop of parseSNI over the extensions. */
  method FindServerName(b: seq<Byte>, start: nat, extEnd: nat) returns (sni: Name)
    requires extEnd <= |b|
    ensures sni == ScanExtensions(b, start, extEnd)
  {
    hide U16, HostName;
    var pos := start;
    while pos + 4 <= extEnd
      invariant ScanExtensions(b, start, extEnd) == ScanExtensions(b, pos, extEnd)
      decreases extEnd - pos
    {
      var etype, elen := U16(b, pos), U16(b, pos + 2);
      pos := pos + 4;
      var eend := pos + elen;
      if eend > extEnd { return []; }
      if etype == 0 {
        var q := pos + 2;
        if q + 3 > eend || b[q] != 0 { return []; }
        q := q + 1;
        var nameLen := U16(b, q);
        q := q + 2;
        if q + nameLen > eend { return []; }
        return HostName(b[q..q + nameLen]);
      }
      pos := eend;
    }
    return [];
  }

  // ---------------------------------------------------------------- only the first record matters

  lemma {:induction false} ExtensionsSame(b: seq<Byte>, c: seq<Byte>, pos: nat, end: nat)
    requires Agree(b, c, end)
    ensures ScanExtensions(b, pos, end) == ScanExtensions(c, pos, end)
    decreases end - pos
  {
    hide U16, ServerName;
    if pos + 4 <= end {
      U16Same(b, c, pos);
      U16Same(b, c, pos + 2);
      var next := pos + 4 + U16(b, pos + 2);
      if next <= end {
        if U16(b, pos) == 0 { ServerNameSame(b, c, pos + 4, next); } else { ExtensionsSame(b, c, next, end); }
      }
    }
  }

  lemma {:induction false} ServerNameSame(b: seq<Byte>, c: seq<Byte>, pos: nat, end: nat)
    requires pos <= end && Agree(b, c, end)
    ensures ServerName(b, pos, end) == ServerName(c, pos, end)
  {
    hide HostName;
    if pos + 5 <= end && pos + 5 + U16(b, pos + 3) <= end {
      assert b[pos + 5..pos + 5 + U16(b, pos + 3)] == c[pos + 5..pos + 5 + U16(b, pos + 3)];
    }
  }

  lemma {:induction false} StartSame(b: seq<Byte>, c: seq<Byte>, pos: nat, end: nat)
    requires Agree(b, c, end)
    ensures ExtensionsStart(b, pos, end) == ExtensionsStart(c, pos, end)
  {
    hide U16;
    if pos + 35 <= end {
      var ciphers := pos + 35 + b[pos + 34];
      if ciphers + 2 <= end { U16Same(b, c, ciphers); }
    }
  }

  lemma {:induction false} BodySame(b: seq<Byte>, c: seq<Byte>, pos: nat, end: nat)
    requires Agree(b, c, end)
    ensures ParseBody(b, pos, end) == ParseBody(c, pos, end)
  {
    hide U16, ExtensionsStart, ScanExtensions;
    StartSame(b, c, pos, end);
    var start := ExtensionsStart(b, pos, end);
    if start.Some? && start.value + 2 <= end {
      U16Same(b, c, start.value);
      var claimed := start.value + 2 + U16(b, start.value);
      ExtensionsSame(b, c, start.value + 2, if claimed > end then end else claimed);
    }
  }

  /** What parseSNI finds depends on the first record alone: octets after it change nothing, and
      without its last octet nothing is found. */
  lemma {:induction false} FirstRecordDecides(r: seq<Byte>, b: seq<Byte>)
    requires |r| >= 5 && |r| == RecordEnd(r)
    ensures r <= b ==> Sni(b) == Sni(r)
    ensures b <= r && b != r ==> Sni(b) == []
  {
    hide ParseBody;
    if r <= b {
      if |r| >= 9 && 9 + Be24At(r, 6) <= |r| { BodySame(r, b, 9, 9 + Be24At(r, 6)); }
    }
  }

  // ---------------------------------------------------------------- readHello

  datatype HelloRead = Hello(buf: seq<Byte>, sni: Name) | ReadFailed

  /** The reads deliver the chunks in order and then fail. */
  function ReadAll(buf: seq<Byte>, chunks: seq<seq<Byte>>): HelloRead
    decreases |chunks|
  {
    if |buf| >= READ_HELLO_MAX then Hello(buf, Sni(buf))
    else if chunks == [] then (if buf == [] then ReadFailed else Hello(buf, Sni(buf)))
    else
      var more := buf + chunks[0];
      if Sni(more) != [] then Hello(more, Sni(more))
      else if |more| >= 5 && |more| >= RecordEnd(more) then Hello(more, Sni(more))
      else ReadAll(more, chunks[1..])
  }

  method ReadHello(chunks: seq<seq<Byte>>) returns (r: HelloRead)
    ensures r == ReadAll([], chunks)
  {
    hide Sni;
    var buf: seq<Byte> := [];
    var i: nat := 0;
    assert chunks[0..] == chunks;
    while |buf| < READ_HELLO_MAX
      invariant i <= |chunks| && ReadAll([], chunks) == ReadAll(buf, chunks[i..])
      decreases |chunks| - i
    {
      if i == |chunks| {
        if |buf| == 0 { return ReadFailed; }
        break;
      }
      assert chunks[i..][0] == chunks[i] && chunks[i..][1..] == chunks[i + 1..];
      buf := buf + chunks[i];
      i := i + 1;
      var sni := ParseSNI(buf);
      if sni != [] { return Hello(buf, sni); }
      if |buf| >= 5 {
        var rLen := U16(buf, 3);
        if |buf| >= 5 + rLen { return Hello(buf, sni); }
      }
    }
    var sni := ParseSNI(buf);
    return Hello(buf, sni);
  }

  /** How many octets of a record r the edge waits for. */
  function Enough(r: seq<Byte>): nat { if |r| < READ_HELLO_MAX then |r| else READ_HELLO_MAX }

  /** The k-th read is the first to give the edge enough octets. It stops there, with the name in r
      if r is complete by then and without a name otherwise. */
  ghost predicate StopsAt(r: seq<Byte>, buf: seq<Byte>, chunks: seq<seq<Byte>>, k: int) {
    && 1 <= k <= |chunks|
    && |buf + Flatten(chunks[..k - 1])| < Enough(r) <= |buf + Flatten(chunks[..k])|
    && ReadAll(buf, chunks) ==
         Hello(buf + Flatten(chunks[..k]), if |buf + Flatten(chunks[..k])| >= |r| then Sni(r) else [])
  }

  lemma {:induction false} ReadOn(r: seq<Byte>, buf: seq<Byte>, chunks: seq<seq<Byte>>)
    requires |r| >= 5 && |r| == RecordEnd(r)
    requires |buf| < Enough(r) && r <= buf + Flatten(chunks)
    ensures exists k :: StopsAt(r, buf, chunks, k)
    decreases |chunks|
  {
    hide Sni;
    NoChunks(buf, chunks);
    var more, rest := buf + chunks[0], chunks[1..];
    assert buf + (chunks[0] + Flatten(rest)) == more + Flatten(rest);
    FlattenOne(chunks);
    FirstRecordDecides(r, more);
    if |more| >= |r| {
      assert r <= more && RecordEnd(more) == RecordEnd(r);
      assert StopsAt(r, buf, chunks, 1);
    } else {
      assert more <= r;
      if |more| >= 5 { assert RecordEnd(more) == RecordEnd(r); }
      assert ReadAll(buf, chunks) == ReadAll(more, rest);
      if |more| >= READ_HELLO_MAX {
        assert StopsAt(r, buf, chunks, 1);
      } else {
        ReadOn(r, more, rest);
        var k :| StopsAt(r, more, rest, k);
        StopsLater(r, buf, chunks, k);
      }
    }
  }

  lemma {:induction false} StopsLater(r: seq<Byte>, buf: seq<Byte>, chunks: seq<seq<Byte>>, k: int)
    requires chunks != [] && StopsAt(r, buf + chunks[0], chunks[1..], k)
    requires ReadAll(buf, chunks) == ReadAll(buf + chunks[0], chunks[1..])
    ensures StopsAt(r, buf, chunks, k + 1)
  {
    hide Sni, ReadAll;
    var more, rest := buf + chunks[0], chunks[1..];
    FlattenFirst(chunks, k);
    FlattenFirst(chunks, k - 1);
    assert more + Flatten(rest[..k]) == buf + Flatten(chunks[..k + 1]);
    assert more + Flatten(rest[..k - 1]) == buf + Flatten(chunks[..k]);
  }

  lemma {:induction false} NoChunks(buf: seq<Byte>, chunks: seq<seq<Byte>>)
    ensures chunks == [] ==> buf + Flatten(chunks) == buf
  {
    assert buf + [] == buf;
  }

  lemma {:induction false} FlattenOne(chunks: seq<seq<Byte>>)
    requires chunks != []
    ensures Flatten(chunks[..0]) == [] && Flatten(chunks[..1]) == chunks[0]
  {
    assert chunks[..1][1..] == [] && chunks[0] + [] == chunks[0];
  }

  lemma {:induction false} FlattenFirst(chunks: seq<seq<Byte>>, k: nat)
    requires k + 1 <= |chunks|
    ensures Flatten(chunks[..k + 1]) == chunks[0] + Flatten(chunks[1..][..k])
  {
    assert chunks[..k + 1][1..] == chunks[1..][..k];
  }

  /** However a first record is cut into reads, and whatever follows it, the edge returns exactly the
      octets of the reads up to the first that gives it enough, with the name parseSNI finds in the
      record if that read completes the record: always, when the record has at most 8192 octets. */
  lemma {:induction false} AnyChunking(r: seq<Byte>, chunks: seq<seq<Byte>>)
    requires |r| >= 5 && |r| == RecordEnd(r) && r <= Flatten(chunks)
    ensures exists k :: StopsAt(r, [], chunks, k)
  {
    hide StopsAt;
    assert [] + Flatten(chunks) == Flatten(chunks);
    ReadOn(r, [], chunks);
  }

  /** A connection that ends before its first record does, or before 8192 octets, gives all its octets and no name; one
      that ends before its first octet fails. */
  lemma {:induction false} EndOfInput(buf: seq<Byte>, chunks: seq<seq<Byte>>)
    requires var all := buf + Flatten(chunks); |all| < 8192 && (|all| < 5 || |all| < 5 + U16(all, 3))
    ensures ReadAll(buf, chunks) ==
      if buf + Flatten(chunks) == [] then ReadFailed else Hello(buf + Flatten(chunks), [])
    decreases |chunks|
  {
    var all := buf + Flatten(chunks);
    if chunks == [] {
      assert all == buf;
    } else {
      var more := buf + chunks[0];
      assert more + Flatten(chunks[1..]) == all;
      ShortStart(all, more);
      EndOfInput(more, chunks[1..]);
    }
  }

  lemma {:induction false} ShortStart(all: seq<Byte>, b: seq<Byte>)
    requires b <= all && (|all| < 5 || |all| < 5 + U16(all, 3))
    ensures Sni(b) == [] && (|b| < 5 || |b| < RecordEnd(b))
  {
    hide ParseBody;
  }
}
