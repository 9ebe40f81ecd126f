/** Every first record in which parseSNI finds a name, written out: what it checks, and what it ignores. */
module HelloInverse {
  import opened Bytes
  import opened Wrappers
  import opened Names
  import opened ClientHello
  import opened HelloEncoder

  /** A record whose message holds a name. The versions, the fields, the claimed length of the extension block, the
      length of the name list, what follows the name in its extension, that extension in the message, and
      the message in its record are free. */
  datatype NamedHello = NamedHello(version: seq<Byte>, fixed: seq<Byte>, session: seq<Byte>, ciphers: seq<Byte>,
                                   compression: seq<Byte>, claimed: nat, before: seq<Extension>,
                                   listLength: seq<Byte>, name: Name, others: seq<Byte>, after: seq<Byte>,
                                   spare: seq<Byte>)

  ghost predicate PartsFit(h: NamedHello) {
    && |h.version| == 2 && |h.fixed| == 34 && |h.session| < 256 && |h.ciphers| < 65536 && |h.compression| < 256
    && ListFits(h)
  }

  ghost predicate ListFits(h: NamedHello) {
    && ExtensionsFit(h.before) && (forall i :: 0 <= i < |h.before| ==> h.before[i].etype != 0)
    && |h.listLength| == 2 && 5 + |h.name| + |h.others| < 65536
  }

  /** The data of the server_name extension: its first entry is a host name. */
  function NameData(h: NamedHello): seq<Byte>
    requires |h.name| < 65536
  {
    h.listLength + ([0] + (Vec16(h.name) + h.others))
  }

  /** The extensions up to the first server_name extension. */
  ghost function UpToName(h: NamedHello): seq<Byte>
    requires ListFits(h)
  {
    EncodeExtensions(h.before) + ([0, 0] + Vec16(NameData(h)))
  }

  ghost function HelloBody(h: NamedHello): seq<Byte>
    requires PartsFit(h) && h.claimed < 65536
  {
    h.fixed + (Vec8(h.session) + (Vec16(h.ciphers) + (Vec8(h.compression)
      + (Be16(h.claimed) + (UpToName(h) + h.after)))))
  }

  ghost predicate HelloFits(h: NamedHello) {
    PartsFit(h) && |UpToName(h)| <= h.claimed < 65536 && 4 + |HelloBody(h)| + |h.spare| < 65536
  }

  ghost function HelloRecord(h: NamedHello): seq<Byte>
    requires HelloFits(h)
  {
    var body := HelloBody(h);
    [0x16] + (h.version + (Be16(4 + |body| + |h.spare|) + ([1, 0] + (Be16(|body|) + (body + h.spare)))))
  }

  // ---------------------------------------------------------------- each of them is read

  lemma {:induction false} NameDataAt(b: seq<Byte>, o: nat, h: NamedHello)
    requires ListFits(h) && At(b, o, NameData(h))
    ensures |NameData(h)| == 5 + |h.name| + |h.others| && ServerName(b, o, o + |NameData(h)|) == HostName(h.name)
  {
    hide Be16, U16, HostName;
    AtSplit(b, o, h.listLength, [0] + (Vec16(h.name) + h.others));
    AtSplit(b, o + 2, [0], Vec16(h.name) + h.others);
    AtSplit(b, o + 3, Vec16(h.name), h.others);
    Vec16At(b, o + 3, h.name);
    assert b[o + 2] == b[o + 2..o + 3][0];
  }

  lemma {:induction false} UpToNameRead(b: seq<Byte>, o: nat, end: nat, h: NamedHello)
    requires ListFits(h) && At(b, o, UpToName(h)) && o + |UpToName(h)| <= end <= |b|
    ensures ScanExtensions(b, o, end) == HostName(h.name)
  {
    hide EncodeExtensions, U16, HostName, ServerName, NameData;
    var p := o + |EncodeExtensions(h.before)|;
    AtSplit(b, o, EncodeExtensions(h.before), [0, 0] + Vec16(NameData(h)));
    WalkPasses(b, o, h.before, end);
    AtSplit(b, p, [0, 0], Vec16(NameData(h)));
    NameDataLength(h);
    Vec16At(b, p + 2, NameData(h));
    TypeZero(b, p);
    NameDataAt(b, p + 4, h);
  }

  lemma {:induction false} NameDataLength(h: NamedHello)
    requires ListFits(h)
    ensures |NameData(h)| == 5 + |h.name| + |h.others| < 65536
  {
  }

  lemma {:induction false} TypeZero(b: seq<Byte>, o: nat)
    requires At(b, o, [0, 0])
    ensures U16(b, o) == 0
  {
    assert b[o] == b[o..o + 2][0] && b[o + 1] == b[o..o + 2][1];
  }

  /** Where the extensions start, counted from the first octet of the body. */
  function Ahead(h: NamedHello): nat { 40 + |h.session| + |h.ciphers| + |h.compression| }

  ghost predicate LengthsAt(b: seq<Byte>, o: nat, h: NamedHello) {
    && o + Ahead(h) <= |b|
    && b[o + 34] == |h.session| && U16(b, o + 35 + |h.session|) == |h.ciphers|
    && b[o + 37 + |h.session| + |h.ciphers|] == |h.compression| && U16(b, o + Ahead(h) - 2) == h.claimed
  }

  lemma {:induction false} BodyRead(b: seq<Byte>, o: nat, h: NamedHello)
    requires PartsFit(h) && h.claimed < 65536 && At(b, o, HelloBody(h))
    ensures |HelloBody(h)| == Ahead(h) + |UpToName(h)| + |h.after| && LengthsAt(b, o, h)
    ensures At(b, o + Ahead(h), UpToName(h))
  {
    hide Be16, U16, Vec8, Vec16, UpToName, At, ListFits;
    var s, c, five := |h.session|, |h.ciphers|, Be16(h.claimed) + (UpToName(h) + h.after);
    VecLengths(h);
    SplitFour(b, o, h.fixed, Vec8(h.session), Vec16(h.ciphers), Vec8(h.compression), five);
    AtSplit(b, o + Ahead(h) - 2, Be16(h.claimed), UpToName(h) + h.after);
    AtSplit(b, o + Ahead(h), UpToName(h), h.after);
    Vec8At(b, o + 34, h.session);
    Vec16At(b, o + 35 + s, h.ciphers);
    Vec8At(b, o + 37 + s + c, h.compression);
    U16At(b, o + Ahead(h) - 2, h.claimed);
    AtInside(b, o + Ahead(h), UpToName(h));
  }

  lemma {:induction false} SplitFour(b: seq<Byte>, o: nat, v: seq<Byte>, w: seq<Byte>, x: seq<Byte>, y: seq<Byte>,
                                     z: seq<Byte>)
    requires At(b, o, v + (w + (x + (y + z))))
    ensures At(b, o, v) && At(b, o + |v|, w) && At(b, o + |v| + |w|, x) && At(b, o + |v| + |w| + |x|, y)
    ensures At(b, o + |v| + |w| + |x| + |y|, z)
  {
    hide At;
    AtSplit(b, o, v, w + (x + (y + z)));
    AtSplit(b, o + |v|, w, x + (y + z));
    AtSplit(b, o + |v| + |w|, x, y + z);
    AtSplit(b, o + |v| + |w| + |x|, y, z);
  }

  lemma {:induction false} VecLengths(h: NamedHello)
    requires |h.session| < 256 && |h.ciphers| < 65536 && |h.compression| < 256
    ensures |Vec8(h.session)| == 1 + |h.session| && |Vec16(h.ciphers)| == 2 + |h.ciphers|
    ensures |Vec8(h.compression)| == 1 + |h.compression|
  {
  }

  lemma {:induction false} BodyParsed(b: seq<Byte>, o: nat, h: NamedHello)
    requires HelloFits(h) && At(b, o, HelloBody(h))
    ensures ParseBody(b, o, o + |HelloBody(h)|) == HostName(h.name)
  {
    hide U16, HelloBody, UpToName, ScanExtensions, ExtensionsStart, At, HostName, ListFits;
    BodyRead(b, o, h);
    AtInside(b, o, HelloBody(h));
    var end, p := o + |HelloBody(h)|, o + Ahead(h);
    ExtensionsStartAt(b, o, end, |h.session|, |h.ciphers|, |h.compression|);
    UpToNameRead(b, p, if p + h.claimed > end then end else p + h.claimed, h);
  }

  lemma {:induction false} RecordRead(b: seq<Byte>, h: NamedHello)
    requires HelloFits(h) && HelloRecord(h) <= b
    ensures Sni(b) == HostName(h.name)
  {
    hide Be16, U16, HelloBody, ParseBody, HostName, PartsFit;
    var body := HelloBody(h);
    var five := Be16(|body|) + (body + h.spare);
    var four := [1, 0] + five;
    var three := Be16(4 + |body| + |h.spare|) + four;
    assert At(b, 0, HelloRecord(h)) by { assert b[0..|HelloRecord(h)|] == HelloRecord(h); }
    assert |h.version| == 2 by { VersionLength(h); }
    AtSplit(b, 0, [0x16], h.version + three);
    AtSplit(b, 1, h.version, three);
    AtSplit(b, 3, Be16(4 + |body| + |h.spare|), four);
    AtSplit(b, 5, [1, 0], five);
    AtSplit(b, 7, Be16(|body|), body + h.spare);
    AtSplit(b, 9, body, h.spare);
    U16At(b, 3, 4 + |body| + |h.spare|);
    U16At(b, 7, |body|);
    assert b[0] == b[0..1][0] && b[5] == b[5..7][0] && b[6] == b[5..7][1];
    BodyParsed(b, 9, h);
  }

  lemma {:induction false} VersionLength(h: NamedHello)
    requires PartsFit(h)
    ensures |h.version| == 2
  {
  }

  // ---------------------------------------------------------------- nothing else gives a name

  lemma {:induction false} NameDataBack(b: seq<Byte>, o: nat, end: nat, h: NamedHello)
    requires o + 5 + |h.name| + |h.others| == end <= |b| && |h.listLength| == 2 && |h.name| < 65536 && b[o + 2] == 0
    requires At(b, o, h.listLength) && U16(b, o + 3) == |h.name|
    requires At(b, o + 5, h.name) && At(b, o + 5 + |h.name|, h.others)
    ensures At(b, o, NameData(h)) && o + |NameData(h)| == end
  {
    hide Be16, U16;
    U16Back(b, o + 3);
    AtJoin(b, o + 3, Be16(|h.name|), h.name);
    AtJoin(b, o + 3, Vec16(h.name), h.others);
    assert b[o + 2..o + 3] == [0];
    AtJoin(b, o + 2, [0], Vec16(h.name) + h.others);
    AtJoin(b, o, h.listLength, [0] + (Vec16(h.name) + h.others));
  }

  lemma {:induction false} ReadName(b: seq<Byte>, pos: nat, end: nat, h0: NamedHello) returns (h: NamedHello)
    requires pos + 4 <= end <= |b| && U16(b, pos) == 0 && pos + 4 + U16(b, pos + 2) <= end
    requires ServerName(b, pos + 4, pos + 4 + U16(b, pos + 2)) != []
    ensures h == h0.(before := [], listLength := h.listLength, name := h.name, others := h.others) && ListFits(h)
    ensures At(b, pos, UpToName(h)) && |UpToName(h)| == 4 + U16(b, pos + 2)
    ensures HostName(h.name) == ServerName(b, pos + 4, pos + 4 + U16(b, pos + 2))
  {
    hide U16, HostName, NameData;
    var o, next := pos + 4, pos + 4 + U16(b, pos + 2);
    var n := o + 5 + U16(b, o + 3);
    h := h0.(before := [], listLength := b[o..o + 2], name := b[o + 5..n], others := b[n..next]);
    NameDataBack(b, o, next, h);
    Wrap(b, pos, NameData(h));
    assert [] + ([0, 0] + Vec16(NameData(h))) == [0, 0] + Vec16(NameData(h));
  }

  lemma {:induction false} Wrap(b: seq<Byte>, pos: nat, data: seq<Byte>)
    requires |data| < 65536 && pos + 4 <= |b| && U16(b, pos) == 0 && U16(b, pos + 2) == |data| && At(b, pos + 4, data)
    ensures At(b, pos, [0, 0] + Vec16(data))
  {
    U16Back(b, pos + 2);
    hide Be16;
    AtJoin(b, pos + 2, Be16(|data|), data);
    assert b[pos..pos + 2] == [0, 0];
    AtJoin(b, pos, [0, 0], Vec16(data));
  }

  lemma {:induction false} ReadUpToName(b: seq<Byte>, pos: nat, end: nat, h0: NamedHello) returns (h: NamedHello)
    requires end <= |b| && ScanExtensions(b, pos, end) != []
    ensures ListFits(h) && At(b, pos, UpToName(h)) && pos + |UpToName(h)| <= end
    ensures h == h0.(before := h.before, listLength := h.listLength, name := h.name, others := h.others)
    ensures HostName(h.name) == ScanExtensions(b, pos, end)
    decreases end - pos
  {
    hide U16, HostName, ServerName, UpToName;
    var next := pos + 4 + U16(b, pos + 2);
    if U16(b, pos) == 0 {
      h := ReadName(b, pos, end, h0);
    } else {
      var rest := ReadUpToName(b, next, end, h0);
      var e := Extension(U16(b, pos), b[pos + 4..next]);
      h := OneBefore(b, pos, e, rest);
    }
  }

  lemma {:induction false} OneBefore(b: seq<Byte>, pos: nat, e: Extension, rest: NamedHello) returns (h: NamedHello)
    requires ExtensionFits(e) && e.etype != 0 && ListFits(rest)
    requires pos + 4 + |e.data| <= |b| && U16(b, pos) == e.etype && U16(b, pos + 2) == |e.data|
    requires At(b, pos + 4, e.data) && At(b, pos + 4 + |e.data|, UpToName(rest))
    ensures h == rest.(before := [e] + rest.before) && ListFits(h)
    ensures At(b, pos, UpToName(h)) && |UpToName(h)| == 4 + |e.data| + |UpToName(rest)|
  {
    hide Be16, U16, NameData;
    h := rest.(before := [e] + rest.before);
    U16Back(b, pos);
    U16Back(b, pos + 2);
    AtJoin(b, pos + 2, Be16(|e.data|), e.data);
    AtJoin(b, pos, Be16(e.etype), Vec16(e.data));
    AtJoin(b, pos, EncodeExtension(e), UpToName(rest));
    assert h.before[1..] == rest.before;
    var last := [0, 0] + Vec16(NameData(rest));
    assert NameData(h) == NameData(rest) by { SameName(h, rest); }
    assert EncodeExtension(e) + (EncodeExtensions(rest.before) + last)
        == (EncodeExtension(e) + EncodeExtensions(rest.before)) + last;
  }

  lemma {:induction false} SameName(h: NamedHello, rest: NamedHello)
    requires h.listLength == rest.listLength && h.name == rest.name && h.others == rest.others && |h.name| < 65536
    ensures NameData(h) == NameData(rest)
  {
  }

  lemma {:induction false} SameUpToName(h: NamedHello, rest: NamedHello)
    requires ListFits(rest) && h.before == rest.before && h.listLength == rest.listLength
    requires h.name == rest.name && h.others == rest.others
    ensures ListFits(h) && UpToName(h) == UpToName(rest)
  {
  }

  lemma {:induction false} StartIs(b: seq<Byte>, o: nat, end: nat)
    requires end <= |b| && ExtensionsStart(b, o, end).Some?
    ensures o + 35 <= end && o + 37 + b[o + 34] <= end
    ensures var s := b[o + 34];
      var c := U16(b, o + 35 + s);
      && o + 38 + s + c <= end
      && ExtensionsStart(b, o, end) == Some(o + 38 + s + c + b[o + 37 + s + c])
  {
    hide U16;
  }

  /** The parts of a body stand where the lengths in it say. */
  lemma {:induction false} BodyBack(b: seq<Byte>, o: nat, end: nat, h: NamedHello)
    requires PartsFit(h) && h.claimed < 65536 && LengthsAt(b, o, h) && end <= |b|
    requires At(b, o, h.fixed) && At(b, o + 35, h.session) && At(b, o + 37 + |h.session|, h.ciphers)
    requires At(b, o + 38 + |h.session| + |h.ciphers|, h.compression) && At(b, o + Ahead(h), UpToName(h))
    requires At(b, o + Ahead(h) + |UpToName(h)|, h.after) && o + Ahead(h) + |UpToName(h)| + |h.after| == end
    ensures At(b, o, HelloBody(h)) && o + |HelloBody(h)| == end
  {
    hide Be16, U16, UpToName, ListFits;
    LengthsBack(b, o, h);
    VecLengths(h);
    hide At, Vec8, Vec16, LengthsAt;
    var five := Be16(h.claimed) + (UpToName(h) + h.after);
    AtJoin(b, o + Ahead(h), UpToName(h), h.after);
    AtJoin(b, o + Ahead(h) - 2, Be16(h.claimed), UpToName(h) + h.after);
    JoinFour(b, o, h.fixed, Vec8(h.session), Vec16(h.ciphers), Vec8(h.compression), five);
  }

  lemma {:induction false} JoinFour(b: seq<Byte>, o: nat, v: seq<Byte>, w: seq<Byte>, x: seq<Byte>, y: seq<Byte>,
                                    z: seq<Byte>)
    requires At(b, o, v) && At(b, o + |v|, w) && At(b, o + |v| + |w|, x) && At(b, o + |v| + |w| + |x|, y)
    requires At(b, o + |v| + |w| + |x| + |y|, z)
    ensures At(b, o, v + (w + (x + (y + z))))
  {
    hide At;
    AtJoin(b, o + |v| + |w| + |x|, y, z);
    AtJoin(b, o + |v| + |w|, x, y + z);
    AtJoin(b, o + |v|, w, x + (y + z));
    AtJoin(b, o, v, w + (x + (y + z)));
  }

  lemma {:induction false} LengthsBack(b: seq<Byte>, o: nat, h: NamedHello)
    requires PartsFit(h) && h.claimed < 65536 && LengthsAt(b, o, h)
    requires At(b, o + 35, h.session) && At(b, o + 37 + |h.session|, h.ciphers)
    requires At(b, o + 38 + |h.session| + |h.ciphers|, h.compression)
    ensures At(b, o + 34, Vec8(h.session)) && At(b, o + 35 + |h.session|, Vec16(h.ciphers))
    ensures At(b, o + 37 + |h.session| + |h.ciphers|, Vec8(h.compression))
    ensures At(b, o + Ahead(h) - 2, Be16(h.claimed))
  {
    hide Be16, U16, ListFits;
    var s, c := |h.session|, |h.ciphers|;
    assert b[o + 34..o + 35] == [|h.session|];
    AtJoin(b, o + 34, [|h.session|], h.session);
    U16Back(b, o + 35 + s);
    AtJoin(b, o + 35 + s, Be16(|h.ciphers|), h.ciphers);
    assert b[o + 37 + s + c..o + 38 + s + c] == [|h.compression|];
    AtJoin(b, o + 37 + s + c, [|h.compression|], h.compression);
    U16Back(b, o + Ahead(h) - 2);
  }

  lemma {:induction false} ReadBody(b: seq<Byte>, o: nat, end: nat, version: seq<Byte>, spare: seq<Byte>)
    returns (h: NamedHello)
    requires end <= |b| && ParseBody(b, o, end) != [] && |version| == 2
    ensures PartsFit(h) && |UpToName(h)| <= h.claimed < 65536 && h.version == version && h.spare == spare
    ensures At(b, o, HelloBody(h)) && o + |HelloBody(h)| == end
    ensures HostName(h.name) == ParseBody(b, o, end)
  {
    hide U16, HelloBody, UpToName, ScanExtensions, ExtensionsStart, HostName, ListFits;
    StartIs(b, o, end);
    var s: nat := b[o + 34];
    var c := U16(b, o + 35 + s);
    var k: nat := b[o + 37 + s + c];
    var p := o + 40 + s + c + k;
    var claimed := U16(b, p - 2);
    var h0 := NamedHello(version, b[o..o + 34], b[o + 35..o + 35 + s], b[o + 37 + s..o + 37 + s + c],
                         b[o + 38 + s + c..o + 38 + s + c + k], claimed, [], [0, 0], [], [], [], spare);
    var list := ReadUpToName(b, p, if p + claimed > end then end else p + claimed, h0);
    var done := p + |UpToName(list)|;
    h := list.(after := b[done..end]);
    SameUpToName(h, list);
    BodyBack(b, o, end, h);
  }

  lemma {:induction false} ReadHelloRecord(b: seq<Byte>) returns (h: NamedHello)
    requires Sni(b) != []
    ensures HelloFits(h) && HelloRecord(h) <= b && HostName(h.name) == Sni(b)
  {
    hide U16, Be16, HelloBody, UpToName, ParseBody, HostName, PartsFit;
    var n := Be24At(b, 6);
    h := ReadBody(b, 9, 9 + n, b[1..3], b[9 + n..RecordEnd(b)]);
    RecordBack(b, h);
  }

  lemma {:induction false} RecordBack(b: seq<Byte>, h: NamedHello)
    requires |b| >= 9 && b[0] == 0x16 && b[5] == 1 && b[6] == 0 && HelloFits(h)
    requires U16(b, 3) == 4 + |HelloBody(h)| + |h.spare| && U16(b, 7) == |HelloBody(h)|
    requires h.version == b[1..3] && At(b, 9, HelloBody(h)) && At(b, 9 + |HelloBody(h)|, h.spare)
    ensures HelloRecord(h) <= b
  {
    hide U16, Be16, HelloBody, UpToName, PartsFit;
    var body := HelloBody(h);
    var five := Be16(|body|) + (body + h.spare);
    var four := [1, 0] + five;
    var three := Be16(4 + |body| + |h.spare|) + four;
    AtJoin(b, 9, body, h.spare);
    U16Back(b, 7);
    AtJoin(b, 7, Be16(|body|), body + h.spare);
    assert b[5..7] == [1, 0];
    AtJoin(b, 5, [1, 0], five);
    U16Back(b, 3);
    AtJoin(b, 3, Be16(4 + |body| + |h.spare|), four);
    AtJoin(b, 1, h.version, three);
    assert b[0..1] == [0x16];
    AtJoin(b, 0, [0x16], h.version + three);
  }

  /** parseSNI finds a name in exactly these records, whatever follows them, and it is the host name of the first
      server_name extension in lower case and without one dot at its end. */
  lemma {:induction false} SniIff(b: seq<Byte>, s: Name)
    requires s != []
    ensures Sni(b) == s <==> exists h :: HelloFits(h) && HelloRecord(h) <= b && ReadsAs(s, h.name)
  {
    hide Sni, HelloFits, HelloRecord, ReadsAs, HostName;
    if Sni(b) == s {
      var h := ReadHelloRecord(b);
      HostNameIff(h.name, s);
    }
    if h :| HelloFits(h) && HelloRecord(h) <= b && ReadsAs(s, h.name) {
      RecordRead(b, h);
      HostNameIff(h.name, s);
    }
  }
}
