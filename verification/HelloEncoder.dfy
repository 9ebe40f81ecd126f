/** A TLS 1.2/1.3 ClientHello as a client writes it (section 4.1.2 of RFC 8446, section 3 of
    RFC 6066), and the proof that parseSNI and readHello get its server name back. */
module HelloEncoder {
  import opened Bytes
  import opened Wrappers
  import opened Names
  import opened ClientHello

  datatype Extension = Extension(etype: nat, data: seq<Byte>)

  /** The message without its framing; fixed is the legacy version and the random. */
  datatype Message = Message(fixed: seq<Byte>, session: seq<Byte>, ciphers: seq<Byte>,
                             compression: seq<Byte>, extensions: seq<Extension>)

  function Vec8(v: seq<Byte>): seq<Byte>
    requires |v| < 256
  {
    [|v|] + v
  }

  function Vec16(v: seq<Byte>): seq<Byte>
    requires |v| < 65536
  {
    Be16(|v|) + v
  }

  predicate ExtensionFits(e: Extension) { e.etype < 65536 && |e.data| < 65536 }

  ghost predicate ExtensionsFit(es: seq<Extension>) { forall i :: 0 <= i < |es| ==> ExtensionFits(es[i]) }

  ghost function EncodeExtension(e: Extension): seq<Byte>
    requires ExtensionFits(e)
  {
    Be16(e.etype) + Vec16(e.data)
  }

  ghost function EncodeExtensions(es: seq<Extension>): seq<Byte>
    requires ExtensionsFit(es)
  {
    if es == [] then [] else EncodeExtension(es[0]) + EncodeExtensions(es[1..])
  }

  ghost predicate Fits(m: Message) {
    && |m.fixed| == 34 && |m.session| < 256 && |m.ciphers| < 65536 && |m.compression| < 256
    && ExtensionsFit(m.extensions) && |EncodeExtensions(m.extensions)| < 65536
    && 4 + |EncodeBody(m)| < 65536
  }

  ghost function EncodeBody(m: Message): seq<Byte>
    requires |m.session| < 256 && |m.ciphers| < 65536 && |m.compression| < 256
    requires ExtensionsFit(m.extensions) && |EncodeExtensions(m.extensions)| < 65536
  {
    m.fixed + (Vec8(m.session) + (Vec16(m.ciphers) + (Vec8(m.compression) + Vec16(EncodeExtensions(m.extensions)))))
  }

  /** One handshake record holding the whole message. */
  ghost function Encode(m: Message, major: Byte, minor: Byte): seq<Byte>
    requires Fits(m)
  {
    var body := EncodeBody(m);
    [0x16, major, minor] + (Be16(4 + |body|) + ([1, 0] + (Be16(|body|) + body)))
  }

  /** The server_name extension: a list whose first entry is a host name. */
  function ServerNameExtension(name: Name, otherNames: seq<Byte>): Extension
    requires 3 + |name| + |otherNames| < 65534
  {
    Extension(0, Vec16([0] + (Vec16(name) + otherNames)))
  }

  // ---------------------------------------------------------------- parts in place

  lemma {:induction false} Vec16At(b: seq<Byte>, o: nat, v: seq<Byte>)
    requires |v| < 65536 && At(b, o, Vec16(v))
    ensures o + 2 + |v| <= |b| && U16(b, o) == |v| && At(b, o + 2, v)
  {
    AtSplit(b, o, Be16(|v|), v);
    U16At(b, o, |v|);
  }

  lemma {:induction false} Vec8At(b: seq<Byte>, o: nat, v: seq<Byte>)
    requires |v| < 256 && At(b, o, Vec8(v))
    ensures o + 1 + |v| <= |b| && b[o] == |v| && At(b, o + 1, v)
  {
    AtSplit(b, o, [|v|], v);
    assert b[o] == b[o..o + 1][0];
  }

  // ---------------------------------------------------------------- the extensions

  lemma {:induction false} ExtensionAt(b: seq<Byte>, o: nat, e: Extension)
    requires ExtensionFits(e) && At(b, o, EncodeExtension(e))
    ensures |EncodeExtension(e)| == 4 + |e.data| && o + 4 + |e.data| <= |b|
    ensures U16(b, o) == e.etype && U16(b, o + 2) == |e.data| && At(b, o + 4, e.data)
  {
    hide Be16;
    AtSplit(b, o, Be16(e.etype), Vec16(e.data));
    U16At(b, o, e.etype);
    Vec16At(b, o + 2, e.data);
  }

  lemma {:induction false} ServerNameAt(b: seq<Byte>, o: nat, name: Name, others: seq<Byte>)
    requires 3 + |name| + |others| < 65534
    requires At(b, o, ServerNameExtension(name, others).data)
    ensures ServerName(b, o, o + |ServerNameExtension(name, others).data|) == HostName(name)
  {
    hide Be16, U16, HostName;
    var list := [0] + (Vec16(name) + others);
    Vec16At(b, o, list);
    AtSplit(b, o + 2, [0], Vec16(name) + others);
    AtSplit(b, o + 3, Vec16(name), others);
    Vec16At(b, o + 3, name);
    assert b[o + 2] == b[o + 2..o + 3][0];
  }

  /** The walk passes every extension of another type. */
  lemma {:induction false} WalkPasses(b: seq<Byte>, o: nat, es: seq<Extension>, end: nat)
    requires ExtensionsFit(es) && At(b, o, EncodeExtensions(es))
    requires forall i :: 0 <= i < |es| ==> es[i].etype != 0
    requires o + |EncodeExtensions(es)| <= end <= |b|
    ensures ScanExtensions(b, o, end) == ScanExtensions(b, o + |EncodeExtensions(es)|, end)
    decreases |es|
  {
    hide EncodeExtension, U16;
    if es != [] {
      AtSplit(b, o, EncodeExtension(es[0]), EncodeExtensions(es[1..]));
      ExtensionAt(b, o, es[0]);
      WalkPasses(b, o + |EncodeExtension(es[0])|, es[1..], end);
    }
  }

  lemma {:induction false} EncodeAppend(xs: seq<Extension>, ys: seq<Extension>)
    requires ExtensionsFit(xs) && ExtensionsFit(ys)
    ensures ExtensionsFit(xs + ys)
    ensures EncodeExtensions(xs + ys) == EncodeExtensions(xs) + EncodeExtensions(ys)
  {
    hide EncodeExtension;
    if xs == [] {
      assert xs + ys == ys;
    } else {
      EncodeAppend(xs[1..], ys);
      assert (xs + ys)[1..] == xs[1..] + ys;
    }
  }

  lemma {:induction false} WalkFinds(b: seq<Byte>, o: nat, before: seq<Extension>, name: Name, others: seq<Byte>,
                                     after: seq<Extension>)
    requires ExtensionsFit(before) && ExtensionsFit(after) && 3 + |name| + |others| < 65534
    requires forall i :: 0 <= i < |before| ==> before[i].etype != 0
    requires var es := before + ([ServerNameExtension(name, others)] + after);
      ExtensionsFit(es) && At(b, o, EncodeExtensions(es))
    ensures var es := before + ([ServerNameExtension(name, others)] + after);
      ReadsAs(ScanExtensions(b, o, o + |EncodeExtensions(es)|), name)
  {
    HostNameIff(name, HostName(name));
    hide ReadsAs;
    hide EncodeExtension, U16, HostName, ServerName, ServerNameExtension;
    var e := ServerNameExtension(name, others);
    var rest := [e] + after;
    var end := o + |EncodeExtensions(before + rest)|;
    ServerNameFits(name, others);
    EncodeAppend(before, rest);
    assert rest[0] == e && rest[1..] == after;
    AtSplit(b, o, EncodeExtensions(before), EncodeExtensions(rest));
    WalkPasses(b, o, before, end);
    var p := o + |EncodeExtensions(before)|;
    AtSplit(b, p, EncodeExtension(e), EncodeExtensions(after));
    ExtensionAt(b, p, e);
    ServerNameAt(b, p + 4, name, others);
  }

  lemma {:induction false} ServerNameFits(name: Name, others: seq<Byte>)
    requires 3 + |name| + |others| < 65534
    ensures var e := ServerNameExtension(name, others); ExtensionFits(e) && e.etype == 0
  {
  }

  // ---------------------------------------------------------------- the record

  /** Where the extensions of a message start, counted from its first octet. */
  function Front(m: Message): nat { 40 + |m.session| + |m.ciphers| + |m.compression| }

  ghost predicate FieldsAt(b: seq<Byte>, o: nat, m: Message)
    requires Fits(m)
  {
    && At(b, o, m.fixed) && At(b, o + 34, Vec8(m.session)) && At(b, o + 35 + |m.session|, Vec16(m.ciphers))
    && At(b, o + 37 + |m.session| + |m.ciphers|, Vec8(m.compression))
    && At(b, o + Front(m) - 2, Vec16(EncodeExtensions(m.extensions)))
    && |EncodeBody(m)| == Front(m) + |EncodeExtensions(m.extensions)|
  }

  lemma {:induction false} Fields(b: seq<Byte>, o: nat, m: Message)
    requires Fits(m) && At(b, o, EncodeBody(m))
    ensures FieldsAt(b, o, m)
  {
    hide Be16, EncodeExtensions, At;
    var exts := Vec16(EncodeExtensions(m.extensions));
    var tail2 := Vec8(m.compression) + exts;
    var tail1 := Vec16(m.ciphers) + tail2;
    AtSplit(b, o, m.fixed, Vec8(m.session) + tail1);
    AtSplit(b, o + 34, Vec8(m.session), tail1);
    AtSplit(b, o + 35 + |m.session|, Vec16(m.ciphers), tail2);
    AtSplit(b, o + 37 + |m.session| + |m.ciphers|, Vec8(m.compression), exts);
  }

  /** parseSNI walks an encoded message up to its extensions, which it reads in full. */
  lemma {:induction false} BodyAt(b: seq<Byte>, o: nat, m: Message)
    requires Fits(m) && At(b, o, EncodeBody(m))
    ensures var start := o + Front(m);
      && At(b, start, EncodeExtensions(m.extensions))
      && start + |EncodeExtensions(m.extensions)| == o + |EncodeBody(m)| <= |b|
      && ParseBody(b, o, o + |EncodeBody(m)|) == ScanExtensions(b, start, o + |EncodeBody(m)|)
  {
    hide U16, EncodeBody, EncodeExtensions, ScanExtensions, ExtensionsStart, Vec16, At;
    Lengths(b, o, m);
    ExtensionsStartAt(b, o, o + |EncodeBody(m)|, |m.session|, |m.ciphers|, |m.compression|);
  }

  lemma {:induction false} Lengths(b: seq<Byte>, o: nat, m: Message)
    requires Fits(m) && At(b, o, EncodeBody(m))
    ensures o + |EncodeBody(m)| == o + Front(m) + |EncodeExtensions(m.extensions)| <= |b|
    ensures b[o + 34] == |m.session| && U16(b, o + 35 + |m.session|) == |m.ciphers|
    ensures b[o + 37 + |m.session| + |m.ciphers|] == |m.compression|
    ensures U16(b, o + Front(m) - 2) == |EncodeExtensions(m.extensions)|
    ensures At(b, o + Front(m), EncodeExtensions(m.extensions))
  {
    hide U16, Vec8, Vec16, EncodeBody, EncodeExtensions;
    Fields(b, o, m);
    hide At;
    Vec8At(b, o + 34, m.session);
    Vec16At(b, o + 35 + |m.session|, m.ciphers);
    Vec8At(b, o + 37 + |m.session| + |m.ciphers|, m.compression);
    Vec16At(b, o + Front(m) - 2, EncodeExtensions(m.extensions));
  }

  lemma {:induction false} ExtensionsStartAt(b: seq<Byte>, o: nat, end: nat, s: nat, c: nat, k: nat)
    requires o + 40 + s + c + k <= end <= |b|
    requires b[o + 34] == s && U16(b, o + 35 + s) == c && b[o + 37 + s + c] == k
    ensures ExtensionsStart(b, o, end) == Some(o + 38 + s + c + k)
  {
    hide U16;
  }

  lemma {:induction false} RecordAtFront(m: Message, major: Byte, minor: Byte)
    requires Fits(m)
    ensures var b, body := Encode(m, major, minor), EncodeBody(m);
      && |b| == 9 + |body| && RecordEnd(b) == |b| && b[0] == HANDSHAKE && b[5] == 1
      && Be24At(b, 6) == |body| && At(b, 9, body)
      && Sni(b) == ParseBody(b, 9, 9 + |body|)
  {
    hide Be16, U16, EncodeBody, ParseBody;
    var body := EncodeBody(m);
    var b := Encode(m, major, minor);
    var tail := [1, 0] + (Be16(|body|) + body);
    AtSplit(b, 0, [HANDSHAKE, major, minor], Be16(4 + |body|) + tail);
    AtSplit(b, 3, Be16(4 + |body|), tail);
    U16At(b, 3, 4 + |body|);
    AtSplit(b, 5, [1, 0], Be16(|body|) + body);
    assert b[5] == b[5..7][0] && b[6] == b[5..7][1];
    AtSplit(b, 7, Be16(|body|), body);
    U16At(b, 7, |body|);
  }

  /** parseSNI gives back the ASCII name a client encoded, whatever the record's version, the other fields
      and the extensions around it are. */
  lemma {:induction false} SniOfEncoded(m: Message, major: Byte, minor: Byte, before: seq<Extension>,
                                        name: Name, others: seq<Byte>, after: seq<Extension>)
    requires Fits(m) && ExtensionsFit(before) && ExtensionsFit(after) && 3 + |name| + |others| < 65534
    requires m.extensions == before + ([ServerNameExtension(name, others)] + after)
    requires forall i :: 0 <= i < |before| ==> before[i].etype != 0
    ensures ReadsAs(Sni(Encode(m, major, minor)), name)
    ensures IsPlain(name) ==> Sni(Encode(m, major, minor)) == name
  {
    HostNameIff(name, HostName(name));
    hide ReadsAs, IsPlain;
    hide Sni, Encode, EncodeBody, ParseBody, ScanExtensions, EncodeExtensions, HostName, ServerNameExtension;
    var b := Encode(m, major, minor);
    RecordAtFront(m, major, minor);
    BodyAt(b, 9, m);
    WalkFinds(b, 9 + Front(m), before, name, others, after);
    HostNameIff(name, Sni(b));
  }

  /** A message without the extension has no name. */
  lemma {:induction false} NoServerName(m: Message, major: Byte, minor: Byte)
    requires Fits(m) && forall i :: 0 <= i < |m.extensions| ==> m.extensions[i].etype != 0
    ensures Sni(Encode(m, major, minor)) == []
  {
    hide Sni, Encode, EncodeBody, ParseBody, EncodeExtensions, ScanExtensions, U16, At;
    var b := Encode(m, major, minor);
    RecordAtFront(m, major, minor);
    BodyAt(b, 9, m);
    WalkPasses(b, 9 + Front(m), m.extensions, |b|);
    NothingLeft(b);
  }

  lemma {:induction false} NothingLeft(b: seq<Byte>)
    ensures ScanExtensions(b, |b|, |b|) == []
  {
  }

  /** The edge stops at read k, the first that gives it the record or 8192 octets, and finds the name
      exactly if that read completes the record. */
  ghost predicate EdgeFinds(chunks: seq<seq<Byte>>, k: int, n: nat, name: Name) {
    && 1 <= k <= |chunks|
    && |Flatten(chunks[..k - 1])| < (if n < 8192 then n else 8192) <= |Flatten(chunks[..k])|
    && ReadAll([], chunks).Hello? && ReadAll([], chunks).buf == Flatten(chunks[..k])
    && if |Flatten(chunks[..k])| >= n then ReadsAs(ReadAll([], chunks).sni, name) else ReadAll([], chunks).sni == []
  }

  /** End to end: a client's ClientHello, cut into reads in any way and followed by anything, gives the
      edge its server name, in lower case and without one dot at its end, and exactly the octets read so
      far. Only a message longer than 8192 octets can be missed, when a read ends between its first
      8192 octets and its end. */
  lemma {:induction false} EdgeSeesTheName(m: Message, major: Byte, minor: Byte, before: seq<Extension>,
                                           name: Name, others: seq<Byte>, after: seq<Extension>,
                                           chunks: seq<seq<Byte>>)
    requires Fits(m) && ExtensionsFit(before) && ExtensionsFit(after) && 3 + |name| + |others| < 65534
    requires m.extensions == before + ([ServerNameExtension(name, others)] + after)
    requires forall i :: 0 <= i < |before| ==> before[i].etype != 0
    requires Encode(m, major, minor) <= Flatten(chunks)
    ensures exists k :: EdgeFinds(chunks, k, |Encode(m, major, minor)|, name)
    ensures |Encode(m, major, minor)| <= 8192 ==>
      && ReadAll([], chunks).Hello? && ReadsAs(ReadAll([], chunks).sni, name)
      && (IsPlain(name) ==> ReadAll([], chunks).sni == name)
  {
    hide Sni, Encode, ReadAll, ServerNameExtension, ReadsAs, IsPlain;
    var r := Encode(m, major, minor);
    RecordAtFront(m, major, minor);
    SniOfEncoded(m, major, minor, before, name, others, after);
    AnyChunking(r, chunks);
    var k :| StopsAt(r, [], chunks, k);
    assert [] + Flatten(chunks[..k]) == Flatten(chunks[..k]);
    assert [] + Flatten(chunks[..k - 1]) == Flatten(chunks[..k - 1]);
    assert EdgeFinds(chunks, k, |r|, name);
  }
}
