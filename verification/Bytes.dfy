/** Octets and big-endian integers. The source masks bits of an octet; the model compares numbers. */
module Bytes {

  type Byte = x: int | 0 <= x < 256

  const TWO_TO_THE_32: int := 0x1_0000_0000

  /** A two-octet big-endian integer (binary.BigEndian.Uint16). */
  function U16(b: seq<Byte>, o: nat): (v: nat)
    requires o + 2 <= |b|
    ensures v < 65536
  {
    var hi: int, lo: int := b[o], b[o + 1];
    256 * hi + lo
  }

  /** A four-octet big-endian integer (binary.BigEndian.Uint32). */
  function U32(b: seq<Byte>, o: nat): (v: nat)
    requires o + 4 <= |b|
    ensures v < TWO_TO_THE_32
  {
    65536 * U16(b, o) + U16(b, o + 2)
  }

  function Be16(v: nat): (r: seq<Byte>)
    requires v < 65536
    ensures |r| == 2 && U16(r, 0) == v
  {
    [v / 256, v % 256]
  }

  function Be32(v: nat): (r: seq<Byte>)
    requires v < TWO_TO_THE_32
    ensures |r| == 4 && U32(r, 0) == v
  {
    var hi, lo := Be16(v / 65536), Be16(v % 65536);
    assert U16(hi + lo, 0) == U16(hi, 0) && U16(hi + lo, 2) == U16(lo, 0);
    hi + lo
  }

  /** The first n octets of both sequences exist and are equal. */
  ghost predicate Agree(b: seq<Byte>, c: seq<Byte>, n: nat) {
    n <= |b| && n <= |c| && forall i :: 0 <= i < n ==> b[i] == c[i]
  }

  lemma {:induction false} U16Same(b: seq<Byte>, c: seq<Byte>, o: nat)
    requires o + 2 <= |b| && o + 2 <= |c| && forall i :: o <= i < o + 2 ==> c[i] == b[i]
    ensures U16(c, o) == U16(b, o)
  {
  }

  lemma {:induction false} U32Same(b: seq<Byte>, c: seq<Byte>, o: nat)
    requires o + 4 <= |b| && o + 4 <= |c| && forall i :: o <= i < o + 4 ==> c[i] == b[i]
    ensures U32(c, o) == U32(b, o)
  {
    U16Same(b, c, o);
    U16Same(b, c, o + 2);
  }

  /** Concatenation of a list of octet strings: what a list of reads delivers. */
  function Flatten(parts: seq<seq<Byte>>): seq<Byte> {
    if parts == [] then [] else parts[0] + Flatten(parts[1..])
  }

  lemma {:induction false} FlattenAppend(parts: seq<seq<Byte>>, last: seq<Byte>)
    ensures Flatten(parts + [last]) == Flatten(parts) + last
  {
    if parts == [] {
    } else {
      FlattenAppend(parts[1..], last);
      assert (parts + [last])[1..] == parts[1..] + [last];
    }
  }

  // ---------------------------------------------------------------- parts in place

  /** part stands in b at offset o. */
  ghost predicate At(b: seq<Byte>, o: nat, part: seq<Byte>) {
    o + |part| <= |b| && b[o..o + |part|] == part
  }

  lemma {:induction false} Nothing(b: seq<Byte>, o: nat)
    requires o <= |b|
    ensures At(b, o, [])
  {
  }

  lemma {:induction false} AtInside(b: seq<Byte>, o: nat, part: seq<Byte>)
    requires At(b, o, part)
    ensures o + |part| <= |b|
  {
  }

  lemma {:induction false} AtSplit(b: seq<Byte>, o: nat, x: seq<Byte>, y: seq<Byte>)
    requires At(b, o, x + y)
    ensures At(b, o, x) && At(b, o + |x|, y)
  {
    var xy := x + y;
    assert x == xy[..|x|] && y == xy[|x|..];
  }

  lemma {:induction false} AtJoin(b: seq<Byte>, o: nat, x: seq<Byte>, y: seq<Byte>)
    requires At(b, o, x) && At(b, o + |x|, y)
    ensures At(b, o, x + y)
  {
    assert b[o..o + |x| + |y|] == b[o..o + |x|] + b[o + |x|..o + |x| + |y|];
  }

  lemma {:induction false} AtSame(b: seq<Byte>, c: seq<Byte>, o: nat, part: seq<Byte>)
    requires At(b, o, part) && o + |part| <= |c| && forall i :: o <= i < o + |part| ==> c[i] == b[i]
    ensures At(c, o, part)
  {
    assert c[o..o + |part|] == b[o..o + |part|];
  }

  lemma {:induction false} U16At(b: seq<Byte>, o: nat, v: nat)
    requires v < 65536 && At(b, o, Be16(v))
    ensures U16(b, o) == v
  {
    assert U16(b[o..o + 2], 0) == v;
  }

  lemma {:induction false} U32At(b: seq<Byte>, o: nat, v: nat)
    requires v < TWO_TO_THE_32 && At(b, o, Be32(v))
    ensures U32(b, o) == v
  {
    assert U32(b[o..o + 4], 0) == v;
  }

  lemma {:induction false} U16Back(b: seq<Byte>, o: nat)
    requires o + 2 <= |b|
    ensures At(b, o, Be16(U16(b, o)))
  {
    var hi: int, lo: int := b[o], b[o + 1];
    assert (256 * hi + lo) / 256 == hi && (256 * hi + lo) % 256 == lo;
    assert b[o..o + 2] == [b[o], b[o + 1]];
  }

  lemma {:induction false} U32Back(b: seq<Byte>, o: nat)
    requires o + 4 <= |b|
    ensures At(b, o, Be32(U32(b, o)))
  {
    var hi, lo := U16(b, o), U16(b, o + 2);
    assert (65536 * hi + lo) / 65536 == hi && (65536 * hi + lo) % 65536 == lo;
    U16Back(b, o);
    U16Back(b, o + 2);
    AtJoin(b, o, Be16(hi), Be16(lo));
  }
}
