/** The key under which a reply is cached: dnsCacheKey joins profile, route, name, type and class. */
module CacheKey {
  import opened Bytes
  import opened Names

  const LOCAL: Name := [108, 111, 99, 97, 108]
  const PUBLIC: Name := [112, 117, 98, 108, 105, 99]

  /** normalizeProfile: everything but "local", in either case, is "public". */
  function NormalizeProfile(profile: Name): Name {
    if Lower(profile) == LOCAL then LOCAL else PUBLIC
  }

  /** fmt's %d. */
  function Decimal(n: nat): (r: seq<Byte>)
    ensures r != [] && 0 !in r
  {
    if n < 10 then [48 + n] else Decimal(n / 10) + [48 + n % 10]
  }

  function DnsCacheKey(profile: Name, route: Name, name: Name, qtype: nat, qclass: nat): seq<Byte> {
    NormalizeProfile(profile) + ([0] + (route + ([0] + (name + ([0] + (Decimal(qtype) + ([0] + Decimal(qclass))))))))
  }

  lemma {:induction false} DecimalDiffers(m: nat, n: nat)
    requires Decimal(m) == Decimal(n)
    ensures m == n
  {
    var a, b := Decimal(m), Decimal(n);
    if m >= 10 && n >= 10 {
      assert a[..|a| - 1] == Decimal(m / 10) && b[..|b| - 1] == Decimal(n / 10);
      DecimalDiffers(m / 10, n / 10);
      assert a[|a| - 1] == 48 + m % 10 && b[|b| - 1] == 48 + n % 10;
    }
  }

  /** A text without zero octets is separated from what follows by the first one. */
  lemma {:induction false} FirstZero(a: seq<Byte>, x: seq<Byte>, b: seq<Byte>, y: seq<Byte>)
    requires 0 !in a && 0 !in b && a + ([0] + x) == b + ([0] + y)
    ensures a == b && x == y
  {
    var s, t := a + ([0] + x), b + ([0] + y);
    assert s[|a|] == 0 && t[|b|] == 0;
    assert s[..|a|] == a && t[..|b|] == b && s[|a| + 1..] == x && t[|b| + 1..] == y;
  }

  /** ... and from what precedes it by the last one. */
  lemma {:induction false} LastZero(x: seq<Byte>, a: seq<Byte>, y: seq<Byte>, b: seq<Byte>)
    requires 0 !in a && 0 !in b && x + ([0] + a) == y + ([0] + b)
    ensures x == y && a == b
  {
    var s, t := x + ([0] + a), y + ([0] + b);
    assert |s| == |x| + 1 + |a| == |y| + 1 + |b|;
    assert s[|x|] == 0 && t[|y|] == 0;
    assert s[..|x|] == x && t[..|y|] == y && s[|x| + 1..] == a && t[|y| + 1..] == b;
  }

  lemma {:induction false} ProfileHasNoZero(profile: Name)
    ensures 0 !in NormalizeProfile(profile)
  {
  }

  /** "local" in either case. */
  predicate IsLocal(p: Name) {
    && |p| == 5 && p[0] in [76, 108] && p[1] in [79, 111] && p[2] in [67, 99] && p[3] in [65, 97] && p[4] in [76, 108]
  }

  lemma {:induction false} ProfileIff(p: Name)
    ensures NormalizeProfile(p) == if IsLocal(p) then [108, 111, 99, 97, 108] else [112, 117, 98, 108, 105, 99]
  {
    if Lower(p) == LOCAL {
      var l := Lower(p);
      assert |p| == 5 && l[0] == 108 && l[1] == 111 && l[2] == 99 && l[3] == 97 && l[4] == 108;
    }
    if IsLocal(p) {
      assert Lower(p) == LOCAL;
    }
  }

  /** Two questions share a key exactly when both or neither come from the local profile and they agree in route,
      name, type and class, even if their names hold zero octets; so no caller is answered with a reply
      for another question. */
  lemma {:induction false} KeysDiffer(p: Name, r: Name, n: Name, t: nat, c: nat,
                                      p': Name, r': Name, n': Name, t': nat, c': nat)
    requires 0 !in r && 0 !in r'
    ensures DnsCacheKey(p, r, n, t, c) == DnsCacheKey(p', r', n', t', c') <==>
      (IsLocal(p) <==> IsLocal(p')) && r == r' && n == n' && t == t' && c == c'
  {
    hide NormalizeProfile, Decimal, IsLocal;
    ProfileIff(p);
    ProfileIff(p');
    if DnsCacheKey(p, r, n, t, c) == DnsCacheKey(p', r', n', t', c') { SameParts(p, r, n, t, c, p', r', n', t', c'); }
    assert [108, 111, 99, 97, 108] != [112, 117, 98, 108, 105, 99];
  }

  lemma {:induction false} SameParts(p: Name, r: Name, n: Name, t: nat, c: nat,
                                     p': Name, r': Name, n': Name, t': nat, c': nat)
    requires 0 !in r && 0 !in r' && DnsCacheKey(p, r, n, t, c) == DnsCacheKey(p', r', n', t', c')
    ensures NormalizeProfile(p) == NormalizeProfile(p') && r == r' && n == n' && t == t' && c == c'
  {
    hide NormalizeProfile, Decimal;
    ProfileHasNoZero(p);
    ProfileHasNoZero(p');
    var x, x' := Decimal(t) + ([0] + Decimal(c)), Decimal(t') + ([0] + Decimal(c'));
    var y, y' := r + ([0] + (n + ([0] + x))), r' + ([0] + (n' + ([0] + x')));
    FirstZero(NormalizeProfile(p), y, NormalizeProfile(p'), y');
    FirstZero(r, n + ([0] + x), r', n' + ([0] + x'));
    var z, z' := n + ([0] + Decimal(t)), n' + ([0] + Decimal(t'));
    assert n + ([0] + x) == z + ([0] + Decimal(c)) && n' + ([0] + x') == z' + ([0] + Decimal(c'));
    LastZero(z, Decimal(c), z', Decimal(c'));
    LastZero(n, Decimal(t), n', Decimal(t'));
    DecimalDiffers(t, t');
    DecimalDiffers(c, c');
  }
}
