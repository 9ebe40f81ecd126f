/** Domain names as ASCII octets: normalizeName, joining and splitting on dots, suffixes. */
module Names {
  import opened Bytes

  type Name = seq<Byte>

  const DOT: Byte := 46

  predicate IsSpace(c: Byte) { 9 <= c <= 13 || c == 32 }

  function TrimLeft(s: Name): Name {
    if s != [] && IsSpace(s[0]) then TrimLeft(s[1..]) else s
  }

  function TrimRight(s: Name): Name {
    if s != [] && IsSpace(s[|s| - 1]) then TrimRight(s[..|s| - 1]) else s
  }

  /** strings.TrimSuffix(s, "."): at most one dot is removed. */
  function TrimDot(s: Name): Name {
    if s != [] && s[|s| - 1] == DOT then s[..|s| - 1] else s
  }

  function Lower(s: Name): (r: Name)
    ensures |r| == |s|
  {
    seq(|s|, i requires 0 <= i < |s| => if 65 <= s[i] <= 90 then s[i] + 32 else s[i])
  }

  function NormalizeName(s: Name): Name {
    Lower(TrimDot(TrimRight(TrimLeft(s))))
  }

  predicate Normalized(s: Name) { NormalizeName(s) == s }

  /** A name that does not end in a dot or a space is normalized for good by one pass. */
  lemma {:induction false} NormalizedIff(s: Name)
    ensures Normalized(s) <==>
      (s == [] || (!IsSpace(s[0]) && !IsSpace(s[|s| - 1]) && s[|s| - 1] != DOT))
      && forall i :: 0 <= i < |s| ==> !(65 <= s[i] <= 90)
  {
    var l := TrimLeft(s);
    var r := TrimRight(l);
    var d := TrimDot(r);
    TrimLeftShrinks(s);
    TrimRightShrinks(l);
    assert Normalized(s) ==> |d| == |s|;
    if |d| == |s| {
      assert d == s;
      assert Lower(s) == s <==> forall i :: 0 <= i < |s| ==> !(65 <= s[i] <= 90) by {
        if Lower(s) == s { forall i | 0 <= i < |s| ensures !(65 <= s[i] <= 90) { assert Lower(s)[i] == s[i]; } }
      }
    }
  }

  lemma {:induction false} TrimLeftShrinks(s: Name)
    ensures |TrimLeft(s)| <= |s|
    ensures |TrimLeft(s)| == |s| <==> s == [] || !IsSpace(s[0])
    ensures |TrimLeft(s)| == |s| ==> TrimLeft(s) == s
  {
    if s != [] && IsSpace(s[0]) { TrimLeftShrinks(s[1..]); }
  }

  lemma {:induction false} TrimRightShrinks(s: Name)
    ensures |TrimRight(s)| <= |s|
    ensures |TrimRight(s)| == |s| <==> s == [] || !IsSpace(s[|s| - 1])
    ensures |TrimRight(s)| == |s| ==> TrimRight(s) == s
  {
    if s != [] && IsSpace(s[|s| - 1]) { TrimRightShrinks(s[..|s| - 1]); }
  }

  /** strings.Join(labels, "."). */
  function Join(labels: seq<Name>): Name {
    if labels == [] then [] else if |labels| == 1 then labels[0]
    else labels[0] + [DOT] + Join(labels[1..])
  }

  /** strings.Split(s, "."). */
  function Split(s: Name): (r: seq<Name>)
    ensures r != []
  {
    if s == [] then [[]]
    else
      var rest := Split(s[1..]);
      if s[0] == DOT then [[]] + rest else [[s[0]] + rest[0]] + rest[1..]
  }

  lemma {:induction false} JoinSplit(s: Name)
    ensures Join(Split(s)) == s
  {
    if s != [] {
      var rest := Split(s[1..]);
      JoinSplit(s[1..]);
      if s[0] == DOT {
        assert ([[]] + rest)[1..] == rest;
      } else {
        var joined := [[s[0]] + rest[0]] + rest[1..];
        assert joined[1..] == rest[1..];
        assert Join(joined) == [s[0]] + Join(rest);
      }
    }
  }

  predicate HasSuffix(s: Name, t: Name) {
    |t| <= |s| && s[|s| - |t|..] == t
  }

  /** A name equal to text, or below it. */
  predicate UnderSuffix(name: Name, text: Name) {
    name == text || HasSuffix(name, [DOT] + text)
  }

  /** Two suffixes of one name that have the same length are the same. */
  lemma {:induction false} SameLengthSuffixes(name: Name, s: Name, t: Name)
    requires UnderSuffix(name, s) && UnderSuffix(name, t) && |s| == |t|
    ensures s == t
  {
    assert HasSuffix(name, s) by { SuffixOfName(name, s); }
    assert HasSuffix(name, t) by { SuffixOfName(name, t); }
  }

  lemma {:induction false} SuffixOfName(name: Name, s: Name)
    requires UnderSuffix(name, s)
    ensures HasSuffix(name, s)
  {
    if name != s {
      var dotted := [DOT] + s;
      assert dotted[1..] == s;
      assert name[|name| - |s|..] == name[|name| - |dotted|..][1..];
    }
  }

  // ---------------------------------------------------------------- what the operations do, octet by octet

  ghost predicate AllSpaces(s: Name) { forall i :: 0 <= i < |s| ==> 9 <= s[i] <= 13 || s[i] == 32 }

  /** A text that starts and ends with something else than a space. */
  ghost predicate Trimmed(s: Name) {
    s == [] || !(9 <= s[0] <= 13 || s[0] == 32 || 9 <= s[|s| - 1] <= 13 || s[|s| - 1] == 32)
  }

  /** Normalizing drops the spaces around the text, then one dot at its end, and turns A to Z into a to z. */
  lemma {:induction false} NormalizeNameIs(left: Name, text: Name, right: Name)
    requires AllSpaces(left) && AllSpaces(right) && Trimmed(text)
    ensures var r := NormalizeName(left + text + right);
      && |r| == (if text != [] && text[|text| - 1] == 46 then |text| - 1 else |text|)
      && forall i :: 0 <= i < |r| ==> r[i] == if 65 <= text[i] <= 90 then text[i] + 32 else text[i]
  {
    assert left + text + right == left + (text + right);
    LeftSpaces(left, text + right);
    RightSpaces(text, right);
  }

  lemma {:induction false} LeftSpaces(left: Name, rest: Name)
    requires AllSpaces(left)
    ensures TrimLeft(left + rest) == TrimLeft(rest)
    decreases |left|
  {
    if left == [] {
      assert left + rest == rest;
    } else {
      assert (left + rest)[1..] == left[1..] + rest;
      LeftSpaces(left[1..], rest);
    }
  }

  lemma {:induction false} RightSpaces(text: Name, right: Name)
    requires AllSpaces(right) && Trimmed(text)
    ensures TrimRight(TrimLeft(text + right)) == text
    decreases |right|
  {
    if text == [] {
      assert text + right == right;
      SpacesGone(right);
    } else {
      assert (text + right)[0] == text[0];
      TrimsRight(text, right);
    }
  }

  lemma {:induction false} SpacesGone(s: Name)
    requires AllSpaces(s)
    ensures TrimLeft(s) == []
    decreases |s|
  {
    if s != [] { SpacesGone(s[1..]); }
  }

  lemma {:induction false} TrimsRight(text: Name, right: Name)
    requires AllSpaces(right) && text != [] && !IsSpace(text[|text| - 1])
    ensures TrimRight(text + right) == text
    decreases |right|
  {
    if right == [] {
      assert text + right == text;
    } else {
      var n := |right| - 1;
      assert (text + right)[..|text + right| - 1] == text + right[..n];
      TrimsRight(text, right[..n]);
    }
  }

  /** A name is under a suffix if it is that text, or ends in a dot and that text. */
  lemma {:induction false} UnderSuffixIff(name: Name, text: Name)
    ensures UnderSuffix(name, text) <==> name == text || exists front: Name :: name == front + [46] + text
  {
    var dotted := [DOT] + text;
    if HasSuffix(name, dotted) {
      var front := name[..|name| - |dotted|];
      assert name == front + dotted == front + [46] + text;
    }
    if front: Name :| name == front + [46] + text {
      assert name == front + dotted;
      assert name[|name| - |dotted|..] == dotted;
    }
  }

  /** Joining puts one dot between neighbours and nothing else: the parts are the pieces between the dots. */
  lemma {:induction false} SplitJoin(labels: seq<Name>)
    requires labels != [] && forall i :: 0 <= i < |labels| ==> 46 !in labels[i]
    ensures Split(Join(labels)) == labels
    decreases |labels|
  {
    if |labels| == 1 {
      SplitPiece(labels[0], []);
      assert labels[0] + [] == labels[0];
      assert labels == [labels[0]];
    } else {
      SplitJoin(labels[1..]);
      SplitPiece(labels[0], [DOT] + Join(labels[1..]));
      assert labels[0] + [DOT] + Join(labels[1..]) == labels[0] + ([DOT] + Join(labels[1..]));
      assert ([DOT] + Join(labels[1..]))[1..] == Join(labels[1..]);
      assert labels == [labels[0]] + labels[1..];
    }
  }

  /** The first piece reaches to the first dot. */
  lemma {:induction false} SplitPiece(piece: Name, rest: Name)
    requires 46 !in piece && (rest == [] || rest[0] == DOT)
    ensures rest == [] ==> Split(piece + rest) == [piece]
    ensures rest != [] ==> Split(piece + rest) == [piece] + Split(rest[1..])
    decreases |piece|
  {
    if piece == [] {
      assert piece + rest == rest;
    } else {
      assert (piece + rest)[1..] == piece[1..] + rest;
      assert forall x: Byte :: x in piece[1..] ==> x in piece;
      SplitPiece(piece[1..], rest);
      assert [piece[0]] + piece[1..] == piece;
    }
  }
}
