/** The rule router and the static answers: routeFromRules and staticAForName. Names are ASCII. */
module Routing {
  import opened Bytes
  import opened Wrappers
  import opened Names
  import opened DnsCodec

  datatype Rule = Rule(text: Name, match_: string, through: seq<string>, conditions: seq<string>)

  const EXACT_BONUS := 10000

  function Condition(profile: string): string {
    if profile == "local" then "internalDns" else "externalDns"
  }

  /** The rule takes part in this profile's routing. */
  predicate Applicable(r: Rule, profile: string) {
    r.match_ != "set" && Condition(profile) in r.conditions && |r.through| > 0
  }

  predicate Matches(r: Rule, name: Name, profile: string) {
    && Applicable(r, profile)
    && ((r.match_ == "exact" && name == NormalizeName(r.text))
        || (r.match_ == "suffix" && UnderSuffix(name, NormalizeName(r.text))))
  }

  function Score(r: Rule): nat {
    |NormalizeName(r.text)| + (if r.match_ == "exact" then EXACT_BONUS else 0)
  }

  /** The first of the matching rules with the greatest score. */
  function Selected(name: Name, profile: string, rules: seq<Rule>): Option<Rule> {
    if rules == [] then None else
    var before, last := Selected(name, profile, rules[..|rules| - 1]), rules[|rules| - 1];
    if Matches(last, name, profile) && (before.None? || Score(last) > Score(before.value)) then Some(last) else before
  }

  function RouteThrough(r: Rule, profile: string): string
    requires |r.through| > 0
  {
    if r.through[0] == "direct" then "direct"
    else if profile == "public" && r.through[0] == "vusa" then "vusa-proxy"
    else "proxy"
  }

  /** Rule k matches with the greatest score, and no earlier rule has that score. */
  ghost predicate FirstBest(name: Name, profile: string, rules: seq<Rule>, k: int) {
    && 0 <= k < |rules| && Matches(rules[k], name, profile)
    && (forall i :: 0 <= i < |rules| && Matches(rules[i], name, profile) ==> Score(rules[i]) <= Score(rules[k]))
    && (forall i :: 0 <= i < k && Matches(rules[i], name, profile) ==> Score(rules[i]) < Score(rules[k]))
  }

  lemma {:induction false} SelectedIsBest(name: Name, profile: string, rules: seq<Rule>)
    ensures var chosen := Selected(name, profile, rules);
      if chosen.None? then forall i :: 0 <= i < |rules| ==> !Matches(rules[i], name, profile)
      else exists k :: FirstBest(name, profile, rules, k) && rules[k] == chosen.value
  {
    hide Matches, Score;
    if rules != [] {
      var n := |rules| - 1;
      var front := rules[..n];
      SelectedIsBest(name, profile, front);
      assert forall i :: 0 <= i < n ==> front[i] == rules[i];
      var before := Selected(name, profile, front);
      if Matches(rules[n], name, profile) && (before.None? || Score(rules[n]) > Score(before.value)) {
        assert FirstBest(name, profile, rules, n);
      } else if before.Some? {
        var k :| FirstBest(name, profile, front, k) && front[k] == before.value;
        assert FirstBest(name, profile, rules, k);
      }
    }
  }

  method RouteFromRules(name: Name, profile: string, rules: seq<Rule>) returns (route: string, matched: bool)
    ensures matched == Selected(name, profile, rules).Some?
    ensures !matched ==> route == ""
    ensures matched ==> |Selected(name, profile, rules).value.through| > 0
    ensures matched ==> route == RouteThrough(Selected(name, profile, rules).value, profile)
  {
    hide NormalizeName, UnderSuffix;
    var selected: Option<Rule> := None;
    var best := -1;
    var condition := if profile == "local" then "internalDns" else "externalDns";
    for index := 0 to |rules|
      invariant selected == Selected(name, profile, rules[..index])
      invariant selected.Some? ==> |selected.value.through| > 0 && best == Score(selected.value)
      invariant selected.None? ==> best == -1
    {
      var rule := rules[index];
      assert rules[..index + 1][..index] == rules[..index];
      if rule.match_ == "set" || condition !in rule.conditions || |rule.through| == 0 { continue; }
      var text := NormalizeName(rule.text);
      var hit := (rule.match_ == "exact" && name == text) || (rule.match_ == "suffix" && UnderSuffix(name, text));
      if !hit { continue; }
      var score := |text|;
      if rule.match_ == "exact" { score := score + EXACT_BONUS; }
      if score > best { selected, best := Some(rule), score; }
    }
    assert rules[..|rules|] == rules;
    if selected.None? { return "", false; }
    if selected.value.through[0] == "direct" { return "direct", true; }
    if profile == "public" && selected.value.through[0] == "vusa" { return "vusa-proxy", true; }
    return "proxy", true;
  }

  /** The rule speaks about the name: for the profile's own side, with a route, by the whole text or by a suffix of
      whole labels. */
  ghost predicate Hits(r: Rule, name: Name, profile: string) {
    var text := NormalizeName(r.text);
    && (if profile == "local" then "internalDns" in r.conditions else "externalDns" in r.conditions)
    && |r.through| > 0
    && ((r.match_ == "exact" && name == text)
        || (r.match_ == "suffix" && (name == text || exists front: Name :: name == front + [46] + text)))
  }

  lemma {:induction false} HitsIff(r: Rule, name: Name, profile: string)
    ensures Matches(r, name, profile) <==> Hits(r, name, profile)
  {
    hide NormalizeName, UnderSuffix;
    UnderSuffixIff(name, NormalizeName(r.text));
  }

  /** r goes before s: an exact rule before a suffix rule, then the longer text. */
  predicate Outranks(r: Rule, s: Rule) {
    if r.match_ == s.match_ then |NormalizeName(r.text)| > |NormalizeName(s.text)| else r.match_ == "exact"
  }

  /** Rule k decides: it speaks about the name, no other that does outranks it, and it outranks every such rule
      before it. */
  ghost predicate Decides(name: Name, profile: string, rules: seq<Rule>, k: int) {
    && 0 <= k < |rules| && Hits(rules[k], name, profile)
    && (forall i :: 0 <= i < |rules| && Hits(rules[i], name, profile) ==> !Outranks(rules[i], rules[k]))
    && (forall i :: 0 <= i < k && Hits(rules[i], name, profile) ==> Outranks(rules[k], rules[i]))
  }

  lemma {:induction false} ScoresRank(r: Rule, s: Rule, name: Name, profile: string)
    requires Matches(r, name, profile) && Matches(s, name, profile)
    ensures Score(r) > Score(s) <==> Outranks(r, s)
  {
    hide NormalizeName;
    SuffixNoLonger(name, NormalizeName(r.text));
    SuffixNoLonger(name, NormalizeName(s.text));
  }

  /** What routeFromRules answers, without scores: the route of the first rule that no other outranks, direct if that
      is what the rule asks for, the separate proxy for the public profile of a rule that asks for it, the
      proxy otherwise; nothing if no rule speaks about the name. */
  lemma {:induction false} RoutedBy(name: Name, profile: string, rules: seq<Rule>)
    ensures Selected(name, profile, rules).None? <==>
      forall i :: 0 <= i < |rules| ==> !Hits(rules[i], name, profile)
    ensures forall k :: Decides(name, profile, rules, k) ==>
      && Selected(name, profile, rules) == Some(rules[k]) && |rules[k].through| > 0
      && RouteThrough(rules[k], profile) ==
           if rules[k].through[0] == "direct" then "direct"
           else if profile == "public" && rules[k].through[0] == "vusa" then "vusa-proxy" else "proxy"
    ensures Selected(name, profile, rules).Some? ==> exists k :: Decides(name, profile, rules, k)
  {
    hide Matches, Hits, Selected, Score, Outranks, NormalizeName;
    SelectedIsBest(name, profile, rules);
    forall i | 0 <= i < |rules| ensures Matches(rules[i], name, profile) <==> Hits(rules[i], name, profile) {
      HitsIff(rules[i], name, profile);
    }
    forall i, k | 0 <= i < |rules| && 0 <= k < |rules|
                  && Matches(rules[i], name, profile) && Matches(rules[k], name, profile)
      ensures Score(rules[i]) > Score(rules[k]) <==> Outranks(rules[i], rules[k])
    {
      ScoresRank(rules[i], rules[k], name, profile);
    }
    forall k | Decides(name, profile, rules, k)
      ensures Selected(name, profile, rules) == Some(rules[k]) && |rules[k].through| > 0
    {
      HasRoute(rules[k], name, profile);
      assert FirstBest(name, profile, rules, k);
      var j :| FirstBest(name, profile, rules, j) && rules[j] == Selected(name, profile, rules).value;
      assert !(j < k) && !(k < j);
    }
    if Selected(name, profile, rules).Some? {
      var j :| FirstBest(name, profile, rules, j) && rules[j] == Selected(name, profile, rules).value;
      assert Decides(name, profile, rules, j);
    }
  }

  lemma {:induction false} HasRoute(r: Rule, name: Name, profile: string)
    requires Hits(r, name, profile)
    ensures |r.through| > 0
  {
  }

  lemma {:induction false} SuffixNoLonger(name: Name, text: Name)
    requires UnderSuffix(name, text)
    ensures |text| <= |name|
  {
  }

  /** An exact rule beats every suffix rule, and among suffix rules the longest text wins. */
  lemma {:induction false} MostSpecificWins(name: Name, profile: string, rules: seq<Rule>, r: Rule)
    requires r in rules && Matches(r, name, profile)
    ensures var chosen := Selected(name, profile, rules);
      && chosen.Some? && Matches(chosen.value, name, profile)
      && (r.match_ == "exact" ==> chosen.value.match_ == "exact")
      && (chosen.value.match_ == "suffix" ==>
            r.match_ == "suffix" && |NormalizeName(r.text)| <= |NormalizeName(chosen.value.text)|)
  {
    hide Selected, NormalizeName;
    SelectedIsBest(name, profile, rules);
    var c := Selected(name, profile, rules).value;
    SuffixNoLonger(name, NormalizeName(r.text));
    SuffixNoLonger(name, NormalizeName(c.text));
  }

  /** No two applicable rules have the same kind and the same normalized text. */
  ghost predicate DistinctRules(profile: string, rules: seq<Rule>) {
    forall i, j :: 0 <= i < j < |rules| && Applicable(rules[i], profile) && Applicable(rules[j], profile)
      ==> rules[i].match_ != rules[j].match_ || NormalizeName(rules[i].text) != NormalizeName(rules[j].text)
  }

  lemma {:induction false} ScoresDiffer(name: Name, profile: string, r: Rule, s: Rule)
    requires Matches(r, name, profile) && Matches(s, name, profile) && Score(r) == Score(s)
    ensures r.match_ == s.match_ && NormalizeName(r.text) == NormalizeName(s.text)
  {
    hide NormalizeName;
    var a, b := NormalizeName(r.text), NormalizeName(s.text);
    SuffixNoLonger(name, a);
    SuffixNoLonger(name, b);
    if r.match_ == "suffix" && s.match_ == "suffix" { SameLengthSuffixes(name, a, b); }
  }

  /** The order in which distinct rules are listed does not matter. */
  lemma {:induction false} OrderOfRulesIrrelevant(name: Name, profile: string, rules: seq<Rule>, other: seq<Rule>)
    requires multiset(rules) == multiset(other) && DistinctRules(profile, rules)
    ensures Selected(name, profile, other) == Selected(name, profile, rules)
  {
    hide Selected, NormalizeName, Score;
    SelectedIsBest(name, profile, rules);
    SelectedIsBest(name, profile, other);
    SameElements(rules, other);
    var a, b := Selected(name, profile, rules), Selected(name, profile, other);
    if b.Some? {
      assert b.value in rules;
      var j :| 0 <= j < |rules| && rules[j] == b.value;
      assert Matches(rules[j], name, profile);
    }
    if a.Some? {
      assert a.value in other;
      assert b.Some?;
      assert b.value in rules;
      var i :| 0 <= i < |rules| && rules[i] == a.value;
      var j :| 0 <= j < |rules| && rules[j] == b.value;
      ScoresDiffer(name, profile, a.value, b.value);
      assert i < j || j < i || i == j;
    }
  }

  lemma {:induction false} SameElements(rules: seq<Rule>, other: seq<Rule>)
    requires multiset(rules) == multiset(other)
    ensures forall r :: r in rules <==> r in other
  {
    forall r ensures r in rules <==> r in other {
      assert r in rules <==> r in multiset(rules);
      assert r in other <==> r in multiset(other);
    }
  }

  // ---------------------------------------------------------------- static answers

  datatype StaticAnswers = StaticAnswers(exact: map<Name, seq<Address>>, exclude: set<Name>,
                                         suffix: map<Name, seq<Address>>)

  predicate SuffixCandidate(table: StaticAnswers, name: Name, s: Name) {
    s in table.suffix && UnderSuffix(name, s) && |s| > 0
  }

  /** The answer for a name: its own addresses, none if it is excluded, else those of the longest
      listed non-empty suffix, else none. */
  ghost predicate IsStaticAnswer(table: StaticAnswers, name: Name, ips: seq<Address>) {
    if name in table.exact && |table.exact[name]| > 0 then ips == table.exact[name]
    else if name in table.exclude then ips == []
    else if forall s :: !SuffixCandidate(table, name, s) then ips == []
    else exists s :: LongestSuffix(table, name, s) && ips == table.suffix[s]
  }

  ghost predicate LongestSuffix(table: StaticAnswers, name: Name, s: Name) {
    SuffixCandidate(table, name, s) && forall u :: SuffixCandidate(table, name, u) ==> |u| <= |s|
  }

  /** The suffixes are visited in an order that the source leaves open. */
  method StaticAForName(table: StaticAnswers, asked: Name) returns (ips: seq<Address>)
    ensures IsStaticAnswer(table, NormalizeName(asked), ips)
  {
    hide NormalizeName;
    var name := NormalizeName(asked);
    if name in table.exact && |table.exact[name]| > 0 { return table.exact[name]; }
    if name in table.exclude { return []; }
    var bestLen: nat := 0;
    var best: seq<Address> := [];
    ghost var chosen: Name := [];
    var rest := table.suffix.Keys;
    while rest != {}
      invariant rest <= table.suffix.Keys
      invariant forall u :: SuffixCandidate(table, name, u) && u !in rest ==> |u| <= bestLen
      invariant bestLen == 0 ==> best == []
      invariant bestLen > 0 ==> SuffixCandidate(table, name, chosen)
      invariant bestLen > 0 ==> |chosen| == bestLen && best == table.suffix[chosen]
      decreases rest
    {
      var suffix :| suffix in rest;
      if UnderSuffix(name, suffix) && |suffix| > bestLen {
        bestLen, best, chosen := |suffix|, table.suffix[suffix], suffix;
      }
      rest := rest - {suffix};
    }
    assert bestLen > 0 ==> LongestSuffix(table, name, chosen);
    return best;
  }

  /** So the answer does not depend on the iteration order of the map. */
  lemma {:induction false} StaticAnswerUnique(table: StaticAnswers, name: Name, a: seq<Address>, b: seq<Address>)
    requires IsStaticAnswer(table, name, a) && IsStaticAnswer(table, name, b)
    ensures a == b
  {
    hide UnderSuffix;
    if !(name in table.exact && |table.exact[name]| > 0) && name !in table.exclude
      && exists s :: SuffixCandidate(table, name, s)
    {
      var s :| LongestSuffix(table, name, s) && a == table.suffix[s];
      var t :| LongestSuffix(table, name, t) && b == table.suffix[t];
      SameLengthSuffixes(name, s, t);
    }
  }

  /** s is a listed text, the name is s or ends in a dot and s, and no longer listed text is one for the name. */
  predicate IsLongest(table: StaticAnswers, name: Name, s: Name, front: Name) {
    && s in table.suffix && s != [] && (name == s || name == front + [46] + s)
    && forall u :: u in table.suffix && UnderSuffix(name, u) ==> |u| <= |s|
  }

  predicate HasOwn(table: StaticAnswers, name: Name) { name in table.exact && table.exact[name] != [] }

  /** What a static answer is, case by case: the entry of the name itself, if it has addresses, even if the name is
      excluded; none for another excluded name; else the entry of the longest listed text that the name is or
      ends in behind a dot, if there is one. */
  lemma {:induction false} StaticAnswerIs(table: StaticAnswers, name: Name, ips: seq<Address>, s: Name, front: Name)
    requires IsStaticAnswer(table, name, ips)
    ensures HasOwn(table, name) ==> ips == table.exact[name]
    ensures !HasOwn(table, name) && name in table.exclude ==> ips == []
    ensures !HasOwn(table, name) && name !in table.exclude && IsLongest(table, name, s, front) ==>
      ips == table.suffix[s]
    ensures (!HasOwn(table, name) && name !in table.exclude
             && forall u :: u in table.suffix && u != [] ==> !UnderSuffix(name, u)) ==> ips == []
  {
    UnderSuffixIff(name, s);
    hide UnderSuffix;
    if SuffixCandidate(table, name, s) && (forall u :: SuffixCandidate(table, name, u) ==> |u| <= |s|) {
      assert LongestSuffix(table, name, s);
      forall t | LongestSuffix(table, name, t) ensures t == s { SameLengthSuffixes(name, s, t); }
    }
  }
}
