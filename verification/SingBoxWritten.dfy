/** What configure-runtime-inbounds.sh writes, list by list and name by name. */
module SingBoxWritten {
  import opened Wrappers
  import opened SingBox

  // ---------------------------------------------------------------- the lists written, name by name

  /** The two rules of a lane, its public listener first. */
  function LaneRulesOf(lan: string, wan: string, lane: LaneArgs): seq<Rule> {
    if !lane.enabled then []
    else [Rule(AnyOf([wan]), None, {}, false, RouteTo(lane.outbound)),
          Rule(AnyOf([lan]), None, {}, false, RouteTo(lane.outbound))]
  }

  /** The two listeners of a lane: its port for the home network, one 10000 higher for the others, with the users. */
  function ListenersOf(lan: string, wan: string, lane: LaneArgs, users: Option<seq<User>>): seq<Inbound> {
    if !lane.enabled then [] else [Http(lan, lane.port, None), Http(wan, lane.port + 10000, users)]
  }

  lemma {:induction false} OneLaneWritten(c: Config, l: Lane, a: Args)
    ensures AddLane(c, l, a).rules == LaneRulesOf(LanTag(l), WanTag(l), a.Of(l)) + c.rules
    ensures AddLane(c, l, a).inbounds == c.inbounds + ListenersOf(LanTag(l), WanTag(l), a.Of(l), a.users)
  {
    hide LanTag, WanTag;
  }

  lemma {:induction false} LanesWritten(c: Config, a: Args)
    ensures AddLanes(c, LANES, a).rules ==
      LaneRulesOf("lan-ru-http", "wan-ru-http", a.ru) + LaneRulesOf("lan-world-http", "wan-world-http", a.world)
      + LaneRulesOf("lan-fi-http", "wan-fi-http", a.fi) + LaneRulesOf("lan-de-http", "wan-de-http", a.de)
      + LaneRulesOf("lan-us-http", "wan-us-http", a.us) + c.rules
    ensures AddLanes(c, LANES, a).inbounds == c.inbounds
      + ListenersOf("lan-us-http", "wan-us-http", a.us, a.users)
      + ListenersOf("lan-de-http", "wan-de-http", a.de, a.users)
      + ListenersOf("lan-fi-http", "wan-fi-http", a.fi, a.users)
      + ListenersOf("lan-world-http", "wan-world-http", a.world, a.users)
      + ListenersOf("lan-ru-http", "wan-ru-http", a.ru, a.users)
  {
    TagsAre();
    hide AddLane, LanTag, WanTag, LaneRulesOf, ListenersOf;
    var c1 := AddLane(c, US, a);
    var c2 := AddLane(c1, DE, a);
    var c3 := AddLane(c2, FI, a);
    var c4 := AddLane(c3, World, a);
    var c5 := AddLane(c4, RU, a);
    OneLaneWritten(c, US, a);
    OneLaneWritten(c1, DE, a);
    OneLaneWritten(c2, FI, a);
    OneLaneWritten(c3, World, a);
    OneLaneWritten(c4, RU, a);
    FiveLanes(c, a);
  }

  lemma {:induction false} FiveLanes(c: Config, a: Args)
    ensures AddLanes(c, LANES, a)
      == AddLane(AddLane(AddLane(AddLane(AddLane(c, US, a), DE, a), FI, a), World, a), RU, a)
  {
    hide AddLane;
    assert LANES[1..] == [DE, FI, World, RU] && LANES[1..][1..] == [FI, World, RU];
    assert [FI, World, RU][1..] == [World, RU] && [World, RU][1..] == [RU] && [RU][1..] == [];
    var d := AddLane(AddLane(c, US, a), DE, a);
    var e := AddLane(AddLane(d, FI, a), World, a);
    assert AddLanes(c, LANES, a) == AddLanes(d, [FI, World, RU], a);
    assert AddLanes(d, [FI, World, RU], a) == AddLanes(e, [RU], a) == AddLane(e, RU, a);
  }

  /** The rules written, every one: two per enabled lane, the AI rule if that selector could be had, the Telegram
      rule if wanted, and then exactly the free rules of the source in their order. */
  lemma {:induction false} RulesWritten(c: Config, a: Args) returns (kept: seq<Rule>, idx: seq<nat>)
    requires Rewrite(c, a).Written?
    ensures Picks(idx, c.rules, kept) && forall i: nat :: i < |c.rules| ==> (i in idx <==> IsFree(c.rules[i]))
    ensures Rewrite(c, a).config.rules ==
      LaneRulesOf("lan-ru-http", "wan-ru-http", a.ru) + LaneRulesOf("lan-world-http", "wan-world-http", a.world)
      + LaneRulesOf("lan-fi-http", "wan-fi-http", a.fi) + LaneRulesOf("lan-de-http", "wan-de-http", a.de)
      + LaneRulesOf("lan-us-http", "wan-us-http", a.us)
      + (if AiInstalled(c, a) then [Rule(Anywhere, Some(a.aiDomains), {}, false, RouteTo("ai-route"))] else [])
      + (if a.telegram then [Rule(AnyOf(["telegram-tproxy"]), None, {}, false, RouteTo("telegram-route"))] else [])
      + kept
  {
    hide IsFree, KeepRule, Filter, AddLanes, LaneRulesOf, TelegramMembers, AiMembers;
    kept := Filter(KeepRule, c.rules);
    idx := FilterPicks(KeepRule, c.rules);
    forall i: nat | i < |c.rules| ensures i in idx <==> IsFree(c.rules[i]) { RuleKeptIff(c.rules[i]); }
    LanesWritten(AddAi(AddTelegram(Strip(c), a).value, a), a);
  }

  /** The listeners written, every one, after exactly the inbounds of the source that have no managed tag. */
  lemma {:induction false} ListenersWritten(c: Config, a: Args) returns (kept: seq<Inbound>, idx: seq<nat>)
    requires Rewrite(c, a).Written?
    ensures Picks(idx, c.inbounds, kept)
    ensures forall i: nat :: i < |c.inbounds| ==>
      (i in idx <==> InTag(c.inbounds[i]).None? || InTag(c.inbounds[i]).value !in MANAGED_TAGS)
    ensures Rewrite(c, a).config.inbounds == kept
      + (if a.telegram then [Tproxy("telegram-tproxy", a.telegramPort)] else [])
      + ListenersOf("lan-us-http", "wan-us-http", a.us, a.users)
      + ListenersOf("lan-de-http", "wan-de-http", a.de, a.users)
      + ListenersOf("lan-fi-http", "wan-fi-http", a.fi, a.users)
      + ListenersOf("lan-world-http", "wan-world-http", a.world, a.users)
      + ListenersOf("lan-ru-http", "wan-ru-http", a.ru, a.users)
  {
    hide KeepInbound, Filter, AddLanes, ListenersOf, TelegramMembers, AiMembers, MANAGED_TAGS;
    kept := Filter(KeepInbound, c.inbounds);
    idx := FilterPicks(KeepInbound, c.inbounds);
    forall i: nat | i < |c.inbounds|
      ensures i in idx <==> InTag(c.inbounds[i]).None? || InTag(c.inbounds[i]).value !in MANAGED_TAGS
    {
      EntryKeptIff(c.inbounds[i], Plain(None, 0));
    }
    BeforeLanes(c, a);
    LanesWritten(AddAi(AddTelegram(Strip(c), a).value, a), a);
  }

  /** The order of jq's unique: by the first character that differs, a prefix first. */
  lemma {:induction false} BeforeIff(s: string, t: string)
    ensures Before(s, t) <==> (s < t || exists i :: DifferAt(s, t, i) && s[i] < t[i])
    decreases |s|
  {
    if s != [] && t != [] {
      if s[0] == t[0] {
        BeforeIff(s[1..], t[1..]);
        forall i ensures i > 0 ==> DifferAt(s, t, i) == DifferAt(s[1..], t[1..], i - 1) { DifferLater(s, t, i); }
        assert !DifferAt(s, t, 0);
        if i :| DifferAt(s[1..], t[1..], i) && s[1..][i] < t[1..][i] { assert DifferAt(s, t, i + 1); }
        assert s < t <==> s[1..] < t[1..] by {
          if s[1..] < t[1..] { assert s == [s[0]] + s[1..] && t == [t[0]] + t[1..]; }
        }
      } else {
        assert DifferAt(s, t, 0);
        forall i | DifferAt(s, t, i) ensures i == 0 { SameFirst(s, t, i); }
      }
    }
  }

  predicate DifferAt(s: string, t: string, i: int) {
    0 <= i < |s| && i < |t| && s[..i] == t[..i] && s[i] != t[i]
  }

  lemma {:induction false} SameFirst(s: string, t: string, i: int)
    requires DifferAt(s, t, i)
    ensures i > 0 ==> s[0] == t[0]
  {
    if i > 0 { assert s[..i][0] == t[..i][0]; }
  }

  lemma {:induction false} DifferLater(s: string, t: string, i: int)
    requires s != [] && t != [] && s[0] == t[0]
    ensures i > 0 ==> DifferAt(s, t, i) == DifferAt(s[1..], t[1..], i - 1)
  {
    if 0 < i < |s| && i < |t| {
      assert s[..i] == [s[0]] + s[1..][..i - 1] && t[..i] == [t[0]] + t[1..][..i - 1];
      if s[..i] == t[..i] { assert s[..i][1..] == t[..i][1..]; }
    }
  }

  ghost predicate Sorted(s: seq<string>) { forall j, k :: 0 <= j < k < |s| ==> Before(s[j], s[k]) }

  lemma {:induction false} InsertSorted(x: string, sorted: seq<string>)
    requires Sorted(sorted)
    ensures Sorted(InsertUnique(x, sorted))
    decreases |sorted|
  {
    hide Before;
    if sorted == [] || Before(x, sorted[0]) {
      forall k | 0 <= k < |sorted| ensures Before(x, sorted[k]) { BeforeOrder(x, sorted[0], sorted[k]); }
    } else if x != sorted[0] {
      var y, rest := sorted[0], InsertUnique(x, sorted[1..]);
      BeforeOrder(x, y, x);
      InsertSorted(x, sorted[1..]);
      forall k | 0 <= k < |rest| ensures Before(y, rest[k]) {
        InsertMembers(x, sorted[1..], rest[k]);
        assert rest[k] in rest;
      }
    }
  }

  lemma {:induction false} UniqueSorted(s: seq<string>)
    ensures Sorted(Unique(s))
    decreases |s|
  {
    hide InsertUnique, Before;
    if s != [] {
      UniqueSorted(s[1..]);
      InsertSorted(s[0], Unique(s[1..]));
    }
  }

  lemma {:induction false} FilterSorted(keep: string -> bool, s: seq<string>)
    requires Sorted(s)
    ensures Sorted(Filter(keep, s))
  {
    hide Before, Filter;
    var idx := FilterPicks(keep, s);
    var kept := Filter(keep, s);
    forall j, k | 0 <= j < k < |kept| ensures Before(kept[j], kept[k]) { assert s[idx[j]] == kept[j]; }
  }

  /** An outbound of the source with this tag that stripping keeps. */
  ghost predicate IsOwn(c: Config, tag: string) {
    tag != "ai-route" && tag != "telegram-route"
    && exists i :: 0 <= i < |c.outbounds| && OutTag(c.outbounds[i]) == Some(tag)
  }

  lemma {:induction false} OwnIff(c: Config, tag: string)
    ensures IsKnown(Strip(c).outbounds, tag) <==> IsOwn(c, tag)
  {
    hide Filter;
    var kept := Filter(KeepOutbound, c.outbounds);
    forall o ensures o in kept <==> o in c.outbounds && KeepOutbound(o) { FilterMembers(KeepOutbound, c.outbounds, o); }
    if i :| 0 <= i < |kept| && OutTag(kept[i]) == Some(tag) { assert kept[i] in c.outbounds; }
    if i :| 0 <= i < |c.outbounds| && OutTag(c.outbounds[i]) == Some(tag) {
      assert c.outbounds[i] in c.outbounds;
      if KeepOutbound(c.outbounds[i]) { assert c.outbounds[i] in kept; }
    }
  }

  /** A tag that AI traffic may use: of the source, or the Telegram selector. */
  ghost predicate IsUsable(c: Config, a: Args, tag: string) {
    tag != "" && (IsOwn(c, tag) || (a.telegram && tag == "telegram-route"))
  }

  /** The selectors are complete: the Telegram one holds exactly the outbounds of Germany, the United States and
      Finland that the source has, in string order and each once; the AI one those of Finland, Germany
      and the United States that can be used, in that order and each once; it is installed exactly if there is one. */
  lemma {:induction false} SelectorsWritten(c: Config, a: Args)
    requires Rewrite(c, a).Written?
    ensures var kept, outs := Filter(KeepOutbound, c.outbounds), Rewrite(c, a).config.outbounds;
      var telegram := TelegramMembers(Strip(c), a);
      var fi, de, us := a.fi.outbound, a.de.outbound, a.us.outbound;
      var ai := (if IsUsable(c, a, fi) then [fi] else [])
        + (if IsUsable(c, a, de) && de != fi then [de] else [])
        + (if IsUsable(c, a, us) && us != fi && us != de then [us] else []);
      && (AiInstalled(c, a) <==> a.ai && ai != [])
      && outs == kept
           + (if a.telegram then [Selector("telegram-route", telegram, telegram[0])] else [])
           + (if AiInstalled(c, a) then [Selector("ai-route", ai, ai[0])] else [])
    ensures a.telegram ==> Sorted(TelegramMembers(Strip(c), a))
    ensures forall t :: t in TelegramMembers(Strip(c), a) <==>
      t in [a.de.outbound, a.us.outbound, a.fi.outbound] && IsOwn(c, t)
  {
    hide Filter, AddLanes, Before, IsOwn;
    var stripped := Strip(c);
    var telegram := AddTelegram(stripped, a).value;
    LanesKeep(AddAi(telegram, a), LANES, a);
    TelegramMembersAre(c, a);
    AiMembersAre(c, a);
    hide TelegramMembers, AiMembers, IsUsable;
  }

  lemma {:induction false} TelegramMembersAre(c: Config, a: Args)
    ensures Sorted(TelegramMembers(Strip(c), a))
    ensures forall t :: t in TelegramMembers(Strip(c), a) <==>
      t in [a.de.outbound, a.us.outbound, a.fi.outbound] && IsOwn(c, t)
  {
    hide Filter, Before, Unique, IsOwn, Strip, IsKnown;
    var wanted := [a.de.outbound, a.us.outbound, a.fi.outbound];
    UniqueSorted(wanted);
    FilterSorted(t => IsKnown(Strip(c).outbounds, t), Unique(wanted));
    forall t ensures t in TelegramMembers(Strip(c), a) <==> t in wanted && IsOwn(c, t) {
      KnownMembers(Strip(c).outbounds, Unique(wanted), t);
      UniqueMembers(wanted, t);
      OwnIff(c, t);
    }
  }

  lemma {:induction false} AiMembersAre(c: Config, a: Args)
    requires AddTelegram(Strip(c), a).Some?
    ensures var fi, de, us := a.fi.outbound, a.de.outbound, a.us.outbound;
      AiMembers(AddTelegram(Strip(c), a).value, a) == (if IsUsable(c, a, fi) then [fi] else [])
        + (if IsUsable(c, a, de) && de != fi then [de] else [])
        + (if IsUsable(c, a, us) && us != fi && us != de then [us] else [])
  {
    hide Filter, IsOwn, Strip, IsKnown, FirstOccurrences;
    var outs := AddTelegram(Strip(c), a).value.outbounds;
    var fi, de, us := a.fi.outbound, a.de.outbound, a.us.outbound;
    forall t | t != "" ensures IsKnown(outs, t) <==> IsUsable(c, a, t) { UsableIff(c, a, t); }
    FirstOfThree(fi, de, us);
    FilterThree(t => IsKnown(outs, t), if fi == "" then [] else [fi], if de == "" || de == fi then [] else [de],
                if us == "" || us == fi || us == de then [] else [us]);
  }

  lemma {:induction false} UsableIff(c: Config, a: Args, t: string)
    requires AddTelegram(Strip(c), a).Some? && t != ""
    ensures IsKnown(AddTelegram(Strip(c), a).value.outbounds, t) <==> IsUsable(c, a, t)
  {
    hide TelegramMembers, Strip, IsOwn;
    var before, outs := Strip(c).outbounds, AddTelegram(Strip(c), a).value.outbounds;
    OwnIff(c, t);
    if i :| 0 <= i < |before| && OutTag(before[i]) == Some(t) { assert outs[i] == before[i]; }
    if a.telegram { assert OutTag(outs[|before|]) == Some(TELEGRAM_ROUTE); }
  }
}
