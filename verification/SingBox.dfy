/** configure-runtime-inbounds.sh: a sing-box configuration is stripped of everything an earlier run
    added and given the enabled lanes, the AI route and the Telegram route anew. */
module SingBox {
  import opened Wrappers

  // ---------------------------------------------------------------- the configuration

  datatype User = User(username: string, password: string)

  /** settings stands for the fields of an entry the script neither reads nor writes. */
  datatype Outbound =
    | Plain(name: Option<string>, settings: nat)
    | Selector(tag: string, members: seq<string>, first: string)

  datatype Inbound =
    | Foreign(name: Option<string>, settings: nat)
    | Http(tag: string, port: int, users: Option<seq<User>>)
    | Tproxy(tag: string, port: int)

  /** A rule's inbound field: absent, one string, or a list. */
  datatype Entry = Anywhere | One(tag: string) | AnyOf(tags: seq<string>)

  datatype Action = RouteTo(outbound: string) | Stop(verdict: nat) | GoOn(effect: nat)

  /** others are the conditions the script does not look at. */
  datatype Rule = Rule(inbound: Entry, suffixes: Option<seq<string>>, others: set<nat>, invert: bool, action: Action)

  datatype Setting = Controller(address: string) | Kept(value: nat)

  datatype Config = Config(outbounds: seq<Outbound>, inbounds: seq<Inbound>, rules: seq<Rule>,
                           experimental: Option<map<string, Setting>>, remainder: nat)

  datatype Lane = US | DE | FI | World | RU

  datatype LaneArgs = LaneArgs(enabled: bool, port: int, outbound: string)

  datatype Args = Args(telegram: bool, telegramPort: int, us: LaneArgs, de: LaneArgs, fi: LaneArgs,
                       world: LaneArgs, ru: LaneArgs, users: Option<seq<User>>, ai: bool, aiDomains: seq<string>,
                       clashApi: string)
  {
    function Of(l: Lane): LaneArgs {
      match l
      case US => us
      case DE => de
      case FI => fi
      case World => world
      case RU => ru
    }
  }

  datatype Outcome = Written(config: Config) | BadUsers | NoTelegramCandidate

  // ---------------------------------------------------------------- managed tags

  const AI_ROUTE := "ai-route"
  const TELEGRAM_ROUTE := "telegram-route"
  const TELEGRAM_IN := "telegram-tproxy"
  const LANES := [US, DE, FI, World, RU]

  function Code(l: Lane): string {
    match l
    case US => "us"
    case DE => "de"
    case FI => "fi"
    case World => "world"
    case RU => "ru"
  }

  function LanTag(l: Lane): string { "lan-" + Code(l) + "-http" }

  function WanTag(l: Lane): string { "wan-" + Code(l) + "-http" }

  predicate IsManaged(tag: string) {
    tag == TELEGRAM_IN || exists l: Lane :: tag == LanTag(l) || tag == WanTag(l)
  }

  /** The eleven tags differ: the first character tells the kind, the fifth the lane. */
  lemma {:induction false} TagsDiffer(l: Lane, m: Lane)
    ensures LanTag(l) == LanTag(m) ==> l == m
    ensures WanTag(l) == WanTag(m) ==> l == m
    ensures LanTag(l) != WanTag(m) && LanTag(l) != TELEGRAM_IN && WanTag(l) != TELEGRAM_IN
  {
    assert LanTag(l)[4] == Code(l)[0] && LanTag(m)[4] == Code(m)[0];
    assert WanTag(l)[4] == Code(l)[0] && WanTag(m)[4] == Code(m)[0];
    assert LanTag(l)[0] == 'l' && WanTag(m)[0] == 'w' && WanTag(l)[0] == 'w' && TELEGRAM_IN[0] == 't';
  }

  // ---------------------------------------------------------------- removing what an earlier run added

  function Filter<T>(keep: T -> bool, s: seq<T>): seq<T> {
    if s == [] then [] else if keep(s[0]) then [s[0]] + Filter(keep, s[1..]) else Filter(keep, s[1..])
  }

  function OutTag(o: Outbound): Option<string> {
    match o
    case Plain(name, _) => name
    case Selector(tag, _, _) => Some(tag)
  }

  function InTag(i: Inbound): Option<string> {
    match i
    case Foreign(name, _) => name
    case Http(tag, _, _) => Some(tag)
    case Tproxy(tag, _) => Some(tag)
  }

  predicate KeepOutbound(o: Outbound) { OutTag(o) != Some(AI_ROUTE) && OutTag(o) != Some(TELEGRAM_ROUTE) }

  predicate KeepInbound(i: Inbound) { InTag(i).Some? ==> !IsManaged(InTag(i).value) }

  predicate OccursIn(needle: string, text: string) {
    needle <= text || (text != [] && OccursIn(needle, text[1..]))
  }

  /** jq's index: a position in a list, but a substring of a string. */
  predicate Mentions(e: Entry, tag: string) {
    match e
    case Anywhere => false
    case One(t) => OccursIn(tag, t)
    case AnyOf(tags) => tag in tags
  }

  predicate MentionsManaged(e: Entry) {
    Mentions(e, TELEGRAM_IN) || exists l: Lane :: Mentions(e, LanTag(l)) || Mentions(e, WanTag(l))
  }

  predicate KeepRule(r: Rule) {
    !MentionsManaged(r.inbound) && r.action != RouteTo(AI_ROUTE) && r.action != RouteTo(TELEGRAM_ROUTE)
  }

  function Strip(c: Config): Config {
    c.(outbounds := Filter(KeepOutbound, c.outbounds), inbounds := Filter(KeepInbound, c.inbounds),
       rules := Filter(KeepRule, c.rules))
  }

  // ---------------------------------------------------------------- what is removed, name by name

  const MANAGED_TAGS := ["telegram-tproxy", "lan-us-http", "lan-de-http", "lan-fi-http", "lan-ru-http",
                         "wan-us-http", "wan-de-http", "wan-fi-http", "wan-ru-http", "lan-world-http",
                         "wan-world-http"]

  predicate StandsAt(text: string, name: string, i: int) {
    0 <= i <= |text| - |name| && text[i..i + |name|] == name
  }

  ghost predicate Holds(text: string, name: string) { exists i :: StandsAt(text, name, i) }

  /** A rule's inbound field names a tag: in a list as one of its elements, in a string anywhere. */
  ghost predicate Names(e: Entry, name: string) {
    (e.One? && Holds(e.tag, name)) || (e.AnyOf? && exists i :: 0 <= i < |e.tags| && e.tags[i] == name)
  }

  /** The rule has nothing to do with the script: it names none of its tags and leads to none of its selectors. */
  ghost predicate IsFree(r: Rule) {
    && (forall t :: t in MANAGED_TAGS ==> !Names(r.inbound, t))
    && r.action != RouteTo("ai-route") && r.action != RouteTo("telegram-route")
  }

  lemma {:induction false} TagsAre()
    ensures LanTag(US) == "lan-us-http" && WanTag(US) == "wan-us-http"
    ensures LanTag(DE) == "lan-de-http" && WanTag(DE) == "wan-de-http"
    ensures LanTag(FI) == "lan-fi-http" && WanTag(FI) == "wan-fi-http"
    ensures LanTag(RU) == "lan-ru-http" && WanTag(RU) == "wan-ru-http"
    ensures LanTag(World) == "lan-world-http" && WanTag(World) == "wan-world-http"
  {
  }

  lemma {:induction false} TagsInOrder()
    ensures MANAGED_TAGS == [TELEGRAM_IN, LanTag(US), LanTag(DE), LanTag(FI), LanTag(RU), WanTag(US), WanTag(DE),
                             WanTag(FI), WanTag(RU), LanTag(World), WanTag(World)]
  {
    TagsAre();
    hide LanTag, WanTag;
  }

  lemma {:induction false} EachLane(tag: string)
    ensures (exists l: Lane :: tag == LanTag(l) || tag == WanTag(l)) <==>
      tag in [LanTag(US), LanTag(DE), LanTag(FI), LanTag(RU), WanTag(US), WanTag(DE), WanTag(FI), WanTag(RU),
              LanTag(World), WanTag(World)]
  {
    hide LanTag, WanTag;
    var m := [LanTag(US), LanTag(DE), LanTag(FI), LanTag(RU), WanTag(US), WanTag(DE), WanTag(FI), WanTag(RU),
              LanTag(World), WanTag(World)];
    forall l: Lane ensures LanTag(l) in m && WanTag(l) in m {
      match l
      case US => assert m[0] == LanTag(l) && m[4] == WanTag(l);
      case DE => assert m[1] == LanTag(l) && m[5] == WanTag(l);
      case FI => assert m[2] == LanTag(l) && m[6] == WanTag(l);
      case RU => assert m[3] == LanTag(l) && m[7] == WanTag(l);
      case World => assert m[8] == LanTag(l) && m[9] == WanTag(l);
    }
  }

  /** The managed tags are those eleven. */
  lemma {:induction false} ManagedIff(tag: string)
    ensures IsManaged(tag) <==> tag in MANAGED_TAGS
  {
    TagsInOrder();
    EachLane(tag);
    hide LanTag, WanTag, MANAGED_TAGS, TELEGRAM_IN;
  }

  lemma {:induction false} StandsFirst(text: string, needle: string)
    ensures StandsAt(text, needle, 0) <==> needle <= text
  {
    if |needle| <= |text| { assert text[0..0 + |needle|] == text[..|needle|]; }
  }

  lemma {:induction false} OccursIff(needle: string, text: string)
    ensures OccursIn(needle, text) <==> Holds(text, needle)
    decreases |text|
  {
    StandsFirst(text, needle);
    if text == [] {
      assert forall i :: StandsAt(text, needle, i) ==> i == 0;
    } else {
      OccursIff(needle, text[1..]);
      forall i ensures i > 0 ==> StandsAt(text, needle, i) == StandsAt(text[1..], needle, i - 1) {
        StandsLater(text, needle, i);
      }
      hide StandsAt;
      if i :| StandsAt(text[1..], needle, i) {
        NotBefore(text[1..], needle, i);
        assert StandsAt(text, needle, i + 1);
      }
      if i :| StandsAt(text, needle, i) {
        NotBefore(text, needle, i);
        if i > 0 { assert StandsAt(text[1..], needle, i - 1); }
      }
    }
  }

  lemma {:induction false} NotBefore(text: string, needle: string, i: int)
    requires StandsAt(text, needle, i)
    ensures i >= 0
  {
  }

  lemma {:induction false} StandsLater(text: string, needle: string, i: int)
    requires text != []
    ensures i > 0 ==> StandsAt(text, needle, i) == StandsAt(text[1..], needle, i - 1)
  {
    if 0 < i <= |text| - |needle| {
      var rest, j, n := text[1..], i - 1, |needle|;
      var x, y := text[i..i + n], rest[j..j + n];
      assert forall k :: 0 <= k < n ==> x[k] == text[i + k] && y[k] == rest[j + k] && rest[j + k] == text[i + k];
      assert x == y;
    }
  }

  lemma {:induction false} MentionsIff(e: Entry, tag: string)
    ensures Mentions(e, tag) <==> Names(e, tag)
  {
    if e.One? { OccursIff(tag, e.tag); }
  }

  /** Stripping drops exactly the rules that name one of the eleven tags or lead to one of the two selectors; no
      other field of a rule matters. */
  lemma {:induction false} RuleKeptIff(r: Rule)
    ensures KeepRule(r) <==> IsFree(r)
  {
    hide Mentions, Names, LanTag, WanTag;
    forall t ensures Mentions(r.inbound, t) <==> Names(r.inbound, t) { MentionsIff(r.inbound, t); }
    forall t ensures IsManaged(t) <==> t in MANAGED_TAGS { ManagedIff(t); }
    if !MentionsManaged(r.inbound) {
      forall t | t in MANAGED_TAGS ensures !Names(r.inbound, t) { assert IsManaged(t); }
    } else {
      assert exists t :: IsManaged(t) && Mentions(r.inbound, t) by {
        if l: Lane :| Mentions(r.inbound, LanTag(l)) || Mentions(r.inbound, WanTag(l)) {
          assert IsManaged(LanTag(l)) && IsManaged(WanTag(l));
        } else {
          assert IsManaged(TELEGRAM_IN);
        }
      }
    }
  }

  /** It drops exactly the inbounds of those tags and the outbounds of those selectors. */
  lemma {:induction false} EntryKeptIff(i: Inbound, o: Outbound)
    ensures KeepInbound(i) <==> InTag(i).None? || InTag(i).value !in MANAGED_TAGS
    ensures KeepOutbound(o) <==> OutTag(o) != Some("ai-route") && OutTag(o) != Some("telegram-route")
  {
    hide IsManaged;
    if InTag(i).Some? { ManagedIff(InTag(i).value); }
  }

  /** idx lists, in order, the positions of s whose elements make up kept. */
  ghost predicate Picks<T>(idx: seq<nat>, s: seq<T>, kept: seq<T>) {
    && |idx| == |kept| && (forall k :: 0 <= k < |idx| ==> idx[k] < |s| && s[idx[k]] == kept[k])
    && forall j, k :: 0 <= j < k < |idx| ==> idx[j] < idx[k]
  }

  lemma {:induction false} FilterPicks<T>(keep: T -> bool, s: seq<T>) returns (idx: seq<nat>)
    ensures Picks(idx, s, Filter(keep, s))
    ensures forall i: nat :: i < |s| ==> (i in idx <==> keep(s[i]))
    decreases |s|
  {
    if s == [] {
      idx := [];
    } else {
      var rest := FilterPicks(keep, s[1..]);
      var later := Later(rest, s, Filter(keep, s[1..]));
      idx := if keep(s[0]) then [0] + later else later;
      hide Filter;
      forall i: nat | i < |s| ensures i in idx <==> keep(s[i]) {
        if i > 0 { assert s[i] == s[1..][i - 1]; }
      }
    }
  }

  lemma {:induction false} Later<T>(rest: seq<nat>, s: seq<T>, kept: seq<T>) returns (later: seq<nat>)
    requires s != [] && Picks(rest, s[1..], kept)
    ensures Picks(later, s, kept) && Picks([0] + later, s, [s[0]] + kept)
    ensures 0 !in later && forall i: nat :: i > 0 ==> (i in later <==> i - 1 in rest)
  {
    later := seq(|rest|, k requires 0 <= k < |rest| => rest[k] + 1);
    forall k | 0 <= k < |later| ensures later[k] < |s| && s[later[k]] == kept[k] { assert s[1..][rest[k]] == kept[k]; }
    forall i: nat | i > 0 ensures i in later <==> i - 1 in rest {
      if i - 1 in rest {
        var k :| 0 <= k < |rest| && rest[k] == i - 1;
        assert later[k] == i;
      }
    }
  }

  // ---------------------------------------------------------------- adding the routes

  predicate Before(s: string, t: string) {
    if s == [] || t == [] then s == [] && t != []
    else if s[0] == t[0] then Before(s[1..], t[1..]) else s[0] < t[0]
  }

  function InsertUnique(x: string, sorted: seq<string>): seq<string> {
    if sorted == [] || Before(x, sorted[0]) then [x] + sorted
    else if x == sorted[0] then sorted else [sorted[0]] + InsertUnique(x, sorted[1..])
  }

  /** jq's unique: sorted and without duplicates. */
  function Unique(s: seq<string>): seq<string> {
    if s == [] then [] else InsertUnique(s[0], Unique(s[1..]))
  }

  /** The non-empty strings in order of first occurrence. */
  function FirstOccurrences(s: seq<string>): seq<string> {
    if s == [] then []
    else
      var front, x := FirstOccurrences(s[..|s| - 1]), s[|s| - 1];
      if x == "" || x in front then front else front + [x]
  }

  predicate IsKnown(outbounds: seq<Outbound>, tag: string) {
    exists i :: 0 <= i < |outbounds| && OutTag(outbounds[i]) == Some(tag)
  }

  function Known(outbounds: seq<Outbound>, wanted: seq<string>): seq<string> {
    Filter(t => IsKnown(outbounds, t), wanted)
  }

  function TelegramMembers(c: Config, a: Args): seq<string> {
    Known(c.outbounds, Unique([a.de.outbound, a.us.outbound, a.fi.outbound]))
  }

  function AiMembers(c: Config, a: Args): seq<string> {
    Known(c.outbounds, FirstOccurrences([a.fi.outbound, a.de.outbound, a.us.outbound]))
  }

  function WithController(experimental: Option<map<string, Setting>>, address: string): Option<map<string, Setting>> {
    Some((if experimental.Some? then experimental.value else map[])["clash_api" := Controller(address)])
  }

  function WithSelector(c: Config, tag: string, members: seq<string>, rule: Rule, address: string): Config
    requires members != []
  {
    c.(outbounds := c.outbounds + [Selector(tag, members, members[0])],
       experimental := WithController(c.experimental, address), rules := [rule] + c.rules)
  }

  function FromInbound(tag: string, outbound: string): Rule {
    Rule(AnyOf([tag]), None, {}, false, RouteTo(outbound))
  }

  function AiRule(domains: seq<string>): Rule { Rule(Anywhere, Some(domains), {}, false, RouteTo(AI_ROUTE)) }

  function AddTelegram(c: Config, a: Args): Option<Config> {
    if !a.telegram then Some(c)
    else if TelegramMembers(c, a) == [] then None
    else
      var rule := FromInbound(TELEGRAM_IN, TELEGRAM_ROUTE);
      var d := WithSelector(c, TELEGRAM_ROUTE, TelegramMembers(c, a), rule, a.clashApi);
      Some(d.(inbounds := d.inbounds + [Tproxy(TELEGRAM_IN, a.telegramPort)]))
  }

  function AddAi(c: Config, a: Args): Config {
    if !a.ai || AiMembers(c, a) == [] then c
    else WithSelector(c, AI_ROUTE, AiMembers(c, a), AiRule(a.aiDomains), a.clashApi)
  }

  function AddLane(c: Config, l: Lane, a: Args): Config {
    var lane := a.Of(l);
    if !lane.enabled then c
    else
      c.(inbounds := c.inbounds + [Http(LanTag(l), lane.port, None), Http(WanTag(l), lane.port + 10000, a.users)],
         rules := [FromInbound(WanTag(l), lane.outbound)] + ([FromInbound(LanTag(l), lane.outbound)] + c.rules))
  }

  function AddLanes(c: Config, lanes: seq<Lane>, a: Args): Config
    decreases |lanes|
  {
    if lanes == [] then c else AddLanes(AddLane(c, lanes[0], a), lanes[1..], a)
  }

  /** The users file holds a list of users, each with a name and a password; None is a file without one. */
  predicate UsersFit(users: Option<seq<User>>) {
    && users.Some?
    && forall i :: 0 <= i < |users.value| ==> users.value[i].username != "" && users.value[i].password != ""
  }

  function Rewrite(c: Config, a: Args): Outcome {
    if !UsersFit(a.users) then BadUsers
    else
      var telegram := AddTelegram(Strip(c), a);
      if telegram.None? then NoTelegramCandidate else Written(AddLanes(AddAi(telegram.value, a), LANES, a))
  }

  // ---------------------------------------------------------------- what a configuration means

  /** A connection: the inbound it came in by, the domain patterns and the other conditions it meets. */
  datatype Conn = Conn(inbound: Option<string>, domains: set<string>, facts: set<nat>)

  datatype Decision = To(outbound: string) | Verdict(verdict: nat) | Default

  predicate Conditions(r: Rule, x: Conn) {
    && (match r.inbound
        case Anywhere => true
        case One(t) => x.inbound == Some(t)
        case AnyOf(tags) => x.inbound.Some? && x.inbound.value in tags)
    && (r.suffixes.None? || exists d :: d in r.suffixes.value && d in x.domains)
    && r.others <= x.facts
  }

  predicate Matches(r: Rule, x: Conn) { Conditions(r, x) != r.invert }

  /** First match wins; an action that is not final lets the search go on. */
  function Where(rules: seq<Rule>, x: Conn): Decision {
    if rules == [] then Default
    else if !Matches(rules[0], x) || rules[0].action.GoOn? then Where(rules[1..], x)
    else if rules[0].action.RouteTo? then To(rules[0].action.outbound) else Verdict(rules[0].action.verdict)
  }

  predicate Enters(x: Conn, l: Lane) { x.inbound == Some(LanTag(l)) || x.inbound == Some(WanTag(l)) }

  predicate AiInstalled(c: Config, a: Args) {
    a.ai && AddTelegram(Strip(c), a).Some? && AiMembers(AddTelegram(Strip(c), a).value, a) != []
  }

  // ---------------------------------------------------------------- routing is what was asked for

  lemma {:induction false} InboundRule(tag: string, outbound: string, rules: seq<Rule>, x: Conn)
    ensures Where([FromInbound(tag, outbound)] + rules, x) ==
      if x.inbound == Some(tag) then To(outbound) else Where(rules, x)
  {
    var all := [FromInbound(tag, outbound)] + rules;
    assert all[0] == FromInbound(tag, outbound) && all[1..] == rules;
  }

  lemma {:induction false} LaneRules(c: Config, l: Lane, a: Args, x: Conn)
    ensures Where(AddLane(c, l, a).rules, x) ==
      if a.Of(l).enabled && Enters(x, l) then To(a.Of(l).outbound) else Where(c.rules, x)
  {
    hide Where, LanTag, WanTag;
    var o := a.Of(l).outbound;
    InboundRule(LanTag(l), o, c.rules, x);
    InboundRule(WanTag(l), o, [FromInbound(LanTag(l), o)] + c.rules, x);
  }

  lemma {:induction false} LanesRoute(c: Config, lanes: seq<Lane>, a: Args, x: Conn)
    ensures forall l :: l in lanes && a.Of(l).enabled && Enters(x, l) ==>
      Where(AddLanes(c, lanes, a).rules, x) == To(a.Of(l).outbound)
    ensures (forall l :: l in lanes ==> !(a.Of(l).enabled && Enters(x, l))) ==>
      Where(AddLanes(c, lanes, a).rules, x) == Where(c.rules, x)
    decreases |lanes|
  {
    hide Where, AddLane, Enters;
    if lanes != [] {
      LaneRules(c, lanes[0], a, x);
      LanesRoute(AddLane(c, lanes[0], a), lanes[1..], a, x);
      forall l, m | Enters(x, l) && Enters(x, m) ensures l == m { OneLane(x, l, m); }
      assert forall l :: l in lanes <==> l == lanes[0] || l in lanes[1..];
    }
  }

  lemma {:induction false} OneLane(x: Conn, l: Lane, m: Lane)
    requires Enters(x, l) && Enters(x, m)
    ensures l == m
  {
    hide LanTag, WanTag;
    TagsDiffer(l, m);
    TagsDiffer(m, l);
  }

  /** Where a written configuration sends a connection, from the first question to the last. */
  lemma {:induction false} RewrittenRoutes(c: Config, a: Args, x: Conn)
    requires Rewrite(c, a).Written?
    ensures var rules := Rewrite(c, a).config.rules;
      && (forall l :: a.Of(l).enabled && Enters(x, l) ==> Where(rules, x) == To(a.Of(l).outbound))
      && ((forall l: Lane :: !(a.Of(l).enabled && Enters(x, l))) ==>
            Where(rules, x) ==
            if AiInstalled(c, a) && (exists d :: d in a.aiDomains && d in x.domains) then To(AI_ROUTE)
            else if a.telegram && x.inbound == Some(TELEGRAM_IN) then To(TELEGRAM_ROUTE)
            else Where(Filter(KeepRule, c.rules), x))
  {
    hide AddLanes, Where, Filter, Enters;
    var telegram := AddTelegram(Strip(c), a).value;
    var ai := AddAi(telegram, a);
    LanesRoute(ai, LANES, a, x);
    forall l: Lane ensures l in LANES { EveryLane(l); }
    AiRules(telegram.rules, a.aiDomains, x);
    InboundRule(TELEGRAM_IN, TELEGRAM_ROUTE, Strip(c).rules, x);
  }

  lemma {:induction false} EveryLane(l: Lane)
    ensures l in LANES
  {
    assert LANES[0] == US && LANES[1] == DE && LANES[2] == FI && LANES[3] == World && LANES[4] == RU;
  }

  lemma {:induction false} AiRules(rules: seq<Rule>, domains: seq<string>, x: Conn)
    ensures Where([AiRule(domains)] + rules, x) ==
      if exists d :: d in domains && d in x.domains then To(AI_ROUTE) else Where(rules, x)
  {
    var all := [AiRule(domains)] + rules;
    assert all[0] == AiRule(domains) && all[1..] == rules;
  }

  // ---------------------------------------------------------------- what stripping preserves

  predicate Decides(r: Rule, x: Conn) { Matches(r, x) && !r.action.GoOn? }

  function DecisionOf(r: Rule): Decision
    requires !r.action.GoOn?
  {
    if r.action.RouteTo? then To(r.action.outbound) else Verdict(r.action.verdict)
  }

  /** Rule i is the first that matches x with a final action. */
  ghost predicate FirstToDecide(rules: seq<Rule>, x: Conn, i: int) {
    0 <= i < |rules| && Decides(rules[i], x) && forall j :: 0 <= j < i ==> !Decides(rules[j], x)
  }

  /** Rule i decides for x, it is dropped, and the kept rules behind it decide otherwise. */
  ghost predicate Rerouted(rules: seq<Rule>, x: Conn, i: int) {
    && FirstToDecide(rules, x, i) && !KeepRule(rules[i])
    && Where(Filter(KeepRule, rules[i + 1..]), x) != DecisionOf(rules[i])
  }

  lemma {:induction false} FilterStep(rules: seq<Rule>, x: Conn)
    requires rules != []
    ensures Where(Filter(KeepRule, rules), x) ==
      if KeepRule(rules[0]) && Decides(rules[0], x) then DecisionOf(rules[0])
      else Where(Filter(KeepRule, rules[1..]), x)
    ensures Where(rules, x) == if Decides(rules[0], x) then DecisionOf(rules[0]) else Where(rules[1..], x)
  {
    hide KeepRule, Matches;
    var kept := Filter(KeepRule, rules[1..]);
    assert ([rules[0]] + kept)[1..] == kept;
  }

  lemma {:induction false} LaterRule(rules: seq<Rule>, x: Conn, i: int)
    requires rules != [] && !Decides(rules[0], x)
    ensures FirstToDecide(rules[1..], x, i) <==> i >= 0 && FirstToDecide(rules, x, i + 1)
    ensures Rerouted(rules[1..], x, i) <==> i >= 0 && Rerouted(rules, x, i + 1)
  {
    hide Decides, KeepRule, Where, Filter;
    if 0 <= i < |rules[1..]| {
      assert rules[1..][i] == rules[i + 1] && rules[1..][i + 1..] == rules[i + 2..];
      assert forall j :: 0 <= j < i ==> rules[1..][j] == rules[j + 1];
      if FirstToDecide(rules[1..], x, i) {
        forall j | 0 <= j < i + 1 ensures !Decides(rules[j], x) { if j > 0 { assert rules[1..][j - 1] == rules[j]; } }
      }
    }
  }

  /** A decision is the first decider's, and once it is dropped, the kept rules' behind it. */
  lemma {:induction false} DeciderDecides(rules: seq<Rule>, x: Conn, i: int)
    requires FirstToDecide(rules, x, i)
    ensures Where(rules, x) == DecisionOf(rules[i])
    ensures Where(Filter(KeepRule, rules), x) ==
      if KeepRule(rules[i]) then DecisionOf(rules[i]) else Where(Filter(KeepRule, rules[i + 1..]), x)
    decreases |rules|
  {
    hide Decides, KeepRule, Where, Filter;
    FilterStep(rules, x);
    if i > 0 {
      assert !Decides(rules[0], x);
      LaterRule(rules, x, i - 1);
      DeciderDecides(rules[1..], x, i - 1);
      assert rules[1..][i - 1] == rules[i] && rules[1..][i..] == rules[i + 1..];
    }
  }

  lemma {:induction false} NoDecider(rules: seq<Rule>, x: Conn)
    requires forall i :: !FirstToDecide(rules, x, i)
    ensures Where(rules, x) == Where(Filter(KeepRule, rules), x) == Default
    decreases |rules|
  {
    hide Decides, KeepRule;
    if rules != [] {
      assert !FirstToDecide(rules, x, 0);
      FilterStep(rules, x);
      forall i ensures !FirstToDecide(rules[1..], x, i) { LaterRule(rules, x, i); }
      NoDecider(rules[1..], x);
    }
  }

  /** Stripping changes where a connection goes exactly when the first rule that decides for it is
      dropped and the kept rules behind it decide otherwise. */
  lemma {:induction false} StrippedRoutesIff(rules: seq<Rule>, x: Conn)
    ensures Where(Filter(KeepRule, rules), x) == Where(rules, x) <==> !exists i :: Rerouted(rules, x, i)
  {
    hide Decides, KeepRule, Where, Filter;
    if i :| FirstToDecide(rules, x, i) {
      DeciderDecides(rules, x, i);
      forall j | Rerouted(rules, x, j) ensures j == i { assert !(i < j) && !(j < i); }
      if Where(Filter(KeepRule, rules), x) != Where(rules, x) { assert Rerouted(rules, x, i); }
    } else {
      NoDecider(rules, x);
    }
  }

  /** So a connection whose first decider is kept, or that has none, goes where the source sent it. */
  lemma {:induction false} StrippedRoutes(rules: seq<Rule>, x: Conn)
    requires forall i :: FirstToDecide(rules, x, i) ==> KeepRule(rules[i])
    ensures Where(Filter(KeepRule, rules), x) == Where(rules, x)
  {
    hide KeepRule, Where, Filter, FirstToDecide;
    StrippedRoutesIff(rules, x);
  }

  lemma {:induction false} FilterKeepsAll<T>(keep: T -> bool, s: seq<T>)
    ensures Filter(keep, s) == s <==> forall i :: 0 <= i < |s| ==> keep(s[i])
    ensures |Filter(keep, s)| <= |s|
    decreases |s|
  {
    if s != [] {
      FilterKeepsAll(keep, s[1..]);
      if keep(s[0]) { assert s == [s[0]] + s[1..]; }
      if keep(s[0]) && Filter(keep, s) == s { assert Filter(keep, s)[1..] == Filter(keep, s[1..]); }
    }
  }

  /** No enabled lane, no installed AI rule and no Telegram rule claims the connection. */
  ghost predicate Unclaimed(c: Config, a: Args, x: Conn) {
    && (forall l: Lane :: !(a.Of(l).enabled && Enters(x, l)))
    && !(AiInstalled(c, a) && exists d :: d in a.aiDomains && d in x.domains)
    && !(a.telegram && x.inbound == Some(TELEGRAM_IN))
  }

  /** Every other connection goes exactly where the source sent it, unless its first decider is dropped
      and the kept rules behind that one decide otherwise. */
  lemma {:induction false} OthersUnchangedIff(c: Config, a: Args, x: Conn)
    requires Rewrite(c, a).Written? && Unclaimed(c, a, x)
    ensures Where(Rewrite(c, a).config.rules, x) == Where(c.rules, x) <==> !exists i :: Rerouted(c.rules, x, i)
  {
    hide Rewrite, Where, Filter, KeepRule, Enters, AiInstalled, Rerouted;
    RewrittenRoutes(c, a, x);
    StrippedRoutesIff(c.rules, x);
  }

  /** The promise of the script on a source that holds none of its tags. */
  lemma {:induction false} FreeSource(c: Config, a: Args, x: Conn)
    requires Rewrite(c, a).Written? && forall i :: 0 <= i < |c.rules| ==> IsFree(c.rules[i])
    requires Unclaimed(c, a, x)
    ensures Where(Rewrite(c, a).config.rules, x) == Where(c.rules, x)
  {
    hide Rewrite, Where, Filter, KeepRule, Unclaimed, IsFree;
    forall i | 0 <= i < |c.rules| ensures KeepRule(c.rules[i]) { RuleKeptIff(c.rules[i]); }
    OthersUnchangedIff(c, a, x);
  }

  /** ... and so every connection that came in by none of its inbounds and asks for no AI domain goes where it
      went. */
  lemma {:induction false} OwnTraffic(c: Config, a: Args, x: Conn)
    requires Rewrite(c, a).Written? && forall i :: 0 <= i < |c.rules| ==> IsFree(c.rules[i])
    requires x.inbound.Some? ==> x.inbound.value !in MANAGED_TAGS
    requires forall d :: d in a.aiDomains ==> d !in x.domains
    ensures Where(Rewrite(c, a).config.rules, x) == Where(c.rules, x)
  {
    hide Rewrite, Where, IsFree, MANAGED_TAGS, LanTag, WanTag, AiInstalled;
    forall l: Lane ensures !Enters(x, l) {
      ManagedIff(LanTag(l));
      ManagedIff(WanTag(l));
    }
    ManagedIff(TELEGRAM_IN);
    FreeSource(c, a, x);
  }

  /** The traffic of each lane goes to the outbound given for that lane. */
  lemma {:induction false} LaneTraffic(c: Config, a: Args, x: Conn)
    requires Rewrite(c, a).Written? && x.inbound.Some?
    ensures var went := Where(Rewrite(c, a).config.rules, x);
      && (a.us.enabled && x.inbound.value in ["lan-us-http", "wan-us-http"] ==> went == To(a.us.outbound))
      && (a.de.enabled && x.inbound.value in ["lan-de-http", "wan-de-http"] ==> went == To(a.de.outbound))
      && (a.fi.enabled && x.inbound.value in ["lan-fi-http", "wan-fi-http"] ==> went == To(a.fi.outbound))
      && (a.ru.enabled && x.inbound.value in ["lan-ru-http", "wan-ru-http"] ==> went == To(a.ru.outbound))
      && (a.world.enabled && x.inbound.value in ["lan-world-http", "wan-world-http"] ==> went == To(a.world.outbound))
  {
    hide Rewrite, Where, AiInstalled;
    RewrittenRoutes(c, a, x);
    TagsAre();
    hide LanTag, WanTag;
    assert a.Of(US) == a.us && a.Of(DE) == a.de && a.Of(FI) == a.fi && a.Of(RU) == a.ru && a.Of(World) == a.world;
    assert x.inbound.value in ["lan-us-http", "wan-us-http"] ==> Enters(x, US);
    assert x.inbound.value in ["lan-de-http", "wan-de-http"] ==> Enters(x, DE);
    assert x.inbound.value in ["lan-fi-http", "wan-fi-http"] ==> Enters(x, FI);
    assert x.inbound.value in ["lan-ru-http", "wan-ru-http"] ==> Enters(x, RU);
    assert x.inbound.value in ["lan-world-http", "wan-world-http"] ==> Enters(x, World);
  }

  /** Whenever the first decider for a connection mentions a managed inbound, that rule is lost for the
      connection too, whatever inbound it came in by: the kept rules behind it decide. */
  lemma {:induction false} SharedRuleIsLost(c: Config, a: Args, x: Conn, i: int, tag: string)
    requires Rewrite(c, a).Written? && Unclaimed(c, a, x)
    requires FirstToDecide(c.rules, x, i) && tag in MANAGED_TAGS && Names(c.rules[i].inbound, tag)
    ensures Where(c.rules, x) == DecisionOf(c.rules[i])
    ensures Where(Rewrite(c, a).config.rules, x) == Where(Filter(KeepRule, c.rules[i + 1..]), x)
  {
    hide Rewrite, Where, Filter, KeepRule, Enters, AiInstalled, Names, MANAGED_TAGS;
    RuleKeptIff(c.rules[i]);
    hide FirstToDecide;
    RewrittenRoutes(c, a, x);
    DeciderDecides(c.rules, x, i);
  }

  /** One such source: with everything switched off, "office" loses the rule it shares with a lane. */
  lemma {:induction false} SharedRuleExample(a: Args)
    requires !a.telegram && !a.ai && UsersFit(a.users) && forall l: Lane :: !a.Of(l).enabled
    ensures var rule := Rule(AnyOf(["office", "lan-us-http"]), None, {}, false, RouteTo("de"));
      var c, x := Config([], [], [rule], None, 0), Conn(Some("office"), {}, {});
      Rewrite(c, a).Written? && Where(c.rules, x) == To("de") && Where(Rewrite(c, a).config.rules, x) == Default
  {
    hide AddLanes, Enters;
    var rule := Rule(AnyOf(["office", "lan-us-http"]), None, {}, false, RouteTo("de"));
    var c, x := Config([], [], [rule], None, 0), Conn(Some("office"), {}, {});
    assert rule.inbound.tags[1] == MANAGED_TAGS[1] == "lan-us-http";
    assert "office" in ["office", "lan-us-http"];
    SharedRuleIsLost(c, a, x, 0, "lan-us-http");
  }

  // ---------------------------------------------------------------- running it again

  lemma {:induction false} FilterAppend<T>(keep: T -> bool, s: seq<T>, t: seq<T>)
    ensures Filter(keep, s + t) == Filter(keep, s) + Filter(keep, t)
    decreases |s|
  {
    if s == [] {
      assert s + t == t;
    } else {
      FilterAppend(keep, s[1..], t);
      assert (s + t)[1..] == s[1..] + t && (s + t)[0] == s[0];
      if keep(s[0]) {
        assert [s[0]] + (Filter(keep, s[1..]) + Filter(keep, t)) == ([s[0]] + Filter(keep, s[1..])) + Filter(keep, t);
      }
    }
  }

  lemma {:induction false} FilterTwice<T>(keep: T -> bool, s: seq<T>)
    ensures Filter(keep, Filter(keep, s)) == Filter(keep, s)
    decreases |s|
  {
    if s != [] {
      FilterTwice(keep, s[1..]);
      assert ([s[0]] + Filter(keep, s[1..]))[1..] == Filter(keep, s[1..]);
    }
  }

  ghost predicate SameKept(c: Config, d: Config) {
    && Filter(KeepOutbound, c.outbounds) == Filter(KeepOutbound, d.outbounds)
    && Filter(KeepInbound, c.inbounds) == Filter(KeepInbound, d.inbounds)
    && Filter(KeepRule, c.rules) == Filter(KeepRule, d.rules)
    && c.remainder == d.remainder
  }

  lemma {:induction false} DropOne<T>(keep: T -> bool, s: seq<T>, x: T)
    requires !keep(x)
    ensures Filter(keep, s + [x]) == Filter(keep, s) == Filter(keep, [x] + s)
  {
    FilterAppend(keep, s, [x]);
    FilterAppend(keep, [x], s);
  }

  lemma {:induction false} LaneKeeps(c: Config, l: Lane, a: Args)
    ensures SameKept(AddLane(c, l, a), c)
  {
    hide Filter, LanTag, WanTag;
    var lane := a.Of(l);
    if lane.enabled {
      var lan, wan := Http(LanTag(l), lane.port, None), Http(WanTag(l), lane.port + 10000, a.users);
      DropOne(KeepInbound, c.inbounds, lan);
      DropOne(KeepInbound, c.inbounds + [lan], wan);
      assert c.inbounds + [lan, wan] == (c.inbounds + [lan]) + [wan];
      var lanRule, wanRule := FromInbound(LanTag(l), lane.outbound), FromInbound(WanTag(l), lane.outbound);
      assert Mentions(lanRule.inbound, LanTag(l)) && Mentions(wanRule.inbound, WanTag(l));
      DropOne(KeepRule, c.rules, lanRule);
      DropOne(KeepRule, [lanRule] + c.rules, wanRule);
    }
  }

  lemma {:induction false} LanesKeep(c: Config, lanes: seq<Lane>, a: Args)
    ensures SameKept(AddLanes(c, lanes, a), c) && AddLanes(c, lanes, a).experimental == c.experimental
    ensures AddLanes(c, lanes, a).outbounds == c.outbounds
    decreases |lanes|
  {
    hide SameKept;
    if lanes != [] {
      LaneKeeps(c, lanes[0], a);
      LanesKeep(AddLane(c, lanes[0], a), lanes[1..], a);
      Chain(AddLanes(c, lanes, a), AddLane(c, lanes[0], a), c);
    } else { Chain(c, c, c); }
  }

  lemma {:induction false} Chain(b: Config, c: Config, d: Config)
    ensures SameKept(c, c)
    ensures SameKept(b, c) && SameKept(c, d) ==> SameKept(b, d)
  {
    hide Filter;
  }

  lemma {:induction false} SelectorKeeps(c: Config, tag: string, members: seq<string>, rule: Rule, address: string)
    requires members != [] && (tag == AI_ROUTE || tag == TELEGRAM_ROUTE) && rule.action == RouteTo(tag)
    ensures SameKept(WithSelector(c, tag, members, rule, address), c)
  {
    hide Filter;
    DropOne(KeepOutbound, c.outbounds, Selector(tag, members, members[0]));
    DropOne(KeepRule, c.rules, rule);
  }

  lemma {:induction false} StripKeeps(c: Config)
    ensures SameKept(Strip(c), c)
  {
    hide Filter;
    FilterTwice(KeepOutbound, c.outbounds);
    FilterTwice(KeepInbound, c.inbounds);
    FilterTwice(KeepRule, c.rules);
  }

  lemma {:induction false} TelegramKeeps(c: Config, a: Args)
    requires AddTelegram(c, a).Some?
    ensures SameKept(AddTelegram(c, a).value, c)
  {
    hide Filter;
    if a.telegram {
      SelectorKeeps(c, TELEGRAM_ROUTE, TelegramMembers(c, a), FromInbound(TELEGRAM_IN, TELEGRAM_ROUTE), a.clashApi);
      DropOne(KeepInbound, c.inbounds, Tproxy(TELEGRAM_IN, a.telegramPort));
    }
  }

  lemma {:induction false} RewriteKeeps(c: Config, a: Args)
    requires Rewrite(c, a).Written?
    ensures SameKept(Rewrite(c, a).config, c)
  {
    hide SameKept, AddTelegram, WithSelector;
    var stripped := Strip(c);
    var telegram := AddTelegram(stripped, a).value;
    var ai := AddAi(telegram, a);
    StripKeeps(c);
    TelegramKeeps(stripped, a);
    if ai != telegram { SelectorKeeps(telegram, AI_ROUTE, AiMembers(telegram, a), AiRule(a.aiDomains), a.clashApi); }
    LanesKeep(ai, LANES, a);
    Chain(telegram, stripped, c);
    Chain(ai, telegram, c);
    Chain(Rewrite(c, a).config, ai, c);
    Chain(c, c, c);
  }

  /** Reconfiguring leaves no trace of the earlier arguments but the experimental block. */
  lemma {:induction false} Reconfigured(c: Config, a: Args, b: Args)
    requires Rewrite(c, a).Written?
    ensures var d := Rewrite(c, a).config; Rewrite(d, b) == Rewrite(c.(experimental := d.experimental), b)
  {
    RewriteKeeps(c, a);
    hide Filter, AddTelegram, AddAi, AddLanes;
    var d := Rewrite(c, a).config;
    assert Strip(d) == Strip(c.(experimental := d.experimental));
  }

  lemma {:induction false} ExperimentalOf(c: Config, a: Args)
    requires Rewrite(c, a).Written?
    ensures var d := Rewrite(c, a).config;
      d.experimental ==
        if a.telegram || AiInstalled(c, a)
        then Some((if c.experimental.Some? then c.experimental.value else map[])["clash_api" := Controller(a.clashApi)])
        else c.experimental
  {
    hide Filter, AddLanes, TelegramMembers, AiMembers;
    LanesKeep(AddAi(AddTelegram(Strip(c), a).value, a), LANES, a);
    var e := WithController(c.experimental, a.clashApi);
    assert WithController(e, a.clashApi).value == e.value;
  }

  /** The experimental block does not reach the other parts. */
  lemma {:induction false} OnlyExperimental(c: Config, e: Option<map<string, Setting>>, a: Args)
    ensures Rewrite(c.(experimental := e), a).Written? <==> Rewrite(c, a).Written?
    ensures AiInstalled(c.(experimental := e), a) == AiInstalled(c, a)
    ensures Rewrite(c, a).Written? ==>
      Rewrite(c.(experimental := e), a).config.(experimental := None) == Rewrite(c, a).config.(experimental := None)
  {
    hide Filter, AddLanes;
    var f := c.(experimental := e);
    if AddTelegram(Strip(c), a).Some? {
      LanesOnly(AddAi(AddTelegram(Strip(c), a).value, a), AddAi(AddTelegram(Strip(f), a).value, a), LANES, a);
    }
  }

  lemma {:induction false} LanesOnly(c: Config, d: Config, lanes: seq<Lane>, a: Args)
    requires c.(experimental := None) == d.(experimental := None)
    ensures AddLanes(c, lanes, a).(experimental := None) == AddLanes(d, lanes, a).(experimental := None)
    decreases |lanes|
  {
    if lanes != [] { LanesOnly(AddLane(c, lanes[0], a), AddLane(d, lanes[0], a), lanes[1..], a); }
  }

  /** Rewriting twice with the same arguments equals rewriting once, for every source. */
  lemma {:induction false} Idempotent(c: Config, a: Args)
    requires Rewrite(c, a).Written?
    ensures Rewrite(Rewrite(c, a).config, a) == Rewrite(c, a)
  {
    hide Rewrite, AiInstalled;
    var d := Rewrite(c, a).config;
    Reconfigured(c, a, a);
    OnlyExperimental(c, d.experimental, a);
    ExperimentalOf(c, a);
    ExperimentalOf(c.(experimental := d.experimental), a);
    var e := WithController(c.experimental, a.clashApi);
    assert WithController(e, a.clashApi).value == e.value;
    assert Rewrite(d, a).config.experimental == d.experimental;
  }

  // ---------------------------------------------------------------- the selectors, the tags, the failure

  lemma {:induction false} FilterMembers<T>(keep: T -> bool, s: seq<T>, x: T)
    ensures x in Filter(keep, s) <==> x in s && keep(x)
    decreases |s|
  {
    if s != [] {
      FilterMembers(keep, s[1..], x);
      assert x in s <==> x == s[0] || x in s[1..];
    }
  }

  lemma {:induction false} UniqueMembers(s: seq<string>, x: string)
    ensures x in Unique(s) <==> x in s
    decreases |s|
  {
    if s != [] {
      UniqueMembers(s[1..], x);
      InsertMembers(s[0], Unique(s[1..]), x);
    }
  }

  lemma {:induction false} InsertMembers(y: string, sorted: seq<string>, x: string)
    ensures x in InsertUnique(y, sorted) <==> x == y || x in sorted
    decreases |sorted|
  {
    hide Before;
    if sorted != [] {
      InsertMembers(y, sorted[1..], x);
      assert x in sorted <==> x == sorted[0] || x in sorted[1..];
    }
  }

  lemma {:induction false} FirstOccurrencesMembers(s: seq<string>, x: string)
    ensures x in FirstOccurrences(s) <==> x in s && x != ""
    decreases |s|
  {
    if s != [] {
      FirstOccurrencesMembers(s[..|s| - 1], x);
      FirstOccurrencesMembers(s[..|s| - 1], s[|s| - 1]);
      assert x in s <==> x == s[|s| - 1] || x in s[..|s| - 1];
    }
  }

  /** The script fails exactly when there is no list of users or one of them is incomplete, or when
      Telegram is wanted and no lane outbound is left once the script's own selectors are gone. */
  lemma {:induction false} FailsIff(c: Config, a: Args)
    ensures Rewrite(c, a) == BadUsers <==>
      a.users.None? || exists u :: u in a.users.value && (u.username == "" || u.password == "")
    ensures Rewrite(c, a) == NoTelegramCandidate <==>
      Rewrite(c, a) != BadUsers && a.telegram
      && forall l :: l in [DE, US, FI] ==> !IsKnown(Filter(KeepOutbound, c.outbounds), a.Of(l).outbound)
  {
    hide Filter, Unique, AddLanes, IsKnown;
    var outs := Filter(KeepOutbound, c.outbounds);
    var wanted := [a.de.outbound, a.us.outbound, a.fi.outbound];
    var keep := t => IsKnown(outs, t);
    assert TelegramMembers(Strip(c), a) == Known(outs, Unique(wanted));
    forall t ensures t in Known(outs, Unique(wanted)) <==> t in wanted && IsKnown(outs, t) {
      KnownMembers(outs, Unique(wanted), t);
      UniqueMembers(wanted, t);
    }
    if Known(outs, Unique(wanted)) != [] {
      assert Known(outs, Unique(wanted))[0] in wanted;
    }
    assert a.Of(DE).outbound in wanted && a.Of(US).outbound in wanted && a.Of(FI).outbound in wanted;
  }

  lemma {:induction false} KnownMembers(outbounds: seq<Outbound>, wanted: seq<string>, x: string)
    ensures x in Known(outbounds, wanted) <==> x in wanted && IsKnown(outbounds, x)
  {
    FilterMembers(t => IsKnown(outbounds, t), wanted, x);
  }

  /** A selector's members are lane outbounds that stand before it, and its default is one of them. */
  ghost predicate SoundSelector(outbounds: seq<Outbound>, i: nat, a: Args, tag: string)
  {
    && i < |outbounds| && outbounds[i].Selector? && outbounds[i].tag == tag
    && outbounds[i].members != [] && outbounds[i].first == outbounds[i].members[0]
    && forall t :: t in outbounds[i].members ==>
         t in [a.de.outbound, a.us.outbound, a.fi.outbound] && IsKnown(outbounds[..i], t)
  }

  lemma {:induction false} SoundMembers(c: Config, a: Args, t: string)
    ensures t in TelegramMembers(c, a) ==> t in [a.de.outbound, a.us.outbound, a.fi.outbound] && IsKnown(c.outbounds, t)
    ensures t in AiMembers(c, a) ==> t in [a.de.outbound, a.us.outbound, a.fi.outbound] && IsKnown(c.outbounds, t)
  {
    hide IsKnown, Unique, FirstOccurrences, Known;
    var wanted, ai := [a.de.outbound, a.us.outbound, a.fi.outbound], [a.fi.outbound, a.de.outbound, a.us.outbound];
    UniqueMembers(wanted, t);
    FirstOccurrencesMembers(ai, t);
    KnownMembers(c.outbounds, Unique(wanted), t);
    KnownMembers(c.outbounds, FirstOccurrences(ai), t);
  }

  /** The outbounds written are the source's own, then the selectors that were asked for and can be
      had. No selector can name itself or a later one, so following the tags always ends. */
  lemma {:induction false} OutboundsWritten(c: Config, a: Args)
    requires Rewrite(c, a).Written?
    ensures var kept, outs := Filter(KeepOutbound, c.outbounds), Rewrite(c, a).config.outbounds;
      var n := |kept| + if a.telegram then 1 else 0;
      && kept <= outs && |outs| == n + (if AiInstalled(c, a) then 1 else 0)
      && (a.telegram ==> SoundSelector(outs, |kept|, a, TELEGRAM_ROUTE))
      && (AiInstalled(c, a) ==> SoundSelector(outs, n, a, AI_ROUTE))
  {
    hide Filter, AddLanes, IsKnown, TelegramMembers, AiMembers;
    var stripped := Strip(c);
    var telegram := AddTelegram(stripped, a).value;
    var ai := AddAi(telegram, a);
    LanesKeep(ai, LANES, a);
    forall t ensures t in TelegramMembers(stripped, a) ==>
      t in [a.de.outbound, a.us.outbound, a.fi.outbound] && IsKnown(stripped.outbounds, t)
    {
      SoundMembers(stripped, a, t);
    }
    forall t ensures t in AiMembers(telegram, a) ==>
      t in [a.de.outbound, a.us.outbound, a.fi.outbound] && IsKnown(telegram.outbounds, t)
    {
      SoundMembers(telegram, a, t);
    }
    assert ai.outbounds[..|stripped.outbounds|] == stripped.outbounds;
    assert ai.outbounds[..|telegram.outbounds|] == telegram.outbounds;
  }

  lemma {:induction false} BeforeOrder(s: string, t: string, u: string)
    ensures Before(s, t) && Before(t, u) ==> Before(s, u)
    ensures s == t || Before(s, t) || Before(t, s)
    decreases |s|
  {
    if s != [] && t != [] && s[0] == t[0] {
      BeforeOrder(s[1..], t[1..], if u == [] then [] else u[1..]);
      assert s[1..] == t[1..] ==> s == t;
    }
  }

  ghost predicate IsLeast(x: string, s: seq<string>) { forall t :: t in s ==> t == x || Before(x, t) }

  ghost predicate Ascending(s: seq<string>) { s == [] || (IsLeast(s[0], s) && Ascending(s[1..])) }

  lemma {:induction false} InsertAscending(x: string, sorted: seq<string>)
    requires Ascending(sorted)
    ensures Ascending(InsertUnique(x, sorted))
    decreases |sorted|
  {
    hide Before;
    if sorted != [] {
      var y := sorted[0];
      BeforeOrder(x, y, x);
      InsertAscending(x, sorted[1..]);
      forall t ensures t in sorted <==> t == y || t in sorted[1..] { }
      if Before(x, y) {
        forall t | t in sorted ensures Before(x, t) { BeforeOrder(x, y, t); }
        assert ([x] + sorted)[1..] == sorted;
      } else if x != y {
        forall t ensures t in InsertUnique(x, sorted[1..]) <==> t == x || t in sorted[1..] {
          InsertMembers(x, sorted[1..], t);
        }
        assert InsertUnique(x, sorted)[1..] == InsertUnique(x, sorted[1..]);
      }
    }
  }

  lemma {:induction false} UniqueAscending(s: seq<string>)
    ensures Ascending(Unique(s))
    decreases |s|
  {
    hide InsertUnique;
    if s != [] {
      UniqueAscending(s[1..]);
      InsertAscending(s[0], Unique(s[1..]));
    }
  }

  lemma {:induction false} FirstKept(keep: string -> bool, s: seq<string>)
    requires Ascending(s) && Filter(keep, s) != []
    ensures IsLeast(Filter(keep, s)[0], Filter(keep, s))
    decreases |s|
  {
    hide Before;
    forall t ensures t in Filter(keep, s) <==> t in s && keep(t) { FilterMembers(keep, s, t); }
    if !keep(s[0]) {
      FirstKept(keep, s[1..]);
      assert Filter(keep, s) == Filter(keep, s[1..]);
    } else {
      assert Filter(keep, s)[0] == s[0];
    }
  }

  predicate Usable(c: Config, t: string) { t != "" && IsKnown(c.outbounds, t) }

  /** Which exit each selector starts with: Telegram the first tag in string order, AI the first
      usable one of Finland, Germany and the United States. */
  lemma {:induction false} DefaultExits(c: Config, a: Args)
    ensures TelegramMembers(c, a) != [] ==> IsLeast(TelegramMembers(c, a)[0], TelegramMembers(c, a))
    ensures AiMembers(c, a) != [] ==>
      AiMembers(c, a)[0] == if Usable(c, a.fi.outbound) then a.fi.outbound
                            else if Usable(c, a.de.outbound) then a.de.outbound else a.us.outbound
  {
    hide IsKnown, IsLeast, Unique;
    var keep := t => IsKnown(c.outbounds, t);
    var wanted := [a.de.outbound, a.us.outbound, a.fi.outbound];
    UniqueAscending(wanted);
    if TelegramMembers(c, a) != [] { FirstKept(keep, Unique(wanted)); }
    var x, y, z := a.fi.outbound, a.de.outbound, a.us.outbound;
    FirstOfThree(x, y, z);
    FilterThree(keep, if x == "" then [] else [x], if y == "" || y == x then [] else [y],
                if z == "" || z == x || z == y then [] else [z]);
  }

  lemma {:induction false} FilterThree<T>(keep: T -> bool, x: seq<T>, y: seq<T>, z: seq<T>)
    requires |x| <= 1 && |y| <= 1 && |z| <= 1
    ensures Filter(keep, x + y + z) ==
      (if x != [] && keep(x[0]) then x else []) + (if y != [] && keep(y[0]) then y else [])
      + (if z != [] && keep(z[0]) then z else [])
  {
    hide Filter;
    FilterAppend(keep, x + y, z);
    FilterAppend(keep, x, y);
    FilterOne(keep, x);
    FilterOne(keep, y);
    FilterOne(keep, z);
  }

  lemma {:induction false} FilterOne<T>(keep: T -> bool, x: seq<T>)
    requires |x| <= 1
    ensures Filter(keep, x) == if x != [] && keep(x[0]) then x else []
  {
  }

  /** FirstOccurrences of three strings, case by case. */
  lemma {:induction false} FirstOfThree(x: string, y: string, z: string)
    ensures FirstOccurrences([x, y, z]) ==
      (if x == "" then [] else [x]) + (if y == "" || y == x then [] else [y])
      + (if z == "" || z == x || z == y then [] else [z])
  {
    assert [x, y, z][..2] == [x, y] && [x, y][..1] == [x] && [x][..0] == [];
    assert FirstOccurrences([x]) == if x == "" then [] else [x];
  }

  ghost predicate DistinctTags(inbounds: seq<Inbound>) {
    forall i, j :: 0 <= i < j < |inbounds| && InTag(inbounds[i]).Some? ==> InTag(inbounds[i]) != InTag(inbounds[j])
  }

  ghost predicate Unused(inbounds: seq<Inbound>, tag: string) {
    forall i :: 0 <= i < |inbounds| ==> InTag(inbounds[i]) != Some(tag)
  }

  ghost predicate LanesUnused(inbounds: seq<Inbound>, lanes: seq<Lane>) {
    && (forall l :: l in lanes ==> Unused(inbounds, LanTag(l)) && Unused(inbounds, WanTag(l)))
    && forall i, j :: 0 <= i < j < |lanes| ==> lanes[i] != lanes[j]
  }

  lemma {:induction false} LaneInbounds(c: Config, lanes: seq<Lane>, a: Args)
    requires lanes != [] && DistinctTags(c.inbounds) && LanesUnused(c.inbounds, lanes)
    ensures DistinctTags(AddLane(c, lanes[0], a).inbounds) && LanesUnused(AddLane(c, lanes[0], a).inbounds, lanes[1..])
  {
    hide LanTag, WanTag;
    var l := lanes[0];
    TagsDiffer(l, l);
    assert l in lanes;
    forall m | m in lanes[1..] ensures m in lanes && LanTag(m) != LanTag(l) && WanTag(m) != WanTag(l)
      && LanTag(m) != WanTag(l) && WanTag(m) != LanTag(l) { TagsDiffer(l, m); TagsDiffer(m, l); }
  }

  lemma {:induction false} LanesDistinct(c: Config, lanes: seq<Lane>, a: Args)
    requires DistinctTags(c.inbounds) && LanesUnused(c.inbounds, lanes)
    ensures DistinctTags(AddLanes(c, lanes, a).inbounds)
    decreases |lanes|
  {
    hide AddLane, DistinctTags, LanesUnused;
    if lanes != [] {
      LaneInbounds(c, lanes, a);
      LanesDistinct(AddLane(c, lanes[0], a), lanes[1..], a);
    }
  }

  lemma {:induction false} StrippedUnused(inbounds: seq<Inbound>, tag: string)
    requires IsManaged(tag)
    ensures Unused(Filter(KeepInbound, inbounds), tag)
  {
    hide Filter, IsManaged;
    var kept := Filter(KeepInbound, inbounds);
    forall i | 0 <= i < |kept| ensures InTag(kept[i]) != Some(tag) { FilterMembers(KeepInbound, inbounds, kept[i]); }
  }

  /** sing-box refuses two inbounds of one tag: when the source's own tags differ, all written tags
      differ, whatever an earlier run left in the source. */
  lemma {:induction false} TagsStayDistinct(c: Config, a: Args)
    requires Rewrite(c, a).Written? && DistinctTags(Filter(KeepInbound, c.inbounds))
    ensures DistinctTags(Rewrite(c, a).config.inbounds)
  {
    hide Filter, AddLanes, TelegramMembers, AiMembers, LanTag, WanTag;
    var stripped := Strip(c);
    var ai := AddAi(AddTelegram(stripped, a).value, a);
    StrippedUnused(c.inbounds, TELEGRAM_IN);
    forall l: Lane ensures Unused(ai.inbounds, LanTag(l)) && Unused(ai.inbounds, WanTag(l)) {
      assert IsManaged(LanTag(l)) && IsManaged(WanTag(l));
      StrippedUnused(c.inbounds, LanTag(l));
      StrippedUnused(c.inbounds, WanTag(l));
      TagsDiffer(l, l);
    }
    LanesDistinct(ai, LANES, a);
  }

  /** What the enabled ones of the lanes add: a listener on the lane's port, and one 10000 higher that
      asks for the users. */
  function LaneListeners(lanes: seq<Lane>, a: Args): seq<Inbound>
    decreases |lanes|
  {
    if lanes == [] then [] else
    var lane := a.Of(lanes[0]);
    (if lane.enabled
     then [Http(LanTag(lanes[0]), lane.port, None), Http(WanTag(lanes[0]), lane.port + 10000, a.users)] else [])
    + LaneListeners(lanes[1..], a)
  }

  lemma {:induction false} LaneInboundsWritten(c: Config, lanes: seq<Lane>, a: Args)
    ensures AddLanes(c, lanes, a).inbounds == c.inbounds + LaneListeners(lanes, a)
    decreases |lanes|
  {
    hide LanTag, WanTag;
    if lanes != [] { LaneInboundsWritten(AddLane(c, lanes[0], a), lanes[1..], a); }
  }

  /** The inbounds written are the source's own in their order, then the Telegram listener if wanted, then
      the listeners of the enabled lanes; what the script does not touch is as it was. */
  lemma {:induction false} InboundsWritten(c: Config, a: Args)
    requires Rewrite(c, a).Written?
    ensures Rewrite(c, a).config.inbounds == Filter(KeepInbound, c.inbounds)
      + (if a.telegram then [Tproxy(TELEGRAM_IN, a.telegramPort)] else []) + LaneListeners(LANES, a)
    ensures Rewrite(c, a).config.remainder == c.remainder
  {
    RewriteKeeps(c, a);
    hide Filter, AddLanes, AddTelegram, AddAi, LaneListeners, KeepOutbound, KeepRule;
    var telegram := AddTelegram(Strip(c), a).value;
    BeforeLanes(c, a);
    LaneInboundsWritten(AddAi(telegram, a), LANES, a);
  }

  lemma {:induction false} BeforeLanes(c: Config, a: Args)
    requires AddTelegram(Strip(c), a).Some?
    ensures AddAi(AddTelegram(Strip(c), a).value, a).inbounds ==
      Filter(KeepInbound, c.inbounds) + if a.telegram then [Tproxy(TELEGRAM_IN, a.telegramPort)] else []
  {
    hide Filter, TelegramMembers, AiMembers;
    assert Filter(KeepInbound, c.inbounds) + [] == Filter(KeepInbound, c.inbounds);
  }
}
