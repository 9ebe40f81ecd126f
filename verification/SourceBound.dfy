/** The byte bound of the source, 64 MiB, reached by cache keys and replies as the resolver makes them: caches
    of the sizes that the source is configured with can lose hits that a smaller one keeps. */
module SourceBound {
  import opened Bytes
  import opened Wrappers
  import opened Names
  import opened ReplyTtl
  import opened ResponseCache
  import opened DnsCodec
  import opened DnsRoundTrip
  import opened CacheKey
  import opened LruTheory
  import opened ByteBound

  const DIRECT: Name := [100, 105, 114, 101, 99, 116]
  const REPLY_ADDRESSES: nat := 508
  const ITEMS: nat := 8192

  function Addresses(n: nat): (r: seq<Option<Address>>)
    ensures |r| == n
  {
    if n == 0 then [] else [Some([10, 0, 0, 1])] + Addresses(n - 1)
  }

  lemma {:induction false} AllParsable(n: nat)
    ensures |Parsable(Addresses(n))| == n
  {
    if n > 0 {
      AllParsable(n - 1);
      assert Addresses(n)[1..] == Addresses(n - 1);
    }
  }

  function Letters(n: nat): (r: Name)
    ensures |r| == n && forall i :: 0 <= i < n ==> r[i] == 97
  {
    seq(n, i => 97)
  }

  /** Eleven letters, and the number i in three more. */
  function Host(i: nat): Name
    requires i < 10000
  {
    Letters(11) + [97 + i / 24 / 24, 97 + i / 24 % 24, 97 + i % 24]
  }

  /** A name of one label of small letters. */
  predicate OneWord(name: Name) {
    1 <= |name| <= 63 && forall i :: 0 <= i < |name| ==> 97 <= name[i] <= 122
  }

  lemma {:induction false} SplitWord(name: Name)
    requires forall i :: 0 <= i < |name| ==> name[i] != DOT
    ensures Split(name) == [name]
  {
    if name != [] {
      SplitWord(name[1..]);
      assert [name[0]] + name[1..] == name;
    }
  }

  lemma {:induction false} WordIsHostname(name: Name)
    requires OneWord(name)
    ensures Hostname(name) && |QueryFor(name)| == 18 + |name|
  {
    NormalizedIff(name);
    SplitWord(name);
    assert ShortLabels([name]);
    HostnameLabels(name);
    QueryParts(name);
    LabelLength(name);
    assert EncodeLabels([name]) == EncodeLabel(name) + EncodeLabels([]);
  }

  /** What the resolver caches for a name asked for over a public listener and answered directly: here with
      508 addresses, for a minute. */
  function ItemFor(name: Name): Item {
    var query := QueryFor(name);
    Item(DnsCacheKey(PUBLIC, DIRECT, name, 1, 1),
         AResponse(query, Question(name, 1, 1, |query|), Addresses(REPLY_ADDRESSES), 60))
  }

  lemma {:induction false} ItemOf(name: Name)
    requires OneWord(name) && |name| <= 46
    ensures Storable(ItemFor(name).reply)
    ensures ItemSize(ItemFor(name)) == 8164 + 2 * |name|
  {
    hide ResponseTtls, QueryFor, DnsCacheKey, Hostname;
    WordIsHostname(name);
    ReplyOf(name);
    KeyLength(name);
  }

  lemma {:induction false} ReplyOf(name: Name)
    requires Hostname(name)
    ensures var query, r := QueryFor(name), ItemFor(name).reply;
      |r| == |query| + 16 * REPLY_ADDRESSES && ResponseTtls(r).Some? && ResponseTtls(r).value.min == 60
  {
    hide AResponse, ResponseTtls, QuestionOf, AnswersOf, QueryFor, Hostname, Addresses, DnsCacheKey, HasAnswers;
    AllParsable(REPLY_ADDRESSES);
    var query, ips := QueryFor(name), Addresses(REPLY_ADDRESSES);
    var q := Question(name, 1, 1, |query|);
    ClientServerRoundTrip(name, ips, 60, 0);
    ReplyRoundTrip(query, q, ips, 60, 0);
    ReplyParts(query, q, ips, 60);
    AnswersLength(AResponse(query, q, ips, 60), |query|, Parsable(ips), 60);
  }

  lemma {:induction false} AnswersLength(m: seq<Byte>, base: nat, addresses: seq<Address>, t: nat)
    requires HasAnswers(m, base, addresses, t)
    ensures |m| == base + 16 * |addresses|
  {
  }

  lemma {:induction false} KeyLength(name: Name)
    ensures |DnsCacheKey(PUBLIC, DIRECT, name, 1, 1)| == 18 + |name|
  {
    assert |Decimal(1)| == 1;
    assert NormalizeProfile(PUBLIC) == PUBLIC by { assert |Lower(PUBLIC)| == 6; }
  }

  lemma {:induction false} HostIsWord(i: nat)
    requires i < 10000
    ensures OneWord(Host(i)) && |Host(i)| == 14
  {
  }

  lemma {:induction false} HostsDiffer(i: nat, j: nat)
    requires i < 10000 && j < 10000 && Host(i) == Host(j)
    ensures i == j
  {
    var a, b := Host(i), Host(j);
    assert a[11] == b[11] && a[12] == b[12] && a[13] == b[13];
    assert i / 24 == 24 * (i / 24 / 24) + i / 24 % 24 && j / 24 == 24 * (j / 24 / 24) + j / 24 % 24;
  }

  lemma {:induction false} KeyOfName(m: Name, n: Name)
    requires DnsCacheKey(PUBLIC, DIRECT, m, 1, 1) == DnsCacheKey(PUBLIC, DIRECT, n, 1, 1)
    ensures m == n
  {
    KeysDiffer(PUBLIC, DIRECT, m, 1, 1, PUBLIC, DIRECT, n, 1, 1);
  }

  /** Hosts 0 to n - 1, as they are cached. */
  function HostItems(n: nat): (r: seq<Item>)
    requires n <= 10000
    ensures |r| == n && forall i :: 0 <= i < n ==> r[i] == ItemFor(Host(i))
  {
    seq(n, i requires 0 <= i < n => ItemFor(Host(i)))
  }

  lemma {:induction false} HostsUniform(n: nat)
    requires n <= 10000
    ensures Uniform(HostItems(n), 8192)
  {
    hide Host, Storable, DnsCacheKey, AResponse, QueryFor, OneWord;
    var items := HostItems(n);
    forall i | 0 <= i < n ensures Storable(items[i].reply) && ItemSize(items[i]) == 8192 {
      HostIsWord(i);
      ItemOf(Host(i));
    }
    forall i, j | 0 <= i < j < n ensures items[i].key != items[j].key {
      if items[i].key == items[j].key {
        KeyOfName(Host(i), Host(j));
        HostsDiffer(i, j);
      }
    }
  }

  /** At the source's bound: after 8192 questions, the oldest of them again and one new one, the cache of 8191
      entries still answers a question that every cache of more than 8192 entries has lost. */
  lemma {:induction false} ConfiguredCacheLosesHit(large: int, query: seq<Byte>, now: int)
    requires large > ITEMS && |query| >= 2
    ensures var items := HostItems(ITEMS);
      var ops := Refill(items, ItemFor(Letters(15)), query, now);
      var lost := DnsCacheKey(PUBLIC, DIRECT, Host(ITEMS - 3), 1, 1);
      var s, l := Run(Empty(ITEMS - 1, MAX_BYTES, 0), ops), Run(Empty(large, MAX_BYTES, 0), ops);
      lost in s.entries && lost !in l.entries && Get(l, lost, query, now).1 == None
  {
    hide HostItems, Run, Refill, Storable, DnsCacheKey, AResponse, QueryFor, Host;
    ItemOf(Letters(15));
    var items, y := HostItems(ITEMS), ItemFor(Letters(15));
    HostsUniform(ITEMS);
    forall i | 0 <= i < ITEMS ensures items[i].key != y.key {
      HostIsWord(i);
      assert items[i] == ItemFor(Host(i));
      if items[i].key == y.key { KeyOfName(Host(i), Letters(15)); }
    }
    assert Crowding(items, y, 8192, MAX_BYTES);
    LargerLosesHit(items, y, 8192, large, MAX_BYTES, query, now);
  }
}
