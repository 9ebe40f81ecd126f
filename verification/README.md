# Transparent smart edge: verified model

This project models the parts of the transparent smart edge that are hardest to get right and proves,
for every input and every run, what they promise:

- **The DNS response cache** (`ReplyTtl`, `ReplyWire`, `CacheKey`, `ResponseCache`, `CacheObject`, `LruTheory`,
  `ByteBound`, `SourceBound`, `CacheSnapshot`, `Flights`, `CachedLookup`): an LRU map with a bound on entries and one on
  bytes, the wire parser that finds the TTL fields of a reply, the ageing of those fields in place, snapshots
  over a restart, and the sharing of one upstream lookup among concurrent callers, with the epoch that a
  policy change advances.
- **DNS on the wire** (`WireFormat`, `DotStream`, `DotQueries`, `DnsCodec`, `CodecWire`, `DnsRoundTrip`, `Names`): the
  DNS-over-TLS decoder that accepts bare and length-prefixed messages on one stream, the question parser and
  the A-response writer of the resolver, and the query writer and answer reader of its client. `WireFormat`
  writes messages from their fields as section 4.1 of RFC 1035 lays them out; what the parsers and writers
  do is stated against it.
- **Policy** (`Routing`, `AllowList`): the rule router, the static answers, and the edge allow-list with
  its cleanup loop.
- **The SNI edge** (`UpstreamHealth`, `Failover`, `ClientHello`, `HelloEncoder`, `HelloInverse`): upstream quarantine
  with capped exponential growth, the failover search under one deadline, and the reading of the server
  name from a TLS ClientHello that arrives in arbitrary pieces.
- **sing-box configuration** (`SingBox`, `SingBoxWritten`): the rewriting that strips what an earlier run added
  and prepends the lane, AI and Telegram rules, against the first-match meaning of a rule list.

`Bytes`, `Numbers` and `Wrappers` hold octets, big-endian integers, the smaller of two numbers and the option
type.

Code that updates state is modelled as classes and methods, each proved equal to a function on values;
the lemmas are about those functions. A critical section of a mutex is one atomic step. `time.Now()` is a
parameter. Map iteration is an arbitrary choice at each step. What an upstream, a dial or a read does is
arbitrary. Numbers are unbounded, except where the source's width matters: octets, the 16- and 32-bit
fields of messages, and the unsigned 32-bit number of elapsed seconds, which are written out.

`dafny verify dfyconfig.toml` verifies everything.

## Where the code and its documentation differ

- `transparent-smart-edge/README.md:42` says that responses from earlier policy generations cannot refill
  the cache. `fetchFresh` checks the epoch and stores the reply in two separate critical sections
  (`transparent-smart-edge/smartdns/cache.go:174-179`). `Flights.StaleRefill` is a run in which an
  old reply does get in; `Flights.FreshIff` says that this needs a clear exactly between the two sections,
  and that without one every stored reply belongs to the current epoch at every point of every run.
- The comments at `transparent-smart-edge/smartdns/main.go:1460` and `:1621` say that RFC 7858 has no length
  prefix. Section 3.3 of RFC 7858 requires the two-octet length of section 4.2.2 of RFC 1035. The
  code accepts both forms, and the model follows it. A bare message cut into reads can be refused:
  `DotStream.DeliveredIff` and `DotStream.BarePrefixVerdict` give the exact places,
  `DotStream.HeaderFirstIsRefused` and `DotStream.OneLabelQuery` a case that a client can meet.
- `transparent-smart-edge/smartedge/main.go:28-34` calls `CONNECT_TOTAL_TIMEOUT` a deadline for the whole
  search. Each attempt uses the budget read before its dial for all three of its waits, so a search can
  end later. `Failover.EndsInTimeIff` says exactly when it cannot: with n candidates, when the total is at
  least n times two connect timeouts and a handshake wait. At the defaults (20 s, 3 s, 10 s) that is one
  candidate. `Failover.SearchBound` is the true bound and `Failover.SearchBoundIsReached` shows that no
  smaller one holds for all numbers of candidates.
- A domain posted for a permanent address is never served by `/edge-map`, because its end time is stored as
  zero (`AllowList.PostedDomainServedIff`), although cleanups keep the entry.
- A reply is uncacheable if every answer has a TTL of 2^32 - 1, because `responseTTLs` uses that value for "no
  TTL found". `ReplyTtl.KeptIff` says exactly which replies can be kept.
- More room in the cache does not always keep more: once the byte bound is reached, a larger cache can lose a
  hit that a smaller one keeps. `SourceBound.ConfiguredCacheLosesHit` is such a run at the source's 64 MiB, for
  every cache of more than 8192 entries; `ByteBound.ConfiguredRoomKeepsHits` gives configurations in which
  it cannot happen.
- A quarantine is documented to grow up to a cap. An initial length configured above the cap is kept as it is
  (`UpstreamHealth.LongerThanMaxIff`).
- A rule of the source that shares its inbound list with a managed tag is dropped for all its inbounds.
  `SingBox.OthersUnchangedIff` says exactly which connections then go elsewhere.
- `buildQuery` of the client writes labels longer than a label may be; `DnsRoundTrip.QueryRoundTripIff` says
  that `parseQuestion` then never gives back the question.
- `TELEGRAM_OUTBOUND`, the fifth argument of `configure-runtime-inbounds.sh`, is required and never used.

## Model

| member | source | states |
|---|---|---|
| DotStream.SkipDNSNameLabels | transparent-smart-edge/smartdns/main.go:1561-1592 | the loop computes the recursive walk of a name: complete with its end and label count, cut, or invalid; a buffer that ends on a label boundary is invalid, not cut |
| DotStream.DnsMessageLen | transparent-smart-edge/smartdns/main.go:1498-1556 | the two loops compute the verdict on the first message of a buffer: its end, more octets needed, or never a query; which buffers get which verdict is said by DotQueries.MessageIff and DotQueries.RefusedIff |
| DotStream.NextFrame | transparent-smart-edge/smartdns/main.go:1467-1491 | what is emitted and what is left are the buffer's own octets in their order, behind a two-octet length when the frame is length-prefixed; so every emission shrinks the buffer |
| DotStream.Connection.constructor | transparent-smart-edge/smartdns/main.go:1614 | a connection starts with an empty buffer and nothing emitted |
| DotStream.Connection.Read | transparent-smart-edge/smartdns/main.go:1616-1656 | one read takes the connection to the state the stream semantics gives: all complete queries emitted in order, the rest kept, or the connection closed |
| DotStream.MessageStable | transparent-smart-edge/smartdns/main.go:1498-1556 | a complete message is found with the same end whatever octets follow it |
| DotStream.PrefixFree | transparent-smart-edge/smartdns/main.go:1498-1556 | no complete message is a proper prefix of another |
| DotStream.FramedIsNeverBare | transparent-smart-edge/smartdns/main.go:1473-1477 | no buffer that starts with, or is a start of, a length-prefixed message parses as a bare one, since its ANCOUNT is the inner QDCOUNT |
| DotStream.BareIsNeverFramed | transparent-smart-edge/smartdns/main.go:1478-1485 | no part of a bare message parses as the inside of a length-prefixed one |
| DotStream.CutMessage | transparent-smart-edge/smartdns/main.go:1561-1566 | a proper prefix of a message is refused exactly when it holds the header and ends where a name or a later label of one starts; all others are taken as incomplete |
| DotStream.BarePrefixVerdict | transparent-smart-edge/smartdns/main.go:1467-1491 | for every proper prefix of a bare message, exactly when the decoder waits and when it refuses, including transaction IDs that look like a length |
| DotStream.FramedPrefixVerdict | transparent-smart-edge/smartdns/main.go:1467-1491 | on every proper prefix of a length-prefixed message of at most 4096 octets the decoder waits |
| DotStream.FrontMessage | transparent-smart-edge/smartdns/main.go:1467-1491 | a message at the front of a buffer comes out whole, with its own kind, and leaves exactly what follows |
| DotStream.EmitsIff | transparent-smart-edge/smartdns/main.go:1467-1491 | a query is emitted with a given kind and rest if and only if it is a complete message and the buffer is its encoding, of at most 4096 octets when length-prefixed, followed by that rest |
| DotStream.DrainPrefix | transparent-smart-edge/smartdns/main.go:1625-1634 | draining any prefix of any mixed stream emits exactly the messages complete in it, keeps the unfinished octets, and refuses exactly at the named places |
| DotStream.RunStream | transparent-smart-edge/smartdns/main.go:1614-1656 | the exact state of the connection after any reads of any well-formed stream |
| DotStream.NeverAWrongQuery | transparent-smart-edge/smartdns/main.go:1614-1656 | for every mix of bare and length-prefixed messages and every cutting into reads, the queries emitted are a prefix of those sent |
| DotStream.DeliveredIff | transparent-smart-edge/smartdns/main.go:1614-1656 | a fully delivered stream is emitted in full with nothing left if and only if no read ends at one of the refused places |
| DotStream.FramedStreams | transparent-smart-edge/smartdns/main.go:1614-1656 | length-prefixed streams are never refused, and each message is emitted by the read that completes it |
| DotStream.WholeStream | transparent-smart-edge/smartdns/main.go:1467-1491 | iterating the decoder over a complete concatenation returns the original messages and their kinds |
| DotStream.HeaderFirstIsRefused | transparent-smart-edge/smartdns/main.go:1561-1566 | a bare message read header first is refused, unless its ID looks like a length |
| DotStream.OneLabelQuery | transparent-smart-edge/smartdns/main.go:1498-1556 | a concrete bare query that HeaderFirstIsRefused applies to |
| DotQueries.QueryAccepted | transparent-smart-edge/smartdns/main.go:1498-1556 | every query, written from its fields alone (1 to 16 questions of any type and class but zero, up to 16 additional records of any kind, names of up to 128 labels that may end in a pointer), is a complete message, whatever follows it |
| DotQueries.MessageIff | transparent-smart-edge/smartdns/main.go:1498-1556 | a buffer is one complete message if and only if it is the encoding of such a query |
| DotQueries.WellFormedIff | transparent-smart-edge/smartdns/main.go:1467-1491 | the messages of the stream theorems are exactly these encodings, of at most 4096 octets behind a length |
| DotQueries.FrameIff | transparent-smart-edge/smartdns/main.go:1467-1491 | a buffer gives a query of either kind, and the rest, if and only if it starts with the encoding of one |
| DotQueries.RefusedIff | transparent-smart-edge/smartdns/main.go:1498-1592 | exactly what is never a query: a header with other counts, a type or class of zero, an octet that starts no label, a 129th label, a first name without a label, or a buffer that ends where a name or a label would start; all else waits for more octets |
| DotQueries.RejectIff | transparent-smart-edge/smartdns/main.go:1467-1491 | exactly when the connection is closed: no query at the front, and a plausible length whose octets are all there and are no query, or no such length and nothing that can become a query |
| ReplyTtl.SkipDNSName | transparent-smart-edge/smartdns/cache.go:263-283 | the loop computes the recursive walk of a name, with pointers, and its failures |
| ReplyTtl.ResponseTTLs | transparent-smart-edge/smartdns/cache.go:203-261 | the loops compute the TTL offsets and the lifetime of a reply as functions of its list of records, and fail exactly when that parse does; what these are in the fields of a reply is said by ReplyWire.LifetimeIff and ReplyWire.HitIsAged |
| ReplyTtl.LifetimeIsLeast | transparent-smart-edge/smartdns/cache.go:226-259 | the lifetime is at most what every record allows, and equal to what one of them allows |
| ReplyTtl.PositiveLifetime | transparent-smart-edge/smartdns/cache.go:240-244 | a reply with answers lives as long as the least TTL of its answers, OPT records left out |
| ReplyTtl.NegativeLifetime | transparent-smart-edge/smartdns/cache.go:245-253 | section 5 of RFC 2308: a reply without answers needs a SOA record in its authority section and lives for the smaller of that record's TTL and MINIMUM |
| ReplyTtl.KeptIff | transparent-smart-edge/smartdns/cache.go:203-261 | for every message with a header: it can be kept if and only if its response code is 0 or 3, its records parse, and, with answers, one other than OPT has a TTL other than 2^32-1, without, its authority section has a SOA record of at least 20 octets whose TTL or MINIMUM is another |
| ReplyTtl.RecordsInside | transparent-smart-edge/smartdns/cache.go:226-256 | records lie inside the message, in order and without overlap |
| ReplyTtl.AgeInPlace | transparent-smart-edge/smartdns/cache.go:104-114 | the loop that overwrites TTL octets yields the aged reply |
| ReplyTtl.AgedFields | transparent-smart-edge/smartdns/cache.go:107-114 | each TTL field becomes max(0, original - elapsed) and every octet outside the fields stays |
| ReplyTtl.DataIsNotAged | transparent-smart-edge/smartdns/cache.go:107-114 | no TTL field reaches into record data, so the MINIMUM of a SOA record is never aged |
| ReplyTtl.RecordsAged | transparent-smart-edge/smartdns/cache.go:203-261 | the aged reply parses into the same records with aged TTLs |
| ReplyTtl.HitChangesOnlyTtls | transparent-smart-edge/smartdns/cache.go:104-115 | a hit changes the ID and pairwise disjoint TTL fields after the header, nothing else |
| ReplyTtl.HitParsesAgain | transparent-smart-edge/smartdns/cache.go:104-115 | the aged reply has the same TTL offsets; with answers its lifetime is exactly the stored one less the elapsed time and at least 1, without answers it lies between that and the stored one |
| ReplyWire.MessageParsed | transparent-smart-edge/smartdns/cache.go:203-261 | of every message, whatever follows it, the walk finds exactly its records, with their type, TTL and length |
| ReplyWire.LifetimeIff | transparent-smart-edge/smartdns/cache.go:203-261 | a reply gets lifetime n if and only if its code is 0 or 3 and n is the least TTL of its answers, OPT apart, or without answers the least TTL or MINIMUM of the SOA records in its authority section |
| ReplyWire.NegativeLivesFor | transparent-smart-edge/smartdns/cache.go:245-253 | a name error or empty answer with one SOA record lives for the smaller of its TTL and its MINIMUM |
| ReplyWire.HitIsAged | transparent-smart-edge/smartdns/cache.go:84-116 | a hit is the encoding of the stored message under the query's ID with every TTL lowered by the elapsed seconds, OPT apart, followed by what followed it |
| ReplyWire.StorableIff | transparent-smart-edge/smartdns/cache.go:57-62 | put stores octets if and only if there are at most 8192 of them and they start with a message whose fields let it live a second or more |
| ReplyWire.ServedOnAnyClock | transparent-smart-edge/smartdns/cache.go:56-116 | on every clock, after put at t of a message that lives n seconds and fits, get answers before t + n seconds with the message aged by the unsigned elapsed count, and with nothing from then on |
| ReplyWire.ServedUntil | transparent-smart-edge/smartdns/cache.go:56-116 | for every reading later than a second before t, that count is the whole seconds since t, zero before t |
| CacheKey.KeysDiffer | transparent-smart-edge/smartdns/cache.go:51-54 | two questions share a key if and only if both or neither come from the local profile, in either case of letters, and they agree in route, name, type and class, whatever octets their names hold |
| CacheKey.ProfileIff | transparent-smart-edge/smartdns/main.go:749-754 | the profile is "local" exactly for that text in any mix of cases, and "public" otherwise |
| ResponseCache.DropKeeps | transparent-smart-edge/smartdns/cache.go:95-99 | removing an expired entry keeps the accounting and the shape of the recency list |
| ResponseCache.EvictKeeps | transparent-smart-edge/smartdns/cache.go:119-129 | evicting keeps the invariant, removes the last listed entry and shortens the list by one |
| ResponseCache.OverBoundHasOldest | transparent-smart-edge/smartdns/cache.go:78-80 | over the byte bound there is an entry to evict, so the loop of put ends |
| ResponseCache.EvictWhileOverKeeps | transparent-smart-edge/smartdns/cache.go:78-80 | the loop of put restores the byte bound and does nothing when it holds |
| ResponseCache.PutKeeps | transparent-smart-edge/smartdns/cache.go:57-81 | put keeps: usedBytes is the sum of reply and key lengths, the list is a duplicate-free permutation of the keys, both bounds hold |
| ResponseCache.GetKeeps | transparent-smart-edge/smartdns/cache.go:84-116 | get keeps the same invariant and never raises the bytes held |
| ResponseCache.RunKeeps | transparent-smart-edge/smartdns/cache.go:56-129 | the invariant and both bounds hold after every run of put, get and clear |
| ResponseCache.PutStores | transparent-smart-edge/smartdns/cache.go:57-81 | a storable reply is held and most recent after put, unless it alone is over the byte bound, which empties the cache |
| ResponseCache.FirstSurvives | transparent-smart-edge/smartdns/cache.go:78-80 | the eviction loop stops before the newest entry unless that one does not fit |
| ResponseCache.ElapsedBeforeExpiry | transparent-smart-edge/smartdns/cache.go:106 | before the expiry the unsigned elapsed count is the whole seconds since storing and less than the lifetime |
| ResponseCache.ElapsedOfAnOlderClock | transparent-smart-edge/smartdns/cache.go:106 | on a clock k whole seconds behind the moment of storing the unsigned elapsed count is -k modulo 2^32 |
| ResponseCache.ElapsedIsWholeIff | transparent-smart-edge/smartdns/cache.go:106 | for readings less than 2^32 seconds apart the count is the whole seconds since storing if and only if the reading is less than a second older than the entry |
| ResponseCache.OldClockAnswersZero | transparent-smart-edge/smartdns/cache.go:84-116 | a query on a clock a second to 2^31 seconds behind hits, and each TTL of its answer that was at most 2^31 is zero |
| ResponseCache.HitIsFresh | transparent-smart-edge/smartdns/cache.go:84-116 | on every clock: a hit comes before the expiry, differs from the stored reply in ID and aged TTLs only, and parses again with the same fields; on a clock less than a second behind the count is the whole seconds since storing, and with answers the lifetime is the stored one less those |
| CacheObject.DnsCache.constructor | transparent-smart-edge/smartdns/cache.go:44-49 | a new cache is empty and valid, with 10000 entries when the bound given is not positive, and 64 MiB |
| CacheObject.DnsCache.EvictOne | transparent-smart-edge/smartdns/cache.go:119-129 | the method drops the oldest entry and its bytes and keeps the invariant |
| CacheObject.DnsCache.Put | transparent-smart-edge/smartdns/cache.go:57-81 | the method, with its eviction loop, refines put on values and keeps the object valid |
| CacheObject.DnsCache.Get | transparent-smart-edge/smartdns/cache.go:84-116 | the method, which ages a private copy of the reply, refines get on values and keeps the object valid |
| CacheObject.AgedCopy | transparent-smart-edge/smartdns/cache.go:104-115 | copying, rewriting the ID and ageing in place answers the hit the lemmas are about |
| CacheObject.DnsCache.Clear | transparent-smart-edge/smartdns/cache.go:194-201 | the cache is empty, its bounds stay, the epoch advances |
| CacheObject.DnsCache.SaveSnapshot | transparent-smart-edge/smartdns/cache.go:299-314 | the snapshot holds exactly the unexpired entries, whatever the iteration order |
| CacheObject.DnsCache.LoadSnapshot | transparent-smart-edge/smartdns/cache.go:353-364 | the object becomes the result of storing the records in some order, each once, and stays valid; a foreign snapshot changes nothing |
| CacheSnapshot.FewerBytes | transparent-smart-edge/smartdns/cache.go:359-363 | a part of a valid cache holds no more entries and bytes than the whole, so loading never evicts |
| CacheSnapshot.PutAgain | transparent-smart-edge/smartdns/cache.go:361 | storing a saved reply with its saved time recreates the entry and evicts nothing |
| CacheSnapshot.LoadRestores | transparent-smart-edge/smartdns/cache.go:339-364 | loading any part of a snapshot in any order restores exactly its restorable entries |
| CacheSnapshot.SnapshotRoundTrip | transparent-smart-edge/smartdns/cache.go:299-364 | saving at t1 and loading at a later t2 restores every entry stored before t2 and unexpired then, unchanged, in any record order, and later hits are the same octets; under another fingerprint nothing is restored |
| LruTheory.HoldsLastStored | transparent-smart-edge/smartdns/cache.go:56-129 | over every run the cache is a part of the plain map of last stored replies |
| LruTheory.HitIsLastStored | transparent-smart-edge/smartdns/cache.go:84-116 | a hit is the aged form of the reply last stored under its key since the last clear, not expired |
| LruTheory.RunByRecency | transparent-smart-edge/smartdns/cache.go:56-129 | along the recency list the last uses go strictly back in time, at every point of every run |
| LruTheory.EvictsLeastRecentlyUsed | transparent-smart-edge/smartdns/cache.go:119-129 | eviction removes the entry whose last use lies furthest back, and only that one |
| LruTheory.PutIncluded | transparent-smart-edge/smartdns/cache.go:57-81 | put keeps a smaller cache contained in a larger one: equal entries, recency list a subsequence |
| LruTheory.GetIncluded | transparent-smart-edge/smartdns/cache.go:84-116 | get keeps the inclusion, and a hit of the smaller cache is the same hit in the larger |
| LruTheory.LargerKeepsHits | transparent-smart-edge/smartdns/cache.go:56-129 | on the same run, byte bound not reached, raising maxEntries never loses a hit and answers the same octets |
| LruTheory.MoreRoomKeepsHits | transparent-smart-edge/smartdns/cache.go:44-129 | the same for two caches that start empty: the smaller one's entries are among the larger one's, its recency list a subsequence, its hits the larger one's hits |
| ByteBound.ConfiguredWithin | transparent-smart-edge/smartdns/cache.go:56-81 | if maxEntries replies and keys of the largest size fit into the byte bound, no run ever reaches it |
| ByteBound.ConfiguredRoomKeepsHits | transparent-smart-edge/smartdns/cache.go:44-129 | so under every such configuration a cache with more room answers each hit of one with less with the same octets, in every run |
| ByteBound.LargerLosesHit | transparent-smart-edge/smartdns/cache.go:56-129 | for all keys and replies of one size that crowd the byte bound, and every larger cache: after the puts, a query for the oldest and one more put, the cache of one entry less holds a key that the larger one has evicted |
| SourceBound.ConfiguredCacheLosesHit | transparent-smart-edge/smartdns/cache.go:44-129 | at the source's own 64 MiB, with keys and replies as the resolver makes them: the cache of 8191 entries answers a question that every cache of more than 8192 entries has lost |
| Flights.StepKeeps | transparent-smart-edge/smartdns/cache.go:142-181 | every step of every caller keeps the invariant that ties callers, lookups, flights and cache together |
| Flights.RunKeepsInv | transparent-smart-edge/smartdns/cache.go:142-201 | the invariant holds in every reachable state of every interleaving |
| Flights.OneLookupPerKey | transparent-smart-edge/smartdns/cache.go:159-173 | flights holds exactly the keys with an unfinished owner, and no key has two |
| Flights.ResultOfOwner | transparent-smart-edge/smartdns/cache.go:173 | the result a flight carries is what the owner's lookup returned in that run |
| Flights.EnteredItsFlight | transparent-smart-edge/smartdns/cache.go:158-171 | the flight a caller waits for, owns or was answered by is the one that stood open for its key when it entered, or its own new one |
| Flights.SharedAnswer | transparent-smart-edge/smartdns/cache.go:132-181 | owner and joiners get the reply of the very flight they entered: what the owner of that flight was returned, changed only in the first two octets, which are those of their own query |
| Flights.NobodyWaitsInVain | transparent-smart-edge/smartdns/cache.go:161-172 | in every reachable state a waiting caller can be answered, whatever its flight's lookup returns, by at most four steps of the owner and its own wake-up |
| Flights.StepFresh | transparent-smart-edge/smartdns/cache.go:174-179 | from a state in which all entries belong to the current epoch, a step leaves it exactly when it stores after an overtaken check |
| Flights.FreshIff | transparent-smart-edge/smartdns/cache.go:159-201 | all entries were looked up in the current epoch at every point of a run if and only if no storing step was overtaken by a clear after its check |
| Flights.EpochCountsClears | transparent-smart-edge/smartdns/cache.go:194-201 | the epoch is the number of clears so far, and a pending put remembers their number at its check, so being overtaken means that a clear fell in between |
| Flights.StaleRefill | transparent-smart-edge/smartdns/cache.go:174-179 | for every storable reply there is a run in which it is stored although its lookup began before the last clear |
| Flights.CachedAnswer | transparent-smart-edge/smartdns/cache.go:142-156 | in every run a caller answered from the cache gets the cached form of what an earlier successful lookup for its key returned; with no overtaken put, that lookup began in the epoch in which the caller asked |
| Flights.RefreshIff | transparent-smart-edge/smartdns/cache.go:144-155 | a caller answered from the cache starts a refresh of its own question if and only if the entry is still there, less than a fifth of its lifetime and less than 30 seconds of it are left, and no lookup runs |
| CachedLookup.SecondCaller | transparent-smart-edge/smartdns/cache.go:142-181 | in every reachable state without the key: the caller that looks it up gets the reply under its own ID, and the next one within the lifetime gets the same message from the cache, aged and under its own ID, without a lookup |
| CachedLookup.RebindIs | transparent-smart-edge/smartdns/cache.go:132-139 | a shared message goes to each caller as the same message with that caller's ID |
| Names.NormalizedIff | transparent-smart-edge/smartdns/main.go:557-559 | exactly which names normalizeName leaves as they are |
| Names.NormalizeNameIs | transparent-smart-edge/smartdns/main.go:557-559 | spaces around the text go, then one dot at its end, and A to Z become a to z, octet by octet |
| Names.JoinSplit | transparent-smart-edge/smartdns/test-telegram-https.go:117 | joining the parts of a name split at its dots gives the name back |
| Names.SplitJoin | transparent-smart-edge/smartdns/main.go:640 | labels without dots are the pieces of their join, so joining puts one dot between neighbours and nothing else |
| Names.UnderSuffixIff | transparent-smart-edge/smartdns/main.go:820-822 | a name is under a suffix if and only if it is that text or ends in a dot and that text |
| DnsCodec.ParseQuestion | transparent-smart-edge/smartdns/main.go:611-646 | the loop computes the question of a packet or the error the source reports; which questions and which errors is said by CodecWire.QuestionIff and CodecWire.QuestionFaults |
| DnsCodec.SetFlags | transparent-smart-edge/smartdns/main.go:677-699 | in place: ID and QDCOUNT kept, flags turned into those of a response with the code asked for, the other counts zero |
| DnsCodec.MakeErrorResponse | transparent-smart-edge/smartdns/main.go:686-699 | the query under a response header with the given code, all octets after the header kept; a packet under 4 octets comes back, one of 4 to 11 is indexed past its end |
| DnsCodec.MakeAResponse | transparent-smart-edge/smartdns/main.go:705-743 | the buffer filled record by record is header, echoed question and one A record per parsable address; SERVFAIL if there is none |
| DnsCodec.PutRecords | transparent-smart-edge/smartdns/main.go:731-741 | the loop writes the records behind what is already in the buffer |
| DnsCodec.BuildQuery | transparent-smart-edge/smartdns/test-telegram-https.go:111-128 | the loop appends the non-empty labels of the name to the fixed header, then type and class |
| DnsCodec.ReadQuestion | transparent-smart-edge/smartdns/test-telegram-https.go:161-192 | the two loops over a question compute its end and labels, or meet the case in which the source would index past the message, or past the capacity of the slice that holds it |
| DnsCodec.ParseAnswers | transparent-smart-edge/smartdns/test-telegram-https.go:132-218 | for a message in a slice of any capacity, the walk computes addresses, code and name, or one of its failures |
| DnsRoundTrip.ReplyParts | transparent-smart-edge/smartdns/main.go:705-743 | a reply with answers: ID, response bit, code 0, counts, the question octets, and one A record of 16 octets per address |
| DnsRoundTrip.ReplyRoundTrip | transparent-smart-edge/smartdns/main.go:705-743 | for a parsed query and 1 to 65535 addresses: the same question is read back, the client gets the addresses in order under the asked name, responseTTLs finds offset QuestionEnd+6+16i for answer i and the TTL asked for (60 for 0; none for 2^32-1) |
| DnsRoundTrip.ErrorRoundTrip | transparent-smart-edge/smartdns/main.go:686-703 | an error response keeps ID, length and question and is never cached; for every number of questions the client reads the code, no address and the last question's name, or fails on the questions as on those of the query |
| DnsRoundTrip.QueryParts | transparent-smart-edge/smartdns/test-telegram-https.go:111-128 | where the labels, the type and the class of a built query stand |
| DnsRoundTrip.QueryRoundTripIff | transparent-smart-edge/smartdns/test-telegram-https.go:111-128 | for every name, parseQuestion inverts buildQuery if and only if no label is longer than the 63 octets of section 2.3.4 of RFC 1035 |
| DnsRoundTrip.LabelsReadBackIff | transparent-smart-edge/smartdns/test-telegram-https.go:117-123 | the labels written are read back if and only if none is longer than 63 octets |
| DnsRoundTrip.ClientServerRoundTrip | transparent-smart-edge/smartdns/test-telegram-https.go:111-218 | the whole exchange: the resolver sees the name asked for, the client reads back that name with the addresses |
| DnsRoundTrip.QueryIsAMessage | transparent-smart-edge/smartdns/main.go:1498-1556 | a built query of 1 to 128 labels is a complete message for the stream decoder |
| CodecWire.QuestionIff | transparent-smart-edge/smartdns/main.go:611-646 | parseQuestion succeeds if and only if an uncompressed question of labels of 1 to 63 octets stands behind the header, and gives its labels joined and normalized, its type, its class and its end |
| CodecWire.QuestionOfMessage | transparent-smart-edge/smartdns/main.go:611-646 | of every message it reads the first question, of any type and class, whatever else the message holds |
| CodecWire.QuestionFaults | transparent-smart-edge/smartdns/main.go:611-646 | which error it reports: no header, no question, and behind any number of good labels a pointer, a bad or cut label, or too little behind the name |
| CodecWire.QueryIs | transparent-smart-edge/smartdns/test-telegram-https.go:111-128 | buildQuery writes exactly one standard query for the A record of its labels, with recursion desired |
| CodecWire.QueryLabelsOf | transparent-smart-edge/smartdns/test-telegram-https.go:115-123 | the labels it writes are the pieces between the dots, with or without a dot at the end |
| CodecWire.ReplyIs | transparent-smart-edge/smartdns/main.go:705-743 | for every message with an uncompressed first question the reply is exactly that question under the same ID and a response's flags, answered by one A record of class IN per address, in order, under a pointer to the name |
| CodecWire.ErrorIs | transparent-smart-edge/smartdns/main.go:686-699 | an error response is the message with a response's flags and the code and no record counted, before the octets of its old records |
| CodecWire.NoAddressIs | transparent-smart-edge/smartdns/main.go:712-714 | without a usable address the reply is the error response of code 2 |
| CodecWire.AnswersOfMessage | transparent-smart-edge/smartdns/test-telegram-https.go:132-218 | of every message parseAnswers reads the code, the data of the A records among its answers in order, and the name of the last question |
| CodecWire.CutReply | transparent-smart-edge/smartdns/test-telegram-https.go:195-216 | of a reply cut off anywhere in its answers it reads the records that came whole, or fails if the cut lies inside a name |
| Routing.RouteFromRules | transparent-smart-edge/smartdns/main.go:808-843 | the loop picks the first matching rule of the greatest score and maps its first hop to the route |
| Routing.SelectedIsBest | transparent-smart-edge/smartdns/main.go:808-832 | the rule chosen matches, no match scores higher and no earlier match as high; none is chosen only if none matches |
| Routing.RoutedBy | transparent-smart-edge/smartdns/main.go:808-843 | without scores: the rule that decides is the first that speaks about the name for this profile and that no other outranks, an exact text before a suffix of whole labels, then the longer text; its first hop gives direct, the separate proxy of the public profile, or the proxy; no rule, no route |
| Routing.MostSpecificWins | transparent-smart-edge/smartdns/main.go:808-832 | an exact match beats every suffix match, otherwise the longest suffix wins |
| Routing.OrderOfRulesIrrelevant | transparent-smart-edge/smartdns/main.go:808-832 | if the applicable rules differ in kind or text, every permutation of the rules chooses the same rule |
| Routing.StaticAForName | transparent-smart-edge/smartdns/main.go:955-972 | the answer is the exact entry, nothing for an excluded name, else the entry of the longest listed suffix |
| Routing.StaticAnswerUnique | transparent-smart-edge/smartdns/main.go:964-971 | there is only one such answer, so the iteration order of the map does not matter |
| Routing.StaticAnswerIs | transparent-smart-edge/smartdns/main.go:955-972 | the cases in order: the name's own addresses even if it is excluded, nothing for another excluded name, the longest listed text that the name is or ends in behind a dot, nothing without one |
| AllowList.Table.RememberEdgeIP | transparent-smart-edge/smartdns/main.go:876-892 | a non-empty address gets a grant of the configured length, 120 seconds if there is none |
| AllowList.Table.GrantEdge | transparent-smart-edge/smartdns/main.go:1012-1029 | the remember step of resolve sets the grant and the domain entry of the address |
| AllowList.Table.HandlePost | transparent-smart-edge/smartdns/main.go:1327-1393 | a post pins or grants the address, with the fallbacks of the end time, and sets its domain if one is given |
| AllowList.Table.HandleDelete | transparent-smart-edge/smartdns/main.go:1402-1412 | both entries of the address are gone |
| AllowList.Table.HandleAuth | transparent-smart-edge/smartdns/main.go:1207-1217 | granted exactly for a pin or a grant that has not ended, and then the last visit is recorded |
| AllowList.Table.DropStale | transparent-smart-edge/smartdns/main.go:1842-1857 | in every order of deletions exactly the stale entries leave the allow-list |
| AllowList.Table.DropDomains | transparent-smart-edge/smartdns/main.go:1858-1868 | in every order of deletions exactly the domain entries that have ended, or have no entry on the allow-list, leave |
| AllowList.Table.CleanupTick | transparent-smart-edge/smartdns/main.go:1833-1870 | one tick is the cleanup on values: first the stale entries, then the domain entries |
| AllowList.AlwaysDomainsAllowed | transparent-smart-edge/smartdns/main.go:1858-1868 | in every reachable state each address with a domain entry is on the allow-list |
| AllowList.CleaningTwice | transparent-smart-edge/smartdns/main.go:1833-1870 | cleaning at t1 and at a later t2 is cleaning once at t2 |
| AllowList.CleanupChangesAuthIff | transparent-smart-edge/smartdns/main.go:1842-1857 | a cleanup changes a later authorization if and only if it ends an inactive pin |
| AllowList.PostedDomainServedIff | transparent-smart-edge/smartdns/main.go:1222-1240 | after any steps that do not write the address, before the request and between its two sections, a posted domain is served exactly until its end time, so never for a permanent entry, which stays as long as its pin |
| AllowList.EntryIsLastWrite | transparent-smart-edge/smartdns/main.go:876-892 | in every run the entry of an address is what the last post, DNS answer or DoT connection stored for it, so it is a pin exactly when that was a permanent post |
| AllowList.PassesIff | transparent-smart-edge/smartdns/main.go:1205-1220 | in every run an address passes at a time if and only if its last write lets it: a visit or a timed post until its end time (the given, the configured, 120 seconds or a day), a pin until a cleanup finds it unseen for longer than allowed, a deletion never |
| AllowList.DomainIsLastNamed | transparent-smart-edge/smartdns/main.go:1012-1029 | in every run the domain, port, end time and source kept for an address are those of the last DNS answer or post that named a domain for it |
| AllowList.DeletedIsNotServed | transparent-smart-edge/smartdns/main.go:1228-1236 | an address deleted since is not served by /edge-map, although its domain entry was read before |
| AllowList.GrantEndsPin | transparent-smart-edge/smartdns/main.go:1012-1029 | a DNS answer or a DoT connection from a pinned address ends the pin: after its end time a cleanup removes the address and its domain |
| UpstreamHealth.Upstream.constructor | transparent-smart-edge/smartedge/main.go:253-278 | a new upstream is usable and has no history |
| UpstreamHealth.Upstream.MarkFailureNow | transparent-smart-edge/smartedge/main.go:301-318 | the in-place update refines the failure step |
| UpstreamHealth.Upstream.RecordConnectFailure | transparent-smart-edge/smartedge/main.go:344-349 | counted apart, then marked as a failure |
| UpstreamHealth.Upstream.RecordHandshakeIdle | transparent-smart-edge/smartedge/main.go:356-362 | counted apart with the octets that did arrive, then marked as a failure |
| UpstreamHealth.Upstream.RecordSuccessNow | transparent-smart-edge/smartedge/main.go:366-378 | the streak and the quarantine end and the growth starts anew |
| UpstreamHealth.Upstream.RecordProbeSuccess | transparent-smart-edge/smartedge/main.go:390-399 | only the probe streak ends |
| UpstreamHealth.Upstream.RecordProbeFailure | transparent-smart-edge/smartedge/main.go:406-415 | only the probe streak grows; a failure is owed exactly when it reaches a positive threshold |
| UpstreamHealth.Upstream.CooldownLeft | transparent-smart-edge/smartedge/main.go:288-295 | the time to the end of the quarantine, zero exactly when there is none |
| UpstreamHealth.StreakAndCooldown | transparent-smart-edge/smartedge/main.go:301-318 | under every configuration consecFails counts the failures since the last success, and the stored state gives the length the next quarantine will have |
| UpstreamHealth.StateOfRun | transparent-smart-edge/smartedge/main.go:281-415 | every field after any run from the events alone: streaks since the last success or failure, the end of the quarantine and with it whether the upstream is in rotation, and the counters |
| UpstreamHealth.QuarantineOfFailure | transparent-smart-edge/smartedge/main.go:301-318 | under every configuration the j-th failure since the last success, j at least T = max(threshold, 1), quarantines for exactly min(initial * 2^(j-T), max(initial, max)), or for an initial length that is not positive, for that; an earlier one changes nothing |
| UpstreamHealth.LongerThanMaxIff | transparent-smart-edge/smartedge/main.go:84-85 | a quarantine exceeds the configured maximum if and only if the initial length does, and then every one lasts the initial length |
| UpstreamHealth.QuarantineBound | transparent-smart-edge/smartedge/main.go:301-318 | a quarantine never ends later than the clock plus the length of the next one |
| UpstreamHealth.QuarantineNeverShrinks | transparent-smart-edge/smartedge/main.go:301-318 | until a success the end of the quarantine never moves earlier |
| UpstreamHealth.ProbesInvisibleIff | transparent-smart-edge/smartedge/main.go:401-415 | erasing all probe events leaves the quarantine unchanged at every point if and only if no failure was marked on behalf of probes |
| UpstreamHealth.TransientProbesInvisible | transparent-smart-edge/smartedge/main.go:401-415 | in every run without a full streak of probe failures the quarantine is what the traffic alone makes it |
| Failover.CandidateUpstreams | transparent-smart-edge/smartedge/main.go:514-533 | the loop computes the candidate order, also when all are quarantined |
| Failover.CandidatesKeepOrder | transparent-smart-edge/smartedge/main.go:510-533 | every upstream once, usable ones first, configured order kept within both groups |
| Failover.Try | transparent-smart-edge/smartedge/main.go:1037-1059 | one attempt records its outcome on its upstream, and which one |
| Failover.TryCandidate | transparent-smart-edge/smartedge/main.go:1030-1060 | a pass of the loop changes the state of its own candidate and of no other |
| Failover.RecordedIs | transparent-smart-edge/smartedge/main.go:1037-1059 | field by field what an attempt leaves: first bytes clear failures and quarantine, a tunnel without them counts as stalled with the octets that came, no tunnel as a connect failure, and both add to the streak |
| Failover.ConnectUpstream | transparent-smart-edge/smartedge/main.go:1002-1065 | the loop is the search on values; exactly the candidates tried carry the record of their attempt, at the time it ended, and the others are unchanged |
| Failover.FirstForwarderWins | transparent-smart-edge/smartedge/main.go:1030-1065 | candidates are tried in order, each once, up to the first that forwards; otherwise the search stops only when none is left or the deadline has passed |
| Failover.SearchBound | transparent-smart-edge/smartedge/main.go:799-891 | for every number of upstreams and every outcome the search ends within total + connectTimeout + min(connectTimeout, handshakeIdle) |
| Failover.EndsInTimeIff | transparent-smart-edge/smartedge/main.go:1002-1065 | every behaviour of n candidates lets the search end within the configured total if and only if the total covers n times two connect timeouts and a handshake wait |
| Failover.SearchBoundIsReached | transparent-smart-edge/smartedge/main.go:1002-1065 | for every total of at least one connect timeout some upstreams make the search last exactly that long |
| Failover.FirstAttemptWholeIff | transparent-smart-edge/smartedge/main.go:799-883 | the budget cuts no wait of the first candidate if and only if the total is at least as long as the longer of connect timeout and handshake wait |
| Failover.FirstCandidateServed | transparent-smart-edge/smartedge/main.go:225-231 | with the floor on the total, a first candidate that forwards within the configured waits, however late in each, wins the search |
| ClientHello.ParseSNI | transparent-smart-edge/smartedge/main.go:568-655 | the walk over offsets computes the name as the structured parse of record, handshake, fields and extensions gives it; which records have which name is said by HelloInverse.SniIff |
| ClientHello.HostNameIff | transparent-smart-edge/smartedge/main.go:650 | the name returned is the one found with A to Z turned into a to z and one dot at its end removed, no second one; a name in lower case without a dot at its end is returned as it is |
| ClientHello.FindServerName | transparent-smart-edge/smartedge/main.go:631-654 | the loop returns the name of the first server_name extension, nothing if that one is malformed or there is none |
| ClientHello.FirstRecordDecides | transparent-smart-edge/smartedge/main.go:568-655 | octets after the first record change nothing, and every proper prefix of it gives no name |
| ClientHello.ReadHello | transparent-smart-edge/smartedge/main.go:687-711 | the read loop computes the reading on lists of reads, including failure before the first octet |
| ClientHello.AnyChunking | transparent-smart-edge/smartedge/main.go:687-711 | for every cutting of a delivered first record, the exact read at which the edge stops, the octets it returns, and that it has the record's name exactly if that read completes the record; always for at most 8192 octets |
| ClientHello.EndOfInput | transparent-smart-edge/smartedge/main.go:687-711 | a connection that ends within its first record gives all its octets and no name, or fails if it gave none |
| HelloEncoder.WalkFinds | transparent-smart-edge/smartedge/main.go:631-654 | the walk passes all other extensions and reads the name of the first server_name extension, whatever follows it |
| HelloEncoder.SniOfEncoded | transparent-smart-edge/smartedge/main.go:566-655 | parseSNI gives back the name in a ClientHello as a client encodes it (section 4.1.2 of RFC 8446, section 3 of RFC 6066), in lower case and without one dot at its end, and unchanged if it is so already, for all versions, fields and extensions around it |
| HelloEncoder.NoServerName | transparent-smart-edge/smartedge/main.go:566-655 | an encoded message without the extension gives no name |
| HelloEncoder.EdgeSeesTheName | transparent-smart-edge/smartedge/main.go:687-711 | end to end: the edge finds that name under every cutting into reads and whatever follows; only above 8192 octets can it be missed, exactly when a read ends too early |
| HelloInverse.SniIff | transparent-smart-edge/smartedge/main.go:566-655 | parseSNI finds a name in exactly the records written out: one handshake message whose lengths fit, whose first server_name extension starts with a host name, with any versions, list length, claimed block length, later octets and octets behind the message; and it is that name |
| SingBox.TagsDiffer | transparent-smart-edge/rootfs/usr/bin/configure-runtime-inbounds.sh:60-72 | the eleven managed inbound tags are distinct |
| SingBox.ManagedIff | transparent-smart-edge/rootfs/usr/bin/configure-runtime-inbounds.sh:60 | the managed tags are exactly the eleven written out |
| SingBox.RuleKeptIff | transparent-smart-edge/rootfs/usr/bin/configure-runtime-inbounds.sh:61-74 | a rule is kept if and only if its inbound field names none of the eleven tags, as an element of a list or anywhere in a string, and it leads to neither selector; no other field matters |
| SingBox.EntryKeptIff | transparent-smart-edge/rootfs/usr/bin/configure-runtime-inbounds.sh:59-60 | an inbound is kept exactly without one of the eleven tags, an outbound exactly without one of the two |
| SingBox.FilterPicks | transparent-smart-edge/rootfs/usr/bin/configure-runtime-inbounds.sh:59-74 | what is kept stands in the order of the source, nothing is repeated, and nothing else is dropped |
| SingBox.LanesRoute | transparent-smart-edge/rootfs/usr/bin/configure-runtime-inbounds.sh:96-119 | the rules prepended for the lanes send each enabled lane inbound to that lane's outbound and touch no other connection |
| SingBox.RewrittenRoutes | transparent-smart-edge/rootfs/usr/bin/configure-runtime-inbounds.sh:54-120 | for every source and connection: enabled lanes to their outbounds, then AI domains to ai-route if it was installed, then the Telegram inbound to telegram-route, then the kept rules |
| SingBox.StrippedRoutesIff | transparent-smart-edge/rootfs/usr/bin/configure-runtime-inbounds.sh:61-74 | stripping changes where a connection goes if and only if the first rule that decides for it is dropped and the kept rules behind it decide otherwise |
| SingBox.StrippedRoutes | transparent-smart-edge/rootfs/usr/bin/configure-runtime-inbounds.sh:61-74 | a connection whose first deciding rule is kept, or that has none, goes exactly where the source sent it |
| SingBox.OthersUnchangedIff | transparent-smart-edge/rootfs/usr/bin/configure-runtime-inbounds.sh:54-120 | the same condition for the whole rewriting and every connection that no lane, AI or Telegram rule claims |
| SingBox.FreeSource | transparent-smart-edge/rootfs/usr/bin/configure-runtime-inbounds.sh:54-120 | with a source in which no rule names one of the eleven tags or leads to one of the two selectors, all written out, every other connection goes exactly where the source sent it |
| SingBox.OwnTraffic | transparent-smart-edge/rootfs/usr/bin/configure-runtime-inbounds.sh:54-120 | so a connection that came in by none of the eleven tags and asks for no AI domain goes where it went |
| SingBox.LaneTraffic | transparent-smart-edge/rootfs/usr/bin/configure-runtime-inbounds.sh:94-119 | a connection by either tag of an enabled lane, written out, goes to the outbound given for that lane |
| SingBox.SharedRuleIsLost | transparent-smart-edge/rootfs/usr/bin/configure-runtime-inbounds.sh:61-74 | for every source and connection whose first deciding rule mentions a managed inbound, that rule is lost whatever inbound the connection came in by: the kept rules behind it decide |
| SingBox.SharedRuleExample | transparent-smart-edge/rootfs/usr/bin/configure-runtime-inbounds.sh:61-74 | a concrete source and connection that lose their rule with everything switched off |
| SingBox.RewriteKeeps | transparent-smart-edge/rootfs/usr/bin/configure-runtime-inbounds.sh:59-120 | everything the script adds is what its own stripping removes, and what it does not manage stays in place and order |
| SingBox.Reconfigured | transparent-smart-edge/rootfs/usr/bin/configure-runtime-inbounds.sh:59-74 | rewriting a rewritten configuration with other arguments is rewriting the source, but for the experimental block left behind |
| SingBox.Idempotent | transparent-smart-edge/rootfs/usr/bin/configure-runtime-inbounds.sh:54-120 | rewriting twice with the same arguments equals rewriting once, for every source |
| SingBox.ExperimentalOf | transparent-smart-edge/rootfs/usr/bin/configure-runtime-inbounds.sh:81-92 | the controller address is set exactly when a selector is installed, every other experimental setting stays |
| SingBox.FailsIff | transparent-smart-edge/rootfs/usr/bin/configure-runtime-inbounds.sh:30-80 | the script fails exactly when there is no list of users, when one of them is incomplete, or when Telegram is wanted and no lane outbound exists |
| SingBox.OutboundsWritten | transparent-smart-edge/rootfs/usr/bin/configure-runtime-inbounds.sh:75-93 | the outbounds are the source's own and then the selectors, whose members are lane outbounds standing before them, so no selector can reach itself |
| SingBox.InboundsWritten | transparent-smart-edge/rootfs/usr/bin/configure-runtime-inbounds.sh:55-119 | the list of inbounds written is exactly the source's own in their order, then the Telegram listener if wanted, then per enabled lane one on its port and one 10000 higher with the users |
| SingBox.DefaultExits | transparent-smart-edge/rootfs/usr/bin/configure-runtime-inbounds.sh:76-91 | Telegram starts with its least member in string order, AI with the first usable of Finland, Germany and the United States |
| SingBox.TagsStayDistinct | transparent-smart-edge/rootfs/usr/bin/configure-runtime-inbounds.sh:60-119 | if the source's own inbound tags differ, all written inbound tags differ |
| SingBoxWritten.RulesWritten | transparent-smart-edge/rootfs/usr/bin/configure-runtime-inbounds.sh:61-119 | the rules written, every one: two per enabled lane, the AI rule if it could be had, the Telegram rule if wanted, then exactly the free rules of the source in order |
| SingBoxWritten.ListenersWritten | transparent-smart-edge/rootfs/usr/bin/configure-runtime-inbounds.sh:60-119 | the listeners written, every one, with tag, port and users, behind exactly the inbounds of the source without a managed tag |
| SingBoxWritten.SelectorsWritten | transparent-smart-edge/rootfs/usr/bin/configure-runtime-inbounds.sh:75-93 | the selectors written are complete: Telegram's holds exactly the known outbounds of Germany, the United States and Finland, sorted and once each; the AI one the usable ones of Finland, Germany and the United States in that order, and it is there exactly if there is one |
| SingBoxWritten.BeforeIff | transparent-smart-edge/rootfs/usr/bin/configure-runtime-inbounds.sh:76 | the order of the Telegram members: by the first character that differs, a prefix first |

## Left out

- Sockets, TLS, HTTP and UDP listeners, the DoH client, signals and logging: foreign calls. Lookups, dials and reads are arbitrary outcomes.
- JSON and disk encoding of the snapshot, its file handling, and keys that are not UTF-8: a snapshot is a value.
- The list element pointers of the cache: the recency list is a sequence of keys, so constant-time removal is not captured. Counters of hits, misses and evictions are not modelled.
- A lookup that panics, which leaves a flight closed without a result: lookups return a reply or an error.
- Flights.NobodyWaitsInVain: says that a waiting caller can be answered, not that the scheduler lets it; fairness is not modelled.
- ResponseCache.HitIsFresh: gives whole seconds and the exact lifetime only on a clock less than a second behind the entry, because the source's count wraps on others (ResponseCache.ElapsedIsWholeIff, ResponseCache.OldClockAnswersZero). The saturation of Go durations at 292 years is not modelled.
- ReplyWire.ServedUntil: is about clock readings later than a second before the put, for the same reason; ReplyWire.ServedOnAnyClock is about all, in terms of the wrapped count.
- CodecWire.ReplyIs: for 1 to 65535 usable addresses, since the count field of a reply has 16 bits; more wrap in DnsCodec.MakeAResponse.
- AllowList.PassesIff: asks about times not before the last cleanup of the run.
- ReplyTtl.HitParsesAgain: bounds the lifetime of an aged negative reply instead of giving it exactly, because the code does not age the MINIMUM field.
- LruTheory.LargerKeepsHits: requires that the run does not reach the byte bound of the larger cache. ByteBound.ConfiguredWithin gives configurations that never do, ByteBound.LargerLosesHit what happens beyond them.
- Names: Unicode case folding and spaces are left out, names are ASCII octets. Parsing of IPv4 text is left out, an address is four octets or unparsable.
- AllowList: normalization of addresses, JSON bodies, tokens and the choice of the source label are left out; the time to live given to a grant is a parameter.
- Failover.ConnectUpstream: writes take no time, no time passes between the operations, and the latency average is left out, because only counters and the quarantine steer the search. The direct path without a proxy (connectWithRetry) is left out.
- Failover.SearchBoundIsReached: for totals of at least one connect timeout, which the floor of the source guarantees.
- UpstreamHealth.QuarantineNeverShrinks: requires a clock that does not run backwards within the process and, for an initial length below zero, a start that far from its zero; adoptHealth and the parsing of PROXY_UPSTREAMS are left out.
- SingBox: fields the script neither reads nor writes are opaque numbers, a missing list is an empty one, a connection meets domain patterns and other conditions by name, and what sing-box does inside one is not modelled. The AI domains are the list after splitting.
- HelloEncoder.SniOfEncoded: for ASCII names; on others Go maps letters outside ASCII and replaces what is not UTF-8. A message is in one record; parseSNI does not join fragments over several records.
- The profile defaults around routeFromRules, the rest of resolve, the circuit breaker, route-health.sh, local-address guards, PROXY protocol, the environment and the tproxy scripts: single-branch facts or foreign calls.
