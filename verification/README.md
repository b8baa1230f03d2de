# Netbot core: a Dafny model

This project models the parts of the Netbot core libraries whose behaviour is hard to see from the
code alone, and proves what they guarantee.

- **DNS messages** (`DomainText`, `NameParser`, `Chunks`, `NameWriter`, `DnsMessage`, `DnsRoundTrip`,
  `DnsWire`, `DnsLimits`, `DnsMisread`, `DnsReturns`, `DnsCodec`). The writer threads a dictionary of name
  suffixes through a message, writes pointers to earlier suffixes, and patches each record's length
  field afterwards. The reader follows pointers recursively, without a cycle check. Proved: reading
  undoes writing for whole messages of all eleven record forms; exactly which messages within the reach
  of pointers come back unchanged; exactly when the reader does not return; that compression is
  invisible to a reader and never costs space; and, in numbers, which octets a message is written as and
  what is read from any octets. The writer and the reader are also given as the loops
  they are, and proved against the functions.
- **Two glued channels** (`Glue`, `GluePressure`). Two handlers on two event loops forward data, flushes, closes and
  read requests to each other through their queues. The model is a machine with one queue per loop;
  the theorems are about every interleaving.
- **The cache, the address pool and made-up addresses** (`RecencyList`, `RecencyRuns`, `LruCache`,
  `AddressPool`, `AddressBlock`, `CidrRule`, `FakeDns`, `FakeDnsRuns`, `FakeDnsRaces`). A doubly linked
  list with a dictionary is proved against a plain recency list, the allocator against a cycle of
  addresses, the bit masks against shared prefixes; together they give the table of made-up addresses
  that a reverse query inverts.
- **The rules engine** (`RuleScan`, `RulesEngine`, `RulesEngineRuns`, `RulesEngineCache`). Lookups share running scans and
  a cache while the rules may be replaced; the steps may interleave in any order.
- **The stream writer** (`StreamWriter`). Accepted writes, partial hand-over to a TCP stack that may
  refuse anything at any time, flush marks, half-close, and the outcome each write is told.
- **Packets** (`Checksum`, `Ipv4Header`, `Udp`). In-place edits of an IPv4 header, the Internet
  checksum (section 1 of RFC 1071), and the response packet built from a query's packet.
- **Traffic totals** (`Accounting`, `AccountingRuns`). Totals by protocol in wrapping 64-bit counters.

Results about caches hold for every capacity (the program uses 200 for made-up addresses and 100 for
rules), those about pools and blocks for every width (it uses 32 and 128 bits).

Strings are sequences of their UTF-8 bytes. A trap of the original (a failed precondition, or an
integer conversion out of range) is a `requires`; a thrown error is a result.

Where the code differs from what one would expect, the model follows the code and says exactly when:

- Labels of 64 to 191 bytes are outside section 2.3.4 of RFC 1035 but are written and read back; at
  192 bytes a label is read as a pointer (`NameRoundTripsExactly`, `SmallMessageRoundTripsExactly`,
  `LongLabelNeverComesBack`).
- An offset of 0x4000 or more does not fit a pointer, and such a pointer is misread
  (`PointerReadsBack`, `LateMessageIsMisread`).
- Raw data of more than 65535 bytes is cut to that length (`LongRawComesBackShort`,
  `RoundTripsExactly`).
- A pointer to an earlier byte can still loop (`BackwardPointerCanLoop`,
  `MessageDivergesExactlyOnCycle`).
- A read requested, or data seen, before the other handler is added is lost (`LostExactlyEarly`,
  `DroppedExactlyEarly`).
- A pool without room between its bounds hands out a bound or leaves them (`InsideExactly`); a block
  needs two host bits (`PoolStaysInBlock`).
- With one address more than the pool has, a reverse query can return another name
  (`ReverseInverts`, `OneMoreCanClash`).
- Two overlapping queries for one name can give it two addresses, one of which then leads nowhere
  (`OneAddressExactly`, `CarelessAnswerIsLost`).
- A scan that still holds replaced rules can put its result in the cache after the reset
  (`CoherentExactly`, `OldRuleAfterReset`), and a rule that looks at more than the host can be given
  to another connection to that host (`HostOnlyAnswers`, `SharedHostSharesRule`).
- The promise of closing one direction of a connection is never completed
  (`StreamWriter.LwipConnection.Close`).
- Changing the protocol of a connection that has totals leaves them under the old protocol as well
  (`ByProtocolExactly`).

## Model

| member | source | states |
|---|---|---|
| DomainText.SplitJoin | Sources/NetbotDNS/Serialization.swift:666-667 | splitting undoes joining, for all lists of non-empty dot-free labels |
| DomainText.JoinInjective | Sources/NetbotDNS/Serialization.swift:707-719 | the dictionary's key, a joined suffix, determines the labels |
| DomainText.CanonicalExactlyTidy | Sources/NetbotDNS/Serialization.swift:738-739 | a name survives split and join exactly when it has no empty label |
| DomainText.CanonicalKeepsLabels | Sources/NetbotDNS/Serialization.swift:738-739 | making a name canonical keeps its labels, and doing it twice changes nothing |
| DomainText.DotIsFullStop | Sources/NetbotDNS/Serialization.swift:279-283 | the octet that separates labels is 46 |
| NameParser.DivergesExactlyOnCycle | Sources/NetbotDNS/Serialization.swift:251-299 | for every buffer and offset, reading a name fails to return exactly when the pointers reached from it form a cycle |
| NameParser.JumpBoundIsExact | Sources/NetbotDNS/Serialization.swift:266-284 | a reader allowed 0x4000 jumps gives the outcome of one allowed any number |
| NameParser.DescendingPointersReturn | Sources/NetbotDNS/Serialization.swift:251-299 | where each pointer met in reading a name goes below the start of the segment it ends, reading it returns |
| Chunks.ManyKept | Sources/NetbotDNS/Serialization.swift:665-682 | if writing one item keeps an invariant and reads back, so does writing a section |
| NameWriter.StandingName | Sources/NetbotDNS/Serialization.swift:251-299 | a name standing in a buffer is read back as its dotted text, and the cursor stops at the end of its segment |
| NameWriter.NameAtSurvivesAppend | Sources/NetbotDNS/Serialization.swift:699-733 | appending bytes disturbs no name already written, nor where it ends |
| NameWriter.PointerReadsBack | Sources/NetbotDNS/Serialization.swift:714 | a written pointer is read as its offset exactly when the offset is below 0x4000 |
| NameWriter.NameWritten | Sources/NetbotDNS/Serialization.swift:699-733 | after writing a name: it stands, every dictionary entry, old or new, stands, and its pointers go strictly below its start |
| NameWriter.StandingNameDescends | Sources/NetbotDNS/Serialization.swift:707-732 | every name the writer emits, so standing, meets that condition |
| NameWriter.CompressedNamesParse | Sources/NetbotDNS/Serialization.swift:699-733 | a list of names written with compression is read back as the same names |
| NameWriter.CompressionIsTransparent | Sources/NetbotDNS/Serialization.swift:699-733 | compressed and plain encodings of any list of names are read back alike, and the compressed one is never longer |
| NameWriter.FirstNameRoundTripsExactly | Sources/NetbotDNS/Serialization.swift:725 | a name written with an empty dictionary, after and before any bytes, is read back exactly when each of its labels is shorter than 192 bytes |
| NameWriter.NameRoundTripsExactly | Sources/NetbotDNS/Serialization.swift:699-733 | so is a name written anywhere in a message whose dictionary is within a pointer's reach |
| NameWriter.ParsedNameIsReadable | Sources/NetbotDNS/Serialization.swift:251-299 | no name that is read, from any buffer, has a label of 192 bytes or more |
| NameWriter.LongLabelDerails | Sources/NetbotDNS/Serialization.swift:725 | with a longer label the reader never stops at the end of the name |
| NameWriter.LateRepeatIsMisread | Sources/NetbotDNS/Serialization.swift:714 | after L bytes, 0x4000 <= L < 0x8000, with a zero at L - 0x4000, any name written twice is read back the first time and as the root the second |
| DnsMessage.ParseData | Sources/NetbotDNS/Serialization.swift:442-535 | data that were read are of the form their type code names, raw exactly when the reader does not decode that type, and raw data are as long as the length field says |
| DnsMessage.ParseRecord | Sources/NetbotDNS/Serialization.swift:411-538 | a raw record that was read has class 1, a type the reader does not decode, and at most 65535 bytes |
| DnsRoundTrip.DataParses | Sources/NetbotDNS/Serialization.swift:442-535 | data written field by field, of any of the eleven forms, are read back and the cursor stops at their end |
| DnsRoundTrip.RecordWritten | Sources/NetbotDNS/Serialization.swift:735-811 | a written record is read back, the cursor stops at its end, and every dictionary entry stands |
| DnsRoundTrip.LengthFieldCountsData | Sources/NetbotDNS/Serialization.swift:800-810 | the patched length is the number of bytes from the length field to the end of the record, clamped to 16 bits |
| DnsRoundTrip.BackPatchKeepsDictionary | Sources/NetbotDNS/Serialization.swift:744-746 | neither the placeholder nor any length patched over it disturbs a dictionary entry |
| DnsRoundTrip.MessageRoundTrips | Sources/NetbotDNS/Serialization.swift:653-686 | reading a written message gives it back with canonical names, to its last byte, and every dictionary entry stands |
| DnsRoundTrip.MessageRoundTripsIn | Sources/NetbotDNS/Serialization.swift:28-77 | the same when other bytes follow the message, which are not looked at |
| DnsWire.MessageOnWire | Sources/NetbotDNS/Serialization.swift:653-686 | the four sections follow the header in order, each written with the names of the earlier ones known |
| DnsWire.SectionOnWire | Sources/NetbotDNS/Serialization.swift:665-682 | the items of a section follow each other in order |
| DnsWire.HeaderOnWire | Sources/NetbotDNS/Serialization.swift:658-663 | the six numbers of a header, in order, as twelve octets |
| DnsWire.QuestionOnWire | Sources/NetbotDNS/Serialization.swift:665-670 | a question is its name, its type and its class |
| DnsWire.RecordOnWire | Sources/NetbotDNS/Serialization.swift:735-811 | a record is its name, type, class, time to live, the length of its data and the data |
| DnsWire.TypeNumbers | Sources/NetbotDNS/Message.swift:33-99 | the type code of each of the ten decoded forms |
| DnsWire.SimpleDataOnWire | Sources/NetbotDNS/Serialization.swift:748-798 | addresses and raw data as they are, one counted string, or one name |
| DnsWire.MXOnWire | Sources/NetbotDNS/Serialization.swift:768-771 | a preference, then a name |
| DnsWire.SRVOnWire | Sources/NetbotDNS/Serialization.swift:777-782 | priority, weight and port, then a name |
| DnsWire.SOAOnWire | Sources/NetbotDNS/Serialization.swift:755-764 | two names, then five 32-bit numbers in their order |
| DnsWire.NAPTROnWire | Sources/NetbotDNS/Serialization.swift:783-793 | two numbers, three counted strings, then a name |
| DnsWire.LongOnWire | Sources/NetbotDNS/Serialization.swift:692-697 | a 32-bit number is written with its highest octet first |
| DnsWire.NameOnWire | Sources/NetbotDNS/Serialization.swift:699-733 | a name is a zero octet, or a known suffix as a pointer with the two high bits set, or a counted label and the rest |
| DnsWire.NameIsRemembered | Sources/NetbotDNS/Serialization.swift:707-732 | exactly the suffixes that were not known are remembered, each at the offset where it is written |
| DnsWire.MessageReads | Sources/NetbotDNS/Serialization.swift:28-77 | a message that is read has its sections after the header in order, as many items in each as its count says |
| DnsWire.SectionReads | Sources/NetbotDNS/Serialization.swift:36-66 | a section is read item by item, and fails as the first that fails |
| DnsWire.HeaderReads | Sources/NetbotDNS/Serialization.swift:191-234 | a header is read exactly if there are twelve octets, and its six numbers are these, in order |
| DnsWire.QuestionReads | Sources/NetbotDNS/Serialization.swift:36-42 | the type and the class of a question are the two words after its name |
| DnsWire.RecordReads | Sources/NetbotDNS/Serialization.swift:411-538 | for every buffer: type, class and time to live of a record are the numbers after its name, its data must be in the buffer, and a raw record has class 1 and as data the counted octets |
| DnsWire.TypesRead | Sources/NetbotDNS/Serialization.swift:442-535 | which type code is read as which form, and that addresses must have their length |
| DnsWire.LengthIsIgnored | Sources/NetbotDNS/Serialization.swift:442-535 | for the other decoded types the length field does not matter |
| DnsWire.RawRecordPassesThrough | Sources/NetbotDNS/Serialization.swift:529-535 | a raw record of class 1 that is read and written again keeps type, class, time to live, length and data octet for octet |
| DnsWire.SignedReads | Sources/NetbotDNS/Serialization.swift:428-431 | a time to live is read as a two's complement number, highest octet first |
| DnsWire.NameEdges | Sources/NetbotDNS/Serialization.swift:256-263 | a name ends at the end of the buffer or at a zero octet, and a label or pointer that runs out of the buffer is refused |
| DnsWire.LabelReads | Sources/NetbotDNS/Serialization.swift:285-295 | a label is the counted octets, a dot before the rest unless the name ends there |
| DnsWire.PointerReads | Sources/NetbotDNS/Serialization.swift:266-284 | a pointer of any buffer is read as the name at its fourteen-bit offset, and the cursor stops after it |
| DnsLimits.SmallMessageRoundTripsExactly | Sources/NetbotDNS/Serialization.swift:653-686 | a message of at most 16 KiB comes back unchanged exactly when its names have no empty label and no label of 192 bytes or more, its counted strings have at most 255 bytes, and its raw records have the default class, an undecoded type and at most 65535 bytes |
| DnsLimits.RoundTripsExactly | Sources/NetbotDNS/Serialization.swift:653-686 | the same for a message of any size in which every name suffix is first written below offset 0x4000 |
| DnsLimits.ParsedMessageIsPlain | Sources/NetbotDNS/Serialization.swift:529-535 | no message that was read holds raw data of a type the reader decodes or longer than its length field can say |
| DnsLimits.ParsedMessageIsShort | Sources/NetbotDNS/Serialization.swift:28-77 | no message that is read, from any bytes, has a label of 192 bytes or more or a counted string of more than 255 |
| DnsMisread.LongLabelNeverComesBack | Sources/NetbotDNS/Serialization.swift:725 | a faithful message that the writer accepts, with one label of 192 to 255 bytes, never comes back |
| DnsMisread.LongRawComesBackShort | Sources/NetbotDNS/Serialization.swift:801-803 | a message with raw data of more than 65535 bytes comes back with the data cut to that length |
| DnsMisread.LateMessageIsMisread | Sources/NetbotDNS/Serialization.swift:714 | a faithful message whose third answer repeats a name at offset 0x400C does not come back |
| DnsMisread.BackwardPointerCanLoop | Sources/NetbotDNS/Serialization.swift:266-284 | a datagram whose pointers all go to earlier bytes and which the reader never finishes |
| DnsReturns.MessageDivergesExactlyOnCycle | Sources/NetbotDNS/Serialization.swift:28-77 | for every datagram, reading it fails to return exactly when one of the names the reader comes to has a pointer cycle |
| DnsCodec.MessageWriter.AppendName | Sources/NetbotDNS/Serialization.swift:699-733 | the loop appends the encoded name and leaves the dictionary as specified |
| DnsCodec.MessageWriter.AppendRecord | Sources/NetbotDNS/Serialization.swift:735-811 | writing a zero length, the data, and then patching the length appends the encoded record |
| DnsCodec.SerializeMessage | Sources/NetbotDNS/Serialization.swift:653-686 | the loops over the four sections produce the bytes that the round trip is proved for |
| DnsCodec.ParseDomainName | Sources/NetbotDNS/Serialization.swift:251-299 | the label loop with its recursive jumps gives the specified outcome on every input, counting the jumps |
| DnsCodec.ReadData | Sources/NetbotDNS/Serialization.swift:442-535 | the switch on the type and the reads of each form give the specified data |
| DnsCodec.ReadRecord | Sources/NetbotDNS/Serialization.swift:411-538 | the reads of a record give the specified record or failure |
| DnsCodec.ReadQuestions | Sources/NetbotDNS/Serialization.swift:36-42 | the counting loop reads the specified questions, or fails as the first that fails |
| DnsCodec.ReadRecords | Sources/NetbotDNS/Serialization.swift:44-66 | the same for the records of a section |
| DnsCodec.ParseBytes | Sources/NetbotDNS/Serialization.swift:28-77 | the four section loops read the specified message, on every input |
| DnsCodec.ReadIsWritable | Sources/NetbotDNS/Serialization.swift:725 | the writer does not trap on any message that was read, from any bytes |
| Glue.StepKeepsOrder | Sources/NetbotLite/GlueHandler.swift:55-81 | every step keeps done and queued transfers equal to those seen, in order |
| Glue.StepKeepsPlaces | Sources/NetbotLite/GlueHandler.swift:125-144 | every step leaves each read request in exactly one place: a queue, remembered, or forwarded |
| Glue.StepKeepsGuard | Sources/NetbotLite/GlueHandler.swift:83-93 | every step keeps a wake-up behind each read that is remembered while the partner is writable |
| Glue.Reachable | Sources/NetbotLite/GlueHandler.swift:50-144 | order, places and wake-ups hold in every state of every interleaving |
| Glue.DoneIsPrefixOfSeen | Sources/NetbotLite/GlueHandler.swift:55-103 | what is done on the partner is a prefix, in order, of what was seen, so a flush or close runs after all earlier writes |
| Glue.LostExactlyEarly | Sources/NetbotLite/GlueHandler.swift:125-144 | a read request is lost exactly when it was made before the partner had a context |
| Glue.EarlyReadIsLost | Sources/NetbotLite/GlueHandler.swift:131-143 | such a read stays lost even when the partner is writable and all queues have run |
| Glue.DroppedExactlyEarly | Sources/NetbotLite/GlueHandler.swift:64-72 | what is dropped is exactly what was seen before the partner had a context |
| Glue.NothingIsStuck | Sources/NetbotLite/GlueHandler.swift:83-144 | from every reachable state the queues run empty, everything seen is then delivered, and every read with a writable partner is forwarded unless it was made too early |
| GluePressure.ReadsAreHeld | Sources/NetbotLite/GlueHandler.swift:83-144 | in every run, a read is forwarded only if the partner was writable when it was checked or announced later that it was; every other checked read is remembered |
| GluePressure.UnwritablePartnerHoldsReads | Sources/NetbotLite/GlueHandler.swift:125-144 | in every run in which the partner is never writable, no read is forwarded |
| LruCaching.LruCache.Unlink | Sources/NetbotDNS/LRUCache.swift:120-134 | taking a node out keeps the links mutual inverses and the ends right, and cuts the list at that node |
| LruCaching.LruCache.Prepend | Sources/NetbotDNS/LRUCache.swift:136-146 | a node put in front keeps the links mutual inverses and the ends right |
| LruCaching.LruCache.MoveToHead | Sources/NetbotDNS/LRUCache.swift:148-152 | the node moves to the front, the others keep their order |
| LruCaching.LruCache.Value | Sources/NetbotDNS/LRUCache.swift:83-91 | fetching refines looking up in the recency list and touching the entry |
| LruCaching.LruCache.RemoveValue | Sources/NetbotDNS/LRUCache.swift:72-80 | removing refines removal from the recency list and returns what was there |
| LruCaching.LruCache.SetValue | Sources/NetbotDNS/LRUCache.swift:45-68 | setting refines putting in the recency list, with eviction of the last entry; setting nothing removes |
| LruCaching.LruCache.RemoveAllValues | Sources/NetbotDNS/LRUCache.swift:94-100 | clearing empties the list and the dictionary |
| LruCaching.LruCache.First | Sources/NetbotDNS/LRUCache.swift:174-189 | the walk along the links returns the most recent entry that satisfies the predicate |
| RecencyRuns.ContentsAreBounded | Sources/NetbotDNS/LRUCache.swift:45-100 | after any run the keys are distinct and at most `capacity` many |
| RecencyRuns.CachedIsLastSet | Sources/NetbotDNS/LRUCache.swift:45-100 | after any run, what is cached for a key is what was last set and not removed since |
| RecencyRuns.PushedOut | Sources/NetbotDNS/LRUCache.swift:59-66 | only a new key pushes another out, and only once `capacity` keys are in front of it |
| RecencyRuns.RecentStaysCached | Sources/NetbotDNS/LRUCache.swift:45-100 | after any run, a key stays cached while fewer than `capacity` others were used since its last use |
| RecencyRuns.CachedExactly | Sources/NetbotDNS/LRUCache.swift:45-91 | after any run without removals, a key is cached exactly when fewer than `capacity` others were used since |
| RecencyRuns.RemovalMakesRoom | Sources/NetbotDNS/LRUCache.swift:72-80 | with a removal, a key can outlast more rivals than that |
| AddressPool.Pool.Allocate | Sources/NetbotDNS/AvailableIPPool.swift:107-122 | the three conditional counter updates amount to one allocation that skips both bounds |
| AddressPool.NextWraps | Sources/NetbotDNS/AvailableIPPool.swift:60 | the counter advances modulo the number of addresses of its width |
| AddressPool.InsideExactly | Sources/NetbotDNS/AvailableIPPool.swift:107-122 | an allocation is strictly between the bounds exactly when they leave room and the counter is within them |
| AddressPool.NoRoomHandsOutUpper | Sources/NetbotDNS/AvailableIPPool.swift:114-118 | with adjacent bounds the upper bound is handed out |
| AddressPool.HandedInTurn | Sources/NetbotDNS/AvailableIPv6Pool.swift:106-121 | the i-th allocation from any counter within the bounds is the i-th usable address from there, around the cycle, for any width |
| AddressPool.NoEarlyRepeat | Sources/NetbotDNS/AvailableIPPool.swift:107-122 | no address comes back before all others were handed out, and then it does |
| AddressPool.EveryAddressIsHandedOut | Sources/NetbotDNS/AvailableIPPool.swift:107-122 | every address strictly between the bounds is among the next upper - lower - 1 |
| AddressBlock.ContainsExactly | Sources/NetbotDNS/AvailableIPPool.swift:99-101 | for every width, address and prefix length, the interval test holds exactly when the leading bits agree |
| AddressBlock.BlockSize | Sources/NetbotDNS/AvailableIPv6Pool.swift:98-100 | the masks bound a block of two to the number of host bits |
| AddressBlock.PoolStaysInBlock | Sources/NetbotDNS/AvailableIPPool.swift:88-122 | all allocations of a pool over a block are strictly inside it exactly when two host bits are left |
| AddressBlock.PoolEnumeratesBlock | Sources/NetbotDNS/AvailableIPPool.swift:88-122 | such a pool hands out every address that shares the prefix, but the first and last, before any comes back |
| CidrRule.MatchesExactly | Sources/Netbot/Forwarding Rules/IPCIDRForwardingRule.swift:80-100 | the rule matches exactly when the request's address or a resolved one is of the block's family and shares its prefix |
| CidrRule.HostBlocks | Sources/Netbot/Forwarding Rules/IPCIDRForwardingRule.swift:80-100 | a block with a prefix of 32 or 128 bits holds its address and no other |
| FakeDns.QueryDisguised | Sources/NetbotDNS/LocalDNSProxy.swift:405-423 | a cached name keeps its address, a new one takes the pool's next; the answer ends up in front |
| FakeDns.FindName | Sources/NetbotDNS/LocalDNSProxy+Resolvers.swift:154-160 | the reverse lookup returns the most recent name with that address |
| FakeDns.RunsKeepInv | Sources/NetbotDNS/LocalDNSProxy.swift:405-423 | in any interleaving of lookups, allocations and stores, every cached or pending answer was taken from the pool for its name |
| FakeDns.FewAreCurrent | Sources/NetbotDNS/LocalDNSProxy.swift:405-423 | in any interleaving that took at most upper - lower - 1 addresses, every cached answer is among the last upper - lower - 1 taken |
| FakeDns.NamesKeepApart | Sources/NetbotDNS/LocalDNSProxy.swift:405-423 | as long as that holds, however many addresses were taken, no two cached names share one |
| FakeDns.ReverseInverts | Sources/NetbotDNS/LocalDNSProxy+Resolvers.swift:154-160 | as long as it holds, the reverse lookup of an address is a name exactly when the table maps that name to it |
| FakeDns.FreshAnswerReversesSafely | Sources/NetbotDNS/LocalDNSProxy.swift:421-422 | right after an answer is stored its address leads back to its name, whatever came before |
| FakeDnsRuns.RememberedExactly | Sources/NetbotDNS/LocalDNSProxy.swift:405-423 | a name is remembered exactly while fewer than `capacity` other names were asked for since |
| FakeDnsRuns.SameAnswer | Sources/NetbotDNS/LocalDNSProxy.swift:405-423 | and until then gets the same address every time |
| FakeDnsRuns.HistoryIsRun | Sources/NetbotDNS/LocalDNSProxy.swift:405-423 | queries one after another are a run of the interleaved resolver |
| FakeDnsRuns.OneMoreCanClash | Sources/NetbotDNS/LocalDNSProxy.swift:405-423 | for every pool, one address more and a remembered address can lead back to another name |
| FakeDnsRuns.LastAnswerReverses | Sources/NetbotDNS/LocalDNSProxy.swift:405-423 | while a name is remembered, within what the pool has, the address last given for it leads back to it |
| FakeDnsRuns.RaceLosesAnAnswer | Sources/NetbotDNS/LocalDNSProxy.swift:405-423 | a run: two overlapping queries for one name take two addresses, and the first stored leads nowhere afterwards |
| FakeDnsRaces.OneAddressExactly | Sources/NetbotDNS/LocalDNSProxy.swift:405-423 | in every run within what the pool has, a name never has two addresses at a time exactly when no address is taken for it while it has one |
| FakeDnsRaces.CarefulAnswersReverse | Sources/NetbotDNS/LocalDNSProxy.swift:405-423 | in such a run every answer given for a name leads back to it for as long as the name is remembered |
| FakeDnsRaces.CarelessAnswerIsLost | Sources/NetbotDNS/LocalDNSProxy.swift:405-423 | otherwise the two addresses differ, and in every later state one of them leads nowhere |
| FakeDnsRaces.OneAtATimeIsCareful | Sources/NetbotDNS/LocalDNSProxy.swift:405-423 | calls for a name that do not overlap meet the condition |
| FakeDnsRaces.RunOfMoves | Sources/NetbotDNS/LocalDNSProxy.swift:405-423 | the runs these are about are all the runs: whatever moves reach, such a run reaches |
| FakeDnsRuns.ReverseNameReadsBack | Sources/NetbotDNS/LocalDNSProxy+Resolvers.swift:133-142 | stripping the suffix and reversing the labels of an address's reverse name gives that address |
| FakeDnsRuns.ReverseQueryFindsName | Sources/NetbotDNS/LocalDNSProxy+Resolvers.swift:133-161 | from text to text, as long as it holds: a reverse query for an address is answered with a name exactly when the table maps that name to it |
| FakeDnsRuns.QueryPtrExactly | Sources/NetbotDNS/LocalDNSProxy+Resolvers.swift:133-161 | a reverse query is passed on exactly when it is not for an address or for one outside the pool, answered with nothing exactly when it is for one that no cached name has, and otherwise with a name that the table maps to it |
| FakeDnsRuns.FourPartsAreReversed | Sources/NetbotDNS/LocalDNSProxy+Resolvers.swift:133-142 | the name d.c.b.a.in-addr.arpa asks for a.b.c.d |
| FakeDnsRuns.SuffixSpelled | Sources/NetbotDNS/LocalDNSProxy+Resolvers.swift:133-137 | the suffix that is stripped is ".in-addr.arpa" |
| RuleScan.ChooseRule | Sources/NetbotLite/RulesEngine.swift:85-107 | the loop with its break and its remembered FINAL rule makes the specified choice |
| RuleScan.ChoiceByPosition | Sources/NetbotLite/RulesEngine.swift:85-107 | the choice is the first match; else the last FINAL rule; else the built-in one; a throwing rule is passed over |
| RulesEngine.StepKeepsOneScan | Sources/NetbotLite/RulesEngine.swift:79-120 | every step keeps in-flight hosts and unfinished scans in one-to-one correspondence |
| RulesEngine.StepKeepsInv | Sources/NetbotLite/RulesEngine.swift:48-129 | every step keeps cached, scanned and returned rules choices of some list set so far for that host |
| RulesEngineRuns.ScansAreShared | Sources/NetbotLite/RulesEngine.swift:79-120 | in every run, two scans for one host never overlap |
| RulesEngineRuns.AnswersAreChoices | Sources/NetbotLite/RulesEngine.swift:55-129 | in every run, an answer is what some list set so far gives for some connection to that host that was looked up, or the built-in rule without a host |
| RulesEngineRuns.HostOnlyAnswers | Sources/NetbotLite/RulesEngine.swift:68-76 | when rules look at the host only, it is what a list gives for the connection itself |
| RulesEngineRuns.SharedHostSharesRule | Sources/NetbotLite/RulesEngine.swift:68-76 | otherwise a connection can get a rule that no list gives for it |
| RulesEngineRuns.CoherentExactly | Sources/NetbotLite/RulesEngine.swift:48-53 | at every point of every run, all cached rules are and stay what the current list gives, however the run goes on until the list is replaced, exactly when they are now and no scan holds a copy that makes another choice |
| RulesEngineRuns.ResetIsCoherentExactly | Sources/NetbotLite/RulesEngine.swift:48-53 | right after a reset that is a matter of the scans alone |
| RulesEngineRuns.QuietChangeIsCoherent | Sources/NetbotLite/RulesEngine.swift:48-53 | if no lookup is in flight when the rules are set, then after the reset, whatever comes between the two, the cache is and stays coherent |
| RulesEngineRuns.OutdatedIsServed | Sources/NetbotLite/RulesEngine.swift:87-108 | saving an outdated choice makes the cache incoherent, and the next lookup of that connection gets a rule the current list does not give |
| RulesEngineRuns.OldRuleAfterReset | Sources/NetbotLite/RulesEngine.swift:48-108 | a run in which a lookup that starts after the rules were replaced and the cache reset is answered with an old rule |
| RulesEngineRuns.WaitEnds | Sources/NetbotLite/RulesEngine.swift:122-128 | from every state of every run, a waiting lookup is answered by at most three steps of the scan it waits for and its own return |
| RulesEngineCache.CacheIsRecencyList | Sources/NetbotLite/RulesEngine.swift:48-108 | in every run the cache is the bounded recency list of the hosts looked up and saved since the last reset |
| RulesEngineCache.RecentHostIsServed | Sources/NetbotLite/RulesEngine.swift:68-76 | a lookup is answered at once with the rule last saved for its host, as long as fewer than `capacity` other hosts were used since |
| RulesEngineCache.UnsavedHostMisses | Sources/NetbotLite/RulesEngine.swift:68-81 | a host for which nothing was saved since the last reset misses |
| StreamWriter.LwipConnection.Buffer | Sources/NetbotLwIP/LwIPConnection.swift:242-251 | a write is queued last exactly when the channel and its output are open |
| StreamWriter.LwipConnection.WriteFirst | Sources/NetbotLwIP/LwIPConnection.swift:184-230 | one round hands over as much of the first write as fits and makes the stack send it; it fails exactly if the stack refuses something, and otherwise completes the write or keeps its rest |
| StreamWriter.LwipConnection.WriteToSocket | Sources/NetbotLwIP/LwIPConnection.swift:183-232 | the loop ends, keeps the stream in order, with any room makes progress, fails exactly if the stack refuses something, and otherwise leaves nothing unsent |
| StreamWriter.LwipConnection.FailPending | Sources/NetbotLwIP/LwIPConnection.swift:65-67 | the queue is emptied and exactly the writes without an outcome fail |
| StreamWriter.LwipConnection.Close | Sources/NetbotLwIP/LwIPConnection.swift:51-92 | which directions are closed afterwards, that the second one closes the channel, that the promise is forgotten exactly when the first direction is closed alone, and fulfilled exactly when the stack was closed |
| StreamWriter.LwipConnection.CloseAll | Sources/NetbotLwIP/BaseSocketChannel.swift:196-226 | everything is closed, every accepted write has an outcome, also after a failed write, and the promise says whether the stack could be closed |
| StreamWriter.LwipConnection.FlushNow | Sources/NetbotLwIP/BaseSocketChannel.swift:338-356 | the loop ends, with nothing flushed left, or the channel closed, or at most 100 bytes of room; the channel closes exactly if the stack refuses something, and nothing is handed over without room |
| StreamWriter.LwipConnection.Flush | Sources/NetbotLwIP/BaseSocketChannel.swift:270-280 | a flush leaves the queue empty unless the channel closed or the stack is short of room; if nothing is refused no write fails and nothing stays unsent; with room for all that is queued, everything accepted is handed over and has succeeded |
| StreamWriter.LwipConnection.AfterSent | Sources/NetbotLwIP/LwIPConnection.swift:128-142 | an acknowledgement resumes flushing until nothing flushed is left, or the channel closed, or the stack is short of room |
| StreamWriter.SinkIsPrefix | Sources/NetbotLwIP/LwIPConnection.swift:183-232 | what the stack has is always a prefix of the accepted writes in order |
| StreamWriter.SuccessMeansHanded | Sources/NetbotLwIP/LwIPConnection.swift:211-215 | a write that succeeded, and every earlier one, was handed over to its last byte |
| StreamWriter.StreamIsConserved | Sources/NetbotLwIP/LwIPConnection.swift:183-251 | while output is open, what the stack has and what is queued make up the accepted stream |
| StreamWriter.QueuedBytesMeaning | Sources/NetbotLwIP/LwIPConnection.swift:242-251 | the room that a flush needs is that of the queued stream |
| Checksum.ComputeChecksum | Sources/NetbotLwIP/Checksum.swift:19-41 | the summing and folding loops give the complement of the sum's residue modulo 0xFFFF |
| Checksum.ResidueMeaning | Sources/NetbotLwIP/Checksum.swift:36-40 | the residue is the one number that is congruent to the sum modulo 0xFFFF, from 1 to 0xFFFF unless the sum is zero |
| Checksum.SumSplits | Sources/NetbotLwIP/Checksum.swift:20-33 | the sum over whole words and more octets is the sum of both |
| Checksum.SumFits | Sources/NetbotLwIP/Checksum.swift:20-33 | the sum of a packet with its pseudo header does not overflow 32 bits |
| Checksum.TwoRoundsSuffice | Sources/NetbotLwIP/Checksum.swift:36-38 | two rounds of folding are enough for any 32-bit sum |
| Checksum.VerifiesExactly | Sources/NetbotLwIP/Checksum.swift:19-41 | exactly the computed value in the skipped field makes a full sum verify, and all ones where that is zero |
| Checksum.ChangedWordIsNoticed | Sources/NetbotLwIP/Checksum.swift:19-41 | a change to one word is noticed unless it swaps all zeros and all ones |
| Ipv4Header.Header.Refresh | Sources/NetbotLwIP/NEIPFields.swift:284-287 | the stored checksum verifies and nothing else changed |
| Ipv4Header.Header.SetCodePoint | Sources/NetbotLwIP/NEIPFields.swift:73-85 | the field reads back clamped, its neighbour and all other octets are unchanged, the checksum verifies |
| Ipv4Header.Header.SetCongestion | Sources/NetbotLwIP/NEIPFields.swift:89-103 | the same for the congestion bits |
| Ipv4Header.Header.SetTotalLength | Sources/NetbotLwIP/NEIPFields.swift:106-117 | the same for the total length |
| Ipv4Header.Header.SetIdentification | Sources/NetbotLwIP/NEIPFields.swift:120-130 | the same for the identification |
| Ipv4Header.Header.SetFlags | Sources/NetbotLwIP/NEIPFields.swift:133-145 | the flags keep three bits of the value, the fragment offset is unchanged, the checksum verifies |
| Ipv4Header.Header.SetFragmentOffset | Sources/NetbotLwIP/NEIPFields.swift:148-161 | the offset is clamped, the flags are unchanged, the checksum verifies |
| Ipv4Header.Header.SetTimeToLive | Sources/NetbotLwIP/NEIPFields.swift:164-174 | the field reads back, all other octets are unchanged, the checksum verifies |
| Ipv4Header.Header.SetProtocol | Sources/NetbotLwIP/NEIPFields.swift:177-187 | the same for the protocol |
| Ipv4Header.Header.SetSource | Sources/NetbotLwIP/NEIPFields.swift:195-203 | the same for the source address |
| Ipv4Header.Header.SetDestination | Sources/NetbotLwIP/NEIPFields.swift:206-214 | the same for the destination address |
| Ipv4Header.Header.SetOptions | Sources/NetbotLwIP/NEIPFields.swift:217-263 | adding, replacing or removing options keeps header size and length field in step, payload length and fixed fields unchanged, and the checksum verified |
| Ipv4Header.OptionsReadBack | Sources/NetbotLwIP/NEIPFields.swift:217-225 | options read back padded to whole words |
| Ipv4Header.SharedOctets | Sources/NetbotLwIP/NEIPFields.swift:56-161 | in numbers, how version, header length, code point, congestion bits, flags and fragment offset share their octets |
| Udp.Datagram.ChecksumOf | Sources/NetbotLwIP/Checksum.swift:44-67 | the checksum is never zero and makes the datagram verify under its pseudo header, for even and odd lengths |
| Udp.CoveredSum | Sources/NetbotLwIP/Checksum.swift:44-67 | in numbers, what the checksum sums: both addresses, the protocol, the length, and the datagram, an odd last octet as the high one |
| Udp.Datagram.Data | Sources/NetbotLwIP/Datagram.swift:86-90 | the datagram as sent verifies and differs only in the checksum |
| Udp.Datagram.SetPayload | Sources/NetbotLwIP/Datagram.swift:66-83 | payload, clamped length fields and unchanged ports |
| Udp.TurnHeader | Sources/NetbotLwIP/LocalDNSProxy+LwIP.swift:149-157 | addresses swapped, service fields cleared, version kept, options gone, checksum verified |
| Udp.MakeResponse | Sources/NetbotLwIP/LocalDNSProxy+LwIP.swift:141-165 | the response is a well-formed packet without options, with addresses and ports swapped, both lengths right and both checksums verified |
| Accounting.Dashboard.Insert | Sources/NetbotDashboard/Model.swift:278-503 | list, index, active index, records and table stay consistent, and an update refines the specified change of the book |
| Accounting.Dashboard.PerformBatchUpdates | Sources/NetbotDashboard/Model.swift:277-325 | a batch refines its updates in order, and the listed records keep their places |
| Accounting.CountersAdd | Sources/NetbotLite/Data/DataTrasferReport.swift:185-229 | both operations act on each of the nine counters by itself |
| AccountingRuns.TotalsAreConserved | Sources/NetbotDashboard/Model.swift:440-503 | after any updates to a conserved book, each counter of the whole table equals, modulo 2^64, the sum of the latest totals of all connections |
| AccountingRuns.EmptyIsConserved | Sources/NetbotDashboard/Model.swift:440-503 | the book is conserved at the start |
| AccountingRuns.BatchesJoin | Sources/NetbotDashboard/Model.swift:277-325 | batches one after the other are one batch |
| AccountingRuns.ByProtocolExactly | Sources/NetbotDashboard/Model.swift:489-501 | an update keeps every entry equal to its connections' totals exactly when it does not move totals to another protocol |
| AccountingRuns.ProtocolTotalsAreExact | Sources/NetbotDashboard/Model.swift:469-501 | when connections keep their protocol, each entry is the 64-bit sum of the latest totals under that protocol |
| AccountingRuns.ActiveExactly | Sources/NetbotDashboard/Model.swift:316-325 | a connection is known exactly when it was reported, and active exactly when its last report said so |
| AccountingRuns.UpdateChangesOneEntry | Sources/NetbotDashboard/Model.swift:473-501 | totals change the entry of the connection's protocol, or of DIRECT where it has none, by what they add to the last ones, and no other entry |

## Left out

- Unicode: canonical equivalence of strings, splitting at grapheme boundaries and the repair of invalid UTF-8; text is compared byte by byte.
- Reading addresses from text (`IPv4Address`, `Address.Host`, the number after the slash): a parameter of the reverse query, and given bits in a block.
- DnsCodec.ParseDomainName: has a count of jumps that the original has not, and says `Diverges` at 0x4000 of them, where the original would never return (`JumpBoundIsExact`).
- Accessors of the DNS header flags: sixteen bits carried as one number.
- `LocalDNSProxy.query(msg:)` and the background address queries: sockets, timers and transaction ids.
- Glue: removal of a handler, which clears its context and partner, so that nothing is forwarded any more and a later read is remembered without a wake-up; and the close on a quiesce event.
- DnsLimits.RoundTripsExactly: leaves open which messages with a suffix first written at 0x4000 or later come back; that depends on whether such a suffix is repeated and on what happens to stand 0x4000 bytes earlier (`LateRepeatIsMisread`, `LateMessageIsMisread`).
- AddressPool.Pool.Allocate: is one step, although the original makes several atomic accesses that other calls may come between.
- LruCaching: the locks (every operation is one step), and `forEach`, the walk of `first(where:)` without a predicate.
- FakeDns: expiry times of the records, which a query refreshes and nothing in the table reads.
- RulesEngine: dates and durations of reports; the judgement of a rule is a function of the rule and the connection.
- StreamWriter: callbacks that a completed promise runs at once and that write, flush or close again; reads; the events fired into the pipeline.
- StreamWriter.TcpStack: takes any subset of writes and outputs to fail; the contents of segments and retransmission belong to the stack.
- The marked queue and the promises of SwiftNIO are not part of this model's sources: a mark is put on the last element and moves with it, and the first outcome of a promise stands.
- Ipv4Header: IPv6 headers, and the getters' index arithmetic over the buffer's storage.
- Udp: choosing which packets are answered, and what the DNS message in the response says.
- Accounting: a connection's report holds its totals as one value, where the original copies counters into objects of their own; round-trip times, which are floating-point numbers taken from the newer report, the linked program and process records, and the database variant.
- HTTP, SOCKS, VMESS and Shadowsocks, TLS, profiles, the user interface and platform services: protocol and library plumbing outside the core modelled here.
