# Verified models of sabre's core

sabre is a JSON-RPC load balancer for EVM chains. This project models the parts of it in which a slip would hand a
client somebody else's answer, and proves that they do not.

- **Multicall3 fusion** (`Words`, `Abi`, `Codec`, `Decoder`, `Rpc`, `Fusion`, `Meaning`). The encoders fill a byte
  buffer in place and are proved equal to a recursive definition of the Solidity ABI encoding; the decoders, with Go's
  64-bit conversions written out, invert them. `Meaning.FusionPreservesMeaning` says that fusing the `eth_call`s of a
  batch and fanning the answers out again changes nothing for anybody, in whatever order the upstream replies.
- **The batch processor** (`Delivery`, `Exchanges`, `Protocol`, `ProtocolProofs`, `ProtocolRuns`, `BatchProcessing`,
  `RunMessages`, `OwnCalls`). Every critical section, channel operation and context event of `AddRequest`, `FlushAll`
  and the `processBatch` goroutines is one atomic step; the theorems hold in every interleaving with any upstream. The
  class `BatchProcessor` makes the same steps on its fields. `OwnCalls.CallersGetTheirOwnAnswers` joins this part with
  the first: a caller gets the answer to its own call whether or not that call was fused, and whatever its
  neighbours send.
- **The reorg-aware cache** (`Tracker`, `Cache`, `CacheRaces`, `Partial`, `MulticallRequests`, `MulticallCases`,
  `CacheStore`). A pruned block-hash index is compared with the full history of reports; the memory tier over the disk
  tier is followed through runs with eviction, promotion and reorg purges; and serving a multicall wholly or partly
  from the cache is compared with sending it upstream. The class `CacheStore` makes the same steps on its fields, loops
  included.
- **Batch replies in the router** (`Router`): answers are put back in request order by id, merged with cached answers
  by position, and stored under the right keys. JSON-RPC 2.0, section 6, lets a batch be answered in any order.
- **Selection and head knowledge** (`HeadKnowledge`, `Balancer`, `Latency`): a weighted pick with fallback, the
  weights it goes by, and two lock-free loops that keep a backend's head.
- **The delivered-header window** (`Delivered`): bounded memory that tells news from repeats as unbounded memory
  would.

`Options` and `Collections` hold what several of them share.

Abstractions that run through the models: JSON text is already parsed, hex strings are byte sequences or malformed
text, key functions are injective constructors in three disjoint namespaces, clocks, random draws, limiter answers,
the upstream's replies and the power function are parameters. Batches and calls of the processor are numbered rather
than allocated.

Where the code does not keep what one would expect of it, the failing input and the exact condition are theorems:

- a decoder slices out of bounds on words too large for its int arithmetic (`Decoder.DecodeCallsFaultsExactly`,
  `Decoder.DecodeResultsFaultsExactly`, `Decoder.AllOnesOffsetFaults`), and in a goroutine of the batch processor that
  ends the process (`Delivery.MessagesFaultExactly`, `Delivery.OneReplyPanics`, `ProtocolRuns.CrashStrandsEveryone`);
- a call whose block parameter is an object is read at latest when fused, and one with a fee cap or another member
  that is not looked at loses it (`Meaning.FusedAnswerExactly`, `Meaning.PinnedCallIsReadAtLatest`,
  `Meaning.FeeCapIsDropped`);
- a cached body can come back after its key was overwritten by a short-lived one (`Cache.OverwrittenBodyExactly`,
  `Cache.OverwrittenBodyComesBack`), or by a promotion that comes late (`CacheRaces.PromotionUndoesWrite`), and a
  write that comes late escapes a reorg's purge (`CacheRaces.PutOutlivesPurge`);
- a multicall served from the cache answers where the chain would revert when a call that may not fail is cached as
  failing (`Partial.PartialRefinesFull`, `Partial.ServedToleratedExactly`, `Partial.CachedFailureIsNotFatal`);
- the cache takes any `eth_call` with the calldata of a multicall for the calls it wraps, whatever contract it is
  addressed to and whatever else it says: it can be answered for Multicall3, or for another context, and the reply
  stored as if it were Multicall3's for every context (`MulticallRequests.PartialServingExactly`,
  `MulticallRequests.WholeServingExactly`, `MulticallRequests.StoringExactly`,
  `MulticallCases.PinnedMulticallGoesWrong`, `MulticallCases.OverriddenAnswerIsKept`,
  `MulticallCases.StrangerIsBelieved`);
- a batch whose requests share an id can get its answers crossed (`Router.AlwaysRightExactly`,
  `Router.SharedIdsMayCross`).

## Model

| member | source | states |
|---|---|---|
| Words.ReadWord | internal/backend/multicall.go:684-690 | readUint256 gives back any uint64 that writeUint256 wrote into a 32-byte word |
| Words.WordLayout | internal/backend/multicall.go:684-686 | a uint64 as a 32-byte ABI word is 24 zero bytes and then eight big-endian bytes, which is all Go writes |
| Codec.CallsLayout | internal/backend/multicall.go:505-562 | the recursive ABI encoding of the calls array, laid out flat: length, one offset per call, then each call's body |
| Codec.ResultsLayout | internal/backend/multicall.go:566-609 | the same for the array of (bool, bytes) results |
| Codec.EncodeAggregate3 | internal/backend/multicall.go:505-562 | the buffer filled in place is the selector and the ABI encoding of ((address,bool,bytes)[]) for every list of calls |
| Codec.EncodeAggregate3Result | internal/backend/multicall.go:566-609 | the buffer filled in place is the ABI encoding of ((bool,bytes)[]) for every list of results |
| Decoder.DecodeAggregate3Calls | internal/backend/multicall.go:99-147 | the loop computes DecodeCalls, with Go's uint64-to-int conversions, rejections and slice bounds |
| Decoder.DecodeAggregate3Result | internal/backend/multicall.go:613-682 | the loop computes DecodeResults, likewise |
| Decoder.DecodeCallsInvertsEncode | internal/backend/multicall.go:98-147 | decoding an encoded list of 1 to 10000 calls, with calldata of any length, gives exactly that list |
| Decoder.DecodeResultsInvertsEncode | internal/backend/multicall.go:566-682 | decoding an encoded list of 0 to 10000 results gives exactly that list |
| Decoder.DecodeCallsExactly | internal/backend/multicall.go:99-147 | on any bytes a Go slice can hold, these calls are decoded exactly when the calldata holds them: the selector, an offset inside that leads to their number, 1 to 10000, and to offsets of which each leads to a target, a flag that is any byte but zero, and as many bytes as their length word says |
| Decoder.DecodeResultsExactly | internal/backend/multicall.go:613-682 | the same for up to 10000 results |
| Decoder.DecodeCallsFaultsExactly | internal/backend/multicall.go:99-147 | on any bytes a Go slice can hold, the decoder slices out of bounds exactly when one of the words it reads is too large for its int arithmetic (CallDataWraps says which); everything else it decodes or rejects |
| Decoder.DecodeResultsFaultsExactly | internal/backend/multicall.go:613-682 | the same for the result decoder (ResultDataWraps) |
| Decoder.AllOnesOffsetFaults | internal/backend/multicall.go:108-113 | a concrete input out of bounds for each decoder: an array offset with all its bits set |
| Fusion.AggregateEthCalls | internal/backend/multicall.go:237-355 | splitting, grouping by tag in order of appearance, chunking by maxCalls and appending computes the plan Aggregated describes |
| Fusion.SplitEligible | internal/backend/multicall.go:242-274 | the requests that may be fused and the others, each in order |
| Fusion.GroupByTag | internal/backend/multicall.go:280-288 | each tag's calls in order, and the tags by first appearance |
| Fusion.AppendChunk | internal/backend/multicall.go:303-350 | a lone call goes out as it came; two or more become one aggregate3 request under a fresh id, with entries that say whose slot is whose |
| Meaning.SplitInOrder | internal/backend/multicall.go:242-274 | the fusable calls and the other requests are what the batch holds at the positions of each, in order |
| Meaning.TaggedInOrder | internal/backend/multicall.go:280-288 | a tag's calls are the fusable calls with that tag, in order |
| Meaning.TagsByFirstAppearance | internal/backend/multicall.go:280-288 | a tag that comes before another has a call before the other's first |
| Meaning.WireRequestsExactly | internal/backend/multicall.go:237-355 | fewer than two fusable calls go out as they came; otherwise each tag's calls take as many wire requests as there are chunks of maxCalls |
| Meaning.ChunksAreFewest | internal/backend/multicall.go:296-300 | that is as few as can hold them |
| Meaning.FusableExactly | internal/backend/multicall.go:242-274 | of the calls with plain parameters those are fused whose answer is the read at every node, so none with a sender, gas, value or overrides of its own; of the others, those that would be such a call with plain parameters in place of their own |
| Meaning.AddressExactly | internal/backend/multicall.go:696-708 | a target of any length is the address of its number modulo 2^160, and text that is not hex is the zero address |
| Fusion.ExpandMulticallResponses | internal/backend/multicall.go:378-486 | the replies to the original requests, recovered from the replies to the wire requests, or a panic when decoding one of them panics; Exchanges.FusedCallersAreTold says what that is for each request |
| Fusion.FanOut | internal/backend/multicall.go:396-482 | one reply per entry in every way a fused reply can go (missing, error, not a string, undecodable, wrong count, results), or the panic of the decoder it went to |
| Rpc.DirectRepliesReordered | internal/backend/multicall.go:237-355 | the replies to a list of requests, as a bag, do not depend on the order of the requests |
| Meaning.GroupedIsAll | internal/backend/multicall.go:280-352 | the chunks of all tags contain every fusable call exactly once |
| Meaning.ChunkFaithful | internal/backend/multicall.go:296-346 | slot j of the decoded answer to a fused request is the answer call j would have had on its own |
| Meaning.AddTagsSound | internal/backend/multicall.go:284-353 | however many tags are placed, what goes out and what is recorded conserve the requests, and every fused request is recorded as standing for two to maxCalls fusable calls of the batch with its tag |
| Meaning.FullIsComplete | internal/backend/multicall.go:237-355 | the finished plan accounts for every request of the batch once, and the ids it sends under tell all wire requests apart |
| Meaning.FusionPreservesMeaning | internal/backend/multicall.go:237-486 | for every batch, upstream, maxCalls in 1..10000 and order of replies, expansion does not panic and yields exactly the replies the requests would have had one by one |
| Meaning.FusedAnswerExactly | internal/backend/multicall.go:202-231 | a fused call is answered with the read at the tag its block parameter was taken for; that is its own answer at every node with these reads exactly when its parameters are plain (twenty-byte target, hex data, no further members of the call object, a block that is absent or a non-empty string), which can be seen in the request |
| Meaning.PlainExactly | internal/backend/multicall.go:202-231 | a read is the answer to an eligible request whatever else the node does exactly when its parameters are plain |
| Meaning.PinnedCallIsReadAtLatest | internal/backend/multicall.go:213-219 | a concrete batch of two calls, one pinned to block 5 by an object as EIP-1898 allows: both are answered as of latest |
| Meaning.FeeCapIsDropped | internal/backend/multicall.go:164-231 | a concrete batch of two calls, one with a fee cap in its call object: it may be fused, and both are answered without the cap |
| Delivery.Deliver | internal/backend/batch.go:291-319 | each entry gets the first reply that names its position, and an error when none does |
| Delivery.ProcessLive | internal/backend/batch.go:262-319 | one message per live entry, as Messages defines them, for any reply list whose fused replies decode without panic, and otherwise a panic and no message at all |
| Delivery.MessagesFaultExactly | internal/backend/batch.go:284-288 | the expansion panics exactly when the reply looked up for some fused call is a hex result with a word too large for the decoder (ResultDataWraps): then nobody of the batch is answered, and otherwise everybody is |
| Delivery.OneReplyPanics | internal/backend/multicall.go:434 | a concrete such reply, to two calls fused |
| Delivery.ShapedMapping | internal/backend/multicall.go:284-353 | for any requests at all, every recorded slot belongs to a request of the batch |
| Delivery.NoCrossTalk | internal/backend/batch.go:262-319 | for any replies (reordered, duplicated, dropped, junk) on which the expansion does not panic, and any colliding client ids, entry i gets its own id and a payload labelled i, its own slot of a fused reply, or an error made locally |
| Delivery.OwnErrorsExactly | internal/backend/batch.go:284-319 | a caller is told that the exchange failed exactly when it did, and that its response is missing exactly when, of the replies in the end, none names its position |
| Delivery.OwnAnswer | internal/backend/batch.go:262-319 | when the upstream answers what it is sent, in any order, entry i gets the answer to its own call under its own id |
| Exchanges.CarriedAnswer | internal/backend/batch.go:262-319 | whatever calls a batch holds, and with a node of its own for every wire request, answered in any order: entry i gets under its own id what the node that got the wire request with its call makes of it, its answer to the call when that went out as it came and the read it is taken for when it was fused |
| Exchanges.ViaIsDirect | internal/backend/multicall.go:202-231 | this is that node's own answer to the call unless the call was fused without being plain |
| Exchanges.CarriedDecodes | internal/backend/batch.go:284-288 | replies of nodes that answer what they are sent never make the expansion panic, whatever the calls |
| Exchanges.FusedCallersAreTold | internal/backend/multicall.go:396-482 | whatever the upstream replies, the caller of a fused call is told, under its own id, what the reply to the fused request says: that there is none, the upstream's own error, that the result is no hex string, does not decode or has another number of results, and otherwise its own slot |
| Exchanges.LookupIsLast | internal/backend/multicall.go:378-382 | of several replies with one id the last counts |
| Exchanges.FirstForIsFirst | internal/backend/batch.go:291-304 | of several replies that name a position, in any spelling of its number, the first counts |
| ProtocolProofs.StepKeeps | internal/backend/batch.go:137-320 | every step of every goroutine keeps the protocol's invariant |
| ProtocolProofs.RunKeeps | internal/backend/batch.go:137-357 | the invariant holds after every possible sequence of steps |
| ProtocolRuns.ExactlyOneBatch | internal/backend/batch.go:137-205 | every accepted request is in exactly one slot of exactly one batch |
| ProtocolRuns.AddExactly | internal/backend/batch.go:137-204 | a range scan goes into a batch of its own that is dispatched at once; any other request goes into its backend's batch in the map, or a new one, which stays there exactly while it is not full |
| ProtocolRuns.AtMostOneSend | internal/backend/batch.go:207-320 | no response channel ever gets a second message, and its message carries the caller's id |
| ProtocolRuns.CallersDoIt | internal/backend/batch.go:207-252 | in every run a call is left exactly when its caller has left it, and its channel holds its message exactly from when that is sent until its caller receives it |
| ProtocolRuns.SendsNeverBlock | internal/backend/batch.go:245-319 | while the process is up, whenever a processor is about to send, the one-slot channel has room |
| ProtocolRuns.Progress | internal/backend/batch.go:207-319 | while the process is up no processor is stuck: its next step is possible, except that one waiting for a worker slot goes on exactly when fewer than maxConcurrent batches of its backend hold one, and gives up exactly when all its callers' callbacks have run |
| ProtocolRuns.AllAnsweredOnReturn | internal/backend/batch.go:207-320 | when processBatch has returned, each of its callers was answered exactly once and an acquired worker slot was released exactly once |
| ProtocolRuns.DownExactly | internal/backend/batch.go:262-288 | a step takes the process down exactly when it brings replies on which the expansion panics |
| ProtocolRuns.CrashStrandsEveryone | internal/backend/batch.go:172-188 | after such a panic no step is possible, and no caller whose request went out with that batch has been sent anything (processBatch runs as its own goroutine and recovers nothing) |
| ProtocolRuns.InFlightBounded | internal/backend/batch.go:118-132 | the worker channel holds one token per batch in flight, and never more than maxConcurrent |
| ProtocolRuns.ContextEndsLast | internal/backend/batch.go:326-344 | the shared upstream context ends only after every caller of the batch has left |
| ProtocolRuns.AllHaveFired | internal/backend/batch.go:326-344 | the shared context has ended exactly when the callbacks of all the batch's callers have run |
| ProtocolRuns.AbandonedWereGone | internal/backend/batch.go:238-252 | a caller told it was abandoned had left, and its request was never sent upstream |
| ProtocolRuns.DeadIsAnswered | internal/backend/batch.go:245-252 | the live filter answers an entry whose caller has left there and then, once |
| ProtocolRuns.DeadNeverSent | internal/backend/batch.go:245-255 | an entry whose caller has left when the live filter reaches it is in no later state among the slots that go upstream |
| ProtocolRuns.BatchLifecycle | internal/backend/batch.go:176-228 | batches in the map are non-empty, below the limit and undispatched; no batch exceeds the limit; dispatch is closed at most once |
| ProtocolRuns.RangeScansGoAlone | internal/backend/batch.go:137-174 | in every run a range scan is the only entry of its batch, which was dispatched at once |
| ProtocolRuns.OutOfMapIsFinal | internal/backend/batch.go:192-228 | a batch out of the map never grows or returns, whatever step comes next |
| ProtocolRuns.ClaimSparesNewer | internal/backend/batch.go:192-224 | a batch leaves the map exactly by its own processor's claim, by the request that fills it or by FlushAll; so an old batch's processor never takes out a newer batch of the same backend |
| RunMessages.RunJudged | internal/backend/batch.go:207-320 | what holds of every message a run decides on, and of abandon's answers, holds of every message it sends |
| OwnCalls.CallersGetTheirOwnAnswers | internal/backend/batch.go:133-320 | in every interleaving in which the exchange of the caller's own batch fails or has each wire request answered by some node, whatever its neighbours' calls are and whatever happens to other batches: the caller gets at most one message under its own id, namely what the node that got the wire request with its call makes of it, a failure of the whole exchange, or word that it left, which it did; for a call that fusion leaves alone or that is plain, it is what a node of that exchange answers the call on its own |
| OwnCalls.OneNodeAnswers | internal/backend/batch.go:133-320 | when the nodes are all the same and never change, the answer to such a call is the node's |
| OwnCalls.HonestRunsStayUp | internal/backend/batch.go:262-288 | in a run all of whose exchanges are of that kind the process never goes down |
| OwnCalls.ExchangeSize | internal/backend/batch.go:262-281 | with fusion on, an exchange sends each tag's fusable calls in as many wire requests as there are chunks, besides the others; with it off, or with fewer than two such calls, every request as it is |
| OwnCalls.AnswersComeFromOwnExchange | internal/backend/batch.go:207-320 | in every interleaving with any upstreams at all, an answer carries the caller's id and comes from an exchange of its own batch: labelled with its position, its own slot of a fused reply, or an error made by the expansion |
| BatchProcessing.BatchProcessor.AddRequest | internal/backend/batch.go:137-205 | the method changes the fields as the protocol's AddRequest step does and keeps the invariant |
| BatchProcessing.BatchProcessor.ClaimBatch | internal/backend/batch.go:220-228 | the claim of processBatch, as the protocol's step |
| BatchProcessing.BatchProcessor.FlushAll | internal/backend/batch.go:469-476 | every pending batch is taken out of the map and dispatched once, in whatever order the map yields them |
| BatchProcessing.BatchProcessor.GetBatchCount | internal/backend/batch.go:478-483 | the number of batches that are neither claimed nor dispatched, each counted once |
| Tracker.IndexAgrees | internal/backend/cache.go:89-173 | after any run of reports the pruned index holds only last-reported hashes, and holds every height within twice the reorg depth of the tip |
| Tracker.UnprunedKeepsLast | internal/backend/cache.go:111-115 | an index that forgets nothing maps each height to the last hash reported for it |
| Tracker.ContradictsExactly | internal/backend/cache.go:120-147 | a report is taken for a reorg exactly when no one chain can have it, the parent it names and all the hashes known |
| Tracker.ValidExactly | internal/backend/cache.go:176-195 | which blocks pass: without a hash; with the hash known for their height; and, where none is known, more than the reorg depth below the tip, any while there is no tip, and above the tip up to where the distance wraps round |
| Tracker.ValidityAgrees | internal/backend/cache.go:160-195 | IsBlockHashValid on the pruned index never rejects what full history accepts, differs exactly on outdated hashes at forgotten heights, and never within twice the reorg depth of the tip; Tracker.ValidExactly says what it accepts |
| Tracker.TipIsLargest | internal/backend/cache.go:111-115 | the tip is the largest height ever reported for the chain |
| Tracker.TipHashIsFirst | internal/backend/cache.go:111-115 | the hash stored for the tip came with the first report of that height |
| Tracker.TipNeverFalls | internal/backend/cache.go:111-115 | the tip never falls as a run goes on |
| Tracker.IndexBounded | internal/backend/cache.go:160-173 | tracked heights are at most the tip and at most 2 * depth + 1 in number |
| Tracker.OtherChainsUntouched | internal/backend/cache.go:89-118 | a report leaves every other chain's hashes and tip alone |
| Cache.StepAt | internal/backend/cache.go:198-285 | whatever the operation, an entry in a tier afterwards was there before, was promoted from disk, or has just been written under that key |
| Cache.WriteExactly | internal/backend/cache.go:240-285 | what a write can be served for: a Put's body until its lifetime is over, or for good when its block was settled, under the block named with it or the tip of that moment; and whether the lifetime is long enough for the disk |
| Cache.TiersHoldLastWrites | internal/backend/cache.go:198-285 | after any run memory holds the last write under a key or the last durable one, and disk only the latter |
| Cache.IndexOfRun | internal/backend/cache.go:89-118 | through any run of the store's operations the block index is what its reports alone make of it |
| Cache.GetIsSound | internal/backend/cache.go:198-230 | through eviction, promotion and reorgs, a body Get returns was put under that key by the last write or the last durable one, for a lifetime that has not run out, or was settled or immutable when put; its block passes the pruned index as Tracker.Passes spells out and, within the window, full history |
| Cache.JustWrittenIsServed | internal/backend/cache.go:198-285 | a body just written is what Get returns unless its lifetime or its block is over |
| Cache.GetLeaves | internal/backend/cache.go:198-230 | a body Get returns is in memory afterwards; after a Get that returns none no tier holds an entry under the key that has not expired; other keys are untouched |
| Cache.DisabledDoesNothing | internal/backend/cache.go:198-242 | a store that is switched off serves and stores nothing |
| Cache.HashlessEntriesStay | internal/backend/cache.go:682-721 | a durable entry without a block hash is served by every later Get until it expires or its key is rewritten, and not after |
| Cache.ImmortalStays | internal/backend/cache.go:709-721 | a PutImmortal body is returned by every later Get until its key is overwritten |
| Cache.SettledEntriesStay | internal/backend/cache.go:232-261 | an entry past the reorg depth when Put stores it never expires, is durable, and from then on only another hash known at its own height makes it invalid |
| Cache.OverwrittenBodyExactly | internal/backend/cache.go:198-285 | at any moment of any run, Get answers with another body than the last one written exactly when that write never reached the disk, the disk still holds a usable entry with another body, and memory no longer serves the write; with the writes the code makes, for canonical keys only |
| Cache.PutLetsOldBodyBack | internal/backend/cache.go:240-285 | seen from one Put: the older body comes back exactly when the Put was too short-lived for the disk and the disk can still serve another body, at once on eviction and otherwise as soon as the new entry lapses or is outdated |
| Cache.OverwrittenBodyComesBack | internal/backend/cache.go:257-283 | a concrete run of writes the code makes in which it does: an answer about a settled block, then one about an unsettled block under the same key with the same lifetime |
| Cache.ReorgIsLocal | internal/backend/cache.go:105-158 | a reorg drops its own chain's entries from memory and nothing else, and never touches the disk |
| CacheRaces.HalvesMakeGet | internal/backend/cache.go:198-230 | Get split at its disk read: the two halves in succession do what Get does in one step |
| CacheRaces.HalvesMakePut | internal/backend/cache.go:240-285 | Put split between its reading of the tip and its write: the two halves in succession do what Put does in one step |
| CacheRaces.OnlyWhatWasWritten | internal/backend/cache.go:198-285 | with any operations between the halves of any number of Gets and Puts, whatever is true of all writes under a key is true of all that can be found under it |
| CacheRaces.ImmortalSurvivesRaces | internal/backend/cache.go:198-230 | an immutable sub-call's entry, once written, is found by every later Get in every such interleaving |
| CacheRaces.PromotionUndoesWrite | internal/backend/cache.go:213-225 | what does not survive: a Get that read the disk before a newer durable write promotes the older entry over it |
| CacheRaces.PutOutlivesPurge | internal/backend/cache.go:105-158 | a Put that read the tip before a reorg writes an entry of the abandoned block after the purge; the check of its hash alone keeps it from being served |
| Partial.StepKeepsAgreement | internal/backend/cache.go:198-285 | every operation keeps the cached sub-calls in agreement with the chain's fixed answers as long as what it writes is true |
| Partial.ImmutableExactly | internal/backend/multicall.go:15-34 | a read is taken to be immutable by its selector alone, one of five, whatever follows it |
| Partial.PlanPartitions | internal/backend/cache.go:552-583 | misses are distinct positions in order; every other position holds an immutable call's answer, true up to a failure's data; for lookups interleaved with anything that leaves the store in agreement with the chain |
| Partial.OwnViewsAgree | internal/backend/cache.go:563-576 | a plan whose lookups run back to back on one agreeing store sees only agreeing stores, so it is one of those |
| Partial.FetchedExactly | internal/backend/cache.go:596-608 | Multicall3's reply to the reduced call is usable exactly when no missed call was fatal, and then carries the misses' real results |
| Partial.ToleratedExactly | internal/backend/cache.go:563-628 | the whole call succeeds exactly when the reduced one does and the plan holds no failure of a call that may not fail |
| Partial.PartialRefinesFull | internal/backend/cache.go:552-628 | where Multicall3 answers and nothing else in the request matters: completing a plan gives the whole call's answers in order (failures known to the cache without their data), keeps the cache truthful whatever happened between the lookups and until the reply, and fails only when the whole call fails; the whole call succeeds too exactly when the plan's own failures are all of calls that may fail |
| Partial.CachedFailureIsNotFatal | internal/backend/cache.go:519-521 | two concrete calls for which the chain reverts and partial serving answers |
| Partial.ServedAnswers | internal/backend/cache.go:509-531 | a multicall served wholly from the cache gets the real answers, up to failures' data, where the immutable reads have their fixed answers in the request's context |
| Partial.ServedToleratedExactly | internal/backend/cache.go:509-531 | for a multicall served whole, the chain would have succeeded exactly when every served failure is of a call that may fail |
| Partial.StoredThenServed | internal/backend/cache.go:630-651 | once Multicall3's reply to a multicall of immutable reads has been stored, in a context where these are fixed, it is served whole, with the real answers, until its first failure lapses |
| Partial.KnownIsNotSent | internal/backend/cache.go:563-576 | a plan never sends upstream a sub-call whose answer is durably known |
| MulticallRequests.ReducedWrapsMisses | internal/backend/cache.go:589-590 | the reduced request is a multicall of exactly the missing calls for the same contract; it says about everything else what the original says exactly when that has no modifiers, further members or overrides and its block is absent or a non-empty string |
| MulticallRequests.PartialServingExactly | internal/backend/cache.go:552-628 | over all nodes with Multicall3 and the immutable reads in place at the known block tags, completing a plan answers the request itself exactly when the request goes to Multicall3 with the standard encoding of its calls, says nothing besides its block, and names a known tag; over those with them in place in its own context too, exactly when it goes to Multicall3 so encoded and says nothing besides, or the tag put for its block is known and all misses are immutable reads or the whole call is bound to fail |
| MulticallRequests.WholeServingExactly | internal/backend/cache.go:389-404 | over the same nodes, serving whole answers the request itself exactly when it goes to Multicall3 so encoded, says nothing besides and names a known tag; where its own context is in order, exactly when it goes to Multicall3 so encoded |
| MulticallRequests.StoringExactly | internal/backend/cache.go:444-455 | over the same nodes, storing the reply keeps the cache truthful exactly when the request is as before or wraps no immutable read; where its own context is in order, exactly when it goes to Multicall3 so encoded or wraps no immutable read |
| MulticallCases.PinnedMulticallGoesWrong | internal/backend/cache.go:589-590 | a concrete multicall pinned to block 5 by an object: the call that missed is answered as of latest |
| MulticallCases.OverriddenAnswerIsKept | internal/backend/cache.go:630-651 | a concrete multicall with state overrides whose answer is stored, and then served to the same multicall without them |
| MulticallCases.StrangerIsBelieved | internal/backend/multicall.go:90-96 | for every target other than Multicall3, a concrete request with the calldata of a multicall: whatever that contract returns for a token's decimals is stored, and then served to a multicall that does go to Multicall3 and to decimals read on its own |
| CacheStore.CacheStore.constructor | internal/backend/cache.go:322-344 | lifetimes that are not positive become 250 ms and 24 h, others are kept; the store starts empty |
| CacheStore.CacheStore.DetectReorg | internal/backend/cache.go:120-147 | true exactly when the report contradicts a hash known at its height or its parent's |
| CacheStore.CacheStore.PurgeChain | internal/backend/cache.go:152-158 | the loop over the keys leaves exactly the other chains' entries |
| CacheStore.CacheStore.CleanupOldBlockHashes | internal/backend/cache.go:160-173 | the loop over the heights leaves exactly those at or above the cutoff |
| CacheStore.CacheStore.UpdateLatestBlock | internal/backend/cache.go:89-118 | the fields change as the Reported step says: purge on a contradiction, record, raise the tip, clean up |
| CacheStore.CacheStore.IsBlockHashValid | internal/backend/cache.go:176-195 | the answer of HashValid, uint64 subtraction included |
| CacheStore.CacheStore.Get | internal/backend/cache.go:198-230 | the body found and the tiers left behind, as Found and Looked define them |
| CacheStore.CacheStore.Put | internal/backend/cache.go:240-285 | the state after the Put step: expiry, block stamp and choice of tiers |
| CacheStore.CacheStore.PutNegative | internal/backend/cache.go:682-695 | the state after the PutNegative step |
| CacheStore.CacheStore.PutImmortal | internal/backend/cache.go:709-721 | the state after the PutImmortal step |
| CacheStore.CacheStore.ServeMulticall | internal/backend/cache.go:509-531 | the encoded results when every call is a cached immutable read, and nothing as soon as one is not |
| CacheStore.CacheStore.PlanMulticall | internal/backend/cache.go:552-591 | a plan exactly when some but not all calls missed, holding the drafted results and a request for the misses alone; a panic exactly when decoding the calldata panics |
| CacheStore.CacheStore.CompleteMulticall | internal/backend/cache.go:596-628 | the plan's results with its misses filled in place and the store with the new sub-calls written down; no change when the reply is unusable, which an explicit error member makes it even when null, or when decoding it panics |
| CacheStore.CacheStore.CacheMulticallSubcalls | internal/backend/cache.go:630-651 | every immutable sub-call of a usable reply is written down, and nothing of an unusable one or of one on which the decoder panics |
| Router.OrderBatchResponses | internal/router/router.go:473-500 | the full permutation aligned with the requests by id when a one-to-one matching exists, and the answers unchanged otherwise |
| Router.SameIdExactly | internal/router/router.go:502-508 | normalizeID tells ids apart exactly when they are not the same JSON up to blanks around it, no id at all being null |
| Router.NamesExactly | internal/router/router.go:480-498 | an answer names a request exactly when it decodes and has the same raw id in that sense |
| Router.MatchableExactly | internal/router/router.go:469-500 | for requests with distinct ids, a one-to-one matching exists exactly when there are as many answers as requests and none lacks one |
| Router.OrderedExactly | internal/router/router.go:473-500 | every position gets an answer with its request's id exactly when the answers can be matched by id or were in such an order already; in that order they are never moved |
| Router.AlwaysRightExactly | internal/router/router.go:469-500 | however an upstream orders the true answers, every position gets its own request's, exactly when no two requests have the same raw id or all have the same answer |
| Router.SharedIdsMayCross | internal/router/router.go:480-485 | three concrete requests, two with one id: the answers stay in the upstream's order, and the third request loses its answer too |
| Router.SplitBatch | internal/router/router.go:178-193 | cached answers stamped with the asker's id, and the other requests with their positions |
| Router.MergeBatch | internal/router/router.go:314-325 | the cached answers with the upstream's put at the positions that missed |
| Router.StoreBatch | internal/router/router.go:330-349 | the writes: upstream answers with a positive lifetime, each under its own request's key |
| Router.WritesExactly | internal/router/router.go:330-349 | what is stored is exactly the upstream's answers with a positive lifetime, each under the key of the request at its position |
| Router.EveryPositionIsOwn | internal/router/router.go:302-326 | after merging, every position holds its own request's response: cached under its id, or the upstream's answer naming it |
| Router.BatchStaysTruthful | internal/router/router.go:302-349 | with a truthful cache and an honest upstream answering in any order, every position carries the true answer and only upstream answers are stored, each true for its key |
| Router.MergedTrueExactly | internal/router/router.go:314-325 | merged with true cached answers, a batch is true at every position exactly when its upstream part is |
| Router.BatchTrueExactly | internal/router/router.go:178-326 | a batch with true cached answers is true at every position for every order of the upstream's true answers exactly when no two requests sent upstream have the same raw id or all have the same answer |
| HeadKnowledge.StepIsAtomic | internal/backend/backend.go:38-63 | an atomic step of either compare-and-swap loop leaves the head alone or has the whole effect of one call |
| HeadKnowledge.HeadIsLinearizable | internal/backend/backend.go:38-63 | in any interleaving the head is what the completed calls make of it as atomic maximum and cap, in order of completion |
| HeadKnowledge.HeadExactly | internal/backend/backend.go:38-63 | in any interleaving the head is the largest block observed since the last HeadBelow(n), or what that left, which is what was known if it was below n and n - 1 otherwise |
| HeadKnowledge.EffectIsOnce | internal/backend/backend.go:38-63 | a call has taken effect exactly once when it has returned and not at all before |
| HeadKnowledge.TrailsUntilRestored | internal/backend/backend.go:38-63 | a trailing backend regains its standing exactly by ObserveHead of at least n or HeadBelow(1) |
| HeadKnowledge.TrailsAfterHeadBelow | internal/backend/backend.go:50-63 | after HeadBelow(n), n >= 2, the head stays known and below n through any later calls that do not restore it |
| HeadKnowledge.TrailingIsExcluded | internal/backend/balancer.go:178-194 | in any interleaving such a backend fails the head test of candidate for every minHead >= n |
| Balancer.PickAtLeast | internal/backend/balancer.go:63-174 | how each pass ends: the ready backend whose share the draw falls in, else the shortest wait, else the second pass without minHead, else an error; it recurses at most once |
| Balancer.Weighted | internal/backend/balancer.go:149-174 | with a positive total the chosen index is the one whose share of the prefix sums contains the draw |
| Balancer.LeastDelay | internal/backend/balancer.go:98-130 | the candidate with the shortest finite wait, or none when there is no such candidate |
| Balancer.SharesDisjoint | internal/backend/balancer.go:162-171 | no draw lies in two shares |
| Balancer.ShareIsStretch | internal/backend/balancer.go:159-174 | a share is the stretch between two neighbouring prefix sums, the last one included |
| Balancer.PickedByWeight | internal/backend/balancer.go:149-174 | with several ready, each is picked by exactly the draws in its stretch of the sums of the ready backends' weights |
| Balancer.ReadyExactly | internal/backend/balancer.go:84-94 | the ready list holds exactly the candidates whose limiter lets them through |
| Balancer.CandidateExactly | internal/backend/balancer.go:178-194 | a candidate is up, has an endpoint for the scheme if that is http or ws, and is not known to trail |
| Balancer.PickServes | internal/backend/balancer.go:63-174 | a candidate for minHead whenever one can serve; failing that, any that is up and serves the scheme; an error only when none can serve or the caller left during a wait |
| Balancer.TrailingIsSkipped | internal/backend/balancer.go:178-194 | a backend known to trail is not picked while another candidate can serve |
| Latency.LoadBalancer.UpdateLatency | internal/backend/balancer.go:197-216 | one backend's record takes the measurement and all weights of the chain are recomputed |
| Latency.LoadBalancer.Weigh | internal/backend/balancer.go:344-377 | the weights array is overwritten in place with Weights of the current records |
| Latency.FastestBounds | internal/backend/balancer.go:351-356 | the fastest latency is the least average of the ranked backends, and belongs to one of them |
| Latency.HistoryIsLast | internal/backend/balancer.go:201-204 | a history is always the last min(k, samples) latencies |
| Latency.AverageIsOfLast | internal/backend/balancer.go:206-210 | the average is the truncated mean of those |
| Latency.MeanExactly | internal/backend/balancer.go:206-210 | the mean is the sum over the number, rounded down, and does not depend on order |
| Latency.WeightsRank | internal/backend/balancer.go:344-377 | weights lie in [0.1, 1], a fastest ranked backend weighs 1, and a slower one never outweighs a faster |
| Latency.WeightsExactly | internal/backend/balancer.go:344-377 | a ranked backend weighs the power of its average over the least one, down to 0.1, and any other 1 |
| Latency.ReadyTotalIsPositive | internal/backend/balancer.go:149-157 | any non-empty set of ready backends has a positive total weight |
| Delivered.Stream.MarkDelivered | internal/backend/stream.go:615-639 | the answer and the new window of the chain, other chains' windows untouched |
| Delivered.WindowAgrees | internal/backend/stream.go:615-639 | within depth of the highest height the window holds what unbounded memory would, below it that or nothing |
| Delivered.NewsExactly | internal/backend/stream.go:610-639 | within depth of the highest height it is news exactly when the hash differs from the last one announced there; anywhere, a repeat passes for news exactly when its height was forgotten |
| Delivered.WindowIsSmall | internal/backend/stream.go:628-637 | after news at a new highest height at most depth + 1 heights are kept |

## Left out

- HTTP, websockets, configuration files, logging, retries and back-off inside sendBatch, the Pebble and LRU libraries: I/O and glue. The disk tier is a map whose writes succeed and the memory tier a map that may drop any entry at any step.
- JSON text: a missing request id or params that AddRequest replaces by `null` and `[]`, number formatting, and regular expressions. Ids that parseWireID reads leniently are modelled.
- Heap identity of batches, channels and entries: they are numbered values in the processor's state, so aliasing is not captured; the map, the counters and the entry lists are updated in place.
- The order in which one processor answers its entries: any order is allowed, which includes the code's.
- Interleavings inside one cache operation: in CacheRaces, Get and Put are two steps each, with Put's writes to memory and to disk together in the second; in Cache, and for PutImmortal and PutNegative everywhere, an operation is one step.
- Wall-clock liveness: delivery is stated as safety plus what holds when a processor returns.
- Meaning.FusionPreservesMeaning: domain of twenty-byte targets, hex data, a call object without members besides those fusion looks at and a missing or non-empty string block tag for calls that may be fused, and of requests whose bytes fit Go's address space; Meaning.FusedAnswerExactly says what a fused call gets outside the first part, and that the domain is the largest for which it holds at every node. Multicall3 is taken to make of each call what an eth_call of its own does: calls that look at the caller's address or the gas left, or at state that an earlier call of the same batch changes, are not part of this model.
- Decoder.DecodeCallsFaultsExactly: a slice past the length counts as out of bounds, although Go checks against the capacity.
- Fusion.AggregateEthCalls: synthetic ids come from a process-wide counter of which only the growth is known here.
- MulticallRequests.PartialServingExactly: answers' data are taken to be at most a terabyte long. Calldata that encodes the calls in another than the standard way counts as unknown to Multicall3: what its own decoder makes of it is not part of this model. Sub-calls are taken not to change what later ones come to.
- OwnCalls.CallersGetTheirOwnAnswers: Multicall3 is taken to be at the configured address at every node, and the bytes of a batch to fit Go's address space.
- CacheStore.CacheStore.PlanMulticall: when the decoder panics, that is all it says; these calls run under an HTTP handler, whose server recovers panics, and what becomes of that request is not part of this model.
- Tracker.TipHashIsFirst: the stored tip hash is not refreshed when another hash is reported at the tip's height, as in the code.
- Cache.ImmortalStays: about whole operations; CacheRaces.ImmortalSurvivesRaces is the statement with interleaved Gets. Neither says anything of Put, which makes an entry immortal from the answer's block alone, so tip-following entries are not claimed to live at most ttl_latest.
- Partial.ServedAnswers: a cached failure carries no return data and ignores a call's allowFailure, as in the code.
- The lifetime rules (TTL, AnswerTTL, pinnedToBlock), RequiredHead, ResponseBlock, BlockUnavailable, Lookup, Store and RewriteResponseID: shallow case analysis; their results are parameters here.
- The retry loop of the handler and its error responses; processBatchRequest beyond the order of its answers.
- Balancer.PickAtLeast: one snapshot of health, heads and weights with real numbers for floats; the random generators and the limiters' internals are inputs.
- Health probing (probe, markDown, Monitor) and per-chain maps of the balancer: one chain's backends are modelled.
- The rest of stream.go: its subscription maps are updated under different locks with error paths that leave partial state, so no clean invariant holds across them.
