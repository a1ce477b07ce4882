# mika-proxy: verified core

A Dafny 4.11 model of the parts of the proxy whose correctness is not visible in any one function:
the buffered reader and the Shadowsocks AEAD stream on top of it, the rule file compiled to match
tables and dispatched in two phases, the two-way byte pipe, the dual-stack dial, the SOCKS5
handshake, and the datagram paths. `dafny verify dfyconfig.toml` checks everything.

## How the model is built

- `Flow.LowerStream` is the read side of an arbitrary lower `Stream`. Its body chooses every answer
  freely: any portion of the remaining bytes, `Pending` as often as its budget allows, and (unless
  `reliable`) an error at any call. The budget is an arbitrary number, so a contract proved over it
  holds for every segmentation and every finite schedule of Pendings; the loops that poll until
  ready therefore also terminate. The write sides (`CompatFlow.TxHalf`, `IpStackTx.TxHalf`, and
  `PipeSink.Sink` for either of them) do the same for the byte sink and the TCP socket; where a
  result depends on single answers, an arbitrary script gives them (`IpStackTx.Answer`,
  `UdpPump.Answer`).
- The panics of the source (`unwrap`, `expect`, `panic!` on a missing buffer, polling for data
  before a size request was answered) are preconditions of those methods, and every caller is proved
  to meet them.
- A `Cipher` is any AEAD with its key derivation that meets two laws: sealing keeps the length, adds
  a 16-byte tag and opens again; opening accepts only what sealing under that key and nonce yields.
- Objects that the source updates in place are classes, its loops are loops; each method is tied to
  a specification function or to an abstract value (a byte queue, the undecoded wire, the committed
  bytes), and the results are lemmas about those.
- Rule matching takes parsed lines and a country lookup as inputs; Aho-Corasick is "every
  occurrence". `partition_point` is specified for partitioned inputs only, so dispatch takes any
  search that ends at a boundary (`RuleMatch.Search`); plain bisection is one of them.
- Resolution and dial take a schedule (who answers first, whether the timer fires, when an answer
  wins a select) or choose it freely (which attempt ends next, which timeout expires).

## What does not hold as the code is written

- A read error resets the reader's offset: consumed bytes come back exactly when the offset was not
  zero and the lower stream had the buffer, which needs a request above 1024 bytes (`PollCore`,
  `ReplayAfterEof`). Runs whose requests fit 1024 bytes never see it (`Settled`).
- A chunk survives the AEAD stream exactly when its length is 1 to 0x3FFF; no writer enforces this
  (`ChunkSurvivesIff`, `SizeSeen`).
- Compiled dispatch does not always decide as the rule file reads. `CompiledEqualsScanIff` gives the
  exact condition for every destination and resolver: the line with the least stored id among those
  the tables find acts unlike the first line that matches, or, over a resolver that is gone, a merged
  pattern spares the resolution the file asks for. The four ways in which that happens each have a
  file: a merged pattern overtakes (`MergedRangeOvertakes`), spares the resolution
  (`StraddlingSparesResolution`), a block is missed (`NestedBlockMissed`), or a country rule is
  (`SplitCountryMissed`).
- The address lookup misses rules exactly when a block in front of the index where it starts holds
  the address (`LookupMissesIff`, `NestedBlockMissed`). No search does that for any address if and
  only if the blocks' ends ascend (`LookupCompleteIff`).
- With an `IpStackStream` as its sink the pipe may count bytes again that come back unsent. The next
  delivery is counted once, whatever the socket does, exactly when nothing is unsent or the size asked
  for is the capacity of the sink's buffer (`CountedOnceIff`). From a `CompatFlow` into the buffer a new
  `IpStackStream` starts out with that holds throughout (`ForwardAll`); a source that announces its
  chunks breaks it (`CountsTwice`).
- The pipe and the AEAD stream disagree about ends. As a source, a stream that ends with a whole frame
  makes the pipe fail with its sink open, and one that is cut behind a size field makes it succeed
  (`ForwardFrames`, `CutOutcomeIff`). As a sink, it is ended by an empty frame, which the receiver
  refuses (`SealAll`, `EmptyFrameRefused`): two pipes with a stream between them deliver everything
  and then fail (`Relay`).
- `resolve_dual_stack_ips` omits the address in flight when the later answer wins the select
  (`AllSentIff`), which can be the only reachable one (`OnlyReachableDropped`).
- SOCKS5 request lengths are computed in 8 bits, and a request serves its purpose exactly for names of
  up to 248 bytes (`ServedIff`). A length byte of 249 to 251 makes the server panic, one of 252 to 255
  is refused, and a name of 256 bytes or more can be taken for a shorter one (`LongNameOutcome`). The
  model wraps, as a release build does; a debug build panics where the addition wraps.
- A turn of the datagram pump in which nothing moves yields exactly when no downlink packet is in hand
  (`Pump.LoopTurn`); otherwise the loop goes round again, any number of times (`FullSlotSpins`).
- A full receive buffer makes `CompatFlow` report the end of the stream (`FlowRx.PollRxBuffer`,
  `FullBufferEnds`).

## Model

| member | source | states |
|---|---|---|
| StreamReader.Reader.Advance | src/flow/reader.rs:32-48 | advancing removes exactly the given bytes from the byte queue; consumed bytes stay in front only of at least 1024 unread ones |
| StreamReader.Reader.PollCore | src/flow/reader.rs:50-82 | success and Pending leave the queue as it is; an error keeps it if and only if the lower stream did not have the buffer or no consumed byte was left in it, and otherwise puts exactly those back; requests up to 1024 bytes never lose their place; a reliable stream fails only at its end |
| StreamReader.Reader.PollPeekAtLeast | src/flow/reader.rs:84-92 | a peek shows a prefix of the queue of at least the requested length and removes nothing |
| StreamReader.Reader.PollReadExact | src/flow/reader.rs:94-106 | a read delivers the next bytes of the queue once and removes exactly those |
| StreamReader.Reader.ReadExact | src/flow/reader.rs:118-127 | awaiting a read yields the next bytes over any schedule, and Eof only if fewer were left |
| StreamReader.Reader.PeekAtLeast | src/flow/reader.rs:108-116 | awaiting a peek leaves the queue unchanged |
| StreamReader.Reader.IntoBuffer | src/flow/reader.rs:22-30 | the buffer returned is what is buffered and unread |
| StreamReader.ReplayAfterEof | src/flow/reader.rs:32-82 | a concrete run in which an end of stream makes the reader deliver the same 100 bytes twice |
| CompatRead.FlowRx.PollRxBuffer | src/flow/compat.rs:116-142 | delivers the source's bytes in order into the spare room; unless the source fails it reports the end if and only if nothing is left or there is no room; every error returns the buffer as it was |
| CompatRead.FullBufferEnds | src/flow/compat.rs:125-137 | a concrete poll that reports the end of a source with a byte left |
| CompatRead.PollRead | src/flow/compat.rs:45-70 | each read takes bytes off the queue once; nothing is read exactly at an end of stream, other errors are passed on, and no error loses bytes |
| CompatRead.ReadToEnd | src/flow/compat.rs:45-70 | reading until nothing comes yields the whole queue for any schedule and read size |
| Nonce.IncreaseNumBuf | src/shadowsocks/util.rs:94-105 | adds one to the little-endian value modulo 256^n, in place, with a carry word that stays within 256 |
| Nonce.AddCarryAddsOnce | src/shadowsocks/util.rs:94-105 | byte-wise carry addition is addition modulo 256^n, for every length |
| Nonce.NonceValue | src/shadowsocks/crypto/aead.rs:27 | the nonce of operation k has the value k modulo 256^n |
| Nonce.NoncesEqualIff | src/shadowsocks/crypto/aead.rs:59-68 | any two operations share a nonce if and only if their numbers are congruent modulo 256^n |
| Nonce.FirstNonces | src/shadowsocks/util.rs:94-105 | the counter runs in the first byte: the nonces of operations 0 to 255 |
| Aead.SessionNoncesDistinct | src/shadowsocks/crypto/aead.rs:59-68 | the nonces a session used, and the next one, are pairwise distinct until 256^n operations were made |
| Aead.Session.Encrypt | src/shadowsocks/crypto/aead.rs:31-69 | produces the frame of the next two operation numbers and advances by two |
| Aead.Session.DecryptSize | src/shadowsocks/crypto/aead.rs:83-104 | opens a size field under the next nonce; a field that does not authenticate leaves the nonce |
| Aead.Session.Decrypt | src/shadowsocks/crypto/aead.rs:106-117 | opens data under the next nonce, which advances in either case |
| Aead.SizeFieldRoundTripIff | src/shadowsocks/crypto/aead.rs:37-102 | a sealed length is read back if and only if it is 1 to 0x3FFF |
| Aead.FramesAppend | src/shadowsocks/crypto/aead.rs:31-69 | frames written one after another are the frames of the whole list with consecutive nonces |
| Aead.SizeFieldBytes | src/shadowsocks/crypto/aead.rs:37-50 | the size field is the length in two bytes, the high one first |
| Aead.FrameOnWire | src/shadowsocks/crypto/aead.rs:31-69 | a frame is size text, its tag, chunk text and its tag, under consecutive nonces |
| Aead.OpensIffSealed | src/shadowsocks/crypto/aead.rs:83-117 | bytes open if and only if something seals to them under the key and the nonce |
| ShadowsocksRx.RxHalf.PollRequestSize | src/shadowsocks/stream.rs:40-84 | consumes the IV once and a size field per frame, nothing on Pending; an error is that of the lower stream or says that the size field is not authentic |
| ShadowsocksRx.RxHalf.PollRxBuffer | src/shadowsocks/stream.rs:92-153 | appends exactly the opened chunk to the committed buffer, or returns the buffer unchanged with the error, which is that of the lower stream or says that the chunk is not authentic |
| ShadowsocksRx.ReceiveOne | src/shadowsocks/stream.rs:40-153 | one turn of request, commit, poll consumes one frame and two operation numbers, whatever the schedule |
| ShadowsocksRx.ReceiveAll | src/shadowsocks/stream.rs:40-153 | the chunks and the final error are a function of the wire alone: segmentation and Pendings do not matter |
| ShadowsocksRx.DecodeFrames | src/shadowsocks/crypto/aead.rs:31-117 | every list of chunks of legal length decodes to itself and then ends |
| ShadowsocksRx.ChunkSurvivesIff | src/shadowsocks/crypto/aead.rs:37-103 | a chunk is delivered as sent, with the stream continuing behind it, if and only if its length is 1 to 0x3FFF |
| ShadowsocksRx.SizeSeen | src/shadowsocks/crypto/aead.rs:101-103 | the receiver takes the lower 14 bits for the length of a chunk, and zero ends the stream |
| ShadowsocksRx.DecodeEnds | src/shadowsocks/stream.rs:40-153 | decoding ends with Eof if and only if the bytes left are too few for a size field or for the chunk an authentic one announces, and with unexpected data otherwise |
| ShadowsocksRx.TamperedRefused | src/shadowsocks/stream.rs:132-151 | behind any legal frames a chunk that was not sealed ends the stream with unexpected data, whatever follows |
| ShadowsocksRx.DeliveredWasSealed | src/shadowsocks/crypto/aead.rs:83-117 | every delivered chunk was sealed under the session key with the next unused nonce, in order, with none skipped |
| ShadowsocksRx.RoundTrip | src/shadowsocks/stream.rs:40-198 | IV and frames in any segmentation and any schedule give back exactly the chunks, one per buffer |
| ShadowsocksTx.TxHalf.PollTxBuffer | src/shadowsocks/stream.rs:156-174 | the buffer comes back with the retained bytes in front and room for the size field at the recorded offset; the transport is asked for the chunk and both overheads |
| ShadowsocksTx.TxHalf.CommitTxBuffer | src/shadowsocks/stream.rs:176-198 | seals only what was written behind the offset; retained bytes are untouched |
| ShadowsocksTx.WriteChunk | src/shadowsocks/stream.rs:156-198 | socket bytes and retained bytes grow by exactly one frame, or by nothing on an error |
| ShadowsocksTx.WriteAll | src/shadowsocks/stream.rs:156-198 | after any number of writes the transport holds exactly the frames of the accepted chunks, which are all of them unless it fails |
| ShadowsocksTx.GetReq | src/shadowsocks/factory/stream.rs:33-62 | the request is the IV and one frame of header and initial data; the session continues after it |
| ShadowsocksTunnel.Send | src/shadowsocks/factory/stream.rs:33-62 | request and flushed writes together are the IV and the frames of header chunk and accepted chunks; a transport that does not fail accepts and sends all of them |
| ShadowsocksTunnel.Tunnel | src/shadowsocks/stream.rs:40-206 | writer and reader composed: the header chunk and every accepted chunk arrive, in order, one per buffer; over a transport that does not fail that is every chunk |
| IpStackTx.TxHalf.PollTxBuffer | src/ip_stack/stream.rs:83-117 | for every script of the socket the outcome is that of the drain; it sends only non-empty slices, keeps sent ++ unsent, and hands out the buffer with room for the request |
| IpStackTx.EmptyHandOutIff | src/ip_stack/stream.rs:96-115 | the buffer is handed out empty for every script of the socket if and only if nothing is unsent or the request takes the whole capacity |
| IpStackTx.RetainedFits | src/ip_stack/stream.rs:96-115 | nothing is sent if the request fits behind the unsent bytes or exceeds the capacity; otherwise as much as makes it fit |
| IpStackTx.DrainAfter | src/ip_stack/stream.rs:96-112 | whatever amounts the socket takes: below the limit sending goes on, a full queue waits, a broken connection fails, enough ends it |
| IpStackTx.TxHalf.PollFlushTx | src/ip_stack/stream.rs:124-148 | for every script the outcome of a drain to the last byte, bytes in order |
| IpStackTx.TxHalf.PollCloseTx | src/ip_stack/stream.rs:150-169 | for every script: drains, waits while the queue holds bytes, and only then closes |
| Address.ParseWritten | src/shadowsocks/util.rs:12-63 | a written destination parses to its normal form with the exact header length, whatever follows |
| Address.WrittenForm | src/shadowsocks/util.rs:12-30 | type, address or length and name, then the port with its high byte first, as in RFC 1928 |
| Address.HeaderLengthIff | src/shadowsocks/util.rs:12-63 | the header length is recovered if and only if the name is acceptable and at most 255 bytes long |
| Address.ParsedWasWritten | src/shadowsocks/util.rs:32-63 | whatever is accepted is the encoding of the result |
| ShadowsocksDatagram.PacketRoundTrip | src/shadowsocks/datagram.rs:25-68 | a sealed packet opens to the normalised destination and the payload, for every IV |
| ShadowsocksDatagram.DeliveredWasSealed | src/shadowsocks/datagram.rs:25-44 | an accepted packet is its IV and the sealed header and payload, and the destination is what the header parses to |
| ShadowsocksDatagram.Session.SendTo | src/shadowsocks/datagram.rs:50-68 | hands out the sealed packet for the drawn IV |
| ShadowsocksDatagram.Session.Receive | src/shadowsocks/datagram.rs:25-44 | accepts and strips a packet as the specification function does |
| RuleLines.NewHandle | src/rule_dispatcher.rs:31-43 | action and id share 32 bits; the id survives if and only if it is below 2^24 |
| RuleBuilder.PushKeeps | src/rule_dispatcher/builder/quanx_filter.rs:62-75 | pushing the next pattern keeps the ranges contiguous and every earlier lookup, and its own lookup yields the handle of the run it joins or, if it starts one, its own |
| RuleBuilder.RangesIndex | src/rule_dispatcher/builder/quanx_filter.rs:62-97 | after any build the ranges are contiguous and cover all patterns; each lookup gives the pattern's own action and the id that starts its run |
| RuleBuilder.BuildAcFromLineSegs | src/rule_dispatcher/builder/quanx_filter.rs:77-100 | the loop builds the table of its kind |
| RuleBuilder.BuildIpRulesFromLineSegs | src/rule_dispatcher/builder/quanx_filter.rs:102-140 | the loop collects the rules of its kind and lowers the shared first resolving id |
| RuleBuilder.ThreePasses | src/rule_dispatcher/builder/quanx_filter.rs:176-212 | the accumulator of the three passes ends at the least id of all resolving rules |
| RuleBuilder.SortSorts | src/rule_dispatcher/builder/quanx_filter.rs:185-194 | the tables are sorted by block and id and are permutations of the rules |
| RuleBuilder.LoadQuanxFilter | src/rule_dispatcher/builder/quanx_filter.rs:143-244 | the loader builds the compiled rule set |
| RuleMatch.PartitionPoint | src/rule_dispatcher/rules/ip.rs:11 | the binary search ends at a boundary between blocks ending before the address and one that does not |
| RuleMatch.LookupSound | src/rule_dispatcher/rules/ip.rs:7-17 | every returned rule's block holds the address, for any table |
| RuleMatch.LookupMissesIff | src/rule_dispatcher/rules/ip.rs:7-17 | a lookup that starts at an index equals a linear filter if and only if no block in front of the index holds the address |
| RuleMatch.LookupCompleteIff | src/rule_dispatcher/rules/ip.rs:7-17 | every index a binary search may end at serves every address if and only if the blocks' ends ascend along the table |
| RuleMatch.DisjointOrEqualAscend | src/rule_dispatcher/builder/quanx_filter.rs:185-194 | pairwise disjoint or equal blocks meet that condition |
| RuleMatch.LargerBlockFirst | src/rule_dispatcher/builder/quanx_filter.rs:185-194 | of two blocks that begin alike the larger sorts first, and then the table cannot be searched for every address |
| RuleMatch.ReportedMeans | src/rule_dispatcher/rules/domain.rs:22-42 | filtering occurrences by position means equality, a dotted suffix, and containment |
| RuleMatch.ReduceRules | src/rule_dispatcher/set.rs:10-12 | picks a handle of least id |
| RuleMatch.MatchIsLeast | src/rule_dispatcher/set.rs:55-105 | the staged reductions pick the least of all candidates that pass the id filter |
| RuleOrder.StoredIdAction | src/rule_dispatcher/builder/quanx_filter.rs:62-97 | a merged pattern carries the id of an earlier or the same line with the same action |
| RuleOrder.CompileSound | src/rule_dispatcher/rules/domain.rs:11-16 | no match can reach the lookup's panic |
| RuleOrder.DomainFrom | src/rule_dispatcher/rules/domain.rs:22-55 | every handle of a domain match is the stored handle of a line that means the name |
| RuleOrder.DomainTo | src/rule_dispatcher/rules/domain.rs:22-55 | every line that means the name is represented in the match |
| RuleOrder.NetFrom | src/rule_dispatcher/rules/ip.rs:7-31 | every handle of an address lookup belongs to a line whose block holds the address |
| RuleOrder.NetTo | src/rule_dispatcher/rules/ip.rs:7-31 | every such line whose entry the search reaches is represented |
| RuleOrder.AscendingReached | src/rule_dispatcher/rules/ip.rs:7-31 | the search reaches all of them when the blocks' ends ascend |
| RuleOrder.CodeFrom | src/rule_dispatcher/rules/geoip.rs:17-44 | a country query gives the handle of the first rule for the code, or nothing if there is none |
| RuleDispatch.MatchDomain | src/rule_dispatcher/dispatcher.rs:151-175 | the resolver's entry point decides as a stream to the same domain does |
| RuleTheorem.ShouldResolveMeans | src/rule_dispatcher/set.rs:40-54 | a domain is resolved if and only if no matching domain or final rule is aggregated ahead of the first resolving rule |
| RuleTheorem.ResolutionSparedIff | src/rule_dispatcher/set.rs:40-54 | for every domain: what the compiled rules resolve the scan resolves; the converse fails if and only if all matching rules stand behind the first resolving rule and one carries an id ahead of it |
| RuleTheorem.CompiledEqualsScanIff | src/rule_dispatcher/dispatcher.rs:28-125 | for every file of fewer than 2^24 lines, every table search, every destination and every resolver: compiled two-phase dispatch decides as the top-to-bottom scan if and only if the destination is not misrouted |
| RuleTheorem.DispatchPicks | src/rule_dispatcher/set.rs:55-105 | the compiled rules act as the line with the least stored id among those satisfied in the scan and found by the tables |
| RuleTheorem.CompiledEqualsScan | src/rule_dispatcher/dispatcher.rs:28-125 | searchable tables, country rules on one side of the first resolving rule and no inverted pair that matches the domain are enough; addresses need the first only |
| RuleReading.FirstAnswerCounts | src/rule_dispatcher/dispatcher.rs:28-46 | for every rule set only the first answer of each family decides |
| RuleReading.TrailingDotIgnored | src/rule_dispatcher/rules/domain.rs:22-26 | for every rule set a trailing dot of the name makes no difference |
| RuleReading.NameRuleRead | src/rule_dispatcher/rules/domain.rs:22-42 | a full name, a suffix and a keyword rule, in terms of the host name alone |
| RuleReading.BlockByAddress | src/rule_dispatcher/dispatcher.rs:56-125 | a block rule applies to an address of its family exactly between the block's first and last address |
| RuleReading.Block4ByAnswer | src/rule_dispatcher/dispatcher.rs:28-46 | an IPv4 block rule applies to a domain exactly if the first IPv4 answer lies in the block |
| RuleReading.Block6ByAnswer | src/rule_dispatcher/dispatcher.rs:28-46 | an IPv6 block rule applies to a domain exactly if the first IPv6 answer lies in the block |
| RuleReading.CountryRead | src/rule_dispatcher/rules/geoip.rs:17-44 | a country rule applies exactly if the database is there and has the code for the address, or for either first answer |
| RuleReading.ResolverRead | src/rule_dispatcher/dispatcher.rs:56-125 | a no-resolve rule never applies to a domain; one that resolves does not without a resolver and yields no verdict over a dropped one |
| RuleReading.VerdictRead | src/rule_dispatcher/dispatcher.rs:40-45 | the verdict is the action of the rule's own number, or none if there is no such action |
| RuleReading.NoRuleRead | src/rule_dispatcher/dispatcher.rs:40-45 | a file without rules falls back |
| RuleExactness.OvertakenByMergingIff | src/rule_dispatcher/builder/quanx_filter.rs:62-75 | where the tables find everything, a destination is overtaken if and only if the line aggregated first is inverted with the line that stands first |
| RuleExactness.UniformBetween | src/rule_dispatcher/builder/quanx_filter.rs:62-75 | equal actions between a pattern's stored and own line are enough |
| RuleExactness.UniformFileEqualsScan | src/rule_dispatcher/dispatcher.rs:28-125 | a file whose merged runs are uniform, with one rule per country and ascending blocks, is dispatched as written for all destinations and resolver answers, and for a dropped resolver if no pattern is merged across the first resolving rule |
| RuleExactness.CountryLookupIff | src/rule_dispatcher/rules/geoip.rs:17-44 | the first rule for a code represents those behind an id if and only if the code's rules lie on one side of it |
| RuleExactness.MergedRangeOvertakes | src/rule_dispatcher/builder/quanx_filter.rs:62-75 | a file of three rules for which compiled dispatch and scan take different actions |
| RuleExactness.StraddlingSparesResolution | src/rule_dispatcher/set.rs:40-54 | a file of three rules for which only the scan needs the resolver |
| RuleExactness.NestedBlockMissed | src/rule_dispatcher/rules/ip.rs:7-17 | a file of two rules and an address for which a search may start at either end; started behind, as bisection does, the lookup returns nothing and dispatch falls back |
| RuleExactness.SplitCountryMissed | src/rule_dispatcher/rules/geoip.rs:17-44 | a file of two country rules of which the resolved match finds neither |
| CompatFlow.TxHalf.PollFlushTx | src/flow/compat.rs:160-171 | bytes go to the sink in order; success means none is unwritten and the sink was flushed after the last |
| CompatFlow.TxHalf.PollTxBuffer | src/flow/compat.rs:145-155 | the buffer comes back empty and only after everything committed was written |
| CompatFlow.TxHalf.PollCloseTx | src/flow/compat.rs:173-177 | the sink is shut down only after every committed byte was written and flushed |
| Forward.Oneway.Poll | src/forward/stream.rs:44-121 | into either kind of sink, every poll keeps conservation, the place of the buffer, the hint, the announced data and the counter; it is pending only if a stream was, has flushed the sink while it waits for more, closes only after the end of the source, and fails only with the error of a stream |
| Forward.ForwardAll | src/forward/stream.rs:44-121 | a direction over streams that do not fail ends with the whole source on the wire, then the shutdown; the counter is its length, plus bytes counted again, of which there are none into a `CompatFlow` and from one into a new `IpStackStream` |
| Forward.Oneway.TakeTxBuffer | src/forward/stream.rs:73-88 | the buffer passed to the source holds exactly what the sink left in it, for every script of its socket |
| Forward.Oneway.ReceiveBuffer | src/forward/stream.rs:89-111 | a delivery keeps conservation and counts the received bytes and, once more, those the sink had left in the buffer; the end of the source is no error, and an error counts nothing |
| Forward.CountedOnceIff | src/forward/stream.rs:73-99 | the next delivery is counted once for every script of the socket if and only if nothing is unsent or the size asked for is the capacity of the buffer |
| Forward.CountsTwice | src/forward/stream.rs:67-99 | a concrete run from a one-byte chunk into the 4096-byte buffer of a new `IpStackStream` that counts one byte twice |
| Forward.StreamForward.Poll | src/forward/stream.rs:126-154 | both directions are polled and stay separate; the pair ends with both done or with an error, the downlink's first |
| Forward.Run | src/forward/stream.rs:126-154 | every run of polls keeps both invariants, and a pair that does not fail completes within its Pendings |
| PipeAead.ForwardFrames | src/forward/stream.rs:44-121 | a pipe whose source is the AEAD stream delivers every decoded chunk, and succeeds and closes its sink if and only if the wire was cut inside a chunk |
| PipeAead.CutOutcomeIff | src/shadowsocks/stream.rs:40-153 | whole frames and a part of one more: all whole chunks arrive, and the pipe succeeds if and only if the part reaches beyond its size field |
| PipeAead.TamperedFails | src/shadowsocks/stream.rs:132-151 | a pipe from a stream with a chunk that was not sealed delivers what came before and fails, its sink open |
| PipeAead.SealAll | src/forward/stream.rs:73-118 | a pipe whose sink is the AEAD stream seals every portion as one frame and, at the end, the empty buffer as one more |
| PipeAead.EmptyFrameRefused | src/shadowsocks/crypto/aead.rs:83-104 | the receiver delivers the chunks in front of an empty frame and then fails |
| PipeAead.Relay | src/forward/stream.rs:44-121 | source, pipe, stream, pipe, sink: every byte arrives if the portions fit a chunk, and the second pipe ends in an error with its sink open |
| DualStack.EmissionAccounts | src/socket/mod.rs:33-143 | each family is sent in order and no entry twice; the later family completely, the other but for the entry in flight |
| DualStack.AllSentIff | src/socket/mod.rs:33-143 | exactly the dropped address is missing; all are sent if and only if no answer won a select against a send |
| DualStack.EmissionOrder | src/socket/mod.rs:57-131 | a winning answer is interleaved starting with its own family, a timely IPv6 answer starting with IPv6, otherwise the families follow one another |
| DualStack.SendWhileWaiting | src/socket/mod.rs:57-81 | the pop-and-reverse loop sends the emission of its schedule |
| DualStack.ResolveDualStackIps | src/socket/mod.rs:33-143 | what arrives is the emission of the schedule as far as the receiver takes it |
| DualStack.Race | src/socket/tcp.rs:208-246 | success if and only if a success was observed, which is the last event; attempts start once each, in order; an error only after every address was tried and seen to fail |
| DualStack.DialDualStack | src/socket/tcp.rs:200-247 | the result is that of an attempt on a sent address, a success if and only if one accepts; an error means every resolved address refused, but for the dropped one |
| DualStack.OnlyReachableDropped | src/socket/mod.rs:57-81 | a dial that fails although a resolved address accepts |
| Socks5.ServeHandshake | src/socks5.rs:89-239 | over any segmentation the outcome is the function of the input, and the bytes behind the request are kept; a stream that fails can only cut it short |
| Socks5.PerformHandshake | src/socks5.rs:242-301 | over any segmentation the outcome is the function of the replies, and the bytes behind them are kept; a stream that fails can only cut it short |
| Socks5.ServedIff | src/socks5.rs:194-239 | for every destination: the server obtains it normalised, with exactly the bytes behind the request, if and only if the name fits 248 bytes and normalises |
| Socks5.LongNameOutcome | src/socks5.rs:198-232 | what happens to every longer name: a panic, a refusal, or the beginning of the name taken for the name and the rest for port and data |
| Socks5.ServerAccepts | src/socks5.rs:89-239 | any methods with the one without authentication, any reserved byte and any destination that can be served |
| Socks5.ServerRefusesMethods | src/socks5.rs:89-187 | another version is dropped, a list without the method is answered with 0xff |
| Socks5.ServerRefusesRequest | src/socks5.rs:190-226 | another version, command or address type is answered with a refusal, whatever follows |
| Socks5.AcceptedMeans | src/socks5.rs:89-239 | only such input is accepted, with the parsed destination and the bytes behind the request |
| Socks5.ClientNeedsMethod | src/socks5.rs:265-277 | any answer but the acceptance of the method ends the handshake |
| Socks5.ClientNeedsGrant | src/socks5.rs:279-301 | any reply that does not grant the request ends it, whatever follows |
| Socks5.RefusalBreaksClient | src/socks5.rs:265-301 | so does everything a server writes that refuses |
| Socks5.ClientTakesGrant | src/socks5.rs:282-297 | a grant is taken with any bound address of either family or name, and the bytes behind it are kept |
| Socks5.ClientNeedsAddress | src/socks5.rs:285-295 | a grant with an unknown address type is refused |
| Socks5.ClientNeedsAll | src/socks5.rs:282-297 | every answer that stops short ends in Eof |
| Socks5.RunStaysOnCourse | src/socks5.rs:89-301 | in every run of the two sides, however portioned, both receive only prefixes of the intended bytes |
| Socks5.QuietMeansDone | src/socks5.rs:89-301 | with nothing in flight both handshakes are complete, the server has the normalised destination and each side the other's further bytes |
| UdpPump.Session.PollSendReady | src/socket/udp_listener.rs:82-89 | ready means the slot is free and its packet went to the socket |
| UdpPump.Session.SendTo | src/socket/udp_listener.rs:91-95 | fills a free slot |
| UdpPump.Direction.Half | src/forward/datagram.rs:43-92 | packets sent, the one in hand and those to come stay the source's packets in order; the counter is the length of those sent; no full slot is overwritten |
| UdpPump.Pump.LoopTurn | src/forward/datagram.rs:42-93 | a turn ends the pump if and only if a source ended; it yields if and only if nothing moved and no downlink packet was in hand |
| UdpPump.FullSlotSpins | src/forward/datagram.rs:42-93 | for every number of turns an association whose loop makes that many without yielding, ending or moving anything |
| UdpPump.Pump.Poll | src/forward/datagram.rs:40-95 | both directions conserve their packets; the poll finishes if and only if a source ended, all of whose packets its sink then has unless the channel was closed early |

## Left out

- Real ciphers, HKDF, random IVs and MD5 key derivation: the cipher is any one that meets the two laws, IVs are inputs.
- The stream-cipher branches (`PRE_CHUNK_OVERHEAD` or `POST_CHUNK_OVERHEAD` equal to 0): they only hand bytes to a library.
- In-place encryption: frames are computed on values; that a reader's buffer holds decrypted bytes in its consumed part is not modelled.
- `Vec` capacity, except where `IpStackStream` and `CompatFlow` decide by it.
- `ShadowsocksStream` is split into its receiving and sending half, which use disjoint fields.
- `create_outbound` of the Shadowsocks factory, which returns the lower stream unwrapped: `ShadowsocksTunnel` composes `get_req` with the stream as designed.
- `src/shadowsocks/server.rs` and `src/shadowsocks/proxy_stream.rs`; `src/shadowsocks/crypto` other than AEAD.
- Text parsing of rule files, the regex table, Surge and GeoIP-only rule sets, `set_action` and `set_rule_id`.
- RuleTheorem.CompiledEqualsScan: sufficient conditions only, for checking a file; the exact one is in `CompiledEqualsScanIff`.
- Size hints of zero bytes, which no stream of the repository gives: the pipe would panic on one.
- The written counters are shared by all connections of the process; the model counts each direction of one.
- PipeAead.ForwardFrames: every poll is repeated until it is ready, over a sink and a lower stream that do not fail; the flush while the source is pending is in `Forward` only.
- `handle_stream` around `StreamForward`, including the initial-data timeout.
- Forward.Oneway.Poll: bytes that arrive together with an error other than Eof are handed to the sink but not counted, as in the source; a sink that accepts no byte of a non-empty slice, over which the flush loop would spin, is not modelled.
- DualStack.Race: every attempt ends eventually; attempts that hang are not modelled.
- SOCKS5 username and password authentication, and failures while a reply is being written.
- UdpPump.Pump.Poll: terminates here because each session answers Pending finitely often.
- UdpPump.Session.PollSendReady: a packet the socket rejects counts as handed over, as in the source.
- Domain-name normalisation is an arbitrary partial function; strings are bytes.
- DoH and HTTP clients, TLS, the network interface and TCP stack libraries, configuration, logging.
