# Verified model of simple-ntpd

This Dafny 4.11 project models the parts of the simple-ntpd daemon whose correctness rests on
arithmetic, state or parsing, and proves what they promise. `dafny verify dfyconfig.toml`
checks everything.

| File | Models |
|---|---|
| `NtpTime.dfy` | conversion between system time and 32.32 NTP timestamps, with wrapping 64-bit words |
| `OnWire.dfy` | offset and delay formulas, and the correction of served timestamps |
| `PacketCodec.dfy` | the 48-byte packet: codec over a byte array, validation, request and response |
| `UpstreamSync.dfy` | checks on an upstream's answer, choice of the best, committed clock state |
| `UpstreamPool.dfy` | round-robin selection and failover over the healthy list |
| `AccessControl.dfy` | CIDR masks and the client access list |
| `RateLimit.dfy` | the one-slot limiter and the per-connection history |
| `Config.dfy`, `Connection.dfy` | configuration validation; what a client connection does with a packet |
| `ServerModel.dfy`, `Server.dfy`, `ServerObject.dfy` | a packet, cleanup, reload and synchronisation as functions on the server's state, the server object proved against them, and the object driven through a whole run |
| `ServerRuns.dfy`, `Accounting.dfy`, `ConfigRuns.dfy`, `AdmissionRuns.dfy`, `ConnectionRuns.dfy`, `FailoverRuns.dfy`, `ReloadRuns.dfy`, `ServedTime.dfy` | what holds over every run: answers, accounting, configuration, limiters, connections, failover, reloads, quality of the served time |
| `SelfHealing.dfy` | the check and the later increment of the restart counter, interleaved between workers |
| `LogRotation.dfy`, `JsonLog.dfy` | writing and rotating log files; structured log lines |
| `ConfigText.dfy` | the INI, JSON and YAML line scanners and list values |

Objects that the program updates in place are classes here (`NtpPacket`, `UpstreamSyncManager`,
`NtpConnection`, `NtpServer`, `FileLogger`); each method is proved against a function on the
object's value, and the theorems are about those functions. A run is any sequence of steps.
Clocks, random draws, network results and files read are inputs of the steps. System time is in
nanoseconds since 1970.

## Where the code falls short of its intent

Each is stated exactly, with its condition, and the code is modelled as it is.

- A system time before 1970 with a fraction of a second is encoded wrongly, because both
  truncations go toward zero (`NtpTime.FromSystemTimeIsFloor`, `NtpTime.RoundTripIff`). From
  February 2036 received timestamps decode to such times, so a synchronised server serves wrong
  times then unless they are whole seconds (`OnWire.ServedCorrectionIff`, and for an input
  `OnWire.ServedCorrectionFailsAfter2036`).
- Round robin is fair from every counter value only for list lengths that divide 2^64, that is
  for powers of two (`UpstreamPool.FairAlwaysIff`).
- A reload leaves the healthy list as it was, so servers no longer configured are selected
  (`ReloadRuns.StaleAfterReload`, and for an input `ReloadRuns.StaleWitness`).
- A connection keeps the configuration it was made under, so authentication turned on by a
  reload does not reach clients that have one (`ConnectionRuns.UnauthenticatedAnsweredIff`, and
  for an input `ConnectionRuns.UnauthenticatedAfterReload`). Since nothing but its destruction
  stops a connection, the table never shrinks (`ConnectionRuns.TableNeverShrinks`).
- The restart bound needs a counter that does not wrap (`SelfHealing.BoundedIff`).
- A structured log line escapes only the message, and only quotes and backslashes
  (`JsonLog.LineReadsBackIff`).
- The JSON configuration scanner removes a comma or quotes that belong to the last value
  (`ConfigText.LineReadsBackIff`).
- The originate timestamp of an upstream's answer is not compared with the request, so an
  answer to an earlier request is accepted as well (`UpstreamSync.OriginateIgnored`). It holds the
  error bound exactly if it is late by no more than the outward path took
  (`UpstreamSync.LateAnswersWithinIff`), and can be preferred to an honest one
  (`UpstreamSync.LateAnswerChosen`).

## Model

| member | source | states |
|---|---|---|
| NtpTime.ToSystemTimeIsSigned | src/simple-ntpd/core/packet.cpp:396-407 | For every timestamp the wrapping unsigned computation is the signed one, also for NTP seconds below the Unix epoch. |
| NtpTime.ToSystemTimeRange | src/simple-ntpd/core/packet.cpp:396-407 | Every timestamp decodes to whole microseconds within the one era from 1900 to 2036. |
| NtpTime.UnixEpochEncoded | src/simple-ntpd/core/packet.cpp:375-394 | The Unix epoch is encoded as the seconds of 70 years with 17 leap days. |
| NtpTime.FromSystemTimeIsFloor | src/simple-ntpd/core/packet.cpp:375-394 | Encoding rounds down to the 2^-32 s grid modulo the era if and only if the time is not before 1970 or is a whole second. |
| NtpTime.RoundTrip | src/simple-ntpd/core/packet.cpp:375-407 | Decoding an encoded time gives the time less whole eras of 2^32 s less an exact loss of at most 1000 ns, for every era. |
| NtpTime.RoundTripIff | src/simple-ntpd/core/packet.cpp:375-407 | The round trip loses between 0 and 1000 ns, up to eras, if and only if the time is not before 1970 or is a whole second. |
| OnWire.CalculateRoundTripDelay | src/simple-ntpd/core/packet.cpp:344-357 | The delay of decoded stamps is exactly (t4 - t1) - (t3 - t2) in microseconds and no step overflows 64 bits. |
| OnWire.OffsetRounding | src/simple-ntpd/core/packet.cpp:359-372 | For any four timestamps the reported offset differs from the exact half sum by at most half a microsecond. |
| OnWire.ExchangeBound | src/simple-ntpd/core/packet.cpp:344-372 | For any path delays and clock difference the reported offset is off by at most half the reported delay plus a constant (RFC 5905, section 8). |
| OnWire.ExchangeBoundIff | src/simple-ntpd/core/packet.cpp:344-372 | For given path lengths and constant the bound holds of every exchange if and only if each path with the constant covers the roundings against it, so the constant used is the least. |
| OnWire.DelayIsPaths | src/simple-ntpd/core/packet.cpp:344-357 | The reported delay is the time spent on both paths up to the stamps' rounding. |
| OnWire.EncodedExchange | src/simple-ntpd/core/packet.cpp:344-407 | Through encoding, offset and delay are the textbook values up to 1.5 and 2 us if and only if the era numbers of the four times cancel. |
| OnWire.ServedCorrection | src/simple-ntpd/core/server.cpp:493-502 | For shifted times up to 2036 that are not before 1970 or are whole seconds, a corrected timestamp is never ahead of the exact shifted time and less than 1 us + 2^-32 s behind it. |
| OnWire.ServedCorrectionIff | src/simple-ntpd/core/server.cpp:493-502 | For all timestamps and offsets the correction is the shifted time rounded down if and only if that time is not before 1970 or is a whole second. |
| OnWire.ServedCorrectionFailsAfter2036 | src/simple-ntpd/core/server.cpp:493-502 | A concrete timestamp just after the 2036 rollover is corrected to a time more than a quarter second ahead. |
| OnWire.CorrectionMonotone | src/simple-ntpd/core/server.cpp:493-502 | Correcting two timestamps by one offset keeps their order. |
| OnWire.ServedStamp | src/simple-ntpd/core/server.cpp:493-502 | A clock reading that was encoded, corrected and decoded is at most 1 us (uncorrected, in any era) or 2 us (corrected) behind clock plus offset. |
| PacketCodec.ReadWrittenWord | src/simple-ntpd/core/packet.cpp:31-43 | Reading four bytes where a word was written gives the word. |
| PacketCodec.WriteReadWord | src/simple-ntpd/core/packet.cpp:31-43 | Writing a word that was read reproduces the four bytes. |
| PacketCodec.WordInNetworkOrder | src/simple-ntpd/core/packet.cpp:31-36 | A word is read most significant byte first. |
| PacketCodec.HeaderBytes | src/simple-ntpd/core/packet.cpp:125-148 | Leap indicator, version, mode, stratum, poll and the two's complement precision are these bits of the first four bytes. |
| PacketCodec.ValidBytesIff | src/simple-ntpd/core/packet.cpp:178-224 | A buffer decodes to a valid packet if and only if its first four bytes meet the ranges. |
| PacketCodec.ClientRequestOnWire | src/simple-ntpd/core/packet.cpp:77-91 | A request is 0x23, 0, 4, 0xFA, then zeros up to the transmit timestamp of the clock. |
| PacketCodec.WriteU32Be | src/simple-ntpd/core/packet.cpp:38-43 | Writes the four bytes in place and leaves every other byte of the buffer alone. |
| PacketCodec.WriteTimestamp | src/simple-ntpd/core/packet.cpp:50-53 | Writes the eight bytes in place and leaves every other byte of the buffer alone. |
| PacketCodec.DecodeEncode | src/simple-ntpd/core/packet.cpp:125-171 | Parsing a serialized packet returns it if and only if leap indicator, version and mode fit their 2, 3 and 3 bits. |
| PacketCodec.EncodeDecode | src/simple-ntpd/core/packet.cpp:125-171 | For every buffer of at least 48 bytes, serializing what was parsed reproduces its first 48 bytes. |
| PacketCodec.FieldsOfEncoding | src/simple-ntpd/core/packet.cpp:150-171 | Each field is at its offset in the header of RFC 5905, section 7.3. |
| PacketCodec.NtpPacket.constructor | src/simple-ntpd/core/packet.cpp:58-75 | A new packet has the default fields. |
| PacketCodec.NtpPacket.ParseFromData | src/simple-ntpd/core/packet.cpp:125-148 | Fails and changes nothing below 48 bytes, otherwise assigns every field. |
| PacketCodec.NtpPacket.SerializeToData | src/simple-ntpd/core/packet.cpp:150-171 | The buffer filled at fixed offsets is the encoding of the fields. |
| PacketCodec.CreateServerResponse | src/simple-ntpd/core/packet.cpp:93-123 | Building the response step by step gives the specified response: the client's transmit time as originate, the three clock readings, the identifier. |
| PacketCodec.ReferenceWord | src/simple-ntpd/core/packet.cpp:115-120 | The loop over the identifier's characters packs the first four, right aligned if there are fewer. |
| PacketCodec.ServerResponseOnWire | src/simple-ntpd/core/packet.cpp:93-123 | The serialized response starts 0x24, stratum, 4, 0xFA, echoes the client's transmit time, carries the identifier in bytes 12 to 15, and parses to itself. |
| PacketCodec.ValidateDetailed | src/simple-ntpd/core/packet.cpp:178-224 | The list of errors holds exactly the faults the packet has, and is empty if and only if every field is in its range. |
| UpstreamSync.SucceedsIff | src/simple-ntpd/core/upstream_sync.cpp:88-115 | A query succeeds if and only if there is a reply of at least 48 bytes whose first four are those of a valid packet of mode 4, and it then reports the stratum in them; it always names the server asked. |
| UpstreamSync.AcceptsServerPacket | src/simple-ntpd/core/upstream_sync.cpp:102-115 | The two stamps of a valid server packet reach the formulas unchanged, between the two clock readings of the client. |
| UpstreamSync.AnswerWithin | src/simple-ntpd/core/upstream_sync.cpp:93-115 | An accepted answer from any server, in any era, holds the exchange bound for that server's clock, also when it is late by no more than the outward path, and its delay shows its paths. |
| UpstreamSync.OriginateIgnored | src/simple-ntpd/core/upstream_sync.cpp:93-115 | Whatever eight bytes stand for the originate timestamp, the result of a query is the same. |
| UpstreamSync.LateAnswersWithinIff | src/simple-ntpd/core/upstream_sync.cpp:93-115 | Accepted answers to a request sent d earlier hold the exchange bound, for every rounding, if and only if d is at most the outward path. |
| UpstreamSync.LateAnswerChosen | src/simple-ntpd/core/upstream_sync.cpp:139-177 | A concrete answer to an earlier request is preferred to an honest one and commits an offset almost four seconds off, outside its bound. |
| UpstreamSync.BestIsFirstMinimum | src/simple-ntpd/core/upstream_sync.cpp:144-158 | The choice is the first answer of minimum delay among the successes, and there is one exactly if some query succeeded. |
| UpstreamSync.UpstreamSyncManager.constructor | src/simple-ntpd/core/upstream_sync.cpp:117-119 | A new manager is unsynchronised with offset 0. |
| UpstreamSync.UpstreamSyncManager.SyncOnce | src/simple-ntpd/core/upstream_sync.cpp:139-177 | The loop finds the best answer and commits all its fields together; replies that are all bad change nothing. |
| UpstreamSync.RoundCommitsIff | src/simple-ntpd/core/upstream_sync.cpp:139-177 | A round commits something if and only if one of its replies is good, takes it from a good one with a stratum up to 15, and with only bad ones changes nothing. |
| UpstreamSync.StateIsOneAnswer | src/simple-ntpd/core/upstream_sync.cpp:139-177 | Over every run of rounds all fields come from one answer, the first of minimum delay of the last round with a success; synced never reverts; without any success nothing changed. |
| UpstreamSync.StratumInCases | src/simple-ntpd/core/upstream_sync.cpp:199-206 | The effective stratum is the configured one until an upstream of known stratum is found, then one more than the upstream's, and 15 from 15 on. |
| UpstreamSync.CommittedIsBestGuarantee | src/simple-ntpd/core/upstream_sync.cpp:139-177 | Of the replies a round receives out of real exchanges, the first of minimum delay is committed, holds the exchange bound for its server's clock, and is off by at most half the time any other answer spent on its paths plus a constant. |
| UpstreamPool.FairUntilWrap | src/simple-ntpd/core/server.cpp:904-907 | Any m consecutive selections from n distinct servers pick each server floor(m/n) or ceiling(m/n) times, if the 64-bit counter does not wrap among them or n divides 2^64. |
| UpstreamPool.WrapSkipsLast | src/simple-ntpd/core/server.cpp:904-907 | For any n that does not divide 2^64, the n selections across the wrap miss the last server. |
| UpstreamPool.FairAlwaysIff | src/simple-ntpd/core/server.cpp:904-907 | The rotation is fair from every counter value and for every length if and only if n divides 2^64. |
| UpstreamPool.DropTakesFirst | src/simple-ntpd/core/server.cpp:517-523 | A failed server's first occurrence leaves the list and everything else stays. |
| UpstreamPool.HealthyIsConfiguredLessFailed | src/simple-ntpd/core/server.cpp:517-523 | Over every run of selections and failures the healthy list is the configured one, in order, less the failures since it was last filled. |
| UpstreamPool.SelectionAfterFailures | src/simple-ntpd/core/server.cpp:887-910 | A configured server is always selected, and a failed one only once every other has failed. |
| AccessControl.CidrIsQuotient | src/simple-ntpd/utils/net.cpp:12-35 | The masked comparison holds if and only if the prefix is 0 to 32 and the addresses agree after division by 2^(32 - prefix). |
| AccessControl.CidrEquivalence | src/simple-ntpd/utils/net.cpp:32-34 | For one prefix length, lying in each other's block is reflexive, symmetric and transitive. |
| AccessControl.HostBlock | src/simple-ntpd/utils/net.cpp:12-35 | A /32 block matches exactly what the plain address matches. |
| AccessControl.NestedOrDisjoint | src/simple-ntpd/utils/net.cpp:12-35 | Any two blocks are nested or disjoint (RFC 4632, section 3.1). |
| AccessControl.AdmittedIff | src/simple-ntpd/core/server.cpp:786-805 | With both switches off everyone is admitted; otherwise nobody a deny matches, and of the others everyone or nobody without allows, by whether queries are restricted, or exactly those an allow matches. |
| AccessControl.MalformedMatchesNobody | src/simple-ntpd/utils/net.cpp:26-30 | An entry that is neither an address nor a block changes nothing. |
| AccessControl.IsClientAllowed | src/simple-ntpd/core/server.cpp:786-805 | The two loops decide membership in the union of allows less the union of denies, with the rules for empty lists, and everyone is allowed with both switches off. |
| AccessControl.AddDeny | src/simple-ntpd/core/server.cpp:791-795 | Adding a deny takes away exactly its block and admits nobody. |
| AccessControl.AddAllow | src/simple-ntpd/core/server.cpp:796-804 | Adding an allow admits exactly its block less the denies, besides whom a nonempty list admitted before. |
| RateLimit.ExceedsIffBucketCount | src/simple-ntpd/core/server.cpp:807-843 | For any interleaving of clients on a steady clock a call is rejected if and only if the client's calls in the current bucket, modulo 2^32, exceed the limit. |
| RateLimit.HistoryCountsEveryBucket | src/simple-ntpd/core/connection.cpp:116-127 | Each counter of the per-connection map is exact modulo 2^32, in whatever order the calls came. |
| RateLimit.SlotRefinesHistory | src/simple-ntpd/core/server.cpp:807-824 | On a steady clock the one-slot limiter gives the verdict of the unbounded history. |
| RateLimit.UnsteadySeparates | src/simple-ntpd/core/server.cpp:815-823 | If the clock could step back the two limiters would differ. |
| RateLimit.BucketPasses | src/simple-ntpd/core/server.cpp:807-824 | With a fixed limit and fewer than 2^32 calls, a bucket lets exactly its first `limit` calls pass. |
| RateLimit.WindowPasses | src/simple-ntpd/core/server.cpp:807-824 | In any window of one bucket's length, wherever it starts, at most twice the limit passes. |
| Config.ReferenceIdHasFour | src/simple-ntpd/core/server.cpp:926-942 | From an accepted configuration the identifier in effect always has four characters. |
| Config.ReferenceIdBySource | src/simple-ntpd/core/server.cpp:926-942 | By the configured source, in any case of its letters, the identifier is "GPS ", "ATOM" or "HARD", and otherwise the configured one, or "LOCL" for a reference clock without one. |
| Config.AcceptedIffFaultless | src/simple-ntpd/config/config.cpp:125-222 | A configuration is accepted if and only if it has none of the errors that validation reports. |
| Connection.NtpConnection.constructor | src/simple-ntpd/core/connection.cpp:24-31 | A new connection is active, untrusted and has counted nothing. |
| Connection.NtpConnection.Stop | src/simple-ntpd/core/connection.cpp:45-62 | Stopping makes the connection inactive and changes nothing else. |
| Connection.NtpConnection.SetTrusted | src/simple-ntpd/core/connection.cpp:144-144 | Changes the trust flag alone. |
| Connection.NtpConnection.HandlePacket | src/simple-ntpd/core/connection.cpp:83-142 | Accepts exactly an active connection's valid client request within the minute's limit and authentic if that is required; only a client request counts and only an accepted one is booked. |
| Server.NtpServer.constructor | src/simple-ntpd/core/server.cpp:39-122 | A started server has empty tables, zero counters, every upstream healthy, and a clock to synchronise if there are upstreams. |
| Server.NtpServer.IsRateLimitExceeded | src/simple-ntpd/core/server.cpp:807-824 | Updating the slot field by field is one limiter call; nothing happens if limiting is off. |
| Server.NtpServer.IsDdosAnomaly | src/simple-ntpd/core/server.cpp:826-843 | The same limiter on seconds and its own slots and threshold. |
| Server.NtpServer.GetOrCreateConnection | src/simple-ntpd/core/server.cpp:546-573 | Returns the client's one connection, fresh exactly if there was none, counts it, and shares no object between clients. |
| Server.NtpServer.CleanupConnections | src/simple-ntpd/core/server.cpp:587-599 | Erasing while iterating removes exactly the inactive entries, and the gauge stays the table's size and never underflows. |
| Server.NtpServer.SelectUpstreamServer | src/simple-ntpd/core/server.cpp:887-910 | Refills an empty list, then picks by rotation or by the random draw and advances the wrapping counter. |
| Server.NtpServer.DropUpstream | src/simple-ntpd/core/server.cpp:517-523 | The search loop removes the first occurrence of the server, or nothing. |
| Server.NtpServer.ApplyDynamicStratum | src/simple-ntpd/core/server.cpp:912-924 | Raises the stratum by one exactly past 100 requests with an error ratio above 0.20 and a stratum below 15. |
| Server.NtpServer.ReloadConfig | src/simple-ntpd/core/server.cpp:129-179 | Succeeds exactly on a readable and valid file; a failed reload changes nothing. |
| Server.NtpServer.CreateResponse | src/simple-ntpd/core/server.cpp:475-490 | The answer uses the synchronised stratum if there is one and the identifier in effect; the failing second parse cannot happen. |
| Server.NtpServer.CorrectResponse | src/simple-ntpd/core/server.cpp:493-502 | Shifts receive and transmit, and no other stamp, by a nonzero clock offset. |
| Server.NtpServer.Respond | src/simple-ntpd/core/server.cpp:474-529 | Answers, adapts the stratum, selects an upstream, and books either the response or the error and the dropped upstream. |
| Server.NtpServer.Screen | src/simple-ntpd/core/server.cpp:443-463 | Access list, then minute limiter, then anomaly limiter, in that order; every drop is one error. |
| Server.NtpServer.ProcessPacket | src/simple-ntpd/core/server.cpp:435-544 | The whole method takes the object from its state and a packet to the state and reply of the transition function, keeps its invariant, adds only fresh connections, and never meets a missing one. |
| Server.NtpServer.ProcessIncomingPackets | src/simple-ntpd/core/server.cpp:394-432 | The receive loop leaves the state, and sends the replies, of its packets processed one after another. |
| Server.NtpServer.StopConnection | src/simple-ntpd/core/connection.cpp:45-62 | Stopping a connection in the table keeps the object's invariant and makes that entry alone inactive. |
| ServerObject.ReceiveLoopIsRun | src/simple-ntpd/core/server.cpp:394-432 | The receive loop is a stretch of the run. |
| ServerObject.RunServer | src/simple-ntpd/core/server.cpp:372-544 | A server object started with any configuration and driven by any events ends in the state of their run. |
| ServerRuns.ConfigStaysAccepted | src/simple-ntpd/core/server.cpp:129-179 | Over any mix of packets, stratum steps, synchronisations and reloads the configuration stays one that validation accepts. |
| ServerRuns.EveryAnswerWellFormed | src/simple-ntpd/core/server.cpp:474-507 | After any run every answer echoes the request's transmit time, starts with the bytes 0x24, the stratum served (the synchronised one more than the upstream's, or the configured one), 4 and 0xFA, carries the identifier in effect in bytes 12 to 15 and passes this program's own client checks. |
| ServerRuns.ResponseFields | src/simple-ntpd/core/server.cpp:483-502 | An answer from an accepted configuration is a valid server packet with the stratum in effect. |
| Accounting.BooksAgree | src/simple-ntpd/core/server.cpp:435-599 | Over every run the counters are those of a ledger kept from packets, replies and the table alone: a request and a response for each answered packet, an error for each other, the answered bytes, a connection for each new client, all of them in the table or erased, and number, sum, greatest and least of the times of the packets answered or refused by their connection. |
| Accounting.CleanupAgrees | src/simple-ntpd/core/server.cpp:587-599 | A cleanup books what it erases and leaves exactly the active connections. |
| Accounting.BooksBalance | src/simple-ntpd/core/server.cpp:435-544 | Over every run of packets that fit the buffer requests plus errors are the packets, bytes are 48 a request, and processed times min <= total <= processed times max. |
| ConfigRuns.StratumRisesIff | src/simple-ntpd/core/server.cpp:912-924 | After any run a packet raises the stratum by one if and only if it is accepted while adjustment is on, over a hundred packets have been answered, five times the others exceed them, and the stratum is below 15; nothing else changes. |
| ConfigRuns.ConfigIsLastLoaded | src/simple-ntpd/core/server.cpp:129-179 | Over every run the configuration in force is the last valid one loaded, but for a stratum that only rises, and only if that configuration asks for it. |
| AdmissionRuns.SlotsAreOfCalls | src/simple-ntpd/core/server.cpp:443-463 | Over every run the slots of each limiter are those of exactly the packets that reached it while it was on. |
| AdmissionRuns.OverIffTooMany | src/simple-ntpd/core/server.cpp:449-463 | After any run a packet is over a configured limit if and only if the client's packets that met that limiter in this minute, or second, counted from the events, exceed it modulo 2^32. |
| AdmissionRuns.PassedIff | src/simple-ntpd/core/server.cpp:443-463 | Admission is the access list, the minute limit, and the anomaly limit exactly if graceful degradation is on. |
| AdmissionRuns.AnswersWithinLimit | src/simple-ntpd/core/server.cpp:435-530 | Over every run in which a limit is enforced throughout a client gets at most that many answers a minute, or a second. |
| ConnectionRuns.AnsweredIff | src/simple-ntpd/core/server.cpp:435-530 | In every state a packet is answered if and only if it passes admission, its connection accepts it and it can be sent. |
| ConnectionRuns.AnsweredExactly | src/simple-ntpd/core/server.cpp:435-530 | After any run a packet is answered if and only if: the access list admits its client, the packets counted from the events stay within both limits, its connection is active, its bytes are a valid packet of mode 3, the connection's requests stay within its limit, it is authentic if that is demanded, and it can be sent. |
| ConnectionRuns.TableNeverShrinks | src/simple-ntpd/core/server.cpp:587-599 | Over every run in which nothing stops a connection every connection stays active, no cleanup erases one and the table only grows. |
| ConnectionRuns.StoppedIsErased | src/simple-ntpd/core/server.cpp:587-599 | A stopped connection answers nothing more and the next cleanup erases it. |
| ConnectionRuns.EveryConnectionTrusted | src/simple-ntpd/core/server.cpp:561-567 | Over every run every connection in the table is marked trusted. |
| ConnectionRuns.ConnectionBooks | src/simple-ntpd/core/connection.cpp:136-142 | Over every run that does not erase a client's connection it has booked exactly the packets it accepted and their bytes. |
| ConnectionRuns.ConnectionKeepsConfig | src/simple-ntpd/core/server.cpp:561-567 | Over every run a connection decides under the configuration in force when it was made, whatever is reloaded. |
| ConnectionRuns.UnauthenticatedAnsweredIff | src/simple-ntpd/core/connection.cpp:128-134 | After any run, while the configuration demands authentication, a packet that is not authentic is answered if and only if it is admissible otherwise and its client's connection was made under a configuration without. |
| ConnectionRuns.UnauthenticatedAfterReload | src/simple-ntpd/core/server.cpp:129-179 | For any such configuration, one answered request and a reload that demands authentication are followed by an answer to a packet that is not authentic. |
| ConnectionRuns.ConnectionAnswersAMinute | src/simple-ntpd/core/connection.cpp:116-127 | Over every run that does not erase a client's connection it gets at most `requestRateLimit` answers a minute on it. |
| FailoverRuns.PoolFollowsPackets | src/simple-ntpd/core/server.cpp:503-525 | Over every run without a reload the server's pool goes through exactly its packets' selections and failed sends. |
| FailoverRuns.FailedIsNotSelected | src/simple-ntpd/core/server.cpp:503-525 | In such a run every packet's upstream is a configured one, and one whose send failed is not selected again until all others failed. |
| ReloadRuns.StaleAfterReload | src/simple-ntpd/core/server.cpp:129-179 | After any run and a reload some later packet selects a server that is no longer configured if and only if the healthy list left behind has one. |
| ReloadRuns.StaleWitness | src/simple-ntpd/core/server.cpp:129-179 | A concrete reload after which such a server is selected. |
| ReloadRuns.SelectionsAreFair | src/simple-ntpd/core/server.cpp:904-907 | Over every stretch of a run without a reload or a failed send, short of the wrap, the answered packets share themselves out evenly over the healthy list, so within its length every server on it is selected, also one no longer configured. |
| ServedTime.ServedWithSync | src/simple-ntpd/core/server.cpp:493-502 | In every state with a synchronisation, the decoded receive and transmit stamps of an answer are 0 to 2 us behind the clock readings plus the committed offset, up to the era. |
| ServedTime.ServedWithoutSync | src/simple-ntpd/core/server.cpp:493-502 | Without one they are 0 to 1 us behind the clock readings alone. |
| ServedTime.ReferenceServed | src/simple-ntpd/core/packet.cpp:111-113 | The reference stamp is 0 to 1 us behind its own clock reading, corrected or not. |
| ServedTime.ReceiveBeforeTransmit | src/simple-ntpd/core/server.cpp:493-502 | An answer's receive stamp is not after its transmit stamp if the clock readings were in that order, corrected or not. |
| ServedTime.ExchangeThroughServer | src/simple-ntpd/core/server.cpp:474-511 | End to end, in any one era in which the times can be encoded, through conversion, codec, server and correction: the client accepts, its delay is the path delay within 2 or 3 us, and its offset to the server's own clock plus the committed offset is off by at most half the delay plus 1.5 us, or 2.5 us if the server corrects its clock. |
| ServedTime.FirstRequestAnswered | src/simple-ntpd/core/server.cpp:435-530 | Whatever limits an accepted configuration sets, the first valid request of an admitted client is answered exactly if the answer can be sent. |
| ServedTime.OpenServerAnswers | src/simple-ntpd/core/server.cpp:786-789 | With both access switches off the first valid request of any client is answered exactly if the answer can be sent. |
| ServedTime.FirstExchange | src/simple-ntpd/core/server.cpp:474-511 | That first exchange, in any era, gives the client an offset off by at most half the delay plus 1.5 us and a delay within 2 us of the path's. |
| ServedTime.SyncQualityKept | src/simple-ntpd/core/upstream_sync.cpp:139-177 | Over every run whose synchronisation replies came out of exchanges with clocks near a reference, the committed offset to that reference is off by at most half its delay plus a constant. |
| ServedTime.SyncFollowsRounds | src/simple-ntpd/core/upstream_sync.cpp:139-177 | Over every run the server's clock state is that of its rounds alone if it started with upstreams, and none otherwise. |
| ServedTime.ReferenceThroughServer | src/simple-ntpd/core/server.cpp:474-511 | Over two hops, each derived from its exchange, and with no premise on what the server serves, a client's offset to the reference clock is off by at most half of both delays together plus the constants of both hops. |
| SelfHealing.GrantsAreBounded | src/simple-ntpd/core/server.cpp:409-411 | Every reachable state keeps restarts made plus restarts granted within limit + workers - 1. |
| SelfHealing.RestartsAreBounded | src/simple-ntpd/core/server.cpp:409-411 | Over every interleaving of checks and increments restarts stay within limit + workers - 1, within the limit for one worker, and at none for limit 0. |
| SelfHealing.DisabledNeverRestarts | src/simple-ntpd/core/server.cpp:409-411 | Workers that find self-healing off never restart anything. |
| SelfHealing.BoundIsReached | src/simple-ntpd/core/server.cpp:409-411 | Some interleaving makes exactly limit + workers - 1 restarts. |
| SelfHealing.BoundedIff | src/simple-ntpd/core/server.cpp:409-411 | The bound holds of every interleaving if and only if it fits the 32-bit counter. |
| LogRotation.FileLogger.constructor | src/simple-ntpd/utils/logger.cpp:125-129 | At least one file is kept beside the active one. |
| LogRotation.FileLogger.RotateLogs | src/simple-ntpd/utils/logger.cpp:296-316 | The counting-down renames move every file up one number, drop the last and touch no other file, also when numbers are missing. |
| LogRotation.FileLogger.OutputToFile | src/simple-ntpd/utils/logger.cpp:275-294 | Rotates exactly if the active file has reached a nonzero limit, then appends the line. |
| LogRotation.KeptAreNewest | src/simple-ntpd/utils/logger.cpp:275-316 | After any writes the files kept are, whole and in order, the newest of those that would exist if none were ever removed. |
| LogRotation.RetainedIsSuffix | src/simple-ntpd/utils/logger.cpp:275-316 | Read from oldest to active the files are a suffix of everything written: all of it, or at least maxFiles times the limit. |
| LogRotation.SlotSizes | src/simple-ntpd/utils/logger.cpp:275-316 | There are no gaps, every file set aside has reached the limit, and the active one has at most the limit plus the last message. |
| JsonLog.EscapeInPlace | src/simple-ntpd/utils/logger.cpp:207-214 | The loop that inserts into the string it reads terminates and equals the character-by-character escape. |
| JsonLog.ReadEscaped | src/simple-ntpd/utils/logger.cpp:207-215 | A reader of RFC 8259, section 7, gets the message back and stops at its closing quote, whatever follows, if and only if it has no control character. |
| JsonLog.EscapeIsShortest | src/simple-ntpd/utils/logger.cpp:207-214 | No JSON text for a message is shorter than the escaped one. |
| JsonLog.LineWritten | src/simple-ntpd/utils/logger.cpp:196-216 | The whole line, written out. |
| JsonLog.LineReadsBackIff | src/simple-ntpd/utils/logger.cpp:196-216 | A whole line gives back what was logged if and only if no field has a control character and no field but the message has a quote or backslash. |
| ConfigText.TrimPadded | src/simple-ntpd/config/parser.cpp:215-222 | A text with blanks around it trims to itself if and only if it neither begins nor ends with one. |
| ConfigText.ParseList | src/simple-ntpd/config/parser.cpp:200-213 | The reading loop collects the nonempty trimmed pieces between commas. |
| ConfigText.ParseJoinIff | src/simple-ntpd/config/parser.cpp:200-213 | Parsing inverts joining with commas if and only if every item is trimmed, nonempty and without commas. |
| ConfigText.ParseString | src/simple-ntpd/config/parser.cpp:273-416 | The scanning loop of each format applies exactly the settings of its lines, in order. |
| ConfigText.ApplyLine | src/simple-ntpd/config/parser.cpp:329-361 | One line: trimmed, skipped if empty or a comment, split at the first separator, and for JSON stripped of quotes and comma. |
| ConfigText.CommentsSkipped | src/simple-ntpd/config/parser.cpp:280-283 | Lines that start with the comment characters of their format set nothing. |
| ConfigText.PaddingIgnored | src/simple-ntpd/config/parser.cpp:215-222 | Spaces, tabs and carriage returns around a line change nothing. |
| ConfigText.LineReadsBackIff | src/simple-ntpd/config/parser.cpp:273-416 | In each format, and for JSON with a quoted or a bare value, a setting comes back from its line if and only if its texts meet a plain condition on their characters. |
| ConfigText.DocumentReadsBackIff | src/simple-ntpd/config/parser.cpp:273-416 | In each format, JSON values quoted or bare in any mixture, a written document is read back as the same settings if and only if each meets that condition and has no line break. |
| ConfigText.FormatsAgree | src/simple-ntpd/config/parser.cpp:273-416 | Settings that suit all three formats make the same configuration from any of them, whatever the keys do. |

## Left out

- Sockets, name resolution, thread creation, signals, file reading and change polling, command line and report texts: their results are inputs of steps.
- Liveness of the workers, which start before the flag they test is set (`src/simple-ntpd/core/server.cpp:348-357`): safety only.
- Accounting.BooksAgree: is about packets processed one at a time; the program updates its statistics and the healthy list without a lock, so concurrent workers can lose updates.
- Server.NtpServer.ProcessPacket: reads the synchronisation state once a packet; the program reads stratum and offset under separate locks, so a synchronisation in between can mix two answers.
- ServerModel.AdjustedConfig: compares the error ratio as a real number, not in double precision.
- Statistics counters are unbounded naturals; the program's are 64 bits wide.
- The configuration a server starts with is assumed valid where a theorem says so; the start sequence itself does not check it.
- The authentication digests: whether a packet is authentic is an input.
- Parsing of address and prefix text: addresses are 32-bit sequences, prefixes are integers, and other text matches nothing; text whose prefix number cannot be read makes the program throw.
- LogRotation.FileLogger.RotateLogs: assumes that file operations succeed, and fewer than 2^31 files (validation allows 1000).
- ConfigText.ParseString: leaves the meaning of keys to a parameter; the long tables of keys, number conversion, environment overrides and the separate reader of `NtpConfig::parseConfigFile`, which trims and unquotes differently, are not modelled.
- ConfigText.DocumentReadsBackIff: writes settings flat, one a line; nested documents are read by the program as if flat, and that reading is what `ParseString` models.
- JsonLog.LineReadsBackIff: the reader it is stated for refuses escaped surrogate code points, which no line contains unless its fields did.
- OnWire.ExchangeBoundIff: and the results on it are for paths that add up to less than 126 years; all four stamps have to lie in one era, which has 136.
- ConnectionRuns.ConnectionKeepsConfig: a connection shares the configuration object, so the dynamic stratum does reach it; it does not read the stratum.
- Client ports are unbounded naturals; no result needs more than one unused port.
- Random selection is a choice by an arbitrary draw; its distribution is not modelled.
- Leap seconds, drift, TLS options, state persistence, configuration backup and the health and metrics reports: no algorithmic content.
