# MeshSim protocol models

Dafny models of the parts of MeshSim that carry state, with proofs of what they promise:
the simulated RaptorQ pipeline (encoder, time-slice proxies, decoder), the packet-loss tracker,
the decoding report, the on/off traffic source, the generated static routes and the parameter
enumerators. Verify everything with `dafny verify dfyconfig.toml`.

Where the sources change state step by step, the model is a class whose methods follow the code
and are proved equal to a step function on values; the theorems are about runs of these functions.

| file | content |
|---|---|
| `words.dfy` | C++ integer widths and conversions |
| `header.dfy` | the packet header as bytes |
| `blocks.dfy` | source blocks and per-stream symbol counts of an encoder's packet log |
| `encoder.dfy`, `decoder.dfy` | the two applications |
| `reception.dfy`, `contiguity.dfy`, `release.dfy` | what a decoder makes of lost, reordered or duplicated packets |
| `counterexamples.dfy` | runs in which too much is released, claimed or forgotten |
| `report.dfy` | the one-entry cache that writes the decoding report |
| `proxy.dfy` | slot search, send queue, slices of a chain of proxies |
| `endtoend.dfy` | encoder, any number of hops, decoder; on/off source and loss tracker |
| `heap.dfy`, `losses.dfy` | array heap, loss tracker, loss summary |
| `onoff.dfy` | on/off pacing |
| `routing.dfy`, `chainroutes.dfy`, `meshroutes.dfy` | forwarding and three table generators |
| `enumerators.dfy` | cartesian products of parameter sets |

Main results:

* **Pipeline.** For every encoder run and any chain of proxies and order-preserving lossy links,
  each block with k arrivals is released exactly, and one with fewer to the longest prefix of each
  stream; no stream is released more than was read from it, and what is released is sent on or
  buffered as long as 32 bits hold what was read (`EndToEnd.EndToEndExact`). If every block gets k
  packets through, every stream is released exactly the bytes read from it (`EndToEnd.NothingLost`),
  and the buffer forgets none of them if and only if the backlog is below 2^32
  (`EndToEnd.NothingForgottenIff`, `EndToEnd.EverythingSentOn`). The encoder sends whenever it can,
  round robin (`Encoder.SendsIff`, `Encoder.RoundRobin`).
* **Reordering.** The pigeonhole argument of the decoder's comment holds under any loss and
  reordering (`Reception.Pigeonhole`). Exactness does not: a stream gets one symbol too many
  exactly if all its symbols but the last arrive before any packet that announces a later one, and
  the last one comes after the block was decoded (`Release.ReorderedExactIff`). A block that is
  never decoded releases exactly the symbols up to the first that is late
  (`Release.ReorderedUndecoded`). Even with duplicates there is never more than one symbol too many
  (`Release.OneTooManyAtMost`).
* **Duplicates.** The contiguity counter counts the symbols that arrive on time
  (`Contiguity.ContigIsOnTime`). With duplicates it is right if and only if no packet is repeated
  while exactly one symbol known of its stream is missing (`Contiguity.ContigRightIff`).
* **Loss tracker.** The documented window rule is exact (`Losses.LostIff`), the reports on each number
  are determined by its early and late arrivals, whatever is duplicated (`Losses.ReportsIff`), and a
  row of the database accounts for every packet (`Losses.DatabaseAddsUp`). For an encoder's datagrams
  the reports speak of the packets themselves (`EndToEnd.TrackerIsRight`).
* **On/off source.** A packet never leaves early or more than the forgotten fractions late
  (`OnOff.Pacing`), none that is due is held back (`OnOff.ScheduledIff`, `OnOff.NeverOverdue`), and
  all on-time is accounted for (`OnOff.Throughput`).
* **Proxy.** The slot search finds the first opportunity. Nothing that arrives is lost or reordered
  (`Proxy.NothingVanishes`), and every packet leaves at the first opportunity once it has come and
  the duration of the packet before the last one has passed since the last one left, or nothing if
  the last one found the store empty (`Proxy.SendTimes`). So whether a packet is waited out depends
  on lengths and arrivals (`Proxy.PacedIff`, `Proxy.BurstOfTwo`, `Proxy.EqualPackets`), and packets
  that come one at a time are not paced (`Proxy.LonePackets`).
* **Routing.** Forwarding over the generated tables follows shortest paths between all pairs, with
  one exception that is characterised (`MultiChain.BackhaulLinkIff`). The wired hosts of a chain
  that outgrows the address plan are reached exactly if their station, not the mesh node with the
  same address, is the one that answers (`BasicChain.WiredHostIff`, `MultiChain.WiredHostIff`).

Where code and documentation disagree, the model follows the code:

* The on/off source's documentation (`ns3_apps/onoff-application.h:67-81`) says that the time to the
  next packet survives an off period; the code keeps whole bits only (`OnOff.Pacing` says when the
  two agree, `OnOff.LatePacket` is a packet that leaves half a bit late).
* Its packets are meant to be numbered, but the one-argument header constructor drops the number,
  so all of them arrive as number 0 and their losses go unseen (`Header.NullHeaderArrives`,
  `OnOff.AllNumberedZero`, `EndToEnd.LossesUnseen`).
* `scripts/genroutingtables` documents station octets up to 255; addresses overlap if two stations
  are 100 octets apart (`MeshTables.OverlapIff`, `MeshTables.AmbiguousIff`).
* The proxy charges the duration of a packet to the packet after next, if the next one was stored
  before it left; the last packet of a busy period is charged to nobody.

Conventions: `Config.Valid` holds the bounds the attributes or the arithmetic impose
(k, n and 8 * pktSize in int range, at least one slot, at least one active slice). Sockets, random
durations and link behaviour are parameters. Forwarding takes the most specific matching route, as
the simulator does; a point-to-point link takes a packet to its other end. Which of a station and a
mesh node answers for an address that both have is a parameter of every routing theorem. Theorems
on the decoder's numbering ask for at most 2^31 packets, since the decoder keeps sequence numbers in
an int. Chain theorems ask for at most 100 mesh nodes and stations, which is exactly when the address
plan is free of overlaps (`Chain.PlanIff`); the two `WiredHostIff` theorems do not.

## Model

| member | source | states |
|---|---|---|
| Words.TruncIs | ns3_apps/rq-decoder.cc:134-135 | the division of a negative number rounds toward zero, and the remainder has its sign |
| Header.Shifted | ns3_apps/rq-header.cc:84-90 | the bytes written for a 32-bit word have that word as their big-endian value |
| Header.RoundTrip | ns3_apps/rq-header.cc:80-114 | any header, followed by any payload, is read back unchanged (negative stream id included), consuming its own size |
| Header.Layout | ns3_apps/rq-header.cc:80-91 | where the fields are, as big-endian numbers: magic at 0, number at 4, stream at 12, number of counts at 16, counts from 20 on |
| Header.CountsSurviveIff | ns3_apps/rq-header.cc:21-33 | the four-argument header's counts arrive unchanged if and only if all are below 2^31; number and stream id always do |
| Header.NullHeaderArrives | ns3_apps/rq-header.cc:12-19 | the number given to the one-argument constructor arrives if and only if it is 0; the header arrives as a valid one, of stream 0 and without counts |
| Header.Iterator.WriteHtonU32 | ns3_apps/rq-header.cc:84-90 | writes the four bytes at the position and nothing else |
| Header.Iterator.WriteHtonU64 | ns3_apps/rq-header.cc:85 | writes the eight bytes at the position and nothing else |
| Header.Iterator.ReadNtohU32 | ns3_apps/rq-header.cc:99-110 | reads the big-endian word at the position |
| Header.Iterator.ReadNtohU64 | ns3_apps/rq-header.cc:105 | reads the big-endian double word at the position |
| Header.RqHeader.Null | ns3_apps/rq-header.cc:12-19 | whatever its argument, the header is invalid, numbered 0, without counts |
| Header.RqHeader.constructor | ns3_apps/rq-header.cc:21-33 | keeps number and stream id, and the counts as signed words |
| Header.RqHeader.Serialize | ns3_apps/rq-header.cc:80-91 | overwrites exactly the encoding of the header in the buffer |
| Header.RqHeader.WriteCounts | ns3_apps/rq-header.cc:88-90 | the loop writes every count |
| Header.RqHeader.Deserialize | ns3_apps/rq-header.cc:94-114 | reads what the byte layout says: a header, no header, or past the end of the data |
| Header.RqHeader.ReadCounts | ns3_apps/rq-header.cc:108-111 | reads as many counts as announced, none for a negative announcement |
| Blocks.CountsSum | ns3_apps/rq-encoder.cc:156-194 | within a block the counts of all streams add up to the source packets so far, at most k |
| Blocks.HeaderCountsSum | ns3_apps/rq-encoder.cc:174-177 | the counts in the header of ESI e add up to min(e + 1, k) |
| Blocks.SymbolsSum | ns3_apps/rq-decoder.cc:172-176 | a block sent up to its k-th packet holds k symbols |
| Encoder.ProbeFirst | ns3_apps/rq-encoder.cc:129-162 | the probe tests slots once in cyclic order and stops at the first readable one |
| Encoder.NoneReadable | ns3_apps/rq-encoder.cc:164-166 | the probe fails if and only if no slot is readable |
| Encoder.SendsIff | ns3_apps/rq-encoder.cc:116-194 | over every run, a tick sends exactly one packet if there is room for 20 + 4 * slots + t bytes and, in the source part of a block, some slot has t bytes to read; else it changes nothing |
| Encoder.RoundRobin | ns3_apps/rq-encoder.cc:128-162 | over every run, a source packet takes its symbol from the first slot with t bytes to read, in cyclic order after the slot served last |
| Encoder.Fairness | ns3_apps/rq-encoder.cc:128-162 | a slot that stays readable is served within as many source packets as there are slots |
| Encoder.SeqnoIsPosition | ns3_apps/rq-encoder.cc:174 | the stamped number is the packet's position modulo n * 2^32 |
| Encoder.SeqnoIsIndex | ns3_apps/rq-encoder.cc:172-194 | up to 2^32 blocks the numbers are 0, 1, 2, ... |
| Encoder.StepKeeps | ns3_apps/rq-encoder.cc:107-195 | every tick keeps block position, symbol counts, byte totals and the stamped log |
| Encoder.RunIsStamped | ns3_apps/rq-encoder.cc:107-195 | over every run: numbering, k source then n - k repair packets a block, headers counting their block's symbols, bytes read = t * symbols |
| Encoder.RqEncoder.constructor | ns3_apps/rq-encoder.cc:70-82 | the initial state |
| Encoder.RqEncoder.SendPacket | ns3_apps/rq-encoder.cc:107-195 | one tick does the step (SendsIff and RoundRobin say what that is) and logs the packet sent, if any |
| Encoder.RqEncoder.FindReadable | ns3_apps/rq-encoder.cc:129-140 | the probe loop: stops at the first readable slot in cyclic order and points behind it, or leaves the pointer where it was |
| Encoder.RqEncoder.ReadNext | ns3_apps/rq-encoder.cc:129-166 | takes a symbol from that slot and counts it; if none is readable changes nothing, the pointer included |
| Encoder.RqEncoder.Transmit | ns3_apps/rq-encoder.cc:172-194 | stamps the packet, moves to the next ESI, and at the end of a block to the next block with counts cleared |
| Decoder.SmallSeqno | ns3_apps/rq-decoder.cc:131-135 | below 2^31, truncating conversion and division recover block and ESI |
| Decoder.NegativeSeqno | ns3_apps/rq-decoder.cc:131-135 | a number that is negative as an int is of no later block than block 0, and its ESI is not positive |
| Decoder.StepBalanced | ns3_apps/rq-decoder.cc:186-216 | every packet keeps buffered = released - sent per slot |
| Decoder.SendBalanced | ns3_apps/rq-decoder.cc:230-256 | so does every attempt to send |
| Decoder.SendDrains | ns3_apps/rq-decoder.cc:230-256 | an attempt to send moves nothing out of an unconnected slot, and out of a connected one all its buffer or as much as there is room for |
| Decoder.ConservationIff | ns3_apps/rq-decoder.cc:198-215 | sent + buffered = released without wrapping if and only if the backlog is below 2^32 |
| Decoder.RunEvents | ns3_apps/rq-decoder.cc:109-263 | any interleaving of receiving and sending stays balanced |
| Decoder.SendingIsInvisible | ns3_apps/rq-decoder.cc:225-256 | sending never influences what is received, released or traced |
| Decoder.RqDecoder.constructor | ns3_apps/rq-decoder.cc:66-77 | the initial state |
| Decoder.RqDecoder.PopulateDecodeInfo | ns3_apps/rq-decoder.cc:96-107 | reports the block, the counters and every slot's counts |
| Decoder.RqDecoder.EnterBlock | ns3_apps/rq-decoder.cc:138-162 | traces the block left, if any, and clears counters but not buffers |
| Decoder.RqDecoder.RaiseCounts | ns3_apps/rq-decoder.cc:181-184 | raises each slot's count to the header's |
| Decoder.RqDecoder.ReleaseInOrder | ns3_apps/rq-decoder.cc:186-199 | releases the packet at once if it continues its stream |
| Decoder.RqDecoder.DecodeBlock | ns3_apps/rq-decoder.cc:207-222 | releases what every stream held back and traces it |
| Decoder.RqDecoder.HandlePacket | ns3_apps/rq-decoder.cc:130-222 | one packet does the step; packets of earlier blocks change nothing |
| Decoder.RqDecoder.HandleRead | ns3_apps/rq-decoder.cc:109-228 | aborts if and only if some datagram is malformed; else handles all of them in order and then moves out of each slot what its socket takes: nothing if unconnected, else all or as much as there is room for |
| Decoder.RqDecoder.SendOnAll | ns3_apps/rq-decoder.cc:225-227 | moves out of each slot below the number of slots what its socket takes, and leaves the other slots alone |
| Decoder.RqDecoder.TryToSend | ns3_apps/rq-decoder.cc:230-256 | unconnected: changes nothing; connected: buffered and sent bytes move by min(room, buffered); other slots unchanged, balance kept |
| Reception.Position | ns3_apps/rq-decoder.cc:137-206 | under any loss, reordering and duplication, block, count of arrivals and symbol counts are those of the largest number received |
| Reception.Pigeonhole | ns3_apps/rq-decoder.cc:170-184 | without duplicates, k arrivals in a block include one of ESI >= k - 1, every count is the encoder's final one, and the counts add up to k |
| Reception.LookIsRun | ns3_apps/rq-decoder.cc:179-216 | following one stream by itself agrees with the whole decoder |
| Release.InOrderUnits | ns3_apps/rq-decoder.cc:186-216 | in order: a block with k arrivals releases its symbols, one with fewer the longest received prefix |
| Release.InOrderExact | ns3_apps/rq-decoder.cc:130-222 | the same in bytes for all streams at once, k * t in all for a decoded block |
| Contiguity.ContigMeansInOrder | ns3_apps/rq-decoder.cc:186-199 | under loss and reordering, a contiguity counter of c means symbols 1..c arrived in that order |
| Contiguity.ContigIsOnTime | ns3_apps/rq-decoder.cc:186-199 | under loss and reordering, the counter is the number of symbols up to the first that came after a packet announcing a later one |
| Contiguity.ContigRightIff | ns3_apps/rq-decoder.cc:186-199 | under loss, reordering and duplication, the symbols the counter claims have arrived, after every packet, if and only if no packet of the stream is repeated while exactly one known symbol is missing |
| Release.ReorderedExactIff | ns3_apps/rq-decoder.cc:186-216 | under loss and reordering, a decoded block releases each stream's symbols, plus one exactly if all but the last arrived on time and the last came after the decoding |
| Release.ReleasedBeforeDecode | ns3_apps/rq-decoder.cc:186-216 | until the decoding packet a block has released its contiguous symbols, with it all symbols known |
| Release.TracedAtDecode | ns3_apps/rq-decoder.cc:96-107 | under loss and reordering, the trace at the k-th packet holds for each stream the encoder's true count and the number of symbols up to the first that is not on time |
| Release.ReorderedUndecoded | ns3_apps/rq-decoder.cc:186-199 | under loss and reordering, a block never decoded releases over the whole run exactly the symbols up to the first that is not on time |
| Release.OneTooManyAtMost | ns3_apps/rq-decoder.cc:186-216 | under loss, reordering and duplication, no block releases more than one symbol too many to a stream |
| Counterexamples.ReorderingOverReleases | ns3_apps/rq-decoder.cc:212-216 | three packets of an encoder in the order 0, 2, 1 make a block of two symbols release three |
| Counterexamples.DuplicatesBreakContig | ns3_apps/rq-decoder.cc:188-197 | a duplicated packet of an encoder makes the counter claim a symbol that never came |
| Counterexamples.TinyBlockIsSent | ns3_apps/rq-encoder.cc:125-194 | the packets of these runs are what the encoder sends in three ticks |
| Counterexamples.BufferWraps | ns3_apps/rq-decoder.cc:193-214 | a backlog of 2^22 packets of 1024 bytes of an encoder reads as an empty buffer |
| Report.AppRqDecCb.RqDecCb | sim/app_rq_dec_cb.cc:33-44 | keeps the cache and the lines those of everything fed so far |
| Report.AppRqDecCb.Destroy | sim/app_rq_dec_cb.cc:22-31 | flushes the cache: the file is all that was fed, one line for each run of equal blocks |
| Report.CountersAreArrivals | ns3_apps/rq-decoder.cc:137-206 | the decoder's counters are the numbers of (source) packets of the current block |
| Report.CacheIsExpected | sim/app_rq_dec_cb.cc:33-44 | after every packet the cache is determined by the arrivals alone |
| Report.ReportIsComplete | sim/app_rq_dec_cb.cc:22-44 | one line for each block left, with its final counts, in increasing order; the last block if and only if decoded, with n_rcv = k |
| Report.LeftBlocksAppear | ns3_apps/rq-decoder.cc:138-153 | every block that was current and is no longer has its line |
| Proxy.SearchFirst | ns3_apps/timed-proxy.cc:139-144 | the search stops at the first active slot, within nSlices slots |
| Proxy.SlotCovers | ns3_apps/timed-proxy.cc:128-130 | slot s is the time from s to s + 1 slice widths in milliseconds |
| Proxy.NextTimeActive | ns3_apps/timed-proxy.cc:125-147 | the time found is not in the past, in an active slot, at most nSlices slots ahead |
| Proxy.NextTimeFirst | ns3_apps/timed-proxy.cc:125-147 | whatever the taper, it is the first time from max(txEnd, now) on that is eligible or begins a later active slice |
| Proxy.NextTimeEarliest | ns3_apps/timed-proxy.cc:125-147 | with taper < width it is eligible and no earlier time from max(txEnd, now) on is |
| Proxy.EligibleIff | ns3_apps/timed-proxy.cc:133-137 | opportunities are always eligible if and only if taper < width |
| Proxy.TaperTest | ns3_apps/timed-proxy.cc:130-134 | comparing slot and slot_taper tests whether the rest of the slice exceeds the taper |
| Proxy.StepKeeps | ns3_apps/timed-proxy.cc:76-123 | every event keeps: a send is pending exactly when the store is non-empty, nothing lost or reordered, every send slot-eligible and at the first opportunity after the arrival of its packet and what it is charged |
| Proxy.Run | ns3_apps/timed-proxy.cc:76-123 | so does every run |
| Proxy.NothingVanishes | ns3_apps/timed-proxy.cc:76-123 | over every run, the packets sent and those stored are the packets that arrived, in order; the logs are those of the events, and each send event sends one packet |
| Proxy.SendTimes | ns3_apps/timed-proxy.cc:112-147 | over every run, the time of every send: the first opportunity once its packet has come and what it is charged has passed since the send before; a send opens a busy period only if its packet came after the one before had left |
| Proxy.PacedSends | ns3_apps/timed-proxy.cc:112-122 | in every run a send follows an earlier one by at least all that is charged in between; within a busy period that is the durations of the packets from there to the last but one |
| Proxy.BurstOfTwo | ns3_apps/timed-proxy.cc:112-122 | in every run the packet after an opening one leaves at the first opportunity once it has come, together with it if it was waiting; a packet that opened no busy period is waited out if it is no longer than the one before |
| Proxy.PacedIff | ns3_apps/timed-proxy.cc:112-122 | for every two successive sends of every run: the first is waited out if and only if it ends before the search for the second starts, or no opportunity lies from there to its end |
| Proxy.EqualPackets | ns3_apps/timed-proxy.cc:112-122 | with packets of one size all but the opening ones are waited out, and these if and only if they end before the next packet comes or no opportunity lies from there to their end |
| Proxy.LonePackets | ns3_apps/timed-proxy.cc:112-122 | two packets of one second each that come 1 ns apart, each to an empty store, leave 1 ns apart |
| Proxy.ConfigureProxies | scripts/chainsim/sim_configs/proxy/conf.in/apps.txt.php:31-44 | proxy i gets slice (i - 1) mod sl of sl = 2 slices in mode 1 and 3 from mode 2 on, 20 ms wide with a taper of 2 ms; none in mode 0 |
| Proxy.ProxyConfigValid | scripts/chainsim/sim_configs/proxy/conf.in/apps.txt.php:36-44 | such a proxy is active in exactly the slots congruent to i - 1 |
| Proxy.NoSharedSlice | scripts/chainsim/sim_configs/proxy/conf.in/apps.txt.php:31-44 | in any runs, two proxies fewer than sl hops apart never send in the same slot |
| Proxy.TimedProxy.GetNextTxTime | ns3_apps/timed-proxy.cc:125-147 | terminates with the opportunity specified |
| Proxy.TimedProxy.HandleRead | ns3_apps/timed-proxy.cc:76-97 | appends all packets to the store, in order, and schedules a send at the first opportunity exactly if the store was empty |
| Proxy.TimedProxy.SendNextPacket | ns3_apps/timed-proxy.cc:99-123 | sends the oldest packet and schedules the next, keeping the invariant |
| EndToEnd.PassesPicks | ns3_apps/timed-proxy.cc:76-123 | a proxy's or link's output is some of its input, in order |
| EndToEnd.PickedAreGenuine | ns3_apps/rq-decoder.cc:115-135 | what is left of the encoder's datagrams parses to its headers, in order |
| EndToEnd.EndToEndExact | ns3_apps/rq-decoder.cc:109-256 | any encoder run, any hops, any interleaving at the decoder: every block exact, no stream released more than read, sent + buffered = released while 32 bits hold what was read |
| EndToEnd.NothingLost | ns3_apps/rq-encoder.cc:125-194 | if k packets of every block begun arrive, each stream is released exactly the bytes read from it |
| EndToEnd.NothingForgottenIff | ns3_apps/rq-decoder.cc:193-256 | if nothing is lost, each buffer holds what was read and not sent on, modulo 2^32: all of it if and only if that is below 2^32 |
| EndToEnd.EverythingSentOn | ns3_apps/rq-decoder.cc:230-256 | if nothing is lost and a backlog is below 2^32, one more chance to send with room for it brings the bytes sent on to exactly the bytes read |
| EndToEnd.CountsAsSeqno | sim/app_rx_cb.cc:59-94 | a datagram counts at the tracker as the number in its header, up to 2^63 |
| EndToEnd.TrackerIsRight | sim/app_rx_cb.cc:54-96 | over every encoder run and any arrivals of its datagrams, however lost, repeated or reordered: the tracker hears their positions, and its reports on lost, late and repeated packets are exact |
| EndToEnd.LossesUnseen | sim/app_rx_cb.cc:54-96 | whichever datagrams of an on/off source arrive, the tracker reports no losses and no reordering |
| Heap.RootIsMax | sim/app_rx_cb.cc:70 | the first entry of a heap is its largest |
| Heap.PushHeap | sim/app_rx_cb.cc:95 | sift-up makes a heap of the same entries |
| Heap.PopHeap | sim/app_rx_cb.cc:70 | moves the largest entry to the end and makes a heap of the rest, same entries |
| Heap.SiftDown | sim/app_rx_cb.cc:70 | restores the heap order below a replaced root |
| Losses.RunWindow | sim/app_rx_cb.cc:67-95 | the window holds exactly the numbers received and not popped; min(arrivals, n) of them; arrivals = pops + window |
| Losses.RunPartition | sim/app_rx_cb.cc:73-89 | lost ranges and new maxima are disjoint and make up [0..largest] |
| Losses.WindowAtArrival | sim/app_rx_cb.h:39-46 | when a number arrives, a larger one has left the window if and only if n larger ones arrived before |
| Losses.LostIff | sim/app_rx_cb.h:39-46 | up to the largest processed, lost are exactly the numbers that never arrived or first arrived after n larger ones |
| Losses.LargeReorderIff | sim/app_rx_cb.cc:74-77 | without duplicates, a popped number is reported as large reorder if and only if n larger ones arrived before it |
| Losses.ReportsIff | sim/app_rx_cb.cc:66-95 | for all arrivals: the large reorders reported of a number, and its copies still waiting below the largest, are its arrivals after at least n larger numbers; its duplicates are its other arrivals but the first |
| Losses.ReordersNameMaxima | sim/app_rx_cb.cc:74-77 | a large reorder names a larger number that was the largest processed |
| Losses.UnnumberedStream | ns3_apps/onoff-application.cc:292-297 | a stream whose packets all carry number 0 shows duplicates only |
| Losses.Summarize | scripts/createresultsdb:291-325 | totals per event type, lost packets and largest number; no row without a final line, a failed assertion with two |
| Losses.TallyCounts | scripts/createresultsdb:293-300 | the totals of losses, duplicates and reorders are the numbers of lines of each kind |
| Losses.OutcomeIff | scripts/createresultsdb:308-324 | a trace makes a row if and only if it has exactly one final line, and the row carries its number; none is skipped, two stop the script |
| Losses.SummaryAddsUp | scripts/createresultsdb:302-316 | lost packets + new maxima = largest + 1; maxima + duplicates + reorders + window = arrivals |
| Losses.DatabaseAddsUp | scripts/createresultsdb:288-325 | over the trace as the tracker leaves it: a row exactly if more than n packets came; lost packets + new maxima = largest_seqno + 1, and the row accounts for all arrivals |
| Losses.NumberIsSeqno | sim/app_rx_cb.cc:93-94 | negating as a 64-bit word and back gives the number exactly up to 2^63 |
| Losses.CountsOnlyPackets | sim/app_rx_cb.cc:59-65 | a datagram shorter than a header or without the magic number does not count |
| Losses.AppRxCb.constructor | sim/app_rx_cb.cc:11-22 | the initial state |
| Losses.AppRxCb.LogAndUpdateLosses | sim/app_rx_cb.cc:54-96 | the array stays a heap of the negated window of the arrivals; packets without a valid header are ignored, a header cut short stops the simulator |
| Losses.AppRxCb.PopOne | sim/app_rx_cb.cc:67-90 | pops the smallest number and reports on it |
| Losses.AppRxCb.PushOne | sim/app_rx_cb.cc:92-95 | adds a number to the window |
| Losses.AppRxCb.PopAndPush | sim/app_rx_cb.cc:66-95 | one step of the window: pop if it is full, then add |
| Losses.AppRxCb.Destroy | sim/app_rx_cb.cc:24-37 | closes the trace with the largest number, if any was processed |
| OnOff.Pacing | ns3_apps/onoff-application.cc:212-263 | a packet never leaves before its bits are worth of on-time, less than one bit late for each switch-off in between, and on time if and only if those came after whole bits |
| OnOff.ScheduledIff | ns3_apps/onoff-application.cc:229-264 | over every run, a packet is scheduled if and only if the source is on and below the byte limit |
| OnOff.NeverOverdue | ns3_apps/onoff-application.cc:246-264 | while the source is on, the next packet is due exactly when the on-time since the last one is worth its bits and those forgotten, and never overdue |
| OnOff.OnTimeAddsUp | ns3_apps/onoff-application.cc:212-327 | over every run, all on-time went into a packet sent or into the next one |
| OnOff.Throughput | ns3_apps/onoff-application.cc:212-327 | while the source is on, its on-time so far is worth the bits sent and those forgotten, and at most one packet more |
| OnOff.PeriodsLast | ns3_apps/onoff-application.cc:229-283 | below the limit, on and off periods last as long as drawn, whatever is sent meanwhile |
| OnOff.StoppedForGood | ns3_apps/onoff-application.cc:195-226 | a stopped source sends nothing more |
| OnOff.LimitIsFinal | ns3_apps/onoff-application.cc:246-264 | a source that has reached its byte limit sends nothing more |
| OnOff.ResidualAndLimit | ns3_apps/onoff-application.cc:216-252 | residual bits never exceed a packet; the byte limit is exceeded by less than one |
| OnOff.RunKeeps | ns3_apps/onoff-application.cc:212-327 | every event of every run keeps residual, schedule and byte count consistent |
| OnOff.DocumentedExample | ns3_apps/onoff-application.h:72-81 | the documented example sends at 6.5 s |
| OnOff.LatePacket | ns3_apps/onoff-application.cc:212-226 | a packet of 8 bits that takes 8.5 bits of on-time |
| OnOff.AllNumberedZero | ns3_apps/onoff-application.cc:291-297 | the source numbers its datagrams in order, and every one goes out as number 0; other packets carry no header |
| OnOff.MeshSimOnOffApplication.constructor | ns3_apps/onoff-application.cc:105-114 | the state after starting |
| OnOff.MeshSimOnOffApplication.DoCancelEvents | ns3_apps/onoff-application.cc:212-226 | credits whole bits of the on-time since the last start if a send was pending |
| OnOff.MeshSimOnOffApplication.DoScheduleNextTx | ns3_apps/onoff-application.cc:246-264 | schedules the missing bits, or stops at the byte limit |
| OnOff.MeshSimOnOffApplication.DoStartSending | ns3_apps/onoff-application.cc:229-235 | the step for switching on |
| OnOff.MeshSimOnOffApplication.DoStopSending | ns3_apps/onoff-application.cc:237-243 | the step for switching off |
| OnOff.MeshSimOnOffApplication.DoSendPacket | ns3_apps/onoff-application.cc:285-327 | the step for sending: logs the packet, and schedules the next one unless the limit is reached |
| Routing.UniqueIff | sim/mesh_sim.cc:310-331 | interfaces have distinct addresses if and only if no station octet is also a mesh or wired-host octet |
| Routing.NoRevisit | scripts/chainsim/sim_configs/basic/conf.in/routing.txt.php:9-58 | a node has one distance to a destination, so a delivered packet never returns to a node |
| Chain.PlanIff | scripts/chainsim/sim_configs/multiple/conf.in/routing.txt.php:12-27 | the chain's addresses are distinct if and only if there are at most 100 mesh nodes and 100 stations |
| BasicChain.MeshTable | scripts/chainsim/sim_configs/basic/conf.in/routing.txt.php:25-58 | the loop body prints exactly the rows of mesh node i |
| BasicChain.Generate | scripts/chainsim/sim_configs/basic/conf.in/routing.txt.php:9-58 | the file holds exactly the tables of all nodes |
| BasicChain.AllPairs | scripts/chainsim/sim_configs/basic/conf.in/routing.txt.php:9-58 | every node reaches every address, in as many hops as links lie between |
| BasicChain.EndToEnd | scripts/chainsim/sim_configs/basic/conf.in/routing.txt.php:9-58 | backhaul and wired host reach each other in n + 2 hops |
| BasicChain.BetweenMeshNodes | scripts/chainsim/sim_configs/basic/conf.in/routing.txt.php:35-46 | mesh node i reaches any address of node j in the distance of i and j |
| BasicChain.WiredHostIff | scripts/chainsim/sim_configs/basic/conf.in/routing.txt.php:48-57 | the backhaul reaches the wired host if and only if there are at most 100 mesh nodes or the station answers for the address it shares with node 101; so whoever answers, exactly up to 100 |
| MultiChain.InnerTable | scripts/chainsim/sim_configs/multiple/conf.in/routing.txt.php:32-51 | exactly the rows of mesh node i < n |
| MultiChain.LastTable | scripts/chainsim/sim_configs/multiple/conf.in/routing.txt.php:52-62 | exactly the rows of the last mesh node |
| MultiChain.Generate | scripts/chainsim/sim_configs/multiple/conf.in/routing.txt.php:7-62 | the file holds exactly the tables of all nodes |
| MultiChain.AllPairs | scripts/chainsim/sim_configs/multiple/conf.in/routing.txt.php:7-62 | every node reaches every address but 10.1.1.2 along the shortest path |
| MultiChain.BackhaulAndHosts | scripts/chainsim/sim_configs/multiple/conf.in/routing.txt.php:7-62 | backhaul and each wired host reach each other in n + 2 hops |
| MultiChain.BackhaulLinkIff | scripts/chainsim/sim_configs/multiple/conf.in/routing.txt.php:35-57 | 10.1.1.2 is reached if and only if n = 2 or from the backhaul or the first mesh node; else packets loop |
| MultiChain.WiredHostIff | scripts/chainsim/sim_configs/multiple/conf.in/routing.txt.php:52-62 | with at most 100 stations, the backhaul reaches wired host k if and only if n < 100 + k or station k answers for the address it shares with node 100 + k |
| MultiChain.EdgeTables | scripts/chainsim/sim_configs/multiple/conf.in/routing.txt.php:7-27 | exactly the tables of backhaul, stations and wired hosts |
| MeshTables.CollectPairs | scripts/genroutingtables:54-70 | the lines that name a station, in order |
| MeshTables.MeshTable | scripts/genroutingtables:74-92 | exactly the rows of a mesh node |
| MeshTables.StationPart | scripts/genroutingtables:94-100 | adds exactly the station tables |
| MeshTables.WiredPart | scripts/genroutingtables:102-107 | adds exactly the wired hosts' tables |
| MeshTables.Generate | scripts/genroutingtables:22-107 | the output holds exactly the tables of all nodes |
| MeshTables.OverlapIff | scripts/genroutingtables:46-52 | addresses overlap only through mesh octets above 100 or stations 100 octets apart |
| MeshTables.AmbiguousIff | scripts/genroutingtables:74-92 | a mesh node has two routes of one length for an address if and only if two stations 100 octets apart are sent different ways or one station is given to two mesh nodes |
| MeshTables.HundredApart | scripts/genroutingtables:46-52 | stations 101 and 201 at node 1: two routes for an address with two owners |
| MeshTables.DocumentedRangesAreSound | scripts/genroutingtables:9-11 | stations 101 to 200 and mesh nodes below 100 never overlap |
| MeshTables.AllDelivered | scripts/genroutingtables:67-107 | for every sound input every node reaches the backhaul and all stations and wired hosts, along the shortest path |
| MeshTables.FourHops | scripts/genroutingtables:67-107 | backhaul and wired host reach each other in 3 hops through node 1, else 4 |
| Enumerators.EnumCartesian | scripts/modules/enumerators.py:30-63 | yields the cartesian sequence |
| Enumerators.EnumCartesianExt | scripts/modules/enumerators.py:65-92 | yields the products of the enumerators, the first varying slowest and winning |
| Enumerators.EnumUnion | scripts/modules/enumerators.py:94-105 | yields all elements in order |
| Enumerators.UnionAt | scripts/modules/enumerators.py:94-105 | all elements of the first enumerator, then all of the second, and so on, and no others |
| Enumerators.ProductAt | scripts/modules/enumerators.py:75-92 | element i * |y| + j of a product is element i of the first factor over element j of the second |
| Enumerators.ExtAt | scripts/modules/enumerators.py:65-92 | so in cartesian_ext the first enumerator varies slowest and wins |
| Enumerators.CartesianAt | scripts/modules/enumerators.py:30-63 | the order of the enumeration: the choice of values number c0, c1, ... comes at its rank in mixed radix, the first variable most significant |
| Enumerators.CartesianIsAll | scripts/modules/enumerators.py:30-43 | exactly the assignments that give each variable one of its values |
| Enumerators.CartesianLength | scripts/modules/enumerators.py:40-42 | as many as the product of the list lengths |
| Enumerators.CartesianNoRepeats | scripts/modules/enumerators.py:53-63 | none twice if no list has a value twice |
| Enumerators.CartesianIsExt | scripts/modules/enumerators.py:45-92 | the same sequence as cartesian_ext over the one-key parts |
| Enumerators.ExtAssociative | scripts/modules/enumerators.py:75-92 | nesting cartesian_ext makes no difference |
| Enumerators.ExtUnit | scripts/modules/enumerators.py:187-210 | the empty singleton can be dropped |
| Enumerators.GetEnumeratorIff | scripts/modules/enumerators.py:130-168 | no enumerator exactly for an unknown type; iterating raises exactly if an unknown type is nested, and else yields what the description stands for |
| Enumerators.UnionYieldsUpTo | scripts/modules/enumerators.py:94-105 | a union that raises has yielded everything before |
| Enumerators.ExtYieldsNothing | scripts/modules/enumerators.py:75-92 | a cartesian_ext yields nothing if any enumerator but the first raises |
| Enumerators.CartesianRewrite | scripts/modules/enumerators.py:130-166 | a cartesian description equals a cartesian_ext of one-variable descriptions |

## Left out

- The network simulator itself: sockets, links, wifi and the scheduler are parameters, drop or pick relations, and enabledness of events in time order.
- Real RaptorQ coding: the sources only simulate that any k packets decode.
- Trace callbacks, logging, attribute accessors and file output, other than the loss trace and the decoding report.
- The configuration readers, the wiring of applications, the bulk sender and the packet sink: straight-line code with easy properties.
- Routes that the simulator adds for connected networks; forwarding uses the generated tables only.
- Database access, standard deviations, graphing and coordinates.
- Rounding of floating-point durations: a packet's sending time is the floor of the exact quotient in nanoseconds in the proxy, and exact in the on/off source.
- Change of the data rate of the on/off source while running.
- Counters of received packets and byte totals are unbounded; the 32-bit buffer counter, the block counter, sequence numbers and header words have their widths.
- The multi-station chain of a single mesh node: its default route points to 10.1.2.0, which no node has.
- Object sharing between enumerated dicts: assignments are values.
- Losses.AppRxCb.LogAndUpdateLosses: excludes the sequence number 2^63, whose negation overflows.
