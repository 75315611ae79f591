# ndn tooling: a verified model

This project models the stateful and algorithmic core of the NDN command-line tooling and of its
browser fixtures, and proves what those parts are for. `dafny verify dfyconfig.toml` covers all of it.

**Segmented transfer** (`Naming`, `BigEndian`, `FinalBlock`, `Put`, `Peek`, `PeekClient`, `Transfer`,
`TransferSafety`, `TransferLiveness`, `TransferLoop`, `TransferNames`). `ndn-put` cuts a payload into segments and answers Interests;
`ndn-peek` discovers the version, keeps a pipeline of Interests outstanding, re-sends on idle timeouts
and reassembles. `PeekClient.SegmentedFetch` holds the fetch's own mutable fields and its three updates,
each proved equal to a specification in `Peek`; `Transfer` puts that specification into a step system
with a network that loses, duplicates, delays and reorders packets and a producer that is put's
dispatch, and `TransferLoop` shows the fetches of its runs to be the states of the loop in place. Over every run the fetch returns the published payload or nothing, its table is exact at every loop
head, and, while round trips stay below the lifetime, it times out at most once per lost packet
and takes a bounded number of steps. That the discovered index lies below the announced count is
proved from put's dispatch.

**Measurement loops** (`Iperf`, `IperfClient`, `IperfClientTurns`, `IperfReverse`, `IperfReverseTurns`, `IperfLoop`). The forward client and the
reverse consumer, over every run of arrivals, idle waits and a disconnection, with an arbitrary
window and timeout at each step: whole-run conservation of sequence numbers, what the RTT samples and the
reported loss mean, what each kind of turn sends and gives up, and the two different reasons the loops stop after the deadline. `IperfLoop.Loop` has the
loops' mutable variables; its turns are proved equal to the specification and its loops to go through runs.

**Algorithms with a simple specification** (`Glob`; `Calendar`, `CivilDate`, `Decimal`, `Timestamp`). The
greedy wildcard search decides the declarative wildcard relation; the civil-date arithmetic agrees
with a recursive calendar, and formatted timestamps sort as their seconds do.

**Printers and parsers** (`Base64` with `Envelope`, `SafeBag`, `Bundle`; `Protobuf`, `SpanIds`; `JsNumber`,
`JsDouble`, `NdnTlv`). Round trips, and where a parser accepts more than its printer produces, exactly how much more.
JavaScript's 32-bit operators are modelled bit by bit, and its sums round to doubles.

**Two small protocols** (`SpanBridge`, `SharedWorker`). The bridge delivers every fetched span body once
over all its successful POSTs; the worker hands over every port once, in order, never early.

## What the code does where that is not obvious

- `decode_final_block_id_segment` guards its shift with `checked_shl(8)`, which fails only for shift
  counts of 64 or more. A value longer than eight bytes is therefore reduced modulo 2^64
  instead of being refused (`FinalBlock.NineBytesWrap`; exact condition in `FinalBlock.ExactIffItFits`).
- The discovery Interest is sent once. Losing it, or its answer, ends the fetch with a timeout
  (`TransferLiveness.LostInterestFails`, `LostAnswerFails`, `LostDiscoveryIsFinal`); only the fetch loop
  re-sends, so a fetch over an open connection that ends returns the payload exactly if discovery got a
  Data (`TransferLiveness.ReturnsExactlyIfDiscovered`).
- The client's reported `lost` subtracts every arrival, also unmatched ones, so it can be smaller than
  the number of given-up and drained packets (`IperfClient.StrayHidesLoss` is such a run, and
  `IperfClient.ReportedLoss` says exactly when it happens).
- The bridge marks an identifier as seen before it fetches it, so one whose fetch fails is never tried again
  (`SpanBridge.NeverRetried`).
- `u64::from_str` accepts a leading `+` and leading zeros, and `u8::from_str_radix` a leading `+`, so
  `parse_envelope` and `decode_pair` accept texts their printers never produce (`Envelope.CanonicalExactly`,
  `SpanIds.AcceptedIsRendered`).
- `decode_pair` slices a `str` by byte offsets and panics when an offset lies inside a character
  (`SpanIds.PairExactly` says for which texts, `SpanIds.AccentPanics` gives one). A line of that kind in the
  fetched list takes the bridge down with its batch unsent (`SpanBridge.CrashesExactly`, `CrashLosesBody`).
- `readVaru` reads a first byte of 255, or none at all, like 254; `readVarInt` throws instead
  (`NdnTlv.ReadersAgree`). `readChildren` returns a cut-short last value when its length runs past the buffer
  (`NdnTlv.CutShort`; exactly when, in `NdnTlv.OverrunExactly`); it reads exactly up to the end precisely on concatenations of well-formed elements.

## Model

| member | source | states |
|---|---|---|
| FinalBlock.DecodeFinalBlockIdSegment | crates/tooling/ndn-tools-core/src/peek.rs:227-244 | the accumulation loop reads the big-endian value of the value bytes, modulo the machine word, and refuses short input and other types |
| FinalBlock.ExactIffItFits | crates/tooling/ndn-tools-core/src/peek.rs:226-244 | the value read is the announced one if and only if all but its last eight bytes are zero, hence always for up to eight bytes |
| FinalBlock.NineBytesWrap | crates/tooling/ndn-tools-core/src/peek.rs:241 | a nine-byte value worth 2^64 is read as segment 0, not refused |
| FinalBlock.ReadsBack | crates/tooling/ndn-tools-core/src/put.rs:198-199 | peek reads back exactly the last segment that put announces, for all 64-bit values |
| FinalBlock.RefusedExactly | crates/tooling/ndn-tools-core/src/peek.rs:228-237 | nothing is read if and only if the bytes are fewer than two, not of type 0x32, or fewer than they announce |
| FinalBlock.TrailingIgnored | crates/tooling/ndn-tools-core/src/peek.rs:238 | bytes after the announced length change nothing |
| Put.ChunkBytes | crates/tooling/ndn-tools-core/src/put.rs:56-58 | segment i is the payload from i times the segment size up to the next cut or the end |
| Put.ChunksFlatten | crates/tooling/ndn-tools-core/src/put.rs:56-58 | the segments in order are the payload |
| Put.ReplyIsGenuine | crates/tooling/ndn-tools-core/src/put.rs:159-199 | an Interest is answered if and only if the segment it asks for exists; the Data names the segment it carries, carries its bytes and announces the true last segment |
| Put.ReplySegment | crates/tooling/ndn-tools-core/src/put.rs:165-185 | an Interest that names a segment is answered if and only if that segment exists; any other one always, with segment 0 under the served versioned name |
| Put.ReplyAnswers | crates/tooling/ndn-tools-core/src/put.rs:187-195 | the Data answers its Interest: it bears the name of a segment Interest; otherwise its name without the segment is the served versioned name, so it extends the Interest's name whenever that is a prefix of the served one |
| Put.Serve | crates/tooling/ndn-tools-core/src/put.rs:125-229 | the serve loop, until it is cancelled, times out, is disconnected or fails to send: it emits exactly the replies to the Interests decoded before that turn, in order, and counts each of these Interests as served or as unknown |
| PeekClient.SegmentedFetch.constructor | crates/tooling/ndn-tools-core/src/peek.rs:91-133 | the state a first segment starts the fetch with: one stored segment, an empty table, the next segment to ask for |
| PeekClient.SegmentedFetch.RefillPipeline | crates/tooling/ndn-tools-core/src/peek.rs:140-161 | refilling in place sends the specified batch and leaves the specified state |
| PeekClient.SegmentedFetch.Accept | crates/tooling/ndn-tools-core/src/peek.rs:168-198 | one Data stores a missing segment in range once, counts it and drops its table entries; any other Data changes nothing |
| PeekClient.SegmentedFetch.Resend | crates/tooling/ndn-tools-core/src/peek.rs:200-219 | the idle branch moves every stale entry, and only those, to fresh keys stamped with the present |
| PeekClient.SegmentedFetch.Run | crates/tooling/ndn-tools-core/src/peek.rs:135-224 | the whole loop in place, on any sequence of packets, idle waits and a disconnection, and with sending that may fail at any point: it goes through exactly the specified states, stops only when complete, disconnected, unable to send or still waiting, and unless sending failed what it returns depends only on the Data that arrived |
| PeekClient.ReturnsExactly | crates/tooling/ndn-tools-core/src/peek.rs:162-224 | the fetch returns if and only if every missing segment arrives before the connection closes |
| PeekClient.ReturnsPublished | crates/tooling/ndn-tools-core/src/peek.rs:135-260 | from one producer's Data, in any order and number, it returns that producer's payload or nothing |
| PeekClient.FetchSegmented | crates/tooling/ndn-tools-core/src/peek.rs:84-224 | from the discovery Data on: a single segment is returned whole, an index out of range panics, and otherwise the loop in place returns what its inbox determines, or nothing once it cannot send |
| PeekClient.FetchExactly | crates/tooling/ndn-tools-core/src/peek.rs:84-260 | for any discovery Data and any inbox: without a segment component, or with one segment announced, exactly its content; a panic exactly if its index is not below the announced count or the count exceeds a word; and otherwise nothing while a part is missing, and the parts in order once all are there - the discovery content at its index, the first Data naming it at each other one |
| TransferLoop.FetchesAreLoopStates | crates/tooling/ndn-tools-core/src/peek.rs:84-224 | every fetch of every run of the transfer is the state the loop in place reaches from the discovery Data on the packets, waits and table orders of that run |
| TransferLoop.LoopReturnsTheSame | crates/tooling/ndn-tools-core/src/peek.rs:84-224 | the bytes with which a run leaves the loop are those the fetch in place returns on that run's inbox, and they are the published payload |
| TransferLoop.FetchesThePayload | crates/tooling/ndn-tools-core/src/peek.rs:84-260 | end to end, from any discovery Data of a put producer and any further Data of it, the fetch gives the payload or nothing, and never panics |
| TransferNames.RunNamed | crates/tooling/ndn-tools-core/src/peek.rs:84-126 | in every state of every run each Interest is the discovery Interest or for a segment of the versioned name, each Data is a segment of it, and the fetch has that versioned name |
| TransferNames.AsksForServedSegments | crates/tooling/ndn-tools-core/src/peek.rs:123-126 | fetching a name without version: everything asked for after discovery is the served versioned name and one segment component, and every Data extends the name asked for |
| PeekClient.Reassemble | crates/tooling/ndn-tools-core/src/peek.rs:246-260 | concatenates all segments, or fails if and only if one is missing |
| Peek.AssembledIsJoin | crates/tooling/ndn-tools-core/src/peek.rs:246-260 | when every slot holds its part, reassembly gives the parts joined in order |
| Peek.DiscoverEstablishes | crates/tooling/ndn-tools-core/src/peek.rs:84-133 | the initial state satisfies the loop-head invariant |
| Peek.RefillKeeps | crates/tooling/ndn-tools-core/src/peek.rs:140-161 | refilling keeps the invariant and stops only with a full pipeline or nothing left to request; an incomplete refilled fetch has something in flight |
| Peek.ReceiveKeeps | crates/tooling/ndn-tools-core/src/peek.rs:168-198 | receiving any segment that was asked for, again or for the first time, keeps the invariant |
| Peek.ExpireKeeps | crates/tooling/ndn-tools-core/src/peek.rs:200-219 | a full idle round keeps the invariant, the number of entries and the set of segments in flight; every key is fresh and every time is now |
| Peek.ThreeStates | crates/tooling/ndn-tools-core/src/peek.rs:128-133 | a segment other than the discovered one is stored, or carried by exactly one entry, or not yet requested, and never two of these |
| Peek.StoredFull | crates/tooling/ndn-tools-core/src/peek.rs:162 | the received count equals the total if and only if no segment is missing |
| TransferSafety.DiscoverGenuine | crates/tooling/ndn-tools-core/src/peek.rs:84-133 | for any answer of a put producer the discovered index is below the announced count, which is the true count, so indexing never panics; a single-segment object is returned whole |
| TransferSafety.RunInvariant | crates/tooling/ndn-tools-core/src/peek.rs:55-224 | safety and timing invariants hold in every state of every run of consumer, network and producer |
| TransferSafety.ReturnsThePayload | crates/tooling/ndn-tools-core/src/peek.rs:55-224 | if the fetch returns, it returns the published payload, for every payload, segment size, pipeline and schedule; it never panics and never ends with a missing segment |
| TransferSafety.LoopHeadInvariant | crates/tooling/ndn-tools-core/src/peek.rs:135-197 | at every loop head of every run the table, the counter, the pipeline bound and the stored bytes are exact, and something is in flight |
| TransferSafety.AllStale | crates/tooling/ndn-tools-core/src/peek.rs:166-205 | when a wait of lifetime plus 500 ms elapses, every in-flight entry is stale |
| TransferSafety.IdleRound | crates/tooling/ndn-tools-core/src/peek.rs:200-219 | on every idle timeout of every run all in-flight segments are re-sent under fresh keys and the set of segments in flight is unchanged |
| TransferLiveness.IdleMeansLoss | crates/tooling/ndn-tools-core/src/peek.rs:166-219 | with round trips below the lifetime, an idle timeout implies a packet lost since the previous one |
| TransferLiveness.PromptInvariant | crates/tooling/ndn-tools-core/src/peek.rs:135-221 | in every state of such a run, everything outstanding is on the way unless a packet was lost since the last timeout |
| TransferLiveness.TimeoutsAtMostLosses | crates/tooling/ndn-tools-core/src/peek.rs:135-221 | the fetch loop times out at most once per lost packet |
| TransferLiveness.RankDescends | crates/tooling/ndn-tools-core/src/peek.rs:135-221 | every event of every run lowers a rank made of packets on the way, unrequested segments and the budget of losses and strays |
| TransferLiveness.BoundedRun | crates/tooling/ndn-tools-core/src/peek.rs:135-221 | a run with L losses and S strays has at most (2P+1)L + 3S + 2N + 3 events, for pipeline P and N segments |
| TransferLiveness.NeverStuck | crates/tooling/ndn-tools-core/src/peek.rs:135-221 | an unfinished fetch always has a next event: the producer serves, a Data arrives or the wait elapses |
| TransferLiveness.FetchOnlyEndsWell | crates/tooling/ndn-tools-core/src/peek.rs:199-224 | once the loop has started, only a closed connection keeps it from ending with the payload |
| TransferLiveness.Outcome | crates/tooling/ndn-tools-core/src/peek.rs:62-224 | a run that can no longer continue returned the payload, or failed in the one unrepeated discovery exchange |
| TransferLiveness.LostDiscoveryIsFinal | crates/tooling/ndn-tools-core/src/peek.rs:62-73 | in every run, once the discovery Interest and all answers to it are gone the fetch is only ever discovering or failed |
| TransferLiveness.LostInterestFails | crates/tooling/ndn-tools-core/src/peek.rs:62-73 | for every job, losing the one discovery Interest ends the fetch with a timeout |
| TransferLiveness.LostAnswerFails | crates/tooling/ndn-tools-core/src/peek.rs:62-73 | for every answerable job, losing the one answer does the same |
| TransferLiveness.ReturnsExactlyIfDiscovered | crates/tooling/ndn-tools-core/src/peek.rs:62-224 | an ended run whose connection stayed open returned the payload if and only if a Data was delivered while discovering; otherwise discovery had no response or an undecodable one |
| Iperf.FillWindowExact | crates/tooling/ndn-tools-core/src/iperf.rs:993-1002 | the send loop brings the in-flight count exactly to the window's floor with consecutive new numbers, and sends none when it is already there |
| Iperf.TakeAnswerBooks | crates/tooling/ndn-tools-core/src/iperf.rs:975-989 | an arrival, matched or not, keeps the books: one RTT sample per answered number |
| Iperf.RetryEffect | crates/tooling/ndn-tools-core/src/iperf.rs:1031-1065 | a retry round removes every stale entry out of retries, re-sends the others up to the limit with one more retry, and touches nothing else |
| Iperf.SpentDecrements | crates/tooling/ndn-tools-core/src/iperf.rs:1049-1053 | within a retry round, after giving up any k of its entries in_flight has dropped by exactly k |
| Iperf.AllowedIsFloor | crates/tooling/ndn-tools-core/src/iperf.rs:993 | the number allowed in flight is the floor of the window |
| Iperf.RetryIsRound | crates/tooling/ndn-tools-core/src/iperf.rs:1035-1064 | a retry round gives up exactly the stale entries without retries left and re-sends as many of the other stale ones as the limit allows, each with a new time and one more retry; nothing else changes |
| IperfClient.WholeRunAccounts | crates/tooling/ndn-tools-core/src/iperf.rs:941-1068 | in every state of every run, issued = outstanding + answered + given up + drained, each number in exactly one of these places and none unissued in any; one RTT sample per answered number; in_flight is the table size until the deadline and table plus drained after; each issued number has been sent 1 to 4 times |
| IperfClient.ReportedLoss | crates/tooling/ndn-tools-core/src/iperf.rs:1076-1079 | effective_sent counts exactly the resolved numbers; received is the RTT samples plus the unmatched arrivals of the run; lost is given-up plus drained less these arrivals, so it is the true number if and only if nothing was lost or every arrival matched an outstanding number |
| IperfClient.StrayHidesLoss | crates/tooling/ndn-tools-core/src/iperf.rs:977-1079 | a run of two events in which the only packet sent is dropped at the drain, one stray packet arrives and no loss is reported |
| IperfClient.DecrementsAreExact | crates/tooling/ndn-tools-core/src/iperf.rs:978-1053 | in every turn of every run neither saturating subtraction saturates: a matched arrival takes off one, and a retry round has taken off k after k entries |
| IperfClient.WindowRespected | crates/tooling/ndn-tools-core/src/iperf.rs:991-1006 | new numbers go out only on an arrival before the deadline, and leave in_flight at the window's floor |
| IperfClient.FirstIdleDrainEnds | crates/tooling/ndn-tools-core/src/iperf.rs:1015-1026 | past the deadline the first idle drain wait finds every entry at least a drain timeout old, empties the table and ends the loop |
| IperfClient.StopsAfterDeadline | crates/tooling/ndn-tools-core/src/iperf.rs:963-1068 | the second idle wait that elapses at or after the deadline is the last event of the run |
| IperfClientTurns.SamplesAreRoundTrips | crates/tooling/ndn-tools-core/src/iperf.rs:977-989 | in every run a matched arrival adds one RTT sample, its time minus the stamp of the turn in which that number was last sent, which is never later; nothing else touches the samples |
| IperfClientTurns.BurstFills | crates/tooling/ndn-tools-core/src/iperf.rs:952-961 | the burst sends the smaller of the initial window and the window's floor |
| IperfClientTurns.WindowFilled | crates/tooling/ndn-tools-core/src/iperf.rs:991-1002 | after every arrival before the deadline, what was left in flight is topped up exactly to the window's floor |
| IperfClientTurns.IdleRetries | crates/tooling/ndn-tools-core/src/iperf.rs:1031-1065 | every idle wait before the deadline is a retry round limited to half the window, but at least two |
| IperfClientTurns.DeadlineExactly | crates/tooling/ndn-tools-core/src/iperf.rs:991-1030 | the deadline is noticed by the first event at or after it and not before |
| IperfClientTurns.EndsExactly | crates/tooling/ndn-tools-core/src/iperf.rs:1007-1026 | the loop ends exactly on a closed connection and past the deadline with nothing outstanding, except that the idle wait which notices the deadline is followed by another |
| IperfClientTurns.GivenUpAfterFour | crates/tooling/ndn-tools-core/src/iperf.rs:1041-1053 | whatever is given up has been sent four times |
| IperfReverse.WholeRunAccounts | crates/tooling/ndn-tools-core/src/iperf.rs:600-713 | in every state of every run, issued = outstanding + answered + given up, each number in exactly one of these places; one RTT sample per answered number; in_flight is the table size; each issued number has been sent 1 to 4 times; the reported loss is exactly outstanding plus given up less the unmatched arrivals of the run, so at most that sum |
| IperfReverse.DecrementsAreExact | crates/tooling/ndn-tools-core/src/iperf.rs:622-683 | in every turn of every run neither saturating subtraction saturates |
| IperfReverse.WindowRespected | crates/tooling/ndn-tools-core/src/iperf.rs:635-707 | new numbers go out only before the deadline, and leave in_flight at the window's floor |
| IperfReverse.RunBudget | crates/tooling/ndn-tools-core/src/iperf.rs:609-694 | the waits each outstanding number can still consume shrink with every late idle wait, refined by the time to its next staleness |
| IperfReverse.StopsAfterDeadline | crates/tooling/ndn-tools-core/src/iperf.rs:609-708 | with timeouts below a bound the consumer idles at or after the deadline at most 4(bound / 500 ms + 2) + 2 times, whatever arrives |
| IperfReverse.EndsEmptyHanded | crates/tooling/ndn-tools-core/src/iperf.rs:651-662 | it ends only on a closed connection or past the deadline with nothing outstanding |
| IperfReverseTurns.SamplesAreRoundTrips | crates/tooling/ndn-tools-core/src/iperf.rs:621-633 | the same for the reverse consumer's RTT samples |
| IperfReverseTurns.WindowFilled | crates/tooling/ndn-tools-core/src/iperf.rs:635-707 | after every event that leaves time before the deadline at least the window's floor is in flight |
| IperfReverseTurns.FirstWaitSends | crates/tooling/ndn-tools-core/src/iperf.rs:696-707 | the first elapsed wait sends exactly the window's floor, for there is no burst before it |
| IperfReverseTurns.IdleRetries | crates/tooling/ndn-tools-core/src/iperf.rs:663-694 | an idle wait that does not end the loop re-sends every stale entry with retries left and gives up exactly the other stale ones |
| IperfReverseTurns.DeadlineExactly | crates/tooling/ndn-tools-core/src/iperf.rs:635-659 | the deadline is noticed by the first event at or after it and not before |
| IperfReverseTurns.EndsExactly | crates/tooling/ndn-tools-core/src/iperf.rs:651-662 | the loop ends exactly on a closed connection, after an arrival past the deadline that leaves nothing outstanding, and on an idle wait past it that finds nothing outstanding |
| IperfReverseTurns.GivenUpAfterFour | crates/tooling/ndn-tools-core/src/iperf.rs:673-683 | whatever is given up has been sent four times |
| IperfLoop.Loop.ClientArrival | crates/tooling/ndn-tools-core/src/iperf.rs:974-1010 | one arrival turn of the client in place is the specified step |
| IperfLoop.Loop.ClientIdle | crates/tooling/ndn-tools-core/src/iperf.rs:1015-1066 | one idle turn of the client in place is the specified step; only a retry round lists the stale entries, in whichever order the table yields |
| IperfLoop.Loop.ReverseArrival | crates/tooling/ndn-tools-core/src/iperf.rs:618-654 | one arrival turn of the reverse consumer in place, with its second window fill, is the specified step |
| IperfLoop.Loop.ReverseIdle | crates/tooling/ndn-tools-core/src/iperf.rs:656-707 | one idle turn of the reverse consumer in place is the specified step |
| IperfLoop.Loop.RunClient | crates/tooling/ndn-tools-core/src/iperf.rs:941-1068 | burst and loop in place, on any sequence of arrivals, idle waits and disconnections, and with sending that may fail at any point: every turn is the specified one, the first turn that cannot send ends the function without a result, and otherwise it stops only when ended or out of input |
| IperfLoop.Loop.RunReverse | crates/tooling/ndn-tools-core/src/iperf.rs:600-708 | the same for the reverse consumer, which starts with nothing sent |
| IperfLoop.LoopsAreRuns | crates/tooling/ndn-tools-core/src/iperf.rs:609-708 | what the loops in place go through is a run of the step systems, so everything proved over runs holds of them, as long as clock readings ascend and waits last as long as asked |
| Glob.MatchesByPieces | binaries/tooling/ndn-tools/src/ctl.rs:998 | the declarative wildcard relation holds if and only if the pieces between stars occur in order without overlap, anchored at both ends |
| Glob.LeftmostSuffices | binaries/tooling/ndn-tools/src/ctl.rs:1009-1017 | taking the leftmost occurrence of a piece loses no match |
| Glob.Find | binaries/tooling/ndn-tools/src/ctl.rs:1013 | the leftmost occurrence, or none if there is none |
| Glob.GlobMatch | binaries/tooling/ndn-tools/src/ctl.rs:997-1022 | the greedy search returns true if and only if the string matches the pattern, for all patterns and strings |
| Glob.UriMatchesScheme | binaries/tooling/ndn-tools/src/ctl.rs:986-993 | true if and only if the text before the first "://" of the remote URI, or of the local one when it is empty, is the wanted scheme |
| Glob.FilterFaceList | binaries/tooling/ndn-tools/src/ctl.rs:956-984 | exactly the faces that pass every given filter, in order |
| Glob.FilteredExactly | binaries/tooling/ndn-tools/src/ctl.rs:962-983 | the faces kept are those at ascending positions of the list, and a position is kept if and only if its face passes every given filter |
| CivilDate.CivilIsCalendar | binaries/tooling/ndn-tools/src/sec.rs:660-670 | for every day count the arithmetic gives a valid Gregorian date whose day number in the recursive calendar is that count |
| Calendar.CountsDays | binaries/tooling/ndn-tools/src/sec.rs:660 | the recursive calendar advances by one with each step of a day-by-day calendar and starts at 1970-01-01 |
| Timestamp.FieldsAreExact | binaries/tooling/ndn-tools/src/sec.rs:654-672 | for every second count all fields are in range and count back to it |
| Timestamp.FitsU64 | binaries/tooling/ndn-tools/src/sec.rs:653 | every 64-bit nanosecond count falls in a year up to 2554, so all fields keep their width |
| Timestamp.FormatOrder | binaries/tooling/ndn-tools/src/sec.rs:643-673 | texts other than the sentinel's are 20 characters, sort exactly as their second counts and are equal only for equal second counts |
| Timestamp.TextReadsBack | binaries/tooling/ndn-tools/src/sec.rs:643-673 | every text has its separators in their places, and the numerals between them are a valid date and time of day that count back to the second; the sentinel gives "never" |
| Base64.NoPadRoundTrip | binaries/ndn-trust-context/src/lib.rs:95-112 | unpadded base64 decodes a text to given bytes if and only if the text is their encoding (sections 4 and 5 of RFC 4648) |
| Base64.PaddedRoundTrip | binaries/tooling/ndn-tools/src/sec.rs:405-407 | padded base64 decodes a text to given bytes if and only if the text is their encoding |
| Base64.GroupIsBigEndian | binaries/tooling/ndn-tools/src/sec.rs:316 | three bytes and their four sextets spell the same number, most significant part first |
| Base64.TestVectors | binaries/tooling/ndn-tools/src/sec.rs:316 | the test vectors for one, two and three bytes (section 10 of RFC 4648) |
| Base64.PaddedLength | binaries/tooling/ndn-tools/src/sec.rs:316 | padded text has four characters for every three bytes or part of them |
| Envelope.EnvelopeRoundTrip | binaries/ndn-trust-context/src/lib.rs:94-114 | parsing the envelope of any 64-bit version and content gives both back |
| Envelope.AcceptedShape | binaries/ndn-trust-context/src/lib.rs:101-114 | whatever is accepted is, up to white space, the tag, a numeral of the version and the encoding of the content |
| Envelope.AcceptedExactly | binaries/ndn-trust-context/src/lib.rs:101-114 | a text is accepted with a version and content if and only if it has that shape |
| Envelope.RefusedExactly | binaries/ndn-trust-context/src/lib.rs:102-112 | which of the four errors a refused text gives: no tag, no separator, a bad version numeral, or content that is no encoding, the first that applies |
| Envelope.ParseU64Exactly | binaries/ndn-trust-context/src/lib.rs:109 | a numeral is accepted if and only if it is a non-empty run of digits, possibly after a plus sign, whose value fits 64 bits |
| Envelope.TrimExactly | binaries/ndn-trust-context/src/lib.rs:103 | trimming takes off exactly the white space at both ends |
| Envelope.ReencodingIsStable | binaries/ndn-trust-context/src/lib.rs:94-114 | re-encoding anything accepted gives a text that parses to the same pair |
| Envelope.CanonicalExactly | binaries/ndn-trust-context/src/lib.rs:101-114 | an accepted text is the canonical one if and only if it has no white space at the ends or around the content and its numeral has no sign or leading zero |
| Envelope.NotOnlyCanonical | binaries/ndn-trust-context/src/lib.rs:109 | a signed numeral with a leading zero is accepted |
| SafeBag.NormalizeExactly | binaries/tooling/ndn-tools/src/sec.rs:395-409 | a wire results if and only if it starts with 0x80 and the input is that wire or, without ASCII white space, its base64 text |
| SafeBag.NormalizeAnywhere | binaries/tooling/ndn-tools/src/sec.rs:395-409 | the same without naming the clean-up: the input is the wire, or its base64 text with white space inserted anywhere |
| SafeBag.ExportImport | binaries/tooling/ndn-tools/src/sec.rs:313-320 | both export formats import back to the same wire |
| Bundle.BundleIsUrlSafe | testbed/tests/browser/rtc_browser_native.spec.ts:74-81 | the three replacements turn standard padded base64 into the unpadded URL-safe encoding |
| Bundle.BundleRoundTrip | testbed/tests/browser/rtc_browser_native.spec.ts:66-81 | decoding undoes encoding on all JSON byte strings: the alphabet swap is reversed and exactly the stripped padding restored |
| Protobuf.VarintReadsBack | binaries/tooling/ndn-otel-bridge/src/main.rs:286-292 | a varint reader returns the number written and leaves what follows |
| Protobuf.BytesMut.WriteVarint | binaries/tooling/ndn-otel-bridge/src/main.rs:286-292 | the shifting loop appends exactly the varint of its argument |
| Protobuf.BytesMut.EncodeLenPrefixed | binaries/tooling/ndn-otel-bridge/src/main.rs:279-284 | appends one length-delimited field |
| Protobuf.FieldsReadBack | binaries/tooling/ndn-otel-bridge/src/main.rs:255-257 | a message reader on repeated fields followed by more returns them all in order |
| Protobuf.ReadsBack | binaries/tooling/ndn-otel-bridge/src/main.rs:250-277 | a reader of the request, through all levels of nesting, recovers exactly the service name and the span bodies in order, for all lengths |
| Protobuf.EncodeExportRequest | binaries/tooling/ndn-otel-bridge/src/main.rs:250-264 | the encoder in place produces the request, which reads back as its arguments |
| SpanIds.HexLower | binaries/tooling/ndn-otel-bridge/src/main.rs:220-228 | two lower-case digits per byte, in order |
| SpanIds.DecodePair | binaries/tooling/ndn-otel-bridge/src/main.rs:230-243 | the two loops reject at the first pair that is not hexadecimal and panic at the first offset inside a character, whichever comes first |
| SpanIds.IdRoundTrip | binaries/tooling/ndn-otel-bridge/src/main.rs:220-243 | decoding a rendered identifier gives it back |
| SpanIds.AcceptedIsRendered | binaries/tooling/ndn-otel-bridge/src/main.rs:230-243 | an accepted text is, up to case, the rendering of what it decodes to, if and only if no pair starts with a plus sign |
| SpanIds.AsciiNeverPanics | binaries/tooling/ndn-otel-bridge/src/main.rs:236-240 | ASCII text of the right length never panics |
| SpanIds.PanicsExactly | binaries/tooling/ndn-otel-bridge/src/main.rs:234-241 | one half panics if and only if some pair's slice cuts a character and all pairs before it are hexadecimal; it is accepted if and only if all pairs are hexadecimal and none cuts a character |
| SpanIds.PairExactly | binaries/tooling/ndn-otel-bridge/src/main.rs:230-243 | the same for whole identifiers: acceptance and panic in terms of the two texts alone, with their lengths and the order of the two loops |
| SpanIds.AccentPanics | binaries/tooling/ndn-otel-bridge/src/main.rs:236 | a well-formed 32-byte text with one accented letter panics |
| SpanIds.PairValue | binaries/tooling/ndn-otel-bridge/src/main.rs:236 | a pair is read if and only if it is two hexadecimal digits of either case, or a plus sign and one, and as that number |
| SpanIds.SignAccepted | binaries/tooling/ndn-otel-bridge/src/main.rs:236 | a pair of a plus sign and a digit is accepted, though no identifier is rendered with one |
| SpanBridge.Loop.Poll | binaries/tooling/ndn-otel-bridge/src/main.rs:147-168 | polling in place marks each new identifier seen before fetching it and batches the bodies that came |
| SpanBridge.Loop.FlushBatch | binaries/tooling/ndn-otel-bridge/src/main.rs:172-196 | sends the encoded batch and empties it only after a successful POST |
| SpanBridge.Loop.TakeTurn | binaries/tooling/ndn-otel-bridge/src/main.rs:119-138 | one turn of the main loop in place is the specified step |
| SpanBridge.Loop.Serve | binaries/tooling/ndn-otel-bridge/src/main.rs:107-142 | the main loop in place, over any turns and up to the shutdown flush, ends in the state of the specified run; a panic ends it at once |
| SpanBridge.FlushConserves | binaries/tooling/ndn-otel-bridge/src/main.rs:172-196 | a failed flush changes nothing; a successful one moves the whole batch |
| SpanBridge.EveryBodyOnce | binaries/tooling/ndn-otel-bridge/src/main.rs:107-204 | over every run, reading the bytes of the successful POSTs in order and then the batch gives exactly the bodies fetched, in order, for pairwise distinct identifiers, and these are the bodies of the first listings in the lists that arrived |
| SpanBridge.FetchedIsFirstListed | binaries/tooling/ndn-otel-bridge/src/main.rs:149-168 | in every run the bodies fetched and the identifiers seen follow from the lines handed in before the first one that panics: an identifier is seen exactly if such a line lists it, and its body was fetched at its first listing or not at all; without a panic these are all the lines |
| SpanBridge.FirstBodiesExactly | binaries/tooling/ndn-otel-bridge/src/main.rs:152-166 | a body is among those fetched if and only if the fetch at the first listing of its identifier returned it |
| SpanBridge.NeverRetried | binaries/tooling/ndn-otel-bridge/src/main.rs:155-166 | an identifier whose one fetch gave no body is never fetched again, however often it is listed |
| SpanBridge.PostsWhenDue | binaries/tooling/ndn-otel-bridge/src/main.rs:120-138 | in every uncrashed run, with due flushes defined on the turns alone: bodies posted and waiting add up to those fetched; a due flush whose POST succeeds empties the batch, and every other turn posts nothing and keeps what waits |
| SpanBridge.NothingDueWaits | binaries/tooling/ndn-otel-bridge/src/main.rs:134-139 | after a turn whose POST would succeed the batch is empty, or below the batch size with the last flush less than the interval ago; only a turn with a due flush posts |
| SpanBridge.FailedPostIsRetried | binaries/tooling/ndn-otel-bridge/src/main.rs:134-139 | after a failed POST the next turn in which the batch is full or the interval has passed, and whose POST succeeds, posts everything |
| SpanBridge.PostsAreDisjoint | binaries/tooling/ndn-otel-bridge/src/main.rs:107-204 | no identifier is in two successful POSTs, nor in one and in the batch |
| SpanBridge.ShutdownDelivers | binaries/tooling/ndn-otel-bridge/src/main.rs:114-118 | a shutdown that is reached and whose last POST succeeds has delivered every body fetched |
| SpanBridge.CrashesExactly | binaries/tooling/ndn-otel-bridge/src/main.rs:145-156 | the process panics if and only if some list it was handed contains a line whose decoding panics |
| SpanBridge.CrashStrandsBatch | binaries/tooling/ndn-otel-bridge/src/main.rs:107-168 | after a panic nothing changes any more, so the bodies then in the batch, exactly those fetched and not posted, are lost |
| SpanBridge.CrashLosesBody | binaries/tooling/ndn-otel-bridge/src/main.rs:145-168 | a list with a good line before a panicking one: the fetched body never leaves, whatever follows |
| NdnTlv.NumberArray.PutVaru | testbed/tests/browser/native_browser_mgmt_interop.spec.ts:129-137 | the shift-and-mask pushes are the shortest big-endian encoding, and every number pushed is a byte |
| NdnTlv.EncInterest | testbed/tests/browser/native_browser_mgmt_interop.spec.ts:137-165 | the pushed bytes are the nested elements of the Interest |
| NdnTlv.ReadersAgree | testbed/tests/browser/wasm_engine_mgmt_status.spec.ts:42-56 | the refusing reader equals the other one except that it throws on a first byte that is 255 or missing |
| NdnTlv.VaruReadsBack | testbed/tests/browser/native_browser_mgmt_interop.spec.ts:194-203 | anywhere in a buffer readVaru returns what putVaru wrote if and only if it is below 2^32, and the next offset always |
| NdnTlv.WritesShortest | testbed/tests/browser/native_browser_mgmt_interop.spec.ts:129-137 | no width that holds the number is shorter than what the writer writes |
| NdnTlv.ElementReadsBack | testbed/tests/browser/native_browser_mgmt_interop.spec.ts:204-208 | both decoders return type, value and end of an element written with numbers of any width |
| NdnTlv.ReadChildren | testbed/tests/browser/wasm_engine_mgmt_status.spec.ts:64-73 | the loop ends on every buffer and collects all elements up to its end, or throws |
| NdnTlv.ChildrenExactly | testbed/tests/browser/wasm_engine_mgmt_status.spec.ts:58-73 | the reader returns a list and stops exactly at the end of the buffer if and only if the buffer is a concatenation of well-formed elements, and then the list is theirs |
| NdnTlv.OverrunExactly | testbed/tests/browser/wasm_engine_mgmt_status.spec.ts:58-73 | the reader returns a list and stops beyond the buffer if and only if the buffer is a concatenation of well-formed elements and one cut in its value, returned short, or in its length, returned empty |
| NdnTlv.CutShort | testbed/tests/browser/wasm_engine_mgmt_status.spec.ts:58-62 | a last value shorter than its length says is returned cut short, without an error |
| NdnTlv.InterestReadsBack | testbed/tests/browser/native_browser_mgmt_interop.spec.ts:137-165 | the Interest reads back, level by level, as its components and its four other fields, each level filling its buffer exactly |
| NdnTlv.ReadNni | testbed/tests/browser/wasm_engine_mgmt_status.spec.ts:75-79 | the loop computes the sum rounded to a double at each byte, which is the big-endian value whenever that is below 2^53 |
| NdnTlv.NniExactly | testbed/tests/browser/wasm_engine_mgmt_status.spec.ts:75-79 | the result is the big-endian value if and only if a double can hold it: at most 53 significant bits and below 2^1024 |
| JsDouble.NearestIsClosest | testbed/tests/browser/wasm_engine_mgmt_status.spec.ts:77 | each sum is rounded to the nearer double, ties to even |
| NdnTlv.NniRounds | testbed/tests/browser/wasm_engine_mgmt_status.spec.ts:77 | eight bytes worth 2^53 + 1 are read as 2^53 |
| JsNumber.PickByte | testbed/tests/browser/native_browser_mgmt_interop.spec.ts:133-135 | shift right and mask pick a byte of the number whatever the sign of the 32-bit word |
| JsNumber.JoinBytes | testbed/tests/browser/native_browser_mgmt_interop.spec.ts:197-200 | shift left and or assemble two or three bytes |
| SharedWorker.WorkerScope.OnConnect | testbed/tests/browser/fixture-page/shared-worker.js:35-40 | the installed handler buffers or forwards a port and ignores an event without one |
| SharedWorker.WorkerScope.OnWorkerMainDone | testbed/tests/browser/fixture-page/shared-worker.js:54-67 | the drain passes on the buffered ports in order up to a call that throws; only a complete drain clears the buffer and goes live |
| SharedWorker.DrainPasses | testbed/tests/browser/fixture-page/shared-worker.js:54-60 | a drain passes on every buffered port, or those up to and including a call that throws, and then keeps the buffer |
| SharedWorker.EachPortOnce | testbed/tests/browser/fixture-page/shared-worker.js:34-71 | in every interleaving, also one that fails, the ports passed on are a prefix of the connected ones without repetition, and all of them once live |
| SharedWorker.NeverEarly | testbed/tests/browser/fixture-page/shared-worker.js:51-60 | a port is passed on only after the wasm load and then worker_main have completed |
| SharedWorker.CompletedBootstrapDelivers | testbed/tests/browser/fixture-page/shared-worker.js:34-71 | however connects fall around a bootstrap that completes, every port is passed on exactly once in connection order |

## Left out

- Sockets, shared memory, HTTP, TLS, timers and task spawning: only the step boundaries (await points, elapsed waits) the loops depend on are kept, as events.
- Packets of the transfer are values (name, content, FinalBlockId bytes), not wire bytes; ndn_packet is not part of this model. A segment component is its type and a NonNegativeInteger of 1, 2, 4 or 8 bytes.
- ChunkedProducer is not part of this model: segment i is the payload from i times the segment size to the next cut or the end, for a non-empty payload shorter than 2^64 bytes; `usize` has 64 bits.
- The network answers only Interests the consumer sent (one Data per Interest, plus duplicates of either); signatures are not modelled. In the step system the producer serves throughout.
- CongestionController is not part of this model: the window is any real number at each step and the retransmission timeout any value of at least 200 ms. The bound of the reverse consumer is in terms of the largest timeout used; arrivals can postpone its next idle wait, so it bounds idle waits, not time.
- Sending that fails is a budget of Interests after which it does; the turn is then cut off as a whole, since the source drops the state of the loop with the error. In the step systems of the transfer and the measurements sending succeeds.
- The measurement loops read the clock twice in a turn of the model: once for decisions, once for the stamp on what is sent. Byte counts, smoothed RTT, throughput and printed reports are left out.
- Glob.GlobMatch: works on sequences of characters; offsets into the UTF-8 form are not modelled (the source only slices at ends of matches, which are character boundaries).
- Glob.FilterFaceList: faces carry only their two URIs.
- SpanBridge: the name under which a span's body is fetched is not modelled; a line carries what the fetch would return. The text decoding of the list and its splitting into lines are inputs; a POST either succeeds or fails for both sides, so a request delivered whose answer was lost counts as failed.
- SpanBridge.ShutdownDelivers: a shutdown whose last POST fails exits with the batch undelivered, as the source does.
- Bundle.BundleRoundTrip: starts from JSON bytes; JSON and UTF-8 conversion are left out, and Node's lenient base64 reader is modelled by a strict one, which agrees on the texts the theorem is about.
- NdnTlv.InterestReadsBack: components are given as UTF-8 bytes and the random nonce is a parameter; arrays have fewer than 2^32 elements, as in JavaScript.
- SafeBag.NormalizeExactly: the cryptographic content of the wire is left out; only its first byte matters here.
- Key management, certificates, ACME, routing tables, configuration parsing, dashboards, table printing, counters and argument parsers: outside the scope, or single-branch members that would add little.
