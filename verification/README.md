# go-bacnet: verified models of the protocol machines and codecs

go-bacnet is a BACnet/IP stack (ANSI/ASHRAE 135). This project models its
protocol machines, tables and codecs in Dafny and proves what they promise over
every input, every run and every interleaving. `dafny verify dfyconfig.toml`
checks all of it.

How the models are built: a step of the program is a function on values; the
loops, classes and maps of the source are Dafny methods and classes proved equal
to those functions; and the promises are theorems about the functions, over whole
runs. Time is an integer that a run only moves forward, timeouts and other
goroutines are steps that may come at any point, and a network is the set of
everything ever sent, from which anything may arrive any number of times, in any
order, or never.

- **Segmented transfer** (`Segment`, `Apdu`, `SegmentSend`, `Responder`,
  `ResponderHistory`, `SegmentedRequest`, `RequestDelivery`, `ReplySend`,
  `SegmentReceive`, `SegmentedReply`, `ReplyDelivery`): both window senders, both
  receivers, where each executed request came from, and both directions end to end
  over octets: nothing wrong gets through a faulty network, and everything within
  the limits gets through a good one.
- **Tags** (`Octets`, `Numbers`, `Tags`, `TagSequence`, `TagRoundTrip`): the
  recursive parser with its shared budget, the printer, and both round trips.
- **Wire forms** (`WireForms`): octets written out that fix bits, tags and byte
  order, and hand-built payloads as the prints of their trees.
- **BBMD** (`Bbmd`, `BbmdMesh`, `ForeignTable`): a mesh of broadcast management
  devices delivers every broadcast exactly once, and the lazily purged foreign
  device table is the history of registrations.
- **Transactions** (`Transactions`, `TransactionHistory`): invoke IDs, quarantine,
  retransmission, and under racing completions exactly one result, the right one.
- **NPDU** (`Npdu`): both round trips, and the BBMD's skip-scan against the parser.
- **Batched reads** (`RpmBatched`): adaptive batching is the unbatched read.
- **COV** (`CovEngine`, `CovThreshold`, `SubscriptionStream`): the server's hand-off
  between change and evaluator, its thresholds, and the client's event stream.
- **ReadRange** (`ReadRange`, `ReadRangePager`): the largest prefix that fits, and
  paging to the end of a list.
- **Audit lists** (`AuditList`, `AuditRequest`): notifications without delimiters,
  as fields and as octets.
- **Device registry** (`Registry`): two maps, expiry, eviction and capabilities.

Where a promise does not hold of the code, the code is modelled as it is, with a
failing input and the exact condition:

- A broadcast reaches every device of a BBMD mesh exactly once if and only if the
  subnets with hosts are all distributed to as the origin's is
  (`BbmdMesh.DeliveredExactlyOnceIff`, `BbmdMesh.MixedMeshFails`).
- An NPDU with hop count zero is re-encoded with 255 (`Npdu.ParseThenAppend`,
  `Npdu.ZeroHopIsLost`).
- Re-encoding a parsed tree whose application tag is above 12 loses that tag
  (`TagRoundTrip.ParseThenPrint`, `TagRoundTrip.HighTagIsLost`).
- The client takes a segment more than 128 behind for a new one and a number 128
  or more ahead for a repeat (`SegmentReceive.RepeatIffStored`,
  `SegmentReceive.RepeatMisjudged`).
- A COV notification that is not encoded or not sent is remembered as if it had
  been, so silence bounds a REAL by the value last sent only while the two agree
  (`CovThreshold.SilenceBoundsSentIff`, `CovThreshold.UnsentIsRemembered`).
- Paging by sequence number can end early without being marked partial, although
  the documentation of the pager says otherwise: from before the first record, and
  always when the log's numbers go past the highest
  (`ReadRangePager.PagesExact`, `ReadRangePager.ShortPaging`,
  `ReadRangePager.WrappedPaging`).

## Model

| member | source | states |
|---|---|---|
| `Segment.Window` | internal/segment/segment.go:30-39 | the window used to receive is at least one and never above the local or the proposed window |
| `Segment.CountLeast` | internal/segment/segment.go:142-150 | the segment count is the least number of pieces that hold the payload |
| `Segment.CutAndJoin` | internal/segment/segment.go:142-158 | cutting any payload at the segment bounds and joining the pieces gives it back |
| `Segment.AckSchedule` | internal/segment/segment.go:90-120 | a stored segment that is not the last asks for an acknowledgement exactly when it is the first or completes a window |
| `Segment.NextPiece` | internal/segment/segment.go:90-120 | a reassembly that holds a prefix keeps only the next piece in order, then holds the longer prefix, and completes exactly at the last piece with the whole payload |
| `Segment.Reassembly.Add` | internal/segment/segment.go:90-120 | the mutable reassembly reacts and changes as specified, and stays valid until complete |
| `Apdu.KindsExactly` | apdu/codec.go:174-204 | which PDU types are parsed, which are left to others, and which are refused, from the first octet |
| `Apdu.ConfirmedRoundTrip` | apdu/codec.go:400-420 | every representable confirmed request header, segmented or not, parses back from its octets |
| `Apdu.ConfirmedParseExact` | apdu/codec.go:205-248 | every accepted confirmed request is the encoding of what it parses to |
| `Apdu.ComplexAckRoundTrip` | apdu/codec.go:434-448 | every representable ComplexACK parses back from its octets |
| `Apdu.ComplexAckParseExact` | apdu/codec.go:282-316 | every accepted ComplexACK is the encoding of what it parses to |
| `Apdu.SegmentAckRoundTrip` | apdu/codec.go:451-460 | a SegmentACK parses back from its octets exactly when its window is 1 to 127 |
| `Apdu.SegmentAckParseExact` | apdu/codec.go:318-339 | every accepted SegmentACK is the encoding of what it parses to |
| `WireForms.ApduOctets` | apdu/codec.go:400-461 | each flag of the APDUs of segmented transactions has its own bit, and each field its place |
| `WireForms.ApduSizes` | apdu/maxapdu.go:54-75 | the APDU sizes of the standard |
| `SegmentSend.BuildConfirmedSegments` | client/segment_send.go:126-161 | segments are built exactly when the payload fits 256 of them; each is the encoded piece of its index and within the peer's APDU size |
| `SegmentSend.HandleAck` | client/segment_send.go:199-260 | the acknowledgement arm of the loop does what the specification says; a positive one counts just when it names a segment sent and not yet acknowledged, and then up to that segment, and is a violation just when it names one never sent; the window is taken over when valid |
| `SegmentSend.SegmentKeepsHeader` | client/segment_send.go:126-161 | every segment carries the header of the request and its own number, and only the last says that no more follow |
| `SegmentSend.PositiveAckExact` | client/segment_send.go:203-260 | what a positive SegmentACK does, exactly: progress just for a segment sent and not acknowledged, up to it, NAK rounds forgiven; violation just for one never sent; else ignored |
| `SegmentSend.NegativeAckExact` | client/segment_send.go:203-240 | what a NAK does, exactly: the limit of NAK rounds, the resume point with number 255 before and after progress, and the next segment, or why it is refused or ignored |
| `SegmentSend.OthersPassedOver` | client/segment_send.go:199-202 | a SegmentACK of another transaction, or not from the server, changes nothing |
| `SegmentSend.CooperationSucceeds` | client/segment_send.go:163-264 | when nothing fails and the last segment of each burst is acknowledged, the first burst being one segment, the transfer succeeds and sends every segment exactly once, in order |
| `SegmentSend.OutcomeExplained` | client/segment_send.go:163-264 | in every run success means that the last segment was acknowledged for this transaction, and every other outcome has its cause among the events |
| `SegmentSend.SendConfirmedSegments` | client/segment_send.go:163-264 | the nested loops transmit and end exactly as the specified sender machine, on every event sequence and every pattern of send failures |
| `SegmentSend.OnAckGood` | client/segment_send.go:199-260 | no acknowledgement breaks the sender's invariant, takes an acknowledgement back, or reaches the clamp of the in-flight count at zero |
| `SegmentSend.OnAckPays` | client/segment_send.go:199-260 | every retransmission is paid for by the NAK rounds left for an unacknowledged segment |
| `SegmentSend.TransmissionsBounded` | client/segment_send.go:163-264 | in every run no segment is sent beyond the window then in force, and the number of transmissions is bounded by segments, retries and the largest window |
| `Responder.ResponderTable.Confirmed` | server/responder.go:77-100 | the table and the replies after a confirmed request are as specified; a whole request of a key not in the table is admitted with its own payload, and a broadcast or repeated one changes nothing |
| `Responder.ResponderTable.Segment` | server/responder.go:103-165 | the table and the replies after a request segment are as specified |
| `Responder.ResponderTable.Offer` | server/responder.go:120-164 | offering a segment to an open reassembly stores, acknowledges, refuses or admits as specified |
| `Responder.ResponderTable.Submit` | server/responder.go:174-189 | handing a request to the workers starts it or drops its entry and refuses it, as specified |
| `Responder.ResponderTable.BeginReply` | server/responder.go:224-228 | a segmented reply marks the entry of its own execution |
| `Responder.ResponderTable.Finish` | server/responder.go:193-199 | finishing removes the entry of the finished execution |
| `Responder.ResponderTable.Expire` | server/responder.go:64-74 | expiry drops exactly the reassemblies that timed out |
| `Responder.ResponderTable.AbortFromClient` | server/responder.go:356-372 | a client Abort drops a reassembly or stops a reply, as specified |
| `Responder.StepInv` | server/responder.go:77-199 | every operation keeps the table invariant |
| `Responder.OneExecutionPerKey` | server/responder.go:77-199 | in every run at most one execution per requester and invoke ID is in flight, it owns the table entry of its key, and nothing is executed that was not admitted or is executed twice |
| `Responder.ExecutionIsUndisturbed` | server/responder.go:64-165 | while a request executes, repeats and further segments of its key change nothing, and expiry, aborts and other requests never remove its entry |
| `ResponderHistory.ExecutedAsSent` | server/responder.go:77-189 | in every run each request admitted, and each executed, is what its requester sent under that invoke ID: one message whole, or segments 0 to n received in that order and joined |
| `ResponderHistory.WholeIsAdmitted` | server/responder.go:87-100 | a whole request of a requester with none under way is admitted as it came, then executed by a free worker or else refused; a repeat is ignored |
| `ResponderHistory.BroadcastIsIgnored` | server/responder.go:77-81 | nothing is done for a broadcast confirmed request |
| `ResponderHistory.NextSegmentIsKept` | server/responder.go:128-165 | the next segment that fits is stored and acknowledged when due, positively and by its number; the last one admits the joined payload; the entry lives for twice the segment timeout from then |
| `ResponderHistory.FirstSegmentIsKept` | server/responder.go:103-165 | the first segment opens the reassembly, with the smaller window, and is always acknowledged |
| `ResponderHistory.OutOfOrderIsAnswered` | server/responder.go:130-138 | a segment out of order changes nothing; the answer names the last one stored and is negative unless that came again |
| `ResponderHistory.RefusedWithReason` | server/responder.go:103-143 | segments are refused with the reason, and nothing is left: no segmentation here, an unknown request, or over a limit |
| `ResponderHistory.AbortReaches` | server/responder.go:356-372 | an Abort of the requester ends its reassembly or its segmented reply, and leaves an execution alone |
| `SegmentedRequest.EndToEnd` | server/responder.go:103-165 | under any loss, duplication and reordering, at a server with any history that is not busy with the key: if the client reports success the server has since put the original payload together, and every execution since for that key carried exactly that payload |
| `SegmentedRequest.StepInv` | client/segment_send.go:163-264 | each step of client, network, server and other traffic keeps the end-to-end invariant |
| `SegmentedRequest.ClientIsSendConfirmedSegments` | client/segment_send.go:163-264 | the interleaved client of the end-to-end model ends, in a send failure too, exactly as the source's loops do on the events and the failure it met, with the same transmissions |
| `RequestDelivery.SomeRunSucceeds` | client/segment_send.go:163-264 | every request within the server's limits can be transferred: from any server state not busy with the key there is a run in which the client succeeds after sending every segment once, in order, and the server has admitted exactly this request |
| `ReplySend.AckExact` | server/responder.go:300-325 | with at most 256 segments an acknowledgement counts exactly when it names a segment of the window just sent, and for that segment; every stale one is discarded |
| `ReplySend.TimerExact` | server/responder.go:293-299 | a timeout sends the window again up to the retry count in a row, and then gives up |
| `ReplySend.CooperationSucceeds` | server/responder.go:263-331 | when nothing fails and each window is acknowledged within the tolerated timeouts the reply gets through whole; without timeouts every segment is sent exactly once, in order |
| `ReplySend.HandleAck` | server/responder.go:300-325 | the acknowledgement arm of the waiting loop is as specified |
| `ReplySend.AwaitProgress` | server/responder.go:284-327 | the waiting loop ends as the specified sender machine does |
| `ReplySend.SendSegments` | server/responder.go:263-331 | the loops send the same segments in the same windows as the specified machine, on every event sequence |
| `ReplySend.WindowsBounded` | server/responder.go:263-331 | in every run the windows sent are at most the segment count times one more than the retries, and only existing segments are sent |
| `SegmentReceive.DuplicateExactly` | client/segmentation.go:180-183 | for reassemblies of any length, which sequence numbers count as repeats: those that the last 128 segments carry, or would carry counting back past the first |
| `SegmentReceive.RepeatIffStored` | client/segmentation.go:129-136 | an out-of-order segment is acknowledged again exactly when it was received before, if and only if its number is at most 128 behind and less than 128 ahead of the count of stored segments |
| `SegmentReceive.RepeatMisjudged` | client/segmentation.go:180-183 | both failing inputs: a segment received and refused, and one never received and acknowledged |
| `SegmentReceive.SegmentReceiver.Accept` | client/segmentation.go:77-178 | the client's reassembly map, the SegmentACKs and Aborts it sends and its verdict after a ComplexACK segment are as specified |
| `SegmentReceive.NextSegmentIsKept` | client/segmentation.go:128-178 | the next segment that fits is stored; a SegmentACK, positive and by its number, goes out for segment 0, every multiple of the window and the last; the last ends with the joined payload |
| `SegmentReceive.FirstSegment` | client/segmentation.go:77-127 | which first segment opens a reassembly and is acknowledged, which violates the protocol, and which is dropped |
| `SegmentReceive.OverLimit` | client/segmentation.go:137-150 | a reply over either limit is given up with the Abort that says which |
| `SegmentedReply.EndToEnd` | server/responder.go:263-331 | under any loss, duplication and reordering: a reply the server reports acknowledged was put together by the client, which never puts anything else together for the transaction |
| `SegmentedReply.ServerIsSendSegments` | server/responder.go:263-331 | the interleaved server of the end-to-end model ends, in a send failure too, exactly as the source's loops do on the events and the failure it met, with the same segments and windows |
| `ReplyDelivery.SomeRunSucceeds` | server/responder.go:263-331 | every reply within the client's limits can be transferred: there is a run in which it is acknowledged after every segment was sent once, in order, and the client has put exactly it together |
| `Numbers.UnsignedRoundTrip` | tags.go:254-263 | every 64-bit unsigned number decodes from its encoding |
| `WireForms.NumberOctets` | tags.go:540-585 | numbers are most significant octet first, and two's complement |
| `WireForms.ApplicationOctets` | tags.go:428-498 | the application tag of every kind of value |
| `WireForms.TagForms` | tags.go:500-538 | tag number and length in the first octet, or after it |
| `WireForms.LengthForms` | tags.go:500-538 | lengths of one, three and five octets |
| `WireForms.DelimiterForms` | tags.go:403-413 | opening and closing tags |
| `Numbers.UnsignedShortest` | tags.go:540-555 | the encoding is never longer than any encoding of the same number |
| `Numbers.SignedRoundTrip` | tags.go:265-279 | every 64-bit signed number decodes from its encoding |
| `Numbers.SignedShortest` | tags.go:557-573 | the two's-complement encoding is never longer than any encoding of the same number |
| `Numbers.DecodeUnsignedLoop` | tags.go:254-263 | the shift loop computes the big-endian number |
| `Numbers.EncodeUnsignedLoop` | tags.go:540-555 | the loop emits the shortest big-endian octets |
| `Numbers.DecodeSignedLoop` | tags.go:265-279 | the shift loop computes the sign-extended number |
| `Numbers.EncodeSignedLoop` | tags.go:557-573 | the loop emits the shortest two's-complement octets |
| `Tags.LengthRoundTrip` | tags.go:97-129 | each of the three length forms reads back |
| `Tags.PrimitiveRoundTrip` | tags.go:500-538 | a printed tag header leads the parser to exactly the printed content |
| `Tags.ValueRoundTrip` | tags.go:131-239 | the content octets of a value decode to it, exactly when it is within the limits |
| `Tags.ApplicationRoundTrip` | tags.go:428-489 | a printed application value parses back to its normal form, with anything after it, exactly when it is within the limits |
| `TagSequence.ParseLevel` | constructed.go:20-67 | the recursive loop with a cursor and a shared budget computes the specified parse, or its error |
| `TagSequence.ParseIsSafe` | constructed.go:20-67 | at every level a successful parse charges every node once, stays within budget and depth, and consumes what it says |
| `TagSequence.SequenceIsSafe` | constructed.go:14-18 | a parsed tree has at most MaxElements nodes, at most the allowed depth, only values within limits, and with no closing tag expected the whole input is consumed |
| `TagSequence.PrintParseAll` | tags.go:289-310 | what is printed parses back element by element, whatever follows it |
| `TagRoundTrip.PrintThenParse` | constructed.go:14-83 | the printed form of every tree parses, exactly when its normal form is within the limits, and to that normal form |
| `TagRoundTrip.ParseMonotone` | constructed.go:20-67 | a parse that succeeds is the same under larger limits and budgets |
| `TagRoundTrip.ParsedPrints` | constructed.go:20-83 | every parsed tree can be printed, in no more octets than were parsed |
| `TagRoundTrip.ParseThenPrint` | constructed.go:14-83 | re-encoding a successful parse is never longer and parses back to the same elements exactly when every application tag is at most 12 |
| `TagRoundTrip.HighTagIsLost` | constructed.go:14-83 | under any limits the octet D0, application tag 13, parses and its re-encoding does not parse back to it |
| `Bbmd.OneHopForwardsToPeer` | bbmd/bbmd.go:138-146 | with an all-ones mask the forward address is the peer itself |
| `Bbmd.ForwardsToNetwork` | bbmd/bbmd.go:138-144 | a directed broadcast keeps the network part of the peer address, sets every host bit and keeps the port |
| `Bbmd.RefusedExactly` | bbmd/bbmd.go:266-287 | a NAK goes out exactly for a Distribute-Broadcast of a sender that is not registered, of a confirmed request or of an NPDU too long to forward, alone and undelivered |
| `Bbmd.DeliveredExactly` | bbmd/bbmd.go:248-287 | which broadcasts the local device gets; what the BBMD sent or first sent itself goes nowhere |
| `Bbmd.HandleBvlc` | bbmd/bbmd.go:248-287 | what a BBMD sends and delivers for each broadcast message is as specified, and everything it forwards carries the NPDU it got and its originator |
| `Bbmd.PeerOneHopLoop` | bbmd/bbmd.go:199-208 | the scan of the BDT finds whether the sender is another BBMD with an all-ones mask |
| `Bbmd.DistributeLoop` | bbmd/bbmd.go:158-187 | the destination loops collect the peers and foreign devices but for this BBMD and the origin, and each is sent the NPDU with its originator |
| `BbmdMesh.ChildrenForwarded` | bbmd/bbmd.go:248-287 | a BBMD only ever originates Forwarded-NPDUs |
| `BbmdMesh.ForwardedLeaves` | bbmd/bbmd.go:262-276 | what a BBMD makes of a Forwarded-NPDU reaches no other BBMD |
| `BbmdMesh.ArriveConserves` | bbmd/bbmd.go:158-287 | the receipts still to come plus those that came never change, and each arrival uses up one unit of work |
| `BbmdMesh.TakenAtPeer` | bbmd/bbmd.go:158-208 | what one BDT entry achieves at the peer's subnet, under one-hop and directed distribution |
| `BbmdMesh.TakenByDistribution` | bbmd/bbmd.go:158-187 | a distribution gives every other site its share and every foreign device but the origin one copy |
| `BbmdMesh.Delivery` | bbmd/bbmd.go:248-287 | any broadcast by a host, foreign device or BBMD, in any order of arrivals: the network is silent after a fixed number of messages, every device has then received it as often as computed, and none ever more often; and every copy carries the NPDU that was broadcast, and names its originator if a BBMD made it |
| `BbmdMesh.ExactlyOnceIff` | bbmd/bbmd.go:138-208 | every other device receives it exactly once and the originator never, if and only if every other subnet with hosts is distributed to as the origin's subnet is |
| `BbmdMesh.DeliveredExactlyOnceIff` | bbmd/bbmd.go:138-287 | once the network is silent after any broadcast and any order of arrivals, every other device has received it exactly once and the originator not at all, if and only if all subnets with hosts are distributed to alike |
| `BbmdMesh.MixedMeshFails` | bbmd/bbmd.go:138-208 | a mesh of a one-hop and a directed subnet where one host gets a broadcast twice and another misses one |
| `BbmdMesh.StaysLocal` | bbmd/bbmd.go:220-260 | a confirmed request or an NPDU too long to forward stays on its subnet |
| `ForeignTable.NextRefines` | bbmd/bbmd.go:117-133 | registration, deletion and listing at any later time keep the lazily purged map a refinement of the history, within its bound |
| `ForeignTable.RegisteredIff` | bbmd/bbmd.go:330-353 | registered, event by event: some accepted registration of the endpoint has no accepted registration or deletion of it after it, and less than its TTL in seconds plus 30 s have passed |
| `ForeignTable.LazyTableIsHistory` | bbmd/bbmd.go:117-133 | in every run with a monotone clock, whose history is the events in order, an endpoint is found exactly while such a registration is in force, with its TTL and its end |
| `ForeignTable.AcceptedExactly` | bbmd/bbmd.go:330-343 | in every such run a registration is accepted exactly when they are open and the endpoint is registered at the time or fewer than the maximum are |
| `ForeignTable.AcceptsExactly` | bbmd/bbmd.go:330-343 | a registration is accepted exactly when they are open and the endpoint is registered or there is room among those registered |
| `ForeignTable.RemainingIsCeiling` | bbmd/bbmd.go:120-129 | remaining seconds are rounded up, never zero, and capped at 65535 |
| `ForeignTable.ListingIsUnique` | bbmd/bbmd.go:131-131 | there is only one listing of the same entries in address order |
| `ForeignTable.ForeignDevices.List` | bbmd/bbmd.go:117-133 | lists exactly the live entries in address order and drops the others |
| `ForeignTable.ForeignDevices.Register` | bbmd/bbmd.go:330-343 | the answer, the entry with the TTL and its end 30 s after it, and every other live entry untouched, in the map after a registration |
| `ForeignTable.ForeignDevices.Delete` | bbmd/bbmd.go:345-353 | the map after a deletion, and whether an entry was there |
| `ForeignTable.ForeignDevices.IsRegistered` | bbmd/bbmd.go:210-215 | an endpoint is registered when its entry has not expired, purged or not |
| `Transactions.AllocExact` | client/transaction.go:91-113 | allocation fails exactly at capacity or when all 256 IDs are blocked, and never hands out a blocked ID |
| `Transactions.IdsKept` | client/transaction.go:91-146 | every step keeps used, reserved and quarantined IDs disjoint and within capacity |
| `Transactions.OwnedKept` | client/transaction.go:115-271 | every step keeps each transaction in exactly one place: in the table, with its one publisher, or finished with one result |
| `Transactions.EveryRun` | client/transaction.go:91-271 | in every interleaving the ID sets are disjoint and within capacity, no result is dropped, each transaction gets exactly one result, and it is retransmitted at most its initial retry count |
| `Transactions.QuarantineIsRespected` | client/transaction.go:91-146 | after any run with a monotone clock, an allocated ID is out of every quarantine ever imposed on it |
| `TransactionHistory.ResultIsItsOwn` | client/transaction.go:115-271 | in every interleaving a transaction's result is the one it was completed with, or, if everything was aborted, outcome unknown when it had been sent and a failure when not; it has the ID and retry count it was registered with, and counts as sent just when marked |
| `TransactionHistory.TimeoutExact` | client/transaction.go:209-224 | at any moment of any run a timeout of a waiting transaction retransmits exactly when allowed, never segmented and retransmitted less often than its retry count; else it fails; while segments flow it is ignored |
| `TransactionHistory.QuarantineHolds` | client/transaction.go:91-146 | an ID completed with a quarantine at some time is not allocated again before the quarantine is over, whatever happens in between |
| `Transactions.FreeIdIsFound` | client/transaction.go:91-113 | below capacity one ID that is not taken and out of quarantine by now is enough for an allocation |
| `Transactions.AllocCycles` | client/transaction.go:91-113 | IDs go round robin: the nearest free one from the cursor, which then stands after it |
| `Transactions.SegmentedIsNotRetransmitted` | client/transaction.go:150-224 | once a transaction was segmented, either way, no continuation retransmits it |
| `Transactions.TxManager.TryAlloc` | client/transaction.go:91-113 | the search loop finds what the specification finds and changes the maps as it says |
| `Transactions.TxManager.Register` | client/transaction.go:115-120 | a reservation becomes a pending transaction |
| `Transactions.TxManager.Complete` | client/transaction.go:125-146 | exactly the caller that finds the transaction removes it, quarantines its ID and publishes |
| `Transactions.TxManager.Enter` | client/transaction.go:150-196 | the phase changes; becoming segmented takes the retries away |
| `Transactions.TxManager.OnTimeout` | client/transaction.go:209-224 | the decision at a timeout and the retry it uses up |
| `Transactions.TxManager.AbortAll` | client/transaction.go:250-271 | empties the table and leaves one publisher for each transaction that was in it |
| `Npdu.NetworksRoundTrip` | npdu/codec.go:232-246 | a list of network numbers is read as it was written, and accepted just when none is zero |
| `Npdu.NetworksExact` | npdu/codec.go:232-246 | octets of even length are the list read from them |
| `Npdu.MessageErrorExactly` | npdu/codec.go:201-221 | which data of each network message is accepted, and the error otherwise |
| `WireForms.NpduOctets` | npdu/codec.go:281-388 | the control bits, addresses and hop count of five NPDUs, octet by octet |
| `Npdu.DecodeNetworkList` | npdu/codec.go:232-245 | accepts exactly the even-length lists without network 0 and returns their numbers |
| `Npdu.AppendThenParse` | npdu/codec.go:281-387 | Append fails exactly on the addresses it documents; what it prints parses to the normal form, or to the error that version, size or network message data call for |
| `Npdu.ParseThenAppend` | npdu/codec.go:74-199 | what Parse accepts prints again in as many octets, and to the same octets exactly when a present hop count is not zero |
| `Npdu.ZeroHopIsLost` | npdu/codec.go:372-379 | a remote broadcast with hop count 0 parses and does not print the same |
| `Npdu.SkipScanAgrees` | bbmd/bbmd.go:220-245 | on every NPDU that Parse accepts, the BBMD's skip-scan says confirmed request exactly when the parsed APDU is one |
| `WireForms.SizeIsEncoded` | service/read_property_multiple.go:19-42 | the request size the batching reckons with is the size of the encoded request |
| `RpmBatched.SizeIffEncodable` | service/read_property_multiple.go:19-27 | a request has a size just when every object identifier in it can be encoded |
| `WireForms.EncodableIff` | service/read_property_multiple.go:19-27 | the objects that can be asked for are those whose identifier can be encoded |
| `WireForms.FitsIffEncoded` | client/rpm_batched.go:84-92 | a request fits the budget just when its APDU, header and encoded request, is no longer than that |
| `RpmBatched.BudgetLeavesMargin` | client/rpm_batched.go:44-53 | a request within the budget leaves the margin free in the APDU of the peer |
| `RpmBatched.AcceptablePrefix` | client/rpm_batched.go:71-92 | a batch that fits still fits with references taken off its end |
| `RpmBatched.GroupLoop` | client/rpm_batched.go:72-83 | the grouping closure makes one part of consecutive references to one specification |
| `RpmBatched.Grow` | client/rpm_batched.go:104-114 | a batch is grown as far as it fits the budget and the cap, and no less |
| `RpmBatched.MergeGroup` | client/rpm_batched.go:133-137 | joining the results of a batch part by part is joining them reference by reference |
| `RpmBatched.MergeIsUnbatched` | client/rpm_batched.go:56-70 | joining all references in order gives the unbatched read |
| `RpmBatched.Collect` | client/rpm_batched.go:128-138 | results that match their requests are appended to their specifications |
| `RpmBatched.ReadUnits` | client/rpm_batched.go:96-141 | the batch loop: what was read so far, what was sent, and how many transactions that took |
| `RpmBatched.ReadBatched` | client/rpm_batched.go:40-142 | against a device that answers each reference independently, success gives exactly the unbatched result; every request of two or more references fits budget and cap; transactions are at most the references plus floor(log2 cap); and a willing peer and a sufficient batch limit guarantee success; a batch refused as too large is followed by its first half |
| `CovEngine.HandOffKept` | server/cov.go:203-236 | every step of kick and run keeps: at most one evaluator, and anything pending on an open subscription has one |
| `CovEngine.EveryRun` | server/cov.go:110-236 | in every interleaving with subscribing, cancelling, expiry and object removal: one evaluator at most, no change or initial notification without one until the subscription or server closes, and one open subscription per key within the limit |
| `CovEngine.EvaluationTakesAll` | server/cov.go:203-236 | an evaluation takes up everything pending, and its notification is forced just when an initial one was pending |
| `CovEngine.GoroutineGetsOn` | server/cov.go:222-236 | the goroutine starts, evaluates whatever is pending on an open subscription, comes back, and ends only when nothing is |
| `CovEngine.SweepExactly` | server/cov.go:142-175 | expiry closes exactly the subscriptions whose end has come, removal of an object those without another target, and neither touches any other |
| `CovEngine.UpsertExactly` | server/cov.go:110-129 | subscribing is refused just when the key is new and the table full; else the key has a new open subscription with that end and those targets and its old one is closed |
| `CovEngine.CancelExactly` | server/cov.go:131-140 | cancelling closes the subscription of the key and no other |
| `CovEngine.ClosedIsSilent` | server/cov.go:222-236 | after a subscription is closed no evaluation of it begins |
| `CovEngine.TableKept` | server/cov.go:110-175 | every operation keeps open and in the table the same thing |
| `CovEngine.CovSub.Kick` | server/cov.go:203-218 | the flags after a kick, and whether a goroutine must be started |
| `CovEngine.CovSub.Head` | server/cov.go:222-235 | the flags after the loop head, and whether to evaluate |
| `CovEngine.CovTable.Upsert` | server/cov.go:110-129 | a subscription is refused for its lifetime or for lack of room, else replaces the one of its key |
| `CovEngine.CovTable.SweepLoop` | server/cov.go:142-175 | the passes over the table close and drop exactly the subscriptions concerned |
| `CovThreshold.SignificantIsNotWithin` | server/cov.go:339-357 | a value is significant exactly when it is not within its increment of the last one |
| `CovThreshold.Evaluate` | server/cov.go:238-283 | the loop over the references notifies and remembers as specified, whatever becomes of the notification |
| `CovThreshold.SilentIffWithin` | server/cov.go:238-283 | after any run, an evaluation that may initiate is silent exactly when it is not forced and every value read is within its increment of the value last put into a notification |
| `CovThreshold.NoticeCarriesReads` | server/cov.go:238-337 | a notification carries what was read, goes out only when the device may initiate, and is remembered; silence changes nothing |
| `CovThreshold.SilenceBoundsSentIff` | server/cov.go:276-335 | after any run, for a reference that reads REALs: every silent evaluation that may initiate leaves the value read within its increment of the value last sent, if and only if nothing is remembered, the reference has a negative increment, or the value last sent is the one remembered |
| `CovThreshold.DeliveredRunsAreBounded` | server/cov.go:276-335 | as long as every notification is encoded and sent without an error, silence bounds the value read by the value last sent |
| `CovThreshold.UnsentIsRemembered` | server/cov.go:276-335 | a first notification that is not encoded or not sent is remembered as if it were, and breaks that promise |
| `ReadRange.SentIffWithinBudget` | server/responder.go:204-223 | a reply is sent, and not aborted for its size, exactly when it is within the response budget or fits one APDU |
| `ReadRange.SizeMonotone` | service/read_range.go:295-344 | the encoded reply never gets smaller as items are added, nor encodable again |
| `ReadRange.FlagsRoundTrip` | service/read_range.go:77-102 | the three result flags read back |
| `WireForms.FlagsExactly` | server/handlers_range.go:56-89 | the result flags say whether the reply holds the first item of the list, the last, and not all that was asked for |
| `WireForms.ReplyIsTree` | service/read_range.go:295-344 | the encoded reply is the print of its tree of tags: object, property, index, flags, count, items and first sequence number |
| `WireForms.MaxSegmentsCodes` | server/responder.go:234-261 | the max-segments codes stand for powers of two up to 64, or no limit |
| `ReadRange.Search` | server/handlers_range.go:76-79 | the binary search finds the first item count that is too large |
| `ReadRange.Reply` | server/handlers_range.go:56-89 | the reply holds the largest prefix that fits, fails exactly when an item cannot be encoded, and is never size-aborted when an empty reply would fit |
| `ReadRangePager.OnePage` | server/object/trendlog.go:240-329 | a page holds the items from its reference on, and one that ends the paging has reached the end of the list unless it is short |
| `ReadRangePager.BeginNames` | server/object/trendlog.go:170-173 | a sequence number names the record that carries it, in a log across the highest number too |
| `ReadRangePager.NextPage` | client/read_range_pager.go:95-110 | a page that does not end the paging is followed by one that starts where it stopped |
| `ReadRangePager.ReadPages` | client/read_range_pager.go:60-114 | the loop over pages computes the specified paging |
| `ReadRangePager.PagesExact` | client/read_range_pager.go:40-115 | every paging reads the list from the reference on; when it is not marked partial, items are missing exactly when it is by sequence number from a log across the highest number, or from before the first record with a range that ends before the log does and is answered in full |
| `ReadRangePager.PagesComplete` | client/read_range_pager.go:40-115 | when no request fails and no limit is as small as the log, paging from an anchored reference reads the list from there to its end and is not marked partial |
| `ReadRangePager.PagesFailHonestly` | client/read_range_pager.go:60-66 | paging ends in an error only when a request failed, or by sequence number through a log across the highest one |
| `ReadRangePager.ReadAll` | client/read_range_pager.go:40-115 | the same for the source's loop with its defaults; and it stopped at a limit on items or octets just when that was reached |
| `ReadRangePager.ShortPaging` | client/read_range_pager.go:86-93 | records 10 to 12 read from number 5 with count 6 end after record 10, not marked partial |
| `ReadRangePager.WrappedPaging` | server/object/trendlog.go:281-292 | a log across the highest number answers a read from its first record with nothing, not marked partial |
| `AuditList.FieldsSpan` | service/audit.go:114-204 | the fields of a notification start at tag 2 or before and end at tag 10 or after |
| `AuditList.EncodeThenDecode` | service/audit.go:249-268 | every list of notifications, of any length, splits at exactly the original boundaries of its fields |
| `AuditList.DecodeThenEncode` | service/audit.go:253-268 | whatever list of fields decodes is the list of fields of what it decodes to |
| `AuditList.DecodeLoop` | service/audit.go:336-459 | the loop over the fields of one notification rejects foreign tags and missing mandatory fields and collects the others |
| `AuditList.SplitLoop` | service/audit.go:253-268 | the splitting loop decodes exactly the maximal runs of increasing tags |
| `AuditRequest.RequestOctets` | service/audit.go:210-247 | a request is its notifications, at least one, between opening and closing tag 0, and fails to encode just when a content does; decoding never gives none |
| `AuditRequest.RequestRoundTrip` | service/audit.go:210-247 | every encodable request with a notification decodes from its octets, exactly when it is within the parser's limits, to the same notifications with contents in the parser's normal form |
| `SubscriptionStream.EveryRun` | client/cov.go:133-178 | over every run events are numbered consecutively from 1, Gap is set exactly when an event was dropped since the last non-terminal one, Closed comes last, and publishing it always finds its slot |
| `SubscriptionStream.NothingFollows` | client/cov.go:133-178 | nothing is queued after the end |
| `SubscriptionStream.SendExactly` | client/cov.go:133-178 | an event is queued as it is when there is room, and else dropped, which degrades the subscription; the last event always has room |
| `SubscriptionStream.StepsExactly` | client/cov.go:118-131 | taking an event, changing the state, conditionally so, and a failed opening, exactly |
| `SubscriptionStream.Subscription.TrySend` | client/cov.go:133-178 | the mutable stream accepts, drops or ends as specified |
| `Registry.MergedIsLatestOfHighest` | client/registry.go:306-313 | a merged capability is the latest supplied among those of highest source rank, and unknown only if none was known |
| `Registry.RanksInOrder` | client/registry.go:282-295 | user settings outrank the device object, which outranks an I-Am, which outranks a guess |
| `Registry.KeptExactly` | client/registry.go:169-187 | expiry keeps everything without a TTL, and else what was seen less than the TTL ago |
| `Registry.RetainedCapability` | client/registry.go:297-313 | for every retained key each capability is the latest supplied of highest rank since the key was added |
| `Registry.DeviceRegistry.RemoveKey` | client/registry.go:263-280 | both maps lose the key and stay each other's index |
| `Registry.DeviceRegistry.Expire` | client/registry.go:169-187 | drops exactly the observations as old as the TTL |
| `Registry.DeviceRegistry.LeastRecentlySeen` | client/registry.go:234-261 | finds a key of the scope that no other was seen before |
| `Registry.DeviceRegistry.EnforcePaths` | client/registry.go:189-211 | evicts, least recently seen first, as many paths of the instance as are in the way and no more |
| `Registry.DeviceRegistry.EnforceTotal` | client/registry.go:213-231 | evicts, least recently seen first, as many observations as are in the way and no more |
| `Registry.DeviceRegistry.MakeRoom` | client/registry.go:189-232 | evicts one path of the instance when they are at their cap and then one observation when all are, each least recently seen in its scope, and nothing more |
| `Registry.RoomIsFree` | client/registry.go:189-232 | below both caps nothing is evicted |
| `Registry.DeviceRegistry.Upsert` | client/registry.go:123-167 | keeps the two maps an exact index of each other and both caps; nothing as old as the TTL remains; the key is retained with merged capabilities, or added after making exactly the room it needs from least recently seen keys; all else is unchanged |

## Left out

- UDP sockets, interfaces, contexts, goroutine start-up, logging and diagnostics:
  environment; their effects are steps, parameters or failures that may come at
  any time.
- Bodies of APDUs other than confirmed requests, ComplexACKs and SegmentACKs:
  the parser model only tells their kind.
- Values of REAL and DOUBLE in the tag codec are bit patterns, character strings
  are octets with their set, and lengths are 64-bit, so the check that a length
  fits a 32-bit platform does not appear.
- CovThreshold.SilentIffWithin: REAL values are mathematical reals; rounding of
  the float32 subtraction, NaN and infinities are not modelled.
- CovThreshold.Evaluate: the notification's other fields (remaining lifetime,
  time of change) are not modelled, and its encoding and sending are one flag.
- ReadRangePager.ReadAll: positive counts against a log that does not change and
  always answers with at least one item it has; backward counts and paging of
  individual log-record fields are not modelled. A query whose bounds are no range
  of the buffer counts as a failed request.
- AuditList.EncodeThenDecode: a field is its tag and an opaque content.
- AuditList.DecodeThenEncode: holds of fields; the source's decoding of a comment
  drops its character set, which is not modelled.
- AuditList.DecodeLoop: the checks of each field's content (timestamps, recipients,
  property references, numbers and values) are not modelled.
- AuditRequest.RequestRoundTrip: contents come back in the parser's normal form; the
  conversion between that and the typed fields is not modelled.
- SegmentedRequest.EndToEnd: datagrams of an earlier transaction under the same
  invoke ID that are still in the network are not modelled.
- SegmentReceive.SegmentReceiver.Accept: the segment timer is not part of it; a
  timeout appears as the transaction ending at any time.
- Transactions.EveryRun: a completion is keyed by invoke ID as in the source, so
  nothing is claimed about a caller that completes an ID after it was reused.
- ForeignTable.ForeignDevices.Delete: deleting an entry that has expired but is
  still in the map reports success, as in the source.
- BbmdMesh.Delivery: the link layer loses nothing; BVLC-Result replies and the
  table-reading messages do not take part.
- ReplySend.SendSegments: a finite sequence of events followed by a timer that has
  run out for good; the SegmentACK channel's capacity is not modelled.
- The router cache of client/routing.go, Schedule, Calendar, alarm, file and trend
  recording objects: not modelled.
- Most per-service request and reply codecs in service/ (Who-Is, I-Am, file
  access, alarms, text messages and others): flat field loops that would only add
  easy members.
- Slice aliasing and ownership of decoded memory: values are immutable here.
