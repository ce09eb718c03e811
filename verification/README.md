# A verified model of an SMPP 3.4 stack

SMPP carries short messages between an ESME and an SMSC over a TCP connection. This
project models the parts of a Go implementation in which order, state and arithmetic
decide correctness, and proves what they promise for every input, every run and every
interleaving. `dafny verify dfyconfig.toml` checks all of it.

## The four components

**The session correlation engine.** A request takes a window token, reserves lifecycle
state, draws a sequence number and enters the pending table; it is queued, batched,
written and given a deadline; and it is finished by a response, a timeout, its caller or
the loss of the session, all racing. `Correlation` is one step system in which each
locked region, atomic or channel operation is a step; `CorrelationLaws` is its inductive
invariant, `CorrelationResults` and `Reservations` what follows from it,
`ReservationOwners` that none is leaked, `Outcomes` what each winner leaves in the
machine, `Dispatching` how a queued request gets its deadline, `RequestRuns` the whole
life of one that is answered. `Lifecycle` is the bind and unbind machine,
`OperationMatrix` its operations by direction, `StateMachines` and `PendingTables` the
objects that hold the state, `TwoParty` an ESME and an SMSC composed over two FIFO
channels with the exchanges they complete in `Handshakes` and their bind agreement in
`BindFlow`, `BindAgreements`, `StaleBinds`, `HarmfulBinds`, `BindOwners` and
`StaleBindRun`, `Sequence` and `Allocation` the sequence numbers drawn by racing
callers, `TxLoop`, `TxLaws` and `TxAftermath` the batching transmit loop.

**The framer and the PDU codec.** `Framing` is the stateful stream splitter against the
pure one, `StreamShape` what both find in a stream. `Fields`, `Bodies`, `BodyLaws` and
`Pdu` are the wire format and its two inverse laws; `Formats` and `BodyFaults` say which
octets that format is, from the tables of SMPP 3.4, and which error a frame outside it
gets; `Decoders`, `Encoders` and `PduCodec` are the coders in the imperative form of the
source, proved against it; `EndToEnd` puts framer and decoder together.

**The deadline heap and its slots.** `HeapOrder` and `DeadlineHeap` are the indexed
binary heap with cancellation, `DeadlineRuns` any mix of its operations, `Wakeup` the
sleeping runner with its one-slot channel, `Inactivity` the self-rescheduling slot.

**Encoding and segmentation.** `Septets` is GSM 03.38 packing bit by bit and
`PackedNumbers` the same as arithmetic, `Gsm7` and `Unicode` the text encodings and
`Alphabet` which text gets which, `Splitters` the pair-safe splitters, `Concatenation` the
headers of GSM 03.40 sections 9.2.3.24.1 and 9.2.3.24.8 and the SAR parameters,
`Segmentation`, `Segmenters`, `SegmentLaws`, `SegmentCounts`, `PartSizes`, `PartHeaders`,
`WireLaws` and `Reassembly` the way out and back.

## What turned out false of the code

Each of these has a concrete run or input, and the condition under which the promise
holds.

- Two-party bind agreement can fail once a bind is accepted while the first answer still
  queued to the same bind command is a refusal: the refusal, committed first, takes the
  newer reservation, and the grant behind it is written without effect. Whether the grant
  binds the SMSC is an if-and-only-if (`AcceptedBindTakesEffectIff`,
  `FirstAnswerDecides`). Such an accept does no harm when the ESME no longer awaits that
  bind or is closed, whatever is answered (`BindAgreementUnlessHarmful`). Otherwise it is
  harmful: in every state that a run reaches, some continuation then breaks the agreement
  (`StaleAcceptCanBreakIff`, `HarmfulAcceptCanBreak`), and a harmful accept is reached from
  the start (`StaleAcceptBreaksAgreement`).
- A request inserted after the session has failed its pending requests can wait for ever
  (`LateInsertIsStranded`, `LateInsertCompletesIff`).
- A caller whose encoding fails cancels its reservation even when it has lost its request;
  after an unsolicited response that can take a newer bind's reservation
  (`UnsolicitedResponseLosesReservation`, `StepKeepsReservationsIff`).
- A framer callback that refuses a frame with a non-fatal error sees a frame that arrived
  in pieces again (`SoftRefusalReplays`, `FragmentationIndependenceIff`).
- The septets of a packed part do not follow from its user data alone when the packing
  ends in seven bits of padding: with an 8-bit header when their number is a multiple of
  eight, with SAR parameters or in a single part when it is seven more than that
  (`PackedContentRecoveredIff`, `PartRebuiltWithoutCountIff`,
  `SingleRebuiltWithoutCountIff`). Then a text and the same text with a commercial at
  behind it are sent alike (`TwoTextsOneUserData`).
- A session can be ended for inactivity less than T after an inbound PDU: after the decision
  to end it, exactly when a PDU that recent is recorded before the end (`EndedEarlyIff`),
  which can happen from every state in which the end is decided (`EndsDespitePdu`).

## Assumptions

- A sequence number is not reissued while something that carries it is still in flight: the
  guard of `Insert` in `Correlation`; for `BindAgreementUnlessHarmful` an answer, for
  `StaleAcceptCanBreakIff` a caller of the ESME that is not queued yet, because a reused
  number would let that caller remove another request's entry and leave its reservation to
  nobody; `BindAgreement` does without. Fewer than a full cycle of numbers is drawn during
  one caller's loop.
- Callbacks are total functions that do not panic. Time, randomness of scheduling, write
  outcomes and what a peer sends are parameters or free choices of a step.
- Text is a sequence of Unicode scalar values. Go integers are 64 bits wide; 32-bit and
  8-bit fields wrap where the source lets them.
- container/heap is its sift-up and sift-down. The sort in reassembly is an insertion sort; for
  parts with distinct sequence numbers every sort gives its result, and repeated numbers are
  refused.
- Errors are compared by kind, declared length and status; their texts, and the command and
  sequence number a fatal error may carry, are not.

## Model

| member | source | states |
|---|---|---|
| `Framing.FragmentationIndependence` | codec/framer.go:70-155 | For every stream and every way of cutting it into Feed calls, the frames emitted, the leftover octets, the fatal kind and declared length, and the stream state equal those of the one-shot split of the whole stream, when the callback accepts or fails fatally. |
| `Framing.FragmentationIndependenceIff` | codec/framer.go:70-155 | That independence holds for all cuts of all streams if and only if the callback never refuses a whole frame with a non-fatal error. |
| `Framing.SoftRefusalReplays` | codec/framer.go:116-126 | The failing family: a frame that arrived in two pieces and is refused without a fatal error stays buffered and is emitted a second time, although the one-shot split emits it once. |
| `Framing.PoisonedStaysSilent` | codec/framer.go:74-76 | After a fatal error no later call emits anything; the same error is reported each time. |
| `Framing.SplitAppend` | codec/framer.go:128-155 | Splitting a stream that continues is splitting what was left over with the continuation behind it. |
| `Framing.LeftoverIsIncomplete` | codec/framer.go:128-146 | What is left over never contains a complete or a refusable frame. |
| `Framing.Framer.Feed` | codec/framer.go:70-155 | The stateful Feed loop with its buffer, expected length and sticky failure computes exactly the specified frames, next state and error for every state and input. |
| `Framing.Framer.FeedBuffered` | codec/framer.go:79-126 | One turn with a non-empty buffer: what it emits and leaves is the split of the buffer followed by the data. |
| `Framing.Framer.FeedDirect` | codec/framer.go:128-152 | One turn with an empty buffer, working on the caller's data without copying whole frames. |
| `Framing.Framer.EmitFrame` | codec/framer.go:186-204 | A fatal callback error poisons the framer; any other error leaves its state alone. |
| `Framing.Framer.Fail` | codec/framer.go:206-218 | Poisons the framer with a fatal error of the given kind and declared length, and drops the buffer. |
| `Framing.Framer.ValidateLength` | codec/framer.go:176-184 | Fails exactly on a length below the header or above the maximum, with its kind, and changes nothing otherwise. |
| `Framing.Framer.Finalize` | codec/framer.go:159-174 | The end of the stream is an error if and only if octets are buffered, from the first one on, or the framer has failed: then that failure, else a truncated frame with the four octets at the front as its declared length, or 0 when there are fewer. |
| `StreamShape.SplitIff` | codec/framer.go:128-184 | What the one-shot split finds in a stream is exactly one thing: taken frames of 16 to max octets whose first four octets are their own length, then a frame the callback refuses, or four octets that declare too few or too many, or the beginning of a frame, or nothing. |
| `StreamShape.EndIsCleanIff` | codec/framer.go:159-174 | For every stream, every cut and a callback that accepts or fails fatally: the end is clean if and only if the stream is whole frames, one after the other, all taken; otherwise the error is the fatal one already reported, or a truncated frame with the declared length of what is left, or 0 below four octets. |
| `Fields.ReadPutC` | codec/fields.go:57-83 | Every C-Octet String that fits is read back, whatever follows it. |
| `Fields.ReadCSound` | codec/fields.go:57-71 | What ReadCString accepts is exactly what AppendCString writes, octet for octet. |
| `Fields.ReadPutTlvs` | codec/tlv.go:21-70 | Every list of optional parameters that fits is read back in order, duplicates kept. |
| `Fields.ReadTlvsSound` | codec/tlv.go:44-70 | Every accepted parameter area is the encoding of the list it was parsed to. |
| `Fields.ScanTLVs` | codec/tlv.go:21-41 | The offset loop reports and shows to its callback what the recursive scan does: an error at the first malformed parameter, an early successful stop when the callback declines. |
| `Fields.ScanIsRead` | codec/tlv.go:44-58 | A scan whose callback takes everything sees the parsed list. |
| `Fields.AppendTLV` | codec/tlv.go:60-70 | Appends exactly the encoded parameter, and refuses exactly values longer than 65535 octets. |
| `Fields.AppendOptional` | codec/smpp34.go:755-764 | Appends all parameters in order, and fails exactly when one does not fit. |
| `Fields.ReadPutMany` | codec/smpp34_extra.go:574-609 | A counted repetition is read back element by element, whatever the element format. |
| `Fields.ReadManySound` | codec/smpp34_extra.go:745-765 | An accepted counted repetition is the encoding of the elements read. |
| `Bodies.ReadPutMessage` | codec/smpp34.go:483-568 | The message part of submit_sm, deliver_sm and submit_multi is read back, for every message the encoder accepts. |
| `Bodies.ReadMessageSound` | codec/smpp34.go:483-536 | An accepted message part re-encodes to the same octets. |
| `Bodies.ReadPutDestList` | codec/smpp34_extra.go:562-609 | number_of_dests and the destinations are read back, for 1 to 254 destinations in normal form (a distribution list has no TON or NPI). |
| `Bodies.ReadDestListSound` | codec/smpp34_extra.go:562-609 | An accepted destination list re-encodes to the same octets. |
| `Bodies.ReadPutFailureList` | codec/smpp34_extra.go:740-810 | no_unsuccess and its entries are read back, for up to 255 entries. |
| `Bodies.ReadFailureListSound` | codec/smpp34_extra.go:740-765 | An accepted list of unsuccessful entries re-encodes to the same octets. |
| `BodyLaws.ReadPutBody` | codec/smpp34.go:220-753 | For every command and every typed body its encoder accepts (distribution lists in normal form, one-octet sc_interface_version), parsing the encoding gives the body back. |
| `BodyLaws.ReadBodySound` | codec/smpp34_extra.go:24-811 | Every body a parser accepts satisfies the encoder's conditions and re-encodes to exactly the octets parsed. |
| `Pdu.DecodeEncodePDU` | codec/pdu.go:30-106 | A PDU that encodes within the 32-bit length decodes to the same header (length filled in) and body if and only if it is canonical for its command and status. |
| `Pdu.EncodeDecodePDU` | codec/pdu.go:30-106 | Every accepted frame, at every command_status and in strict and compatible mode, re-encodes to itself octet for octet, except the bare successful deliver_sm_resp, which gains one NUL and is stable from then on. |
| `Pdu.DecodeEncodeBody` | codec/error_response.go:19-24 | Under any status a canonical body is encoded, and decoding under the same status gives it back; a failed response carries optional parameters only. |
| `Pdu.EncodeDecodeBody` | codec/smpp34.go:359-388 | Whatever is decoded under a status is canonical and re-encodes to the same octets, with the one deliver_sm_resp exception. |
| `Pdu.BareDeliverGainsNul` | codec/smpp34.go:709-753 | The exception in full: the empty successful deliver_sm_resp is written with a NUL message_id, and that frame is a fixed point. |
| `Pdu.HeaderOfPut` | codec/header.go:22-58 | The sixteen header octets are read back in network byte order. |
| `Pdu.ResponseAnswersRequest` | codec/pdu.go:108-117 | A response encoded under the header made from any frame carries that frame's four sequence octets, whatever number they are, and decodes with that number, its own command and status, and its body if that is canonical. |
| `Decoders.FindNul` | codec/fields.go:57-71 | The bounded NUL search agrees with the recursive reader, including both failure cases. |
| `Decoders.BodyReader.CString` | codec/smpp34.go:144-151 | Reads one C-Octet String and moves the offset past its NUL; the rest is exactly what follows. |
| `Decoders.BodyReader.Uint8` | codec/smpp34.go:153-160 | Reads one octet and moves the offset by one. |
| `Decoders.BodyReader.Uint32` | codec/smpp34_extra.go:15-22 | Reads four octets in network byte order. |
| `Decoders.BodyReader.Octets` | codec/smpp34.go:162-169 | Reads exactly n octets or fails. |
| `Decoders.BodyReader.Optional` | codec/smpp34.go:171-189 | Takes everything that is left as optional parameters. |
| `Decoders.BodyReader.RequireDone` | codec/smpp34.go:191-200 | Fails exactly when octets are left. |
| `Decoders.BodyReader.MessagePart` | codec/smpp34.go:483-536 | The field-by-field reader of the message part, including the payload conflict, agrees with the parser. |
| `Decoders.BodyReader.Destination` | codec/smpp34_extra.go:575-608 | One destination, by its flag; an unknown flag is a fatal loss of framing with the declared length. |
| `Decoders.BodyReader.Destinations` | codec/smpp34_extra.go:562-609 | The count check and the destination loop agree with the counted parser. |
| `Decoders.BodyReader.Failures` | codec/smpp34_extra.go:740-765 | The count and the entry loop agree with the counted parser. |
| `Decoders.DecodeBind` | codec/smpp34.go:220-261 | The bind request decoder agrees with the parser on every input, errors included. |
| `Decoders.DecodeBindResp` | codec/smpp34.go:303-322 | The bind response decoder, with its loop over sc_interface_version lengths, agrees with the parser. |
| `Decoders.DecodeShort` | codec/smpp34.go:447-537 | The common decoder of submit_sm and deliver_sm agrees with the parser. |
| `Decoders.DecodeData` | codec/smpp34_extra.go:24-75 | The data_sm decoder agrees with the parser. |
| `Decoders.DecodeReplace` | codec/smpp34_extra.go:347-400 | The replace_sm decoder agrees with the parser. |
| `Decoders.DecodeMulti` | codec/smpp34_extra.go:539-664 | The submit_multi decoder agrees with the parser. |
| `Decoders.DecodeMultiResp` | codec/smpp34_extra.go:735-771 | The submit_multi_resp decoder agrees with the parser. |
| `Encoders.AppendCString` | codec/fields.go:73-83 | Appends the value and its NUL, and refuses exactly values with a NUL inside or too long. |
| `Encoders.AppendMessage` | codec/smpp34.go:558-567 | Appends the message part, and fails exactly when a field does not fit. |
| `Encoders.AppendDestinations` | codec/smpp34_extra.go:697-712 | The destination loop appends every destination in order and stops at the first that does not fit. |
| `Encoders.AppendFailures` | codec/smpp34_extra.go:803-809 | The entry loop appends every unsuccessful entry in order. |
| `Encoders.EncodeBind` | codec/smpp34.go:263-291 | Succeeds exactly on bodies that fit, and appends exactly the body's octets. |
| `Encoders.EncodeShort` | codec/smpp34.go:539-568 | Succeeds exactly on short messages that fit, and appends exactly their octets. |
| `Encoders.EncodeReplace` | codec/smpp34_extra.go:402-434 | Succeeds exactly on bodies that fit, and appends exactly the body's octets. |
| `Encoders.EncodeMulti` | codec/smpp34_extra.go:679-723 | Succeeds exactly on submit_multi bodies that fit, and appends exactly the body's octets. |
| `Encoders.EncodeMultiResp` | codec/smpp34_extra.go:795-811 | Succeeds exactly on submit_multi_resp bodies that fit, and appends exactly the body's octets. |
| `PduCodec.DecodePDU` | codec/pdu.go:30-66 | The decoder with its dispatch agrees with the specification on every frame, fatal and semantic errors included; which frames and errors these are is `Formats.DecodesIffWellFormed`, `Formats.RefusedDecodesIff`, `Formats.FrameFaults` and `BodyFaults.BodyFaultIsFirst`. |
| `PduCodec.EncodePDU` | codec/pdu.go:70-106 | Whatever the buffer holds, what is appended is exactly the specified frame, with the header written back over the reserved octets; refused exactly when the specification refuses. Which octets these are is `Formats.EncodedIsFrame`. |
| `PduCodec.WriteHeader` | codec/header.go:46-58 | Writes the sixteen octets in place and touches nothing else; refuses a length below sixteen. |
| `PduCodec.AppendErrorBody` | codec/error_response.go:19-24 | Validates the body with the command's own encoder and appends its optional parameters only. |
| `Formats.PutBodyIsLayout` | codec/smpp34.go:263-753 | Every typed body is written as the concatenation of the fields of its table in SMPP 3.4 chapter 4, in that order, each octet for octet. |
| `Formats.FitsBodyIsLayout` | codec/smpp34.go:263-753 | A body is accepted for encoding if and only if every field is within the size of that table and the counts and the payload rule hold. |
| `Formats.KindIsFor` | codec/smpp34.go:46-74 | For every typed body and every 32-bit command_id: the registry gives that id this body if and only if SMPP 3.4 section 5.1.2.1 does (query_sm 0x03, cancel_sm 0x08, and so on). |
| `Formats.KindIsRegistered` | codec/smpp34.go:46-74 | A command_id is registered if and only if it is one of the 27 ids of the standard that version 3.4 gives a body. |
| `Formats.ResponsesAreRegistered` | protocol/command.go:8-42 | A request other than outbind and alert_notification is registered if and only if its id with the response bit is, and generic_nack is the only response without a request. |
| `Formats.EncodedIsFrame` | codec/pdu.go:70-106 | Every well-formed PDU (its command carries its body, the body is within the limits of the standard, its length fits 32 bits) encodes to sixteen header octets in network order, the length filled in, and the fields of the body in order. |
| `Formats.DecodesIffWellFormed` | codec/pdu.go:30-66 | A frame decodes with status zero to a header and a typed body if and only if the id carries that body, the body is within the limits of the standard and the frame is its layout, octet for octet, with its own length in front; the one exception is the bare deliver_sm_resp. |
| `Formats.RefusedDecodesIff` | codec/smpp34.go:359-388 | A registered response with a status other than zero, or one whose command has no body, decodes to a body if and only if the frame is the bare header and the body the empty one of its command, or the frame carries nothing but well-formed optional parameters and the body is these. |
| `Formats.FrameFaults` | codec/pdu.go:30-66 | Which error every frame gets that is too short, declares another length, carries an unregistered command (by mode), is a request with a status other than zero, or an unbind or enquire_link with octets behind the header. |
| `BodyFaults.BodyFaultIsFirst` | codec/smpp34_extra.go:24-811 | For every command and every octet string that is refused: the error is that of the first field, in the order of the standard, that cannot be read, with the status the standard gives it (0x01, 0x02, 0x33, 0xC2 or 0xC4) where it is not a loss of framing. |
| `EndToEnd.EveryFragmentationDelivers` | codec/framer.go:70-155 | Any list of canonical PDUs within the size limit, encoded, concatenated and cut into chunks in any way, comes out of the framer and the decoder as exactly the same headers and bodies, with nothing left over. |
| `EndToEnd.SplitOfFrames` | codec/framer.go:128-152 | The one-shot split of concatenated encodings is the list of encodings. |
| `Lifecycle.LifecycleSafety` | session/state.go:225-393 | Over every run of calls: at most one bind and one unbind reservation of each side, a pending bind only while Open or Outbound, phases only move forward (a bound session never returns to Open or Outbound), the bind mode never changes, and Closed is absorbing. |
| `Lifecycle.InvStep` | session/state.go:253-380 | Every call keeps the reservation invariant. |
| `Lifecycle.PhaseStep` | session/state.go:253-393 | No call moves a session back to an earlier phase or changes the mode it is bound in. |
| `Lifecycle.BecomesBound` | session/state.go:299-380 | A connected session becomes bound only by a successful answer to exactly the bind that holds the reservation. |
| `Lifecycle.BindReservationPersists` | session/state.go:253-297 | Until the request that holds it is settled, a bind reservation survives every other call and every other local bind is refused. |
| `Lifecycle.LocalUnbindRollsBack` | session/state.go:253-326 | After any calls that do not settle it, a cancelled or refused local unbind restores exactly the bound state it started from, and no second unbind was possible meanwhile. |
| `Lifecycle.PeerUnbindRollsBack` | session/state_cancel.go:9-22 | The same for an unbind the peer asked for, cancelled or refused. |
| `Lifecycle.CancelUndoesBegin` | session/state_cancel.go:9-22 | For every machine with the invariant and every command: what an accepted BeginOutbound did, CancelOutbound undoes exactly; CancelInbound undoes BeginInbound if and only if the command is not an outbind, which is never taken back. |
| `Lifecycle.MarkedBindsAsReceiver` | session/state.go:238-250 | After MarkOutbound the only bind an ESME may issue is bind_receiver, if and only if the session was connected. |
| `Lifecycle.EveryRequestCanBeAnswered` | session/state.go:106-156 | For every state, role and request: the other side may issue the response exactly where the request may be issued, and unbind_resp also while unbinding. |
| `OperationMatrix.Directions` | session/state.go:106-156 | From SMPP 3.4 section 2.3, for every state and role: an ESME alone may submit, query, cancel and broadcast, if and only if BoundTX or BoundTRX, and replace if and only if BoundTX; an SMSC alone may deliver and alert, if and only if BoundRX or BoundTRX; data_sm, enquire_link and unbind either side if and only if bound; binds the ESME if Open, bind_receiver also after the outbind of the SMSC; generic_nack unless Closed; nothing unknown. |
| `OperationMatrix.ResponseHasBit` | protocol/command.go:8-62 | A command has a response if and only if it is a request that is not one-way, and the response has its command_id with the response bit. |
| `OperationMatrix.CommandsAreRegistered` | codec/smpp34.go:46-74 | The codec has a body for every command of the machine but the broadcast ones. |
| `StateMachines.StateMachine.BeginOutbound` | session/state.go:253-278 | The locked method computes the specified machine from the current fields, and refuses exactly when the specification does. |
| `StateMachines.StateMachine.CancelOutbound` | session/state.go:280-297 | Clears or rolls back exactly the reservation of the command. |
| `StateMachines.StateMachine.CompleteOutbound` | session/state.go:299-325 | Settles the reservation by status: bound, closed, or rolled back. |
| `StateMachines.StateMachine.BeginInbound` | session/state.go:327-354 | The inbound counterpart, with the peer's role. |
| `StateMachines.StateMachine.CompleteInbound` | session/state.go:356-380 | Commits a response's effect before it is written. |
| `StateMachines.StateMachine.CancelInbound` | session/state_cancel.go:9-22 | Rolls back an inbound reservation. |
| `StateMachines.StateMachine.Close` | session/state.go:382-393 | Closes and clears every reservation. |
| `BindAgreements.BindAgreement` | session/tx.go:89-97 | In every run of an ESME and an SMSC over FIFO channels, with timeouts, cancellations, retries, reused numbers, unbinds, generic_nacks and closes interleaved, whenever the ESME is bound in a mode or unbinding from it the SMSC is bound in that mode, unbinding from it or closed, provided no bind is accepted while the first answer still uncommitted to its command is a refusal. |
| `Handshakes.BindIsExchanged` | session/rx.go:101-155 | Whenever both sides are quiet and Open, or Outbound for a bind_receiver, whatever else is in their tables: a bind can be exchanged, and leaves both bound as transmitter, receiver or transceiver by its command if granted, both exactly as they were if refused. |
| `Handshakes.UnbindIsExchanged` | session/state.go:299-380 | Whichever bound side unbinds, an exchange leaves both closed. |
| `Handshakes.OperationIsExchanged` | session/session.go:408-497 | Every other request that a state allows reaches the peer, can be answered either way and is completed by the answer, and neither machine changes. |
| `Handshakes.RefusedIsAnswered` | session/rx.go:128-155 | A request that the peer's state does not accept reaches it, is answered as refused and completed so, and leaves both machines as they were, when no bind or unbind of the asking side is under way there. |
| `Handshakes.NackCompletes` | session/rx.go:101-126 | A generic_nack completes the pending request with its number as refused, whatever its command. |
| `Handshakes.WithdrawnIsUndone` | session/liveness.go:35-46 | A request that times out or is cancelled while it waits leaves its side exactly as before it was begun, whatever is in flight. |
| `Handshakes.UnansweredIsUndone` | session/state_cancel.go:7-22 | An accepted request other than an outbind whose answer cannot be queued leaves its side exactly as before it came. |
| `Handshakes.OutbindIsExchanged` | session/state.go:253-278 | An outbind takes both sides from Open to Outbound. |
| `BindAgreements.BindAgreementUnlessHarmful` | session/rx.go:101-155 | The same where such accepts do happen, provided none is of a bind that the ESME, not closed itself, will still await when all that is in flight has arrived, and no number is issued again while an answer carries it. |
| `BindAgreements.StepInv` | session/rx.go:101-126 | Every step of either side keeps the agreement and the invariant on answers in flight, in both settings, unless it is one of the steps named there. |
| `BindAgreements.AcceptedBindTakesEffectIff` | session/state.go:356-380 | In any state, an accepted bind that is granted behind what is queued finds or makes the SMSC bound in its mode if and only if the first answer queued to its command is not a refusal; otherwise the SMSC stays connected. |
| `BindFlow.FirstAnswerDecides` | session/state.go:356-380 | For any queue of answers and any connected machine that holds the reservation: the first answer to that command alone decides what committing the whole queue does, and every later one goes out without effect. |
| `HarmfulBinds.HarmfulAcceptCanBreak` | session/rx.go:150-155 | From every state: once the SMSC accepts a bind that the ESME still awaits while the first answer queued to that command is a refusal, some continuation breaks the agreement, whatever the ESME reserves or has under way, as long as it is connected, may issue the command, and the reservation it holds, if any, has an owner. |
| `BindOwners.StaleAcceptCanBreakIff` | session/rx.go:150-155 | In every state that a run reaches, after a stale accept of a bind that the ESME still awaits the agreement can be broken if and only if the ESME is not closed. |
| `BindOwners.ReachedStep` | session/session.go:420-495 | Every step keeps that a bind reservation of the ESME has an owner, and that an SMSC that is Open has sent no outbind. |
| `StaleBindRun.StaleAcceptBreaksAgreement` | session/rx.go:150-155 | Such a state is reached from the start: some run binds the ESME as a transmitter to an SMSC that is still Open, and breaks the agreement. |
| `Correlation.Normalised` | session/session.go:186-194 | Whatever is configured, the window is positive and MaxPending is at least the window; positive values are kept otherwise, and 1024 stands for a missing one. |
| `CorrelationLaws.StepCore` | session/pending.go:47-165 | Every step of every party (caller, transmit loop, receive loop, deadline runner, termination) keeps the invariant on table, numbers, timers, channels and window. |
| `CorrelationResults.AtMostOnce` | session/pending.go:77-121 | In every reachable state a request is in the table or has one winner, at most one value is ever sent to it, and no send finds the capacity-1 channel full. |
| `CorrelationResults.WinnerIsFinal` | session/pending.go:77-121 | Over every continuation, the party that took a request out of the table stays its only winner. |
| `CorrelationResults.WinnerFinishes` | session/pending.go:94-121 | From every reachable state the winner's remaining steps are all enabled and leave exactly one value; what they leave in the machine is `Outcomes.EveryRequestEnds`. |
| `RequestRuns.RequestIsServed` | session/session.go:408-497 | From every state of the session that lets a request start (a token, a state that allows it, a free number, room in the table): it can be listed, queued, written, timed, answered either way and returned to its caller with one value; afterwards its deadline is cancelled, table, window and every other request are as before, and the machine is as the answer leaves it. |
| `Outcomes.WinnerSettlesMachine` | session/rx.go:101-126 | From every state with the invariant in which a won request holds its reservation, the winner's steps leave: a bind answered with status zero BoundTX, BoundRX or BoundTRX by its command and any other end of it the state as it was, with the reservation free; an unbind answered with status zero Closed and any other end of it the state it was begun from; and any other request nothing. |
| `Outcomes.EveryRequestEnds` | session/state.go:299-325 | The same over every run with a peer that answers no request before its frame is queued, for every request that has been won. |
| `Outcomes.GivingUpEnds` | session/session.go:420-468 | A caller that gives up before it has a number leaves the machine as a refused request does. |
| `Outcomes.UnbindGoesBack` | session/state.go:280-326 | Along every continuation the state an unbind goes back to is the one it was begun from, unless the session closes. |
| `CorrelationResults.EarlyRequestsAreTaken` | session/pending.go:109-121 | Once failAll has taken the table, every request inserted before has a winner; only late inserts are left in it. |
| `CorrelationResults.LateInsertCompletesIff` | session/session.go:453-497 | For a request inserted after failAll once the receive loop is gone: some continuation completes it if and only if its caller has not yet turned to waiting for the session's own completion. |
| `CorrelationRuns.LateInsertIsStranded` | session/session.go:493-497 | A complete run in which a late insert is stranded: its caller waits and no further step of anyone completes it. |
| `CorrelationResults.WindowConservation` | session/window.go:99-113 | In every reachable state the tokens taken equal the callers that have one and have not inserted, plus the table entries, plus the removed requests that have not released; no release underflows and the window is never exceeded. |
| `CorrelationResults.WindowEmptiesAtRest` | session/session.go:408-468 | When every request is terminal the window and the table are empty. |
| `CorrelationResults.InsertNeverHitsLimit` | session/session.go:186-194 | A caller about to insert always finds room, even if every other token holder inserts first, because MaxPending is at least WindowSize. |
| `CorrelationResults.NoLeakedTimer` | session/pending.go:130-165 | A deadline is in the heap only while its request is unfinished, between schedule and attach, or while finish is about to cancel it. |
| `CorrelationResults.NoResurrectedTimer` | session/tx.go:174-179 | Once a request is completed and the transmit loop is through with it, it has no deadline in the heap, now or in any continuation. |
| `CorrelationResults.ScheduledOnce` | session/tx.go:174-179 | scheduleItemAt is never called on an item that is in the heap or on its way out of it. |
| `Dispatching.DispatchedHasDeadline` | session/tx.go:174-179 | In every run in which all timeouts are positive, every request that is dispatched and not completed has its deadline attached and running or just expired. |
| `Dispatching.QueuedIsTimed` | session/tx.go:52-187 | A queued request that nobody completes meanwhile is written, marked and given its deadline by the next steps of the transmit loop, which are all enabled. |
| `Dispatching.DeadlineTakesRequest` | session/liveness.go:35-46 | From every state with the invariant the running deadline of a listed request can expire and then takes it out of the table as timed out. |
| `Reservations.StepKeepsReservationsIff` | session/session.go:424-429 | A step leaves every outstanding request its reservation if and only if it is not the deferred cancel of a caller that lost its request while that reservation is in use. |
| `Reservations.NoPartySettlesAnother` | session/liveness.go:35-46 | With a peer that answers no request before its frame is queued, in every interleaving no losing or late party ever completes or cancels a newer request's reservation. |
| `ReservationOwners.NoLeakedReservation` | session/session.go:420-497 | In every reachable state a local bind reservation, or a local unbind under way, has a request of that command that has begun and has yet to settle it: no interleaving leaks one. |
| `ReservationOwners.NothingReservedAtRest` | session/session.go:420-497 | So a session whose requests have all ended, none by the loss of the session, holds no local reservation. |
| `CorrelationRuns.UnsolicitedResponseLosesReservation` | session/session.go:472-479 | A complete run in which an unsolicited response and a failed encoding make the first caller's deferred cancel take a second bind's reservation. |
| `PendingTables.PendingRequest.Finish` | session/pending.go:145-165 | Sets finished, collects the deadline and the slot once, and does nothing on any later call; it is the winner's first step. |
| `PendingTables.PendingRequest.AttachDeadline` | session/pending.go:130-143 | Attaches the item, or asks for its cancellation when the request is already finished. |
| `PendingTables.PendingTable.Insert` | session/pending.go:47-58 | Refuses at the limit, then on a used number, and otherwise adds exactly the entry. |
| `PendingTables.PendingTable.TakeResponse` | session/pending.go:77-92 | Removes the entry exactly when the response is the one to its request's command or a generic_nack. |
| `PendingTables.PendingTable.Remove` | session/pending.go:94-103 | Removes the entry if it is there; its effect is the step that makes a winner. |
| `PendingTables.PendingTable.TakeAll` | session/pending.go:109-116 | Empties the table and hands every entry over exactly once. |
| `PendingTables.RequestWindow.TryAcquire` | session/window.go:54-89 | Takes a token exactly when one is free and keeps the high-water mark. |
| `PendingTables.RequestWindow.Release` | session/window.go:99-113 | Gives a token back, or counts an underflow exactly when none is out. |
| `Sequence.SequenceGenerator.Next` | session/sequence.go:13-24 | However many numbers others draw between the load and the swap of each turn of the compare-and-swap loop, the call ends and is one draw of its own after theirs, always in 1..0x7fffffff. |
| `Sequence.DrawsAreDistinct` | session/sequence.go:13-24 | Numbers stay in 1..0x7fffffff, and any full cycle of draws is distinct. |
| `Sequence.FailuresAreBounded` | session/session.go:451-467 | Against every interleaving of other callers, within a full cycle of draws, a caller's loop fails at most once per number that was in use or already drawn when it began. |
| `Sequence.AllocationSucceeds` | session/session.go:451-467 | Hence one of MaxPending + 1 attempts succeeds when every other caller holds a window token. |
| `Allocation.EveryCallerGetsANumber` | session/session.go:186-194 | In every reachable state of the session a caller that starts its loop gets a number and never meets the pending limit. |
| `Sequence.Allocate` | session/session.go:451-467 | The loop itself over a table nobody else touches: it returns an unused number, or reports the limit exactly when the table is full. |
| `DeadlineHeap.DeadlineManager.Push` | session/deadline.go:29-33 | Appends and sifts up: heap order, back-pointers and exactly one more item. |
| `DeadlineHeap.DeadlineManager.Remove` | session/deadline.go:34-42 | Removes exactly the item at an index, restores heap order by sifting down and then up, and sets its index to -1. |
| `DeadlineHeap.DeadlineManager.Swap` | session/deadline.go:24-28 | Exchanges two items and keeps every back-pointer right. |
| `DeadlineHeap.DeadlineManager.ScheduleItemAt` | session/deadline.go:59-72 | Adds exactly the item with its deadline, and signals exactly when it is earlier than everything in the heap; nothing for a timeout that is not positive. |
| `DeadlineHeap.DeadlineManager.Cancel` | session/deadline.go:74-88 | Removes exactly its item, or nothing when it is absent; signals exactly when the index was 0. |
| `DeadlineHeap.DeadlineManager.ExpireReady` | session/deadline.go:150-162 | Takes out exactly the items due by now, in non-decreasing order, with index -1, and leaves the rest. |
| `DeadlineRuns.DoAll` | session/deadline.go:20-162 | After any mix of schedule, cancel and expireReady the heap is ordered and holds exactly what the simple table from items to deadlines holds, and every absent item has index -1. |
| `HeapOrder.DownStep` | session/deadline.go:20-42 | One turn of sift-down moves the single misplaced entry to the smaller child and leaves only that place open. |
| `HeapOrder.UpStep` | session/deadline.go:20-42 | One turn of sift-up moves the single misplaced entry to its parent's place. |
| `HeapOrder.RootIsLeast` | session/deadline.go:153-155 | The head of the heap is a minimum. |
| `Wakeup.NeverLost` | session/deadline.go:59-148 | In every interleaving, if the runner sleeps until w or forever and something is due earlier, a wake token is in the channel or a signaller is on its way to send one. |
| `Wakeup.SleepsExactly` | session/deadline.go:59-148 | In every interleaving, as long as no token is in the channel and no signaller is on its way, the sleeping runner sleeps until exactly the earliest deadline, and forever only when the heap is empty: neither a schedule nor a cancellation of the root goes unnoticed. |
| `Wakeup.DueItemIsServed` | session/deadline.go:104-148 | A due item never waits on a runner that nothing will move. |
| `Wakeup.DueItemsExpire` | session/deadline.go:104-162 | From every reachable state in which something is due and the runner has not stopped, at most five steps, without the clock moving, expire everything that is due and nothing else. |
| `Wakeup.NeverExpiresEarly` | session/deadline.go:150-162 | An item leaves the heap only by its cancellation or by an expiry at or after its deadline, and keeps that deadline until then. |
| `Inactivity.SlotMeetsTheRule` | session/liveness.go:54-64 | In every run the open session's check is scheduled or running, and while it is bound the slot is never due later than T after the last inbound PDU or the last entry to a bound state. |
| `Inactivity.EndedEarlyIff` | session/liveness.go:94-114 | From every state in which the callback has just decided to end the session, along every continuation: the last inbound PDU is less than T old if and only if one of the steps since then recorded a PDU that recent. |
| `Inactivity.NeverEndedEarly` | session/liveness.go:94-114 | A session is ended for inactivity only after a decision that saw nothing come in for T, and not before T after the last inbound PDU unless one has been recorded since. |
| `Inactivity.EndsDespitePdu` | session/liveness.go:106-114 | From every state in which the end is decided some continuation ends the session at the very moment a PDU has been recorded. |
| `Inactivity.EndIsDecided` | session/liveness.go:94-106 | For every T such a state is reached from the start. |
| `Inactivity.SilentSessionEnds` | session/liveness.go:94-114 | A silent bound session ends when its slot fires, at the due time or any time later, or is rescheduled to exactly T after its last inbound PDU and ends there. |
| `TxLoop.TransmitLoop` | session/tx.go:52-187 | The loop with its batching, commit, write deadline, write and hand-back produces exactly the specified log of events and the specified deadlines for every queue history; what is in that log is `TxLaws` and `TxAftermath`. |
| `TxLoop.DrainQueue` | session/tx.go:72-87 | The draining loop takes exactly the items the specification takes and hands inactive ones back. |
| `TxLoop.Transmit` | session/tx.go:89-187 | Commit loop, deadline, write and aftermath, in that order, for a batch whose terminating item can only be last; who is told what is `TxAftermath.NoticesAreExact`. |
| `TxLaws.WritesAreFifo` | session/tx.go:52-136 | For every history the octets written are the frames of the items active when dequeued, in queue order, up to a batch whose write fails, and all of them when every write succeeds. |
| `TxLaws.BuffersReturnOnce` | session/tx.go:137-163 | For every history with one buffer per item, exactly the dequeued items' buffers are given back, each once, and none is read after it was given back. |
| `TxLaws.CommitPrecedesWrite` | session/tx.go:89-97 | For every history, between a write and the one before it exactly the responses it carries are committed to the state machine, one by one and in order. |
| `TxLaws.BatchesAreBounded` | session/tx.go:72-87 | For every history every batch respects the item and octet bounds and ends at a terminating item, and nothing is written after a failed write or a successful unbind_resp. |
| `TxAftermath.NoticesAreExact` | session/tx.go:137-187 | For every history, in order: the requests marked for their deadlines, and the items traced, are exactly those of the items written successfully; the one-way senders told of success are exactly those of the written items, and the ones told of an error exactly those of the batch whose write failed. |
| `TxAftermath.NoticesFollowWrites` | session/tx.go:137-187 | For every history every mark, trace and notice comes after the write that carries its item, and before the next write. |
| `TxAftermath.EndsExactlyWhenDue` | session/tx.go:137-187 | For every history the loop ends the session once and last if a write failed or a successful unbind_resp was written, and otherwise never and only when the queue is exhausted. |
| `TxAftermath.BatchesAreNotCutShort` | session/tx.go:72-87 | A batch is closed only by a successful unbind_resp, by its number of items or octets, or because nothing more is queued. |
| `TxLaws.WritesStartInTime` | session/tx.go:99-124 | For every history in which the clock does not go back, every write starts with at least half the write timeout left and at most all of it: under the deadline of the write before it as long as that leaves so much, and otherwise under one it has just armed. |
| `Septets.PackSeptetsWithFill` | encoding/gsm7.go:139-165 | The bit loops produce exactly the packed stream; refused exactly for a fill above 6 or a value above 0x7f. |
| `Septets.UnpackSeptets` | encoding/gsm7.go:169-191 | The bit loops read exactly the septets of the stream; refused exactly when the arguments or the data do not allow it. |
| `Septets.UnpackPack` | encoding/gsm7.go:139-191 | For every septet string and every fill, unpacking with the count and the fill gives the septets back. |
| `Septets.FillAndPaddingAreZero` | encoding/gsm7.go:149-151 | Fill bits and padding bits are zero. |
| `PackedNumbers.PackIff` | encoding/gsm7.go:139-165 | Without a word about bits: the packing is the one octet string of ceil((fill + 7n) / 8) octets that, read to base 256 lowest first, is two to the fill times the number whose digits to base 128 are the septets. |
| `Septets.CapacityIsCountIff` | encoding/gsm7.go:149-150 | The packed length is ceil((fill + 7n) / 8), and it gives the count back exactly when the padding is not seven bits. |
| `Septets.RecoverableIff` | encoding/gsm7.go:167-176 | Without the count, taking as many septets as fit, the septets come back if and only if (fill + 7n) mod 8 is not 1. |
| `Septets.PhantomSeptet` | encoding/gsm7.go:167-168 | In the failing family a trailing zero septet leaves no trace in the octets. |
| `Septets.PackInjective` | encoding/gsm7.go:139-165 | Septet strings, the empty one included, with the same packing are equal or differ by exactly that phantom septet. |
| `Gsm7.EncodeGSM7` | encoding/gsm7.go:68-85 | The rune loop computes the specified septets and fails exactly on text outside both tables. |
| `Gsm7.DecodeGSM7` | encoding/gsm7.go:88-115 | The septet loop computes the specified text and fails exactly on malformed input. |
| `Gsm7.DecodeEncode` | encoding/gsm7.go:68-115 | Every text that encodes decodes to itself. |
| `Alphabet.TableIsAlphabet` | encoding/gsm7.go:22-31 | The default table and a list of the alphabet by character are inverse, entry by entry. |
| `Alphabet.EncodeIff` | encoding/gsm7.go:22-85 | A text encodes if and only if every character is in the alphabet or its extension, to the septets of its characters one after the other; digits, Latin letters and most ASCII signs are their own septets. |
| `Gsm7.CutDecodes` | encoding/gsm7.go:88-115 | Cutting a decodable string anywhere but right after an escape leaves two strings that decode alone, to the two parts of the text. |
| `Gsm7.BuildReverse` | encoding/gsm7.go:51-58 | The table built at start-up is the inverse lookup of the default alphabet, escape and reserved entries left out. |
| `Unicode.EncodeUCS2` | encoding/unicode.go:48-64 | Fails exactly on text outside the BMP, and writes big-endian code units otherwise. |
| `Unicode.DecodeUCS2` | encoding/unicode.go:66-79 | Fails exactly on an odd length or a surrogate. |
| `Unicode.DecodeEncodeUcs2` | encoding/unicode.go:48-79 | Every BMP text survives UCS-2. |
| `Unicode.EncodeUTF16BE` | encoding/unicode.go:83-93 | Writes the UTF-16 code units of RFC 2781 section 2, big-endian. |
| `Unicode.CheckSurrogates` | encoding/unicode.go:103-114 | The validation loop passes exactly the strings that decode. |
| `Unicode.DecodeUTF16BE` | encoding/unicode.go:95-116 | Fails exactly on an odd length or an unpaired surrogate, and decodes otherwise. |
| `Unicode.Decode16Encode16` | encoding/unicode.go:83-116 | Every text survives UTF-16. |
| `Unicode.Encode16Decode16` | encoding/unicode.go:95-116 | What decodes re-encodes to itself: UTF-16 has one encoding per text. |
| `Unicode.DecodeSelected` | encoding/unicode.go:128-143 | Whatever representation SelectText picks, it decodes to the text. |
| `Alphabet.SelectionIff` | encoding/unicode.go:128-143 | A text is represented in septets if and only if the alphabet has every character, else in UCS-2 if and only if it is in the BMP, else in UTF-16 if and only if surrogates are allowed, and refused otherwise; the units counted are septets or code units. |
| `Alphabet.ScalarIff` | encoding/unicode.go:83-93 | The code units of a character are itself, or the one pair of surrogates that adds up to it. |
| `Splitters.SplitGSM7` | message/message.go:397-414 | The loop computes the specified parts for every input and limit. |
| `Splitters.SplitGsmSound` | message/message.go:397-414 | The parts are non-empty, join to the input, hold at most max septets and, but for the last, at least max - 1. |
| `Splitters.SplitGsmDecodes` | message/message.go:392-414 | Every part of a decodable string decodes alone, and the texts of the parts are the text of the whole: no escape pair is separated. |
| `Splitters.SplitGsmCount` | message/message.go:404 | The number of parts is bounded by the length. |
| `Splitters.SplitBytesLoop` | message/message.go:423-437 | The loop computes the specified parts. |
| `Splitters.SplitBytesSound` | message/message.go:423-441 | The parts join to the input and all but the last hold exactly max octets. |
| `Splitters.SplitUTF16` | message/message.go:446-484 | The loop over octets computes the specified parts, and fails exactly on odd length, unpaired surrogates or a limit below the width. |
| `Splitters.SplitUnitsSound` | message/message.go:446-484 | Well-formed input is always split: the parts join to it, hold at most max units and, but for the last, at least max - 1, each decodes alone, and their texts are the text of the whole: no surrogate pair is separated. |
| `Splitters.SplitUnitsCount` | message/message.go:453-482 | The number of parts is bounded by the number of units. |
| `Concatenation.ParseConcatUDH` | message/message.go:179-210 | The element loop agrees with the recursive search on every input, malformed headers included. |
| `Concatenation.ParseBuilt8` | message/message.go:169-210 | An 8-bit concatenation header is read back, whatever content follows. |
| `Concatenation.ParseBuilt16` | message/message.go:173-210 | A 16-bit concatenation header is read back, whatever content follows. |
| `Concatenation.ParseSAR` | message/message.go:291-319 | The parameter loop agrees with the recursive reader, last duplicate winning, and accepts exactly complete and consistent sets. |
| `Concatenation.ParseBuiltSar` | message/message.go:282-319 | The SAR parameters built for a part are read back. |
| `PartHeaders.ParseUdhIff` | message/message.go:179-210 | Octets are read as a concatenation with this reference, total, sequence and header length if and only if they start with a header of at least six octets in which, after any number of other elements, an element 00 03 or 08 04 with these values follows. |
| `PartHeaders.ParseSarIff` | message/message.go:291-319 | Parameters are read as this concatenation if and only if every sar_ parameter has its length, the last of each of 0x020c, 0x020e and 0x020f has these values, and the sequence is within the total. |
| `Segmentation.FillBits` | message/message.go:158-167 | At most six bits, and header and fill together end on a septet boundary. |
| `Segmenters.MakeSegments` | message/message.go:127-154 | The builder loops fill in exactly the specified parts, and refuse exactly no chunks or more than 255. |
| `Segmenters.SegmentText` | message/message.go:78-112 | Encoding choice, single or multipart, splitting and building, for all three carriers, give exactly the specified segments or error; how many and which these are is `PartSizes.PartNumber`, `PartSizes.PartsAreTight`, `PartHeaders.EveryPartIs` and `PartHeaders.OnlyPartIs`. |
| `Segmenters.SegmentBinary` | message/message.go:120-125 | The same for binary payloads. |
| `Segmenters.SegmentWithSAR` | message/message.go:327-390 | The SAR form, which goes the UDH way for one chunk or none. |
| `SegmentLaws.TextRoundTrip` | message/message.go:260-278 | Every text that segments, with any carrier, decodes to itself from the segments in any arrival order. |
| `SegmentLaws.BinaryRoundTrip` | message/message.go:120-154 | Every binary payload that segments, with any carrier, reassembles from the segments in any arrival order. |
| `SegmentLaws.ChunksSound` | message/message.go:92-108 | Splitting encoded content never fails, loses nothing and respects the room of a part. |
| `SegmentLaws.EveryChunkDecodes` | message/message.go:392-484 | Every chunk of a text decodes alone. |
| `SegmentLaws.EveryPartFits` | message/message.go:13-24 | Every packed, UCS-2, UTF-16 or binary part fits 140 octets, header included. |
| `SegmentLaws.HeaderRecovered` | message/message.go:127-154 | From the user data of a multipart part alone, the reference, total, sequence and header length come back. |
| `SegmentLaws.PlainContentRecovered` | message/udh16_unpacked.go:81-104 | Unpacked, UCS-2, UTF-16 and binary content is the octets after the header. |
| `SegmentLaws.PackedContentRecoveredIff` | message/message.go:138-144 | Packed content comes back with the septet count; from the user data alone if and only if the number of septets is not a multiple of eight. |
| `SegmentLaws.PackedContentIsAmbiguous` | message/message.go:54-58 | In the failing family two different parts have the same user data, so no reader can tell them apart. |
| `WireLaws.EverySegmentRebuilt` | message/message.go:127-167 | Every segment of every text and payload, with every carrier, is rebuilt field for field from what travels: kind, header indicator, user data, optional parameters and, where packed, the septet count. |
| `WireLaws.WireTextRoundTrip` | message/message.go:169-278 | Every text that segments comes back from the user data of all its parts, with their SAR parameters and septet counts, in any order. |
| `WireLaws.WireBinaryRoundTrip` | message/message.go:120-154 | Every binary payload comes back from the user data of all its parts and their SAR parameters, in any order. |
| `WireLaws.PartRebuiltWithoutCountIff` | message/message.go:158-167 | A packed part, with an 8-bit header or SAR parameters, is rebuilt without its septet count if and only if the packing does not end in seven bits of padding. |
| `WireLaws.SingleRebuiltWithoutCountIff` | message/message.go:78-112 | The same of a packed single part. |
| `WireLaws.TwoTextsOneUserData` | encoding/gsm7.go:167-168 | In the failing family a text and the same text with a commercial at behind it are sent as the same user data and parameters, in one part or in several. |
| `SegmentCounts.SegmentsIfShortEnough` | message/message.go:127-130 | For every carrier and kind: content of at most 255 times what every part is sure to hold segments, and content of more than 255 times what a part can hold does not. |
| `SegmentCounts.BinarySegmentsIff` | message/message.go:120-130 | A binary payload segments if and only if it has at most 255 times the octets of a part. |
| `PartSizes.RoomIsMaximal` | message/message.go:13-24 | For every carrier and kind the room of a part is the most that 140 octets hold beside its header, septets counted as packed from the next septet boundary on: one unit more does not fit. |
| `PartSizes.FitsOneIff` | message/message.go:83-91 | A message goes as one part without a header if and only if its packed or plain octets are at most 140. |
| `PartSizes.PartOctetsAre` | message/message.go:138-144 | A packed or plain part takes exactly the octets counted there. |
| `PartSizes.PartNumber` | message/message.go:78-112 | A message of at most 160 septets, 70 code units or 140 octets is one part without a header; a longer one is at least two parts, and their number p satisfies (p - 1) * least < units <= p * most for 153, 152 or 160 septets, 67, 66 or 70 code units, 134, 133 or 140 octets a part; least is most, so that p is exact, but for septets with escapes and for surrogates, where it is one less. |
| `PartSizes.PartsAreTight` | message/message.go:392-484 | Every part but the last holds that many units, or one less where the next part starts with an escape or a high surrogate. |
| `PartHeaders.EveryPartIs` | message/message.go:127-167 | Every part of a long message, for every carrier and kind: reference (cut to eight bits where the header has no more), total and sequence, kind, data coding 0x00, 0x04 or 0x08 and units; the octets of its header or its three sar_ parameters; and its content behind the header, plain or packed as that number; the contents together are the message. |
| `PartHeaders.OnlyPartIs` | message/message.go:83-91 | The one part of a short message has reference 0, total 1, sequence 1, no header, no parameters and the whole content. |
| `Reassembly.ReassembleLoop` | message/message.go:230-258 | Sorting, the duplicate check and the consistency loop compute the specified result. |
| `Reassembly.ReassembleAnyOrder` | message/message.go:230-258 | Complete consistent parts reassemble to their data in sequence order, whatever order they arrive in. |
| `Reassembly.ReassemblesIffComplete` | message/message.go:230-258 | Reassembly succeeds if and only if the segments are all parts of one message with none missing. |
| `Reassembly.DecodeTextSegments` | message/message.go:260-278 | Reassembles and decodes by the kind of the first segment. |

## Left out

- Sockets, TLS, dialing, listeners, reconnection, back-off, rate limits, inbound reply bookkeeping: I/O and timing plumbing, or easier than the chosen cores.
- Panic recovery, logging, observers, tracing, metrics, round-trip sampling.
- Registry building, vendor commands and the SMPP 5.0 bodies: they repeat the field patterns that are covered.
- Reflection on bodies and nil or pointer bodies: a body is a value, its optional parameters a field.
- Buffer capacities, size hints and the pool itself, beyond the single owner of a frame buffer.
- Delivery-receipt text, capability negotiation and the typed operation wrappers.
- The blocking half of acquire: waiting for a token is the step Acquire becoming enabled.
- The inUse counter of the window lags behind the token channel between two atomics; the step system counts tokens only.
- The session-init and enquire-link slots: they have the shape of the inactivity slot or are one-shot.
- EveryPartFits: says nothing about unpacked GSM 7-bit parts with a 16-bit header, which hold up to 159 octets by design.
- WinnerFinishes: proves that the winner's steps stay enabled and suffice, not that a scheduler takes them.
