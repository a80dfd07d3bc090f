# NFC stack: WLC sub-module, NCI connection registry and the casimir emulator core

This project models and verifies five parts of an Android NFC stack. Each is
written in Dafny in the form the original code has.

- **NFA Wireless Charging (WLC) sub-module** (C++). It has three layers:
  - The application interface (`NFA_WlcEnable`, `NFA_WlcStart`,
    `NFA_WlcStartWPT`) checks the parameters and posts one request message.
  - The event handler routes each message by the low byte of its event id
    through a three-entry action table.
  - The actions check the live state of the device manager and of the
    reader/writer module. Then they store the callback, mark the RF
    interface extension active, or forward a wireless-power-transfer
    request.

  The control block `nfa_wlc_cb` is a class. So are the device manager's
  control block and the NFA system services: the message queue, the
  registration, the callbacks made and the requests forwarded. The
  reader/writer state is an input value. Buffer allocation is a boolean
  input that says whether a buffer was available.
- **NCI logical-connection registry** (Rust, `nci.rs`). This is a class over
  a map from Conn ID to connection parameters. It covers:
  - credit-based flow control: one queued packet sent per NFCC credit;
  - segmentation of an outgoing payload into chunks with Packet Boundary
    Flags;
  - reassembly of incoming fragments into one `NFC_DATA_CEVT` event.

  The small notification-handler registry is modelled too. A Rust panic
  (a failed `assert!`, an overflowing `u8` addition, an `unwrap` of `None`)
  is an explicit `Panicked` outcome.
- **casimir NFCC emulator controller** (`controller.rs`). It models:
  - the configuration-parameter table behind CORE_SET_CONFIG and
    CORE_GET_CONFIG;
  - the two-slot logical-connection table behind CORE_CONN_CREATE and
    CORE_CONN_CLOSE;
  - the configuration status that CORE_RESET reports.

  Each handler is a method that updates the table and returns the response
  it would send.
- **casimir transport framing and device table** (`main.rs`):
  - `NciWriter::write` segmentation is modelled as appending segments to a
    sequence;
  - `NciReader::read` reassembly is modelled as consuming a byte stream;
  - `Scene` is a two-slot device table.

  Segmentation and reassembly follow the rules of NFC Forum NCI.
- **Protocol and technology conversions** (`packets.rs`) between the RF and
  NCI enumerations.

Every method is verified against a specification function or an explicit
statement of the new state. Lemmas prove the properties the code and its
comments promise about those functions. These include:
- read-after-write of the transport;
- the segmentation shape;
- no duplicate connections in the controller table;
- credit accounting;
- one start event and one data event per received message;
- mutual inverses for the protocol conversions.

Where the specification of the WLC module and the code disagree, the model
follows the code:
- `nfa_wlc_start` does not set `NFA_WLC_FLAGS_NON_AUTO_MODE_ENABLED` on
  success. It sets two device-manager flags instead, so a second start
  succeeds too (`NfaWlcAct.StartTwice`).
- `nfa_wlc_sys_disable` only deregisters the module. It does not clear the
  callback or the flags (`NfaWlcMain.SysDisable`).
- A rejected `NFA_WlcStartWPT` returns 0, which is `NFA_STATUS_OK`, not an
  error (see Findings).

Files:
- `bytes.dfy`: machine integers, `Option` and `Result`.
- `nci_packets.dfy`, `rf_packets.dfy`: the packet vocabulary.
- `casimir_packets.dfy`, `casimir_controller.dfy`, `casimir_transport.dfy`:
  the emulator.
- `nci_connections.dfy`: the Rust NCI registry.
- `nfa_wlc_types.dfy`, `nfa_wlc_api.dfy`, `nfa_wlc_act.dfy`,
  `nfa_wlc_main.dfy`, `nfa_wlc_flows.dfy`: the WLC module.

## Model

| member | source | states |
|---|---|---|
| NfaWlcTypes.WlcControlBlock.EventNotify | src/nfa/wlc/nfa_wlc_main.cc:103-111 | The stored callback is called exactly once with the given event and data when one is stored. With none stored, nothing happens. |
| NfaWlcApi.PowerAdjReqRanges | src/nfa/wlc/nfa_wlc_api.cc:157-164 | A POWER_ADJ_REQ is accepted exactly when it lies in [0x00..0x14] or [0xF6..0xFF]. |
| NfaWlcApi.WptTimeIntRange | src/nfa/wlc/nfa_wlc_api.cc:166-173 | A WPT_INT_TIME is accepted exactly when it is at most 0x13. The mask test 0xC0 never rejects a value the range test accepts. |
| NfaWlcApi.Enable | src/nfa/wlc/nfa_wlc_api.cc:58-80 | A null callback returns FAILED and posts nothing. With a callback and a buffer, one ENABLE message carrying the callback is posted and OK is returned. Without a buffer, FAILED is returned and nothing is posted. |
| NfaWlcApi.Start | src/nfa/wlc/nfa_wlc_api.cc:101-123 | A nonzero mode returns INVALID_PARAM and posts nothing. Mode 0 with a buffer posts one START message with mode 0 and returns OK. Mode 0 without a buffer returns FAILED and posts nothing. |
| NfaWlcApi.StartWptStatus | src/nfa/wlc/nfa_wlc_api.cc:151-188 | As written, the status is only ever OK or FAILED. It is FAILED exactly when both parameters are valid and no buffer is available. |
| NfaWlcApi.StartWptStatusAsWritten | src/nfa/wlc/nfa_wlc_api.cc:160-173 | As written, OK is returned exactly for a request that posts and for a request rejected for its parameters. |
| NfaWlcApi.StartWptRejectionReadsAsOk | src/nfa/wlc/nfa_wlc_api.cc:160-164 | POWER_ADJ_REQ 0x50 with WPT_INT_TIME 0x05 posts nothing, yet the status it returns equals NFA_STATUS_OK. |
| NfaWlcApi.StartWpt | src/nfa/wlc/nfa_wlc_api.cc:151-188 | The status is the as-written status. The queue gains one NON_AUTO_START_WPT message holding exactly the two parameters when both are valid and a buffer is available, and nothing otherwise. |
| NfaWlcApi.StartWptStatusCorrected | src/nfa/wlc/nfa_wlc_api.cc:160-173 | With the rejection corrected, the status is OK exactly when the request posts, and INVALID_PARAM exactly when a parameter is invalid. |
| NfaWlcApi.StartWptCorrected | src/nfa/wlc/nfa_wlc_api.cc:151-188 | The corrected status, and the same queue effect as the as-written call. |
| NfaWlcAct.Enable | src/nfa/wlc/nfa_wlc_act.cc:44-66 | The message's callback is stored only when the DM is active and neither ENABLE_EVT_PEND nor DM_DISABLING_NFC is set. Otherwise the stored callback is kept. The message's callback is always called once with ENABLE_RESULT: OK on the store path, FAILED otherwise. The result is true. |
| NfaWlcAct.StartGuard | src/nfa/wlc/nfa_wlc_act.cc:91-133 | The start is allowed exactly when all of these hold: the mode is non-autonomous; NON_AUTO_MODE_ENABLED is clear; the discovery state is POLL_ACTIVE; the protocol is T2T, T3T, T5T or ISO-DEP; the RW API is not busy; and none of W4_RSP, W4_NTF, STOPPING, DISABLING is set. Any other mode is refused first. |
| NfaWlcAct.Start | src/nfa/wlc/nfa_wlc_act.cc:80-152 | The result is true exactly when the guard chain allows the start. On success the mode is recorded, RF_EXT_ACTIVE and WLCP_ENABLED are added to the DM flags, and START_RESULT(OK) is notified once. On failure nothing changes and no event is sent. The WLC flags are never written. |
| NfaWlcAct.StartTwice | src/nfa/wlc/nfa_wlc_act.cc:95-103 | A start that succeeded succeeds again when repeated, because the duplicate-start flag is left clear. |
| NfaWlcAct.NonAutoStartWpt | src/nfa/wlc/nfa_wlc_act.cc:163-172 | Exactly (power_adj_req, wpt_time_int) is forwarded to the DM's wireless-power-transfer start. The result is true. |
| NfaWlcMain.Init | src/nfa/wlc/nfa_wlc_main.cc:68-76 | The control block is cleared to flags 0, no callback and mode 0, and the module is registered. |
| NfaWlcMain.SysDisable | src/nfa/wlc/nfa_wlc_main.cc:88-92 | The module is deregistered. Its callback, flags and mode are kept. |
| NfaWlcMain.HandleEvent | src/nfa/wlc/nfa_wlc_main.cc:122-138 | Sub-event 0 runs enable, 1 runs start and 2 runs start-WPT, each with that action's full effect and result. Any other sub-event, REMOVE_EP_EVT included, changes nothing and returns true. The WLC flags and the queue never change. |
| NfaWlcMain.EvtToStr | src/nfa/wlc/nfa_wlc_main.cc:147-158 | Each of the three API events maps to its own name, each in both directions. Every other event maps to "Unknown". |
| NfaWlcMain.EvtToStrUnknown | src/nfa/wlc/nfa_wlc_main.cc:147-158 | REMOVE_EP_EVT and any id of another sub-system map to "Unknown". |
| NfaWlcFlows.EnableFlow | src/nfa/wlc/nfa_wlc_api.cc:69-77 | When the DM is ready and the queue is empty, enabling and then handling the message at the head of the queue returns OK, stores the callback, reports OK to it once and leaves the queue empty. |
| NfaWlcFlows.StartWptFlow | src/nfa/wlc/nfa_wlc_api.cc:151-188 | The API call (with its status corrected) followed by the start-WPT action of `nfa_wlc_act.cc` lines 163-172 on the message at the head of an empty queue. With the corrected status, a return of OK means exactly one forwarded request with the given parameters. Any other status means none. INVALID_PARAM is returned exactly for invalid parameters. |
| NciConnections.ConnectionParameters.FlushTx | src/rust/nci/nci.rs:141-146 | The send queue is emptied and every other field is kept. |
| NciConnections.Sendable | src/rust/nci/nci.rs:200-203 | The number sent is at most the credits and at most the queue length, and equals one of them. |
| NciConnections.DrainedPackets | src/rust/nci/nci.rs:200-203 | The packets sent number at most the credits. They followed by the remaining queue give the old queue, so they are a FIFO prefix. |
| NciConnections.Drained | src/rust/nci/nci.rs:196-205 | Afterwards no credit is left or nothing is queued. Each packet sent used exactly one credit. Callback, payload size and receive queue are kept. |
| NciConnections.DrainSettles | src/rust/nci/nci.rs:238-241 | Draining leaves a connection settled, changes it exactly when it was not settled, and sends nothing from a settled one. |
| NciConnections.ChunksShape | src/rust/nci/nci.rs:211-236 | The chunks of a long payload concatenate to it and all carry the packet's Conn ID and CR 0. Every chunk but the last is Incomplete and has exactly max bytes. The last is CompleteOrFinal and has between 1 and max bytes. |
| NciConnections.ZeroMaxSplitNeverEnds | src/rust/nci/nci.rs:213-222 | With a maximum of 0, any number of turns of the split loop leaves a non-empty payload whole, so the loop condition still holds. Each turn queues one empty Incomplete packet. |
| NciConnections.SplitTurnsFinish | src/rust/nci/nci.rs:213-232 | With a positive maximum, the split loop stops after finitely many turns with a payload that fits. The parts queued, plus the final part when bytes are left, are exactly the chunks. |
| NciConnections.QueuedPayload | src/rust/nci/nci.rs:211-236 | The queued payloads concatenate to the packet's payload. A fitting payload is queued as the packet itself. A longer one is queued as two or more fitting chunks with the packet's Conn ID, the last CompleteOrFinal. |
| NciConnections.DataEventLayout | src/rust/nci/nci.rs:261-279 | The data event is the status byte 0, then the first fragment's three header bytes, then the payloads of all fragments in order. |
| NciConnections.BuildDataEvent | src/rust/nci/nci.rs:265-275 | The buffer the loop fills is the data event of the receive queue. |
| NciConnections.Credited | src/rust/nci/nci.rs:249-251 | After adding credits that do not overflow, the connection is settled again, with callback, payload size and receive queue kept. |
| NciConnections.CreditedNothing | src/rust/nci/nci.rs:249-251 | Skipping the credit step for CR 0 matches adding 0 credits to a settled connection: nothing changes and nothing is sent. |
| NciConnections.ReceiveEvents | src/rust/nci/nci.rs:252-280 | With a callback present, a fragment sends DATA_START exactly when it is not final and nothing is queued. A non-final fragment is appended to the receive queue. A final one empties the queue and delivers exactly one DATA_CEVT with the data event of all queued fragments and itself. Only the receive queue changes. |
| NciConnections.ReceiveAllQueues | src/rust/nci/nci.rs:255-260 | Non-final fragments arriving while a message is in progress are queued in order, with no callback. |
| NciConnections.ReceiveMessage | src/rust/nci/nci.rs:246-281 | A message of non-final fragments and one final fragment, arriving on an idle connection with a callback, is announced once (if segmented) and delivered once. The delivery holds every fragment's payload in order, and the connection is left as it was. |
| NciConnections.LogicalConnectionsRegistry.Open | src/rust/nci/nci.rs:157-176 | The connection is stored with the given callback, payload size and credits and empty queues. A duplicate Conn ID replaces the old entry and then panics. |
| NciConnections.LogicalConnectionsRegistry.SetStaticCallback | src/rust/nci/nci.rs:178-186 | Only an open connection with id below 2, given a present callback, gets that callback. Nothing else changes. |
| NciConnections.LogicalConnectionsRegistry.Close | src/rust/nci/nci.rs:188-194 | The entry is removed and its callback returned. An unknown id returns None and changes nothing. |
| NciConnections.LogicalConnectionsRegistry.DrainSendQueue | src/rust/nci/nci.rs:200-203 | The connection becomes its drained form, and the HAL receives exactly the drained packets, oldest first. |
| NciConnections.LogicalConnectionsRegistry.AddCredits | src/rust/nci/nci.rs:196-205 | The credits are added, then the queue is drained. An 8-bit overflow panics with nothing changed. An unknown id changes nothing. Every connection stays settled. |
| NciConnections.LogicalConnectionsRegistry.SendPacket | src/rust/nci/nci.rs:208-243 | The queued chunks of the packet are appended to the send queue, then the queue is drained and the drained packets are sent. An unknown id changes nothing. |
| NciConnections.LogicalConnectionsRegistry.SendCallback | src/rust/nci/nci.rs:246-281 | The packet's credits are added first; an overflow panics with nothing changed. Then, on an open connection, the fragment is received as described by `Receive`. An unknown id changes nothing. |
| NciConnections.LogicalConnectionsRegistry.ReceiveFragment | src/rust/nci/nci.rs:252-280 | The queueing and callback part of `send_callback`, given by `Receive`. Nothing is sent to the HAL. |
| NciConnections.LogicalConnectionsRegistry.FlushData | src/rust/nci/nci.rs:284-291 | The result is true exactly when the connection is open. Then only its send queue is emptied. |
| NciConnections.EventRegistry.Register | src/rust/nci/nci.rs:302-308 | The handler is recorded. A second handler for the same opcode replaces the first and then panics. |
| NciConnections.EventRegistry.Unregister | src/rust/nci/nci.rs:311-313 | The handler for the opcode is removed and returned. With none, None is returned. |
| NciConnections.RegisterThenUnregister | src/rust/nci/nci.rs:302-313 | Registering a fresh opcode and then unregistering it returns the same sender and leaves the registry as before. |
| NciPackets.ToBytes | src/rust/nci/nci.rs:268 | A data packet serialises to three header bytes followed by its payload. |
| NciPackets.DataPacketRoundTrip | src/rust/nci/nci.rs:268 | Parsing a serialised data packet gives back the packet. |
| NciPackets.RfProtocolTypeFromCode | tools/casimir/src/controller.rs:246-249 | A protocol byte converts exactly when it is a code of the RF Protocols table, and converts to the protocol with that code. |
| CasimirController.ConfigStatusFor | tools/casimir/src/controller.rs:97-100 | The configuration is reported kept exactly for KeepConfig and reset exactly for ResetConfig. |
| CasimirController.ResetNotificationFor | tools/casimir/src/controller.rs:95-104 | CORE_RESET_NTF has trigger ResetCommand, NCI version 1.1, the mapped config status, manufacturer id 0 and no manufacturer data. |
| CasimirController.RfuIdsExact | tools/casimir/src/controller.rs:151-159 | The ids listed as invalid are exactly the command's RFU ids. None is listed exactly when the command has no RFU id. |
| CasimirController.StoredValues | tools/casimir/src/controller.rs:152-159 | The table gains exactly the command's non-RFU ids. Each holds the value of its last occurrence, and ids not mentioned keep their values. |
| CasimirController.FoundAll | tools/casimir/src/controller.rs:188-197 | Nothing is missing exactly when every requested id is in the table. Then the values come back one per id, in request order. |
| CasimirController.MissingExact | tools/casimir/src/controller.rs:188-197 | The missing list holds exactly the requested ids absent from the table, each with an empty value. |
| CasimirController.FirstFree | tools/casimir/src/controller.rs:227-229 | The chosen slot is free and every lower slot is taken. None is chosen only when every slot is taken. |
| CasimirController.ParseDestination | tools/casimir/src/controller.rs:233-263 | A destination is accepted exactly when all of these hold: it is a Remote NFC Endpoint; it has RF Discovery parameters only and at least one; and the last one carries a discovery id and a known protocol code. It then holds those values. Every refusal is REJECTED. |
| CasimirController.ConnCreateOutcome | tools/casimir/src/controller.rs:225-276 | Creation succeeds exactly when there is a free slot, the destination is accepted and it is not already open. A success uses the lowest free slot. Every failure is Rejected, and a full table is rejected whatever the destination. |
| CasimirController.ConnCreateResponseFor | tools/casimir/src/controller.rs:278-291 | A success response has OK, the conn id, max payload 255 and credits 0xff. A failure response has the status, conn id 0, payload 0 and credits 0xff. |
| CasimirController.ConnCreatePreservesDistinct | tools/casimir/src/controller.rs:265-273 | A successful create fills exactly the chosen, previously free slot. A failed one changes nothing. No two slots ever hold the same connection. |
| CasimirController.ConnCreateStoresDestination | tools/casimir/src/controller.rs:265-273 | The filled slot holds the described destination, which was open nowhere before. |
| CasimirController.Controller.constructor | tools/casimir/src/controller.rs:57-73 | A new controller has no configuration parameters and two empty connection slots. |
| CasimirController.Controller.CoreSetConfig | tools/casimir/src/controller.rs:148-183 | Every non-RFU parameter is stored in command order, even when others are rejected. The status is OK exactly when no RFU id was given, and the response lists the RFU ids in order. |
| CasimirController.Controller.CoreGetConfig | tools/casimir/src/controller.rs:185-220 | If every id is present, the response is OK with the values in request order. Otherwise it is INVALID_PARAM with the missing ids only, each with an empty value. The table is unchanged. |
| CasimirController.Controller.CoreConnCreate | tools/casimir/src/controller.rs:222-295 | The table becomes the table after create, and the response matches the outcome. The table never holds two equal connections. |
| CasimirController.Controller.CoreConnClose | tools/casimir/src/controller.rs:297-319 | An id of 2 or more, or an empty slot, is rejected with nothing changed. Otherwise that slot alone is cleared and OK is returned. |
| CasimirTransport.WithPbfBits | tools/casimir/src/main.rs:111-113 | Writing the PBF into header byte 0 sets bit 4 to the flag, which reads back, and keeps the other seven bits. |
| CasimirTransport.WithPbfMasked | tools/casimir/src/main.rs:111-113 | Rewriting the flag depends only on the bits other than bit 4, so rewriting an already rewritten byte is the same as rewriting the original. |
| CasimirTransport.WithPbfNoChange | tools/casimir/src/main.rs:111-113 | A byte whose flag already has the value written is unchanged. |
| CasimirTransport.SegmentsShape | tools/casimir/src/main.rs:99-125 | Every segment has a three-byte header and at most 255 payload bytes. Byte 2 is the payload length and byte 1 is the input's byte 1. Byte 0 is the input's byte 0 with PBF set on every segment but the last. There are max(1, ⌈n/255⌉) segments, and their payloads concatenate to the input payload. |
| CasimirTransport.EmptyPayloadSegment | tools/casimir/src/main.rs:103-123 | An empty payload produces exactly one header-only segment with length 0 and PBF clear. |
| CasimirTransport.NciWriter.Write | tools/casimir/src/main.rs:99-125 | The socket receives exactly the segments of the packet's payload, built from header bytes 0 and 1. |
| CasimirTransport.ReassembleStep | tools/casimir/src/main.rs:71-87 | One read step consumes a header and its payload. It stops with the packet at a clear PBF and goes on otherwise. |
| CasimirTransport.ReassembleSegments | tools/casimir/src/main.rs:58-88 | Reading back the segments of a payload yields header bytes 0 and 1 with PBF clear, the last segment's length, the gathered bytes and then the whole payload. The bytes after it are left unread. |
| CasimirTransport.ReadAfterWrite | tools/casimir/src/main.rs:97-99 | Take a packet whose PBF bit is clear and whose length byte is its last segment's length. Reading back what the writer emits for it returns the packet unchanged. |
| CasimirTransport.NciReader.Read | tools/casimir/src/main.rs:60-88 | The result is the reassembled packet, which carries the last segment's header, and the socket is left after it. A stream that ends inside a segment is an error. |
| CasimirTransport.RecipientsExact | tools/casimir/src/main.rs:194-205 | The recipients are exactly the occupied slots other than the sender's, in strictly increasing order. |
| CasimirTransport.Deliveries | tools/casimir/src/main.rs:195-202 | One delivery of the packet per recipient, in order. |
| CasimirTransport.Scene.constructor | tools/casimir/src/main.rs:158-166 | A new scene has both slots empty. |
| CasimirTransport.Scene.AddDevice | tools/casimir/src/main.rs:168-176 | The device goes into the lowest empty slot, with that slot's id, and no other slot changes. It is refused with nothing changed exactly when both slots are taken. |
| CasimirTransport.Scene.Poll | tools/casimir/src/main.rs:178-192 | Exactly the slots whose task failed are cleared. |
| CasimirTransport.Scene.Send | tools/casimir/src/main.rs:194-205 | The packet is delivered to the recipients in slot order, and the table is unchanged. |
| CasimirTransport.SendReachesOthers | tools/casimir/src/main.rs:194-205 | A device receives the packet exactly when it is present and is not the sender. No delivery goes to the sender. |
| CasimirPackets.NciProtocolFromRf | tools/casimir/src/packets.rs:35-48 | Converting an RF protocol to NCI and back gives the original protocol. |
| CasimirPackets.NciProtocolFromRfInverse | tools/casimir/src/packets.rs:50-63 | Converting an NCI protocol to RF and back gives the original protocol, so the two conversions are mutual inverses. |
| CasimirPackets.ProtocolConversionsInjective | tools/casimir/src/packets.rs:35-63 | Neither protocol conversion maps two protocols to the same value. |
| CasimirPackets.TechnologyFromNci | tools/casimir/src/packets.rs:65-79 | NFC-A, NFC-B and NFC-F poll or listen, and NFC-V poll, map to their technology. Every other value is the unchanged error. |
| CasimirPackets.OfTechnologyUnique | tools/casimir/src/packets.rs:68-75 | Each technology-and-mode value belongs to at most one technology. |

## Left out

- I/O and concurrency are not modelled: the TCP sockets, tokio channels,
  `select!` loops, timeouts and spawned tasks, and the `Arc`/`RwLock`/`Mutex`
  locking around the registries. The registries are plain maps. The HAL's
  data channel and the RF channels are sequences of what was sent.
- `src/rust/nci/api.rs` and `dispatch`/`init` in `nci.rs` are not part of this
  model. They await on generated command builders and response parsers that
  are not available.
- `Controller::run`, `tick` and the dispatch of `receive_command` are left
  out. So are `send_control`, `send_data` and `send_rf`, and the `todo!()`
  handlers `receive_data` and `receive_rf`. The reply-only handlers such as
  `core_init` are left out too: they hold no state. Only the configuration
  status of `core_reset` is modelled.
- The generated packet crates are not part of this model. The data packet
  layout, the RF Protocols codes, the NCI status codes and the
  technology-and-mode values follow the tables of NFC Forum NCI. Technology
  and mode values other than the seven the conversion names are one
  `Unlisted` variant.
- CasimirTransport.NciReader.Read: `PacketHeader::parse` on three bytes is
  taken to succeed. The socket is a byte string, so a socket error while
  waiting is the end of the stream.
- CasimirTransport.Scene.Send: a send error on a device's RF channel is not
  modelled. Every delivery succeeds.
- CasimirTransport.Scene.Poll: polling the controller task is an input per
  slot, Pending or Failed. `Controller::run` never returns Ok, and the source
  marks that arm unreachable.
- NciConnections.LogicalConnectionsRegistry.SendPacket: requires a maximum
  payload size above 0 when the payload is longer than it. With 0, the split
  loop of `send_packet` never ends (see Findings: `ZeroMaxSplitNeverEnds`).
  The packet is always the Payload child of `DataPacket`.
- NciConnections.LogicalConnectionsRegistry.AddCredits: the `u8` counter's
  overflow is a panic, as in a debug build. A release build would wrap
  instead. After a panic the registry is modelled as unchanged, and lock
  poisoning is not modelled.
- NciConnections.LogicalConnectionsRegistry.Open: the panic after a duplicate
  insert is an outcome. The caller's task ending is not modelled.
- The NFA system services are records, not code: `nfa_sys_sendmsg` (a
  queue), `nfa_sys_register`/`deregister` (a flag), `GKI_getbuf` (a boolean
  input), logging (omitted), and `nfa_dm_start_wireless_power_transfer` (a
  recorded request). The numeric value of `NFA_ID_WLC` is not available. An
  event id is its sub-system and its low byte.
- The NFA status codes are taken from the NCI status table (OK 0, FAILED 3,
  INVALID_PARAM 9). The header declaring them is not part of this model.
- The bits of `nfa_dm_cb.flags` and of `disc_flags` are sets of named flags,
  not bit masks. Their numeric values are in headers that are not part of
  this model.
- NfaWlcMain.HandleEvent: requires the message body to match its sub-event:
  enable, start or start-WPT for 0, 1 and 2. The C code reads the union
  through the member the sub-event names.
- `NFA_WLC_FLAGS_WPT_NTF_PENDING` is declared but never read or written by
  the modelled code, so it appears only as a constant.

## Findings

| source | as written | input that shows it | evidently intended | confidence | as-written member | corrected member |
|---|---|---|---|---|---|---|
| src/nfa/wlc/nfa_wlc_api.cc:163 | `NFA_WlcStartWPT` rejects an invalid POWER_ADJ_REQ or WPT_INT_TIME with `return false;`, which is 0, the value of NFA_STATUS_OK | power_adj_req 0x50, wpt_time_int 0x05: nothing is posted but the caller is told OK | a rejected parameter returns NFA_STATUS_INVALID_PARAM (or at least a non-OK status), as the function's comment "NFA_STATUS_FAILED otherwise" says | high, not executed | NfaWlcApi.StartWptRejectionReadsAsOk | NfaWlcApi.StartWptStatusCorrected |
| src/rust/nci/nci.rs:213-222 | `send_packet` splits with `p.split_to(max_payload_size)` while `p.len() > max_payload_size`; with a maximum of 0 each turn takes nothing, so the loop never ends and queues empty Incomplete packets without bound. `src/rust/nci/api.rs:157` opens the static RF connection 0 with a maximum of 0, and `nfc_send_data` (`api.rs:454-459`) passes every parsed packet to `send_packet` | `open(0, cb, 0, 0)`, then `send_packet(0, p)` with a 1-byte payload | `send_packet` ends on every connection the stack opens: the split loop runs only with a positive maximum, whereupon it queues the chunks | medium, not executed | NciConnections.ZeroMaxSplitNeverEnds | NciConnections.SplitTurnsFinish |
