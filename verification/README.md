# A verified model of the Apple device protocol stack

This project models the hand-written protocol layers of the repository and
proves what each of them is for. Most layers are a codec together with a
stateful reassembler, demultiplexer or transfer loop; the model has both, and
the main results span them.

Each layer has the same shape. Functions on values say what a step computes,
with the code's branches, constants, error cases and panics. Methods and
classes in the code's own form (vectors that grow, cursors, buffers drained in
loops, counters) are proved equal to those functions on every input. Lemmas
about the functions are the results.

| files | layer |
|---|---|
| `bytes`, `utf8`, `wrappers`, `stream`, `ids` | bytes and machine integers, UTF-8, streams cut into arbitrary reads, the 32-bit id allocators |
| `xpc`, `xpc_peer`, `xpc_roundtrip`, `xpc_codec` | the XPC binary codec, and what a peer may send |
| `h2`, `remote_xpc` | HTTP/2 frames and the RemoteXPC connection |
| `dtx`, `dtx_roundtrip`, `dtx_codec` | DTX messages, arguments and fragments |
| `dtx_conn`, `dtx_history` | the DTX connection as interleaved steps of callers, registrations, handlers and the reader thread, and what its states owe to the steps |
| `usbmux`, `usbmux_runs`, `usbmux_client`, `usbmux_sim` | the sans-IO usbmux codec, its runs, the client, the simulated server and both composed |
| `plist`, `nska`, `nska_build`, `nska_shape`, `xctest_config`, `nska_meaning` | NSKeyedArchiver: the decoder, the builders of object tables, and what archives mean |
| `der`, `base64`, `pem`, `calendar` | certificate encodings, their parsers, and dates |
| `tlv8` | the TLV8 codec |
| `afc`, `afc_device`, `afc_client` | file transfer over AFC against a modelled device |

`dafny verify dfyconfig.toml` checks all of it.

## Main results

- **XPC.** Decoding undoes encoding wherever the value was written, for every
  tree and every dictionary order, exactly for the values without a NUL in a
  string or key (`XpcRoundTrip.RoundTrip`). Whatever a peer writes decodes to
  what it means, and cut short at any byte to the failure that is due
  (`XpcPeer.PeerOutcome`). On every byte string decoding ends with recursion
  linear in its length (`XpcRoundTrip.DepthBounded`).
- **RemoteXPC.** However messages are cut into DATA frames among other frames,
  `receive` returns them in order (`RemoteXpc.Reassembly`); on every input
  and over every run payload bytes are conserved and each SETTINGS or PING is
  acknowledged once (`RemoteXpc.RunKeeps`, `RemoteXpc.RunOnWire`). A request
  returns the body of the first answer (`RemoteXpc.RequestAnswered`).
- **DTX.** Messages round trip, truncated argument lists decode to the
  arguments that fit, and fragmentation is transparent, acknowledgements
  included. Over every interleaving, callers get their own replies, the
  reader's reply never blocks, handlers receive their invocations in order
  (`DtxConn.HandlersReceive`), and one is left unanswered and undelivered
  exactly if its handler's receiver is gone (`DtxHistory.NeverNeither`). A reply is
  delivered exactly if its id was not given to another registered call meanwhile
  (`DtxConn.ReplyDelivered`), so none is lost before ids have run once around.
- **usbmux.** What the codec does never depends on read boundaries; connects
  are accounted for over every run; client and simulator composed agree with
  the device table, for lists, tunnels and announcements.
- **NSKeyedArchiver.** Decoding ends exactly where the references it follows
  lead into no cycle (`Nska.CyclesExactly`); the builders make tables with
  backward references only; the archived sysmontap configuration, test
  capabilities and test configuration decode to their meaning
  (`NskaMeaning.ArchiveConfiguration`).
- **DER, base64, PEM, calendar, TLV8, AFC.** The parsers undo the encoders
  exactly where the code allows it; dates are the unique Gregorian ones; a
  transferred file comes back unchanged, and whatever a device answers, the
  handle it gave is closed exactly once (`AfcTransfer.AfcClient.ReadFile`,
  `AfcTransfer.AfcClient.PutFile`).

Some promises do not hold of the code for all inputs. There the exact condition
is part of the statement: a NUL inside an XPC string or key
(`XpcRoundTrip.RoundTrip`), HTTP/2 payloads of 2^24 bytes and more
(`H2.FrameRoundTrip`), the type of a DTX message without a body
(`DtxRoundTrip.MessageRoundTrip`), DER contents of 65536 bytes and more
(`Der.PeelUndoesTag`), the first two arcs of an object identifier
(`Der.OidRoundTrip`), UTCTime from 2050 on (`Calendar.UtcRoundTrip`),
capability values that refer forward (`NskaBuild.CapsBackRefs`), cyclic object
tables (`Nska.CyclesExactly`), DTX ids that come round to a pending call
(`DtxConn.ReplyDelivered`), DTX handlers whose receiver is gone
(`DtxHistory.NeverNeither`), and PEM labels of several lines
(`Pem.TitlesExactly`; the callers pass only "CERTIFICATE").

Where the code and its comments disagree the code is followed: device id 0
selects the first simulated device although ids count from 1
(`src/usbmux/sim/handler.rs:116`); a RemoteXPC request is answered by any
message with the reply flag, not only the matching one
(`src/remotexpc/conn.rs:110`, `RemoteXpc.MatchingAnswer`); and the header of fragment 0 does not limit how
many bytes the sub-fragments hold (`src/dtx/mod.rs:416-450`).

## Model

| member | source | states |
|---|---|---|
| `Stream.Reader.ReadExact` | src/remotexpc/h2.rs:68-81 | However the network cuts the bytes into reads, exactly the next n come back and the rest stays unread; nothing comes back exactly when the stream ends first |
| `XpcRoundTrip.RoundTrip` | src/xpc/codec.rs:92-326 | Wherever a value was encoded, with any bytes before and after and its dictionaries visited in any order, decoding returns that value and exactly its end position, if and only if no string or key in it holds a NUL |
| `XpcPeer.PeerOutcome` | src/xpc/codec.rs:92-220 | Whatever a peer writes, dates, unknown scalars, flags of any byte, arbitrary padding and declared sizes beyond the children included, anywhere in a buffer that ends at any byte: decoding gives what it means and exactly its end, or the failure at the first byte that is missing or text that is no UTF-8, the panic at a key beyond the end included |
| `XpcPeer.OutcomeExactly` | src/xpc/codec.rs:92-220 | That is a success if and only if all texts and keys are UTF-8 and nothing but padding, unread bytes or slack at the very end is missing |
| `XpcPeer.PeerDecodes` | src/xpc/codec.rs:92-220 | So a whole value decodes to what it means: a date to the double of its bits, an unknown scalar to Null, every other entry unchanged |
| `XpcPeer.LeafRead` | src/xpc/codec.rs:97-165 | Every value without children, cut short anywhere |
| `XpcPeer.PeerItems` | src/xpc/codec.rs:167-181 | The array loop, whatever was read before it |
| `XpcPeer.PeerPairs` | src/xpc/codec.rs:183-204 | The dictionary loop, started after any number of entries; a later entry replaces an earlier one with its key |
| `XpcPeer.KeyStep` | src/xpc/codec.rs:188-202 | A key is found by its NUL, and without one, or not in UTF-8, it is refused |
| `XpcRoundTrip.LayoutSame` | src/xpc/codec.rs:246-326 | What the encoder writes is what a peer may write with the same meaning, byte for byte: by induction over the tree, for every iteration order |
| `Utf8.ValidExactly` | src/xpc/codec.rs:150-152 | A byte string passes as UTF-8 if and only if it encodes a sequence of Unicode characters (RFC 3629 sections 3 and 4) |
| `XpcRoundTrip.LayoutExists` | src/xpc/codec.rs:302-316 | Every value has an iteration order in which each key appears once, so the round trip speaks of every value |
| `XpcRoundTrip.DecodeOfEncode` | src/xpc/codec.rs:92-326 | Wherever a NUL-free layout was encoded, decoding gives its value and exactly its end |
| `XpcRoundTrip.DecodedNulFree` | src/xpc/codec.rs:141-204 | Whatever the bytes, a decoded value never holds a NUL in a string or key |
| `XpcRoundTrip.NulFreeOfLayout` | src/xpc/codec.rs:302-308 | Whether a value is NUL-free does not depend on the order in which its dictionaries are visited |
| `XpcRoundTrip.DepthBounded` | src/xpc/codec.rs:92-220 | On every byte string, whether it decodes or not and whatever sizes and counts it declares: with one call for each twelve bytes of buffer and one more under way at a time, decoding gives what it gives without a limit, so the recursion is never deeper than that |
| `XpcRoundTrip.NestingBounded` | src/xpc/codec.rs:92-220 | A value that was decoded nests by at most one level for each twelve bytes of buffer |
| `XpcRoundTrip.MessageRoundTrip` | src/xpc/codec.rs:46-244 | Decoding an encoded message followed by any bytes gives that message and its own length, if and only if its body is NUL-free |
| `XpcRoundTrip.MessageHeader` | src/xpc/codec.rs:225-244 | The magic, flags, body length and message id of an encoded message stand at their offsets, and the body follows |
| `XpcRoundTrip.PayloadLayout` | src/xpc/codec.rs:225-244 | A body stands after its own magic and version 5 |
| `XpcRoundTrip.PeerMessage` | src/xpc/codec.rs:46-90 | A message around any value that a peer writes has its meaning, whatever version it declares and whatever follows |
| `XpcRoundTrip.WrappedDecodes` | src/xpc/codec.rs:46-90 | Fewer than eight payload bytes are no body, another magic is refused, and a value that fails to decode fails the message |
| `XpcRoundTrip.MessageCut` | src/xpc/codec.rs:46-68 | A message cut short anywhere is too short, of its header or of what that declares |
| `Xpc.Pad4` | src/xpc/codec.rs:20-23 | The least multiple of four that is not below n |
| `XpcCodec.EncodeValue` | src/xpc/codec.rs:246-318 | Appends exactly the encoding to the vector, for every value tree |
| `XpcCodec.EncodeDictKey` | src/xpc/codec.rs:320-326 | Appends exactly the padded key |
| `XpcCodec.EncodeItemsLoop` | src/xpc/codec.rs:288-293 | The item buffer holds the encodings of the items in order |
| `XpcCodec.EncodePairsLoop` | src/xpc/codec.rs:302-308 | The entry buffer holds each key and value in iteration order |
| `XpcCodec.DecodeValueAt` | src/xpc/codec.rs:92-220 | The cursor-advancing decoder agrees with the specification on every input: same values, errors and panics |
| `XpcCodec.ItemsLoop` | src/xpc/codec.rs:173-180 | The array loop agrees with the specification on every input |
| `XpcCodec.PairsLoop` | src/xpc/codec.rs:187-203 | The dictionary loop agrees with the specification on every input, the panic beyond the end of the buffer included |
| `H2.FrameRoundTrip` | src/remotexpc/h2.rs:83-172 | A written frame is read back as it was, stream id without its reserved bit, and no byte beyond it is taken, if and only if its payload is shorter than 2^24 |
| `H2.FrameMeanings` | src/remotexpc/h2.rs:97-145 | What each frame says that a peer may send, reserved bits dropped (RFC 9113 section 6) |
| `H2.SettingsReadBack` | src/remotexpc/h2.rs:100-115 | All settings are read, in order, and up to five bytes after them are not |
| `H2.FrameCut` | src/remotexpc/h2.rs:68-95 | A frame cut short anywhere is not read |
| `H2.ReadFrame` | src/remotexpc/h2.rs:83-148 | Takes one frame off the stream, however reads are cut, and understands it by its type |
| `H2.ClassifyFrame` | src/remotexpc/h2.rs:97-145 | The SETTINGS loop collects exactly the six-byte pairs; a WINDOW_UPDATE of fewer than four bytes panics |
| `H2.WriteFrameRaw` | src/remotexpc/h2.rs:152-172 | Writes header and payload of the frame, appending to what was written |
| `RemoteXpc.Reassembly` | src/remotexpc/conn.rs:61-103 | However encoded messages are cut into DATA payloads and whatever other frames come between, repeated calls return those messages in order |
| `RemoteXpc.ReceiveNext` | src/remotexpc/conn.rs:61-103 | One call reads just the frames it needs and leaves buffer and input at the next message |
| `RemoteXpc.FrontDecides` | src/remotexpc/conn.rs:66-75 | A buffer that starts a message yields it exactly when all of its bytes are there |
| `RemoteXpc.RunKeeps` | src/remotexpc/conn.rs:61-103 | Over any number of calls on any input: delivered bytes plus the buffer equal what was buffered and the payload bytes read, and each SETTINGS or PING that was no acknowledgement got exactly one, in order (RFC 9113 sections 6.5.3 and 6.7) |
| `RemoteXpc.RunReads` | src/remotexpc/conn.rs:61-103 | Over any number of calls without a panic, the frames read are, one by one and in order, what the frames at the front of the input mean, and the frames after them are those of the input that is left |
| `RemoteXpc.RunOnWire` | src/remotexpc/conn.rs:61-103 | Over any number of calls without a panic, of the bytes themselves: of the frames that the input begins with, the payloads of type 0 are what was delivered or is buffered, and what was written is one acknowledgement for each frame of type 4 or 6 without flag 1, a PING's with its first eight bytes |
| `RemoteXpc.OutcomeExplained` | src/remotexpc/conn.rs:61-81 | On every input: a message is what was taken, of the length that it declares; an error is that of the message left in front; the stream ends only while no whole message is there |
| `RemoteXpc.ReadsInput` | src/remotexpc/conn.rs:61-103 | For one call on every input: the frames at the front are read and the rest is left; it ends with Closed if and only if the last was a GOAWAY, and panics at a WINDOW_UPDATE of fewer than four bytes |
| `RemoteXpc.Conservation` | src/remotexpc/conn.rs:61-103 | On every input: buffered plus received payload bytes equal delivered plus buffered bytes, and what was delivered decodes from the bytes taken |
| `RemoteXpc.AckedOnce` | src/remotexpc/conn.rs:83-98 | On every input: what a call writes is, frame by frame and in order, one acknowledgement per SETTINGS or PING read that is none itself, and what is written next is not touched |
| `RemoteXpc.MalformedStays` | src/remotexpc/conn.rs:70-73 | A complete message that fails to decode is not drained: every later call fails the same way without reading |
| `RemoteXpc.ReceiveShrinks` | src/remotexpc/conn.rs:61-103 | Each delivered message consumes bytes, which is why waiting for an answer ends on a finite input |
| `RemoteXpc.AnswerFound` | src/remotexpc/conn.rs:105-114 | If the k-th message is the first that has the request's id or the reply flag, it ends the wait, however the messages are cut |
| `RemoteXpc.RequestAnswered` | src/remotexpc/conn.rs:105-114 | However the messages are cut, a request returns the body of the first message that has its id or the reply flag, or Closed if that has none |
| `RemoteXpc.RequestReadsBack` | src/remotexpc/conn.rs:45-54 | A request is one DATA frame on stream 1, read back as such if and only if its length fits 24 bits, whose payload decodes to flags 0x10101, the id and the value if and only if the value is NUL-free |
| `RemoteXpc.MatchingAnswer` | src/remotexpc/conn.rs:108-112 | With a matching message on its way, the answer carries the request's id if and only if no message with the reply flag comes before it |
| `RemoteXpc.RemoteXpcConn.ReceiveMessage` | src/remotexpc/conn.rs:61-103 | The loop over buffer, reader and writer produces the specified outcome, buffer, unread input and acknowledgements |
| `RemoteXpc.RemoteXpcConn.TakeMessage` | src/remotexpc/conn.rs:66-75 | Drains the message only when it decodes |
| `RemoteXpc.RemoteXpcConn.Acknowledge` | src/remotexpc/conn.rs:83-98 | Writes the acknowledgement a frame asks for and nothing for any other |
| `RemoteXpc.RemoteXpcConn.AllocMsgId` | src/remotexpc/conn.rs:118-123 | Returns an odd id; ids go up by two in 64 bits and so stay odd |
| `RemoteXpc.RemoteXpcConn.Request` | src/remotexpc/conn.rs:105-130 | Writes one DATA frame with a fresh odd id and then exactly the acknowledgements of the wait, and returns the first answer's body or the failure that ended the wait |
| `DtxRoundTrip.MessageRoundTrip` | src/dtx/mod.rs:182-258 | Reading an encoded message gives back ids, signed channel, flag, arguments and payload and leaves exactly what follows; its type comes back unless it has no body at all |
| `DtxRoundTrip.MessageCut` | src/dtx/mod.rs:382-450 | A stream that ends anywhere inside a message gives no message |
| `DtxRoundTrip.WrongMagic` | src/dtx/mod.rs:382-395 | A header with another magic is refused with that magic, and taken off the stream |
| `DtxRoundTrip.BodyTruncated` | src/dtx/mod.rs:452-487 | A body cut short anywhere: below twelve bytes reading panics, without all of its arguments it has none, and without all of its payload it has none |
| `DtxRoundTrip.ArgsTruncated` | src/dtx/mod.rs:490-529 | Decoding any truncation of an encoded argument list gives exactly the arguments that lie entirely inside it |
| `DtxRoundTrip.ArgsRoundTrip` | src/dtx/mod.rs:237-258 | A whole argument list is read back, 32-bit and 64-bit integers signed |
| `DtxRoundTrip.TruncatedArgs` | src/dtx/mod.rs:490-529 | The same from any argument and any position on, which is what the induction needs |
| `DtxRoundTrip.ArgFields` | src/dtx/mod.rs:504-524 | A whole argument is read as itself and reading goes on right after it |
| `DtxRoundTrip.ArgCut` | src/dtx/mod.rs:493-527 | An argument cut short at any byte is not read at all |
| `DtxRoundTrip.FragmentationTransparent` | src/dtx/mod.rs:416-450 | For every cut of a body into 1 to 65534 sub-fragments, some possibly empty, the fragmented stream reads as the same message as the whole one, leaves the same bytes, and writes one acknowledgement per sub-fragment that asks for one, in order |
| `DtxRoundTrip.GatherAll` | src/dtx/mod.rs:420-445 | The fragment loop collects the chunks in order and leaves what follows the last |
| `DtxRoundTrip.HeaderFields` | src/dtx/mod.rs:396-402 | Magic, the header's own size and the seven fields of an encoded header stand at their offsets |
| `DtxRoundTrip.EntriesAt` | src/dtx/mod.rs:226-232 | Magic and size of the argument section stand before the arguments |
| `DtxRoundTrip.InterpretBody` | src/dtx/mod.rs:452-487 | An encoded body is understood as its type, arguments and payload |
| `DtxRoundTrip.AckRoundTrip` | src/dtx/mod.rs:136-167 | An encoded acknowledgement is read as a message of type 0 with those ids and channel that expects nothing |
| `DtxCodec.EncodeMessage` | src/dtx/mod.rs:182-235 | Field by field, the buffer becomes the specified message |
| `DtxCodec.EncodeAuxEntries` | src/dtx/mod.rs:237-258 | The argument loop appends each argument's encoding |
| `DtxCodec.DecodeAuxEntries` | src/dtx/mod.rs:490-529 | The cursor loop agrees with the specification on every input |
| `DtxCodec.GatherFragments` | src/dtx/mod.rs:420-445 | The fragment loop agrees with the specification on every stream, acknowledgements written before a short read included |
| `DtxCodec.ReadFragment` | src/dtx/mod.rs:423-443 | One sub-fragment: header, acknowledgement if asked for and if there is a writer, chunk |
| `DtxCodec.ReadMessageInner` | src/dtx/mod.rs:382-488 | The reader agrees with the specification on every stream: outcome, bytes left, acknowledgements, bad magic and panics included |
| `DtxCodec.InterpretBytes` | src/dtx/mod.rs:452-487 | What is made of the gathered bytes, with every length check |
| `Ids.Next` | src/dtx/mod.rs:690-695 | The next id is never zero |
| `Ids.AllocationClosed` | src/usbmux/codec.rs:129-133 | The k-th allocation in closed form: ids count up and go from 2^32 - 1 to 1 |
| `Ids.RepeatsAtPeriod` | src/dtx/mod.rs:690-695 | Two allocations give the same id if and only if a multiple of 2^32 - 1 lies between them |
| `DtxConn.RunKeepsReplies` | src/dtx/mod.rs:582-626 | Under every interleaving of callers, registrations, handlers and the reader, with no bound on ids: table entries point at their own unanswered calls, replies sent belong to their calls, and a registered call whose reply was not sent is in the table or in the reader's hand unless it was superseded |
| `DtxConn.StepKeepsReplies` | src/dtx/mod.rs:705-749 | Every single step keeps that invariant |
| `DtxConn.OwnReply` | src/dtx/mod.rs:720-725 | Over every run, a caller only ever gets a message that arrived, with its own id and a conversation number above zero |
| `DtxConn.SendsOnceNeverBlocks` | src/dtx/mod.rs:721-723 | Over every run, each waiter is sent at most one reply and that send to a channel of capacity one never blocks |
| `DtxConn.ReplyDelivered` | src/dtx/mod.rs:589-596 | Over every run, a reply to a written request that the reader has read is in the caller's channel two reader steps later, whatever all other threads do and unless the caller timed out, if and only if no other call was registered under the same id between the caller's registration and the reader's look into the table; otherwise it never gets there |
| `DtxConn.InTableExactly` | src/dtx/mod.rs:589-591 | Over every run, a registered call whose reply was not sent is in the table if and only if no other call was registered under its id after it and the reader has not taken its sender already: the `insert` is the only way to lose it |
| `DtxConn.RegisterSupersedes` | src/dtx/mod.rs:589-591 | Registering a call supersedes exactly the registered calls with its id |
| `DtxConn.LostStays` | src/dtx/mod.rs:720-723 | A call that was superseded before the reader's look is never answered |
| `DtxConn.NeverSuperseded` | src/dtx/mod.rs:690-695 | With at most 2^32 - 1 allocations no call is superseded |
| `DtxConn.DeliveredWithinPeriod` | src/dtx/mod.rs:582-604 | So until ids have run once around no reply to a written request is lost |
| `DtxConn.IdsDistinct` | src/dtx/mod.rs:690-695 | With at most 2^32 - 1 allocations no two calls share an id |
| `DtxConn.WaiterReplaced` | src/dtx/mod.rs:589-591 | With one allocation more a run exists in which a pending call is superseded |
| `DtxConn.RunKeepsDispatch` | src/dtx/mod.rs:727-747 | Under every interleaving with registrations, each invocation read is judged once, in order, and its verdict follows from the two looks at the handler table |
| `DtxHistory.NeverNeither` | src/dtx/mod.rs:727-748 | Over every run, of the steps alone: the i-th invocation is acknowledged if and only if it expects a reply and its channel was not registered before the reader's first look for it; it is offered if and only if its channel was registered before the second, to the last queue registered then; it goes into that queue if and only if the receiver was not dropped before the send. So it is neither if and only if it expects a reply, its channel was registered before the first look and the receiver was dropped; the dispatch step acknowledges nothing else |
| `DtxHistory.TableFollows` | src/dtx/mod.rs:672-676 | Over every run, the handler table holds exactly the channels registered so far, each with its last queue, and the reader has stopped if and only if a read failed |
| `DtxHistory.RunKeepsHistory` | src/dtx/mod.rs:705-749 | Over every run, table, messages read, live queues and both looks of every verdict are those of the steps |
| `DtxHistory.CallsEnd` | src/dtx/mod.rs:582-626 | Over every run, a call is given up if and only if its write failed or it timed out and returns if and only if it took its reply, and none is ever stuck: it can take a reply that is there and time out without one |
| `DtxHistory.ReaderProceeds` | src/dtx/mod.rs:711-749 | Every step of the reader brings it nearer to its next read, at most four after each message, and no other step changes where it is |
| `DtxHistory.HandlersProceed` | src/dtx/mod.rs:672-676 | Over every run, a handler can take what is queued and drop its receiver as long as it has not, and channels can be registered except while the reader sends to a handler |
| `DtxConn.HandlersReceive` | src/dtx/mod.rs:672-676 | Over every run: what a handler received, what is queued for it and what it dropped with its receiver are, in this order, what the reader put into its queue, all of its channel; only a queue whose receiver is gone is passed over |
| `DtxConn.StepKeepsQueues` | src/dtx/mod.rs:745-747 | Every single step keeps what was put into each queue accounted for and within its capacity |
| `DtxConn.BlocksOnlyOnFullQueue` | src/dtx/mod.rs:745-747 | Over every run, the reader waits, other than for input, exactly while the queue of a live handler is full |
| `Usbmux.SegmentationIndependent` | src/usbmux/codec.rs:117-162 | However received bytes are cut into reads, receive buffer, event queue and pending connects end the same, buffers stuck on a length below 16 included |
| `Usbmux.DrainAppend` | src/usbmux/codec.rs:146-162 | Taking frames early and again after more bytes is taking them once |
| `Usbmux.Without` | src/usbmux/codec.rs:171 | Removes every occurrence of the tag and nothing else |
| `UsbmuxRuns.RunKeeps` | src/usbmux/codec.rs:101-182 | Over every sequence of calls and received bytes: connects are accounted for, failures are final, tags are allocated in order |
| `UsbmuxRuns.LogIsHistory` | src/usbmux/codec.rs:146-162 | Recording the history changes nothing in what the codec does |
| `UsbmuxRuns.NoMoreThanConnects` | src/usbmux/codec.rs:168-176 | Over every run, Connected is queued for a tag no more often than connect returned that tag |
| `UsbmuxRuns.FailureIsFinal` | src/usbmux/codec.rs:168-182 | Over every run, after a failed answer for a tag, Connected for it follows only if another connect returned the same tag in between |
| `UsbmuxRuns.TagsRepeatAtPeriod` | src/usbmux/codec.rs:129-133 | Over every run, no tag is zero, and two requests share a tag if and only if a multiple of 2^32 - 1 allocations lies between them |
| `UsbmuxRuns.HandleEffect` | src/usbmux/codec.rs:164-217 | A frame queues at most one event, and Connected only for a tag it takes out of the pending connects |
| `UsbmuxClient.Codec.PushData` | src/usbmux/codec.rs:117-120 | The object's new state is the specified one and no whole frame is left in its buffer |
| `UsbmuxClient.Codec.ProcessRx` | src/usbmux/codec.rs:146-162 | The draining loop reaches the specified state |
| `UsbmuxClient.Codec.DecodeFrame` | src/usbmux/codec.rs:164-217 | A result settles its tag; the event, if any, is the specified one |
| `UsbmuxClient.Codec.Retain` | src/usbmux/codec.rs:171 | Every occurrence of the tag leaves the pending connects, the others keep their order |
| `UsbmuxClient.Codec.Connect` | src/usbmux/codec.rs:101-115 | Queues one frame with the swapped port under a fresh tag that is now pending |
| `UsbmuxClient.NetworkOrder` | src/usbmux/codec.rs:110 | The bytes of a requested port arrive most significant first |
| `UsbmuxClient.Codec.ListDevices` | src/usbmux/codec.rs:37-42 | Queues one request frame under a fresh tag |
| `UsbmuxClient.Codec.AllocTag` | src/usbmux/codec.rs:129-133 | Returns the current tag and moves on to the next that is not zero |
| `UsbmuxClient.Codec.EnqueueFrame` | src/usbmux/codec.rs:135-144 | Queues header and body of one frame |
| `UsbmuxClient.Codec.PollWrite` | src/usbmux/codec.rs:122-124 | Takes the first queued frame, if any |
| `UsbmuxClient.Codec.PollEvent` | src/usbmux/codec.rs:125-127 | Takes the first queued event, if any |
| `UsbmuxClient.Connection.Flush` | src/usbmux/connection.rs:125-131 | Writes out all queued frames in order |
| `UsbmuxClient.Connection.NextEvent` | src/usbmux/connection.rs:111-123 | Whatever the reads return, the event is the first of all events the input holds, and the others remain |
| `UsbmuxClient.Connection.ListDevices` | src/usbmux/connection.rs:36-48 | Writes the request and returns what the first settling event of the whole input says, for every cut of that input into reads |
| `UsbmuxClient.Connection.OpenTunnel` | src/usbmux/connection.rs:93-103 | Writes the request and returns what the first settling event of the whole input says, for every cut of that input into reads |
| `UsbmuxClient.PopCommutes` | src/usbmux/connection.rs:111-115 | Taking the first event before or after the rest is read makes no difference |
| `UsbmuxClient.ReadCommutes` | src/usbmux/connection.rs:116-121 | Pushing a chunk first and the rest later gives the events of both |
| `UsbmuxSim.TunnelComposed` | src/usbmux/sim/handler.rs:106-147 | Client and simulator together: opening a tunnel reaches the device under its number, counted from 1, if and only if that has a handler for the port, and is refused otherwise; id 0 acts as the first device and any other id is a bad device, whatever the service writes after the answer |
| `UsbmuxSim.ListedTunnel` | src/usbmux/sim/handler.rs:41-147 | So every device in the list the client was shown is reached under the id it was shown with |
| `UsbmuxSim.ListenComposed` | src/usbmux/sim/handler.rs:79-94 | Client and simulator together: listening is answered, and then each device is announced once, in order, as the list shows it |
| `UsbmuxSim.BuidComposed` | src/usbmux/sim/handler.rs:149-158 | Client and simulator together: the bus id arrives as an event |
| `UsbmuxSim.UnknownComposed` | src/usbmux/sim/handler.rs:26-31 | Client and simulator together: an unknown request fails as a bad command |
| `UsbmuxSim.AnswerEvents` | src/usbmux/codec.rs:183-217 | A bus id, a pair record and a detached device each become their event |
| `UsbmuxSim.ResultEvents` | src/usbmux/codec.rs:164-182 | A result settles its tag; success connects it if it is pending, and every other number is its failure |
| `UsbmuxSim.SparseAttached` | src/usbmux/codec.rs:195-230 | An announcement without id or properties is ignored; one without what they say shows a device without it |
| `UsbmuxSim.EnvelopeExactly` | src/usbmux/codec.rs:164-166 | An answer counts if and only if it is a dictionary and every field it has is of its type |
| `UsbmuxSim.PropertiesExactly` | src/usbmux/codec.rs:164-166 | Likewise the properties of a device |
| `UsbmuxSim.ConnectExactly` | src/usbmux/sim/framing.rs:64-72 | Any connect request: a bad command without an id or a port that are unsigned integers; otherwise their low 32 and 16 bits count, the port's in network order |
| `UsbmuxSim.FrameFields` | src/usbmux/sim/framing.rs:44-54 | Length, version 1, message type 8 and tag stand at their offsets |
| `UsbmuxSim.DeviceListComposed` | src/usbmux/sim/handler.rs:41-77 | Client and simulator together: the device list is the server's table numbered from 1 |
| `UsbmuxSim.ConnectReply` | src/usbmux/sim/framing.rs:64-79 | The server answers an encoded connect request, through both byte swaps, with 2 for a number that is not in the table, 3 without a handler and 0 with one |
| `UsbmuxSim.FirstFrame` | src/usbmux/codec.rs:146-162 | A frame that arrives first gives the first events, whatever follows it |
| `UsbmuxSim.ServeOne` | src/usbmux/sim/framing.rs:28-54 | The server reads a client's frame back as its tag and body |
| `UsbmuxSim.EntriesDecoded` | src/usbmux/codec.rs:220-230 | Each device entry the server writes is read back with its own number and properties |
| `UsbmuxSim.HandleConnection` | src/usbmux/sim/handler.rs:8-39 | For every byte stream and cut into reads the server writes exactly the specified answers and stops where the code returns |
| `UsbmuxSim.HandleListen` | src/usbmux/sim/handler.rs:79-94 | An answer, then one Attached frame per device |
| `Nska.CyclesExactly` | src/bin/ios/cmd/perf.rs:484-528 | Decoding ends if and only if no path of references that it follows, through any lead-in, comes back to where it was |
| `Nska.NoCycle` | src/bin/ios/cmd/perf.rs:484-528 | The objects reached can be ranked downwards if and only if there is no such path |
| `Nska.DecodesExactly` | src/bin/ios/cmd/perf.rs:484-528 | Decoding ends if and only if the references it follows can be ranked so that they descend; followed are keys and values as far as both go, items, and entries but the class |
| `Nska.Terminates` | src/bin/ios/cmd/perf.rs:484-528 | Where references descend decoding ends: the rank of the object, then the size of the term, goes down |
| `Nska.DecodedAcyclic` | src/bin/ios/cmd/perf.rs:484-528 | Where decoding ends the least depth that each object needs ranks them |
| `Nska.FollowedDecodes` | src/bin/ios/cmd/perf.rs:486-523 | What a decoded value follows was decoded at less depth |
| `Nska.BackRefsDecode` | src/bin/ios/cmd/perf.rs:484-528 | Tables whose objects refer only to earlier ones decode from any value |
| `Nska.CycleDiverges` | src/bin/ios/cmd/perf.rs:486-490 | A value from which a path leads into a cycle is decoded at no recursion depth |
| `Nska.MoreFuel` | src/bin/ios/cmd/perf.rs:484-528 | Once decoding ends, allowing deeper recursion changes nothing, so the result is that of the unbounded recursion |
| `NskaShape.DecodedShape` | src/bin/ios/cmd/perf.rs:484-528 | Every decoded value has the shape of its form: a reference stands for its object or, beyond the table, for $null; arrays and dictionaries with items become arrays; keys and values are paired as far as both go, a key that is no string as it prints; other dictionaries keep their entries but the class |
| `Nska.SelfReferenceDiverges` | src/bin/ios/cmd/perf.rs:486-490 | An object that refers to itself is the shortest such cycle |
| `NskaBuild.BuildConfig` | src/bin/ios/cmd/perf.rs:204-283 | Pushes exactly the specified configuration table |
| `NskaBuild.ConfigBackRefs` | src/bin/ios/cmd/perf.rs:204-283 | For every interval and attribute lists, each object refers only to earlier ones |
| `NskaBuild.ConfigDecodes` | src/bin/ios/cmd/perf.rs:484-528 | Decoding the archived configuration gives back the intended dictionary, for every interval and attribute lists |
| `NskaBuild.PairsMean` | src/bin/ios/cmd/perf.rs:491-510 | Keys and values decoded in parallel build the dictionary in order, a repeated key overwriting |
| `NskaBuild.DistinctDict` | src/bin/ios/cmd/perf.rs:499-507 | Distinct keys overwrite nothing |
| `Plist.InsertLookup` | src/bin/ios/cmd/perf.rs:507-508 | A look-up after an insertion finds what was inserted and everything else as before |
| `Plist.InsertPlaces` | src/bin/ios/cmd/perf.rs:507-508 | A present key keeps its place |
| `NskaBuild.NanosecondsAre` | src/bin/ios/cmd/perf.rs:205 | The interval is milliseconds times a million, as far as 63 bits go, and the same modulo 2^64 beyond |
| `NskaBuild.ConfigClasses` | src/bin/ios/cmd/perf.rs:208-283 | The root is of class NSMutableDictionary and both attribute lists of class NSArray, superclasses included |
| `NskaBuild.CapsClasses` | src/xctest/mod.rs:87-128 | The root is of class XCTCapabilities and leads to an NSDictionary |
| `NskaBuild.BuildCapabilities` | src/xctest/mod.rs:87-128 | Pushes exactly the specified capabilities table, for every order of the map |
| `NskaMeaning.CapabilitiesDecode` | src/xctest/mod.rs:87-128 | Decoding archived capabilities gives their dictionary, each value as it decodes by itself |
| `NskaMeaning.ArchiveConfiguration` | src/xctest/config.rs:27-288 | For all arguments: the archive that is built decodes to every setting with what the arguments ask for, the optional settings exactly when asked for, each once |
| `NskaMeaning.ConfigurationDecodes` | src/xctest/config.rs:27-288 | The same for every table in which the configuration's references lead to the objects described |
| `NskaMeaning.SettingsDistinct` | src/xctest/config.rs:185-283 | No two settings have the same key, so that none overwrites another |
| `NskaMeaning.DictionaryMeans` | src/xctest/config.rs:160-182 | A dictionary object decodes to its keys and values in order, a repeated key overwriting |
| `NskaMeaning.CapabilitiesMean` | src/xctest/config.rs:97-157 | The test capabilities decode to fourteen ones and the test iterations |
| `NskaMeaning.FilterMeans` | src/xctest/config.rs:307-315 | A test filter decodes to its names |
| `NskaBuild.CapsBackRefs` | src/xctest/mod.rs:87-128 | That table refers only backwards if and only if every value does so at the place where it is pushed |
| `NskaBuild.ObjectTable.PushVal` | src/bin/ios/cmd/perf.rs:296-300 | The index returned is where the object stands |
| `NskaBuild.ObjectTable.PushClass` | src/bin/ios/cmd/perf.rs:285-294 | The class object stands at the index returned |
| `XctestConfig.BuildConfiguration` | src/xctest/config.rs:27-288 | For all arguments: every object refers only to earlier ones, the configuration is the last, each of its references leads to the object the arguments ask for, and every object's class reference leads to the class its reader expects |
| `XctestConfig.ClassesFollow` | src/xctest/config.rs:30-37 | The configuration, session, URL, filters, dictionaries and capabilities are of classes XCTestConfiguration, NSUUID, NSURL, NSSet, NSDictionary and XCTCapabilities |
| `XctestConfig.PushFilter` | src/xctest/config.rs:307-315 | An empty filter is absent, any other is a set with the names inline; references stay backward |
| `XctestConfig.PushCapabilities` | src/xctest/config.rs:97-157 | Fourteen capabilities with value 1 and the test iterations with value 2, behind backward references |
| `XctestConfig.PushDependencies` | src/xctest/config.rs:160-182 | Keys and values of the dependencies in order, behind backward references |
| `Der.PeelUndoesTag` | src/lockdown/pairing.rs:462-477 | Peeling a tagged content followed by any bytes gives that content and those bytes, if and only if the content is shorter than 65536 bytes |
| `Der.PeelEncoded` | src/lockdown/pairing.rs:566-602 | What the parser makes of an encoded content of any length, truncated lengths included |
| `Der.MinimalLength` | src/lockdown/pairing.rs:462-477 | Nothing shorter than the encoder's output is read as that content (X.690 section 10.1) |
| `Der.PeelLongForm` | src/lockdown/pairing.rs:566-602 | Any long form of a length is read, minimal or not |
| `Der.PeelCut` | src/lockdown/pairing.rs:566-602 | A tagged content cut short anywhere is none, and neither is one under another tag |
| `Der.IntReadsBack` | src/lockdown/pairing.rs:489-496 | An integer is read back with the same magnitude and a clear sign bit (X.690 section 8.3) |
| `Der.EncodeTag` | src/lockdown/pairing.rs:462-477 | Pushes the specified bytes |
| `Der.FoldLengthLoop` | src/lockdown/pairing.rs:593-595 | The length loop in 64 bits |
| `Der.PeelTag` | src/lockdown/pairing.rs:566-572 | Content and rest together are at least two bytes shorter than the input |
| `Der.OidRoundTrip` | src/lockdown/pairing.rs:499-518 | An identifier's arcs are read back if and only if the first two fit the byte that joins them: below 2 and below 40, or 2 and below 176 |
| `Der.ReadAllArcs` | src/lockdown/pairing.rs:503-516 | All arcs from the third on are read back, whatever their values (X.690 section 8.19.2) |
| `Der.FiveDigits` | src/lockdown/pairing.rs:505-514 | Every 32-bit arc has at most five digits in base 128 |
| `Der.EncodeArc` | src/lockdown/pairing.rs:504-515 | Filling the five-byte scratch from its end gives the arc's digits, and the index never goes below zero |
| `Der.EncodeOid` | src/lockdown/pairing.rs:499-518 | The arc loop appends each arc's digits |
| `Der.HeaderNeverUnderflows` | src/lockdown/pairing.rs:869-883 | On every input the assumed header length and the content together never exceed what they are subtracted from |
| `Der.ExtractAssembled` | src/lockdown/pairing.rs:851-909 | For every certificate assembled from the encoders, with or without version, exactly the serial and issuer elements come out |
| `Der.ExtractCut` | src/lockdown/pairing.rs:851-862 | Such a certificate cut short anywhere is malformed |
| `Der.ExtractOther` | src/lockdown/pairing.rs:851-880 | One that starts with neither a version nor a serial number is malformed |
| `Der.ExtractFromAssembled` | src/lockdown/pairing.rs:869-907 | The same from the serial number on |
| `Base64.RoundTrip` | src/bin/ios/cmd/pair.rs:136-163 | Decoding an encoded byte string gives it back, for every byte string (RFC 4648 section 4) |
| `Base64.BuildTable` | src/bin/ios/cmd/pair.rs:137-141 | The 256-entry table maps each symbol to its digit and everything else to 0xff |
| `Base64.EncodeLoop` | src/lockdown/pairing.rs:657-686 | Groups of three and the padded remainder, as specified |
| `Base64.DecodeLoop` | src/bin/ios/cmd/pair.rs:136-163 | Filtering, then groups of four with a short last group, as specified on every text |
| `Base64.CleanLoop` | src/bin/ios/cmd/pair.rs:142-145 | Exactly padding and line ends are dropped |
| `Base64.OrAdds` | src/lockdown/pairing.rs:662 | Bitwise or of disjoint bits adds, which ties the shifts to arithmetic |
| `Base64.BytesBack` | src/bin/ios/cmd/pair.rs:151-160 | The eight-bit shifts of the decoder rebuild the bytes from their six-bit digits |
| `Base64.EncodingSymbols` | src/lockdown/pairing.rs:657-686 | An encoding holds only symbols of the alphabet and padding |
| `Pem.RoundTrip` | src/bin/ios/cmd/pair.rs:111-134 | Out of a file with one encoded block among other lines, exactly the encoded content is loaded, for all labels for which that can be (RFC 7468 section 3) |
| `Pem.LoadsRaw` | src/bin/ios/cmd/pair.rs:111-134 | A file without five dashes in a row is taken as it is; any other must be UTF-8 and is scanned |
| `Pem.ScanEndings` | src/bin/ios/cmd/pair.rs:118-129 | Which of the two line endings a file has makes no difference |
| `Pem.ScanWrapped` | src/bin/ios/cmd/pair.rs:118-129 | Joining the lines of a block undoes wrapping at 64 columns |
| `Pem.ScanQuiet` | src/bin/ios/cmd/pair.rs:116-129 | Lines before the block that neither open nor close one are skipped |
| `Pem.TitlesExactly` | src/lockdown/pairing.rs:646-655 | Every content comes back from a block if and only if the label has one line, or each further line, the last with its dashes, begins a block, or ends none and holds nothing but padding |
| `Pem.ScanEncoded` | src/bin/ios/cmd/pair.rs:118-129 | What scanning an encoded block finds: what the label's further lines add, then the content unless one of them ends the block |
| `Pem.EncodeLoop` | src/lockdown/pairing.rs:646-655 | Writes the boundary lines and the wrapped text, as specified |
| `Pem.LoadCert` | src/bin/ios/cmd/pair.rs:111-134 | The line loop agrees with the specification on every file, invalid UTF-8 included |
| `Pem.EncodedValid` | src/bin/ios/cmd/pair.rs:115 | An encoded block is valid UTF-8 |
| `Calendar.DaysToYmd` | src/lockdown/pairing.rs:604-640 | For every day count the loops end with a valid Gregorian date whose day number from 1970-01-01, years and months in closed form, is the count |
| `Calendar.DayNumberOrders` | src/lockdown/pairing.rs:604-640 | Day numbers order dates: a later date has a larger number and the other way round |
| `Calendar.DateUnique` | src/lockdown/pairing.rs:604-640 | So the date of a day count is the only valid one |
| `Calendar.ElapsedStep` | src/lockdown/pairing.rs:607-615 | Year by year the closed form grows by the length of the year |
| `Calendar.UtcTime` | src/lockdown/pairing.rs:520-535 | The tagged text is that of the moment's date and time of day |
| `Calendar.UtcRoundTrip` | src/lockdown/pairing.rs:520-535 | UTCTime text is read back as the moment it was made from if and only if that moment is before 2050 (RFC 5280 section 4.1.2.5.1) |
| `Tlv8.RoundTrip` | src/tunnel/remote_pairing/tlv8.rs:23-56 | For every entry list, empty and long values and repeated types included, decoding gives exactly the listed types, each with its values joined in order |
| `Tlv8.DecodeChunks` | src/tunnel/remote_pairing/tlv8.rs:44-56 | The chunks of a long value are joined again |
| `Tlv8.EncodeLoop` | src/tunnel/remote_pairing/tlv8.rs:23-39 | The nested loops push the specified bytes |
| `Tlv8.ChunksLoop` | src/tunnel/remote_pairing/tlv8.rs:31-35 | Chunks of at most 255 bytes, each under its own header |
| `Tlv8.DecodeLoop` | src/tunnel/remote_pairing/tlv8.rs:44-56 | The index loop agrees with the specification on every input, a cut last item included |
| `AfcTransfer.PutThenRead` | src/lockdown/services/afc.rs:432-452 | Against a faithful device, for every content and however it cuts its replies, reading a file back after putting it gives the same bytes, and the device changed in nothing else |
| `AfcTransfer.AfcClient.ReadFile` | src/lockdown/services/afc.rs:433-452 | Against any device, as a function of its answers: one open, reads up to the first failure or empty answer, one close of the handle that the open was answered with, and the result the answers call for; all that was opened is closed once and used in between only. Against a faithful one: it succeeds if and only if the file is there and a handle is free, with exactly the file's bytes, and leaves the device as it was |
| `AfcTransfer.AfcClient.PutFile` | src/lockdown/services/afc.rs:535-554 | Against any device, as a function of its answers: the directory, one open, chunks up to the first failure, one close of the handle that the open was answered with, and the result the answers call for; all that was opened is closed once and used in between only. Against a faithful one: the file then holds exactly the data |
| `AfcTransfer.AfcClient.WriteFile` | src/lockdown/services/afc.rs:545-553 | The part of it after the directory |
| `AfcTransfer.AfcClient.ReadAll` | src/lockdown/services/afc.rs:437-449 | The read loop ends; it stops at the first failure or empty answer and returns the failure or all bytes before it. From a faithful device that is everything the handle has not passed |
| `AfcTransfer.AfcClient.WriteChunks` | src/lockdown/services/afc.rs:547-552 | Each write carries the next 256 KiB; fewer than all chunks are written only if the last write was answered with a failure, which is the result. With a faithful device the chunks append to the file |
| `Afc.ReadTraceCloses` | src/lockdown/services/afc.rs:433-452 | Whatever is answered to a read_file, the handle that was opened is closed, and no request uses one before it is opened or after it is closed; packet numbers go up by one per request |
| `Afc.PutTraceCloses` | src/lockdown/services/afc.rs:535-554 | Whatever is answered to a put_file, the handle that was opened is closed, and no request uses one before it is opened or after it is closed; packet numbers go up by one per request |
| `Afc.SettledCounts` | src/lockdown/services/afc.rs:425-429 | In such an exchange each handle is closed exactly as often as the device gave it out |
| `AfcTransfer.AfcClient.OnWire` | src/lockdown/services/afc.rs:608-651 | Against any device: unless a write fails, what was sent grew by exactly the bytes of the requests; failed writes are counted; and the answers are what the incoming stream held, one after the other |
| `AfcTransfer.AfcClient.Exchange` | src/lockdown/services/afc.rs:608-651 | One request and its answer: the answer is what the incoming stream holds next, unless writing the request failed |
| `AfcTransfer.AfcClient.FileOpen` | src/lockdown/services/afc.rs:558-571 | One open request; the result is what its answer says. A faithful device refuses only a missing file or when it has no handle left |
| `AfcTransfer.AfcClient.FileRead` | src/lockdown/services/afc.rs:398-415 | One read request; the result is what its answer says: from a faithful device, the next bytes of the file, none only at its end, whether it says so by data or by status |
| `AfcTransfer.AfcClient.FileWrite` | src/lockdown/services/afc.rs:418-422 | One write request with its data after the arguments; the result is what its answer says |
| `AfcTransfer.AfcClient.FileClose` | src/lockdown/services/afc.rs:425-429 | One close request; the result is what its answer says. A faithful device forgets the handle |
| `AfcTransfer.AfcClient.MakeDir` | src/lockdown/services/afc.rs:331-345 | One request; the result is what its answer says, an existing directory counting as success |
| `AfcTransfer.AfcClient.SendRequest` | src/lockdown/services/afc.rs:608-629 | Raises the packet number and writes the request's bytes, or a beginning of them if a write fails |
| `AfcTransfer.AfcClient.WriteRequest` | src/lockdown/services/afc.rs:613-626 | The forty-byte header filled in place, then the parts that are not empty, make up the request; a failure leaves a beginning of it written |
| `AfcTransfer.AfcClient.RecvResponse` | src/lockdown/services/afc.rs:631-651 | However reads are cut, the answer is the specified one, lengths that contradict each other included |
| `AfcTransfer.BuildHeader` | src/lockdown/services/afc.rs:613-618 | The copies into the header array leave magic, both lengths, number and opcode in their places |
| `Afc.RequestReadsBack` | src/lockdown/services/afc.rs:608-629 | A device reads exactly the request that was sent |
| `Afc.ReplyReadsBack` | src/lockdown/services/afc.rs:631-651 | A reply is read whole, whichever of its two parts the payload travels in, and nothing beyond it |
| `Afc.ReplyCut` | src/lockdown/services/afc.rs:631-651 | A reply cut short anywhere closes the connection |
| `Afc.PayloadBetween` | src/lockdown/services/afc.rs:642-644 | Lengths that contradict each other count as far as they go beyond one another |
| `Afc.ParentDirIs` | src/lockdown/services/afc.rs:536-541 | The directory is what stands before the last slash |
| `Afc.Successes` | src/lockdown/services/afc.rs:331-345 | Which answers are successes for each request; any other status is the failure it says |
| `AfcTransfer.OpenCommand` | src/lockdown/services/afc.rs:558-561 | The device understands an open request as that mode and path, the path up to its first NUL |
| `AfcTransfer.ReadCommand` | src/lockdown/services/afc.rs:398-401 | The device understands a read request as that handle and size |
| `AfcTransfer.HandleCommands` | src/lockdown/services/afc.rs:418-429 | The device understands write and close requests as that handle and data |
| `AfcTransfer.ReadServed` | src/lockdown/services/afc.rs:402-414 | Whatever a faithful device may answer to a read, the client takes it as the next bytes, none only at the end |
| `AfcTransfer.AppendedMore` | src/lockdown/services/afc.rs:547-552 | A write at the end of the file appends to it |
| `AfcDevice.Link.Flush` | src/lockdown/services/afc.rs:619-628 | A faithful device serves the request just written with some reply it may give; any other writes nothing more |

## Left out

- The property-list library is a parameter, an encoder and a decoder. Where client and server are composed, decoding is assumed to undo encoding for the lists they exchange, and for no others (`Plist.Library.Carries`).
- UTF-8 validity is modelled as RFC 3629 section 4 defines it; lossy conversion is not modelled.
- A hash map's iteration order is modelled as an arbitrary order of its entries (`Xpc.Layout`, the argument of `NskaBuild.BuildCapabilities`).
- Allocation failure is not modelled, in particular `Vec::with_capacity` of a count the peer declares (`src/xpc/codec.rs:174`) and payload buffers sized by a header.
- Sums of 64-bit sizes that overflow count as a panic in XPC and DER; the 32-bit `conv + 1` of DTX acknowledgements, the RemoteXPC message id and the AFC packet number wrap, as in a release build.
- A write or flush that fails is modelled only for AFC; a read that fails other than by the end of the stream is not modelled.
- DtxHistory.NeverNeither: an acknowledgement counts as one even if writing it fails, which the reader ignores (`src/dtx/mod.rs:740-741`).
- RemoteXpc.RemoteXpcConn.Request: the wait ends because the model's input is finite; the real call waits as long as the peer stays connected.
- RemoteXpc.Reassembly: payloads of all streams are joined in order of arrival, because `receive` ignores the stream id (`src/remotexpc/conn.rs:80`). The connection handshake is not modelled.
- DtxConn.ReplyDelivered: the table lock that the reader holds while it sends a reply (`src/dtx/mod.rs:721-722`) is not modelled; the model allows more interleavings than the code, so its invariants hold of the code's.
- The DTX connection is a transition system on values rather than a class, since its methods run concurrently. The bytes that callers and acknowledgements write are not interleaved in it; the writer's mutex keeps frames whole. Fairness and real time are not modelled: a timeout may happen whenever no reply is there.
- The DTX channel number allocator and `request_channel` are left out: a counter and one call.
- After a simulated connect succeeds the service owns the socket; its bytes are an arbitrary suffix of the server's output. Services are reduced to their port numbers.
- What `open_tunnel` does with bytes buffered after the answer is not modelled; only the connect result is stated.
- The other usbmux requests (`listen`, pair records, `read_buid`) follow the pattern of `Usbmux.Send` and are left out on the client side.
- The NSKeyedArchiver decoder carries a recursion bound (`Nska.Decode`); `Nska.MoreFuel` shows that a finished decoding does not depend on it, and `Nska.CyclesExactly` when some bound suffices. The stack's size is not modelled. How a non-string key prints is a parameter.
- The archive's outer dictionary (`$top`, `$version`, `$archiver`) and its binary form are left out, and so are `archive_uuid` and `archive_url`, which build two and three fixed objects.
- The payloads that `encode_call` and `encode_reply` pass on are arbitrary bytes; the archives of single primitives they hold are left out.
- Der.OidRoundTrip: a sum `40 * arc0 + arc1` beyond 32 bits is excluded, as are fewer than two arcs: both panic.
- Der.ExtractAssembled: stated for certificates below 65536 bytes, beyond which the encoder truncates lengths. `extract_spki_bits` is left out: it follows the bytes after the outer sequence, not its content as its comment says (`src/lockdown/pairing.rs:555-564`).
- Keys, signatures, certificates' other fields, TLS, SRP and the other cryptography are foreign code.
- AfcTransfer.AfcClient.ReadFile: against a device that is not faithful the incoming bytes are an arbitrary finite stream fixed in advance, so a peer that keeps answering for ever is not modelled. A close whose write fails counts as one: the code does not try again.
- `pull_file` and `push_file` of AFC are left out; unlike `read_file` and `put_file` they return without a close when a local file operation fails (`src/lockdown/services/afc.rs:485-505`, `src/lockdown/services/afc.rs:573-590`).
- Paths and file contents are byte strings below 2^63 bytes, the most that a slice can hold.
- The user-space network stack is left out: its bridge and packet loop can lose bytes, so conservation is not claimed for them.
- Command line, mode selection, version parsing and the thin lockdown service clients are left out: each is settled by reading one branch.
- NskaBuild.ConfigDecodes: the archives are read on the device. The repository's decoder, which runs on what devices send, stands in for the reader there.
