# Verification of chat-libp2p

chat-libp2p is a peer-to-peer chat client. Messages are kept in a local key/value store, sent to the
other side over cached streams in a small binary frame format, sent again while they are young, asked
about when they are old, and marked as reached once the other side has answered. This project models
the client's core in Dafny and proves what its design relies on, in every run and for all inputs.

`dafny verify dfyconfig.toml` checks everything.

## What is modelled

| file | modules | source |
|---|---|---|
| `Options.dfy` | `Options` | the `Option` type |
| `Bytes.dfy` | `Bytes` | big-endian numbers, store keys, Go's string order, `uint64` and `int64` |
| `Frame.dfy` | `FrameFormat`, `Frames` | the frame format and the `Frame` object |
| `Transport.dfy` | `Transport` | the frame reader, the chunked write loop, the read loop |
| `TextTypes.dfy`, `ImageTypes.dfy` | `TextTypes`, `ImageTypes` | the ten actions and their two parsers |
| `Wire.dfy` | `Wire`, `Correlation` | dispatch of incoming frames, result maps and receiver channels |
| `ActionStream.dfy` | `ActionStream` | whole actions from the encoder of one side to the receiver channel of the other |
| `StreamCache.dfy` | `StreamCache` | which stream to a peer is kept, and who removes it |
| `Buckets.dfy` | `Buckets` | the key/value store, bucket names, the view of one peer |
| `MessageService.dfy` | `MessageStore`, `MessageService` | the transactions of the message service |
| `Listing.dfy` | `Listing` | how each transaction changes what a user sees listed, and what is due |
| `Delivery.dfy` | `Delivery` | two clients and a network, as a state machine |
| `DeliveryInvariant.dfy` | `DeliveryInvariant` | what every run of that machine keeps |
| `DeliveryTheorems.dfy` | `DeliveryTheorems` | what follows for the users of the two clients |
| `DeliveryRound.dfy` | `DeliveryRound` | a round of `AsyncSend` in the machine and in the service |
| `DeliveryRuns.dfy` | `DeliveryRuns` | from which states delivery is possible, and from which it can go wrong |
| `DeliveryOutcomes.dfy` | `DeliveryOutcomes` | which event changes what, and what sending and checking can end with |
| `PeerSave.dfy` | `PeerSave` | the double-checked lock of `Peer.Save`, beside the setters |
| `Probe.dfy` | `ProbeRunner`, `ProbeMailbox` | who may probe, and the one-slot status channel |
| `Identify.dfy` | `Identify` | queries under wrapping 16-bit ids |
| `Handover.dfy` | `Handover` | how `SDK.Init` and `SDK.Close` hand cancel functions on |

Objects that the source updates in place are classes (`Frame`, `Reader`, `Stream`, `StreamManager`,
`Exchange`, `Service`, `Peers`, `Queries`, `SDK`, and two of the actions). Each method is proved against
a function on values, and the theorems are about those functions. Where goroutines interleave, a run is
a sequence of events, each an atomic step: a critical section, a transaction, a channel operation. An
event that is not possible in a state leaves the state alone, so a statement about all sequences of
events is one about all interleavings.

The chain for messages is: `Service.Send`, `Receive`, `Settle`, `DelMessages`, `Classify` and `AsyncSend`
work on flat buckets and are proved to be `Sent`, `Received`, `Settled`, `Deleted`, `Due` on the state of
one peer, with no effect on any other; `Delivery` runs those functions at two clients, with every packet
going through the encoder, the frame parser and the action parsers; `RunInv` is the invariant of that
machine, and `EndToEnd` and its neighbours are what the users get from it.

In the machine, as in the source, a round of `AsyncSend` looks at the due messages first (lines 605-629 of
`message.go`) and claims them later (632-698), with anything in between. A claim is called late if it
starts a sending worker for a message that a checking worker was started for since. Delivery holds of
every message without a late claim; a claim made while its message is still young is never late; and
`ClaimIsSafeIff` shows that this is the exact condition: a late claim of a text that was not received can
always make it count as reached without being received, and such a claim can be reached from every state
with a young due message (`LateClaimComes`).

### Assumptions

- One client talks to one other; the result maps are keyed by message id only
  (`internal/common/protocol/text/text.go:44`), so more than two peers are not covered.
- The wall clock of a client does not go back.
- The dialogue is not flushed, and the 64-bit sequence does not run out.
- A failed transaction has no effect; a store that is lost or rolled back is not covered.
- Slices hold at most 2^63 - 1 bytes and `make` panics above that; smaller limits of a machine are not
  modelled. In `Delivery`, content leaves 19 bytes of room for the header of its action.
- The directory assigned to an image is 7 bytes long (year, separator, month), as it is up to year 9999.
- `append` on a bucket key copies, `gob` encodes and decodes faithfully, and a bbolt key that was put with
  an empty value is present when it is looked up in a later transaction.
- Looking a response's channel up and sending into it are one step in `Delivery`.

Where the code and the apparent intent differ, the model follows the code. Three places matter: a
sending worker takes any answer to its second image request for success (`message.go:728`); the length of a
subdirectory is added to 11 in eight bits (`image/types.go:155`); and a response that arrives in a data
frame goes to the receiver channel, where it is ignored (`text/text.go:61-70`).

## Model

| member | source | states |
|---|---|---|
| `DeliveryInvariant.RunInv` | internal/client/service/message.go:126-861 | in every run of two clients over a network that loses, repeats and reorders, with looks and claims as separate steps, the whole invariant holds: ids, pending marks, notes of rounds, workers, slots, answers, received marks and every packet ever written |
| `DeliveryTheorems.EndToEnd` | internal/client/service/message.go:160-226 | in every run, a text without a late claim that its sender sees as reached is marked as received at the other side, which made an incoming entry with the sender's content and time to live; the entry is still there as made unless deleted |
| `DeliveryTheorems.PromptIsNeverLate` | internal/client/service/message.go:619-698 | if every sending claim of a client is made while its message is still young, none is late, so `EndToEnd` holds of every text |
| `DeliveryTheorems.YoungIsNotLate` | internal/client/service/message.go:697-700 | a late claim is of a message that is too old by then to be sent again |
| `DeliveryTheorems.RunHistory` | internal/client/service/message.go:697-761 | an id becomes late by a late claim of it and in no other way, and misled by a sending worker's commit on a negative answer and in no other way |
| `DeliveryRuns.ClaimIsSafeIff` | internal/client/service/message.go:619-698 | the exact condition on a sending claim of a text not yet received: some continuation without a further late claim ends with the text reached and not received if and only if a check of it was started before the claim |
| `DeliveryRuns.LateClaimBreaksDelivery` | internal/client/service/message.go:619-761 | from every reachable state in which a text can be claimed late and has not been received there is a continuation that ends with it reached and not received |
| `DeliveryRuns.LateClaimPanics` | internal/client/service/message.go:697-720 | from every such state for an image there is one in which the type assertion on line 720 fails |
| `DeliveryRuns.LateClaimComes` | internal/client/service/message.go:605-655 | such a state can be reached from every reachable state with a young due message that has not been received |
| `DeliveryRuns.TextArrives` | internal/client/service/message.go:697-761 | from every reachable state, whatever its workers are doing, a due young text can still be received as it is and then be seen as reached, if the other side has an id left |
| `DeliveryOutcomes.CheckSettles` | internal/client/service/message.go:446-490 | from every reachable state, a due message too old to be sent again, text or image, can be checked: it ends reached and not pending if the other side has received it, and unreached and not pending if not; the other side's store does not change |
| `DeliveryOutcomes.SentTextArrives` | internal/client/service/message.go:492-596 | from every reachable state with ids left, a text sent now can end as an entry at the other side with its content and time to live, and reached and not pending at its sender |
| `DeliveryOutcomes.ImageArrives` | internal/client/service/message.go:713-730 | from every reachable state, a due young image is offered by its file name; the other side enters it at once if it has the file, and otherwise after being sent the content for the directory it has assigned; it is then reached and not pending |
| `DeliveryOutcomes.SendDoes` | internal/client/service/message.go:535-584 | sending stores the message as given, unreached and pending, under the next id, and changes nothing else on either side |
| `DeliveryOutcomes.WhoChangesWhat` | internal/client/service/message.go:160-861 | in every run, a message goes exactly when it is deleted or expires, changes only by the commit of its own worker, and comes only by sending or receiving; pending marks are set by sending and cleared by the own worker or expiry; received marks stay |
| `DeliveryOutcomes.HistoryIs` | internal/client/service/message.go:492-772 | the history fields of the machine record what has left the dialogue, what was checked, what was sent, and what was made of received texts |
| `DeliveryOutcomes.PanicsForget` | internal/client/service/message.go:716-728 | a restart, a failing type assertion and a payload that the parser panics on take what is in memory and leave the store |
| `DeliveryRuns.ImageReachedNotReceived` | internal/client/service/message.go:726-729 | from every reachable state a due young image that has not been received can come to be seen as reached without having been received, with no further late claim |
| `DeliveryTheorems.ReachedMeans` | internal/client/service/message.go:657-761 | in every run, a message seen as reached, text or image, has been received, or a sending worker has taken a negative answer about it for success, for a text only after a late claim; in a run without such a commit all reached messages have been received |
| `DeliveryTheorems.ReceivedBeforeReached` | internal/client/service/message.go:736-761 | when a step makes a text without a late claim reached, the other side had marked it as received before that step |
| `DeliveryTheorems.AcknowledgementsAreTrue` | internal/client/service/message.go:446-490 | every positive answer ever written, of all five kinds, names an id in its author's received set; no packet makes a read loop panic |
| `DeliveryTheorems.NothingIsTakenBack` | internal/client/service/message.go:657-685 | over any continuation of any run: reached stays, content does not change, deleted messages and cleared pending marks do not return, ids are not reused, received marks are kept |
| `DeliveryTheorems.InFlightExclusive` | internal/client/service/message.go:630-637 | at most one worker for a message; each waiting worker owns the slot of its id and no other worker's return frees it; the type assertion at line 720 fails for no worker without a late claim |
| `DeliveryTheorems.DialogueState` | internal/client/service/message.go:535-584 | a pending message still in the dialogue is outgoing and not reached; every id in use is at most the sequence and the next one is new |
| `DeliveryTheorems.WhatReachedMeans` | internal/client/service/message.go:709-761 | a message, text or image, becomes reached only by the commit of its own worker, holding a positive answer (then the other side has received it), or after a late claim, or, in the second request for an image, holding a negative answer to the first |
| `DeliveryTheorems.MailIsOffered` | internal/common/protocol/text/text.go:40-59 | the mailbox step of the delivery machine does to the channels of waiting workers what the result map does: the channel under the response's id is offered it, no other changes |
| `DeliveryTheorems.AskingRegisters` | internal/common/protocol/text/text.go:73-78 | a request of the delivery machine does to the result maps of both protocols what `Exchange.Register` does |
| `DeliveryTheorems.ReturnedUnregisters` | internal/common/protocol/text/text.go:80-84 | a request that returns does to them what `Exchange.Unregister` does |
| `DeliveryRound.RoundIsClaims` | internal/client/service/message.go:605-702 | the looks and claims of the delivery machine, run one after the other for all due messages, start exactly the workers that `Service.AsyncSend` claims messages for, leave the same recorder, and start or change no other worker |
| `DeliveryInvariant.SendPreserves` | internal/client/service/message.go:535-584 | sending keeps the invariant and takes nothing back |
| `DeliveryInvariant.LookPreserves` | internal/client/service/message.go:605-629 | what a round notes about a due message is about a message as it was sent |
| `DeliveryInvariant.ClaimPreserves` | internal/client/service/message.go:630-702 | a claim, however long after its look, keeps one worker per message, and a sending worker of a message that was ever asked about is known as late |
| `DeliveryInvariant.AgainPreserves` | internal/client/service/message.go:716-728 | the second image request only says what may be said: its subdirectory is short enough for the encoding and its id was sent |
| `DeliveryInvariant.CommitPreserves` | internal/client/service/message.go:657-685 | the transaction after an answer keeps the invariant at both ends, even when the message was deleted meanwhile |
| `DeliveryInvariant.MailPreserves` | internal/common/protocol/text/text.go:40-59 | a response, however late or repeated, that reaches a waiting worker without a late claim answers the question of that worker truthfully |
| `DeliveryInvariant.ServePreserves` | internal/client/service/message.go:126-158 | serving any of the five requests keeps the invariant, and the answer sent may be relied on for ever |
| `DeliveryInvariant.DeliverPreserves` | internal/client/service/message.go:126-158 | what comes off the wire is the action that was put on it, so delivering any packet any number of times keeps the invariant |
| `DeliveryInvariant.DeletePreserves` | internal/client/service/message.go:838-861 | deleting any ids at any moment keeps the invariant |
| `MessageService.Service.constructor` | internal/client/service/service.go:18-25 | an empty store is well-formed |
| `MessageService.Service.GetOrNewBucket` | internal/client/service/service.go:31-48 | refuses exactly the keys that end in the separator; otherwise the bucket exists afterwards, with what it held |
| `MessageService.Service.PutDestroy` | internal/client/service/message.go:568-582 | only the shared expiry bucket changes, as `WithExpiry` says |
| `MessageStore.ExpiryIs` | internal/client/service/message.go:568-582 | a message that lives for a time has an entry under the moment it expires, from which its id and peer can be read back; one that lives for ever has none; no other entry changes |
| `MessageService.Service.Send` | internal/client/service/message.go:492-596 | on the flat buckets, the peer's state becomes `Sent` of it, under the next id, and no other peer's state changes; or nothing changes, exactly for an unknown type, an image that cannot be kept or a refused peer |
| `MessageService.Service.Receive` | internal/client/service/message.go:165-216 | the transaction of the three synchronizing requests: the peer's state becomes `Received` of it, no other peer's state changes |
| `MessageService.Service.Exists` | internal/client/service/message.go:446-490 | answers yes if and only if the id is in the received set of the peer |
| `MessageService.Service.Settle` | internal/client/service/message.go:657-685 | the peer's state becomes `Settled` of it: reached is set only in a message that is still there, the pending mark is cleared; no other peer's state changes |
| `MessageService.Service.DelMessages` | internal/client/service/message.go:838-861 | exactly the given ids leave the dialogue; pending and received marks and all other peers are untouched |
| `MessageService.Service.Classify` | internal/client/service/message.go:605-629 | every pending message still in the dialogue appears exactly once, among those to send or those to ask about according to its age, and nothing else appears |
| `MessageService.Service.ClaimAll` | internal/client/service/message.go:632-636 | the claimed messages are exactly those without a busy worker, each once, and all are busy afterwards |
| `MessageService.Service.LoadOrStore` | internal/client/service/message.go:633-635 | says whether the id was busy, and it is busy afterwards, with no other entry changed |
| `MessageService.Service.AsyncSend` | internal/client/service/message.go:598-702 | one worker is started for every due message that has none and for no other, of the kind its age asks for |
| `MessageService.Service.GetLastMessages` | internal/client/service/message.go:818-836 | the whole dialogue of the peer and nothing else, in strictly increasing order of ids; an error exactly for a refused peer |
| `MessageService.Collected` | internal/client/service/message.go:825-832 | a reverse walk over keys in byte order that puts each message in front gives exactly the dialogue in numeric order |
| `Listing.ListingUnique` | internal/client/service/message.go:818-836 | there is only one listing of a dialogue |
| `Listing.SendAppends` | internal/client/service/message.go:535-584 | a message that is sent is listed last, as given, and becomes due; nothing else changes in the listing or becomes due |
| `Listing.ReceiveAppends` | internal/client/service/message.go:165-216 | a message that is received is listed last, as reached and not the client's own; its id at the sender is marked; nothing becomes due |
| `Listing.SettleMarks` | internal/client/service/message.go:736-761 | an answer marks its message in the listing if it is a good one, moves nothing, and the message is not due any more |
| `Listing.DeleteDrops` | internal/client/service/message.go:838-861 | exactly the given messages leave the listing and those due; all marks stay |
| `Listing.WorkerByAge` | internal/client/service/message.go:615-624 | a due message is sent up to ten seconds after it was made, and asked about later or if it is from the future |
| `MessageStore.SentEffect` | internal/client/service/message.go:535-584 | two bucket writes and an unrelated third are one step of the peer's state, invisible to every other peer |
| `MessageStore.ReceivedEffect` | internal/client/service/message.go:165-216 | the same for an incoming message |
| `MessageStore.SettledEffect` | internal/client/service/message.go:736-761 | the same for the transaction after an answer |
| `MessageStore.DeletedEffect` | internal/client/service/message.go:838-861 | the same for a deletion |
| `Buckets.NamesInjective` | internal/client/service/service.go:18-29 | a bucket name determines its kind and its peer, and none is one of the fixed names |
| `Buckets.OwnNames` | internal/client/service/service.go:31-38 | a peer's three buckets are different, and the separator check refuses them exactly when the peer id is empty or ends in the separator |
| `Buckets.OthersUnchanged` | internal/client/service/service.go:18-48 | a transaction on one peer's buckets and the shared expiry bucket changes no other peer's view and keeps the store well-formed |
| `Bytes.KeyOrder` | internal/client/service/message.go:545-546 | byte order of keys is numeric order of ids, for all 64-bit ids |
| `FrameFormat.FrameRoundTrip` | internal/common/protocol/frame.go:26-77 | a frame comes back with exact consumption, whatever follows it, if and only if its flag fits in three bits |
| `FrameFormat.FormatIs` | internal/common/protocol/frame.go:26-55 | the bytes of a frame, positionally: flag and code in the first byte, the size in as few bytes as it fits with the most significant first, then the payload |
| `FrameFormat.HeaderIs` | internal/common/protocol/reader.go:26-61 | what the reader takes any first byte and size field to announce, including codes 0x14 to 0x1f, which are sizes |
| `FrameFormat.DecodePads` | internal/common/protocol/frame.go:57-77 | decoding a short buffer is reading it with zeros added; decoding panics exactly if the header is cut or the size impossible |
| `FrameFormat.ReaderRefinesDecode` | internal/common/protocol/reader.go:26-75 | on every byte string: where the reader succeeds after k bytes, `Decode` of these k bytes gives the same frame, and `Decode` of a buffer with all its payload agrees with the reader |
| `FrameFormat.PrefixCode` | internal/common/protocol/frame.go:26-55 | encoded frames are a prefix code |
| `FrameFormat.UniqueSplit` | internal/common/protocol/frame.go:26-55 | a concatenation of frames splits in one way only |
| `FrameFormat.StreamRoundTrip` | internal/common/protocol/frame.go:26-55 | frames written one after the other are read back as written, in order, and what follows them is read as if alone |
| `FrameFormat.PartialDelivery` | internal/common/xrmmgr.go:52-71 | cut anywhere, a stream of frames yields exactly the frames that arrived whole, and then an incomplete one |
| `Frames.Frame.Encode` | internal/common/protocol/frame.go:26-55 | the buffer holds the header with the narrowest size field, then the payload |
| `Frames.Frame.Decode` | internal/common/protocol/frame.go:57-77 | panics exactly on a buffer shorter than its header or an impossible size; otherwise the frame has the flag and the payload, cut or padded to the announced size |
| `Transport.ReadFull` | internal/common/protocol/reader.go:28 | over arbitrary short reads, fills the range if and only if the connection still delivers enough |
| `Transport.Reader.Read` | internal/common/protocol/reader.go:26-75 | whatever the header buffer held and however short the reads, the result, the frame and the bytes consumed are those of the frame at the front of the stream |
| `Transport.Reader.ReadPayload` | internal/common/protocol/reader.go:62-73 | the chunked loop fills the payload exactly or fails exactly when too little arrives |
| `Transport.ReadLoop` | internal/common/xrmmgr.go:102-129 | of the frames in the stream those with flag 1 or 2 are handed on, all of them and in order, and no others; it panics exactly on an impossible size |
| `Transport.Stream.WriteWithContext` | internal/common/xrmmgr.go:43-72 | all the data in order; or a prefix, a closed stream, and a count of the chunks written whole |
| `Transport.SendAll` | internal/common/xrmmgr.go:43-72 | frames written by one writer up to the first failure leave a prefix of their encoding on the wire |
| `Transport.Transfer` | internal/common/xrmmgr.go:43-129 | end to end, encoder to read loop: of the frames written whole those with flag 1 or 2 are handed on, in order; if all have such a flag and no write failed that is all of them, if none has it is none |
| `Transport.ReadsOn` | internal/common/xrmmgr.go:114-128 | what is handed on of a stream that starts with whole frames is what is handed on of these, and then of the rest |
| `ActionStream.TransferActions` | internal/common/xrmmgr.go:43-129 | the frames of any sequence of actions are handed on unchanged and in order, all of them if no write failed, the first ones otherwise |
| `ActionStream.SendRequests` | internal/common/protocol/text/text.go:40-70 | requests written as frame objects are in the receiver channel of the other side in the order written, behind what it held, up to 1000 in all |
| `TextTypes.RoundTrip` | internal/common/protocol/text/types.go:19-180 | each of the four text actions is parsed back as itself |
| `TextTypes.FormatIs` | internal/common/protocol/text/types.go:66-176 | the bytes of the four actions, positionally |
| `TextTypes.ParseIs` | internal/common/protocol/text/types.go:19-39 | what the parser makes of any bytes: when exactly it panics or knows no action, and which fields it reads from where |
| `TextTypes.SyncTextRequest.Decode` | internal/common/protocol/text/types.go:55-64 | the object decodes what `parse` says, and panics exactly on a payload that is too short |
| `TextTypes.SyncTextRequest.PayloadBytes` | internal/common/protocol/text/types.go:66-78 | the buffer holds the encoding of the object |
| `TextTypes.TTLRoundTrip` | internal/common/protocol/text/types.go:47-82 | a time to live of either sign survives the conversions to and from `uint64` |
| `ImageTypes.RoundTripIff` | internal/common/protocol/image/types.go:21-275 | each of the six image actions is parsed back as itself if and only if its subdirectory has at most 244 bytes and its file name is split at its extension |
| `ImageTypes.FormatIs` | internal/common/protocol/image/types.go:75-274 | the bytes of the six actions, positionally |
| `ImageTypes.ParseIs` | internal/common/protocol/image/types.go:21-49 | what the parser makes of any bytes: when exactly it panics or knows no action, and which fields it reads from where |
| `ImageTypes.ExtIs` | internal/common/protocol/image/types.go:68-73 | the extension is what follows the last dot, with it, unless a slash comes later |
| `ImageTypes.LongSubdirPanics` | internal/common/protocol/image/types.go:153-159 | with a subdirectory of 245 to 255 bytes the parser panics |
| `ImageTypes.NewReqSyncHashCarried` | internal/common/protocol/image/types.go:57-87 | whatever the file name, the constructor's split is one that comes back, and the halves make up the name |
| `ImageTypes.SyncBytesRequest.Decode` | internal/common/protocol/image/types.go:153-159 | the object decodes what `parse` says, and panics exactly when the wrapped index is too small or too large |
| `ImageTypes.SyncBytesRequest.PayloadBytes` | internal/common/protocol/image/types.go:161-170 | the buffer holds the encoding of the object |
| `Wire.FullStack` | internal/common/protocol/image/image.go:40-70 | all ten actions through encoder, frame, reader, parser and dispatch: requests arrive at the receiver and responses at the slot of their id, unchanged, if and only if the encoding can carry them |
| `Wire.AnyFlag` | internal/common/protocol/text/text.go:40-70 | in whatever frame an action comes: a response in a meta frame goes to its slot, anything else in a meta or data frame to the receiver, and all other frames nowhere |
| `Correlation.Exchange.Handle` | internal/common/protocol/text/text.go:40-70 | a response lands in the channel registered for its id, if that is empty, and in no other; any other action goes behind those in the receiver, if it holds fewer than 1000; a malformed payload crashes the loop |
| `Correlation.Exchange.HandleRequests` | internal/common/protocol/image/image.go:40-70 | after any sequence of requests the receiver holds the first 1000 of all, in order of arrival |
| `Correlation.Exchange.Register` | internal/common/protocol/text/text.go:73-78 | a fresh empty channel stands under the id, all other entries are as before |
| `Correlation.Exchange.Unregister` | internal/common/protocol/text/text.go:80-84 | the entry of the id is gone, all others are as before |
| `StreamCache.StreamManager.Handle` | internal/common/xrmmgr.go:131-157 | the branches on direction, directness and peer order are the specification that the cache theorems are about |
| `StreamCache.StreamManager.CleanUp` | internal/common/xrmmgr.go:102-111 | removes the entry only if it is the read loop's own stream |
| `StreamCache.StreamManager.GetStream` | internal/common/xrmmgr.go:163-191 | gives the cached stream; or handles a dialled one and gives what is cached after any read loops that end in between, which need not be the dialled one and may be nothing; fails exactly when the dial does |
| `StreamCache.LookupFails` | internal/common/xrmmgr.go:184-188 | after a dial the second lookup finds nothing exactly if the stream cached by then has ended in between |
| `StreamCache.NoLeakNoWrongEviction` | internal/common/xrmmgr.go:102-157 | in every interleaving each cached stream has a read loop that has yet to clean up, a cleanup removes no other stream, and when all loops are gone the cache is empty |
| `StreamCache.CacheClosedForm` | internal/common/xrmmgr.go:131-157 | in every run the cached stream is the last one the smaller peer initiated since the last direct stream, or else the last of the larger, or that direct stream if it has no direction, among those handled since the entry was last missing |
| `StreamCache.KeptStep` | internal/common/xrmmgr.go:131-157 | one more stream changes that choice exactly as `handle` does |
| `StreamCache.EndsAgreeIff` | internal/common/xrmmgr.go:139-154 | for any two histories of links the two peers choose the same link if and only if the last link of the smaller initiator since the last direct one, or else of the larger, is the same in both |
| `StreamCache.RunsAgreeIff` | internal/common/xrmmgr.go:131-157 | the same for the caches of the two ends after any two runs, with removals |
| `StreamCache.EndsAgree` | internal/common/xrmmgr.go:139-154 | in particular they agree when both saw the same links since the last direct one, in any interleaving that keeps each initiator's order |
| `StreamCache.RunsAgree` | internal/common/xrmmgr.go:131-157 | the same for the caches after two whole runs |
| `StreamCache.RelayedAgree` | internal/common/xrmmgr.go:131-157 | two peers that are handed the same relayed links in any such orders cache the same link |
| `StreamCache.DirectLinkCanSplit` | internal/common/xrmmgr.go:137-138 | with one direct and one relayed link handed over in different orders the two caches hold different links |
| `PeerSave.Peers.SetEVMAddr` | internal/client/service/peer.go:146-169 | changes the one field of an existing record, makes no record, touches no other peer |
| `PeerSave.Peers.SetRemark` | internal/client/service/peer.go:171-194 | the same for the remark |
| `PeerSave.Peers.SetPin` | internal/client/service/peer.go:196-219 | the same for the pin |
| `PeerSave.RunInv` | internal/client/service/peer.go:61-122 | any number of calls in any interleaving, with faults: locks and holders match, there is only the stored mutex, done means a record with the settled address |
| `PeerSave.Exclusive` | internal/client/service/peer.go:62-84 | at most one call is between its double check and the release |
| `PeerSave.DoneForever` | internal/client/service/peer.go:79-84 | after a success the entry is done for good, no call works on the peer again, and the record has the address that call settled on |
| `PeerSave.DoneWasAnswered` | internal/client/service/peer.go:107-121 | the address of a done peer was known without a query and is not empty, or is the answer of a query in the run; it is the latter if it is empty, or if the peer is remote and had no address stored |
| `PeerSave.SaveSettles` | internal/client/service/peer.go:79-121 | from every reachable state a call at its first transaction ends so: with an address found, done with it; with none, done with the peer's answer if it is set soundly; otherwise not done; the mutex is free in each case |
| `PeerSave.WaiterGoesOn` | internal/client/service/peer.go:64-78 | a call that waited goes on to the first transaction if the entry is still the mutex, and returns with the mutex free if it is done |
| `PeerSave.DoneReturns` | internal/client/service/peer.go:75-77 | a call that comes to a done entry returns at once and changes nothing |
| `PeerSave.FailureRetryable` | internal/client/service/peer.go:64-84 | when nobody holds the lock of an entry that is not done, a new call gets through to the first transaction |
| `PeerSave.SettersNotLost` | internal/client/service/peer.go:88-121 | a remark or pin committed at any moment, also between the two transactions of a `Save`, is in the record until the next such event, whatever other events follow |
| `ProbeRunner.RunInv` | internal/client/service/probe.go:47-121 | in every interleaving of `Run`, `Stop` and ending probes, whoever is past the lock holds it and the stored function cancels that holder's context |
| `ProbeRunner.Exclusive` | internal/client/service/probe.go:47-80 | at most one goroutine probes and at most one context is not cancelled |
| `ProbeRunner.StopsItself` | internal/client/service/probe.go:73-80 | the deferred stop of a probe cancels its own context and no other |
| `ProbeRunner.StopLeavesNone` | internal/client/service/probe.go:116-121 | after `Stop`, or the start of another `Run`, no context is live |
| `ProbeRunner.ProbesUntilCancelled` | internal/client/service/probe.go:82-109 | a probe leaves its loop only when its context, or the service's, is cancelled |
| `ProbeRunner.ProbeCanEnd` | internal/client/service/probe.go:73-121 | after `Stop`, or when the service ends, the running probe can leave, cancel its own context and free the lock |
| `ProbeRunner.RunProbes` | internal/client/service/probe.go:47-110 | from every reachable state with no other call between lock and goroutine, a call of `Run` can end the running probe and then probes itself, with the only live context |
| `ProbeMailbox.HistoryIs` | internal/client/service/probe.go:60-72 | the statuses of a run are the first one and those that `update` was called with, without immediate repeats |
| `ProbeMailbox.NoRepeats` | internal/client/service/probe.go:63-65 | no two neighbours of the history are equal, and an update with the status reported last changes nothing |
| `ProbeMailbox.NewestArrives` | internal/client/service/probe.go:66-70 | when the update in progress is finished and the slot emptied, the consumer has seen the status reported last, and there is nothing more to see |
| `ProbeMailbox.ConsumerSees` | internal/client/service/probe.go:60-72 | an update never blocks, and the consumer sees a subsequence of the status history |
| `Identify.Queries.Begin` | internal/common/protocol/identify/identify.go:88-94 | a query gets the counter's value as its id, with a new empty channel under it, and the counter wraps |
| `Identify.Queries.End` | internal/common/protocol/identify/identify.go:96-100 | the entry under the query's id is removed |
| `Identify.Queries.HandleData` | internal/common/protocol/identify/identify.go:73-86 | an answer is put into the channel under the id in its first two bytes, with the rest of it as the address, if there is one and it is empty; no other channel changes; panics exactly below two bytes |
| `Identify.BeginIff` | internal/common/protocol/identify/identify.go:88-94 | starting a query keeps one slot per query if and only if nobody waits under the next id |
| `Identify.EndKeeps` | internal/common/protocol/identify/identify.go:96-100 | ending a query removes its own slot and leaves every other query's in place |
| `Identify.NextIdFree` | internal/common/protocol/identify/identify.go:88-94 | the next id is taken if and only if some waiting query was started a multiple of 65536 starts ago |
| `Identify.DistinctIds` | internal/common/protocol/identify/identify.go:88-106 | in every run with fewer than 65536 starts since the oldest waiting query, waiting queries have different ids and the result map holds exactly their channels |
| `Identify.AnswerFindsQuery` | internal/common/protocol/identify/identify.go:73-94 | in such a run the answer to a waiting query is for the channel of that query |
| `Identify.AnswerRoundTrip` | internal/common/protocol/identify/identify.go:44-106 | through both frames the answer comes back under the id that was sent, with the address |
| `Handover.SDK.Install` | cmd/client/mobile/main.go:195-206 | alone, the loop ends with the new function in the channel and exactly the old one called |
| `Handover.SDK.Close` | cmd/client/mobile/main.go:474-478 | alone, the channel is empty and exactly the function it held was called |
| `Handover.Conservation` | cmd/client/mobile/main.go:195-210 | in every interleaving each cancel function was called or is in exactly one place |
| `Handover.AtMostOneLive` | cmd/client/mobile/main.go:474-478 | with no call under way at most the context in the channel is live, and a `Close` then leaves none |
| `Handover.InitFinishes` | cmd/client/mobile/main.go:197-205 | from every reachable state a call in its loop can end in at most four steps, with its function in the channel and exactly the one that was there and the one it held called |
| `Handover.CalledByHolder` | cmd/client/mobile/main.go:195-210 | a cancel function is called exactly by who took it out of the channel, or when its own client ends |
| `Handover.LoopsEnd` | cmd/client/mobile/main.go:197-205 | turns of the loops and takes by `Close`, plus twice the loops running, plus the channel's occupancy, are twice the calls of `Init`; so the loops end |

## Left out

- `FlushMessages` and `TruncateBucket`: they restart the sequence while pending and received marks stay, so
  the delivery theorems are about runs without them.
- The expiry sweep (`message.go:77-124`) is an arbitrary step that removes one message and its pending mark;
  which messages it picks is not modelled.
- That an image seen as reached was received: false (`ImageReachedNotReceived`); `ReachedMeans` and
  `WhatReachedMeans` say when it holds.
- Two messages of one round that are looked at in one transaction are two looks in `Delivery`, which may
  have other steps between them; a note stays, as any number of rounds may have taken it.
- Exactly-once delivery: every request for a text makes an entry, so a text may be entered more than once.
- Writers that interleave on one stream: `WriteWithContext` takes no lock, and frames above 4096 bytes
  would mix.
- Goroutines and locks as such: the state machines take each critical section, transaction and channel
  operation as one step. The classes' methods are those steps, or whole calls with nothing in between.
- The receiver channel of 1000 requests is modelled in `Correlation`; in `Delivery` a dropped or waiting
  request is a packet that is lost or late.
- A panic in a read loop is a restart in `Delivery`; that other goroutines die with it is part of that step.
- Eight of the ten actions are values only; the two with fields of varying length are also objects that
  decode into themselves and fill buffers.
- File reads and writes, MD5, MIME types and `getSubdir`: what an image request finds is a parameter; the
  file name sent with an image is a parameter too. Paths use the separator of Unix.
- The offset and limit of `GetLastMessages` (unused), `c.Delete()` in a read-only transaction (no effect),
  `GetMessage`, and the arrival and reception notifiers.
- Sending the query of `QueryEVM`: the wrong variable is looked at on `identify.go:109`, and a failed dial ends
  in a nil dereference that stops the process.
- Deadlines as real time, `Connected`, hosts, DHT and relay set-up, key derivation, configuration, the
  logger, the server, the heartbeat, the sort order of peers and the PC client.
