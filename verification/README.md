# frpc in Dafny

A model of the parts of frpc (a Go RPC framework) in which its guarantees live, with proofs of what
those parts promise, for all inputs and all interleavings.

* **Calls over one connection** (`Rpc`, `RpcCalls`, `RpcReplies`, `RpcOnce`, `RpcCancel`,
  `RpcDelivery`, `ClientConn`). Callers, cancellers, the reading loop, the final sweep, `close` and
  the server's goroutines form one transition system over two byte streams. An event is one section
  under the client's mutex, one write to or read from the connection, or one call of `done()`. Every finite
  sequence of events is a run (an event that is not possible in a state leaves it as it is), so a
  theorem about all sequences is a theorem about all interleavings. `ClientConn` executes the locked
  sections in place and is proved against the events. Codecs, gzip and service methods are opaque
  functions: the payload of a request is a function of the arguments of its call, and what handling
  a request does is a function of the request and of the goroutine that handles it, so that two
  replies cannot trade their contents.
* **The wire** (`Bytes`, `Header`, `Metadata`, `Wire`, `Messages`, `Stream`, `Pool`, `Server`,
  `Serving`). Bit-packed headers with setters that only OR bits in, length-prefixed bodies, metadata records
  parsed in wrapping 32-bit arithmetic, reused and pooled messages, and what the server writes for a
  request. Slice bounds panics are outcomes. Messages, headers and pools are mutable objects; their
  methods are proved against functions on values.
* **Selectors** (`SmoothWeighted` on `WeightedAccounts` and `Sums`, `RoundRobin`, `JumpHash`).
  `JumpHash` models double-precision rounding (53 bits, ties to even) rather than assuming anything
  of it.
* **The circuit breaker** (`Breaker` for one caller at a time, `ConcurrentBreaker` for many).
* **Retry loops over the client cache** (`Retry` executed by one goroutine, `RetryRace` for any number
  of them interleaved).

Where the code does not provide what one might expect of it, the model follows the code, and the exact
condition under which the expectation holds is a theorem:

* A call can be signalled twice: the final sweep leaves its entries in the pending map, and a failed
  encoding leaves its entry behind. `RpcOnce.OnceExactlyWhenSecure` says for which calls, in which
  states, no continuation signals the call twice, and for which some continuation does
  (`RpcOnce.SweepThenFailedWriteSignalsTwice` and `RpcOnce.SweepThenCloseSignalsTwice` are such
  runs). Only a client in a parent's cache is ever closed, and only once; the model keeps track of
  that.
* A cancelled `call` takes the call registered under number 0, because the derived context is
  discarded. The event `Cancel` does the same, and the theorems hold with it
  (`RpcCancel.OwnCallIffFirst`, `RpcCancel.CancelHitsAnother`).
* A server push skips the reset of the reused message, and `Decode` keeps old metadata when a message
  has none. `Stream.FaithfulIffNoLeak` is the exact condition for a faithful stream,
  `Stream.PushLeaks` a stream that is not.
* The header setters are exact only on suitable old values (`Header.OrSetterExactIff`).
* A retry loop whose attempts all failed returns nil when its last reselection succeeded, and a loop
  with no retries returns nil without having called anybody (`RetryRace.ResultOfLoop`,
  `RetryRace.NilAfterFailure`).
* A client that is down can be returned from the cache, because the second look does not ask again
  (`RetryRace.SecondLook`, `RetryRace.DeadClientIsReturned`).
* A frame cut off exactly before its length or its body looks like a regular end of the stream
  (`Wire.TruncatedFrame`).
* `IsOneway` documents that the server sends no response. A one-way heartbeat is answered all the same
  (`Serving.ServedNumber`, `Serving.OnewayHeartbeatIsAnswered`).
* A frame above MaxMessageLength is written all the same, and the far end then stops reading.
  `RpcDelivery.AnsweredIffClear` says exactly when a connection still serves new calls,
  `RpcDelivery.EveryLimitCanBlock` that every maximum can be exceeded.
* Weights may be negative. With a total of zero or more the selector returns to its start if and
  only if none is; with a negative total it stays with one server for ever and returns only when
  that is the only one (`SmoothWeighted.ExactIffNonNegative`, `SmoothWeighted.FirstForEver`).

## Model

| member | source | states |
|---|---|---|
| RpcReplies.ReplyAnswersItsCall | client/client.go:89-148 | End-to-end correlation: in every run with at most 2^64 registrations, a reply delivered to a call carries that call's number; the request written for the call carries its number, path, method, metadata and encoded arguments; exactly one server goroutine worked on a frame of the call, on that very request; and the reply is what that goroutine answered |
| RpcReplies.CallerLearns | client/client.go:115-145 | In every run a reply delivered to a call with a path or a method tells how the server fared with that call's own request: normal status and the method's reply if the service, the method and the codec exist and the method gave a reply; otherwise error status and, unless the method's metadata overwrote it, the text for an unknown service, an unknown method, an unknown codec or the method's own error, in this order |
| RpcReplies.AtMostOneReply | client/client.go:97-105 | In every run no call is completed by two replies |
| RpcReplies.StreamsStayFramed | client/client.go:92-96 | In every run each end decodes a whole message, refuses a frame exactly when it exceeds that end's own maximum, or finds the stream empty; the client never takes a reply for a server push |
| RpcReplies.EveryRunIsGood | client/client.go:89-168 | All invariants together hold in every reachable state: both streams are exactly the frames under way, goroutines hold the requests of their calls, no call is written or completed twice, answers are conserved |
| RpcReplies.TakeFindsItsCall | client/client.go:97-105 | The pending entry the reader takes is that of the call whose answer is first on the stream |
| RpcReplies.WrittenIsRequest | client/client.go:381-413 | What send writes for a registered call is a request of normal status under that call's number, with its path, method, metadata and its packed arguments as payload, a heartbeat exactly for the empty path and method |
| RpcReplies.WriteKeepsWires | client/client.go:415-417 | A write of any size that uint32 can state appends one frame to the upward stream and keeps the invariants of both streams |
| RpcReplies.ServerReadKeepsWires | server/server.go:232-248 | The server's next decode consumes exactly the first frame under way and the goroutine it starts holds the request of that frame's call |
| RpcReplies.ServerAnswerKeepsWires | server/server.go:248-288 | Goroutines answer in any order, with frames of any such size, or lose their write, and every frame on the way down stays the answer of the goroutine it is tagged with |
| RpcReplies.ReaderTakeKeepsWires | client/client.go:93-105 | Taking a reply, or dropping one nobody waits for, keeps the invariants of both streams |
| RpcReplies.OneFrameKept | client/client.go:415-417 | The order of the calls on the upward stream, read ones first, is free of repetitions; a write extends it and a read of the server leaves it as it is |
| RpcReplies.ReplyNumber | server/server.go:333-336 | The answer of a goroutine carries the number of the call whose request it worked on |
| RpcReplies.RunConservesAnswers | server/server.go:248-288 | In every run, for every number, the requests read that ask for an answer are as many as the answers written, those lost and the requests in hand; those that do not ask end silently; each request is in one goroutine's hands or was ended once; and the answers written are, in their order, those the client has read followed by those under way |
| RpcReplies.DeliveredKept | client/client.go:93-105 | No event loses, repeats or reorders an answer between the server that wrote it and the client that reads it |
| RpcReplies.CodecIsKnown | client/client.go:361-367 | In every run only a client with a known codec registers a call |
| RpcReplies.OnlyBodiesEndTheLoop | client/client.go:107-146 | In every run an error reply, a heartbeat and an empty reply leave the reader in its loop; only decoding a body can end it |
| RpcDelivery.CallIsAnswered | client/client.go:352-428 | From every state of a run in which the connection is in use and the frames under way fit, any call whose request and answer fit can be carried through after those frames, and ends up signalled once with the server's answer to its own request |
| RpcDelivery.AnsweredIffClear | protocol/message.go:204-206 | Some continuation delivers a reply to a new call if and only if every frame under way fits the end it travels to |
| RpcDelivery.BlockedForGood | protocol/message.go:204-206 | A frame above the receiver's maximum cuts off every call behind it, in all continuations |
| RpcDelivery.OversizedFrameBlocks | protocol/message.go:204-206 | A run in which a first call's frame exceeds the server's maximum: the connection is in use and no new call can ever be answered |
| RpcDelivery.EveryLimitCanBlock | protocol/message.go:204-206 | For every positive maximum there is such a call |
| RpcDelivery.DrainUp | server/server.go:223-248 | The server can read all requests under way, in their order, without anything else changing |
| RpcDelivery.DrainDown | client/client.go:92-147 | The reader can take or drop all replies under way and go on reading |
| RpcDelivery.AlwaysAnswered | server/server.go:248-288 | The server answers every request that send builds |
| RpcCalls.NoLostCall | client/client.go:352-440 | In every run a call send has taken in is pending, held by a goroutine about to signal it, or signalled; before the first signal the one-slot channel is empty, so the first signal always fits |
| RpcCalls.OnceBeforeSweep | client/client.go:80-87 | Before the sweep a call whose arguments can be encoded is signalled at most once, and once signalled nobody will signal it again |
| RpcCalls.FinalSweepIsComplete | client/client.go:149-163 | After the sweep no event adds to the pending map, and every call ever taken in was signalled or is held by a goroutine about to signal it |
| RpcCalls.EveryRunIsSafe | client/client.go:323-486 | Numbers are unique, pending entries are consistent and completions are conserved in every reachable state |
| RpcCalls.EventLaws | client/client.go:323-486 | Every event but issuing and registering keeps, for each call, the completions given plus those owed, except for the failed encoding, the refusal and the sweep, which owe one anew |
| RpcCalls.RegisterTokens | client/client.go:369-375 | Registering owes the call one completion and nobody else any |
| RpcCalls.RegisterKeepsCore | client/client.go:372-374 | The number given out is held by no other call, for the first 2^64 registrations |
| RpcCalls.TakeBackLaws | client/client.go:418-438 | A failed write takes the call back under its own number and hands its completion to the writing goroutine |
| RpcCalls.HoldTokens | client/client.go:330-337 | Taking a call out of the pending map hands its completion over and concerns nobody else |
| RpcCalls.CrowdTokens | client/client.go:159-162 | Signalling everyone conserves completions when the map is emptied, as close does, and owes each pending call one more when it is not, as the sweep does |
| RpcCalls.NeverPendingAgain | client/client.go:352-375 | A call taken in that is not pending any more never becomes pending again |
| RpcCalls.AcceptedExactly | client/client.go:353-375 | send takes a call in if and only if the client is neither shut down nor closing and its codec is known, and refuses it otherwise |
| RpcCalls.NothingEntersAfterTheEnd | client/client.go:353-375 | Once the client is shut down or closing it stays so under every event, and nothing enters the pending map any more |
| RpcCalls.CloseEnds | client/client.go:469-486 | close empties the pending map, signals exactly the calls that were in it once each, and leaves the client ended |
| RpcCalls.MarkAndEvict | client/client.go:246-258 | Closing the client itself only marks it, and taking it out of the cache only ends the parent's reach |
| RpcCalls.ReceiveEmpties | client/client.go:326-339 | Receiving empties the slot of this call and no other |
| RpcOnce.OnceExactlyWhenSecure | client/client.go:149-163 | At any point of any run a call is signalled at most once in all continuations if and only if goroutines owe it at most one completion in all, it is not about to fail to encode, and it has left the pending map or waits there written, not under number 0, for a client no parent can close any more |
| RpcOnce.ExposedCanBeSignalledTwice | client/client.go:418-427 | Whenever that condition fails there is a run, by steps open to this client, that goes on to signal the call twice |
| RpcOnce.LooseAfterSweep | client/client.go:159-162 | After the sweep a pending call gets a second completion from its own failing write, a parent's close, a cancel for number 0, a failed encoding or the one-way test on the freed message, whichever applies |
| RpcOnce.ByEncodeFail | client/client.go:396-401 | A failed encoding leaves the call where it is and owes it one more completion |
| RpcOnce.GetSwept | client/client.go:149-163 | The end of the connection alone brings the reader to its sweep, with the call still pending |
| RpcOnce.StaysPending | client/client.go:149-163 | After the sweep nobody touches a written call, not under number 0, of a client that no parent can close |
| RpcOnce.EveryRunIsSound | client/client.go:352-428 | In every run only encodable calls are written, and a call that failed to encode is owed one completion too many, two after the sweep if it is still pending |
| RpcOnce.SecureForGood | client/client.go:323-486 | A call that is safe from a second completion stays so under every event |
| RpcOnce.EverythingOwedIsDeliverable | client/client.go:418-427 | From every state a run without new calls, without the server and without close can go on until a call has been signalled exactly as often as goroutines owe it |
| RpcOnce.EveryCallCanComplete | client/client.go:149-163 | From every state of every run, without the server and without close, the end of the connection suffices to signal a call taken in |
| RpcOnce.SweepThenCloseSignalsTwice | client/client.go:442-453 | A run in which the sweep and a later close of the parent signal the same call |
| RpcOnce.SweepThenFailedWriteSignalsTwice | client/client.go:417-427 | A run, for any client, in which the sweep and the failing write of the call's own sender signal the same call |
| RpcCancel.CancelsTakeOnlyTheFirst | client/client.go:324-337 | In every run, however many callers are cancelled, cancels take at most one call out of the pending map between them, and it is the one registered under number 0 |
| RpcCancel.OwnCallIffFirst | client/client.go:324-337 | A cancelled caller takes its own pending call if and only if that has number 0 |
| RpcCancel.CancelHitsAnother | client/client.go:324-337 | A run in which the caller of the second call is cancelled, the first call is taken and the second stays pending |
| ClientConn.Connection.constructor | client/client.go:369-371 | A new connection has no calls and number 0 |
| ClientConn.Connection.Done | client/client.go:80-87 | Signalling fills the one-slot channel or drops the signal; it counts once and concerns no other call |
| ClientConn.Connection.Register | client/client.go:353-375 | send's first section refuses or registers exactly as the event Register does |
| ClientConn.Connection.Take | client/client.go:330-333 | Looking up and deleting a pending entry gives the call registered there and removes that entry only |
| ClientConn.Connection.Sweep | client/client.go:149-163 | The loop over the pending map, in any order, signals exactly the pending calls once each, removes none and shuts the client down |
| ClientConn.Connection.Close | client/client.go:469-486 | The loop that deletes while it iterates signals exactly the pending calls once each and empties the map; it reports whether the client was still open |
| ClientConn.SignalOneMore | client/client.go:159-162 | One more turn of such a loop is one more call signalled, whatever the iteration order |
| Wire.RoundTrip | protocol/message.go:188-250 | For every message, map iteration order, previous content of the receiver and rest of the stream, Decode consumes exactly the frame and succeeds if and only if the frame fits; it then gives back the message, with old metadata kept when there is none to read; a frame is refused as too long if and only if there is a maximum and its body exceeds it |
| Wire.BodyDecodes | protocol/message.go:215-249 | The body of an encoded message decodes to its parts |
| Wire.TailDecodes | protocol/message.go:230-249 | So do its metadata and payload, from any position |
| Wire.PartsComeBack | protocol/message.go:188-250 | The round trip part by part: header, path, method and payload are those sent, and metadata those sent if there are any |
| Wire.FrameLayout | protocol/message.go:280-308 | Where header, total length, path, method, metadata and payload lie in a frame, each behind its own length |
| Wire.TruncatedFrame | protocol/message.go:190-212 | A frame that breaks off anywhere is an unexpected end, except exactly before the length or the body, where it passes for a regular end of the stream |
| Wire.MetadataDecides | protocol/message.go:235-240 | A body with arbitrary bytes for metadata decodes if and only if these are whole records; otherwise path and method are read and the outcome is missing metadata or a panic |
| Wire.TailDecides | protocol/message.go:230-249 | What each outcome of decodeMetadata leaves in the message |
| Wire.BodyReachesTail | protocol/message.go:215-228 | Path and method are read whatever the metadata field holds |
| Metadata.AcceptsExactlyRecords | protocol/message.go:252-278 | For every length and every backing array, under 32-bit wrap-around, decodeMetadata succeeds if and only if the first l bytes are whole records, and returns the map in which the last value of a key wins |
| Metadata.ParseSound | protocol/message.go:255-277 | What is accepted is a sequence of whole records |
| Metadata.ParseComplete | protocol/message.go:255-277 | A sequence of whole records is accepted, from any position and with any map so far |
| Metadata.RefusedAt | protocol/message.go:255-275 | Bytes that are refused hold whole records up to a first bad one; there the loop reports a missing key or value and keeps what it has read, or panics on a length that lies beyond the data or wraps around |
| Metadata.RecordLayout | protocol/message.go:316-323 | Key length, key, value length and value, in this order |
| Metadata.LastWins | protocol/message.go:274 | The keys stored are those that occur, each with the value it occurs with last |
| Metadata.AcceptedRecord | protocol/message.go:258-274 | One accepted turn of the loop read one whole record |
| Metadata.DecodeMetadata | protocol/message.go:252-278 | The loop computes the parse function, faults included |
| Metadata.Bounds | protocol/message.go:258-263 | The wrapping bounds of one length-prefixed string |
| Metadata.EncodeMetadata | protocol/message.go:310-325 | The bytes are the records of the map in some iteration order |
| Bytes.Uint32Is | protocol/message.go:201 | A length on the wire is four bytes, most significant first |
| Bytes.Uint64Is | protocol/message.go:171-176 | A number on the wire is eight bytes, most significant first |
| Messages.CopyInto | protocol/message.go:290-291 | Copying into a buffer writes the bytes at their place and no others |
| Messages.PutField | protocol/message.go:295-305 | A length and its contents written at an offset |
| Messages.Reader.ReadFull | protocol/message.go:190-193 | All the bytes asked for, or everything that is left with EOF if that is nothing and an unexpected end otherwise |
| Messages.Message.constructor | protocol/message.go:76-83 | A new message is clean and carries the magic number 0x08 |
| Messages.Message.SetMessageType | protocol/message.go:106-108 | In-place setter, equal to its function on headers |
| Messages.Message.SetHeartbeat | protocol/message.go:116-122 | In-place setter, equal to its function on headers |
| Messages.Message.SetCompressType | protocol/message.go:145-147 | In-place setter, equal to its function on headers |
| Messages.Message.SetStatusType | protocol/message.go:155-157 | In-place setter, equal to its function on headers |
| Messages.Message.SetSerializeType | protocol/message.go:165-167 | In-place setter, equal to its function on headers |
| Messages.Message.SetSeq | protocol/message.go:175-177 | In-place setter, equal to its function on headers |
| Messages.Message.Reset | protocol/message.go:327-341 | Everything but the first header byte is cleared, and that byte is kept |
| Messages.Message.Encode | protocol/message.go:280-308 | The buffer is a frame of the message, for the metadata order met |
| Messages.LayOut | protocol/message.go:283-307 | Header, length and the four fields written at their offsets make up the frame |
| Messages.Message.Decode | protocol/message.go:188-213 | Outcome, message and unread rest of the stream are those of the decoding function, error paths included |
| Messages.Message.DecodeBody | protocol/message.go:215-228 | Path and method, with the slice panics |
| Messages.Message.DecodeTail | protocol/message.go:230-249 | Metadata and payload; old metadata stays when the length is 0 |
| Header.SetVersionReads | protocol/message.go:91-98 | The setter replaces its byte and leaves every other field alone |
| Header.SetMessageTypeReads | protocol/message.go:101-108 | The setter merges into its field and leaves every other field alone |
| Header.SetHeartbeatReads | protocol/message.go:111-122 | The setter replaces its flag and leaves every other field alone |
| Header.SetOnewayReads | protocol/message.go:126-137 | The setter replaces its flag and leaves every other field alone |
| Header.SetCompressTypeReads | protocol/message.go:140-147 | The setter merges into its field and leaves every other field alone |
| Header.SetStatusTypeReads | protocol/message.go:150-157 | The setter merges into its field and leaves every other field alone |
| Header.SetSerializeTypeReads | protocol/message.go:160-167 | The setter merges into its field and leaves every other field alone |
| Header.SetSeqReads | protocol/message.go:170-177 | The number set is the number read, and every other field is left alone |
| Header.ZeroedReadsZero | protocol/message.go:336-341 | A reset header reads as zero in every field |
| Header.HeaderLayout | protocol/message.go:91-172 | Which bits of which bytes hold version, type, flags, compression, status, codec and number |
| Header.OrSetterExactIff | protocol/message.go:145-167 | An OR-only setter stores its value if and only if the value fits the field and covers the old one |
| Header.OrSetterStoresWrongType | protocol/message.go:106-108 | A response on which the request type is set stays a response |
| Header.OrSetterMixesValues | protocol/message.go:145-147 | A header on which compression 1, then 2, reads 3 |
| Stream.LoopFollowsFrames | client/client.go:92-147 | From a concatenation of frames the reading loop gets one message per frame, each Decode consuming exactly its own frame, and ends with EOF |
| Stream.FaithfulIffNoLeak | client/client.go:107-147 | The messages decoded are those sent if and only if no message without metadata directly follows a push with some |
| Stream.PushLeaks | client/client.go:109-114 | Two frames, a push with metadata and a message without, that are not decoded as sent |
| Stream.PushOnWire | client/client.go:99 | A message is a push exactly when, of the three highest bits of byte 2, only the one-way flag is set |
| Stream.ReceiveAll | client/client.go:91-148 | The loop over one reused message computes the receiving function from a clean message |
| Pool.MessagePool.constructor | protocol/pool.go:5-14 | An empty pool |
| Pool.MessagePool.GetMsgs | protocol/pool.go:17-19 | Any pooled message or a new one; it is clean and shares its header with no pooled one |
| Pool.MessagePool.FreeMsg | protocol/pool.go:21-24 | The message enters the pool reset |
| Pool.MessagePool.Copy | protocol/message.go:179-186 | Header, path and method are copied, metadata and payload are not, and the original is unchanged |
| Pool.RequestReadsBack | client/client.go:381-413 | On a pooled message the setters of send are exact: the header reads back as precisely the type, flags, compression, codec and number set, and path, method, metadata and payload are those of the call |
| Pool.RequestBytes | client/client.go:381-415 | The header bytes of a request: heartbeat bit for the empty path and method, compression bit for arguments of more than 1024 bytes under gzip, the codec, and the number |
| Pool.EncodableMeans | client/client.go:385-411 | A request can be built if and only if it is a heartbeat, or its arguments encode and, above 1024 bytes under gzip, compress |
| Pool.FillRequest | client/client.go:382-413 | send's writes to the pooled message, as a function of it; it fails exactly when encoding or compressing the arguments fails |
| Pool.SendRequest | client/client.go:381-428 | Bytes are written exactly when the arguments can be encoded, they encode the request built on a clean message, and the pool stays clean |
| Server.AnswerHeader | server/server.go:333-404 | An answer is a response with number, flags and codec of its request; unless it is a heartbeat, the error bit is added to the status if and only if the service, the method or the codec does not exist or the method gives no reply |
| Server.ErrorCases | server/server.go:341-394 | Which error handling ends with, in the order of the checks: unknown service, unknown method, unknown codec, the error of the method; none if and only if all pass |
| Server.AnswerContents | server/server.go:333-404 | What an answer carries: a heartbeat what came in, a success the reply and the method's metadata, a failure no payload and the error under the reserved key, overwritten by the method's metadata |
| Server.AnswerBytes | server/server.go:336-398 | The header bytes of an answer are those of its request with the response bit and, exactly for failures, the error bit |
| Server.HandledWell | server/server.go:335-394 | A call that succeeds keeps the status of its request and carries the reply |
| Server.ErrorTextTravels | server/server.go:397-404 | The error text arrives under the reserved key if and only if the method's own metadata does not overwrite it with another |
| Serving.ResponsesAreConserved | server/server.go:223-290 | For any requests whatever, in every run, whatever order the goroutines finish in and whichever writes are lost: for every number the requests read that ask for an answer are as many as the answers written under it, the answers lost and the requests in hand, the others end silently, and each request is ended at most once, with its own answer |
| Serving.AllAnswered | server/server.go:248-288 | Once all goroutines have finished and no write was lost, as many answers were written under a number as requests under it asked; every answer is a response |
| Serving.ServedNumber | server/server.go:249-277 | There is an answer if and only if the heartbeat flag is set or the one-way flag is not, and it carries the request's number |
| Serving.OnewayHeartbeatIsAnswered | server/server.go:249-255 | A one-way request that is answered: the heartbeat with both flags |
| Serving.FinishConserves | server/server.go:264-277 | A goroutine that ends moves its request from the ones in hand to the answers written, the answers lost or the silent ends |
| Serving.AcceptConserves | server/server.go:232-248 | A request read is a request in hand |
| Server.HandleRequest | server/server.go:333-395 | The error returned, case by case: the text for the unknown service, the unknown method, the unknown codec, the error of the method, and none when all pass, with the reply as payload and the status as it was; the request is unchanged and the pool stays clean |
| Server.HandledByCopy | server/server.go:335-336 | Handling the copy is handling the request |
| Server.Fill | server/server.go:336-395 | The checks in their order and their effect on the response; no error if and only if service, method and codec exist and the method gives a reply |
| Server.HandleError | server/server.go:397-404 | Status and metadata of an error response |
| Server.AddMeta | server/server.go:265-274 | The method's metadata is merged into the response |
| Server.Serve | server/server.go:248-288 | A goroutine writes an encoding of the answer exactly when there is one; the pool stays clean and gets the request back unless it was a heartbeat |
| Server.ServeCall | server/server.go:256-287 | The goroutine past the heartbeat: handle, add metadata, encode unless one-way, give both messages back |
| Server.Release | server/server.go:286-287 | Both messages enter the pool, which stays clean |
| SmoothWeighted.ExactRound | selector/weight.go:11-40 | Total consecutive picks choose each server exactly its weight and return every current weight to zero |
| SmoothWeighted.RoundByName | selector/selector_weight.go:18-54 | From the listing of a selector, Total calls of Select return every address exactly as often as its metadata says, once where it says nothing |
| SmoothWeighted.EffectiveRecovers | selector/weight.go:24-26 | A lowered effective weight rises by one with each pick until it is the weight again |
| SmoothWeighted.Periodic | selector/weight.go:11-40 | The schedule repeats with period Total, for ever |
| SmoothWeighted.AccountOf | selector/weight.go:22-39 | After any k picks the current weight is k times the weight less Total times the picks, and the current weights sum to zero |
| SmoothWeighted.PrefixFairness | selector/weight.go:22-39 | After any k picks a server is less than one pick above its share and boundedly below it, and a server of weight zero was never picked |
| SmoothWeighted.AccountBounds | selector/weight.go:22-38 | Every current weight stays above -Total and at most (n-1)(Total-1) |
| SmoothWeighted.ExactIffNonNegative | selector/selector_weight.go:43-45 | For every fresh list with a server: the selector ever returns to its start if and only if no weight is negative, or the total is and a single server is listed; for a positive total it then does so after Total picks, having served everyone exactly its weight |
| SmoothWeighted.FirstForEver | selector/weight.go:22-38 | With a negative total the first server picked is picked for ever |
| SmoothWeighted.NegativeWeightBreaksRound | selector/selector_weight.go:43-45 | Weights 3 and -1 break the round, and the selector never returns to its start |
| SmoothWeighted.BestIsFirstMax | selector/weight.go:28-30 | The loop's best is the leftmost greatest current weight, or none when all pointers are nil |
| SmoothWeighted.OnePick | selector/weight.go:14-39 | One pick: everyone earns their weight and a richest server pays the total |
| SmoothWeighted.RunIsSchedule | selector/weight.go:11-40 | Repeated picks from a fresh list form such a schedule |
| SmoothWeighted.NextWeighted | selector/weight.go:11-40 | On mutable servers, nil pointers included, the next slots and the pick |
| SmoothWeighted.ChargeAll | selector/weight.go:12-32 | The loop charges every server once, adds up the effective weights and finds the leftmost greatest current weight |
| SmoothWeighted.Weighted.constructor | selector/selector_weight.go:38 | A new server owes nothing and has its effective weight at the ceiling |
| SmoothWeighted.Weighted.Earn | selector/weight.go:22-26 | The charge and the recovery of one server |
| SmoothWeighted.CreateWeighted | selector/selector_weight.go:35-54 | Every address is listed once, in any iteration order, on fresh objects; weight and effective weight are what its metadata states, and 1 where it states none |
| SmoothWeighted.WeightedSelector.constructor | selector/selector_weight.go:13-16 | The selector starts from a fresh listing |
| SmoothWeighted.WeightedSelector.Select | selector/selector_weight.go:18-28 | The name of the pick, which is what RoundByName counts, or the empty name |
| SmoothWeighted.WeightedSelector.UpdateServer | selector/selector_weight.go:30-33 | The list is replaced by a fresh listing |
| WeightedAccounts.Account | selector/weight.go:22-38 | An account holds what the position earned less what it paid, for any way of breaking ties |
| WeightedAccounts.Balanced | selector/weight.go:22-38 | Accounts always sum to zero |
| WeightedAccounts.AboveMinusTotal | selector/weight.go:22-38 | No account reaches minus the total |
| WeightedAccounts.FullRound | selector/weight.go:11-40 | After one round every position was picked exactly its weight and all accounts are zero |
| RoundRobin.RoundsAreFair | selector/selector_roundrobin.go:19-29 | From any index, k*n picks of n servers choose every position exactly k times |
| RoundRobin.NeverTwoAhead | selector/selector_roundrobin.go:19-29 | After any number of picks no position is more than one pick ahead of another |
| RoundRobin.IndexIsModular | selector/selector_roundrobin.go:24-26 | The index field is the starting index plus the picks, modulo n |
| RoundRobin.RoundRobinSelector.constructor | selector/selector_roundrobin.go:10-17 | Every address once, index 0 |
| RoundRobin.RoundRobinSelector.Select | selector/selector_roundrobin.go:19-29 | The server at the reduced index, also after the list became shorter; the index stays within the list |
| RoundRobin.RoundRobinSelector.UpdateServer | selector/selector_roundrobin.go:31-38 | The list is replaced and the index kept |
| RoundRobin.Listing | selector/selector_roundrobin.go:32-35 | The keys of a map, each once, in any order |
| JumpHash.MinimalDisruption | selector/hash.go:9-23 | For all m <= n the bucket stays if and only if it lies below m; one more bucket keeps a key or moves it to the new one |
| JumpHash.WalkIsStable | selector/hash.go:16-20 | Where the walk ends does not depend on buckets beyond its end |
| JumpHash.Hash | selector/hash.go:9-23 | The loop terminates without overflow for every key and int32; its result lies in [0, max(buckets, 1)) and is the last bucket that successive keys of the generator, and a jump per key that lands next to the exact quotient, reach below the number of buckets |
| JumpHash.Jump | selector/hash.go:19 | In double precision a jump goes to at least b+1 and at most 2^62 |
| JumpHash.JumpLands | selector/hash.go:19 | A jump lands within a relative error of 2^-51 of (b+1) * 2^31 divided by the upper bits of the key plus one, cut off |
| JumpHash.JumpIsNear | selector/hash.go:19 | The same in terms of the key alone |
| JumpHash.JumpIsExact | selector/hash.go:19 | Where the exact quotient is not that close to an integer, the jump is the exact quotient cut off |
| JumpHash.WalkIsReached | selector/hash.go:16-20 | The walk is the one the algorithm prescribes, key by key and jump by jump |
| JumpHash.FirstBucket | selector/hash.go:16-20 | The first jump decides bucket 0: it is taken when the exact jump passes all buckets by more than the rounding error, and not when it stays below them by more than that |
| JumpHash.HashOfZero | selector/hash.go:16-20 | Key 0 goes to bucket 0 of any number of buckets |
| JumpHash.RoundingError | selector/hash.go:19 | The relative error of rounding to double precision is at most 2^-53 |
| JumpHash.RoundMonotone | selector/hash.go:19 | Rounding to double precision is monotone |
| JumpHash.RoundInteger | selector/hash.go:19 | Rounding is exact on integers of 53 bits |
| JumpHash.JumpConsistentHash | selector/hash.go:40-47 | For every slice length, truncation to int32 included, the answer indexes the slice |
| JumpHash.KeyStringInOrder | selector/hash.go:41-44 | The string that is hashed lists the options in order, a slash before each |
| Breaker.CounterIsFailureRun | circuit/breaker_simple.go:30-86 | After every trace the counter is the length of the longest gap-free run of failures ending the executed history; it never wraps; rejected calls leave no trace |
| Breaker.AdmissionByHistory | circuit/breaker_simple.go:65-73 | A call is admitted if and only if more than the window has passed, on the clock, since the last executed call ended, or that run is shorter than the threshold |
| Breaker.BurstsAreBounded | circuit/breaker_simple.go:30-86 | Among any threshold+1 consecutive executed failures two neighbours are more than a window apart on the clock |
| Breaker.QuietCallRuns | circuit/breaker_simple.go:65-73 | Whatever came before, a call more than a window after the last executed one runs |
| Breaker.FirstCallRuns | circuit/breaker_simple.go:22-35 | The first call ever runs, whatever the threshold |
| Breaker.QuietInTime | circuit/breaker_simple.go:66-69 | The comparison, saturating as Go durations do, is the one of the plain times for every window but the greatest; a window of that length never passes |
| Breaker.EveryCallJustified | circuit/breaker_simple.go:33-35 | Every executed call had such a reason at its place in the history |
| Breaker.RunGrows | circuit/breaker_simple.go:56-60 | How one more executed call changes the longest run |
| Breaker.SimpleCircuitBreaker.constructor | circuit/breaker_simple.go:22-27 | A new breaker has no failures and the zero time |
| Breaker.SimpleCircuitBreaker.Call | circuit/breaker_simple.go:30-63 | The new state is that of the step function, admission is stated on the clock; open, timeout and the function's own error are returned exactly when they happen, and nil after a success |
| Breaker.SimpleCircuitBreaker.Ready | circuit/breaker_simple.go:65-73 | Admission, stated on the clock, and the reset after a quiet gap |
| Breaker.SimpleCircuitBreaker.Fail | circuit/breaker_simple.go:78-81 | One failure more, in wrapping arithmetic, and the time |
| Breaker.SimpleCircuitBreaker.Reset | circuit/breaker_simple.go:83-86 | No failures, and the time |
| ConcurrentBreaker.OvershootBound | circuit/breaker_simple.go:33-60 | With n callers inside Call, under every interleaving, failures never exceeds max(threshold, 1) + n - 1 |
| ConcurrentBreaker.OvershootIsTight | circuit/breaker_simple.go:33-60 | Some interleaving reaches threshold + n - 1 |
| ConcurrentBreaker.LoneCallIsStep | circuit/breaker_simple.go:30-86 | With one caller the interleaved steps of a whole invocation lead to exactly the state of the sequential breaker |
| ConcurrentBreaker.StepKeepsInv | circuit/breaker_simple.go:65-86 | Failures counted plus failures still owed by admitted callers stay within the bound |
| Retry.ClientCache.constructor | client/client.go:246-258 | An empty cache |
| Retry.ClientCache.RemoveClient | client/client.go:246-258 | The entry goes only if it is this client, and the client is closed |
| Retry.ClientCache.GetCachedClient | client/client.go:270-304 | The cached client, dead or alive, or a newly connected one; the cache stays injective |
| Retry.ClientCache.SelectClient | client/client.go:260-268 | The choice of the selector, connected, or the two errors |
| Retry.ClientCache.Reselect | client/failmod_failtry.go:26-28 | What follows a failure in either mode: the exact result, and no client given up comes back |
| Retry.ClientCache.GiveUp | client/failmod_failover.go:26-27 | The failed client leaves the cache and another one is looked for; the exact result |
| Retry.ClientCache.FailedTurn | client/failmod_failover.go:18-28 | One turn that does not succeed |
| Retry.ClientCache.RetryLoop | client/failmod_failover.go:15-30 | A client in hand is called: the given one first, then whatever a reselection delivered, and nobody else, on pairwise different clients, at most max(retries, 0) times; it stops at the first success, having changed nothing if that was the first call, and otherwise uses all its turns and returns the result of the last reselection, never a call's error; for failtry that is nil if and only if the last dial succeeds |
| RetryRace.NoClientTwice | client/failmod_failover.go:18-29 | Under every interleaving a retry loop calls no client twice, spends one turn per attempt or empty hand out of max(retries, 0), and what it gave up is down and never returns to the cache |
| RetryRace.ResultOfLoop | client/failmod_failtry.go:18-30 | nil after a success; otherwise every turn was used and the result is the last reselection's, never a call's error; nil without any call when there are no retries |
| RetryRace.ClientInHandIsCalled | client/failmod_failover.go:18-25 | Under every interleaving a client in hand is called while there are turns left, at the cost of one, and its success ends the loop with nil |
| RetryRace.GivenUpOnlyAfterFailure | client/failmod_failover.go:26 | Under every interleaving a client is given up only after a call of it failed |
| RetryRace.AfterRemoval | client/failmod_failtry.go:26-28 | After a failure failover chooses anew and failtry goes back to its server |
| RetryRace.ChoiceIsLookedUp | client/client.go:260-268 | An empty choice is an error, any other is looked up |
| RetryRace.FirstLookIsLive | client/client.go:271-279 | The first look at the cache returns exactly clients that are not down |
| RetryRace.SecondLook | client/client.go:282-304 | The second look returns whatever is cached, dead or alive, and connects if and only if nothing is |
| RetryRace.DeadClientIsReturned | client/client.go:282-304 | A run in which a client that is down is returned |
| RetryRace.NobodyIsReplaced | client/client.go:282-300 | No event replaces a cached client by another |
| RetryRace.CloseTakesAllDown | client/client.go:442-453 | Closing the parent takes every cached client down and empties the cache |
| RetryRace.NilAfterFailure | client/failmod_failover.go:26-29 | A run in which the only call failed and the result is nil |
| RetryRace.CacheIsInjective | client/client.go:282-300 | Under every interleaving no client is cached under two addresses |
| RetryRace.EveryRun | client/client.go:246-304 | Every cached client was connected to the address it is cached under, and all loops keep their books, in every reachable state |
| RetryRace.RemoveStep | client/client.go:246-258 | removeClient takes the failed client out of the cache wherever it was, and puts none in |
| RetryRace.NewClient | client/client.go:283-300 | Only a freshly connected client enters the cache |

## Left out

- Registry and discovery, connection and listener setup over tcp, http, kcp and quic: I/O. A connection is a reliable ordered byte stream with atomic writes of whole frames; a failed write wrote the whole frame or nothing.
- Codecs, gzip and the reflection behind services: opaque functions that may fail; nothing is stated about what they compute, nor about the decoding of a reply's payload into the caller's value.
- Controllers, metrics, tracing, logging, rate limiting and the breakers that wrap libraries: thin or external.
- The random, geographic and ping selectors, and the stability of the hash selector across updates, whose list is built in map iteration order.
- Exactly-once completion and cancellation of the caller's own call: the code provides neither; what it does provide is stated above.
- RpcReplies.ReplyAnswersItsCall: covers frames whose body is below 4 GiB, so that its length fits the uint32 on the wire, and the first 2^64 registrations on a connection.
- Wire.RoundTrip: says of a frame whose body is 4 GiB or longer only that Decode does not succeed on exactly that frame.
- Messages.Message.Decode: the private data buffer, the pool of length buffers and read errors other than the end of the stream are not modelled.
- RpcOnce.OnceExactlyWhenSecure: whether the one-way flag of a message already given back to the pool may read as set, a race with other users of the pool, is a parameter.
- Done channels of a capacity other than one, which Go accepts from its caller, are not modelled.
- SmoothWeighted.NextWeighted: integers are unbounded, AccountBounds gives the range they stay in; the list holds each server object once, as createWeighted builds it.
- JumpHash.JumpConsistentHash: HashString and toString are parameters.
- SmoothWeighted.CreateWeighted: url.ParseQuery and strconv.Atoi are one parameter.
- ConcurrentBreaker.OvershootBound: a load or store of lastFailureTime is taken to be atomic; the time readings are arbitrary.
- Retry.ClientCache.RetryLoop: failover and failtry differ in one line and share this member; failfast calls once and is not modelled.
- The server's shutdown, its table of active connections and its timeouts are not modelled.
