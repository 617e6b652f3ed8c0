# stps: a verified model of the publish/subscribe transport core

stps is a small TCP publish/subscribe transport. A **publisher** listens on a
port and accepts subscribers. For each connection it keeps a
**publisher session**, and on `send` it lays the given payload pieces out
behind one 12-byte header in a single buffer. That buffer is then offered to
every live session. A **subscriber** keeps one **subscriber session** per
publisher it follows. Each session resolves the address, connects
(preferring a loopback endpoint), sends a handshake request, and then reads
frames forever. Regular payloads go to the user callback, either inline
(synchronous mode) or through a one-slot mailbox drained by a delivery thread
(asynchronous mode).

The model has one Dafny module per core file:

- `Wire` (wire.dfy) covers the packed `TCPHeader` and its little-endian
  fields, the one-byte handshake message and frames. It also holds the
  size-tolerant two-phase header read. Encoding and decoding are proved to
  round-trip. Headers from newer peers (longer) and older peers (shorter) are
  proved to be read at the right boundary.
- `PublisherSessions` (publisher_session.dfy) models the publisher's side of
  one connection as a class. Its state machine runs NotStarted → Handshaking
  → Running → Canceled. It closes once, and its send path has one in-flight
  flag and one pending slot (latest wins). The send path is also given as
  pure step functions on an `Outbox` value. The class methods are tied to
  those functions, and multi-step properties such as latest-wins and
  coalescing are lemmas about them.
- `SubscriberSessions` (subscriber_session.dfy) models the subscriber's side
  of one connection as a class: the retry budget, the choice of endpoint, the
  receive loop and cancellation. Scenario methods drive a session through its
  events.
- `Publishers` (publisher_impl.dfy) models the publisher broker: the
  fail-fast `start`, frame assembly into an array buffer, fan-out of the
  shared buffer, and the live-session list, including removal on close and a
  snapshot on cancel.
- `Subscribers` (subscriber_impl.dfy) models the subscriber broker: the
  synchronous/asynchronous delivery modes, the mailbox, the rule for renewing
  hooks, and the session list.
- `Registry` (registry.dfy) holds the find-and-erase both brokers use on their
  session lists. `Wrappers` (wrappers.dfy) holds `Option`.

Each asynchronous completion handler (asio read, write, connect, resolve,
timer) is an event method named `OnXxx(ok, …)`. Its `ok` argument is the
completion's error code, and its `requires` names the operation that must be
outstanding for that completion to arrive. Each session class also has a
`Handle` method that takes any completion as a value. Each broker's `Deliver`
passes a completion to a listed session through `Handle`. It then runs the
broker's closed handler when the session reported itself closed, so a session
that closes itself leaves the broker's list. Bytes are `Byte = 0..255`, and
the C++ `uint16_t`/`uint64_t` widths are subset types. The 16-bit wrap of the
subscriber's header arithmetic is written out as `% 0x1_0000`.

The subscriber session reproduces its header-size arithmetic exactly as the
source computes it, including the inverted discard test (see "Findings").
The publisher session and the stream reader `Wire.ReadHeader` use the
publisher's correct arithmetic. Two behaviours of the subscriber session are
proved as scenarios:
- a regular payload that completes after `cancel` makes the closed handler
  run twice, while a handshake or unknown-type payload runs it once
  (`SubscriberSessions.CancelDuringPayloadRead`);
- a cancel during the retry wait means it never runs
  (`SubscriberSessions.CancelDuringRetryWait`).

## Model

| member | source | states |
|---|---|---|
| `Wire.TypeCode` | stps/tcp_header.h:8-12 | for a decoded type, the code is 0 exactly for RegularPayload and 1 exactly for ProtocolHandshake |
| `Wire.ContentType` | stps/tcp_header.h:8-12 | every type byte decodes to a type whose code is that byte; codes other than 0 and 1 survive as `Unknown` |
| `Wire.LittleEndianRoundTrip` | stps/publisher/publisher_impl.cc:218-221 | a value that fits in `width` bytes is recovered from its little-endian image (htole followed by le*toh) |
| `Wire.FromLittleEndianRoundTrip` | stps/publisher/publisher_session.cc:97 | re-encoding a decoded little-endian field gives back the same bytes |
| `Wire.EncodeHeader` | stps/tcp_header.h:14-24 | a header is 12 bytes: header_size little-endian at offset 0, type at 2, reserved at 3, data_size little-endian at 4 |
| `Wire.DecodeHeader` | stps/tcp_header.h:14-24 | every 12-byte image decodes to a header that encodes back to exactly that image |
| `Wire.HeaderRoundTrip` | stps/tcp_header.h:16-22 | decoding an encoded header gives back all four fields |
| `Wire.DefaultHeaderIsZeroes` | stps/tcp_header.h:18-21 | the default header (size 0, RegularPayload, reserved 0, data size 0) is twelve zero bytes |
| `Wire.EncodeHandshake` | protocol_handshake_message.h:9-12 | the handshake message is one byte holding protocol_version |
| `Wire.DecodeHandshake` | stps/publisher/publisher_session.cc:180-184 | the receiver copies min(size, 1) bytes over a default message: an empty payload gives version 0, otherwise the first byte |
| `Wire.EncodeFrame` | stps/publisher/publisher_impl.cc:215-221 | a frame is 12 + n bytes; its header says size 12, the given type, reserved 0 and data size n, and the payload follows the header unchanged |
| `Wire.HandshakeFrame` | stps/publisher/publisher_session.cc:198-209 | the handshake frame is 13 bytes: header (12, ProtocolHandshake, 0, 1) followed by protocol_version 0 |
| `Wire.PlanHeaderRead` | stps/publisher/publisher_session.cc:91-103 | size below 2 is rejected; otherwise 2 + bytes read + bytes discarded equals the remote size, at most 10 bytes are read, and bytes are discarded exactly when the remote header is longer than 12 |
| `Wire.AssembleHeader` | stps/publisher/publisher_session.cc:105-108 | the local header holds the size bytes and the bytes read, in place, with every later byte left at its default zero |
| `Wire.ReadHeader` | stps/publisher/publisher_session.cc:66-126 | when a header is read, the bytes consumed equal its header_size and fit in the stream |
| `Wire.ReadHeaderRejectsShortSize` | stps/publisher/publisher_session.cc:91-95 | a size field below 2 is a protocol error whatever follows |
| `Wire.ReadHeaderSameSize` | stps/publisher/publisher_session.cc:97-125 | a 12-byte header is read back exactly and the payload starts at offset 12 |
| `Wire.ReadHeaderFromNewerPeer` | stps/publisher/publisher_session.cc:100-120 | a longer header from a newer peer is read as its first 12 bytes, its extension is skipped exactly, and the rest of the stream follows |
| `Wire.ReadHeaderFromOlderPeer` | stps/publisher/publisher_session.cc:100-108 | a shorter header (2 to 11 bytes) fills that prefix of the local header, later fields stay zero, and the payload starts right after it |
| `Wire.ReadFourByteHeader` | stps/publisher/publisher_session.cc:100-108 | a 4-byte header sets size, type and reserved, and leaves data_size 0 |
| `Wire.ReadFrame` | stps/publisher/publisher_session.cc:151-168 | the stream reader both sides share: header errors and truncation are passed on; a frame announcing data_size 0 is reported apart with no payload read (the publisher closes on it, the subscriber skips it); otherwise the payload is exactly the data_size bytes that follow the header, and the frame consumes the header plus those bytes |
| `Wire.FrameRoundTrip` | stps/publisher/publisher_impl.cc:201-231 | a frame as senders build it is read back to its header and its exact payload, and consumes exactly its own bytes; with an empty payload it reads as a frame announcing none |
| `Registry.IndexOf` | stps/publisher/publisher_impl.cc:124-125 | std::find: the position of the first element equal to the key |
| `Registry.RemoveFirst` | stps/publisher/publisher_impl.cc:124-141 | erasing leaves the list unchanged when the session is absent, and makes it one shorter when it is present |
| `Registry.RemoveFirstCutsFirstOccurrence` | stps/publisher/publisher_impl.cc:124-128 | find + erase cuts out exactly the first occurrence and keeps the order of the rest |
| `Registry.RemoveFirstFromDistinct` | stps/subscriber/subscriber_impl.cc:35-42 | in a list without repeats, erasing removes exactly the closing session and keeps the list without repeats |
| `PublisherSessions.OfferKeepsWritesBounded` | stps/publisher/publisher_session.cc:216-233 | sendDataBuffer keeps at most one outstanding write with the flag clear, and at most two with it set |
| `PublisherSessions.WriteSucceededKeepsWritesBounded` | stps/publisher/publisher_session.cc:249-266 | a completed write keeps that bound |
| `PublisherSessions.OfferAllKeepsOnlyLatest` | stps/publisher/publisher_session.cc:228-231 | buffers offered while a write is in flight, or before Running, write nothing, and the slot ends up holding the last one |
| `PublisherSessions.LatestWins` | stps/publisher/publisher_session.cc:216-270 | on an idle running session, W1 is written at once; of the buffers offered while it is in flight only the last is written; afterwards the session is idle with nothing pending |
| `PublisherSessions.Coalescing` | stps/publisher/publisher_session.cc:216-270 | with W1 in flight and then W2 and W3 offered, exactly W1 and W3 are written, in that order |
| `PublisherSessions.HandshakeWriteOverlaps` | stps/publisher/publisher_session.cc:194-214 | as written: a buffer Q queued during the handshake, then a send of W, gives two writes in flight at once, and Q is written after the newer W |
| `PublisherSessions.SerializedWritesStaySingle` | stps/publisher/publisher_session.cc:223-226 | when the handshake write also takes the in-flight flag, every step keeps at most one write outstanding, and the flag is set exactly when one is |
| `PublisherSessions.SerializedHandshakeKeepsLatest` | stps/publisher/publisher_session.cc:194-214 | with the serialized handshake write, the same sequence writes the handshake and then only the latest buffer, one write at a time |
| `PublisherSessions.PublisherSession.constructor` | stps/publisher/publisher_session.cc:11-21 | a new session is NotStarted, with the flag clear, no pending buffer and nothing written |
| `PublisherSessions.PublisherSession.Start` | stps/publisher/publisher_session.cc:32-45 | start moves to Handshaking and starts reading the header length |
| `PublisherSessions.PublisherSession.Cancel` | stps/publisher/publisher_session.cc:47-50 | cancel ends Canceled; only the first close notifies, so the closed handler fires at most once |
| `PublisherSessions.PublisherSession.SessionClosed` | stps/publisher/publisher_session.cc:52-64 | the exchange to Canceled closes the socket and calls the handler only when the old state was not Canceled; the send side is untouched |
| `PublisherSessions.PublisherSession.ReadHeaderLength` | stps/publisher/publisher_session.cc:66-84 | a read of the 2-byte size is issued unless Canceled |
| `PublisherSessions.PublisherSession.OnHeaderLengthRead` | stps/publisher/publisher_session.cc:75-83 | an error closes the session; otherwise the read is planned by the header-size arithmetic, and a size below 2 closes the session |
| `PublisherSessions.PublisherSession.ReadHeaderContent` | stps/publisher/publisher_session.cc:86-126 | on a live session a size below 2 closes it; otherwise it reads the planned header bytes and remembers the planned discard |
| `PublisherSessions.PublisherSession.OnHeaderContentRead` | stps/publisher/publisher_session.cc:109-125 | an error closes the session; otherwise it discards the extra bytes if there are any, then reads the payload; a zero data size closes it |
| `PublisherSessions.PublisherSession.DiscardDataBetweenHeaderAndPayload` | stps/publisher/publisher_session.cc:128-149 | a discard read is issued unless Canceled |
| `PublisherSessions.PublisherSession.OnDiscardRead` | stps/publisher/publisher_session.cc:140-148 | an error closes the session; otherwise it reads the payload, or closes the session when data_size is 0 |
| `PublisherSessions.PublisherSession.ReadPayload` | stps/publisher/publisher_session.cc:151-168 | data_size 0 closes the session; otherwise a payload read is issued unless Canceled |
| `PublisherSessions.PublisherSession.OnPayloadRead` | stps/publisher/publisher_session.cc:169-191 | a handshake frame on a handshaking session is answered with exactly one handshake write and moves to Running; an error or any other frame type closes the session |
| `PublisherSessions.PublisherSession.SendProtocolHandshakeResponse` | stps/publisher/publisher_session.cc:194-214 | Handshaking becomes Running and the 13-byte handshake frame is written without taking the in-flight flag; a Canceled session stays untouched |
| `PublisherSessions.PublisherSession.SendBufferToClient` | stps/publisher/publisher_session.cc:235-240 | the buffer is handed to async_write unless Canceled |
| `PublisherSessions.PublisherSession.SendDataBuffer` | stps/publisher/publisher_session.cc:216-233 | a send does nothing when Canceled, writes at once when Running and idle, and otherwise overwrites the single pending slot; the session invariant is kept |
| `PublisherSessions.PublisherSession.OnWriteComplete` | stps/publisher/publisher_session.cc:241-269 | an error closes the session; on Canceled nothing happens; otherwise the pending buffer is cleared and written, or the flag is cleared |
| `PublisherSessions.PublisherSession.Handle` | stps/publisher/publisher_session.cc:52-269 | any awaited completion has exactly the outcome of its own handler (state, read outstanding and send side), so a read error, a header_size below 2, a frame announcing no payload, a payload that is not a handshake answered while Handshaking, and a write error close the session; the closed handler is called exactly when the session becomes Canceled for the first time |
| `SubscriberSessions.SelectEndpoint` | stps/subscriber/subscriber_session_impl.cc:78-86 | the endpoint chosen is the first loopback entry of the resolved list if there is one, otherwise the first entry |
| `SubscriberSessions.RetryBudget` | stps/subscriber/subscriber_session_impl.cc:155-184 | with a budget max >= 0, k failures leave max - k retries while k <= max and close the session after that (max + 1 attempts); a negative budget never runs out |
| `SubscriberSessions.SubscriberPlanAsWritten` | stps/subscriber/subscriber_session_impl.cc:220-234 | as written: a size below 2 is rejected; the bytes read agree with the publisher; bytes are discarded exactly when the remote header is shorter than 12, as a 16-bit wrapped count |
| `SubscriberSessions.SubscriberPlanMisframes` | stps/subscriber/subscriber_session_impl.cc:229-234 | for every size other than 12, the bytes consumed differ from the header size; size 10 makes it skip 65534 bytes |
| `SubscriberSessions.SubscriberPlanAgreesAtLocalSize` | stps/subscriber/subscriber_session_impl.cc:229-234 | for the 12-byte headers both sides send, the subscriber's arithmetic agrees with the publisher's |
| `SubscriberSessions.SubscriberSession.constructor` | stps/subscriber/subscriber_session_impl.cc:9-26 | a new session has retries_left = max_reconnection_attempts, is not canceled, and has nothing outstanding |
| `SubscriberSessions.SubscriberSession.Start` | stps/subscriber/subscriber_session_impl.cc:37-41 | start does nothing once canceled; otherwise it starts resolving |
| `SubscriberSessions.SubscriberSession.ConnectionFailed` | stps/subscriber/subscriber_session_impl.cc:155-184 | the socket is always closed; if not canceled and the budget is not 0, a retry is scheduled and a positive budget is decremented; otherwise the closed handler is called once |
| `SubscriberSessions.SubscriberSession.OnRetryTimer` | stps/subscriber/subscriber_session_impl.cc:169-178 | a timer error does nothing at all; a timer that fires re-resolves, or fails when canceled |
| `SubscriberSessions.SubscriberSession.ResolveEndpoint` | stps/subscriber/subscriber_session_impl.cc:43-68 | a canceled session goes to the failure handler; otherwise a resolve is issued |
| `SubscriberSessions.SubscriberSession.OnResolved` | stps/subscriber/subscriber_session_impl.cc:54-67 | a resolve error fails; otherwise it connects to an endpoint from the resolved list |
| `SubscriberSessions.SubscriberSession.ConnectToEndpoint` | stps/subscriber/subscriber_session_impl.cc:70-89 | a canceled session fails; otherwise it connects to the selected endpoint and records it |
| `SubscriberSessions.SubscriberSession.OnConnected` | stps/subscriber/subscriber_session_impl.cc:90-114 | a connect error fails; otherwise exactly the 13-byte handshake request is written |
| `SubscriberSessions.SubscriberSession.SendProtocolHandshakeRequest` | stps/subscriber/subscriber_session_impl.cc:117-153 | a canceled session fails; otherwise the handshake frame is appended to what was written |
| `SubscriberSessions.SubscriberSession.OnHandshakeWritten` | stps/subscriber/subscriber_session_impl.cc:142-152 | a write error fails; otherwise it starts reading headers |
| `SubscriberSessions.SubscriberSession.ReadHeaderLength` | stps/subscriber/subscriber_session_impl.cc:186-210 | a canceled session fails; otherwise a read of the 2-byte size is issued |
| `SubscriberSessions.SubscriberSession.OnHeaderLengthRead` | stps/subscriber/subscriber_session_impl.cc:199-209 | an error or a size below 2 fails; otherwise it follows the subscriber's as-written plan |
| `SubscriberSessions.SubscriberSession.ReadHeaderContent` | stps/subscriber/subscriber_session_impl.cc:212-238 | a canceled session or a size below 2 fails; otherwise it reads and discards as the as-written plan says |
| `SubscriberSessions.SubscriberSession.OnHeaderContentRead` | stps/subscriber/subscriber_session_impl.cc:239-262 | an error fails; otherwise it discards if the plan says so, reads a payload, or skips a zero-size frame to the next header |
| `SubscriberSessions.SubscriberSession.DiscardDataBetweenHeaderAndPayload` | stps/subscriber/subscriber_session_impl.cc:265-296 | a canceled session fails; otherwise a discard read is issued |
| `SubscriberSessions.SubscriberSession.OnDiscardRead` | stps/subscriber/subscriber_session_impl.cc:283-295 | an error fails; otherwise it reads the payload, or the next header when data_size is 0 |
| `SubscriberSessions.SubscriberSession.ReadPayload` | stps/subscriber/subscriber_session_impl.cc:298-325 | a canceled session fails; a zero-size frame is skipped with no dispatch and no failure; otherwise a payload read is issued |
| `SubscriberSessions.SubscriberSession.OnPayloadRead` | stps/subscriber/subscriber_session_impl.cc:326-370 | an error fails; otherwise the retry budget is restored, a regular payload is delivered (or fails when canceled), other types are only logged, and reading always resumes |
| `SubscriberSessions.SubscriberSession.SetSynchronousCallback` | stps/subscriber/subscriber_session_impl.cc:373-381 | the hook is replaced unless the session is canceled |
| `SubscriberSessions.SubscriberSession.Cancel` | stps/subscriber/subscriber_session_impl.cc:393-424 | cancel is idempotent (only the first call reports itself), closes the socket, and does not call the closed handler |
| `SubscriberSessions.SubscriberSession.Handle` | stps/subscriber/subscriber_session_impl.cc:43-370 | any awaited completion has exactly the outcome of its own handler (pending operation, retry budget, writes and closed-handler calls); a regular payload is passed on exactly when it arrives intact on a session that is not canceled; a session that calls the closed handler has nothing outstanding afterwards |
| `SubscriberSessions.RetryUntilClosed` | stps/subscriber/subscriber_session_impl.cc:155-184 | when every attempt fails, the session reports itself closed exactly when 0 <= max < failures, and then after max + 1 attempts |
| `SubscriberSessions.CancelDuringRetryWait` | stps/subscriber/subscriber_session_impl.cc:169-176 | cancel during the retry wait: the timer completes with an error and the closed handler never runs |
| `SubscriberSessions.CancelDuringPayloadRead` | stps/subscriber/subscriber_session_impl.cc:347-369 | a regular payload that completes after cancel calls the closed handler twice |
| `Publishers.BodyWithinTotal` | stps/publisher/publisher_impl.cc:223-231 | the bytes copied never exceed the announced total, and fill it exactly when no entry is null |
| `Publishers.Resized` | stps/publisher/publisher_impl.cc:215 | vector::resize keeps the existing bytes up to the new length and zero-fills beyond them |
| `Publishers.SumSizes` | stps/publisher/publisher_impl.cc:202-206 | the loop computes the sum of all entry sizes, null entries included |
| `Publishers.CopyBytes` | stps/publisher/publisher_impl.cc:228 | memcpy puts the bytes at the position and changes nothing else |
| `Publishers.CopyPayloads` | stps/publisher/publisher_impl.cc:223-231 | after the header, the buffer holds the non-null, non-empty entries in order with no gaps, and the bytes after them are untouched |
| `Publishers.BuildFrame` | stps/publisher/publisher_impl.cc:194-232 | the buffer is 12 + total bytes: header (12, RegularPayload, 0, total), then the copied bytes, then whatever the resized pooled buffer held |
| `Publishers.SentFrameReadsBack` | stps/publisher/publisher_impl.cc:201-231 | when every entry has bytes, the buffer is exactly the frame of their concatenation, and a reader gets that header and payload back (a frame announcing no payload when they add up to nothing) |
| `Publishers.PublisherImpl.constructor` | stps/publisher/publisher_impl.cc:11-17 | a new publisher is not running and has no sessions |
| `Publishers.PublisherImpl.Start` | stps/publisher/publisher_impl.cc:33-94 | start returns true and runs exactly when all five steps succeed; the first failure returns false with the publisher not running |
| `Publishers.PublisherImpl.AcceptClient` | stps/publisher/publisher_impl.cc:144-146 | a fresh, not yet started session waits on the accept |
| `Publishers.PublisherImpl.OnAccept` | stps/publisher/publisher_impl.cc:147-171 | an accepted session is started (Handshaking, with its header-length read outstanding), appended to the list, and a new accept is armed; an accept error stops accepting |
| `Publishers.PublisherImpl.OnSessionClosed` | stps/publisher/publisher_impl.cc:120-142 | the closed handler erases the first entry equal to the session, and only logs when it is absent; afterwards no listed session is Canceled |
| `Publishers.PublisherImpl.Deliver` | stps/publisher/publisher_impl.cc:120-142 | a completion for a listed session has exactly the outcome of the session's handler; the session's first close runs the closed handler, so it stays listed exactly when it is not Canceled, and no other session is touched |
| `Publishers.ReadErrorDropsSubscriber` | stps/publisher/publisher_session.cc:75-82 | an accepted subscriber whose first read fails is Canceled and the publisher is left with no subscriber |
| `Publishers.AcceptOneSubscriber` | stps/publisher/publisher_impl.cc:147-171 | a started publisher that accepts one subscriber lists that session alone, Handshaking with its header-length read outstanding and nothing written |
| `Publishers.ReceiveHandshakeHeader` | stps/publisher/publisher_session.cc:66-126 | a 12-byte header announcing a one-byte handshake leaves the session Handshaking and waiting for that byte, still listed |
| `Publishers.HandshakeKeepsSubscriber` | stps/publisher/publisher_session.cc:169-214 | the handshake byte is answered with exactly one handshake frame, the session becomes Running, and the publisher keeps one subscriber |
| `Publishers.PublisherImpl.Send` | stps/publisher/publisher_impl.cc:174-243 | returns false when not running; returns true without building anything when no session is listed; otherwise builds one buffer and offers that buffer to every session |
| `Publishers.PublisherImpl.FanOut` | stps/publisher/publisher_impl.cc:234-240 | every listed session's send side becomes that of sendDataBuffer applied to the shared buffer |
| `Publishers.PublisherImpl.Cancel` | stps/publisher/publisher_impl.cc:96-116 | the acceptor is closed and the publisher is not running; every session in the snapshot ends Canceled, and since each cancel is that session's first close, the list ends empty |
| `Publishers.PublisherImpl.CancelSession` | stps/publisher/publisher_impl.cc:112-115 | a listed session is canceled and its closed handler erases it from the list |
| `Publishers.PublisherImpl.GetPort` | stps/publisher/publisher_impl.cc:245-260 | the bound port while running, otherwise 0 |
| `Publishers.PublisherImpl.GetSubscriberCount` | stps/publisher/publisher_impl.cc:262-266 | the number of listed sessions |
| `Subscribers.SubscriberImpl.constructor` | stps/subscriber/subscriber_impl.cc:10-15 | a new subscriber is synchronous with a no-op callback, has the stop flag set and has no delivery thread |
| `Subscribers.SubscriberImpl.AddSession` | stps/subscriber/subscriber_impl.cc:21-65 | the new session gets the current mode's hook, is appended to the list, and is started |
| `Subscribers.SubscriberImpl.GetSessions` | stps/subscriber/subscriber_impl.cc:67-71 | a copy of the session list |
| `Subscribers.SubscriberImpl.OnSessionClosed` | stps/subscriber/subscriber_impl.cc:30-46 | the entry for the closing session is erased; nothing happens when none matches; afterwards no listed session has called the closed handler |
| `Subscribers.SubscriberImpl.Deliver` | stps/subscriber/subscriber_impl.cc:30-46 | a completion for a listed session has exactly the outcome of the session's handler; a session that called the closed handler is erased and no other is; a regular payload reaches the callback (synchronous mode) or the mailbox (asynchronous mode) exactly when it arrives intact on a session that is not canceled, and nothing is delivered otherwise |
| `Subscribers.GivingUpErasesSession` | stps/subscriber/subscriber_session_impl.cc:155-184 | a session allowed no retries whose resolve fails calls the closed handler once and is no longer listed |
| `Subscribers.ConnectOneSession` | stps/subscriber/subscriber_session_impl.cc:37-153 | a new session resolves, connects and writes its handshake request, and is then listed alone and reading a header |
| `Subscribers.FirstPayloadReachesCallback` | stps/subscriber/subscriber_session_impl.cc:298-370 | in synchronous mode, a regular one-byte payload after a 12-byte header reaches the user callback exactly once, and the session stays listed and reads the next header |
| `Subscribers.SubscriberImpl.SetCallbackToSession` | stps/subscriber/subscriber_impl.cc:135-165 | the session gets the synchronous hook carrying the current callback in synchronous mode, and the mailbox hook otherwise |
| `Subscribers.SubscriberImpl.RewireSessions` | stps/subscriber/subscriber_impl.cc:125-132 | every session that is not canceled carries the current hook afterwards |
| `Subscribers.SubscriberImpl.SetCallback` | stps/subscriber/subscriber_impl.cc:73-133 | any delivery thread is stopped first; synchronous mode clears the mailbox; asynchronous mode starts a thread for the callback; session hooks are renewed exactly when the new or the old mode is synchronous |
| `Subscribers.SubscriberImpl.RunHook` | stps/subscriber/subscriber_impl.cc:139-163 | the synchronous hook calls its callback only while the mode is synchronous; the asynchronous hook overwrites the mailbox only while the mode is asynchronous |
| `Subscribers.SubscriberImpl.DeliveryStep` | stps/subscriber/subscriber_impl.cc:108-121 | the delivery thread swaps the mailbox out, leaving it empty, and calls its callback once with what it took |
| `Subscribers.SubscriberImpl.Cancel` | stps/subscriber/subscriber_impl.cc:167-193 | every listed session is canceled, the delivery thread is stopped, and the subscriber is back in synchronous mode with a no-op callback |
| `Subscribers.MailboxKeepsLatest` | stps/subscriber/subscriber_impl.cc:153-163 | in asynchronous mode, two payloads enqueued before one drain deliver only the second, exactly once |
| `Subscribers.StaleHooksDeliverNothing` | stps/subscriber/subscriber_impl.cc:139-163 | a synchronous hook captured before a switch to asynchronous mode delivers nothing; a buffer left in the mailbox is dropped on the switch back |

## Left out

- asio sockets, the acceptor, the resolver, the timer, strands and
  `async_read`/`async_write` are not modelled as I/O. Each completion is an
  event method with an `ok` flag. Partial reads (`transfer_at_least`) are not
  modelled: a successful read delivers exactly the bytes requested.
- Threads, mutexes, condition variables, `join`/`detach` and the atomics are
  not modelled. Every event runs to completion, one at a time, so races
  between threads (for example a cancel between a handshake write and the
  state exchange) are not covered.
- Both strand posts at the end of a subscriber's payload completion (the
  dispatch, then the resumed read) run inline, in order. The post made by
  `setSynchronousCallback` takes effect at once.
- The executor thread pool is not part of this model.
- The buffer pool (`recycle::shared_pool`) is an external library. A pooled
  buffer is a parameter with arbitrary prior contents.
- The 1.1 slack factor in `reserve` is not modelled. Capacity plays no part
  in the bytes of a buffer.
- Logging, endpoint formatting, `isConnected`, `isRunning`, `getAddress`,
  `getPort` of a session, and destructors are not modelled.
- The thin facades (publisher.cc, subscriber.cc, subscriber_session.cc) and
  the duplicate or broken header copies are not part of this model.
- `publisher_session.cc:44` calls `receiveTcpPacket`, whose definition is not
  part of this model. It is modelled as `readHeaderLength`, the entry point of
  the read cycle.
- The subscriber's retry timer has a 1-second expiry and is never re-armed.
  Time is not modelled; a timer completion is an event.
- Publishers.PublisherImpl.Send: requires the total size plus the header to
  fit in 64 bits. The C++ `size_t` sum would wrap silently there.
- Publishers.PublisherImpl.Start: requires a publisher that is not running
  and has no accept outstanding. Calling `start` twice is not modelled.
- Subscribers.SubscriberImpl.RunHook: requires a hook to be installed.
  Calling an empty `std::function` throws in C++, and that path is not
  modelled.
- PublisherSessions.PublisherSession.SendProtocolHandshakeResponse: omits
  the restore branch of the state exchange. It only matters when another
  thread cancels between the write and the exchange; without threads, a
  payload read is outstanding only while Handshaking.
- Subscribers.SubscriberImpl.DeliveryStep: does not model the wait for a
  non-empty mailbox, or the early return on stop. Stopping is modelled by
  `SetCallback` and `Cancel` removing the thread.
- The handshake message's contents are decoded but not acted on. No version
  negotiation exists in the source.

## Findings

| source | as written | input that shows it | evidently intended | confidence | as-written member | corrected member |
|---|---|---|---|---|---|---|
| stps/subscriber/subscriber_session_impl.cc:233-234 | the discard count is `remote - 12` when `remote < 12`, wrapped to 16 bits, and 0 when `remote >= 12` | a publisher header with header_size 10: the subscriber reads 8 more header bytes and then discards 65534 bytes of the stream; with header_size 20 it discards nothing and reads 8 header bytes as payload | discard `remote - 12` only when `remote > 12`, as publisher_session.cc:102-103 does, so that 2 + read + discard equals header_size | high, not executed | `SubscriberSessions.SubscriberPlanMisframes` | `Wire.PlanHeaderRead` |
| stps/publisher/publisher_session.cc:194-214 | the handshake response is written without setting `sending_in_progress_` | a `send` while the session is Handshaking queues Q; the handshake is answered; the next `send` of W starts a second async_write while the handshake write is in flight, and Q, the older buffer, is written after W | the handshake write takes the in-flight flag like every other write, so one write is outstanding at a time and only the latest buffer follows the handshake | medium, not executed | `PublisherSessions.HandshakeWriteOverlaps` | `PublisherSessions.SerializedHandshakeKeepsLatest` |

The session classes keep the code as written. The subscriber session plans
its reads with `SubscriberPlanAsWritten`, and the publisher session writes
the handshake with `HandshakeWrite`. The corrected definitions are what the
rest of the model builds on. `Wire.PlanHeaderRead` drives the publisher
session and the stream reader `Wire.ReadHeader`; `Wire.ReadHeaderSameSize`,
`Wire.ReadHeaderFromNewerPeer` and `Wire.ReadHeaderFromOlderPeer` are proved
about it. The serialized handshake write is specified with its invariant in
`PublisherSessions.SerializedWritesStaySingle`.
