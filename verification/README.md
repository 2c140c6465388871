# Verified models of libmicrohttpd components

This project models five parts of libmicrohttpd in Dafny and proves what they promise.

* **The chat server's shared log** (`Chat*.dfy`). Messages are kept in one array under a mutex; every
  user has a cursor into it; consumed messages are dropped from the front and all cursors are rebased.
  `ChatView` says what each critical section does, `ChatServer` does it in place on arrays and objects,
  `ChatProtocol` is the transition system of all threads, and `ChatDelivery` proves what whole runs
  guarantee. `ChatRequests` says which requests for a ping or a disconnect a sender misses, and
  `ChatLeaving` whether the sender of a user that leaves comes to its end. `ChatCommand` is the parser of
  received messages.
* **WebSocket streams** (`Utf8.dfy`, `WebSocket*.dfy`). `Utf8` is the checker of the library against
  RFC 3629. `WebSocketDecoder` is the decoder as a machine that takes one octet at a time;
  `WebSocketStream` is the decoder as it is, with buffers that are filled run by run, and is proved to
  agree with it. `WebSocketRuns` shows where the way a connection is cut into buffers does not matter,
  and `WebSocketClose` where it does: in the payload of a close frame with a reason text.
  `WebSocketMessages`, `WebSocketControl` and `WebSocketDelivery` follow frames and messages from the
  encoder (`WebSocketEncoder`) to the receiver, `WebSocketRules` and `WebSocketLimits` say which frames are
  refused, `WebSocketExamples` goes through the examples of RFC 6455 octet by octet,
  `WebSocketText` what exactly is guaranteed about text, and `WebSocketSound` what holds in whole runs
  when finished messages are text.
* **SHA-1, Base64 and frames of the threaded example** (`Sha1*.dfy`, `Base64*.dfy`,
  `ThreadedServer.dfy`, `HandshakeExample.dfy`), against RFC 3174, RFC 4648 and RFC 6455 and their
  examples.
* **Connection lists** (`Connection*.dfy`, `DoublyLinked.dfy`). Suspension,
  resumption, timeouts, upgrades, closing and cleanup move connections between lists that must agree
  with flags, a counter and the ownership of responses, also between the parts of a cleanup that are
  outside the mutex. `ConnectionEffects` says what each step does to lists and fields, `DoublyLinked` is
  the list macros link by link, and `ConnectionLists` the critical sections on such lists.
* **The session store** (`Sessions.dfy`). Form values arrive in pieces; expired sessions are unlinked
  from a linked list in place; reference counters follow the live requests.

`Bytes.dfy`, `Lists.dfy` and `Options.dfy` hold what several parts share. `dafny verify dfyconfig.toml`
checks the whole project.

Octets are integers below 256, lengths and sizes are natural numbers. Wrap-around is written out where
the code relies on it: the two 32-bit length words of SHA-1, the number of octets of a close reason that
a call checks, and the conversion of the user id, an `int` from `atoi`, to 64 bits. The words of SHA-1
are 32-bit vectors.

## Where the code differs from its documentation or from its purpose

The models follow the code. Each difference has a lemma that says exactly when the promise holds.

* The header promises that decoded text never ends within a UTF-8 sequence
  (src/include/microhttpd_ws.h:89-99). The last or only frame of a message is handed out without that
  check (src/microhttpd_ws/mhd_websocket.c:1440-1459), and the UTF-8 step is then carried into the next
  message. `WebSocketText.TextPartVerdict` states for every frame of a text, for every kept step and for
  both kinds of callers what becomes of it, `WebSocketText.PartVerdictInOctets` the same in terms of the
  octets received so far, and `WebSocketText.TextMessageVerdict` for whole messages in any number of frames
  when they arrive and with which piece they fail. `WebSocketText.MessagesAreOneText` states that the
  messages of a connection all arrive if and only if the contents of the text messages together are the
  beginning of one text, and no first fragment underflows as in the next point.
  `WebSocketText.HalfACharacterIsHandedOut`, `WebSocketText.LastFrameEndsWithinACharacter` and
  `WebSocketText.GoodTextIsRefused` are examples. `WebSocketText.SenderTakes` is the same matter on the
  encoder's side.
* With a step carried over, more octets of a sequence can be open than the first fragment of a message has.
  The code then subtracts beyond zero and copies from before the buffer
  (src/microhttpd_ws/mhd_websocket.c:1507-1517), which the model marks as UNDEFINED.
  `WebSocketText.FirstFragmentVerdict` and `WebSocketText.UnderflowVerdict` state when exactly,
  `WebSocketText.EmptyFragmentUnderflows` is an input, and `WebSocketSound.NoUnderflow` states that it
  never happens while every finished text message was text.
* The reason text of a close frame is checked from the place in the payload that a call has reached,
  but for a number of octets counted from the start of the payload, and always from NORMAL
  (src/microhttpd_ws/mhd_websocket.c:1223-1247). A call that starts within the payload therefore checks
  too little, or, when the number wraps, goes on behind the octets it was given.
  `WebSocketClose.OnlyWholePayloadsAreUnharmed` states that the effect of such payloads is independent of
  their cutting if and only if they are not cut; `WebSocketClose.CutCloseVerdict` states which acceptable
  close frames survive which cut; `WebSocketClose.CutWithinACharacter` is an example.
* `BASE64Encode` joins the second sextet of a group into the third
  (src/examples/websocket_threaded_example.c:390). `Base64Encoder.RoundTripExactlyIfHarmless` states for
  which data the result can be decoded again; `Base64Encoder.HarmfulExample` is data for which it cannot.
  For the key in section 1.3 of RFC 6455 the server answers `s3/PLMNiTx7Q9k8GzzzZRbb+xOu=` where the client
  expects `s3pPLMBiTxaQ9kYGzzhZRbK+xOo=`: `HandshakeExample.AnswerTheSample`.
* `atoi` is undefined for a number that is not an `int`; `ChatCommand.UserIdOfDecimal` states which ids are
  read (src/examples/websocket_chatserver_example.c:1246).
* The sender of a chat user that comes back from sending a message looks for the next message only, clears
  and waits; it does not look again for a request to ping or to disconnect, and the signal for one has met
  no waiting thread (src/examples/websocket_chatserver_example.c:1443-1446, 1697-1716, 2322-2324).
  `ChatRequests.TurnVerdict` and `ChatRequests.PendingWhileAsleep` state that this is the only way in which a
  sender that is still listed sleeps with a request pending; `ChatRequests.RequestIsMissed` is an input.
* A user is taken off the list before its sender is asked to stop, and is not signalled any more by others
  (src/examples/websocket_chatserver_example.c:1918-1925, 1964-1971, 1990-1997). The cursor of such a user is
  not rebased either, so that a clear can make its sender miss the request; then `pthread_join` waits for
  ever, unless a wait ends without a signal. `ChatLeaving.JoinHangsExactly` states when, and
  `ChatLeaving.RemovedSenderHangs` is an input in which no wait ends so.
* `ws_receive_frame` does not check that the header of a frame has been received before it computes the
  length of the data (src/examples/websocket_threaded_example.c:677). `ThreadedServer.ParsesWhatWasSent` states
  for every part of a frame from its start whether the result is defined, and what it is.
* `expire_sessions` frees sessions that requests still hold, and the end of such a request writes to freed
  memory (doc/examples/sessions.c:714, 736-747). `Sessions.SessionStore.HeldSessionsExpire` and
  `Sessions.SessionStore.RequestCompleted` state which, and `Sessions.HeldTooLong` is an input.
* The chat parser drops a one-digit user id that no separator follows, and takes a single character
  without separator as an empty message to everyone (src/examples/websocket_chatserver_example.c:1206-1248):
  `ChatCommand.IdAtTheEnd` and `ChatCommand.LoneCharacterIsRegular`.

## Model

| member | source | states |
|---|---|---|
| `ChatView.DroppedBounds` | src/examples/websocket_chatserver_example.c:880-905 | a clear never frees a message that some registered user still has to read, nor more than there are |
| `ChatView.ClearKeeps` | src/examples/websocket_chatserver_example.c:853-927 | after a clear every cursor of a registered user is still within 0..message_count, and no user is lost |
| `ChatView.ClearFreesExactlyThePassed` | src/examples/websocket_chatserver_example.c:880-905 | a clear that is due frees a message if and only if every registered user has passed it |
| `ChatView.AddUserKeeps` | src/examples/websocket_chatserver_example.c:937-995 | joining keeps cursors in range and users distinct |
| `ChatView.RemoveUserKeeps` | src/examples/websocket_chatserver_example.c:1004-1055 | leaving keeps cursors in range and users distinct |
| `ChatView.AdvanceKeeps` | src/examples/websocket_chatserver_example.c:1686 | a sender with a pending message stays in range when it advances |
| `ChatView.SelectInPrefix` | src/examples/websocket_chatserver_example.c:1660-1666 | what was selected from a log does not change when the log grows |
| `ChatView.SelectedPositions` | src/examples/websocket_chatserver_example.c:1660-1662 | what is selected from a log stands, in order, exactly at the positions whose message is for everyone, for the user or from the user |
| `ChatServer.Chat.AddMessage` | src/examples/websocket_chatserver_example.c:779-843 | the array gains one message at its end, cursors and users stay, and every registered sender that waits is signalled |
| `ChatServer.Chat.ClearMessages` | src/examples/websocket_chatserver_example.c:853-927 | the whole new state is the abstract clear: count, dropped prefix, rebased cursors |
| `ChatServer.Chat.DropPassed` | src/examples/websocket_chatserver_example.c:880-905 | the in-place minimum, shift and rebase equal dropping the passed prefix |
| `ChatServer.Chat.DropAll` | src/examples/websocket_chatserver_example.c:906-918 | without users the array is emptied |
| `ChatServer.Chat.MinNextIndex` | src/examples/websocket_chatserver_example.c:884-889 | the loop finds the smallest cursor |
| `ChatServer.Chat.ShiftMessages` | src/examples/websocket_chatserver_example.c:899-901 | shifting in place equals dropping a prefix |
| `ChatServer.Chat.RebaseUsers` | src/examples/websocket_chatserver_example.c:902-903 | exactly the registered cursors go down, by the same amount |
| `ChatServer.Chat.AddUser` | src/examples/websocket_chatserver_example.c:937-995 | the announcement is appended before the user is listed, the cursor starts behind it, and every sender that was registered and waits is signalled |
| `ChatServer.Chat.RemoveUser` | src/examples/websocket_chatserver_example.c:1004-1055 | the announcement is appended, every registered sender that waits is signalled, and the user is unlisted; order of the others stays |
| `ChatServer.Chat.Unlist` | src/examples/websocket_chatserver_example.c:1033-1046 | search and in-place shift remove the first occurrence, and report whether there was one |
| `ChatServer.Chat.SenderTurn` | src/examples/websocket_chatserver_example.c:1594-1716 | one critical section of a sender: when it stops, pings, encodes, skips or waits, by the fields of the message at its cursor; the new shared state, what is freed, and the flags of the sender |
| `ChatServer.Chat.TakeMessage` | src/examples/websocket_chatserver_example.c:1653-1690 | the message at the cursor is encoded if and only if it is for everyone, for the user or from the user, and the cursor advances in any case |
| `ChatProtocol.SenderStepByTurn` | src/examples/websocket_chatserver_example.c:1594-1716 | the sender of the protocol decides by the same function as that method, and its new state follows from the decision |
| `ChatProtocol.StepKeepsInv` | src/examples/websocket_chatserver_example.c:779-1055 | every step of every thread keeps: array = log without the freed prefix, cursors in range, each sender has selected what it should, no unsignalled sleeper with pending messages |
| `ChatProtocol.ReachableInv` | src/examples/websocket_chatserver_example.c:1583-1725 | that invariant holds in every interleaving |
| `ChatProtocol.SleepKeepsInv` | src/examples/websocket_chatserver_example.c:1703-1716 | a sender clears and waits only when nothing is pending for it |
| `ChatDelivery.ClearStutters` | src/examples/websocket_chatserver_example.c:853-927 | a clear does not change the abstract log nor any absolute position |
| `ChatDelivery.StepRefines` | src/examples/websocket_chatserver_example.c:779-1055 | every step is a step of an append-only log with one position per user, or changes nothing there |
| `ChatDelivery.RunRefinesLog` | src/examples/websocket_chatserver_example.c:779-1055 | every interleaving is a run of that log |
| `ChatDelivery.DeliveredExactlyOnce` | src/examples/websocket_chatserver_example.c:986-989 | for a user that joins and stays exactly the messages appended after the join and visible to it are selected for encoding, once each and in order, up to its cursor |
| `ChatDelivery.DeliveredByFields` | src/examples/websocket_chatserver_example.c:1660-1662 | the same by the fields of the messages: the positions from the join up to the cursor whose message is encoded are exactly those of messages for everyone, for the user or from the user, each once and in order |
| `ChatDelivery.Announced` | src/examples/websocket_chatserver_example.c:956-965 | who joins or leaves is announced to everyone, from the server |
| `ChatDelivery.NothingLeftBehind` | src/examples/websocket_chatserver_example.c:1703-1716 | when its sender sleeps without a pending signal, all of them have been selected for encoding; what is left of requests then is stated by ChatRequests.PendingOfListed |
| `ChatDelivery.AppendSignalsEverySleeper` | src/examples/websocket_chatserver_example.c:831-833 | appending a message signals every registered sender that waits |
| `ChatDelivery.Drains` | src/examples/websocket_chatserver_example.c:1594-1716 | left alone, a sender empties its backlog in one turn per message and then sleeps |
| `ChatDelivery.NoFreedMessageIsTouched` | src/examples/websocket_chatserver_example.c:892-916 | in every run each dropped message is freed once, in order, and no sender takes a freed one |
| `ChatRequests.TurnVerdict` | src/examples/websocket_chatserver_example.c:1594-1716 | with a request pending, a turn of the sender ends in the wait if and only if it comes back from sending the last message; otherwise the sender stops, or pings and waits for the pong |
| `ChatRequests.PendingWhileAsleep` | src/examples/websocket_chatserver_example.c:1594-1716 | in every run: a request is pending for a sender that sleeps without a signal if and only if it missed one so in its last turn, or all users were disconnected when it was no longer listed |
| `ChatRequests.PendingOfListed` | src/examples/websocket_chatserver_example.c:1594-1716 | for a listed user: if and only if it missed one in its last turn |
| `ChatRequests.RequestIsMissed` | src/examples/websocket_chatserver_example.c:1443-1446 | an input for each of the three requests: the user is listed, its sender sleeps without a signal, and the request is pending |
| `ChatLeaving.JoinHangsExactly` | src/examples/websocket_chatserver_example.c:1990-1997 | the sender of a user that was removed and is asked to disconnect stops with its next turn, or sleeps from then on for ever, unless its wait ends without a signal: the latter if and only if it was sending when it was asked, and since then no fewer messages were freed than were appended behind its place |
| `ChatLeaving.RemovedSenderHangs` | src/examples/websocket_chatserver_example.c:1990-1997 | an input, without a spurious wake-up, after which the thread that was asked to stop never does |
| `ChatCommand.Parse` | src/examples/websocket_chatserver_example.c:1195-1249 | overwriting separators in place and reading the fields afterwards yields command, id and payload of the original octets; the id is marked where atoi is undefined |
| `ChatCommand.CutField` | src/examples/websocket_chatserver_example.c:1196-1204 | exactly the first separator from the given place on becomes NUL |
| `ChatCommand.ReadString` | src/examples/websocket_chatserver_example.c:1212-1246 | what a C string function sees from a place in the buffer on |
| `ChatCommand.ParsesFields` | src/examples/websocket_chatserver_example.c:1176-1186 | a well-formed "command\|id\|payload" message is read as intended, for every payload, also with separators and NULs |
| `ChatCommand.CommandMessage` | src/examples/websocket_chatserver_example.c:1212-1246 | of a well-formed message with a command: 1, 2, 3 for private, name, ping in any mixture of small and capital letters, 1000 for every other word; the id and the payload |
| `ChatCommand.CommandWords` | src/examples/websocket_chatserver_example.c:1212-1227 | the number of every command, by its letters |
| `ChatCommand.CommandExamples` | src/examples/websocket_chatserver_example.c:1212-1246 | two messages octet by octet, one of them in capital letters |
| `ChatCommand.PrivateMessage` | src/examples/websocket_chatserver_example.c:1212-1246 | a private message names the user whose decimal id was written, for every id below 2^31 and in any spelling of the command |
| `ChatCommand.RegularMessage` | src/examples/websocket_chatserver_example.c:1207-1211 | an empty command is a message to everyone |
| `ChatCommand.UserIdOfDecimal` | src/examples/websocket_chatserver_example.c:1244-1247 | reading a decimal number gives the number if and only if it is below 2^31; otherwise the result is undefined |
| `ChatCommand.UserIdOfOther` | src/examples/websocket_chatserver_example.c:1244-1247 | signs, spaces and other characters before the number: a negative int becomes its value modulo 2^64 |
| `ChatCommand.UserIdThenMore` | src/examples/websocket_chatserver_example.c:1244-1247 | what follows the digits does not matter |
| `ChatCommand.IdAtTheEnd` | src/examples/websocket_chatserver_example.c:1244-1247 | without the second separator an id is read if and only if it has more than one digit |
| `ChatCommand.LoneCharacterIsRegular` | src/examples/websocket_chatserver_example.c:1205-1211 | one character without separator counts as an empty message to everyone |
| `Utf8.CheckUtf8` | src/microhttpd_ws/mhd_websocket.c:2096-2306 | the loop reports invalid at the first octet that the automaton refuses, and otherwise the step reached |
| `Utf8.AcceptsExactlyText` | src/include/microhttpd_ws.h:446-510 | octets lead from NORMAL back to NORMAL if and only if they encode a sequence of Unicode scalar values (section 4 of RFC 3629) |
| `Utf8.EncodedOctets` | src/include/microhttpd_ws.h:446-510 | the octets of the encoding of every scalar value, by its bits (section 3 of RFC 3629) |
| `Utf8.EncodedExamples` | src/include/microhttpd_ws.h:446-510 | the examples of section 7 of RFC 3629 |
| `Utf8.RefusedExamples` | src/microhttpd_ws/mhd_websocket.c:2096-2306 | overlong forms, surrogates, values that are too large and octets that never occur are refused |
| `Utf8.ReadsExactlyTextPrefixes` | src/include/microhttpd_ws.h:446-510 | octets are not refused if and only if they are the beginning of such an encoding |
| `Utf8.LongestTextPrefix` | src/microhttpd_ws/mhd_websocket.c:1478-1507 | cutting off the octets given of an unfinished sequence, at most three, leaves the longest prefix that is text |
| `Utf8.OpenBeforehand` | src/microhttpd_ws/mhd_websocket.c:1483-1507 | after a piece more octets are open than the piece has if and only if it does not finish the sequence that was open before it |
| `Utf8.EncodeAllInjective` | src/include/microhttpd_ws.h:446-510 | no two texts have the same encoding |
| `Utf8.CheckConcat` | src/microhttpd_ws/mhd_websocket.c:1237-1247 | checking in pieces with a kept step equals one pass |
| `WebSocketDecoder.FeedKeepsValid` | src/microhttpd_ws/mhd_websocket.c:702-1324 | every octet in every state leads to a well-formed state, a message with a positive status, one of the four errors of the library, or the mark for a negative length |
| `WebSocketRuns.ScanIsStream` | src/microhttpd_ws/mhd_websocket.c:666-1324 | a call that does not start within a close payload does what the octets that it reports as read amount to |
| `WebSocketRuns.CutsDoNotMatter` | src/microhttpd_ws/mhd_websocket.c:666-1324 | the caller gets the same messages and the same error however a connection is cut into buffers, as long as no buffer starts within the payload of a close frame with a reason text |
| `WebSocketRuns.CutsInDataDoNotMatter` | src/microhttpd_ws/mhd_websocket.c:666-1324 | and so wherever a connection is cut on which no close frame has begun |
| `WebSocketStream.CopyPayload` | src/microhttpd_ws/mhd_websocket.c:2065-2093 | the copy unmasks from the given offset of the key, also in the shortcut for a zero mask, and touches nothing else |
| `WebSocketStream.WebSocketStream.constructor` | src/microhttpd_ws/mhd_websocket.c:557-606 | a new stream is the fresh decoder |
| `WebSocketStream.WebSocketStream.StartOfFrame` | src/microhttpd_ws/mhd_websocket.c:706-846 | the first octet: reserved bits, opcodes, continuation rules |
| `WebSocketStream.WebSocketStream.LengthOfFrame` | src/microhttpd_ws/mhd_websocket.c:848-1000 | the second octet: mask rules, control frame lengths, form of the length |
| `WebSocketStream.WebSocketStream.EndOfLength` | src/microhttpd_ws/mhd_websocket.c:1020-1150 | extended lengths in network byte order; longer forms than needed are refused |
| `WebSocketStream.WebSocketStream.EndOfMask` | src/microhttpd_ws/mhd_websocket.c:1153-1159 | the key is the last four header octets |
| `WebSocketStream.WebSocketStream.Collect` | src/microhttpd_ws/mhd_websocket.c:1003-1018 | octets in between only pile up |
| `WebSocketStream.WebSocketStream.HeaderCompleted` | src/microhttpd_ws/mhd_websocket.c:1327-1427 | the total size is checked and room is made behind what is kept of the message |
| `WebSocketStream.WebSocketStream.TakeData` | src/microhttpd_ws/mhd_websocket.c:1175-1275 | a run of data octets does what its octets do one by one, including the place of a UTF-8 error |
| `WebSocketStream.WebSocketStream.TakeControl` | src/microhttpd_ws/mhd_websocket.c:1175-1275 | a run of control octets, and for a close frame the new UTF-8 step, the refusal with its place, or the check that goes astray, for every place in the payload where the run starts |
| `WebSocketStream.WebSocketStream.CheckReason` | src/microhttpd_ws/mhd_websocket.c:1223-1271 | which octets of the payload a call checks, from which step, and what it reports, also when the number of octets wraps |
| `WebSocketStream.WebSocketStream.FragmentCompleted` | src/microhttpd_ws/mhd_websocket.c:1474-1552 | a fragment is handed out up to its last finished UTF-8 sequence, the rest is kept; a negative length is marked |
| `WebSocketStream.WebSocketStream.PayloadCompleted` | src/microhttpd_ws/mhd_websocket.c:1430-1564 | status, payload and next state at the end of a frame |
| `WebSocketStream.WebSocketStream.Decode` | src/microhttpd_ws/mhd_websocket.c:666-1324 | the buffer-wise loop agrees with the specification of a call in status, read length, payload and state: octet by octet, and for a call that starts within a close payload by what it checks |
| `WebSocketBulk.ScanData` | src/microhttpd_ws/mhd_websocket.c:1175-1247 | acceptable data octets taken at once equal the octets taken one by one |
| `WebSocketBulk.ScanBadText` | src/microhttpd_ws/mhd_websocket.c:1248-1272 | the read length of a UTF-8 error is the number of octets before the first refused one |
| `WebSocketBulk.ScanControl` | src/microhttpd_ws/mhd_websocket.c:1175-1275 | a run of control octets that starts with the payload, or not in a close reason, has the effect of its octets one by one, with the place of a UTF-8 error |
| `WebSocketBulk.ControlGoes` | src/microhttpd_ws/mhd_websocket.c:1175-1275 | what a call makes of the control octets in its buffer, wherever in the payload it starts |
| `WebSocketFrame.MaskedTwice` | src/microhttpd_ws/mhd_websocket.c:2065-2093 | masking is its own inverse |
| `Bytes.XorOctets` | src/microhttpd_ws/mhd_websocket.c:2085-2088 | each bit of a masked octet is set exactly if it is set in one of payload and mask and not in both |
| `WebSocketExamples.MaskedHello` | src/examples/websocket_threaded_example.c:688 | the masked text frame of section 5.7 of RFC 6455, octet by octet: what is sent, what the library decodes, and what the threaded server decodes |
| `WebSocketExamples.MaskedBinary` | src/microhttpd_ws/mhd_websocket.c:2085-2088 | the same octets in a binary frame |
| `WebSocketExamples.UnmaskedHello` | src/microhttpd_ws/mhd_websocket.c:1736-1818 | the unmasked text frame |
| `WebSocketExamples.FragmentedHello` | src/microhttpd_ws/mhd_websocket.c:1430-1552 | the text in two fragments, with the statuses that both kinds of callers get |
| `WebSocketExamples.MiddleFragment` | src/microhttpd_ws/mhd_websocket.c:1540-1552 | the status of a fragment in the middle |
| `WebSocketExamples.PingAndPong` | src/microhttpd_ws/mhd_websocket.c:1861-1926 | the ping and the masked pong |
| `WebSocketExamples.LongHeaders` | src/microhttpd_ws/mhd_websocket.c:1736-1818 | the headers of messages of 256 and of 65536 octets |
| `WebSocketExamples.Refusals` | src/microhttpd_ws/mhd_websocket.c:702-846 | an unknown opcode, an octet that no text has, and a stream that is broken, with their error codes |
| `WebSocketEncoder.EncodeData` | src/microhttpd_ws/mhd_websocket.c:1736-1818 | the buffer holds the frame of section 5.2 of RFC 6455 with the shortest length, and a NUL behind it |
| `WebSocketEncoder.EncodeText` | src/microhttpd_ws/mhd_websocket.c:1625-1689 | when a piece of text is refused, the step for the next piece, and the frame |
| `WebSocketEncoder.PieceVerdict` | src/microhttpd_ws/mhd_websocket.c:1634-1680 | a message in one frame has to be text and the first piece of several the beginning of a text, whatever step is given; a later piece goes on from that step |
| `WebSocketMessages.HeaderFed` | src/microhttpd_ws/mhd_websocket.c:848-1171 | the decoder reads back every header that the encoder writes, in all three forms of the length |
| `WebSocketMessages.FinalFrame` | src/microhttpd_ws/mhd_websocket.c:1440-1459 | the last frame hands out all of the message that is still there, if the check does not refuse it; for the other case see WebSocketText.TextPartVerdict |
| `WebSocketMessages.HandedFrame` | src/microhttpd_ws/mhd_websocket.c:1474-1552 | an earlier frame hands out everything up to its last finished sequence |
| `WebSocketControl.ControlFrameBetweenFragments` | src/microhttpd_ws/mhd_websocket.c:1861-1926 | a ping or pong between fragments does not affect the message in progress |
| `WebSocketControl.ControlFrameFed` | src/microhttpd_ws/mhd_websocket.c:1861-1926 | every ping, pong and close frame that the encoder writes is handed out as it was sent; of a close frame the reason text has to be the beginning of a text |
| `WebSocketControl.NoDataAfterClose` | src/microhttpd_ws/mhd_websocket.c:744-806 | after a close frame, with a reason text or without, the first octet of any data frame breaks the stream |
| `WebSocketRules.StartRules` | src/microhttpd_ws/mhd_websocket.c:706-846 | a first octet is accepted if and only if sections 5.2, 5.4 and 5.5 of RFC 6455 allow it in this state |
| `WebSocketRules.LengthRules` | src/microhttpd_ws/mhd_websocket.c:848-950 | a second octet is refused if and only if masking, control frame length or a one-octet close payload are wrong |
| `WebSocketRules.ShortestLengthOnly2` | src/microhttpd_ws/mhd_websocket.c:1020-1046 | a two-octet length breaks the stream if and only if one octet could hold it |
| `WebSocketRules.ShortestLengthOnly8` | src/microhttpd_ws/mhd_websocket.c:1083-1128 | an eight-octet length breaks the stream if and only if two octets could hold it or it exceeds 2^63-1 |
| `WebSocketLimits.SizeVerdict` | src/microhttpd_ws/mhd_websocket.c:1336-1357 | a frame is refused for its size if and only if there is a limit and what is there of its message exceeds it with this frame |
| `WebSocketLimits.TwentyOctets` | src/microhttpd_ws/mhd_websocket.c:967-984 | twenty octets with a limit of ten, in one frame and in two |
| `WebSocketClose.CloseFrameVerdict` | src/microhttpd_ws/mhd_websocket.c:1202-1272 | a close frame in one buffer is handed out if and only if its reason text is the beginning of a text, and is refused otherwise |
| `WebSocketClose.CutCloseVerdict` | src/microhttpd_ws/mhd_websocket.c:1223-1272 | an acceptable close frame whose payload is cut once is handed out if and only if the cut is behind the first octet, or in the first half with the beginning of a text between it and its mirror image; the check leaves its octets if and only if the cut is in the second half and what follows it is text |
| `WebSocketClose.CutWithinACharacter` | src/microhttpd_ws/mhd_websocket.c:1223-1272 | one close frame that is handed out in one buffer and fails in two |
| `WebSocketClose.OnlyWholePayloadsAreUnharmed` | src/microhttpd_ws/mhd_websocket.c:1223-1272 | for every sequence of buffer sizes: all payloads with a reason text have the same effect as in one buffer if and only if there is only one buffer |
| `WebSocketDelivery.MessageArrives` | src/include/microhttpd_ws.h:831-837 | a text or binary message in any number of frames is received as it was sent, whatever step earlier messages have left, if the check does not refuse it and its first fragment is not too short; and which step it leaves: after NORMAL that is NORMAL if and only if it is text |
| `WebSocketDelivery.ExpectedJoins` | src/include/microhttpd_ws.h:89-99 | the pieces handed out add up to the message |
| `WebSocketDelivery.FragmentsEndBetweenCharacters` | src/include/microhttpd_ws.h:89-99 | every fragment but the last ends between two characters, as late as possible, at most three octets short, also after messages that ended within a character |
| `WebSocketDelivery.EndToEnd` | src/include/microhttpd_ws.h:831-837 | from the sender's pieces to the receiver's messages over every segmentation in between |
| `WebSocketText.SenderKeepsStep` | src/include/microhttpd_ws.h:905-915 | between two pieces the encoder's step equals that of a single pass |
| `WebSocketText.SenderTakes` | src/microhttpd_ws/mhd_websocket.c:1670-1680 | one frame is taken if and only if it is text; several if and only if they are the beginning of a text |
| `WebSocketText.TextPartVerdict` | src/microhttpd_ws/mhd_websocket.c:1175-1564 | for every frame of a text, every kept step and both kinds of callers: the stream fails if and only if the check refuses the payload from that step, or the length gets negative; otherwise what is handed out, what is kept, and the next step |
| `WebSocketText.PartVerdictInOctets` | src/microhttpd_ws/mhd_websocket.c:1440-1459 | with the octets `p` that led to the kept step: a frame is refused if and only if `p` and its payload are not the beginning of a text; a last frame is handed out if and only if they are, and they are text if and only if NORMAL is left |
| `WebSocketText.TextFrameVerdict` | src/microhttpd_ws/mhd_websocket.c:1175-1275 | the same for a message of one frame; a text is refused if and only if another step than NORMAL was left by earlier messages |
| `WebSocketText.HalfACharacterIsHandedOut` | src/microhttpd_ws/mhd_websocket.c:1440-1459 | an input for which half a character is handed out |
| `WebSocketText.TextMessageVerdict` | src/microhttpd_ws/mhd_websocket.c:1175-1564 | for every text message in any number of frames and every kept step: it arrives if and only if the check does not refuse it and its first fragment does not underflow; otherwise the stream fails with the first refused piece, or with that fragment, and what the caller has got by then |
| `WebSocketText.LastFrameEndsWithinACharacter` | src/microhttpd_ws/mhd_websocket.c:1440-1459 | an input whose last fragment ends within a character and is handed out, to both kinds of callers |
| `WebSocketText.MessagesAreOneText` | src/microhttpd_ws/mhd_websocket.c:1440-1459 | messages in any number of frames, text or binary, are all handed out if and only if the contents of the text messages, one after the other, are the beginning of one text, and no first fragment underflows, which it never does for a caller that does not want fragments |
| `WebSocketText.GoodTextIsRefused` | src/microhttpd_ws/mhd_websocket.c:1440-1459 | an input for which a text is refused because of the message before it |
| `WebSocketText.FirstFragmentVerdict` | src/microhttpd_ws/mhd_websocket.c:1474-1552 | for every step left by earlier messages: when the first fragment of a text is refused, when it is handed out and up to where, and when the length gets negative |
| `WebSocketText.UnderflowVerdict` | src/microhttpd_ws/mhd_websocket.c:1507-1517 | after a text message the length gets negative at the first fragment of the next one if and only if no part of that fragment from its start makes the message before it a text |
| `WebSocketText.EmptyFragmentUnderflows` | src/microhttpd_ws/mhd_websocket.c:1507-1517 | an input for which it does |
| `WebSocketSound.SoundFeed` | src/microhttpd_ws/mhd_websocket.c:702-1324 | every octet keeps the UTF-8 step in agreement with what is kept of the message in progress, unless a finished text message is not text |
| `WebSocketSound.NoUnderflow` | src/microhttpd_ws/mhd_websocket.c:1507-1517 | in every run in which the finished text messages are text no length gets negative |
| `WebSocketSound.NothingUndefined` | src/microhttpd_ws/mhd_websocket.c:666-1324 | the same for the buffers of a connection that do not divide a close payload |
| `Sha1.Pad` | src/examples/websocket_threaded_example.c:217-250 | padding fills whole blocks, as few as possible (section 4 of RFC 3174) |
| `Sha1.PadInjective` | src/examples/websocket_threaded_example.c:217-250 | no two messages of fewer than 2^64 bits share a padded form |
| `Sha1.FoldConcat` | src/examples/websocket_threaded_example.c:342-345 | blocks may be processed as they come |
| `Sha1Examples.ChoiceSelects` | src/examples/websocket_threaded_example.c:172-173 | the function of the first twenty rounds selects c or d by the bits of b |
| `Sha1Examples.MajorityVotes` | src/examples/websocket_threaded_example.c:190-191 | that of the third twenty rounds is the majority of the three bits |
| `Sha1Examples.RotatedTurns` | src/examples/websocket_threaded_example.c:123-124 | SHA1CircularShift rotates |
| `Sha1Examples.DigestOfAbc` | src/examples/websocket_threaded_example.c:144-214 | the digest of "abc" is the one in section 7.3 of RFC 3174 |
| `HandshakeExample.DigestOfSample` | src/examples/websocket_threaded_example.c:487-505 | the digest of the 60 octets of the example in section 1.3 of RFC 6455, in two blocks |
| `Sha1Context.TakesMessage` | src/examples/websocket_threaded_example.c:328-347 | the context has processed the whole blocks, keeps the rest and counts the bits, until 2^64 |
| `Sha1Context.CutsDoNotMatter` | src/examples/websocket_threaded_example.c:309-349 | calls of SHA1Input add up to one |
| `Sha1Context.CountsBits` | src/examples/websocket_threaded_example.c:332-341 | the two length words are the number of bits; corrupted if and only if it reaches 2^64 |
| `Sha1Context.DigestOfPieces` | src/examples/websocket_threaded_example.c:274-349 | for every message of fewer than 2^64 bits and every cutting the result is the digest of RFC 3174 |
| `Sha1Context.BigEndianSplits` | src/examples/websocket_threaded_example.c:241-248 | the length words, each in four octets, are the 64-bit length in eight |
| `Sha1Context.SHA1Context.Reset` | src/examples/websocket_threaded_example.c:253-271 | a context that has taken nothing |
| `Sha1Context.SHA1Context.Schedule` | src/examples/websocket_threaded_example.c:152-163 | the two loops compute the words W(t) of section 6.1 of RFC 3174 |
| `Sha1Context.SHA1Context.RunRounds` | src/examples/websocket_threaded_example.c:164-207 | the four loops compute the 80 rounds |
| `Sha1Context.SHA1Context.ProcessMessageBlock` | src/examples/websocket_threaded_example.c:144-214 | the hash becomes the compression of the block |
| `Sha1Context.SHA1Context.PadMessage` | src/examples/websocket_threaded_example.c:217-250 | one block or two, depending on the room left, equal processing the padded rest |
| `Sha1Context.SHA1Context.Input` | src/examples/websocket_threaded_example.c:309-349 | the new context for every state, and when the call is refused |
| `Sha1Context.SHA1Context.Result` | src/examples/websocket_threaded_example.c:274-306 | the digest octets of the finished context, again and again; refused if and only if corrupted |
| `Base64.Decode` | src/lib/base64.c:30-57 | refuses exactly the wrong lengths, writes the decoded octets and a NUL within the allocation, and reads nothing behind the terminator |
| `Base64.WriteGroup` | src/lib/base64.c:44-54 | one to three octets, up to the first padding character |
| `Base64.DecodeInvertsEncode` | src/lib/base64.c:30-57 | decoding inverts the encoder of section 4 of RFC 4648 on all octet sequences, padded or not |
| `Base64.EncodedIsAccepted` | src/lib/base64.c:30-43 | what that encoder writes is a C string of a length that the decoder accepts |
| `Base64.EncodedExamples` | src/lib/base64.c:30-57 | the illustrations of sections 9 and 10 of RFC 4648 |
| `Base64.DigitsOfCharacters` | src/lib/base64.c:11-24 | what the table holds for every character |
| `Base64Encoder.Encode` | src/examples/websocket_threaded_example.c:359-413 | exactly 4*ceil(n/3) characters, which with the caller's NUL fit the allocation |
| `Base64Encoder.PaddingOnlyAtTheEnd` | src/examples/websocket_threaded_example.c:377-409 | padding characters stand in the required tail positions and nowhere else |
| `Base64Encoder.WriteGroup` | src/examples/websocket_threaded_example.c:377-409 | the characters of one group, with padding at the end of the data only |
| `Base64Encoder.OrSextets` | src/examples/websocket_threaded_example.c:384-395 | the joined sextet has exactly the bits that one of the two has |
| `Base64Encoder.RoundTripExactlyIfHarmless` | src/examples/websocket_threaded_example.c:384-395 | decoding gives the data back if and only if in each group the second sextet has no bit that the third lacks |
| `Base64Encoder.HarmfulExample` | src/examples/websocket_threaded_example.c:388-394 | data that does not come back |
| `ThreadedServer.AcceptValue` | src/examples/websocket_threaded_example.c:487-522 | the accept value is the encoder's output for the digest of key and GUID; keys of another length are refused |
| `ThreadedServer.AcceptValueDecodes` | src/examples/websocket_threaded_example.c:487-522 | it stands for the digest if and only if the digest is harmless for the encoder |
| `HandshakeExample.AnswerTheSample` | src/examples/websocket_threaded_example.c:487-522 | for the key of the example in RFC 6455 the server writes another value than the client expects |
| `HandshakeExample.AnswerOfTheServer` | src/examples/websocket_threaded_example.c:384-395 | that value |
| `HandshakeExample.AnswerOfTheStandard` | src/examples/websocket_threaded_example.c:514 | the value that the client expects |
| `ThreadedServer.BuildFrame` | src/examples/websocket_threaded_example.c:576-631 | the octets sent are the text frame of RFC 6455 with the shortest length, for every length |
| `ThreadedServer.SentFrameIsRead` | src/examples/websocket_threaded_example.c:576-631 | a client with the library's decoder reads the same message back, unless it is not the beginning of a text |
| `ThreadedServer.ReceiveFrame` | src/examples/websocket_threaded_example.c:650-704 | type, length and unmasked contents of a received frame; for which octets the result is undefined |
| `ThreadedServer.TypeIsOpcode` | src/examples/websocket_threaded_example.c:695-702 | the type of every frame that is not an unfragmented text frame is its opcode, 8 for a close frame, and no text is returned |
| `ThreadedServer.ParsesWhatWasSent` | src/examples/websocket_threaded_example.c:664-694 | of every masked text frame, received in whole or in part, the part of the payload that has come is recovered if and only if the header has come completely and an int counts the octets, in all three forms of the length and under every key; otherwise the result is undefined |
| `Connections.AddKeeps` | src/lib/connection_add.c:788-816 | a new connection is listed and counted, unless the limit is reached |
| `ConnectionEffects.AddedEffect` | src/lib/connection_add.c:788-816 | below the limit the new connection is active and counted, with its timeout list, and nobody else is touched; at the limit nothing changes |
| `Connections.SuspendedOnly` | src/lib/action_suspend.c:36-96 | afterwards the connection is on the suspended list only, with flags that say so; all others stay; also in the early return |
| `ConnectionEffects.SuspendedFields` | src/lib/action_suspend.c:36-96 | all fields of the connection afterwards |
| `Connections.SuspendKeeps` | src/lib/action_suspend.c:36-96 | suspension keeps lists, flags, counter and ownership in agreement |
| `Connections.ResumeKeeps` | src/lib/request_resume.c:42-65 | so does the request to resume |
| `ConnectionEffects.ResumeRequestedEffect` | src/lib/request_resume.c:42-65 | the request is noted in the connection and in the daemon, and nothing else changes |
| `Connections.ResumedAllKeeps` | src/lib/request_resume.c:78-198 | so does every round of the resumption loop, also for an upgraded connection that is finished |
| `ConnectionEffects.ResumedWaitingEffect` | src/lib/request_resume.c:78-198 | for every suspended connection: active again with its timeout list and, with epoll, the ready list; or on the cleanup list if it was upgraded and is finished; or untouched if nobody asked or it is not finished; all fields, and nobody else is touched |
| `ConnectionEffects.RequestedIsResumed` | src/lib/request_resume.c:42-198 | an ordinary suspended connection is active after a request and a round of resumptions |
| `Connections.CloseKeeps` | src/lib/connection_close.c:82-101 | so does closing, which gives up the response |
| `ConnectionEffects.ClosedEffect` | src/lib/connection_close.c:82-101 | closed, its response queued for destruction, and nothing else changed |
| `Connections.RetimeKeeps` | src/lib/connection_options.c:36-78 | so does a new timeout, which takes an active connection to the list for timeouts of its kind and leaves a suspended one |
| `ConnectionEffects.RetimedEffect` | src/lib/connection_options.c:36-78 | an active connection is then on the list for timeouts of the new kind, a suspended one where it was; only this field changes |
| `ConnectionEffects.TouchedEffect` | src/lib/connection_options.c:88-114 | an active connection with the default timeout goes to the head of its list |
| `Connections.ForwardKeeps` | src/lib/daemon_epoll.c:184-196 | so does each of the two flags of an upgrade handle |
| `Connections.BeginCleanupKeeps` | src/lib/connection_call_handlers.c:2821-2829 | so does the part of cleanup_connection before the mutex, taken twice or not |
| `ConnectionEffects.CleanupBegunEffect` | src/lib/connection_call_handlers.c:2821-2829 | marked, its response queued for destruction; the second time nothing |
| `Connections.RetireKeeps` | src/lib/connection_call_handlers.c:2830-2863 | so does its part under the mutex, whatever the resumption loop has done in between |
| `ConnectionEffects.RetiredEffect` | src/lib/connection_call_handlers.c:2830-2863 | afterwards the cleanup list has the connection, and of the others only the ready list may |
| `Connections.BeginShutdownKeeps` | src/lib/daemon_close_all_connections.c:45-53 | so does closing for shutdown, before the mutex |
| `Connections.ShutdownKeeps` | src/lib/daemon_close_all_connections.c:55-76 | and under the mutex |
| `ConnectionEffects.ShutDownEffect` | src/lib/daemon_close_all_connections.c:55-76 | the same at shutdown |
| `Connections.UnlinkKeeps` | src/lib/connection_cleanup.c:82-88 | so does taking the tail off the cleanup list |
| `Connections.DropHandleKeeps` | src/lib/connection_cleanup.c:36-60 | so does freeing its upgrade handle, without the mutex |
| `Connections.UnwatchKeeps` | src/lib/connection_cleanup.c:117-140 | so does taking that connection from the ready list and the epoll set, without the mutex |
| `Connections.DropResponseKeeps` | src/lib/connection_cleanup.c:141-145 | so does giving up its response |
| `Connections.FreeKeeps` | src/lib/connection_cleanup.c:150 | so does freeing it, without any condition |
| `Connections.UncountKeeps` | src/lib/connection_cleanup.c:152-154 | so does counting it off, with the mutex again |
| `Connections.NothingFreedIsListed` | src/lib/connection_cleanup.c:85-150 | in every run the connection that the loop is about to free has no response and no handle, and no list leads to it |
| `Connections.StepKeeps` | src/lib/connection_cleanup.c:76-158 | every step of any thread keeps the invariant, which the step does not presuppose |
| `Connections.ReachableInv` | src/lib/connection_cleanup.c:76-158 | the invariant holds in every run, whatever happens between the steps of a cleanup round and between the parts of a cleanup |
| `Connections.CounterIsRight` | src/lib/connection_add.c:788-810 | in every run the counter is within the limit, and equals the number of connections that exist, plus one only between free() and the decrement |
| `Connections.EveryResponseDestroyedOnce` | src/lib/connection_close.c:91-95 | when all connections are freed, every attached response has been queued for destruction exactly once |
| `Connections.NoResponseDestroyedEarly` | src/lib/connection_cleanup.c:141-145 | none is queued while a connection points to it, and no two connections share one |
| `Connections.LoopFreesTheList` | src/lib/connection_cleanup.c:82-156 | without interference the loop ends, frees exactly the cleanup list and lowers the counter by its length |
| `ConnectionEffects.CleanedAllEffect` | src/lib/connection_cleanup.c:82-156 | it touches nobody else, and queues every response of the list for destruction |
| `DoublyLinked.DList.Insert` | src/lib/internal.h:1743-1752 | the macro puts the element, whose links lead nowhere as it asserts, in front of the list from head to tail, and all links stay right |
| `DoublyLinked.DList.Remove` | src/lib/internal.h:1763-1775 | the macro takes exactly this element off the list, at its ends or within, and all links stay right |
| `DoublyLinked.InsertInto` | src/lib/internal.h:1786-1837 | on one of several lists over the same links it leaves the others as they are; what the macro asserts holds of every element that is on no list |
| `DoublyLinked.RemoveFrom` | src/lib/internal.h:1806-1857 | so does removal |
| `ConnectionLists.MHDDaemon.AddConnection` | src/lib/connection_add.c:788-816 | the critical section makes the abstract step on linked lists, and refuses exactly at the limit |
| `ConnectionLists.MHDDaemon.SuspendAction` | src/lib/action_suspend.c:36-96 | suspend_action makes the abstract step, link by link |
| `ConnectionLists.MHDDaemon.ResumeSuspended` | src/lib/request_resume.c:78-198 | the walk over the prev links, taken before the element is unlinked, makes all rounds of the abstract step; the result says whether a connection left the suspended list |
| `ConnectionLists.MHDDaemon.SetTimeout` | src/lib/connection_options.c:36-78 | MHD_connection_set_timeout makes the abstract step |
| `ConnectionLists.MHDDaemon.RetireConnection` | src/lib/connection_call_handlers.c:2830-2863 | the second part of cleanup_connection makes the abstract step |
| `ConnectionLists.MHDDaemon.ShutDownConnection` | src/lib/daemon_close_all_connections.c:55-76 | the second part of close_connection makes the abstract step |
| `ConnectionLists.MHDDaemon.ConnectionCleanup` | src/lib/connection_cleanup.c:76-158 | the loop from the tail, undisturbed, ends with an empty cleanup list, all its connections torn down and freed, and the right counter |
| `Sessions.PostIterator` | doc/examples/sessions.c:501-555 | one call stores its data at its offset, cropped to the buffer, followed by NUL; the other value stays |
| `Sessions.StoredOctets` | doc/examples/sessions.c:525-551 | every octet of the buffer after one call |
| `Sessions.PiecesArrive` | doc/examples/sessions.c:525-551 | after calls at contiguous offsets the buffer holds the first min(63, total) octets and a NUL |
| `Sessions.SessionStore.GetSession` | doc/examples/sessions.c:130-178 | a known cookie finds its session, otherwise a new one is put in front; counters stay right |
| `Sessions.SessionStore.RequestCompleted` | doc/examples/sessions.c:700-719 | a finished request no longer counts; it writes to freed memory if and only if its session is no longer listed |
| `Sessions.SessionStore.ExpireSessions` | doc/examples/sessions.c:726-752 | the rewired list is the old one without exactly the expired sessions, in order; counters stay right |
| `Sessions.SessionStore.HeldSessionsExpire` | doc/examples/sessions.c:734-751 | a session that a request holds stays listed if and only if it was listed and has been idle for no more than an hour, as if nobody held it |
| `Sessions.HeldTooLong` | doc/examples/sessions.c:713-714 | a request writes to freed memory at its end if and only if the list was swept more than an hour after the session began |
| `Sessions.SessionStore.Unlink` | doc/examples/sessions.c:740-747 | rewiring one link removes one element from the list |
| `Sessions.WithoutMembers` | doc/examples/sessions.c:736-751 | exactly the expired sessions go, and none appears twice |

## Left out

- Sockets, threads, TLS, files, clocks and page texts; time, random numbers and received data are parameters.
- Failures of malloc and realloc, and the sizes of allocations beyond what is stated.
- MHD_WEBSOCKET_FLAG_GENERATE_CLOSE_FRAMES_ON_ERROR, MHD_websocket_encode_close and MHD_websocket_split_close_reason: an error here only makes the stream invalid.
- WebSocketRuns.Decode: what follows the mark UNDEFINED; the stream counts as broken then.
- WebSocketStream.WebSocketStream.Decode: hands out payload as a sequence; ownership and freeing of payload buffers are not modelled.
- size_t overflow in buffer sizes; lengths are unbounded here except where RFC 6455 limits them.
- ChatServer.Chat.SenderTurn: encoding and sending of the message, the text of pings and chat_renameuser are left out; an announcement is any octets.
- ChatLeaving.JoinHangsExactly: that a thread that can go on does so at some time is not modelled; the sender is taken to have its next turn.
- ChatDelivery.DeliveredExactlyOnce: ends when the user leaves, because the cursors of users that are no longer listed are not rebased.
- ThreadedServer.ReceiveFrame: what the code does with octets that it has not received is marked as undefined.
- ThreadedServer.BuildFrame: which clients it is sent to, and send_all.
- Sha1Context.SHA1Context.Input: null arguments.
- ChatCommand.Parsed: what the server does with a command after parsing it.
- ConnectionLists.MHDDaemon: the links of a connection are three objects, one for each pair of link fields, and its other fields are a record in a map from its address.
- Connections.UpgradeBegun: the code that gives a connection its upgrade handle and the code by which the application closes it are not in the repository; here both are steps that may be taken at any time after the connection became active.
- Connections.StepOfOne: MHD_request_resume is called for suspended connections only, as its documentation demands (src/include/microhttpd2.h:2997-3001), and a response is attached to an active connection that has none.
- Connections.Touched: connections without a timeout, for which the code does nothing.
- Connections.Closed: notifications to the application, which both closing and cleanup send.
- Connections.Resumed: the timeout timer.
- Connections.Added: the checks before the limit, IP limits, and the failure path when no thread can be created.
- Sessions.SessionStore.RequestCompleted: what the write to freed memory does; here only the hold is dropped.
- Sessions.SessionStore.GetSession: ids are any strings; that a random id is new is not assumed. The later update of the start time is left out.
- The other examples, the HTTP parser and the event loops, which would add mostly input and output.
