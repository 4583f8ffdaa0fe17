# im-c chat: relay, message codec and buffer utilities in Dafny

This project models the sequential core of the im-c chat application. im-c is a
libwebsockets broadcast relay with a Clay/raylib front end. The model covers:

- **The backend relay** (`RelaySpec`, `Relay`). The server keeps a bounded history
  of the last 50 chat messages. A newly established session is first replayed that
  history, one node per writable event. It then receives live messages: one cached
  message plus a version counter, with each session remembering the last version
  it was sent. `RelaySpec` is the relay as a state machine over values. It records
  the libwebsockets side effects as outputs: an append-only log of `lws_write`
  sends and the set of pending writable wake-ups. `Relay.Vhost` is the same relay
  as a class whose callbacks update its fields. Each callback is proved equal to
  its `RelaySpec` counterpart.
- **The test-harness copy of the history list** (`HistoryHarness`). This copy adds
  null and zero-length guards and stores a NUL-terminated payload copy.
- **The frontend message codec and bounded message list** (`MessageTypes`). The
  codec reads and writes the `TYPE|TIMESTAMP|USERNAME|CONTENT|METADATA` form.
- **The integration-test mock server** (`MockServer`). It has ten client slots,
  per-client message logs, echo fan-out, a capped broadcast history and statistics.
- **Login parsing** (`Login`). The login page splits its `host:port` field.
- **Defensive helpers** (`ErrorHandling`): string copy and append, message
  creation and destruction with a freed-pointer registry, and validators.
- **The fuzzing target's lenient key/value parser** (`FuzzParser`).
- **Text-box editing** (`TextBox`) from the UI tests.

Several shared modules sit underneath:

- `CStrings`: C string length, and `strncpy`-style truncation.
- `Tokenizer`: the token sequence `strtok_r` yields, with empty tokens dropped,
  and the round trip through `Join`.
- `Decimal`: `atoi`, `strtoull` and the decimal rendering of numbers.
- `BoundedFifo`: the append-then-evict-oldest rule that the relay, the harness
  copy and the frontend list share.

## Model

| member | source | states |
|---|---|---|
| CStrings.CLength | tests/ui/test_clay_components_advanced.c:59 | the length `strlen` returns: the first NUL, with no NUL before it |
| CStrings.CLengthAt | tests/ui/test_clay_components_advanced.c:59 | any index holding the first NUL is the C length |
| CStrings.StrLen | tests/ui/test_clay_components_advanced.c:59 | the `strlen` scan loop returns the index of the first NUL |
| CStrings.Truncate | frontend/network/message_types.c:25-34 | `strncpy` to n characters plus a terminator keeps the first min(len, n) characters of the source |
| BoundedFifo.KeepLast | backend/protocol_lws_minimal.c:89-108 | the list after eviction holds min(len, n) elements |
| BoundedFifo.PushKeepsLast | backend/protocol_lws_minimal.c:89-108 | appending at the tail and then evicting from the head keeps exactly the newest n elements, in arrival order |
| BoundedFifo.PushAllIsKeepLast | backend/protocol_lws_minimal.c:89-108 | any run of bounded appends leaves exactly the last n items, oldest first |
| BoundedFifo.PushBounded | backend/protocol_lws_minimal.c:96-108 | after an append the list holds at most n items, the new one is at the tail, and nothing is evicted while there is room |
| Tokenizer.TokenLength | frontend/network/message_types.c:15 | a token runs up to the first delimiter and contains none |
| Tokenizer.Tokens | frontend/network/message_types.c:15-37 | every token `strtok_r` yields is non-empty and free of delimiters |
| Tokenizer.TokenLengthOfPrefix | frontend/network/message_types.c:15 | a delimiter-free prefix followed by a delimiter or the end is one token |
| Tokenizer.TokensSkipDelimiter | frontend/network/message_types.c:15-37 | a leading delimiter produces no token |
| Tokenizer.TokensField | frontend/network/message_types.c:15-37 | a field followed by a delimiter yields that field and then the tokens of the rest |
| Tokenizer.TokensOfJoin | frontend/network/message_types.c:15-37 | joining non-empty, delimiter-free fields with a delimiter and tokenising gives back the fields |
| Tokenizer.TokensDropEmptyField | frontend/network/message_types.c:15-37 | two adjacent delimiters yield the same tokens as one, so empty fields vanish |
| Tokenizer.TokenLengthAgree | frontend/network/message_types.c:15 | token length depends only on the characters up to the first delimiter |
| Decimal.DigitChar | frontend/network/message_types.c:48 | the decimal digit character for 0..9 |
| Decimal.NatToString | frontend/network/message_types.c:48-50 | `%llu` output: non-empty, all digits, no leading zero |
| Decimal.ValueOfNatToString | frontend/network/message_types.c:48-50 | reading back the rendered digits gives the number |
| Decimal.DigitRun | frontend/network/message_types.c:19-22 | the maximal run of leading digits |
| Decimal.SpaceRun | frontend/network/message_types.c:19-22 | the maximal run of leading white space that `atoi`/`strtoull` skip |
| Decimal.ScanNumber | frontend/network/message_types.c:19-22 | the numeric prefix scan ends inside the text and is empty exactly when no digit was read |
| Decimal.Strtoull | frontend/network/message_types.c:22 | `strtoull` base 10 always yields a 64-bit value; its saturation and negation are StrtoullSaturates and StrtoullOfNegative |
| Decimal.StrtoullSaturates | frontend/network/message_types.c:22 | any number above 2^64-1 reads back as `ULLONG_MAX` |
| Decimal.StrtoullOfNegative | frontend/network/message_types.c:22 | `-n` for any 0 < n <= 2^64-1 reads back as 2^64 - n, the negation of n modulo 2^64 |
| Decimal.ScanOfDigits | frontend/network/message_types.c:19-22 | an all-digit text is scanned whole, to its value |
| Decimal.DigitRunAll | frontend/network/message_types.c:19-22 | an all-digit text is one digit run |
| Decimal.StrtoullOfNatToString | frontend/network/message_types.c:22 | `strtoull` inverts `%llu` for any 64-bit value |
| Decimal.IntToString | frontend/network/message_types.c:48 | `%d` text is non-empty, starts with `-` exactly for a negative number, and is otherwise all digits; AtoiOfIntToString gives its value |
| Decimal.Atoi | frontend/network/message_types.c:19 | `atoi` is 0 when no digits are found and negative only after a `-`; AtoiOfIntToString states that it inverts `%d` |
| Decimal.AtoiOfIntToString | frontend/network/message_types.c:19 | `atoi` inverts `%d` and consumes the whole text |
| RelaySpec.Fresh | backend/protocol_lws_minimal.c:134-149 | a vhost with an empty history, no sessions and no live message |
| RelaySpec.ProtocolInit | backend/protocol_lws_minimal.c:134-149 | PROTOCOL_INIT succeeds exactly when allocation does, with an empty history bounded by 50, version 0 and no sessions |
| RelaySpec.AddToHistory | backend/protocol_lws_minimal.c:73-109 | the history becomes the bounded append of the payload (unchanged if allocation fails), stays within the bound, and nothing else in the vhost changes |
| RelaySpec.Established | backend/protocol_lws_minimal.c:151-161 | the new session is registered with `last = current`, `needs_history` set and its cursor on the history head (NULL for an empty history); a wake-up is requested; the other sessions are untouched |
| RelaySpec.Closed | backend/protocol_lws_minimal.c:163-167 | the session leaves the registry and loses its pending wake-up; the other sessions are untouched |
| RelaySpec.Receive | backend/protocol_lws_minimal.c:212-238 | the message is added to history; if the live copy succeeds, `current` increases by one and every session is woken, otherwise the live slot is empty and `current` and the wake-ups are unchanged |
| RelaySpec.Writable | backend/protocol_lws_minimal.c:169-210 | a replaying session is sent exactly the cursor's node, which then advances (with another wake-up) or ends replay at `last = current`; a live session is sent the live message once, only when its `last` differs from `current`; a short write returns -1 and changes only that session's wake-up; other sessions are untouched |
| RelaySpec.WritableAsWritten | backend/protocol_lws_minimal.c:169-181 | the writable callback as written reads freed memory exactly when the replay cursor points at an evicted node; otherwise it agrees with `Writable` |
| RelaySpec.HistorySends | backend/protocol_lws_minimal.c:171-192 | the sends of a replay from node k: one per node, in order |
| RelaySpec.Payloads | backend/protocol_lws_minimal.c:171-209 | the payloads of a send log, in order |
| RelaySpec.Drain | backend/protocol_lws_minimal.c:169-192 | writable events until replay ends keep the sessions and only extend the send log |
| RelaySpec.ReplayStep | backend/protocol_lws_minimal.c:171-192 | one fully written replay event sends the cursor's node and either moves the cursor on or ends replay at the current version; nothing else in the vhost changes |
| RelaySpec.ReplayLog | backend/protocol_lws_minimal.c:171-192 | a send log extended by a replay keeps its old entries and ends with the replayed payloads, all to that session and all from history |
| RelaySpec.DrainDelivers | backend/protocol_lws_minimal.c:171-192 | a replaying session is sent every node from its cursor to the tail, in order and nothing else, then catches up to `current` |
| RelaySpec.JoinReplaysHistory | backend/protocol_lws_minimal.c:151-192 | a session that joins is replayed exactly the history as it stood when it joined, oldest first, then is live at the current version |
| RelaySpec.ReceiveDuringReplay | backend/protocol_lws_minimal.c:169-238 | a message received during replay reaches that session once, through the history and after every older node; it is not sent again live |
| RelaySpec.SecondWritableSendsNothing | backend/protocol_lws_minimal.c:195-209 | a second writable event with nothing received in between sends nothing |
| RelaySpec.ReceiveAll | backend/protocol_lws_minimal.c:212-238 | a run of receives keeps the sessions and the send log |
| RelaySpec.HistoryHoldsLastN | backend/protocol_lws_minimal.c:89-108 | after any run of receives, the history is the last n messages in arrival order and at most n long |
| RelaySpec.Next | backend/protocol_lws_minimal.c:122-244 | every callback keeps the vhost invariant |
| RelaySpec.NextKeepsLiveOnce | backend/protocol_lws_minimal.c:195-238 | in any order of callbacks, no session is ever sent the same live version twice |
| RelaySpec.WritableKeepsLiveOnce | backend/protocol_lws_minimal.c:195-209 | the writable callback never sends a live version that session already had |
| RelaySpec.EvictedCursorIsRead | backend/protocol_lws_minimal.c:99-108 | with a full history, a session that joins and then sees one more message before its first writable event has its cursor on a freed node, and the as-written callback reads it |
| RelaySpec.ScenarioReplayAfterEviction | backend/protocol_lws_minimal.c:171-192 | with a bound of 3, a session joining after m1..m4 is replayed m2, m3, m4 |
| RelaySpec.ScenarioJoinEmptyHistory | backend/protocol_lws_minimal.c:169-199 | a session joining an empty history sends nothing on its first writable event and stays live |
| RelaySpec.ScenarioTwoSessions | backend/protocol_lws_minimal.c:195-238 | two live sessions each get a received message exactly once |
| RelaySpec.LiveWrite | backend/protocol_lws_minimal.c:195-210 | a fully written live event on a session behind the current version sends the live message once and brings the session up to date |
| Relay.Vhost.constructor | backend/protocol_lws_minimal.c:134-149 | a vhost in the PROTOCOL_INIT state |
| Relay.Vhost.AddToHistory | backend/protocol_lws_minimal.c:73-109 | the append and the eviction loop leave the state `RelaySpec.AddToHistory` describes |
| Relay.Vhost.DestroyLive | backend/protocol_lws_minimal.c:62-70 | the live slot is freed |
| Relay.Vhost.SendHistory | backend/protocol_lws_minimal.c:112-119 | the session is set to replay from the history head and a wake-up is requested |
| Relay.Vhost.Established | backend/protocol_lws_minimal.c:151-161 | the state `RelaySpec.Established` describes |
| Relay.Vhost.Closed | backend/protocol_lws_minimal.c:163-167 | the state `RelaySpec.Closed` describes |
| Relay.Vhost.Writable | backend/protocol_lws_minimal.c:169-210 | the state and return value `RelaySpec.Writable` describes |
| Relay.Vhost.Receive | backend/protocol_lws_minimal.c:212-238 | the state `RelaySpec.Receive` describes |
| Relay.Vhost.WakeAll | backend/protocol_lws_minimal.c:234-237 | every registered session gets a pending wake-up |
| HistoryHarness.Stored | tests/backend/test_backend_components.c:57-67 | the stored copy: the payload bytes plus a terminator, the length, and the mock timestamp |
| HistoryHarness.Add | tests/backend/test_backend_components.c:49-89 | a null or empty payload or a failed allocation changes nothing; otherwise the stored copy goes to the tail and the list stays within its bound |
| HistoryHarness.DestroyMessage | tests/backend/test_backend_components.c:40-47 | null-safe; a payload is released and the length zeroed; a message without a payload is left as is |
| HistoryHarness.TestVhd.constructor | tests/backend/test_backend_components.c:92-102 | an empty history with bound 5, count 0, version 0 and no live message |
| HistoryHarness.CreateTestVhd | tests/backend/test_backend_components.c:92-102 | fails exactly when allocation fails; otherwise a fresh vhd in the initial state |
| HistoryHarness.AddToHistory | tests/backend/test_backend_components.c:49-89 | the tail append and the eviction loop give the list `Add` describes; the bound, version and live slot are unchanged; a null vhd is a no-op |
| HistoryHarness.StoredAll | tests/backend/test_backend_components.c:57-67 | one stored copy per payload |
| HistoryHarness.StoredAllAt | tests/backend/test_backend_components.c:57-67 | the i-th stored copy is that of the i-th payload, whole |
| HistoryHarness.StoredWhole | tests/backend/test_backend_components.c:57-67 | the stored copy of a whole payload is its bytes followed by a NUL, with its length and the mock timestamp |
| HistoryHarness.AddAllKeepsNewest | tests/backend/test_backend_components.c:69-88 | any run of adds leaves the stored copies of the newest `max` payloads, in order |
| HistoryHarness.ScenarioOverflow | tests/backend/test_backend_components.c:207-231 | with bound 5, adding Msg1..Msg7 keeps 5 messages, Msg3..Msg7 in order |
| HistoryHarness.ScenarioFirstLink | tests/backend/test_backend_components.c:162-178 | one add to an empty history gives a one-node list holding the stored copy |
| HistoryHarness.ScenarioLinking | tests/backend/test_backend_components.c:296-313 | two adds give the two stored copies, the first followed by the second |
| MessageTypes.Fill | frontend/network/message_types.c:16-39 | the first five tokens fill type, timestamp, user name, content and metadata in turn; the fields keep fitting their arrays |
| MessageTypes.ParseSpec | frontend/network/message_types.c:6-43 | a null argument fails and leaves the message alone; otherwise success is exactly "at least 4 tokens", and the filled fields fit their arrays |
| MessageTypes.Parse | frontend/network/message_types.c:6-43 | the `strtok_r` loop returns the result and the message that `ParseSpec` describes |
| MessageTypes.ExtraFieldsIgnored | frontend/network/message_types.c:16 | tokens after the fifth do not affect the message |
| MessageTypes.EmptyFieldSkipped | frontend/network/message_types.c:15-37 | an empty field between two pipes is skipped, shifting the later fields |
| MessageTypes.Serialize | frontend/network/message_types.c:45-54 | a null argument returns -1; otherwise the return value is the full formatted length, and the buffer holds the first `size - 1` characters of the text with its terminator when the text does not fit, all of it when it does, and nothing for size 0 |
| MessageTypes.TokensOfFormat | frontend/network/message_types.c:48-53 | the formatted text tokenises into its five fields (four when the metadata is empty) |
| MessageTypes.NumbersHaveNoPipe | frontend/network/message_types.c:48-50 | rendered numbers are non-empty and contain no pipe |
| MessageTypes.TokensOfFields | frontend/network/message_types.c:15-53 | five pipe-joined fields tokenise back into those fields |
| MessageTypes.LastTwoFields | frontend/network/message_types.c:15-53 | content and metadata joined by a pipe tokenise back into them; empty metadata disappears |
| MessageTypes.FieldThenRest | frontend/network/message_types.c:15-37 | a field then a pipe yields that field and the tokens of the rest |
| MessageTypes.SerializeThenParse | frontend/network/message_types.c:6-54 | serialising into a large enough buffer and parsing back succeeds and recovers the message (empty metadata leaves the previous metadata in place) |
| MessageTypes.MessageList.constructor | frontend/network/message_types.c:56-66 | an empty list bounded by the argument if positive, otherwise by 100 |
| MessageTypes.Create | frontend/network/message_types.c:56-66 | fails exactly when allocation fails; otherwise an empty list with that bound |
| MessageTypes.Add | frontend/network/message_types.c:75-105 | succeeds exactly for an existing list, a message and a successful allocation; the message then goes to the tail and the oldest are evicted down to the bound |
| MessageTypes.Clear | frontend/network/message_types.c:114-126 | the list is emptied, node by node from the head, and keeps its bound; null-safe |
| MessageTypes.Destroy | frontend/network/message_types.c:68-73 | the list is emptied before being released; null-safe |
| MessageTypes.GetLatest | frontend/network/message_types.c:107-112 | null for no list, a non-positive count or an empty list; otherwise the whole list from its head |
| MockServer.Entry | tests/integration/mock_websocket_server.c:151-153 | stored text is the message cut to 2047 characters, and its length field equals its length |
| MockServer.Log | tests/integration/mock_websocket_server.c:148-160 | a client's log gains the entry only below its capacity; nothing else about the client changes |
| MockServer.Connected | tests/integration/mock_websocket_server.c:108-120 | the number of connected slots is at most the number of slots |
| MockServer.ConnectedZero | tests/integration/mock_websocket_server.c:108-120 | the number of connected slots is zero exactly when none is connected |
| MockServer.ConnectedSame | tests/integration/mock_websocket_server.c:353-356 | rewriting message logs without touching connection flags keeps the connected count |
| MockServer.Offer | tests/integration/mock_websocket_server.c:163-180 | a slot logs the entry exactly when it is connected and not the excluded sender; only its log can change |
| MockServer.Echo | tests/integration/mock_websocket_server.c:163-181 | the slots after a fan-out: the same number of slots, each one offered the entry |
| MockServer.ConnectedUpdate | tests/integration/mock_websocket_server.c:123-130 | updating one slot changes the connected count by that slot's change of state |
| MockServer.Takers | tests/integration/mock_websocket_server.c:163-180 | the number of connected clients other than the sender that have room |
| MockServer.FirstFree | tests/integration/mock_websocket_server.c:108-120 | the lowest disconnected slot; none exactly when every slot is connected |
| MockServer.Record | tests/integration/mock_websocket_server.c:183-194 | the broadcast history appends while below its cap and never evicts |
| MockServer.RecordKeepsFirst | tests/integration/mock_websocket_server.c:183-194 | any run of records keeps the first `max` messages, in order |
| MockServer.TakersIgnoreExcepted | tests/integration/mock_websocket_server.c:163-180 | changing only the sender's slot does not change the number of echo recipients |
| MockServer.Server.constructor | tests/integration/mock_websocket_server.c:9-36 | the initial server: not running, accepting, echoing, ten empty disconnected slots, zero statistics |
| MockServer.Server.Start | tests/integration/mock_websocket_server.c:56-67 | fails when already running; otherwise sets running and zeroes the statistics; the frame leaves the port, the flags, the slots and the broadcast history unchanged |
| MockServer.Server.Stop | tests/integration/mock_websocket_server.c:69-81 | every slot is disconnected and keeps its log, the client count is zero and the server stops; the frame keeps the port, the flags, the statistics and the broadcast history |
| MockServer.FindFree | tests/integration/mock_websocket_server.c:108-117 | the slot search loop stops at the lowest disconnected slot, or past the end when every slot is connected |
| MockServer.Server.Claim | tests/integration/mock_websocket_server.c:110-115 | the found slot is connected with an empty log and the client count goes up by one; no other slot changes |
| MockServer.Server.Connect | tests/integration/mock_websocket_server.c:92-121 | returns the lowest free slot when running, accepting and not failing, otherwise -1; the slot is connected with an empty log; the counters move as the source counts; the frame keeps `running`, the port, the flags, the message counters and the broadcast history |
| MockServer.Server.Disconnect | tests/integration/mock_websocket_server.c:123-130 | an in-range slot is disconnected; the count drops only if it was connected; other slots are untouched; the frame keeps every other field |
| MockServer.Server.FanOut | tests/integration/mock_websocket_server.c:231-248 | the slots become their `Echo`: every connected client except the excluded one logs the entry, with one `messages_sent` per copy stored |
| MockServer.OfferAll | tests/integration/mock_websocket_server.c:163-181 | the fan-out loop leaves the slots as `Echo` describes and counts the copies stored as `Takers` |
| MockServer.Server.Store | tests/integration/mock_websocket_server.c:148-158 | the sender's log gains the entry if below capacity, counted in `messages_received` |
| MockServer.Server.SendMessage | tests/integration/mock_websocket_server.c:132-197 | fails and changes nothing for a missing message, an invalid or disconnected sender, or a dropped message; otherwise the sender logs it, the slots are the `Echo` of that to everyone else when echo is on, and it is recorded in the broadcast history; the frame keeps `running`, the port, the flags and the connection counters |
| MockServer.Server.Deliver | tests/integration/mock_websocket_server.c:148-194 | an accepted message: the sender stores it, the echo reaches the other connected clients, the statistics count both, and the broadcast history records it; the frame keeps every other field |
| MockServer.Server.Inject | tests/integration/mock_websocket_server.c:223-249 | the slots become the `Echo` of the entry with no sender excluded, so every connected client with room logs it, one `messages_sent` per copy; null is a no-op; the frame keeps every other field |
| MockServer.Server.Broadcast | tests/integration/mock_websocket_server.c:251-272 | inject, counting one `messages_sent` per copy, then record in the capped broadcast history; null is a no-op; the frame keeps every other field |
| MockServer.ClearLogs | tests/integration/mock_websocket_server.c:353-356 | the loop empties every client's log and changes nothing else about any slot |
| MockServer.Server.ResetStats | tests/integration/mock_websocket_server.c:343-358 | the statistics are zero, every log and the broadcast history are empty, and connections are kept; the frame keeps the port, the flags, `running` and the client count |
| MockServer.TakersAfterTwoConnects | tests/integration/mock_websocket_server.c:163-181 | with only the two lowest slots connected, a message from slot 0 has exactly one other taker |
| MockServer.ScenarioMultipleClients | tests/integration/test_websocket_integration_advanced.c:65-89 | on a fresh started server two connects take slots 0 and 1, and a message from the first is logged by both, with one copy sent and one received |
| Login.HostScan | frontend/shared-layouts/login-page.c:32-36 | the host loop stops at ':' or after 25 characters |
| Login.HostLength | frontend/shared-layouts/login-page.c:32-36 | the number of host characters copied: none is ':', and the next is ':' unless 25 were read |
| Login.PortScan | frontend/shared-layouts/login-page.c:38-46 | the port loop stops at NUL, '_' or after 4 characters |
| Login.PortLength | frontend/shared-layouts/login-page.c:38-46 | the number of port characters copied, at most 4 |
| Login.Host | frontend/shared-layouts/login-page.c:32-37 | the host text: at most 25 characters, without ':' |
| Login.Port | frontend/shared-layouts/login-page.c:38-47 | the port text: at most 4 characters, without NUL or '_' |
| Login.ParseSocketData | frontend/shared-layouts/login-page.c:29-52 | `ipaddr` gets the host and a NUL, `port` gets the port and a NUL, nothing else in either array changes, and the result is true exactly when the port has at least 3 characters |
| Login.CopyHost | frontend/shared-layouts/login-page.c:32-37 | the host loop copies the host and terminates it |
| Login.CopyPort | frontend/shared-layouts/login-page.c:38-47 | the port loop copies the port and terminates it |
| Login.ParseOfJoin | frontend/shared-layouts/login-page.c:29-52 | `host:port` with a short host and a 3-4 character port splits back into that host and port and is accepted |
| Login.HostOfJoin | frontend/shared-layouts/login-page.c:32-36 | the host loop stops at the first ':' |
| Login.HostScanStops | frontend/shared-layouts/login-page.c:32-36 | the host loop from any earlier point reaches the first ':' |
| Login.PortOfJoin | frontend/shared-layouts/login-page.c:38-46 | the port loop copies a port that ends at NUL, '_' or 4 characters |
| ErrorHandling.Copied | tests/edge_cases/test_error_handling.c:55-69 | the destination after `strncpy` and forced termination: exactly the given size, ending with a NUL |
| ErrorHandling.SafeStringCopy | tests/edge_cases/test_error_handling.c:55-69 | -1 exactly for a null argument or size 0, with nothing written; otherwise the truncated source with a NUL, returning its length |
| ErrorHandling.WriteAt | tests/edge_cases/test_error_handling.c:92-97 | the appending copy writes the source from the old terminator on and leaves the rest of the buffer alone |
| ErrorHandling.SafeStringAppend | tests/edge_cases/test_error_handling.c:71-98 | -1 exactly for a null argument, size 0 or an over-long destination; 0 and no change when full; otherwise the source is appended truncated to the room left, and the new length is returned |
| ErrorHandling.SafeMessageCreate | tests/edge_cases/test_error_handling.c:100-125 | null exactly for a null argument, a user name of 64 or more characters, content of 1024 or more, or a failed allocation; otherwise the fields, the magic number and the timestamp |
| ErrorHandling.Destroy | tests/edge_cases/test_error_handling.c:127-138 | a message is freed exactly when it is not null and not yet registered; it is registered only while the registry has room |
| ErrorHandling.DestroyTwiceFreesOnce | tests/edge_cases/test_error_handling.c:127-138 | while the registry has room, destroying the same message twice frees it once |
| ErrorHandling.FullRegistryFreesTwice | tests/edge_cases/test_error_handling.c:23-27 | once 100 pointers are registered, a new message destroyed twice is freed twice |
| ErrorHandling.DestroyBounded | tests/edge_cases/test_error_handling.c:23-27 | the registry never exceeds 100 entries |
| ErrorHandling.Registry.constructor | tests/edge_cases/test_error_handling.c:10-12 | an empty registry |
| ErrorHandling.Registry.IsAlreadyFreed | tests/edge_cases/test_error_handling.c:14-21 | the lookup loop finds exactly the registered pointers |
| ErrorHandling.Registry.MarkAsFreed | tests/edge_cases/test_error_handling.c:23-27 | appends while below 100 entries, otherwise does nothing |
| ErrorHandling.Registry.SafeMessageDestroy | tests/edge_cases/test_error_handling.c:127-138 | the registry and the release that `Destroy` describes |
| ErrorHandling.ValidateMessageType | tests/edge_cases/test_error_handling.c:140-151 | true exactly for 0..4 |
| ErrorHandling.ValidateUsername | tests/edge_cases/test_error_handling.c:153-174 | true exactly for 1..63 characters, each a letter, digit, '_' or '-' |
| ErrorHandling.Unsigned | tests/edge_cases/test_error_handling.c:176-201 | the text with an optional sign removed |
| ErrorHandling.SafeParseInteger | tests/edge_cases/test_error_handling.c:176-201 | a value exactly for an optional sign and digits filling the whole text, within the `int` range, with a result pointer; that value is the text's value |
| ErrorHandling.ScanWholeInteger | tests/edge_cases/test_error_handling.c:185-196 | for text without leading space, `strtol` stops at the end exactly when the text is a sign and digits |
| ErrorHandling.IntToStringIsIntegerText | tests/edge_cases/test_error_handling.c:176-201 | `%d` text of any integer is an optional sign followed by digits, and its value is the integer |
| ErrorHandling.ParseOfIntToString | tests/edge_cases/test_error_handling.c:176-201 | every `int` printed in decimal parses back to itself |
| ErrorHandling.NetworkErrorToString | tests/edge_cases/test_error_handling.c:213-223 | codes 0..5 have their own strings, everything else is "Unknown error", and only 0 is "No error" |
| ErrorHandling.NetworkErrorStringsDistinct | tests/edge_cases/test_error_handling.c:213-223 | the six known codes have six different strings |
| FuzzParser.Assign | tests/fuzz/fuzz_message_parser.c:52-85 | storing a key's value keeps every field in range and counts at most one field |
| FuzzParser.Run | tests/fuzz/fuzz_message_parser.c:48-87 | the token loop keeps the fields in range and never counts beyond 8 |
| FuzzParser.FuzzSpec | tests/fuzz/fuzz_message_parser.c:30-91 | 0 with the message untouched for null arguments or input of 2048 or more characters; otherwise the fields are in range, and success means exactly that user name and content are non-empty |
| FuzzParser.FuzzParse | tests/fuzz/fuzz_message_parser.c:30-91 | the `strtok_r` loop returns what `FuzzSpec` describes |
| FuzzParser.FilledMessageInRange | tests/fuzz/fuzz_message_parser.c:41-90 | whatever the input, the type is 0..4, every text is shorter than its array, and at most 8 fields are counted |
| FuzzParser.ParseOfUserAndContent | tests/fuzz/fuzz_message_parser.c:30-91 | `username:<u>:content:<c>` parses to the zeroed message with that user name and content, and succeeds |
| FuzzParser.OutOfRangeTypeIgnored | tests/fuzz/fuzz_message_parser.c:60-65 | a type outside 0..4 is skipped and not counted |
| FuzzParser.StopsAfterEightFields | tests/fuzz/fuzz_message_parser.c:48-50 | nothing is read once 8 fields are stored |
| TextBox.InsertAt | tests/ui/test_clay_components_advanced.c:62-69 | one character inserted at the cursor, with the tail shifted right |
| TextBox.DeleteBefore | tests/ui/test_clay_components_advanced.c:50-55 | the character before the cursor removed, with the tail shifted left |
| TextBox.DeleteUndoesInsert | tests/ui/test_clay_components_advanced.c:49-71 | a backspace right after an insertion restores the text |
| TextBox.ClayTextBox.constructor | tests/ui/test_clay_components_advanced.c:16-21 | an empty, unfocused text box |
| TextBox.HandleInput | tests/ui/test_clay_components_advanced.c:46-75 | true exactly for a focused box and either a backspace with the cursor past 0 or a printable character with room; it then deletes before or inserts at the cursor and moves the cursor; otherwise nothing changes |
| TextBox.ShiftLeft | tests/ui/test_clay_components_advanced.c:52-54 | the left-shift loop moves the text after the cursor one place left over the character before it |
| TextBox.ShiftRight | tests/ui/test_clay_components_advanced.c:64-66 | the right-shift loop moves the text from the cursor and its NUL one place right |
| TextBox.Backspace | tests/ui/test_clay_components_advanced.c:49-57 | the left-shift loop deletes the character before the cursor, which moves back one |
| TextBox.Insert | tests/ui/test_clay_components_advanced.c:58-71 | the right-shift loop inserts at the cursor, which moves forward one |
| TextBox.SetFocus | tests/ui/test_clay_components_advanced.c:77-81 | the focus flag takes the argument; null-safe |
| TextBox.Typed | tests/ui/test_ui_components.c:17-25 | a character is appended only while the text is shorter than maxLen-1, so it stays below maxLen |
| TextBox.Erased | tests/ui/test_ui_components.c:27-34 | the last character is removed; an empty text stays empty |
| TextBox.EraseUndoesType | tests/ui/test_ui_components.c:17-34 | erasing right after typing restores the text |
| TextBox.TypeIntoFull | tests/ui/test_ui_components.c:17-25 | typing into a full buffer changes nothing |
| TextBox.TypingScenarios | tests/ui/test_ui_components.c:59-79 | "H", "i" into a 10-character buffer gives "Hi"; "d", "e" into "abc" in 5 gives "abcd" |
| TextBox.RoomAgrees | tests/ui/test_ui_components.c:20 | for a non-zero size the wrapped `size_t` guard means exactly "len + 1 < maxLen" |
| TextBox.ZeroSizeWritesPastBuffer | tests/ui/test_ui_components.c:20-23 | with maxLen 0, the guard as written admits a write to an empty buffer |
| TextBox.HandleTextInput | tests/ui/test_ui_components.c:17-25 | with room, writes the character and a NUL and increments the length; otherwise (or for null arguments) nothing changes |
| TextBox.HandleBackspace | tests/ui/test_ui_components.c:27-34 | for a non-empty text, NUL overwrites the last character and the length drops by one; otherwise (or for null arguments) nothing changes |
| TextBox.Cleared | tests/unit/test_textbox.c:6-11 | the first len flags are false and the rest unchanged |
| TextBox.ClearedIdempotent | tests/unit/test_textbox.c:6-11 | resetting twice is resetting once |
| TextBox.ResetTextBoxFocus | tests/unit/test_textbox.c:6-11 | the loop leaves the flags `Cleared` describes; null is a no-op |

## Left out

- Timestamps: `gettimeofday` and the mock timestamps are left out. Timestamps are a constant where the source stores one.
- `LWS_PRE`: the header room reserved in front of payloads is not modelled, nor is any byte offset.
- Memory: `malloc`/`free` become allocation-success parameters, and pointer identity is not modelled. Freed pointers are natural numbers in the registry.
- Relay sessions: the session list (`lws_ll_fwd_insert`/`remove`) is a map from session id to per-session data. Its order is not modelled, but the order of wake-ups does not affect any property here.
- libwebsockets: `lws_write` is a parameter giving the number of bytes written. `lws_callback_on_writable` and `lws_callback_on_writable_all_protocol` are the wake-up set.
- RelaySpec.Writable: an evicted node stays readable while a cursor refers to it, where the source frees it (see Findings).
- Relay `current`: the `int` counter is unbounded, so its overflow after 2^31 messages is not modelled.
- `atoi` overflow: input outside the `int` range is undefined behaviour in C. The model returns the mathematical value.
- SafeParseInteger: assumes a 64-bit `long`, so every value `strtol` saturates is outside `int` and refused. Where `long` is 32 bits, `strtol` turns a number beyond the `int` range into `LONG_MAX` or `LONG_MIN`, which equal `INT_MAX` and `INT_MIN`, so the source accepts it as that bound while the model refuses it.
- `rand()`: the mock server's random message loss is the `dropped` parameter of `MockServer.Server.SendMessage`.
- Mock server leftovers:
  - `usleep` and the `mock_server_wait_for_*` polling loops are not modelled (timing only);
  - `mock_server_update` is not modelled (it only sleeps);
  - the four setters are not modelled (plain field writes);
  - `mock_server_get_client_messages`, `get_broadcast_history` and `get_stats` are not modelled (read-only accessors);
  - `mock_server_destroy` is not modelled (it only frees).
- MockServer.Server: the methods assume an existing server, so the source's null-server checks are not modelled. Per-client message arrays are bounded sequences rather than fixed arrays with counters.
- Mock server and message list: the `MockMessage` and `Message` fields a test never reads back (timestamps, client ids of broadcasts) are not modelled.
- MessageTypes.GetLatest: returns the whole list from its head, as the source does, and ignores `count`.
- MessageTypes.Serialize: `snprintf`'s behaviour for a negative size (a huge `size_t`) is modelled as "everything fits".
- TextBox.Backspace: the source calls `strlen` on every pass of the left-shift loop, while the model reads the length once before the loop. The loop stops at the same index either way, because the text keeps its length until the NUL itself is shifted.
- Aliasing: the arrays passed to `Login.ParseSocketData` are required to be distinct. Aliased arrays would make the C behaviour depend on the overlap.
- Floating-point geometry is not modelled: point-in-bounds, overlap, total width, and button hover and click.
- GUI and render code: Clay layouts, raylib input and the text-box render loop are not modelled.
- Network service: the websocket service and its stubs are not modelled.
- Fuzz driver: the fuzz target's `main` (file and stdin reading, `abort` checks) is not modelled.
- Debug drivers: `tests/debug_*.c` repeat the text-box function and are not modelled.
- C strings as Dafny strings: the text arguments of the parsers and validators (`FuzzParser`, `MessageTypes.Parse`, `ErrorHandling.ValidateUsername`, `ErrorHandling.SafeMessageCreate`) stand for C strings, so they are meant to contain no NUL. Only `ErrorHandling`'s copy and append helpers require this explicitly. For a string with an embedded NUL, the other members read past the point where C would stop.
- Message type range: `MessageType` is an `int` after `atoi`. The model keeps whatever value was parsed, with no enum range check, as the source does.

## Findings

| source | as written | input that shows it | evidently intended | confidence | as-written member | corrected member |
|---|---|---|---|---|---|---|
| backend/protocol_lws_minimal.c:99-108, 173-181 | eviction frees the history head even when a replaying session's `history_pos` still points at it; the next writable event dereferences the freed node | a full history of 50, a session establishes, one more message arrives before its first writable event | a replay cursor never refers to freed memory: evicted nodes stay alive while referenced, or the cursor moves forward on eviction | high (not executed) | RelaySpec.EvictedCursorIsRead | RelaySpec.Writable |
| tests/ui/test_ui_components.c:20 | `*len < maxLen - 1` on `size_t` wraps when `maxLen` is 0, so the guard passes and `buffer[0]` and `buffer[1]` are written | `maxLen = 0`, `*len = 0`, any character | input is accepted only while `*len + 1 < maxLen` | high (not executed) | TextBox.ZeroSizeWritesPastBuffer | TextBox.HandleTextInput |
