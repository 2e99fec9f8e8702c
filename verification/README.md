# The Worms 2 lobby server, modelled and proved in Dafny

The server keeps a lobby of users, chat rooms and hosted games, and talks to its clients in small binary frames.
This project models both halves and the path between them:

- **The lobby** is a state machine over login, each request and disconnect. Users, rooms and games share one space of
  recycled 32-bit ids, and every change is announced to the other users.
- **The wire format** is an incremental, flag-driven binary format whose texts are transcoded between UTF-8 (section 3 of
  RFC 3629, at most three bytes a character) and two Windows code pages.
- **The sessions** turn received bytes into frames, frames into requests, and requests into steps of the lobby.

`dafny verify dfyconfig.toml` checks everything.

## How it is put together

| file | content |
|---|---|
| `bytes.dfy` | octets, little-endian words, C strings |
| `code_pages.dfy` | Windows-1251 and Windows-1252, their transcoding loops and round trips |
| `packet_buffers.dfy` | the reader and writer that the server takes from the PacketIO library, as contracts |
| `session_info.dfy` | the 50-byte session block |
| `packets.dfy` | what a frame means and how a packet is printed (specification) |
| `packet_laws.dfy` | prefix stability, frame bound, parser against printer |
| `wire.dfy` | which bytes any packet is, the frames the server sends, which codes are known |
| `reading.dfy` | what a frame is, without a parser, and that the parser finds exactly those |
| `worms_packet.dfy` | `readFrom`, `writeTo` and the flags as running code, proved against `packets.dfy` |
| `sessions.dfy` | the receive loop |
| `session_laws.dfy` | when the split into receives matters, how much is buffered, what login takes off the stream |
| `names.dfy` | case-insensitive names |
| `lobby.dfy` | the lobby state machine (specification) |
| `lobby_invariants.dfy` | what each step keeps |
| `lobby_runs.dfy` | safety over runs, the limit of the allocator, the high-water mark, when rooms close and when they stand empty |
| `lobby_hosts.dfy` | games and their hosts |
| `exhaustion.dfy` | a run that uses up all ids |
| `replication.dfy` | the notifications as a replication protocol |
| `audiences.dfy` | who receives chat, what listings enumerate |
| `requests.dfy` | what comes of each request, by its code and in numbers: refusals, answers, notices, changes |
| `server.dfy` | users and database as mutable objects, proved against `lobby.dfy` |
| `packet_handler.dfy` | the request handlers, login and disconnect on those objects |
| `dispatch.dfy` | sessions and connections as runs of the lobby, and when their split into receives matters to it |
| `connections.dfy` | the server as a whole: any number of connections over one lobby |
| `stalls.dfy` | what a game offer with an unparsable address does to its session |
| `user_session.dfy` | logins, receives and whole connections on the database: bytes in, a run of the lobby out |
| `service.dfy` | all clients at once on one database |
| `end_to_end.dfy` | chat relay from one client's bytes to another's |

The running code (classes, loops, cursors) is always proved equal to a specification function, and the theorems are about
the specification. `Services.ServeClients` is where everything meets: whatever bytes arrive from however many clients, in
whatever order, the database takes one run of the state machine, in which each connection's requests are what the receive
loop makes of its own receives. So every theorem about runs applies to the running server, for example that a silent client
can replay what it was sent (`Connections.SilentClientKeepsUp`).

A step of the lobby is atomic. `src/server.cpp:27-33` posts `ioContext_.run()` to the io context itself and nothing to the
thread pool, so one thread runs all handlers, and no handler suspends between its checks and its updates. Where the server's
choice is unspecified (which recycled id is dequeued, the order of a hash map, which of several games a search by name
finds), the event carries the choice, and the theorems hold for every choice.

Outgoing traffic is the sequence of packets handed to `sendPacket` for each user; the answer to a login whose name is taken,
which is written straight to the socket, is a result of `HandleLogin`. `Print` gives the bytes of each packet, which
`Wire.PacketInBytes` spells out.

## What the proofs brought to light

- **An unparsable address does not refuse a game, it throws.** `OnCreateGame` catches `const error_code&`, but
  `make_address` throws `system_error`, so the handler's `return false` is not reached. The session survives and takes the
  next receive (`SessionLaws.ThrowEndsRound`), but frames received together with that request stay in the buffer until more
  bytes arrive. So how a stream is split into receives of at most 2048 bytes matters: at every point of the stream the same
  packets have been dispatched with the same outcome, however they came, exactly when nothing decided follows a frame whose
  handler throws (`SessionLaws.ChunkingIndependence`), and the same runs of the lobby can have come of it exactly when no
  complete frame does (`Dispatches.RunsIgnoreChunkingExactly`).
  `Stalls.SplitMatters` gives the two frames and the two splits.
- **The receive buffer has no bound.** A receive appends up to 2048 bytes and dispatches only as far as the next exception.
  After `n` receives of two unparsable offers each, the session is open and `n` frames are buffered
  (`Stalls.BufferGrowsWithoutBound`). Whatever is received, less than one frame is buffered between receives exactly when
  the handler throws on no history that frames can bring about (`SessionLaws.BufferStaysSmallExactly`).
- **What follows a login in its receive is lost.** Login parses its first 1024 bytes and forgets them, and the session starts
  with an empty buffer. The client's bytes are served as sent exactly when that receive ends where the login frame does
  (`SessionLaws.LoginTakesItsFrameExactly`).
- **The exhaustion check of the allocator never fires.** `getNextId` restarts below 0x1000 before it tests for 0, so it
  hands out a live id instead, exactly when all ids are live (`LobbyRuns.ReissuesExactlyWhenExhausted`). One client can bring
  that about with requests for rooms (`Exhaustion.PoolCanBeFilled`), and its next room then takes its own id
  (`Exhaustion.NextRoomTakesItsMakersId`). Short of that, and only then, ids are conserved in every state of a run
  (`LobbyRuns.ReachableIsSound`).
- **A successful host is told of success and then of failure.** The refusal and its chat line are sent on both paths
  (`Requests.CreateGameRequest`).
- **A second game is orphaned.** A user may host several games; a disconnect removes one of them. It clears the user's games
  exactly when there was at most one (`LobbyHosts.DisconnectClearsSingleHost`, `LobbyHosts.SecondGameIsOrphaned`). Games and
  hosts stay in step over a run exactly when nobody who hosts a game creates another (`LobbyHosts.GamesBelongToHosts`).
- **Rooms can be left standing empty.** A room is checked for closing when someone leaves it, not when its last member joins
  another room, nor when the last member disconnects and hosts a game elsewhere. A new room is empty too. Nothing ever
  closes an empty room, it can only be joined (`LobbyRuns.EmptyRoomsExactly`).
- **Text is normalised on its way through.** Windows-1251 bytes without an encoder case come out as `?`, and the
  Windows-1252 bytes 8D, 8F, 90 and 9D come out as 81. A data section is relayed byte for byte exactly when it is not
  empty, and its text has no NUL and none of those bytes (`EndToEnd.RelayIsFaithfulExactly`).
- **A data length without data makes a frame that cannot be read back.** The printer sets the flag and writes nothing. It
  is the only packet the parser accepts that it could not read back (`EndToEnd.ParsedIsPrintableExactly`).
- The repository's README promises a multithreaded architecture; the code runs its handlers on one thread, and the model
  follows the code.

## Model

| member | source | states |
|---|---|---|
| Bytes.CString | src/packet_handler.cpp:91 | a string passed as `data()` is cut at its first NUL: the result is the longest NUL-free prefix |
| CodePages.AppendUtf8 | include/windows_1251.hpp:155-176 | the bytes pushed for a code point are its UTF-8 form of one to three bytes |
| CodePages.Utf8ToCodepoint | include/windows_1251.hpp:130-153 | decoding at a position reads what the head of the remaining bytes means and never past the end |
| CodePages.UnicodeToCp1252 | include/windows_1252.hpp:100-121 | the search loop finds the first table entry, else a question mark |
| CodePages.Encode | include/windows_1251.hpp:16-38 | the loop computes the lossy encoding on every input and terminates |
| CodePages.EncodeStrict | include/windows_1251.hpp:41-66 | strict encoding is the lossy one, refused exactly when that contains a question mark |
| CodePages.Decode | include/windows_1251.hpp:69-81 | the loop computes the decoding |
| CodePages.Utf8Resegments | include/windows_1252.hpp:123-166 | decoding a printed character in front of anything reads that character and stops at its end |
| CodePages.SearchFindsFirst | include/windows_1252.hpp:112-118 | of duplicate table entries the search returns the first |
| CodePages.EncodeAfterDecode | include/windows_1251.hpp:16-128 | encode after decode keeps the length and maps each byte to itself, or to `?` (1251) or 81 (1252) for the listed bytes |
| CodePages.RoundTripsExactly | include/windows_1252.hpp:15-121 | bytes survive decode and encode if and only if each of them is settled |
| CodePages.EncoderSettles | include/windows_1252.hpp:15-38 | the encoder writes only bytes that survive, malformed UTF-8 included |
| CodePages.NormalisedIsProjection | include/windows_1251.hpp:16-81 | decode after encode is idempotent on every byte string |
| CodePages.NormalisedIsNoLonger | include/windows_1251.hpp:16-81 | decode after encode never lengthens a text |
| CodePages.Characters1251 | include/windows_1251.hpp:109-128 | the Windows-1251 table character by character |
| CodePages.Characters1252 | include/windows_1252.hpp:83-98 | the Windows-1252 table character by character |
| CodePages.SurvivorsExactly | include/windows_1251.hpp:84-107 | the byte values that survive decoding and encoding, in numbers |
| CodePages.EncodedOrLost | include/windows_1252.hpp:100-121 | a code point is encoded as a byte that stands for it, or else as a question mark |
| CodePages.Utf8IsStandard | include/windows_1251.hpp:155-176 | every code point below 0x10000 is appended in its shortest form of RFC 3629, section 3; any other as a question mark |
| CodePages.EncodedByFirstByte | include/windows_1251.hpp:16-38 | how the first byte of any text, malformed or not, decides what is encoded next and where encoding goes on |
| SessionInfos.WriteTo | src/session_info.cpp:17-29 | appends the 50 bytes of the block |
| SessionInfos.ReadFrom | src/session_info.cpp:31-54 | takes exactly 50 bytes and yields the block they hold, or nothing if it does not verify |
| SessionInfos.GetAfterPutInfo | src/session_info.cpp:17-46 | reading back a written block gives the block |
| Wire.BlockInBytes | src/session_info.cpp:5-29 | the block of a user, room or game, byte for byte |
| Wire.BlockLayout | src/session_info.cpp:17-29 | at which offset each field of a written block lies |
| Wire.BlockIsAcceptedExactly | src/session_info.cpp:56-84 | 50 bytes verify if and only if they begin with the eight magic bytes, then 1 and 0 at places 13 and 14 and zeros from 15 on |
| Packets.FlagsSayWhatIsPresent | src/worms_packet.cpp:251-299 | the parser finds a flag set if and only if the printer had that part |
| Packets.SetBitOfBinary | include/packet_flags.hpp:12-31 | or-ing a flag bit into the flags sets that digit and no other |
| WormsPackets.GetFlagsFromFields | src/worms_packet.cpp:251-299 | the accumulated flags are the digits of the parts present |
| WormsPackets.ReadData | src/worms_packet.cpp:122-166 | the data part is read, found short or faulted exactly as the format says |
| WormsPackets.ReadName | src/worms_packet.cpp:177-206 | the name block is read up to its first NUL and bounded after decoding |
| WormsPackets.ReadFrom | src/worms_packet.cpp:34-227 | the cursor-driven parser decides every buffer as `Parse` does and stops after a complete frame; each read is covered by a check |
| WormsPackets.WriteTo | src/worms_packet.cpp:315-387 | the writer appends exactly the frame of the packet |
| WormsPackets.Freeze | src/worms_packet.cpp:22-27 | a frozen packet is its frame |
| PacketLaws.ParseIsStable | src/worms_packet.cpp:34-227 | once decided, neither verdict nor consumption changes with more bytes |
| PacketLaws.FrameIsMinimal | src/worms_packet.cpp:34-227 | a frame's own bytes parse to it, and every proper prefix parses as partial |
| PacketLaws.FrameBound | src/worms_packet.cpp:34-227 | a frame takes 8 to 622 bytes, and 622 bytes are never partial |
| PacketLaws.ParserYieldsWellParsed | src/worms_packet.cpp:96-224 | a parsed packet has a client's code, NUL-free bounded name, bounded data and a verified block of release 49 |
| PacketLaws.ParserUndoesPrinter | src/worms_packet.cpp:34-387 | a printed packet, whatever follows, is read back whole up to normalisation if and only if it meets the format's bounds |
| Wire.WordIsLittleEndian | src/worms_packet.cpp:315-318 | a word is written with its lowest byte first |
| Wire.FlagsInNumbers | include/packet_flags.hpp:12-25 | the flags of a packet are the sum of 0x001 to 0x400 for the parts it has |
| Wire.PacketInBytes | src/worms_packet.cpp:315-387 | any packet is its code, its flags and its parts in the order values 0 to 4, value 10, data with length and NUL, error, name in 20 bytes, block |
| Wire.ReplyFrames | src/packet_handler.cpp:263-264 | the bytes of replies: flags 0x80 and an error, or flags 0x82, the id and then the error |
| Wire.MoveFrames | src/packet_handler.cpp:47-51 | the bytes of Join and Leave notices: flags 0x404, the room and then who moves |
| Wire.EndFrames | src/user_session.cpp:119-120 | the bytes of DisconnectUser, Close and ListEnd |
| Wire.LoginFrame | src/user_session.cpp:355-357 | the bytes of a login notice |
| Wire.RoomFrame | src/packet_handler.cpp:245-252 | the bytes of a CreateRoom notice |
| Wire.GameFrame | src/packet_handler.cpp:413-421 | the bytes of a CreateGame notice |
| Wire.ItemFrame | src/packet_handler.cpp:144-147 | the bytes of a list item |
| Wire.ChatFrame | src/packet_handler.cpp:90-91 | the bytes of a relayed chat message |
| Wire.ConnectFrame | src/packet_handler.cpp:455-473 | the bytes of a ConnectGameReply: the address before the error |
| Wire.UnknownCodeExactly | include/packet_code.hpp:38-58 | a header is partial below 8 bytes, and its code is unknown if and only if it is none of eleven numbers |
| Wire.MoveIsRead | src/worms_packet.cpp:69-102 | the bytes of a Join or Leave request are read as room and user in that order |
| Reading.ParseExactly | src/worms_packet.cpp:34-227 | a packet of n bytes is parsed if and only if these bytes are a known code, flags, and exactly the flagged parts in the format's order, each of the right length and content, and then it is what they mean |
| Sessions.FramedPacketReader.TryReadPacket | src/user_session.cpp:381-436 | parses the front of the buffer and drops bytes only on a complete frame |
| Sessions.DispatchBuffered | src/user_session.cpp:422-446 | the inner loop drains the buffer: packets in order, then partial, error, refusal or exception |
| Sessions.HandleSession | src/user_session.cpp:377-462 | the session is the fold of its receives, up to the first empty one or the first that closes it, with verdicts that may change from one receive to the next |
| SessionLaws.OneHandlerSuffices | src/user_session.cpp:377-462 | however verdicts change between receives, through other users for instance, one function of the dispatched packets gives the same session |
| SessionLaws.FramingIsUnique | src/user_session.cpp:422-436 | a stream is read as frames in one way only: a shorter reading begins every longer one |
| SessionLaws.StallComesFromThrow | src/user_session.cpp:441-453 | a decided frame left in the buffer means the last handler threw |
| SessionLaws.ThrowEndsRound | src/user_session.cpp:448-453 | an exception leaves the session open with the bytes behind its frame still buffered |
| SessionLaws.RoundExactly | src/user_session.cpp:421-453 | a round dispatches the frames in front while they are handled, and ends refused, thrown, partial or failed exactly as its last frame or the rest of the buffer says |
| SessionLaws.ChunkingIndependence | src/user_session.cpp:387-453 | at every point of a stream, all receives of at most 2048 bytes that have brought it so far have dispatched the same packets with the same outcome, if and only if no frame of the stream whose handler throws is followed by a decided one |
| SessionLaws.DispatchIndependence | src/user_session.cpp:387-453 | for the dispatched packets alone, if and only if none is followed by a complete one |
| SessionLaws.QuietSessionStaysSmall | src/user_session.cpp:421-446 | if the handler throws on no history that frames bring about, an open session buffers fewer than 622 bytes after any receives |
| SessionLaws.BufferStaysSmallExactly | src/user_session.cpp:387-453 | an open session buffers fewer than 622 bytes after all receives a connection can have if and only if the handler throws on no such history |
| SessionLaws.BacklogGrows | src/user_session.cpp:421-453 | while the handler throws, each receive of two copies of a frame leaves one more copy buffered |
| SessionLaws.LoginIsNeverPartial | src/user_session.cpp:265-310 | the zero-filled login buffer is always decided, and as the received bytes are if they are |
| SessionLaws.LoginTakesItsFrameExactly | src/user_session.cpp:265-387 | login and session come to what the bytes say, whatever follows the login frame, if and only if the first receive ends exactly with that frame |
| Names.EqualsCaseInsensitiveIsEquivalence | include/string_utils.hpp:6-15 | the name comparison is an equivalence relation |
| Names.EqualsCaseInsensitiveExactly | include/string_utils.hpp:6-15 | two names are equal if and only if they are as long and at each place have the same byte or the two cases of one ASCII letter |
| LobbyInvariants.IssueTakesFresh | src/database.cpp:21-51 | while some id is not live, the issued id is held nowhere |
| LobbyInvariants.UnstoredIdIsLost | src/packet_handler.cpp:239-242 | an id issued for a room that is then not stored is held nowhere and the ids are no longer conserved |
| LobbyInvariants.RemoveUserRecycles | src/database.cpp:169-174 | removing a live user moves its id to the recycled ones and conserves all ids |
| LobbyInvariants.EffectKeepsIds | src/database.cpp:162-202 | every event conserves ids while the pool is not exhausted |
| LobbyInvariants.LeavingKeepsReferences | src/packet_handler.cpp:30-41 | closing the room of a leaver leaves no dangling reference |
| LobbyInvariants.VacatingKeepsReferences | src/user_session.cpp:30-45 | so does closing a room in the name of a user or game that is gone |
| LobbyInvariants.EffectKeepsReferences | src/packet_handler.cpp:280-347 | every event keeps each user's and game's room id 0 or live |
| LobbyInvariants.EffectKeepsNames | src/packet_handler.cpp:228-237 | every event keeps user and room names unique ignoring case and room names non-empty |
| LobbyInvariants.StepKeepsInv | src/packet_handler.cpp:481-532 | every enabled event keeps ids, references and names sound |
| LobbyRuns.ReachableIsSound | src/user_session.cpp:335-363 | the invariant holds in every state of a run from the empty lobby if and only if no id is asked for while all are live |
| LobbyRuns.IdsArePartitioned | src/database.cpp:21-51 | live users, rooms, games and recycled ids are disjoint, without repetition, and exactly the issued interval |
| LobbyRuns.ReissuesExactlyWhenExhausted | src/database.cpp:35-49 | the allocator hands out a live id if and only if all ids are live, and never 0 |
| LobbyRuns.NextIdExactly | src/database.cpp:21-40 | the next id is any recycled one, or if there is none 0x1000 and as many more as are live |
| LobbyRuns.StepKeepsIdsExactly | src/database.cpp:35-49 | an event keeps the ids sound if and only if it takes none or one is free |
| LobbyRuns.CounterIsHighWaterMark | src/database.cpp:30-40 | the counter stands at 0x1000 plus the largest number of things live at once |
| LobbyRuns.LeaveClosesExactly | src/packet_handler.cpp:342-353 | after a leave the room is live if and only if something still refers to it, and no other room changes |
| LobbyRuns.DisconnectClosesExactly | src/user_session.cpp:88-116 | the same for a disconnect, for the hosted game's room or else the user's |
| LobbyRuns.NewRoomStartsEmpty | src/packet_handler.cpp:239-242 | a room created under a recycled id has no members and no games |
| LobbyRuns.EmptyRoomsExactly | src/packet_handler.cpp:280-322 | a live room is without members and games after an event if and only if it was and is not joined, or is new, or its last member joined another room or disconnected while hosting in another |
| LobbyHosts.StepKeepsHostsExactly | src/packet_handler.cpp:402-411 | an event keeps each game with one connected host if and only if it is not the second game of its host |
| LobbyHosts.GamesBelongToHosts | src/packet_handler.cpp:405-410 | over a run, each game is at all times named after exactly one connected user and no two games share a name if and only if nobody who hosts creates another |
| LobbyHosts.DisconnectClearsSingleHost | src/user_session.cpp:92-98 | a disconnect leaves no game of its user if and only if there was at most one |
| LobbyHosts.SecondGameIsOrphaned | src/user_session.cpp:92-98 | for every plain name and every plain text that spells the user's address, a run of four events, all brought by frames, after which a game outlives its host |
| Exhaustion.PoolCanBeFilled | src/packet_handler.cpp:216-242 | for every n up to the whole pool, one login and n requests for rooms, all brought by frames, are a run after which n + 1 ids are live |
| Exhaustion.NextRoomTakesItsMakersId | src/database.cpp:35-49 | with the pool full, the next request for a room can only get its maker's id, which then names a user and a room |
| Replication.BystanderIsSent | src/packet_handler.cpp:47-63 | an event sends each user who did not cause it exactly the listed notices, after what was queued |
| Replication.LeaveIsTracked | src/user_session.cpp:47-67 | Leave and Close notices move a replica to the state after the departure |
| Replication.StepIsTracked | src/user_session.cpp:92-124 | replaying an event's notices turns the view before it into the view after it |
| Replication.ReplicaTracksLobby | src/packet_handler.cpp:245-322 | over any run, a user who makes no request reaches the exact current view by replaying what it was sent |
| Audiences.GroupChatReachesRoom | src/packet_handler.cpp:84-104 | group chat reaches every other member of the sender's room once, the sender a receipt, nobody else anything |
| Audiences.PrivateChatReachesTarget | src/packet_handler.cpp:111-127 | private chat reaches its target if and only if that is in the sender's room, and the receipt says so |
| Audiences.ChatStaysInRoom | src/packet_handler.cpp:68-130 | no event brings chat to a user who did not cause it except from a member of the same room |
| Requests.RefusedExactly | src/packet_handler.cpp:481-532 | by literal code, a request is refused if and only if a value it must carry is missing or another than the server expects, or it is no request; then nothing changes |
| Requests.ListRoomsRequest | src/packet_handler.cpp:132-153 | code 200: for each room once an item 350 of its id, name, empty text and block, then 351, and nothing else |
| Requests.ListUsersRequest | src/packet_handler.cpp:155-184 | code 400: the same for the users of one's room |
| Requests.ListGamesRequest | src/packet_handler.cpp:186-214 | code 500: the same for the games of one's room, with their addresses as text |
| Requests.CreateRoomRequest | src/packet_handler.cpp:216-267 | code 700: refused by name if and only if a room has it up to letter case; else one room under an unused id, each of its fields, its maker's answer and everybody else's notice |
| Requests.JoinRequest | src/packet_handler.cpp:269-331 | code 800: moves to a room, or confirms a game of one's room, with answer and notices, or else an error and nothing |
| Requests.LeaveRequest | src/packet_handler.cpp:333-359 | code 900: from one's room to none, closing it exactly when abandoned, with answer and notices; from any other an error |
| Requests.CloseRequest | src/packet_handler.cpp:361-376 | code 1100: a CloseReply without error and nothing else |
| Requests.CreateGameRequest | src/packet_handler.cpp:378-443 | code 1200: throws if and only if the address cannot be read; a game of the host's own address is stored under an unused id, each of its fields, and announced; the host is confirmed and then refused, or only refused |
| Requests.ChatRequest | src/packet_handler.cpp:68-130 | code 1300: by prefix to the room or to one user of it, with a receipt; an error if the target is not there; anything else vanishes |
| Requests.ConnectRequest | src/packet_handler.cpp:445-474 | code 1326: the address of a game to exactly the users of its room, else an error, and nothing else |
| Requests.LoginRequest | src/user_session.cpp:317-368 | code 600: nothing, unless it is complete and nobody has the name up to letter case; then one user under an unused id, each of its fields, told its id first, and everybody else's notice; a complete login that is refused is answered LoginReply 1 |
| Requests.SpellingIsRefused | src/user_session.cpp:335-347 | a login with a connected user's name that differs in the case of a letter changes nothing |
| Requests.NamesAreUnique | src/packet_handler.cpp:228-237 | no two users and no two rooms have one name up to the case of letters |
| Requests.DisconnectRequest | src/user_session.cpp:72-127 | a disconnect removes its user and a game of its name if there is one, closes the room exactly when abandoned, and each remaining user gets exactly these notices in this order |
| Servers.User.SetRoomId | src/user.cpp:35-38 | the room is replaced |
| Servers.User.SendPacket | src/user.cpp:40-46 | the packet is appended to what was sent |
| Servers.Database.GetNextId | src/database.cpp:21-51 | hands out an id the state machine allows and updates bag or counter accordingly |
| Servers.Database.AddUser | src/database.cpp:162-167 | the user is stored under its id |
| Servers.Database.RemoveUser | src/database.cpp:169-174 | the user is erased and its id recycled |
| Servers.Database.RemoveRoom | src/database.cpp:183-188 | the room is erased and its id recycled |
| Servers.Database.RemoveGame | src/database.cpp:197-202 | the game is erased and its id recycled |
| Servers.Database.GetUsers | src/database.cpp:88-97 | every user is listed once |
| Servers.Database.GetGameByName | src/database.cpp:137-145 | some game of that name is found if there is one |
| Servers.Database.TellOthers | src/packet_handler.cpp:253-261 | the loop sends to every user but the skipped one, once |
| Servers.Database.TellRoom | src/packet_handler.cpp:93-99 | the loop sends to the members of a room but the sender, once |
| PacketHandlers.LeaveRoom | src/packet_handler.cpp:24-66 | announces the departure and closes the room exactly as the state machine does |
| PacketHandlers.OnChatRoom | src/packet_handler.cpp:68-130 | sends and answers as `Requests.ChatRequest` says of the state machine |
| PacketHandlers.OnListRooms | src/packet_handler.cpp:132-153 | sends the listing of `Requests.ListRoomsRequest` in the order the map was walked |
| PacketHandlers.OnListUsers | src/packet_handler.cpp:155-184 | sends the listing of `Requests.ListUsersRequest` in the order the map was walked |
| PacketHandlers.OnListGames | src/packet_handler.cpp:186-214 | sends the listing of `Requests.ListGamesRequest` in the order the map was walked |
| PacketHandlers.OnCreateRoom | src/packet_handler.cpp:216-267 | creates, announces and answers as the state machine does, with an id the allocator may issue |
| PacketHandlers.OnJoin | src/packet_handler.cpp:269-331 | moves, announces and answers as the state machine does, for rooms and for games |
| PacketHandlers.OnLeave | src/packet_handler.cpp:333-359 | vacates the room, forgets it and answers as the state machine does |
| PacketHandlers.OnClose | src/packet_handler.cpp:361-376 | confirms without closing |
| PacketHandlers.OnCreateGame | src/packet_handler.cpp:378-443 | hosts, announces, confirms and then refuses as the state machine does; throws on an unparsable address |
| PacketHandlers.OnConnectGame | src/packet_handler.cpp:445-474 | answers as `Requests.ConnectRequest` says of the state machine |
| PacketHandlers.HandlePacket | src/packet_handler.cpp:481-532 | every parsed packet is an enabled event of the lobby and has its effect and verdict |
| PacketHandlers.HandleLogin | src/user_session.cpp:317-368 | every parsed login is an enabled event, yields a user if and only if it is complete and the name was free, and writes a refusal to the socket exactly for a taken name |
| PacketHandlers.DisconnectUser | src/user_session.cpp:72-127 | every disconnect is an enabled event and has its effect, and removes this user and no other |
| Dispatches.RunsIgnoreChunkingExactly | src/user_session.cpp:387-453 | at every point of a stream, all receives that have brought it so far can have come to the same runs of the lobby, and so the same lobbies, if and only if no complete frame of the stream follows one whose request throws |
| Dispatches.OffersAreTheOnlyThrows | src/packet_handler.cpp:390-400 | for that it is enough, whatever the lobby, that no complete frame of the stream follows an offer with an unparsable address |
| Dispatches.OffersAreTheOnlyThrowsAfter | src/packet_handler.cpp:390-400 | the same after any login, whoever it makes |
| Dispatches.ConnectionIgnoresChunkingExactly | src/user_session.cpp:160-183 | the same for login, session and disconnect together, if and only if that holds for every user the login can make |
| Connections.HistoryIsRun | src/server.cpp:48-97 | the inputs of any number of clients, in any order, are one run of the lobby from its initial state |
| Connections.ConnectionsAreSessions | src/user_session.cpp:377-462 | at any time each connection is the receive loop on its own receives, with the verdicts the lobby gave on its packets |
| Connections.UsersAreOpenConnections | src/user_session.cpp:160-183 | within the pool, the users of the lobby are at any time exactly the open connections, one each, and the invariant holds |
| Connections.RefusalDisconnects | src/user_session.cpp:441-446 | a refused request is the last of its receive, and its user is disconnected and gone |
| Connections.SilentClientKeepsUp | src/packet_handler.cpp:245-322 | within the pool, whatever the others do, a client from which nothing comes stays connected and reaches the current view by replaying what it was sent |
| Stalls.BufferGrowsWithoutBound | src/user_session.cpp:421-453 | n receives of two offers with an unparsable address leave the session open, the lobby unchanged and n frames buffered |
| Stalls.SplitMatters | src/user_session.cpp:448-453 | such an offer and a request for the rooms: in one receive the request is not dispatched, in two it is |
| UserSessions.ServeReceive | src/user_session.cpp:421-446 | a receive on the database is a run of the lobby by this client whose packets, outcome and leftover bytes are those of the receive loop |
| UserSessions.ReceiveLogin | src/user_session.cpp:263-375 | login parses its zero-filled buffer once, is one event of the lobby or none, passes the refusal of a taken name to the socket, and keeps nothing else of what was received |
| UserSessions.ServeSession | src/user_session.cpp:377-462 | an undisturbed session is a run of its client's requests, whose packets are those dispatched from its receives |
| UserSessions.ServeConnection | src/user_session.cpp:160-183 | an undisturbed connection is a run of the lobby: nothing, a refused login, or the login, the requests its receives bring and the disconnect |
| Services.TakeChunk | src/user_session.cpp:377-462 | a receive among those of other clients is a run of its client's requests, and its disconnect if it ends the session; no other user is removed |
| Services.ServeClients | src/server.cpp:48-97 | the server on one database follows a history of the service, its lobby is that of one run from the initial state, and within the pool it serves every input |
| EndToEnd.DataComesFromSection | src/worms_packet.cpp:105-166 | parsed data is the decoded data section of its frame |
| EndToEnd.PrintedSection | src/worms_packet.cpp:350-358 | the data section of a printed packet is its encoded data and one NUL |
| EndToEnd.NameFitsAgain | src/worms_packet.cpp:191-205 | a name the parser accepts is never truncated when written back |
| EndToEnd.ParsedIsPrintableExactly | src/worms_packet.cpp:34-227 | a parsed packet can be printed and read back if and only if its data length came with data |
| EndToEnd.RelayIsFaithfulExactly | src/packet_handler.cpp:90-91 | a relayed data section equals the received one if and only if that is not empty and its text is NUL-free and settled, and it never exceeds the maximum |
| EndToEnd.ChatIsRelayed | src/packet_handler.cpp:80-104 | from a sender's frame to each recipient's frame: one packet each, faithful exactly under that condition |
| EndToEnd.PrivateChatIsRelayed | src/packet_handler.cpp:111-127 | from a sender's frame to the one recipient's frame, a receipt to the sender and nothing to others, faithful exactly under that condition |

## Left out

- Sockets, timers, strands, the accept loop, signals and connection counting: input and output. A user's address is a
  constant of its session, and asking the socket for it does not fail. If it did while a room is created, the room's id
  would be lost (LobbyInvariants.UnstoredIdIsLost).
- `UserSession::writer` and its queue: the order of delivery depends on a queue library outside the repository, and the drain
  loop discards the packet it dequeues when a batch is full (`src/user_session.cpp:212`), so delivery is not lossless. The
  model ends at `sendPacket`.
- PacketIO is not part of this model beyond the contracts in `packet_buffers.dfy` and `FramedPacketReader`: `can_read(n)` means
  n bytes remain, words are little-endian, and a frame's bytes are dropped only when it is complete.
- The format of IP addresses: `Net` is any partial reader of addresses and any printer of them.
- Interleavings finer than whole logins, handlers and disconnects, memory orders, mutexes and object lifetimes: the server
  runs them on one thread.
- Running a client other than through its notifications: `Observe` is the plain reading of each packet by a client; a Leave
  that names a room its subject is not in changes nothing.
- Locales: `std::tolower` is that of the "C" locale, and bytes above 0x7F, for which a signed `char` makes it undefined, stay
  as they are.
- Unused helpers (`recycleId`, `setUserRoomId`, `getUsersInRoom`, `getGame`), logging, the command line and the nation list.
- Big-endian hosts.
- LobbyRuns.CounterIsHighWaterMark: holds for runs that never ask for an id while all 2^32 - 4096 of them are live; after
  that the counter has started over.
- LobbyHosts.GamesBelongToHosts: the same; a reissued id can replace a game or a user.
- Replication.ReplicaTracksLobby: the same, and from any state in which the invariant holds.
- Dispatches.RunsIgnoreChunkingExactly: is about a client nobody else interferes with, as is
  Dispatches.ConnectionIgnoresChunkingExactly.
- UserSessions.ServeSession: covers a client alone, as does UserSessions.ServeConnection; Services.ServeClients is the general
  case.
- Services.ServeClients: stops if a login is given the id of a user who is still connected, which happens only when all ids
  are live. The server would go on with two users of one id.
