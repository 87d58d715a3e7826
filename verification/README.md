# Verified model of the game backend

A Dafny 4.11 model of the parts of the game backend that carry an invariant: the login and
sign-up exchange and the credentials table behind it, the pushing of authentication tokens to
the chat server and the match maker and the expiring tables those keep, the chat session loop,
the match server's rating and its input pipeline, the layered packet codecs, the match request
codec, and the AI's navigation graph. `dafny verify dfyconfig.toml` checks all of it.

Where the code departs from what it evidently means to do, the model follows the code, and a
lemma says for which inputs the two agree: as an if-and-only-if wherever that is marked
"exactly" below.

| File | What it models |
|---|---|
| `Handshake.dfy` | client and server child as program-counter machines over a plain and a secure FIFO lane in each direction |
| `Credentials.dfy` | any number of visits at once over one credentials table |
| `ChunkedRead.dfy` | the username, password and token read loops, against a channel that hands messages over in pieces |
| `Hex.dfy`, `Datagram.dfy`, `TokenPush.dfy` | the printed digest, the token datagram, and its bounded retransmission |
| `TokenTable.dfy` | the map and expiry queue of the chat server and the match maker |
| `ChatSession.dfy` | the select loop and broadcast of a chat session |
| `MatchServer.dfy`, `Pipeline.dfy` | the running rating, and the Acceptor/Converter pair over their queue |
| `Layout.dfy`, `Packets.dfy` | tables of fields in general; the base and layer headers |
| `PlayerPacket.dfy`, `NotifyPacket.dfy`, `MinionPacket.dfy`, `SynPacket.dfy` | four packets on those layers |
| `MatchRequest.dfy` | the match request codec, with `"%d"` and `atoi` |
| `Distance.dfy`, `AiGraph.dfy` | the floored distance; the graph and its searches |
| `Bytes.dfy`, `CStrings.dfy`, `Options.dfy` | little-endian numbers, C strings in buffers, an option type |

Objects whose methods update their fields are classes here, and algorithms with loops are
methods; each is proved against a function of the old state, and the properties are proved of
that function over all histories. The exchange is a state machine, one move to a send, a
receive, a step of the connection or a database query, because what is proved of it is about every
interleaving; its read loops are also methods, in `ChunkedRead.dfy`. SHA-256 is any function
from strings to 32 bytes.

## What is assumed

- Exchange: each send is one record and a receive takes one whole record; usernames have 1 to 15
  characters, passwords 1 to 63, without NUL (a word read with `std::cin >>` is never empty, and
  longer ones overrun the buffers of the source); a visit makes one request; the random generator
  succeeds; the sign-up timeout does not strike; a client's dialling succeeds exactly when its
  server listens, and securing the connection is then one joint step; the `SELECT` is a lookup by
  key.
- Concurrent visits: each announces a port of its own. The source does not see to that, because
  the port counter is advanced in the forked child only (`Linear/LoginServer.cxx:354-359`).
- Token table: the clock does not go back. Buffer lengths written `strlen(buffer)` are taken as
  the buffers' sizes.
- Token push: nothing for what is sent and returned. That the loop stops needs a clock that
  advances every turn, by no more than `TokenPush.MAX_JUMP` microseconds: `TokenPush.StopsExactly`
  says that no greater bound will do. When an acknowledgement arrives is up to the environment,
  since the receivers never send one.
- Graph: every vertex is created through the graph, and squared distances fit an `int`.
- Chat: `select` returns some set of ready descriptors; both the set the call names and the set
  the loop needs are modelled. `accept` never returns a descriptor that is open.
- Match server: rating differences fit an `int`; a double out of range converts to anything.
- Packets: the host is little-endian.

## Departures from the evident intent

- `Linear/LoginServer.cxx:365-387`, `Linear/LoginServer.cxx:719-741` announce the secure port before
  anybody listens on it: a client that dials in between is refused and gives up, and its server
  waits for ever. A visit ends in agreement exactly when that does not happen.
- `Linear/LoginServer.cxx:421-423`, `Linear/LoginServer.cxx:644-646` read every piece of a username
  to the start of the buffer: names survive exactly when the first piece holds all of the name.
- `Linear/ChatServer.cxx:62-68` erases by username: a stale record takes a fresher authorisation
  with it, so the table is a timed map exactly when no scrub meets a user queued on both sides of
  its cut.
- `Linear/ChatServer.cxx:84-103` does not clear its buffer between packets: a username decodes
  exactly when no earlier packet of the call carried a longer one.
- `Linear/ChatServer.cxx:87-90` converts a 64-character array that the token fills: the token comes
  back exactly when the character behind the array happens to be a NUL.
- `Linear/ChatServer.cxx:62` looks at the front of a queue that may be empty, which is exactly when
  nobody has been received for 300 s; the model adds the guard.
- `Linear/Session.cxx:136` narrows the session's own set: the loop does what it needs exactly when
  every open descriptor is ready.
- `Linear/Session.cxx:206` stops below `max_fd`: a relay reaches every other client exactly when
  the descriptor at `max_fd` is not one of them.
- `GameServer/MatchServer/MatchServer.cxx:43` divides by an unsigned size: the rating is as meant
  exactly when nobody rated below the server joins.
- `Packets/Event_Packet.cxx:25`, `Packets/Sync_Packet.cxx:25`, `Packets/Protocol_Packet.cxx:23` put the
  base header over the layer header: both come back exactly when the bytes coincide.
- `Packets/I_Minion_Packet.cxx:16-18,33-35` write and read `y` and `z` at different offsets: an
  update comes back exactly when five halves of its coordinates are equal.
- `Packets/Packet.cxx:31-33` counts 13 bytes for a base header of 12, and `Sync_Packet` inherits that
  count; sizes here come from the layout.

## Model

| member | source | states |
|---|---|---|
| `Handshake.Hash` | Linear/server_utils.cxx:10-27 | a printed digest has 64 characters and no NUL, so a token fills the client's buffer and ends nowhere inside it |
| `Handshake.OpenedInStep` | Linear/LoginServer.cxx:312-339 | a fresh visit satisfies the invariant of the exchange |
| `Handshake.ClientSendsScript` | GameServer/LoginServer/client/client.cxx:137-249 | whatever the client sends next, in login and sign-up, is the next message of that lane's script, and what it knows stays true |
| `Handshake.ClientSendKeeps` | GameServer/LoginServer/client/client.cxx:277-373 | every send of the client keeps the invariant and makes progress |
| `Handshake.ClientReceiveKeeps` | GameServer/LoginServer/client/client.cxx:277-373 | every receive of the client keeps the invariant and makes progress |
| `Handshake.ServerSendsScript` | Linear/LoginServer.cxx:345-499 | whatever the server sends next is the next message of that lane's script: verdicts by the database's answer and by the hash of the password sent |
| `Handshake.ServerSendKeeps` | Linear/LoginServer.cxx:345-499 | every send of the server keeps the invariant and makes progress |
| `Handshake.ServerReceiveKeeps` | Linear/LoginServer.cxx:624-793 | every receive of the server keeps the invariant and makes progress |
| `Handshake.AnswerKeeps` | Linear/LoginServer.cxx:425-440 | whatever the database answers bears only on messages not yet sent |
| `Handshake.ClientHearsKind` | GameServer/LoginServer/client/client.cxx:137-249 | the next message of the script is of the kind the client's receive is there for |
| `Handshake.ClientHearsScript` | GameServer/LoginServer/client/client.cxx:137-249 | told the next message of the script, the client learns the port, the verdicts and the token as the server has them, and the token loop ends after one record |
| `Handshake.DialKeeps` | GameServer/LoginServer/client/client.cxx:167-179 | dialling, taken up or refused, keeps the invariant and makes progress |
| `Handshake.ServerHearsKind` | Linear/LoginServer.cxx:412-460 | the next message of the script is of the kind the server's receive is there for, and says what was typed |
| `Handshake.ServerHearsScript` | Linear/LoginServer.cxx:412-460 | the username and password loops end after one record, with exactly the padded name and the password |
| `Handshake.ListenKeeps` | Linear/LoginServer.cxx:377-387 | listening, a step of the server after the port has been announced, keeps the invariant and makes progress |
| `Handshake.SecureKeeps` | Linear/LoginServer.cxx:389-410 | accepting and securing a connection that was taken up keeps the invariant on both sides |
| `Handshake.StepKeeps` | Linear/LoginServer.cxx:345-499 | every move of either party keeps the invariant, makes progress, and leaves the database's answer alone |
| `Handshake.RunInStep` | Linear/LoginServer.cxx:312-499 | the invariant holds along every interleaving, those with a refused connection included |
| `Handshake.ReadsWhatItExpects` | GameServer/LoginServer/client/client.cxx:137-249 | the message at the head of the lane a party waits on is of the kind that receive is for; neither party ever misreads |
| `Handshake.NeverStuck` | Linear/LoginServer.cxx:345-499 | unless its client was refused the connection, a session that is not over always has a move, whatever the database would answer |
| `Handshake.NoEndlessRun` | Linear/LoginServer.cxx:345-499 | any schedule contains at most 25 effective moves; a measure grows with each |
| `Handshake.CutOffExactly` | GameServer/LoginServer/client/client.cxx:176-179 | along every schedule the client is refused the connection if and only if it dialled before the server listened |
| `Handshake.StrandedIsFinal` | Linear/LoginServer.cxx:389-393 | a server that waits for a client that was refused has no move left, and neither has the client |
| `Handshake.EndsAgree` | GameServer/LoginServer/client/client.cxx:215-249 | when both have finished, outcome and token agree, the outcome is the database's, and no lane holds a message |
| `Handshake.SafeAt` | Linear/LoginServer.cxx:345-499 | at every point somebody can go on, or both have agreed, or the session is stranded; when nobody can, agreement means not refused and stranding means refused |
| `Handshake.VisitIsSafe` | Linear/LoginServer.cxx:312-339 | for every visit, every interleaving and every answer: no misread, at most 25 moves, and a session in which nothing can go on has ended in agreement if and only if the client did not dial before the server listened |
| `Handshake.EarlyDialStrands` | Linear/LoginServer.cxx:365-387 | every visit, login or sign-up, has a schedule that ends with the client gone and the server waiting, no move left to either |
| `Handshake.CanFinish` | Linear/LoginServer.cxx:345-499 | from wherever a schedule without a refused connection has brought it, a session can be brought to agreement |
| `Handshake.AsksForTheVisitor` | Linear/LoginServer.cxx:425-429 | the name looked up or inserted and the password hashed are the ones typed |
| `Handshake.ClientEndsByTheRow` | GameServer/LoginServer/client/client.cxx:209-249 | a client that has finished with a connection, even before its server, ends as the stored row decides |
| `Handshake.RunKeepsDraw` | Linear/LoginServer.cxx:480-486 | along every schedule the visitor, the port and the random string drawn stay the same |
| `Handshake.TokenIsDigestOfDraw` | Linear/LoginServer.cxx:480-487 | on every schedule a client that logs in holds the printed digest of the string its own server drew |
| `Handshake.LanesSayTheirKinds` | GameServer/LoginServer/client/client.cxx:137-249 | on every schedule whatever is on any lane says what its kind means in terms of what was typed and drawn: code, acknowledgement, port, lengths, name, password, verdict, token |
| `Credentials.InsertRight` | Linear/LoginServer.cxx:669-689 | an INSERT that fails on an existing name keeps the table equal to first-wins over the list of attempts |
| `Credentials.RunConsistent` | Linear/LoginServer.cxx:425-486 | over every run of concurrent visits the table, each answered visit and each attempt on record fit together |
| `Credentials.OneAcceptedPerName` | Linear/LoginServer.cxx:676-689 | no two sign-ups for one username are ever accepted |
| `Credentials.VisitsSafe` | Linear/LoginServer.cxx:345-499 | in every run of concurrent visits each can move, has ended in agreement, or was refused its connection, and then it leaves no trace in the table |
| `Credentials.SignupExactly` | GameServer/LoginServer/client/client.cxx:364-373 | a finished sign-up is accepted if and only if it was not refused its connection and none for its name was accepted before |
| `Credentials.VisitCanFinish` | Linear/LoginServer.cxx:345-499 | whatever the other visits have done, one that was not refused can be brought to agreement by events of its own |
| `Credentials.SessionsAreArrivals` | Linear/LoginServer.cxx:262-306 | in every run the sessions are the visits that arrived, in order, each with what its own server drew |
| `Credentials.TokenExactly` | GameServer/LoginServer/client/client.cxx:215-249 | a finished login holds a token if and only if it was not refused its connection and the one sign-up accepted for its name before its lookup had a password of the same digest |
| `Credentials.TokenIsOwnDraw` | Linear/LoginServer.cxx:480-487 | in every run that token is the printed digest of the string drawn for that arrival |
| `Credentials.TokensEqualExactly` | Linear/LoginServer.cxx:480-487 | two logins of one run hold equal tokens if and only if the strings drawn for them have equal digests |
| `ChunkedRead.ReadBehind` | Linear/LoginServer.cxx:450-460 | for any positive pieces the loop leaves the pieces in order, stops at or after the announced length and reads no piece more than needed |
| `ChunkedRead.ReadsWholeMessage` | Linear/LoginServer.cxx:456-460 | when the announced length is the message's, all of it is read and nothing is left |
| `ChunkedRead.RecvPassword` | Linear/LoginServer.cxx:761-781 | whatever the pieces, the password hashed is the one sent |
| `ChunkedRead.ReadName` | Linear/LoginServer.cxx:416-423 | the username is what the overlaid pieces leave in the buffer |
| `ChunkedRead.RecvToken` | GameServer/LoginServer/client/client.cxx:240-249 | whatever the pieces, the 64 bytes of the token fill the buffer in order |
| `ChunkedRead.SplitNameLost` | Linear/LoginServer.cxx:421-423 | every name that does not fit the first piece is lost |
| `ChunkedRead.NameLoopExactly` | Linear/LoginServer.cxx:421-423 | for every name and every fragmentation, the name survives if and only if the first piece holds all of it |
| `Hex.PrintInjective` | Linear/server_utils.cxx:20-23 | digests that print alike are equal |
| `Hex.PrintDigest` | Linear/server_utils.cxx:18-25 | the printing loop gives 64 characters without NUL, of which each two read in base sixteen as the byte, in order and in lower case |
| `Datagram.PrintedTokenValid` | Linear/LoginServer.cxx:508-515 | a printed digest and a name of at most 20 characters make a datagram that fits |
| `Datagram.ReceiveNew` | Linear/ChatServer.cxx:72-93 | each packet is decoded from the buffer all packets so far have left, read up to a NUL that may lie outside |
| `Datagram.DecodesExactly` | Linear/ChatServer.cxx:86-91 | the last packet of a call gives its token if and only if a NUL follows the token's buffer in memory, and its username if and only if no earlier packet carried a longer one |
| `Datagram.ClearedBufferSplits` | Linear/ChatServer.cxx:86-91 | in a cleared buffer the datagram splits back into token and username if and only if a NUL follows the token's buffer; the username always |
| `Datagram.ShorterNameMisread` | Linear/ChatServer.cxx:84-91 | bob after alice in one call is taken for bobce |
| `Datagram.BufferByte` | Linear/ChatServer.cxx:75-84 | the buffer has 85 bytes, each from the last datagram of the call that reached it |
| `TokenPush.BaseBounds` | Linear/LoginServer.cxx:536-549 | between polls the last transmission is never more than half a second old, and what is due is so by the true difference |
| `TokenPush.ResendsTakeTime` | Linear/LoginServer.cxx:539-549 | m repeats take more than m half-seconds by any clock that does not go back |
| `TokenPush.StopsInTime` | Linear/LoginServer.cxx:529-556 | by a clock that advances every turn, by no more than INT_MAX - 500000, the loop stops within 5500011 turns, each using up a try or some of a half-second |
| `TokenPush.StallingAdvances` | Linear/LoginServer.cxx:536-537 | a clock that advances every turn, by at most one microsecond more than INT_MAX - 500000 |
| `TokenPush.StallingNeverDue` | Linear/LoginServer.cxx:537-539 | by that clock no turn is ever due and no try is ever used up |
| `TokenPush.StopsExactly` | Linear/LoginServer.cxx:529-556 | the loop stops in time by every clock that advances each turn by at most j, if and only if j is at most INT_MAX - 500000 |
| `TokenPush.Push` | Linear/LoginServer.cxx:505-560 | whatever the clock does: at most 12 transmissions, all of the same datagram, one per due turn; true if and only if acknowledged; gives up only after 12 and, by a clock that does not go back, after more than 5.5 s; by an advancing clock it stops |
| `TokenTable.Table.constructor` | Linear/ChatServer.cxx:38-43 | a table starts empty |
| `TokenTable.Table.ReceiveNew` | Linear/ChatServer.cxx:84-103 | the loop folds insert-if-absent and an expiry record over the packets |
| `TokenTable.ScrubIsFilter` | Linear/MatchMaker.cxx:49-64 | popping only from the front removes exactly what filtering the whole queue would, and erases exactly the users of expired records |
| `TokenTable.RunSorted` | Linear/ChatServer.cxx:99-101 | the expiry queue is sorted in every run |
| `TokenTable.QueueContents` | Linear/ChatServer.cxx:55-70 | the queue holds exactly the records no scrub has found expired |
| `TokenTable.EvictsIsExpiry` | Linear/ChatServer.cxx:62-68 | a scrub evicts a user exactly when a waiting record of theirs has expired |
| `TokenTable.AuthorisedExactly` | Linear/ChatServer.cxx:84-103 | a user is authorised if and only if received since the last pop of a record of theirs, with the token of the earliest such receipt, duplicates and stale records included |
| `TokenTable.RefinesTimedMap` | Linear/MatchMaker.cxx:66-99 | without straddling users, authorised after a scrub means received within 300 s |
| `TokenTable.RefinesExactly` | Linear/MatchMaker.cxx:49-64 | the table is the timed map throughout a history if and only if no scrub meets a straddling user |
| `TokenTable.StaleRecordEvicts` | Linear/ChatServer.cxx:64-66 | a history in which a stale record evicts a fresh user |
| `TokenTable.RunUsersRecorded` | Linear/ChatServer.cxx:55-103 | in every run every authorised user has a record in the queue, stale records or not |
| `TokenTable.AuthorisedAreLive` | Linear/ChatServer.cxx:55-70 | in every run, after a scrub every authorised user has a live record |
| `TokenTable.ScrubExact` | Linear/ChatServer.cxx:55-70 | after a scrub every live record's user is authorised if and only if each of them was before and is not queued on both sides of the cut |
| `TokenTable.CopiesAreIdempotent` | Linear/ChatServer.cxx:84-103 | however many copies arrive before a record of their addressee expires, with any packets of others and any scrubs in between, users and tokens are those of one delivery |
| `TokenTable.LateCopyCounts` | Linear/ChatServer.cxx:93 | a copy after that expiry makes a difference |
| `TokenTable.Table.ScrubList` | Linear/ChatServer.cxx:55-70 | the loop pops expired fronts and erases their users; where the source would look at the front of an empty queue, it stops |
| `TokenTable.ScrubRunsOut` | Linear/ChatServer.cxx:62 | a scrub comes to look at the front of an empty queue if and only if it finds no live record |
| `TokenTable.ScrubRunsOutExactly` | Linear/ChatServer.cxx:62 | in every run that is if and only if nobody has been received within 300 s |
| `TokenTable.Table.Update` | Linear/ChatServer.cxx:38-45 | after any number of rounds the table is what the packets and scrub readings of the rounds say |
| `TokenTable.RoundsExactly` | Linear/ChatServer.cxx:38-45 | in terms of the rounds: a user is authorised if and only if a packet of theirs came in and neither that round's scrub nor a later one popped a record of theirs, 300 s after its packet; the token is that of the earliest such packet |
| `TokenTable.AuthorisedCameIn` | Linear/ChatServer.cxx:55-70 | whoever is authorised came in a packet whose 300 s the last scrub has found not over |
| `ChatSession.Session.constructor` | Linear/Session.cxx:129-130 | the loop starts with the listener alone |
| `ChatSession.Session.HandleAccept` | Linear/Session.cxx:159-182 | an accepted descriptor joins the set and raises the maximum if greater; an error changes nothing |
| `ChatSession.Session.HandleRecv` | Linear/Session.cxx:184-216 | an empty receive drops the sender; a chunk is relayed to the others below the maximum |
| `ChatSession.Session.HandleAll` | Linear/Session.cxx:142-153 | the scan, whose bound grows as it runs, is the steps of the descriptors that were visible at its start |
| `ChatSession.Session.MainLoopRound` | Linear/Session.cxx:133-155 | one turn is one round, with either set narrowed, and keeps every descriptor at or below the maximum |
| `ChatSession.RunValid` | Linear/Session.cxx:172-175 | in every run open descriptors stay at or below a maximum that never goes down |
| `ChatSession.RelayExactly` | Linear/Session.cxx:205-212 | a relay sends once to each eligible descriptor below the bound and nothing to the sender, the listener or anybody else |
| `ChatSession.RelayMissesTheMaximum` | Linear/Session.cxx:206 | a relay reaches every other client if and only if the descriptor at the maximum is not one |
| `ChatSession.HearsEveryoneElse` | Linear/Session.cxx:184-216 | while a client stays connected below the maximum its inbox grows by exactly the others' chunks, once each and in order |
| `ChatSession.TotalOrder` | Linear/Session.cxx:184-216 | two clients connected over the same steps hear the chunks neither of them sent in the same order |
| `ChatSession.IdleIsDropped` | Linear/Session.cxx:135-136 | as written, a descriptor that is not ready is dropped from the session |
| `ChatSession.MainLoop` | Linear/Session.cxx:127-157 | any number of turns, with either set narrowed, is that many rounds |
| `ChatSession.RoundsAreSteps` | Linear/Session.cxx:127-157 | with the scanned set narrowed, that is one run of steps |
| `ChatSession.IdleInAnyTurnIsGone` | Linear/Session.cxx:135-136 | as written, over any number of turns, who is still open was ready in every turn or accepted in or after each turn it was not |
| `ChatSession.ListenerIdleOnce` | Linear/Session.cxx:135-148 | as written, one turn with an idle listener puts it out, and from then on the set only shrinks |
| `ChatSession.LastComerHearsNothing` | Linear/Session.cxx:206 | with a listener at 3 and clients 4 and 5, what 4 says reaches nobody |
| `ChatSession.ListenerLost` | Linear/Session.cxx:135-136 | with a listener at 3 and a client at 4 that speaks, the session loses its listener |
| `ChatSession.SelectExact` | Linear/Session.cxx:135-144 | in every environment, a turn as written is the turn that is needed if and only if every open descriptor is ready in it, accept never returning an open one |
| `ChatSession.ReadyHearsEveryoneElse` | Linear/Session.cxx:127-216 | as written, over any number of turns in all of which a client is ready, its inbox grows by exactly the others' chunks, once each and in order |
| `ChatSession.ReadyTotalOrder` | Linear/Session.cxx:127-216 | as written, two clients ready in every turn hear the chunks neither of them sent in the same order |
| `ChatSession.OpenExactly` | Linear/Session.cxx:159-200 | over every run a descriptor is open if and only if it was at the start and has not disconnected, or was accepted and has not disconnected since |
| `ChatSession.NothingToTheGone` | Linear/Session.cxx:192-200 | after a disconnection nothing is sent to the descriptor until it is accepted again |
| `ChatSession.ScanExactly` | Linear/Session.cxx:142-153 | a scan accepts at the listener and receives at every other descriptor visited, and takes no other step |
| `ChatSession.ScanAscends` | Linear/Session.cxx:143 | and it does so in ascending order, once at each |
| `ChatSession.TurnAsMeant` | Linear/Session.cxx:133-155 | after a turn as it is needed, open are those who were and did not disconnect, and the newcomer if the listener was ready and accept succeeded |
| `ChatSession.LoopOpenExactly` | Linear/Session.cxx:133-155 | over any number of such turns, open are those who were and left in no turn, and those accepted in a turn who left in no later one |
| `MatchServer.AdditionExact` | GameServer/MatchServer/MatchServer.cxx:43-44 | the quotient as written is the signed one if and only if the difference is not negative |
| `MatchServer.Server.constructor` | GameServer/MatchServer/MatchServer.cxx:35-39 | the rating starts unassigned and no client is there |
| `MatchServer.Server.AddClient` | GameServer/MatchServer/MatchServer.cxx:13-23 | a full server refuses and does not change; otherwise the client is appended and the rating nudged |
| `MatchServer.Server.RecalculateELO` | GameServer/MatchServer/MatchServer.cxx:35-48 | the first rating is taken over; later ones add the quotient as written |
| `MatchServer.WrittenIsMeantExactly` | GameServer/MatchServer/MatchServer.cxx:35-48 | a run as written agrees with the run as meant throughout if and only if no newcomer is rated below the server |
| `MatchServer.RunClients` | GameServer/MatchServer/netdefs.h:12 | the clients of a run as meant are the first ten who tried, in order |
| `MatchServer.WrittenClients` | GameServer/MatchServer/MatchServer.cxx:13-23 | and so are those of a run as written |
| `MatchServer.RatingNearMean` | GameServer/MatchServer/MatchServer.cxx:13-48 | with the division as meant and n clients, the rating is within (n-1)/2 of the mean and between the least and greatest rating, and n is at most 10 |
| `MatchServer.LowerNewcomer` | GameServer/MatchServer/MatchServer.cxx:43-44 | a second client rated one lower sends the rating up by INT_MAX with 32-bit sizes, and anywhere with 64-bit ones |
| `MatchServer.WrittenNearMean` | GameServer/MatchServer/MatchServer.cxx:35-48 | the bounds of the division as meant hold of every run as written in which no newcomer is rated below the server |
| `MatchServer.LowerBreaks` | GameServer/MatchServer/MatchServer.cxx:43-44 | one newcomer rated below the server is enough to break the bound, with 32-bit sizes always and with 64-bit ones for some result of the conversion |
| `MatchServer.NearMeanExactly` | GameServer/MatchServer/MatchServer.cxx:13-48 | with either size, the rating as written stays within (n-1)/2 of the mean throughout a run, whatever conversions yield, if and only if no newcomer is rated below the server |
| `Pipeline.Shared.constructor` | GameServer/MatchServer/Acceptor.cxx:69-74 | buffer cleared, queue empty |
| `Pipeline.Shared.ReceiveOne` | GameServer/MatchServer/Acceptor.cxx:76-88 | a turn of the acceptor overlays the datagram, builds a packet of the whole buffer even after an error, and drops it if the queue is full |
| `Pipeline.Shared.ConvertOne` | GameServer/MatchServer/Converter.cxx:19-24 | a turn of the converter pops if it can and processes what it holds either way |
| `Pipeline.RunConsistent` | GameServer/MatchServer/Converter.cxx:17-24 | in every interleaving pushed is popped followed by queued, at most 2000 queued, pushed keeps the order of built, and a failed pop repeats the packet before it |
| `Pipeline.ProcessedInOrder` | GameServer/MatchServer/Converter.cxx:19-24 | what is processed, repeats aside, is a prefix of what was pushed and an order-preserving part of what was built |
| `Pipeline.LossExactly` | GameServer/MatchServer/Acceptor.cxx:83-84 | a packet is dropped if and only if some turn of the acceptor finds the queue full |
| `Pipeline.RepetitionExactly` | GameServer/MatchServer/Converter.cxx:21-22 | a packet is processed again if and only if some turn of the converter finds the queue empty |
| `Pipeline.PacketsCarryDatagrams` | GameServer/MatchServer/Acceptor.cxx:76-101 | in every run one packet is built per turn of the acceptor, with the address of the last datagram up to then and, byte by byte, the last datagram up to then with that byte among its first 1023 |
| `Layout.WrittenAt` | Packets/I_Minion_Packet.cxx:12-21 | after any table of copies, overlapping or not, each byte is that of the last field to cover it, or the old one |
| `Layout.DisjointRoundTrip` | Packets/I_Local_Player_Packet.cxx:11-27 | a disjoint table recovers every field from any buffer and leaves other bytes alone |
| `Layout.Trimmed` | Packets/I_Minion_Packet.cxx:17-18 | a field whose end the next one covers might as well have been cut short |
| `Layout.PackedSlice` | Packets/I_Local_Player_Packet.cxx:35-51 | each field of a gapless table is a slice of the joined bytes |
| `Layout.AdjacentHeaders` | Packets/Packet.cxx:7-28 | payload, layer and base header placed one after another are all recovered from the tail |
| `Layout.OverwrittenHeaders` | Packets/Event_Packet.cxx:19-27 | with both headers at one place the payload is recovered, and the headers if and only if the bytes coincide |
| `Layout.OverwrittenInClearedBuffer` | Packets/Event_Packet.cxx:19-27 | in a cleared buffer they coincide only for headers that are zero throughout |
| `Packets.AddBaseHeader` | Packets/Packet.cxx:20-28 | four copies put the twelve header bytes at the tail |
| `Packets.AddLayerHeader` | Packets/Sync_Packet.cxx:19-27 | the layer header is put at the tail and the base header over it |
| `Packets.StripHeaders` | Packets/Protocol_Packet.cxx:9-16 | the two deserialisers read base then layer from the tail and move it back by exactly their sizes |
| `Packets.HeaderReads` | Packets/Packet.cxx:7-18 | a base header reads back if and only if the twelve bytes before the tail are its own; its type is not sent |
| `Packets.LayerReads` | Packets/Event_Packet.cxx:9-17 | a layer header reads back if and only if the bytes before the tail are its own |
| `Packets.StackAsMeant` | Packets/Packet.cxx:7-28 | with the base header behind the layer header, payload and both headers come back |
| `Packets.StackAsWritten` | Packets/Event_Packet.cxx:19-27 | as written the payload comes back, and the headers if and only if the overwritten bytes coincide |
| `Packets.GameIdNeverCrosses` | Packets/Packet.h:8 | in a cleared buffer no packet with the game's id gets its headers across |
| `Packets.HeaderParts` | Packets/Packet.cxx:20-28 | where each field of the base header is among its twelve bytes |
| `Packets.LayerParts` | Packets/Event_Packet.cxx:19-27 | which byte each field of a layer header takes |
| `Packets.LayerReadFrom` | Packets/Event_Packet.cxx:9-17 | which byte before the tail each field of a layer header is read from |
| `PlayerPacket.Serialize` | Packets/I_Local_Player_Packet.cxx:9-31 | the seventeen copies and the header make one frame |
| `PlayerPacket.Deserialize` | Packets/I_Local_Player_Packet.cxx:33-53 | every field is read at its offset from the tail |
| `PlayerPacket.ReadsBack` | Packets/I_Local_Player_Packet.cxx:33-53 | from the 46 payload bytes before the tail all seventeen fields come back |
| `PlayerPacket.RoundTrip` | Packets/I_Local_Player_Packet.cxx:9-53 | over any buffer the update comes back, and the headers if and only if the overwritten bytes coincide |
| `PlayerPacket.PayloadParts` | Packets/I_Local_Player_Packet.cxx:11-27 | where each of the seventeen fields is in the payload |
| `NotifyPacket.Serialize` | Packets/G_Primary_Notify_Packet.cxx:9-23 | the eight copies and the header make one frame; the experience is not among them |
| `NotifyPacket.Deserialize` | Packets/G_Primary_Notify_Packet.cxx:25-36 | every field but the experience is read at its offset from the tail |
| `NotifyPacket.RoundTrip` | Packets/G_Primary_Notify_Packet.cxx:9-36 | everything but the experience comes back, and the experience if and only if the receiver already had it |
| `NotifyPacket.PayloadParts` | Packets/G_Primary_Notify_Packet.cxx:11-19 | where each of the eight fields is in the payload |
| `MinionPacket.Serialize` | Packets/I_Minion_Packet.cxx:9-25 | the overlapping copies leave a gapless frame that holds only the low half of z |
| `MinionPacket.Deserialize` | Packets/I_Minion_Packet.cxx:27-40 | every field is read at the offset the code reads it at |
| `MinionPacket.Decodes` | Packets/I_Minion_Packet.cxx:29-38 | all fields but y and z come back; y is x/65536 + 65536*(y mod 65536) and z is y/65536 + 65536*(z mod 65536) |
| `MinionPacket.RoundTripExactly` | Packets/I_Minion_Packet.cxx:12-38 | an update comes back if and only if five halves of its coordinates are equal |
| `MinionPacket.OnlyUpperHalfLost` | Packets/I_Minion_Packet.cxx:12-21 | two updates give one payload if and only if they differ at most in the upper half of z |
| `MinionPacket.RoundTrip` | Packets/I_Minion_Packet.cxx:9-40 | the same through the frame as written, over any buffer |
| `MinionPacket.PayloadParts` | Packets/I_Minion_Packet.cxx:12-21 | where each field is in the payload, and that two bytes are left of z |
| `SynPacket.Serialize` | Packets/C_SYN_Packet.cxx:9-17 | the two copies and the header make one frame |
| `SynPacket.Deserialize` | Packets/C_SYN_Packet.cxx:19-24 | both bytes are read from before the tail |
| `SynPacket.RoundTrip` | Packets/C_SYN_Packet.cxx:9-24 | the request comes back, and the headers if and only if the overwritten byte coincides |
| `SynPacket.PayloadParts` | Packets/C_SYN_Packet.cxx:9-17 | the two bytes of the request |
| `Bytes.LittleEndianOfValue` | Packets/Packet.cxx:10-13 | bytes are determined by the number they are copied into |
| `Bytes.ValueOfLittleEndian` | Packets/Packet.cxx:23-26 | a number is determined by the bytes it is copied into |
| `Bytes.LittleEndianAt` | Packets/Packet.cxx:23-26 | byte i of a number is the number shifted down by i bytes, the low byte first |
| `MatchRequest.AtoiInvertsDecimal` | Linear/serialization.cxx:12-20 | atoi gives back every integer printed with %d, whatever non-digit follows |
| `MatchRequest.Request.constructor` | Linear/serialization.cxx:16-22 | a request has its two fixed-size fields |
| `MatchRequest.Request.Build` | Linear/net_defs.cxx:3-10 | token, NUL-padded username and position are filled in, whatever was there |
| `MatchRequest.RoundTrip` | Linear/serialization.cxx:3-22 | a request written over any buffer reads back as itself, for every integer position |
| `MatchRequest.Transfer` | Linear/net_defs.cxx:3-10 | build, serialise and deserialise hand over token, username and position |
| `MatchRequest.DecimalShape` | Linear/serialization.cxx:12 | a printed number is digits without a leading zero, behind a minus sign if it is negative |
| `MatchRequest.AtoiReads` | Linear/serialization.cxx:20 | atoi skips blanks, takes either sign or none, and stops at the first character that is not a digit |
| `MatchRequest.Request.Serialize` | Linear/serialization.cxx:3-14 | the buffer holds the token in bytes 0 to 63, the username in 64 to 79, then the printed position and a NUL, and keeps the rest |
| `MatchRequest.Request.Deserialize` | Linear/serialization.cxx:16-22 | token, username and position are read from bytes 0, 64 and 80 on |
| `Distance.FloorSqrt` | Server_AI/Graph.cxx:141-142 | the root r satisfies r*r <= n < (r+1)*(r+1) |
| `Distance.Symmetric` | Server_AI/Graph.cxx:130-144 | the distance is symmetric |
| `Distance.ZeroIffEqual` | Server_AI/Graph.cxx:130-144 | it is zero exactly on equal coordinates |
| `Distance.BelowSentinel` | Server_AI/Graph.cxx:146-161 | no distance comes near the sentinel of the searches |
| `Distance.CauchySchwarz` | Server_AI/Graph.cxx:141 | the Cauchy-Schwarz inequality for integer differences |
| `Distance.NearTriangle` | Server_AI/Graph.cxx:130-156 | dist(a,c) <= dist(a,b) + dist(b,c) + 1 for all points |
| `Distance.PlainTriangleFails` | Server_AI/Graph.cxx:142 | the added one is needed |
| `AiGraph.IdsArePositions` | Server_AI/Vertex.cxx:3-7 | ids equal positions if and only if there are at most 65536 vertices |
| `AiGraph.RunValid` | Server_AI/Graph.cxx:34-60 | in every run ids are positions modulo 65536 and adjacency lists name existing vertices |
| `AiGraph.RunSymmetric` | Server_AI/Graph.cxx:47-60 | adjacency is symmetric as a multiset in every run, parallel edges and self-loops included |
| `AiGraph.DegreesAreTwiceEdges` | Server_AI/Graph.cxx:47-60 | degrees sum to twice the number of edges inserted |
| `AiGraph.Graph.constructor` | Server_AI/Graph.cxx:34-45 | a graph starts empty |
| `AiGraph.Graph.AddVertexAt` | Server_AI/Graph.cxx:34-45 | a vertex is appended with the counter's id, and the counter wraps |
| `AiGraph.Graph.AddEdgeBetween` | Server_AI/Graph.cxx:47-60 | each end is appended to the other's list; an unknown id changes nothing |
| `AiGraph.Graph.GetDistance` | Server_AI/Graph.cxx:146-156 | the distance by id is the floored distance to that vertex |
| `AiGraph.LeastIsNearlyNearest` | Server_AI/Graph.cxx:158-210 | of any places, the one of least floored distance d has a squared distance within 2*d of the true minimum |
| `AiGraph.Graph.ClosestNeighbour` | Server_AI/Graph.cxx:158-185 | the first neighbour of least distance, nearly the nearest in that sense, or the vertex itself when it has none |
| `AiGraph.Graph.ClosestToPoint` | Server_AI/Graph.cxx:187-210 | the first vertex of least distance, nearly the nearest in that sense; on an empty graph the unassigned result |
| `AiGraph.PlacesAreInserted` | Server_AI/Graph.cxx:34-45 | the vertices' places, in order, are the points inserted, in order |
| `AiGraph.AdjacencyIsInserted` | Server_AI/Graph.cxx:47-60 | each adjacency list holds the other ends of its vertex's edges in the order of insertion |
| `AiGraph.NeighboursAreInserted` | Server_AI/Graph.cxx:158-185 | the places the neighbour search measures are the points of those ends |
| `AiGraph.BuildAndSearch` | Server_AI/Graph.cxx:187-210 | of a graph built by any insertions the search returns the first inserted vertex whose point is at the least distance |

## Left out

- Socket creation, address lookup, `fork`, signals, logging: plumbing without a property in this code.
- OpenSSL, MySQL and the lock-free queue's internals: a record lane, a keyed map and an atomic bounded queue stand for them.
- `SSL_read` and `recv` errors and a failing random generator: the party that meets one gives up, without a further message.
- The sign-up timeout (`Linear/LoginServer.cxx:648-654`): it sends an extra verdict and goes on, so the exchange is not modelled past it.
- Requests with an unknown code (`Linear/LoginServer.cxx:291-300`): the server's end state for them exists, and no client of the repository reaches it.
- Quotes in a username inside the login query (`Linear/LoginServer.cxx:426`): the lookup is by key.
- Port rotation (`Linear/LoginServer.cxx:356-359,710-713`): the port is any number the server picks; it is compared by both sides, and its 16-bit form on the wire is not written out.
- Partial receives in the exchange: a receive takes a whole record, because the secure channel keeps records apart and the plain one carries shorts and one name; what pieces do to the three read loops is in `ChunkedRead.dfy`.
- ChunkedRead.ReadBehind: the pieces fit the buffer in total; the source passes the whole buffer's size to each read, and reading past its end is not modelled.
- TokenPush.Push: is followed for a given number of turns, because by a clock that stands still or wraps the loop does not stop; the number by which it stops otherwise is `TokenPush.TURNS`.
- MatchServer.RatingNearMean: is about the division as meant; `MatchServer.NearMeanExactly` says of which runs the bound holds as written.
- ChatSession.HearsEveryoneElse: is about clients below `max_fd`, because the relay never reaches the one at `max_fd`.
- The team lists of a session (`addClient`, `removeClient`): list insertions and removals with no tie to the loop.
- AiGraph.Graph.ClosestToPoint: ids are 16-bit, so beyond 65536 vertices it is the first of the vertices an id can name.
- Vertices as heap objects: an adjacency list holds positions instead of pointers, so two graphs sharing `Vertex::count` are not modelled.
- `A_star`, `get_requests`, `create_session`, the body of `processPacket`: empty or without effect.
- Graph file parsing (`Server_AI/Graph.cxx:71-128`): its end-of-file loop does not exit.
- `GameServer/ChatServer`, `GameServer/MatchMaker` and `GameServer/LoginServer/server`: near copies of the `Linear` code, modelled once.
- The remaining packet classes: further tables for `Layout.DisjointRoundTrip` and `Packets.StackAsWritten`.
