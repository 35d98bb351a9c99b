# A replicated hash-table service: model and proofs

The repository is a client and a pair of servers, a primary and a backup, that keep a vector of
fixed-size hash tables. This project describes its parts in Dafny and proves how they fit together:
tables refine bounded maps, bytes carry messages, and two servers behave as one map service.

- `Bytes`, `Hashing`: C strings, keys and the hash with signed characters and truncating `%`.
- `Coalesced`, `CoalescedInvariant`, `CoalescedPut`, `CoalescedMap`, `CoalescedRuns`: coalesced
  chaining (Knuth, TAOCP vol. 3, section 6.4, Algorithm C) as `source/table.c` does it. A `Layout` is
  one table: its slots, the free cursor, `filled` and `collisions`. The invariant `Inv` takes beside it
  a stamp for each slot, the number of keys stored before it; links always lead to larger stamps,
  which slot order does not give, so merged chains never loop. `Valid` says such stamps exist.
- `Tables`, `Skeletons`: the same table, and the vector of tables, as objects updated in place.
- `Dispatch`: one request on the vector of tables, against a service of bounded maps.
- `Messages`, `Codec`, `CodecProofs`, `CodecVerdicts`, `WireLayout`, `MessageBuffers`: the wire format, its
  round trips, which buffers are accepted and which run over, and the two-pass encoder and
  pointer-walking decoder over buffers.
- `Framing`, `Streams`: `write_all` and `read_all` over a connection that cuts transfers anywhere and
  may be interrupted, and framed messages on top of them.
- `TableSizes`: the table sizes a server is started with, as `atoi` reads them.
- `StateTransfer`, `TransferPlaces`, `Servers`: what HELLO brings, what it does to the places of the
  entries, and a server that applies, forwards and answers.
- `Replication`, `ReplicationProofs`, `CutFrames`, `Promotion`, `LockStep`: the pair of servers as a
  state machine. `lead` is the server that clients use, `peer` the other one. A step is a request, its
  forward, its answer, a crash between messages or inside the frame of one, a promotion, or a message of a
  recovery. The log holds the requests whose effects the lead holds; `Outcome` is what the service of
  maps makes of them. The peer is `torn` once it took a message cut short for one that changes a table.
- `WireSafety`, `NetworkServers`: the pieces composed, from request bytes to reply bytes.
- `PollTables`, `NetworkClients`: the dense poll array and the client's retry loop.

## What the code relies on

- The hash sums signed characters, so a key with bytes above 127 can index before the array.
  `HashInRangeIff` says exactly when. Tables take the keys whose hash indexes tables of every size: those
  whose sum is not negative (`KeyIff`), among them all strings of bytes 1 to 127.
- `data_create` makes no block of size 0, so data is never empty. Table sizes are positive.
- Client requests carry a table number of at least 0; -1 marks messages between the servers.

## Where the code differs from what it promises

- `table_put` increments `collisions` before it has walked the chain, so the counter also counts puts
  rejected behind the head of a chain (`CollisionAccounting`, `PutRejected`). Such puts are not
  forwarded, so the backup's counter falls behind the primary's by exactly their number
  (`LayoutsInLockStep`, `RunsInLockStep`).
- The hash of a key with a byte above 127 can be negative: `HashInRangeIff`, and `HashBeforeArray` for one.
- `include/message.h` documents one key length of two bytes. The decoder reads it unsigned for a lone
  key and signed for the keys of a list or an entry, so the latter end at 32767 (`RoundTripIff`,
  `LongKeyLost`).
- Keys are copied as C strings: a NUL inside a key field is not an error, the rest of the key is lost
  (`CanonicalIff`, `NulCutsKey`).
- The decoder ignores the size of its buffer: every message cut short sends it past the end
  (`CutShortOverruns`, `OverrunIff`). It also frees the unset content of a message with a bad opcode.
- `read_all` tests `errno` also when `read` returned 0. It reports a close exactly if no interruption came
  before it, be it between bytes or while waiting (`CloseReportedIff`), and otherwise never returns
  (`InterruptHidesClose`).
- A close inside a message is not noticed: what arrived is decoded together with whatever the new buffer
  holds (`ReceivePayload`). A primary that dies inside a forward can thus leave the backup with data no
  client sent (`TruncatedForward`); `CutForwardIff` and `CutInsideData` say exactly when it does.
- A backup becomes primary on any client connection, also while the primary lives, if a state transfer broke
  off, or behind a cut message. `PromotionExact` says when that is harmless; `SplitBrain`,
  `BrokenTransfer` and `TruncatedForward` what it costs.
- A state transfer keeps contents, but places only if all links lead down (`PlacesKeptIff`,
  `ReceivedPlacesIff`, `TransferMovesEntries`). It never raises the collision counter, and lowers it by the
  puts rejected behind a head and by the slots that newly hold a key at home (`CollisionsKeptIff`).
- A hang-up of standard input shifts the first client into its place, where it is no client any more
  (`HangUpKeepsIff`, `StdinHangsUp`).
- A repeated put is reported as an error although the first one took effect (`PutRetrySafe`,
  `LoggedPutRetrySafe`).
- A get of an absent key has no content to print or encode: the server dereferences NULL. The steps
  Answer and Drop need a reply that has its content; after such a get only a crash is left.
  `ReplyLacksContentIff` is the condition.
- The client does not take a connection that the server closed for a failed exchange (`CloseIsNoFailure`).

## Model

| member | source | states |
|---|---|---|
| `Hashing.Hash` | source/table.c:24-41 | the loop over a short key and the four-character shortcut of a long one both give the signed sum reduced with C's remainder, which is the home slot of every key whose sum is not negative |
| `Hashing.HashInRangeIff` | source/table.c:24-41 | for keys with any bytes the hash indexes the table iff the sum is non-negative or a multiple of the capacity |
| `Hashing.HashBeforeArray` | source/table.c:24-41 | a key of one byte 200 hashes to -2 in a table of 3 slots |
| `Hashing.KeyIff` | source/table.c:24-41 | the strings whose hash indexes tables of every size are exactly those whose sum is not negative |
| `Hashing.LongKeyHash` | source/table.c:35-37 | a key of five or more characters hashes as its first two and last two do, whatever its length and middle |
| `Hashing.ShortKeyHash` | source/table.c:29-34 | a key of at most four characters is reduced by the sum of all of them, as signed characters |
| `Hashing.TruncModIs` | source/table.c:39 | the remainder differs from its dividend by a multiple of the slots, is smaller than them and has the dividend's sign |
| `Hashing.LiteralHashes` | source/table.c:24-41 | "abcdef" has slot 6 of seven, "abc" slot 0 |
| `Tables.Table.Create` | source/table.c:73-90 | NULL exactly for sizes that are not positive, else a new valid table with every slot free and the cursor at the last |
| `Tables.Table.AdvanceNext` | source/table.c:43-48 | the cursor walks down to the nearest free slot, and stays where it is once the table is full |
| `Tables.Table.GetEntry` | source/table.c:50-70 | the walk over a possibly merged chain ends and returns the slot the lookup by chain gives, NULL if there is none |
| `Tables.Table.ChainEnd` | source/table.c:127-132 | reports whether the key is on the chain, else stops at the chain's last slot |
| `Tables.Table.PutBehind` | source/table.c:124-138 | a put to an occupied home slot: rejected with one collision counted, or linked behind the end of the chain and stored at the cursor |
| `Tables.Table.StoreAt` | source/table.c:133-141 | the slot takes key and value, `filled` grows by one and the cursor is brought to the next free slot |
| `Tables.Table.Put` | source/table.c:110-145 | keeps the table valid, returns 0 or -1, and makes of the whole table what the pure put makes of it |
| `Tables.Table.Update` | source/table.c:151-164 | keeps the table valid and makes of it what the pure update makes of it |
| `Tables.Table.Get` | source/table.c:171-180 | the value bound to the key in the table's contents, nothing if the key is not bound |
| `Tables.Table.Size` | source/table.c:184-188 | the number of bindings of the table's contents |
| `Tables.Table.GetKeys` | source/table.c:193-208 | every bound key exactly once and nothing else, by ascending slot |
| `CoalescedPut.PutInv` | source/table.c:110-145 | put keeps the whole invariant: reachability, acyclic links of in-degree one, home or target, all used above a key away from home, distinct keys, counts, cursor |
| `CoalescedPut.PutRejected` | source/table.c:115-132 | a rejected put changes nothing but `collisions`, and that by one iff the key sits behind the head of the chain of a table with room |
| `CoalescedMap.CreateRefines` | source/table.c:73-90 | a new table is valid and means the empty map |
| `CoalescedMap.PutRefines` | source/table.c:110-145 | put succeeds iff the table is not full and the key is absent, and then adds exactly that binding |
| `CoalescedMap.UpdateRefines` | source/table.c:151-164 | update succeeds iff the key is present, changes only that binding, and moves no key and no link |
| `CoalescedMap.GetRefines` | source/table.c:171-180 | get is map lookup |
| `CoalescedMap.SizeRefines` | source/table.c:184-188 | `filled` is the cardinality of the map and never exceeds the capacity |
| `CoalescedMap.EnumerationRefines` | source/table-skel.c:258-300 | both enumerations list each stored key exactly once, have length `filled`, are each other's reverse, and the second pairs each key with its value |
| `CoalescedRuns.TableIsBoundedMap` | source/table.c:50-188 | every run of puts, updates and gets on a new table gives the outcomes and the contents of the same run on a map bounded by the capacity |
| `CoalescedRuns.EveryKeyReachable` | source/table.c:50-70 | each stored key is on the chain of its own home slot, even where another hash holds that slot, and `get_entry` finds its slot |
| `CoalescedRuns.ChainsPartition` | source/table.c:112-138 | each occupied slot is on the chain of exactly one slot that holds a key at home |
| `CoalescedRuns.LinkBounds` | source/table.c:120-138 | the links number at least the keys less the distinct home slots, and at most the keys less one |
| `CoalescedRuns.CollisionAccounting` | source/table.c:120-138 | over every run `collisions` is the number of links plus the puts rejected behind the head of their chain |
| `CoalescedRuns.CursorAmortised` | source/table.c:43-48 | over every run the cursor is decremented at most n - 1 times, and is the highest free slot while there is one |
| `CoalescedRuns.PutRetrySafe` | source/table.c:110-145 | delivering a put again after any other operations is rejected and leaves the contents alone |
| `CoalescedRuns.UpdateRetryIff` | source/table.c:151-164 | delivering an update again changes nothing iff the last update of that key in between wrote the same value, or there was none |
| `MessageBuffers.BufferSize` | source/message.c:39-70 | the sizing pass, with its loop over keys, counts exactly the bytes of the encoding |
| `MessageBuffers.CopyKeys` | source/message.c:102-114 | the writing loop over keys appends exactly their encoding at the pointer |
| `MessageBuffers.MessageToBuffer` | source/message.c:38-135 | the buffer allocated by the first pass is filled by the second with exactly the encoding, every byte of it |
| `MessageBuffers.ReadKeyAt` | source/message.c:184-195 | one length-prefixed key is read at the pointer, which moves behind it |
| `MessageBuffers.ReadKeyList` | source/message.c:177-198 | the loop over a key list gives the keys the format prescribes, or stops as the first bad length does |
| `MessageBuffers.BufferToMessage` | source/message.c:137-256 | the decoder gives for any bytes the verdict, message and rest of the pure decoder |
| `CodecProofs.RoundTripIff` | source/message.c:38-256 | decoding an encoding followed by any bytes gives the message back and leaves those bytes iff the opcode is accepted and every length fits its field |
| `CodecProofs.DecodedIsWellFormed` | source/message.c:137-256 | whatever bytes are decoded, an accepted message is well-formed |
| `CodecProofs.CanonicalIff` | source/message.c:137-256 | encoding a decoded message gives back exactly the bytes consumed iff no key field on the wire holds a NUL |
| `CodecProofs.PrefixFree` | source/message.c:38-135 | encodings of well-formed messages are injective and prefix-free |
| `CodecProofs.CutShortOverruns` | source/message.c:137-256 | of a stream that starts with a message, the decoder reads past the end of exactly the pieces that do not hold the whole message |
| `CodecVerdicts.AcceptedIff` | source/message.c:137-256 | the decoder accepts exactly the buffers that start with an encoding under an opcode of 10 to 91 or 99 with lengths that fit, whatever bytes the keys have |
| `CodecVerdicts.OverrunIff` | source/message.c:137-256 | it touches memory that is not its own exactly if the header is short, or a bad opcode comes with a content type that is freed, or behind complete pieces a length or its bytes are missing or announced as -1 |
| `CodecVerdicts.LongKeyLost` | source/message.c:208-216 | a key of 32768 bytes comes back as a lone key and is refused as the key of an entry |
| `CodecVerdicts.NulCutsKey` | source/message.c:167-176 | a lone key field with a NUL decodes to the part before it, and encoding does not give the bytes back |
| `WireLayout.MessageLayout` | include/message.h:45-58 | for every content, each number stands at its documented place and width, most significant byte first and negative ones in two's complement, each key and data behind its size, and nothing more |
| `WireLayout.KeysLayout` | include/message.h:53-54 | each key of a list stands with its size at the offset the earlier ones leave |
| `WireLayout.RequestHeaders` | include/message.h:10-21 | the first four bytes of every kind of request and of message between servers |
| `WireLayout.ReplyHeaders` | include/message.h:10-21 | the first four bytes of the reply to every kind of request, and all ten of the error reply |
| `WireLayout.AllKindsAccepted` | source/message.c:155-158 | requests, messages between servers, the replies to both and the error are decoded as what they are |
| `Framing.Connection.WriteAll` | source/message.c:260-275 | the loop over `write` ends as the schedule of partial writes and interruptions has it, and exactly the moved prefix of the buffer is on the wire |
| `Framing.Connection.ReadAll` | source/message.c:278-293 | the loop over `read` ends as the schedule has it, and the buffer holds exactly the bytes taken off the stream |
| `Framing.ReadRunFull` | source/message.c:278-293 | under any partial reads and interruptions a read completes iff enough bytes arrive, and takes no more than it asked for |
| `Framing.WriteRunFull` | source/message.c:260-275 | under any partial writes and interruptions every byte is written |
| `Framing.WriteFailsIff` | source/message.c:260-275 | over all schedules a write fails iff a call fails, other than by an interruption, before the chunks in front of it add up to all bytes; it has moved their sum then, and else everything |
| `Framing.ReadFailsIff` | source/message.c:278-293 | over all schedules a read fails iff a call fails, other than by an interruption, before the chunks in front of it give all bytes and before the close is seen; it has taken what they gave then |
| `Framing.CloseReportedIff` | source/message.c:278-293 | a read that runs out of bytes and does not fail reports the close iff `errno` was not EINTR before and no interruption comes before the close, also while the read waits for it; otherwise it never returns |
| `Framing.InterruptHidesClose` | source/message.c:281-291 | with one interruption a closed stream is never reported, whether bytes came first or none, and without it is |
| `Streams.SendMessage` | source/table-server.c:249-288 | on a connection that does not fail, length and message go out as one frame |
| `Streams.ReceiveMessage` | source/table-server.c:166-205 | a frame that arrives is decoded and taken off the stream; a missing header is a disconnection or a hang by the exact condition; a negative length is refused; a cut payload hangs or is decoded with what the buffer held |
| `Streams.ReceivePayload` | source/table-server.c:186-197 | the payload alone: complete, hung by the exact condition, or what arrived followed by what the buffer held |
| `Streams.FrameDecodes` | source/table-server.c:166-197 | a framed message decodes to itself and leaves what follows |
| `Streams.Relay` | source/message.c:260-293 | any sequence of messages arrives as sent, whatever partial transfers and interruptions either side sees |
| `Dispatch.InvokeRefines` | source/table-skel.c:67-204 | a request changes the maps as the service of maps does and gets the reply that service allows |
| `Dispatch.RepliesInNumbers` | source/table-skel.c:91-199 | every reply and its effect on the map in literal numbers: 41 and 21 with result 0, 31 with the value or, for "*", the keys, 11 and 51 with the count itself if an `int` holds it, 99 with result -1 for all else |
| `Dispatch.NoSuchTable` | source/table-skel.c:75-78 | a table number behind the last table gets 99 with result -1 and changes nothing |
| `Dispatch.Wrap32Is` | source/table-skel.c:187-195 | a count an `int` can hold is told as it is, another one a multiple of 2 to the 32 away |
| `Dispatch.InvokeFrame` | source/table-skel.c:67-204 | only the addressed table changes, and an error reply leaves all of it alone but the collision counter |
| `Dispatch.ServeRefines` | source/table-skel.c:67-204 | any sequence of requests is served as by the service of maps |
| `Skeletons.Skeleton.Init` | source/table-skel.c:21-50 | succeeds iff `atoi` finds every size positive, and then holds one new table of its own with as many slots for each size |
| `TableSizes.AtoiText` | source/table-skel.c:39 | white space, at most one sign and digits read as the number the digits stand for, negated behind a minus, whatever is behind them |
| `TableSizes.AtoiDecimal` | source/table-skel.c:39 | a number written in base ten reads as itself |
| `StateTransfer.TablesOfSizes` | source/table-skel.c:38-46 | sizes written in base ten are accepted iff all are positive, and make empty tables of exactly those capacities |
| `Skeletons.Skeleton.InvokeOnTable` | source/table-skel.c:91-199 | the two switches over the opcode, on a table in place, give the new table and the reply of the pure dispatcher |
| `Skeletons.Skeleton.Invoke` | source/table-skel.c:67-204 | the vector of tables in place changes, and is answered for, as the pure dispatcher has it |
| `Skeletons.Skeleton.EntriesOf` | source/table-skel.c:258-300 | the snapshot of a table's entries by descending slot |
| `StateTransfer.ReplayTable` | source/table-server.c:297-311 | replaying a table's entries into a new one of its size makes every put succeed and gives the same contents |
| `StateTransfer.TransferPreserves` | source/table-server.c:290-321 | handling the whole transfer gives the receiver the sender's capacities and contents, whatever it held |
| `StateTransfer.TransferRebuilds` | source/table-server.c:290-321 | the receiver of a whole transfer ends with the replay of each of the sender's tables, whatever it held |
| `StateTransfer.TransferLength` | source/table-server.c:290-321 | a transfer is the sizes, one put for each stored entry, and an ACK that comes last and only there |
| `StateTransfer.TransferMovesEntries` | source/table-skel.c:276-296 | a three-slot table with a link that leads up, whose replay has the same contents in other places with one collision instead of two |
| `TransferPlaces.PlacesKeptIff` | source/table-server.c:297-311 | the replay of a table keeps every entry and link in its place iff all links lead to lower slots, and then keeps all but the collision counter and the cursor of a full table |
| `TransferPlaces.ReceivedPlacesIff` | source/table-server.c:290-321 | after the messages of a transfer a table of the receiver has the sender's places iff all its links lead down, and its counter is its links, at most the sender's |
| `TransferPlaces.HeadsKept` | source/table-skel.c:276-296 | every slot that held a key at home does so after a transfer, and one link is lost for each slot that newly does |
| `TransferPlaces.CollisionsKeptIff` | source/table.c:120-138 | after any operations a transfer lowers the counter by exactly the late rejections and the new slots with a key at home, so it never raises it and keeps it iff there are neither |
| `Servers.Server.Handle` | source/table-skel.c:214-256 | a message between servers or a forwarded request changes the tables as specified; only an ACK is reported as one, only refused sizes fail, only HELLO marks the other server up |
| `Servers.Server.Serve` | source/table-server.c:207-244 | a server that lives through a request applies it, and passes a success on iff it is primary and takes the backup to be up |
| `Servers.Server.SendState` | source/table-server.c:290-321 | the nested loops send exactly the transfer, and the receiver ends with the sender's contents |
| `Servers.Server.SendPuts` | source/table-server.c:303-310 | the inner loop has the receiver handle one put for each entry |
| `Servers.Server.UpdateState` | source/primary_backup.c:27-51 | the recovery loop handles all up to the first ACK and returns 0; if the stream ends before, or sizes are refused, it returns -1 with what was handled so far |
| `Servers.RecoveryIff` | source/primary_backup.c:40-51 | a transfer cut behind any number of messages ends the recovery with success iff all 1 + stored entries + 1 are there, and then with the sender's contents |
| `ReplicationProofs.StepKeeps` | source/table-server.c:152-363 | every step of the protocol keeps the system invariant, crashes inside a frame included, promotions if they are safe |
| `ReplicationProofs.FailoverSafety` | source/table-server.c:207-244 | in every safe run, wherever crashes cut a frame, the lead holds exactly what its log leads to, every reply is one the service of maps gives, and a live synced backup that is not torn holds the same or lags by the one request not yet forwarded |
| `ReplicationProofs.AnswersStand` | source/table-server.c:246-288 | along a safe run the answered requests only grow, in order, by one for each answer sent and by nothing else |
| `ReplicationProofs.StepAnswers` | source/table-server.c:246-288 | only the step Answer tells a client anything, and it tells the last request of the log |
| `ReplicationProofs.SilentAfterNotice` | source/table-server.c:629-641 | after the primary has read the end of its backup's connection nothing is forwarded and the backup stays down until a server says HELLO |
| `ReplicationProofs.NothingBarred` | source/table-server.c:575-666 | in every state of a safe run each live server can crash, a waiting lead takes any request, what was begun can go on, and a backup can be promoted |
| `ReplicationProofs.DurableWrites` | source/table-server.c:224-244 | once a client has been told of a successful put or update, whichever server leads later in a safe run binds the key to the value of the last successful write of it in the log, which is that one or a later one |
| `ReplicationProofs.OutcomeIsLastWrite` | source/table-server.c:207-244 | what a log leads to binds a key iff some put or update of it succeeded, to the value of the last one |
| `ReplicationProofs.LoggedPutRetrySafe` | source/network_client.c:97-227 | a put in the log, requested again of whichever server leads in a safe run, is answered with the error and changes no map |
| `CutFrames.CutInsideData` | source/network_server.c:30-51 | a put or update cut inside its data is decoded as one with what arrived and then what the memory holds, which is the message sent iff that memory holds the rest of it |
| `CutFrames.WholeFrameDelivers` | source/table-server.c:186-197 | a crash behind the whole frame is a delivery followed by a crash, if the peer outlives the message |
| `CutFrames.CutForwardIff` | source/table-server.c:186-197 | a backup that outlives a forward cut short holds what the log with or without the pending request leads to iff it decoded that request itself or a message that changes nothing |
| `CutFrames.TruncatedForward` | source/table-server.c:186-197 | from any start with both servers up, a primary that dies one byte short of its first forward leaves a backup that answers with data no client sent |
| `Promotion.PromotionExact` | source/table-server.c:585-594 | promotion keeps the service faithful iff the lead is dead, nothing of a state transfer is missing but its ACK (or there are no tables), and no cut message was taken for one that changes a table |
| `Promotion.SplitBrain` | source/table-server.c:585-594 | from any start with both servers up, promoting while the primary lives leaves two primaries, one of which never learns of a put that was answered |
| `Promotion.BrokenTransfer` | source/table-server.c:585-594 | from any start with both servers up, a transfer that breaks off at once leaves a promoted server without tables |
| `LockStep.LayoutsInLockStep` | source/table-server.c:218-244 | without crashes both servers agree in every slot, link, cursor and count after any requests, and the primary's collision counter is ahead by the puts rejected behind the head of a chain |
| `LockStep.RunsInLockStep` | source/table-server.c:207-244 | the same for every run of the protocol without crashes, at every point where no request waits to be forwarded |
| `LockStep.MirrorIsRun` | source/table-server.c:207-244 | the mirrored request of the lock-step theorem is what the steps request, forward and answer do |
| `LockStep.CollisionsReply` | source/table-skel.c:140-142 | after any requests the reply to opcode 50 is 51 with the number of links plus the puts rejected behind the head of a chain, if an `int` holds it |
| `WireSafety.InvokeKeepsPortable` | source/table-skel.c:93-134 | requests off the wire leave only keys in the tables that fit an entry message again |
| `WireSafety.ReplyIsWellFormed` | source/table-skel.c:148-201 | every reply that has its content can be encoded and decoded |
| `WireSafety.ReplyLacksContentIff` | source/table-skel.c:172-175 | the content is missing iff the request is a get of an absent key |
| `WireSafety.TransferSurvivesWire` | source/primary_backup.c:83-194 | every message of a state transfer is decoded as it was sent |
| `WireSafety.TransferBytes` | source/primary_backup.c:83-194 | the bytes a transfer's messages start with: sizes first, then puts, and all ten of the ACK last |
| `WireSafety.ForwardSurvivesWire` | source/primary_backup.c:160-236 | the message built for a forward is the request itself, and is decoded as such |
| `NetworkServers.ReceiveSend` | source/table-server.c:152-288 | a whole framed request on a connection that does not fail is answered with the frame of the reply the tables give, and the backup has a success if the server forwards; the client is gone iff the size is missing and the close seen, the call fails iff the size is negative, and a hidden close or a request that cannot be answered never returns |
| `NetworkServers.AnswerRequest` | source/table-server.c:207-288 | apply, forward, answer, with the tables of both servers and the outgoing bytes that result; the backup has the request whether or not the reply gets through |
| `NetworkServers.FramedIsAnswerable` | source/table-server.c:166-222 | every framed, hashable request is answerable unless it is a get of an absent key |
| `PollTables.PollTable.constructor` | source/table-server.c:556-572 | the three fixed places are taken, no client is there and the rest is vacant |
| `PollTables.PollTable.Shift` | source/table-server.c:65-91 | exactly the run of connections behind a place moves down by one, and the last place of the run is vacated |
| `PollTables.PollTable.Accept` | source/table-server.c:585-603 | a connection joins the clients at the end iff there is room |
| `PollTables.PollTable.Disconnect` | source/table-server.c:628-637 | exactly that client is taken out, the others keep their order, and the array stays dense |
| `PollTables.PollTable.DisconnectServer` | source/table-server.c:629-641 | the other server's place is vacated and no client moves |
| `PollTables.PollTable.HangUp` | source/table-server.c:653-663 | the place is vacated, and but for the other server's the connections behind it move down |
| `PollTables.ShiftedClients` | source/table-server.c:65-91 | on a dense array vacating a place and shifting removes exactly that client |
| `PollTables.HangUpKeepsIff` | source/table-server.c:653-663 | a hang-up at a polled place keeps the array dense and the other clients in order iff it is not standard input |
| `PollTables.ArrivalOrderKept` | source/table-server.c:585-663 | after any run of arrivals, departures, ends of the other server and hang-ups other than of standard input, with descriptors handed out again, the polled array is dense and its clients are those that came and have not gone, unchanged and in order of arrival |
| `PollTables.PollTable.Poll` | source/table-server.c:575-666 | the loop over any such changes leaves the array as that run has it |
| `NetworkClients.CallExact` | source/network_client.c:97-232 | from the four transfers, the size and the decoded reply of each exchange: at most four are made, each but the last failed and was followed by one switch, and a call is answered, hangs, has no server or gives up exactly if the last one gets a reply, hangs, or fails and the switch behind it fails or works |
| `NetworkClients.CloseIsNoFailure` | source/network_client.c:160-175 | a server that closes before the size of its reply makes the client hang if an interruption came before the close, also while it waited; otherwise only the size it never received, or what it then reads and decodes, can make it switch |
| `NetworkClients.Client.SwitchServer` | source/network_client.c:251-269 | the addresses trade places and the result is 0 if the other server was reached, else nothing changes and it is -1 |
| `NetworkClients.Client.SendReceive` | source/network_client.c:84-233 | the loop has the result of the call that `CallExact` determines, and the addresses have traded places iff its switches are odd |

## Left out

- Sockets, `poll`, the files `ip_1` and `ip_2`, signals, console commands and printing.
- Threads: the forward is joined at once, so it is a part of serving the request.
- Failing allocations, freeing, and the sizes handed to `malloc` in `get_tbl_keys`.
- The number of tables written to each accepted socket; connections start after it.
- Recovery from a server that was started without a table list: it has no list to send, so the step Hello needs one. After a failover the promoted backup therefore serves alone.
- A server that restarts while the other one is dead, and the handshake at startup beyond its two results.
- A closed connection inside the reply to a forward, which `network_server.c` does not tell from data; a forward to a dead backup has no effect, as there, and the primary goes on taking it to be up until it reads the end of the connection.
- A backup whose behaviour a cut message leaves undefined (a decoder that runs off its buffer, a negative table number, a key whose sum is negative, refused sizes, a HELLO it has no list for, an unknown opcode): it counts as dead, like one that prints a NULL message or whose read never returns.
- A key whose sum is negative but a multiple of the capacity: its hash is slot 0 of that one table, and the code stores it. Here no table takes it.
- Uninitialised counters in the resend loops: sending and receiving is one attempt that succeeds or fails.
- A wrong opcode in a message between servers, for which the code returns an uninitialised reply.
- The pass over all polled connections after `poll`, which does not look again at a place a client was shifted into.
- `Servers.Server.Serve`: holds the vector of tables by value, so in-place update of two servers at once is not modelled; the vector in place is `Skeletons.Skeleton`. A primary that dies inside the forward is the step CrashSending of `Replication`.
- `Servers.Server.Handle`: leaves the tables open once sizes are refused, as the code leaves a half freed vector behind.
- `NetworkServers.ReceiveSend`: one call, so its contract cannot say that the forward comes before the reply; in `Replication` the step Answer is enabled only after Forward.
- `TableSizes.AtoiText`: numbers are unbounded, the overflow of `atoi` is not modelled.
- `Dispatch.InvokeRefines`: leaves the collision counter and the order of listed keys open, as the maps do not determine them; `LockStep.CollisionsReply` and `CoalescedMap.EnumerationRefines` state them.
- `Framing.Connection.ReadAll`: a call that never returns is a result of its own, as every method here terminates.
- The command-line client, the stubs in `client_stub.c`, the table of the `print` command, and the tests.
