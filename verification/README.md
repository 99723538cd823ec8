# Verification of im_service

A Dafny model of the parts of im_service that must not go wrong: the message store of the `ims` server, the
message format it shares with the other servers, the journal from which group messages are delivered, the
subscription protocol between `im` and `imr`, and the caches and queues around them. The model is in the order

1. **Bytes, Protocol, Codec, WireFormat, Streams** - big-endian integers, the message format (`core/`), when decoding
   gives back what was encoded, the format byte by byte, and the encoders and decoders as they run on buffers.
2. **StorageFiles** - 128 MB block files, message ids made of block and offset, records framed by a magic
   number. A log is a sequence of blocks of messages; `LogOf` lists its entries with their ids and `BlockBytes`
   says what the files contain.
3. **Queues, Saving, Paging, Answers, PeerStorages, GroupStorages** - the linked queue of each user and group inside
   the log. `Queue` filters a queue out of a log; `Exec` and `Replay` are `execMessage` and the replay of a log;
   `PageOf` says which stretch of a queue one sync request returns, `Answer` what it delivers, message by message.
4. **Recovery, Storages** - index files, replay and repair after a restart, and the whole store.
5. **Replication, Batching, Syncing** - a slave rebuilding log and indexes from batches, the master's batching, and the
   connection between them.
6. **PendingJournal** - the journal of pending group messages, with its cursor, retries and truncation.
7. **Subscription, Outbound, Pushing, Relationships, LruCaches** - packed connection counts and the route
   server's view, the outgoing queue of a connection with its wakeup token, the batching of pushes, the cache of
   relationships, and the cache of block file handles.

Objects that the source updates in place are classes here, with methods of the same names; their contracts tie
the new state to a function of the old one, and the lemmas are about these functions.

Some of what the code and its comments suggest is not so, and the model keeps to the code:

- A message comes back from the wire only if it fits (`Codec.RoundTripIff`): nested frames of at most 32767
  bytes, at most 4091 members of a pending group message (the end of the list is computed in 16 bits), no
  `PrevMsgid` in an `AppMessage`, no timestamp in version 0.
- A pending group message with more than 4091 members is not read as it was saved. From 4092 to 8187 members the
  decoder panics on it, which nothing in `im` recovers from: the server ends, and ends again at each start, when it
  flushes the journal. From 8188 to 12283 members the message is read with bytes of the member list in its content,
  and delivered so (`PendingJournal.ReadJournalIff`, `PendingJournal.TooManyStick`, `PendingJournal.EvenMorePass`).
- A crash of `im` between emptying the journal and writing the cursor leaves the old cursor in force. While the new
  messages do not reach past it, nothing is sent. Later it may stand on a record, and hides what comes up to that one;
  or inside a record, and then nothing is sent, and the file not emptied, for good (`PendingJournal.OldCursor`,
  `PendingJournal.InsideRecord`, `PendingJournal.GroupMessageDeliver.FlushPendingMessage`).
- A chat message that a client of version 0 may send can get too long to be read from the store, because `im` encodes
  it with a timestamp (`StorageFiles.StampedTooLong`). Then the message does not load, and its record ends what
  replay finds in its block (`StorageFiles.LongRecord`, `Recovery.ExecFile`).
- `GetNewCount` accepts the record of a group whose number is the user's (`PeerStorages.OtherCounts`,
  `PeerStorages.NewCountMisleads`).
- Paging with a limit between 1 and 999 leaves out the oldest messages of a page that holds more than the
  limit; when it does is characterised (`Paging.PagingComplete`), and `Paging.SmallLimitLoses` is an example.
- A hard limit of 1000 or more that is smaller than the page size loses what exceeds the limit
  (`Paging.LowHardLimit`).
- The repair of the group index starts from a last id that the repair of users has already moved, and executes
  the record there again. `Storages.NewStorage` says exactly when each queue, and each index as a whole, is
  recovered; after an orderly stop the groups are, unless the last record of the log is a group's
  (`Storages.CleanRestartIff`, `Storages.GroupRestartFails`). From then on that group is misnumbered, in the log and in
  the next index file. Nothing said of another queue depends on it: the store's methods ask only for what holds of
  every store (`Sane`), and for a user they read to be right (`Right`). Of a group they return what can be reached from
  its last id (`Chain`): all of it, also when it was counted twice (`Known`), but for what a restart has passed over.
- The repair of users finds nothing in block 0 when the saved last id is 0 (`Storages.EmptyFilesRecover`,
  `Storages.EmptyFilesLose`).
- A replication batch carries only its first id. The counted ids are right exactly while the batch stays in one
  block, which the master does not see to (`Batching.BatchIff`, `Batching.LiveReplicationIff`).
- A saved message that is itself a queue record is executed by replay but not by the live server
  (`Queues.SaveReplayIff`).
- The packed counts of a user are right up to 65535 connections (`Subscription.PackedCountIff`); behind that the
  route server is told wrong things (`Subscription.PastTheLimit`).

## Model

| member | source | states |
|---|---|---|
| Codec.RoundTripIff | core/protocol.go:70-131 | of the messages with a modelled layout (chat, customer, notification, queue record, pending group, sync, push, routing and subscription bodies; other commands carry plain bytes), exactly those whose fields fit come back from `WriteMessage` through `ReceiveLimitMessage`, and exactly their frame is consumed |
| Codec.RoundTrip | core/protocol.go:92-131 | a message that fits is read back whole in front of anything that follows it, nested messages included |
| Codec.LongFrame | core/protocol.go:100-103 | a frame whose body reaches the limit is refused |
| Codec.Exact | core/protocol.go:92-131 | a stream that agrees with a frame as far as both go yields the message only if the frame is complete and the message fits |
| Codec.BodyRoundTrip | core/message.go:243-273 | the layout a command selects decodes what the body's own layout encoded |
| Codec.BodyExact | core/message.go:243-273 | a body that comes back has the command's layout and fits it |
| Codec.IMRoundTrip | core/message.go:393-455 | version 0 and version 1 bodies come back, but for the timestamp that version 0 does not carry |
| Codec.OfflineRoundTrip | core/storage_message.go:288-348 | queue records come back; the V3 layout does not carry the sequence number |
| Codec.PendingRoundTrip | core/storage_message.go:394-441 | a pending group message comes back exactly when it has at most 4091 members, because the end of the list is computed in int16 |
| Codec.PendingDecoded | core/storage_message.go:394-441 | exactly which member counts are refused, and what is read for every other one: the members the count says, and the content from the wrapped end of the list |
| Codec.EMessageRoundTrip | core/storage_message.go:113-156 | a nested message comes back with its id and device |
| Codec.AppRoundTrip | core/route_message.go:148-202 | a routed message comes back, without the previous id, which is not written |
| Codec.PushRoundTrip | core/route_message.go:68-136 | a push comes back with its receivers and its nested message |
| Codec.BatchRoundTrip | core/storage_message.go:164-201 | a batch comes back with all its messages in order |
| Codec.FramesRoundTrip | core/storage_message.go:174-199 | frames written one after the other are read back as the same messages |
| Codec.NestedExact | core/storage_message.go:131-156 | a nested frame comes back only if its length fits an int16 |
| WireFormat.BigEndian | core/protocol.go:51-56 | integers of two, four and eight bytes stand with the most significant byte first |
| WireFormat.ReadBigEndian | core/protocol.go:58-68 | and are read so, as signed numbers of their width |
| WireFormat.FrameBytes | core/protocol.go:51-74 | byte by byte what a frame is: length of the body, message number, command, version, flag, a zero, and the body |
| WireFormat.BodyBytes | core/storage_message.go:92-411 | where every field of a body stands, layout by layout: at which offset, in how many bytes, with which length |
| WireFormat.CommandsOfBodies | core/message.go:120-150 | which command numbers a message with each kind of body may have to come back |
| WireFormat.ShortBodies | core/storage_message.go:98-348 | from how many bytes on a body is decoded, command by command |
| WireFormat.ClientStream | core/protocol.go:104-111 | from a client, whatever the stream: a message is received exactly when it would be from a server and has one of the eighteen client commands |
| WireFormat.ClientMessages | core/message.go:191-208 | so a message that fits arrives from a client exactly when its command is one of these, by name and by number |
| WireFormat.ServerMessages | core/route_message.go:26-35 | and no message of routing, replication, the queues or the journal does, nor what only servers send to clients |
| Streams.WriteMessage | core/protocol.go:70-74 | the buffer is extended by exactly the message's frame |
| Streams.ToData | core/message.go:243-255 | every body is encoded in its layout, recursively |
| Streams.WriteIds | core/route_message.go:81-83 | the ids follow in order, eight bytes each |
| Streams.ReceiveLimitMessage | core/protocol.go:92-131 | the next message of the stream, or none under exactly the documented conditions; the stream moves past its frame only; from a client the same for the eighteen client commands, and none for any other |
| Streams.FromData | core/message.go:257-273 | the loops and nested reads compute the decoding function, and terminate |
| Streams.PendingFromData | core/storage_message.go:413-441 | the member loop with the int16 offset of the content |
| Streams.BatchFromData | core/storage_message.go:179-201 | reading `count` messages one after the other, failing as soon as one cannot be read |
| Streams.PushFromData | core/route_message.go:95-136 | the receiver loop and the nested message |
| StorageFiles.SplitMsgId | ims/storage_file.go:186-196 | block number and offset of an id are those it was made of, exactly for offsets inside a block |
| StorageFiles.ReadRec | ims/storage_file.go:212-241 | a record is read back whatever follows it |
| StorageFiles.ReadRecIff | ims/storage_file.go:212-241 | exactly the messages that fit and whose body is below 32768 bytes can be read again |
| StorageFiles.ReadMessageIff | ims/storage_file.go:212-241 | of any bytes, a record is read exactly where a message of at most 32 KB is received between the bytes of two magic numbers |
| StorageFiles.LongRecord | ims/storage_file.go:212-241 | a record with a longer body is not read, whatever follows it |
| StorageFiles.StampedTooLong | im/peer_client.go:189-190 | a chat message of version 0 is received exactly up to 32747 bytes of content, and what is saved of it read back exactly up to 32743 |
| StorageFiles.HeaderIsNoRecord | ims/storage_file.go:278-294 | the file header never reads as a record |
| StorageFiles.LoadEntry | ims/storage_file.go:243-261 | under every id of the log its message is read |
| StorageFiles.LoadNothing | ims/storage_file.go:243-261 | id 0 and negative ids give nothing |
| StorageFiles.EntryInBlock | ims/storage_file.go:312-354 | no record crosses a block or touches the header |
| StorageFiles.LogIncreasing | ims/storage_file.go:312-354 | ids grow by at least the size of the record before |
| StorageFiles.AppendLog | ims/storage_file.go:312-354 | appending keeps the blocks well formed and adds one entry at the end of the log, in the next block when the record does not fit |
| StorageFiles.BlockPassesCheck | ims/storage_file.go:98-131 | every file this server writes passes its own check at start |
| StorageFiles.CheckFileIff | ims/storage_file.go:98-131 | a file passes exactly when it is 32 bytes long, or longer and ends with the four bytes of the magic number |
| StorageFiles.Successor | ims/storage_file.go:312-354 | what follows an entry: the next record of the block, or the first of the next |
| StorageFiles.StorageFile.constructor | ims/storage_file.go:62-95 | opens what is on disk, or creates block 0 |
| StorageFiles.StorageFile.SaveMessage | ims/storage_file.go:312-354 | the message is the new last entry of the log under the returned id and is handed to the master; of the files only the last changes, by the record at its end, if that fits the 128 MB of a block, and otherwise one with a header and the record is added; the id is block times 128 MB plus offset |
| StorageFiles.StorageFile.LoadMessage | ims/storage_file.go:243-261 | right on every id of the log after any later saves, nothing for ids up to 0 |
| Queues.ReplayQueue | ims/peer_storage.go:738-768 | replay advances each queue's index by that queue's records only |
| Queues.ExecIs | ims/peer_storage.go:738-768 | what executing a message does by its command: V3 and V4 records move their user's index on, group records their group's, field by field, and all other messages change neither |
| Queues.IndexClosed | ims/peer_storage.go:132-140 | the index in closed form: last record, last peer record, last full batch, number of records |
| Queues.QueueStructure | ims/peer_storage.go:65-105 | a queue whose records continue its index is numbered 1..n and links to the record before, the last peer record before and the last full batch before; all links decrease. What the records of other queues are like does not matter |
| Queues.IndexWalks | ims/peer_storage.go:304-357 | from the live index the three kinds of links visit exactly all records, the peer records, and the ends of full batches, newest first, and end |
| Queues.QueueLoads | ims/peer_storage.go:304-340 | every record of a queue and its message can be read from the block files, as long as its records follow their messages |
| Queues.SaveLinks | ims/peer_storage.go:65-105 | a save keeps each queue of its kind linked, its own if the record continues its index |
| Queues.SaveBehind | ims/group_storage.go:59-90 | and behind their messages, whatever the index was |
| Queues.SaveQueue | ims/peer_storage.go:65-105 | a save adds one element to the end of its queue and leaves every other queue alone |
| Queues.RecordIsItem | ims/peer_storage.go:738-768 | every record of the log is an element of its owner's queue |
| Queues.SaveReplayIff | ims/peer_storage.go:65-105 | after a save the live index is what replay gives, exactly when the message is not itself a record of that kind |
| Queues.IndexInRange | ims/peer_storage.go:65-105 | the numbers of an index never overflow an int64 |
| Queues.IndexFits | ims/peer_storage.go:132-141 | a replayed index fits int64, however the records are linked |
| Saving.QueueSaved | ims/peer_storage.go:65-105 | a save to any queue keeps each queue of its kind right that was, and what can be reached of each grows by what was saved for it |
| Saving.ChainSaved | ims/group_storage.go:59-90 | what can be reached from the last id before a save can be reached after it, behind the new message: what a restart has passed over stays out for good, and nothing else |
| Saving.OtherKept | ims/peer_storage.go:738-768 | and leaves the queues of the other kind as they are |
| Saving.AllSaved | ims/peer_storage.go:65-105 | while all queues of a kind are right, a save keeps the live index what replaying the log gives |
| PeerStorages.PeerStorage.SavePeerMessage | ims/peer_storage.go:65-105 | appends message and record, returns the id and the id before, moves one index only: field by field, with flag 4 and outside the peer links for a message that is `MSG_GROUP_IM` or has flag bit 4, and with flag 0 and as the last peer message for any other; in any store each user who was right stays right, all together stay what replay gives, and the groups are not touched, unless the message is itself a queue record |
| PeerStorages.PeerStorage.SavePeerGroupMessage | ims/peer_storage.go:107-115 | every mention of a member adds one copy, with the sender's device, to the end of the member's queue, in list order, and nothing else is added; the result holds the id of each copy and the id of the member's message before it, 0 for a first |
| PeerStorages.PeerStorage.ValidIsRight | ims/peer_storage.go:65-105 | when the live index is what replay gives, every user is right |
| PeerStorages.PeerStorage.SetPeerIndex | ims/peer_storage.go:132-141 | replaces one index and raises the last id |
| PeerStorages.PeerStorage.FindBatches | ims/peer_storage.go:256-286 | finds the ends of the full batches above the key, as many as the hard limit allows |
| PeerStorages.PeerStorage.Collect | ims/peer_storage.go:304-357 | the walk returns the newest shown messages of its chain above the key, newest first |
| PeerStorages.PeerStorage.LoadHistoryMessagesV3 | ims/peer_storage.go:237-376 | for every user who is right, reading from the block files over links and batches returns exactly the page that is a slice of the queue, and the answer that `Answers.AnswerIs` describes message by message |
| Answers.AnswerIs | ims/peer_storage.go:304-376 | what that page is, message by message: every message delivered has one of the six commands and lies between the key and the page's end, newest first; every such message is delivered, unless it is older than a full page or, over the hard limit, a group message before the last |
| Answers.EndIs | ims/peer_storage.go:256-302 | where a page ends: with the batch that leaves the hard limit less a page, with the last of as many batches above the key as a page spans, or with the queue; and when only peer messages are read |
| Answers.MarkedGroups | ims/peer_storage.go:422-424 | the elements of a user's queue that count as group messages are exactly those whose message is `MSG_GROUP_IM` or has flag bit 4 |
| Answers.PeersOfSaves | ims/peer_storage.go:86-95 | the peer messages of a user are exactly the others |
| PeerStorages.PeerStorage.GetNewCount | ims/peer_storage.go:452-527 | for the id of any message of a user who is right, the number of messages saved after it, also across a block border; for any other id of the log nothing, unless it is a message of the group with the user's number, which, if that group is linked, counts exactly when it is early enough, by its place in the group |
| PeerStorages.OtherCounts | ims/peer_storage.go:500-526 | the same about the records in the log |
| PeerStorages.NewCountMisleads | ims/peer_storage.go:500-526 | the first message of such a group counts as the first of the user |
| PeerStorages.ReadNextEntry | ims/peer_storage.go:468-508 | the record after an id is found in its block or at the start of the next |
| PeerStorages.PeerStorage.ReadPeerIndex | ims/peer_storage.go:614-657 | reading an index file, right or not, gives the index it was written from, as far as int64 goes, and the largest last id in it |
| PeerStorages.PeerStorage.CreatePeerIndex | ims/peer_storage.go:529-564 | gives the index that replaying the whole log gives |
| PeerStorages.PeerStorage.RepairPeerIndex | ims/peer_storage.go:566-612 | replays what lies behind the record at the last id, or behind block 0 when that is 0 |
| Paging.PageComplete | ims/peer_storage.go:237-376 | with any limits, a page shows its whole stretch exactly when that has no more messages than the limit and, where only peer messages are read, no others but the last; without a hard limit a stretch is at most 1000 or the limit long |
| Paging.LargeLimits | ims/peer_storage.go:250-254 | limits of 0, 1000 and more are never exceeded |
| Paging.PagingComplete | ims/peer_storage.go:237-376 | with any limits, a run of requests on a growing queue collects all shown messages from the key on, in order, without gap or repeat, exactly when no page leaves out anything of its stretch; it is at the end exactly when the last page says so |
| Paging.PagingCollects | ims/peer_storage.go:237-376 | what it collects in any case: of adjoining stretches each page's window, cut to the limit |
| Paging.QueuesGrow | ims/peer_storage.go:65-105 | the queue of a user only grows while the log does, and stays linked as the paging lemmas ask |
| Paging.SmallLimitLoses | ims/peer_storage.go:348-350 | with a limit of 1, the older of two messages is never delivered |
| Paging.QuietRun | ims/peer_storage.go:237-376 | below the hard limit a complete run collects the whole rest of the queue |
| Paging.HardLimitRun | ims/peer_storage.go:288-302 | above the hard limit the first page holds peer messages only, save its last record; everything behind it is delivered; at most hard_limit + 999 messages in all for limits that are multiples of 1000 |
| Paging.HardStopRun | ims/peer_storage.go:288-302 | the same for no limit, where the first page is not bounded |
| Paging.LowHardLimit | ims/peer_storage.go:288-302 | a hard limit below the page size makes one page of all the rest, cut to the limit: complete exactly when the rest shows no more |
| Paging.ChainIsOk | ims/peer_storage.go:304-357 | the records a page walks are linked by exactly the links it follows |
| Paging.ChainAboveKey | ims/peer_storage.go:304-357 | the part of that chain above the key is the page's stretch of the queue |
| GroupStorages.GroupStorage.SaveGroupMessage | ims/group_storage.go:59-90 | appends message and group record, moves one group's index only, field by field; in any store each group that was right stays right, what can be reached of each group stays so and gets the new message, all together stay what replay gives, and the users are not touched |
| GroupStorages.GroupStorage.ValidIsKnown | ims/group_storage.go:59-90 | when the live index is what replay gives, every group is right, and the messages of a right group can be reached |
| GroupStorages.GroupStorage.ChainLoads | ims/group_storage.go:125-142 | what can be reached from the last id of a group can be read |
| GroupStorages.GroupStorage.Collect | ims/group_storage.go:125-162 | the walk stops at the key, at a message older than the member, or at the limit |
| GroupStorages.GroupStorage.LoadGroupHistoryMessages | ims/group_storage.go:117-165 | of the messages that can be reached from the last id, which are all of the group's, misnumbered or not, unless a restart has passed over some: the newest, newest first, back to the limit, to the key or, on a first request, to the last `MSG_GROUP_IM` with a timestamp before the join, and not beyond; one message even for limits below 1 |
| GroupStorages.GroupStorage.ReadGroupIndex | ims/group_storage.go:251-293 | the same for a file of groups |
| GroupStorages.GroupStorage.CreateGroupIndex | ims/group_storage.go:167-203 | gives the index that replaying the whole log gives |
| GroupStorages.GroupStorage.RepairGroupIndex | ims/group_storage.go:205-249 | replays from the record at the last id on, that record included |
| Recovery.CheckpointReplayIff | ims/peer_storage.go:566-612 | a checkpoint continued from some place gives the whole log's index exactly when no record lies between what it covers and that place |
| Recovery.QueueRecoversIff | ims/group_storage.go:205-249 | the same for one queue alone, whatever the others are like |
| Recovery.LastAfter | ims/group_storage.go:205-249 | its last message is known again exactly when none was passed over or the tail has a later one |
| Recovery.ChainAfter | ims/group_storage.go:205-249 | what can be reached after a restart: the chain of the file, or the one that ends with the last record found |
| Recovery.ExecFile | ims/peer_storage.go:585-611 | the loop over a block file executes its records from a position on until one cannot be read, and nothing behind that one |
| Recovery.ExecBlocks | ims/peer_storage.go:573-611 | the loop over block files executes the log from a place on |
| Recovery.SaveIndex | ims/peer_storage.go:678-736 | the file lists every queue once |
| Recovery.ReadIndex | ims/peer_storage.go:614-657 | reading in chunks of 1000 records restores exactly the index that was written |
| Recovery.ReadSaved | ims/group_storage.go:251-293 | reading the file of any index of the store, right or not, gives it back with its numbers as int64 |
| Recovery.IndexSaveable | ims/peer_storage.go:678-736 | a replayed index is written without loss |
| Recovery.FieldsReadBack | ims/peer_storage.go:640-652 | one index record is read back as written |
| Recovery.IndexFileBytes | ims/peer_storage.go:691-698 | the file byte by byte: 56 bytes for each user, 48 for each group, and which number stands where |
| Recovery.ReplayLastIds | ims/peer_storage.go:132-141 | the largest last id of a replayed index is the id of the log's last record of that kind |
| Recovery.RepairSkips | ims/peer_storage.go:602-604 | leaving out the record at the last id is replay from the one behind it |
| Storages.Storage.NewStorage | ims/storage.go:36-64 | over the disk of any store, whatever earlier restarts have made of its queues: each queue that its file had right is right again, and each whose last message it knew is known again, exactly under its own condition; each index as a whole, from the file of one that was right, exactly under its condition; with right users, or right queues throughout, the store is so again |
| Storages.Storage.AfterRecovery | ims/storage.go:36-64 | why: what the recovered indexes and the last id are for every queue |
| Storages.Storage.RecoverIndexes | ims/storage.go:40-60 | reading, repairing and creating in that order, with the shared last id: the indexes are the files' ones continued by replay, or replayed from scratch |
| Storages.Storage.ReadIndexes | ims/storage.go:43-45 | the indexes become those the files were written from, the last id the largest in them |
| Storages.Storage.FlushIndexFiles | ims/storage.go:232-242 | both files now hold the current indexes, right or not; an orderly stop keeps the store as right as it was |
| Storages.Storage.FlushIndex | ims/storage.go:244-252 | files are written exactly when the log has grown by more than two blocks since |
| Storages.Storage.SavePeerMessage | ims/peer_storage.go:65-105 | in any store, a save keeps every user and every group right that was, and all users, or all queues, if they all were, unless the message is itself a queue record |
| Storages.Storage.SaveGroupMessage | ims/group_storage.go:59-90 | the same for a message of a group |
| Storages.Storage.ExecMessage | ims/storage.go:76-85 | both indexes take the entry, and the last id is raised by either kind |
| Storages.Storage.SaveSyncMessage | ims/storage.go:102-140 | the files, indexes and last id become what the step function says; a following message keeps a replica well formed, its users right if they and the master's are, and its groups too |
| Storages.Storage.WriteSync | ims/storage.go:102-136 | writes at the master's offset, opening the next block if that is where it is, and pads with zeros; skips what is there already or too far ahead |
| Replication.SyncWritesIs | ims/storage.go:102-136 | in bytes: a message is written exactly at or behind the end of the last file, or in the next block behind its header, at its own offset, with zeros up to there and nothing else changed, and loads under its id |
| Storages.Storage.SaveSyncMessageBatch | ims/storage.go:87-100 | any slave that has the master's log to some place, given a batch of one block that leaves out nothing, has the master's blocks and log as far as the batch goes; each queue whose numbers it had it still has; its users, or all its queues, are right if they were and the master's are; an old batch changes nothing |
| Storages.SyncBatchSame | ims/storage.go:87-140 | what a batch does to the files does not depend on the indexes, nor what it does to one queue on the others |
| Storages.Storage.ApplyBatch | ims/storage.go:87-100 | the messages are applied under ids counted up from the first |
| Storages.ContinuesImage | ims/storage.go:87-140 | what such a batch leads to is the state of a well-formed store with a longer log, linked as far as the master's is |
| Storages.IndexRepaired | ims/storage.go:36-64 | the conditions are necessary and sufficient, for each queue and for each index |
| Storages.LastIdRecovered | ims/storage.go:36-64 | with both indexes right the last id is that of the log's last record |
| Storages.FlushedPeersRecover | ims/storage.go:36-64 | from the file of right users, if one of the files had seen a record, the users' index is always recovered: also when the server stopped between writing the two files, and whatever the numbers in the groups' file are |
| Storages.CleanPeersRecover | ims/storage.go:227-242 | after an orderly stop it is, however often the server restarts and whatever becomes of the groups |
| Storages.EmptyFilesRecover | ims/peer_storage.go:566-589 | from index files without a record it is recovered exactly when block 0 holds no user's record |
| Storages.EmptyFilesLose | ims/peer_storage.go:566-589 | one message saved after empty index files, then a crash: it is not recovered |
| Storages.CleanRestartIff | ims/group_storage.go:205-249 | after an orderly stop the groups' index is recovered exactly when no group's record comes last |
| Storages.CountedTwice | ims/group_storage.go:205-249 | otherwise the last group record is executed a second time, and its group numbered one too high |
| Storages.GroupRestartFails | ims/group_storage.go:205-249 | one group message, an orderly stop, a start: the index is not recovered, and the next message of the group will be numbered 3 |
| Replication.SyncNext | ims/storage.go:102-140 | the next message of the block brings the replica to the next place |
| Replication.SyncNextBlockIff | ims/storage.go:102-140 | a message becomes the first of the next block exactly under the id right behind that block's header |
| Replication.SyncOld | ims/storage.go:102-140 | a message the replica has changes nothing |
| Replication.ReplicaFollows | ims/storage.go:87-140 | any in-order run of single-block batches, with overlaps and redeliveries, leaves the files byte-identical to the master's log up to the furthest batch and the indexes those of that log |
| Replication.SyncFollows | ims/storage.go:102-140 | a following message keeps the files those of a well-formed log |
| Batching.Master.SendBatch | ims/storage_sync.go:122-138 | the batch carries first and last id and the messages of the cache, in order; an empty cache sends nothing |
| Batching.Master.Run | ims/storage_sync.go:140-173 | however messages and timeouts come, batches and cache together are the stream received, each batch 1 to 1000 messages; at every timeout the batches alone are all that has come, and when the second is over all that came before; a batch of fewer than 1000 ends with such a turn |
| Batching.CountIds | ims/storage.go:87-100 | counting up from the first id gives the ids of a stretch of the log exactly when it lies in one block; otherwise it falls behind by a header at least |
| Batching.BatchIff | ims/storage.go:87-100 | the batch that follows brings a slave to its end exactly when it lies in one block |
| Batching.LiveReplication | ims/storage_sync.go:203-217 | a slave applying batches, each within one block, has the log as far as it was batched, byte for byte, and its indexes |
| Batching.LiveReplicationIff | ims/storage_sync.go:140-217 | a slave stays in step through all batches exactly when none crosses a block |
| Syncing.BatchArrives | core/protocol.go:142-145 | a batch of up to 1000 messages of a store stays below the limit of the connection and is received as it was sent |
| Syncing.WireFrames | ims/storage_sync.go:66-82 | the connection carries the batches in order, the k-th as a frame under the k-th number |
| Syncing.PackedIs | ims/storage_sync.go:122-138 | what a batch is sent as |
| Syncing.RunOnce | ims/storage_sync.go:200-218 | the slave's loop leaves its store in the state that applying all messages of the connection leads to |
| Syncing.SlaveAppliesBatches | ims/storage_sync.go:200-218 | over the wire the slave does what applying the master's batches one by one does |
| Syncing.OneArrives | ims/storage_sync.go:203-217 | a single message is applied under the id it carries; a message with a command of neither kind changes nothing |
| Syncing.TooLong | core/protocol.go:142-145 | a message of 32 MB or more ends the connection |
| Syncing.MasterToSlave | ims/storage_sync.go:140-218 | from the master's loop over the wire to the slave's files and indexes: however messages and timeouts came, the slave is in step after every batch exactly when no batch crosses a block; then, after a timeout, it has all that was saved |
| PendingJournal.ReadJournalIff | im/group_message_deliver.go:199-242 | nothing is read exactly of a message that is too long or whose member count is refused; reading panics exactly on a short one whose count is refused; a message is read unchanged exactly up to 4091 members; any other is read as a different one, over its full record |
| PendingJournal.ReadJournalBytes | im/group_message_deliver.go:199-242 | of any bytes, a record is read exactly where a message of at most 1 MB is received behind a magic number and a length, and followed by a length and a magic number |
| PendingJournal.JournalBytes | im/group_message_deliver.go:293-323 | a record byte by byte: magic number, length, message, length, magic number |
| PendingJournal.RefusedCounts | core/storage_message.go:413-441 | counts up to 4091 are read, 4092 to 8187 refused, 8188 to 12283 read again |
| PendingJournal.TooManyStick | core/storage_message.go:437-438 | reading a message to 4092 members panics |
| PendingJournal.EvenMorePass | core/storage_message.go:430-438 | a message to 8192 members is read with the bytes of the member list in front of its content |
| PendingJournal.UnreadIs | im/group_message_deliver.go:508-511 | a record that cannot be read is always behind the cursor, which never passes one |
| PendingJournal.ReadAtStart | im/group_message_deliver.go:482-510 | reading at a record's offset gives what its message decodes to, or panics exactly where decoding does; at the end nothing |
| PendingJournal.LastRecord | im/group_message_deliver.go:173-197 | the end of the file tells where its last record starts |
| PendingJournal.SendGroupMessage | im/group_message_deliver.go:426-480 | succeeds exactly when all storage servers concerned answer, and then every member has one copy; a failure leaves at most some; what is saved is the chat message of the group with the sender, time and content of the pending one |
| PendingJournal.GroupMembers | im/group_message_deliver.go:432-441 | the members of each storage server, in list order |
| PendingJournal.GroupMessageDeliver.SaveMessage | im/group_message_deliver.go:367-385 | appends one record, byte by byte, whose id is its offset |
| PendingJournal.GroupMessageDeliver.ReadLatestMessageID | im/group_message_deliver.go:173-197 | after any saves, the offset of the last record, or 0 |
| PendingJournal.GroupMessageDeliver.Restart | im/group_message_deliver.go:92-132 | a restart keeps all that matters; after a crash inside the truncation it takes up the old cursor |
| PendingJournal.GroupMessageDeliver.Deliver | im/group_message_deliver.go:512-529 | one delivery: the cursor moves only after all members that were read have their copy |
| PendingJournal.GroupMessageDeliver.OneTurn | im/group_message_deliver.go:499-529 | one turn of the loop: skips what the cursor has passed, or tries the next message, or stops |
| PendingJournal.GroupMessageDeliver.SendPendingMessage | im/group_message_deliver.go:482-530 | delivers from the cursor on in save order and stops at the first failure or unreadable record, and only there, whatever other threads save between the reads; a record whose count is refused ends the process. Where nothing can be read at an old cursor, nothing is sent |
| PendingJournal.GroupMessageDeliver.TruncateFile | im/group_message_deliver.go:532-541 | with nothing unsent, emptying the file loses nothing; if the process dies before the cursor is written, the file is empty and the old cursor stays |
| PendingJournal.GroupMessageDeliver.Hide | im/group_message_deliver.go:489-515 | an old cursor on a readable record of the new file hides exactly the messages up to that one; all behind them are delivered as ever |
| PendingJournal.OldCursor | im/group_message_deliver.go:489-510 | where an old cursor stands that is not past the last message, and that nothing can be read there, now or later, if it is on an unreadable record, or inside one and not on the magic number |
| PendingJournal.InsideRecord | im/group_message_deliver.go:205-216 | a real input: behind any messages, a cursor 100 bytes into a record with 1000 zero bytes of content is not past the last message and blocks the journal |
| PendingJournal.SavedAgain | im/group_message_deliver.go:489-515 | another: the same messages saved again, the old cursor stands on the last of them |
| PendingJournal.GroupMessageDeliver.FlushPendingMessage | im/group_message_deliver.go:543-566 | no message is lost, also with messages saved by others between any two reads and before the lock, unless the process dies inside the truncation; the file is emptied only when nothing in it is unsent. With an old cursor past all messages, or where nothing can be read, nothing is sent and the file not emptied; where something is unsent, all of it is delivered up to the first record that is never read or whose attempt fails, by the first sending or, with the cursor past 128 MB, the second; without a crash the file is emptied exactly when the first sending leaves the cursor past 128 MB and all is sent |
| PendingJournal.GroupMessageDeliver.SendAndTruncate | im/group_message_deliver.go:551-565 | what it does under the lock: sends what has come since, and empties the file exactly when all is sent |
| PendingJournal.AllDelivered | im/group_message_deliver.go:482-530 | first deliveries in save order mean that everything below the mark reached has been delivered |
| PendingJournal.FirstDeliveries | im/group_message_deliver.go:482-530 | before a message is delivered for the first time, every earlier one has been |
| PendingJournal.LatestIsLast | im/group_message_deliver.go:543-562 | the cursor equals the latest id exactly when everything is sent |
| Subscription.PackedCountIff | im/channel.go:67-89 | one more connection is counted rightly exactly below 65535 |
| Subscription.PackedRemovalIff | im/channel.go:91-119 | one connection less is counted rightly exactly when there is one of its kind |
| Subscription.SubscribeShows | im/channel.go:138-156 | what is told on a subscription keeps the route server's view right |
| Subscription.UnsubscribeShows | im/channel.go:158-172 | the same when a connection ends |
| Subscription.TellsChange | im/channel.go:138-172 | and something is told exactly when that view changes |
| Subscription.RepeatSuffix | im/channel.go:297-349 | hearing the last messages again changes nothing |
| Subscription.ReconnectConverges | im/channel.go:264-349 | a snapshot of the users at one time and of the rooms at another, followed by any messages still queued, give the same view as all messages in order |
| Subscription.Channel.AddSubscribe | im/channel.go:67-89 | returns the counts before and counts the connection, rightly exactly below 65536 |
| Subscription.Channel.RemoveSubscribe | im/channel.go:91-119 | returns the counts before and takes the connection off; the counts stay right exactly unless the user has connections but none of this kind |
| Subscription.Channel.Subscribe | im/channel.go:138-156 | from right counts, what the route server has been told stays right, for the first connection past the limit too, and the counts exactly up to 65535 of a user; something is told exactly when the view changes |
| Subscription.PastTheLimit | im/channel.go:67-89 | behind the limit it does not: with 65536 online connections the next one that is not online is told as a new user's |
| Subscription.Channel.Unsubscribe | im/channel.go:158-172 | after a connection has ended all stays right, exactly unless the user has connections but none of its kind; something is told exactly when the view changes |
| Subscription.Channel.SubscribeRoom | im/channel.go:191-247 | the same for the members of a room |
| Subscription.Channel.UnsubscribeRoom | im/channel.go:206-257 | the same after a member has left |
| Subscription.Channel.ReSubscribe | im/channel.go:264-284 | gives a fresh route server the users of the current view |
| Subscription.Channel.ReSubscribeRoom | im/channel.go:286-295 | gives it the rooms of the view at its own time |
| Subscription.Route.HandleSubscribe | imr/client.go:115-122 | the route server applies exactly what it is told |
| Subscription.Route.HandleUnsubscribe | imr/client.go:124-130 | the same |
| Subscription.Route.IsUserOnline | imr/route.go:50-55 | present and marked online |
| Outbound.Connection.Push | im/connection.go:134-150 | the queue is the newest 1000 of what was in it, or had come since it was last drained, and the new messages |
| Outbound.Connection.EnqueueNonBlockContinueMessage | im/connection.go:120-163 | refused exactly on closed or blocked connections; otherwise the message is queued and the writer signalled |
| Outbound.Connection.SendMessages | im/client.go:305-336 | empties the queue and sends it in order: each message under the number of its place and the connection's version, with its flag and body, its metadata right before it under the number before |
| Outbound.Numbered | im/client.go:319-333 | frames are numbered without gaps, metadata included |
| Outbound.NumberingDelivers | im/client.go:319-333 | the frames carry exactly the messages in order, each behind its own metadata |
| Outbound.FramesOf | im/client.go:319-333 | the frames one by one: which number, version and content the frame of each message and of its metadata has, and that there are no others |
| Outbound.AllRuns | im/connection.go:120-163 | in every interleaving of enqueuers and writer: a waiting message has a wakeup on the way, the queue is the newest 1000 since the last drain, and what was sent is what was kept of all that was enqueued |
| Outbound.KeptIff | im/connection.go:134-150 | nothing is dropped exactly when no stretch between two drains exceeds 1000 |
| Outbound.QueueDrains | im/client.go:305-336 | once messages stop coming every run is short and ends with an empty queue, all kept messages sent |
| Pushing.Run | imr/push.go:149-223 | in whatever way pushes, pauses and the closing nil come, the batches hold 1 to 1000 pushes and are, with the one being filled, all that came before the nil, in order; then nothing is kept back, nor after two receives in a row that met nothing; a batch of fewer than 1000 ends with the nil or the second such receive since its first push |
| Pushing.Fill | imr/push.go:167-219 | either inner loop adds what comes until the batch is full, nothing comes, or the channel is closed |
| Relationships.ReverseTwice | im/relationship.go:64-66 | turning a relationship swaps the two users and is its own inverse |
| Relationships.RelationshipPool.GetRelationship | im/relationship_pool.go:86-124 | each of two users is told the pair's edges from their own side; nothing else changes |
| Relationships.RelationshipPool.SetMyFriend | im/relationship_pool.go:126-142 | changes one directed edge, if its pair is cached, and no other |
| Relationships.RelationshipPool.SetYourFriend | im/relationship_pool.go:144-161 | the same for the edge of the other user; the mutual calls terminate |
| Relationships.RelationshipPool.SetInMyBlacklist | im/relationship_pool.go:163-179 | the same for the blacklist |
| Relationships.RelationshipPool.SetInYourBlacklist | im/relationship_pool.go:181-197 | the same for the blacklist of the other user |
| Relationships.RelationshipPool.Recycle | im/relationship_pool.go:199-220 | exactly the items not used for an hour go, and the count stays right |
| Relationships.EventKeepsAgreement | im/relationship_pool.go:230-255 | a cache that agrees with the edges still does after an event |
| Relationships.LookupKeepsAgreement | im/relationship_pool.go:86-124 | and after loading a pair |
| Relationships.BothViews | im/relationship_pool.go:86-124 | both users of a pair are told the same edges |
| LruCaches.CacheIsRecency | lru/lru.go:56-71 | after any additions the cache is the recency order of everything ever added, cut to its size |
| LruCaches.RequestsAreRecency | ims/storage_file.go:198-210 | after any requests for block files, hits, misses and files that cannot be opened, the cache holds the blocks served in the order of their last use, cut to its size |
| LruCaches.GetFile | ims/storage_file.go:198-210 | a cached handle moves to the front; otherwise the opened file is returned and cached |
| LruCaches.Cache.Add | lru/lru.go:56-71 | the pair comes first; what goes over the limit, and only that, is evicted, once |
| LruCaches.Cache.Get | lru/lru.go:74-83 | a hit returns the pair's value and comes first; a miss changes nothing |
| LruCaches.Cache.Remove | lru/lru.go:86-93 | the key is gone and its pair evicted, if there was one |
| LruCaches.Cache.RemoveOldest | lru/lru.go:96-104 | the last pair of a cache that is not empty is evicted |
| LruCaches.Cache.RemoveElement | lru/lru.go:106-113 | list and map lose the same entry, with one eviction |

## Left out

- Codec.RoundTripIff: the bodies of other commands (voice calls, acknowledgements, client sync keys, tokens and the
  like) are plain bytes here, so their own refusals, as of a voice call without content or a token over 127 bytes,
  do not show. `Message.Meta` exists for the outgoing queue only. A nil nested message, for which the encoders
  return nothing, is not a message here, and a decoder that panics (a negative length) is a failed decoding.
- Legacy queue records (`MSG_OFFLINE`, `MSG_OFFLINE_V2`, `MSG_GROUP_IM_LIST`) restart the sequence numbers; a log
  with them is not a log of this model. V3 records are executed by replay but not written.
- StorageFiles.StorageFile.SaveMessage: asks for a message that the store can read again, which ReadRecIff
  characterises, and for fewer than 2^36 blocks, behind which ids leave int64; the source checks neither. LongRecord
  and Recovery.ExecFile say what a longer one does to its block.
- PeerStorages.PeerStorage.SavePeerMessage: the same.
- GroupStorages.GroupStorage.SaveGroupMessage: the same.
- Storages.Storage.SavePeerMessage: the same.
- Storages.Storage.SaveGroupMessage: the same.
- StorageFiles.StorageFile.LoadMessage: says nothing about positive ids that are not ids of the log.
- PeerStorages.PeerStorage.GetNewCount: the same; and nothing about a user who is not right.
- PeerStorages.PeerStorage.LoadHistoryMessagesV3: takes limits that are not negative, and users who are right: not
  those that `NewStorage` says a restart has not recovered.
- The numbers of messages in a live index are not wrapped at 2^63, only in records and files.
- PeerStorages.PeerStorage.SavePeerGroupMessage: the saves of one call are not interleaved with others.
- Storages.Storage.SaveSyncMessage: zero padding after a gap is modelled byte by byte, but a replica with such a
  gap is not a valid store.
- The file handles of blocks, `dirty` and flushing to disk, short reads and disk errors: a failing disk stops the
  process. Deleted old blocks and `ims/truncate.go` are not modelled.
- Catch-up over several blocks (`LoadSyncMessagesInBackground`) compares later blocks with the offset in the first
  and is not modelled; only live batches are.
- `LoadHistoryMessages` (the older paging) and `LoadLatestMessages` would add easier members of the same kind.
- A group's index has no last peer id; the model uses one record type for both with that field at 0.
- PendingJournal.GroupMessageDeliver.SaveMessage: the length of a message fits its int32.
- PendingJournal.GroupMessageDeliver.FlushPendingMessage: with an old cursor inside a record, on bytes that look like
  the magic number, the source reads whatever follows as a message; this is not modelled.
- PendingJournal.SendGroupMessage: pushing to connected clients, the callbacks and the wakeup channel are left out;
  a delivery is what the storage servers keep.
- Subscription.Channel.Subscribe: telling the route server is one step with the counting; in the source other
  connections may come between.
- The two-level maps of applications and users are one map with pairs as keys.
- Outbound: the channels of single messages and of message lists (`wt`, `pwt`), timeouts and closing.
- Relationships: the database and the event stream; a pair of a user with itself is only kept, not explained.
- LruCaches: keys and values are integers, as for block numbers; only equality of keys matters.
- Pushing.Run: what becomes of a batch in Redis. Rooms of clients, customer service, groups and
  authentication, sockets, RPC, HTTP, Redis, MySQL and configuration are not modelled.
