# Message replication of the iMessage plugin, in Dafny

The daemon `imsg-sync` keeps a SQLite cache of the chats of a Mac server and serves it on a Unix
socket; the plugin shows what it is sent. Messages come from a poll loop and from a webhook, at least
once and in any order; a client gets a snapshot and then events, and merges them with pages of history
and with messages it is still sending. This project models the state kept between these pieces and
proves what it keeps over every run.

| file | part of the system |
|---|---|
| `Prelude`, `Text`, `Decimal`, `Query` | options and finite sets; the order of strings; decimal integers; `ORDER BY ... DESC LIMIT` |
| `Domain`, `Documents` | records of the server; the JSON documents of the cache and the merge of two versions of a message |
| `Tables`, `Unread`, `Identities` | the tables and their statements; unread counts; ids for guids |
| `Delivery`, `Conservation`, `Rows` | messages and chats from the server: convergence of deliveries; unread counts over every run; what the rows hold |
| `Cache`, `Naming`, `Serving` | the cache as an object with its passes; what the passes do to names; `list_messages` up to what the client shows |
| `Contacts` | the contact book |
| `Polling`, `RateLimit`, `Framing` | the poll loop, the limit of the webhook, the event reader of the plugin |
| `Session`, `Broadcast` | reconnects and the session loop; subscribing to events beside writers |
| `Timeline`, `Paging`, `ListModel`, `ChatList` | message lists, "load older", in-place reconciliation, the chat list and its badge |
| `Outgoing`, `SendQueue`, `History` | the outgoing queue and the history request of the plugin |

Where the source changes state, a class has its fields and methods, and each method's contract ties the
new state to a function on values (`Step`, `StoreChat`, `ApplyLive`, ...). The laws are lemmas about
sequences of such steps. Concurrent parts are step machines: a run is any interleaving of the atomic
steps. `dafny verify dfyconfig.toml` checks everything.

Constants without a value stand for anything: the digest behind `stable_id` (so collisions are covered),
the alphabetic characters of Unicode, SQLite's reading of JSON values that are neither integers nor text.

Where the code does less than one might expect, the exact condition is proved instead:

- Paging with "load older" asks for messages strictly before the oldest time shown. It reaches the whole
  history if and only if no page boundary falls between messages of the same time and, beyond one page,
  every message has a time (`Paging.PagingIsComplete`). Otherwise some message is never shown, as with
  201 messages of one time (`Paging.SameTimesAreNeverShown`).
- First sends of the poll follow the order of the log unless the server's entry could not be read at
  first: the older of two entries goes out first if and only if some round up to the first send of the
  newer one read it (`Polling.FirstSendsInOrder`, `Polling.UnreadableIsOvertaken`).
- `id_for_guid` returns if and only if the guid is known, its digest is free, or the largest id is below
  2^63-1 (`Identities.AloneReturns`, `Identities.AloneLoops`, `Identities.AllocationCanFail`).
- `appendMessage` equals the sorted merge if and only if the new payload still belongs where the old one
  stands (`Timeline.AppendIsMerge`, `Timeline.AppendCanDiffer`).
- The event reader can fail on a stream if and only if some frame, with what one read can bring after it,
  passes 16 MiB; frames of up to 16 MiB - 65535 bytes never do (`Framing.SizeErrorPossible`,
  `Framing.BoundIsSharp`).
- Every name that a lookup in the contact book finds was recorded for the same address, in whatever
  spelling, if and only if that address spells a number of ten digits, or 1 and ten
  (`Contacts.SoundForNumbers`). Any two addresses with the same digits share a key
  (`Contacts.SameDigitsShareAKey`): e-mail addresses without digits, and also bob1@x.com and amy1@y.com.

## Model

| member | source | states |
|---|---|---|
| Polling.SendsExactlyTheChanges | sync/src/bb.rs:461-487 | over every run of polls on a growing log edited in place, each round sends exactly the entries of its window whose payload differs from the one read last, oldest first: the FIFO of 2000 does the work of an unbounded map |
| Polling.EveryEntryIsSent | sync/src/bb.rs:461-477 | no entry from the first window on is missed: it lies in the window of the first round after it arrived, which sends it if it can be read then; and it is sent up to a round exactly if some round up to then finds it readable in its window |
| Polling.FirstSendsInOrder | sync/src/bb.rs:276-293 | of two entries that are sent, the first send of the older one goes out before that of the newer one, in an earlier round or earlier in the same one, if and only if some round up to the first send of the newer one finds the older one readable in its window |
| Polling.ReadableGoesFirst | sync/src/bb.rs:461-477 | so an entry that can be read when it arrives is sent before every entry after it: its first send precedes each send of theirs |
| Polling.UnreadableIsOvertaken | sync/src/bb.rs:286-291 | one that cannot be read when it arrives can be overtaken: a log of two entries where the newer one is sent first |
| Polling.RoundInOrder | sync/src/bb.rs:466-467 | within one round messages are sent in the strict order of the log, so no guid twice |
| Polling.UneditedSentOnce | sync/src/bb.rs:479-487 | an entry that a round sent, and that has the same payload in every reading from then to a later round, is not sent by that later round under its guid |
| Polling.EditedIsSent | sync/src/bb.rs:479-487 | a round sends an entry that was read before exactly if its payload is another one than at the last reading: each observed change goes out once |
| Polling.SendsIff | sync/src/bb.rs:461-487 | the output of a round holds an entry exactly if the round reads it for the first time or with another payload than before |
| Polling.ChangesMeaning | sync/src/bb.rs:466-487 | a message is sent in a round exactly if it is in the window with another payload than the one read last, or was never read |
| Polling.EvictsOnlyOld | sync/src/bb.rs:484-485 | what the bound of 2000 evicts is never an entry that is still in the window, nor one that can come back into it |
| Polling.FewShareAWindow | sync/src/bb.rs:479-487 | over every sequence of logs fewer than 400 different entries ever share a window of 200 with a given one (the pigeonhole behind the bound) |
| Polling.Poller.RememberMessage | sync/src/bb.rs:479-487 | in place: the new FIFO and the answer are those of the specification, on every FIFO |
| Polling.Poller.PollRound | sync/src/bb.rs:464-472 | one round of the loop sends, and leaves in the FIFO, what the specification says for its window |
| Delivery.DeliveriesConverge | sync/src/cache.rs:272-307 | from an empty cache, after any sequence of deliveries with any repetitions, each chat's unread_count is the number of different inbound guids delivered to it (up to 2^63-1) and last_message_at the latest non-empty time among them |
| Delivery.RunConverges | sync/src/cache.rs:272-307 | after any such sequence every chat and message row stands for something delivered, every chat and guid delivered has its row, and columns agree with documents |
| Delivery.OrderDoesNotMatter | sync/src/cache.rs:272-307 | two deliveries of the same set of messages, in any orders and with any repetitions, agree on both for every chat |
| Delivery.DeliveryConverges | sync/src/cache.rs:272-307 | one more delivery keeps that: a redelivered guid is not counted twice and moves no time backwards |
| Delivery.InboundCount | sync/src/cache.rs:399-426 | a delivery adds one to the number of inbound guids of its chat exactly if it is inbound and its guid is new |
| Delivery.LatestGrows | sync/src/cache.rs:681-688 | later_timestamp keeps the latest time of the set delivered |
| Delivery.GuidsInvert | sync/src/cache.rs:213-229 | after any run of upsert_domain_chat, upsert_domain_message, apply_domain_message and mark_read from an empty cache, with parsed guids, guid_for_chat_id undoes id_for_guid for every guid there is |
| Delivery.DomainRunKeeps | sync/src/cache.rs:259-307 | every database so built has agreeing columns, chats under the id of their guid, trimmed guids and 64-bit ids: all that open is asked to find |
| Delivery.RunKeepsGuids | sync/src/cache.rs:363-391 | over every run of statements that make chats only under the id of their guid, passes included, each chat row carries the guid that its id was given to |
| Delivery.ChatsAreDomestic | sync/src/cache.rs:259-263 | chats of the server, and stubs, are made under the id of their guid |
| Rows.PersonOfMeaning | sync/src/cache.rs:295-304 | a chat gives its senders a name exactly if it is no group and one of contact_name, display_name, name names a person, and then it is the first such |
| Rows.DeliveredDocument | sync/src/cache.rs:272-307 | every delivery merges into the row of its guid a document with the text, time, side, sender and attachments that the server gave; its sender_name is the one given in a group, and when that names a person; otherwise the first title of the chat that names a person, if there is one |
| Rows.FirstDelivery | sync/src/cache.rs:613-647 | the row of a message delivered for the first time has these in its columns, each where it belongs, and an empty time unset |
| Rows.ServerChat | sync/src/domain.rs:160-187 | storing a chat of the server writes the row of its guid's id and no other: a new one holds what the server said column by column, one that was there takes its time and its title, keeps the name of a person against anything else, and keeps its count, guid, identifier, service and participants |
| Rows.StubbedChat | sync/src/domain.rs:121-151 | a chat first known by a message is identified by the sender, titled by the sender's name if that names a person, and a group exactly if its guid has ";+;" in it |
| Rows.OperationReturns | sync/src/cache.rs:259-307 | storing a chat or a message of the server, and a delivery, return exactly if for each guid they name, in turn, the guid is known, its digest is free, or all ids in use are below 2^63-1; marking as read always does |
| Tables.ProjectionsAgree | sync/src/cache.rs:333-456 | in every state reachable by the cache's statements the columns of a message are the fields of its raw_json, and a chat's unread_count, last_message_at and name are those of its raw_json |
| Tables.StepAgrees | sync/src/cache.rs:239-456 | every single statement keeps that agreement, from any agreeing database |
| Tables.RepairChangesNothing | sync/src/cache.rs:309-331 | repair_message_projections is the identity on such states |
| Tables.RepairedProjects | sync/src/cache.rs:309-331 | a row found with an unset chat or time gets the chat, the time and the side that its document says, whenever the document has them, and needs no further repair |
| Tables.RepairMeaning | sync/src/cache.rs:309-331 | on any tables the repair changes exactly the rows with a chat or time unset that their document has a value for; of those it takes chat, time and side where the document has one, and no other column |
| Tables.ChatIdentity | sync/src/cache.rs:383-390 | storing a chat gives its guid the id of its row, unless the guid or the id is taken, and adds no other identity |
| Tables.RepairTwice | sync/src/cache.rs:309-331 | on any rows a second repair changes nothing more |
| Tables.MessageIsAFold | sync/src/cache.rs:393-405 | over every run of statements, renames included, a message has a row exactly if some document was stored for its id, and every field but sender_name is the fold of those documents in order |
| Tables.DocumentIsAFold | sync/src/cache.rs:393-405 | and where each rename is to the name of a person, as the passes' are, the whole raw_json is the fold of those documents with each rename as a document of its own in between |
| Tables.ColumnsAnswerForDocuments | sync/src/cache.rs:458-500 | filtering and sorting by columns gives the answer that scanning the documents would give |
| Tables.NamesNeverRegress | sync/src/cache.rs:341-362 | over every run a chat title, or a sender name, that is the name of a person is one in every later state |
| Tables.MergedAgrees | sync/src/cache.rs:613-679 | a merged document projects to agreeing columns: it never holds an unusable chat_id or time |
| Unread.CountIsConserved | sync/src/cache.rs:239-456 | in every run of statements a count is the base of its last reset (the server's count of a new chat, or 0 after mark-read) plus the inbound messages that the live path was the first to store since, saturating at 2^63-1 |
| Unread.CountedAreDistinct | sync/src/cache.rs:399-426 | the messages so counted are different ones |
| Unread.KeysOfRun | sync/src/cache.rs:613-629 | a message or chat has a row exactly if some statement stored it |
| Conservation.PerformedIsRun | sync/src/cache.rs:259-307 | every operation on a chat or message of the server is a sequence of the cache's statements, none of them a rename, so every law over runs of statements holds of it |
| Conservation.DomainRunKeepsNames | sync/src/cache.rs:341-362 | over every run of such operations, between any two of its states, columns agree and names of persons stay names of persons |
| Conservation.UnreadIsConserved | sync/src/cache.rs:239-307 | over every run of such operations from an empty cache, deliveries, polls, marks and chat lists in any order, a chat's count is the base of its last reset (the server's count of a new chat, 0 of a stub or after mark-read) plus the number of different guids of inbound messages first stored by a delivery since then, saturating at 2^63-1 |
| Conservation.RowsOfRun | sync/src/cache.rs:259-307 | over every such run a guid has a message, or a chat, exactly if some operation stored or named it |
| Documents.MergeMessage | sync/src/cache.rs:649-679 | the loop over the incoming keys, in any order, computes the merge, in which each key is decided by its stored and its incoming value alone |
| Documents.MergeIsAFold | sync/src/cache.rs:649-679 | after any updates from absent an ordinary field holds its last non-null value, chat_id the last one parsing to a non-zero id, created_at the last non-empty string |
| Documents.SenderNameIsAFold | sync/src/cache.rs:667-675 | sender_name holds the last name of a person, and while there is none the last non-empty string |
| Documents.MergeIdempotent | sync/src/cache.rs:649-679 | the last update again changes nothing, and no key disappears |
| Documents.IdRoundTrip | sync/src/domain.rs:346-361 | parse_json_id reads back the id that json_id wrote, for every 64-bit integer |
| Documents.NumberOrText | sync/src/domain.rs:350-361 | a JSON number and its decimal text name the same row, whatever the integer; beyond 64 bits neither names one |
| Documents.CountRead | sync/src/cache.rs:425 | a count that fits into 64 bits is read back from a document, and any other reads as none |
| Documents.StringifyKeeps | sync/src/domain.rs:363-374 | writing row ids as strings keeps the ids, the keys and every other field |
| Decimal.ParseInverse | sync/src/domain.rs:346-360 | decimal text of a 64-bit integer, negative ones included, parses to that integer, and that of any other integer to none |
| Identities.OneIdPerGuid | sync/src/cache.rs:181-211 | over every interleaving of calls and other writers' inserts ids never change, what a call returned is the id of its guid, one guid never gets two ids and two guids never share one |
| Identities.AloneReturns | sync/src/cache.rs:181-211 | alone, a call returns within five statements and two inserts, with the id announced, whenever the guid is known, its digest is free, or the largest id is below 2^63-1 |
| Identities.AloneLoops | sync/src/cache.rs:188-210 | in the remaining case it never returns: after any number of statements it has inserted nothing |
| Identities.AllocationCanFail | sync/src/cache.rs:188-210 | for every guid there is a table of at most two rows in which it never returns |
| Identities.AllocatedIsOwn | sync/src/cache.rs:181-211 | the id a lone call returns is the guid's own from then on, and all other ids stay |
| Identities.NextAfterLargest | sync/src/cache.rs:206-209 | where the digest of a new guid is taken its id is the first positive one above all in use |
| Domain.StableId | sync/src/domain.rs:261-271 | an id from 1 to 2^63-1, for any digest |
| Domain.SameStableId | sync/src/domain.rs:261-271 | two guids have the same stable id exactly if the low 63 bits of their digests agree, 0 counting as 1 |
| Domain.PersonNameOfConcat | sync/src/domain.rs:468-470 | a text names a person exactly if it has a letter, wherever that stands |
| Text.TrimMeaning | plugin/Service.qml:242 | trimming takes off white space at both ends, and all of it |
| Cache.MessageCache.IdForGuid | sync/src/cache.rs:181-211 | the loop returns the id that the specification allocates and leaves the identities it says; it ends under the condition that AloneReturns and AloneLoops show to be exact |
| Cache.MessageCache.GuidForChatId | sync/src/cache.rs:213-229 | the guid of the chat's row, else the one that has the id |
| Cache.MessageCache.UpsertMessage | sync/src/cache.rs:393-397 | the whole new state is the one of the statement, of which the laws over runs speak |
| Cache.MessageCache.ApplyLiveMessage | sync/src/cache.rs:399-456 | new state as specified; is_new exactly if no row had the id; the reply holds the merged message and the chat's new row, or the unknown chat id |
| Cache.MessageCache.UpsertChat | sync/src/cache.rs:333-391 | new state as specified: the name of a person is kept, the local count survives the conflict, the guid gets its identity |
| Cache.MessageCache.SetRead | sync/src/cache.rs:239-257 | count and document are set to 0, and only those; no row, no change |
| Cache.MessageCache.UpsertDomainChat | sync/src/cache.rs:259-263 | the operation of the convergence and inverse laws, on the object |
| Cache.MessageCache.UpsertDomainMessage | sync/src/cache.rs:265-270 | chat id and message id are asked for in that order, then the document is stored |
| Cache.MessageCache.ApplyDomainMessage | sync/src/cache.rs:272-307 | the delivery of which convergence is proved, on the object; is_new exactly if the guid's id had no message |
| Cache.MessageCache.ListChats | sync/src/cache.rs:458-470 | the chats with the newest last_message_at, at most the limit, newest first, any negative limit meaning all |
| Cache.MessageCache.ListMessages | sync/src/cache.rs:472-505 | the newest messages of the chat before the cursor, at most the limit, oldest first |
| Cache.MessageCache.ApplyContactBook | sync/src/cache.rs:507-536 | the listed chats get the names that the seeded book has for them and no other chat changes; the number returned is the number of chats whose title changed; every message then takes the title of its chat among the newest 500; the pass is a run of statements, so agreement and names are kept |
| Cache.NamedMeaning | sync/src/cache.rs:514-531 | a chat whose title is not the name of a person gets the book's name, and nothing else of it changes: neither count, time, guid nor any other field; any other chat stays as it is |
| Cache.NamedTwice | sync/src/cache.rs:515-530 | naming a chat again changes nothing |
| Cache.MessageCache.RepairPhoneSenderNames | sync/src/cache.rs:135-179 | every message from someone else takes the title of its chat, among the 500 newest chats with the name of a person; each write is such a name |
| Naming.SendersTakeTitles | sync/src/cache.rs:135-179 | with agreeing tables: a message of someone else in a listed chat that is no group and has a title naming a person carries the first such title in column and document, and nothing else of it changes; no other message changes |
| Naming.SeedingIsRecording | sync/src/domain.rs:450-461 | seeding a book with cached chats is recording, after all it knew, the identifier with the first title naming a person of each chat that is no group, in order and leaving none out |
| Cache.MessageCache.RepairOrphanChats | sync/src/cache.rs:99-133 | afterwards no chat that messages name, and an identity with a semicolon stands for, is without a row; the new rows are stubs of the newest sender, name and time of the chat, and nothing else changes |
| Naming.OrphanRowMeaning | sync/src/cache.rs:99-133 | such a stub is identified by the sender of a latest message with one, titled by the latest sender_name if that names a person, dated by a latest message, and has nothing unread |
| Cache.MessageCache.RebuildIdentities | sync/src/cache.rs:79-97 | afterwards every guid of a row is in the identities or its id is taken by another guid, no identity changes, and trimmed guids and 64-bit ids stay so |
| Cache.MessageCache.Reopen | sync/src/cache.rs:71-76 | on any tables, agreeing or not, the four passes of open are a run of statements that leaves no orphan and an identity for every message guid; where columns and documents agreed they still do and every name of a person is kept |
| Cache.PassKeeps | sync/src/cache.rs:507-536 | whatever statements a pass issues, agreement, names and the inverse of guid and id survive it |
| Query.NewestUnique | sync/src/cache.rs:458-500 | ORDER BY ... DESC LIMIT has one answer where times differ |
| Query.Newest | sync/src/cache.rs:458-500 | selecting the newest rows: as many as there are up to the limit, different, in order, and none left out is newer |
| Paging.PagingIsComplete | plugin/Panel.qml:648-655 | after the initial load and enough uses of the button the client shows the whole history if and only if no page boundary (a multiple of 200 from the newest) separates messages of the same time and, beyond one page, every message has a time |
| Paging.PagingIsGapless | plugin/Service.qml:185-197 | in that case each use shows exactly the newest min(200(k+1), N) messages in ascending order, with no gap or repeat |
| Paging.SomeoneIsNeverShown | sync/src/cache.rs:478-489 | otherwise some message is never shown, however often the button is used and whatever the database does with equal times |
| Paging.SameTimesAreNeverShown | plugin/Panel.qml:648-655 | 201 messages of one time: no number of uses shows them all |
| Paging.DifferentTimesPageCleanly | sync/src/cache.rs:478-489 | pairwise different times satisfy the condition |
| Paging.StaysPassedOver | plugin/Panel.qml:648-655 | the button never goes back: what is at or after the oldest time shown stays out of sight |
| Serving.Scroll | sync/src/cache.rs:472-505 | the same over the cache's own tables: list_messages, the request with the oldest time, and the merge, repeated, end with the whole history exactly if it pages cleanly |
| Serving.ListServes | sync/src/cache.rs:472-505 | what list_messages selects by columns is a page of the thread as the client reads it |
| Timeline.MergeIsUnique | plugin/js/Store.js:103-115 | a list is what mergeMessages returns if and only if it is sorted by time and id and holds exactly the last payload of every id of the two lists |
| Timeline.MergeIdempotent | plugin/js/Store.js:103-115 | merging the same updates again changes nothing |
| Timeline.MergeAssociative | plugin/js/Store.js:103-115 | merging is associative |
| Timeline.AppendIsMerge | plugin/js/Store.js:92-101 | on a sorted list of different ids appendMessage equals mergeMessages(list, [msg]) if and only if the new payload still belongs where the old one stands |
| Timeline.AppendCanDiffer | plugin/js/Store.js:92-101 | a list of two and a later time for the first id, where the two results differ |
| Timeline.AppendSameTime | plugin/js/Store.js:92-101 | which is so whenever a present id keeps its created_at |
| Timeline.AppendKeepsLatest | plugin/js/Store.js:92-101 | in every case the id has the new payload once, and every other message stays |
| Timeline.MergeMessages | plugin/js/Store.js:103-115 | the loop over a map of ids, then a sort, computes the merge |
| Timeline.AppendMessage | plugin/js/Store.js:92-101 | replacing in place or merging, as specified |
| ListModel.ListModel.SyncListModel | plugin/js/Store.js:117-130 | for any model and any list the model ends equal to the list; with different ids a row on both sides survives as the same row, inserts are exactly the new ids, updates the changed payloads, removals the dropped rows, and a row is moved exactly if one that no earlier message of the list has stands before it; a model already equal is not touched, so a second run does nothing |
| ListModel.ListModel.SyncRow | plugin/js/Store.js:120-127 | one turn of the loop: found, moved, replaced or inserted |
| ChatList.UpsertChat | plugin/js/Store.js:71-90 | the list is newest first, with chats of the same time in the order they had, and holds the new row instead of the old one |
| ChatList.ListingUnique | plugin/js/Store.js:83-88 | that determines the list: a stable sort has one result |
| ChatList.UpsertMembers | plugin/js/Store.js:71-82 | the chat has the row given, and every other chat the row it had |
| ChatList.UpsertIdempotent | plugin/js/Store.js:71-90 | the same chat event again changes nothing, not even the order |
| ChatList.SortKeeps | plugin/js/Store.js:83-88 | sorting neither loses nor repeats a row and keeps the total of the counts |
| ChatList.BadgeAgrees | plugin/Service.qml:156-177 | over every run of snapshots, events, replies and marks the badge is the sum of the counts shown, although markRead and the reply to it each take a sum of their own |
| ChatList.OneRowPerChat | plugin/js/Store.js:71-90 | over every run whose lists have one row per chat the list shown has one row per chat |
| ChatList.RowsShown | plugin/Service.qml:156-177 | over every such run each chat shows the row that the last list, message or reply about it gave it, with its count cleared by the marks of that chat since, and no other chat is there |
| ChatList.PlacesKept | plugin/Service.qml:425-440 | marks and their replies leave every chat at its place, a message puts the list in order |
| ChatList.MessageMovesBadge | plugin/js/Store.js:50-55 | a message event moves the badge by the difference of the chat's two counts |
| ChatList.Service.SetRead | plugin/Service.qml:156-177 | the loop clears the count of the chat, recomputes the badge, and touches nothing when there is nothing to clear |
| ChatList.Service.OnReadReply | plugin/Service.qml:425-440 | the loop of the reply replaces the row where it stands, without sorting, and takes its sum |
| ChatList.Service.ApplyMessage | plugin/js/Store.js:50-55 | list and badge after sync.message |
| SendQueue.RunKeeps | plugin/Service.qml:204-256 | over every run: ids stay different, at most one row is sending and it is the one in flight, nothing is queued while the sender is idle, and no attempt id is submitted twice |
| SendQueue.AcceptedIsQueued | plugin/Service.qml:237-279 | in every run an accepted call leaves exactly one more row, at the end, with the chat, text, path and time of the call under an id that no row had; it is under way at once if the sender was idle and queued otherwise |
| SendQueue.SendsWhatWasAsked | plugin/Service.qml:218-235 | over every run each request carries exactly the chat, the text or the file, and the attempt id, of the accepted call it was made for, through however many retries, and so does each row in the list |
| SendQueue.RowAfter | plugin/Service.qml:576-600 | what each event makes of each row that it leaves: the row of a request that ended without confirmation takes the failure and its message, the one retried if failed or unconfirmed a new id, a new time and the queue, every other row stays as it is; then only a queued row is taken up |
| SendQueue.ConfirmedByItsAnswer | plugin/Service.qml:551-558 | over every run a request counts as confirmed exactly if the last answer since it was started is a good one |
| SendQueue.StartsFirstQueued | plugin/Service.qml:218-235 | the row that is started is always the first queued one, and only that one is started |
| SendQueue.OnlyConfirmationRemoves | plugin/Service.qml:564-600 | a row leaves the list only by its echo or its confirmed response, and then only the one named: after any event all other rows are there in their order with their content |
| SendQueue.GoneStaysGone | plugin/Service.qml:564-600 | an id that left the list never comes back, whatever its request does later |
| SendQueue.AttemptIdInjective | plugin/Service.qml:208-211 | attempt ids with different sequence numbers differ, whatever the clock says |
| SendQueue.Service.DrainOutgoing | plugin/Service.qml:218-235 | the fields after the call are those of the specification in every state |
| SendQueue.Service.SendMessage | plugin/Service.qml:237-256 | refuses an empty chat or a text of white space and then changes nothing; else leaves one more row, for that chat with the trimmed text, under a fresh id |
| SendQueue.Service.SendAttachment | plugin/Service.qml:258-279 | refuses an empty chat or path and then changes nothing; else leaves one more row, for that chat with the path and no text |
| SendQueue.Service.RetryMessage | plugin/Service.qml:213-216 | a retry takes a fresh id, and only of a failed or unconfirmed row |
| SendQueue.Service.OnExited | plugin/Service.qml:564-600 | confirmed, failed, and already removed by an echo: the three branches of the exit |
| Outgoing.RetryOutgoing | plugin/js/Store.js:165-180 | the loop changes the first row of the id if it is failed or unconfirmed, and nothing otherwise |
| Outgoing.UpdateOutgoing | plugin/js/Store.js:143-155 | the loop changes state and error of the first row of the id, and of no other |
| Outgoing.RemovedMeaning | plugin/js/Store.js:157-163 | removal keeps exactly the rows of other ids and leaves none of the id |
| Outgoing.RemovedInOrder | plugin/js/Store.js:157-163 | and the rows that stay keep their order |
| History.ReplyKeepsLive | plugin/Service.qml:101-113 | for every interleaving of loads, chat switches, live events and replies: after a reply is applied each live message received for its chat since the request started is in the thread with its last payload, once, in order, beside the reply |
| History.LiveIsLatest | plugin/Service.qml:101-104 | while a request is in flight its live list holds exactly the last payload of each message received for its chat |
| History.FlightIsFixed | plugin/Service.qml:185-197 | over every run from the start of a request to its exit, later loads and switches never alter its chat, nor its cursor before its reply |
| History.StaleFlightIsSilent | plugin/Service.qml:525-535 | while another chat is open no number of loads and replies changes a message of the thread |
| History.RequestsTakeTurns | plugin/Service.qml:185-197 | over every run, with requests read off the events alone: the one in flight is the one asked for while none was, or after an exit the last one asked for meanwhile for the chat then shown; the one waiting is the last one asked for meanwhile |
| History.WaitingRequestStarts | plugin/Service.qml:513-519 | at the exit the last load or switch made meanwhile starts with its chat and cursor and no live message if it is for the chat that is open; if it is for another one, or there was none, nothing runs |
| History.IdleRequestStarts | plugin/Service.qml:185-197 | a load or switch while nothing runs starts at once |
| History.ThreadHolds | plugin/Service.qml:525-535 | over every run the thread holds, once each, exactly the last payloads of what it is made of: the live messages of the chat since it was opened; under them an older page that was applied, or in their place a newest page; and on top of a page the live messages received during its request |
| History.ThreadOfOneChat | plugin/Service.qml:525-535 | the thread never shows messages of two chats, whatever is switched while requests are in flight |
| History.Service.OnStreamFinished | plugin/Service.qml:525-535 | the reply handler, as specified |
| History.Service.LoadMessages | plugin/Service.qml:185-197 | one request at a time, the last other one waits |
| Session.NoLostWakeUp | sync/src/link/mod.rs:400-437 | for every interleaving of concurrent reconnects, sends that overtake each other included: a session that waits, with no reconnect between its write and its send, holds the settings written last |
| Session.HandOverCompletes | sync/src/link/mod.rs:400-437 | and once no reconnect is on its way it holds them after at most nine of its own steps, wherever it was, whichever way connections and delays end: in every run of nine steps, and in every shorter one that ends where the session cannot move |
| Session.RestMeaning | sync/src/link/mod.rs:415-431 | such a shorter run is one after which a further move of the session changes nothing |
| Session.NumbersNeverReturn | sync/src/link/mod.rs:278-279 | each number is sent once, so the watch channel never shows a number again that it has left |
| Session.OneGenerationAttached | sync/src/client.rs:108-127 | the uplink is attached by at most one generation, only while that one is connected or being closed, only on complete settings, and never while the session is parked without any |
| Session.SuccessAttaches | sync/src/client.rs:230-232 | a connection that succeeds attaches the uplink under the generation that made it, and changes nothing else |
| Session.ConnectedStays | sync/src/client.rs:120-123 | over every run without the end of its connection a connected generation stays connected and attached, on the same settings, until another number is sent |
| Session.GenerationStays | sync/src/client.rs:62-95 | over every run without another number the session serves the same generation on the same settings, however connections and delays end |
| Session.GenerationConnects | sync/src/client.rs:62-95 | from every state of its connection a generation whose number is current is led to being connected: a delay that ends goes back to connecting, and a success is attached |
| Session.ReadsAndServes | sync/src/link/mod.rs:400-437 | a session about to read serves the current number on the settings it finds, and parks detached if there are none |
| Session.EndDetaches | sync/src/client.rs:120-127 | a connection that ends or fails is detached before anything else is tried |
| Session.IdleSleeps | sync/src/client.rs:97-106 | the session does nothing exactly when it waits and nothing was sent since it looked |
| Session.ParkedReadsOnce | sync/src/link/mod.rs:415-431 | a parked session that is woken and again finds no settings sleeps until another number is sent |
| Session.StepKeeps | sync/src/client.rs:52-106 | every step of the session and of every reconnect keeps the invariant: numbers drawn and sent once, what is held is current, to be announced, or the session is due to wake |
| Session.SendKeeps | sync/src/link/mod.rs:279 | a send wakes whoever holds settings, because its number was never there before |
| Session.Progress | sync/src/client.rs:97-106 | while the session does not hold the last write it can move, and every move brings it closer to reading again |
| Session.RunAlone | sync/src/link/mod.rs:273-281 | a reconnect that nothing interrupts puts its settings in place and announces the next number |
| Session.Link.ReconnectFromStore | sync/src/link/mod.rs:273-281 | on the object: that run, and nothing if the settings do not load |
| Broadcast.NothingMissed | sync/src/socket_server.rs:66-104 | for every interleaving of writers (apply, then send) with a client (subscribe, then snapshot): each message applied is in the cache the snapshot read, or delivered, or ahead in the channel, or still to be sent, or was lost and is in the cache that a later read, made or owed, finds |
| Broadcast.CaughtUp | sync/src/socket_server.rs:66-104 | with all writers done and the client caught up, every message is in the snapshot, was delivered, or is in the read after the lag |
| Broadcast.DeliveredOnce | sync/src/socket_server.rs:69-71 | events are delivered in the order they were sent, and none twice |
| Broadcast.NothingLost | sync/src/socket_server.rs:69-71 | a client never more than 256 behind receives every event sent since it subscribed, and never reads again |
| Broadcast.CatchesUp | sync/src/socket_server.rs:66-85 | a client left alone catches up: it is delivered every event it is behind, or, too far behind, reads again and is delivered the last 256 |
| Broadcast.StreamsSince | sync/src/socket_server.rs:95-104 | in every run it streams from where the log ended when it subscribed, after a snapshot of what was applied when it read |
| Broadcast.WriterGetsThrough | sync/src/client.rs:448-453 | a message applied and sent is appended to the cache and to the log |
| Broadcast.SenderGetsThrough | sync/src/client.rs:448-453 | whatever else happens between, a message applied can be sent, once |
| Broadcast.SubscriberStreams | sync/src/socket_server.rs:95-104 | in every run a client that asks is subscribed and then streams |
| Broadcast.LagLoses | sync/src/socket_server.rs:72-82 | one event more, and exactly the oldest ones up to the last 256 are lost and a read is owed |
| Broadcast.AppliedIsStored | sync/src/client.rs:448-453 | a message applied before a read has its row in what is read |
| Broadcast.Client.Turn | sync/src/socket_server.rs:66-85 | one turn of the streaming branch on the object: pass on the event, or read again after a lag |
| Contacts.LookupByNumber | sync/src/domain.rs:412-425 | after any calls of record, for an address of ten digits or 1 and ten: lookup of any spelling returns a name exactly if a valid record for those digits exists, and then a name recorded for the same digits |
| Contacts.LookupAnswer | sync/src/domain.rs:412-425 | which one: the name filed under the exact spelling, else the first one recorded for the number |
| Contacts.LookupByDigits | sync/src/domain.rs:412-425 | after any calls of record, for any address at all: lookup finds a name exactly if a valid record has the same digits or the same number, and then one recorded so |
| Contacts.SoundForNumbers | sync/src/domain.rs:510-523 | a lookup by the address finds, after any calls of record, only names recorded for the same address or number, if and only if the address spells a number |
| Contacts.SameDigitsShareAKey | sync/src/domain.rs:510-523 | why no other address is sound: any address finds the name recorded for any other address with the same digits, or with none |
| Contacts.SameIsFound | sync/src/domain.rs:412-425 | once the name of a person was recorded for an address with a character that is not white space, a lookup of that address in any case, or of any spelling of its number, finds a name, whatever else is recorded |
| Contacts.ValidIsRecordable | sync/src/domain.rs:418-421 | record refuses exactly names that are no person's and addresses of white space |
| Contacts.KeysSpellTheNumber | sync/src/domain.rs:510-523 | every key of an address spells the number that the address spells, and none if it spells none |
| Contacts.ContactBook.Record | sync/src/domain.rs:418-425 | or_insert under every key, and nothing for an invalid name or address |
| Contacts.ContactBook.LookUp | sync/src/domain.rs:412-416 | the first key that is filed answers |
| Framing.LinesAreFrames | plugin/bin/subscribe.py:20-34 | for every chunking the lines written are the non-empty newline-terminated frames of the bytes read, in order, and the buffer is the rest |
| Framing.FramesOfLines | plugin/bin/subscribe.py:29-31 | reading undoes sending: of any lines joined by newlines, and an unfinished one, the frames are the lines that are not empty and the rest is the unfinished one |
| Framing.StreamIsLines | plugin/bin/subscribe.py:29-31 | and every stream is such lines |
| Framing.FailureIsFinal | plugin/bin/subscribe.py:26-27 | a reader that failed writes nothing more |
| Framing.FailsExactly | plugin/bin/subscribe.py:26-27 | a run fails exactly when some read leaves more than 16 MiB in the buffer before the split |
| Framing.SizeErrorPossible | plugin/bin/subscribe.py:22-27 | some chunking of a stream into reads of at most 65536 bytes fails if and only if a frame, with what one read may bring after it, passes 16 MiB |
| Framing.ShortFramesPass | plugin/bin/subscribe.py:22-27 | no chunking fails when every frame with its newline is at most 16 MiB - 65535 bytes |
| Framing.BoundIsSharp | plugin/bin/subscribe.py:22-27 | with one byte more some chunking fails |
| Framing.Subscriber.OnChunk | plugin/bin/subscribe.py:25-34 | one turn of the loop on the buffer, as specified |
| RateLimit.AtMostTwoWindows | sync/src/webhook.rs:180-192 | for every non-decreasing trace of arrivals at most 80 hits are accepted in any closed interval of ten seconds |
| RateLimit.RefusedOnlyWhenFull | sync/src/webhook.rs:185-191 | a hit is refused only if 40 were accepted in the ten seconds before it |
| RateLimit.EightyIsReached | sync/src/webhook.rs:183-189 | and 80 are accepted in some interval of ten seconds, so the bound is sharp |
| RateLimit.Hook.RateOk | sync/src/webhook.rs:180-192 | counter and answer after a hit, as specified |
| RateLimit.Hook.HandleHook | sync/src/webhook.rs:135-178 | the method and the token are checked first, so refused requests do not use up the limit |
## Left out

- HTTP, TLS, sockets, the keyring, TOML and URL parsing, SQLite and tokio themselves: only what the source relies on is modelled, namely atomic statements, a transactional live apply, versions of a watch channel, and a bounded broadcast with lag.
- SHA-256: the digest is an arbitrary function, so nothing is said about how likely a collision is.
- bb_to_unix_millis and the formatting of timestamps: times are strings compared character by character, as Rust, SQLite and JavaScript compare them.
- RetryBackoff, linkState, setupGuide, webhookGuide, friendlyError, settingsFrom, notifications: case tables and bounds that a short reading settles.
- `bridge/`, `setup/`, `tui/`, the layout of the panel, installation and packaging: user interface and process plumbing.
- The columns guid, identifier, service and participants of a chat against its document, and a last_message_at that never moves back under upsert_chat: the conflict clause leaves the former alone and overwrites the latter, so neither holds.
- Link.provision against the stored settings: loading and writing are separate steps, so only the settings written last are spoken of. Whether the stored settings load is an input.
- Chat rows of the client under concurrent writers: events are sent after the lock of the cache is released, so their order is not fixed; only the absence of gaps is proved.
- Documents that are not JSON objects, and objects whose keys repeat: the cache writes neither.
- White space and lower case beyond ASCII in trim and to_lowercase; numbers that are not integers in JSON.
- The sync_meta table, identifier_for_chat_id, search, and counts of rows: single reads and writes of one key.
- ContactBook.from_bb, seed_from_chat and apply_contacts: they only call record and lookup, of which every sequence of calls is covered.
- The interleaving of id_for_guid with other statements is modelled on values (module Identities); the methods of Cache run one at a time, as under the lock that the daemon holds, and the same holds for Session and Broadcast, whose objects take single steps.
- Cache.MessageCache.IdForGuid: asks that the loop can end, because a method has to return; AloneLoops says what happens otherwise.
- Cache.MessageCache.RepairOrphanChats: asks that guids in the identities are trimmed, as ChatGuid::parse and MessageGuid::parse leave them; DomainRunKeeps shows that the cache's own operations never store another.
- Cache.MessageCache.Reopen: asks for trimmed guids and 64-bit ids for the same reason; a database with other guids, written by hand, is not covered.
- Polling.Poller.PollRound: a closed receiver and a failed query end the loop and are not modelled.
- Polling: the server adds entries at the end and edits them in place, with up to 200 new ones between two rounds where it matters; entries that it deletes are not modelled.
- Session: the counter is unbounded, where the source wraps at 2^64, and the flag for "connecting" follows only reconnects.
- Broadcast: one client is followed; others only read the same log.
- Timeline: ids are compared character by character where the source uses localeCompare, which gives some total order on the decimal ids of the cache.
- SendQueue: classifySendFailure is an input, the request script is taken to be there, and the history and chat requests that follow a confirmed send are events of the other modules.
- History: the request process answers before it exits, as its collector waits for the end of its output.
- Framing: the time-outs of the socket and a line that is not UTF-8, which ends the reader.
- RateLimit: the clock is any non-decreasing one, in nanoseconds.
