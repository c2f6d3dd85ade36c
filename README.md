# Ping_Me chat core in Dafny

Ping_Me is a chat application. The server is Express, MongoDB and Socket.IO. The client is React and Redux Toolkit. This project models its core:

- how the server tracks receipts: who is online, when a message counts as delivered and when as read;
- the server's rules for creating direct and group chats and for changing group members and admins;
- the message lifecycle: send, delete for me, delete for everyone;
- the client store that mirrors all of this.

The model proves properties of that core.

Data is modelled as follows:

- **Storage** is the class `Database.Db`. It holds a map of users, a sequence of chats and a sequence of messages, each sequence in storage order, plus an id counter that stands for ObjectId generation.
- **Records** take their shapes from `Backend/models/*.js`.
- **Ids** are natural numbers and **timestamps** are integers.
- **Receipt lists** (`readBy`, `deliveredTo`, `deletedFor`) are duplicate-free sequences. `$addToSet` and includes-guarded `push` are `Domain.AddToSet`.

Components are modelled as follows:

- **The connection registry** `connectedUsers` is a JavaScript `Map`. Its model is an insertion-ordered sequence of pairs (`Registry`), held by the class `Registry.ConnectionRegistry`.
- **The socket handler** (`SocketServer`) and **the controllers** (`MessageController`, `ChatController`) are methods on that state. Every Socket.IO emit is returned as an entry of an event log (`Events`).
- **The Redux slices** are classes whose methods are the reducers. Each reducer states its new state through pure functions of the old one:
  - `ChatSlice.ChatStore` for `chatSlice.js`;
  - `AuthSlice.AuthStore` for `authSlice.js`;
  - `UserSlice.UserList` for `userSlice.js`.
- **The socket event handlers** of the client (`SocketEvents`) are methods that drive those reducers.
- **The pure helpers** `getOtherUser`, `formatTimeAgo` and `extractPublicId` are functions, with lemmas about them.

Ordering:

- Both message orders the program uses are one stable insertion sort keyed on `createdAt` (`TimeOrder.Sort`).
- The client's `Array.prototype.sort` is stable and sorts oldest first.
- A Mongo `sort({createdAt: -1})` sorts newest first. The order it gives to equal times is a modelling choice, listed under "Left out".

## Model

| member | source | states |
|---|---|---|
| Domain.Tombstone | Backend/controllers/MessageController.js:227-229 | a deleted-for-everyone message has the tombstone text, no attachments and `isDeleted`; every other field is kept |
| Domain.TombstoneIdempotent | Backend/controllers/MessageController.js:227-229 | deleting for everyone twice gives the same fields as once |
| Domain.AddToSet | Backend/Socket/socket.js:31 | `$addToSet`: the element is present afterwards, nothing else is added, a present element changes nothing, the old list is a prefix, and no duplicate is created |
| Domain.Without | Backend/controllers/ChatController.js:514-517 | `filter(id !== x)` removes exactly the occurrences of `x`, keeps every other element and never creates a duplicate |
| Domain.WithoutAppend | Backend/controllers/ChatController.js:514-517 | the filter works piece by piece: filtering a concatenation is concatenating the filtered parts, so the kept ids keep their order |
| Domain.WithoutCounts | Backend/controllers/ChatController.js:514-517 | every occurrence of `x` goes and every other id stays exactly as often as it occurred |
| Domain.AddToSetIdempotent | Backend/controllers/MessageController.js:123-126 | adding the same id twice is adding it once |
| TimeOrder.Insert | Frontend/src/features/chat/chatSlice.js:57-59 | one insertion step gives a permutation of the list plus the new element |
| TimeOrder.Sort | Frontend/src/features/chat/chatSlice.js:62-64 | the sort result is a permutation of its input (same length, same multiset) |
| TimeOrder.InsertSorted | Frontend/src/features/chat/chatSlice.js:57-59 | inserting into a sorted list keeps it sorted |
| TimeOrder.SortSorted | Backend/controllers/ChatController.js:228 | the sort's result is ordered by `createdAt`, either ascending or descending |
| TimeOrder.SortSortedIsIdentity | Frontend/src/features/chat/chatSlice.js:62-64 | sorting an already sorted list returns it unchanged |
| TimeOrder.InsertStable | Frontend/src/features/chat/chatSlice.js:57-59 | an insertion step places the new message after every message with its creation time, and keeps the order of those |
| TimeOrder.SortStable | Frontend/src/features/chat/chatSlice.js:62-64 | the sort is stable: for every creation time, the messages with that time come out in their input order |
| TimeOrder.SortIdempotent | Frontend/src/features/chat/chatSlice.js:57-64 | the second sort in `addMessage` changes nothing |
| TimeOrder.InsertKeepsIdsUnique | Frontend/src/features/chat/chatSlice.js:47-56 | inserting a message whose id is new keeps all ids distinct |
| TimeOrder.SortKeepsIdsUnique | Frontend/src/features/chat/chatSlice.js:57-64 | sorting keeps ids distinct |
| TimeOrder.AppendNewestStaysSorted | Frontend/src/features/chat/chatSlice.js:52-59 | appending a message no older than any other to a sorted list needs no reordering |
| Registry.Keys | Backend/Socket/socket.js:41 | `[...map.keys()]` lists the key of every entry in insertion order |
| Registry.Get | Backend/controllers/MessageController.js:68 | `get`/`has` finds a value exactly for a registered key, and it is that key's entry |
| Registry.Put | Backend/Socket/socket.js:19 | `set` keeps a present key in place and appends a new one |
| Registry.PutEntries | Backend/Socket/socket.js:19 | with one entry per user, `set(u, s)` leaves every other user's entry as it was and at its place, and the entry of `u` holds `s` |
| Registry.PutKeepsUniqueKeys | Backend/Socket/socket.js:19 | `set` keeps one entry per user |
| Registry.PutGet | Backend/Socket/socket.js:19 | after `set(u, s)`, `get(u)` is `s` and every other key reads as before |
| Registry.Remove | Backend/Socket/socket.js:107 | `delete(u)` removes exactly the key `u` |
| Registry.RemoveGet | Backend/Socket/socket.js:107 | after `delete(u)`, `u` is unregistered and every other key reads as before |
| Registry.SocketIndex | Backend/Socket/socket.js:105-106 | the disconnect loop stops at the first entry holding the closing socket's id, or finds none |
| Registry.TwoPutsSockets | Backend/Socket/socket.js:19 | after a user connects twice, no entry holds the superseded socket and only the user's entry holds the newer one |
| Registry.RemoveDropsOne | Backend/Socket/socket.js:105-107 | with unique keys, deleting a present key removes exactly one entry |
| Registry.RemoveSocketAtMostOne | Backend/Socket/socket.js:105-119 | a disconnect removes at most one entry (the one holding the closing socket's id), and every other user keeps its socket |
| Registry.SecondConnectionOverwrites | Backend/Socket/socket.js:19 | with two connections of one user, closing the superseded socket changes nothing, while closing the newer one unregisters the user |
| Registry.ConnectionRegistry.constructor | Backend/Socket/socket.js:1 | the registry starts empty |
| Registry.ConnectionRegistry.Set | Backend/Socket/socket.js:19 | `connectedUsers.set` keeps one socket per user |
| Registry.ConnectionRegistry.Delete | Backend/Socket/socket.js:107 | `connectedUsers.delete` keeps one socket per user |
| Events.DeliveredNotices | Backend/Socket/socket.js:35-40 | one `messages-delivered` emit per chat of the user, to that chat's room without the connecting socket |
| Events.LastSeenNotices | Backend/Socket/socket.js:110-115 | one `Update-user` emit per chat, carrying the `lastSeen` returned by the status update |
| Events.ToEachMember | Backend/controllers/MessageController.js:89-93 | the emit reaches each member's room in member order |
| Events.ToEachMemberReachesEachOnce | Backend/controllers/MessageController.js:89-93 | with distinct members, each member is reached exactly once and nobody else is reached |
| Receipts.DeliverOne | Backend/Socket/socket.js:24-33 | the user joins `deliveredTo` exactly when the message is in one of the user's chats and was sent by someone else; no other field changes; no duplicate is created |
| Receipts.RetroactiveDelivery | Backend/Socket/socket.js:24-33 | after connect, every message of the user's chats sent by someone else lists the user as delivered, and every other message is unchanged |
| Receipts.DeliveryIdempotent | Backend/Socket/socket.js:24-33 | reconnecting repeats nothing |
| Receipts.ReadOne | Backend/Socket/socket.js:79-87 | the user joins `readBy` exactly when the message is in the chat, is not after the cutoff and was sent by someone else; nothing else changes |
| Receipts.ReadMarking | Backend/Socket/socket.js:79-87 | read-marking reaches every other sender's message up to the cutoff, changes no other message, and leaves `deliveredTo` alone |
| Receipts.ReadIdempotent | Backend/Socket/socket.js:79-87 | marking read twice is marking once |
| Receipts.ReadMonotoneInCutoff | Backend/Socket/socket.js:82 | a later cutoff marks everything an earlier one does, and marking early then late equals marking late |
| Receipts.UnreadCount | Backend/controllers/ChatController.js:154-178 | the unread count never exceeds the number of messages |
| Receipts.UnreadCountZeroIff | Backend/controllers/ChatController.js:154-178 | the count is 0 exactly when no message of the chat from someone else is unread by the user |
| Receipts.ReadingToLatestClearsUnread | Backend/Socket/socket.js:79-87 | reading up to the newest message brings the unread count to 0 |
| Receipts.DeliveryKeepsUnreadCount | Backend/Socket/socket.js:24-33 | delivery receipts never change any unread count |
| Receipts.NewMessageCount | Backend/controllers/MessageController.js:72-78 | a new message raises the count by one for each member other than the sender, and by nothing otherwise |
| Database.ChatIndex | Backend/controllers/ChatController.js:328 | `findById` on chats finds the chat with that id, or reports that none exists |
| Database.MessageIndex | Backend/controllers/MessageController.js:114 | `findById` on messages finds a message with that id, or reports that none exists |
| Database.MessageIndexIsFirst | Backend/controllers/MessageController.js:114 | the message found is the first with that id |
| Database.Db.constructor | Backend/models/UserModel.js:3-30 | the database starts with the given users and no chats or messages |
| Database.Db.NewId | Backend/controllers/MessageController.js:72-78 | the id `create` assigns is the counter's value, and the counter moves past it |
| Database.Db.SetUserStatus | Backend/utils/userStatus.js:5-19 | sets the status; going offline also sets `lastSeen` to now, which is returned; an unknown user changes nothing, and then nothing is returned |
| Database.Db.DeliverPending | Backend/Socket/socket.js:24-33 | the `updateMany` for delivery is `Receipts.MarkDelivered` |
| Database.Db.MarkReadUpTo | Backend/Socket/socket.js:79-87 | the `updateMany` for reading is `Receipts.MarkRead` |
| Database.Db.AppendMessage | Backend/controllers/MessageController.js:72-78 | `create` appends the message |
| Database.Db.ReplaceMessage | Backend/controllers/MessageController.js:230 | `message.save()` replaces that message |
| Database.Db.ReplaceChat | Backend/controllers/ChatController.js:367 | `chat.save()` replaces that chat and keeps the database valid |
| Database.Db.RemoveChatAt | Backend/controllers/ChatController.js:647 | `findByIdAndDelete` removes exactly that chat |
| Database.Db.AddChat | Backend/controllers/ChatController.js:98-101 | `create` appends the chat and keeps every direct pair unique |
| Database.CoversPairSymmetric | Backend/controllers/ChatController.js:76-85 | the direct-chat lookup ignores member order |
| Database.DirectPairsStayDistinct | Backend/controllers/ChatController.js:76-101 | creating a direct chat only when none exists keeps one direct chat per pair |
| SocketServer.ChatsOfUser | Backend/utils/getChatsOfUser.js:3-5 | the chats listing the user among their members, in storage order and without repetition |
| SocketServer.Connection.constructor | Backend/Socket/socket.js:9-12 | a connection records its socket, its user and that user's chats at connect time, and starts in no room |
| SocketServer.Connection.Join | Backend/Socket/socket.js:46 | `socket.join` adds exactly that room |
| SocketServer.Connect | Backend/Socket/socket.js:9-42 | without a `userId` nothing is touched and nothing is emitted. Otherwise the registry maps the user to this socket, overwriting; the user is online; retroactive delivery runs; one `messages-delivered` per chat, then `online-users` with the registry's keys, then `setup` |
| SocketServer.DeliveredOncePerChat | Backend/Socket/socket.js:35-40 | `messages-delivered` goes to each of the user's chats exactly once |
| SocketServer.JoinChat | Backend/Socket/socket.js:44-52 | `joinChat` joins the chat room and acknowledges to the socket alone |
| SocketServer.TypingReachesOthersInRoom | Backend/Socket/socket.js:54-68 | a typing or stop-typing notice reaches exactly the sockets in the chat room other than the sender, and carries the chat, the typist and which of the two it is |
| SocketServer.MessagesRead | Backend/Socket/socket.js:70-100 | an unresolved `lastReadMessageId` updates and emits nothing. Otherwise messages are read up to its `createdAt` and `messages-read-by-user` is relayed |
| SocketServer.Disconnect | Backend/Socket/socket.js:102-123 | only the entry holding this socket goes; a superseded socket changes and emits nothing. Otherwise the user goes offline, then `online-users`, then one `Update-user` per chat |
| Groups.ExistingUsersCountIff | Backend/controllers/ChatController.js:20-27 | the lookup finds as many users as ids exactly when the ids are distinct and all exist |
| Groups.CardinalityAtMost | Backend/controllers/ChatController.js:20 | the lookup never finds more users than were requested |
| Groups.GroupRefusal | Backend/controllers/ChatController.js:10-40 | a group request is accepted exactly when it has a name, members and admins, at least two distinct existing members, and admins that are all members |
| Groups.DirectRefusal | Backend/controllers/ChatController.js:56-74 | a direct request is accepted exactly when it names two distinct existing users |
| Groups.NewGroup | Backend/controllers/ChatController.js:42-49 | the new group carries the request's members and admins, the creator, and no latest message |
| Groups.NewDirect | Backend/controllers/ChatController.js:98-101 | the new direct chat has exactly the two members, no admins and no name |
| Groups.AcceptedGroupWellFormed | Backend/controllers/ChatController.js:10-49 | an accepted group has distinct members and admins that are members |
| Groups.AcceptedDirectWellFormed | Backend/controllers/ChatController.js:56-101 | an accepted direct chat has two distinct members and no admins |
| Groups.AddUserRefusal | Backend/controllers/ChatController.js:328-364 | `addUser` goes ahead exactly on a group, for an existing user who is not yet a member |
| Groups.WithMember | Backend/controllers/ChatController.js:366 | only `members` changes, and the id is appended |
| Groups.AddUserKeepsWellFormed | Backend/controllers/ChatController.js:338-367 | adding keeps members distinct and admins members; the members become the old ones plus the new id |
| Groups.AddToSetIsPush | Backend/controllers/ChatController.js:366 | for a non-member, `push` equals `$addToSet` |
| Groups.PromoteRefusal | Backend/controllers/ChatController.js:406-441 | promotion goes ahead exactly on a group, when the requester is an admin and the target is a member but not an admin. A non-admin requester gets 403 |
| Groups.WithAdmin | Backend/controllers/ChatController.js:444 | only `groupAdmins` changes, and the id is appended |
| Groups.PromoteKeepsWellFormed | Backend/controllers/ChatController.js:421-445 | promotion keeps admins a subset of members and leaves the members alone |
| Groups.RemoveRefusal | Backend/controllers/ChatController.js:483-511 | removal goes ahead exactly on a group, when the requester is an admin and the target is a member |
| Groups.WithoutMember | Backend/controllers/ChatController.js:514-517 | the id leaves both the members and the admins, and nothing else changes |
| Groups.WithoutMemberKeepsWellFormed | Backend/controllers/ChatController.js:514-519 | removal keeps the group well formed, with the id in neither list |
| Groups.WithoutMemberShortensByOne | Backend/controllers/ChatController.js:514 | removing a present member shortens the list by exactly one |
| Groups.DemoteRefusal | Backend/controllers/ChatController.js:547-577 | demotion goes ahead exactly on a group, when both the requester and the target are admins |
| Groups.WithoutAdmin | Backend/controllers/ChatController.js:580-582 | the id leaves the admins only |
| Groups.DemoteKeepsWellFormed | Backend/controllers/ChatController.js:564-583 | demotion keeps the target a member but no longer an admin |
| Groups.DemoteUndoesPromote | Backend/controllers/ChatController.js:580-582 | demoting right after promoting (line 444) restores the chat |
| Groups.WithoutAppended | Backend/controllers/ChatController.js:514 | filtering out an id that was just appended restores the list |
| Groups.RemoveUndoesAdd | Backend/controllers/ChatController.js:514-517 | removing a member right after adding them (line 366) restores the chat |
| Groups.LeaveRefusal | Backend/controllers/ChatController.js:626-633 | only a group can be left |
| Groups.RenameNameRefusal | Backend/controllers/ChatController.js:250-256 | a rename goes ahead only with a name that has a character other than JavaScript whitespace |
| Groups.RenameChatRefusal | Backend/controllers/ChatController.js:278-284 | only a group can be renamed |
| MessageController.SendRefusal | Backend/controllers/MessageController.js:15-46 | the refusals come in order: no chat id gives 400, an unknown chat 404, a non-member 403, and neither text nor file 400. The send goes ahead exactly for a member with text or a file |
| MessageController.DeliveredSnapshot | Backend/controllers/MessageController.js:65-69 | `deliveredTo` holds exactly the members other than the sender who are registered; never the sender; no duplicate |
| MessageController.AttachmentsFor | Backend/controllers/MessageController.js:75 | `attachments` is `[url]` for a non-empty upload URL and `[]` otherwise, so at most one |
| MessageController.CreateMessage | Backend/controllers/MessageController.js:10-106 | a refusal or failed upload stores and emits nothing. Otherwise the message is appended with the snapshot, becomes the chat's latest, reaches every member's room, and is returned with 201 |
| MessageController.SnapshotExcludesSender | Backend/controllers/MessageController.js:65-69 | for a well-formed chat, the snapshot is duplicate-free and lists exactly the registered members other than the sender |
| MessageController.VisibleOthers | Backend/controllers/MessageController.js:137-143 | the candidate messages are exactly those of the chat, minus the excluded id, that the user has not deleted for themself |
| MessageController.VisibleOthersCounts | Backend/controllers/MessageController.js:137-143 | each visible message is kept exactly as often as it is stored, and no other message is kept |
| MessageController.MostRecentVisibleIsNewest | Backend/controllers/MessageController.js:136-148 | the new latest is a visible message of the chat other than the deleted one, and none is newer. There is none exactly when no such message exists |
| MessageController.DeleteForMe | Backend/controllers/MessageController.js:109-168 | an unknown message gives 404. Otherwise the user joins `deletedFor` once. If the message was the latest, the chat's latest and `newLatestMessage` become the newest visible message or null; otherwise they are untouched. A missing chat gives 500 after the save |
| MessageController.DeleteForMeIdempotent | Backend/controllers/MessageController.js:123-126 | deleting for me twice is deleting once |
| MessageController.ToLower | Backend/controllers/MessageController.js:197 | ASCII `toLowerCase`: same length, upper-case letters mapped to lower case, every other character kept |
| MessageController.AfterLastDot | Backend/controllers/MessageController.js:197 | `split(".").pop()` yields a piece with no `.` in it |
| MessageController.Extension | Backend/controllers/MessageController.js:197 | the extension holds no `?`: the query string is cut off |
| MessageController.ResourceTypeOf | Backend/controllers/MessageController.js:199-206 | video exactly for mp4/webm/ogg/mov/mkv; image exactly for jpg/jpeg/png/gif/webp/svg; raw for anything else |
| MessageController.FolderAttachmentDestroyed | Backend/controllers/MessageController.js:195-223 | an attachment stored under the `chat-attachments` folder always calls for one storage delete, under an id that starts with the folder name |
| MessageController.DestroyPlan | Backend/controllers/MessageController.js:194-224 | there are never more storage deletes than attachments |
| MessageController.DestroyPlanAppend | Backend/controllers/MessageController.js:194-224 | the deletes for two runs of attachments are the deletes of each run in turn |
| MessageController.PlanDestroys | Backend/controllers/MessageController.js:194-224 | the attachment loop issues exactly the planned deletes, in order |
| MessageController.DeleteForEveryone | Backend/controllers/MessageController.js:171-254 | an unknown message gives 404. A caller who is not the sender gets 403 and nothing changes. Otherwise the storage deletes are issued and the message is tombstoned whatever they return; every member hears of it and the reply is 200. A missing chat gives 500 after the save |
| MessageController.LastPieceAfterDot | Backend/controllers/MessageController.js:197 | `split(".").pop()` is the text after the last dot |
| MessageController.QueryCut | Backend/controllers/MessageController.js:197 | `split("?")[0]` is the text before the first question mark |
| MessageController.ExtensionPlain | Backend/controllers/MessageController.js:197 | for `base.ext`, the extension is `ext` in lower case |
| MessageController.ExtensionBeforeQuery | Backend/controllers/MessageController.js:197 | a query string after the extension is dropped |
| MessageController.UpperCaseVideo | Backend/controllers/MessageController.js:197-201 | `.MP4` counts as video |
| MessageController.ImageBehindQuery | Backend/controllers/MessageController.js:197-203 | `b.png?v=1` counts as image |
| MessageController.DottedQueryHidesImage | Backend/controllers/MessageController.js:197-206 | a dot inside the query string (`b.png?v=1.2`) makes the file raw |
| ChatController.FindDirect | Backend/controllers/ChatController.js:76-85 | the lookup finds the first direct chat holding both users, or none exists |
| ChatController.CreateChat | Backend/controllers/ChatController.js:6-133 | refusals store nothing. An accepted group is stored and returned with 201. An existing direct chat is returned with 200 and nothing is stored. A new direct chat is stored, sent to both members and returned with 201 |
| ChatController.DirectChatFoundAgain | Backend/controllers/ChatController.js:76-97 | once created, a direct chat is found again by the same pair in either order |
| ChatController.FindDirectPrefixMiss | Backend/controllers/ChatController.js:76-85 | a chat appended after a list holding no match is the one found |
| ChatController.DirectChatUnique | Backend/controllers/ChatController.js:76-97 | with one direct chat per pair, the lookup returns exactly that chat |
| ChatController.PairCoverage | Backend/controllers/ChatController.js:78-80 | two direct chats that both cover one pair have the same members |
| ChatController.FindDirectFirst | Backend/controllers/ChatController.js:76-85 | the first covering chat is the one found |
| ChatController.ChatsWithUnread | Backend/controllers/ChatController.js:134-192 | lists every chat of the user, with its unread count, and only those |
| ChatController.ListedUnreadZeroIff | Backend/controllers/ChatController.js:154-178 | a listed count is 0 exactly when the user has read every message sent by someone else |
| ChatController.GetChat | Backend/controllers/ChatController.js:194-242 | 404 exactly for an unknown chat; otherwise 200 with that chat |
| ChatController.HistoryIsVisibleNewestFirst | Backend/controllers/ChatController.js:222-228 | the history holds exactly the chat's messages the caller has not deleted for themself, each as often as it is stored, newest first |
| ChatController.RenameRefusal | Backend/controllers/ChatController.js:244-284 | a rename goes ahead exactly with a non-blank name on an existing group |
| ChatController.RenameAsWritten | Backend/controllers/ChatController.js:244-308 | as written: the name is saved and the handler still replies 500 |
| ChatController.RenameAsWrittenFailsAfterSaving | Backend/controllers/ChatController.js:287-290 | a concrete group rename that stores the new name and answers 500 |
| ChatController.RenameIntended | Backend/controllers/ChatController.js:244-308 | as intended: the stored name changes and the stored chat is returned with 200 |
| ChatController.RenameIntendedReportsSave | Backend/controllers/ChatController.js:286-300 | a refusal changes nothing. A success returns the stored chat with the new name and the same id, and every other chat is untouched |
| ChatController.Rename | Backend/controllers/ChatController.js:244-308 | the handler behaves as `RenameIntended` |
| ChatController.AddUser | Backend/controllers/ChatController.js:310-387 | an unknown chat gives 404, and a refusal gives its code; otherwise the member is appended, the chat is saved and returned with 200 |
| ChatController.PromoteAdmin | Backend/controllers/ChatController.js:389-464 | an unknown chat gives 404, and a refusal gives its code; otherwise the admin is appended, the chat is saved and returned with 200 |
| ChatController.RemoveMember | Backend/controllers/ChatController.js:466-539 | an unknown chat gives 404, and a refusal gives its code; otherwise the id leaves the members and the admins, and the chat is saved and returned |
| ChatController.DemoteAdmin | Backend/controllers/ChatController.js:541-603 | an unknown chat gives 404, and a refusal gives its code; otherwise the id leaves the admins only, and the chat is saved and returned |
| ChatController.LeaveGroup | Backend/controllers/ChatController.js:605-673 | a direct chat gives 400. The caller leaves the members and the admins. A group left empty is deleted, otherwise it is saved and returned |
| ChatController.LastAdminLeavingLocksGroup | Backend/controllers/ChatController.js:636-644 | when the only admin leaves, nobody can promote, remove or demote any more |
| ChatController.LeaveDeletesOnlyWhenLast | Backend/controllers/ChatController.js:636-652 | the group is deleted exactly when no member other than the caller remains (so also when a non-member leaves an empty group); the caller is never left a member |
| ClientTypes.ApplyPatch | Frontend/src/features/chat/chatSlice.js:174-177 | `{...user, ...updates}`: each of `username`, `profilePic`, `bio` and `lastSeen` takes the update's value when present and keeps the old one otherwise; id, email and status are kept |
| ClientTypes.ApplyPatchIdempotent | Frontend/src/features/chat/chatSlice.js:174-177 | applying the same update twice is applying it once |
| ClientTypes.LastSeenPatchSetsOnlyLastSeen | Backend/Socket/socket.js:110-115 | the disconnect notice `{ lastSeen }` changes the user's last-seen time and nothing else, and without a time it changes nothing |
| OtherUser.FirstOtherIndex | Frontend/src/utils/getOtherUser.js:4 | the first member whose id differs from the current user's, or none |
| OtherUser.GetOtherUser | Frontend/src/utils/getOtherUser.js:2-5 | null for a missing chat or a group. Otherwise the first member whose id is not the current user's; null exactly when every member is the current user |
| OtherUser.DirectChatPartners | Frontend/src/utils/getOtherUser.js:2-5 | in a direct chat of two distinct users, each one's other user is the other |
| TimeAgo.DigitChar | Frontend/src/utils/formatTimeAgo.js:5 | a digit's character is a decimal digit |
| TimeAgo.NatToString | Frontend/src/utils/formatTimeAgo.js:5-9 | template-literal number formatting gives a non-empty string of decimal digits |
| TimeAgo.DecimalRoundTrip | Frontend/src/utils/formatTimeAgo.js:5-9 | reading the printed number back gives the number |
| TimeAgo.NatToStringInjective | Frontend/src/utils/formatTimeAgo.js:5-9 | distinct numbers print differently |
| TimeAgo.FormatTimeAgo | Frontend/src/utils/formatTimeAgo.js:1-10 | under 60 s, negative included: "just now". Under an hour: "N min ago" with N in 1..59. Under a day: "N hr ago" with N in 1..23. Otherwise "N day ago" or "N days ago", with N ≥ 1 |
| TimeAgo.JustNowIff | Frontend/src/utils/formatTimeAgo.js:2-4 | "just now" exactly when less than 60000 ms have passed |
| TimeAgo.MinutesLabelIff | Frontend/src/utils/formatTimeAgo.js:5 | two minute-range labels are equal exactly when they count the same whole minutes |
| PublicId.Split | Backend/utils/extractPublicId.js:4 | `split` gives at least one piece and no piece holds the separator |
| PublicId.JoinSplit | Backend/utils/extractPublicId.js:4-6 | joining the pieces of a split restores the string |
| PublicId.SplitAfterPlainPrefix | Backend/utils/extractPublicId.js:4 | a prefix without separators stays in the first piece |
| PublicId.SplitAtSeparator | Backend/utils/extractPublicId.js:4 | splitting at a separator splits each side |
| PublicId.SplitPlain | Backend/utils/extractPublicId.js:4 | a string without the separator is one piece |
| PublicId.SplitJoin | Backend/utils/extractPublicId.js:4-6 | splitting a join of separator-free pieces gives the pieces back |
| PublicId.FindSegment | Backend/utils/extractPublicId.js:5 | `findIndex` finds the first `chat-attachments` segment, or there is none |
| PublicId.LastDot | Backend/utils/extractPublicId.js:9 | the last dot of the string, or there is none |
| PublicId.StripExtension | Backend/utils/extractPublicId.js:9 | `/\.[^/.]+$/` removes a final dot followed by at least one character other than `/` and `.`, and otherwise nothing |
| PublicId.KeptSegments | Backend/utils/extractPublicId.js:4-6 | the segments from the first `chat-attachments` onward, or only the last segment when there is none |
| PublicId.JoinStartsWithFirst | Backend/utils/extractPublicId.js:6 | a join starts with its first piece |
| PublicId.StripKeepsDotFreePrefix | Backend/utils/extractPublicId.js:9 | stripping never touches a prefix that holds no dot |
| PublicId.FolderPrefixDotFree | Backend/utils/extractPublicId.js:5 | the folder name holds no dot |
| PublicId.FolderPrefixKept | Backend/utils/extractPublicId.js:5-9 | with the folder segment present, the public id starts with `chat-attachments` |
| PublicId.NoFolderKeepsLast | Backend/utils/extractPublicId.js:5-6 | without it, `slice(-1)` keeps only the last segment |
| PublicId.OnlyLastExtensionStripped | Backend/utils/extractPublicId.js:9 | `a.tar.gz` becomes `a.tar` |
| PublicId.NothingToStrip | Backend/utils/extractPublicId.js:9 | no dot, a trailing dot, or a dot before a `/` strips nothing |
| ChatSlice.ViewIndex | Frontend/src/features/chat/chatSlice.js:75 | `findIndex` finds the first chat with the id, or none |
| ChatSlice.MoveToFront | Frontend/src/features/chat/chatSlice.js:84-85 | `splice` then `unshift` puts the chat first and keeps the others in order |
| ChatSlice.PreviewMovesChatToTop | Frontend/src/features/chat/chatSlice.js:68-87 | a listed chat takes the message as latest, counts one more unread (missing counts as 0) and moves to the top, the others keeping their order; an unlisted chat changes nothing |
| ChatSlice.PreviewKeepsChatIds | Frontend/src/features/chat/chatSlice.js:68-87 | no chat is lost, and none comes to be listed twice |
| ChatSlice.MoveToFrontKeepsIds | Frontend/src/features/chat/chatSlice.js:84-85 | moving a chat keeps every id listed |
| ChatSlice.MoveToFrontKeepsUnique | Frontend/src/features/chat/chatSlice.js:84-85 | moving a chat keeps ids distinct |
| ChatSlice.ResetTouchesOneChat | Frontend/src/features/chat/chatSlice.js:89-95 | resetting (here and in the `getChat` fulfilment, lines 263-266) sets that chat's count to 0 and changes no other chat |
| ChatSlice.SetLatestTouchesOneChat | Frontend/src/features/chat/chatSlice.js:107-110 | with distinct ids, setting the latest message changes only that field of the matching chat and no other chat |
| ChatSlice.AddIfAbsentKeepsIdsUnique | Frontend/src/features/chat/chatSlice.js:115-121 | adding (here and in the `createChat` fulfilment, lines 276-282) never lists an id twice, is idempotent, and always leaves the id listed |
| ChatSlice.ReplaceAllKeepsIds | Frontend/src/features/chat/chatSlice.js:392-396 | `updateChat` keeps the id at every position (so distinct ids stay distinct), lists the update when the id was listed, changes nothing when it was not, and is idempotent |
| ChatSlice.RemoveViewAppend | Frontend/src/features/chat/chatSlice.js:297 | the filter works piece by piece, so the kept chats keep their order |
| ChatSlice.RemoveViewCounts | Frontend/src/features/chat/chatSlice.js:297 | every chat with the id goes and every other chat stays exactly as often as it was listed |
| ChatSlice.WithUnreadDefaultKeepsCounts | Frontend/src/features/chat/chatSlice.js:244-247 | every fetched chat gets a count, the count shown is the one it had (0 for a missing one), nothing else changes, and a chat that had a count is unchanged |
| ChatSlice.WithStatus | Frontend/src/features/chat/chatSlice.js:126-133 | a direct chat's other user is online exactly when listed; groups and chats without one stay |
| ChatSlice.SelectedWithStatus | Frontend/src/features/chat/chatSlice.js:134-140 | the selected chat's other user is online exactly when listed, whether the chat is a group or not |
| ChatSlice.StatusRefreshIdempotent | Frontend/src/features/chat/chatSlice.js:124-141 | refreshing statuses twice with one list is refreshing once |
| ChatSlice.WithPatch | Frontend/src/features/chat/chatSlice.js:172-179 | only a matching other user is updated |
| ChatSlice.LastSeenReachesOtherUser | Frontend/src/features/chat/chatSlice.js:169-190 | an `Update-user` with a `lastSeen` stamps that time on a chat whose other user it is about, and on no other chat |
| ChatSlice.AppendIfAbsentKeepsIdsUnique | Frontend/src/features/chat/chatSlice.js:47-56 | appending only a message whose id is new keeps ids distinct |
| ChatSlice.SortKeepsHasId | Frontend/src/features/chat/chatSlice.js:57-59 | sorting keeps every id in the list |
| ChatSlice.AddMessageKeepsListSound | Frontend/src/features/chat/chatSlice.js:38-65 | after `addMessage`, the list is sorted oldest first, ids stay distinct, the message is listed, the contents are the old ones plus the message if it was new, and adding it again changes nothing |
| ChatSlice.ReadCountStopsAtFirst | Frontend/src/features/chat/chatSlice.js:197-206 | the loop stops right after the first message with the id, and runs through all messages when none has it |
| ChatSlice.ClientRead | Frontend/src/features/chat/chatSlice.js:197-207 | the list keeps its length |
| ChatSlice.ClientReadMarksPrefix | Frontend/src/features/chat/chatSlice.js:197-207 | the visited prefix gains the reader in `readBy`, nothing else, and the rest is untouched; repeating changes nothing |
| ChatSlice.SameIdsSameIndex | Frontend/src/features/chat/chatSlice.js:204 | marking does not move the stopping message |
| ChatSlice.ClientReadsOwnMessages | Frontend/src/features/chat/chatSlice.js:200-202 | the client marks the reader's own message read, where the server's filter would not |
| ChatSlice.ClientDeliver | Frontend/src/features/chat/chatSlice.js:220-233 | the list keeps its length |
| ChatSlice.ClientDeliverCovers | Frontend/src/features/chat/chatSlice.js:216-234 | afterwards every message lists the user as delivered or read, only `deliveredTo` changes, no duplicate is created, and repeating changes nothing |
| ChatSlice.DeleteForOnlyMatching | Frontend/src/features/chat/chatSlice.js:339-345 | with distinct ids, only the matching message gains the user in `deletedFor`, nothing else of it changes, every other message stays, and repeating changes nothing |
| ChatSlice.TombstoneOnlyMatching | Frontend/src/features/chat/chatSlice.js:357-374 | only the matching message is tombstoned, and repeating changes nothing |
| ChatSlice.RemoveTypingAppend | Frontend/src/features/chat/chatSlice.js:160-167 | the filter works piece by piece, so the kept users keep their order |
| ChatSlice.RemoveTypingCounts | Frontend/src/features/chat/chatSlice.js:160-167 | every entry with the id goes and every other entry stays exactly as often as it was listed |
| ChatSlice.TypingListsStayUnique | Frontend/src/features/chat/chatSlice.js:144-167 | typing lists never repeat a user id; add then remove leaves the user absent |
| ChatSlice.ReadThrough | Frontend/src/features/chat/chatSlice.js:197-207 | the `for…of` loop with `break` computes `ClientRead` |
| ChatSlice.FirstIndexAt | Frontend/src/features/chat/chatSlice.js:204-206 | the loop's stopping point is the first message with the id |
| ChatSlice.DeliverThrough | Frontend/src/features/chat/chatSlice.js:221-232 | the delivery loop computes `ClientDeliver` |
| ChatSlice.ChatStore.constructor | Frontend/src/features/chat/chatSlice.js:20-27 | the initial state |
| ChatSlice.ChatStore.ClearChatState | Frontend/src/features/chat/chatSlice.js:30-35 | clears the messages, the selection, the loading flag and the error; the chat list and the typing users stay |
| ChatSlice.ChatStore.AddMessage | Frontend/src/features/chat/chatSlice.js:38-65 | the chat's messages become the duplicate-free append, sorted |
| ChatSlice.ChatStore.UpdateChatPreview | Frontend/src/features/chat/chatSlice.js:68-87 | the chat list becomes the preview; nothing else changes |
| ChatSlice.ChatStore.ResetUnreadCount | Frontend/src/features/chat/chatSlice.js:89-95 | only that chat's unread count becomes 0 |
| ChatSlice.ChatStore.UpdateSelectedChatLatestMessage | Frontend/src/features/chat/chatSlice.js:98-112 | only a message of the selected chat becomes its latest, and its list entry's |
| ChatSlice.ChatStore.AddChatToList | Frontend/src/features/chat/chatSlice.js:115-121 | prepends an unlisted chat |
| ChatSlice.ChatStore.UpdateUserStatus | Frontend/src/features/chat/chatSlice.js:124-141 | every chat and the selection get refreshed statuses |
| ChatSlice.ChatStore.AddTypingUser | Frontend/src/features/chat/chatSlice.js:144-157 | the chat's typing list gains the user once |
| ChatSlice.ChatStore.RemoveTypingUser | Frontend/src/features/chat/chatSlice.js:160-167 | a present typing list loses the user; an absent one stays absent |
| ChatSlice.ChatStore.UpdateOtherUserDetails | Frontend/src/features/chat/chatSlice.js:169-191 | every chat and the selection whose other user matches get the update, a profile edit or the disconnect notice's `lastSeen` alike |
| ChatSlice.ChatStore.MarkMessagesAsRead | Frontend/src/features/chat/chatSlice.js:192-214 | with a stored message list, the list is read through the id and the chat's unread count becomes 0; without one, nothing changes |
| ChatSlice.ChatStore.MarkMessagesAsDelivered | Frontend/src/features/chat/chatSlice.js:216-234 | a stored message list is delivered; otherwise nothing changes |
| ChatSlice.ChatStore.Pending | Frontend/src/features/chat/chatSlice.js:375-381 | any pending action sets loading and clears the error |
| ChatSlice.ChatStore.Rejected | Frontend/src/features/chat/chatSlice.js:382-388 | any rejected action clears loading and sets the error |
| ChatSlice.ChatStore.FetchChatListFulfilled | Frontend/src/features/chat/chatSlice.js:242-248 | the list becomes the payload with default counts |
| ChatSlice.ChatStore.GetChatFulfilled | Frontend/src/features/chat/chatSlice.js:257-267 | selects the chat, stores its messages, and resets only its count |
| ChatSlice.ChatStore.CreateChatFulfilled | Frontend/src/features/chat/chatSlice.js:272-285 | prepends an unlisted chat and selects it |
| ChatSlice.ChatStore.UpdateChat | Frontend/src/features/chat/chatSlice.js:392-401 | every matching chat and a matching selection are replaced |
| ChatSlice.ChatStore.LeaveGroupFulfilled | Frontend/src/features/chat/chatSlice.js:295-303 | the chat and its messages leave the store, and so does the selection when it was that chat |
| ChatSlice.ChatStore.CreateMessageFulfilled | Frontend/src/features/chat/chatSlice.js:304-332 | the message is appended once, unsorted, and its chat moves to the top unchanged |
| ChatSlice.ChatStore.DeleteMessageForMeFulfilled | Frontend/src/features/chat/chatSlice.js:333-356 | with stored messages: the message is hidden for the user, and a new latest message is copied to the list entry and the selection |
| ChatSlice.ChatStore.DeleteMessageForEveryoneFulfilled | Frontend/src/features/chat/chatSlice.js:357-374 | with stored messages, only the matching one is tombstoned |
| SocketEvents.AsListed | Frontend/src/components/SocketEventsHandler/SocketEventsHandler.jsx:36-41 | a direct chat gets `getOtherUser` as its other user; a group is kept |
| SocketEvents.HandleNewMessage | Frontend/src/components/SocketEventsHandler/SocketEventsHandler.jsx:30-59 | an unlisted chat is listed first. An unselected chat gets only the preview and no emit. The selected chat's messages and latest message take the message, and `messages-read` goes out only when someone else sent it |
| SocketEvents.UnselectedMessageCountsUnread | Frontend/src/components/SocketEventsHandler/SocketEventsHandler.jsx:34-47 | for an unselected chat the chat goes on top with the message and one more unread |
| SocketEvents.SelectedMessageKeepsUnread | Frontend/src/components/SocketEventsHandler/SocketEventsHandler.jsx:48-50 | for the selected chat no unread count changes |
| SocketEvents.HandleDeleteMsg | Frontend/src/components/SocketEventsHandler/SocketEventsHandler.jsx:61-68 | a notice lacking either id is ignored; otherwise the tombstone reducer runs |
| SocketEvents.HandleReadByUser | Frontend/src/components/SocketEventsHandler/SocketEventsHandler.jsx:75-83 | the current user's own reads are ignored; others' run the read reducer |
| SocketEvents.HandleDelivered | Frontend/src/components/SocketEventsHandler/SocketEventsHandler.jsx:84-86 | runs the delivery reducer |
| SocketEvents.HandleTyping | Frontend/src/components/SocketEventsHandler/SocketEventsHandler.jsx:72-90 | typing adds the user and stop-typing removes them |
| AuthSlice.AuthStore.constructor | Frontend/src/features/auth/authSlice.js:14-20 | the initial state |
| AuthSlice.AuthStore.SetError | Frontend/src/features/auth/authSlice.js:22-24 | only the error changes |
| AuthSlice.AuthStore.UpdateUserStatus | Frontend/src/features/auth/authSlice.js:25-31 | the user is online exactly when listed; no user means no change |
| AuthSlice.AuthStore.SessionPending | Frontend/src/features/auth/authSlice.js:35-79 | each session pending case (login, register, logout, getMe) sets only the loading flag |
| AuthSlice.AuthStore.SignedIn | Frontend/src/features/auth/authSlice.js:38-85 | the login, register and getMe fulfilments set the user to the payload, logged in, not loading, no error |
| AuthSlice.AuthStore.SignedOut | Frontend/src/features/auth/authSlice.js:66-71 | no user, logged out, not loading, no error |
| AuthSlice.AuthStore.SessionRejected | Frontend/src/features/auth/authSlice.js:44-75 | in the login, register and logout rejections the error is set and user and login state are kept |
| AuthSlice.AuthStore.GetMeRejected | Frontend/src/features/auth/authSlice.js:86-90 | the only rejection that logs out; the user record stays |
| AuthSlice.AuthStore.DetailsPending | Frontend/src/features/auth/authSlice.js:91-117 | each details pending case sets `updatingDetails` and nothing else |
| AuthSlice.AuthStore.DetailsRejected | Frontend/src/features/auth/authSlice.js:99-126 | in each details rejection the error is set and `updatingDetails` cleared |
| AuthSlice.AuthStore.ProfilePicUpdated | Frontend/src/features/auth/authSlice.js:94-98 | only the picture is copied, and the flag and the error are cleared; with no user the reducer throws and the state stays |
| AuthSlice.AuthStore.BioUpdated | Frontend/src/features/auth/authSlice.js:106-110 | only the bio is copied, and the flag and the error are cleared; with no user it throws |
| AuthSlice.AuthStore.UsernameUpdated | Frontend/src/features/auth/authSlice.js:118-122 | only the username is copied, and the flag and the error are cleared; with no user it throws |
| UserSlice.UserList.constructor | Frontend/src/features/user/userSlice.js:6-10 | the initial state |
| UserSlice.UserList.ClearUserList | Frontend/src/features/user/userSlice.js:12-16 | an empty list, not loading, no error |
| UserSlice.UserList.FetchPending | Frontend/src/features/user/userSlice.js:20-23 | loading, no error, the list kept |
| UserSlice.UserList.FetchFulfilled | Frontend/src/features/user/userSlice.js:24-27 | not loading, and the list is the payload |
| UserSlice.UserList.FetchRejected | Frontend/src/features/user/userSlice.js:28-31 | not loading, the error is the payload, and the list is kept |

## Left out

- Cloudinary uploads and deletes, and streamifier: the upload is an input (`FileInput`) and each destroy is a returned request (`Destroy`); their results are not modelled. A failed destroy is logged and ignored, which is why it cannot stop the tombstone.
- Mongoose `populate`, `select` and the referencing of records by id: replies carry stored records (ids) rather than populated documents.
- `getChats` orders by `updatedAt`, a timestamp Mongoose maintains; `ChatController.ChatsWithUnread` keeps storage order instead.
- `mongoose.Types.ObjectId.isValid` checks and their 400 replies: every id in the model is well formed.
- `getChat` does not check that the caller is a member. The model follows the code and does not add the check.
- Interleaving of the asynchronous handlers at `await` points: the model runs each handler to completion.
- The server's `catch` branches for database failures (500) other than the ones that happen after a save (rename, and the two deletes when the chat is gone).
- Socket.IO transport and room delivery: emits are returned as an event log (`Events`). The client socket's lifecycle, its subscriptions and reconnection (`SocketContext.jsx`) are not modelled.
- The clock: `Date.now()` and `new Date()` are parameters (`now`).
- `SocketServer.Connect`: the chats are read before the `userId` check. The model takes that read as having no effect.
- `SocketEvents.HandleNewMessage`: the handler reads `chats` and `selectedChatId` through a React closure, which can be stale. The model reads the store's current state.
- JavaScript arrays that may be absent (`readBy`, `deliveredTo`, `deletedFor`, `members`) are modelled as empty sequences.
- The chat slice's `pending`/`rejected` matchers also react to actions of other slices and to the thunks that own cases. `ChatSlice.ChatStore.Pending` and `ChatSlice.ChatStore.Rejected` are the matcher bodies; dispatch order is the caller's.
- `ChatSlice.ChatStore.DeleteMessageForMeFulfilled`, `ChatSlice.ChatStore.DeleteMessageForEveryoneFulfilled`: as in the code, they leave `Loading` as the pending matcher set it.
- Authentication (`AuthController.js`, the middleware, JWT, bcrypt, cookies), the registration schema, `userController.js`, the HTTP thunks, and all React UI and configuration files are not part of this model.
- `MessageController.ToLower`: only ASCII letters are lowered; JavaScript lowers all of Unicode. This matters only for extensions outside ASCII, which no listed extension is.
- Tie order of the database's `sort({ createdAt: -1 })`: MongoDB does not specify the order of documents with equal `createdAt`. The model keeps storage order for them, so `ChatController.GetChat`, `MessageController.DeleteForMe` and `MessageController.MostRecentVisible` pin one order that the database does not promise.
- The `lastSeen` the server sends is a `Date`, which reaches the client as a date string; the model keeps it as the same integer timestamp on both sides.
- `TimeAgo.FormatTimeAgo`: `new Date(timestamp)` is taken as a millisecond count; date-string parsing is not modelled.

## Findings

| source | as written | input that shows it | evidently intended | confidence | as-written member | corrected member |
|---|---|---|---|---|---|---|
| Backend/controllers/ChatController.js:287-296 | after `chat.save()`, the handler assigns the undeclared `updatedChat`, which throws in an ES module, so it replies 500 although the new name is stored | renaming group 0 (members 1, 2) to "team" | reply 200 with the renamed chat | not executed | ChatController.RenameAsWritten, ChatController.RenameAsWrittenFailsAfterSaving | ChatController.RenameIntended, ChatController.Rename |
