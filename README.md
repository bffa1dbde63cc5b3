# WhisperLink chat core in Dafny

WhisperLink is an anonymous chat application. The model covers both halves of it.

The web client:

- `useChat`, the hook behind the chat screen. It tracks the chat status (idle, searching, chatting, ended) and the message list with its `sent`/`delivered`/`read` receipts. It also holds each message's emoji reactions, kept as an object from emoji to reactors, in which the user sits under at most one emoji.
- The older `ChatClient` page component, which has the same flow with plain text messages.
- `useInterests`, the interest tags list: Enter adds the trimmed input once; a tag can be removed.
- The `user` slice: sign-in gives the user a generated display name (an adjective, a noun and a three-digit number). The slice also covers sign-out, restoring the user from the browser's storage, and renaming (cut to 20 characters) or changing the avatar.

The API server:

- The chat handlers:
  - `createChat`: a direct chat between two users is created only once; a group needs a name.
  - `getUserChats`: chats ordered by last activity.
  - `getChatMessages`: a page of a chat's messages, newest first, returned oldest first, with `hasMore`.
  - `sendMessage`: creates a message and touches its chat.
  - `markMessagesAsRead`: pushes one receipt per unread message from someone else.
- The Mongoose documents for chats, messages, accounts and profiles. Setters (`trim`, `lowercase`) run before validators; `required` comes first; each failing path reports its first failure; defaults apply; unique indexes are kept.
- The zod request schemas of the account endpoints.

How the model is built:

- **Client hook, page component, interests hook, user slice.** Each is a class whose methods are the event handlers. Every state change is written out in the method's `ensures`, and a `Valid()` invariant is kept. Timers become separate steps (`CompleteMatch`, `Deliver`, `MarkRead`, `ReceiveReply`, `StrangerReact`). Random choices are inputs, and `Date.now()` ids are a counter `nextId`.
- **Documents and schemas.** These are pure functions from the given fields to either the stored document or the list of violations.
- **Handlers.** Each is a function over the three collections, which are held as sequences. The `ChatServer` class applies a handler and stores its result.

Properties proved:

- The user is under at most one emoji after any sequence of clicks. A click on the current emoji removes the user; any other click moves them there. The stranger's entries are untouched by the user's clicks, and the stranger is listed at most once under an emoji.
- Receipts change only one message's status, and a later receipt overwrites an earlier one.
- Interest lists stay duplicate-free and hold only trimmed, non-empty tags.
- A generated name is at most 19 characters, so the 20-character cut never changes it. Its number reads back as `100 + num`.
- A direct chat is created only once. A repeat call returns the stored chat.
- A message page has at most `limit` messages, a full `limit` when enough remain, only visible messages of that chat, and runs oldest first. Each page is a fixed stretch of the newest-first list, and the default page holds the newest 50. `hasMore` holds exactly when messages remain beyond the page.
- Marking messages as read gives each message at most one receipt per user and is idempotent.
- Every chat, message, account or profile that `create` stores satisfies its schema. The later updates of chats (`Touch`) and messages (`MarkOne`) keep the schema satisfied. Creating a document again from its own fields gives it back as `create` stored it, before any later update. After an update the timestamps and `lastMessage` no longer match what `create` would set.
- A registered username also passes the account document's rules. A name made only of spaces passes the request schema but is refused by the account document.

## Model

| member | source | states |
|---|---|---|
| ChatRoom.SetKey | apps/web/src/app/chat/hooks/useChat.ts:126-129 | setting an emoji's list changes that key's lookup to the new list and no other key's; every entry is the new one or an old one |
| ChatRoom.SetKeyDistinct | apps/web/src/app/chat/hooks/useChat.ts:126-129 | setting a key keeps the object's keys distinct |
| ChatRoom.DeleteKey | apps/web/src/app/chat/hooks/useChat.ts:119-121 | `delete` makes that key read as empty, leaves other keys alone, keeps only old entries and keeps keys distinct |
| ChatRoom.UserEmoji | apps/web/src/app/chat/hooks/useChat.ts:113 | when no emoji is found, the user is under no emoji; a found emoji lists the user |
| ChatRoom.AddStranger | apps/web/src/app/chat/hooks/useChat.ts:142-150 | the stranger is added under the chosen emoji only if not already there; every other emoji's list is unchanged |
| ChatRoom.AddStrangerOthers | apps/web/src/app/chat/hooks/useChat.ts:142-150 | apart from the stranger's own entries, no list changes |
| ChatRoom.AddStrangerSpec | apps/web/src/app/chat/hooks/useChat.ts:142-150 | the stranger's reaction keeps keys distinct, the user under at most one emoji and no list empty |
| ChatRoom.WithoutUserSpec | apps/web/src/app/chat/hooks/useChat.ts:113-122 | taking the user off their emoji leaves each list as it was minus the user, keeps keys distinct and drops a list that becomes empty |
| ChatRoom.WithoutUser | apps/web/src/app/chat/hooks/useChat.ts:113-122 | the user taken off the emoji they were found under, that emoji dropped when its list empties; `WithoutUserSpec` states its effect |
| ChatRoom.ToggleUserSpec | apps/web/src/app/chat/hooks/useChat.ts:107-132 | a click keeps keys distinct, the user under at most one emoji and no list empty |
| ChatRoom.ToggleUser | apps/web/src/app/chat/hooks/useChat.ts:110-131 | the reactions after the user clicks an emoji: off their current emoji, then onto the clicked one unless it was that one; `ToggleUserSpec`, `TogglePlacesUser` and `ToggleKeepsStranger` state its effect |
| ChatRoom.TogglePlacesUser | apps/web/src/app/chat/hooks/useChat.ts:116-130 | clicking the emoji the user is under removes them everywhere; any other click lists them exactly once, under that emoji only |
| ChatRoom.ToggleKeepsStranger | apps/web/src/app/chat/hooks/useChat.ts:107-132 | the user's click leaves every entry of the stranger's where it was |
| ChatRoom.UpdateWhere | apps/web/src/app/chat/hooks/useChat.ts:70 | mapping by id keeps the length and changes exactly the messages with that id |
| ChatRoom.ReceiptChangesOne | apps/web/src/app/chat/hooks/useChat.ts:69-78 | with increasing ids a receipt changes at most one message, and only its status, which becomes the new receipt |
| ChatRoom.ReceiptOverwrites | apps/web/src/app/chat/hooks/useChat.ts:69-78 | the read receipt after the delivered one gives the same list as the read receipt alone |
| ChatRoom.ChatRoom.constructor | apps/web/src/app/chat/hooks/useChat.ts:8-13 | the hook starts idle, with no messages, an empty input, the name `Stranger` and nobody typing |
| ChatRoom.ChatRoom.AddMessage | apps/web/src/app/chat/hooks/useChat.ts:25-33 | appends one message with a fresh id, no reactions and the given fields; returns the id; nothing else changes |
| ChatRoom.ChatRoom.SetInput | apps/web/src/app/chat/hooks/useChat.ts:10 | only the input changes |
| ChatRoom.ChatRoom.StartSearch | apps/web/src/app/chat/hooks/useChat.ts:35-38 | the status becomes searching and the list becomes just the searching notice |
| ChatRoom.ChatRoom.CompleteMatch | apps/web/src/app/chat/hooks/useChat.ts:40-46 | the picked name becomes the stranger's, the status becomes chatting and the connected notice naming them is appended |
| ChatRoom.ChatRoom.EndChat | apps/web/src/app/chat/hooks/useChat.ts:49-54 | a running chat ends with the disconnected notice; in any other status nothing changes |
| ChatRoom.ChatRoom.NextChat | apps/web/src/app/chat/hooks/useChat.ts:56-60 | from chatting or ended a new search starts; from idle or searching nothing changes |
| ChatRoom.ChatRoom.SendMessage | apps/web/src/app/chat/hooks/useChat.ts:62-66 | a blank input or a chat that is not running changes nothing; otherwise the text as typed is appended as the user's `sent` message, the input is cleared and the new id is returned |
| ChatRoom.ChatRoom.Deliver | apps/web/src/app/chat/hooks/useChat.ts:69-71 | the message with that id becomes `delivered`; nothing else changes |
| ChatRoom.ChatRoom.MarkRead | apps/web/src/app/chat/hooks/useChat.ts:75-78 | the message with that id becomes `read` and the stranger is typing |
| ChatRoom.ChatRoom.ReceiveReply | apps/web/src/app/chat/hooks/useChat.ts:80-83 | the stranger stops typing and their canned reply is appended |
| ChatRoom.ChatRoom.AttachFile | apps/web/src/app/chat/hooks/useChat.ts:86-105 | no file changes nothing; a file is appended as the user's `sent` message with its name and URL, shown as an image exactly when its type starts with `image/` |
| ChatRoom.KindOf | apps/web/src/app/chat/hooks/useChat.ts:91 | a file whose MIME type starts with `image/` is an image, any other is `other` |
| ChatRoom.ChatRoom.React | apps/web/src/app/chat/hooks/useChat.ts:107-135 | the message with that id gets the user's click toggled on its reactions; the invariant (user under at most one emoji, no empty list, distinct keys) is kept |
| ChatRoom.ChatRoom.StrangerReact | apps/web/src/app/chat/hooks/useChat.ts:137-156 | the message with that id gets the stranger's reaction with the chosen emoji; the invariant is kept |
| ChatClient.ChatClient.constructor | apps/web/src/app/chat/chat-client.tsx:36-42 | the component starts idle with no messages, the interest list `Chatting` and the name `Stranger` |
| ChatClient.ChatClient.AddMessage | apps/web/src/app/chat/chat-client.tsx:58-60 | appends one message with a fresh id; nothing else changes |
| ChatClient.ChatClient.SetInput | apps/web/src/app/chat/chat-client.tsx:36-42 | only the input changes |
| ChatClient.ChatClient.StartSearch | apps/web/src/app/chat/chat-client.tsx:62-65 | the status becomes searching and the list becomes just the searching notice |
| ChatClient.ChatClient.CompleteMatch | apps/web/src/app/chat/chat-client.tsx:66-73 | the picked name is the stranger's, the status becomes chatting and the connected notice is appended |
| ChatClient.ChatClient.EndChat | apps/web/src/app/chat/chat-client.tsx:76-81 | only a running chat ends, with the disconnected notice |
| ChatClient.ChatClient.NextChat | apps/web/src/app/chat/chat-client.tsx:83-87 | only from chatting or ended does a new search start |
| ChatClient.ChatClient.SendMessage | apps/web/src/app/chat/chat-client.tsx:89-95 | a non-blank input in a running chat is appended as typed and the input cleared; otherwise nothing changes |
| ChatClient.ChatClient.ReceiveReply | apps/web/src/app/chat/chat-client.tsx:96-98 | the stranger's canned reply is appended |
| ChatClient.ChatClient.SetInterestInput | apps/web/src/app/chat/chat-client.tsx:39-40 | only the interest input changes |
| ChatClient.ChatClient.InterestKeyDown | apps/web/src/app/chat/chat-client.tsx:101-110 | Enter with a non-blank input adds the trimmed tag if new and clears the input; otherwise nothing changes; tags stay distinct, trimmed and non-empty |
| ChatClient.ChatClient.RemoveInterest | apps/web/src/app/chat/chat-client.tsx:112-114 | the list loses the tag and keeps the rest |
| Interests.AddInterest | apps/web/src/app/chat/hooks/useInterests.ts:11-14 | a trimmed input already listed leaves the list as it was; a new one is appended |
| Interests.Accepts | apps/web/src/app/chat/hooks/useInterests.ts:9 | the key handler acts only on Enter with an input that is not blank after trimming |
| Interests.AddInterestSpec | apps/web/src/app/chat/hooks/useInterests.ts:8-17 | an added tag is non-empty and trimmed, and a duplicate-free list stays duplicate-free |
| Interests.RemoveInterest | apps/web/src/app/chat/hooks/useInterests.ts:19-21 | the tag is gone, every other tag stays, and the list does not grow |
| Interests.RemoveInterestSpec | apps/web/src/app/chat/hooks/useInterests.ts:19-21 | every other tag keeps its number of occurrences, duplicate-freedom is kept, and removing twice is removing once |
| Interests.InterestPicker.constructor | apps/web/src/app/chat/hooks/useInterests.ts:4-6 | the hook starts from the given list and an empty input |
| Interests.InterestPicker.SetInput | apps/web/src/app/chat/hooks/useInterests.ts:6 | only the input changes |
| Interests.InterestPicker.KeyDown | apps/web/src/app/chat/hooks/useInterests.ts:8-17 | Enter with a non-blank input adds the trimmed input if new and always clears the input; any other key or a blank input changes nothing |
| Interests.InterestPicker.Remove | apps/web/src/app/chat/hooks/useInterests.ts:19-21 | the list loses the tag; the input stays |
| UserSlice.WordListsAreLetters | apps/web/src/lib/redux/slices/userSlice.ts:3-4 | the adjectives and nouns are letters only, of 4-9 and 4-7 characters |
| UserSlice.GenerateUsername | apps/web/src/lib/redux/slices/userSlice.ts:6-11 | the name is the adjective, then the noun, then three digits reading `100 + num`, at most 19 characters |
| UserSlice.Take | apps/web/src/lib/redux/slices/userSlice.ts:62 | `slice(0, n)` gives the prefix of at most `n` characters, the whole string when it is short enough and exactly `n` otherwise |
| UserSlice.GeneratedNameFits | apps/web/src/lib/redux/slices/userSlice.ts:6-11 | cutting a generated name to 20 characters leaves it unchanged |
| UserSlice.UserSlice.constructor | apps/web/src/lib/redux/slices/userSlice.ts:24-27 | the slice starts with no user, idle |
| UserSlice.UserSlice.Login | apps/web/src/lib/redux/slices/userSlice.ts:33-40 | the user is the payload with a generated name; the status is `succeeded`; in a browser the stored copy is that user |
| UserSlice.UserSlice.Logout | apps/web/src/lib/redux/slices/userSlice.ts:41-47 | no user, idle; in a browser the stored copy is removed |
| UserSlice.UserSlice.InitializeUser | apps/web/src/lib/redux/slices/userSlice.ts:48-59 | in a browser the stored user is restored (`succeeded`) or the status falls back to idle; outside a browser the status stays `loading` |
| UserSlice.UserSlice.UpdateUsername | apps/web/src/lib/redux/slices/userSlice.ts:60-68 | when signed in the name becomes the first 20 characters and the stored copy follows in a browser; signed out nothing changes |
| UserSlice.UserSlice.UpdateAvatar | apps/web/src/lib/redux/slices/userSlice.ts:69-76 | when signed in the avatar is replaced and the stored copy follows in a browser; signed out nothing changes |
| ChatApi.Readers | apps/services/api-server/src/models/message.model.ts:51-63 | the users of the receipts, in order |
| ChatApi.ValidChatId | apps/services/api-server/src/controllers/chat.controller.ts:131 | the chat-id guard: the id is non-empty and passes `ObjectId.isValid` (the parameter `validId`) |
| ChatApi.HasAccess | apps/services/api-server/src/controllers/chat.controller.ts:139-142 | the access query `{ _id: chatId, participants: userId }`: some stored chat has that id and lists the caller |
| ChatApi.FindDirect | apps/services/api-server/src/controllers/chat.controller.ts:32-48 | the index of the first direct chat of exactly two that includes both users, or none when no chat is one |
| ChatApi.FindDirectFrom | apps/services/api-server/src/controllers/chat.controller.ts:33-48 | the `findOne` scan for a direct chat between the two users from index `i` on: a found index holds such a chat, and none before it does |
| ChatApi.CreateChatGuards | apps/services/api-server/src/controllers/chat.controller.ts:15-29 | a missing or empty participant is refused first; then an unknown valid id; then a group without a non-blank name |
| ChatApi.NewChatFields | apps/services/api-server/src/controllers/chat.controller.ts:51-65 | the fields `createChat` passes to `Chat.create`: the type, the caller and the participant, `lastActivity` now, and for a group the trimmed name and the caller as admin |
| ChatApi.CreatedChat | apps/services/api-server/src/controllers/chat.controller.ts:51-69 | a created chat has the new unused id, the caller and the participant, no last message and the current time. It is direct only when no direct chat between the two exists. A group has the trimmed non-blank name of at most 50 characters and the caller as its only admin |
| ChatApi.NewChatStored | apps/services/api-server/src/controllers/chat.controller.ts:51-69 | what `Chat.create` stores from the handler's fields: the type asked for, the two participants, and, for a group, the trimmed name and the creator as admin |
| ChatApi.DirectChatOnce | apps/services/api-server/src/controllers/chat.controller.ts:32-48 | after a direct chat is created, the same request returns that chat instead of creating another |
| ChatApi.ExistingChat | apps/services/api-server/src/controllers/chat.controller.ts:32-48 | a chat returned as existing is stored and is a direct chat between the two |
| ChatApi.CreateKeepsValid | apps/services/api-server/src/controllers/chat.controller.ts:9-87 | creating keeps chat ids unique and no two direct chats between the same people |
| ChatApi.CreateChatResult | apps/services/api-server/src/controllers/chat.controller.ts:9-87 | the `createChat` handler as a function of the store: its replies are stated by `CreateChatGuards` (each refusal and its cause), `ExistingChat` and `DirectChatOnce` (a direct chat is returned, not duplicated) and `CreatedChat` (what a new chat holds) |
| ChatApi.UserChats | apps/services/api-server/src/controllers/chat.controller.ts:93-105 | the chats the user takes part in, each exactly as many times as it is stored and no other chat, most recently active first |
| ChatApi.ChatsWith | apps/services/api-server/src/controllers/chat.controller.ts:93-95 | the query `participants: userId` keeps the user's chats, each exactly as many times as stored, and no other |
| ChatApi.OrDefault | apps/services/api-server/src/controllers/chat.controller.ts:126-127 | the `parseInt(...)` fallback: an absent or zero value gives the default, any other value is kept |
| ChatApi.Abs | apps/services/api-server/src/controllers/chat.controller.ts:158 | a negative `limit` takes its absolute value of documents |
| ChatApi.CeilDiv | apps/services/api-server/src/controllers/chat.controller.ts:167 | `Math.ceil(total / limit)`; `CeilDivSpec` states that it is the ceiling for either sign |
| ChatApi.CeilDivSpec | apps/services/api-server/src/controllers/chat.controller.ts:167 | `Math.ceil(total / limit)` is the least whole number of pages that cover the total, for either sign of the limit |
| ChatApi.Visible | apps/services/api-server/src/controllers/chat.controller.ts:152-155 | the chat's non-deleted messages, each exactly as many times as it is stored and no other message |
| ChatApi.VisibleConcat | apps/services/api-server/src/controllers/chat.controller.ts:152-155 | the query keeps the stored order: the visible messages of two stretches of the collection are those of the first, then those of the second |
| ChatApi.NewestFirst | apps/services/api-server/src/controllers/chat.controller.ts:157 | a permutation of the messages (the same multiset), ordered by creation time, newest first |
| ChatApi.Window | apps/services/api-server/src/controllers/chat.controller.ts:158-159 | the elements from `skip` on, at most `limit` of them, in order |
| ChatApi.ChatMessages | apps/services/api-server/src/controllers/chat.controller.ts:122-189 | the `getChatMessages` handler: invalid chat id, access denied and a negative `skip` are its errors; `OkPage`, `PageContents`, `HasMoreExactly`, `PagesArith` and `DefaultPage` state what a successful reply holds |
| ChatApi.HasMoreExactly | apps/services/api-server/src/controllers/chat.controller.ts:167-178 | with a positive limit the page is at least 1, and `hasMore` holds exactly when messages remain beyond this page |
| ChatApi.PagesArith | apps/services/api-server/src/controllers/chat.controller.ts:167-177 | `page < ceil(total / limit)` exactly when `page * limit < total` |
| ChatApi.PageContents | apps/services/api-server/src/controllers/chat.controller.ts:152-176 | a page holds only the chat's visible messages, at most `limit`, a full `limit` when enough remain, oldest first; it is the newest-first window from `skip` on, reversed, so (by `PageOf`) its `k`-th message is the newest-first visible message at position `skip + size - 1 - k`; the total counts the visible messages |
| ChatApi.OkPage | apps/services/api-server/src/controllers/chat.controller.ts:122-176 | a successful reply has a non-negative `skip`; its messages are the newest-first window of the visible messages from `skip` on, reversed; it carries the requested page and the visible count |
| ChatApi.PageOf | apps/services/api-server/src/controllers/chat.controller.ts:152-172 | the reversed newest-first window is bounded by `limit`, full when possible, holds only visible messages of the chat, runs oldest first, and its `k`-th element is the one at position `skip + size - 1 - k` of the newest-first list |
| ChatApi.ReversedWindow | apps/services/api-server/src/controllers/chat.controller.ts:157-172 | reversing a window of a newest-first list gives an oldest-first page of the right size whose `k`-th element is the list's element at `skip + size - 1 - k` |
| ChatApi.DefaultPage | apps/services/api-server/src/controllers/chat.controller.ts:126-128 | without page or limit, a participant gets page 1 with 50 messages, or all of them when there are fewer; they are the first 50 of the newest-first list, reversed |
| ChatApi.DefaultPageNewest | apps/services/api-server/src/controllers/chat.controller.ts:126-172 | the default page holds the newest messages: its `k`-th message is the `k`-th newest counted back from the end of the page, and no visible message left off the page is newer than one on it |
| ChatApi.FirstPage | apps/services/api-server/src/controllers/chat.controller.ts:157-172 | the reversed first window of a newest-first list holds its first elements in reverse order, and no later element is newer than one of them |
| ChatApi.HandlerTrimRedundant | apps/services/api-server/src/controllers/chat.controller.ts:235-246 | trimming the content in the handler as well as in the schema stores the same message as trimming it once |
| ChatApi.NewMessageFields | apps/services/api-server/src/controllers/chat.controller.ts:235-244 | the fields `sendMessage` passes to `Message.create`: sender, chat, content, type, and the file URL only when it is non-empty |
| ChatApi.Touch | apps/services/api-server/src/controllers/chat.controller.ts:249-252 | only the chat with that id gets the message as its last one and the time as its activity and update time |
| ChatApi.TouchKeepsSchema | apps/services/api-server/src/controllers/chat.controller.ts:249-252 | touching a chat keeps every chat's schema satisfied |
| ChatApi.SendMessageGuards | apps/services/api-server/src/controllers/chat.controller.ts:198-232 | the guards reply in order: blank content, invalid chat id, not a participant, non-text message without a file URL |
| ChatApi.SendAccepted | apps/services/api-server/src/controllers/chat.controller.ts:191-272 | a message is sent exactly when no guard replies, the trimmed content is at most 1000 characters, the type is in the enum, a given file URL is `http(s)://` and the id is new |
| ChatApi.SentMessage | apps/services/api-server/src/controllers/chat.controller.ts:235-246 | a sent message is the caller's, in the chat, with the trimmed non-empty content, the asked type, unread, not deleted and created now; a non-text one carries an `http(s)` URL |
| ChatApi.SendTouchesChat | apps/services/api-server/src/controllers/chat.controller.ts:249-252 | the chat then names the message as its last one and is active now; other chats are unchanged and access is kept |
| ChatApi.TouchKeepsChatsValid | apps/services/api-server/src/controllers/chat.controller.ts:249-252 | touching keeps chat ids unique and direct chats distinct |
| ChatApi.AppendKeepsMessagesValid | apps/services/api-server/src/controllers/chat.controller.ts:246 | a fresh message without receipts keeps message ids and receipts unique |
| ChatApi.SendKeepsValid | apps/services/api-server/src/controllers/chat.controller.ts:191-272 | sending keeps the whole store valid |
| ChatApi.SendMessageResult | apps/services/api-server/src/controllers/chat.controller.ts:191-272 | the `sendMessage` handler: `SendMessageGuards` states each refusal and its cause, `SendAccepted` and `SentMessage` what is stored, `SendTouchesChat` the chat's new activity time |
| ChatApi.ReadScope | apps/services/api-server/src/controllers/chat.controller.ts:308-315 | the scope is exactly the given ids that are valid; when none is valid the whole chat is in scope |
| ChatApi.ToMark | apps/services/api-server/src/controllers/chat.controller.ts:301-314 | the `updateMany` query: a message of that chat, sent by someone else, not yet read by the caller, and in the scope when ids are given |
| ChatApi.MarkOne | apps/services/api-server/src/controllers/chat.controller.ts:334-338 | the pushed receipt: the caller with `readAt` now goes last in `readBy`, `updatedAt` becomes now, and id, sender, chat, content, type, file URL, deleted flag and creation time are kept |
| ChatApi.MarkReadKeepsSchema | apps/services/api-server/src/controllers/chat.controller.ts:334-338 | marking messages as read keeps every message's schema satisfied |
| ChatApi.MarkRead | apps/services/api-server/src/controllers/chat.controller.ts:301-338 | exactly the messages matched by the query get the receipt; the rest are unchanged |
| ChatApi.CountToMark | apps/services/api-server/src/controllers/chat.controller.ts:318-326 | the count is zero exactly when no message matches the query |
| ChatApi.MarkReadLeavesOthers | apps/services/api-server/src/controllers/chat.controller.ts:301-305 | the caller's own messages, other chats, already-read and out-of-scope messages are unchanged |
| ChatApi.MarkReadOnce | apps/services/api-server/src/controllers/chat.controller.ts:301-338 | no message gets a second receipt from the same user, and every in-scope message from someone else ends with exactly one from the caller |
| ChatApi.MarkReadIdempotent | apps/services/api-server/src/controllers/chat.controller.ts:301-338 | after marking nothing is left to mark, and marking again changes nothing |
| ChatApi.MarkReadNothing | apps/services/api-server/src/controllers/chat.controller.ts:318-332 | when nothing matches, the update changes nothing |
| ChatApi.MarkKeepsValid | apps/services/api-server/src/controllers/chat.controller.ts:274-355 | marking keeps the store valid |
| ChatApi.MarkReadResult | apps/services/api-server/src/controllers/chat.controller.ts:274-355 | the `markMessagesAsRead` handler: `ReadScope` states which messages it marks, `CountToMark` the count it replies with, `MarkReadOnce` and `MarkReadIdempotent` that each reader is recorded once |
| ChatApi.ChatServer.constructor | apps/services/api-server/src/controllers/chat.controller.ts:2-5 | the server starts with the given users and no chats or messages |
| ChatApi.ChatServer.CreateChat | apps/services/api-server/src/controllers/chat.controller.ts:9-87 | the reply is the handler's, a created chat is appended, and the store stays valid |
| ChatApi.ChatServer.SendMessage | apps/services/api-server/src/controllers/chat.controller.ts:191-272 | a sent message is appended and its chat touched; a refused one changes nothing; the store stays valid |
| ChatApi.ChatServer.Commit | apps/services/api-server/src/controllers/chat.controller.ts:246-252 | the message is appended and the touched chats stored, keeping the store valid |
| ChatApi.ChatServer.MarkMessagesAsRead | apps/services/api-server/src/controllers/chat.controller.ts:274-355 | the reply is the handler's; with access the matching messages are marked; chats are unchanged; the store stays valid |
| ChatSchema.ParseChatType | apps/services/api-server/src/models/chat.model.ts:16-20 | `direct` or missing gives direct, `group` gives group, anything else is outside the enum |
| ChatSchema.ParticipantsFrom | apps/services/api-server/src/models/chat.model.ts:22-28 | from index `k` on, a participant is reported under its index exactly when missing |
| ChatSchema.ParticipantViolations | apps/services/api-server/src/models/chat.model.ts:22-28 | a participant is reported under its index exactly when missing; none when all are given |
| ChatSchema.CreateChat | apps/services/api-server/src/models/chat.model.ts:16-49 | stored exactly when the type is in the enum, every participant is given and the trimmed name has at most 50 characters; the name is stored trimmed and the defaults apply |
| ChatSchema.ChatViolationsSpec | apps/services/api-server/src/models/chat.model.ts:16-35 | each path reports exactly its own failure, and no failure means no violation |
| ChatSchema.RecreateChat | apps/services/api-server/src/models/chat.model.ts:16-49 | a chat with a trimmed, bounded name is what creating it from its own fields stores |
| ChatSchema.CreateChatStable | apps/services/api-server/src/models/chat.model.ts:16-49 | creating a stored chat again from its own fields gives the same chat |
| ChatSchema.StoredChatValid | apps/services/api-server/src/models/chat.model.ts:16-49 | a chat `create` stores raises no violation on its own fields |
| MessageSchema.ParseMessageType | apps/services/api-server/src/models/message.model.ts:35-39 | `text` or missing gives text, `image` and `file` give theirs, anything else is outside the enum |
| MessageSchema.ContentFailureSpec | apps/services/api-server/src/models/message.model.ts:28-33 | the content fails `required` exactly when missing or blank, fails `maxLength` exactly when longer than 1000 once trimmed, and passes otherwise |
| MessageSchema.ReadersFrom | apps/services/api-server/src/models/message.model.ts:51-63 | from index `k` on, a receipt is reported under its index exactly when it has no user |
| MessageSchema.ReaderViolations | apps/services/api-server/src/models/message.model.ts:51-63 | a receipt is reported exactly when it has no user, always as `required` |
| MessageSchema.AtFields | apps/services/api-server/src/models/message.model.ts:22-49 | the four single-valued paths report nothing exactly when none fails |
| MessageSchema.AtFieldsMember | apps/services/api-server/src/models/message.model.ts:22-49 | a failure listed under a single-valued path is that path's own failure |
| MessageSchema.MessageViolations | apps/services/api-server/src/models/message.model.ts:22-63 | no violation exactly when no path fails |
| MessageSchema.NoMessageViolations | apps/services/api-server/src/models/message.model.ts:22-63 | no violation exactly when there is a sender, a content of 1 to 1000 characters once trimmed, a type in the enum, an accepted file URL and a user on every receipt |
| MessageSchema.MessageViolationAt | apps/services/api-server/src/models/message.model.ts:22-63 | each path reports exactly its own failure, whatever the other paths hold |
| MessageSchema.SameContentFailure | apps/services/api-server/src/models/message.model.ts:28-33 | contents that fail the same way give the same violations |
| MessageSchema.SameTrimmedContent | apps/services/api-server/src/models/message.model.ts:28-33 | contents with the same trimmed form make the same message |
| MessageSchema.Receipts | apps/services/api-server/src/models/message.model.ts:51-63 | each stored receipt keeps its user, and `readAt` defaults to the creation time |
| MessageSchema.CreateMessage | apps/services/api-server/src/models/message.model.ts:22-72 | stored exactly when the paths pass; the content is stored trimmed, the defaults apply, and a rejected message reports its violations |
| MessageSchema.RejectedContent | apps/services/api-server/src/models/message.model.ts:28-33 | the content is reported missing exactly when missing or blank, too long exactly when over 1000 characters once trimmed |
| MessageSchema.RejectedReaders | apps/services/api-server/src/models/message.model.ts:51-63 | each receipt without a user is reported under its index, and no other |
| MessageSchema.RejectedPaths | apps/services/api-server/src/models/message.model.ts:22-63 | each kind of violation is reported exactly when its path fails |
| MessageSchema.StoredFileUrl | apps/services/api-server/src/models/message.model.ts:41-49 | a stored non-empty file URL is `http://` or `https://` followed by something |
| MessageSchema.ReceiptFieldsOf | apps/services/api-server/src/models/message.model.ts:51-63 | a stored receipt read back as given fields |
| MessageSchema.RecreateMessage | apps/services/api-server/src/models/message.model.ts:22-72 | a message with trimmed bounded content and an accepted URL is what creating it from its own fields stores |
| MessageSchema.CreateMessageStable | apps/services/api-server/src/models/message.model.ts:22-72 | creating a stored message again from its own fields gives the same message |
| MessageSchema.StoredMessageValid | apps/services/api-server/src/models/message.model.ts:22-72 | a message `create` stores raises no violation on its own fields |
| MessageSchema.ParseMessageTypeName | apps/services/api-server/src/models/message.model.ts:35-39 | a type's enum string parses back to that type |
| MessageSchema.ReceiptsRoundTrip | apps/services/api-server/src/models/message.model.ts:51-63 | storing receipts read back from stored ones gives them back |
| ProfileSchema.ParsePresence | apps/services/api-server/src/models/userProfile.model.ts:40-44 | `offline` or missing gives offline, `online` and `away` give theirs, anything else is outside the enum |
| ProfileSchema.BioValue | apps/services/api-server/src/models/userProfile.model.ts:33-38 | the bio is the trimmed value, `""` when missing |
| ProfileSchema.BioFailure | apps/services/api-server/src/models/userProfile.model.ts:33-38 | the bio fails exactly when its trimmed form is longer than 150 |
| ProfileSchema.ReferenceViolations | apps/services/api-server/src/models/userProfile.model.ts:16-31 | a missing user and a refused avatar are reported, exactly when they occur |
| ProfileSchema.TextViolations | apps/services/api-server/src/models/userProfile.model.ts:33-44 | a too-long bio and a status outside the enum are reported, exactly when they occur |
| ProfileSchema.ProfileViolations | apps/services/api-server/src/models/userProfile.model.ts:16-44 | each of the four failures is reported exactly when it occurs, and none means no violation |
| ProfileSchema.CreateProfile | apps/services/api-server/src/models/userProfile.model.ts:16-59 | stored exactly when there is a user, the avatar passes, the trimmed bio is at most 150 and the status is in the enum; defaults `""`, `offline`, now and false apply |
| ProfileSchema.StoredAvatar | apps/services/api-server/src/models/userProfile.model.ts:23-31 | a stored non-empty avatar is `http://` or `https://` followed by something |
| ProfileSchema.RecreateProfile | apps/services/api-server/src/models/userProfile.model.ts:16-59 | a profile with a valid avatar and a trimmed bio within bounds is what creating it from its own fields stores |
| ProfileSchema.CreateProfileStable | apps/services/api-server/src/models/userProfile.model.ts:16-59 | creating a profile again from what was stored stores the same profile |
| ProfileSchema.StoredProfileValid | apps/services/api-server/src/models/userProfile.model.ts:16-59 | a profile `create` stores raises no violation on its own fields |
| ProfileSchema.InsertProfile | apps/services/api-server/src/models/userProfile.model.ts:16-21 | a valid profile is appended exactly when neither its id nor its user is taken; otherwise the duplicate is reported |
| ProfileSchema.InsertKeepsOnePerUser | apps/services/api-server/src/models/userProfile.model.ts:16-21 | inserting keeps at most one profile per account |
| AccountSchema.DottedNoDoubleSeparator | apps/services/api-server/src/models/users.model.ts:55 | `\w+([.-]?\w+)*` never has two separators side by side |
| AccountSchema.MatchesEmail | apps/services/api-server/src/models/users.model.ts:55 | the anchored email pattern: an `@` with `Dotted` before it and `Domain` after it; `EmailShape`, `EmailAccepted`, `EmailNeedsTopLevelPart` and `EmailRefusesDoubleDot` state what it accepts and refuses |
| AccountSchema.Dotted | apps/services/api-server/src/models/users.model.ts:55 | `\w+([.-]?\w+)*` on a slice: word characters with single `.` or `-` separators between them; `DottedChars` and `DottedNoDoubleSeparator` state its shape |
| AccountSchema.Groups | apps/services/api-server/src/models/users.model.ts:55 | `(\.\w{2,3})+` on a slice: one or more groups of a dot and two or three word characters; `GroupsChars` states its shape |
| AccountSchema.Domain | apps/services/api-server/src/models/users.model.ts:55 | `\w+([.-]?\w+)*(\.\w{2,3})+` on the part after the `@`: a `Dotted` part followed by `Groups` |
| AccountSchema.DottedChars | apps/services/api-server/src/models/users.model.ts:55 | what `\w+([.-]?\w+)*` matches holds only word characters and separators, and ends in a word character |
| AccountSchema.GroupsChars | apps/services/api-server/src/models/users.model.ts:55 | what `(\.\w{2,3})+` matches holds only word characters and dots, and ends in a word character |
| AccountSchema.EmailChars | apps/services/api-server/src/models/users.model.ts:55 | a matched address has only word characters, separators and the one `@`, starting and ending with a word character |
| AccountSchema.EmailShape | apps/services/api-server/src/models/users.model.ts:55 | an address the pattern accepts has exactly one `@`, no white space, and word characters at both ends |
| AccountSchema.OneAt | apps/services/api-server/src/models/users.model.ts:55 | a string whose only `@` is at one place counts one `@` |
| AccountSchema.EmailAccepted | apps/services/api-server/src/models/users.model.ts:55 | a typical dotted address matches |
| AccountSchema.EmailNeedsTopLevelPart | apps/services/api-server/src/models/users.model.ts:55 | a domain without a dot and a final part of two or three letters is refused |
| AccountSchema.EmailRefusesDoubleDot | apps/services/api-server/src/models/users.model.ts:55 | two dots in a row are refused |
| AccountSchema.ParseRole | apps/services/api-server/src/models/users.model.ts:68-73 | `user` or missing gives user, `admin` gives admin, anything else is outside the enum |
| AccountSchema.PasswordHidden | apps/services/api-server/src/models/users.model.ts:61-66 | a default query shows nothing of the password |
| AccountSchema.NameFailure | apps/services/api-server/src/models/users.model.ts:23-35 | a name fails `required` exactly when missing or blank and `maxlength` exactly when longer than 50 once trimmed |
| AccountSchema.UsernameFailure | apps/services/api-server/src/models/users.model.ts:37-46 | a username fails `required`, `minlength` 3 or `maxlength` 30 exactly when its trimmed form is empty, too short or too long |
| AccountSchema.EmailFailure | apps/services/api-server/src/models/users.model.ts:48-59 | an email fails `required` exactly when blank and the pattern exactly when its trimmed lowercased form does not match |
| AccountSchema.PasswordFailure | apps/services/api-server/src/models/users.model.ts:61-66 | a password fails `required` when missing or empty and `minlength` when shorter than 6 |
| AccountSchema.RoleFailure | apps/services/api-server/src/models/users.model.ts:68-73 | a role fails exactly when outside the enum |
| AccountSchema.AtAll | apps/services/api-server/src/models/users.model.ts:21-73 | the six paths report nothing exactly when none fails |
| AccountSchema.AtAllMember | apps/services/api-server/src/models/users.model.ts:21-73 | a failure listed under a path is that path's failure |
| AccountSchema.AccountViolations | apps/services/api-server/src/models/users.model.ts:21-73 | no violation exactly when no path fails |
| AccountSchema.AccountViolationAt | apps/services/api-server/src/models/users.model.ts:21-73 | each path reports exactly its own failure, whatever the others hold |
| AccountSchema.NoViolationsAcceptable | apps/services/api-server/src/models/users.model.ts:21-73 | no violation exactly when the fields meet every bound and the pattern |
| AccountSchema.CreateAccount | apps/services/api-server/src/models/users.model.ts:21-98 | stored exactly when acceptable; names trimmed, username and email trimmed and lowercased, role `user` and unverified by default; a rejected one reports its violations |
| AccountSchema.StoredAccount | apps/services/api-server/src/models/users.model.ts:21-98 | a stored account has trimmed bounded names, a lowercase username of 3-30 characters, a lowercase matching email with one `@` and a password of at least 6 |
| AccountSchema.RecreateAccount | apps/services/api-server/src/models/users.model.ts:21-98 | an account in the stored shape (trimmed names within bounds, lower-case valid username and email, a long enough password) is what creating it from its own fields stores |
| AccountSchema.CreateAccountStable | apps/services/api-server/src/models/users.model.ts:21-98 | creating an account again from what was stored stores the same account |
| AccountSchema.StoredAccountValid | apps/services/api-server/src/models/users.model.ts:21-98 | an account `create` stores raises no violation on its own fields |
| AccountSchema.Clash | apps/services/api-server/src/models/users.model.ts:37-59 | the first unique index an account would break, or none exactly when id, username and email are all new |
| AccountSchema.InsertAccount | apps/services/api-server/src/models/users.model.ts:37-59 | a rejected account reports its violations; an accepted one is stored unless it clashes, when the index is reported |
| AccountSchema.InsertKeepsUnique | apps/services/api-server/src/models/users.model.ts:37-59 | inserting keeps every id, username and email unique and the earlier accounts in place |
| AuthSchemas.RunCons | apps/services/api-server/src/schema/user.schema.ts:4-8 | a chain runs its first step on the value, then the rest on the result, collecting issues in order |
| AuthSchemas.RunSteps | apps/services/api-server/src/schema/user.schema.ts:4-8 | a chain of zod steps runs first to last, each on the value the previous one left, collecting every issue; `RunCons` states the step-by-step unfolding |
| AuthSchemas.Apply | apps/services/api-server/src/schema/user.schema.ts:4-8 | one step: `min` and `max` check the length and add an issue, `trim` and `toLowerCase` replace the value, the username regex adds an invalid-format issue |
| AuthSchemas.Field | apps/services/api-server/src/schema/user.schema.ts:4-27 | a refused field always reports at least one issue |
| AuthSchemas.EmailField | apps/services/api-server/src/schema/user.schema.ts:23 | accepted exactly when the address format accepts the value as given; the result is lowercased and trimmed |
| AuthSchemas.NameRun | apps/services/api-server/src/schema/user.schema.ts:4-13 | the bounds are checked on the value as given, and the result is trimmed |
| AuthSchemas.UsernameRun | apps/services/api-server/src/schema/user.schema.ts:14-22 | the bounds are checked on the value as given and the pattern on the lowercased value |
| AuthSchemas.PasswordRun | apps/services/api-server/src/schema/user.schema.ts:24-27 | the bounds are checked and the value kept |
| AuthSchemas.IdentifierRun | apps/services/api-server/src/schema/user.schema.ts:31-35 | the minimum is checked before trimming and lowercasing |
| AuthSchemas.NameField | apps/services/api-server/src/schema/user.schema.ts:4-13 | accepted exactly when 1 to 50 characters as given; each bound reported exactly when broken; the result is trimmed |
| AuthSchemas.UsernameField | apps/services/api-server/src/schema/user.schema.ts:14-22 | accepted exactly when 3 to 30 characters and the lowercased value is letters, digits and `_`; each issue reported exactly when it occurs |
| AuthSchemas.PasswordField | apps/services/api-server/src/schema/user.schema.ts:24-27 | accepted exactly when 6 to 100 characters; each bound reported exactly when broken |
| AuthSchemas.RequiredField | apps/services/api-server/src/schema/user.schema.ts:36 | accepted exactly when non-empty, kept as given |
| AuthSchemas.IdentifierField | apps/services/api-server/src/schema/user.schema.ts:31-35 | accepted exactly when non-empty as given; the result is trimmed and lowercased |
| AuthSchemas.Tag | apps/services/api-server/src/schema/user.schema.ts:3-28 | a field's issues, and only they, are listed under its name |
| AuthSchemas.Register | apps/services/api-server/src/schema/user.schema.ts:3-28 | accepted exactly when all five fields are, with each field's normalised value |
| AuthSchemas.TaggedFive | apps/services/api-server/src/schema/user.schema.ts:3-28 | an issue under one field's name is one of that field's issues |
| AuthSchemas.RegisterIssues | apps/services/api-server/src/schema/user.schema.ts:3-28 | a refused registration lists, under each field's name, exactly that field's issues |
| AuthSchemas.Login | apps/services/api-server/src/schema/user.schema.ts:30-37 | accepted exactly when both fields are; the identifier trimmed and lowercased |
| AuthSchemas.ChangePassword | apps/services/api-server/src/schema/user.schema.ts:39-49 | accepted exactly when each field meets its own bounds |
| AuthSchemas.ForgotPassword | apps/services/api-server/src/schema/user.schema.ts:51-53 | accepted exactly when the address format accepts it; lowercased and trimmed |
| AuthSchemas.ResetPassword | apps/services/api-server/src/schema/user.schema.ts:55-61 | accepted exactly when the token is non-empty and the password is 6 to 100 characters |
| AuthSchemas.VerifyEmail | apps/services/api-server/src/schema/user.schema.ts:63-65 | accepted exactly when the token is non-empty |
| AuthSchemas.RegisteredUsername | apps/services/api-server/src/schema/user.schema.ts:14-22 | a registered username is 3-30 lowercase letters, digits and `_`, passes the account document's rules and is stored as is |
| AuthSchemas.RegisteredPassword | apps/services/api-server/src/schema/user.schema.ts:24-27 | a registered password passes the account document's `minlength` |
| AuthSchemas.BlankNameAccepted | apps/services/api-server/src/schema/user.schema.ts:4-8 | a name of spaces only passes as `""`, which the account document refuses as missing |
| AuthSchemas.BlankIdentifierAccepted | apps/services/api-server/src/schema/user.schema.ts:31-35 | an identifier of spaces only passes as `""` |
| AuthSchemas.ConfirmationNotCompared | apps/services/api-server/src/schema/user.schema.ts:39-49 | a confirmation that differs from the new password is accepted |
| AuthSchemas.TokensNonEmpty | apps/services/api-server/src/schema/user.schema.ts:55-65 | an accepted reset or verification request has a non-empty token |
| Schema.TrimSetter | apps/services/api-server/src/models/users.model.ts:26 | the `trim` setter keeps a missing value missing and trims a present one |
| Schema.TrimLowerSetter | apps/services/api-server/src/models/users.model.ts:41-42 | `trim` with `lowercase` gives the same value in either order |
| Text.TrimEnd | apps/web/src/app/chat/hooks/useChat.ts:64 | the trimmed-end prefix is empty exactly for a blank string |
| Text.TrimStartSuffix | apps/web/src/app/chat/hooks/useChat.ts:64 | what trimming the start drops is a blank prefix |
| Text.TrimEndPrefix | apps/web/src/app/chat/hooks/useChat.ts:64 | what trimming the end drops is a blank suffix |
| Text.Trim | apps/web/src/app/chat/hooks/useInterests.ts:11 | `trim()` gives a trimmed string, empty exactly for a blank one |
| Text.TrimTrimmed | apps/web/src/app/chat/hooks/useInterests.ts:11 | a trimmed string is left as it is |
| Text.TrimIdempotent | apps/services/api-server/src/controllers/chat.controller.ts:237 | trimming twice is trimming once |
| Text.ToLower | apps/services/api-server/src/models/users.model.ts:42 | lowercasing keeps the length and leaves no uppercase ASCII letter; `ToLowerChars` states what each character becomes |
| Text.ToLowerChars | apps/services/api-server/src/models/users.model.ts:42 | each letter A-Z becomes its lower-case letter a-z (code point plus 32), and every other character is left as it is |
| Text.ToLowerIdempotent | apps/services/api-server/src/models/users.model.ts:42 | lowercasing twice is lowercasing once |
| Text.TrimToLowerCommute | apps/services/api-server/src/models/users.model.ts:48-53 | lowercase then trim equals trim then lowercase |
| Text.UrlRuleShape | apps/services/api-server/src/models/message.model.ts:44-46 | an accepted non-empty URL is a scheme followed by a non-empty rest |
| Text.MatchesHttpUrl | apps/services/api-server/src/models/message.model.ts:44 | `/^https?:\/\/.+/`: `http://` or `https://` and then one character that is not a line terminator (the rest is unconstrained); `UrlRuleShape` states its shape |
| Text.UrlRule | apps/services/api-server/src/models/userProfile.model.ts:26-28 | the `avatar` and `fileUrl` validator: an unset or empty value passes, any other value must match the URL pattern |
| Text.IsSpace | apps/services/api-server/src/models/users.model.ts:26 | the white space and line terminators `trim` strips; `VisibleAsciiNotSpace` states that no visible ASCII character is one |
| Decimal.DecimalString | apps/web/src/lib/redux/slices/userSlice.ts:10 | `${n}` is digits only with no leading zero |
| Decimal.ParseDecimalString | apps/web/src/lib/redux/slices/userSlice.ts:10 | reading the printed number back gives the number |
| Decimal.DecimalStringInjective | apps/web/src/lib/redux/slices/userSlice.ts:10 | different numbers print differently |
| Decimal.ThreeDigits | apps/web/src/lib/redux/slices/userSlice.ts:9-10 | 100 to 999 print as three digits |
| Seqs.RemoveAll | apps/web/src/app/chat/hooks/useChat.ts:118 | `filter(r => r !== x)` drops every `x`, keeps every other element and adds nothing |
| Seqs.RemoveAllConcat | apps/web/src/app/chat/hooks/useChat.ts:118 | filtering a concatenation filters each part |
| Seqs.RemoveAllAbsent | apps/web/src/app/chat/hooks/useInterests.ts:20 | filtering out a value that is not there changes nothing |
| Seqs.RemoveAllIdempotent | apps/web/src/app/chat/hooks/useInterests.ts:20 | filtering twice is filtering once |
| Seqs.Count | apps/web/src/app/chat/hooks/useChat.ts:148 | the count is zero exactly when the value is absent |
| Seqs.CountConcat | apps/web/src/app/chat/hooks/useChat.ts:129 | counts add over concatenation |
| Seqs.CountRemoveAll | apps/web/src/app/chat/hooks/useInterests.ts:20 | filtering removes every `x` and keeps each other value as often as it was |
| Seqs.AppendNoDup | apps/web/src/app/chat/hooks/useInterests.ts:12-14 | appending a new value keeps a list duplicate-free |
| Seqs.SortDesc | apps/services/api-server/src/controllers/chat.controller.ts:105 | `.sort({ key: -1 })` is a permutation, largest key first |
| Seqs.SameElements | apps/services/api-server/src/controllers/chat.controller.ts:105 | a permutation has the same elements |
| Seqs.Reverse | apps/services/api-server/src/controllers/chat.controller.ts:172 | `reverse()` puts the elements in the opposite order |
| Seqs.Filter | apps/services/api-server/src/controllers/chat.controller.ts:152-155 | a filter keeps only elements that satisfy the predicate, each from the input and no more copies than the input has, and keeps every element that satisfies it |
| Seqs.FilterCount | apps/services/api-server/src/controllers/chat.controller.ts:152-155 | a filter keeps every copy of an element it keeps, so with `Filter`'s contract the result's multiset is exactly the input's restricted to the predicate |
| Seqs.FilterConcat | apps/services/api-server/src/controllers/chat.controller.ts:152-155 | filtering keeps the order: filtering a concatenation concatenates the filtered parts |

## Left out

- Timers and randomness: each `setTimeout` callback is its own method, called by whoever drives the model. Each `Math.random()` choice is an argument. The probability of the stranger's reaction is not modelled; `StrangerReact` is the branch where it happens.
- `Date.now()` message ids: two messages in the same millisecond can share an id in the source. The model uses a counter `nextId`, so its ids are always distinct.
- State updates through stale closures (`handleReaction` maps over the `messages` of its render), batching, and concurrent requests are not modelled. Each method runs on the current state, one at a time.
- `handleReaction` pushes the user and the stranger into the reaction array of the previous state, sharing it between the old and new objects. The model works on values, so only the new state is described.
- Scrolling, refs, rendering, and resetting the file input are left out. `URL.createObjectURL` is the argument `url`.
- useChat.ts:171 returns `_handleSendMessage`, which is never defined. The model treats `handleSendMessage` as the exported handler.
- `localStorage` and JSON are the field `stored`, which holds the user value as is. Whether `window` exists is the constant `inBrowser`. A stored string that is not valid JSON is not modelled.
- `ObjectId.isValid` is the parameter `validId`, and zod's `z.email()` format is the parameter `isEmail`. Neither is defined in the model.
- `toLowerCase` is modelled for ASCII letters only. Lengths count code points, not UTF-16 code units.
- `Math.ceil` on floating point, and `parseInt` on the query strings: the model takes the parsed numbers as `Option<int>`. It does not model float overflow of a huge `skip`.
- A negative `limit`: MongoDB's `limit(-n)` returns `n` documents in a single batch. The model takes the absolute value.
- Sort ties: the model only states that the result is ordered. It does not state the order among equal keys.
- `populate`, select projections other than the password, the JSON reply shapes and HTTP status codes: a reply is the handler's `Result`.
- Request bodies that are not strings, and zod's stripping of unknown keys: fields are `Option<string>`.
- The empty handlers at chat.controller.ts:357-365 and the stubs of the users controller do nothing, so nothing of them is modelled.
- Index creation and secondary indexes (users.model.ts:101) are left out. Only the unique indexes on id, username and email, and on the profile `user`, are modelled.
- `markMessagesAsRead` replies with the number of messages the query matches. Every matched message gets a receipt pushed, so that number is the source's `modifiedCount`. The separate `totalMessages` of the reply is not modelled. Deleted messages are also marked, since the query does not exclude them.
- A chat with oneself: `$all: [u, u]` with `$size: 2` matches any direct chat that contains `u`. The model keeps the same membership test.
- chat.model.ts:37-40 declares `admin` as a single reference while the handler writes a list. The model follows the handler and stores the list. `message.chat` and `chat.lastMessage` are not declared in message.model.ts or chat.model.ts; the model stores them as written by the handlers.
- Sessions, refresh-token rotation and the authentication middleware (`req.user`) are left out. The document holds one token of each kind (users.model.ts:81-94), and the caller's id is an argument.
