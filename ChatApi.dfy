/** The chat handlers of the API server (`createChat`, `getUserChats`,
    `getChatMessages`, `sendMessage`, `markMessagesAsRead`) over an in-memory
    store: the user, chat and message collections are sequences in insertion
    order and each query is a filter over them.

    `ObjectId.isValid` is the parameter `validId`; new document ids and the clock
    are arguments. A thrown cast, validation or duplicate-key error is
    `ServerError`, the handlers' 500 reply. */
module ChatApi {
  import opened Wrappers
  import Text
  import Seqs
  import opened Schema
  import ChatSchema
  import MessageSchema

  type Chat = ChatSchema.Chat
  type Message = MessageSchema.Message

  /** The handlers' early replies, in the order they are checked. */
  datatype ApiError =
    | ParticipantRequired
    | UserNotFound
    | GroupNameRequired
    | InvalidChatId
    | AccessDenied
    | ContentRequired
    | FileUrlRequired
    | ServerError

  /** `!chatId || !mongoose.Types.ObjectId.isValid(chatId)` fails. */
  predicate ValidChatId(validId: Id -> bool, chatId: Id) {
    chatId != "" && validId(chatId)
  }

  /** `Chat.findOne({ _id: chatId, participants: userId })` finds a chat. */
  predicate HasAccess(chats: seq<Chat>, chatId: Id, u: Id) {
    exists k :: 0 <= k < |chats| && chats[k].id == chatId && u in chats[k].participants
  }

  predicate HasChatId(chats: seq<Chat>, id: Id) {
    exists k :: 0 <= k < |chats| && chats[k].id == id
  }

  predicate HasMessageId(messages: seq<Message>, id: Id) {
    exists k :: 0 <= k < |messages| && messages[k].id == id
  }

  // ---------------------------------------------------------------- the store

  predicate UniqueChatIds(chats: seq<Chat>) {
    forall i, j :: 0 <= i < j < |chats| ==> chats[i].id != chats[j].id
  }

  predicate UniqueMessageIds(messages: seq<Message>) {
    forall i, j :: 0 <= i < j < |messages| ==> messages[i].id != messages[j].id
  }

  /** A direct chat between two people. */
  predicate IsDirectChat(c: Chat) {
    c.chatType == ChatSchema.Direct && |c.participants| == 2
  }

  /** The two chats have the same participants. */
  predicate SameMembers(a: Chat, b: Chat) {
    && (forall x :: x in a.participants ==> x in b.participants)
    && (forall x :: x in b.participants ==> x in a.participants)
  }

  /** No two direct chats are between the same people. */
  predicate DirectChatsDistinct(chats: seq<Chat>) {
    forall i, j :: 0 <= i < j < |chats| && IsDirectChat(chats[i]) && IsDirectChat(chats[j]) ==>
                     !SameMembers(chats[i], chats[j])
  }

  /** The users a message's receipts name, in order. */
  function Readers(rs: seq<MessageSchema.ReadReceipt>): (r: seq<Id>)
    ensures |r| == |rs| && forall k :: 0 <= k < |rs| ==> r[k] == rs[k].user
  {
    seq(|rs|, k requires 0 <= k < |rs| => rs[k].user)
  }

  /** No message has two receipts from the same user. */
  predicate ReceiptsUnique(messages: seq<Message>) {
    forall k :: 0 <= k < |messages| ==> Seqs.NoDup(Readers(messages[k].readBy))
  }

  predicate StoreValid(chats: seq<Chat>, messages: seq<Message>) {
    && UniqueChatIds(chats) && DirectChatsDistinct(chats)
    && UniqueMessageIds(messages) && ReceiptsUnique(messages)
  }

  // ---------------------------------------------------------------- createChat

  /** `Chat.findOne({ type: "direct", participants: { $all: [u, p], $size: 2 } })`. */
  predicate IsDirectBetween(c: Chat, u: Id, p: Id) {
    IsDirectChat(c) && u in c.participants && p in c.participants
  }

  function FindDirectFrom(chats: seq<Chat>, u: Id, p: Id, i: nat): (r: Option<nat>)
    requires i <= |chats|
    ensures r.Some? ==>
              && i <= r.value < |chats| && IsDirectBetween(chats[r.value], u, p)
              && forall k :: i <= k < r.value ==> !IsDirectBetween(chats[k], u, p)
    ensures r.None? <==> forall k :: i <= k < |chats| ==> !IsDirectBetween(chats[k], u, p)
    decreases |chats| - i
  {
    if i == |chats| then None
    else if IsDirectBetween(chats[i], u, p) then Some(i)
    else FindDirectFrom(chats, u, p, i + 1)
  }

  /** The first direct chat between `u` and `p`. */
  function FindDirect(chats: seq<Chat>, u: Id, p: Id): (r: Option<nat>)
    ensures r.Some? ==>
              && r.value < |chats| && IsDirectBetween(chats[r.value], u, p)
              && forall k :: 0 <= k < r.value ==> !IsDirectBetween(chats[k], u, p)
    ensures r.None? <==> forall k :: 0 <= k < |chats| ==> !IsDirectBetween(chats[k], u, p)
  {
    FindDirectFrom(chats, u, p, 0)
  }

  datatype ChatOutcome = Existing(chat: Chat) | Created(chat: Chat)

  /** The fields `createChat` passes to `Chat.create`: a group gets the trimmed
      name and the creator as its only admin. */
  function NewChatFields(u: Id, p: Id, t: string, groupName: Option<string>, now: int): ChatSchema.ChatFields {
    if t == "group" && groupName.Some? then
      ChatSchema.ChatFields(Some(t), [Some(u), Some(p)], Some(Text.Trim(groupName.value)), [u], Some(now))
    else
      ChatSchema.ChatFields(Some(t), [Some(u), Some(p)], None, [], Some(now))
  }

  /** `createChat` by user `u`: a missing or empty participant id is refused, an id
      that is not an `ObjectId` makes `findById` throw, an unknown user is not
      found; a direct chat that already exists between the two is returned; a group
      needs a non-blank name; then the chat is created with the id `newId`. */
  function CreateChatResult(users: set<Id>, chats: seq<Chat>, validId: Id -> bool, u: Id,
                            participantId: Option<string>, chatType: Option<string>,
                            groupName: Option<string>, newId: Id, now: int): Result<ChatOutcome, ApiError>
  {
    if !Present(participantId) then Err(ParticipantRequired)
    else
      var p := participantId.value;
      if !validId(p) then Err(ServerError)
      else if p !in users then Err(UserNotFound)
      else
        var t := chatType.GetOr("direct");
        var found := FindDirect(chats, u, p);
        if t == "direct" && found.Some? then Ok(Existing(chats[found.value]))
        else if t == "group" && (groupName.None? || Text.IsBlank(groupName.value)) then Err(GroupNameRequired)
        else
          match ChatSchema.CreateChat(newId, NewChatFields(u, p, t, groupName, now), now)
          case Err(_) => Err(ServerError)
          case Ok(c) => if HasChatId(chats, newId) then Err(ServerError) else Ok(Created(c))
  }

  /** The chats after a `createChat` reply. */
  function ChatsAfterCreate(chats: seq<Chat>, r: Result<ChatOutcome, ApiError>): seq<Chat> {
    if r.Ok? && r.value.Created? then chats + [r.value.chat] else chats
  }

  /** Which guard answers: a missing participant first, then an unknown one, then
      a group without a name. */
  lemma CreateChatGuards(users: set<Id>, chats: seq<Chat>, validId: Id -> bool, u: Id,
                         participantId: Option<string>, chatType: Option<string>,
                         groupName: Option<string>, newId: Id, now: int)
    ensures var r := CreateChatResult(users, chats, validId, u, participantId, chatType, groupName, newId, now);
            && (r == Err(ParticipantRequired) <==> !Present(participantId))
            && (r == Err(UserNotFound) <==>
                  Present(participantId) && validId(participantId.value) && participantId.value !in users)
            && (r == Err(GroupNameRequired) <==>
                  && Present(participantId) && validId(participantId.value) && participantId.value in users
                  && chatType == Some("group") && (groupName.None? || Text.IsBlank(groupName.value)))
            && (r.Ok? ==> participantId.value in users)
  {
  }

  /** A created chat is between the caller and the participant, active now, with no
      last message. A direct one is only created when none exists between the two;
      a group carries the trimmed non-blank name and the caller as sole admin. */
  lemma CreatedChat(users: set<Id>, chats: seq<Chat>, validId: Id -> bool, u: Id,
                    participantId: Option<string>, chatType: Option<string>,
                    groupName: Option<string>, newId: Id, now: int)
    requires CreateChatResult(users, chats, validId, u, participantId, chatType, groupName, newId, now).Ok?
    requires CreateChatResult(users, chats, validId, u, participantId, chatType, groupName, newId, now).value.Created?
    ensures var c := CreateChatResult(users, chats, validId, u, participantId, chatType, groupName, newId, now).value.chat;
            && c.id == newId && !HasChatId(chats, newId)
            && c.participants == [u, participantId.value]
            && c.lastActivity == now && c.lastMessage.None? && c.createdAt == now
            && (chatType.None? || chatType == Some("direct") <==> c.chatType == ChatSchema.Direct)
            && (c.chatType == ChatSchema.Direct ==>
                  && FindDirect(chats, u, participantId.value).None? && c.name.None? && c.admin == [])
            && (c.chatType == ChatSchema.Group ==>
                  && c.name == Some(Text.Trim(groupName.value)) && c.name.value != ""
                  && |c.name.value| <= ChatSchema.MaxNameLength && c.admin == [u])
  {
    var p := participantId.value;
    var t := chatType.GetOr("direct");
    NewChatStored(u, p, t, groupName, newId, now);
  }

  /** What `Chat.create` stores from the fields `createChat` passes. */
  lemma NewChatStored(u: Id, p: Id, t: string, groupName: Option<string>, newId: Id, now: int)
    requires ChatSchema.CreateChat(newId, NewChatFields(u, p, t, groupName, now), now).Ok?
    ensures var c := ChatSchema.CreateChat(newId, NewChatFields(u, p, t, groupName, now), now).value;
            && c.id == newId && c.participants == [u, p]
            && c.lastActivity == now && c.lastMessage.None? && c.createdAt == now
            && (c.chatType == ChatSchema.Direct <==> t == "direct")
            && (c.chatType == ChatSchema.Group <==> t == "group")
            && (t == "group" && groupName.Some? ==>
                  c.name == Some(Text.Trim(groupName.value)) && |c.name.value| <= ChatSchema.MaxNameLength
                  && c.admin == [u])
            && (t != "group" ==> c.name.None? && c.admin == [])
  {
    var f := NewChatFields(u, p, t, groupName, now);
    var c := ChatSchema.CreateChat(newId, f, now).value;
    assert Some(c.participants[0]) == Some(u) && Some(c.participants[1]) == Some(p);
    assert c.participants == [u, p];
    if t == "group" && groupName.Some? {
      var g := groupName.value;
      assert Text.Trim(Text.Trim(g)) == Text.Trim(g) by {
        Text.TrimIdempotent(g);
      }
    }
  }

  lemma FindDirectAppend(chats: seq<Chat>, c: Chat, u: Id, p: Id)
    requires FindDirect(chats, u, p).None? && IsDirectBetween(c, u, p)
    ensures FindDirect(chats + [c], u, p) == Some(|chats|)
  {
    var s := chats + [c];
    assert s[|chats|] == c;
    assert forall k :: 0 <= k < |chats| ==> s[k] == chats[k];
  }

  /** Direct chats are de-duplicated: once a direct chat is created, the same call
      returns it instead of creating a second one. */
  lemma DirectChatOnce(users: set<Id>, chats: seq<Chat>, validId: Id -> bool, u: Id,
                       participantId: Option<string>, chatType: Option<string>,
                       groupName: Option<string>, newId: Id, now: int, laterId: Id, later: int)
    requires CreateChatResult(users, chats, validId, u, participantId, chatType, groupName, newId, now).Ok?
    requires CreateChatResult(users, chats, validId, u, participantId, chatType, groupName, newId, now).value.Created?
    requires CreateChatResult(users, chats, validId, u, participantId, chatType, groupName, newId, now).value.chat.chatType
             == ChatSchema.Direct
    ensures var c := CreateChatResult(users, chats, validId, u, participantId, chatType, groupName, newId, now).value.chat;
            CreateChatResult(users, chats + [c], validId, u, participantId, chatType, groupName, laterId, later)
            == Ok(Existing(c))
  {
    CreatedChat(users, chats, validId, u, participantId, chatType, groupName, newId, now);
    var c := CreateChatResult(users, chats, validId, u, participantId, chatType, groupName, newId, now).value.chat;
    FindDirectAppend(chats, c, u, participantId.value);
  }

  /** A chat returned as existing is a direct chat between the two, already stored. */
  lemma ExistingChat(users: set<Id>, chats: seq<Chat>, validId: Id -> bool, u: Id,
                     participantId: Option<string>, chatType: Option<string>,
                     groupName: Option<string>, newId: Id, now: int)
    requires CreateChatResult(users, chats, validId, u, participantId, chatType, groupName, newId, now).Ok?
    requires CreateChatResult(users, chats, validId, u, participantId, chatType, groupName, newId, now).value.Existing?
    ensures var c := CreateChatResult(users, chats, validId, u, participantId, chatType, groupName, newId, now).value.chat;
            c in chats && IsDirectBetween(c, u, participantId.value) && chatType.GetOr("direct") == "direct"
  {
  }

  /** Creating a chat keeps chat ids unique and direct chats distinct. */
  lemma {:induction false} CreateKeepsValid(users: set<Id>, chats: seq<Chat>, messages: seq<Message>,
                                            validId: Id -> bool, u: Id,
                                            participantId: Option<string>, chatType: Option<string>,
                                            groupName: Option<string>, newId: Id, now: int)
    requires StoreValid(chats, messages)
    ensures StoreValid(ChatsAfterCreate(chats,
              CreateChatResult(users, chats, validId, u, participantId, chatType, groupName, newId, now)), messages)
  {
    var r := CreateChatResult(users, chats, validId, u, participantId, chatType, groupName, newId, now);
    if r.Ok? && r.value.Created? {
      CreatedChat(users, chats, validId, u, participantId, chatType, groupName, newId, now);
      var c := r.value.chat;
      var p := participantId.value;
      var s := chats + [c];
      forall i, j | 0 <= i < j < |s| ensures s[i].id != s[j].id {
        if j == |chats| {
          assert s[i] == chats[i];
        }
      }
      forall i, j | 0 <= i < j < |s| && IsDirectChat(s[i]) && IsDirectChat(s[j])
        ensures !SameMembers(s[i], s[j])
      {
        if j == |chats| {
          assert s[i] == chats[i] && s[j] == c;
          assert !IsDirectBetween(chats[i], u, p);
          assert u in c.participants && p in c.participants;
        }
      }
    }
  }

  // ---------------------------------------------------------------- getUserChats

  function LastActivity(c: Chat): int {
    c.lastActivity
  }

  /** The chats `u` takes part in, in the order of the collection. */
  function ChatsWith(chats: seq<Chat>, u: Id): (r: seq<Chat>)
    ensures forall k :: 0 <= k < |r| ==> r[k] in chats && u in r[k].participants
    ensures forall k :: 0 <= k < |chats| && u in chats[k].participants ==> chats[k] in r
    ensures multiset(r) <= multiset(chats)
    ensures forall k :: 0 <= k < |chats| && u in chats[k].participants ==>
                          multiset(r)[chats[k]] == multiset(chats)[chats[k]]
  {
    Seqs.FilterCount(chats, (c: Chat) => u in c.participants);
    Seqs.Filter(chats, (c: Chat) => u in c.participants)
  }

  /** `getUserChats`: the chats `u` takes part in, each as often as it is stored,
      most recently active first. */
  function UserChats(chats: seq<Chat>, u: Id): (r: seq<Chat>)
    ensures forall k :: 0 <= k < |r| ==> r[k] in chats && u in r[k].participants
    ensures forall k :: 0 <= k < |chats| && u in chats[k].participants ==> chats[k] in r
    ensures forall i, j :: 0 <= i < j < |r| ==> r[i].lastActivity >= r[j].lastActivity
    ensures multiset(r) <= multiset(chats)
    ensures forall k :: 0 <= k < |chats| && u in chats[k].participants ==>
                          multiset(r)[chats[k]] == multiset(chats)[chats[k]]
  {
    var mine := ChatsWith(chats, u);
    var r := Seqs.SortDesc(mine, LastActivity);
    forall k | 0 <= k < |r| ensures r[k] in chats && u in r[k].participants {
      assert r[k] in multiset(r);
      assert r[k] in multiset(mine);
      var j :| 0 <= j < |mine| && mine[j] == r[k];
    }
    forall k | 0 <= k < |chats| && u in chats[k].participants ensures chats[k] in r {
      assert chats[k] in multiset(mine);
      assert chats[k] in multiset(r);
    }
    r
  }

  // ---------------------------------------------------------------- getChatMessages

  /** `parseInt(...) || d`: no number, or zero, gives the default. */
  function OrDefault(v: Option<int>, d: int): (r: int)
    ensures d != 0 ==> r != 0
    ensures v.None? ==> r == d
    ensures v.Some? && v.value == 0 ==> r == d
    ensures v.Some? && v.value != 0 ==> r == v.value
  {
    if v.None? || v.value == 0 then d else v.value
  }

  function Abs(x: int): nat {
    if x < 0 then -x else x
  }

  /** `Math.ceil(a / b)` for a count `a` and a non-zero `b`. */
  function CeilDiv(a: nat, b: int): int
    requires b != 0
  {
    if b > 0 then (a + b - 1) / b else -(a / -b)
  }

  /** `CeilDiv` is the ceiling of the quotient: the least `r` with `a <= r * b` for a
      positive `b`, and for a negative `b` the least `r` with `r * b <= a`. */
  lemma CeilDivSpec(a: nat, b: int)
    requires b != 0
    ensures b > 0 ==> (CeilDiv(a, b) - 1) * b < a <= CeilDiv(a, b) * b
    ensures b < 0 ==> CeilDiv(a, b) * b <= a < (CeilDiv(a, b) - 1) * b
  {
    if b > 0 {
      var q := (a + b - 1) / b;
      assert a + b - 1 == q * b + (a + b - 1) % b;
    } else {
      var q := a / -b;
      assert a == q * -b + a % -b;
    }
  }

  /** The messages of a chat a page is cut from: not deleted. */
  function Visible(messages: seq<Message>, chatId: Id): (r: seq<Message>)
    ensures forall k :: 0 <= k < |r| ==> r[k] in messages && r[k].chat == chatId && !r[k].isDeleted
    ensures forall k :: 0 <= k < |messages| && messages[k].chat == chatId && !messages[k].isDeleted ==>
                          messages[k] in r
    ensures multiset(r) <= multiset(messages)
    ensures forall k :: 0 <= k < |messages| && messages[k].chat == chatId && !messages[k].isDeleted ==>
                          multiset(r)[messages[k]] == multiset(messages)[messages[k]]
  {
    Seqs.FilterCount(messages, (m: Message) => m.chat == chatId && !m.isDeleted);
    Seqs.Filter(messages, (m: Message) => m.chat == chatId && !m.isDeleted)
  }

  /** The visible messages keep the order of the collection: those of a
      concatenation are those of each part in turn. */
  lemma VisibleConcat(a: seq<Message>, b: seq<Message>, chatId: Id)
    ensures Visible(a + b, chatId) == Visible(a, chatId) + Visible(b, chatId)
  {
    Seqs.FilterConcat(a, b, (m: Message) => m.chat == chatId && !m.isDeleted);
  }

  function CreatedAt(m: Message): int {
    m.createdAt
  }

  /** `.sort({ createdAt: -1 })`. */
  function NewestFirst(ms: seq<Message>): (r: seq<Message>)
    ensures |r| == |ms|
    ensures forall k :: 0 <= k < |r| ==> r[k] in ms
    ensures forall i, j :: 0 <= i < j < |r| ==> r[i].createdAt >= r[j].createdAt
    ensures multiset(r) == multiset(ms)
  {
    var r := Seqs.SortDesc(ms, CreatedAt);
    Seqs.SameElements(r, ms);
    assert forall k :: 0 <= k < |r| ==> r[k] in r;
    r
  }

  /** `.skip(skip).limit(limit)`: the elements from `skip` on, at most `limit` of them. */
  function Window<T>(s: seq<T>, skip: nat, limit: nat): (r: seq<T>)
    ensures |r| == if skip >= |s| then 0 else if |s| - skip < limit then |s| - skip else limit
    ensures forall k :: 0 <= k < |r| ==> r[k] == s[skip + k]
  {
    if skip >= |s| then [] else if |s| - skip < limit then s[skip..] else s[skip..skip + limit]
  }

  datatype MessagePage = MessagePage(
    messages: seq<Message>, currentPage: int, totalPages: int, totalMessages: nat, hasMore: bool)

  /** `getChatMessages`: page and limit default to 1 and 50, `skip` is
      `(page - 1) * limit`; the chat id must be valid and the caller a participant;
      a negative `skip` makes the query fail. The page is the window of the chat's
      non-deleted messages newest first, returned oldest first; a negative limit
      takes that many. */
  function ChatMessages(chats: seq<Chat>, messages: seq<Message>, validId: Id -> bool, u: Id, chatId: Id,
                        page: Option<int>, limit: Option<int>): Result<MessagePage, ApiError>
  {
    var pg := OrDefault(page, 1);
    var lim := OrDefault(limit, 50);
    var skip := (pg - 1) * lim;
    if !ValidChatId(validId, chatId) then Err(InvalidChatId)
    else if !HasAccess(chats, chatId, u) then Err(AccessDenied)
    else if skip < 0 then Err(ServerError)
    else
      var visible := Visible(messages, chatId);
      var newest := NewestFirst(visible);
      var pages := CeilDiv(|visible|, lim);
      Ok(MessagePage(Seqs.Reverse(Window(newest, skip, Abs(lim))), pg, pages, |visible|, pg < pages))
  }

  lemma MulMono(a: int, b: int, c: int)
    requires a <= b && c > 0
    ensures a * c <= b * c
  {
  }

  /** With a positive limit the page number is at least 1, and `hasMore` holds
      exactly when messages remain beyond this page. */
  lemma {:induction false} HasMoreExactly(chats: seq<Chat>, messages: seq<Message>, validId: Id -> bool, u: Id,
                                          chatId: Id, page: Option<int>, limit: Option<int>)
    requires ChatMessages(chats, messages, validId, u, chatId, page, limit).Ok?
    requires OrDefault(limit, 50) > 0
    ensures var r := ChatMessages(chats, messages, validId, u, chatId, page, limit).value;
            var lim := OrDefault(limit, 50);
            && r.currentPage >= 1
            && (r.hasMore <==> r.currentPage * lim < r.totalMessages)
  {
    var pg := OrDefault(page, 1);
    var lim := OrDefault(limit, 50);
    PagesArith(pg, lim, |Visible(messages, chatId)|);
  }

  /** The arithmetic of `hasMore`: a non-negative skip with a positive limit means
      a page number of at least 1, and `page < ceil(total / limit)` exactly when
      `page * limit < total`. */
  lemma PagesArith(pg: int, lim: int, total: nat)
    requires lim > 0 && (pg - 1) * lim >= 0
    ensures pg >= 1
    ensures pg < CeilDiv(total, lim) <==> pg * lim < total
  {
    if pg < 1 {
      MulMono(pg - 1, -1, lim);
      assert false;
    }
    var pages := CeilDiv(total, lim);
    CeilDivSpec(total, lim);
    if pg < pages {
      MulMono(pg, pages - 1, lim);
    } else {
      MulMono(pages, pg, lim);
    }
  }

  /** A page holds only visible messages of the chat, oldest first, at most `limit`
      of them, and a full `limit` whenever that many remain from `skip` on; the
      total counts the visible messages. */
  lemma PageContents(chats: seq<Chat>, messages: seq<Message>, validId: Id -> bool, u: Id,
                     chatId: Id, page: Option<int>, limit: Option<int>)
    requires ChatMessages(chats, messages, validId, u, chatId, page, limit).Ok?
    ensures var r := ChatMessages(chats, messages, validId, u, chatId, page, limit).value;
            var lim := Abs(OrDefault(limit, 50));
            var skip := (OrDefault(page, 1) - 1) * OrDefault(limit, 50);
            && r.totalMessages == |Visible(messages, chatId)|
            && |r.messages| <= lim
            && (skip + lim <= r.totalMessages ==> |r.messages| == lim)
            && (forall k :: 0 <= k < |r.messages| ==>
                  r.messages[k] in messages && r.messages[k].chat == chatId && !r.messages[k].isDeleted)
            && (forall i, j :: 0 <= i < j < |r.messages| ==> r.messages[i].createdAt <= r.messages[j].createdAt)
            && skip >= 0
            && r.messages == Seqs.Reverse(Window(NewestFirst(Visible(messages, chatId)), skip, lim))
  {
    var skip := (OrDefault(page, 1) - 1) * OrDefault(limit, 50);
    var lim := Abs(OrDefault(limit, 50));
    OkPage(chats, messages, validId, u, chatId, page, limit);
    PageOf(messages, chatId, skip, lim);
  }

  /** A successful reply: `skip` is not negative and the page is the window of
      the visible messages, newest first, from `skip` on, reversed. */
  lemma OkPage(chats: seq<Chat>, messages: seq<Message>, validId: Id -> bool, u: Id,
               chatId: Id, page: Option<int>, limit: Option<int>)
    requires ChatMessages(chats, messages, validId, u, chatId, page, limit).Ok?
    ensures var r := ChatMessages(chats, messages, validId, u, chatId, page, limit).value;
            var skip := (OrDefault(page, 1) - 1) * OrDefault(limit, 50);
            && skip >= 0
            && r.messages == Seqs.Reverse(Window(NewestFirst(Visible(messages, chatId)), skip, Abs(OrDefault(limit, 50))))
            && r.totalMessages == |Visible(messages, chatId)|
            && r.currentPage == OrDefault(page, 1)
  {
  }

  /** The window of a chat's visible messages from `skip` on, at most `limit` of
      them, newest first, put oldest first. */
  lemma PageOf(messages: seq<Message>, chatId: Id, skip: nat, limit: nat)
    ensures var visible := Visible(messages, chatId);
            var page := Seqs.Reverse(Window(NewestFirst(visible), skip, limit));
            && |page| <= limit
            && (skip + limit <= |visible| ==> |page| == limit)
            && (forall k :: 0 <= k < |page| ==> page[k] in messages && page[k].chat == chatId && !page[k].isDeleted)
            && (forall i, j :: 0 <= i < j < |page| ==> page[i].createdAt <= page[j].createdAt)
            && (forall k :: 0 <= k < |page| ==> page[k] == NewestFirst(visible)[skip + |page| - 1 - k])
  {
    var visible := Visible(messages, chatId);
    var newest := NewestFirst(visible);
    ReversedWindow(newest, skip, limit);
    var page := Seqs.Reverse(Window(newest, skip, limit));
    forall k | 0 <= k < |page|
      ensures page[k] in messages && page[k].chat == chatId && !page[k].isDeleted
    {
      assert page[k] in visible;
      var j :| 0 <= j < |visible| && visible[j] == page[k];
    }
  }

  /** A window of a newest-first sequence, reversed, runs oldest first and holds
      `limit` elements whenever that many remain after `skip`. */
  lemma ReversedWindow(newest: seq<Message>, skip: nat, limit: nat)
    requires forall i, j :: 0 <= i < j < |newest| ==> newest[i].createdAt >= newest[j].createdAt
    ensures var page := Seqs.Reverse(Window(newest, skip, limit));
            && |page| <= limit && (skip + limit <= |newest| ==> |page| == limit)
            && (forall k :: 0 <= k < |page| ==> page[k] in newest)
            && (forall k :: 0 <= k < |page| ==> page[k] == newest[skip + |page| - 1 - k])
            && (forall i, j :: 0 <= i < j < |page| ==> page[i].createdAt <= page[j].createdAt)
  {
    var w := Window(newest, skip, limit);
    var page := Seqs.Reverse(w);
    assert forall k :: 0 <= k < |page| ==> page[k] == newest[skip + |w| - 1 - k];
  }

  /** Without page or limit the first page is the newest 50 messages (or all of
      them), oldest first: no visible message left off the page is newer than one on it. */
  lemma DefaultPage(chats: seq<Chat>, messages: seq<Message>, validId: Id -> bool, u: Id, chatId: Id)
    requires ValidChatId(validId, chatId) && HasAccess(chats, chatId, u)
    ensures ChatMessages(chats, messages, validId, u, chatId, None, None).Ok?
    ensures var r := ChatMessages(chats, messages, validId, u, chatId, None, None).value;
            && r.currentPage == 1
            && |r.messages| == (if r.totalMessages < 50 then r.totalMessages else 50)
            && r.messages == Seqs.Reverse(Window(NewestFirst(Visible(messages, chatId)), 0, 50))
  {
    assert OrDefault(None, 1) == 1 && OrDefault(None, 50) == 50;
    assert (OrDefault(None, 1) - 1) * OrDefault(None, 50) == 0 && Abs(OrDefault(None, 50)) == 50;
    OkPage(chats, messages, validId, u, chatId, None, None);
  }

  /** The default page holds the newest messages of the chat: its `k`-th message
      is the `k`-th newest counted back from the end of the page, and no visible
      message left off it is newer than one on it. */
  lemma DefaultPageNewest(chats: seq<Chat>, messages: seq<Message>, validId: Id -> bool, u: Id, chatId: Id)
    requires ValidChatId(validId, chatId) && HasAccess(chats, chatId, u)
    ensures ChatMessages(chats, messages, validId, u, chatId, None, None).Ok?
    ensures var page := ChatMessages(chats, messages, validId, u, chatId, None, None).value.messages;
            var newest := NewestFirst(Visible(messages, chatId));
            && (forall k :: 0 <= k < |page| ==> page[k] == newest[|page| - 1 - k])
            && (forall k, j :: 0 <= k < |page| && |page| <= j < |newest| ==> newest[j].createdAt <= page[k].createdAt)
  {
    DefaultPage(chats, messages, validId, u, chatId);
    FirstPage(NewestFirst(Visible(messages, chatId)), 50);
  }

  /** The first page of `limit` messages holds the newest ones: its `k`-th
      message is the `k`-th newest counted back from the end of the page, and no
      message left off the page is newer than one on it. */
  lemma FirstPage(newest: seq<Message>, limit: nat)
    requires forall i, j :: 0 <= i < j < |newest| ==> newest[i].createdAt >= newest[j].createdAt
    ensures var page := Seqs.Reverse(Window(newest, 0, limit));
            && (forall k :: 0 <= k < |page| ==> page[k] == newest[|page| - 1 - k])
            && (forall k, j :: 0 <= k < |page| && |page| <= j < |newest| ==> newest[j].createdAt <= page[k].createdAt)
  {
    var w := Window(newest, 0, limit);
    var page := Seqs.Reverse(w);
    forall k | 0 <= k < |page| ensures page[k] == newest[|page| - 1 - k] {
      assert page[k] == w[|w| - 1 - k];
    }
    forall k, j | 0 <= k < |page| && |page| <= j < |newest|
      ensures newest[j].createdAt <= page[k].createdAt
    {
      assert page[k] == newest[|page| - 1 - k];
    }
  }

  // ---------------------------------------------------------------- sendMessage

  /** The fields `sendMessage` passes to `Message.create`: the content, the type
      and the file URL only when it is non-empty. The handler passes the content
      trimmed, which `HandlerTrimRedundant` shows stores the same message. */
  function NewMessageFields(u: Id, chatId: Id, content: string, t: string, fileUrl: Option<string>): MessageSchema.MessageFields {
    MessageSchema.MessageFields(Some(u), chatId, Some(content), Some(t),
                                if Present(fileUrl) then fileUrl else None, [], None)
  }

  /** The handler trims the content and the schema's `trim` setter trims it again;
      trimming twice is trimming once, so passing the content as given stores the
      same message. */
  lemma HandlerTrimRedundant(u: Id, chatId: Id, content: string, t: string, fileUrl: Option<string>,
                             newId: Id, now: int)
    ensures var f := NewMessageFields(u, chatId, content, t, fileUrl);
            MessageSchema.CreateMessage(newId, f.(content := Some(Text.Trim(content))), now)
            == MessageSchema.CreateMessage(newId, f, now)
  {
    var f := NewMessageFields(u, chatId, content, t, fileUrl);
    var g := f.(content := Some(Text.Trim(content)));
    Text.TrimIdempotent(content);
    MessageSchema.SameTrimmedContent(newId, f, g, now);
  }

  /** `sendMessage` by user `u`: the content must be non-blank, the chat id valid,
      the caller a participant, and a non-text message needs a file URL; then the
      message is created with the id `newId`. */
  function SendMessageResult(chats: seq<Chat>, messages: seq<Message>, validId: Id -> bool, u: Id, chatId: Id,
                             content: Option<string>, messageType: Option<string>, fileUrl: Option<string>,
                             newId: Id, now: int): Result<Message, ApiError>
  {
    if content.None? || Text.IsBlank(content.value) then Err(ContentRequired)
    else if !ValidChatId(validId, chatId) then Err(InvalidChatId)
    else if !HasAccess(chats, chatId, u) then Err(AccessDenied)
    else
      var t := messageType.GetOr("text");
      if t != "text" && !Present(fileUrl) then Err(FileUrlRequired)
      else
        match MessageSchema.CreateMessage(newId, NewMessageFields(u, chatId, content.value, t, fileUrl), now)
        case Err(_) => Err(ServerError)
        case Ok(m) => if HasMessageId(messages, newId) then Err(ServerError) else Ok(m)
  }

  /** `Chat.findByIdAndUpdate(chatId, { lastMessage, lastActivity })`, which also
      sets `updatedAt`. */
  function Touch(chats: seq<Chat>, chatId: Id, messageId: Id, now: int): (r: seq<Chat>)
    ensures |r| == |chats|
    ensures forall k :: 0 <= k < |chats| ==>
              r[k] == if chats[k].id == chatId
                      then chats[k].(lastMessage := Some(messageId), lastActivity := now, updatedAt := now)
                      else chats[k]
  {
    seq(|chats|, k requires 0 <= k < |chats| =>
      if chats[k].id == chatId
      then chats[k].(lastMessage := Some(messageId), lastActivity := now, updatedAt := now)
      else chats[k])
  }
  /** Touching a chat keeps every chat's schema satisfied: `lastMessage`,
      `lastActivity` and `updatedAt` are not checked by the schema. */
  lemma TouchKeepsSchema(chats: seq<Chat>, chatId: Id, messageId: Id, now: int)
    requires forall k :: 0 <= k < |chats| ==> ChatSchema.ChatViolations(ChatSchema.FieldsOf(chats[k])) == []
    ensures var r := Touch(chats, chatId, messageId, now);
            forall k :: 0 <= k < |r| ==> ChatSchema.ChatViolations(ChatSchema.FieldsOf(r[k])) == []
  {
    var r := Touch(chats, chatId, messageId, now);
    forall k | 0 <= k < |r| ensures ChatSchema.ChatViolations(ChatSchema.FieldsOf(r[k])) == [] {
      assert ChatSchema.FieldsOf(r[k]).(lastActivity := Some(chats[k].lastActivity)) == ChatSchema.FieldsOf(chats[k]);
    }
  }


  /** The guards answer in order: content, chat id, membership, file URL. */
  lemma SendMessageGuards(chats: seq<Chat>, messages: seq<Message>, validId: Id -> bool, u: Id, chatId: Id,
                          content: Option<string>, messageType: Option<string>, fileUrl: Option<string>,
                          newId: Id, now: int)
    ensures var r := SendMessageResult(chats, messages, validId, u, chatId, content, messageType, fileUrl, newId, now);
            && (r == Err(ContentRequired) <==> content.None? || Text.IsBlank(content.value))
            && (r == Err(InvalidChatId) <==>
                  content.Some? && !Text.IsBlank(content.value) && !ValidChatId(validId, chatId))
            && (r == Err(AccessDenied) <==>
                  && content.Some? && !Text.IsBlank(content.value) && ValidChatId(validId, chatId)
                  && !HasAccess(chats, chatId, u))
            && (r == Err(FileUrlRequired) <==>
                  && content.Some? && !Text.IsBlank(content.value) && ValidChatId(validId, chatId)
                  && HasAccess(chats, chatId, u)
                  && messageType.GetOr("text") != "text" && !Present(fileUrl))
  {
  }

  /** A message is sent exactly when no guard answers, the trimmed content has at
      most 1000 characters, the type is in the enum, a given file URL passes the
      rule and the new id is free. */
  lemma SendAccepted(chats: seq<Chat>, messages: seq<Message>, validId: Id -> bool, u: Id, chatId: Id,
                     content: Option<string>, messageType: Option<string>, fileUrl: Option<string>,
                     newId: Id, now: int)
    ensures SendMessageResult(chats, messages, validId, u, chatId, content, messageType, fileUrl, newId, now).Ok? <==>
              && content.Some? && !Text.IsBlank(content.value) && ValidChatId(validId, chatId)
              && HasAccess(chats, chatId, u)
              && (messageType.GetOr("text") != "text" ==> Present(fileUrl))
              && |Text.Trim(content.value)| <= MessageSchema.MaxContentLength
              && MessageSchema.ParseMessageType(messageType).Some?
              && (Present(fileUrl) ==> Text.MatchesHttpUrl(fileUrl.value))
              && !HasMessageId(messages, newId)
  {
    if content.Some? && !Text.IsBlank(content.value) && ValidChatId(validId, chatId) && HasAccess(chats, chatId, u) {
      var t := messageType.GetOr("text");
      if t == "text" || Present(fileUrl) {
        var f := NewMessageFields(u, chatId, content.value, t, fileUrl);
        var created := MessageSchema.CreateMessage(newId, f, now);
        assert MessageSchema.ParseMessageType(Some(t)) == MessageSchema.ParseMessageType(messageType);
        assert Text.UrlRule(f.fileUrl) <==> (Present(fileUrl) ==> Text.MatchesHttpUrl(fileUrl.value));
        assert |Text.Trim(content.value)| > 0;
        assert created.Ok? <==>
                 && |Text.Trim(content.value)| <= MessageSchema.MaxContentLength
                 && MessageSchema.ParseMessageType(messageType).Some?
                 && (Present(fileUrl) ==> Text.MatchesHttpUrl(fileUrl.value));
      }
    }
  }

  /** A sent message is the caller's, in the chat, with the trimmed content (at most
      1000 characters), unread, not deleted and created now; its type is the one
      asked for, and a non-text message carries an `http(s)://` file URL. */
  lemma SentMessage(chats: seq<Chat>, messages: seq<Message>, validId: Id -> bool, u: Id, chatId: Id,
                    content: Option<string>, messageType: Option<string>, fileUrl: Option<string>,
                    newId: Id, now: int)
    requires SendMessageResult(chats, messages, validId, u, chatId, content, messageType, fileUrl, newId, now).Ok?
    ensures var m := SendMessageResult(chats, messages, validId, u, chatId, content, messageType, fileUrl, newId, now).value;
            && m.id == newId && m.sender == u && m.chat == chatId
            && m.content == Text.Trim(content.value) && m.content != ""
            && |m.content| <= MessageSchema.MaxContentLength
            && MessageSchema.MessageTypeName(m.messageType) == messageType.GetOr("text")
            && m.fileUrl == (if Present(fileUrl) then fileUrl else None)
            && (m.messageType != MessageSchema.TextMessage ==> m.fileUrl.Some? && Text.MatchesHttpUrl(m.fileUrl.value))
            && m.readBy == [] && !m.isDeleted && m.createdAt == now
  {
    var m := SendMessageResult(chats, messages, validId, u, chatId, content, messageType, fileUrl, newId, now).value;
    var t := messageType.GetOr("text");
    assert MessageSchema.ParseMessageType(Some(t)) == Some(m.messageType);
    MessageSchema.ParseMessageTypeName(m.messageType);
    assert m.messageType != MessageSchema.TextMessage ==> t != "text";
  }

  /** After sending, the chat names the message as its last one and is active now;
      the caller still has access and the other chats are untouched. */
  lemma SendTouchesChat(chats: seq<Chat>, chatId: Id, u: Id, messageId: Id, now: int)
    requires HasAccess(chats, chatId, u)
    ensures var after := Touch(chats, chatId, messageId, now);
            && HasAccess(after, chatId, u)
            && (forall k :: 0 <= k < |after| && after[k].id == chatId ==>
                  after[k].lastMessage == Some(messageId) && after[k].lastActivity == now)
            && (forall k :: 0 <= k < |after| && chats[k].id != chatId ==> after[k] == chats[k])
  {
    var after := Touch(chats, chatId, messageId, now);
    var k :| 0 <= k < |chats| && chats[k].id == chatId && u in chats[k].participants;
    assert after[k].id == chatId && u in after[k].participants;
  }

  /** Touching a chat keeps chat ids unique and direct chats distinct. */
  lemma TouchKeepsChatsValid(chats: seq<Chat>, chatId: Id, messageId: Id, now: int)
    requires UniqueChatIds(chats) && DirectChatsDistinct(chats)
    ensures UniqueChatIds(Touch(chats, chatId, messageId, now)) && DirectChatsDistinct(Touch(chats, chatId, messageId, now))
  {
    var after := Touch(chats, chatId, messageId, now);
    assert forall k :: 0 <= k < |after| ==>
             after[k].id == chats[k].id && after[k].participants == chats[k].participants
             && after[k].chatType == chats[k].chatType;
    forall i, j | 0 <= i < j < |after| && IsDirectChat(after[i]) && IsDirectChat(after[j])
      ensures !SameMembers(after[i], after[j])
    {
      assert !SameMembers(chats[i], chats[j]);
    }
  }

  /** Appending a fresh message with no receipts keeps message ids and receipts unique. */
  lemma AppendKeepsMessagesValid(messages: seq<Message>, m: Message)
    requires UniqueMessageIds(messages) && ReceiptsUnique(messages)
    requires !HasMessageId(messages, m.id) && m.readBy == []
    ensures UniqueMessageIds(messages + [m]) && ReceiptsUnique(messages + [m])
  {
    var ms := messages + [m];
    forall i, j | 0 <= i < j < |ms| ensures ms[i].id != ms[j].id {
      if j == |messages| {
        assert ms[i] == messages[i];
      }
    }
    forall k | 0 <= k < |ms| ensures Seqs.NoDup(Readers(ms[k].readBy)) {
      if k == |messages| {
        assert Readers(ms[k].readBy) == [];
      } else {
        assert ms[k] == messages[k];
      }
    }
  }

  /** Sending keeps the store valid. */
  lemma SendKeepsValid(chats: seq<Chat>, messages: seq<Message>, validId: Id -> bool, u: Id,
                       chatId: Id, content: Option<string>, messageType: Option<string>,
                       fileUrl: Option<string>, newId: Id, now: int)
    requires StoreValid(chats, messages)
    requires SendMessageResult(chats, messages, validId, u, chatId, content, messageType, fileUrl, newId, now).Ok?
    ensures StoreValid(Touch(chats, chatId, newId, now),
              messages + [SendMessageResult(chats, messages, validId, u, chatId, content, messageType, fileUrl, newId, now).value])
  {
    var m := SendMessageResult(chats, messages, validId, u, chatId, content, messageType, fileUrl, newId, now).value;
    assert m.id == newId && m.readBy == [] by {
      SentMessage(chats, messages, validId, u, chatId, content, messageType, fileUrl, newId, now);
    }
    TouchKeepsChatsValid(chats, chatId, newId, now);
    AppendKeepsMessagesValid(messages, m);
  }

  // ---------------------------------------------------------------- markMessagesAsRead

  /** `messageIds`: when given, its valid ids; an empty result leaves the whole
      chat in scope. */
  function ReadScope(messageIds: Option<seq<string>>, validId: Id -> bool): (r: Option<seq<Id>>)
    ensures r.Some? ==> messageIds.Some? && r.value != []
    ensures r.Some? ==> forall k :: 0 <= k < |r.value| ==> validId(r.value[k]) && r.value[k] in messageIds.value
    ensures messageIds.Some? ==>
              (r.None? <==> forall k :: 0 <= k < |messageIds.value| ==> !validId(messageIds.value[k]))
    ensures messageIds.Some? && r.Some? ==>
              forall k :: 0 <= k < |messageIds.value| && validId(messageIds.value[k]) ==> messageIds.value[k] in r.value
  {
    if messageIds.None? then None
    else
      var valid := Seqs.Filter(messageIds.value, validId);
      assert valid != [] ==> validId(valid[0]);
      if valid == [] then None else Some(valid)
  }

  predicate HasRead(m: Message, u: Id) {
    u in Readers(m.readBy)
  }

  /** The query `{ chat, sender: { $ne: u }, "readBy.user": { $ne: u } }`, with
      `_id: { $in: scope }` when there is a scope. */
  predicate ToMark(m: Message, u: Id, chatId: Id, scope: Option<seq<Id>>) {
    m.chat == chatId && m.sender != u && !HasRead(m, u) && (scope.None? || m.id in scope.value)
  }

  /** `$push: { readBy: { user: u, readAt: now } }`, which also sets `updatedAt`. */
  function MarkOne(m: Message, u: Id, now: int): (r: Message)
    ensures r.id == m.id && r.sender == m.sender && r.chat == m.chat
    ensures Readers(r.readBy) == Readers(m.readBy) + [u]
    ensures r.readBy == m.readBy + [MessageSchema.ReadReceipt(u, now)] && r.updatedAt == now
    ensures r.content == m.content && r.messageType == m.messageType && r.fileUrl == m.fileUrl
    ensures r.isDeleted == m.isDeleted && r.createdAt == m.createdAt
  {
    var r := m.(readBy := m.readBy + [MessageSchema.ReadReceipt(u, now)], updatedAt := now);
    assert Readers(r.readBy) == Readers(m.readBy) + [u];
    r
  }

  /** `Message.updateMany(query, { $push: ... })`. */
  function MarkRead(messages: seq<Message>, u: Id, chatId: Id, scope: Option<seq<Id>>, now: int): (r: seq<Message>)
    ensures |r| == |messages|
    ensures forall k :: 0 <= k < |messages| ==>
              r[k] == if ToMark(messages[k], u, chatId, scope) then MarkOne(messages[k], u, now) else messages[k]
  {
    seq(|messages|, k requires 0 <= k < |messages| =>
      if ToMark(messages[k], u, chatId, scope) then MarkOne(messages[k], u, now) else messages[k])
  }
  /** Marking messages as read keeps every message's schema satisfied: a receipt
      always names its user, and nothing the schema checks changes. */
  lemma MarkReadKeepsSchema(messages: seq<Message>, u: Id, chatId: Id, scope: Option<seq<Id>>, now: int)
    requires forall k :: 0 <= k < |messages| ==> MessageSchema.MessageViolations(MessageSchema.FieldsOf(messages[k])) == []
    ensures var r := MarkRead(messages, u, chatId, scope, now);
            forall k :: 0 <= k < |r| ==> MessageSchema.MessageViolations(MessageSchema.FieldsOf(r[k])) == []
  {
    var r := MarkRead(messages, u, chatId, scope, now);
    forall k | 0 <= k < |r| ensures MessageSchema.MessageViolations(MessageSchema.FieldsOf(r[k])) == [] {
      MessageSchema.NoMessageViolations(MessageSchema.FieldsOf(messages[k]));
      MessageSchema.NoMessageViolations(MessageSchema.FieldsOf(r[k]));
    }
  }


  /** How many messages the query finds. */
  function CountToMark(messages: seq<Message>, u: Id, chatId: Id, scope: Option<seq<Id>>): (n: nat)
    ensures n <= |messages|
    ensures n == 0 <==> forall k :: 0 <= k < |messages| ==> !ToMark(messages[k], u, chatId, scope)
  {
    if messages == [] then 0
    else
      assert forall k :: 1 <= k < |messages| ==> messages[k] == messages[1..][k - 1];
      (if ToMark(messages[0], u, chatId, scope) then 1 else 0) + CountToMark(messages[1..], u, chatId, scope)
  }

  /** `markMessagesAsRead` by user `u`: the chat id must be valid and the caller a
      participant; the reply is the number of messages marked. */
  function MarkReadResult(chats: seq<Chat>, messages: seq<Message>, validId: Id -> bool, u: Id, chatId: Id,
                          messageIds: Option<seq<string>>): Result<nat, ApiError>
  {
    if !ValidChatId(validId, chatId) then Err(InvalidChatId)
    else if !HasAccess(chats, chatId, u) then Err(AccessDenied)
    else Ok(CountToMark(messages, u, chatId, ReadScope(messageIds, validId)))
  }

  /** Only other people's unread messages of the chat, within the scope, are marked:
      the caller's own messages, other chats' messages and messages out of scope
      are left as they were. */
  lemma MarkReadLeavesOthers(messages: seq<Message>, u: Id, chatId: Id, scope: Option<seq<Id>>, now: int)
    ensures var r := MarkRead(messages, u, chatId, scope, now);
            forall k :: 0 <= k < |messages| ==>
              (messages[k].sender == u || messages[k].chat != chatId || HasRead(messages[k], u)
               || (scope.Some? && messages[k].id !in scope.value)) ==> r[k] == messages[k]
  {
  }

  /** Marking never gives a message a second receipt from the same user, and every
      message of the chat in scope that someone else sent ends with exactly one
      receipt from the caller. */
  lemma MarkReadOnce(messages: seq<Message>, u: Id, chatId: Id, scope: Option<seq<Id>>, now: int)
    requires ReceiptsUnique(messages)
    ensures var r := MarkRead(messages, u, chatId, scope, now);
            && ReceiptsUnique(r)
            && forall k :: 0 <= k < |messages| && messages[k].chat == chatId && messages[k].sender != u
                           && (scope.None? || messages[k].id in scope.value) ==>
                             Seqs.Count(Readers(r[k].readBy), u) == 1
  {
    var r := MarkRead(messages, u, chatId, scope, now);
    forall k | 0 <= k < |messages|
      ensures Seqs.NoDup(Readers(r[k].readBy))
      ensures (messages[k].chat == chatId && messages[k].sender != u
               && (scope.None? || messages[k].id in scope.value)) ==> Seqs.Count(Readers(r[k].readBy), u) == 1
    {
      var before := Readers(messages[k].readBy);
      if ToMark(messages[k], u, chatId, scope) {
        Seqs.AppendNoDup(before, u);
        Seqs.CountConcat(before, [u], u);
        assert [u] == [u] + [];
      } else if messages[k].chat == chatId && messages[k].sender != u && (scope.None? || messages[k].id in scope.value) {
        assert u in before;
        NoDupCountOne(before, u);
      }
    }
  }

  lemma {:induction false} NoDupCountOne(s: seq<Id>, x: Id)
    requires Seqs.NoDup(s) && x in s
    ensures Seqs.Count(s, x) == 1
  {
    var i :| 0 <= i < |s| && s[i] == x;
    assert s == s[..i] + [x] + s[i + 1..];
    assert x !in s[..i] && x !in s[i + 1..];
    Seqs.CountConcat(s[..i] + [x], s[i + 1..], x);
    Seqs.CountConcat(s[..i], [x], x);
    assert Seqs.Count([x], x) == 1 by {
      assert [x][1..] == [];
    }
  }

  /** Marking twice is marking once: afterwards nothing is left to mark. */
  lemma MarkReadIdempotent(messages: seq<Message>, u: Id, chatId: Id, scope: Option<seq<Id>>, now: int, later: int)
    ensures var r := MarkRead(messages, u, chatId, scope, now);
            && CountToMark(r, u, chatId, scope) == 0
            && MarkRead(r, u, chatId, scope, later) == r
  {
    var r := MarkRead(messages, u, chatId, scope, now);
    forall k | 0 <= k < |r| ensures !ToMark(r[k], u, chatId, scope) {
      if ToMark(messages[k], u, chatId, scope) {
        assert Readers(r[k].readBy)[|Readers(messages[k].readBy)|] == u;
      }
    }
  }

  /** With nothing to mark the update changes nothing, which is why the handler
      returns early then. */
  lemma MarkReadNothing(messages: seq<Message>, u: Id, chatId: Id, scope: Option<seq<Id>>, now: int)
    requires CountToMark(messages, u, chatId, scope) == 0
    ensures MarkRead(messages, u, chatId, scope, now) == messages
  {
  }

  /** Marking keeps the store valid. */
  lemma MarkKeepsValid(chats: seq<Chat>, messages: seq<Message>, u: Id, chatId: Id, scope: Option<seq<Id>>, now: int)
    requires StoreValid(chats, messages)
    ensures StoreValid(chats, MarkRead(messages, u, chatId, scope, now))
  {
    MarkReadOnce(messages, u, chatId, scope, now);
    var r := MarkRead(messages, u, chatId, scope, now);
    forall i, j | 0 <= i < j < |r| ensures r[i].id != r[j].id {
      assert r[i].id == messages[i].id && r[j].id == messages[j].id;
    }
  }

  // ---------------------------------------------------------------- the server

  /** The API server's collections. */
  class ChatServer {
    var users: set<Id>
    var chats: seq<Chat>
    var messages: seq<Message>
    /** `mongoose.Types.ObjectId.isValid`. */
    const validId: Id -> bool

    ghost predicate Valid()
      reads this
    {
      StoreValid(chats, messages)
    }

    constructor (users: set<Id>, validId: Id -> bool)
      ensures Valid()
      ensures this.users == users && this.validId == validId && chats == [] && messages == []
    {
      this.users := users;
      this.validId := validId;
      chats := [];
      messages := [];
    }

    /** `createChat`. */
    method CreateChat(userId: Id, participantId: Option<string>, chatType: Option<string>,
                      groupName: Option<string>, newId: Id, now: int) returns (r: Result<ChatOutcome, ApiError>)
      requires Valid()
      modifies this
      ensures Valid()
      ensures r == CreateChatResult(old(users), old(chats), validId, userId, participantId, chatType, groupName, newId, now)
      ensures chats == ChatsAfterCreate(old(chats), r)
      ensures users == old(users) && messages == old(messages)
    {
      CreateKeepsValid(users, chats, messages, validId, userId, participantId, chatType, groupName, newId, now);
      if !Present(participantId) {
        return Err(ParticipantRequired);
      }
      var p := participantId.value;
      if !validId(p) {
        return Err(ServerError);
      }
      if p !in users {
        return Err(UserNotFound);
      }
      var t := chatType.GetOr("direct");
      if t == "direct" {
        var found := FindDirect(chats, userId, p);
        if found.Some? {
          return Ok(Existing(chats[found.value]));
        }
      }
      if t == "group" && (groupName.None? || Text.IsBlank(groupName.value)) {
        return Err(GroupNameRequired);
      }
      var created := ChatSchema.CreateChat(newId, NewChatFields(userId, p, t, groupName, now), now);
      if created.Err? || HasChatId(chats, newId) {
        return Err(ServerError);
      }
      chats := chats + [created.value];
      r := Ok(Created(created.value));
    }

    /** `sendMessage`. */
    method SendMessage(userId: Id, chatId: Id, content: Option<string>, messageType: Option<string>,
                       fileUrl: Option<string>, newId: Id, now: int) returns (r: Result<Message, ApiError>)
      requires Valid()
      modifies this
      ensures Valid()
      ensures r == SendMessageResult(old(chats), old(messages), validId, userId, chatId, content, messageType,
                                     fileUrl, newId, now)
      ensures r.Ok? ==> messages == old(messages) + [r.value] && chats == Touch(old(chats), chatId, newId, now)
      ensures r.Err? ==> messages == old(messages) && chats == old(chats)
      ensures users == old(users)
    {
      if content.None? || Text.IsBlank(content.value) {
        return Err(ContentRequired);
      }
      if !ValidChatId(validId, chatId) {
        return Err(InvalidChatId);
      }
      if !HasAccess(chats, chatId, userId) {
        return Err(AccessDenied);
      }
      var t := messageType.GetOr("text");
      if t != "text" && !Present(fileUrl) {
        return Err(FileUrlRequired);
      }
      var created := MessageSchema.CreateMessage(newId, NewMessageFields(userId, chatId, content.value, t, fileUrl), now);
      if created.Err? || HasMessageId(messages, newId) {
        return Err(ServerError);
      }
      r := Ok(created.value);
      assert r == SendMessageResult(chats, messages, validId, userId, chatId, content, messageType, fileUrl, newId, now);
      SendKeepsValid(chats, messages, validId, userId, chatId, content, messageType, fileUrl, newId, now);
      Commit(created.value, Touch(chats, chatId, newId, now));
    }

    /** Stores a new message and the chats it touched. */
    method Commit(m: Message, touched: seq<Chat>)
      requires StoreValid(touched, messages + [m])
      modifies this
      ensures Valid() && messages == old(messages) + [m] && chats == touched && users == old(users)
    {
      messages := messages + [m];
      chats := touched;
    }

    /** `markMessagesAsRead`: returns the number of messages marked. */
    method MarkMessagesAsRead(userId: Id, chatId: Id, messageIds: Option<seq<string>>, now: int)
      returns (r: Result<nat, ApiError>)
      requires Valid()
      modifies this
      ensures Valid()
      ensures r == MarkReadResult(old(chats), old(messages), validId, userId, chatId, messageIds)
      ensures messages == if r.Ok? then MarkRead(old(messages), userId, chatId, ReadScope(messageIds, validId), now)
                          else old(messages)
      ensures chats == old(chats) && users == old(users)
    {
      if !ValidChatId(validId, chatId) {
        return Err(InvalidChatId);
      }
      if !HasAccess(chats, chatId, userId) {
        return Err(AccessDenied);
      }
      var scope := ReadScope(messageIds, validId);
      var n := CountToMark(messages, userId, chatId, scope);
      if n == 0 {
        MarkReadNothing(messages, userId, chatId, scope, now);
        return Ok(0);
      }
      MarkKeepsValid(chats, messages, userId, chatId, scope, now);
      messages := MarkRead(messages, userId, chatId, scope, now);
      r := Ok(n);
    }
  }
}
