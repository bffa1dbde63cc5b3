/** The anonymous-chat hook of the web client (`useChat`): the chat status, the
    message list with delivery receipts, and per-message emoji reactions. The
    hook's timers and random choices are explicit steps whose choices are inputs. */
module ChatRoom {
  import opened Wrappers
  import Text
  import Seqs

  datatype ChatStatus = Idle | Searching | Chatting | Ended

  datatype Sender = FromUser | FromStranger | FromSystem

  /** Who can react to a message. */
  datatype Reactor = ByUser | ByStranger

  datatype Receipt = Sent | Delivered | Read

  datatype FileKind = ImageFile | OtherFile

  datatype Attachment = Attachment(name: string, url: string, kind: FileKind)

  /** One key of a message's `reactions` object: an emoji and the reactors under it.
      A message keeps its entries in the object's key order. */
  datatype Reaction = Reaction(emoji: string, senders: seq<Reactor>)

  datatype Message = Message(
    id: nat,
    sender: Sender,
    text: Option<string>,
    reactions: seq<Reaction>,
    status: Option<Receipt>,
    file: Option<Attachment>)

  /** The file picked in the file input: its name and MIME type. */
  datatype Upload = Upload(name: string, mimeType: string)

  const SearchingNotice: string := "Finding a stranger with similar interests..."
  const DisconnectedNotice: string := "You have disconnected."
  const StrangerReplyText: string := "This is a simulated response from the stranger."
  const StrangerNames: seq<string> := ["CyberNomad", "PixelPioneer", "GlitchArtisan", "DataDaemon", "SynthWaveRider"]
  const EmojiReactions: seq<string> :=
    ["\U{1F44D}", "\U{2764}\U{FE0F}", "\U{1F602}", "\U{1F62E}", "\U{1F622}", "\U{1F389}"]

  function ConnectedNotice(name: string): string {
    "You have connected with " + name + ". Say hi!"
  }

  // ---------------------------------------------------------------------------
  // Reactions: an ordered list of entries whose keys are distinct, as in a JS object

  predicate KeysDistinct(rs: seq<Reaction>) {
    forall i, j :: 0 <= i < j < |rs| ==> rs[i].emoji != rs[j].emoji
  }

  /** `reactions[e]`, with a missing key read as the empty list. */
  function Senders(rs: seq<Reaction>, e: string): seq<Reactor> {
    if rs == [] then []
    else if rs[0].emoji == e then rs[0].senders
    else Senders(rs[1..], e)
  }

  /** No key holds an empty list. */
  predicate NoEmptyLists(rs: seq<Reaction>) {
    forall k :: 0 <= k < |rs| ==> rs[k].senders != []
  }

  /** The user is listed under at most one emoji. */
  ghost predicate UserOnce(rs: seq<Reaction>) {
    forall e, e' :: ByUser in Senders(rs, e) && ByUser in Senders(rs, e') ==> e == e'
  }

  ghost predicate WellFormed(rs: seq<Reaction>) {
    KeysDistinct(rs) && UserOnce(rs) && NoEmptyLists(rs)
  }

  /** `reactions[e] = v`: the entry of `e` is replaced where it stands, or a new key goes last. */
  function SetKey(rs: seq<Reaction>, e: string, v: seq<Reactor>): (r: seq<Reaction>)
    ensures forall e' :: Senders(r, e') == if e' == e then v else Senders(rs, e')
    ensures forall k :: 0 <= k < |r| ==> r[k] == Reaction(e, v) || r[k] in rs
  {
    if rs == [] then [Reaction(e, v)]
    else if rs[0].emoji == e then [Reaction(e, v)] + rs[1..]
    else
      var rest := SetKey(rs[1..], e, v);
      assert forall k :: 0 <= k < |rest| && rest[k] != Reaction(e, v) ==> rest[k] in rs[1..];
      [rs[0]] + rest
  }

  /** Setting a key keeps the keys distinct. */
  lemma {:induction false} SetKeyDistinct(rs: seq<Reaction>, e: string, v: seq<Reactor>)
    requires KeysDistinct(rs)
    ensures KeysDistinct(SetKey(rs, e, v))
  {
    if rs != [] && rs[0].emoji != e {
      var rest := SetKey(rs[1..], e, v);
      SetKeyDistinct(rs[1..], e, v);
      forall k | 0 <= k < |rest| ensures rest[k].emoji != rs[0].emoji {
        if rest[k] != Reaction(e, v) {
          var j :| 0 <= j < |rs| - 1 && rs[1..][j] == rest[k];
          assert rs[j + 1] == rest[k];
        }
      }
      assert SetKey(rs, e, v) == [rs[0]] + rest;
    }
  }

  /** `delete reactions[e]`. */
  function DeleteKey(rs: seq<Reaction>, e: string): (r: seq<Reaction>)
    ensures forall e' :: Senders(r, e') == if e' == e then [] else Senders(rs, e')
    ensures forall k :: 0 <= k < |r| ==> r[k] in rs
    ensures KeysDistinct(rs) ==> KeysDistinct(r)
  {
    if rs == [] then []
    else
      var rest := DeleteKey(rs[1..], e);
      assert forall k :: 0 <= k < |rest| ==> rest[k] in rs[1..];
      if rs[0].emoji == e then rest else [rs[0]] + rest
  }

  /** The emoji of the first entry that lists the user:
      `Object.entries(reactions).find(([_, s]) => s.includes('user'))`. */
  function UserEmoji(rs: seq<Reaction>): (r: Option<string>)
    ensures r.None? ==> forall e :: ByUser !in Senders(rs, e)
    ensures r.Some? && KeysDistinct(rs) ==> ByUser in Senders(rs, r.value)
  {
    if rs == [] then None
    else if ByUser in rs[0].senders then Some(rs[0].emoji)
    else
      var r := UserEmoji(rs[1..]);
      if r.Some? && KeysDistinct(rs) then
        HeadKeyNotInTail(rs, r.value);
        r
      else r
  }

  /** With distinct keys, a key found in the tail is not the head's. */
  lemma HeadKeyNotInTail(rs: seq<Reaction>, e: string)
    requires rs != [] && KeysDistinct(rs) && Senders(rs[1..], e) != []
    ensures rs[0].emoji != e
  {
    SendersHasKey(rs[1..], e);
    var k :| 0 <= k < |rs[1..]| && rs[1..][k].emoji == e;
    assert rs[k + 1].emoji == e;
  }

  /** A non-empty lookup comes from an entry with that key. */
  lemma {:induction false} SendersHasKey(rs: seq<Reaction>, e: string)
    requires Senders(rs, e) != []
    ensures exists k :: 0 <= k < |rs| && rs[k].emoji == e
  {
    if rs[0].emoji != e {
      SendersHasKey(rs[1..], e);
      var k :| 0 <= k < |rs[1..]| && rs[1..][k].emoji == e;
      assert rs[k + 1].emoji == e;
    }
  }

  /** The user's click on `emoji` (`handleReaction`): take the user off the emoji
      they were under, dropping a list that becomes empty, and, unless that was
      `emoji` itself, put the user under `emoji`. */
  function ToggleUser(rs: seq<Reaction>, emoji: string): seq<Reaction> {
    var cleared := WithoutUser(rs);
    if UserEmoji(rs) != Some(emoji) then SetKey(cleared, emoji, Senders(cleared, emoji) + [ByUser])
    else cleared
  }

  /** The first half of the toggle: the user taken off the emoji they were under. */
  function WithoutUser(rs: seq<Reaction>): seq<Reaction> {
    match UserEmoji(rs)
    case None => rs
    case Some(previous) =>
      var kept := Seqs.RemoveAll(Senders(rs, previous), ByUser);
      if kept == [] then DeleteKey(rs, previous) else SetKey(rs, previous, kept)
  }

  /** The stranger's reaction with `emoji`: listed once, never twice. */
  function AddStranger(rs: seq<Reaction>, emoji: string): (r: seq<Reaction>)
    ensures Senders(r, emoji) ==
              if ByStranger in Senders(rs, emoji) then Senders(rs, emoji)
              else Senders(rs, emoji) + [ByStranger]
    ensures forall e :: e != emoji ==> Senders(r, e) == Senders(rs, e)
  {
    var current := Senders(rs, emoji);
    if ByStranger in current then rs else SetKey(rs, emoji, current + [ByStranger])
  }

  /** The stranger's reaction changes no list apart from the stranger's entries. */
  lemma AddStrangerOthers(rs: seq<Reaction>, emoji: string)
    ensures forall e :: Seqs.RemoveAll(Senders(AddStranger(rs, emoji), e), ByStranger)
                        == Seqs.RemoveAll(Senders(rs, e), ByStranger)
  {
    Seqs.RemoveAllConcat(Senders(rs, emoji), [ByStranger], ByStranger);
  }

  /** The stranger's reaction keeps the reactions well formed. */
  lemma AddStrangerSpec(rs: seq<Reaction>, emoji: string)
    requires WellFormed(rs)
    ensures WellFormed(AddStranger(rs, emoji))
  {
    var current := Senders(rs, emoji);
    if ByStranger !in current {
      var r := SetKey(rs, emoji, current + [ByStranger]);
      assert r == AddStranger(rs, emoji);
      SetKeyDistinct(rs, emoji, current + [ByStranger]);
      forall e ensures ByUser in Senders(r, e) <==> ByUser in Senders(rs, e) {
        if e == emoji {
          assert Senders(r, e) == current + [ByStranger];
        }
      }
      forall k | 0 <= k < |r| ensures r[k].senders != [] {
        if r[k] != Reaction(emoji, current + [ByStranger]) {
          var j :| 0 <= j < |rs| && rs[j] == r[k];
        }
      }
    }
  }

  /** Clearing keeps the keys distinct and no list empty, and leaves every list as
      it was without the user. */
  lemma WithoutUserSpec(rs: seq<Reaction>)
    requires KeysDistinct(rs) && UserOnce(rs)
    ensures var c := WithoutUser(rs);
            && KeysDistinct(c)
            && (NoEmptyLists(rs) ==> NoEmptyLists(c))
            && forall e :: Senders(c, e) == Seqs.RemoveAll(Senders(rs, e), ByUser)
  {
    var c := WithoutUser(rs);
    if UserEmoji(rs).Some? {
      var kept := Seqs.RemoveAll(Senders(rs, UserEmoji(rs).value), ByUser);
      if kept != [] {
        SetKeyDistinct(rs, UserEmoji(rs).value, kept);
      }
    }
    forall e ensures Senders(c, e) == Seqs.RemoveAll(Senders(rs, e), ByUser) {
      if UserEmoji(rs).None? || UserEmoji(rs).value != e {
        assert ByUser !in Senders(rs, e);
        Seqs.RemoveAllAbsent(Senders(rs, e), ByUser);
      }
    }
  }

  /** The toggle keeps the reactions well formed. */
  lemma ToggleUserSpec(rs: seq<Reaction>, emoji: string)
    requires KeysDistinct(rs) && UserOnce(rs)
    ensures var r := ToggleUser(rs, emoji);
            && KeysDistinct(r) && UserOnce(r)
            && (NoEmptyLists(rs) ==> NoEmptyLists(r))
  {
    WithoutUserSpec(rs);
    var cleared := WithoutUser(rs);
    if UserEmoji(rs) != Some(emoji) {
      var v := Senders(cleared, emoji) + [ByUser];
      var r := SetKey(cleared, emoji, v);
      assert r == ToggleUser(rs, emoji);
      SetKeyDistinct(cleared, emoji, v);
      if NoEmptyLists(rs) {
        forall k | 0 <= k < |r| ensures r[k].senders != [] {
          if r[k] != Reaction(emoji, v) {
            var j :| 0 <= j < |cleared| && cleared[j] == r[k];
          }
        }
      }
    }
  }

  /** The toggle removes the user when they clicked the emoji they were under, and
      otherwise lists them exactly once under the clicked emoji and nowhere else. */
  lemma TogglePlacesUser(rs: seq<Reaction>, emoji: string)
    requires KeysDistinct(rs) && UserOnce(rs)
    ensures var r := ToggleUser(rs, emoji);
            && (UserEmoji(rs) == Some(emoji) ==> forall e :: ByUser !in Senders(r, e))
            && (UserEmoji(rs) != Some(emoji) ==>
                  Seqs.Count(Senders(r, emoji), ByUser) == 1
                  && forall e :: e != emoji ==> ByUser !in Senders(r, e))
  {
    WithoutUserSpec(rs);
    var cleared := WithoutUser(rs);
    if UserEmoji(rs) != Some(emoji) {
      var base := Senders(cleared, emoji);
      var r := SetKey(cleared, emoji, base + [ByUser]);
      assert r == ToggleUser(rs, emoji);
      Seqs.CountConcat(base, [ByUser], ByUser);
    }
  }

  /** The toggle leaves the stranger's entries as they were. */
  lemma ToggleKeepsStranger(rs: seq<Reaction>, emoji: string)
    requires KeysDistinct(rs) && UserOnce(rs)
    ensures forall e :: Seqs.RemoveAll(Senders(ToggleUser(rs, emoji), e), ByUser)
                        == Seqs.RemoveAll(Senders(rs, e), ByUser)
  {
    WithoutUserSpec(rs);
    var cleared := WithoutUser(rs);
    if UserEmoji(rs) == Some(emoji) {
      forall e ensures Seqs.RemoveAll(Senders(cleared, e), ByUser) == Seqs.RemoveAll(Senders(rs, e), ByUser) {
        Seqs.RemoveAllIdempotent(Senders(rs, e), ByUser);
      }
    } else {
      var base := Senders(cleared, emoji);
      var r := SetKey(cleared, emoji, base + [ByUser]);
      assert r == ToggleUser(rs, emoji);
      forall e ensures Seqs.RemoveAll(Senders(r, e), ByUser) == Seqs.RemoveAll(Senders(rs, e), ByUser) {
        if e == emoji {
          Seqs.RemoveAllConcat(base, [ByUser], ByUser);
        }
        Seqs.RemoveAllIdempotent(Senders(rs, e), ByUser);
      }
    }
  }

  // ---------------------------------------------------------------------------
  // The message list

  /** `messages.map(m => m.id === id ? f(m) : m)`. */
  function UpdateWhere(ms: seq<Message>, id: nat, f: Message -> Message): (r: seq<Message>)
    ensures |r| == |ms|
    ensures forall k :: 0 <= k < |ms| ==> r[k] == if ms[k].id == id then f(ms[k]) else ms[k]
  {
    seq(|ms|, k requires 0 <= k < |ms| => if ms[k].id == id then f(ms[k]) else ms[k])
  }

  /** The delivered and read steps: `{ ...m, status }` on the message with that id. */
  function WithReceipt(ms: seq<Message>, id: nat, st: Receipt): seq<Message> {
    UpdateWhere(ms, id, (m: Message) => m.(status := Some(st)))
  }

  /** Message ids strictly increase along the list (so they are distinct). */
  predicate IdsIncreasing(ms: seq<Message>) {
    forall i, j :: 0 <= i < j < |ms| ==> ms[i].id < ms[j].id
  }

  /** With distinct ids a receipt step changes at most one message, changes only its
      status, and keeps every id where it was. */
  lemma ReceiptChangesOne(ms: seq<Message>, id: nat, st: Receipt)
    requires IdsIncreasing(ms)
    ensures var r := WithReceipt(ms, id, st);
            && |r| == |ms|
            && (forall k :: 0 <= k < |ms| ==> r[k].id == ms[k].id && r[k].(status := ms[k].status) == ms[k])
            && (forall i, j :: 0 <= i < j < |ms| ==> r[i] == ms[i] || r[j] == ms[j])
            && (forall k :: 0 <= k < |ms| && ms[k].id == id ==> r[k].status == Some(st))
  {
  }

  /** A later receipt overwrites an earlier one: delivered then read is read. */
  lemma ReceiptOverwrites(ms: seq<Message>, id: nat, a: Receipt, b: Receipt)
    ensures WithReceipt(WithReceipt(ms, id, a), id, b) == WithReceipt(ms, id, b)
  {
  }

  /** Whether a picked file is shown as an image. */
  function KindOf(mimeType: string): FileKind {
    if Text.StartsWith(mimeType, "image/") then ImageFile else OtherFile
  }

  /** The state of the `useChat` hook. `nextId` stands for `Date.now()`, the source of
      message ids: here every new message takes it and it moves on, so ids are fresh. */
  class ChatRoom {
    var status: ChatStatus
    var messages: seq<Message>
    var inputValue: string
    var strangerName: string
    var isStrangerTyping: bool
    var nextId: nat

    ghost predicate Valid()
      reads this
    {
      && IdsIncreasing(messages)
      && (forall k :: 0 <= k < |messages| ==> messages[k].id < nextId)
      && (forall k :: 0 <= k < |messages| ==> WellFormed(messages[k].reactions))
    }

    constructor ()
      ensures Valid()
      ensures status == Idle && messages == [] && inputValue == ""
      ensures strangerName == "Stranger" && !isStrangerTyping
    {
      status := Idle;
      messages := [];
      inputValue := "";
      strangerName := "Stranger";
      isStrangerTyping := false;
      nextId := 0;
    }

    /** `addMessage`: appends a message with a fresh id and no reactions. */
    method AddMessage(sender: Sender, text: Option<string>, receipt: Option<Receipt>, file: Option<Attachment>)
      returns (id: nat)
      requires Valid()
      modifies this
      ensures Valid()
      ensures id == old(nextId) && nextId == id + 1
      ensures messages == old(messages) + [Message(id, sender, text, [], receipt, file)]
      ensures status == old(status) && inputValue == old(inputValue)
      ensures strangerName == old(strangerName) && isStrangerTyping == old(isStrangerTyping)
    {
      id := nextId;
      messages := messages + [Message(id, sender, text, [], receipt, file)];
      nextId := nextId + 1;
    }

    /** `setInputValue`. */
    method SetInput(value: string)
      modifies this
      ensures inputValue == value
      ensures status == old(status) && messages == old(messages) && nextId == old(nextId)
      ensures strangerName == old(strangerName) && isStrangerTyping == old(isStrangerTyping)
    {
      inputValue := value;
    }

    /** `handleStartSearch`: clear the list, search, and post the searching notice. */
    method StartSearch()
      requires Valid()
      modifies this
      ensures Valid()
      ensures status == Searching
      ensures messages == [Message(old(nextId), FromSystem, Some(SearchingNotice), [], None, None)]
      ensures nextId == old(nextId) + 1
      ensures inputValue == old(inputValue) && strangerName == old(strangerName)
      ensures isStrangerTyping == old(isStrangerTyping)
    {
      messages := [];
      status := Searching;
      var _ := AddMessage(FromSystem, Some(SearchingNotice), None, None);
    }

    /** The scheduled match step of `handleStartSearch`; `choice` is the random pick of a name.
        Like the timer callback, it runs whatever the status is by then. */
    method CompleteMatch(choice: nat)
      requires Valid()
      requires choice < |StrangerNames|
      modifies this
      ensures Valid()
      ensures strangerName == StrangerNames[choice] && status == Chatting
      ensures messages == old(messages) + [Message(old(nextId), FromSystem, Some(ConnectedNotice(StrangerNames[choice])), [], None, None)]
      ensures nextId == old(nextId) + 1
      ensures inputValue == old(inputValue) && isStrangerTyping == old(isStrangerTyping)
    {
      strangerName := StrangerNames[choice];
      status := Chatting;
      var _ := AddMessage(FromSystem, Some(ConnectedNotice(StrangerNames[choice])), None, None);
    }

    /** `handleEndChat`: only a running chat can be left; otherwise nothing happens. */
    method EndChat()
      requires Valid()
      modifies this
      ensures Valid()
      ensures old(status) == Chatting ==>
                && status == Ended
                && messages == old(messages) + [Message(old(nextId), FromSystem, Some(DisconnectedNotice), [], None, None)]
                && nextId == old(nextId) + 1
      ensures old(status) != Chatting ==>
                status == old(status) && messages == old(messages) && nextId == old(nextId)
      ensures inputValue == old(inputValue) && strangerName == old(strangerName)
      ensures isStrangerTyping == old(isStrangerTyping)
    {
      if status == Chatting {
        var _ := AddMessage(FromSystem, Some(DisconnectedNotice), None, None);
        status := Ended;
      }
    }

    /** `handleNextChat`: a new search, but only from a running or an ended chat. */
    method NextChat()
      requires Valid()
      modifies this
      ensures Valid()
      ensures old(status) in {Chatting, Ended} ==>
                && status == Searching
                && messages == [Message(old(nextId), FromSystem, Some(SearchingNotice), [], None, None)]
                && nextId == old(nextId) + 1
      ensures old(status) !in {Chatting, Ended} ==>
                status == old(status) && messages == old(messages) && nextId == old(nextId)
      ensures inputValue == old(inputValue) && strangerName == old(strangerName)
      ensures isStrangerTyping == old(isStrangerTyping)
    {
      if status == Chatting || status == Ended {
        StartSearch();
      }
    }

    /** `handleSendMessage`: a non-blank input in a running chat becomes a `sent`
        message of the user's, exactly as typed, and the input is cleared. The id of
        the new message is what the later receipt steps target. */
    method SendMessage() returns (sent: Option<nat>)
      requires Valid()
      modifies this
      ensures Valid()
      ensures (Text.IsBlank(old(inputValue)) || old(status) != Chatting) ==>
                && sent.None?
                && messages == old(messages) && inputValue == old(inputValue) && nextId == old(nextId)
      ensures !(Text.IsBlank(old(inputValue)) || old(status) != Chatting) ==>
                && sent == Some(old(nextId))
                && messages == old(messages) + [Message(old(nextId), FromUser, Some(old(inputValue)), [], Some(Sent), None)]
                && inputValue == ""
                && nextId == old(nextId) + 1
      ensures status == old(status) && strangerName == old(strangerName)
      ensures isStrangerTyping == old(isStrangerTyping)
    {
      if Text.Trim(inputValue) == [] || status != Chatting {
        return None;
      }
      var id := AddMessage(FromUser, Some(inputValue), Some(Sent), None);
      inputValue := "";
      sent := Some(id);
    }

    /** The delivery step of `handleSendMessage`. */
    method Deliver(id: nat)
      requires Valid()
      modifies this
      ensures Valid()
      ensures messages == WithReceipt(old(messages), id, Delivered)
      ensures status == old(status) && inputValue == old(inputValue) && nextId == old(nextId)
      ensures strangerName == old(strangerName) && isStrangerTyping == old(isStrangerTyping)
    {
      messages := WithReceipt(messages, id, Delivered);
    }

    /** The read step of `handleSendMessage`: the stranger starts typing. */
    method MarkRead(id: nat)
      requires Valid()
      modifies this
      ensures Valid()
      ensures messages == WithReceipt(old(messages), id, Read)
      ensures isStrangerTyping
      ensures status == old(status) && inputValue == old(inputValue) && nextId == old(nextId)
      ensures strangerName == old(strangerName)
    {
      messages := WithReceipt(messages, id, Read);
      isStrangerTyping := true;
    }

    /** The reply step of `handleSendMessage`: the stranger stops typing and answers. */
    method ReceiveReply()
      requires Valid()
      modifies this
      ensures Valid()
      ensures !isStrangerTyping
      ensures messages == old(messages) + [Message(old(nextId), FromStranger, Some(StrangerReplyText), [], None, None)]
      ensures nextId == old(nextId) + 1
      ensures status == old(status) && inputValue == old(inputValue) && strangerName == old(strangerName)
    {
      isStrangerTyping := false;
      var _ := AddMessage(FromStranger, Some(StrangerReplyText), None, None);
    }

    /** `handleFileChange`: a picked file becomes a `sent` message of the user's,
        shown as an image iff its MIME type starts with `image/`. `url` is the
        object URL the browser makes for it. */
    method AttachFile(upload: Option<Upload>, url: string)
      requires Valid()
      modifies this
      ensures Valid()
      ensures upload.None? ==> messages == old(messages) && nextId == old(nextId)
      ensures upload.Some? ==>
                && |messages| == |old(messages)| + 1
                && messages[..|old(messages)|] == old(messages)
                && var m := messages[|old(messages)|];
                   && m.id == old(nextId) && m.sender == FromUser && m.text.None?
                   && m.status == Some(Sent) && m.reactions == []
                   && m.file.Some? && m.file.value.name == upload.value.name && m.file.value.url == url
                   && (m.file.value.kind == ImageFile <==> Text.StartsWith(upload.value.mimeType, "image/"))
      ensures status == old(status) && inputValue == old(inputValue)
      ensures strangerName == old(strangerName) && isStrangerTyping == old(isStrangerTyping)
    {
      if upload.None? {
        return;
      }
      var file := Attachment(upload.value.name, url, KindOf(upload.value.mimeType));
      var _ := AddMessage(FromUser, None, Some(Sent), Some(file));
    }

    /** `handleReaction`, the user's part: toggles the user's reaction on one message. */
    method React(id: nat, emoji: string)
      requires Valid()
      modifies this
      ensures Valid()
      ensures messages == UpdateWhere(old(messages), id, (m: Message) => m.(reactions := ToggleUser(m.reactions, emoji)))
      ensures status == old(status) && inputValue == old(inputValue) && nextId == old(nextId)
      ensures strangerName == old(strangerName) && isStrangerTyping == old(isStrangerTyping)
    {
      forall k | 0 <= k < |messages| ensures WellFormed(ToggleUser(messages[k].reactions, emoji)) {
        ToggleUserSpec(messages[k].reactions, emoji);
      }
      messages := UpdateWhere(messages, id, (m: Message) => m.(reactions := ToggleUser(m.reactions, emoji)));
    }

    /** `handleReaction`, the stranger's scheduled part, when the coin says it runs;
        `choice` is the random pick among the six emoji. */
    method StrangerReact(id: nat, choice: nat)
      requires Valid()
      requires choice < |EmojiReactions|
      modifies this
      ensures Valid()
      ensures messages == UpdateWhere(old(messages), id, (m: Message) => m.(reactions := AddStranger(m.reactions, EmojiReactions[choice])))
      ensures status == old(status) && inputValue == old(inputValue) && nextId == old(nextId)
      ensures strangerName == old(strangerName) && isStrangerTyping == old(isStrangerTyping)
    {
      var emoji := EmojiReactions[choice];
      forall k | 0 <= k < |messages| ensures WellFormed(AddStranger(messages[k].reactions, emoji)) {
        AddStrangerSpec(messages[k].reactions, emoji);
      }
      messages := UpdateWhere(messages, id, (m: Message) => m.(reactions := AddStranger(m.reactions, emoji)));
    }
  }
}
