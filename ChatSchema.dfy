/** The chat document: its field constraints and defaults, and what creating a
    chat from a set of fields stores. */
module ChatSchema {
  import opened Wrappers
  import Text
  import opened Schema

  datatype ChatType = Direct | Group

  const MaxNameLength: nat := 50

  /** `type`: one of the enum's strings; a missing value takes the default `direct`. */
  function ParseChatType(v: Option<string>): (r: Option<ChatType>)
    ensures r == Some(Direct) <==> v.None? || v == Some("direct")
    ensures r == Some(Group) <==> v == Some("group")
  {
    match v
    case None => Some(Direct)
    case Some(s) => if s == "direct" then Some(Direct) else if s == "group" then Some(Group) else None
  }

  function ChatTypeName(t: ChatType): string {
    match t
    case Direct => "direct"
    case Group => "group"
  }

  /** The fields a chat is created from. `admin` is the list the chat handler
      writes; `lastActivity` may be left to its default. */
  datatype ChatFields = ChatFields(
    chatType: Option<string>,
    participants: seq<Option<Id>>,
    name: Option<string>,
    admin: seq<Id>,
    lastActivity: Option<int>)

  /** A stored chat. `lastMessage` is kept because the message handler writes it. */
  datatype Chat = Chat(
    id: Id,
    chatType: ChatType,
    participants: seq<Id>,
    name: Option<string>,
    admin: seq<Id>,
    lastMessage: Option<Id>,
    lastActivity: int,
    createdAt: int,
    updatedAt: int)

  /** The paths of a chat that can fail validation: `type`, `participants.<k>`, `name`. */
  datatype ChatPath = TypePath | ParticipantPath(index: nat) | NamePath

  /** `maxlength` of `name`, checked on the trimmed value. */
  function NameFailure(name: Option<string>): Option<Rule> {
    if name.Some? && |Text.Trim(name.value)| > MaxNameLength then Some(MaxLength(MaxNameLength)) else None
  }

  /** `required` on each participant, from index `k` on. */
  function ParticipantsFrom(ps: seq<Option<Id>>, k: nat): (r: seq<Violation<ChatPath>>)
    requires k <= |ps|
    ensures forall j: nat :: Violation(ParticipantPath(j), Required) in r <==> k <= j < |ps| && ps[j].None?
    ensures forall i :: 0 <= i < |r| ==> r[i].path.ParticipantPath?
    ensures r == [] <==> forall j :: k <= j < |ps| ==> ps[j].Some?
    decreases |ps| - k
  {
    if k == |ps| then []
    else (if ps[k].None? then [Violation(ParticipantPath(k), Required)] else []) + ParticipantsFrom(ps, k + 1)
  }

  /** `required` on each participant. */
  function ParticipantViolations(ps: seq<Option<Id>>): (r: seq<Violation<ChatPath>>)
    ensures forall j: nat :: Violation(ParticipantPath(j), Required) in r <==> j < |ps| && ps[j].None?
    ensures forall k :: 0 <= k < |r| ==> r[k].path.ParticipantPath?
    ensures r == [] <==> forall k :: 0 <= k < |ps| ==> ps[k].Some?
  {
    ParticipantsFrom(ps, 0)
  }

  /** The violations of a set of chat fields, one path after another. */
  function ChatViolations(f: ChatFields): seq<Violation<ChatPath>> {
    (if ParseChatType(f.chatType).None? then [Violation(TypePath, NotInEnum)] else [])
    + ParticipantViolations(f.participants)
    + (if NameFailure(f.name).Some? then [Violation(NamePath, NameFailure(f.name).value)] else [])
  }

  /** `Chat.create(fields)` at time `now` with the new id `id`: the chat is stored
      exactly when the type is in the enum, every participant is given and the
      trimmed name has at most 50 characters; the stored chat has the name trimmed,
      `direct` as the missing type, and `now` as its times unless `lastActivity` is
      given. A rejected chat reports each failing path. */
  function CreateChat(id: Id, f: ChatFields, now: int): (r: Result<Chat, seq<Violation<ChatPath>>>)
    ensures r.Ok? <==>
              && ParseChatType(f.chatType).Some?
              && (forall k :: 0 <= k < |f.participants| ==> f.participants[k].Some?)
              && (f.name.Some? ==> |Text.Trim(f.name.value)| <= MaxNameLength)
    ensures r.Ok? ==>
              && r.value.id == id
              && Some(r.value.chatType) == ParseChatType(f.chatType)
              && |r.value.participants| == |f.participants|
              && (forall k :: 0 <= k < |f.participants| ==> Some(r.value.participants[k]) == f.participants[k])
              && r.value.name == TrimSetter(f.name)
              && r.value.admin == f.admin
              && r.value.lastMessage.None?
              && r.value.lastActivity == f.lastActivity.GetOr(now)
              && r.value.createdAt == now && r.value.updatedAt == now
    ensures r.Err? ==>
              && (Violation(TypePath, NotInEnum) in r.error <==> ParseChatType(f.chatType).None?)
              && (forall k: nat :: Violation(ParticipantPath(k), Required) in r.error
                                   <==> k < |f.participants| && f.participants[k].None?)
              && (Violation(NamePath, MaxLength(MaxNameLength)) in r.error
                  <==> f.name.Some? && |Text.Trim(f.name.value)| > MaxNameLength)
  {
    ChatViolationsSpec(f);
    var errors := ChatViolations(f);
    if errors != [] then Err(errors)
    else
      Ok(Chat(id, ParseChatType(f.chatType).value, Values(f.participants), TrimSetter(f.name), f.admin,
              None, f.lastActivity.GetOr(now), now, now))
  }

  /** Each path reports exactly its own failure; no failure means no violation. */
  lemma ChatViolationsSpec(f: ChatFields)
    ensures var errors := ChatViolations(f);
            && (errors == [] <==>
                  && ParseChatType(f.chatType).Some?
                  && (forall k :: 0 <= k < |f.participants| ==> f.participants[k].Some?)
                  && (f.name.Some? ==> |Text.Trim(f.name.value)| <= MaxNameLength))
            && (Violation(TypePath, NotInEnum) in errors <==> ParseChatType(f.chatType).None?)
            && (forall k: nat :: Violation(ParticipantPath(k), Required) in errors
                                 <==> k < |f.participants| && f.participants[k].None?)
            && (Violation(NamePath, MaxLength(MaxNameLength)) in errors
                <==> f.name.Some? && |Text.Trim(f.name.value)| > MaxNameLength)
  {
    var ps := ParticipantViolations(f.participants);
    assert Violation(TypePath, NotInEnum) !in ps;
    assert Violation(NamePath, MaxLength(MaxNameLength)) !in ps;
  }

  /** The fields a stored chat would be created from. */
  function FieldsOf(c: Chat): ChatFields {
    ChatFields(Some(ChatTypeName(c.chatType)), Somes(c.participants), c.name, c.admin, Some(c.lastActivity))
  }

  /** A chat whose name is trimmed and within bounds is what creating it from its
      own fields stores. */
  lemma RecreateChat(c: Chat)
    requires c.name.Some? ==> Text.IsTrimmed(c.name.value) && |c.name.value| <= MaxNameLength
    requires c.lastMessage.None? && c.createdAt == c.updatedAt
    ensures CreateChat(c.id, FieldsOf(c), c.createdAt) == Ok(c)
  {
    var g := FieldsOf(c);
    var now := c.createdAt;
    assert TrimSetter(g.name) == c.name by {
      if c.name.Some? { Text.TrimTrimmed(c.name.value); }
    }
    assert ParseChatType(g.chatType) == Some(c.chatType) by {
      match c.chatType
      case Direct =>
      case Group =>
    }
    ValuesSomes(c.participants);
    var r := CreateChat(c.id, g, now);
    assert r.Ok?;
  }

  /** Storing is stable: a stored chat, created again from its own fields, is accepted
      and comes out the same, so its name is already trimmed and within bounds. */
  lemma CreateChatStable(id: Id, f: ChatFields, now: int)
    requires CreateChat(id, f, now).Ok?
    ensures CreateChat(id, FieldsOf(CreateChat(id, f, now).value), now) == CreateChat(id, f, now)
  {
    var c := CreateChat(id, f, now).value;
    if f.name.Some? { Text.TrimIdempotent(f.name.value); }
    RecreateChat(c);
  }

  /** A stored chat satisfies its schema: its own fields raise no violation. */
  lemma StoredChatValid(id: Id, f: ChatFields, now: int)
    requires CreateChat(id, f, now).Ok?
    ensures ChatViolations(FieldsOf(CreateChat(id, f, now).value)) == []
  {
    CreateChatStable(id, f, now);
  }
}
