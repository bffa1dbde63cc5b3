/** The message document: its field constraints and defaults, the file URL
    validator, and what creating a message from a set of fields stores. */
module MessageSchema {
  import opened Wrappers
  import Text
  import opened Schema

  datatype MessageType = TextMessage | ImageMessage | FileMessage

  const MaxContentLength: nat := 1000

  /** `messageType`: one of the enum's strings; a missing value takes the default `text`. */
  function ParseMessageType(v: Option<string>): (r: Option<MessageType>)
    ensures r == Some(TextMessage) <==> v.None? || v == Some("text")
    ensures r == Some(ImageMessage) <==> v == Some("image")
    ensures r == Some(FileMessage) <==> v == Some("file")
  {
    match v
    case None => Some(TextMessage)
    case Some(s) =>
      if s == "text" then Some(TextMessage)
      else if s == "image" then Some(ImageMessage)
      else if s == "file" then Some(FileMessage)
      else None
  }

  function MessageTypeName(t: MessageType): string {
    match t
    case TextMessage => "text"
    case ImageMessage => "image"
    case FileMessage => "file"
  }

  /** A read receipt as given; `readAt` may be left to its default. */
  datatype ReceiptFields = ReceiptFields(user: Option<Id>, readAt: Option<int>)

  datatype ReadReceipt = ReadReceipt(user: Id, readAt: int)

  /** The fields a message is created from. `chat` is the reference the message
      handler writes. */
  datatype MessageFields = MessageFields(
    sender: Option<Id>,
    chat: Id,
    content: Option<string>,
    messageType: Option<string>,
    fileUrl: Option<string>,
    readBy: seq<ReceiptFields>,
    isDeleted: Option<bool>)

  datatype Message = Message(
    id: Id,
    sender: Id,
    chat: Id,
    content: string,
    messageType: MessageType,
    fileUrl: Option<string>,
    readBy: seq<ReadReceipt>,
    isDeleted: bool,
    createdAt: int,
    updatedAt: int)

  /** The paths of a message that can fail validation: `sender`, `content`,
      `messageType`, `fileUrl`, `readBy.<k>.user`. */
  datatype MessagePath = SenderPath | ContentPath | MessageTypePath | FileUrlPath | ReaderPath(index: nat)

  /** `content`: `required`, then `maxLength`, on the trimmed value. */
  function ContentFailure(content: Option<string>): Option<Rule> {
    var v := TrimSetter(content);
    if !Present(v) then Some(Required)
    else if |v.value| > MaxContentLength then Some(MaxLength(MaxContentLength))
    else None
  }

  /** The content fails `required` exactly when it is missing or blank, fails
      `maxLength` exactly when its trimmed form is longer than 1000 characters, and
      passes otherwise. */
  lemma ContentFailureSpec(content: Option<string>)
    ensures ContentFailure(content) == Some(Required) <==> content.None? || Text.IsBlank(content.value)
    ensures ContentFailure(content) == Some(MaxLength(MaxContentLength))
            <==> content.Some? && |Text.Trim(content.value)| > MaxContentLength
    ensures ContentFailure(content).None? <==> content.Some? && 0 < |Text.Trim(content.value)| <= MaxContentLength
  {
  }

  /** `required` on the user of each receipt, from index `k` on. */
  function ReadersFrom(rs: seq<ReceiptFields>, k: nat): (r: seq<Violation<MessagePath>>)
    requires k <= |rs|
    ensures forall j: nat :: Violation(ReaderPath(j), Required) in r <==> k <= j < |rs| && rs[j].user.None?
    ensures forall i :: 0 <= i < |r| ==> r[i].path.ReaderPath? && r[i].rule == Required
    ensures r == [] <==> forall j :: k <= j < |rs| ==> rs[j].user.Some?
    decreases |rs| - k
  {
    if k == |rs| then []
    else (if rs[k].user.None? then [Violation(ReaderPath(k), Required)] else []) + ReadersFrom(rs, k + 1)
  }

  /** `required` on the user of each receipt. */
  function ReaderViolations(rs: seq<ReceiptFields>): (r: seq<Violation<MessagePath>>)
    ensures forall j: nat :: Violation(ReaderPath(j), Required) in r <==> j < |rs| && rs[j].user.None?
    ensures forall k :: 0 <= k < |r| ==> r[k].path.ReaderPath? && r[k].rule == Required
    ensures r == [] <==> forall k :: 0 <= k < |rs| ==> rs[k].user.Some?
  {
    ReadersFrom(rs, 0)
  }

  /** The failure each path reports: `required` on the sender, the content's
      failure, the enum on the type, the URL validator on the file URL, and
      `required` on the user of each receipt. */
  function PathFailure(f: MessageFields, p: MessagePath): Option<Rule> {
    match p
    case SenderPath => if f.sender.None? then Some(Required) else None
    case ContentPath => ContentFailure(f.content)
    case MessageTypePath => if ParseMessageType(f.messageType).None? then Some(NotInEnum) else None
    case FileUrlPath => if !Text.UrlRule(f.fileUrl) then Some(Invalid) else None
    case ReaderPath(k) => if k < |f.readBy| && f.readBy[k].user.None? then Some(Required) else None
  }

  /** The single-valued paths, in declaration order. */
  const FieldPaths: seq<MessagePath> := [SenderPath, ContentPath, MessageTypePath, FileUrlPath]

  /** The failure of each single-valued path, in declaration order. */
  function Failures(f: MessageFields): (rs: seq<Option<Rule>>)
    ensures |rs| == 4
  {
    [PathFailure(f, SenderPath), PathFailure(f, ContentPath), PathFailure(f, MessageTypePath),
     PathFailure(f, FileUrlPath)]
  }

  /** The failures of the four single-valued paths, path after path. */
  function AtFields(rs: seq<Option<Rule>>): (r: seq<Violation<MessagePath>>)
    requires |rs| == 4
    ensures r == [] <==> rs[0].None? && rs[1].None? && rs[2].None? && rs[3].None?
    ensures forall k :: 0 <= k < |r| ==> !r[k].path.ReaderPath?
  {
    var ps := FieldPaths;
    At(ps[0], rs[0]) + At(ps[1], rs[1]) + At(ps[2], rs[2]) + At(ps[3], rs[3])
  }

  /** A failure listed under one single-valued path is that path's failure. */
  lemma AtFieldsMember(rs: seq<Option<Rule>>, n: nat, rule: Rule)
    requires |rs| == 4 && n < 4
    ensures Violation(FieldPaths[n], rule) in AtFields(rs) <==> rs[n] == Some(rule)
  {
    var ps := FieldPaths;
    forall m | 0 <= m < 4 && m != n ensures Violation(ps[n], rule) !in At(ps[m], rs[m]) {
    }
  }

  /** The violations of a set of message fields, one path after another. */
  function MessageViolations(f: MessageFields): (r: seq<Violation<MessagePath>>)
    ensures r == [] <==>
              && PathFailure(f, SenderPath).None? && PathFailure(f, ContentPath).None?
              && PathFailure(f, MessageTypePath).None? && PathFailure(f, FileUrlPath).None?
              && (forall k :: 0 <= k < |f.readBy| ==> f.readBy[k].user.Some?)
  {
    AtFields(Failures(f)) + ReaderViolations(f.readBy)
  }

  /** A set of fields has no violation exactly when it has a sender, a content
      that is non-empty and at most 1000 characters once trimmed, a type in the enum,
      a file URL the validator accepts and a user on every receipt. */
  lemma NoMessageViolations(f: MessageFields)
    ensures MessageViolations(f) == [] <==>
              && f.sender.Some?
              && f.content.Some? && 0 < |Text.Trim(f.content.value)| <= MaxContentLength
              && ParseMessageType(f.messageType).Some?
              && Text.UrlRule(f.fileUrl)
              && (forall k :: 0 <= k < |f.readBy| ==> f.readBy[k].user.Some?)
  {
    ContentFailureSpec(f.content);
  }

  /** Each path reports exactly its own failure, whatever the other paths hold. */
  lemma MessageViolationAt(f: MessageFields, p: MessagePath, rule: Rule)
    ensures Violation(p, rule) in MessageViolations(f) <==> PathFailure(f, p) == Some(rule)
  {
    var fs := AtFields(Failures(f));
    var rs := ReaderViolations(f.readBy);
    if p.ReaderPath? {
      assert Violation(p, rule) !in fs;
    } else {
      assert Violation(p, rule) !in rs;
      var n := match p
               case SenderPath => 0
               case ContentPath => 1
               case MessageTypePath => 2
               case FileUrlPath => 3;
      AtFieldsMember(Failures(f), n, rule);
    }
  }

  /** Two sets of fields that differ at most in a content that fails the same way
      have the same violations. */
  lemma SameContentFailure(f: MessageFields, g: MessageFields)
    requires g == f.(content := g.content) && ContentFailure(g.content) == ContentFailure(f.content)
    ensures MessageViolations(g) == MessageViolations(f)
  {
    assert g.sender == f.sender && g.messageType == f.messageType && g.fileUrl == f.fileUrl && g.readBy == f.readBy;
    assert PathFailure(g, ContentPath) == PathFailure(f, ContentPath);
    assert Failures(g) == Failures(f);
  }

  /** Two contents with the same trimmed form make the same message. */
  lemma SameTrimmedContent(id: Id, f: MessageFields, g: MessageFields, now: int)
    requires g == f.(content := g.content) && f.content.Some? && g.content.Some?
    requires Text.Trim(g.content.value) == Text.Trim(f.content.value)
    ensures CreateMessage(id, g, now) == CreateMessage(id, f, now)
  {
    assert ContentFailure(g.content) == ContentFailure(f.content);
    SameContentFailure(f, g);
  }

  /** Stored receipts: `readAt` defaults to the creation time. */
  function Receipts(rs: seq<ReceiptFields>, now: int): (r: seq<ReadReceipt>)
    requires forall k :: 0 <= k < |rs| ==> rs[k].user.Some?
    ensures |r| == |rs|
    ensures forall k :: 0 <= k < |rs| ==> r[k] == ReadReceipt(rs[k].user.value, rs[k].readAt.GetOr(now))
  {
    seq(|rs|, k requires 0 <= k < |rs| => ReadReceipt(rs[k].user.value, rs[k].readAt.GetOr(now)))
  }

  /** `Message.create(fields)` at time `now` with the new id `id`: the message is
      stored exactly when it has a sender, a content that is non-empty and at most
      1000 characters once trimmed, a type in the enum, a file URL that is absent,
      empty or `http(s)://` followed by a character, and a user on every receipt.
      The stored content is trimmed; the type defaults to `text`, `isDeleted` to
      false and the times to `now`. A rejected message reports each failing path. */
  function CreateMessage(id: Id, f: MessageFields, now: int): (r: Result<Message, seq<Violation<MessagePath>>>)
    ensures r.Ok? <==>
              && f.sender.Some?
              && f.content.Some? && 0 < |Text.Trim(f.content.value)| <= MaxContentLength
              && ParseMessageType(f.messageType).Some?
              && Text.UrlRule(f.fileUrl)
              && (forall k :: 0 <= k < |f.readBy| ==> f.readBy[k].user.Some?)
    ensures r.Ok? ==>
              && r.value.id == id && Some(r.value.sender) == f.sender && r.value.chat == f.chat
              && r.value.content == Text.Trim(f.content.value) && Text.IsTrimmed(r.value.content)
              && Some(r.value.messageType) == ParseMessageType(f.messageType)
              && r.value.fileUrl == f.fileUrl
              && r.value.readBy == Receipts(f.readBy, now)
              && r.value.isDeleted == f.isDeleted.GetOr(false)
              && r.value.createdAt == now && r.value.updatedAt == now
    ensures r.Err? ==> r.error == MessageViolations(f) && r.error != []
  {
    NoMessageViolations(f);
    var errors := MessageViolations(f);
    if errors != [] then Err(errors)
    else
      Ok(Message(id, f.sender.value, f.chat, Text.Trim(f.content.value), ParseMessageType(f.messageType).value,
                 f.fileUrl, Receipts(f.readBy, now), f.isDeleted.GetOr(false), now, now))
  }

  /** The content is reported as missing exactly when it is missing or blank, and
      as too long exactly when its trimmed form is longer than 1000 characters. */
  lemma RejectedContent(f: MessageFields)
    ensures var e := MessageViolations(f);
            && (Violation(ContentPath, Required) in e <==> f.content.None? || Text.IsBlank(f.content.value))
            && (Violation(ContentPath, MaxLength(MaxContentLength)) in e
                <==> f.content.Some? && |Text.Trim(f.content.value)| > MaxContentLength)
  {
    MessageViolationAt(f, ContentPath, Required);
    MessageViolationAt(f, ContentPath, MaxLength(MaxContentLength));
    ContentFailureSpec(f.content);
  }

  /** Each receipt without a user is reported under its index, and no other. */
  lemma RejectedReaders(f: MessageFields)
    ensures forall k: nat :: Violation(ReaderPath(k), Required) in MessageViolations(f)
                             <==> k < |f.readBy| && f.readBy[k].user.None?
  {
    forall k: nat ensures Violation(ReaderPath(k), Required) in MessageViolations(f)
                          <==> k < |f.readBy| && f.readBy[k].user.None? {
      MessageViolationAt(f, ReaderPath(k), Required);
    }
  }

  /** A rejected message reports a missing sender, a missing or blank content, a
      content longer than 1000 characters once trimmed, a type outside the enum, a
      file URL the validator refuses and each receipt without a user, and nothing else
      under those paths. */
  lemma RejectedPaths(f: MessageFields)
    ensures var e := MessageViolations(f);
            && (Violation(SenderPath, Required) in e <==> f.sender.None?)
            && (Violation(ContentPath, Required) in e <==> f.content.None? || Text.IsBlank(f.content.value))
            && (Violation(ContentPath, MaxLength(MaxContentLength)) in e
                <==> f.content.Some? && |Text.Trim(f.content.value)| > MaxContentLength)
            && (Violation(MessageTypePath, NotInEnum) in e <==> ParseMessageType(f.messageType).None?)
            && (Violation(FileUrlPath, Invalid) in e <==> !Text.UrlRule(f.fileUrl))
            && (forall k: nat :: Violation(ReaderPath(k), Required) in e
                                 <==> k < |f.readBy| && f.readBy[k].user.None?)
  {
    MessageViolationAt(f, SenderPath, Required);
    RejectedContent(f);
    MessageViolationAt(f, MessageTypePath, NotInEnum);
    MessageViolationAt(f, FileUrlPath, Invalid);
    RejectedReaders(f);
  }

  /** A stored message's file URL, when set and non-empty, is `http://` or `https://`
      followed by something. */
  lemma StoredFileUrl(id: Id, f: MessageFields, now: int)
    requires CreateMessage(id, f, now).Ok?
    requires CreateMessage(id, f, now).value.fileUrl.Some? && CreateMessage(id, f, now).value.fileUrl.value != ""
    ensures var u := CreateMessage(id, f, now).value.fileUrl.value;
            (Text.StartsWith(u, "http://") && |u| > 7) || (Text.StartsWith(u, "https://") && |u| > 8)
  {
    Text.UrlRuleShape(CreateMessage(id, f, now).value.fileUrl.value);
  }

  function ReceiptFieldsOf(rs: seq<ReadReceipt>): (r: seq<ReceiptFields>)
    ensures |r| == |rs| && forall k :: 0 <= k < |rs| ==> r[k] == ReceiptFields(Some(rs[k].user), Some(rs[k].readAt))
  {
    seq(|rs|, k requires 0 <= k < |rs| => ReceiptFields(Some(rs[k].user), Some(rs[k].readAt)))
  }

  /** The fields a stored message would be created from. */
  function FieldsOf(m: Message): MessageFields {
    MessageFields(Some(m.sender), m.chat, Some(m.content), Some(MessageTypeName(m.messageType)), m.fileUrl,
                  ReceiptFieldsOf(m.readBy), Some(m.isDeleted))
  }

  /** A message whose content is trimmed and within bounds and whose file URL
      passes the validator is what creating it from its own fields stores. */
  lemma RecreateMessage(m: Message)
    requires Text.IsTrimmed(m.content) && 0 < |m.content| <= MaxContentLength
    requires Text.UrlRule(m.fileUrl)
    requires m.createdAt == m.updatedAt
    ensures CreateMessage(m.id, FieldsOf(m), m.createdAt) == Ok(m)
  {
    var g := FieldsOf(m);
    var now := m.createdAt;
    assert Text.Trim(m.content) == m.content by { Text.TrimTrimmed(m.content); }
    assert ParseMessageType(g.messageType) == Some(m.messageType) by { ParseMessageTypeName(m.messageType); }
    assert (forall k :: 0 <= k < |g.readBy| ==> g.readBy[k].user.Some?) && Receipts(g.readBy, now) == m.readBy by {
      ReceiptsRoundTrip(m.readBy, now);
    }
    var r := CreateMessage(m.id, g, now);
    assert r.Ok?;
  }

  /** Storing is stable: a stored message, created again from its own fields at the
      same time, is accepted and comes out the same. */
  lemma CreateMessageStable(id: Id, f: MessageFields, now: int)
    requires CreateMessage(id, f, now).Ok?
    ensures CreateMessage(id, FieldsOf(CreateMessage(id, f, now).value), now) == CreateMessage(id, f, now)
  {
    RecreateMessage(CreateMessage(id, f, now).value);
  }

  lemma ParseMessageTypeName(t: MessageType)
    ensures ParseMessageType(Some(MessageTypeName(t))) == Some(t)
  {
  }

  lemma ReceiptsRoundTrip(rs: seq<ReadReceipt>, now: int)
    ensures forall k :: 0 <= k < |rs| ==> ReceiptFieldsOf(rs)[k].user.Some?
    ensures Receipts(ReceiptFieldsOf(rs), now) == rs
  {
  }

  /** A stored message satisfies its schema: its own fields raise no violation. */
  lemma StoredMessageValid(id: Id, f: MessageFields, now: int)
    requires CreateMessage(id, f, now).Ok?
    ensures MessageViolations(FieldsOf(CreateMessage(id, f, now).value)) == []
  {
    CreateMessageStable(id, f, now);
    NoMessageViolations(FieldsOf(CreateMessage(id, f, now).value));
  }
}
