/** The chat page component (`ChatClient`): an earlier form of the chat hook with
    plain text messages and its own interest list. */
module ChatClient {
  import Text
  import Seqs
  import ChatRoom
  import Interests

  datatype ClientMessage = ClientMessage(id: nat, text: string, sender: ChatRoom.Sender)

  predicate IdsIncreasing(ms: seq<ClientMessage>) {
    forall i, j :: 0 <= i < j < |ms| ==> ms[i].id < ms[j].id
  }

  /** The component's state; `nextId` stands for `Date.now()`. */
  class ChatClient {
    var status: ChatRoom.ChatStatus
    var messages: seq<ClientMessage>
    var inputValue: string
    var interests: seq<string>
    var interestInput: string
    var strangerName: string
    var nextId: nat

    ghost predicate Valid()
      reads this
    {
      && IdsIncreasing(messages)
      && (forall k :: 0 <= k < |messages| ==> messages[k].id < nextId)
      && Seqs.NoDup(interests)
      && (forall k :: 0 <= k < |interests| ==> interests[k] != "" && Text.IsTrimmed(interests[k]))
    }

    constructor ()
      ensures Valid()
      ensures status == ChatRoom.Idle && messages == [] && inputValue == ""
      ensures interests == Interests.DefaultInterests && interestInput == ""
      ensures strangerName == "Stranger"
    {
      status := ChatRoom.Idle;
      messages := [];
      inputValue := "";
      interests := Interests.DefaultInterests;
      interestInput := "";
      strangerName := "Stranger";
      nextId := 0;
    }

    /** `addMessage`. */
    method AddMessage(text: string, sender: ChatRoom.Sender)
      requires Valid()
      modifies this
      ensures Valid()
      ensures messages == old(messages) + [ClientMessage(old(nextId), text, sender)]
      ensures nextId == old(nextId) + 1
      ensures status == old(status) && inputValue == old(inputValue) && strangerName == old(strangerName)
      ensures interests == old(interests) && interestInput == old(interestInput)
    {
      messages := messages + [ClientMessage(nextId, text, sender)];
      nextId := nextId + 1;
    }

    /** `setInputValue`. */
    method SetInput(value: string)
      modifies this
      ensures inputValue == value
      ensures status == old(status) && messages == old(messages) && nextId == old(nextId)
      ensures interests == old(interests) && interestInput == old(interestInput)
      ensures strangerName == old(strangerName)
    {
      inputValue := value;
    }

    /** `handleStartSearch`: one system message is left, and the status is searching. */
    method StartSearch()
      requires Valid()
      modifies this
      ensures Valid()
      ensures status == ChatRoom.Searching
      ensures messages == [ClientMessage(old(nextId), ChatRoom.SearchingNotice, ChatRoom.FromSystem)]
      ensures nextId == old(nextId) + 1
      ensures inputValue == old(inputValue) && strangerName == old(strangerName)
      ensures interests == old(interests) && interestInput == old(interestInput)
    {
      messages := [];
      status := ChatRoom.Searching;
      AddMessage(ChatRoom.SearchingNotice, ChatRoom.FromSystem);
    }

    /** The scheduled match step of `handleStartSearch`, with the random name pick as input. */
    method CompleteMatch(choice: nat)
      requires Valid()
      requires choice < |ChatRoom.StrangerNames|
      modifies this
      ensures Valid()
      ensures strangerName == ChatRoom.StrangerNames[choice] && status == ChatRoom.Chatting
      ensures messages == old(messages) + [ClientMessage(old(nextId), ChatRoom.ConnectedNotice(strangerName), ChatRoom.FromSystem)]
      ensures nextId == old(nextId) + 1
      ensures inputValue == old(inputValue)
      ensures interests == old(interests) && interestInput == old(interestInput)
    {
      strangerName := ChatRoom.StrangerNames[choice];
      status := ChatRoom.Chatting;
      AddMessage(ChatRoom.ConnectedNotice(strangerName), ChatRoom.FromSystem);
    }

    /** `handleEndChat`. */
    method EndChat()
      requires Valid()
      modifies this
      ensures Valid()
      ensures old(status) == ChatRoom.Chatting ==>
                && status == ChatRoom.Ended
                && messages == old(messages) + [ClientMessage(old(nextId), ChatRoom.DisconnectedNotice, ChatRoom.FromSystem)]
                && nextId == old(nextId) + 1
      ensures old(status) != ChatRoom.Chatting ==>
                status == old(status) && messages == old(messages) && nextId == old(nextId)
      ensures inputValue == old(inputValue) && strangerName == old(strangerName)
      ensures interests == old(interests) && interestInput == old(interestInput)
    {
      if status == ChatRoom.Chatting {
        AddMessage(ChatRoom.DisconnectedNotice, ChatRoom.FromSystem);
        status := ChatRoom.Ended;
      }
    }

    /** `handleNextChat`. */
    method NextChat()
      requires Valid()
      modifies this
      ensures Valid()
      ensures old(status) in {ChatRoom.Chatting, ChatRoom.Ended} ==>
                && status == ChatRoom.Searching
                && messages == [ClientMessage(old(nextId), ChatRoom.SearchingNotice, ChatRoom.FromSystem)]
                && nextId == old(nextId) + 1
      ensures old(status) !in {ChatRoom.Chatting, ChatRoom.Ended} ==>
                status == old(status) && messages == old(messages) && nextId == old(nextId)
      ensures inputValue == old(inputValue) && strangerName == old(strangerName)
      ensures interests == old(interests) && interestInput == old(interestInput)
    {
      if status == ChatRoom.Chatting || status == ChatRoom.Ended {
        StartSearch();
      }
    }

    /** `handleSendMessage`: needs a non-blank input and a running chat; the text is
        sent as typed and the input cleared. */
    method SendMessage()
      requires Valid()
      modifies this
      ensures Valid()
      ensures (Text.IsBlank(old(inputValue)) || old(status) != ChatRoom.Chatting) ==>
                messages == old(messages) && inputValue == old(inputValue) && nextId == old(nextId)
      ensures !(Text.IsBlank(old(inputValue)) || old(status) != ChatRoom.Chatting) ==>
                && messages == old(messages) + [ClientMessage(old(nextId), old(inputValue), ChatRoom.FromUser)]
                && inputValue == ""
                && nextId == old(nextId) + 1
      ensures status == old(status) && strangerName == old(strangerName)
      ensures interests == old(interests) && interestInput == old(interestInput)
    {
      if Text.Trim(inputValue) == "" || status != ChatRoom.Chatting {
        return;
      }
      AddMessage(inputValue, ChatRoom.FromUser);
      inputValue := "";
    }

    /** The stranger's scheduled reply to a sent message. */
    method ReceiveReply()
      requires Valid()
      modifies this
      ensures Valid()
      ensures messages == old(messages) + [ClientMessage(old(nextId), ChatRoom.StrangerReplyText, ChatRoom.FromStranger)]
      ensures nextId == old(nextId) + 1
      ensures status == old(status) && inputValue == old(inputValue) && strangerName == old(strangerName)
      ensures interests == old(interests) && interestInput == old(interestInput)
    {
      AddMessage(ChatRoom.StrangerReplyText, ChatRoom.FromStranger);
    }

    /** `setInterestInput`. */
    method SetInterestInput(value: string)
      modifies this
      ensures interestInput == value
      ensures status == old(status) && messages == old(messages) && nextId == old(nextId)
      ensures interests == old(interests) && inputValue == old(inputValue)
      ensures strangerName == old(strangerName)
    {
      interestInput := value;
    }

    /** `handleInterestInputKeyDown`, the same rule as the interests hook. */
    method InterestKeyDown(key: string)
      requires Valid()
      modifies this
      ensures Valid()
      ensures Interests.Accepts(key, old(interestInput)) ==>
                interests == Interests.AddInterest(old(interests), old(interestInput)) && interestInput == ""
      ensures !Interests.Accepts(key, old(interestInput)) ==>
                interests == old(interests) && interestInput == old(interestInput)
      ensures status == old(status) && messages == old(messages) && nextId == old(nextId)
      ensures inputValue == old(inputValue) && strangerName == old(strangerName)
    {
      if key == Interests.EnterKey && Text.Trim(interestInput) != "" {
        Interests.AddInterestSpec(interests, interestInput);
        interests := Interests.AddInterest(interests, interestInput);
        interestInput := "";
      }
    }

    /** `removeInterest`. */
    method RemoveInterest(tag: string)
      requires Valid()
      modifies this
      ensures Valid()
      ensures interests == Interests.RemoveInterest(old(interests), tag)
      ensures status == old(status) && messages == old(messages) && nextId == old(nextId)
      ensures inputValue == old(inputValue) && interestInput == old(interestInput)
      ensures strangerName == old(strangerName)
    {
      Seqs.RemoveAllNoDup(interests, tag);
      interests := Interests.RemoveInterest(interests, tag);
    }
  }
}
