/** The interest tags a user chats about (`useInterests`, repeated in `ChatClient`):
    a list kept duplicate-free where Enter adds the trimmed input. */
module Interests {
  import Text
  import Seqs

  const DefaultInterests: seq<string> := ["Chatting"]

  const EnterKey: string := "Enter"

  /** Whether Enter with this input adds a tag. */
  predicate Accepts(key: string, input: string) {
    key == EnterKey && !Text.IsBlank(input)
  }

  /** The list after an accepted Enter: the trimmed input goes last unless it is listed. */
  function AddInterest(interests: seq<string>, input: string): (r: seq<string>)
    ensures var t := Text.Trim(input);
            && (t in interests ==> r == interests)
            && (t !in interests ==> r == interests + [t])
  {
    var t := Text.Trim(input);
    if t in interests then interests else interests + [t]
  }

  /** A tag the key handler adds is non-empty and already trimmed, and the list stays
      duplicate-free. */
  lemma AddInterestSpec(interests: seq<string>, input: string)
    requires !Text.IsBlank(input)
    ensures var r := AddInterest(interests, input);
            && (Seqs.NoDup(interests) ==> Seqs.NoDup(r))
            && forall k :: |interests| <= k < |r| ==> r[k] != "" && Text.IsTrimmed(r[k]) && Text.Trim(r[k]) == r[k]
  {
    var t := Text.Trim(input);
    Text.TrimIdempotent(input);
    if t !in interests && Seqs.NoDup(interests) {
      Seqs.AppendNoDup(interests, t);
    }
  }

  /** `removeInterest`: every equal tag goes, the others keep their order. */
  function RemoveInterest(interests: seq<string>, tag: string): (r: seq<string>)
    ensures tag !in r
    ensures forall k :: 0 <= k < |interests| && interests[k] != tag ==> interests[k] in r
    ensures |r| <= |interests|
  {
    Seqs.RemoveAll(interests, tag)
  }

  /** Removing keeps the rest in order and the list duplicate-free. */
  lemma RemoveInterestSpec(interests: seq<string>, tag: string, other: string)
    requires other != tag
    ensures Seqs.Count(RemoveInterest(interests, tag), other) == Seqs.Count(interests, other)
    ensures Seqs.NoDup(interests) ==> Seqs.NoDup(RemoveInterest(interests, tag))
    ensures RemoveInterest(RemoveInterest(interests, tag), tag) == RemoveInterest(interests, tag)
  {
    Seqs.CountRemoveAll(interests, tag, other);
    if Seqs.NoDup(interests) {
      Seqs.RemoveAllNoDup(interests, tag);
    }
    Seqs.RemoveAllIdempotent(interests, tag);
  }

  /** The state of the `useInterests` hook. */
  class InterestPicker {
    var interests: seq<string>
    var interestInput: string

    /** Tags the hook itself added are non-empty and trimmed; with a duplicate-free
        initial list the list stays duplicate-free. */
    ghost const initial: seq<string>

    ghost predicate Valid()
      reads this
    {
      && (Seqs.NoDup(initial) ==> Seqs.NoDup(interests))
      && (forall k :: 0 <= k < |interests| && interests[k] !in initial ==> interests[k] != "" && Text.IsTrimmed(interests[k]))
    }

    /** `useInterests(initialInterests)`. Without an argument the source starts from
        `DefaultInterests`. */
    constructor (initialInterests: seq<string>)
      ensures Valid()
      ensures interests == initialInterests && interestInput == ""
    {
      initial := initialInterests;
      interests := initialInterests;
      interestInput := "";
    }

    /** `setInterestInput`. */
    method SetInput(value: string)
      requires Valid()
      modifies this
      ensures Valid()
      ensures interestInput == value && interests == old(interests)
    {
      interestInput := value;
    }

    /** `handleInterestInputKeyDown`: Enter with a non-blank input adds the trimmed
        input if it is new and clears the input even when it was not; any other key
        or a blank input changes nothing. */
    method KeyDown(key: string)
      requires Valid()
      modifies this
      ensures Valid()
      ensures Accepts(key, old(interestInput)) ==>
                interests == AddInterest(old(interests), old(interestInput)) && interestInput == ""
      ensures !Accepts(key, old(interestInput)) ==>
                interests == old(interests) && interestInput == old(interestInput)
    {
      if key == EnterKey && Text.Trim(interestInput) != "" {
        AddInterestSpec(interests, interestInput);
        interests := AddInterest(interests, interestInput);
        interestInput := "";
      }
    }

    /** `removeInterest`. */
    method Remove(tag: string)
      requires Valid()
      modifies this
      ensures Valid()
      ensures interests == RemoveInterest(old(interests), tag) && interestInput == old(interestInput)
    {
      if Seqs.NoDup(interests) {
        Seqs.RemoveAllNoDup(interests, tag);
      }
      interests := RemoveInterest(interests, tag);
    }
  }
}
