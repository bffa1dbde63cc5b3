/** The user profile document: one profile per account, an optional avatar URL,
    a short trimmed bio, a presence status and the last-seen time. */
module ProfileSchema {
  import opened Wrappers
  import Text
  import opened Schema

  const MaxBioLength: nat := 150

  datatype Presence = Online | Offline | Away

  /** `status`: one of the enum's strings; a missing value takes the default `offline`. */
  function ParsePresence(v: Option<string>): (r: Option<Presence>)
    ensures r == Some(Offline) <==> v.None? || v == Some("offline")
    ensures r == Some(Online) <==> v == Some("online")
    ensures r == Some(Away) <==> v == Some("away")
  {
    match v
    case None => Some(Offline)
    case Some(s) =>
      if s == "online" then Some(Online)
      else if s == "offline" then Some(Offline)
      else if s == "away" then Some(Away)
      else None
  }

  datatype ProfileFields = ProfileFields(
    user: Option<Id>,
    avatar: Option<string>,
    bio: Option<string>,
    status: Option<string>,
    lastSeen: Option<int>,
    isOnline: Option<bool>)

  datatype Profile = Profile(
    id: Id,
    user: Id,
    avatar: Option<string>,
    bio: string,
    status: Presence,
    lastSeen: int,
    isOnline: bool,
    createdAt: int,
    updatedAt: int)

  datatype ProfilePath = UserPath | AvatarPath | BioPath | StatusPath

  /** `bio`: the default `""`, then `trim`, then `maxLength` 150. */
  function BioValue(v: Option<string>): (r: string)
    ensures Text.IsTrimmed(r)
    ensures v.None? ==> r == ""
    ensures v.Some? ==> r == Text.Trim(v.value)
  {
    Text.Trim(v.GetOr(""))
  }

  function BioFailure(v: Option<string>): (r: Option<Rule>)
    ensures r.None? <==> |BioValue(v)| <= MaxBioLength
    ensures r.Some? ==> r.value == MaxLength(MaxBioLength)
  {
    if |BioValue(v)| > MaxBioLength then Some(MaxLength(MaxBioLength)) else None
  }

  /** The violations of `user` and `avatar`. */
  function ReferenceViolations(f: ProfileFields): (r: seq<Violation<ProfilePath>>)
    ensures forall k :: 0 <= k < |r| ==> r[k].path in {UserPath, AvatarPath}
    ensures r == [] <==> f.user.Some? && Text.UrlRule(f.avatar)
    ensures Violation(UserPath, Required) in r <==> f.user.None?
    ensures Violation(AvatarPath, Invalid) in r <==> !Text.UrlRule(f.avatar)
  {
    (if f.user.None? then [Violation(UserPath, Required)] else [])
    + (if !Text.UrlRule(f.avatar) then [Violation(AvatarPath, Invalid)] else [])
  }

  /** The violations of `bio` and `status`. */
  function TextViolations(f: ProfileFields): (r: seq<Violation<ProfilePath>>)
    ensures forall k :: 0 <= k < |r| ==> r[k].path in {BioPath, StatusPath}
    ensures r == [] <==> BioFailure(f.bio).None? && ParsePresence(f.status).Some?
    ensures Violation(BioPath, MaxLength(MaxBioLength)) in r <==> BioFailure(f.bio).Some?
    ensures Violation(StatusPath, NotInEnum) in r <==> ParsePresence(f.status).None?
  {
    (if BioFailure(f.bio).Some? then [Violation(BioPath, MaxLength(MaxBioLength))] else [])
    + (if ParsePresence(f.status).None? then [Violation(StatusPath, NotInEnum)] else [])
  }

  /** The violations of a set of profile fields, path after path. */
  function ProfileViolations(f: ProfileFields): (r: seq<Violation<ProfilePath>>)
    ensures r == [] <==>
              && f.user.Some? && Text.UrlRule(f.avatar)
              && BioFailure(f.bio).None? && ParsePresence(f.status).Some?
    ensures Violation(UserPath, Required) in r <==> f.user.None?
    ensures Violation(AvatarPath, Invalid) in r <==> !Text.UrlRule(f.avatar)
    ensures Violation(BioPath, MaxLength(MaxBioLength)) in r <==> BioFailure(f.bio).Some?
    ensures Violation(StatusPath, NotInEnum) in r <==> ParsePresence(f.status).None?
  {
    var refs := ReferenceViolations(f);
    var texts := TextViolations(f);
    assert Violation(UserPath, Required) !in texts && Violation(AvatarPath, Invalid) !in texts;
    assert Violation(BioPath, MaxLength(MaxBioLength)) !in refs && Violation(StatusPath, NotInEnum) !in refs;
    refs + texts
  }

  /** `UserProfile.create(fields)` at time `now` with the new id `id`: stored exactly
      when it names a user, the avatar is absent, empty or `http(s)://` followed by
      a character, the trimmed bio has at most 150 characters and the status is in
      the enum. The bio defaults to `""` and is stored trimmed, the status defaults
      to `offline`, `lastSeen` to `now` and `isOnline` to false. */
  function CreateProfile(id: Id, f: ProfileFields, now: int): (r: Result<Profile, seq<Violation<ProfilePath>>>)
    ensures r.Ok? <==>
              && f.user.Some? && Text.UrlRule(f.avatar)
              && (f.bio.Some? ==> |Text.Trim(f.bio.value)| <= MaxBioLength)
              && ParsePresence(f.status).Some?
    ensures r.Ok? ==>
              && r.value == Profile(id, f.user.value, f.avatar, BioValue(f.bio), ParsePresence(f.status).value,
                                    f.lastSeen.GetOr(now), f.isOnline.GetOr(false), now, now)
              && Text.IsTrimmed(r.value.bio) && |r.value.bio| <= MaxBioLength
              && (f.bio.None? ==> r.value.bio == "")
              && (f.status.None? ==> r.value.status == Offline)
              && (f.lastSeen.None? ==> r.value.lastSeen == now)
              && (f.isOnline.None? ==> !r.value.isOnline)
    ensures r.Err? ==> r.error == ProfileViolations(f) && r.error != []
  {
    var errors := ProfileViolations(f);
    if errors != [] then Err(errors)
    else
      Ok(Profile(id, f.user.value, f.avatar, BioValue(f.bio), ParsePresence(f.status).value,
                 f.lastSeen.GetOr(now), f.isOnline.GetOr(false), now, now))
  }

  /** A stored avatar, when set and non-empty, is `http://` or `https://` followed by
      something. */
  lemma StoredAvatar(id: Id, f: ProfileFields, now: int)
    requires CreateProfile(id, f, now).Ok?
    requires CreateProfile(id, f, now).value.avatar.Some? && CreateProfile(id, f, now).value.avatar.value != ""
    ensures var u := CreateProfile(id, f, now).value.avatar.value;
            (Text.StartsWith(u, "http://") && |u| > 7) || (Text.StartsWith(u, "https://") && |u| > 8)
  {
    Text.UrlRuleShape(CreateProfile(id, f, now).value.avatar.value);
  }

  /** The string the `status` enum stores for a presence. */
  function PresenceName(p: Presence): string {
    match p
    case Online => "online"
    case Offline => "offline"
    case Away => "away"
  }

  /** The fields of a stored profile, as they would be passed to `create`. */
  function FieldsOf(p: Profile): ProfileFields {
    ProfileFields(Some(p.user), p.avatar, Some(p.bio), Some(PresenceName(p.status)), Some(p.lastSeen), Some(p.isOnline))
  }

  /** A profile in the shape the schema stores (a valid avatar, a trimmed bio within
      bounds) is what creating it from its own fields stores. */
  lemma RecreateProfile(p: Profile)
    requires Text.UrlRule(p.avatar)
    requires Text.IsTrimmed(p.bio) && |p.bio| <= MaxBioLength
    requires p.createdAt == p.updatedAt
    ensures CreateProfile(p.id, FieldsOf(p), p.createdAt) == Ok(p)
  {
    Text.TrimTrimmed(p.bio);
    assert ParsePresence(Some(PresenceName(p.status))) == Some(p.status) by {
      match p.status
      case Online =>
      case Offline =>
      case Away =>
    }
  }

  /** Creating a profile again from what was stored stores the same profile. */
  lemma CreateProfileStable(id: Id, f: ProfileFields, now: int)
    requires CreateProfile(id, f, now).Ok?
    ensures CreateProfile(id, FieldsOf(CreateProfile(id, f, now).value), now) == CreateProfile(id, f, now)
  {
    RecreateProfile(CreateProfile(id, f, now).value);
  }

  /** At most one profile per account, and distinct ids. */
  predicate OnePerUser(store: seq<Profile>) {
    forall i, j :: 0 <= i < j < |store| ==> store[i].id != store[j].id && store[i].user != store[j].user
  }

  datatype InsertError = Rejected(violations: seq<Violation<ProfilePath>>) | DuplicateId | DuplicateUser

  /** Creating a profile in a collection: validation first, then the unique indexes
      on `_id` and `user`. */
  function InsertProfile(store: seq<Profile>, id: Id, f: ProfileFields, now: int): (r: Result<seq<Profile>, InsertError>)
    ensures CreateProfile(id, f, now).Err? ==> r == Err(Rejected(CreateProfile(id, f, now).error))
    ensures CreateProfile(id, f, now).Ok? ==>
              var p := CreateProfile(id, f, now).value;
              && ((exists k :: 0 <= k < |store| && store[k].id == id) ==> r == Err(DuplicateId))
              && (r == Err(DuplicateUser) <==>
                    && (forall k :: 0 <= k < |store| ==> store[k].id != id)
                    && exists k :: 0 <= k < |store| && store[k].user == p.user)
              && (r.Ok? <==> forall k :: 0 <= k < |store| ==> store[k].id != id && store[k].user != p.user)
              && (r.Ok? ==> r.value == store + [p])
  {
    match CreateProfile(id, f, now)
    case Err(vs) => Err(Rejected(vs))
    case Ok(p) =>
      if exists k :: 0 <= k < |store| && store[k].id == id then Err(DuplicateId)
      else if exists k :: 0 <= k < |store| && store[k].user == p.user then Err(DuplicateUser)
      else Ok(store + [p])
  }

  /** Inserting keeps one profile per account. */
  lemma InsertKeepsOnePerUser(store: seq<Profile>, id: Id, f: ProfileFields, now: int)
    requires OnePerUser(store)
    requires InsertProfile(store, id, f, now).Ok?
    ensures OnePerUser(InsertProfile(store, id, f, now).value)
  {
    var p := CreateProfile(id, f, now).value;
    var s := store + [p];
    forall i, j | 0 <= i < j < |s|
      ensures s[i].id != s[j].id && s[i].user != s[j].user
    {
      if j == |store| {
        assert s[j] == p && s[i] == store[i];
      }
    }
  }

  /** A stored profile satisfies its schema: its own fields raise no violation. */
  lemma StoredProfileValid(id: Id, f: ProfileFields, now: int)
    requires CreateProfile(id, f, now).Ok?
    ensures ProfileViolations(FieldsOf(CreateProfile(id, f, now).value)) == []
  {
    CreateProfileStable(id, f, now);
  }
}
