/** The account document: name, username, email and password constraints, the
    email pattern, role and verification defaults, the single refresh token, the
    password hidden from default queries, and the unique username and email. */
module AccountSchema {
  import opened Wrappers
  import Text
  import Seqs
  import opened Schema

  const MaxNameLength: nat := 50
  const MinUsernameLength: nat := 3
  const MaxUsernameLength: nat := 30
  const MinPasswordLength: nat := 6

  // The email pattern `^\w+([.-]?\w+)*@\w+([.-]?\w+)*(\.\w{2,3})+$`, one
  // predicate per part of the expression.

  /** `\w`. */
  predicate IsWordChar(c: char) {
    ('a' <= c <= 'z') || ('A' <= c <= 'Z') || ('0' <= c <= '9') || c == '_'
  }

  /** `[.-]`. */
  predicate IsSeparator(c: char) {
    c == '.' || c == '-'
  }

  /** `\w+([.-]?\w+)*` matches `s[lo..hi]`: a word character, then nothing, more
      of the same, or one separator followed by more of the same. */
  predicate Dotted(s: string, lo: nat, hi: nat)
    requires lo <= hi <= |s|
    decreases hi - lo
  {
    && lo < hi && IsWordChar(s[lo])
    && (lo + 1 == hi || Dotted(s, lo + 1, hi) || (IsSeparator(s[lo + 1]) && Dotted(s, lo + 2, hi)))
  }

  /** `(\.\w{2,3})+` matches `s[lo..hi]`: a dot and two or three word characters,
      once or more. */
  predicate Groups(s: string, lo: nat, hi: nat)
    requires lo <= hi <= |s|
    decreases hi - lo
  {
    && lo + 3 <= hi && s[lo] == '.' && IsWordChar(s[lo + 1]) && IsWordChar(s[lo + 2])
    && (|| lo + 3 == hi
        || Groups(s, lo + 3, hi)
        || (IsWordChar(s[lo + 3]) && (lo + 4 == hi || Groups(s, lo + 4, hi))))
  }

  /** `\w+([.-]?\w+)*(\.\w{2,3})+` matches `s[lo..]`, the part after the `@`. */
  predicate Domain(s: string, lo: nat)
    requires lo <= |s|
  {
    exists j :: lo < j < |s| && Dotted(s, lo, j) && Groups(s, j, |s|)
  }

  /** The whole pattern, anchored at both ends. */
  predicate MatchesEmail(s: string) {
    exists i :: 0 <= i < |s| && s[i] == '@' && Dotted(s, 0, i) && Domain(s, i + 1)
  }

  lemma {:induction false} DottedChars(s: string, lo: nat, hi: nat)
    requires lo <= hi <= |s| && Dotted(s, lo, hi)
    ensures forall k :: lo <= k < hi ==> IsWordChar(s[k]) || IsSeparator(s[k])
    ensures IsWordChar(s[hi - 1])
    decreases hi - lo
  {
    if lo + 1 < hi {
      if Dotted(s, lo + 1, hi) {
        DottedChars(s, lo + 1, hi);
      } else {
        DottedChars(s, lo + 2, hi);
      }
    }
  }

  lemma {:induction false} GroupsChars(s: string, lo: nat, hi: nat)
    requires lo <= hi <= |s| && Groups(s, lo, hi)
    ensures forall k :: lo <= k < hi ==> IsWordChar(s[k]) || s[k] == '.'
    ensures IsWordChar(s[hi - 1])
    decreases hi - lo
  {
    if lo + 3 < hi {
      if Groups(s, lo + 3, hi) {
        GroupsChars(s, lo + 3, hi);
      } else if lo + 4 < hi {
        GroupsChars(s, lo + 4, hi);
      }
    }
  }

  /** No two separators are adjacent in what `\w+([.-]?\w+)*` matches. */
  lemma {:induction false} DottedNoDoubleSeparator(s: string, lo: nat, hi: nat, k: nat)
    requires lo <= hi <= |s| && Dotted(s, lo, hi) && lo <= k && k + 1 < hi
    ensures !(IsSeparator(s[k]) && IsSeparator(s[k + 1]))
    decreases hi - lo
  {
    if k > lo {
      if Dotted(s, lo + 1, hi) {
        DottedNoDoubleSeparator(s, lo + 1, hi, k);
      } else if k > lo + 1 {
        DottedNoDoubleSeparator(s, lo + 2, hi, k);
      }
    }
  }

  /** Where the pattern matches: the `@` at `i`, the last part starting at `j`. */
  predicate EmailSplit(s: string, i: nat, j: nat) {
    i < j <= |s| && s[i] == '@' && Dotted(s, 0, i) && Dotted(s, i + 1, j) && Groups(s, j, |s|)
  }

  lemma EmailSplitExists(s: string) returns (i: nat, j: nat)
    requires MatchesEmail(s)
    ensures EmailSplit(s, i, j)
  {
    i :| 0 <= i < |s| && s[i] == '@' && Dotted(s, 0, i) && Domain(s, i + 1);
    j :| i + 1 < j < |s| && Dotted(s, i + 1, j) && Groups(s, j, |s|);
  }

  /** Every character of a matched address but the `@` is a word character, a
      separator or a dot; the first and last are word characters. */
  lemma EmailChars(s: string, i: nat, j: nat)
    requires EmailSplit(s, i, j)
    ensures forall k :: 0 <= k < |s| && k != i ==> IsWordChar(s[k]) || IsSeparator(s[k])
    ensures IsWordChar(s[0]) && IsWordChar(s[|s| - 1])
  {
    DottedChars(s, 0, i);
    DottedChars(s, i + 1, j);
    GroupsChars(s, j, |s|);
  }

  lemma NotSpace(c: char)
    requires IsWordChar(c) || IsSeparator(c) || c == '@'
    ensures !Text.IsSpace(c)
  {
  }

  /** An address the pattern accepts has exactly one `@`, no white space, and starts
      and ends with a word character. */
  lemma EmailShape(s: string)
    requires MatchesEmail(s)
    ensures Seqs.Count(s, '@') == 1
    ensures forall k :: 0 <= k < |s| ==> !Text.IsSpace(s[k])
    ensures IsWordChar(s[0]) && IsWordChar(s[|s| - 1])
    ensures Text.IsTrimmed(s)
  {
    var i, j := EmailSplitExists(s);
    EmailChars(s, i, j);
    forall k | 0 <= k < |s| ensures !Text.IsSpace(s[k]) {
      NotSpace(s[k]);
    }
    OneAt(s, i);
  }

  /** A string whose only `@` is at `i` has one `@`. */
  lemma OneAt(s: string, i: nat)
    requires i < |s| && s[i] == '@'
    requires forall k :: 0 <= k < |s| && k != i ==> s[k] != '@'
    ensures Seqs.Count(s, '@') == 1
  {
    var local, domain := s[..i], s[i + 1..];
    assert s == local + ['@'] + domain;
    assert '@' !in local by {
      forall k | 0 <= k < |local| ensures local[k] != '@' {
        assert local[k] == s[k];
      }
    }
    assert '@' !in domain by {
      forall k | 0 <= k < |domain| ensures domain[k] != '@' {
        assert domain[k] == s[k + i + 1];
      }
    }
    Seqs.CountConcat(local + ['@'], domain, '@');
    Seqs.CountConcat(local, ['@'], '@');
  }

  /** A typical address matches. */
  lemma EmailAccepted()
    ensures MatchesEmail("ann.lee@web.de")
  {
    var s := "ann.lee@web.de";
    assert s[0] == 'a' && s[1] == 'n' && s[2] == 'n' && s[3] == '.' && s[4] == 'l' && s[5] == 'e' && s[6] == 'e';
    assert s[7] == '@' && s[8] == 'w' && s[9] == 'e' && s[10] == 'b' && s[11] == '.' && s[12] == 'd' && s[13] == 'e';
    assert Dotted(s, 6, 7) && Dotted(s, 5, 7) && Dotted(s, 4, 7);
    assert Dotted(s, 2, 7) && Dotted(s, 1, 7) && Dotted(s, 0, 7);
    assert Dotted(s, 10, 11) && Dotted(s, 9, 11) && Dotted(s, 8, 11);
    assert Groups(s, 11, 14);
    assert Domain(s, 8);
  }

  /** The part after the `@` needs a dot and two or three word characters at its end. */
  lemma EmailNeedsTopLevelPart()
    ensures !MatchesEmail("jane@localhost")
  {
    var s := "jane@localhost";
    forall i | 0 <= i < |s| && s[i] == '@'
      ensures !Domain(s, i + 1)
    {
      assert i == 4;
      forall j | i + 1 < j < |s|
        ensures !Groups(s, j, |s|)
      {
        assert s[j] != '.';
      }
    }
  }

  /** Two separators in a row are refused. */
  lemma EmailRefusesDoubleDot()
    ensures !MatchesEmail("jo..e@web.de")
  {
    var s := "jo..e@web.de";
    if MatchesEmail(s) {
      var i, j := EmailSplitExists(s);
      assert s[0] != '@' && s[1] != '@' && s[2] != '@' && s[3] != '@';
      DottedNoDoubleSeparator(s, 0, i, 2);
    }
  }

  datatype Role = UserRole | AdminRole

  /** `role`: one of the enum's strings; a missing value takes the default `user`. */
  function ParseRole(v: Option<string>): (r: Option<Role>)
    ensures r == Some(UserRole) <==> v.None? || v == Some("user")
    ensures r == Some(AdminRole) <==> v == Some("admin")
  {
    match v
    case None => Some(UserRole)
    case Some(s) => if s == "user" then Some(UserRole) else if s == "admin" then Some(AdminRole) else None
  }

  /** A token with its expiry time; the document holds one of each kind. */
  datatype Token = Token(value: Option<string>, expires: Option<int>)

  /** The fields an account is created from. */
  datatype AccountFields = AccountFields(
    firstname: Option<string>,
    lastname: Option<string>,
    username: Option<string>,
    email: Option<string>,
    password: Option<string>,
    role: Option<string>,
    isVerified: Option<bool>,
    verification: Token,
    reset: Token,
    refresh: Token)

  /** Everything a default query returns about an account. */
  datatype AccountInfo = AccountInfo(
    id: Id,
    firstname: string,
    lastname: string,
    username: string,
    email: string,
    role: Role,
    isVerified: bool,
    verification: Token,
    reset: Token,
    refresh: Token,
    createdAt: int,
    updatedAt: int)

  /** A stored account: the password is kept apart because queries leave it out
      unless they ask for it. */
  datatype Account = Account(info: AccountInfo, password: string)

  /** The result of a query without an explicit selection of `password`. */
  function DefaultView(a: Account): AccountInfo {
    a.info
  }

  /** The password cannot be seen through a default query. */
  lemma PasswordHidden(a: Account, p: string)
    ensures DefaultView(a.(password := p)) == DefaultView(a)
  {
  }

  /** The paths of an account that can fail validation. */
  datatype AccountPath = FirstnamePath | LastnamePath | UsernamePath | EmailPath | PasswordPath | RolePath

  /** `firstname`, `lastname`: `trim`, then `required` and `maxlength` 50. */
  function NameFailure(v: Option<string>): (r: Option<Rule>)
    ensures r == Some(Required) <==> v.None? || Text.IsBlank(v.value)
    ensures r == Some(MaxLength(MaxNameLength)) <==> v.Some? && |Text.Trim(v.value)| > MaxNameLength
    ensures r.None? <==> v.Some? && 0 < |Text.Trim(v.value)| <= MaxNameLength
  {
    var t := TrimSetter(v);
    if !Present(t) then Some(Required)
    else if |t.value| > MaxNameLength then Some(MaxLength(MaxNameLength))
    else None
  }

  /** `username`: `trim` and `lowercase`, then `required`, `minlength` 3, `maxlength` 30. */
  function UsernameFailure(v: Option<string>): (r: Option<Rule>)
    ensures r == Some(Required) <==> v.None? || Text.IsBlank(v.value)
    ensures r == Some(MinLength(MinUsernameLength)) <==> v.Some? && 0 < |Text.Trim(v.value)| < MinUsernameLength
    ensures r == Some(MaxLength(MaxUsernameLength)) <==> v.Some? && |Text.Trim(v.value)| > MaxUsernameLength
    ensures r.None? <==> v.Some? && MinUsernameLength <= |Text.Trim(v.value)| <= MaxUsernameLength
  {
    var t := TrimLowerSetter(v);
    if !Present(t) then Some(Required)
    else if |t.value| < MinUsernameLength then Some(MinLength(MinUsernameLength))
    else if |t.value| > MaxUsernameLength then Some(MaxLength(MaxUsernameLength))
    else None
  }

  /** `email`: `lowercase` and `trim`, then `required` and the pattern. */
  function EmailFailure(v: Option<string>): (r: Option<Rule>)
    ensures r == Some(Required) <==> v.None? || Text.IsBlank(v.value)
    ensures r == Some(NoMatch) <==> v.Some? && !Text.IsBlank(v.value) && !MatchesEmail(Text.ToLower(Text.Trim(v.value)))
    ensures r.None? <==> v.Some? && MatchesEmail(Text.ToLower(Text.Trim(v.value)))
  {
    var t := TrimLowerSetter(v);
    if !Present(t) then Some(Required)
    else if !MatchesEmail(t.value) then Some(NoMatch)
    else None
  }

  /** `password`: no setter; `required`, then `minlength` 6. */
  function PasswordFailure(v: Option<string>): (r: Option<Rule>)
    ensures r == Some(Required) <==> v.None? || v.value == ""
    ensures r == Some(MinLength(MinPasswordLength)) <==> v.Some? && 0 < |v.value| < MinPasswordLength
    ensures r.None? <==> v.Some? && |v.value| >= MinPasswordLength
  {
    if !Present(v) then Some(Required)
    else if |v.value| < MinPasswordLength then Some(MinLength(MinPasswordLength))
    else None
  }

  function RoleFailure(v: Option<string>): (r: Option<Rule>)
    ensures r.None? <==> ParseRole(v).Some?
    ensures r.Some? ==> r.value == NotInEnum
  {
    if ParseRole(v).None? then Some(NotInEnum) else None
  }

  /** The validated paths, in declaration order. */
  const AccountPaths: seq<AccountPath> := [FirstnamePath, LastnamePath, UsernamePath, EmailPath, PasswordPath, RolePath]

  /** The failure of each validated path, in declaration order. */
  function Failures(f: AccountFields): (rs: seq<Option<Rule>>)
    ensures |rs| == 6
  {
    [NameFailure(f.firstname), NameFailure(f.lastname), UsernameFailure(f.username),
     EmailFailure(f.email), PasswordFailure(f.password), RoleFailure(f.role)]
  }

  /** The failures of the six paths, path after path. */
  function AtAll(rs: seq<Option<Rule>>): (r: seq<Violation<AccountPath>>)
    requires |rs| == 6
    ensures r == [] <==> rs[0].None? && rs[1].None? && rs[2].None? && rs[3].None? && rs[4].None? && rs[5].None?
  {
    var ps := AccountPaths;
    At(ps[0], rs[0]) + At(ps[1], rs[1]) + At(ps[2], rs[2]) + At(ps[3], rs[3]) + At(ps[4], rs[4]) + At(ps[5], rs[5])
  }

  /** A failure listed under one path is that path's failure. */
  lemma AtAllMember(rs: seq<Option<Rule>>, n: nat, rule: Rule)
    requires |rs| == 6 && n < 6
    ensures Violation(AccountPaths[n], rule) in AtAll(rs) <==> rs[n] == Some(rule)
  {
    var ps := AccountPaths;
    forall m | 0 <= m < 6 && m != n ensures Violation(ps[n], rule) !in At(ps[m], rs[m]) {
    }
  }

  /** The violations of a set of account fields, path after path in declaration order. */
  function AccountViolations(f: AccountFields): (r: seq<Violation<AccountPath>>)
    ensures r == [] <==>
              && NameFailure(f.firstname).None? && NameFailure(f.lastname).None?
              && UsernameFailure(f.username).None? && EmailFailure(f.email).None?
              && PasswordFailure(f.password).None? && RoleFailure(f.role).None?
  {
    var rs := Failures(f);
    AtAll(rs)
  }

  /** The failure a path reports. */
  function PathFailure(f: AccountFields, p: AccountPath): Option<Rule> {
    match p
    case FirstnamePath => NameFailure(f.firstname)
    case LastnamePath => NameFailure(f.lastname)
    case UsernamePath => UsernameFailure(f.username)
    case EmailPath => EmailFailure(f.email)
    case PasswordPath => PasswordFailure(f.password)
    case RolePath => RoleFailure(f.role)
  }

  /** Each path reports exactly its own failure, whatever the other paths hold. */
  lemma AccountViolationAt(f: AccountFields, p: AccountPath, rule: Rule)
    ensures Violation(p, rule) in AccountViolations(f) <==> PathFailure(f, p) == Some(rule)
  {
    var n := match p
             case FirstnamePath => 0
             case LastnamePath => 1
             case UsernamePath => 2
             case EmailPath => 3
             case PasswordPath => 4
             case RolePath => 5;
    AtAllMember(Failures(f), n, rule);
  }

  /** What `User.create` accepts: both names non-blank and at most 50 characters
      once trimmed, the trimmed username 3 to 30 characters, the trimmed and
      lowercased email matching the pattern, a password of at least 6 characters
      and a role in the enum. */
  predicate Acceptable(f: AccountFields) {
    && f.firstname.Some? && 0 < |Text.Trim(f.firstname.value)| <= MaxNameLength
    && f.lastname.Some? && 0 < |Text.Trim(f.lastname.value)| <= MaxNameLength
    && f.username.Some? && MinUsernameLength <= |Text.Trim(f.username.value)| <= MaxUsernameLength
    && f.email.Some? && MatchesEmail(Text.ToLower(Text.Trim(f.email.value)))
    && f.password.Some? && |f.password.value| >= MinPasswordLength
    && ParseRole(f.role).Some?
  }

  /** The fields pass validation exactly when they are acceptable. */
  lemma NoViolationsAcceptable(f: AccountFields)
    ensures AccountViolations(f) == [] <==> Acceptable(f)
  {
    assert EmailFailure(f.email).None? <==> f.email.Some? && MatchesEmail(Text.ToLower(Text.Trim(f.email.value)));
  }

  /** `User.create(fields)` at time `now` with the new id `id`: stored exactly when
      the fields are acceptable. Names are stored trimmed, username and email
      trimmed and lowercased, the password as given; `role` defaults to `user` and
      `isVerified` to false. */
  function CreateAccount(id: Id, f: AccountFields, now: int): (r: Result<Account, seq<Violation<AccountPath>>>)
    ensures r.Ok? <==> Acceptable(f)
    ensures r.Ok? ==>
              && r.value.info == AccountInfo(id, Text.Trim(f.firstname.value), Text.Trim(f.lastname.value),
                                             Text.ToLower(Text.Trim(f.username.value)),
                                             Text.ToLower(Text.Trim(f.email.value)),
                                             ParseRole(f.role).value, f.isVerified.GetOr(false),
                                             f.verification, f.reset, f.refresh, now, now)
              && r.value.password == f.password.value
    ensures r.Err? ==> r.error == AccountViolations(f) && r.error != []
  {
    NoViolationsAcceptable(f);
    var errors := AccountViolations(f);
    if errors != [] then Err(errors)
    else
      var username := TrimLowerSetter(f.username).value;
      var email := TrimLowerSetter(f.email).value;
      Ok(Account(AccountInfo(id, Text.Trim(f.firstname.value), Text.Trim(f.lastname.value), username, email,
                             ParseRole(f.role).value, f.isVerified.GetOr(false),
                             f.verification, f.reset, f.refresh, now, now),
                 f.password.value))
  }

  /** What a stored account looks like: trimmed non-empty names within bounds, a
      lowercase trimmed username of 3 to 30 characters, a lowercase email the
      pattern accepts (so with one `@` and no white space), and a password of at
      least 6 characters. */
  lemma StoredAccount(id: Id, f: AccountFields, now: int)
    requires CreateAccount(id, f, now).Ok?
    ensures var a := CreateAccount(id, f, now).value.info;
            && Text.IsTrimmed(a.firstname) && 0 < |a.firstname| <= MaxNameLength
            && Text.IsTrimmed(a.lastname) && 0 < |a.lastname| <= MaxNameLength
            && Text.IsTrimmed(a.username) && Text.ToLower(a.username) == a.username
            && MinUsernameLength <= |a.username| <= MaxUsernameLength
            && Text.ToLower(a.email) == a.email && MatchesEmail(a.email)
            && Seqs.Count(a.email, '@') == 1
            && |CreateAccount(id, f, now).value.password| >= MinPasswordLength
  {
    var a := CreateAccount(id, f, now).value.info;
    Text.ToLowerIdempotent(Text.Trim(f.username.value));
    Text.ToLowerIdempotent(Text.Trim(f.email.value));
    Text.TrimToLowerCommute(f.username.value);
    EmailShape(a.email);
  }

  /** The string the `role` enum stores for a role. */
  function RoleName(r: Role): string {
    match r
    case UserRole => "user"
    case AdminRole => "admin"
  }

  /** The fields of a stored account, as they would be passed to `create`. */
  function FieldsOf(a: Account): AccountFields {
    AccountFields(Some(a.info.firstname), Some(a.info.lastname), Some(a.info.username), Some(a.info.email),
                  Some(a.password), Some(RoleName(a.info.role)), Some(a.info.isVerified),
                  a.info.verification, a.info.reset, a.info.refresh)
  }

  /** An account in the shape the schema stores (names trimmed and within bounds,
      username and email lower-cased and valid, a long enough password) is what
      creating it from its own fields stores. */
  lemma RecreateAccount(a: Account)
    requires Text.IsTrimmed(a.info.firstname) && 0 < |a.info.firstname| <= MaxNameLength
    requires Text.IsTrimmed(a.info.lastname) && 0 < |a.info.lastname| <= MaxNameLength
    requires Text.IsTrimmed(a.info.username) && Text.ToLower(a.info.username) == a.info.username
    requires MinUsernameLength <= |a.info.username| <= MaxUsernameLength
    requires Text.ToLower(a.info.email) == a.info.email && MatchesEmail(a.info.email)
    requires |a.password| >= MinPasswordLength
    requires a.info.createdAt == a.info.updatedAt
    ensures CreateAccount(a.info.id, FieldsOf(a), a.info.createdAt) == Ok(a)
  {
    Text.TrimTrimmed(a.info.firstname);
    Text.TrimTrimmed(a.info.lastname);
    Text.TrimTrimmed(a.info.username);
    EmailShape(a.info.email);
    Text.TrimTrimmed(a.info.email);
    assert ParseRole(Some(RoleName(a.info.role))) == Some(a.info.role) by {
      match a.info.role
      case UserRole =>
      case AdminRole =>
    }
    var g := FieldsOf(a);
    assert Text.ToLower(Text.Trim(g.username.value)) == a.info.username;
    assert Text.ToLower(Text.Trim(g.email.value)) == a.info.email;
    assert Acceptable(g);
  }

  /** Creating an account again from what was stored stores the same account. */
  lemma CreateAccountStable(id: Id, f: AccountFields, now: int)
    requires CreateAccount(id, f, now).Ok?
    ensures CreateAccount(id, FieldsOf(CreateAccount(id, f, now).value), now) == CreateAccount(id, f, now)
  {
    StoredAccount(id, f, now);
    RecreateAccount(CreateAccount(id, f, now).value);
  }

  /** A value that must not repeat across the collection. */
  datatype Key = IdKey | UsernameKey | EmailKey

  /** No two stored accounts share an id, a username or an email. */
  predicate UniqueKeys(store: seq<Account>) {
    forall i, j :: 0 <= i < j < |store| ==>
      && store[i].info.id != store[j].info.id
      && store[i].info.username != store[j].info.username
      && store[i].info.email != store[j].info.email
  }

  /** The first unique index, in the order `_id`, `username`, `email`, that an
      account would break. */
  function Clash(store: seq<Account>, a: Account): (r: Option<Key>)
    ensures r == Some(IdKey) <==> exists k :: 0 <= k < |store| && store[k].info.id == a.info.id
    ensures r.None? <==> forall k :: 0 <= k < |store| ==>
              && store[k].info.id != a.info.id
              && store[k].info.username != a.info.username
              && store[k].info.email != a.info.email
  {
    if exists k :: 0 <= k < |store| && store[k].info.id == a.info.id then Some(IdKey)
    else if exists k :: 0 <= k < |store| && store[k].info.username == a.info.username then Some(UsernameKey)
    else if exists k :: 0 <= k < |store| && store[k].info.email == a.info.email then Some(EmailKey)
    else None
  }

  datatype InsertError = Rejected(violations: seq<Violation<AccountPath>>) | DuplicateKey(key: Key)

  /** Creating an account in a collection: validation first, then the unique
      indexes; a stored account is appended. */
  function InsertAccount(store: seq<Account>, id: Id, f: AccountFields, now: int): (r: Result<seq<Account>, InsertError>)
    ensures CreateAccount(id, f, now).Err? ==> r == Err(Rejected(CreateAccount(id, f, now).error))
    ensures CreateAccount(id, f, now).Ok? ==>
              var a := CreateAccount(id, f, now).value;
              && (Clash(store, a).Some? ==> r == Err(DuplicateKey(Clash(store, a).value)))
              && (Clash(store, a).None? ==> r == Ok(store + [a]))
  {
    match CreateAccount(id, f, now)
    case Err(vs) => Err(Rejected(vs))
    case Ok(a) => if Clash(store, a).Some? then Err(DuplicateKey(Clash(store, a).value)) else Ok(store + [a])
  }

  /** Inserting keeps every id, username and email unique. */
  lemma InsertKeepsUnique(store: seq<Account>, id: Id, f: AccountFields, now: int)
    requires UniqueKeys(store)
    requires InsertAccount(store, id, f, now).Ok?
    ensures UniqueKeys(InsertAccount(store, id, f, now).value)
    ensures InsertAccount(store, id, f, now).value[..|store|] == store
  {
    var a := CreateAccount(id, f, now).value;
    var s := store + [a];
    assert Clash(store, a).None?;
    forall i, j | 0 <= i < j < |s|
      ensures s[i].info.id != s[j].info.id && s[i].info.username != s[j].info.username
              && s[i].info.email != s[j].info.email
    {
      if j == |store| {
        assert s[j] == a && s[i] == store[i];
      }
    }
  }

  /** A stored account satisfies its schema: its own fields raise no violation. */
  lemma StoredAccountValid(id: Id, f: AccountFields, now: int)
    requires CreateAccount(id, f, now).Ok?
    ensures AccountViolations(FieldsOf(CreateAccount(id, f, now).value)) == []
  {
    CreateAccountStable(id, f, now);
    NoViolationsAcceptable(FieldsOf(CreateAccount(id, f, now).value));
  }
}
