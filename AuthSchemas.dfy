/** The request-body schemas of the account endpoints (register, login, change,
    forgot and reset password, verify email), read as validate-and-normalise
    functions.

    A string schema is a chain of steps run in the order written: a check adds
    an issue and lets the chain go on, a transform (`trim`, `toLowerCase`)
    replaces the value. A chain that raised an issue yields no value; an object
    collects the issues of all its fields. `z.email()`'s own address format is
    the parameter `isEmail`. */
module AuthSchemas {
  import opened Wrappers
  import Text
  import AccountSchema
  import Schema

  datatype Issue = InvalidType | TooSmall(minimum: nat) | TooBig(maximum: nat) | InvalidFormat

  /** One link of a string chain. */
  datatype Step = Min(n: nat) | Max(n: nat) | TrimStep | LowerStep | UsernamePattern

  /** `[a-zA-Z0-9_]`. */
  predicate IsUsernameChar(c: char) {
    ('a' <= c <= 'z') || ('A' <= c <= 'Z') || ('0' <= c <= '9') || c == '_'
  }

  /** `/^[a-zA-Z0-9_]+$/`. */
  predicate MatchesUsernamePattern(s: string) {
    |s| > 0 && forall k :: 0 <= k < |s| ==> IsUsernameChar(s[k])
  }

  /** The value a chain has reached and the issues raised on the way. */
  datatype Run = Run(value: string, issues: seq<Issue>)

  function Apply(step: Step, v: string): Run {
    match step
    case Min(n) => Run(v, MinIssue(n, v))
    case Max(n) => Run(v, MaxIssue(n, v))
    case TrimStep => Run(Text.Trim(v), [])
    case LowerStep => Run(Text.ToLower(v), [])
    case UsernamePattern => Run(v, if MatchesUsernamePattern(v) then [] else [InvalidFormat])
  }

  /** `min(n)`: fewer than `n` characters raise `too_small`. */
  function MinIssue(n: nat, v: string): seq<Issue> {
    if |v| < n then [TooSmall(n)] else []
  }

  /** `max(n)`: more than `n` characters raise `too_big`. */
  function MaxIssue(n: nat, v: string): seq<Issue> {
    if |v| > n then [TooBig(n)] else []
  }

  /** The steps, first to last, each on the value the previous one left. */
  function RunSteps(steps: seq<Step>, v: string): (r: Run)
    decreases |steps|
  {
    if steps == [] then Run(v, [])
    else
      var first := Apply(steps[0], v);
      var rest := RunSteps(steps[1..], first.value);
      Run(rest.value, first.issues + rest.issues)
  }

  /** One step in front of a chain. */
  lemma RunCons(step: Step, rest: seq<Step>, v: string)
    ensures RunSteps([step] + rest, v)
            == Run(RunSteps(rest, Apply(step, v).value).value,
                   Apply(step, v).issues + RunSteps(rest, Apply(step, v).value).issues)
  {
    assert ([step] + rest)[0] == step && ([step] + rest)[1..] == rest;
  }

  /** `z.string()` and its chain: a missing value is an invalid type; otherwise the
      value the chain reaches, unless it raised an issue. */
  function Field(steps: seq<Step>, v: Option<string>): (r: Result<string, seq<Issue>>)
    ensures r.Err? ==> r.error != []
  {
    if v.None? then Err([InvalidType])
    else
      var run := RunSteps(steps, v.value);
      if run.issues == [] then Ok(run.value) else Err(run.issues)
  }

  /** `z.email()` and its chain: the address format is checked first, on the value
      as given; then `toLowerCase`, then `trim`. */
  function EmailField(v: Option<string>, isEmail: string -> bool): (r: Result<string, seq<Issue>>)
    ensures r.Ok? <==> v.Some? && isEmail(v.value)
    ensures r.Ok? ==> r.value == Text.Trim(Text.ToLower(v.value))
    ensures r.Err? ==> r.error == (if v.None? then [InvalidType] else [InvalidFormat])
  {
    if v.None? then Err([InvalidType])
    else if !isEmail(v.value) then Err([InvalidFormat])
    else Ok(Text.Trim(Text.ToLower(v.value)))
  }

  const NameSteps: seq<Step> := [Min(1), Max(50), TrimStep]
  const UsernameSteps: seq<Step> := [Min(3), Max(30), LowerStep, UsernamePattern]
  const PasswordSteps: seq<Step> := [Min(6), Max(100)]
  const IdentifierSteps: seq<Step> := [Min(1), TrimStep, LowerStep]
  const RequiredSteps: seq<Step> := [Min(1)]

  /** What each chain computes. */
  lemma NameRun(s: string)
    ensures RunSteps(NameSteps, s) == Run(Text.Trim(s), MinIssue(1, s) + MaxIssue(50, s))
  {
    assert NameSteps == [Min(1)] + ([Max(50)] + ([TrimStep] + []));
    RunCons(TrimStep, [], s);
    RunCons(Max(50), [TrimStep], s);
    RunCons(Min(1), [Max(50), TrimStep], s);
  }

  lemma UsernameRun(s: string)
    ensures var l := Text.ToLower(s);
            RunSteps(UsernameSteps, s)
            == Run(l, MinIssue(3, s) + MaxIssue(30, s) + (if MatchesUsernamePattern(l) then [] else [InvalidFormat]))
  {
    var l := Text.ToLower(s);
    assert UsernameSteps == [Min(3)] + ([Max(30)] + ([LowerStep] + ([UsernamePattern] + [])));
    RunCons(UsernamePattern, [], l);
    RunCons(LowerStep, [UsernamePattern], s);
    RunCons(Max(30), [LowerStep, UsernamePattern], s);
    RunCons(Min(3), [Max(30), LowerStep, UsernamePattern], s);
  }

  lemma PasswordRun(s: string)
    ensures RunSteps(PasswordSteps, s) == Run(s, MinIssue(6, s) + MaxIssue(100, s))
  {
    assert PasswordSteps == [Min(6)] + ([Max(100)] + []);
    RunCons(Max(100), [], s);
    RunCons(Min(6), [Max(100)], s);
  }

  lemma IdentifierRun(s: string)
    ensures RunSteps(IdentifierSteps, s) == Run(Text.ToLower(Text.Trim(s)), MinIssue(1, s))
  {
    var t := Text.Trim(s);
    assert IdentifierSteps == [Min(1)] + ([TrimStep] + ([LowerStep] + []));
    RunCons(LowerStep, [], t);
    RunCons(TrimStep, [LowerStep], s);
    RunCons(Min(1), [TrimStep, LowerStep], s);
  }

  /** `firstname`, `lastname`: the length bounds apply to the value as given, before
      `trim`; the result is the trimmed value. */
  function NameField(v: Option<string>): (r: Result<string, seq<Issue>>)
    ensures r.Ok? <==> v.Some? && 1 <= |v.value| <= 50
    ensures r.Ok? ==> r.value == Text.Trim(v.value)
    ensures v.None? ==> r == Err([InvalidType])
    ensures v.Some? && r.Err? ==>
              && (TooSmall(1) in r.error <==> |v.value| < 1)
              && (TooBig(50) in r.error <==> |v.value| > 50)
  {
    if v.Some? then NameRun(v.value); Field(NameSteps, v) else Field(NameSteps, v)
  }

  /** `username`: 3 to 30 characters as given, lowercased, then the pattern on the
      lowercased value. */
  function UsernameField(v: Option<string>): (r: Result<string, seq<Issue>>)
    ensures r.Ok? <==> v.Some? && 3 <= |v.value| <= 30 && MatchesUsernamePattern(Text.ToLower(v.value))
    ensures r.Ok? ==> r.value == Text.ToLower(v.value)
    ensures v.None? ==> r == Err([InvalidType])
    ensures v.Some? && r.Err? ==>
              && (TooSmall(3) in r.error <==> |v.value| < 3)
              && (TooBig(30) in r.error <==> |v.value| > 30)
              && (InvalidFormat in r.error <==> !MatchesUsernamePattern(Text.ToLower(v.value)))
  {
    if v.Some? then UsernameRun(v.value); Field(UsernameSteps, v) else Field(UsernameSteps, v)
  }

  /** A password of 6 to 100 characters, kept as given. */
  function PasswordField(v: Option<string>): (r: Result<string, seq<Issue>>)
    ensures r.Ok? <==> v.Some? && 6 <= |v.value| <= 100
    ensures r.Ok? ==> r.value == v.value
    ensures v.None? ==> r == Err([InvalidType])
    ensures v.Some? && r.Err? ==>
              && (TooSmall(6) in r.error <==> |v.value| < 6)
              && (TooBig(100) in r.error <==> |v.value| > 100)
  {
    if v.Some? then PasswordRun(v.value); Field(PasswordSteps, v) else Field(PasswordSteps, v)
  }

  /** A string of at least one character, kept as given. */
  function RequiredField(v: Option<string>): (r: Result<string, seq<Issue>>)
    ensures r.Ok? <==> v.Some? && v.value != ""
    ensures r.Ok? ==> r.value == v.value
    ensures r.Err? ==> r.error == (if v.None? then [InvalidType] else [TooSmall(1)])
  {
    Field(RequiredSteps, v)
  }

  /** The login identifier: at least one character as given, then `trim` and
      `toLowerCase`. */
  function IdentifierField(v: Option<string>): (r: Result<string, seq<Issue>>)
    ensures r.Ok? <==> v.Some? && v.value != ""
    ensures r.Ok? ==> r.value == Text.ToLower(Text.Trim(v.value))
    ensures r.Err? ==> r.error == (if v.None? then [InvalidType] else [TooSmall(1)])
  {
    if v.Some? then IdentifierRun(v.value); Field(IdentifierSteps, v) else Field(IdentifierSteps, v)
  }

  /** The fields an object schema reports issues under. */
  datatype FieldName =
    | FirstnameField | LastnameField | UsernameFieldName | EmailFieldName | PasswordFieldName
    | IdentifierFieldName | CurrentPasswordField | NewPasswordField | ConfirmNewPasswordField | TokenField

  datatype FieldIssue = FieldIssue(field: FieldName, issue: Issue)

  /** A field's issues, under its name. */
  function Tag(field: FieldName, r: Result<string, seq<Issue>>): (t: seq<FieldIssue>)
    ensures t == [] <==> r.Ok? || r.error == []
    ensures forall i :: FieldIssue(field, i) in t <==> r.Err? && i in r.error
    ensures forall k :: 0 <= k < |t| ==> t[k].field == field
  {
    if r.Ok? then []
    else
      var t := seq(|r.error|, k requires 0 <= k < |r.error| => FieldIssue(field, r.error[k]));
      assert forall i :: i in r.error ==> FieldIssue(field, i) in t by {
        forall i | i in r.error ensures FieldIssue(field, i) in t {
          var k :| 0 <= k < |r.error| && r.error[k] == i;
          assert t[k] == FieldIssue(field, i);
        }
      }
      t
  }

  datatype RegisterInput = RegisterInput(
    firstname: Option<string>, lastname: Option<string>, username: Option<string>,
    email: Option<string>, password: Option<string>)

  datatype RegisterOutput = RegisterOutput(
    firstname: string, lastname: string, username: string, email: string, password: string)

  /** The result of one of the five fields of `registerSchema`. */
  function RegisterField(input: RegisterInput, isEmail: string -> bool, f: FieldName): Result<string, seq<Issue>>
    requires f in {FirstnameField, LastnameField, UsernameFieldName, EmailFieldName, PasswordFieldName}
  {
    match f
    case FirstnameField => NameField(input.firstname)
    case LastnameField => NameField(input.lastname)
    case UsernameFieldName => UsernameField(input.username)
    case EmailFieldName => EmailField(input.email, isEmail)
    case PasswordFieldName => PasswordField(input.password)
  }

  /** `registerSchema`: all five fields valid, or the issues of every field, field
      after field. */
  function Register(input: RegisterInput, isEmail: string -> bool): (r: Result<RegisterOutput, seq<FieldIssue>>)
    ensures r.Ok? <==>
              && NameField(input.firstname).Ok? && NameField(input.lastname).Ok?
              && UsernameField(input.username).Ok? && EmailField(input.email, isEmail).Ok?
              && PasswordField(input.password).Ok?
    ensures r.Ok? ==> r.value == RegisterOutput(
              NameField(input.firstname).value, NameField(input.lastname).value,
              UsernameField(input.username).value, EmailField(input.email, isEmail).value,
              PasswordField(input.password).value)
  {
    var firstname := NameField(input.firstname);
    var lastname := NameField(input.lastname);
    var username := UsernameField(input.username);
    var email := EmailField(input.email, isEmail);
    var password := PasswordField(input.password);
    if firstname.Ok? && lastname.Ok? && username.Ok? && email.Ok? && password.Ok? then
      Ok(RegisterOutput(firstname.value, lastname.value, username.value, email.value, password.value))
    else
      Err(TagFive([firstname, lastname, username, email, password]))
  }

  /** A tagged issue belongs to the field it is tagged with. */
  lemma TagField(field: FieldName, r: Result<string, seq<Issue>>, g: FieldName, i: Issue)
    requires FieldIssue(g, i) in Tag(field, r)
    ensures g == field
  {
    var t := Tag(field, r);
    var k :| 0 <= k < |t| && t[k] == FieldIssue(g, i);
  }

  /** The fields of `registerSchema`, in the order written. */
  const RegisterFields: seq<FieldName> := [FirstnameField, LastnameField, UsernameFieldName, EmailFieldName, PasswordFieldName]

  /** The issues of the five register fields, field after field. */
  function TagFive(rs: seq<Result<string, seq<Issue>>>): seq<FieldIssue>
    requires |rs| == 5
  {
    var fs := RegisterFields;
    Tag(fs[0], rs[0]) + Tag(fs[1], rs[1]) + Tag(fs[2], rs[2]) + Tag(fs[3], rs[3]) + Tag(fs[4], rs[4])
  }

  /** An issue under one register field's name is one of that field's issues. */
  lemma TaggedFive(rs: seq<Result<string, seq<Issue>>>, n: nat, i: Issue)
    requires |rs| == 5 && n < 5
    ensures FieldIssue(RegisterFields[n], i) in TagFive(rs) <==> rs[n].Err? && i in rs[n].error
  {
    var fs := RegisterFields;
    var x := FieldIssue(fs[n], i);
    forall m | 0 <= m < 5 && m != n
      ensures x !in Tag(fs[m], rs[m])
    {
      if x in Tag(fs[m], rs[m]) {
        TagField(fs[m], rs[m], fs[n], i);
      }
    }
  }

  /** A rejected registration reports, under each field's name, exactly that field's
      issues, whatever the other fields hold. */
  lemma RegisterIssues(input: RegisterInput, isEmail: string -> bool, f: FieldName, i: Issue)
    requires f in {FirstnameField, LastnameField, UsernameFieldName, EmailFieldName, PasswordFieldName}
    requires Register(input, isEmail).Err?
    ensures FieldIssue(f, i) in Register(input, isEmail).error <==>
              RegisterField(input, isEmail, f).Err? && i in RegisterField(input, isEmail, f).error
  {
    var rs := [NameField(input.firstname), NameField(input.lastname), UsernameField(input.username),
               EmailField(input.email, isEmail), PasswordField(input.password)];
    var n := match f
             case FirstnameField => 0
             case LastnameField => 1
             case UsernameFieldName => 2
             case EmailFieldName => 3
             case PasswordFieldName => 4;
    TaggedFive(rs, n, i);
  }

  datatype LoginInput = LoginInput(identifier: Option<string>, password: Option<string>)
  datatype LoginOutput = LoginOutput(identifier: string, password: string)

  /** `loginSchema`. */
  function Login(input: LoginInput): (r: Result<LoginOutput, seq<FieldIssue>>)
    ensures r.Ok? <==> IdentifierField(input.identifier).Ok? && RequiredField(input.password).Ok?
    ensures r.Ok? ==> r.value == LoginOutput(IdentifierField(input.identifier).value, input.password.value)
  {
    var id := IdentifierField(input.identifier);
    var password := RequiredField(input.password);
    var issues := Tag(IdentifierFieldName, id) + Tag(PasswordFieldName, password);
    if issues == [] then Ok(LoginOutput(id.value, password.value)) else Err(issues)
  }

  datatype ChangePasswordInput = ChangePasswordInput(
    currentPassword: Option<string>, newPassword: Option<string>, confirmNewPassword: Option<string>)
  datatype ChangePasswordOutput = ChangePasswordOutput(currentPassword: string, newPassword: string, confirmNewPassword: string)

  /** `changePasswordSchema`: each field bounded on its own. */
  function ChangePassword(input: ChangePasswordInput): (r: Result<ChangePasswordOutput, seq<FieldIssue>>)
    ensures r.Ok? <==>
              && RequiredField(input.currentPassword).Ok?
              && PasswordField(input.newPassword).Ok? && PasswordField(input.confirmNewPassword).Ok?
    ensures r.Ok? ==> r.value == ChangePasswordOutput(
              input.currentPassword.value, input.newPassword.value, input.confirmNewPassword.value)
  {
    var current := RequiredField(input.currentPassword);
    var next := PasswordField(input.newPassword);
    var confirm := PasswordField(input.confirmNewPassword);
    var issues := Tag(CurrentPasswordField, current) + Tag(NewPasswordField, next)
                  + Tag(ConfirmNewPasswordField, confirm);
    if issues == [] then Ok(ChangePasswordOutput(current.value, next.value, confirm.value)) else Err(issues)
  }

  /** `forgotPasswordSchema`. */
  function ForgotPassword(email: Option<string>, isEmail: string -> bool): (r: Result<string, seq<FieldIssue>>)
    ensures r.Ok? <==> email.Some? && isEmail(email.value)
    ensures r.Ok? ==> r.value == Text.Trim(Text.ToLower(email.value))
  {
    var e := EmailField(email, isEmail);
    if e.Ok? then Ok(e.value) else Err(Tag(EmailFieldName, e))
  }

  datatype ResetPasswordOutput = ResetPasswordOutput(token: string, password: string)

  /** `resetPasswordSchema`. */
  function ResetPassword(token: Option<string>, password: Option<string>): (r: Result<ResetPasswordOutput, seq<FieldIssue>>)
    ensures r.Ok? <==> token.Some? && token.value != "" && password.Some? && 6 <= |password.value| <= 100
    ensures r.Ok? ==> r.value == ResetPasswordOutput(token.value, password.value)
  {
    var t := RequiredField(token);
    var p := PasswordField(password);
    var issues := Tag(TokenField, t) + Tag(PasswordFieldName, p);
    if issues == [] then Ok(ResetPasswordOutput(t.value, p.value)) else Err(issues)
  }

  /** `verifyEmailSchema`. */
  function VerifyEmail(token: Option<string>): (r: Result<string, seq<FieldIssue>>)
    ensures r.Ok? <==> token.Some? && token.value != ""
    ensures r.Ok? ==> r.value == token.value
  {
    var t := RequiredField(token);
    if t.Ok? then Ok(t.value) else Err(Tag(TokenField, t))
  }

  /** A registered username has only lowercase letters, digits and underscores,
      3 to 30 of them, and is what the account document stores for it. */
  lemma RegisteredUsername(v: Option<string>)
    requires UsernameField(v).Ok?
    ensures var u := UsernameField(v).value;
            && 3 <= |u| <= 30
            && (forall k :: 0 <= k < |u| ==> ('a' <= u[k] <= 'z') || ('0' <= u[k] <= '9') || u[k] == '_')
            && AccountSchema.UsernameFailure(Some(u)).None?
            && Text.ToLower(Text.Trim(u)) == u
  {
    var s := v.value;
    var u := UsernameField(v).value;
    assert u == Text.ToLower(s) && MatchesUsernamePattern(u) && |u| == |s|;
    forall k | 0 <= k < |u|
      ensures ('a' <= u[k] <= 'z') || ('0' <= u[k] <= '9') || u[k] == '_'
    {
      assert IsUsernameChar(u[k]) && !Text.IsUpperAscii(u[k]);
    }
    assert Text.IsTrimmed(u) by {
      assert IsUsernameChar(u[0]) && IsUsernameChar(u[|u| - 1]);
      Text.VisibleAsciiNotSpace(u[0]);
      Text.VisibleAsciiNotSpace(u[|u| - 1]);
    }
    Text.TrimTrimmed(u);
    Text.ToLowerIdempotent(s);
  }

  /** A registered password passes the account document's `minlength`. */
  lemma RegisteredPassword(v: Option<string>)
    requires PasswordField(v).Ok?
    ensures AccountSchema.PasswordFailure(Some(PasswordField(v).value)).None?
  {
  }

  /** The length bounds come before `trim`: a name of spaces only is accepted and
      becomes the empty string, which the account document then refuses as missing. */
  lemma BlankNameAccepted(v: string)
    requires 1 <= |v| <= 50 && Text.IsBlank(v)
    ensures NameField(Some(v)) == Ok("")
    ensures AccountSchema.NameFailure(Some(NameField(Some(v)).value)) == Some(Schema.Required)
  {
  }

  /** The same order lets a login identifier of spaces only through, as `""`. */
  lemma BlankIdentifierAccepted(v: string)
    requires v != "" && Text.IsBlank(v)
    ensures IdentifierField(Some(v)) == Ok("")
  {
    assert Text.Trim(v) == "";
  }

  /** Nothing ties the confirmation to the new password. */
  lemma ConfirmationNotCompared()
    ensures var r := ChangePassword(ChangePasswordInput(Some("old"), Some("secret1"), Some("secret2")));
            r.Ok? && r.value.newPassword != r.value.confirmNewPassword
  {
    assert |"secret1"| == 7 && |"secret2"| == 7;
  }

  /** An accepted reset or verification request carries a non-empty token. */
  lemma TokensNonEmpty(token: Option<string>, password: Option<string>)
    ensures ResetPassword(token, password).Ok? ==> ResetPassword(token, password).value.token != ""
    ensures VerifyEmail(token).Ok? ==> VerifyEmail(token).value != ""
  {
  }
}
