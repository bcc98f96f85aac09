/** The request validators of the back end (schemas/user.py, schemas/auth.py,
    schemas/metrics.py, schemas/logs.py). Each validator either returns the
    value it accepts, possibly normalised, or fails with the message the
    service reports. */
module Schemas {
  import opened Wrappers
  import Text

  datatype ValidationError = ValidationError(message: string)

  const MinPasswordLength: nat := 6
  const MinUsernameLength: nat := 3

  const PasswordTooShort: string := "Password must be at least 6 characters long"
  const NewPasswordTooShort: string := "New password must be at least 6 characters long"
  const UsernameTooShort: string := "Username must be at least 3 characters long"
  const UsernameCharset: string :=
    "Username must contain only alphanumeric characters, hyphens, and underscores"
  const UsernameAlnumOnly: string := "Username must contain only alphanumeric characters"

  // ---------------------------------------------------------------------
  // Users (schemas/user.py)
  // ---------------------------------------------------------------------

  /** `UserCreate.validate_password` (and `UserRegister`'s, which is the
      same rule). */
  function ValidatePassword(v: string): (r: Result<string, ValidationError>)
    ensures r.Ok? <==> |v| >= MinPasswordLength
    ensures r.Ok? ==> r.value == v
    ensures r.Err? ==> r.error.message == PasswordTooShort
  {
    if |v| < MinPasswordLength then Err(ValidationError(PasswordTooShort)) else Ok(v)
  }

  /** The characters left once `_` and `-` are removed. */
  function StripSeparators(v: string): string {
    Text.Remove(Text.Remove(v, '_'), '-')
  }

  /** `UserCreate.validate_username`: at least three characters, then
      alphanumeric once `_` and `-` are removed. */
  function ValidateUsername(v: string): (r: Result<string, ValidationError>)
    ensures r.Ok? ==> r.value == v
    ensures |v| < MinUsernameLength ==> r == Err(ValidationError(UsernameTooShort))
    ensures |v| >= MinUsernameLength && !Text.IsAlnum(StripSeparators(v)) ==>
              r == Err(ValidationError(UsernameCharset))
  {
    if |v| < MinUsernameLength then Err(ValidationError(UsernameTooShort))
    else if !Text.IsAlnum(StripSeparators(v)) then Err(ValidationError(UsernameCharset))
    else Ok(v)
  }

  /** The accepted usernames, described directly: at least three
      characters, each a letter, digit, `_` or `-`, and at least one of them
      a letter or digit. */
  ghost predicate UsernameShape(v: string) {
    && |v| >= MinUsernameLength
    && (forall c :: c in v ==> Text.IsAlnumChar(c) || c == '_' || c == '-')
    && (exists c :: c in v && Text.IsAlnumChar(c))
  }

  lemma ValidateUsernameShape(v: string)
    ensures ValidateUsername(v).Ok? <==> UsernameShape(v)
  {
    var r := StripSeparators(v);
    assert forall c :: c in r <==> c in v && c != '_' && c != '-';
    if ValidateUsername(v).Ok? {
      assert r[0] in v && Text.IsAlnumChar(r[0]);
      forall c | c in v
        ensures Text.IsAlnumChar(c) || c == '_' || c == '-'
      {
        if c != '_' && c != '-' {
          assert c in r;
          var i :| 0 <= i < |r| && r[i] == c;
        }
      }
    }
    if UsernameShape(v) {
      var c :| c in v && Text.IsAlnumChar(c);
      assert c in r;
      assert |r| > 0;
      forall i | 0 <= i < |r|
        ensures Text.IsAlnumChar(r[i])
      {
        assert r[i] in r;
      }
    }
  }

  /** A name made only of `_` and `-` is refused however long it is. */
  lemma SeparatorsOnlyRejected(v: string)
    requires |v| >= MinUsernameLength
    requires forall i :: 0 <= i < |v| ==> v[i] == '_' || v[i] == '-'
    ensures ValidateUsername(v) == Err(ValidationError(UsernameCharset))
  {
    StripSeparatorsOnly(v);
  }

  lemma {:induction false} StripSeparatorsOnly(v: string)
    requires forall i :: 0 <= i < |v| ==> v[i] == '_' || v[i] == '-'
    ensures StripSeparators(v) == ""
  {
    if |v| > 0 {
      StripSeparatorsOnly(v[1..]);
      var rest := Text.Remove(v[1..], '_');
      if v[0] == '_' {
        assert Text.Remove(v, '_') == rest;
      } else {
        assert Text.Remove(v, '_') == "-" + rest;
        assert ("-" + rest)[1..] == rest;
      }
    }
  }

  /** `UserUpdate.validate_username`: an absent username passes; a present
      one follows the create rule. */
  function ValidateOptionalUsername(v: Option<string>): (r: Result<Option<string>, ValidationError>)
    ensures v.None? ==> r == Ok(None)
    ensures v.Some? ==> (r.Ok? <==> ValidateUsername(v.value).Ok?)
    ensures v.Some? && r.Err? ==> r.error == ValidateUsername(v.value).error
    ensures r.Ok? ==> r.value == v
  {
    match v
    case None => Ok(None)
    case Some(name) =>
      match ValidateUsername(name)
      case Ok(_) => Ok(v)
      case Err(e) => Err(e)
  }

  /** `UserBase` defaults: no full name, active. */
  datatype UserFields = UserFields(email: string, username: string, fullName: Option<string>,
                                   isActive: Option<bool>, roleId: Option<int>)

  function UserCreateDefaults(email: string, username: string): (f: UserFields)
    ensures f.fullName.None? && f.isActive == Some(true) && f.roleId.None?
    ensures f.email == email && f.username == username
  {
    UserFields(email, username, None, Some(true), None)
  }

  // ---------------------------------------------------------------------
  // Authentication (schemas/auth.py)
  // ---------------------------------------------------------------------

  /** `UserRegister.validate_username`: at least three characters, all of
      them letters or digits. */
  function ValidateRegisterUsername(v: string): (r: Result<string, ValidationError>)
    ensures r.Ok? <==> |v| >= MinUsernameLength && Text.IsAlnum(v)
    ensures r.Ok? ==> r.value == v
    ensures |v| < MinUsernameLength ==> r == Err(ValidationError(UsernameTooShort))
    ensures |v| >= MinUsernameLength && !Text.IsAlnum(v) ==>
              r == Err(ValidationError(UsernameAlnumOnly))
  {
    if |v| < MinUsernameLength then Err(ValidationError(UsernameTooShort))
    else if !Text.IsAlnum(v) then Err(ValidationError(UsernameAlnumOnly))
    else Ok(v)
  }

  /** Every username registration accepts is accepted by user creation... */
  lemma RegisterUsernameIsCreateUsername(v: string)
    requires ValidateRegisterUsername(v).Ok?
    ensures ValidateUsername(v) == Ok(v)
  {
    assert '_' !in v && '-' !in v;
    Text.RemoveAbsent(v, '_');
    Text.RemoveAbsent(v, '-');
  }

  /** ...but not the other way round: `ab_c` is a valid user name for
      creation and not for registration. */
  lemma CreateUsernameNotRegisterUsername()
    ensures ValidateUsername("ab_c").Ok?
    ensures ValidateRegisterUsername("ab_c").Err?
  {
    assert Text.Remove("ab_c", '_') == "abc" by {
      assert Text.Remove("c", '_') == "c";
      assert Text.Remove("_c", '_') == "c";
      assert Text.Remove("b_c", '_') == "bc";
    }
    assert Text.Remove("abc", '-') == "abc" by {
      Text.RemoveAbsent("abc", '-');
    }
    assert !Text.IsAlnumChar("ab_c"[2]);
  }

  /** `PasswordChangeRequest`: only the new password is checked. */
  function ValidatePasswordChange(current: string, newPassword: string): (r: Result<(string, string), ValidationError>)
    ensures r.Ok? <==> |newPassword| >= MinPasswordLength
    ensures r.Ok? ==> r.value == (current, newPassword)
    ensures r.Err? ==> r.error.message == NewPasswordTooShort
  {
    if |newPassword| < MinPasswordLength then Err(ValidationError(NewPasswordTooShort))
    else Ok((current, newPassword))
  }

  /** The token response and its `token_type` default. */
  datatype TokenResponse = TokenResponse(accessToken: string, refreshToken: string,
                                         tokenType: string, expiresIn: int)

  const DefaultTokenType: string := "bearer"

  function MakeToken(access: string, refresh: string, expiresIn: int): (t: TokenResponse)
    ensures t.tokenType == DefaultTokenType
    ensures t.accessToken == access && t.refreshToken == refresh && t.expiresIn == expiresIn
  {
    TokenResponse(access, refresh, DefaultTokenType, expiresIn)
  }

  // ---------------------------------------------------------------------
  // Metrics (schemas/metrics.py, models/metrics.py)
  // ---------------------------------------------------------------------

  /** The `MetricType` enumeration of the metrics model. */
  datatype MetricType = Performance | Usage | Revenue | Users | System

  function MetricTypeValue(t: MetricType): string {
    match t
    case Performance => "performance"
    case Usage => "usage"
    case Revenue => "revenue"
    case Users => "users"
    case System => "system"
  }

  /** The list the metric validators check against. */
  const AllowedMetricTypes: seq<string> := ["performance", "usage", "revenue", "users", "system"]

  const MetricTypeMessage: string :=
    "Type must be one of: performance, usage, revenue, users, system"

  /** The validators' list names exactly the enumeration's values. */
  lemma AllowedTypesAreEnum()
    ensures forall t: MetricType :: MetricTypeValue(t) in AllowedMetricTypes
    ensures forall v :: v in AllowedMetricTypes ==> exists t: MetricType :: MetricTypeValue(t) == v
    ensures |AllowedMetricTypes| == 5
  {
    assert MetricTypeValue(Performance) == AllowedMetricTypes[0];
    assert MetricTypeValue(Usage) == AllowedMetricTypes[1];
    assert MetricTypeValue(Revenue) == AllowedMetricTypes[2];
    assert MetricTypeValue(Users) == AllowedMetricTypes[3];
    assert MetricTypeValue(System) == AllowedMetricTypes[4];
  }

  /** `MetricCreate.validate_type`: membership, case-sensitive, value kept. */
  function ValidateMetricType(v: string): (r: Result<string, ValidationError>)
    ensures r.Ok? <==> v in AllowedMetricTypes
    ensures r.Ok? ==> r.value == v
    ensures r.Err? ==> r.error.message == MetricTypeMessage
  {
    if v in AllowedMetricTypes then Ok(v) else Err(ValidationError(MetricTypeMessage))
  }

  /** Matching is case-sensitive: a capitalised type is refused. */
  lemma MetricTypeCaseSensitive()
    ensures ValidateMetricType("performance").Ok?
    ensures ValidateMetricType("Performance").Err?
  {
    assert "Performance"[0] != "performance"[0];
    assert "Performance" !in AllowedMetricTypes;
  }

  /** `MetricUpdate.validate_type`: an absent type passes. */
  function ValidateOptionalMetricType(v: Option<string>): (r: Result<Option<string>, ValidationError>)
    ensures v.None? ==> r == Ok(None)
    ensures v.Some? ==> (r.Ok? <==> v.value in AllowedMetricTypes)
    ensures r.Ok? ==> r.value == v
  {
    match v
    case None => Ok(None)
    case Some(t) => if ValidateMetricType(t).Ok? then Ok(v) else Err(ValidationError(MetricTypeMessage))
  }

  // ---------------------------------------------------------------------
  // Logs (schemas/logs.py)
  // ---------------------------------------------------------------------

  const LogLevels: set<string> := {"debug", "info", "warning", "error", "critical"}
  const LogCategories: set<string> := {"auth", "user", "system", "api", "security", "performance"}

  const LevelMessage: string := "Level must be one of: debug, info, warning, error, critical"
  const CategoryMessage: string :=
    "Category must be one of: auth, user, system, api, security, performance"

  /** A value accepted when its lowercase form is in `allowed`, and returned
      lowercased. */
  function ValidateLowered(v: string, allowed: set<string>, message: string)
    : (r: Result<string, ValidationError>)
    ensures r.Ok? <==> Text.Lower(v) in allowed
    ensures r.Ok? ==> r.value == Text.Lower(v) && r.value in allowed
    ensures r.Err? ==> r.error.message == message
  {
    if Text.Lower(v) in allowed then Ok(Text.Lower(v)) else Err(ValidationError(message))
  }

  function ValidateLevel(v: string): (r: Result<string, ValidationError>)
    ensures r.Ok? <==> Text.Lower(v) in LogLevels
    ensures r.Ok? ==> r.value in LogLevels && r.value == Text.Lower(v)
    ensures r.Err? ==> r.error.message == LevelMessage
  {
    ValidateLowered(v, LogLevels, LevelMessage)
  }

  function ValidateCategory(v: string): (r: Result<string, ValidationError>)
    ensures r.Ok? <==> Text.Lower(v) in LogCategories
    ensures r.Ok? ==> r.value in LogCategories && r.value == Text.Lower(v)
    ensures r.Err? ==> r.error.message == CategoryMessage
  {
    ValidateLowered(v, LogCategories, CategoryMessage)
  }

  /** Acceptance ignores case, and validating an accepted value again gives
      it back unchanged. */
  lemma LoweredValidatorLaws(v: string, allowed: set<string>, message: string)
    ensures ValidateLowered(Text.Lower(v), allowed, message) == ValidateLowered(v, allowed, message)
    ensures ValidateLowered(v, allowed, message).Ok? ==>
              var out := ValidateLowered(v, allowed, message).value;
              ValidateLowered(out, allowed, message) == Ok(out)
  {
    Text.LowerIsLowercase(v);
  }

  lemma LevelAndCategoryLaws(v: string)
    ensures ValidateLevel(Text.Lower(v)) == ValidateLevel(v)
    ensures ValidateCategory(Text.Lower(v)) == ValidateCategory(v)
    ensures ValidateLevel(v).Ok? ==> ValidateLevel(ValidateLevel(v).value) == ValidateLevel(v)
    ensures ValidateCategory(v).Ok? ==>
              ValidateCategory(ValidateCategory(v).value) == ValidateCategory(v)
  {
    LoweredValidatorLaws(v, LogLevels, LevelMessage);
    LoweredValidatorLaws(v, LogCategories, CategoryMessage);
  }
}
