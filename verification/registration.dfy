/**
 * The registration rules of rideshare/authentication/serializers.py: the
 * `full_name` and `phone_number` fields of ProfileSerializer, the password
 * chain of UserSerializer.validate and the username rule of
 * UserSerializer.update.
 *
 * Character classes are ASCII: `\s` is space, tab, newline, carriage
 * return, vertical tab and form feed; `\d` is 0-9; `\w` is ASCII letters,
 * digits and underscore.
 */
module Registration {
  import opened Wrappers

  predicate IsSpace(c: char) {
    c == ' ' || c == '\t' || c == '\n' || c == '\r' || c == '\U{B}' || c == '\U{C}'
  }

  predicate IsUpper(c: char) { 'A' <= c <= 'Z' }
  predicate IsLower(c: char) { 'a' <= c <= 'z' }
  predicate IsDigit(c: char) { '0' <= c <= '9' }
  predicate IsWord(c: char) { IsUpper(c) || IsLower(c) || IsDigit(c) || c == '_' }

  // -----------------------------------------------------------------------
  // Whitespace trimming of the serializer's character fields
  // -----------------------------------------------------------------------

  /** Drops the leading whitespace: what is left is a suffix that does not start with whitespace. */
  function StripLeading(s: string): (r: string)
    ensures |r| <= |s| && r == s[|s| - |r|..]
    ensures forall i :: 0 <= i < |s| - |r| ==> IsSpace(s[i])
    ensures r != [] ==> !IsSpace(r[0])
  {
    if s != [] && IsSpace(s[0]) then
      var r := StripLeading(s[1..]);
      assert forall i :: 1 <= i < |s| ==> s[i] == s[1..][i - 1];
      r
    else s
  }

  /** Drops the trailing whitespace: what is left is a prefix that does not end with whitespace. */
  function StripTrailing(s: string): (r: string)
    ensures |r| <= |s| && r == s[..|r|]
    ensures forall i :: |r| <= i < |s| ==> IsSpace(s[i])
    ensures r != [] ==> !IsSpace(r[|r| - 1])
  {
    if s != [] && IsSpace(s[|s| - 1]) then
      var r := StripTrailing(s[..|s| - 1]);
      assert forall i :: 0 <= i < |s| - 1 ==> s[i] == s[..|s| - 1][i];
      r
    else s
  }

  /** `str.strip()`: a contiguous slice of the input with whitespace at neither end. */
  function Strip(s: string): (r: string)
    ensures r != [] ==> !IsSpace(r[0]) && !IsSpace(r[|r| - 1])
    ensures var start := |s| - |StripLeading(s)|;
            && start + |r| <= |s|
            && r == s[start..start + |r|]
            && (forall i :: 0 <= i < start ==> IsSpace(s[i]))
            && (forall i :: start + |r| <= i < |s| ==> IsSpace(s[i]))
  {
    StripTrailing(StripLeading(s))
  }

  /** Stripping twice is stripping once. */
  lemma StripIdempotent(s: string)
    ensures Strip(Strip(s)) == Strip(s)
  {
  }

  // -----------------------------------------------------------------------
  // full_name and phone_number
  // -----------------------------------------------------------------------

  /** The failures a character field reports; all failing validators are reported together. */
  datatype FieldError = Required | Blank | TooLong | TooShort | PatternMismatch | NullCharacter | AlreadyRegistered

  predicate HasNull(v: string) {
    exists i :: 0 <= i < |v| && v[i] == '\0'
  }

  /** `^[a-zA-Z\s]+$`. */
  predicate LettersAndSpaces(v: string) {
    v != [] && forall i :: 0 <= i < |v| ==> IsUpper(v[i]) || IsLower(v[i]) || IsSpace(v[i])
  }

  /** `^[0-9]*$`. */
  predicate DigitsOnly(v: string) {
    forall i :: 0 <= i < |v| ==> IsDigit(v[i])
  }

  function ErrorsOr(v: string, errors: set<FieldError>): Result<string, set<FieldError>> {
    if errors == {} then Ok(v) else Err(errors)
  }

  /**
   * The `full_name` field: required, trimmed, not blank, then the letters
   * regex and the lengths 2..100 are all checked.
   */
  function CleanFullName(raw: Option<string>): (r: Result<string, set<FieldError>>)
    ensures raw.None? ==> r == Err({Required})
  {
    match raw
    case None => Err({Required})
    case Some(s) =>
      var v := Strip(s);
      if v == [] then Err({Blank})
      else ErrorsOr(v, (if LettersAndSpaces(v) then {} else {PatternMismatch})
                     + (if |v| > 100 then {TooLong} else {})
                     + (if |v| < 2 then {TooShort} else {})
                     + (if HasNull(v) then {NullCharacter} else {}))
  }

  /** A full name is accepted exactly when its trimmed text has 2 to 100 characters, all ASCII letters or whitespace. */
  lemma FullNameAccepted(s: string)
    ensures CleanFullName(Some(s)).Ok? <==>
              2 <= |Strip(s)| <= 100 &&
              forall i :: 0 <= i < |Strip(s)| ==> IsUpper(Strip(s)[i]) || IsLower(Strip(s)[i]) || IsSpace(Strip(s)[i])
    ensures CleanFullName(Some(s)).Ok? ==> CleanFullName(Some(s)).value == Strip(s)
  {
    var v := Strip(s);
    if 2 <= |v| <= 100 && LettersAndSpaces(v) {
      forall i | 0 <= i < |v|
        ensures v[i] != '\0'
      {
        assert IsUpper(v[i]) || IsLower(v[i]) || IsSpace(v[i]);
      }
      assert CleanFullName(Some(s)) == Ok(v);
    } else if v != [] {
      assert CleanFullName(Some(s)).Err?;
    }
  }

  /** Cleaning an accepted full name again accepts it unchanged. */
  lemma FullNameCleanIdempotent(s: string)
    requires CleanFullName(Some(s)).Ok?
    ensures CleanFullName(Some(CleanFullName(Some(s)).value)) == CleanFullName(Some(s))
  {
    var v := Strip(s);
    FullNameAccepted(s);
    StripIdempotent(s);
    FullNameAccepted(v);
  }

  /**
   * The `phone_number` field: required, trimmed, not blank, then the digits
   * regex, uniqueness among the registered numbers and the lengths 10..10
   * are all checked.
   */
  function CleanPhoneNumber(raw: Option<string>, registered: set<string>): (r: Result<string, set<FieldError>>)
    ensures raw.None? ==> r == Err({Required})
  {
    match raw
    case None => Err({Required})
    case Some(s) =>
      var v := Strip(s);
      if v == [] then Err({Blank})
      else ErrorsOr(v, (if DigitsOnly(v) then {} else {PatternMismatch})
                     + (if v in registered then {AlreadyRegistered} else {})
                     + (if |v| > 10 then {TooLong} else {})
                     + (if |v| < 10 then {TooShort} else {})
                     + (if HasNull(v) then {NullCharacter} else {}))
  }

  /** A phone number is accepted exactly when its trimmed text is ten ASCII digits not already registered. */
  lemma PhoneNumberAccepted(s: string, registered: set<string>)
    ensures CleanPhoneNumber(Some(s), registered).Ok? <==>
              |Strip(s)| == 10 && DigitsOnly(Strip(s)) && Strip(s) !in registered
    ensures CleanPhoneNumber(Some(s), registered).Ok? ==> CleanPhoneNumber(Some(s), registered).value == Strip(s)
  {
  }

  /** Cleaning an accepted phone number again accepts it unchanged. */
  lemma PhoneNumberCleanIdempotent(s: string, registered: set<string>)
    requires CleanPhoneNumber(Some(s), registered).Ok?
    ensures CleanPhoneNumber(Some(CleanPhoneNumber(Some(s), registered).value), registered)
            == CleanPhoneNumber(Some(s), registered)
  {
    var v := Strip(s);
    PhoneNumberAccepted(s, registered);
    StripIdempotent(s);
    PhoneNumberAccepted(v, registered);
  }

  // -----------------------------------------------------------------------
  // Password chain
  // -----------------------------------------------------------------------

  /** The six checks of `validate`, each named by what it requires. */
  datatype PasswordCheck = Confirmed | LongEnough | HasUpper | HasLower | HasDigit | HasSpecial

  /** The order in which `validate` runs the checks. */
  const CheckOrder: seq<PasswordCheck> := [Confirmed, LongEnough, HasUpper, HasLower, HasDigit, HasSpecial]

  predicate ContainsUpper(s: string) { exists i :: 0 <= i < |s| && IsUpper(s[i]) }
  predicate ContainsLower(s: string) { exists i :: 0 <= i < |s| && IsLower(s[i]) }
  predicate ContainsDigit(s: string) { exists i :: 0 <= i < |s| && IsDigit(s[i]) }
  /** A character matched by `\W` that is not whitespace, i.e. `[^\w\s]`. */
  predicate ContainsSpecial(s: string) { exists i :: 0 <= i < |s| && !IsWord(s[i]) && !IsSpace(s[i]) }

  predicate Passes(c: PasswordCheck, password: string, confirmPassword: Option<string>) {
    match c
    case Confirmed => confirmPassword == Some(password)
    case LongEnough => |password| >= 8
    case HasUpper => ContainsUpper(password)
    case HasLower => ContainsLower(password)
    case HasDigit => ContainsDigit(password)
    case HasSpecial => ContainsSpecial(password)
  }

  /** The single error `validate` raises: the field it is keyed by and its message. */
  datatype ValidationError = ValidationError(field: string, message: string)

  function ErrorOf(c: PasswordCheck): ValidationError {
    match c
    case Confirmed => ValidationError("confirm_password", "Password and confirm password do not match.")
    case LongEnough => ValidationError("password", "Password must be at least 8 characters long.")
    case HasUpper => ValidationError("password", "Password must contain at least one uppercase letter.")
    case HasLower => ValidationError("password", "Password must contain at least one lowercase letter.")
    case HasDigit => ValidationError("password", "Password must contain at least one digit.")
    case HasSpecial => ValidationError("password", "Password must contain at least one special character.")
  }

  /**
   * `UserSerializer.validate`: `password` comes from the validated data
   * (the model serializer requires it), `confirm_password` from the raw
   * request data, where it may be missing. The data is returned unchanged
   * when every check passes.
   */
  function ValidateUser(data: map<string, string>, confirmPassword: Option<string>)
    : (r: Result<map<string, string>, ValidationError>)
    requires "password" in data
    ensures r.Ok? ==> r.value == data
    ensures confirmPassword != Some(data["password"]) ==> r == Err(ErrorOf(Confirmed))
  {
    var password := data["password"];
    if Some(password) != confirmPassword then Err(ErrorOf(Confirmed))
    else if |password| < 8 then Err(ErrorOf(LongEnough))
    else if !Passes(HasUpper, password, confirmPassword) then Err(ErrorOf(HasUpper))
    else if !Passes(HasLower, password, confirmPassword) then Err(ErrorOf(HasLower))
    else if !Passes(HasDigit, password, confirmPassword) then Err(ErrorOf(HasDigit))
    else if !Passes(HasSpecial, password, confirmPassword) then Err(ErrorOf(HasSpecial))
    else Ok(data)
  }

  /**
   * The reported error is that of the first failing check in CheckOrder,
   * and the data passes exactly when no check fails.
   */
  lemma ValidateReportsFirstFailure(data: map<string, string>, confirmPassword: Option<string>)
    requires "password" in data
    ensures ValidateUser(data, confirmPassword).Ok? <==>
              forall n :: 0 <= n < |CheckOrder| ==> Passes(CheckOrder[n], data["password"], confirmPassword)
    ensures ValidateUser(data, confirmPassword).Err? ==>
              exists n :: 0 <= n < |CheckOrder|
                && !Passes(CheckOrder[n], data["password"], confirmPassword)
                && (forall m :: 0 <= m < n ==> Passes(CheckOrder[m], data["password"], confirmPassword))
                && ValidateUser(data, confirmPassword).error == ErrorOf(CheckOrder[n])
  {
    var k := FirstFailure(data["password"], confirmPassword);
    ValidateStopsAt(data, confirmPassword, k);
    if k < |CheckOrder| {
      assert !Passes(CheckOrder[k], data["password"], confirmPassword);
    }
  }

  /** The index of the first check in CheckOrder that fails, or |CheckOrder| when all pass. */
  lemma FirstFailure(pw: string, c: Option<string>) returns (k: nat)
    ensures k <= |CheckOrder|
    ensures k < |CheckOrder| ==> !Passes(CheckOrder[k], pw, c)
    ensures forall m :: 0 <= m < k ==> Passes(CheckOrder[m], pw, c)
  {
    k := 0;
    while k < |CheckOrder| && Passes(CheckOrder[k], pw, c)
      invariant k <= |CheckOrder|
      invariant forall m :: 0 <= m < k ==> Passes(CheckOrder[m], pw, c)
    {
      k := k + 1;
    }
  }

  /** ValidateUser stops at check `k` when it is the first that fails. */
  lemma ValidateStopsAt(data: map<string, string>, c: Option<string>, k: nat)
    requires "password" in data && k <= |CheckOrder|
    requires k < |CheckOrder| ==> !Passes(CheckOrder[k], data["password"], c)
    requires forall m :: 0 <= m < k ==> Passes(CheckOrder[m], data["password"], c)
    ensures k == |CheckOrder| <==> ValidateUser(data, c).Ok?
    ensures k < |CheckOrder| ==> ValidateUser(data, c) == Err(ErrorOf(CheckOrder[k]))
  {
    var pw := data["password"];
    assert CheckOrder[0] == Confirmed && CheckOrder[1] == LongEnough && CheckOrder[2] == HasUpper;
    assert CheckOrder[3] == HasLower && CheckOrder[4] == HasDigit && CheckOrder[5] == HasSpecial;
    if k == 0 {
    } else if k == 1 {
      assert Passes(CheckOrder[0], pw, c);
    } else if k == 2 {
      assert Passes(CheckOrder[0], pw, c) && Passes(CheckOrder[1], pw, c);
    } else {
      assert Passes(CheckOrder[0], pw, c) && Passes(CheckOrder[1], pw, c) && Passes(CheckOrder[2], pw, c);
      if k > 3 {
        assert Passes(CheckOrder[3], pw, c);
      }
      if k > 4 {
        assert Passes(CheckOrder[4], pw, c);
      }
      if k > 5 {
        assert Passes(CheckOrder[5], pw, c);
      }
    }
  }

  /** Only a password of at least 8 characters with all four character classes and a matching confirmation passes. */
  lemma AcceptedPasswordIsStrong(data: map<string, string>, confirmPassword: Option<string>)
    requires "password" in data && ValidateUser(data, confirmPassword).Ok?
    ensures confirmPassword == Some(data["password"]) && |data["password"]| >= 8
    ensures ContainsUpper(data["password"]) && ContainsLower(data["password"]) && ContainsDigit(data["password"])
    ensures exists i :: 0 <= i < |data["password"]| && !IsWord(data["password"][i]) && !IsSpace(data["password"][i])
  {
  }

  // -----------------------------------------------------------------------
  // update
  // -----------------------------------------------------------------------

  /** The `KeyError` raised when the validated data has no `email`. */
  datatype KeyError = KeyError(key: string)

  /**
   * `UserSerializer.update`: forces `username` to the email, hashes a given
   * password with `makePassword`, then writes every validated entry onto
   * the stored user's fields.
   */
  function UpdateUser(user: map<string, string>, validatedData: map<string, string>,
                      makePassword: string -> string)
    : (r: Result<map<string, string>, KeyError>)
    ensures r.Err? <==> "email" !in validatedData
    ensures r.Err? ==> r.error == KeyError("email")
    ensures r.Ok? ==>
              && r.value.Keys == user.Keys + validatedData.Keys + {"username"}
              && r.value["username"] == validatedData["email"] == r.value["email"]
              && ("password" in validatedData ==> r.value["password"] == makePassword(validatedData["password"]))
              && (forall k :: k in validatedData && k != "username" && k != "password" ==> r.value[k] == validatedData[k])
              && (forall k :: k in user && k !in validatedData && k != "username" ==> r.value[k] == user[k])
  {
    if "email" !in validatedData then Err(KeyError("email"))
    else
      var withUsername := validatedData["username" := validatedData["email"]];
      var prepared := if "password" in withUsername
                      then withUsername["password" := makePassword(withUsername["password"])]
                      else withUsername;
      Ok(user + prepared)
  }
}
