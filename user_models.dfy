/** The sign-up record of the user account service and its field rules. */
module UserModels {
  import opened Wrappers
  import opened Strings

  const UsernameMinLength := 3
  const UsernameMaxLength := 50
  const PasswordMinLength := 8

  /** A validated sign-up request. */
  datatype UserCreate = UserCreate(username: string, password: string)

  /** One failed field rule. */
  datatype UserCreateError =
    | UsernameTooShort
    | UsernameTooLong
    | PasswordTooShort
    | PasswordWithoutDigit

  /** `re.search(r"[0-9]", s)` finds a match. */
  function ContainsDigit(s: string): (b: bool)
    ensures b <==> exists i | 0 <= i < |s| :: IsAsciiDigit(s[i])
  {
    if s == [] then false else IsAsciiDigit(s[0]) || ContainsDigit(s[1..])
  }

  /**
   * The password validator: the length test, then the digit search.  The
   * upper-case, lower-case and special-character rules are switched off in
   * the service, so they are not part of it.
   */
  function ValidatePassword(value: string): (r: Result<string, UserCreateError>)
    ensures r.Ok? <==> |value| >= PasswordMinLength && (exists i | 0 <= i < |value| :: IsAsciiDigit(value[i]))
    ensures r.Ok? ==> r.value == value
    ensures |value| < PasswordMinLength ==> r == Err(PasswordTooShort)
    ensures |value| >= PasswordMinLength && r.Err? ==> r == Err(PasswordWithoutDigit)
  {
    if |value| < PasswordMinLength then Err(PasswordTooShort)
    else if !ContainsDigit(value) then Err(PasswordWithoutDigit)
    else Ok(value)
  }

  function UsernameErrors(username: string): set<UserCreateError> {
    (if |username| < UsernameMinLength then {UsernameTooShort} else {})
    + (if |username| > UsernameMaxLength then {UsernameTooLong} else {})
  }

  /**
   * Building a `UserCreate`: every field is checked and every failure is
   * reported; the record holds the fields unchanged.
   */
  function ValidateUserCreate(username: string, password: string): (r: Result<UserCreate, set<UserCreateError>>)
    ensures r.Ok? <==> UsernameMinLength <= |username| <= UsernameMaxLength && ValidatePassword(password).Ok?
    ensures r.Ok? ==> r.value == UserCreate(username, password)
    ensures r.Err? ==> r.error != {}
    ensures r.Err? ==> (UsernameTooShort in r.error <==> |username| < UsernameMinLength)
    ensures r.Err? ==> (UsernameTooLong in r.error <==> |username| > UsernameMaxLength)
    ensures r.Err? ==> (PasswordTooShort in r.error <==> |password| < PasswordMinLength)
    ensures r.Err? ==> (PasswordWithoutDigit in r.error <==> |password| >= PasswordMinLength && !ContainsDigit(password))
  {
    var errors := UsernameErrors(username)
      + (match ValidatePassword(password) case Ok(_) => {} case Err(e) => {e});
    if errors == {} then Ok(UserCreate(username, password)) else Err(errors)
  }
}
