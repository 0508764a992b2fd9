/**
  The registration page (app/auth/register/page.tsx): the checks `handleSubmit` makes
  before calling `registerUser`, and what the page shows for the action's answer.
 */
module RegisterPage {
  import opened Wrappers
  import opened Text
  import opened Identifiers
  import opened Store
  import opened AuthActions

  const FillAllFields: string := "Please fill in all fields"
  const PasswordsDiffer: string := "Passwords do not match"
  const PasswordTooShort: string := "Password must be at least 8 characters long"
  const RegistrationFailed: string := "Registration failed. Please try again."
  const VerifyEmailPage: string := "/auth/verify-email"

  /** `password.length < 8` is the refusal, so eight UTF-16 code units are enough. */
  const MinPasswordLength: nat := 8

  /** The outcome of the checks: a message to show, or the arguments `registerUser` gets. */
  datatype Verdict = Refused(message: string) | Proceed(email: string, password: string, fullName: string)

  /**
    The checks in source order: any field empty after trimming, then the two passwords
    differing, then the password (untrimmed) being too short. The values are passed on as typed.
   */
  function Validate(fullName: string, email: string, password: string, confirmPassword: string): (v: Verdict)
    ensures v.Proceed? <==>
              && !Blank(fullName) && !Blank(email) && !Blank(password) && !Blank(confirmPassword)
              && password == confirmPassword && Utf16Length(password) >= MinPasswordLength
    ensures v.Proceed? ==> v == Proceed(email, password, fullName)
    ensures Blank(fullName) || Blank(email) || Blank(password) || Blank(confirmPassword) ==> v == Refused(FillAllFields)
    ensures !Blank(fullName) && !Blank(email) && !Blank(password) && !Blank(confirmPassword) && password != confirmPassword
            ==> v == Refused(PasswordsDiffer)
    ensures && !Blank(fullName) && !Blank(email) && !Blank(password) && !Blank(confirmPassword)
            && password == confirmPassword && Utf16Length(password) < MinPasswordLength
            ==> v == Refused(PasswordTooShort)
  {
    TrimEmptyIffBlank(fullName);
    TrimEmptyIffBlank(email);
    TrimEmptyIffBlank(password);
    TrimEmptyIffBlank(confirmPassword);
    if Trim(fullName) == "" || Trim(email) == "" || Trim(password) == "" || Trim(confirmPassword) == "" then
      Refused(FillAllFields)
    else if password != confirmPassword then Refused(PasswordsDiffer)
    else if Utf16Length(password) < MinPasswordLength then Refused(PasswordTooShort)
    else Proceed(email, password, fullName)
  }

  /** A mismatch is reported before the length, so a short mistyped confirmation reads "do not match". */
  lemma MismatchBeforeLength()
    ensures Validate("Ann", "ann@uni.lk", "abc", "abd") == Refused(PasswordsDiffer)
  {
    assert "abc" != "abd" by { assert "abc"[2] != "abd"[2]; }
    assert !Blank("Ann") by { assert !IsJsSpace("Ann"[0]); }
    assert !Blank("ann@uni.lk") by { assert !IsJsSpace("ann@uni.lk"[0]); }
    assert !Blank("abc") by { assert !IsJsSpace("abc"[0]); }
    assert !Blank("abd") by { assert !IsJsSpace("abd"[0]); }
  }

  /** The length is that of the untrimmed password: seven spaces and one letter pass. */
  lemma LengthCountsSpaces()
    ensures Validate("Ann", "ann@uni.lk", "       x", "       x") == Proceed("ann@uni.lk", "       x", "Ann")
  {
    assert !Blank("Ann") by { assert !IsJsSpace("Ann"[0]); }
    assert !Blank("ann@uni.lk") by { assert !IsJsSpace("ann@uni.lk"[0]); }
    assert !Blank("       x") by { assert !IsJsSpace("       x"[7]); }
    Utf16LengthBmp("       x");
  }

  /** Four characters outside the Basic Multilingual Plane are eight code units, and pass. */
  lemma AstralCharactersCountTwice()
    ensures Utf16Length("\U{1F600}\U{1F600}\U{1F600}\U{1F600}") == 8
  {
    Utf16LengthAstral("\U{1F600}\U{1F600}\U{1F600}\U{1F600}");
  }

  /** What `registerUser` answered: a (possibly missing) token, or a (possibly empty) error. */
  datatype RegisterResponse = Registered(token: Option<string>) | Failed(error: Option<string>)

  /** The action's result as the page receives it; `dbMessage` is the database error's text. */
  function Response(r: Result<string, Error>, dbMessage: string): RegisterResponse {
    match r
    case Ok(token) => Registered(Some(token))
    case Err(Msg(text)) => Failed(Some(text))
    case Err(DbError(_)) => Failed(Some(dbMessage))
  }

  datatype Screen = ShowError(message: string) | ShowToken(token: string) | Navigate(path: string)

  /** After a call: the token screen when a token came back, else the verify page; or the error. */
  function AfterRegister(response: RegisterResponse): (s: Screen)
    ensures s.ShowToken? <==> response.Registered? && response.token.Some? && response.token.value != ""
    ensures s.ShowToken? ==> s.token == response.token.value
    ensures s.ShowError? <==> response.Failed?
    ensures s.ShowError? && response.error.Some? && response.error.value != "" ==> s.message == response.error.value
  {
    match response
    case Registered(token) => if token.Some? && token.value != "" then ShowToken(token.value) else Navigate(VerifyEmailPage)
    case Failed(e) => ShowError(if e.Some? && e.value != "" then e.value else RegistrationFailed)
  }

  /**
    `handleSubmit` end to end: a refused form changes nothing and calls nothing; an accepted
    one registers the typed e-mail and name, and a successful registration always reaches
    the token screen with the token stored for the new account.
   */
  function HandleSubmit(db: Db, fullName: string, email: string, password: string, confirmPassword: string,
                        hash: string -> string, tokenBytes: seq<byte>, newId: string, fault: bool, dbMessage: string): (r: (Screen, Db))
    requires |tokenBytes| == 32
    ensures Validate(fullName, email, password, confirmPassword).Refused? ==>
              r == (ShowError(Validate(fullName, email, password, confirmPassword).message), db)
    ensures r.0.ShowToken? ==>
              && |r.1.users| == |db.users| + 1
              && r.1.users[|db.users|].email == email && r.1.users[|db.users|].full_name == fullName
              && r.1.users[|db.users|].verification_token == Some(r.0.token)
              && HexDecode(r.0.token) == Some(tokenBytes)
    ensures !r.0.ShowToken? ==> r.1 == db
    ensures !r.0.Navigate?
    ensures Validate(fullName, email, password, confirmPassword).Proceed? && !HasUserEmail(db.users, email)
            && !HasUserId(db.users, newId) && !fault ==>
              r.0 == ShowToken(VerificationToken(tokenBytes))
  {
    match Validate(fullName, email, password, confirmPassword)
    case Refused(message) => (ShowError(message), db)
    case Proceed(e, p, n) =>
      var (res, db') := RegisterUser(db, e, hash(p), n, tokenBytes, newId, fault);
      (AfterRegister(Response(res, dbMessage)), db')
  }
}
