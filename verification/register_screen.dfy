/**
 * The sign-up form's client-side checks: a chain of early returns, each with
 * its own message, and the password rule it shares with the server.
 */
module RegisterScreen {
  import opened Common
  import opened PasswordRule
  import Auth

  datatype RegisterError =
    | MissingField       // "Tutti i campi sono obbligatori"
    | UsernameTooShort   // "... almeno 3 caratteri"
    | PasswordMismatch   // "Le password non corrispondono"
    | PasswordTooShort   // "... almeno 8 caratteri"
    | PasswordTooWeak    // "... una lettera maiuscola, una minuscola e un numero o carattere speciale"

  datatype RegisterForm = RegisterForm(username: string, email: string, password: string, confirmPassword: string)

  /** `isPasswordValid()`: the same pattern the server's DTO uses. */
  function IsPasswordValid(password: string): (b: bool)
    ensures b ==> HasRequiredClasses(password)
    // on one line and without a leading '.', the rule is just the three classes
    ensures SingleLine(password) && (password == [] || password[0] != '.') ==>
              (b <==> HasRequiredClasses(password))
  {
    if SingleLine(password) && (password == [] || password[0] != '.') then
      PlainPasswordMatches(password);
      Matches(password)
    else
      Matches(password)
  }

  /**
   * `handleRegister()`: the error it shows, or `None` when it goes on to
   * `signUp`. Each error is reported only when every earlier check passed.
   * The two length checks read JavaScript's `.length`, in UTF-16 code units.
   */
  function HandleRegister(f: RegisterForm): (err: Option<RegisterError>)
    ensures err == Some(MissingField) <==>
              f.username == "" || f.email == "" || f.password == "" || f.confirmPassword == ""
    ensures err == Some(UsernameTooShort) <==>
              f.username != "" && f.email != "" && f.password != "" && f.confirmPassword != ""
              && Utf16Length(f.username) < 3
    ensures err == Some(PasswordMismatch) <==>
              f.username != "" && f.email != "" && f.password != "" && f.confirmPassword != ""
              && Utf16Length(f.username) >= 3 && f.password != f.confirmPassword
    ensures err == Some(PasswordTooShort) <==>
              f.username != "" && f.email != "" && f.password != "" && Utf16Length(f.username) >= 3
              && f.password == f.confirmPassword && Utf16Length(f.password) < 8
    ensures err == Some(PasswordTooWeak) <==>
              f.username != "" && f.email != "" && Utf16Length(f.username) >= 3
              && f.password == f.confirmPassword && Utf16Length(f.password) >= 8 && !Matches(f.password)
    ensures err == None <==>
              f.email != "" && Utf16Length(f.username) >= 3 && f.password == f.confirmPassword
              && Utf16Length(f.password) >= 8 && Matches(f.password)
  {
    if f.username == "" || f.email == "" || f.password == "" || f.confirmPassword == "" then Some(MissingField)
    else if Utf16Length(f.username) < 3 then Some(UsernameTooShort)
    else if f.password != f.confirmPassword then Some(PasswordMismatch)
    else if Utf16Length(f.password) < 8 then Some(PasswordTooShort)
    else if !IsPasswordValid(f.password) then Some(PasswordTooWeak)
    else None
  }

  /**
   * A form the screen sends on is one the server's validation accepts, when no
   * character of the name or the password lies above U+FFFF.
   */
  lemma ClientAcceptanceImpliesServerValid(f: RegisterForm)
    requires HandleRegister(f) == None
    requires InBmp(f.username) && InBmp(f.password)
    ensures Auth.RegisterDtoValid(Auth.RegisterDto(f.username, f.email, f.password))
  {
  }

  /** And the converse: a body the server accepts, typed twice, passes every client check. */
  lemma ServerValidPassesClient(dto: Auth.RegisterDto)
    requires Auth.RegisterDtoValid(dto)
    ensures HandleRegister(RegisterForm(dto.username, dto.email, dto.password, dto.password)) == None
  {
  }

  /**
   * The screen counts UTF-16 code units and the server's `MinLength` counts a
   * surrogate pair once: "Aa1b" and two emoji is 8 units long and passes the
   * screen, but it is 6 characters long and the server refuses it.
   */
  /** "Aa1b" followed by two U+1F600 emoji. */
  const AstralPassword: string := "Aa1b\U{1F600}\U{1F600}"

  lemma AstralPasswordPassesClientOnly(f: RegisterForm)
    requires f == RegisterForm("mario", "m@x.it", AstralPassword, AstralPassword)
    ensures HandleRegister(f) == None
    ensures !Auth.RegisterDtoValid(Auth.RegisterDto(f.username, f.email, f.password))
  {
    EmojiPasswordLength(f.password);
    EmojiPasswordMatches(f.password);
    assert Utf16Length(f.username) >= 5;
  }

  lemma EmojiPasswordLength(pw: string)
    requires pw == AstralPassword
    ensures |pw| == 6 && Utf16Length(pw) == 8
  {
    assert Utf16Length(pw[6..]) == 0;
    assert Utf16Length(pw[5..]) == 2;
    assert Utf16Length(pw[4..]) == 4;
    assert Utf16Length(pw[3..]) == 5;
    assert Utf16Length(pw[2..]) == 6;
    assert Utf16Length(pw[1..]) == 7;
  }

  lemma EmojiPasswordMatches(pw: string)
    requires pw == AstralPassword
    ensures Matches(pw)
  {
    assert SingleLine(pw);
    assert IsUpper(pw[0]) && IsLower(pw[1]) && IsDigit(pw[2]);
    PlainPasswordMatches(pw);
  }

  /** `handleRegister()` with both lengths counted in characters, as the server counts them. */
  function HandleRegisterCorrected(f: RegisterForm): (err: Option<RegisterError>)
    // it sends on exactly the forms whose body the server accepts
    ensures err == None <==>
              f.password == f.confirmPassword
              && Auth.RegisterDtoValid(Auth.RegisterDto(f.username, f.email, f.password))
    // on text without characters above U+FFFF it is the screen's check
    ensures InBmp(f.username) && InBmp(f.password) ==> err == HandleRegister(f)
  {
    if f.username == "" || f.email == "" || f.password == "" || f.confirmPassword == "" then Some(MissingField)
    else if |f.username| < 3 then Some(UsernameTooShort)
    else if f.password != f.confirmPassword then Some(PasswordMismatch)
    else if |f.password| < 8 then Some(PasswordTooShort)
    else if !IsPasswordValid(f.password) then Some(PasswordTooWeak)
    else None
  }
}
