/**
 * The login screen's form logic: field validation (trim, blank checks, the email pattern, the
 * minimum password length) and the login attempt it guards.
 */
module Login {
  import opened Wrappers
  import opened DeliveryTypes
  import opened Auth

  const EmailRequiredMessage := "El correo electrónico es requerido"
  const EmailInvalidMessage := "Ingrese un correo electrónico válido"
  const PasswordRequiredMessage := "La contraseña es requerida"
  const PasswordTooShortMessage := "La contraseña debe tener al menos 6 caracteres"

  /** The shortest password the form accepts. */
  const MinPasswordLength := 6

  /**
   * The characters JavaScript treats as white space (WhiteSpace and LineTerminator): what
   * `trim` strips and what `\s` matches, so `\S` is any other character.
   */
  predicate IsSpace(c: char)
  {
    || c == '\t' || c == '\n' || c == '\U{000B}' || c == '\U{000C}' || c == '\r' || c == ' '
    || c == '\U{00A0}' || c == '\U{1680}' || ('\U{2000}' <= c <= '\U{200A}')
    || c == '\U{2028}' || c == '\U{2029}' || c == '\U{202F}' || c == '\U{205F}'
    || c == '\U{3000}' || c == '\U{FEFF}'
  }

  /** Every character is white space (true of the empty string). */
  predicate Blank(s: string)
  {
    forall i :: 0 <= i < |s| ==> IsSpace(s[i])
  }

  /** No character is white space. */
  predicate NonSpace(s: string)
  {
    forall i :: 0 <= i < |s| ==> !IsSpace(s[i])
  }

  /** Leading white space removed. */
  function TrimStart(s: string): string
  {
    if s != [] && IsSpace(s[0]) then TrimStart(s[1..]) else s
  }

  /** Trailing white space removed. */
  function TrimEnd(s: string): string
  {
    if s != [] && IsSpace(s[|s| - 1]) then TrimEnd(s[..|s| - 1]) else s
  }

  /** TrimStart keeps a suffix: the dropped prefix is blank and the rest does not start with a space. */
  lemma {:induction false} TrimStartDropsBlankPrefix(s: string)
    ensures var r := TrimStart(s);
      && |r| <= |s| && r == s[|s| - |r|..]
      && Blank(s[..|s| - |r|])
      && (r != [] ==> !IsSpace(r[0]))
    decreases |s|
  {
    if s != [] && IsSpace(s[0]) {
      var r := TrimStart(s[1..]);
      TrimStartDropsBlankPrefix(s[1..]);
      assert s[1..][..|s| - 1 - |r|] == s[1..|s| - |r|];
    }
  }

  /** TrimEnd keeps a prefix: the dropped suffix is blank and the rest does not end with a space. */
  lemma {:induction false} TrimEndDropsBlankSuffix(s: string)
    ensures var r := TrimEnd(s);
      && |r| <= |s| && r == s[..|r|]
      && Blank(s[|r|..])
      && (r != [] ==> !IsSpace(r[|r| - 1]))
    decreases |s|
  {
    if s != [] && IsSpace(s[|s| - 1]) {
      var r := TrimEnd(s[..|s| - 1]);
      TrimEndDropsBlankSuffix(s[..|s| - 1]);
      assert s[..|s| - 1][..|r|] == s[..|r|];
      forall i | |r| <= i < |s|
        ensures IsSpace(s[i])
      {
        if i < |s| - 1 {
          assert s[..|s| - 1][|r|..][i - |r|] == s[i];
        }
      }
    }
  }

  /** `String.prototype.trim`. */
  function Trim(s: string): (r: string)
  {
    TrimEnd(TrimStart(s))
  }

  /** `!s.trim()` holds exactly for blank strings. */
  lemma TrimEmptyIffBlank(s: string)
    ensures Trim(s) == "" <==> Blank(s)
  {
    var t := TrimStart(s);
    TrimStartDropsBlankPrefix(s);
    TrimEndDropsBlankSuffix(t);
    if Trim(s) == "" {
      assert t[|Trim(s)|..] == t;
      assert t == [];
      assert s[..|s|] == s;
    } else {
      var r := Trim(s);
      assert r == t[..|r|];
      assert t[0] == r[0];
      assert t == s[|s| - |t|..];
      assert s[|s| - |t|] == t[0];
    }
  }

  /**
   * A whole string that `\S+@\S+\.\S+` matches: non-space throughout, with an '@' after at least
   * one character and a later '.' with at least one character on each side.
   */
  predicate EmailShaped(w: string)
  {
    NonSpace(w) && exists p, q :: 0 < p && p + 1 < q && q + 1 < |w| && w[p] == '@' && w[q] == '.'
  }

  /** `/\S+@\S+\.\S+/.test(s)`: the pattern is not anchored, so some substring must match. */
  predicate MatchesEmailPattern(s: string)
  {
    exists i, j :: 0 <= i <= j <= |s| && EmailShaped(s[i..j])
  }

  /**
   * The pattern matches exactly when some '@' and a later '.' are at least two apart, and the
   * characters from the one before the '@' to the one after the '.' are all non-space.
   */
  lemma EmailPatternLocal(s: string)
    ensures MatchesEmailPattern(s) <==>
      exists p, q :: 0 < p && p + 1 < q && q + 1 < |s| && s[p] == '@' && s[q] == '.' && NonSpace(s[p - 1..q + 2])
  {
    if MatchesEmailPattern(s) {
      var i, j :| 0 <= i <= j <= |s| && EmailShaped(s[i..j]);
      var w := s[i..j];
      var p, q :| 0 < p && p + 1 < q && q + 1 < |w| && w[p] == '@' && w[q] == '.';
      assert s[i + p] == '@' && s[i + q] == '.';
      var sub := s[i + p - 1..i + q + 2];
      forall k | 0 <= k < |sub|
        ensures !IsSpace(sub[k])
      {
        assert sub[k] == w[p - 1 + k];
      }
      assert NonSpace(s[i + p - 1..i + q + 2]);
    }
    if exists p, q :: 0 < p && p + 1 < q && q + 1 < |s| && s[p] == '@' && s[q] == '.' && NonSpace(s[p - 1..q + 2]) {
      var p, q :| 0 < p && p + 1 < q && q + 1 < |s| && s[p] == '@' && s[q] == '.' && NonSpace(s[p - 1..q + 2]);
      var w := s[p - 1..q + 2];
      assert w[1] == '@' && w[q - p + 1] == '.';
      assert EmailShaped(w);
    }
  }

  /** The message `validateForm` shows under the email field ("" for none). */
  function EmailError(email: string): string
  {
    if Trim(email) == "" then EmailRequiredMessage
    else if !MatchesEmailPattern(email) then EmailInvalidMessage
    else ""
  }

  /** The message `validateForm` shows under the password field ("" for none). */
  function PasswordError(password: string): string
  {
    if Trim(password) == "" then PasswordRequiredMessage
    else if |password| < MinPasswordLength then PasswordTooShortMessage
    else ""
  }

  /** The email field's three outcomes, each by what the entered text looks like. */
  lemma EmailErrorCases(email: string)
    ensures EmailError(email) == EmailRequiredMessage <==> Blank(email)
    ensures EmailError(email) == EmailInvalidMessage <==> !Blank(email) && !MatchesEmailPattern(email)
    ensures EmailError(email) == "" <==> !Blank(email) && MatchesEmailPattern(email)
  {
    TrimEmptyIffBlank(email);
  }

  /** The password field's three outcomes; the length counts the untrimmed text. */
  lemma PasswordErrorCases(password: string)
    ensures PasswordError(password) == PasswordRequiredMessage <==> Blank(password)
    ensures PasswordError(password) == PasswordTooShortMessage <==> !Blank(password) && |password| < MinPasswordLength
    ensures PasswordError(password) == "" <==> !Blank(password) && |password| >= MinPasswordLength
  {
    TrimEmptyIffBlank(password);
  }

  /** Surrounding spaces count towards the minimum: "  abcd" passes although only four characters are not blank. */
  lemma PaddedShortPasswordPasses()
    ensures PasswordError("  abcd") == ""
  {
    assert !IsSpace("  abcd"[2]);
    TrimEmptyIffBlank("  abcd");
  }

  /** The demo driver's email matches the pattern. */
  lemma DriverEmailMatches()
    ensures MatchesEmailPattern("driver@farmaprisa.com")
  {
    var e := "driver@farmaprisa.com";
    assert e[6] == '@' && e[17] == '.';
    assert NonSpace(e);
    assert e[0..|e|] == e;
    assert EmailShaped(e[0..|e|]);
  }

  /** The demo driver's email passes the form. */
  lemma DriverEmailPasses()
    ensures EmailError("driver@farmaprisa.com") == ""
  {
    var e := "driver@farmaprisa.com";
    DriverEmailMatches();
    assert !IsSpace(e[0]);
    TrimEmptyIffBlank(e);
  }

  /** What the screen does, in order: the observable steps of a login attempt. */
  datatype Event = SetLoading(loading: bool) | LoginCalled(credentials: Credentials)

  /** The login screen's state: the two fields, their error messages and the loading flag. */
  class LoginScreen {
    var email: string
    var password: string
    var emailError: string
    var passwordError: string
    var isLoading: bool
    /** The screen's loading-flag writes and login calls so far. */
    ghost var events: seq<Event>

    constructor ()
      ensures email == "" && password == "" && emailError == "" && passwordError == "" && !isLoading
      ensures events == []
    {
      email, password := "", "";
      emailError, passwordError := "", "";
      isLoading := false;
      events := [];
    }

    /**
     * `validateForm`: clear both errors, check each field (at most one message each), and
     * report whether neither got one.
     */
    method ValidateForm() returns (isValid: bool)
      modifies this`emailError, this`passwordError
      ensures emailError == EmailError(email) && passwordError == PasswordError(password)
      ensures isValid <==> emailError == "" && passwordError == ""
    {
      isValid := true;
      emailError := "";
      passwordError := "";

      if Trim(email) == "" {
        emailError := EmailRequiredMessage;
        isValid := false;
      } else if !MatchesEmailPattern(email) {
        emailError := EmailInvalidMessage;
        isValid := false;
      }

      if Trim(password) == "" {
        passwordError := PasswordRequiredMessage;
        isValid := false;
      } else if |password| < MinPasswordLength {
        passwordError := PasswordTooShortMessage;
        isValid := false;
      }
    }

    /**
     * `handleLogin`: stop if the form is invalid; otherwise raise the loading flag, log in with
     * the trimmed email and the password as typed, and lower the flag whatever the outcome.
     * `now` stands for `Date.now()`.
     */
    method HandleLogin(auth: AuthService, now: string) returns (outcome: Option<Result<LoginResponse>>)
      modifies this`emailError, this`passwordError, this`isLoading, this`events, auth
      ensures emailError == EmailError(email) && passwordError == PasswordError(password)
      ensures outcome.None? <==> emailError != "" || passwordError != ""
      ensures outcome.None? ==> events == old(events) && isLoading == old(isLoading) && auth.storage == old(auth.storage)
      ensures outcome.Some? ==>
                var credentials := Credentials(Trim(email), password);
                && events == old(events) + [SetLoading(true)] + [LoginCalled(credentials)] + [SetLoading(false)]
                && !isLoading
                && outcome.value == LoginOutcome(credentials, now)
                && auth.storage == StorageAfterLogin(old(auth.storage), credentials, now)
    {
      var valid := ValidateForm();
      if !valid {
        return None;
      }
      isLoading := true;
      events := events + [SetLoading(true)];
      var credentials := Credentials(Trim(email), password);
      events := events + [LoginCalled(credentials)];
      var result := auth.Login(credentials, now);
      isLoading := false;
      events := events + [SetLoading(false)];
      outcome := Some(result);
    }
  }
}
