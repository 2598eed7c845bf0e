/** The password rules of the registration page (frontend/src/pages/Register.js): the first
    failing check, in a fixed order, gives the message shown; the form is not sent while a
    message is shown. */
module RegisterPage {
  import opened Wrappers
  import Text
  import Accounts

  const TooShort := "Password must be at least 8 characters long"
  const NoUpper := "Password must contain at least one uppercase letter"
  const NoLower := "Password must contain at least one lowercase letter"
  const NoNumber := "Password must contain at least one number"
  const NoSpecial := "Password must contain at least one special character"

  /** The page's special characters: `!@#$%^&*(),.?":{}|<>`. */
  predicate PageSpecial(c: char)
  {
    c in "!@#$%^&*(),.?\":{}|<>"
  }

  predicate HasUpper(p: string) { exists k :: 0 <= k < |p| && Accounts.IsUpper(p[k]) }
  predicate HasLower(p: string) { exists k :: 0 <= k < |p| && Accounts.IsLower(p[k]) }
  predicate HasNumber(p: string) { exists k :: 0 <= k < |p| && Text.IsDigit(p[k]) }
  predicate HasSpecial(p: string) { exists k :: 0 <= k < |p| && PageSpecial(p[k]) }

  /** `validatePassword`: length, uppercase, lowercase, number, special character. */
  function ValidatePassword(p: string): (msg: string)
    ensures msg == "" <==> |p| >= 8 && HasUpper(p) && HasLower(p) && HasNumber(p) && HasSpecial(p)
    ensures msg in {"", TooShort, NoUpper, NoLower, NoNumber, NoSpecial}
  {
    if |p| < 8 then TooShort
    else if !HasUpper(p) then NoUpper
    else if !HasLower(p) then NoLower
    else if !HasNumber(p) then NoNumber
    else if !HasSpecial(p) then NoSpecial
    else ""
  }

  /** A short password always gets the length message, whatever else is wrong with it. */
  lemma ShortPasswordMessage(p: string)
    requires |p| < 8
    ensures ValidatePassword(p) == TooShort
  {
  }

  /** Each message is shown exactly when its check is the first one to fail. */
  lemma MessageIsFirstFailure(p: string)
    ensures ValidatePassword(p) == NoUpper <==> |p| >= 8 && !HasUpper(p)
    ensures ValidatePassword(p) == NoLower <==> |p| >= 8 && HasUpper(p) && !HasLower(p)
    ensures ValidatePassword(p) == NoNumber <==> |p| >= 8 && HasUpper(p) && HasLower(p) && !HasNumber(p)
    ensures ValidatePassword(p) == NoSpecial <==>
      |p| >= 8 && HasUpper(p) && HasLower(p) && HasNumber(p) && !HasSpecial(p)
  {
  }

  datatype RegisterForm = RegisterForm(name: string, email: string, password: string, role: string)

  /** `handleRegister`: the request body sent, or the password message shown instead. */
  function HandleRegister(form: RegisterForm): (r: Result<RegisterForm, string>)
    ensures r.Ok? <==> ValidatePassword(form.password) == ""
    ensures r.Ok? ==> r.value == form
    ensures r.Err? ==> r.error == ValidatePassword(form.password) && r.error != ""
  {
    var msg := ValidatePassword(form.password);
    if msg != "" then Err(msg) else Ok(form)
  }

  /** A password the server accepts passes the page's checks too: the server's special
      characters are all among the page's. */
  lemma ServerAcceptedPassesPage(p: string)
    requires Accounts.PasswordOk(p)
    ensures ValidatePassword(p) == ""
  {
    var k :| 0 <= k < |p| && Accounts.RouteSpecial(p[k]);
    assert PageSpecial(p[k]);
  }

  /** The converse fails: the page lets through a password the server refuses, because '#'
      is special on the page but not allowed by the server. */
  lemma PageAcceptsServerRefuses()
    ensures ValidatePassword("Abcdefg1#") == ""
    ensures !Accounts.PasswordOk("Abcdefg1#")
  {
    var p := "Abcdefg1#";
    assert Accounts.IsUpper(p[0]) && Accounts.IsLower(p[1]) && Text.IsDigit(p[7]) && PageSpecial(p[8]);
    assert !(Accounts.IsLower(p[8]) || Accounts.IsUpper(p[8]) || Text.IsDigit(p[8]) || Accounts.RouteSpecial(p[8]));
  }
}
