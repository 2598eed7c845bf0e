/** Account rules of backend/server.js: the checks of `POST /register` in their order, the
    per-role account caps, and the guard that keeps the last developer account from being
    deleted. The user collection is a list; password hashing is left out. */
module Accounts {
  import opened Wrappers
  import Text

  datatype User = User(id: string, name: string, email: string, role: string)

  datatype AccountError =
    | MissingFields          // 400 "All fields are required"
    | InvalidRole            // 400 "Invalid role selection!"
    | InvalidEmail           // 400 "Invalid email format"
    | WeakPassword           // 400 "Password must contain: ..."
    | EmailTaken             // 409 "Email already registered"
    | RoleFull(limit: nat)   // 403 "Registration denied. Max <limit> <role> accounts allowed."
    | AccessDenied           // 403
    | UserNotFound           // 404
    | LastDeveloper          // 400 "Cannot delete last developer"

  const ValidRoles: seq<string> := ["sales", "finance", "developer", "investor", "client", "primary_partner"]

  /** The account cap of a role; 3 for a role without an entry. */
  function RoleLimit(role: string): (n: nat)
    ensures n == (if role == "investor" then 10 else if role == "client" then 100 else 3)
  {
    match role
    case "sales" => 3
    case "finance" => 3
    case "developer" => 3
    case "investor" => 10
    case "client" => 100
    case "primary_partner" => 3
    case _ => 3
  }

  /** How many users hold `role`. */
  function RoleCount(users: seq<User>, role: string): (n: nat)
    ensures n <= |users|
    decreases |users|
  {
    if users == [] then 0
    else (if users[0].role == role then 1 else 0) + RoleCount(users[1..], role)
  }

  lemma {:induction false} RoleCountAppend(users: seq<User>, u: User, role: string)
    ensures RoleCount(users + [u], role) == RoleCount(users, role) + (if u.role == role then 1 else 0)
    decreases |users|
  {
    if users == [] {
      assert users + [u] == [u];
    } else {
      assert (users + [u])[1..] == users[1..] + [u];
      RoleCountAppend(users[1..], u, role);
    }
  }

  // ---------- the e-mail pattern ^[^\s@]+@[^\s@]+\.[^\s@]+$ ----------

  predicate Plain(c: char)
  {
    !Text.IsSpace(c) && c != '@'
  }

  predicate PlainBetween(s: string, a: int, b: int)
  {
    forall k :: a <= k < b && 0 <= k < |s| ==> Plain(s[k])
  }

  /** The pattern read as a decomposition: local part, '@', a domain part, '.', a suffix,
      all three non-empty and free of blanks and '@' (the domain part may contain dots). */
  ghost predicate EmailPattern(s: string)
  {
    exists i, j :: 0 < i && i + 1 < j && j + 1 < |s| && s[i] == '@' && s[j] == '.' &&
      PlainBetween(s, 0, i) && PlainBetween(s, i + 1, j) && PlainBetween(s, j + 1, |s|)
  }

  /** The check as the route evaluates it: one '@', no blank, a non-empty local part, and a
      dot in the domain with at least one character on each side. */
  predicate EmailOk(s: string)
  {
    '@' in s &&
    var i := Text.IndexOf(s, '@');
    var d := s[i + 1..];
    i > 0 && Text.NoSpaces(s) && '@' !in d &&
    exists j :: 0 < j < |d| - 1 && d[j] == '.'
  }

  lemma EmailOkIsPattern(s: string)
    ensures EmailOk(s) <==> EmailPattern(s)
  {
    if EmailOk(s) {
      EmailOkGivesPattern(s);
    }
    if EmailPattern(s) {
      PatternGivesEmailOk(s);
    }
  }

  lemma EmailOkGivesPattern(s: string)
    requires EmailOk(s)
    ensures EmailPattern(s)
  {
    var i := Text.IndexOf(s, '@');
    var d := s[i + 1..];
    var j :| 0 < j < |d| - 1 && d[j] == '.';
    assert forall k :: i < k < |s| ==> s[k] == d[k - i - 1];
    assert forall k :: i < k < |s| ==> s[k] != '@';
    assert s[i + 1 + j] == '.';
    assert PlainBetween(s, 0, i) && PlainBetween(s, i + 1, i + 1 + j) && PlainBetween(s, i + 1 + j + 1, |s|);
  }

  lemma PatternGivesEmailOk(s: string)
    requires EmailPattern(s)
    ensures EmailOk(s)
  {
    var i, j :| 0 < i && i + 1 < j && j + 1 < |s| && s[i] == '@' && s[j] == '.' &&
      PlainBetween(s, 0, i) && PlainBetween(s, i + 1, j) && PlainBetween(s, j + 1, |s|);
    assert forall k :: 0 <= k < |s| && k != i && k != j ==> Plain(s[k]);
    var r := Text.IndexOf(s, '@');
    assert r == i;
    var d := s[i + 1..];
    assert forall k :: 0 <= k < |d| ==> d[k] == s[i + 1 + k];
    assert d[j - i - 1] == '.';
  }

  // ---------- the password pattern ----------

  predicate IsLower(c: char) { 'a' <= c <= 'z' }
  predicate IsUpper(c: char) { 'A' <= c <= 'Z' }

  /** The special characters the route's password pattern accepts. */
  predicate RouteSpecial(c: char)
  {
    c in "@$!%*?&"
  }

  /** `^(?=.*[a-z])(?=.*[A-Z])(?=.*\d)(?=.*[@$!%*?&])[A-Za-z\d@$!%*?&]{8,}$` */
  predicate PasswordOk(p: string)
  {
    |p| >= 8 &&
    (forall k :: 0 <= k < |p| ==> IsLower(p[k]) || IsUpper(p[k]) || Text.IsDigit(p[k]) || RouteSpecial(p[k])) &&
    (exists k :: 0 <= k < |p| && IsLower(p[k])) &&
    (exists k :: 0 <= k < |p| && IsUpper(p[k])) &&
    (exists k :: 0 <= k < |p| && Text.IsDigit(p[k])) &&
    (exists k :: 0 <= k < |p| && RouteSpecial(p[k]))
  }

  predicate EmailTakenIn(users: seq<User>, email: string)
  {
    exists k :: 0 <= k < |users| && users[k].email == email
  }

  /** Every field of the registration form is present and non-empty. */
  predicate AllGiven(name: Option<string>, email: Option<string>, password: Option<string>, role: Option<string>)
  {
    Text.Given(name) && Text.Given(email) && Text.Given(password) && Text.Given(role)
  }

  /** `POST /register`: the checks in the route's order; on success one user is appended
      (the password is stored hashed, which is left out). */
  function Register(users: seq<User>, id: string, name: Option<string>, email: Option<string>,
                    password: Option<string>, role: Option<string>): (r: Result<seq<User>, AccountError>)
    ensures !AllGiven(name, email, password, role) ==> r == Err(MissingFields)
    ensures AllGiven(name, email, password, role) && role.value !in ValidRoles ==> r == Err(InvalidRole)
    ensures AllGiven(name, email, password, role) && role.value in ValidRoles && !EmailOk(email.value) ==>
      r == Err(InvalidEmail)
    ensures AllGiven(name, email, password, role) && role.value in ValidRoles && EmailOk(email.value) ==>
      (!PasswordOk(password.value) ==> r == Err(WeakPassword)) &&
      (PasswordOk(password.value) && EmailTakenIn(users, email.value) ==> r == Err(EmailTaken)) &&
      (PasswordOk(password.value) && !EmailTakenIn(users, email.value) ==>
        RoleCount(users, role.value) >= RoleLimit(role.value) ==> r == Err(RoleFull(RoleLimit(role.value))))
    ensures r.Ok? <==>
      AllGiven(name, email, password, role) && role.value in ValidRoles && EmailOk(email.value) && PasswordOk(password.value) &&
      !EmailTakenIn(users, email.value) && RoleCount(users, role.value) < RoleLimit(role.value)
    ensures r.Ok? ==> r.value == users + [User(id, name.value, email.value, role.value)]
  {
    if !AllGiven(name, email, password, role) then Err(MissingFields)
    else if role.value !in ValidRoles then Err(InvalidRole)
    else if !EmailOk(email.value) then Err(InvalidEmail)
    else if !PasswordOk(password.value) then Err(WeakPassword)
    else if EmailTakenIn(users, email.value) then Err(EmailTaken)
    else if RoleCount(users, role.value) >= RoleLimit(role.value) then Err(RoleFull(RoleLimit(role.value)))
    else Ok(users + [User(id, name.value, email.value, role.value)])
  }

  /** No role holds more accounts than its cap. */
  predicate WithinCaps(users: seq<User>)
  {
    forall role :: role in ValidRoles ==> RoleCount(users, role) <= RoleLimit(role)
  }

  predicate EmailsUnique(users: seq<User>)
  {
    forall a, b :: 0 <= a < b < |users| ==> users[a].email != users[b].email
  }

  /** Registration keeps every role within its cap and every e-mail address unique. */
  lemma RegisterKeepsInvariants(users: seq<User>, id: string, name: Option<string>, email: Option<string>,
                                password: Option<string>, role: Option<string>)
    requires WithinCaps(users) && EmailsUnique(users)
    requires Register(users, id, name, email, password, role).Ok?
    ensures WithinCaps(Register(users, id, name, email, password, role).value)
    ensures EmailsUnique(Register(users, id, name, email, password, role).value)
  {
    var u := User(id, name.value, email.value, role.value);
    forall r | r in ValidRoles
      ensures RoleCount(users + [u], r) <= RoleLimit(r)
    {
      RoleCountAppend(users, u, r);
    }
  }

  /** The cap is reached after exactly `RoleLimit` registrations of a role. */
  lemma CapRefusesNext(users: seq<User>, id: string, name: Option<string>, email: Option<string>,
                       password: Option<string>, role: string)
    requires Text.Given(name) && Text.Given(email) && Text.Given(password) && role in ValidRoles
    requires EmailOk(email.value) && PasswordOk(password.value) && !EmailTakenIn(users, email.value)
    requires RoleCount(users, role) == RoleLimit(role)
    ensures Register(users, id, name, email, password, Some(role)) == Err(RoleFull(RoleLimit(role)))
  {
  }

  // ---------- deleting an account ----------

  function IndexOfId(users: seq<User>, id: string): (r: Option<nat>)
    ensures r.Some? ==> r.value < |users| && users[r.value].id == id
    ensures r.None? ==> forall k :: 0 <= k < |users| ==> users[k].id != id
    decreases |users|
  {
    if users == [] then None
    else if users[0].id == id then Some(0)
    else match IndexOfId(users[1..], id)
      case None => None
      case Some(k) => Some(k + 1)
  }

  function RemoveAt(users: seq<User>, k: nat): (r: seq<User>)
    requires k < |users|
    ensures |r| == |users| - 1
    ensures forall i :: 0 <= i < k ==> r[i] == users[i]
    ensures forall i :: k <= i < |r| ==> r[i] == users[i + 1]
  {
    users[..k] + users[k + 1..]
  }

  lemma RoleCountRemove(users: seq<User>, k: nat, role: string)
    requires k < |users|
    ensures RoleCount(RemoveAt(users, k), role) == RoleCount(users, role) - (if users[k].role == role then 1 else 0)
  {
    RoleCountSplit(users[..k], users[k + 1..], role);
    RoleCountSplit(users[..k], users[k..], role);
    assert users[..k] + users[k..] == users;
    assert users[k..] == [users[k]] + users[k + 1..];
  }

  lemma {:induction false} RoleCountSplit(a: seq<User>, b: seq<User>, role: string)
    ensures RoleCount(a + b, role) == RoleCount(a, role) + RoleCount(b, role)
    decreases |a|
  {
    if a == [] {
      assert a + b == b;
    } else {
      assert (a + b)[1..] == a[1..] + b;
      RoleCountSplit(a[1..], b, role);
    }
  }

  /** `DELETE /developer/users/:id`: only a developer may delete, the user must exist, and a
      developer account is deleted only while another one remains. */
  function DeleteUser(users: seq<User>, requesterRole: string, id: string): (r: Result<seq<User>, AccountError>)
    ensures requesterRole != "developer" ==> r == Err(AccessDenied)
    ensures r == Err(UserNotFound) <==> requesterRole == "developer" && IndexOfId(users, id).None?
    ensures r.Ok? <==>
      requesterRole == "developer" && IndexOfId(users, id).Some? &&
      !(users[IndexOfId(users, id).value].role == "developer" && RoleCount(users, "developer") <= 1)
    ensures r.Ok? ==> r.value == RemoveAt(users, IndexOfId(users, id).value)
    ensures r == Err(LastDeveloper) <==>
      requesterRole == "developer" && IndexOfId(users, id).Some? &&
      users[IndexOfId(users, id).value].role == "developer" && RoleCount(users, "developer") <= 1
  {
    if requesterRole != "developer" then Err(AccessDenied)
    else match IndexOfId(users, id)
      case None => Err(UserNotFound)
      case Some(k) =>
        if users[k].role == "developer" && RoleCount(users, "developer") <= 1 then Err(LastDeveloper)
        else Ok(RemoveAt(users, k))
  }

  /** Deleting never removes the last developer account. */
  lemma DeleteKeepsADeveloper(users: seq<User>, requesterRole: string, id: string)
    requires RoleCount(users, "developer") >= 1
    requires DeleteUser(users, requesterRole, id).Ok?
    ensures RoleCount(DeleteUser(users, requesterRole, id).value, "developer") >= 1
  {
    var k := IndexOfId(users, id).value;
    RoleCountRemove(users, k, "developer");
  }
}
