/** The account handlers: the email and password rules shared by `signup`,
    `signin` and the two forms, the order of the handlers' checks, what
    `signup` stores, the session cookie `signin` sets, and `checkAuth`.

    Password hashing, hash comparison and token signing are foreign calls:
    their results are parameters. */
module Auth {
  import opened JsText
  import opened Validation

  // ---------------------------------------------------------------------
  // The email rule `/^[^\s@]+@[^\s@]+\.[^\s@]+$/`

  /** A character of the class `[^\s@]`. */
  predicate Plain(c: char) {
    !IsSpace(c) && c != '@'
  }

  /** Every character of `t` except the one at `i` is in `[^\s@]`. */
  predicate PlainExcept(t: string, i: int) {
    forall j :: 0 <= j < |t| && j != i ==> Plain(t[j])
  }

  /** The strings the email pattern matches: one '@' that is not the first
      character, every other character neither white space nor '@', and a
      '.' after the '@' that is neither the first nor the last character of
      the domain. */
  ghost predicate EmailShape(s: string) {
    exists i, k :: 0 < i && i + 1 < k < |s| - 1 && s[i] == '@' && s[k] == '.' && PlainExcept(s, i)
  }

  /** States of the left-to-right matcher. */
  datatype EmailState =
    | Start    // nothing read
    | Local    // a non-empty local part
    | AtSign   // the local part and the '@'
    | Domain   // a non-empty domain with no '.' after its first character
    | DotEnd   // ... ending with such a '.', with none before it
    | Accept   // a '.' after the first domain character, followed by more
    | Dead

  function EmailStep(st: EmailState, c: char): EmailState {
    if IsSpace(c) then Dead
    else if c == '@' then (if st == Local then AtSign else Dead)
    else
      match st
      case Start => Local
      case Local => Local
      case AtSign => Domain
      case Domain => if c == '.' then DotEnd else Domain
      case DotEnd => Accept
      case Accept => Accept
      case Dead => Dead
  }

  function EmailRun(s: string): EmailState {
    if s == [] then Start else EmailStep(EmailRun(s[..|s| - 1]), s[|s| - 1])
  }

  /** A character that makes every longer string fail: white space, an '@'
      first, or a second '@'. */
  ghost predicate Spoiled(t: string) {
    exists j :: 0 <= j < |t| && (IsSpace(t[j]) || (t[j] == '@' && (j == 0 || exists j2 :: 0 <= j2 < j && t[j2] == '@')))
  }

  /** What each state says about the string read so far. */
  ghost predicate EmailInv(st: EmailState, t: string) {
    match st
    case Start => t == []
    case Local => t != [] && PlainExcept(t, -1)
    case AtSign => |t| >= 2 && t[|t| - 1] == '@' && PlainExcept(t, |t| - 1)
    case Domain =>
      exists i :: (0 < i && i + 1 < |t| && t[i] == '@' && PlainExcept(t, i)
                   && forall k :: i + 1 < k < |t| ==> t[k] != '.')
    case DotEnd =>
      exists i :: (0 < i && i + 2 < |t| && t[i] == '@' && PlainExcept(t, i)
                   && t[|t| - 1] == '.' && forall k :: i + 1 < k < |t| - 1 ==> t[k] != '.')
    case Accept => EmailShape(t)
    case Dead => Spoiled(t)
  }

  lemma EmailStepInv(st: EmailState, t: string, c: char)
    requires EmailInv(st, t)
    ensures EmailInv(EmailStep(st, c), t + [c])
  {
    var u := t + [c];
    assert forall j :: 0 <= j < |t| ==> u[j] == t[j];
    assert u[|t|] == c;
    if IsSpace(c) {
      assert IsSpace(u[|t|]);
    } else if c == '@' {
      if st == Local {
        assert u[|u| - 1] == '@';
      } else if st == Start {
        assert u[0] == '@';
      } else if st == Dead {
        var j :| 0 <= j < |t| && (IsSpace(t[j]) || (t[j] == '@' && (j == 0 || exists j2 :: 0 <= j2 < j && t[j2] == '@')));
        assert u[j] == t[j];
      } else if st == AtSign {
        assert u[|t|] == '@' && u[|t| - 1] == '@';
      } else if st == Domain {
        var i :| 0 < i && i + 1 < |t| && t[i] == '@' && PlainExcept(t, i)
          && forall k :: i + 1 < k < |t| ==> t[k] != '.';
        assert u[|t|] == '@' && u[i] == '@';
      } else if st == DotEnd {
        var i :| 0 < i && i + 2 < |t| && t[i] == '@' && PlainExcept(t, i)
          && t[|t| - 1] == '.' && forall k :: i + 1 < k < |t| - 1 ==> t[k] != '.';
        assert u[|t|] == '@' && u[i] == '@';
      } else {
        var i, k :| 0 < i && i + 1 < k < |t| - 1 && t[i] == '@' && t[k] == '.' && PlainExcept(t, i);
        assert u[|t|] == '@' && u[i] == '@';
      }
    } else {
      match st
      case Start =>
      case Local =>
      case AtSign =>
        assert EmailInv(Domain, u) by {
          var i := |t| - 1;
          assert 0 < i && i + 1 < |u| && u[i] == '@' && PlainExcept(u, i);
        }
      case Domain =>
        var i :| 0 < i && i + 1 < |t| && t[i] == '@' && PlainExcept(t, i)
          && forall k :: i + 1 < k < |t| ==> t[k] != '.';
        assert u[i] == '@' && PlainExcept(u, i);
        if c == '.' {
          assert 0 < i && i + 2 < |u| && u[|u| - 1] == '.' && forall k :: i + 1 < k < |u| - 1 ==> u[k] != '.';
        } else {
          assert forall k :: i + 1 < k < |u| ==> u[k] != '.';
        }
      case DotEnd =>
        var i :| 0 < i && i + 2 < |t| && t[i] == '@' && PlainExcept(t, i)
          && t[|t| - 1] == '.' && forall k :: i + 1 < k < |t| - 1 ==> t[k] != '.';
        assert u[i] == '@' && u[|t| - 1] == '.' && PlainExcept(u, i);
        assert 0 < i && i + 1 < |t| - 1 < |u| - 1;
      case Accept =>
        var i, k :| 0 < i && i + 1 < k < |t| - 1 && t[i] == '@' && t[k] == '.' && PlainExcept(t, i);
        assert u[i] == '@' && u[k] == '.' && PlainExcept(u, i);
      case Dead =>
        var j :| 0 <= j < |t| && (IsSpace(t[j]) || (t[j] == '@' && (j == 0 || exists j2 :: 0 <= j2 < j && t[j2] == '@')));
        assert u[j] == t[j];
        if t[j] == '@' && j != 0 {
          var j2 :| 0 <= j2 < j && t[j2] == '@';
          assert u[j2] == '@';
        }
    }
  }

  lemma {:induction false} EmailRunInv(s: string)
    ensures EmailInv(EmailRun(s), s)
  {
    if s != [] {
      var t := s[..|s| - 1];
      EmailRunInv(t);
      EmailStepInv(EmailRun(t), t, s[|s| - 1]);
      assert t + [s[|s| - 1]] == s;
    }
  }

  /** Only the accepting state's strings match the pattern. */
  lemma EmailInvExclusive(st: EmailState, s: string)
    requires EmailInv(st, s) && st != Accept
    ensures !EmailShape(s)
  {
    match st
    case Start =>
    case Local =>
    case AtSign =>
    case Domain =>
      var i :| 0 < i && i + 1 < |s| && s[i] == '@' && PlainExcept(s, i)
        && forall k :: i + 1 < k < |s| ==> s[k] != '.';
      assert forall j :: 0 <= j < |s| && s[j] == '@' ==> j == i;
    case DotEnd =>
      var i :| 0 < i && i + 2 < |s| && s[i] == '@' && PlainExcept(s, i)
        && s[|s| - 1] == '.' && forall k :: i + 1 < k < |s| - 1 ==> s[k] != '.';
      assert forall j :: 0 <= j < |s| && s[j] == '@' ==> j == i;
    case Dead =>
      var j :| 0 <= j < |s| && (IsSpace(s[j]) || (s[j] == '@' && (j == 0 || exists j2 :: 0 <= j2 < j && s[j2] == '@')));
      assert !Plain(s[j]);
      if s[j] == '@' && j != 0 {
        var j2 :| 0 <= j2 < j && s[j2] == '@';
        assert !Plain(s[j2]);
      }
  }

  /** `emailRegex.test(email)`. */
  function IsValidEmail(s: string): (b: bool)
    ensures b <==> EmailShape(s)
  {
    EmailRunInv(s);
    if EmailRun(s) != Accept then
      EmailInvExclusive(EmailRun(s), s);
      false
    else
      true
  }

  /** The pattern's words, checked on examples: the dot may be followed by
      another dot, but not be the domain's first or last character. */
  lemma EmailExamples()
    ensures IsValidEmail("a@b.c")
    ensures IsValidEmail("a@b..")
    ensures !IsValidEmail("a@.bc")
    ensures !IsValidEmail("a@bc.")
    ensures !IsValidEmail(" a@b.c")
    ensures !IsValidEmail("@b.c")
  {
    assert PlainExcept("a@b.c", 1) && "a@b.c"[3] == '.';
    assert PlainExcept("a@b..", 1) && "a@b.."[3] == '.';
    assert forall j :: 0 <= j < 5 && "a@.bc"[j] == '@' ==> j == 1;
    assert "a@.bc"[3] != '.';
    assert forall j :: 0 <= j < 5 && "a@bc."[j] == '@' ==> j == 1;
    assert "a@bc."[3] != '.';
    assert !Plain(" a@b.c"[0]);
    assert forall j :: 0 <= j < 4 && "@b.c"[j] == '@' ==> j == 0;
  }

  // ---------------------------------------------------------------------
  // The password rule

  predicate IsLowerAscii(c: char) { 'a' <= c <= 'z' }
  predicate IsUpperAscii(c: char) { 'A' <= c <= 'Z' }
  predicate IsSpecial(c: char) {
    c == '@' || c == '$' || c == '!' || c == '%' || c == '*' || c == '?' || c == '&'
  }

  /** The class `[A-Za-z\d@$!%*?&]`. */
  predicate Allowed(c: char) {
    IsLowerAscii(c) || IsUpperAscii(c) || IsDigit(c) || IsSpecial(c)
  }

  /** The strings the password pattern matches: at least eight characters,
      all from the allowed class, with a lower-case letter, an upper-case
      letter, a digit and a special character somewhere. */
  ghost predicate StrongShape(p: string) {
    && |p| >= 8
    && (forall i :: 0 <= i < |p| ==> Allowed(p[i]))
    && (exists i :: 0 <= i < |p| && IsLowerAscii(p[i]))
    && (exists i :: 0 <= i < |p| && IsUpperAscii(p[i]))
    && (exists i :: 0 <= i < |p| && IsDigit(p[i]))
    && (exists i :: 0 <= i < |p| && IsSpecial(p[i]))
  }

  /** What one pass over a password records: whether every character is
      allowed, and which of the four required classes occur. */
  datatype Classes = Classes(allAllowed: bool, lower: bool, upper: bool, digit: bool, special: bool)

  function ScanClasses(p: string): (r: Classes)
    ensures r.allAllowed <==> forall i :: 0 <= i < |p| ==> Allowed(p[i])
    ensures r.lower <==> exists i :: 0 <= i < |p| && IsLowerAscii(p[i])
    ensures r.upper <==> exists i :: 0 <= i < |p| && IsUpperAscii(p[i])
    ensures r.digit <==> exists i :: 0 <= i < |p| && IsDigit(p[i])
    ensures r.special <==> exists i :: 0 <= i < |p| && IsSpecial(p[i])
  {
    if p == [] then Classes(true, false, false, false, false)
    else
      var rest := ScanClasses(p[1..]);
      var c := p[0];
      assert forall i :: 1 <= i < |p| ==> p[i] == p[1..][i - 1];
      assert forall i :: 0 <= i < |p[1..]| ==> p[1..][i] == p[i + 1];
      Classes(rest.allAllowed && Allowed(c), rest.lower || IsLowerAscii(c), rest.upper || IsUpperAscii(c),
              rest.digit || IsDigit(c), rest.special || IsSpecial(c))
  }

  /** `passwordRegex.test(password)`. */
  function IsStrongPassword(p: string): (b: bool)
    ensures b <==> StrongShape(p)
  {
    var r := ScanClasses(p);
    |p| >= 8 && r.allAllowed && r.lower && r.upper && r.digit && r.special
  }

  lemma PasswordExamples()
    ensures IsStrongPassword("Abcdef1!")
    ensures !IsStrongPassword("abcdefgh")
    ensures !IsStrongPassword("Abcdef1 !")
  {
    assert StrongShape("Abcdef1!") by {
      var p := "Abcdef1!";
      assert IsLowerAscii(p[1]) && IsUpperAscii(p[0]) && IsDigit(p[6]) && IsSpecial(p[7]);
    }
    assert !IsUpperAscii("abcdefgh"[0]);
    assert !StrongShape("abcdefgh") by {
      var p := "abcdefgh";
      assert forall i :: 0 <= i < |p| ==> !IsUpperAscii(p[i]);
    }
    assert !Allowed("Abcdef1 !"[7]);
  }

  // ---------------------------------------------------------------------
  // signup and signin

  /** A row of `users`. */
  datatype UserRow = UserRow(id: nat, firstName: string, lastName: string, email: string, passwordHash: string)

  /** `res.cookie(name, value, options)`. */
  datatype Cookie = Cookie(name: string, value: string, httpOnly: bool, secure: bool, sameSite: string, maxAgeMs: nat)

  datatype AuthResult =
    | Rejected(status: nat, message: string)
    | Created(user: UserRow)
    | SignedIn(cookie: Cookie, claimId: nat, claimEmail: string)

  datatype SignupBody = SignupBody(firstName: Option<string>, lastName: Option<string>, email: Option<string>, password: Option<string>)

  const SignupMessages: seq<string> := [
    "All fields are required",
    "Invalid email format",
    "Password must be at least 8 characters long and include uppercase, lowercase, number, and special character",
    "Email already registered"]

  /** The first user whose stored email equals `email`, as the lookup
      `WHERE email = ?` finds it. */
  function FindUser(users: seq<UserRow>, email: string): (r: Option<UserRow>)
    ensures r.Some? <==> exists u :: u in users && u.email == email
    ensures r.Some? ==> r.value in users && r.value.email == email
  {
    if users == [] then None
    else if users[0].email == email then Some(users[0])
    else FindUser(users[1..], email)
  }

  /** The checks of `signup` in the order it makes them. */
  function SignupChecks(b: SignupBody, users: seq<UserRow>): (c: seq<bool>)
    ensures |c| == |SignupMessages|
  {
    var present := Truthy(b.firstName) && Truthy(b.lastName) && Truthy(b.email) && Truthy(b.password);
    [ present,
      !present || IsValidEmail(b.email.value),
      !present || IsStrongPassword(b.password.value),
      !present || FindUser(users, b.email.value).None? ]
  }

  /** `signup`: the first failing check decides the 400 message; otherwise
      the user is stored with trimmed names, the lower-cased email and the
      hash of the password, under the id the table assigns. */
  function Signup(b: SignupBody, users: seq<UserRow>, hashed: string, newId: nat): (r: AuthResult)
    ensures r.Rejected? || r.Created?
    ensures r.Rejected? <==> FirstFailure(SignupChecks(b, users)).Some?
    ensures r.Rejected? ==> r.status == 400 && r.message == SignupMessages[FirstFailure(SignupChecks(b, users)).value]
    ensures r.Created? ==>
      && Truthy(b.firstName) && Truthy(b.lastName) && Truthy(b.email) && Truthy(b.password)
      && IsValidEmail(b.email.value) && IsStrongPassword(b.password.value)
      && (forall u :: u in users ==> u.email != b.email.value)
      && r.user == UserRow(newId, Trim(b.firstName.value), Trim(b.lastName.value), Lower(b.email.value), hashed)
  {
    var checks := SignupChecks(b, users);
    match FirstFailure(checks)
    case Some(i) => Rejected(400, SignupMessages[i])
    case None =>
      assert checks[0] && checks[1] && checks[2] && checks[3];
      Created(UserRow(newId, Trim(b.firstName.value), Trim(b.lastName.value), Lower(b.email.value), hashed))
  }

  /** The duplicate test compares the email as typed while the row stores it
      lower-cased, so a second account for the same stored email is created
      when the case differs (under an exact-match comparison). */
  lemma SignupDuplicateByCase(users: seq<UserRow>, first: string, last: string, email: string, password: string, hashed: string)
    requires users == [UserRow(1, "Ann", "Lee", "ann@x.io", "h")]
    requires first != "" && last != "" && IsStrongPassword(password) && email == "Ann@x.io"
    ensures var r := Signup(SignupBody(Some(first), Some(last), Some(email), Some(password)), users, hashed, 2);
      r.Created? && r.user.email == users[0].email
  {
    MixedCaseEmail(email);
  }

  lemma MixedCaseEmail(email: string)
    requires email == "Ann@x.io"
    ensures IsValidEmail(email) && email != "ann@x.io" && Lower(email) == "ann@x.io"
  {
    var stored := "ann@x.io";
    assert 0 < 3 && 3 + 1 < 5 < |email| - 1 && email[3] == '@' && email[5] == '.' && PlainExcept(email, 3);
    assert email[0] != stored[0];
    var l := Lower(email);
    assert l[0] == 'a';
    assert forall i :: 1 <= i < |email| ==> l[i] == email[i];
    assert forall i :: 0 <= i < |email| ==> l[i] == stored[i];
  }

  datatype SigninBody = SigninBody(email: Option<string>, password: Option<string>)

  const SigninMessages: seq<string> := [
    "Email and password are required",
    "Invalid email format",
    "Invalid email",
    "Invalid password"]

  /** `7 * 24 * 60 * 60 * 1000`: seven days in milliseconds. */
  const CookieMaxAgeMs: nat := 7 * 24 * 60 * 60 * 1000

  /** The token's `expiresIn: "7d"`, in seconds. */
  const TokenLifetimeSeconds: nat := 7 * 24 * 60 * 60

  lemma CookieMatchesToken()
    ensures CookieMaxAgeMs == 604800000
    ensures CookieMaxAgeMs == TokenLifetimeSeconds * 1000
  {
  }

  /** The checks of `signin` in order; the password comparison result is
      supplied for the user the lookup finds. */
  function SigninChecks(b: SigninBody, users: seq<UserRow>, passwordMatches: (string, string) -> bool): (c: seq<bool>)
    ensures |c| == |SigninMessages|
  {
    var present := Truthy(b.email) && Truthy(b.password);
    var user := if present then FindUser(users, b.email.value) else None;
    [ present,
      !present || IsValidEmail(b.email.value),
      !present || user.Some?,
      !present || user.None? || passwordMatches(b.password.value, user.value.passwordHash) ]
  }

  /** `signin`: the first failing check decides the 400 message; otherwise a
      seven-day, HTTP-only `token` cookie carries the token signed over the
      found user's id and stored email. */
  function Signin(b: SigninBody, users: seq<UserRow>, passwordMatches: (string, string) -> bool, token: string): (r: AuthResult)
    ensures r.Rejected? || r.SignedIn?
    ensures r.Rejected? <==> FirstFailure(SigninChecks(b, users, passwordMatches)).Some?
    ensures r.Rejected? ==> r.status == 400 && r.message == SigninMessages[FirstFailure(SigninChecks(b, users, passwordMatches)).value]
    ensures r.SignedIn? ==>
      && Truthy(b.email) && Truthy(b.password) && IsValidEmail(b.email.value)
      && (exists u :: u in users && u.email == b.email.value && passwordMatches(b.password.value, u.passwordHash)
                      && r.claimId == u.id && r.claimEmail == u.email)
      && r.cookie == Cookie("token", token, true, false, "lax", CookieMaxAgeMs)
  {
    var checks := SigninChecks(b, users, passwordMatches);
    match FirstFailure(checks)
    case Some(i) => Rejected(400, SigninMessages[i])
    case None =>
      assert checks[0] && checks[1] && checks[2] && checks[3];
      SignedInAs(b, users, passwordMatches, token)
  }

  /** The sign-in of the user the email finds, whose password matches: the
      token cookie carrying that user's id and email. */
  function SignedInAs(b: SigninBody, users: seq<UserRow>, passwordMatches: (string, string) -> bool, token: string): (r: AuthResult)
    requires Truthy(b.email) && Truthy(b.password) && FindUser(users, b.email.value).Some?
    requires passwordMatches(b.password.value, FindUser(users, b.email.value).value.passwordHash)
    ensures r.SignedIn? && r.cookie == Cookie("token", token, true, false, "lax", CookieMaxAgeMs)
    ensures exists u :: u in users && u.email == b.email.value && passwordMatches(b.password.value, u.passwordHash)
                     && r.claimId == u.id && r.claimEmail == u.email
  {
    var u := FindUser(users, b.email.value).value;
    assert u in users && u.email == b.email.value && passwordMatches(b.password.value, u.passwordHash);
    SignedIn(Cookie("token", token, true, false, "lax", CookieMaxAgeMs), u.id, u.email)
  }

  // ---------------------------------------------------------------------
  // checkAuth

  /** `checkAuth`: 200 with `authenticated: true` when the request carries a
      non-empty `token` cookie, else 401; the token itself is never checked. */
  function CheckAuth(cookies: map<string, string>): (r: (nat, bool))
    ensures r.1 <==> "token" in cookies && cookies["token"] != ""
    ensures r.0 == (if r.1 then 200 else 401)
  {
    if "token" in cookies && cookies["token"] != "" then (200, true) else (401, false)
  }

  /** Any non-empty token, forged or expired, is reported as authenticated. */
  lemma CheckAuthIgnoresToken(cookies: map<string, string>, forged: string)
    requires forged != ""
    ensures CheckAuth(cookies["token" := forged]) == (200, true)
  {
  }

  /** `logout`: the `token` cookie is cleared. */
  function Logout(cookies: map<string, string>): (r: map<string, string>)
    ensures "token" !in r
    ensures forall k :: k in cookies && k != "token" ==> k in r && r[k] == cookies[k]
  {
    cookies - {"token"}
  }

  /** After `logout` the next `checkAuth` answers 401. */
  lemma LogoutEndsSession(cookies: map<string, string>)
    ensures CheckAuth(Logout(cookies)) == (401, false)
  {
  }
}
