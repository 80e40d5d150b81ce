/** The validation logic of the login page (`frontend/src/pages/Login.tsx`):
    the email pattern and the error maps built by the login and register
    submit handlers. A request is sent only when its error map is empty. */
module LoginForm {
  import opened Common
  import opened Text

  /** A character of the class `[^\s@]`. */
  predicate EmailChar(c: char)
  {
    !IsSpace(c) && c != '@'
  }

  /** A match of `[^\s@]+`. */
  predicate EmailPart(s: string)
  {
    |s| > 0 && forall i :: 0 <= i < |s| ==> EmailChar(s[i])
  }

  /** `d` has a '.' that is neither its first nor its last character. */
  predicate HasInnerDot(d: string)
  {
    exists k :: 0 < k < |d| - 1 && d[k] == '.'
  }

  /** What `/^[^\s@]+@[^\s@]+\.[^\s@]+$/` accepts, read position by
      position: an '@' at `i` and a '.' at `j` with at least one character
      before, between and after them, and every character other than the
      '@' in the class `[^\s@]` (the '.' is in that class too). */
  ghost predicate MatchesEmailPattern(s: string)
  {
    exists i, j :: 0 < i && i + 1 < j && j + 1 < |s| && s[i] == '@' && s[j] == '.'
      && forall k :: 0 <= k < |s| && k != i ==> EmailChar(s[k])
  }

  /** The position of the first `c` in `s`, or -1. */
  function IndexOf(s: string, c: char): (r: int)
    ensures -1 <= r < |s|
    ensures r == -1 <==> c !in s
    ensures r >= 0 ==> s[r] == c && c !in s[..r]
  {
    if s == [] then -1
    else if s[0] == c then 0
    else
      var r := IndexOf(s[1..], c);
      assert s == [s[0]] + s[1..];
      if r == -1 then -1
      else
        assert s[..r + 1] == [s[0]] + s[1..][..r];
        r + 1
  }

  /** `validateEmail(email)`: split at the first '@' and check both sides. */
  function ValidateEmail(s: string): (ok: bool)
    ensures ok <==> MatchesEmailPattern(s)
  {
    var at := IndexOf(s, '@');
    var ok := at >= 0 && EmailPart(s[..at]) && EmailPart(s[at + 1..]) && HasInnerDot(s[at + 1..]);
    ValidateEmailSound(s, at, ok);
    ValidateEmailComplete(s, at, ok);
    ok
  }

  lemma ValidateEmailSound(s: string, at: int, ok: bool)
    requires at == IndexOf(s, '@')
    requires ok == (at >= 0 && EmailPart(s[..at]) && EmailPart(s[at + 1..]) && HasInnerDot(s[at + 1..]))
    ensures ok ==> MatchesEmailPattern(s)
  {
    if !ok { return; }
    var d := s[at + 1..];
    var k :| 0 < k < |d| - 1 && d[k] == '.';
    var j := at + 1 + k;
    assert s[j] == d[k];
    forall m | 0 <= m < |s| && m != at ensures EmailChar(s[m]) {
      if m < at {
        assert s[m] == s[..at][m];
      } else {
        assert s[m] == d[m - at - 1];
      }
    }
  }

  lemma ValidateEmailComplete(s: string, at: int, ok: bool)
    requires at == IndexOf(s, '@')
    requires ok == (at >= 0 && EmailPart(s[..at]) && EmailPart(s[at + 1..]) && HasInnerDot(s[at + 1..]))
    ensures MatchesEmailPattern(s) ==> ok
  {
    if !MatchesEmailPattern(s) { return; }
    var i, j :| 0 < i && i + 1 < j && j + 1 < |s| && s[i] == '@' && s[j] == '.'
      && forall k :: 0 <= k < |s| && k != i ==> EmailChar(s[k]);
    MatchSides(s, i, j);
  }

  /** The sides of a match around its '@': the '@' is the first one, and
      both sides are runs of `[^\s@]` with an inner '.' on the right. */
  lemma MatchSides(s: string, i: int, j: int)
    requires 0 < i && i + 1 < j && j + 1 < |s| && s[i] == '@' && s[j] == '.'
    requires forall k :: 0 <= k < |s| && k != i ==> EmailChar(s[k])
    ensures IndexOf(s, '@') == i
    ensures EmailPart(s[..i]) && EmailPart(s[i + 1..]) && HasInnerDot(s[i + 1..])
  {
    var at := IndexOf(s, '@');
    assert at == i by {
      assert forall k :: 0 <= k < |s| && s[k] == '@' ==> k == i;
    }
    var d := s[i + 1..];
    assert d[j - i - 1] == '.';
    assert forall m :: 0 <= m < |d| ==> d[m] == s[i + 1 + m];
  }

  /** The same pattern as a decomposition: `local "@" domain` is accepted
      exactly when both sides are runs of `[^\s@]` and the domain has an
      inner '.'. */
  lemma ValidateEmailDecomposed(local: string, domain: string)
    ensures ValidateEmail(local + "@" + domain)
      <==> EmailPart(local) && EmailPart(domain) && HasInnerDot(domain)
  {
    var s := local + "@" + domain;
    if EmailPart(local) {
      assert s[..|local|] == local && s[|local| + 1..] == domain;
      assert s[|local|] == '@';
      assert '@' !in s[..|local|];
      assert IndexOf(s, '@') == |local|;
    } else {
      var at := IndexOf(s, '@');
      assert s[|local|] == '@';
      assert at <= |local| by {
        assert s[..|local| + 1][|local|] == '@';
      }
      if at == |local| {
        assert s[..at] == local;
      } else {
        assert at < |local| && s[at + 1..][|local| - at - 1] == '@';
      }
    }
  }

  /** An accepted email holds exactly one '@' and no whitespace. */
  lemma AcceptedEmailShape(s: string)
    requires ValidateEmail(s)
    ensures NoSpace(s) && '@' in s
    ensures forall i, j :: 0 <= i < j < |s| && s[i] == '@' ==> s[j] != '@'
  {
    var i, j :| 0 < i && i + 1 < j && j + 1 < |s| && s[i] == '@' && s[j] == '.'
      && forall k :: 0 <= k < |s| && k != i ==> EmailChar(s[k]);
  }

  /** The email check both forms make: required first, then the pattern. */
  function EmailError(email: string): (r: Option<string>)
    ensures r.Some? <==> email == "" || !ValidateEmail(email)
    ensures email == "" ==> r == Some("Email is required")
    ensures email != "" && !ValidateEmail(email) ==> r == Some("Please enter a valid email")
  {
    if email == "" then Some("Email is required")
    else if !ValidateEmail(email) then Some("Please enter a valid email")
    else None
  }

  /** `newErrors.key = message` when a check produced a message. */
  function AddError(errs: map<string, string>, key: string, e: Option<string>): (r: map<string, string>)
    ensures r.Keys == errs.Keys + (if e.Some? then {key} else {})
    ensures e.Some? ==> r[key] == e.value
  {
    if e.Some? then errs[key := e.value] else errs
  }

  datatype LoginFields = LoginFields(email: string, password: string)

  /** The error map built by `handleLogin`: an entry per failed check, with
      that check's message. */
  function LoginErrors(f: LoginFields): (errs: map<string, string>)
    ensures errs.Keys <= {"email", "password"}
    ensures "email" in errs <==> EmailError(f.email).Some?
    ensures "email" in errs ==> errs["email"] == EmailError(f.email).value
    ensures "password" in errs <==> f.password == ""
    ensures f.password == "" ==> errs["password"] == "Password is required"
  {
    var e1 := AddError(map[], "email", EmailError(f.email));
    var e2 := AddError(e1, "password", if f.password == "" then Some("Password is required") else None);
    assert "email" in e1 ==> e2["email"] == e1["email"];
    e2
  }

  /** `loginUser(email, password)` is called only when the error map is
      empty, with the body `{ email, password }`. */
  function LoginRequest(f: LoginFields): (r: Option<Body>)
    ensures r.Some? <==> f.email != "" && ValidateEmail(f.email) && f.password != ""
    ensures r.Some? ==> r.value == map["email" := Str(f.email), "password" := Str(f.password)]
  {
    var errs := LoginErrors(f);
    assert |errs| == 0 <==> errs.Keys == {};
    if |errs| == 0 then Some(map["email" := Str(f.email), "password" := Str(f.password)]) else None
  }

  datatype RegisterFields = RegisterFields(email: string, password: string, confirmPassword: string)

  /** The client's minimum password length. */
  const ClientMinPassword: nat := 6

  /** The password check of `handleRegister`. */
  function PasswordError(password: string): (r: Option<string>)
    ensures r.Some? <==> |password| < ClientMinPassword
    ensures password == "" ==> r == Some("Password is required")
    ensures 0 < |password| < ClientMinPassword ==> r == Some("Password must be at least 6 characters")
  {
    if password == "" then Some("Password is required")
    else if |password| < ClientMinPassword then Some("Password must be at least 6 characters")
    else None
  }

  /** The confirmation check of `handleRegister`. */
  function ConfirmError(f: RegisterFields): (r: Option<string>)
    ensures r.Some? <==> f.password != f.confirmPassword
    ensures r.Some? ==> r.value == "Passwords do not match"
  {
    if f.password != f.confirmPassword then Some("Passwords do not match") else None
  }

  /** The error map built by `handleRegister`: an entry per failed check,
      with that check's message. */
  function RegisterErrors(f: RegisterFields): (errs: map<string, string>)
    ensures errs.Keys <= {"email", "password", "confirmPassword"}
    ensures "email" in errs <==> EmailError(f.email).Some?
    ensures "email" in errs ==> errs["email"] == EmailError(f.email).value
    ensures "password" in errs <==> PasswordError(f.password).Some?
    ensures "password" in errs ==> errs["password"] == PasswordError(f.password).value
    ensures "confirmPassword" in errs <==> ConfirmError(f).Some?
    ensures "confirmPassword" in errs ==> errs["confirmPassword"] == "Passwords do not match"
  {
    var e1 := AddError(map[], "email", EmailError(f.email));
    var e2 := AddError(e1, "password", PasswordError(f.password));
    assert "email" in e1 ==> e2["email"] == e1["email"];
    var e3 := AddError(e2, "confirmPassword", ConfirmError(f));
    assert "email" in e2 ==> e3["email"] == e2["email"];
    assert "password" in e2 ==> e3["password"] == e2["password"];
    e3
  }

  /** `registerUser(email, password)` is called only when the error map is
      empty, with the body `{ email, password }`. */
  function RegisterRequest(f: RegisterFields): (r: Option<Body>)
    ensures r.Some? <==>
      f.email != "" && ValidateEmail(f.email) && |f.password| >= ClientMinPassword && f.password == f.confirmPassword
    ensures r.Some? ==> r.value == map["email" := Str(f.email), "password" := Str(f.password)]
  {
    var errs := RegisterErrors(f);
    assert |errs| == 0 <==> errs.Keys == {};
    if |errs| == 0 then Some(map["email" := Str(f.email), "password" := Str(f.password)]) else None
  }
}
