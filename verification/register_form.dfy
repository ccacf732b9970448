/** The registration page: field validation before anything is sent, the
    clearing of a field's error while the user types, and the mapping of the
    server's refusal onto the form's fields. */
module RegisterForm {
  import opened Maybe
  import opened Text
  import opened Records
  import opened Api
  import AuthService
  import AuthContext
  import Wire

  datatype Form = Form(username: string, email: string, password: string, confirmPassword: string)

  /** The four inputs of the form. */
  datatype Field = Username | Email | Password | ConfirmPassword

  /** An entry of the error object: a field's error or the general one. */
  datatype ErrorKey = On(field: Field) | General

  type Errors = map<ErrorKey, string>

  const UsernameRequired: string := "Username is required"
  const UsernameShort: string := "Username must be at least 3 characters"
  const UsernameCharacters: string := "Username can only contain letters, numbers, and underscores"
  const EmailRequired: string := "Email is required"
  const EmailMalformed: string := "Please enter a valid email address"
  const PasswordRequired: string := "Password is required"
  const PasswordShort: string := "Password must be at least 6 characters"
  const ConfirmRequired: string := "Please confirm your password"
  const ConfirmMismatch: string := "Passwords do not match"
  const EmailTakenShown: string := "This email is already registered"
  const UsernameTakenShown: string := "This username is already taken"

  /** The class `[a-zA-Z0-9_]`. */
  predicate IsWordChar(c: char) {
    ('a' <= c <= 'z') || ('A' <= c <= 'Z') || ('0' <= c <= '9') || c == '_'
  }

  /** `/^[a-zA-Z0-9_]+$/`. */
  predicate IsWord(s: string) {
    |s| > 0 && forall i :: 0 <= i < |s| ==> IsWordChar(s[i])
  }

  /** The class `[^\s@]`. */
  predicate Plain(c: char) {
    !IsSpace(c) && c != '@'
  }

  predicate AllPlain(s: string) {
    forall i :: 0 <= i < |s| ==> Plain(s[i])
  }

  /** `e` read as a non-empty local part, the `@` at `i`, a non-empty part,
      the `.` at `j`, and a non-empty part, none of them holding whitespace
      or `@`. */
  predicate SplitsAt(e: string, i: int, j: int) {
    && 0 < i && i + 1 < j && j + 1 < |e| && e[i] == '@' && e[j] == '.'
    && AllPlain(e[..i]) && AllPlain(e[i + 1..j]) && AllPlain(e[j + 1..])
  }

  /** `/^[^\s@]+@[^\s@]+\.[^\s@]+$/`: some reading of `e` as above. */
  ghost predicate EmailPattern(e: string) {
    exists i, j :: SplitsAt(e, i, j)
  }

  /** The executable test, given the position `i` of the first `@`: a
      non-empty part before it, and after it at least three characters with
      a `.` strictly inside them, no whitespace and no further `@`. */
  predicate PartsOk(e: string, i: nat)
    requires i < |e|
  {
    var rest := e[i + 1..];
    0 < i && AllPlain(e[..i]) && AllPlain(rest) && |rest| >= 3 && '.' in rest[1..|rest| - 1]
  }

  /** The pattern test without a search: one `@`, something before it, and
      a `.` after it with something on either side. */
  function EmailMatches(e: string): (ok: bool)
    ensures ok <==> EmailPattern(e)
  {
    PatternHasAt(e);
    if '@' !in e then false
    else
      var i := IndexOf(e, '@');
      var ok := PartsOk(e, i);
      assert ok ==> EmailPattern(e) by {
        if ok {
          PartsGivePattern(e, i);
        }
      }
      assert EmailPattern(e) ==> ok by {
        if EmailPattern(e) {
          PatternGivesParts(e, i);
        }
      }
      ok
  }

  lemma PatternHasAt(e: string)
    ensures EmailPattern(e) ==> '@' in e && !AllSpace(e)
  {
    if EmailPattern(e) {
      var i, j :| SplitsAt(e, i, j);
      assert e[i] in e;
      assert Plain(e[..i][0]);
    }
  }

  lemma PlainConcat(a: string, c: char, b: string)
    requires AllPlain(a) && Plain(c) && AllPlain(b)
    ensures AllPlain(a + [c] + b)
  {
    var s := a + [c] + b;
    forall k | 0 <= k < |s| ensures Plain(s[k]) {
      if k < |a| {
        assert s[k] == a[k];
      } else if k > |a| {
        assert s[k] == b[k - |a| - 1];
      }
    }
  }

  /** The first `@` of a string matching the pattern is the pattern's `@`. */
  lemma PatternAt(e: string, i: nat, a: nat)
    requires i < |e| && e[i] == '@' && '@' !in e[..i]
    requires a < |e| && e[a] == '@' && AllPlain(e[..a])
    ensures a == i
  {
    var before := e[..i];
    forall k | 0 <= k < i ensures e[k] != '@' {
      assert e[k] == before[k];
    }
    var head := e[..a];
    forall k | 0 <= k < a ensures e[k] != '@' {
      assert e[k] == head[k];
      assert Plain(head[k]);
    }
  }

  /** A string matching the pattern passes the executable test at its first `@`. */
  lemma PatternGivesParts(e: string, i: nat)
    requires i < |e| && e[i] == '@' && '@' !in e[..i]
    requires EmailPattern(e)
    ensures PartsOk(e, i)
  {
    var a, b :| SplitsAt(e, a, b);
    PatternAt(e, i, a);
    var rest := e[i + 1..];
    var inner := e[i + 1..b];
    var tail := e[b + 1..];
    assert rest == inner + [e[b]] + tail;
    PlainConcat(inner, e[b], tail);
    var mid := rest[1..|rest| - 1];
    assert mid[b - i - 2] == '.';
  }

  /** A string passing the executable test matches the pattern. */
  lemma PartsGivePattern(e: string, i: nat)
    requires i < |e| && e[i] == '@'
    requires PartsOk(e, i)
    ensures EmailPattern(e)
  {
    var rest := e[i + 1..];
    var mid := rest[1..|rest| - 1];
    var m :| 0 <= m < |mid| && mid[m] == '.';
    var j := i + 2 + m;
    assert e[j] == '.';
    var inner := e[i + 1..j];
    forall k | 0 <= k < |inner| ensures Plain(inner[k]) {
      assert inner[k] == rest[k];
    }
    var tail := e[j + 1..];
    forall k | 0 <= k < |tail| ensures Plain(tail[k]) {
      assert tail[k] == rest[j - i + k];
    }
    assert SplitsAt(e, i, j);
  }

  /** The username check: required, then at least three characters, then
      only letters, digits and underscores. */
  function UsernameError(u: string): (e: Option<string>)
    ensures e.None? <==> |u| >= 3 && IsWord(u)
    ensures AllSpace(u) ==> e == Some(UsernameRequired)
    ensures !AllSpace(u) && |u| < 3 ==> e == Some(UsernameShort)
    ensures e.Some? ==> e.value != ""
  {
    if Trim(u) == "" then Some(UsernameRequired)
    else if |u| < 3 then Some(UsernameShort)
    else if !IsWord(u) then Some(UsernameCharacters)
    else
      assert !IsSpace(u[0]);
      None
  }

  /** The e-mail check: required, then the pattern. */
  function EmailError(e: string): (err: Option<string>)
    ensures err.None? <==> EmailPattern(e)
    ensures AllSpace(e) ==> err == Some(EmailRequired)
    ensures err.Some? ==> err.value != ""
  {
    PatternHasAt(e);
    if Trim(e) == "" then Some(EmailRequired)
    else if !EmailMatches(e) then Some(EmailMalformed)
    else None
  }

  /** The password check: required, then at least six characters. */
  function PasswordError(p: string): (e: Option<string>)
    ensures e.None? <==> |p| >= 6
    ensures p == "" ==> e == Some(PasswordRequired)
    ensures e.Some? ==> e.value != ""
  {
    if p == "" then Some(PasswordRequired)
    else if |p| < 6 then Some(PasswordShort)
    else None
  }

  /** The confirmation check: required, then equal to the password. */
  function ConfirmError(p: string, c: string): (e: Option<string>)
    ensures e.None? <==> c != "" && c == p
    ensures c == "" ==> e == Some(ConfirmRequired)
    ensures e.Some? ==> e.value != ""
  {
    if c == "" then Some(ConfirmRequired)
    else if p != c then Some(ConfirmMismatch)
    else None
  }

  /** What the form requires of a registration, stated without the checks. */
  ghost predicate Acceptable(f: Form) {
    && |f.username| >= 3 && IsWord(f.username)
    && EmailPattern(f.email)
    && |f.password| >= 6
    && f.confirmPassword == f.password
  }

  /** The errors object assembled from the four fields' verdicts: one entry
      per failed check, holding its message. */
  function Collect(u: Option<string>, e: Option<string>, p: Option<string>, c: Option<string>): (errs: Errors)
    ensures errs == map[] <==> u.None? && e.None? && p.None? && c.None?
    ensures General !in errs
    ensures On(Username) in errs <==> u.Some?
    ensures On(Email) in errs <==> e.Some?
    ensures On(Password) in errs <==> p.Some?
    ensures On(ConfirmPassword) in errs <==> c.Some?
    ensures u.Some? ==> errs[On(Username)] == u.value
    ensures e.Some? ==> errs[On(Email)] == e.value
    ensures p.Some? ==> errs[On(Password)] == p.value
    ensures c.Some? ==> errs[On(ConfirmPassword)] == c.value
  {
    var e1 := if u.Some? then map[On(Username) := u.value] else map[];
    var e2 := if e.Some? then e1[On(Email) := e.value] else e1;
    var e3 := if p.Some? then e2[On(Password) := p.value] else e2;
    var e4 := if c.Some? then e3[On(ConfirmPassword) := c.value] else e3;
    assert u.Some? ==> On(Username) in e4;
    e4
  }

  /** `validateForm()`: each field's check runs, and the message of every
      failing one is entered under that field; there is never a general
      error. */
  function Validate(f: Form): (errs: Errors)
    ensures General !in errs
    ensures On(Username) in errs <==> UsernameError(f.username).Some?
    ensures On(Email) in errs <==> EmailError(f.email).Some?
    ensures On(Password) in errs <==> PasswordError(f.password).Some?
    ensures On(ConfirmPassword) in errs <==> ConfirmError(f.password, f.confirmPassword).Some?
    ensures On(Username) in errs ==> Shown(errs, On(Username)) && errs[On(Username)] == UsernameError(f.username).value
    ensures On(Email) in errs ==> Shown(errs, On(Email)) && errs[On(Email)] == EmailError(f.email).value
    ensures On(Password) in errs ==> Shown(errs, On(Password)) && errs[On(Password)] == PasswordError(f.password).value
    ensures On(ConfirmPassword) in errs ==>
              Shown(errs, On(ConfirmPassword)) && errs[On(ConfirmPassword)] == ConfirmError(f.password, f.confirmPassword).value
  {
    Collect(UsernameError(f.username), EmailError(f.email), PasswordError(f.password),
            ConfirmError(f.password, f.confirmPassword))
  }

  /** The form is valid exactly when it meets the registration's
      requirements: a word of at least three characters, an address of the
      pattern's shape, a password of at least six characters, confirmed. */
  lemma ValidExactlyWhenAcceptable(f: Form)
    ensures Validate(f) == map[] <==> Acceptable(f)
  {
    assert Validate(f) == Collect(UsernameError(f.username), EmailError(f.email), PasswordError(f.password),
                                  ConfirmError(f.password, f.confirmPassword));
  }

  /** A form that passes its own checks also passes the server's length
      checks for the username and the password; only the server's e-mail
      test can still refuse it. */
  lemma AcceptedFormPassesServerLengths(env: Env, f: Form)
    requires Validate(f) == map[]
    ensures var errs := AuthService.RegistrationErrors(env, f.username, f.email, f.password);
            errs == [] || errs == [AuthService.EmailInvalid]
  {
    assert On(Username) !in Validate(f) && On(Password) !in Validate(f);
    assert |f.username| >= 3 && |f.password| >= 6;
  }

  function Value(f: Form, k: Field): string {
    match k
    case Username => f.username
    case Email => f.email
    case Password => f.password
    case ConfirmPassword => f.confirmPassword
  }

  function Edit(f: Form, k: Field, v: string): Form {
    match k
    case Username => f.(username := v)
    case Email => f.(email := v)
    case Password => f.(password := v)
    case ConfirmPassword => f.(confirmPassword := v)
  }

  /** An error the page displays: present and non-empty. */
  predicate Shown(errs: Errors, k: ErrorKey) {
    k in errs && errs[k] != ""
  }

  /** `handleChange`: the typed value goes into its field, and that field's
      error, if shown, is blanked; every other field and error is kept. */
  function HandleChange(f: Form, errs: Errors, k: Field, v: string): (out: (Form, Errors))
    ensures Value(out.0, k) == v
    ensures forall j :: j != k ==> Value(out.0, j) == Value(f, j)
    ensures out.1.Keys == errs.Keys
    ensures !Shown(out.1, On(k))
    ensures forall j :: j != On(k) && j in errs ==> out.1[j] == errs[j]
  {
    var errs' := if Shown(errs, On(k)) then errs[On(k) := ""] else errs;
    (Edit(f, k, v), errs')
  }

  /** What submitting does before any request: either the errors stay on the
      page, or the three registration fields are sent. */
  datatype Plan = Blocked(errors: Errors) | Send(username: string, email: string, password: string)

  function Submit(f: Form): (p: Plan)
    ensures p.Send? <==> Acceptable(f)
    ensures p.Blocked? ==> p.errors == Validate(f) && p.errors != map[]
    ensures p.Send? ==> p == Send(f.username, f.email, f.password)
  {
    var errs := Validate(f);
    ValidExactlyWhenAcceptable(f);
    if errs != map[] then Blocked(errs) else Send(f.username, f.email, f.password)
  }

  /** The errors shown for a refused registration: duplicates go to their
      field, anything else to the general message. */
  function ServerErrors(message: string): (errs: Errors)
    ensures |errs.Keys| == 1
    ensures Contains(message, AuthService.EmailTaken) ==> errs == map[On(Email) := EmailTakenShown]
    ensures !Contains(message, AuthService.EmailTaken) && Contains(message, AuthService.UsernameTaken) ==>
              errs == map[On(Username) := UsernameTakenShown]
    ensures !Contains(message, AuthService.EmailTaken) && !Contains(message, AuthService.UsernameTaken) ==>
              errs == map[General := message]
  {
    if Contains(message, AuthService.EmailTaken) then map[On(Email) := EmailTakenShown]
    else if Contains(message, AuthService.UsernameTaken) then map[On(Username) := UsernameTakenShown]
    else map[General := message]
  }

  /** The page after `register` resolves: navigate home, or show errors. */
  function Settled(r: AuthContext.Result): (out: (bool, Errors))
    ensures out.0 <==> r.Success?
    ensures r.Success? ==> out.1 == map[]
    ensures r.Refused? ==> out.1 == ServerErrors(r.message)
  {
    match r
    case Success => (true, map[])
    case Refused(m) => (false, ServerErrors(m))
  }

  /** A duplicate e-mail address, refused by the server, ends up as the
      e-mail field's error on the page. */
  lemma DuplicateEmailShownOnField(env: Env, ctx: Context, f: Form, store: Store,
                                   s: AuthContext.Session, codec: AuthContext.Codec, probe: bool)
    requires !HasUserId(store.users, ctx.freshId)
    requires s.serverOnline || probe
    requires AuthService.RegistrationErrors(env, f.username, f.email, f.password) == []
    requires AuthService.FindBy(store.users, true, f.email).Some?
    ensures var o := AuthService.Register(env, ctx, f.username, f.email, f.password, store);
            var r := AuthContext.Register(s, codec, probe, Wire.Receive(o.response)).1;
            Settled(r) == (false, map[On(Email) := EmailTakenShown])
  {
    AuthContext.DuplicateEmailReported(env, ctx, f.username, f.email, f.password, store, s, codec, probe);
    assert Contains(AuthService.EmailTaken, AuthService.EmailTaken) by {
      assert OccursAt(AuthService.EmailTaken, AuthService.EmailTaken, 0);
    }
  }
}
