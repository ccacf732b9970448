/** The server's token gate and account routes (`server/server.js`):
    `authenticateToken`, register, login, change-password and profile. */
module AuthService {
  import opened Maybe
  import opened Text
  import opened Records
  import opened Api

  const TokenRequired: string := "Access token required"
  const InvalidToken: string := "Invalid token"
  const ValidationFailed: string := "Validation failed"
  const UsernameTooShort: string := "Username must be at least 3 characters"
  const EmailInvalid: string := "Valid email required"
  const PasswordTooShort: string := "Password must be at least 6 characters"
  const EmailTaken: string := "Email already registered"
  const UsernameTaken: string := "Username already taken"
  const CredentialsRequired: string := "Email and password are required"
  const BadCredentials: string := "Invalid email or password"
  const CurrentPasswordRequired: string := "Current password is required"
  const NewPasswordTooShort: string := "New password must be at least 6 characters"
  const UserNotFound: string := "User not found"
  const CurrentPasswordWrong: string := "Current password is incorrect"
  const PasswordUpdated: string := "Password updated successfully"

  /** The result of the token gate: the caller's user id, or the rejection. */
  datatype Gate = Admit(caller: UserId) | Refuse(response: Response)

  /** `authHeader && authHeader.split(' ')[1]`, kept only when truthy: the
      text between the first space and the next one (or the end). The scheme
      word before the space is never inspected. */
  function BearerToken(header: Option<string>): (token: Option<string>)
    ensures token.Some? ==> header.Some? && token.value != "" && ' ' !in token.value
    ensures header.Some? && ' ' !in header.value ==> token.None?
  {
    match header
    case None => None
    case Some(h) =>
      var parts := Split(h, ' ');
      if |parts| >= 2 && parts[1] != "" then Some(parts[1]) else None
  }

  /** `h` is a first word, one space, a second word and then either nothing or
      more text that starts with a space. */
  predicate Words(h: string, scheme: string, word: string, rest: string) {
    && ' ' !in scheme && ' ' !in word && (rest == "" || rest[0] == ' ')
    && h == scheme + " " + word + rest
  }

  /** Every header with a space in it has exactly that shape. */
  lemma HeaderWords(h: string)
    requires ' ' in h
    ensures exists scheme, word, rest :: Words(h, scheme, word, rest)
  {
    var i := IndexOf(h, ' ');
    assert h == h[..i] + " " + h[i + 1..];
    var w := AfterScheme(h, h[..i], h[i + 1..]);
    assert Words(h, h[..i], w, h[i + 1 + |w|..]);
  }

  /** The second word of `scheme + " " + t`. */
  lemma AfterScheme(h: string, scheme: string, t: string) returns (word: string)
    requires ' ' !in scheme && h == scheme + " " + t
    ensures |word| <= |t| && Words(h, scheme, word, t[|word|..])
  {
    if ' ' in t {
      var j := IndexOf(t, ' ');
      word := t[..j];
      assert t == word + t[j..];
      assert scheme + " " + (word + t[j..]) == scheme + " " + word + t[j..];
    } else {
      word := t;
      assert t[|t|..] == "";
      assert scheme + " " + t + "" == scheme + " " + t;
    }
  }

  /** The token is the second word of the header, and there is none when that
      word is empty (two spaces in a row, or a trailing space). */
  lemma {:induction false} BearerTokenOfWords(scheme: string, word: string, rest: string)
    requires ' ' !in scheme && ' ' !in word && (rest == "" || rest[0] == ' ')
    ensures BearerToken(Some(scheme + " " + word + rest)) == if word == "" then None else Some(word)
  {
    var h := scheme + " " + word + rest;
    assert h == scheme + [' '] + (word + rest);
    SplitAppend(scheme, word + rest, ' ');
    assert Split(scheme, ' ') == [scheme];
    FirstPiece(word, rest);
    assert Split(h, ' ')[1] == word;
  }

  lemma FirstPiece(word: string, rest: string)
    requires ' ' !in word && (rest == "" || rest[0] == ' ')
    ensures Split(word + rest, ' ')[0] == word
  {
    var t := word + rest;
    if rest == "" {
      assert t == word;
    } else {
      assert t[|word|] == ' ' && t[..|word|] == word;
      assert IndexOf(t, ' ') == |word|;
    }
  }

  /** The header the client sends is read back as the token it carries. */
  lemma {:induction false} BearerTokenOfBearerHeader(scheme: string, token: string)
    requires ' ' !in scheme && ' ' !in token && token != ""
    ensures BearerToken(Some(scheme + " " + token)) == Some(token)
  {
    BearerTokenOfWords(scheme, token, "");
    assert scheme + " " + token + "" == scheme + " " + token;
  }

  /** `authenticateToken`: 401 without a token, 403 when `jwt.verify`
      rejects it, otherwise the payload's user id becomes the caller. */
  function Authenticate(env: Env, header: Option<string>): (g: Gate)
    ensures BearerToken(header).None? ==> g == Refuse(Response(401, Failure(TokenRequired)))
    ensures BearerToken(header).Some? && env.verify(BearerToken(header).value).None? ==>
              g == Refuse(Response(403, Failure(InvalidToken)))
    ensures g.Admit? <==> BearerToken(header).Some? && env.verify(BearerToken(header).value).Some?
    ensures g.Admit? ==> Some(g.caller) == env.verify(BearerToken(header).value)
  {
    match BearerToken(header)
    case None => Refuse(Response(401, Failure(TokenRequired)))
    case Some(token) =>
      match env.verify(token)
      case None => Refuse(Response(403, Failure(InvalidToken)))
      case Some(id) => Admit(id)
  }

  /** First user whose field `key` (e-mail address or username) equals
      `value`: `User.findOne({ [key]: value })`. */
  function FindBy(users: seq<User>, byEmail: bool, value: string): (u: Option<User>)
    ensures u.Some? ==> u.value in users && (if byEmail then u.value.email else u.value.username) == value
    ensures u.None? <==> forall i :: 0 <= i < |users| ==> (if byEmail then users[i].email else users[i].username) != value
  {
    if |users| == 0 then None
    else if (if byEmail then users[0].email else users[0].username) == value then Some(users[0])
    else
      var r := FindBy(users[1..], byEmail, value);
      assert forall i :: 1 <= i < |users| ==> users[i] == users[1..][i - 1];
      r
  }

  /** `User.findById(id)`. */
  function FindById(users: seq<User>, id: UserId): (u: Option<User>)
    ensures u.Some? ==> u.value in users && u.value.id == id
    ensures u.None? <==> !HasUserId(users, id)
  {
    if |users| == 0 then None
    else if users[0].id == id then Some(users[0])
    else
      var r := FindById(users[1..], id);
      assert forall i :: 1 <= i < |users| ==> users[i] == users[1..][i - 1];
      r
  }

  /** The `validateUser` chain, in order: username length, e-mail form,
      password length. */
  function RegistrationErrors(env: Env, username: string, email: string, password: string): (errs: seq<string>)
    ensures errs == [] <==> |username| >= 3 && env.isEmail(email) && |password| >= 6
    ensures UsernameTooShort in errs <==> |username| < 3
    ensures PasswordTooShort in errs <==> |password| < 6
  {
    (if |username| < 3 then [UsernameTooShort] else [])
    + (if !env.isEmail(email) then [EmailInvalid] else [])
    + (if |password| < 6 then [PasswordTooShort] else [])
  }

  /** `POST /api/auth/register`. A missing body field is modelled as the empty
      string. A duplicate e-mail address is reported before a duplicate
      username, each whatever the other field holds. */
  function Register(env: Env, ctx: Context, username: string, email: string, password: string, s: Store): (o: Outcome)
    requires !HasUserId(s.users, ctx.freshId)
    ensures o.response.status == 201 <==>
              && RegistrationErrors(env, username, email, password) == []
              && FindBy(s.users, true, email).None? && FindBy(s.users, false, username).None?
    ensures o.response.status != 201 ==> o.store == s && o.response.status == 400
    ensures RegistrationErrors(env, username, email, password) != [] ==>
              o.response == Response(400, Rejected(Some(ValidationFailed), RegistrationErrors(env, username, email, password)))
    ensures o.response.status == 201 ==>
              var u := User(ctx.freshId, username, email, ctx.hashed, ctx.now);
              && o.store == s.(users := s.users + [u])
              && o.response.reply == SignedIn(env.sign(u.id), InfoOf(u))
    ensures RegistrationErrors(env, username, email, password) == [] && FindBy(s.users, true, email).Some? ==>
              o.response == Response(400, Failure(EmailTaken))
    ensures RegistrationErrors(env, username, email, password) == [] && FindBy(s.users, true, email).None?
              && FindBy(s.users, false, username).Some? ==>
              o.response == Response(400, Failure(UsernameTaken))
    ensures UniqueAccounts(s.users) ==> UniqueAccounts(o.store.users)
  {
    var errs := RegistrationErrors(env, username, email, password);
    if errs != [] then
      Outcome(Response(400, Rejected(Some(ValidationFailed), errs)), s)
    else if FindBy(s.users, true, email).Some? then
      Outcome(Response(400, Failure(EmailTaken)), s)
    else if FindBy(s.users, false, username).Some? then
      Outcome(Response(400, Failure(UsernameTaken)), s)
    else
      var u := User(ctx.freshId, username, email, ctx.hashed, ctx.now);
      Outcome(Response(201, SignedIn(env.sign(u.id), InfoOf(u))), s.(users := s.users + [u]))
  }

  /** `POST /api/auth/login`. Unknown e-mail and wrong password give the same
      reply, so the reply does not reveal which accounts exist. */
  function Login(env: Env, email: string, password: string, s: Store): (o: Outcome)
    ensures o.store == s
    ensures (email == "" || password == "") ==> o.response == Response(400, Failure(CredentialsRequired))
    ensures o.response.status == 200 <==>
              && email != "" && password != ""
              && FindBy(s.users, true, email).Some?
              && env.matches(password, FindBy(s.users, true, email).value.passwordHash)
    ensures o.response.status == 200 ==>
              var u := FindBy(s.users, true, email).value;
              o.response.reply == SignedIn(env.sign(u.id), InfoOf(u))
    ensures o.response.status != 200 && email != "" && password != "" ==>
              o.response == Response(400, Failure(BadCredentials))
  {
    if email == "" || password == "" then
      Outcome(Response(400, Failure(CredentialsRequired)), s)
    else
      match FindBy(s.users, true, email)
      case None => Outcome(Response(400, Failure(BadCredentials)), s)
      case Some(u) =>
        if !env.matches(password, u.passwordHash) then Outcome(Response(400, Failure(BadCredentials)), s)
        else Outcome(Response(200, SignedIn(env.sign(u.id), InfoOf(u))), s)
  }

  /** The validators of the change-password route, in order. */
  function PasswordChangeErrors(currentPassword: string, newPassword: string): (errs: seq<string>)
    ensures errs == [] <==> currentPassword != "" && |newPassword| >= 6
  {
    (if currentPassword == "" then [CurrentPasswordRequired] else [])
    + (if |newPassword| < 6 then [NewPasswordTooShort] else [])
  }

  /** The change-password handler, behind the token gate. */
  function ChangePassword(env: Env, ctx: Context, caller: UserId, currentPassword: string, newPassword: string, s: Store): (o: Outcome)
    ensures o.response.status == 200 <==>
              && PasswordChangeErrors(currentPassword, newPassword) == []
              && FindById(s.users, caller).Some?
              && env.matches(currentPassword, FindById(s.users, caller).value.passwordHash)
    ensures o.response.status != 200 ==> o.store == s
    ensures PasswordChangeErrors(currentPassword, newPassword) != [] ==>
              o.response == Response(400, Rejected(Some(ValidationFailed), PasswordChangeErrors(currentPassword, newPassword)))
    ensures PasswordChangeErrors(currentPassword, newPassword) == [] && FindById(s.users, caller).None? ==>
              o.response == Response(404, Failure(UserNotFound))
    ensures PasswordChangeErrors(currentPassword, newPassword) == [] && FindById(s.users, caller).Some?
              && !env.matches(currentPassword, FindById(s.users, caller).value.passwordHash) ==>
              o.response == Response(400, Failure(CurrentPasswordWrong))
    ensures o.response.status == 200 ==>
              && o.response.reply == Confirmed(PasswordUpdated)
              && o.store.todos == s.todos && o.store.events == s.events
              && |o.store.users| == |s.users|
              && forall i :: 0 <= i < |s.users| ==>
                   o.store.users[i] == (if s.users[i].id == caller then s.users[i].(passwordHash := ctx.hashed) else s.users[i])
  {
    var errs := PasswordChangeErrors(currentPassword, newPassword);
    if errs != [] then
      Outcome(Response(400, Rejected(Some(ValidationFailed), errs)), s)
    else
      match FindById(s.users, caller)
      case None => Outcome(Response(404, Failure(UserNotFound)), s)
      case Some(u) =>
        if !env.matches(currentPassword, u.passwordHash) then
          Outcome(Response(400, Failure(CurrentPasswordWrong)), s)
        else
          var users := seq(|s.users|, i requires 0 <= i < |s.users| =>
            if s.users[i].id == caller then s.users[i].(passwordHash := ctx.hashed) else s.users[i]);
          Outcome(Response(200, Confirmed(PasswordUpdated)), s.(users := users))
  }

  /** `GET /api/auth/profile`, behind the token gate: the caller's account
      without its password hash. */
  function Profile(caller: UserId, s: Store): (o: Outcome)
    ensures o.store == s
    ensures o.response.status == 200 <==> HasUserId(s.users, caller)
    ensures o.response.status == 200 ==>
              exists i :: 0 <= i < |s.users| && s.users[i].id == caller
                && o.response.reply == ProfileOf(InfoOf(s.users[i]), s.users[i].createdAt)
    ensures o.response.status != 200 ==> o.response == Response(404, Failure(UserNotFound))
  {
    match FindById(s.users, caller)
    case None => Outcome(Response(404, Failure(UserNotFound)), s)
    case Some(u) => Outcome(Response(200, ProfileOf(InfoOf(u), u.createdAt)), s)
  }

  /** Right after a registration, the new account's profile shows the
      username and e-mail it registered with and the time it was created. */
  lemma RegisteredProfile(env: Env, ctx: Context, username: string, email: string, password: string, s: Store)
    requires !HasUserId(s.users, ctx.freshId)
    requires Register(env, ctx, username, email, password, s).response.status == 201
    ensures var p := Profile(ctx.freshId, Register(env, ctx, username, email, password, s).store);
            && p.response.status == 200
            && p.response.reply == ProfileOf(UserInfo(ctx.freshId, username, email), ctx.now)
  {
    var users := Register(env, ctx, username, email, password, s).store.users;
    var u := User(ctx.freshId, username, email, ctx.hashed, ctx.now);
    assert users == s.users + [u];
    assert users[|s.users|] == u;
    assert forall i :: 0 <= i < |s.users| ==> users[i] == s.users[i];
  }

  /** When the token function reads back what the sign function issued, the
      token a registration returns, presented as a bearer header, admits its
      holder as the new user. */
  lemma RegisteredTokenAuthenticates(env: Env, ctx: Context, username: string, email: string, password: string, s: Store)
    requires !HasUserId(s.users, ctx.freshId)
    requires env.verify(env.sign(ctx.freshId)) == Some(ctx.freshId)
    requires ' ' !in env.sign(ctx.freshId) && env.sign(ctx.freshId) != ""
    requires Register(env, ctx, username, email, password, s).response.status == 201
    ensures Register(env, ctx, username, email, password, s).response.reply.SignedIn?
    ensures
      var token := Register(env, ctx, username, email, password, s).response.reply.token;
      Authenticate(env, Some("Bearer " + token)) == Admit(ctx.freshId)
  {
    var token := env.sign(ctx.freshId);
    BearerTokenOfBearerHeader("Bearer", token);
    assert "Bearer" + " " + token == "Bearer " + token;
  }
}
