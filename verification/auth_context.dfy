/** The client's session cache: the signed-in user, the `Authorization`
    header of the shared HTTP client, and the browser's `localStorage`,
    with the operations that change them together. */
module AuthContext {
  import opened Maybe
  import opened Text
  import opened Records
  import opened Api
  import opened Wire
  import AuthService

  const TokenKey: string := "token"
  const UserKey: string := "user"

  const CannotConnect: string := "Cannot connect to server. Please make sure the backend is running on port 5000."
  const NotResponding: string := "Server is not responding. Please check if the backend server is running."
  const LoginFailed: string := "Login failed"
  const LoginUnexpected: string := "An unexpected error occurred during login"
  const RegistrationFailed: string := "Registration failed"
  const RegistrationUnexpected: string := "An unexpected error occurred during registration"

  /** `JSON.stringify` and `JSON.parse` for the cached user; `decode` yields
      `None` where `JSON.parse` throws. */
  datatype Codec = Codec(encode: UserInfo -> string, decode: string -> Option<UserInfo>)

  /** The JSON text of a user is never empty and parses back to the user. */
  predicate RoundTrips(codec: Codec, u: UserInfo) {
    codec.encode(u) != "" && codec.decode(codec.encode(u)) == Some(u)
  }

  /** The provider's state: `user`, the default `Authorization` header,
      `localStorage`, `serverOnline` and `loading`. */
  datatype Session = Session(
    user: Option<UserInfo>,
    header: Option<string>,
    storage: map<string, string>,
    serverOnline: bool,
    loading: bool)

  /** The provider's state when the page loads, over what the browser kept. */
  function Fresh(storage: map<string, string>): Session {
    Session(None, None, storage, false, true)
  }

  /** What `login` and `register` resolve to. */
  datatype Result = Success | Refused(message: string)

  /** `setAuthToken(token)`: a truthy token is installed as the bearer header
      and stored; anything else removes both. */
  function SetAuthToken(s: Session, token: Option<string>): (r: Session)
    ensures r.user == s.user && r.serverOnline == s.serverOnline && r.loading == s.loading
    ensures token.Some? && token.value != "" ==>
              r.header == Some("Bearer " + token.value) && r.storage == s.storage[TokenKey := token.value]
    ensures (token.None? || token.value == "") ==> r.header == None && r.storage == s.storage - {TokenKey}
  {
    if token.Some? && token.value != "" then
      s.(header := Some("Bearer " + token.value), storage := s.storage[TokenKey := token.value])
    else
      s.(header := None, storage := s.storage - {TokenKey})
  }

  /** A stored token that contains no space reaches the server's token gate
      unchanged through the header `setAuthToken` installs. */
  lemma HeaderCarriesToken(s: Session, token: string)
    requires token != "" && ' ' !in token
    ensures AuthService.BearerToken(SetAuthToken(s, Some(token)).header) == Some(token)
  {
    AuthService.BearerTokenOfBearerHeader("Bearer", token);
    assert "Bearer" + " " + token == "Bearer " + token;
  }

  /** `localStorage.getItem(key)`, kept only when truthy. */
  function Item(s: Session, key: string): (v: Option<string>)
    ensures v.Some? <==> key in s.storage && s.storage[key] != ""
    ensures v.Some? ==> v.value == s.storage[key]
  {
    if key in s.storage && s.storage[key] != "" then Some(s.storage[key]) else None
  }

  /** `initAuth`, given the outcome of the health check. The session is
      restored exactly when both a token and a user are stored; a stored user
      that does not parse leaves the provider loading after the header was
      already installed. */
  function InitAuth(s: Session, codec: Codec, connected: bool): (r: Session)
    ensures r.serverOnline == connected && r.storage == s.storage
    ensures (Item(s, TokenKey).None? || Item(s, UserKey).None?) ==>
              r == s.(serverOnline := connected, loading := false)
    ensures Item(s, TokenKey).Some? && Item(s, UserKey).Some? ==>
              && r.header == Some("Bearer " + s.storage[TokenKey])
              && (codec.decode(s.storage[UserKey]).Some? ==>
                    r.user == codec.decode(s.storage[UserKey]) && !r.loading)
              && (codec.decode(s.storage[UserKey]).None? ==> r.user == s.user && r.loading == s.loading)
  {
    var s1 := s.(serverOnline := connected);
    var token := Item(s1, TokenKey);
    var userData := Item(s1, UserKey);
    if token.Some? && userData.Some? then
      var s2 := SetAuthToken(s1, token);
      assert s2.storage == s.storage;
      match codec.decode(userData.value)
      case Some(u) => s2.(user := Some(u), loading := false)
      case None => s2
    else s1.(loading := false)
  }

  /** The message a thrown request error resolves to, checked in order:
      refused connection, a server response (its validation messages joined
      with `", "` when `joinErrors` and the body lists them, else its message
      or `fallback`), a request without answer, anything else. */
  function Classify(e: HttpError, fallback: string, unexpected: string, joinErrors: bool): (m: string)
    ensures e.code == ConnectionRefused ==> m == CannotConnect
    ensures e.code != ConnectionRefused && e.response.Some? ==>
              if joinErrors && e.response.value.data.Rejected? then m == Join(e.response.value.data.errors, ", ")
              else m == OrElse(MessageOf(e.response.value.data), fallback)
    ensures e.code != ConnectionRefused && e.response.None? ==>
              m == if e.requestMade then NotResponding else unexpected
  {
    if e.code == ConnectionRefused then CannotConnect
    else if e.response.Some? then
      var data := e.response.value.data;
      if joinErrors && data.Rejected? then Join(data.errors, ", ")
      else OrElse(MessageOf(data), fallback)
    else if e.requestMade then NotResponding
    else unexpected
  }

  /** The shared body of `login` and `register`: `probe` is the health check
      run first when the server is not yet known to be online, `answer` the
      POST's outcome. Only a sign-in reply changes the session's user, token
      and cached user. */
  function SignIn(s: Session, codec: Codec, probe: bool, answer: Call<Reply>,
                  fallback: string, unexpected: string, joinErrors: bool): (out: (Session, Result))
    ensures out.1.Success? <==> (s.serverOnline || probe) && answer.Ok? && answer.value.SignedIn?
    ensures out.1.Success? ==>
              var reply := answer.value;
              && out.0.user == Some(reply.user)
              && out.0.serverOnline
              && out.0.storage == (if reply.token != "" then s.storage[TokenKey := reply.token] else s.storage - {TokenKey})[UserKey := codec.encode(reply.user)]
              && out.0.header == (if reply.token != "" then Some("Bearer " + reply.token) else None)
    ensures out.1.Refused? ==>
              out.0.user == s.user && out.0.storage == s.storage && out.0.header == s.header
    ensures !s.serverOnline && !probe ==> out == (s, Refused(CannotConnect))
  {
    if !s.serverOnline && !probe then (s, Refused(CannotConnect))
    else
      var s1 := s.(serverOnline := true);
      match answer
      case Ok(SignedIn(token, u)) =>
        var s2 := SetAuthToken(s1, Some(token));
        (s2.(storage := s2.storage[UserKey := codec.encode(u)], user := Some(u)), Success)
      case Ok(reply) => (s1, Refused(OrElse(MessageOf(reply), fallback)))
      case Err(e) => (s1, Refused(Classify(e, fallback, unexpected, joinErrors)))
  }

  /** `login(email, password)`. */
  function Login(s: Session, codec: Codec, probe: bool, answer: Call<Reply>): (out: (Session, Result))
    ensures out.1.Refused? ==> out.0.user == s.user && out.0.storage == s.storage && out.0.header == s.header
    ensures answer.Err? && (s.serverOnline || probe) ==>
              out.1 == Refused(Classify(answer.error, LoginFailed, LoginUnexpected, false))
  {
    SignIn(s, codec, probe, answer, LoginFailed, LoginUnexpected, false)
  }

  /** `register(username, email, password)`: as `login`, except that a
      rejected body's validation messages are reported joined with `", "`. */
  function Register(s: Session, codec: Codec, probe: bool, answer: Call<Reply>): (out: (Session, Result))
    ensures out.1.Refused? ==> out.0.user == s.user && out.0.storage == s.storage && out.0.header == s.header
    ensures answer.Err? && (s.serverOnline || probe) && answer.error.code != ConnectionRefused
              && answer.error.response.Some? && answer.error.response.value.data.Rejected? ==>
              out.1 == Refused(Join(answer.error.response.value.data.errors, ", "))
  {
    SignIn(s, codec, probe, answer, RegistrationFailed, RegistrationUnexpected, true)
  }

  /** `logout()`: no user, no header, neither key stored; every other stored
      item is kept. */
  function Logout(s: Session): (r: Session)
    ensures r.user.None? && r.header.None?
    ensures TokenKey !in r.storage && UserKey !in r.storage
    ensures forall k :: k != TokenKey && k != UserKey ==>
              (k in r.storage <==> k in s.storage) && (k in r.storage ==> r.storage[k] == s.storage[k])
  {
    var s1 := SetAuthToken(s, None);
    s1.(storage := s1.storage - {UserKey}, user := None)
  }

  /** After a successful sign-in, reloading the page restores the same user
      and the same header from storage alone. */
  lemma ReloadRestoresSession(s: Session, codec: Codec, probe: bool, answer: Call<Reply>, connected: bool)
    requires answer.Ok? && answer.value.SignedIn? && answer.value.token != ""
    requires RoundTrips(codec, answer.value.user)
    requires (s.serverOnline || probe)
    ensures var signedIn := Login(s, codec, probe, answer).0;
            var reloaded := InitAuth(Fresh(signedIn.storage), codec, connected);
            reloaded.user == signedIn.user && reloaded.header == signedIn.header && !reloaded.loading
  {
    var signedIn := Login(s, codec, probe, answer).0;
    var token := answer.value.token;
    assert signedIn.storage[TokenKey] == token;
    assert signedIn.storage[UserKey] == codec.encode(answer.value.user);
  }

  /** A login the server accepts leaves the page signed in as that user, with
      a header the server's token gate admits, provided the issued token
      verifies and contains no space. */
  lemma SignedInSessionAuthenticates(env: Env, email: string, password: string, store: Store,
                                     s: Session, codec: Codec, probe: bool)
    requires s.serverOnline || probe
    requires AuthService.Login(env, email, password, store).response.status == 200
    requires var u := AuthService.FindBy(store.users, true, email).value;
             env.verify(env.sign(u.id)) == Some(u.id) && env.sign(u.id) != "" && ' ' !in env.sign(u.id)
    ensures var u := AuthService.FindBy(store.users, true, email).value;
            var out := Login(s, codec, probe, Receive(AuthService.Login(env, email, password, store).response));
            && out.1 == Success
            && out.0.user == Some(InfoOf(u))
            && AuthService.Authenticate(env, out.0.header) == AuthService.Admit(u.id)
  {
    var u := AuthService.FindBy(store.users, true, email).value;
    var token := env.sign(u.id);
    AuthService.BearerTokenOfBearerHeader("Bearer", token);
    assert "Bearer" + " " + token == "Bearer " + token;
  }

  /** A registration the server turns down for a duplicate e-mail address
      resolves to that message on the page. */
  lemma DuplicateEmailReported(env: Env, ctx: Context, username: string, email: string, password: string,
                               store: Store, s: Session, codec: Codec, probe: bool)
    requires !HasUserId(store.users, ctx.freshId)
    requires s.serverOnline || probe
    requires AuthService.RegistrationErrors(env, username, email, password) == []
    requires AuthService.FindBy(store.users, true, email).Some?
    ensures var o := AuthService.Register(env, ctx, username, email, password, store);
            Register(s, codec, probe, Receive(o.response)).1 == Refused(AuthService.EmailTaken)
  {
  }
}
