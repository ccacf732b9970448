/** The profile page: loading the account, and the change-password form with
    the checks it makes before anything is sent. */
module PasswordForm {
  import opened Maybe
  import opened Records
  import opened Api
  import opened Wire
  import AuthService

  datatype Form = Form(currentPassword: string, newPassword: string, confirmPassword: string)

  /** The inputs of the form. */
  datatype Field = Current | New | Confirm

  /** The banner's `type`: none, `'success'`, or `'error'` (`Alarm`). */
  datatype Tone = Plain | Success | Alarm

  datatype Message = Message(tone: Tone, text: string)

  /** The page's state: the account shown (none until loaded), the form, the
      banner, and whether a change is in flight. */
  datatype Page = Page(profile: Option<UserInfo>, form: Form, message: Message, loading: bool)

  const Empty: Form := Form("", "", "")
  const NoMessage: Message := Message(Plain, "")

  const ProfileLoadFailed: string := "Failed to load profile"
  const Mismatch: string := "New passwords do not match"
  const TooShort: string := "New password must be at least 6 characters"
  const Updated: string := "Password updated successfully!"
  const ChangeFailed: string := "Failed to change password"

  /** The page when it opens. */
  const Opened: Page := Page(None, Empty, NoMessage, false)

  /** `fetchProfile` once its request settles: the account is shown, or the
      error banner is. */
  function ProfileSettled(p: Page, answer: Call<Reply>): (r: Page)
    ensures r.form == p.form && r.loading == p.loading
    ensures answer.Ok? && answer.value.ProfileOf? ==> r == p.(profile := Some(answer.value.user))
    ensures answer.Err? ==> r == p.(message := Message(Alarm, ProfileLoadFailed))
  {
    match answer
    case Ok(ProfileOf(u, _)) => p.(profile := Some(u))
    case Ok(_) => p.(profile := None)
    case Err(_) => p.(message := Message(Alarm, ProfileLoadFailed))
  }

  function Value(f: Form, k: Field): string {
    match k
    case Current => f.currentPassword
    case New => f.newPassword
    case Confirm => f.confirmPassword
  }

  /** `handlePasswordChange`: the typed value goes into its field only. */
  function Edit(f: Form, k: Field, v: string): (r: Form)
    ensures Value(r, k) == v
    ensures forall j :: j != k ==> Value(r, j) == Value(f, j)
  {
    match k
    case Current => f.(currentPassword := v)
    case New => f.(newPassword := v)
    case Confirm => f.(confirmPassword := v)
  }

  /** The body of the change-password request: the current and the new
      password, and nothing else. */
  datatype Request = Request(currentPassword: string, newPassword: string)

  /** The checks before any request: a mismatch is reported first, then a
      short new password; otherwise the request is sent. */
  datatype Precheck = Refuse(text: string) | Send(request: Request)

  function Check(f: Form): (c: Precheck)
    ensures c.Send? <==> f.newPassword == f.confirmPassword && |f.newPassword| >= 6
    ensures f.newPassword != f.confirmPassword ==> c == Refuse(Mismatch)
    ensures f.newPassword == f.confirmPassword && |f.newPassword| < 6 ==> c == Refuse(TooShort)
    ensures c.Send? ==> c.request == Request(f.currentPassword, f.newPassword)
  {
    if f.newPassword != f.confirmPassword then Refuse(Mismatch)
    else if |f.newPassword| < 6 then Refuse(TooShort)
    else Send(Request(f.currentPassword, f.newPassword))
  }

  /** `handlePasswordSubmit`: the request sent, if any, and the page once
      `answer` (the request's outcome, unused when nothing is sent) settles.
      A refused check shows its message and keeps the form; success shows
      the confirmation and empties the form; a failed request shows the
      server's message or the fallback and keeps the form. The page stops
      loading on every path. */
  function HandlePasswordSubmit(p: Page, answer: Call<Reply>): (out: (Option<Request>, Page))
    ensures out.0.Some? <==> Check(p.form).Send?
    ensures out.0.Some? ==> out.0.value == Request(p.form.currentPassword, p.form.newPassword)
    ensures !out.1.loading && out.1.profile == p.profile
    ensures Check(p.form).Refuse? ==>
              out.1 == p.(message := Message(Alarm, Check(p.form).text), loading := false)
    ensures out.0.Some? && answer.Ok? ==>
              out.1.form == Empty && out.1.message == Message(Success, Updated)
    ensures out.0.Some? && answer.Err? ==>
              && out.1.form == p.form
              && out.1.message == Message(Alarm, OrElse(ResponseMessage(answer.error), ChangeFailed))
  {
    var sending := p.(loading := true, message := NoMessage);
    match Check(p.form)
    case Refuse(text) => (None, sending.(message := Message(Alarm, text), loading := false))
    case Send(request) =>
      var settled :=
        match answer
        case Ok(_) => sending.(message := Message(Success, Updated), form := Empty)
        case Err(e) => sending.(message := Message(Alarm, OrElse(ResponseMessage(e), ChangeFailed)));
      (Some(request), settled.(loading := false))
  }

  /** Whatever the server would answer, a form whose new passwords differ
      never reaches it, even when the new password is also too short. */
  lemma MismatchTakesPrecedence(p: Page, answer: Call<Reply>)
    requires p.form.newPassword != p.form.confirmPassword
    ensures var out := HandlePasswordSubmit(p, answer);
            out.0.None? && out.1.message == Message(Alarm, Mismatch) && out.1.form == p.form
  {
  }

  /** A request the form lets through never fails the server's length check
      on the new password; with a current password it passes every server
      validator. */
  lemma SentRequestPassesServerLength(p: Page, answer: Call<Reply>)
    requires HandlePasswordSubmit(p, answer).0.Some?
    ensures var r := HandlePasswordSubmit(p, answer).0.value;
            var errs := AuthService.PasswordChangeErrors(r.currentPassword, r.newPassword);
            && AuthService.NewPasswordTooShort !in errs
            && (r.currentPassword != "" ==> errs == [])
  {
    var r := HandlePasswordSubmit(p, answer).0.value;
    assert |r.newPassword| >= 6;
  }

  /** A change the server accepts empties the form and confirms it; a wrong
      current password is reported in the server's own words and the form is
      kept for another try. */
  lemma ServerAnswerShown(env: Env, ctx: Context, caller: UserId, p: Page, s: Store)
    requires Check(p.form).Send?
    ensures var o := AuthService.ChangePassword(env, ctx, caller, p.form.currentPassword, p.form.newPassword, s);
            var page := HandlePasswordSubmit(p, Receive(o.response)).1;
            && (o.response.status == 200 ==> page.form == Empty && page.message == Message(Success, Updated))
            && (o.response == Response(400, Api.Failure(AuthService.CurrentPasswordWrong)) ==>
                  page.form == p.form && page.message == Message(Alarm, AuthService.CurrentPasswordWrong))
  {
  }
}
