/** The decision `login` takes once the panel has answered the login form:
    the error messages found in the answer page and the URL the answer was
    finally served from are its inputs (fetching and parsing the page are
    not modelled). */
module Login {
  import opened Text
  import opened ServerId
  import opened Panel

  datatype LoginOutcome =
    | Rejected(message: string, exitCode: int)  // the first message is printed, then `exit(1)`
    | LoggedIn(serverId: string)                // the identifier taken from the final URL
    | NoServerId                                // `search` found nothing; indexing `None` fails

  /** The request `login` posts: the credentials form, to the login page.
      Its form is `LoginForm`'s, so it carries exactly the five fields that
      function describes. */
  function LoginPost(username: string, password: string): (p: Post)
    ensures p.url == LoginUrl
    ensures p.form == LoginForm(username, password)
    ensures |p.form| == 5 && DistinctNames(p.form)
    ensures Lookup(p.form, "LoginForm[name]") == Some(Str(username))
    ensures Lookup(p.form, "LoginForm[password]") == Some(Str(password))
    ensures Lookup(p.form, "LoginForm[rememberMe]") == Some(Num(0))
    ensures Lookup(p.form, "LoginForm[ignoreIp]") == Some(Num(0))
    ensures Lookup(p.form, "yt") == Some(Str("Login"))
  {
    Post(LoginUrl, LoginForm(username, password))
  }

  /** The outcome of `login` for the panel's error messages `errors` and the
      answer's final URL. The login is rejected exactly when there is a first
      message and it is not empty; it then exits with that message and
      status 1. Otherwise the outcome is the identifier extracted from the
      final URL, or the failure to find one. */
  function LoginDecision(errors: seq<string>, finalUrl: string): (r: LoginOutcome)
    ensures r.Rejected? <==> |errors| > 0 && errors[0] != ""
    ensures r.Rejected? ==> r.message == errors[0] && r.exitCode == 1
    ensures r.LoggedIn? ==> IsNumeral(r.serverId) && ExtractServerId(finalUrl) == Some(r.serverId)
    ensures r.NoServerId? <==> !r.Rejected? && forall i :: !MatchesAt(finalUrl, i)
  {
    ExtractFailsIffNoMatch(finalUrl);
    if |errors| > 0 && errors[0] != "" then
      Rejected(errors[0], 1)
    else
      match ExtractServerId(finalUrl)
      case None => NoServerId
      case Some(id) => LoggedIn(id)
  }

  /** A rejected login does not depend on the final URL: the client exits
      before it looks for a server identifier. */
  lemma RejectionIgnoresUrl(errors: seq<string>, url: string, url': string)
    requires LoginDecision(errors, url).Rejected?
    ensures LoginDecision(errors, url') == LoginDecision(errors, url)
  {
  }

  /** Only the first message decides: an empty first message is a success
      even when later messages are not empty. */
  lemma OnlyFirstMessageCounts(rest: seq<string>, url: string)
    ensures !LoginDecision([""] + rest, url).Rejected?
    ensures LoginDecision([""] + rest, url) == LoginDecision([], url)
  {
  }

  /** A login that is not rejected and lands on a server's console URL yields
      that server's identifier. */
  lemma {:induction false} LoginFindsConsoleServer(errors: seq<string>, serverId: string)
    requires errors == [] || errors[0] == ""
    requires IsNumeral(serverId)
    ensures LoginDecision(errors, ServerUrl(serverId)) == LoggedIn(serverId)
  {
    ServerUrlRoundTrip(serverId);
  }
}
