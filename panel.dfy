/** The panel's fixed endpoints and the requests the client sends to them:
    the login form, the log refresh (`get_console`) and the console command
    (`send_console`). The HTTP session is reduced to what the requests read
    from it, the anti-forgery cookie; a request is the value the client hands
    to `session.post`, and the transport itself is not modelled. */
module Panel {
  import opened Text
  import opened ServerId

  /** The panel's entry script, which both endpoints share. */
  const Site: string := "https://mc.shockbyte.com/index.php"
  const LoginUrl: string := Site + "?r=site/login"
  const ConsoleUrl: string := Site + "?r=server/log"

  /** The name of the anti-forgery cookie, echoed back as a form field. */
  const TokenName: string := "YII_CSRF_TOKEN"

  /** The authenticated session, seen through the one cookie the client
      reads from it: `session.cookies.get('YII_CSRF_TOKEN')`, which is
      Python's `None` when the cookie is missing. */
  datatype Session = Session(csrfToken: Option<string>)

  /** A form value: a string, an integer, or Python's `None`. */
  datatype FormValue = Str(s: string) | Num(n: int) | NoValue

  datatype Field = Field(name: string, value: FormValue)

  /** A form-encoded POST to `url`. */
  datatype Post = Post(url: string, form: seq<Field>)

  /** The value of the first field called `name`, if any. */
  function Lookup(form: seq<Field>, name: string): Option<FormValue>
  {
    if form == [] then None
    else if form[0].name == name then Some(form[0].value)
    else Lookup(form[1..], name)
  }

  /** No field name occurs twice, so the form is a dictionary. */
  predicate DistinctNames(form: seq<Field>)
  {
    forall i, j :: 0 <= i < j < |form| ==> form[i].name != form[j].name
  }

  /** In a form without repeated names, each field is found under its name. */
  lemma {:induction false} LookupFindsField(form: seq<Field>, i: int)
    requires DistinctNames(form) && 0 <= i < |form|
    ensures Lookup(form, form[i].name) == Some(form[i].value)
  {
    if i > 0 {
      assert form[1..][i - 1] == form[i];
      LookupFindsField(form[1..], i - 1);
    }
  }

  /** A name that no field carries is not found. */
  lemma {:induction false} LookupMissing(form: seq<Field>, name: string)
    requires forall i :: 0 <= i < |form| ==> form[i].name != name
    ensures Lookup(form, name) == None
  {
    if form != [] {
      assert form[0].name != name;
      LookupMissing(form[1..], name);
    }
  }

  /** The token field's value: the cookie, or `None` when it is missing. */
  function TokenValue(session: Session): FormValue
  {
    match session.csrfToken
    case Some(t) => Str(t)
    case None => NoValue
  }

  /** The console endpoint of one server: `f"{CONSOLE_URL}&id={server_id}"`. */
  function ServerUrl(serverId: string): string
  {
    ConsoleUrl + Marker + serverId
  }

  /** No character of the console URL is `&`, so no marker starts inside it. */
  lemma ConsoleUrlHasNoAmpersand()
    ensures forall i :: 0 <= i < |ConsoleUrl| ==> ConsoleUrl[i] != '&'
  {
    assert '&' !in Site;
    assert '&' !in ConsoleUrl;
  }

  /** Round trip: extracting the identifier from the console URL built for
      a numeric `serverId` gives back `serverId`. */
  lemma {:induction false} ServerUrlRoundTrip(serverId: string)
    requires IsNumeral(serverId)
    ensures ExtractServerId(ServerUrl(serverId)) == Some(serverId)
  {
    var u := ConsoleUrl + Marker + serverId;
    var i := |ConsoleUrl|;
    ConsoleUrlHasNoAmpersand();
    assert u[i..i + |Marker|] == Marker;
    assert u[i + |Marker|] == serverId[0];
    forall j | 0 <= j < i ensures !MatchesAt(u, j) {
      assert u[j..j + |Marker|][0] == ConsoleUrl[j];
    }
    assert u[i + |Marker|..|u|] == serverId;
    ExtractIsLeftmostMaximalRun(u, i, |u|);
  }

  /** The login form posted to `LoginUrl`. */
  function LoginForm(username: string, password: string): (form: seq<Field>)
    ensures DistinctNames(form)
    ensures Lookup(form, "LoginForm[name]") == Some(Str(username))
    ensures Lookup(form, "LoginForm[password]") == Some(Str(password))
    ensures Lookup(form, "LoginForm[rememberMe]") == Some(Num(0))
    ensures Lookup(form, "LoginForm[ignoreIp]") == Some(Num(0))
    ensures Lookup(form, "yt") == Some(Str("Login"))
    ensures |form| == 5
  {
    var form :=
      [ Field("LoginForm[name]", Str(username)),
        Field("LoginForm[password]", Str(password)),
        Field("LoginForm[rememberMe]", Num(0)),
        Field("LoginForm[ignoreIp]", Num(0)),
        Field("yt", Str("Login")) ];
    LookupFindsField(form, 0);
    LookupFindsField(form, 1);
    LookupFindsField(form, 2);
    LookupFindsField(form, 3);
    LookupFindsField(form, 4);
    form
  }

  /** `get_console`'s request: asks for the log after cursor `logSeq`, with
      the session's token, at the server's console URL. */
  function RefreshPost(session: Session, serverId: string, logSeq: int): (p: Post)
    ensures p.url == ServerUrl(serverId)
    ensures DistinctNames(p.form)
    ensures Lookup(p.form, "ajax") == Some(Str("refresh"))
    ensures Lookup(p.form, "type") == Some(Str("all"))
    ensures Lookup(p.form, "log_seq") == Some(Num(logSeq))
    ensures Lookup(p.form, TokenName) == Some(TokenValue(session))
    ensures Lookup(p.form, "command") == None
    ensures |p.form| == 4
  {
    var form :=
      [ Field("ajax", Str("refresh")),
        Field("type", Str("all")),
        Field("log_seq", Num(logSeq)),
        Field(TokenName, TokenValue(session)) ];
    LookupFindsField(form, 0);
    LookupFindsField(form, 1);
    LookupFindsField(form, 2);
    LookupFindsField(form, 3);
    LookupMissing(form, "command");
    Post(ServerUrl(serverId), form)
  }

  /** `send_console`'s request: the command line, unchanged, with the
      session's token, at the server's console URL. */
  function CommandPost(session: Session, serverId: string, command: string): (p: Post)
    ensures p.url == ServerUrl(serverId)
    ensures DistinctNames(p.form)
    ensures Lookup(p.form, "ajax") == Some(Str("command"))
    ensures Lookup(p.form, "command") == Some(Str(command))
    ensures Lookup(p.form, TokenName) == Some(TokenValue(session))
    ensures Lookup(p.form, "log_seq") == None
    ensures |p.form| == 3
  {
    var form :=
      [ Field("ajax", Str("command")),
        Field(TokenName, TokenValue(session)),
        Field("command", Str(command)) ];
    LookupFindsField(form, 0);
    LookupFindsField(form, 1);
    LookupFindsField(form, 2);
    LookupMissing(form, "log_seq");
    Post(ServerUrl(serverId), form)
  }

  /** A refresh request and a command request are never the same request,
      and each command request determines the command it carries. */
  lemma CommandPostsDetermineCommand(session: Session, serverId: string, c: string, c': string, n: int)
    ensures CommandPost(session, serverId, c) != RefreshPost(session, serverId, n)
    ensures CommandPost(session, serverId, c) == CommandPost(session, serverId, c') ==> c == c'
  {
  }

  /** Both requests go to the console URL of the server they are for: the
      identifier extracted from their URL is that server's. */
  lemma RequestsTargetServer(session: Session, serverId: string, command: string, logSeq: int)
    requires IsNumeral(serverId)
    ensures ExtractServerId(RefreshPost(session, serverId, logSeq).url) == Some(serverId)
    ensures ExtractServerId(CommandPost(session, serverId, command).url) == Some(serverId)
  {
    ServerUrlRoundTrip(serverId);
  }
}
