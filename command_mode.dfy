/** Command mode: the `Console` class, a `cmd.Cmd` whose `do_exit` ends the
    session and whose `default` hands the line to `send_console`. Which of
    the two a line reaches is decided by `Cmd.onecmd`: the line is stripped;
    an empty line repeats the last command; a leading `?` stands for `help`;
    a leading `!` goes to `default` (there is no `do_shell`); otherwise the
    leading identifier names the handler, and a name without a `do_` method
    goes to `default`. The only handlers are `do_exit` and `Cmd`'s own
    `do_help`. */
module CommandMode {
  import opened Text
  import opened Panel
  import opened CommandLoop

  /** The characters `cmd.Cmd` accepts in a command name. */
  predicate IsIdentChar(c: char)
  {
    'a' <= c <= 'z' || 'A' <= c <= 'Z' || IsDigit(c) || c == '_'
  }

  /** The command name at the front of `s`: `cmd` in `Cmd.parseline`, the
      longest prefix of name characters. */
  function CommandName(s: string): (name: string)
    ensures |name| <= |s| && name == s[..|name|]
  {
    if s == [] || !IsIdentChar(s[0]) then [] else [s[0]] + CommandName(s[1..])
  }

  /** `onecmd` on a line that is already stripped and not empty; `lastcmd` is
      the remembered previous line. Returns the action and the new `lastcmd`. */
  function Interpret(s: string, lastcmd: string): (r: (string, Action))
    requires s != []
    ensures r.0 == lastcmd || r.0 == [] || r.0[0] == s[0] || r.0[0] == 'h'
  {
    if s[0] == '!' then (lastcmd, Send(s))
    else
      var line := if s[0] == '?' then "help " + s[1..] else s;
      var last := if line == "EOF" then "" else line;
      var name := CommandName(line);
      if name == "exit" then (last, Stop)
      else if name == "help" then (last, Help)
      else (last, Send(line))
  }

  /** The remembered line is empty or starts with something other than
      white space, as every line `onecmd` remembers does. */
  predicate LastValid(lastcmd: string)
  {
    lastcmd == [] || !IsSpace(lastcmd[0])
  }

  /** `Cmd.onecmd(line)` with the remembered line `lastcmd`: the new
      remembered line and the action. An empty line (after stripping) runs
      the remembered line again (`emptyline`), and does nothing if there is
      none. A remembered line is never blank (see `LastValid`), so running
      it again never meets an empty line a second time; a blank one is
      treated as none. */
  function OneCmd(line: string, lastcmd: string): (r: (string, Action))
    ensures LastValid(lastcmd) ==> LastValid(r.0)
  {
    var s := Strip(line);
    if s != [] then Interpret(s, lastcmd)
    else
      var again := Strip(lastcmd);
      if again == [] then (lastcmd, Idle) else Interpret(again, lastcmd)
  }

  /** The line names the `exit` command: stripped, it starts with the name
      `exit`, not followed by another name character. */
  predicate IsExitLine(line: string)
  {
    var s := Strip(line);
    s != [] && s[0] != '!' && s[0] != '?' && CommandName(s) == "exit"
  }

  /** A line that `onecmd` passes on to `default` unchanged: nothing to
      strip, not empty, no `?` shorthand, and not naming `exit` or `help`. */
  predicate IsPlainCommand(line: string)
  {
    line != [] && IsStripped(line) && line[0] != '?'
    && CommandName(line) != "exit" && CommandName(line) != "help"
  }

  /** The `exit` line ends the command loop, whatever came before, and is
      remembered as the last command. */
  lemma ExitLineStops(line: string, lastcmd: string)
    requires IsExitLine(line)
    ensures OneCmd(line, lastcmd) == (Strip(line), Stop)
  {
  }

  /** A plain line is sent as it is. */
  lemma PlainLineSentVerbatim(line: string, lastcmd: string)
    requires IsPlainCommand(line)
    ensures OneCmd(line, lastcmd).1 == Send(line)
  {
    StripKeepsStripped(line);
  }

  /** An empty line repeats the remembered command, and does nothing when
      there is none. */
  lemma EmptyLineRepeatsLast(line: string, lastcmd: string)
    requires LastValid(lastcmd)
    requires AllSpace(line)
    ensures lastcmd != [] ==> OneCmd(line, lastcmd) == OneCmd(lastcmd, lastcmd)
    ensures lastcmd == [] ==> OneCmd(line, lastcmd) == ([], Idle)
  {
    StripEmptyIffAllSpace(line);
    StripEmptyIffAllSpace(lastcmd);
  }

  /** Plain lines are sent as they are, whatever was remembered before. */
  lemma PlainLinesSentVerbatim(lines: seq<string>)
    requires forall i :: 0 <= i < |lines| ==> IsPlainCommand(lines[i])
    ensures SentVerbatim(OneCmd, lines)
  {
    forall i, last | 0 <= i < |lines| ensures OneCmd(lines[i], last).1 == Send(lines[i]) {
      PlainLineSentVerbatim(lines[i], last);
    }
  }

  /** A session of plain lines sends every one of them, in order, verbatim. */
  lemma PlainLinesAllSent(lastcmd: string, lines: seq<string>)
    requires forall i :: 0 <= i < |lines| ==> IsPlainCommand(lines[i])
    ensures Run(OneCmd, lastcmd, lines).commands == lines
    ensures !Run(OneCmd, lastcmd, lines).stopped
  {
    PlainLinesSentVerbatim(lines);
    VerbatimLinesAllSent(OneCmd, lastcmd, lines);
  }

  /** After plain lines, an `exit` line ends the session: the plain lines
      are sent, and nothing after the `exit` line is read or sent. */
  lemma ExitEndsSession(lastcmd: string, plain: seq<string>, exitLine: string, after: seq<string>)
    requires forall i :: 0 <= i < |plain| ==> IsPlainCommand(plain[i])
    requires IsExitLine(exitLine)
    ensures var o := Run(OneCmd, lastcmd, plain + [exitLine] + after);
            o.commands == plain && o.stopped && o.consumed == |plain| + 1
  {
    PlainLinesSentVerbatim(plain);
    forall last ensures OneCmd(exitLine, last).1.Stop? {
      ExitLineStops(exitLine, last);
    }
    StopLineEndsSession(OneCmd, lastcmd, plain, exitLine, after);
  }

  /** The requests `send_console` posts for a list of commands, one each,
      in order. */
  function CommandPosts(session: Session, serverId: string, commands: seq<string>): (ps: seq<Post>)
  {
    seq(|commands|, i requires 0 <= i < |commands| => CommandPost(session, serverId, commands[i]))
  }

  /** Posting two lists of commands one after the other posts their
      concatenation. */
  lemma CommandPostsAppend(session: Session, serverId: string, a: seq<string>, b: seq<string>)
    ensures CommandPosts(session, serverId, a + b) == CommandPosts(session, serverId, a) + CommandPosts(session, serverId, b)
  {
  }

  /** The interactive console of one server. The session, the server and its
      name are fixed when the console is made; `lastcmd` is `cmd.Cmd`'s
      remembered line, and `sent` the requests posted so far. */
  class Console {
    const session: Session
    const serverId: string
    const serverName: string
    const prompt: string
    /** `onecmd` as this console dispatches it. The constructor sets it to
        `OneCmd` and nothing changes it, so the contracts of `OneLine` and
        `CmdLoop` below, written over `dispatch`, are statements about
        `OneCmd`; it stands for the inherited `Cmd.onecmd`, not for a field
        of the source's class. */
    const dispatch: (string, string) -> (string, Action)
    var lastcmd: string
    var sent: seq<Post>

    /** `Console.__init__`: the prompt is the server's name followed by `" > "`. */
    constructor (session: Session, serverId: string, serverName: string)
      ensures this.session == session && this.serverId == serverId && this.serverName == serverName
      ensures prompt == serverName + " > "
      ensures dispatch == OneCmd
      ensures lastcmd == [] && sent == []
    {
      this.session := session;
      this.serverId := serverId;
      this.serverName := serverName;
      this.prompt := serverName + " > ";
      dispatch := OneCmd;
      lastcmd := [];
      sent := [];
    }

    /** `do_exit`: ends the command loop and sends nothing. */
    method DoExit(arg: string) returns (stop: bool)
      ensures stop
    {
      stop := true;
    }

    /** `default`: the line goes to the panel as a console command. */
    method Default(line: string)
      modifies this`sent
      ensures sent == old(sent) + [CommandPost(session, serverId, line)]
    {
      sent := sent + [CommandPost(session, serverId, line)];
    }

    /** `onecmd`: dispatches one line; `stop` says whether the loop ends. */
    method OneLine(line: string) returns (stop: bool, action: Action)
      modifies this`sent, this`lastcmd
      ensures (lastcmd, action) == dispatch(line, old(lastcmd))
      ensures stop <==> action.Stop?
      ensures sent == old(sent) + CommandPosts(session, serverId, Sent(action))
    {
      var last;
      last, action := dispatch(line, lastcmd).0, dispatch(line, lastcmd).1;
      assert CommandPosts(session, serverId, Sent(action)) == if action.Send? then [CommandPost(session, serverId, action.command)] else [];
      lastcmd := last;
      stop := false;
      match action
      case Stop => stop := DoExit(line);
      case Send(command) => Default(command);
      case Help =>
      case Idle =>
    }

    /** `cmdloop` over the lines the operator types: reads lines until one
        stops the loop or the lines run out, and posts exactly the commands
        the session's outcome lists. */
    method CmdLoop(lines: seq<string>) returns (consumed: nat, stopped: bool)
      modifies this`sent, this`lastcmd
      ensures Run(dispatch, old(lastcmd), lines) == Outcome(Run(dispatch, old(lastcmd), lines).commands, stopped, consumed, lastcmd)
      ensures sent == old(sent) + CommandPosts(session, serverId, Run(dispatch, old(lastcmd), lines).commands)
    {
      consumed, stopped := 0, false;
      ghost var commands: seq<string> := [];
      while consumed < |lines| && !stopped
        invariant 0 <= consumed <= |lines|
        invariant sent == old(sent) + CommandPosts(session, serverId, commands)
        invariant Run(dispatch, old(lastcmd), lines[..consumed]) == Outcome(commands, stopped, consumed, lastcmd)
      {
        assert lines[..consumed + 1] == lines[..consumed] + [lines[consumed]];
        RunSnoc(dispatch, old(lastcmd), lines[..consumed], lines[consumed]);
        var action;
        stopped, action := OneLine(lines[consumed]);
        ghost var now := Sent(action);
        CommandPostsAppend(session, serverId, commands, now);
        commands := commands + now;
        consumed := consumed + 1;
      }
      if stopped {
        RunStopped(dispatch, old(lastcmd), lines, consumed);
      } else {
        assert lines[..consumed] == lines;
      }
    }
  }
}
