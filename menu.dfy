/** The main menu (`main_menu`): it reads an option, and either watches the
    console, enters command mode, or exits; anything else is reported and
    the menu asks again. What the operator types and what the panel answers
    are given as a script of visits to the menu. */
module Menu {
  import opened Text
  import opened Panel
  import opened LogStream
  import opened CommandLoop
  import opened CommandMode

  /** The line typed at `Option: `: not numeric, or the number it spells. */
  datatype Choice = Invalid(text: string) | Number(n: nat)

  /** `num.isnumeric()`, and then `int(num)`. */
  function ParseOption(line: string): Choice
  {
    if IsNumeral(line) then Number(DecimalValue(line)) else Invalid(line)
  }

  /** Typing the numeral of `n` chooses `n`. */
  lemma ParseOptionRoundTrip(n: nat)
    ensures ParseOption(Decimal(n)) == Number(n)
  {
    DecimalRoundTrip(n);
  }

  /** What the menu does next. */
  datatype MenuAction =
    | WatchLog(start: int)        // 1: `stream_console` from cursor `start`
    | EnterCommands               // 2: a fresh `Console` and its `cmdloop`
    | Exit(code: int)             // 3: `exit(code)`
    | Reprompt(message: string)   // anything else: a message, and the menu again

  /** The message for an option the menu does not offer. */
  function InvalidMessage(text: string): string
  {
    "Invalid option: '" + text + "'"
  }

  /** The menu's decision on the typed line: 1, 2 and 3 (with any leading
      zeros) watch the console from cursor 0, enter command mode, and exit
      with status 0; any other line is reported, a non-numeric one as typed
      and a number as `int` spells it back. */
  function MenuDispatch(line: string): (a: MenuAction)
    ensures a.WatchLog? <==> IsNumeral(line) && DecimalValue(line) == 1
    ensures a.WatchLog? ==> a.start == 0
    ensures a.EnterCommands? <==> IsNumeral(line) && DecimalValue(line) == 2
    ensures a.Exit? <==> IsNumeral(line) && DecimalValue(line) == 3
    ensures a.Exit? ==> a.code == 0
    ensures !IsNumeral(line) ==> a == Reprompt(InvalidMessage(line))
    ensures IsNumeral(line) && a.Reprompt? ==> a.message == InvalidMessage(Decimal(DecimalValue(line)))
  {
    match ParseOption(line)
    case Invalid(text) => Reprompt(InvalidMessage(text))
    case Number(n) =>
      if n == 1 then WatchLog(0)
      else if n == 2 then EnterCommands
      else if n == 3 then Exit(0)
      else Reprompt(InvalidMessage(Decimal(n)))
  }

  /** Leading zeros do not change the decision: `"01"` is option 1. */
  lemma MenuDispatchIgnoresLeadingZeros(s: string)
    requires IsNumeral(s)
    ensures MenuDispatch("0" + s) == MenuDispatch(s)
  {
    LeadingZeroIgnored(s);
  }

  /** The menu's options on their canonical numerals, and two lines it
      rejects. */
  lemma MenuOptions()
    ensures MenuDispatch("1") == WatchLog(0)
    ensures MenuDispatch("2") == EnterCommands
    ensures MenuDispatch("3") == Exit(0)
    ensures MenuDispatch("007") == Reprompt("Invalid option: '7'")
    ensures MenuDispatch("view") == Reprompt("Invalid option: 'view'")
  {
    assert "007"[..2] == "00" && "00"[..1] == "0";
    assert Decimal(7) == "7";
  }

  /** One visit to the menu: the option line typed; the panel's answers
      while the console is watched, until the operator interrupts; and the
      lines typed in command mode. A visit uses only the parts its option
      calls for. */
  datatype Visit = Visit(line: string, answers: seq<LogRecord>, commandLines: seq<string>)

  /** What one visit prints and posts, whether the menu ends with it, and
      the exit status when it exits. */
  datatype Effect = Effect(output: seq<string>, posts: seq<Post>, ends: bool, exitCode: Option<int>)

  /** The effect of one visit. Watching prints the new log texts and posts
      one refresh per tick; command mode posts the commands its session
      sends, and never returns to the menu if its lines run out before
      `exit`; exiting prints and posts nothing. */
  function VisitEffect(session: Session, serverId: string, v: Visit): Effect
  {
    match MenuDispatch(v.line)
    case WatchLog(start) =>
      Effect(Texts(Accepted(start, v.answers)), RefreshPosts(session, serverId, start, v.answers), false, None)
    case EnterCommands =>
      var o := Run(OneCmd, [], v.commandLines);
      Effect([], CommandPosts(session, serverId, o.commands), !o.stopped, None)
    case Exit(code) => Effect([], [], true, Some(code))
    case Reprompt(message) => Effect([message], [], false, None)
  }

  /** What the menu has done after a script: all it printed and posted, its
      exit status if it exited, whether it has ended, and how many visits it
      took. */
  datatype MenuResult = MenuResult(output: seq<string>, posts: seq<Post>, exitCode: Option<int>, halted: bool, visits: nat)

  /** The menu loop over `script`, with `effect` giving what one visit does
      (`VisitEffect` for the client): visits are taken in order until one
      ends the menu or the script runs out. */
  function Combine(effect: (Session, string, Visit) -> Effect, session: Session, serverId: string, script: seq<Visit>): (r: MenuResult)
    ensures r.visits <= |script|
    ensures r.halted || r.visits == |script|
    ensures r.exitCode.Some? ==> r.halted
    decreases |script|
  {
    if script == [] then MenuResult([], [], None, false, 0)
    else
      var e := effect(session, serverId, script[0]);
      if e.ends then MenuResult(e.output, e.posts, e.exitCode, true, 1)
      else
        var rest := Combine(effect, session, serverId, script[1..]);
        MenuResult(e.output + rest.output, e.posts + rest.posts, rest.exitCode, rest.halted, rest.visits + 1)
  }

  /** One more visit to a menu that has not ended: the visit's output and
      posts follow what came before, and it may end the menu. */
  lemma {:induction false} CombineSnoc(effect: (Session, string, Visit) -> Effect, session: Session, serverId: string,
                                       script: seq<Visit>, v: Visit)
    requires !Combine(effect, session, serverId, script).halted
    ensures var r := Combine(effect, session, serverId, script);
            var e := effect(session, serverId, v);
            Combine(effect, session, serverId, script + [v])
              == MenuResult(r.output + e.output, r.posts + e.posts, if e.ends then e.exitCode else None, e.ends, r.visits + 1)
    decreases |script|
  {
    if script != [] {
      assert (script + [v])[0] == script[0];
      assert (script + [v])[1..] == script[1..] + [v];
      var e := effect(session, serverId, script[0]);
      CombineSnoc(effect, session, serverId, script[1..], v);
      var rest := Combine(effect, session, serverId, script[1..]);
      var f := effect(session, serverId, v);
      assert e.output + (rest.output + f.output) == (e.output + rest.output) + f.output;
      assert e.posts + (rest.posts + f.posts) == (e.posts + rest.posts) + f.posts;
    } else {
      assert [] + [v] == [v];
    }
  }

  /** Once the menu has ended within the first `k` visits, the rest of the
      script is never read. */
  lemma {:induction false} CombineHalted(effect: (Session, string, Visit) -> Effect, session: Session, serverId: string,
                                         script: seq<Visit>, k: int)
    requires 0 <= k <= |script|
    requires Combine(effect, session, serverId, script[..k]).halted
    ensures Combine(effect, session, serverId, script) == Combine(effect, session, serverId, script[..k])
    decreases k
  {
    assert script[..k][0] == script[0];
    if !effect(session, serverId, script[0]).ends {
      assert script[..k][1..] == script[1..][..k - 1];
      CombineHalted(effect, session, serverId, script[1..], k - 1);
    }
  }

  /** One visit, as `main_menu`'s loop body runs it. */
  method MenuVisit(session: Session, serverId: string, v: Visit) returns (e: Effect)
    ensures e == VisitEffect(session, serverId, v)
  {
    var choice := ParseOption(v.line);
    if choice.Invalid? {
      e := Effect([InvalidMessage(v.line)], [], false, None);
    } else if choice.n == 1 {
      var cursor, printed, requests := StreamConsole(session, serverId, 0, v.answers);
      e := Effect(printed, requests, false, None);
    } else if choice.n == 2 {
      var console := new Console(session, serverId, "Multicraft");
      var consumed, stopped := console.CmdLoop(v.commandLines);
      assert [] + CommandPosts(session, serverId, Run(OneCmd, [], v.commandLines).commands)
          == CommandPosts(session, serverId, Run(OneCmd, [], v.commandLines).commands);
      e := Effect([], console.sent, !stopped, None);
    } else if choice.n == 3 {
      e := Effect([], [], true, Some(0));
    } else {
      e := Effect([InvalidMessage(Decimal(choice.n))], [], false, None);
    }
  }

  /** `main_menu` over a script of visits: it returns the exit status (none
      when the script runs out, or when command mode never returns), all it
      printed other than the menu itself, and every request it posted, as
      `Combine` over `VisitEffect` describes. */
  method MainMenu(session: Session, serverId: string, script: seq<Visit>)
    returns (exitCode: Option<int>, output: seq<string>, posts: seq<Post>)
    ensures var r := Combine(VisitEffect, session, serverId, script);
            exitCode == r.exitCode && output == r.output && posts == r.posts
  {
    exitCode, output, posts := None, [], [];
    var i, halted := 0, false;
    while i < |script| && !halted
      invariant 0 <= i <= |script|
      invariant Combine(VisitEffect, session, serverId, script[..i]) == MenuResult(output, posts, exitCode, halted, i)
    {
      assert script[..i + 1] == script[..i] + [script[i]];
      CombineSnoc(VisitEffect, session, serverId, script[..i], script[i]);
      var e := MenuVisit(session, serverId, script[i]);
      output, posts := output + e.output, posts + e.posts;
      if e.ends {
        exitCode, halted := e.exitCode, true;
      }
      i := i + 1;
    }
    if halted {
      CombineHalted(VisitEffect, session, serverId, script, i);
    } else {
      assert script[..i] == script;
    }
  }

  /** Option 3 ends the menu with status 0: what came before is kept, and
      nothing after it is read. */
  lemma ExitEndsMenu(session: Session, serverId: string, before: seq<Visit>, v: Visit, after: seq<Visit>)
    requires !Combine(VisitEffect, session, serverId, before).halted
    requires MenuDispatch(v.line).Exit?
    ensures var r := Combine(VisitEffect, session, serverId, before);
            Combine(VisitEffect, session, serverId, before + [v] + after)
              == MenuResult(r.output, r.posts, Some(0), true, |before| + 1)
  {
    var r := Combine(VisitEffect, session, serverId, before);
    CombineSnoc(VisitEffect, session, serverId, before, v);
    assert r.output + [] == r.output && r.posts + [] == r.posts;
    var script := before + [v] + after;
    assert script[..|before| + 1] == before + [v];
    CombineHalted(VisitEffect, session, serverId, script, |before| + 1);
  }

  /** A rejected option prints its message and changes nothing else: the
      rest of the script runs as if the visit had not happened. */
  lemma RepromptChangesNothing(session: Session, serverId: string, v: Visit, rest: seq<Visit>)
    requires MenuDispatch(v.line).Reprompt?
    ensures var r := Combine(VisitEffect, session, serverId, rest);
            Combine(VisitEffect, session, serverId, [v] + rest)
              == MenuResult([MenuDispatch(v.line).message] + r.output, r.posts, r.exitCode, r.halted, r.visits + 1)
  {
    assert ([v] + rest)[0] == v;
    assert ([v] + rest)[1..] == rest;
    assert [] + Combine(VisitEffect, session, serverId, rest).posts == Combine(VisitEffect, session, serverId, rest).posts;
  }

  /** Every watch starts afresh from cursor 0, whatever earlier watches saw:
      its first refresh asks for the log after 0, and it prints the answers
      that are new counting from 0. */
  lemma WatchStartsAtZero(session: Session, serverId: string, v: Visit)
    requires MenuDispatch(v.line).WatchLog?
    ensures var e := VisitEffect(session, serverId, v);
            e.output == Texts(Accepted(0, v.answers))
            && |e.posts| == |v.answers|
            && (v.answers != [] ==> e.posts[0] == RefreshPost(session, serverId, 0))
            && !e.ends
  {
  }

  /** In command mode, plain lines followed by `exit` are posted as they
      are, in order, and the menu comes back. */
  lemma CommandModeSendsPlainLines(session: Session, serverId: string, v: Visit,
                                   plain: seq<string>, exitLine: string, after: seq<string>)
    requires MenuDispatch(v.line).EnterCommands?
    requires v.commandLines == plain + [exitLine] + after
    requires forall i :: 0 <= i < |plain| ==> IsPlainCommand(plain[i])
    requires IsExitLine(exitLine)
    ensures VisitEffect(session, serverId, v) == Effect([], CommandPosts(session, serverId, plain), false, None)
  {
    ExitEndsSession([], plain, exitLine, after);
  }
}
