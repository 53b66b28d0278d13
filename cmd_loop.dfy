/** `Cmd.cmdloop`, independent of how a line is dispatched: each line is
    handed to the dispatcher `onecmd` together with the remembered previous
    line, and the loop ends when a line's action stops it or the lines run
    out. */
module CommandLoop {

  /** What one input line makes the console do. */
  datatype Action =
    | Stop                   // `do_exit` returned True: the command loop ends
    | Help                   // `do_help`: prints help, sends nothing
    | Send(command: string)  // `default`: `send_console(session, server_id, command)`
    | Idle                   // an empty line with no previous command

  /** The commands an action sends: one for `Send`, none otherwise. */
  function Sent(action: Action): (cs: seq<string>)
    ensures |cs| <= 1
  {
    if action.Send? then [action.command] else []
  }

  /** What a command session does with a list of input lines. */
  datatype Outcome = Outcome(commands: seq<string>, stopped: bool, consumed: nat, lastcmd: string)

  /** `Cmd.cmdloop` over `lines` from remembered line `lastcmd`, with
      `onecmd` as the dispatcher (`OneCmd` for the console): reads lines
      until one stops the loop or the lines run out. */
  function Run(onecmd: (string, string) -> (string, Action), lastcmd: string, lines: seq<string>): (o: Outcome)
    ensures o.consumed <= |lines|
    ensures o.stopped || o.consumed == |lines|
    ensures o.stopped ==> o.consumed > 0
    decreases |lines|
  {
    if lines == [] then Outcome([], false, 0, lastcmd)
    else
      var r := onecmd(lines[0], lastcmd);
      if r.1.Stop? then Outcome([], true, 1, r.0)
      else
        var rest := Run(onecmd, r.0, lines[1..]);
        Outcome(Sent(r.1) + rest.commands, rest.stopped, rest.consumed + 1, rest.lastcmd)
  }

  /** Reading one more line: a session that has stopped reads nothing more;
      otherwise the line is dispatched with the remembered line so far, and
      either stops the session or adds what it sends. */
  lemma {:induction false} RunSnoc(onecmd: (string, string) -> (string, Action), lastcmd: string,
                                   lines: seq<string>, line: string)
    ensures var o := Run(onecmd, lastcmd, lines);
            var r := onecmd(line, o.lastcmd);
            Run(onecmd, lastcmd, lines + [line]) ==
              if o.stopped then o
              else if r.1.Stop? then Outcome(o.commands, true, o.consumed + 1, r.0)
              else Outcome(o.commands + Sent(r.1), false, o.consumed + 1, r.0)
    decreases |lines|
  {
    if lines != [] {
      assert (lines + [line])[0] == lines[0];
      assert (lines + [line])[1..] == lines[1..] + [line];
      var r := onecmd(lines[0], lastcmd);
      if !r.1.Stop? {
        RunSnoc(onecmd, r.0, lines[1..], line);
        var rest := Run(onecmd, r.0, lines[1..]);
        assert Sent(r.1) + (rest.commands + Sent(onecmd(line, rest.lastcmd).1))
            == (Sent(r.1) + rest.commands) + Sent(onecmd(line, rest.lastcmd).1);
      }
    } else {
      assert [] + [line] == [line];
    }
  }

  /** Once the session has stopped within the first `k` lines, the lines
      after them are never read. */
  lemma {:induction false} RunStopped(onecmd: (string, string) -> (string, Action), lastcmd: string,
                                      lines: seq<string>, k: int)
    requires 0 <= k <= |lines|
    requires Run(onecmd, lastcmd, lines[..k]).stopped
    ensures Run(onecmd, lastcmd, lines) == Run(onecmd, lastcmd, lines[..k])
    decreases k
  {
    assert lines[..k][0] == lines[0];
    var r := onecmd(lines[0], lastcmd);
    if !r.1.Stop? {
      assert lines[..k][1..] == lines[1..][..k - 1];
      RunStopped(onecmd, r.0, lines[1..], k - 1);
    }
  }

  /** `onecmd` hands each of `lines` to `default` as it is, whatever line
      was remembered before. */
  ghost predicate SentVerbatim(onecmd: (string, string) -> (string, Action), lines: seq<string>)
  {
    forall i, last :: 0 <= i < |lines| ==> onecmd(lines[i], last).1 == Send(lines[i])
  }

  /** A session of lines that are each sent as they are sends all of them,
      in order, and does not stop. */
  lemma {:induction false} VerbatimLinesAllSent(onecmd: (string, string) -> (string, Action), lastcmd: string,
                                                lines: seq<string>)
    requires SentVerbatim(onecmd, lines)
    ensures Run(onecmd, lastcmd, lines).commands == lines
    ensures !Run(onecmd, lastcmd, lines).stopped
    decreases |lines|
  {
    if lines != [] {
      var r := onecmd(lines[0], lastcmd);
      assert r.1 == Send(lines[0]);
      assert SentVerbatim(onecmd, lines[1..]) by {
        forall i, last | 0 <= i < |lines| - 1 ensures onecmd(lines[1..][i], last).1 == Send(lines[1..][i]) {
          assert lines[1..][i] == lines[i + 1];
        }
      }
      VerbatimLinesAllSent(onecmd, r.0, lines[1..]);
    }
  }

  /** Lines sent as they are, then a line that stops the loop: the session
      sends exactly the former, stops, and never reads what follows. */
  lemma {:induction false} StopLineEndsSession(onecmd: (string, string) -> (string, Action), lastcmd: string,
                                               sends: seq<string>, stopLine: string, after: seq<string>)
    requires SentVerbatim(onecmd, sends)
    requires forall last :: onecmd(stopLine, last).1.Stop?
    ensures var o := Run(onecmd, lastcmd, sends + [stopLine] + after);
            o.commands == sends && o.stopped && o.consumed == |sends| + 1
    decreases |sends|
  {
    var lines := sends + [stopLine] + after;
    if sends == [] {
      assert lines[0] == stopLine;
    } else {
      var r := onecmd(sends[0], lastcmd);
      assert lines[0] == sends[0];
      assert r.1 == Send(sends[0]);
      assert lines[1..] == sends[1..] + [stopLine] + after;
      assert SentVerbatim(onecmd, sends[1..]) by {
        forall i, last | 0 <= i < |sends| - 1 ensures onecmd(sends[1..][i], last).1 == Send(sends[1..][i]) {
          assert sends[1..][i] == sends[i + 1];
        }
      }
      StopLineEndsSession(onecmd, r.0, sends[1..], stopLine, after);
      assert [sends[0]] + sends[1..] == sends;
    }
  }
}
