# Multicraft console client: a Dafny model of its decision logic

The client (`main.py`) signs in to a Multicraft game-server panel. It then
offers a menu:
- watch the server console, by polling the panel for new log text;
- type console commands that the panel runs;
- exit.

Underneath the HTTP, HTML and terminal plumbing is a small body of
deterministic logic, and that logic is what this project models and proves
correct:

- **Server identifier** (`server_id.dfy`): `extract_server_id_from_url`.
  - It searches for the pattern `&id=[0-9]+`, taking the leftmost match and a greedy digit run.
  - The search can fail.
  - It round-trips with the console URL the client builds for a server.
- **Requests** (`panel.dfy`): the endpoints and the three forms the client posts.
  - The login form.
  - The log refresh built by `get_console`.
  - The console command built by `send_console`.
  - The HTTP session appears only through the one thing the forms read from it, the anti-forgery cookie. A request is the URL plus the form handed to `session.post`.
- **Login decision** (`login.dfy`): the panel's error messages and the final URL of its answer decide between three outcomes:
  - a fatal exit with the first message and status 1;
  - the server identifier;
  - the failed search.
- **Log poller** (`log_stream.dfy`): `stream_console`.
  - A pure step compares the answer's `log_seq` with the cursor.
  - A loop method runs that step over the panel's answers, one per tick until the operator interrupts.
  - It is proved against a reference definition: which answers are printed, the final cursor, and the requests sent.
- **Command mode** (`cmd_loop.dfy`, `command_mode.dfy`): the `Console` class.
  - Its prompt, `do_exit` and `default` are modelled.
  - Line dispatch follows the `cmd.Cmd` machinery that `Console` inherits:
    - a line is stripped;
    - an empty line repeats the last command;
    - `?` stands for `help` and `!` goes to `default`;
    - the leading identifier selects `do_exit` or `do_help`;
    - every other line goes to `default`, which posts it with `send_console`.
  - `cmdloop` is modelled both as a function over the typed lines and as an imperative loop over the class's state. The proofs tie the two together.
- **Main menu** (`menu.dfy`): `main_menu`.
  - It classifies the typed option and dispatches it.
  - Over a script of visits, the menu loop is an imperative method proved against a reference definition.

Network answers and typed lines are inputs. An interrupt is not an input:
the end of a finite sequence of answers or lines stands for it. The model
holds no I/O.

## Model

| member | source | states |
|---|---|---|
| ServerId.FirstMatchFrom | main.py:57 | the search returns the leftmost position, at or after the start, where `&id=` is followed by a digit, and nothing exactly when no such position exists |
| ServerId.ExtractServerId | main.py:56-58 | a successful extraction is a non-empty string of ASCII digits |
| ServerId.ExtractFailsIffNoMatch | main.py:57-58 | extraction fails exactly when no `&id=` in the URL is followed by a digit |
| ServerId.ExtractIsLeftmostMaximalRun | main.py:57-58 | the result is the maximal digit run right after the leftmost `&id=` that is followed by a digit; earlier markers without a digit are skipped |
| ServerId.ExtractHasLeftmostMatch | main.py:57-58 | every successful extraction is such a leftmost, maximal run |
| Panel.ConsoleUrlHasNoAmpersand | main.py:14 | `CONSOLE_URL` contains no `&`, so no marker starts inside it |
| Panel.ServerUrlRoundTrip | main.py:91 | for any non-empty all-digit identifier, extraction from `CONSOLE_URL + "&id=" + id` returns the identifier |
| Panel.RequestsTargetServer | main.py:91-105 | the refresh and command requests for a server carry a URL from which that server's identifier is extracted |
| Panel.LoginForm | main.py:64-70 | the login form has exactly five fields, with distinct names: the user name, the password, `rememberMe` and `ignoreIp` set to 0, and `yt` set to `Login` |
| Panel.RefreshPost | main.py:82-91 | the refresh request goes to the server's console URL, with exactly four distinct fields: `ajax = refresh`, `type = all`, the cursor as `log_seq` and the cookie (or `None`) as token; there is no `command` field |
| Panel.CommandPost | main.py:97-106 | the command request goes to the server's console URL, with exactly three distinct fields: `ajax = command`, the command unchanged and the token; there is no `log_seq` field |
| Panel.CommandPostsDetermineCommand | main.py:84-103 | a command request is never a refresh request, and different commands give different requests |
| Login.LoginPost | main.py:64-71 | the request goes to `LOGIN_URL` and its form is the login form: exactly five fields, carrying the user name, the password, `rememberMe` and `ignoreIp` set to 0, and `yt` set to `Login` |
| Login.LoginDecision | main.py:73-80 | rejection happens exactly when the message list is non-empty and its first entry is non-empty, with that message and status 1; otherwise the outcome is the extracted identifier, or failure exactly when there is no match |
| Login.RejectionIgnoresUrl | main.py:75-77 | a rejected login does not depend on the final URL |
| Login.OnlyFirstMessageCounts | main.py:75 | an empty first message means success, whatever follows it |
| Login.LoginFindsConsoleServer | main.py:75-80 | a login that is not rejected and lands on a server's console URL yields that server's identifier |
| LogStream.Step | main.py:112-115 | after a tick the cursor is the answer's `log_seq`; text is printed exactly when that differs from the cursor, and the text is the answer's `log`; any different value, a smaller one included, is taken |
| LogStream.StepIdempotent | main.py:113-115 | polling twice with the same answer prints nothing the second time and keeps the cursor |
| LogStream.StreamConsole | main.py:108-117 | the poll loop prints, in order, the `log` of exactly the answers that differed from the cursor of their tick, and ends at the last answer's `log_seq` (or the start); its i-th request carries the cursor in force at tick i |
| LogStream.FinalCursorIsLastAccepted | main.py:111-115 | the final cursor is the `log_seq` of the last printed answer, or the starting cursor if none was printed |
| LogStream.AcceptedAreNew | main.py:113-115 | every printed answer differed from the cursor at its tick |
| LogStream.MonotoneNoRepeat | main.py:113-115 | when the panel's cursors never decrease, the printed answers have strictly increasing `log_seq` values above the start, so nothing is printed twice |
| LogStream.NoValueSkipped | main.py:113-114 | every `log_seq` value returned, other than the starting cursor, is that of a printed answer |
| LogStream.StartupScenario | main.py:108-117 | answers (5, "Server started\n"), (5, ""), (9, "Player joined\n") from cursor 0 print the first and third texts and end at cursor 9 |
| LogStream.DecreasingCursorRepeats | main.py:113-115 | when the panel's cursor goes back (answers 5, 3, 5 with texts a, b, a, from cursor 0), the `!=` test prints `a` twice; repeats are ruled out only under the non-decreasing assumption of `MonotoneNoRepeat` |
| CommandLoop.Run | main.py:143 | the command loop reads at most all lines, and either stops on a line or reads them all |
| CommandLoop.RunSnoc | main.py:143 | reading one more line: a stopped loop reads nothing more; otherwise the line's action either stops the loop or adds what it sends |
| CommandLoop.RunStopped | main.py:143 | once the loop has stopped, the lines after the stopping line are never read |
| CommandLoop.VerbatimLinesAllSent | main.py:29-30 | lines that the dispatcher hands to `default` unchanged are all sent, in order, and do not stop the loop |
| CommandLoop.StopLineEndsSession | main.py:26-27 | after such lines, a line that stops the loop ends the session: exactly the earlier lines are sent and nothing after the stopping line is read |
| CommandMode.OneCmd | main.py:26-30 | dispatching a line never leaves a remembered line that starts with white space |
| CommandMode.ExitLineStops | main.py:26-27 | a line naming `exit` stops the loop, sends nothing, and is remembered stripped |
| CommandMode.PlainLineSentVerbatim | main.py:29-30 | a plain line is passed to `default` and posted exactly as typed |
| CommandMode.EmptyLineRepeatsLast | main.py:143 | an empty or blank line repeats the remembered command, and does nothing when there is none |
| CommandMode.PlainLinesSentVerbatim | main.py:29-30 | the console's dispatcher sends every plain line as it is, whatever was remembered before |
| CommandMode.PlainLinesAllSent | main.py:29-30 | a session of plain lines posts every one of them, verbatim and in order, and does not stop |
| CommandMode.ExitEndsSession | main.py:26-30 | plain lines then `exit`: exactly the plain lines are posted, the loop stops, and nothing after `exit` is read |
| CommandMode.Console.constructor | main.py:19-24 | the console keeps the session, the server and its name; the prompt is the name followed by `" > "`; nothing is remembered or sent yet |
| CommandMode.Console.DoExit | main.py:26-27 | `do_exit` returns true |
| CommandMode.Console.Default | main.py:29-30 | `default` appends exactly one command request for the line to what was sent |
| CommandMode.Console.OneLine | main.py:26-30 | one line updates the remembered line and picks the handler as `OneCmd` says; the loop stops exactly on `Stop`; exactly the action's command is posted |
| CommandMode.Console.CmdLoop | main.py:142-143 | the loop reads the lines the session function says, stops exactly when it does, remembers the same last line, and posts exactly the session's commands, in order |
| Text.Decimal | main.py:147 | `str(n)` is a non-empty string of digits with no leading zero unless n is 0 |
| Text.DecimalRoundTrip | main.py:133 | `int(str(n)) == n` |
| Text.LeadingZeroIgnored | main.py:133 | a leading zero does not change the value `int` reads |
| Text.Strip | main.py:143 | stripping leaves no white space at either end |
| Text.StripRemovesOnlySpace | main.py:143 | stripping removes only white space, and only at the two ends |
| Text.StripKeepsStripped | main.py:143 | a line without white space at its ends is left as it is |
| Text.StripEmptyIffAllSpace | main.py:143 | stripping leaves nothing exactly when the line is all white space |
| Menu.ParseOptionRoundTrip | main.py:132-133 | typing the numeral of n selects option n |
| Menu.MenuDispatch | main.py:130-148 | 1, 2 and 3 (exactly these values) watch from cursor 0, enter command mode and exit with 0; other input re-prompts, echoing a non-numeric line as typed and a number as `int` reads it |
| Menu.MenuDispatchIgnoresLeadingZeros | main.py:132-138 | leading zeros do not change the decision |
| Menu.MenuOptions | main.py:132-148 | "1", "2" and "3" select their options; "007" and "view" are rejected with the messages the menu prints |
| Menu.Combine | main.py:124-148 | the menu loop takes visits in order until one ends it or the script runs out; it exits with a status only when it has ended |
| Menu.CombineSnoc | main.py:124-148 | one more visit to a menu that has not ended adds that visit's output and requests, and ends the menu exactly when the visit does |
| Menu.CombineHalted | main.py:144-145 | once the menu has ended, the rest of the script is never read |
| Menu.MenuVisit | main.py:130-148 | one pass of the loop body has exactly the effect the reference definition gives for the typed option |
| Menu.MainMenu | main.py:119-148 | the menu loop returns the exit status, the printed texts and the posted requests that the reference definition gives for the script |
| Menu.ExitEndsMenu | main.py:144-145 | option 3 exits with status 0, keeps what came before, and reads nothing after it |
| Menu.RepromptChangesNothing | main.py:134-148 | a rejected option prints its message and leaves the rest of the run unchanged |
| Menu.WatchStartsAtZero | main.py:138-140 | each watch starts from cursor 0, whatever earlier watches saw: its first refresh asks for `log_seq` 0, and it prints the answers that are new counting from 0 |
| Menu.CommandModeSendsPlainLines | main.py:141-143 | in command mode, plain lines then `exit` post exactly those lines, in order, and return to the menu |

## Left out

- HTTP transport is not modelled. That covers `requests.Session`, `session.get`/`post`, cookies beyond the anti-forgery token, and the preliminary `session.get(LOGIN_URL)`. Requests are values and answers are inputs.
- The unused wrappers `session_post`/`session_get` and the debugging helper `dump` are not modelled.
- `requests` leaves out form fields whose value is `None`. The model keeps such a token field as `NoValue`.
- HTML parsing with lxml/XPath is not modelled: the error-message list is an input.
- JSON decoding is not modelled: the decoded `{log_seq, log}` record is an input. The source crashes on a malformed or incomplete answer, and that crash is not modelled.
- A failed search (`NoServerId`) is a value here. In the source, indexing `None` raises `TypeError` after "Successfully logged in!" has been printed.
- SIGINT, the global `should_stream_console` flag and `sleep(1)` are not modelled. A finite sequence of answers stands for the ticks until the operator interrupts.
- `input`, `getpass`, `print` of the menu banner, the progress messages and `main()`'s wiring of login into the menu are not modelled.
- Exits are values. `exit(1)` is the `Rejected` status and `exit(0)` is `Exit(0)`.
- Only ASCII digits are modelled. `str.isnumeric` also accepts other numeric characters, on which `int` may fail or read a different value.
- `str.strip` in `cmd.Cmd` also removes non-ASCII white space. Only the ASCII white-space characters are modelled.
- `cmd.Cmd` details not modelled:
  - at end of input it dispatches the line `EOF`, which here reaches `default`; in the model the typed lines are finite, and a session that runs out of lines before `exit` never returns to the menu;
  - the help text `do_help` prints;
  - line completion;
  - `preloop`/`postloop`.
- CommandMode.OneCmd: a blank remembered line is treated as no remembered line. There, `emptyline` would recurse without end. `LastValid` shows that the remembered line never starts with white space, so a remembered line is never blank.
- Interrupts in the main menu or in command mode are not modelled. Neither is a distinct exit status for them: the code has no such status. An interrupt there either ends the process with Python's `KeyboardInterrupt` or only clears the stream flag.
- The anti-forgery token is taken as fixed once the session has logged in: every refresh and command request carries the same `Session` value. The source reads the cookie again for each request (`get_console`, `send_console`), and `requests.Session` updates its cookies from every answer. A panel that reissued the cookie mid-stream would therefore change the token in the source's later requests, and the model does not capture that.
- Network errors are not modelled. Nothing in the source catches a `RequestException` from `session.post` in `login`, `get_console` or `send_console`, so a failed request ends the process with a traceback. The model always has an answer.
- Menu.ParseOption: numerals longer than 4300 digits are not treated specially. From Python 3.11 on, `int` raises `ValueError` on such a line, which `isnumeric` accepted, and the process ends. The model reads the value and re-prompts.
- The poller can print the same text twice when the panel's `log_seq` goes back, because the code's `!=` test takes any value different from the cursor. LogStream.MonotoneNoRepeat proves there are no repeats when the values never decrease, and LogStream.DecreasingCursorRepeats shows a repeat when one goes back.
- A malformed answer or a network error ends the process. Neither is caught or logged.
- The code has no status view.
- Command mode does not forward every line verbatim. It strips lines, sends `?` and `help` to `do_help`, and repeats the last command on an empty line. Only plain commands reach the panel exactly as typed.
