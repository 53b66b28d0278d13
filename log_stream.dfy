/** The log poller (`stream_console`): on every tick it asks the panel for
    the log after its cursor `log_seq`; when the answer's `log_seq` differs
    from the cursor it prints the answer's `log` text and moves the cursor to
    the answer's value. The ticks until the operator interrupts the stream
    are given as the finite sequence of the panel's answers. */
module LogStream {
  import opened Text
  import opened Panel

  /** The decoded answer of one refresh request: `{log_seq, log}`. */
  datatype LogRecord = LogRecord(logSeq: int, log: string)

  /** One tick's effect: the cursor after it and the text printed, if any. */
  datatype Tick = Tick(cursor: int, printed: Option<string>)

  /** One tick from cursor `cursor` on answer `r`. The test is `!=`, so any
      different value, smaller ones included, is taken; either way the cursor
      afterwards is the answer's `log_seq`. */
  function Step(cursor: int, r: LogRecord): (t: Tick)
    ensures t.cursor == r.logSeq
    ensures t.printed.Some? <==> r.logSeq != cursor
    ensures t.printed.Some? ==> t.printed.value == r.log
  {
    if cursor != r.logSeq then Tick(r.logSeq, Some(r.log)) else Tick(cursor, None)
  }

  /** Polling twice with the same answer prints nothing the second time and
      keeps the cursor. */
  lemma StepIdempotent(cursor: int, r: LogRecord)
    ensures Step(Step(cursor, r).cursor, r) == Tick(Step(cursor, r).cursor, None)
  {
  }

  /** The cursor in force before tick `i`: the starting cursor before the
      first tick, and the previous answer's `log_seq` after that. */
  function CursorBefore(start: int, rs: seq<LogRecord>, i: int): int
    requires 0 <= i <= |rs|
  {
    if i == 0 then start else rs[i - 1].logSeq
  }

  /** Answer `i` carries a `log_seq` other than the one just before it. */
  predicate IsNew(start: int, rs: seq<LogRecord>, i: int)
    requires 0 <= i < |rs|
  {
    rs[i].logSeq != CursorBefore(start, rs, i)
  }

  /** The answers whose text gets printed, in order: those that are new. */
  function Accepted(start: int, rs: seq<LogRecord>): seq<LogRecord>
  {
    if rs == [] then []
    else Accepted(start, rs[..|rs| - 1]) + (if IsNew(start, rs, |rs| - 1) then [rs[|rs| - 1]] else [])
  }

  function Texts(rs: seq<LogRecord>): (ts: seq<string>)
    ensures |ts| == |rs| && forall i :: 0 <= i < |rs| ==> ts[i] == rs[i].log
  {
    if rs == [] then [] else [rs[0].log] + Texts(rs[1..])
  }

  lemma TextsAppend(a: seq<LogRecord>, b: seq<LogRecord>)
    ensures Texts(a + b) == Texts(a) + Texts(b)
  {
  }

  /** The prefix of answers `rs[..k]` agrees with `rs` on which answers are new. */
  lemma IsNewPrefix(start: int, rs: seq<LogRecord>, k: int, i: int)
    requires 0 <= i < k <= |rs|
    ensures IsNew(start, rs[..k], i) == IsNew(start, rs, i)
  {
  }

  /** The refresh requests of a watch over `answers`: one per tick, each
      carrying the cursor in force at that tick. */
  function RefreshPosts(session: Session, serverId: string, start: int, answers: seq<LogRecord>): seq<Post>
  {
    seq(|answers|, i requires 0 <= i < |answers| => RefreshPost(session, serverId, CursorBefore(start, answers, i)))
  }

  /** `stream_console` from cursor `start` over the answers `answers`, one per
      tick. It returns the final cursor, the texts it printed and the refresh
      requests it sent. Each request carries the cursor in force at its tick;
      the printed texts are those of the new answers, in order; the final
      cursor is the last answer's `log_seq` (or `start` when there was no
      tick). */
  method StreamConsole(session: Session, serverId: string, start: int, answers: seq<LogRecord>)
    returns (cursor: int, printed: seq<string>, requests: seq<Post>)
    ensures cursor == CursorBefore(start, answers, |answers|)
    ensures printed == Texts(Accepted(start, answers))
    ensures requests == RefreshPosts(session, serverId, start, answers)
  {
    cursor := start;
    printed := [];
    requests := [];
    var i := 0;
    while i < |answers|
      invariant 0 <= i <= |answers|
      invariant cursor == CursorBefore(start, answers, i)
      invariant printed == Texts(Accepted(start, answers[..i]))
      invariant |requests| == i
      invariant forall j :: 0 <= j < i ==> requests[j] == RefreshPost(session, serverId, CursorBefore(start, answers, j))
    {
      requests := requests + [RefreshPost(session, serverId, cursor)];
      var r := answers[i];
      var t := Step(cursor, r);
      assert answers[..i + 1][..i] == answers[..i];
      IsNewPrefix(start, answers, i + 1, i);
      if t.printed.Some? {
        TextsAppend(Accepted(start, answers[..i]), [r]);
        printed := printed + [t.printed.value];
      }
      cursor := t.cursor;
      i := i + 1;
    }
    assert answers[..i] == answers;
  }

  /** The final cursor is the `log_seq` of the last printed answer, or the
      starting cursor when nothing was printed. */
  lemma {:induction false} FinalCursorIsLastAccepted(start: int, rs: seq<LogRecord>)
    ensures var acc := Accepted(start, rs);
            CursorBefore(start, rs, |rs|) == if acc == [] then start else acc[|acc| - 1].logSeq
  {
    if rs != [] {
      var n := |rs| - 1;
      var init := rs[..n];
      FinalCursorIsLastAccepted(start, init);
      assert CursorBefore(start, rs, n) == CursorBefore(start, init, n);
    }
  }

  /** `x` is an answer of `rs` that was new at its tick. */
  predicate IsNewAnswer(start: int, rs: seq<LogRecord>, x: LogRecord)
  {
    exists i :: 0 <= i < |rs| && IsNew(start, rs, i) && x == rs[i]
  }

  /** Every printed answer is one the poller had not taken before: its
      `log_seq` differs from the cursor of its tick. */
  lemma {:induction false} AcceptedAreNew(start: int, rs: seq<LogRecord>)
    ensures forall k :: 0 <= k < |Accepted(start, rs)| ==> IsNewAnswer(start, rs, Accepted(start, rs)[k])
  {
    if rs != [] {
      var n := |rs| - 1;
      var init := rs[..n];
      AcceptedAreNew(start, init);
      var acc, accInit := Accepted(start, rs), Accepted(start, init);
      forall k | 0 <= k < |acc| ensures IsNewAnswer(start, rs, acc[k]) {
        if k < |accInit| {
          assert IsNewAnswer(start, init, accInit[k]);
          var i :| 0 <= i < |init| && IsNew(start, init, i) && accInit[k] == init[i];
          IsNewPrefix(start, rs, n, i);
          assert IsNew(start, rs, i) && acc[k] == rs[i];
        } else {
          assert IsNew(start, rs, n) && acc[k] == rs[n];
        }
      }
    }
  }

  /** Cursors that never decrease: the panel's promise. */
  predicate Monotone(start: int, rs: seq<LogRecord>)
  {
    (forall i :: 0 <= i < |rs| ==> start <= rs[i].logSeq)
    && forall i, j :: 0 <= i < j < |rs| ==> rs[i].logSeq <= rs[j].logSeq
  }

  /** Under monotone cursors no content is printed twice: the printed
      answers have strictly increasing `log_seq` values, all above the start. */
  lemma {:induction false} MonotoneNoRepeat(start: int, rs: seq<LogRecord>)
    requires Monotone(start, rs)
    ensures var acc := Accepted(start, rs);
            (forall k :: 0 <= k < |acc| ==> start < acc[k].logSeq)
            && (forall k, l :: 0 <= k < l < |acc| ==> acc[k].logSeq < acc[l].logSeq)
  {
    if rs != [] {
      var n := |rs| - 1;
      var init := rs[..n];
      assert Monotone(start, init);
      MonotoneNoRepeat(start, init);
      FinalCursorIsLastAccepted(start, init);
      assert CursorBefore(start, rs, n) == CursorBefore(start, init, n);
    }
  }

  /** The `log_seq` values of a list of answers. */
  function Seqs(rs: seq<LogRecord>): (ns: seq<int>)
    ensures |ns| == |rs| && forall i :: 0 <= i < |rs| ==> ns[i] == rs[i].logSeq
  {
    if rs == [] then [] else [rs[0].logSeq] + Seqs(rs[1..])
  }

  /** Nothing is skipped: every `log_seq` value the panel returned, other
      than the starting cursor, is the value of some printed answer. */
  lemma {:induction false} NoValueSkipped(start: int, rs: seq<LogRecord>)
    ensures forall i :: 0 <= i < |rs| && rs[i].logSeq != start ==> rs[i].logSeq in Seqs(Accepted(start, rs))
  {
    if rs != [] {
      var n := |rs| - 1;
      var init := rs[..n];
      NoValueSkipped(start, init);
      FinalCursorIsLastAccepted(start, init);
      assert CursorBefore(start, rs, n) == CursorBefore(start, init, n);
      var acc, accInit := Accepted(start, rs), Accepted(start, init);
      assert acc[..|accInit|] == accInit;
      forall i | 0 <= i < |rs| && rs[i].logSeq != start ensures rs[i].logSeq in Seqs(acc) {
        if i < n {
          assert init[i] == rs[i];
          var k :| 0 <= k < |accInit| && Seqs(accInit)[k] == rs[i].logSeq;
          assert Seqs(acc)[k] == rs[i].logSeq;
        } else if IsNew(start, rs, n) {
          assert Seqs(acc)[|acc| - 1] == rs[n].logSeq;
        } else {
          assert Seqs(acc)[|accInit| - 1] == rs[n].logSeq;
        }
      }
    }
  }

  /** The scenario of a fresh stream: answers `(5, "Server started\n")`,
      `(5, "")`, `(9, "Player joined\n")` print the first and third texts and
      leave the cursor at 9. */
  lemma StartupScenario()
    ensures var rs := [LogRecord(5, "Server started\n"), LogRecord(5, ""), LogRecord(9, "Player joined\n")];
            Texts(Accepted(0, rs)) == ["Server started\n", "Player joined\n"]
            && CursorBefore(0, rs, |rs|) == 9
  {
    var rs := [LogRecord(5, "Server started\n"), LogRecord(5, ""), LogRecord(9, "Player joined\n")];
    assert rs[..1][..0] == [];
    assert Accepted(0, rs[..1]) == [rs[0]];
    assert rs[..2][..1] == rs[..1];
    assert Accepted(0, rs[..2]) == [rs[0]];
    assert rs[..3] == rs;
    assert Accepted(0, rs) == [rs[0], rs[2]];
  }

  /** Without non-decreasing cursors the `!=` test can print the same text
      twice: a panel that answers 5, then 3, then 5 again has its first text
      printed a second time. */
  lemma DecreasingCursorRepeats()
    ensures var rs := [LogRecord(5, "a"), LogRecord(3, "b"), LogRecord(5, "a")];
            Texts(Accepted(0, rs)) == ["a", "b", "a"]
  {
    var rs := [LogRecord(5, "a"), LogRecord(3, "b"), LogRecord(5, "a")];
    assert rs[..1][..0] == [];
    assert Accepted(0, rs[..1]) == [rs[0]];
    assert rs[..2][..1] == rs[..1];
    assert Accepted(0, rs[..2]) == [rs[0], rs[1]];
    assert rs[..3] == rs;
    assert Accepted(0, rs) == [rs[0], rs[1], rs[2]];
  }
}
