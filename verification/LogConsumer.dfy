/**
  The consumer of dashboard/backend/app/routers/logs_ws.py, lines 148 to 183: queued lines become
  WebSocket messages, plain ones in batches, those of a network function alone.
  */
module LogConsumer {
  import opened Bytes

  /** A queued line: its first word when it has two, what is shown for it, and whether a network function wrote it. */
  datatype Line = Line(timestamp: string, formatted: string, nf: bool)

  /** A message of log lines, or the note that so many lines were streamed. */
  datatype Message = Text(text: string) | Note(count: nat)

  function Join(lines: seq<string>): string {
    if |lines| == 0 then "" else if |lines| == 1 then lines[0] else lines[0] + "\n" + Join(lines[1..])
  }

  /** The lines a message shows. */
  function Split(s: string): seq<string> {
    var k := FirstOf(s, '\n');
    if k == |s| then [s] else [s[..k]] + Split(s[k + 1..])
  }

  function Shows(m: Message): seq<string> {
    if m.Text? then Split(m.text) else []
  }

  /** All lines shown by the messages sent. */
  function Received(out: seq<Message>): seq<string> {
    if out == [] then [] else Received(out[..|out| - 1]) + Shows(out[|out| - 1])
  }

  ghost predicate OneLineEach(lines: seq<string>) {
    forall i | 0 <= i < |lines| :: '\n' !in lines[i]
  }

  // ---------------------------------------------------------------- the code

  datatype State = State(out: seq<Message>, sent: nat, batch: seq<string>, last: Option<string>)

  function Flushed(s: State): State {
    if s.batch == [] then s
    else s.(out := s.out + [Text(Join(s.batch))], sent := s.sent + |s.batch|, batch := [])
  }

  function Taken(s: State, line: Line): State {
    if line.nf then
      var f := Flushed(s);
      f.(out := f.out + [Text(line.formatted)], sent := f.sent + 1)
    else
      s.(batch := s.batch + [line.formatted])
  }

  function Dated(s: State, line: Line): State {
    if line.timestamp != "" then s.(last := Some(line.timestamp)) else s
  }

  function Noted(s: State): State {
    if s.sent > 0 && s.sent % 500 == 0 then
      var f := Flushed(s);
      f.(out := f.out + [Note(f.sent)])
    else s
  }

  function Handled(s: State, line: Line): State {
    Noted(Dated(Taken(s, line), line))
  }

  function Run(lines: seq<Line>): State {
    if lines == [] then State([], 0, [], None)
    else Handled(Run(lines[..|lines| - 1]), lines[|lines| - 1])
  }

  /** `m` is among the messages that `later` has beyond `out`. */
  ghost predicate Sends(out: seq<Message>, later: seq<Message>, m: Message) {
    exists k | |out| <= k < |later| :: later[k] == m
  }

  lemma {:induction false} HandledSends(s: State, line: Line)
    ensures var s' := Handled(s, line);
            s.out <= s'.out && (line.nf ==> s'.batch == [] && Sends(s.out, s'.out, Text(line.formatted)))
  {
    if line.nf {
      var taken, k := Taken(s, line).out, |Flushed(s).out|;
      assert taken[k] == Text(line.formatted) && Handled(s, line).out[k] == taken[k];
    }
  }

  /** The state of the consumer while it runs; `handled` are the lines taken off the queue, as they are shown. */
  class Consumer {
    var out: seq<Message>
    var sent: nat
    var batch: seq<string>
    var last: Option<string>

    ghost function Value(): State
      reads this
    {
      State(out, sent, batch, last)
    }

    constructor ()
      ensures Value() == Run([]) && Accounts(Value(), [])
    {
      out, sent, batch, last := [], 0, [], None;
    }

    /** The waiting lines become shown lines, in one message at most; nothing waits afterwards. */
    method Flush(ghost handled: seq<string>)
      requires Accounts(Value(), handled)
      modifies this
      ensures Received(out) == handled == old(Received(out)) + old(batch)
      ensures batch == [] && sent == |handled| && last == old(last) && NotesAreTrue(out)
      ensures old(out) <= out && |out| == |old(out)| + if old(batch) == [] then 0 else 1
      ensures Value() == Flushed(old(Value()))
    {
      FlushAccounts(Value(), handled);
      if batch != [] {
        out := out + [Text(Join(batch))];
        sent := sent + |batch|;
        batch := [];
      }
    }

    /** Lines 166 to 173: the line is sent, after what waits, or waits itself; its time is kept. */
    method Take(line: Line, ghost handled: seq<string>)
      requires Accounts(Value(), handled) && '\n' !in line.formatted
      modifies this
      ensures Accounts(Value(), handled + [line.formatted])
      ensures Value() == Dated(Taken(old(Value()), line), line)
    {
      TakeAccounts(Value(), handled, line);
      if line.nf {
        Flush(handled);
        out := out + [Text(line.formatted)];
        sent := sent + 1;
      } else {
        batch := batch + [line.formatted];
      }
      if line.timestamp != "" {
        last := Some(line.timestamp);
      }
    }

    /** Lines 174 to 178: at a multiple of 500, what waits is sent and the count noted. */
    method Progress(ghost handled: seq<string>)
      requires Accounts(Value(), handled)
      modifies this
      ensures Accounts(Value(), handled)
      ensures Value() == Noted(old(Value()))
    {
      NoteAccounts(Value(), handled);
      if sent > 0 && sent % 500 == 0 {
        Flush(handled);
        out := out + [Note(sent)];
      }
    }

    /**
      The line joins those accounted for, shown or waiting; a network function's is shown at once, as a message of its
      own after everything before it. Nothing sent is taken back.
      */
    method Handle(line: Line, ghost handled: seq<string>)
      requires Accounts(Value(), handled) && '\n' !in line.formatted
      modifies this
      ensures Accounts(Value(), handled + [line.formatted])
      ensures old(out) <= out && (line.nf ==> batch == [] && Sends(old(out), out, Text(line.formatted)))
      ensures last == if line.timestamp != "" then Some(line.timestamp) else old(last)
      ensures Value() == Handled(old(Value()), line)
    {
      HandledSends(Value(), line);
      Take(line, handled);
      Progress(handled + [line.formatted]);
    }

    /** The whole loop, up to the end marker: every line shown once, in order, and none waiting. */
    method Consume(lines: seq<Line>)
      requires Value() == Run([]) && forall i | 0 <= i < |lines| :: '\n' !in lines[i].formatted
      modifies this
      ensures Received(out) == Formatted(lines) && batch == [] && sent == |lines| && NotesAreTrue(out)
      ensures Value() == Flushed(Run(lines))
    {
      for i := 0 to |lines|
        invariant Value() == Run(lines[..i]) && Accounts(Value(), Formatted(lines[..i]))
      {
        assert lines[..i + 1][..i] == lines[..i];
        Handle(lines[i], Formatted(lines[..i]));
      }
      assert lines[..|lines|] == lines;
      Flush(Formatted(lines));
      FormattedLength(lines);
    }
  }

  // ---------------------------------------------------------------- messages and lines

  lemma {:induction false} WholeLine(s: string)
    requires '\n' !in s
    ensures Split(s) == [s]
  {
    assert FirstOf(s, '\n') == |s|;
  }

  /** A batch is shown as the lines that were put in it. */
  lemma {:induction false} SplitJoin(lines: seq<string>)
    requires lines != [] && OneLineEach(lines)
    ensures Split(Join(lines)) == lines
  {
    if |lines| == 1 {
      WholeLine(lines[0]);
    } else {
      var rest := Join(lines[1..]);
      SplitJoin(lines[1..]);
      CutFirst(lines[0], rest);
      assert lines == [lines[0]] + lines[1..];
    }
  }

  lemma {:induction false} CutFirst(line: string, rest: string)
    requires '\n' !in line
    ensures Split(line + "\n" + rest) == [line] + Split(rest)
  {
    var s := line + "\n" + rest;
    assert s[..|line|] == line && s[|line| + 1..] == rest;
    FirstOfIs(s, '\n', |line|);
  }

  lemma {:induction false} ReceivedAppend(out: seq<Message>, m: Message)
    ensures Received(out + [m]) == Received(out) + Shows(m)
  {
    assert (out + [m])[..|out|] == out;
  }

  // ---------------------------------------------------------------- nothing lost, doubled or moved

  function Formatted(lines: seq<Line>): seq<string> {
    if lines == [] then [] else Formatted(lines[..|lines| - 1]) + [lines[|lines| - 1].formatted]
  }

  lemma {:induction false} FormattedLength(lines: seq<Line>)
    ensures |Formatted(lines)| == |lines|
  {
    if lines != [] {
      FormattedLength(lines[..|lines| - 1]);
    }
  }

  /** Every note tells how many lines were sent before it. */
  ghost predicate NotesAreTrue(out: seq<Message>) {
    forall i | 0 <= i < |out| && out[i].Note? :: NoteIsTrue(out, i)
  }

  ghost predicate NoteIsTrue(out: seq<Message>, i: nat)
    requires i < |out| && out[i].Note?
  {
    out[i].count == |Received(out[..i])|
  }

  /** What is shown and what waits, together; the count of lines sent. */
  ghost predicate Accounts(s: State, lines: seq<string>) {
    && Received(s.out) + s.batch == lines
    && OneLineEach(s.batch)
    && s.sent == |Received(s.out)|
    && NotesAreTrue(s.out)
  }

  lemma {:induction false} Says(out: seq<Message>, m: Message)
    requires NotesAreTrue(out) && (m.Note? ==> m.count == |Received(out)|)
    ensures NotesAreTrue(out + [m])
  {
    var all := out + [m];
    forall i | 0 <= i < |all| && all[i].Note? ensures NoteIsTrue(all, i) {
      if i < |out| {
        assert NoteIsTrue(out, i);
        assert all[..i] == out[..i];
      } else {
        assert all[..i] == out;
      }
    }
  }

  lemma {:induction false} FlushAccounts(s: State, lines: seq<string>)
    requires Accounts(s, lines)
    ensures Accounts(Flushed(s), lines)
  {
    if s.batch != [] {
      SplitJoin(s.batch);
      ReceivedAppend(s.out, Text(Join(s.batch)));
      Says(s.out, Text(Join(s.batch)));
    }
  }

  lemma {:induction false} TakeAccounts(s: State, lines: seq<string>, line: Line)
    requires Accounts(s, lines) && '\n' !in line.formatted
    ensures Accounts(Taken(s, line), lines + [line.formatted])
  {
    if line.nf {
      var f := Flushed(s);
      FlushAccounts(s, lines);
      WholeLine(line.formatted);
      ReceivedAppend(f.out, Text(line.formatted));
      Says(f.out, Text(line.formatted));
    }
  }

  lemma {:induction false} NoteAccounts(s: State, lines: seq<string>)
    requires Accounts(s, lines)
    ensures Accounts(Noted(s), lines)
  {
    FlushAccounts(s, lines);
    var f := Flushed(s);
    ReceivedAppend(f.out, Note(f.sent));
    Says(f.out, Note(f.sent));
  }

  /** At every moment the lines shown and the waiting batch are the lines handled, in order; every note is true. */
  lemma {:induction false} NothingLost(lines: seq<Line>)
    requires forall i | 0 <= i < |lines| :: '\n' !in lines[i].formatted
    ensures Accounts(Run(lines), Formatted(lines))
  {
    if lines != [] {
      var n := |lines| - 1;
      NothingLost(lines[..n]);
      TakeAccounts(Run(lines[..n]), Formatted(lines[..n]), lines[n]);
      NoteAccounts(Dated(Taken(Run(lines[..n]), lines[n]), lines[n]), Formatted(lines));
    }
  }

  /** At the end every line was shown, once and in order, and none waits. */
  lemma {:induction false} AllShown(lines: seq<Line>)
    requires forall i | 0 <= i < |lines| :: '\n' !in lines[i].formatted
    ensures Received(Flushed(Run(lines)).out) == Formatted(lines)
    ensures NotesAreTrue(Flushed(Run(lines)).out)
  {
    NothingLost(lines);
    FlushAccounts(Run(lines), Formatted(lines));
  }

  /** The time to resume from is the last one a line gave. */
  lemma {:induction false} LastTimestamp(lines: seq<Line>, i: nat)
    requires i < |lines| && lines[i].timestamp != ""
    requires forall j | i < j < |lines| :: lines[j].timestamp == ""
    ensures Run(lines).last == Some(lines[i].timestamp)
  {
    if i < |lines| - 1 {
      LastTimestamp(lines[..|lines| - 1], i);
    }
  }

  // ---------------------------------------------------------------- when the notes are for multiples of 500

  /** A plain line that follows a network function's line number 500 n. */
  ghost predicate OffBeatAt(lines: seq<Line>, i: nat) {
    0 < i < |lines| && i % 500 == 0 && lines[i - 1].nf && !lines[i].nf
  }

  ghost predicate OnBeat(out: seq<Message>) {
    forall k | 0 <= k < |out| && out[k].Note? :: out[k].count % 500 == 0
  }

  ghost predicate IsOffBeat(lines: seq<Line>) {
    exists i: nat :: OffBeatAt(lines, i)
  }

  /** Every line is sent or waits; none waits after a network function's line, nor when a multiple of 500 was sent. */
  lemma {:induction false} SentAndWaiting(lines: seq<Line>)
    ensures var s := Run(lines);
            && s.sent + |s.batch| == |lines|
            && (lines != [] && lines[|lines| - 1].nf ==> s.batch == [])
            && (s.sent > 0 && s.sent % 500 == 0 ==> s.batch == [] && lines[|lines| - 1].nf)
  {
    if lines != [] {
      SentAndWaiting(lines[..|lines| - 1]);
    }
  }

  lemma {:induction false} OnBeatAppend(out: seq<Message>, m: Message)
    ensures OnBeat(out + [m]) <==> OnBeat(out) && (m.Note? ==> m.count % 500 == 0)
  {
    assert (out + [m])[|out|] == m;
    assert forall k | 0 <= k < |out| :: (out + [m])[k] == out[k];
  }

  lemma {:induction false} OnBeatFlushed(s: State)
    ensures OnBeat(Flushed(s).out) <==> OnBeat(s.out)
  {
    OnBeatAppend(s.out, Text(Join(s.batch)));
  }

  lemma {:induction false} OnBeatTaken(s: State, line: Line)
    ensures OnBeat(Taken(s, line).out) <==> OnBeat(s.out)
  {
    OnBeatFlushed(s);
    OnBeatAppend(Flushed(s).out, Text(line.formatted));
  }

  /** What one more line does to the notes: one off the beat comes exactly for a plain line right after a note. */
  lemma {:induction false} NotesOfLine(s: State, line: Line)
    requires s.sent > 0 && s.sent % 500 == 0 ==> s.batch == []
    ensures OnBeat(Handled(s, line).out) <==> OnBeat(s.out) && (line.nf || s.sent == 0 || s.sent % 500 != 0)
  {
    var taken := Dated(Taken(s, line), line);
    OnBeatTaken(s, line);
    OnBeatFlushed(taken);
    OnBeatAppend(Flushed(taken).out, Note(Flushed(taken).sent));
  }

  lemma {:induction false} OffBeatSplit(lines: seq<Line>)
    requires lines != []
    ensures IsOffBeat(lines) <==> IsOffBeat(lines[..|lines| - 1]) || OffBeatAt(lines, |lines| - 1)
  {
    var front := lines[..|lines| - 1];
    forall i: nat ensures OffBeatAt(lines, i) <==> OffBeatAt(front, i) || (i == |front| && OffBeatAt(lines, i)) {
    }
  }

  /**
    Every note is for a multiple of 500 if and only if no plain line follows a network function's line whose number is
    one: such a line is flushed at once, and the note repeated with its number.
    */
  lemma {:induction false} NotesOnBeatIff(lines: seq<Line>)
    ensures OnBeat(Run(lines).out) <==> !IsOffBeat(lines)
  {
    if lines != [] {
      var front, line := lines[..|lines| - 1], lines[|lines| - 1];
      NotesOnBeatIff(front);
      SentAndWaiting(front);
      NotesOfLine(Run(front), line);
      OffBeatSplit(lines);
    } else {
      assert forall i: nat :: !OffBeatAt(lines, i);
    }
  }

  /** The shortest such run has 501 lines; its last note is for 501. */
  lemma {:induction false} NoteOffBeat(lines: seq<Line>, last: Line)
    requires lines != [] && |lines| % 500 == 0 && lines[|lines| - 1].nf && !last.nf
    ensures Run(lines + [last]).out == Run(lines).out + [Text(last.formatted), Note(|lines| + 1)]
  {
    SentAndWaiting(lines);
    NotedAgain(Run(lines), last);
    assert (lines + [last])[..|lines|] == lines;
  }

  lemma {:induction false} NotedAgain(s: State, line: Line)
    requires s.batch == [] && s.sent > 0 && s.sent % 500 == 0 && !line.nf
    ensures Handled(s, line).out == s.out + [Text(line.formatted), Note(s.sent + 1)]
  {
  }
}
