/**
  A log stream from the bytes of the pod's log to the lines shown: LogLines, the formatting of a line with the
  Sanitizer, and LogConsumer of dashboard/backend/app/routers/logs_ws.py put together.
  */
module LogStream {
  import opened Bytes
  import LogConsumer
  import LogLines
  import Sanitizer

  /** UTF-8 decoding with replacement, and what a regular expression takes for a digit and for a space. */
  datatype Text = Text(decode: seq<byte> -> string, digit: char -> bool, space: char -> bool)

  /** Decoding makes a newline from a newline byte alone, and a newline is no digit. */
  ghost predicate Sane(t: Text) {
    !t.digit('\n') && forall b: seq<byte> :: LogLines.NEWLINE !in b ==> '\n' !in t.decode(b)
  }

  // ---------------------------------------------------------------- the two time stamps

  predicate DigitsAt(t: Text, s: string, i: nat, n: nat) {
    i + n <= |s| && forall k | i <= k < i + n :: t.digit(s[k])
  }

  predicate CharAt(s: string, i: nat, c: char) {
    i < |s| && s[i] == c
  }

  /** The end of the longest stretch of digits, or of spaces, from place i on. */
  function RunEnd(kind: char -> bool, s: string, i: nat): (e: nat)
    requires i <= |s|
    ensures i <= e <= |s|
    decreases |s| - i
  {
    if i < |s| && kind(s[i]) then RunEnd(kind, s, i + 1) else i
  }

  /** Hours, minutes and seconds, two digits each. */
  predicate ClockAt(t: Text, s: string, i: nat) {
    && DigitsAt(t, s, i, 2) && CharAt(s, i + 2, ':')
    && DigitsAt(t, s, i + 3, 2) && CharAt(s, i + 5, ':')
    && DigitsAt(t, s, i + 6, 2)
  }

  /** Where the time stamp that Kubernetes puts before a line ends, with the spaces after it; 0 for none. */
  function StampEnd(t: Text, s: string): (e: nat)
    ensures e <= |s| && (e > 0 ==> e > 20 && ClockAt(t, s, 11))
  {
    if && DigitsAt(t, s, 0, 4) && CharAt(s, 4, '-') && DigitsAt(t, s, 5, 2) && CharAt(s, 7, '-')
       && DigitsAt(t, s, 8, 2) && CharAt(s, 10, 'T') && ClockAt(t, s, 11) && CharAt(s, 19, '.')
    then
      var z := RunEnd(t.digit, s, 20);
      if z > 20 && CharAt(s, z, 'Z') then
        var e := RunEnd(t.space, s, z + 1);
        if e > z + 1 then e else 0
      else 0
    else 0
  }

  /** The end of the numbers of a color sequence, separated by semicolons; 0 for none. */
  function NumbersEnd(t: Text, s: string, i: nat): (e: nat)
    requires i <= |s|
    ensures e <= |s| && (e > 0 ==> e > i)
    decreases |s| - i
  {
    var e := RunEnd(t.digit, s, i);
    if e == i then 0 else if CharAt(s, e, ';') then NumbersEnd(t, s, e + 1) else e
  }

  /** The end of the color sequences from place i on. */
  function ColorsEnd(t: Text, s: string, i: nat): (e: nat)
    requires i <= |s|
    ensures i <= e <= |s|
    decreases |s| - i
  {
    if CharAt(s, i, Sanitizer.ESC) && CharAt(s, i + 1, '[') then
      var e := NumbersEnd(t, s, i + 2);
      if e > 0 && CharAt(s, e, 'm') then ColorsEnd(t, s, e + 1) else i
    else i
  }

  /** The text starts with the time stamp of a network function, colored or not. */
  predicate HasOwnStamp(t: Text, s: string) {
    var i := ColorsEnd(t, s, 0);
    && DigitsAt(t, s, i, 2) && CharAt(s, i + 2, '/') && DigitsAt(t, s, i + 3, 2)
    && var e := RunEnd(t.space, s, i + 5);
       e > i + 5 && ClockAt(t, s, e)
  }

  // ---------------------------------------------------------------- one line

  const GREY := [Sanitizer.ESC, '[', '9', '0', 'm']
  const PLAIN := [Sanitizer.ESC, '[', '0', 'm']

  /** What the sanitizer makes of a text. */
  ghost function Sanitized(raw: string): (r: string)
    ensures Sanitizer.IsSanitized(r, Sanitizer.Strip(raw))
  {
    var s := Sanitizer.Strip(raw);
    seq(|s|, i requires 0 <= i < |s| => Sanitizer.Shown(s, i))
  }

  ghost function Formatted(t: Text, raw: string): string {
    var e := StampEnd(t, raw);
    var content := Sanitized(raw[e..]);
    if e == 0 || HasOwnStamp(t, content) then content
    else GREY + raw[11..19] + PLAIN + [' '] + content
  }

  /** _format_log_line */
  method FormatLogLine(t: Text, raw: string) returns (r: string)
    ensures r == Formatted(t, raw)
  {
    var e := StampEnd(t, raw);
    r := Sanitizer.Sanitize(raw[e..]);
    assert r == Sanitized(raw[e..]);
    if e > 0 && !HasOwnStamp(t, r) {
      r := GREY + raw[11..19] + PLAIN + [' '] + r;
    }
  }

  /** _is_nf_line */
  predicate IsNfLine(t: Text, raw: string) {
    var e := StampEnd(t, raw);
    e > 0 && HasOwnStamp(t, raw[e..])
  }

  /** What the consumer takes a line off the queue for. */
  ghost function LineOf(t: Text, bytes: seq<byte>): LogConsumer.Line {
    var raw := t.decode(bytes);
    var k := FirstOf(raw, ' ');
    LogConsumer.Line(if k < |raw| then raw[..k] else "", Formatted(t, raw), IsNfLine(t, raw))
  }

  ghost function LinesOf(t: Text, queued: seq<seq<byte>>): (lines: seq<LogConsumer.Line>)
    ensures |lines| == |queued| && forall i | 0 <= i < |lines| :: lines[i] == LineOf(t, queued[i])
  {
    seq(|queued|, i requires 0 <= i < |queued| => LineOf(t, queued[i]))
  }

  /** A text's lines as they are to be shown. */
  ghost function ShownLines(t: Text, lines: seq<seq<byte>>): (shown: seq<string>)
    ensures |shown| == |lines| && forall i | 0 <= i < |shown| :: shown[i] == Formatted(t, t.decode(lines[i]))
  {
    seq(|lines|, i requires 0 <= i < |lines| => Formatted(t, t.decode(lines[i])))
  }

  // ---------------------------------------------------------------- the whole stream

  lemma {:induction false} StripKeeps(raw: string)
    requires '\n' !in raw
    ensures '\n' !in Sanitizer.Strip(raw)
  {
    if raw != "" {
      StripKeeps(raw[1..]);
    }
  }

  /** Sanitizing makes no newline. */
  lemma {:induction false} SanitizedInLine(raw: string)
    requires '\n' !in raw
    ensures '\n' !in Sanitized(raw)
  {
    StripKeeps(raw);
    var s, r := Sanitizer.Strip(raw), Sanitized(raw);
    forall i | 0 <= i < |r| ensures r[i] != '\n' {
      assert r[i] == Sanitizer.Shown(s, i) && s[i] in s;
    }
  }

  /** A formatted line is one line. */
  lemma {:induction false} FormattedInLine(t: Text, raw: string)
    requires '\n' !in raw
    ensures '\n' !in Formatted(t, raw)
  {
    SanitizedInLine(raw[StampEnd(t, raw)..]);
  }

  lemma {:induction false} LinesOfFront(t: Text, front: seq<seq<byte>>, last: seq<byte>)
    ensures LinesOf(t, front + [last]) == LinesOf(t, front) + [LineOf(t, last)]
  {
  }

  lemma {:induction false} ShownLinesOfFront(t: Text, front: seq<seq<byte>>, last: seq<byte>)
    ensures ShownLines(t, front + [last]) == ShownLines(t, front) + [Formatted(t, t.decode(last))]
  {
  }

  lemma {:induction false} FormattedAppend(lines: seq<LogConsumer.Line>, line: LogConsumer.Line)
    ensures LogConsumer.Formatted(lines + [line]) == LogConsumer.Formatted(lines) + [line.formatted]
  {
    assert (lines + [line])[..|lines|] == lines;
  }

  lemma {:induction false} FormattedAre(t: Text, queued: seq<seq<byte>>)
    ensures LogConsumer.Formatted(LinesOf(t, queued)) == ShownLines(t, queued)
  {
    if queued != [] {
      var front, last := queued[..|queued| - 1], queued[|queued| - 1];
      assert queued == front + [last];
      FormattedAre(t, front);
      LinesOfFront(t, front, last);
      ShownLinesOfFront(t, front, last);
      FormattedAppend(LinesOf(t, front), LineOf(t, last));
    }
  }

  lemma {:induction false} QueuedInLine(t: Text, chunks: seq<seq<byte>>, stop: LogLines.Stop)
    requires Sane(t)
    ensures var lines := LinesOf(t, LogLines.Queued(chunks, stop));
            forall i | 0 <= i < |lines| :: '\n' !in lines[i].formatted
  {
    var all, queued := LogLines.Lines(Concat(chunks)), LogLines.Queued(chunks, stop);
    LogLines.LinesIff(Concat(chunks), all);
    LogLines.QueuedIsPrefix(chunks, stop);
    forall i | 0 <= i < |queued| ensures '\n' !in Formatted(t, t.decode(queued[i])) {
      assert queued[i] == all[i];
      FormattedInLine(t, t.decode(queued[i]));
    }
  }

  /**
    From the bytes to the screen: however the bytes are cut into chunks and the lines into messages, what is shown is
    the text's lines, each decoded and formatted, once and in order; only the first of them when the stream is stopped.
    */
  lemma {:induction false} ShownIsTheText(t: Text, chunks: seq<seq<byte>>, stop: LogLines.Stop)
    requires Sane(t)
    ensures var end := LogConsumer.Flushed(LogConsumer.Run(LinesOf(t, LogLines.Queued(chunks, stop))));
            && LogConsumer.Received(end.out) <= ShownLines(t, LogLines.Lines(Concat(chunks)))
            && (stop.Never? ==> LogConsumer.Received(end.out) == ShownLines(t, LogLines.Lines(Concat(chunks))))
            && end.batch == [] && end.sent == |LogLines.Queued(chunks, stop)|
  {
    var queued := LogLines.Queued(chunks, stop);
    QueuedInLine(t, chunks, stop);
    LogConsumer.AllShown(LinesOf(t, queued));
    LogConsumer.SentAndWaiting(LinesOf(t, queued));
    FormattedAre(t, queued);
    LogLines.QueuedIsPrefix(chunks, stop);
  }
}
