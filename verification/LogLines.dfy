/**
  The producer of dashboard/backend/app/routers/logs_ws.py, lines 98 to 144: chunks of bytes become
  queued lines.
  */
module LogLines {
  import opened Bytes

  const NEWLINE: byte := 10

  /** The text split at its newlines, without an empty line at the end. */
  function Lines(s: seq<byte>): seq<seq<byte>> {
    if s == [] then [] else
    var k := FirstOf(s, NEWLINE);
    [s[..k]] + if k < |s| then Lines(s[k + 1..]) else []
  }

  /** The lines that a newline ends. */
  function CompleteLines(s: seq<byte>): seq<seq<byte>> {
    var k := FirstOf(s, NEWLINE);
    if k == |s| then [] else [s[..k]] + CompleteLines(s[k + 1..])
  }

  /** Each line with its newline, one after the other. */
  function Terminated(lines: seq<seq<byte>>): seq<byte> {
    if lines == [] then [] else lines[0] + [NEWLINE] + Terminated(lines[1..])
  }

  ghost predicate NoNewlines(lines: seq<seq<byte>>) {
    forall i | 0 <= i < |lines| :: NEWLINE !in lines[i]
  }

  // ---------------------------------------------------------------- what splitting means

  lemma {:induction false} CutFirst(line: seq<byte>, rest: seq<byte>)
    requires NEWLINE !in line
    ensures Lines(line + [NEWLINE] + rest) == [line] + Lines(rest)
    ensures CompleteLines(line + [NEWLINE] + rest) == [line] + CompleteLines(rest)
  {
    var s := line + [NEWLINE] + rest;
    assert s[..|line|] == line && s[|line| + 1..] == rest;
    FirstOfIs(s, NEWLINE, |line|);
  }

  lemma {:induction false} HeadAndTail<T>(q: seq<T>, r: seq<T>)
    requires q != []
    ensures q + r == [q[0]] + (q[1..] + r)
  {
  }

  lemma {:induction false} LinesAfter(q: seq<seq<byte>>, rest: seq<byte>)
    requires NoNewlines(q)
    ensures Lines(Terminated(q) + rest) == q + Lines(rest)
    ensures CompleteLines(Terminated(q) + rest) == q + CompleteLines(rest)
  {
    if q == [] {
      assert Terminated(q) + rest == rest;
      assert q + Lines(rest) == Lines(rest) && q + CompleteLines(rest) == CompleteLines(rest);
    } else {
      var after := Terminated(q[1..]) + rest;
      LinesAfter(q[1..], rest);
      AssociateFour(q[0], [NEWLINE], Terminated(q[1..]), rest);
      assert Terminated(q) + rest == q[0] + [NEWLINE] + after;
      CutFirst(q[0], after);
      HeadAndTail(q, Lines(rest));
      HeadAndTail(q, CompleteLines(rest));
    }
  }

  lemma {:induction false} UnendedLine(rest: seq<byte>)
    requires NEWLINE !in rest
    ensures Lines(rest) == if rest == [] then [] else [rest]
    ensures CompleteLines(rest) == []
  {
    assert FirstOf(rest, NEWLINE) == |rest|;
    assert rest[..|rest|] == rest;
  }

  lemma {:induction false} TerminatedAppend(q: seq<seq<byte>>, line: seq<byte>)
    ensures Terminated(q + [line]) == Terminated(q) + line + [NEWLINE]
  {
    if q == [] {
      assert q + [line] == [line];
    } else {
      TerminatedAppend(q[1..], line);
      assert (q + [line])[1..] == q[1..] + [line];
    }
  }

  /** The text with its last line ended. */
  function Ended(s: seq<byte>): seq<byte> {
    if s == [] || s[|s| - 1] == NEWLINE then s else s + [NEWLINE]
  }

  lemma {:induction false} CutAtNewline(s: seq<byte>, k: nat)
    requires k < |s| && s[k] == NEWLINE
    ensures s == s[..k] + [NEWLINE] + s[k + 1..]
  {
  }

  /** Lines without newlines that, each ended by one, spell the text with its last line ended. */
  ghost predicate Spell(lines: seq<seq<byte>>, s: seq<byte>) {
    NoNewlines(lines) && Terminated(lines) == Ended(s)
  }

  lemma {:induction false} OneLineTerminated(s: seq<byte>, k: nat, tail: seq<seq<byte>>)
    requires k < |s| && s[k] == NEWLINE && Terminated(tail) == Ended(s[k + 1..])
    ensures Terminated([s[..k]] + tail) == Ended(s)
  {
    LinesOneMore(s[..k], tail);
    CutAtNewline(s, k);
    AssociateFour(s[..k], [NEWLINE], s[k + 1..], [NEWLINE]);
  }

  lemma {:induction false} OneLineSpelt(s: seq<byte>, k: nat, tail: seq<seq<byte>>)
    requires k < |s| && s[k] == NEWLINE && NEWLINE !in s[..k] && Spell(tail, s[k + 1..])
    ensures Spell([s[..k]] + tail, s)
  {
    OneLineTerminated(s, k, tail);
  }

  lemma {:induction false} UnendedSpelt(s: seq<byte>)
    requires s != [] && NEWLINE !in s
    ensures Lines(s) == [s] && Spell([s], s)
  {
    UnendedLine(s);
    LinesOneMore(s, []);
  }

  lemma {:induction false} FirstLine(s: seq<byte>, k: nat)
    requires k == FirstOf(s, NEWLINE) < |s|
    ensures Lines(s) == [s[..k]] + Lines(s[k + 1..])
  {
  }

  lemma {:induction false} LinesSpell(s: seq<byte>)
    ensures Spell(Lines(s), s)
    decreases |s|
  {
    if s != [] {
      var k := FirstOf(s, NEWLINE);
      if k < |s| {
        LinesSpell(s[k + 1..]);
        FirstLine(s, k);
        OneLineSpelt(s, k, Lines(s[k + 1..]));
      } else {
        assert s[..k] == s;
        UnendedSpelt(s);
      }
    }
  }

  lemma {:induction false} LinesOneMore(line: seq<byte>, lines: seq<seq<byte>>)
    ensures Terminated([line] + lines) == line + [NEWLINE] + Terminated(lines)
  {
    assert ([line] + lines)[1..] == lines;
  }

  lemma {:induction false} SplitOfTerminated(lines: seq<seq<byte>>)
    requires NoNewlines(lines)
    ensures Lines(Terminated(lines)) == lines
  {
    LinesAfter(lines, []);
    assert Terminated(lines) + [] == Terminated(lines);
    assert lines + Lines([]) == lines;
  }

  /** What a split is: lines without newlines that, each ended by one, spell the text with its last line ended. */
  lemma {:induction false} LinesIff(s: seq<byte>, lines: seq<seq<byte>>)
    ensures lines == Lines(s) <==> Spell(lines, s)
  {
    LinesSpell(s);
    SplitOfTerminated(Lines(s));
    if NoNewlines(lines) {
      SplitOfTerminated(lines);
    }
  }

  // ---------------------------------------------------------------- the code

  /**
    How a stream stops before its end: cancelled or failing once some chunks are read, or because the
    queue does not take a line within its time (`late` tells whether that line reaches it afterwards).
    */
  datatype Stop = Never | AfterChunks(chunks: nat) | AtLine(line: nat, late: bool)

  /** Lines 117 to 125: the complete lines in the buffer are queued; `ok` tells whether the queue took them. */
  method Drain(queued: seq<seq<byte>>, buf: seq<byte>, stop: Stop) returns (q: seq<seq<byte>>, rest: seq<byte>,
               ok: bool)
    requires NoNewlines(queued)
    ensures NoNewlines(q) && Terminated(q) + rest == Terminated(queued) + buf
    ensures ok ==> NEWLINE !in rest
    ensures ok && stop.AtLine? && |queued| <= stop.line ==> |q| <= stop.line
    ensures !ok ==> stop.AtLine? && |q| == stop.line + if stop.late then 1 else 0
  {
    q, rest, ok := queued, buf, true;
    while NEWLINE in rest
      invariant NoNewlines(q) && Terminated(q) + rest == Terminated(queued) + buf
      invariant stop.AtLine? && |queued| <= stop.line ==> |q| <= stop.line
      decreases |rest|
    {
      var k := FirstOf(rest, NEWLINE);
      if stop.AtLine? && stop.line == |q| {
        if stop.late {
          LineOut(q, rest, k);
          q, rest := q + [rest[..k]], rest[k + 1..];
        }
        ok := false;
        return;
      }
      LineOut(q, rest, k);
      q, rest := q + [rest[..k]], rest[k + 1..];
    }
  }

  lemma {:induction false} LineOut(q: seq<seq<byte>>, rest: seq<byte>, k: nat)
    requires NEWLINE in rest && k == FirstOf(rest, NEWLINE)
    ensures k < |rest|
    ensures Terminated(q + [rest[..k]]) + rest[k + 1..] == Terminated(q) + rest
  {
    assert rest[..|rest|] == rest;
    TerminatedAppend(q, rest[..k]);
    CutAtNewline(rest, k);
    RegroupLine(Terminated(q), rest[..k], rest[k + 1..]);
  }

  lemma {:induction false} RegroupLine(before: seq<byte>, line: seq<byte>, after: seq<byte>)
    ensures before + line + [NEWLINE] + after == before + (line + [NEWLINE] + after)
  {
  }

  /** What is queued before the end marker. */
  function Queued(chunks: seq<seq<byte>>, stop: Stop): seq<seq<byte>> {
    var all := Lines(Concat(chunks));
    match stop
    case AfterChunks(n) => if n <= |chunks| then CompleteLines(Concat(chunks[..n])) else all
    case AtLine(n, late) => var m := n + if late then 1 else 0; if m <= |all| then all[..m] else all
    case Never => all
  }

  lemma {:induction false} ConcatStep<T>(parts: seq<seq<T>>, i: nat)
    requires i < |parts|
    ensures Concat(parts[..i + 1]) == Concat(parts[..i]) + parts[i]
  {
    assert parts[..i + 1] == parts[..i] + [parts[i]];
    ConcatAppend(parts[..i], parts[i]);
  }

  lemma {:induction false} ConcatSplit<T>(parts: seq<seq<T>>, i: nat)
    requires i <= |parts|
    ensures Concat(parts) == Concat(parts[..i]) + Concat(parts[i..])
  {
    if i == 0 {
      assert parts[0..] == parts;
    } else {
      ConcatSplit(parts[1..], i - 1);
      assert parts[..i][1..] == parts[1..][..i - 1] && parts[i..] == parts[1..][i - 1..];
    }
  }

  lemma {:induction false} RestOf(chunks: seq<seq<byte>>, i: nat, q: seq<seq<byte>>, rest: seq<byte>)
    requires i <= |chunks| && Terminated(q) + rest == Concat(chunks[..i])
    ensures Concat(chunks) == Terminated(q) + (rest + Concat(chunks[i..]))
  {
    ConcatSplit(chunks, i);
    Associate(Terminated(q), rest, Concat(chunks[i..]));
  }

  lemma {:induction false} AtTheEnd(all: seq<byte>, q: seq<seq<byte>>, buf: seq<byte>)
    requires NoNewlines(q) && NEWLINE !in buf && all == Terminated(q) + buf
    ensures Lines(all) == if buf == [] then q else q + [buf]
    ensures CompleteLines(all) == q
  {
    LinesAfter(q, buf);
    UnendedLine(buf);
    assert q + CompleteLines(buf) == q;
    assert buf == [] ==> q + Lines(buf) == q;
  }

  lemma {:induction false} Refused(chunks: seq<seq<byte>>, i: nat, q: seq<seq<byte>>, rest: seq<byte>, stop: Stop)
    requires i <= |chunks| && Terminated(q) + rest == Concat(chunks[..i]) && NoNewlines(q)
    requires stop.AtLine? && |q| == stop.line + if stop.late then 1 else 0
    ensures q == Queued(chunks, stop)
  {
    RestOf(chunks, i, q, rest);
    LinesAfter(q, rest + Concat(chunks[i..]));
  }

  lemma {:induction false} StoppedAfter(chunks: seq<seq<byte>>, i: nat, q: seq<seq<byte>>, buf: seq<byte>)
    requires i <= |chunks| && Terminated(q) + buf == Concat(chunks[..i]) && NoNewlines(q) && NEWLINE !in buf
    ensures q == Queued(chunks, AfterChunks(i))
  {
    AtTheEnd(Concat(chunks[..i]), q, buf);
  }

  /** Lines 126 to 132: the rest of the buffer is a line too. */
  method LastLine(chunks: seq<seq<byte>>, q: seq<seq<byte>>, buf: seq<byte>, stop: Stop) returns (all: seq<seq<byte>>)
    requires Terminated(q) + buf == Concat(chunks) && NoNewlines(q) && NEWLINE !in buf
    requires stop.AfterChunks? ==> |chunks| <= stop.chunks
    requires stop.AtLine? ==> |q| <= stop.line
    ensures all == Queued(chunks, stop)
  {
    assert chunks[..|chunks|] == chunks;
    AtTheEnd(Concat(chunks), q, buf);
    all := q;
    if buf != [] && stop != AfterChunks(|chunks|) {
      if !stop.AtLine? || stop.line != |q| || stop.late {
        all := q + [buf];
      }
    }
  }

  method Produce(chunks: seq<seq<byte>>, stop: Stop) returns (q: seq<seq<byte>>)
    ensures q == Queued(chunks, stop)
  {
    q := [];
    var buf: seq<byte> := [];
    for i := 0 to |chunks|
      invariant NoNewlines(q) && NEWLINE !in buf && Terminated(q) + buf == Concat(chunks[..i])
      invariant stop.AfterChunks? ==> i <= stop.chunks
      invariant stop.AtLine? ==> |q| <= stop.line
    {
      if stop == AfterChunks(i) {
        StoppedAfter(chunks, i, q, buf);
        return;
      }
      var ok;
      ConcatStep(chunks, i);
      Associate(Terminated(q), buf, chunks[i]);
      q, buf, ok := Drain(q, buf + chunks[i], stop);
      if !ok {
        Refused(chunks, i + 1, q, buf, stop);
        return;
      }
    }
    assert chunks[..|chunks|] == chunks;
    q := LastLine(chunks, q, buf, stop);
  }

  // ---------------------------------------------------------------- the properties

  lemma {:induction false} MoreText(s: seq<byte>, more: seq<byte>)
    ensures CompleteLines(s) <= Lines(s + more)
    decreases |s|
  {
    var k := FirstOf(s, NEWLINE);
    if k < |s| {
      MoreText(s[k + 1..], more);
      CutAtNewline(s, k);
      RegroupMore(s[..k], s[k + 1..], more);
      CutFirst(s[..k], s[k + 1..] + more);
    }
  }

  lemma {:induction false} RegroupMore(line: seq<byte>, after: seq<byte>, more: seq<byte>)
    ensures (line + [NEWLINE] + after) + more == line + [NEWLINE] + (after + more)
  {
  }

  /** However a stream ends, what was queued is the beginning of the text's lines, each one whole and once. */
  lemma {:induction false} QueuedIsPrefix(chunks: seq<seq<byte>>, stop: Stop)
    ensures Queued(chunks, stop) <= Lines(Concat(chunks))
  {
    if stop.AfterChunks? && stop.chunks <= |chunks| {
      ConcatSplit(chunks, stop.chunks);
      MoreText(Concat(chunks[..stop.chunks]), Concat(chunks[stop.chunks..]));
    }
  }
}
