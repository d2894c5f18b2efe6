/**
  What the reader of StreamClient makes of every server stream that section 5 of RFC 6455
  allows: messages split into any fragments, frames in any of the three length encodings,
  and control frames before, between and inside messages.
  */
module StreamProtocol {
  import opened Bytes
  import opened StreamClient

  datatype Control = Ping(data: seq<byte>) | Pong(data: seq<byte>)

  /** A fragment and the control frames sent just before it. */
  datatype Fragment = Fragment(before: seq<Control>, data: seq<byte>)

  /** A data message: its first fragment opens it, so only the later ones have controls inside it. */
  datatype DataMessage = DataMessage(text: bool, head: Fragment, rest: seq<Fragment>) {
    function Op(): Opcode { if text then 1 else 2 }
  }

  /** A whole connection, ended by a close frame. */
  datatype Stream = Stream(messages: seq<DataMessage>, last: seq<Control>, close: seq<byte>)

  // ---------------------------------------------------------------- what the server sends

  function ControlFrames(cs: seq<Control>): seq<Frame> {
    if cs == [] then []
    else [Frame(true, if cs[0].Ping? then PING else PONG, cs[0].data)] + ControlFrames(cs[1..])
  }

  function FragmentFrames(fs: seq<Fragment>): seq<Frame> {
    if fs == [] then []
    else ControlFrames(fs[0].before) + [Frame(|fs| == 1, CONTINUATION, fs[0].data)] + FragmentFrames(fs[1..])
  }

  function MessageFrames(m: DataMessage): seq<Frame> {
    ControlFrames(m.head.before) + [Frame(m.rest == [], m.Op(), m.head.data)] + FragmentFrames(m.rest)
  }

  function MessagesFrames(ms: seq<DataMessage>): seq<Frame> {
    if ms == [] then [] else MessageFrames(ms[0]) + MessagesFrames(ms[1..])
  }

  function StreamFrames(s: Stream): seq<Frame> {
    MessagesFrames(s.messages) + ControlFrames(s.last) + [Frame(true, CLOSE, s.close)]
  }

  // ---------------------------------------------------------------- what was meant

  function Pings(cs: seq<Control>): seq<seq<byte>> {
    if cs == [] then [] else (if cs[0].Ping? then [cs[0].data] else []) + Pings(cs[1..])
  }

  function FragmentPings(fs: seq<Fragment>): seq<seq<byte>> {
    if fs == [] then [] else Pings(fs[0].before) + FragmentPings(fs[1..])
  }

  function MessagesPings(ms: seq<DataMessage>): seq<seq<byte>> {
    if ms == [] then []
    else Pings(ms[0].head.before) + FragmentPings(ms[0].rest) + MessagesPings(ms[1..])
  }

  function AllPings(s: Stream): seq<seq<byte>> {
    MessagesPings(s.messages) + Pings(s.last)
  }

  function FragmentData(fs: seq<Fragment>): seq<byte> {
    if fs == [] then [] else fs[0].data + FragmentData(fs[1..])
  }

  /** The messages the server sent. */
  function Sent(ms: seq<DataMessage>): seq<Message> {
    if ms == [] then []
    else [Message(ms[0].Op(), ms[0].head.data + FragmentData(ms[0].rest))] + Sent(ms[1..])
  }

  // ---------------------------------------------------------------- what the reader yields

  predicate HasPong(cs: seq<Control>) {
    exists c <- cs :: c.Pong?
  }

  /** The data of the fragments before the first pong that arrives inside the message. */
  function DataBeforePong(fs: seq<Fragment>): seq<byte> {
    if fs == [] || HasPong(fs[0].before) then [] else fs[0].data + DataBeforePong(fs[1..])
  }

  function Yielded(ms: seq<DataMessage>): seq<Message> {
    if ms == [] then []
    else [Message(ms[0].Op(), ms[0].head.data + DataBeforePong(ms[0].rest))] + Yielded(ms[1..])
  }

  /** No fragment with data follows a pong inside its own message. */
  predicate PongsHarmless(fs: seq<Fragment>) {
    forall i, j | 0 <= i <= j < |fs| :: HasPong(fs[i].before) ==> fs[j].data == []
  }

  /** Every ping can be answered in one byte of length; section 5.5 of RFC 6455 allows 125 bytes at most. */
  predicate ShortControls(cs: seq<Control>) {
    forall c <- cs :: |c.data| < 256
  }

  predicate ShortMessage(m: DataMessage) {
    ShortControls(m.head.before) && forall f <- m.rest :: ShortControls(f.before)
  }

  predicate Legal(s: Stream) {
    (forall m <- s.messages :: ShortMessage(m)) && ShortControls(s.last)
  }

  // ---------------------------------------------------------------- frames to messages

  /** `Read` of one frame and the rest, the two cases that the streams below meet before their close. */
  lemma {:induction false} ReadFirst(f: Frame, rest: seq<Frame>, asm: Assembly)
    requires f.op != CLOSE && (f.op == PING ==> |f.data| < 256)
    ensures Read([f] + rest, asm)
         == if f.op == PING then Read(rest, asm).After([], [f.data])
            else if f.fin && asm.Absorb(f).first.Some? then
              Read(rest, NOTHING).After([Message(asm.Absorb(f).first.value, Concat(asm.Absorb(f).parts))], [])
            else Read(rest, asm.Absorb(f))
  {
    assert ([f] + rest)[1..] == rest;
  }

  /** What control frames leave: a pong in an open message ends it there. */
  function ControlsRead(cs: seq<Control>, rest: seq<Frame>, asm: Assembly): Reading {
    if HasPong(cs) && asm.first.Some? then
      Read(rest, NOTHING).After([Message(asm.first.value, Concat(asm.parts))], Pings(cs))
    else Read(rest, asm).After([], Pings(cs))
  }

  /** The first control frame of several, taken off. */
  lemma {:induction false} ControlsSplit(cs: seq<Control>, rest: seq<Frame>, asm: Assembly)
    requires cs != []
    ensures ControlsRead(cs, rest, asm)
         == if cs[0].Ping? then ControlsRead(cs[1..], rest, asm).After([], [cs[0].data])
            else if asm.first.None? then ControlsRead(cs[1..], rest, asm)
            else ControlsRead(cs[1..], rest, NOTHING).After([Message(asm.first.value, Concat(asm.parts))], [])
  {
    HasPongSplit(cs);
    if cs[0].Ping? {
      AfterTwice(Read(rest, asm), [], Pings(cs[1..]), [], [cs[0].data]);
      if asm.first.Some? {
        var m := [Message(asm.first.value, Concat(asm.parts))];
        AfterTwice(Read(rest, NOTHING), m, Pings(cs[1..]), [], [cs[0].data]);
        assert [] + m == m;
      }
    } else if asm.first.Some? {
      var m := [Message(asm.first.value, Concat(asm.parts))];
      AfterTwice(Read(rest, NOTHING), [], Pings(cs[1..]), m, []);
      assert m + [] == m;
    }
  }

  lemma {:induction false} ReadControls(cs: seq<Control>, rest: seq<Frame>, asm: Assembly)
    requires ShortControls(cs)
    ensures Read(ControlFrames(cs) + rest, asm) == ControlsRead(cs, rest, asm)
    decreases |cs|
  {
    if cs == [] {
      assert ControlFrames(cs) + rest == rest;
    } else {
      var tail := ControlFrames(cs[1..]) + rest;
      var f := Frame(true, if cs[0].Ping? then PING else PONG, cs[0].data);
      assert ControlFrames(cs) + rest == [f] + tail;
      ReadFirst(f, tail, asm);
      ControlsSplit(cs, rest, asm);
      ReadControls(cs[1..], rest, if cs[0].Ping? || asm.first.None? then asm else NOTHING);
    }
  }

  lemma {:induction false} HasPongSplit(cs: seq<Control>)
    requires cs != []
    ensures HasPong(cs) <==> cs[0].Pong? || HasPong(cs[1..])
    ensures Pings(cs) == (if cs[0].Ping? then [cs[0].data] else []) + Pings(cs[1..])
  {
    assert cs == [cs[0]] + cs[1..];
  }

  lemma {:induction false} FragmentsSplit(fs: seq<Fragment>, rest: seq<Frame>)
    requires fs != []
    ensures FragmentFrames(fs) + rest
         == ControlFrames(fs[0].before) +
              ([Frame(|fs| == 1, CONTINUATION, fs[0].data)] + (FragmentFrames(fs[1..]) + rest))
  {
    FourParts(ControlFrames(fs[0].before), [Frame(|fs| == 1, CONTINUATION, fs[0].data)], FragmentFrames(fs[1..]), rest);
  }

  lemma {:induction false} FourParts<T>(a: seq<T>, b: seq<T>, c: seq<T>, d: seq<T>)
    ensures a + b + c + d == a + (b + (c + d))
  {
  }

  /** The fragments of a message that a pong already cut: no message comes of them. */
  lemma {:induction false} ReadCut(fs: seq<Fragment>, rest: seq<Frame>,
                                   parts: seq<seq<byte>>) returns (left: seq<seq<byte>>)
    requires forall f <- fs :: ShortControls(f.before)
    ensures Read(FragmentFrames(fs) + rest, Assembly(None, parts))
         == Read(rest, Assembly(None, left)).After([], FragmentPings(fs))
    decreases |fs|
  {
    if fs == [] {
      assert FragmentFrames(fs) + rest == rest;
      left := parts;
    } else {
      var f, tail := Frame(|fs| == 1, CONTINUATION, fs[0].data), FragmentFrames(fs[1..]) + rest;
      FragmentsSplit(fs, rest);
      ReadControls(fs[0].before, [f] + tail, Assembly(None, parts));
      ReadFirst(f, tail, Assembly(None, parts));
      left := ReadCut(fs[1..], rest, parts + [fs[0].data]);
      AfterTwice(Read(rest, Assembly(None, left)), [], FragmentPings(fs[1..]), [], Pings(fs[0].before));
    }
  }

  /** A fragment that comes after a pong: what came before it is the message. */
  lemma {:induction false} ReadAfterPong(fs: seq<Fragment>, rest: seq<Frame>, op: Opcode, parts: seq<seq<byte>>)
      returns (left: seq<seq<byte>>)
    requires fs != [] && HasPong(fs[0].before) && forall f <- fs :: ShortControls(f.before)
    ensures Read(FragmentFrames(fs) + rest, Assembly(Some(op), parts))
         == Read(rest, Assembly(None, left)).After([Message(op, Concat(parts))], FragmentPings(fs))
  {
    var f, tail := Frame(|fs| == 1, CONTINUATION, fs[0].data), FragmentFrames(fs[1..]) + rest;
    var m := [Message(op, Concat(parts))];
    FragmentsSplit(fs, rest);
    ReadControls(fs[0].before, [f] + tail, Assembly(Some(op), parts));
    ReadFirst(f, tail, NOTHING);
    left := ReadCut(fs[1..], rest, [] + [fs[0].data]);
    AfterTwice(Read(rest, Assembly(None, left)), [], FragmentPings(fs[1..]), m, Pings(fs[0].before));
    assert m + [] == m;
  }

  /** A fragment without a pong before it: it joins the message, and completes it if it is the last. */
  lemma {:induction false} ReadFragment(fs: seq<Fragment>, rest: seq<Frame>, op: Opcode, parts: seq<seq<byte>>)
    requires fs != [] && !HasPong(fs[0].before) && ShortControls(fs[0].before)
    ensures Read(FragmentFrames(fs) + rest, Assembly(Some(op), parts))
         == if |fs| == 1 then
              Read(rest, NOTHING).After([Message(op, Concat(parts + [fs[0].data]))], Pings(fs[0].before))
            else
              Read(FragmentFrames(fs[1..]) + rest, Assembly(Some(op), parts + [fs[0].data]))
                .After([], Pings(fs[0].before))
  {
    var f, tail := Frame(|fs| == 1, CONTINUATION, fs[0].data), FragmentFrames(fs[1..]) + rest;
    var m, ps := [Message(op, Concat(parts + [fs[0].data]))], Pings(fs[0].before);
    FragmentsSplit(fs, rest);
    ReadControls(fs[0].before, [f] + tail, Assembly(Some(op), parts));
    ReadFirst(f, tail, Assembly(Some(op), parts));
    if |fs| == 1 {
      assert tail == rest;
      AfterTwice(Read(rest, NOTHING), m, [], [], ps);
      assert [] + m == m && ps + [] == ps;
    }
  }

  /** The later fragments of an open message. */
  lemma {:induction false} ReadOpen(fs: seq<Fragment>, rest: seq<Frame>, op: Opcode, parts: seq<seq<byte>>)
      returns (left: seq<seq<byte>>)
    requires fs != [] && forall f <- fs :: ShortControls(f.before)
    ensures Read(FragmentFrames(fs) + rest, Assembly(Some(op), parts))
         == Read(rest, Assembly(None, left)).After([Message(op, Concat(parts) + DataBeforePong(fs))], FragmentPings(fs))
    decreases |fs|
  {
    if HasPong(fs[0].before) {
      left := ReadAfterPong(fs, rest, op, parts);
      assert Concat(parts) + DataBeforePong(fs) == Concat(parts);
    } else {
      ReadFragment(fs, rest, op, parts);
      ConcatAppend(parts, fs[0].data);
      Associate(Concat(parts), fs[0].data, DataBeforePong(fs[1..]));
      if |fs| == 1 {
        assert Concat(parts) + fs[0].data + [] == Concat(parts) + fs[0].data;
        assert Pings(fs[0].before) + [] == Pings(fs[0].before);
        left := [];
      } else {
        left := ReadOpen(fs[1..], rest, op, parts + [fs[0].data]);
        var m := [Message(op, Concat(parts) + DataBeforePong(fs))];
        AfterTwice(Read(rest, Assembly(None, left)), m, FragmentPings(fs[1..]), [], Pings(fs[0].before));
        assert [] + m == m;
      }
    }
  }

  lemma {:induction false} ReadMessage(m: DataMessage, rest: seq<Frame>, parts: seq<seq<byte>>)
      returns (left: seq<seq<byte>>)
    requires ShortMessage(m)
    ensures Read(MessageFrames(m) + rest, Assembly(None, parts))
         == Read(rest, Assembly(None, left)).After([Message(m.Op(), m.head.data + DataBeforePong(m.rest))],
                                                   Pings(m.head.before) + FragmentPings(m.rest))
  {
    var f, tail := Frame(m.rest == [], m.Op(), m.head.data), FragmentFrames(m.rest) + rest;
    var ps := Pings(m.head.before);
    assert MessageFrames(m) + rest == ControlFrames(m.head.before) + ([f] + tail);
    ReadControls(m.head.before, [f] + tail, Assembly(None, parts));
    ReadFirst(f, tail, Assembly(None, parts));
    assert Concat([m.head.data]) == m.head.data;
    var y := [Message(m.Op(), m.head.data + DataBeforePong(m.rest))];
    if m.rest == [] {
      assert tail == rest && m.head.data + DataBeforePong(m.rest) == m.head.data;
      left := [];
      AfterTwice(Read(rest, NOTHING), y, [], [], ps);
    } else {
      left := ReadOpen(m.rest, rest, m.Op(), [m.head.data]);
      AfterTwice(Read(rest, Assembly(None, left)), y, FragmentPings(m.rest), [], ps);
    }
    assert [] + y == y;
  }

  lemma {:induction false} ReadMessages(ms: seq<DataMessage>, rest: seq<Frame>, parts: seq<seq<byte>>)
      returns (left: seq<seq<byte>>)
    requires forall m <- ms :: ShortMessage(m)
    ensures Read(MessagesFrames(ms) + rest, Assembly(None, parts))
         == Read(rest, Assembly(None, left)).After(Yielded(ms), MessagesPings(ms))
    decreases |ms|
  {
    if ms == [] {
      assert MessagesFrames(ms) + rest == rest;
      left := parts;
    } else {
      var m, tail := ms[0], MessagesFrames(ms[1..]) + rest;
      assert MessagesFrames(ms) + rest == MessageFrames(m) + tail;
      var between := ReadMessage(m, tail, parts);
      left := ReadMessages(ms[1..], rest, between);
      AfterTwice(Read(rest, Assembly(None, left)), Yielded(ms[1..]), MessagesPings(ms[1..]),
                 [Yielded(ms)[0]], Pings(m.head.before) + FragmentPings(m.rest));
    }
  }

  /** Every stream, read whole: one message yielded per message sent, the close last, one pong per ping in order. */
  lemma {:induction false} ReadStream(s: Stream)
    requires Legal(s)
    ensures Read(StreamFrames(s), NOTHING)
         == Reading(Yielded(s.messages) + [Message(CLOSE, s.close)], AllPings(s), Closed)
  {
    var close := [Frame(true, CLOSE, s.close)];
    assert StreamFrames(s) == MessagesFrames(s.messages) + (ControlFrames(s.last) + close);
    var left := ReadMessages(s.messages, ControlFrames(s.last) + close, []);
    ReadControls(s.last, close, Assembly(None, left));
    ReadStep(close[0], [], Assembly(None, left), [], []);
    assert close == close + [];
  }

  lemma {:induction false} UncutIffHarmless(fs: seq<Fragment>)
    ensures DataBeforePong(fs) == FragmentData(fs) <==> PongsHarmless(fs)
    ensures |DataBeforePong(fs)| <= |FragmentData(fs)|
    ensures FragmentData(fs) == [] <==> forall f <- fs :: f.data == []
  {
    if fs == [] {
    } else {
      UncutIffHarmless(fs[1..]);
      assert fs == [fs[0]] + fs[1..];
      if HasPong(fs[0].before) {
        assert FragmentData(fs) == [] <==> forall j | 0 <= j < |fs| :: fs[j].data == [];
        assert PongsHarmless(fs) <==> forall j | 0 <= j < |fs| :: fs[j].data == [];
      } else {
        assert DataBeforePong(fs) == FragmentData(fs) <==> DataBeforePong(fs[1..]) == FragmentData(fs[1..]) by {
          var d := |fs[0].data|;
          assert DataBeforePong(fs)[d..] == DataBeforePong(fs[1..]) && FragmentData(fs)[d..] == FragmentData(fs[1..]);
        }
        assert PongsHarmless(fs) <==> PongsHarmless(fs[1..]) by {
          if PongsHarmless(fs[1..]) {
            forall i, j | 0 <= i <= j < |fs| && HasPong(fs[i].before) ensures fs[j].data == [] {
              assert fs[i] == fs[1..][i - 1] && fs[j] == fs[1..][j - 1];
            }
          }
        }
      }
    }
  }

  lemma {:induction false} YieldedIffSent(ms: seq<DataMessage>)
    ensures Yielded(ms) == Sent(ms) <==> forall m <- ms :: PongsHarmless(m.rest)
  {
    if ms == [] {
    } else {
      var m := ms[0];
      UncutIffHarmless(m.rest);
      YieldedIffSent(ms[1..]);
      assert ms == [m] + ms[1..];
      assert Yielded(ms)[1..] == Yielded(ms[1..]) && Sent(ms)[1..] == Sent(ms[1..]);
      var d := |m.head.data|;
      assert (m.head.data + DataBeforePong(m.rest))[d..] == DataBeforePong(m.rest);
      assert (m.head.data + FragmentData(m.rest))[d..] == FragmentData(m.rest);
    }
  }

  // ---------------------------------------------------------------- bytes to frames

  datatype LengthForm = Bits7 | Bits16 | Bits64

  predicate Fits(n: nat, form: LengthForm) {
    match form
    case Bits7 => n <= 125
    case Bits16 => n < Pow256(2)
    case Bits64 => n < Pow256(8)
  }

  function LengthBytes(n: nat, form: LengthForm): seq<byte>
    requires Fits(n, form)
  {
    match form
    case Bits7 => [n]
    case Bits16 => [126] + ToBigEndian(n, 2)
    case Bits64 => [127] + ToBigEndian(n, 8)
  }

  /** An unmasked server frame, section 5.2 of RFC 6455. */
  function EncodeFrame(f: Frame, form: LengthForm): seq<byte>
    requires Fits(|f.data|, form)
  {
    [FirstByte(f)] + LengthBytes(|f.data|, form) + f.data
  }

  ghost predicate AllFit(fs: seq<Frame>, forms: seq<LengthForm>) {
    |fs| == |forms| && forall i | 0 <= i < |fs| :: Fits(|fs[i].data|, forms[i])
  }

  function Encode(fs: seq<Frame>, forms: seq<LengthForm>): seq<byte>
    requires AllFit(fs, forms)
  {
    if fs == [] then [] else EncodeFrame(fs[0], forms[0]) + Encode(fs[1..], forms[1..])
  }

  /** Where the parts of an encoded frame are. */
  lemma {:induction false} EncodedParts(first: byte, field: seq<byte>, data: seq<byte>, rest: seq<byte>)
    requires field != []
    ensures var bs, at := [first] + field + data + rest, 1 + |field|;
            && |bs| == at + |data| + |rest| && bs[0] == first && bs[1] == field[0]
            && bs[2..at] == field[1..] && bs[at..at + |data|] == data && bs[at + |data|..] == rest
  {
  }

  /** What the reader takes from the length bytes. */
  lemma {:induction false} LengthRead(n: nat, form: LengthForm)
    requires Fits(n, form)
    ensures var field := LengthBytes(n, form);
            && |field| == (if field[0] == 126 then 3 else if field[0] == 127 then 9 else 1) && field[0] < 128
            && n == (if |field| == 1 then field[0] else BigEndian(field[1..]))
  {
  }

  lemma {:induction false} ParseParts(bs: seq<byte>, first: byte, field: seq<byte>, data: seq<byte>, rest: seq<byte>)
    requires bs == [first] + field + data + rest
    requires field != [] && field[0] < 128 && |field| == if field[0] == 126 then 3 else if field[0] == 127 then 9 else 1
    requires |data| == if |field| == 1 then field[0] else BigEndian(field[1..])
    ensures ParseFrame(bs) == Some((Frame(first >= 128, first % 16, data), rest))
  {
    EncodedParts(first, field, data, rest);
  }

  function FirstByte(f: Frame): (b: byte)
    ensures (b >= 128 <==> f.fin) && b % 16 == f.op
  {
    (if f.fin then 128 else 0) + f.op
  }

  lemma {:induction false} ParseEncoded(f: Frame, form: LengthForm, rest: seq<byte>)
    requires Fits(|f.data|, form)
    ensures ParseFrame(EncodeFrame(f, form) + rest) == Some((f, rest))
  {
    LengthRead(|f.data|, form);
    ParseParts(EncodeFrame(f, form) + rest, FirstByte(f), LengthBytes(|f.data|, form), f.data, rest);
  }

  lemma {:induction false} ParseFirstEncoded(f: Frame, form: LengthForm, rest: seq<byte>)
    requires Fits(|f.data|, form)
    ensures ParseAll(EncodeFrame(f, form) + rest) == [f] + ParseAll(rest)
  {
    ParseEncoded(f, form, rest);
  }

  lemma {:induction false} EncodeSplit(fs: seq<Frame>, forms: seq<LengthForm>, cut: seq<byte>)
    requires fs != [] && AllFit(fs, forms)
    ensures AllFit(fs[1..], forms[1..])
    ensures Encode(fs, forms) + cut == EncodeFrame(fs[0], forms[0]) + (Encode(fs[1..], forms[1..]) + cut)
  {
  }

  /** Parsing gives back every frame, whatever bytes follow. */
  lemma {:induction false} ParseAllEncoded(fs: seq<Frame>, forms: seq<LengthForm>, cut: seq<byte>)
    requires AllFit(fs, forms)
    ensures ParseAll(Encode(fs, forms) + cut) == fs + ParseAll(cut)
    decreases |fs|
  {
    if fs == [] {
      assert Encode(fs, forms) + cut == cut;
    } else {
      var tail := Encode(fs[1..], forms[1..]) + cut;
      EncodeSplit(fs, forms, cut);
      ParseFirstEncoded(fs[0], forms[0], tail);
      ParseAllEncoded(fs[1..], forms[1..], cut);
      Associate([fs[0]], fs[1..], ParseAll(cut));
      assert fs == [fs[0]] + fs[1..];
    }
  }

  // ---------------------------------------------------------------- main results

  /**
    The round trip, for every list of messages, every split, every length encoding and every placing of
    pings and pongs: the reader yields exactly what was sent, in order, if and only if no data follows
    a pong inside one message. The pongs it sends answer every ping, in order, in any case.
    */
  lemma {:induction false} RoundTrip(s: Stream, forms: seq<LengthForm>)
    requires Legal(s) && AllFit(StreamFrames(s), forms)
    ensures var r := Read(ParseAll(Encode(StreamFrames(s), forms)), NOTHING);
            && (r.delivered == Sent(s.messages) + [Message(CLOSE, s.close)] <==>
                forall m <- s.messages :: PongsHarmless(m.rest))
            && |r.delivered| == |s.messages| + 1
            && r.pongs == AllPings(s)
            && r.end == Closed
  {
    var fs := StreamFrames(s);
    ParseAllEncoded(fs, forms, []);
    assert Encode(fs, forms) + [] == Encode(fs, forms) && fs + ParseAll([]) == fs;
    ReadStream(s);
    YieldedIffSent(s.messages);
    YieldedLength(s.messages);
    var y, t := Yielded(s.messages), Sent(s.messages);
    var c := [Message(CLOSE, s.close)];
    assert y + c == t + c <==> y == t by {
      assert (y + c)[..|y|] == y && (t + c)[..|t|] == t;
    }
  }

  lemma {:induction false} YieldedLength(ms: seq<DataMessage>)
    ensures |Yielded(ms)| == |ms| == |Sent(ms)|
  {
    if ms != [] {
      YieldedLength(ms[1..]);
    }
  }

  /** A pong inside a fragmented message makes the reader yield only the data before it. */
  lemma {:induction false} PongCutsMessage()
    ensures var m := DataMessage(true, Fragment([], [97]), [Fragment([Pong([])], [98])]);
            && Sent([m]) == [Message(1, [97, 98])]
            && Read(StreamFrames(Stream([m], [], [])), NOTHING).delivered == [Message(1, [97]), Message(CLOSE, [])]
  {
    var inner := Fragment([Pong([])], [98]);
    var m := DataMessage(true, Fragment([], [97]), [inner]);
    ReadStream(Stream([m], [], []));
    assert [inner][1..] == [] && [m][1..] == [];
    assert FragmentData([inner][1..]) == [] && FragmentData([inner]) == [98];
    assert Sent([m][1..]) == [] && Sent([m]) == [Message(1, [97] + [98])];
    assert [97] + [98] == [97, 98] && [97] + [] == [97];
    assert inner.before[0].Pong? && HasPong([inner][0].before);
    assert DataBeforePong([inner]) == [];
    assert Yielded([m][1..]) == [] && Yielded([m]) == [Message(1, [97] + [])];
  }

  /** More bytes never take back a message or a pong: what a cut connection gave is a prefix. */
  lemma {:induction false} ReadPrefix(fs: seq<Frame>, more: seq<Frame>, asm: Assembly)
    ensures var r, r' := Read(fs, asm), Read(fs + more, asm);
            r.delivered <= r'.delivered && r.pongs <= r'.pongs && (r.end != ConnectionError ==> r' == r)
  {
    if fs != [] {
      var f := fs[0];
      assert (fs + more)[1..] == fs[1..] + more;
      ReadPrefix(fs[1..], more, asm);
      ReadPrefix(fs[1..], more, asm.Absorb(f));
      ReadPrefix(fs[1..], more, NOTHING);
    }
  }

  /** The same for bytes: a connection cut anywhere delivers a prefix of what the whole one does. */
  lemma {:induction false} CutConnection(bs: seq<byte>, more: seq<byte>)
    ensures Read(ParseAll(bs), NOTHING).delivered <= Read(ParseAll(bs + more), NOTHING).delivered
    ensures Read(ParseAll(bs), NOTHING).pongs <= Read(ParseAll(bs + more), NOTHING).pongs
  {
    var tail := ParsePrefix(bs, more);
    ReadPrefix(ParseAll(bs), tail, NOTHING);
  }

  lemma {:induction false} ParseFramePrefix(bs: seq<byte>, more: seq<byte>, f: Frame, rest: seq<byte>)
    requires ParseFrame(bs) == Some((f, rest))
    ensures ParseFrame(bs + more) == Some((f, rest + more))
  {
    var n7 := bs[1] % 128;
    var ext := if n7 == 126 then 2 else if n7 == 127 then 8 else 0;
    var at, end := 2 + ext, |bs| - |rest|;
    assert (bs + more)[2..at] == bs[2..at];
    assert (bs + more)[at..end] == bs[at..end];
    assert (bs + more)[end..] == bs[end..] + more;
  }

  lemma {:induction false} ParsePrefix(bs: seq<byte>, more: seq<byte>) returns (tail: seq<Frame>)
    ensures ParseAll(bs + more) == ParseAll(bs) + tail
    decreases |bs|
  {
    match ParseFrame(bs)
    case None =>
      tail := ParseAll(bs + more);
    case Some((f, rest)) =>
      ParseFramePrefix(bs, more, f, rest);
      tail := ParsePrefix(rest, more);
  }

  // ---------------------------------------------------------------- pongs on the wire

  /** A client frame is read back by the server as it was meant exactly when its payload has at most 125 bytes. */
  lemma {:induction false} ClientFrameDecodes(op: Opcode, payload: seq<byte>, mask: Mask)
    requires |payload| < 256
    ensures ServerDecode(ClientFrame(op, payload, mask)) == Some([Message(op, payload)]) <==> |payload| <= 125
  {
    if |payload| <= 125 {
      DecodeFirst(op, payload, mask, []);
      var w := ClientFrame(op, payload, mask);
      assert w + [] == w && [Message(op, payload)] + [] == [Message(op, payload)];
    } else {
      var w := ClientFrame(op, payload, mask);
      assert |w| == 6 + |payload|;
      assert ServerDecode(w).Some? ==> |ServerDecode(w).value[0].payload| < |payload|;
    }
  }

  lemma {:induction false} ClientParts(head: seq<byte>, mask: Mask, data: seq<byte>, w: seq<byte>)
    requires |head| == 2
    ensures var all := head + mask + data + w;
            && |all| == 6 + |data| + |w| && all[0] == head[0] && all[1] == head[1]
            && all[2..6] == mask && all[6..6 + |data|] == data && all[6 + |data|..] == w
  {
  }

  lemma {:induction false} DecodeFirst(op: Opcode, payload: seq<byte>, mask: Mask, w: seq<byte>)
    requires |payload| <= 125
    ensures ServerDecode(ClientFrame(op, payload, mask) + w)
         == if ServerDecode(w).None? then None else Some([Message(op, payload)] + ServerDecode(w).value)
  {
    MaskedTwice(payload, mask);
    DecodeParts(op, payload, Masked(payload, mask), mask, w);
    ShortFrame(op, payload, mask);
  }

  lemma {:induction false} DecodeParts(op: Opcode, payload: seq<byte>, data: seq<byte>, mask: Mask, w: seq<byte>)
    requires |data| <= 125 && Masked(data, mask) == payload
    ensures var all := [128 + op, 128 + |data|] + mask + data + w;
            ServerDecode(all)
            == if ServerDecode(w).None? then None else Some([Message(op, payload)] + ServerDecode(w).value)
  {
    ParseClientParts([128 + op, 128 + |data|], mask, data, w);
  }

  lemma {:induction false} ParseClientParts(head: seq<byte>, mask: Mask, data: seq<byte>, w: seq<byte>)
    requires |head| == 2 && |data| <= 125 && head[1] == 128 + |data|
    ensures ParseClientFrame(head + mask + data + w) == Some((Message(head[0] % 16, Masked(data, mask)), w))
  {
    ClientParts(head, mask, data, w);
  }

  lemma {:induction false} ShortFrame(op: Opcode, payload: seq<byte>, mask: Mask)
    requires |payload| <= 125
    ensures ClientFrame(op, payload, mask) == [128 + op, 128 + |payload|] + mask + Masked(payload, mask)
  {
  }

  function PongMessages(pongs: seq<seq<byte>>): seq<Message> {
    if pongs == [] then [] else [Message(PONG, pongs[0])] + PongMessages(pongs[1..])
  }

  /**
    Every pong the reader sends reaches the server with its ping's payload, in order, when no ping exceeds 125
    bytes.
    */
  lemma {:induction false} PongsDecode(pongs: seq<seq<byte>>, masks: seq<Mask>)
    requires |masks| == |pongs|
    requires forall p <- pongs :: |p| <= 125
    ensures ServerDecode(PongBytes(pongs, masks)) == Some(PongMessages(pongs))
    decreases |pongs|
  {
    if pongs != [] {
      PongsDecode(pongs[1..], masks[1..]);
      DecodeFirst(PONG, pongs[0], masks[0], PongBytes(pongs[1..], masks[1..]));
    }
  }
}
