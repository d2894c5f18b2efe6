/**
  The WebSocket client of the position stream: the exact-length receive, the masked
  send and the reader that reassembles messages, answers pings and ends on a close.

  `recv` may return any non-empty part of what it was asked for; the reader is specified on
  the bytes alone, so nothing it yields or sends depends on how the network cut them.
  */
module StreamClient {
  import opened Bytes
  import opened Numbers

  const CONTINUATION := 0
  const CLOSE := 8
  const PING := 9
  const PONG := 10

  type Mask = m: seq<byte> | |m| == 4 witness [0, 0, 0, 0]
  type Opcode = x: int | 0 <= x < 16

  /** The part of a frame the reader looks at. */
  datatype Frame = Frame(fin: bool, op: Opcode, data: seq<byte>)

  /** A message as the reader yields it; the time of receipt is left out. */
  datatype Message = Message(op: Opcode, payload: seq<byte>)

  /** How the reader stops: a close frame, the end of the bytes, or a pong it cannot build. */
  datatype End = Closed | ConnectionError | ValueError

  /** What one connection gives: messages yielded, ping payloads answered, and the end. */
  datatype Reading = Reading(delivered: seq<Message>, pongs: seq<seq<byte>>, end: End) {
    function After(ys: seq<Message>, ps: seq<seq<byte>>): Reading {
      Reading(ys + delivered, ps + pongs, end)
    }
  }

  lemma {:induction false} AfterTwice(r: Reading, ys: seq<Message>, ps: seq<seq<byte>>, ys': seq<Message>,
                                      ps': seq<seq<byte>>)
    ensures r.After(ys, ps).After(ys', ps') == r.After(ys' + ys, ps' + ps)
  {
    assert ys' + (ys + r.delivered) == ys' + ys + r.delivered;
    assert ps' + (ps + r.pongs) == ps' + ps + r.pongs;
  }

  // ---------------------------------------------------------------- frames on the wire

  /** The first frame of `bs` and the bytes after it; None while it is incomplete. */
  function ParseFrame(bs: seq<byte>): (r: Option<(Frame, seq<byte>)>)
    ensures r.Some? ==> |r.value.1| + 2 <= |bs|
  {
    if |bs| < 2 then None else
    var n7 := bs[1] % 128;
    var ext := if n7 == 126 then 2 else if n7 == 127 then 8 else 0;
    if |bs| < 2 + ext then None else
    var n := if ext == 0 then n7 else BigEndian(bs[2..2 + ext]);
    if |bs| < 2 + ext + n then None
    else Some((Frame(bs[0] >= 128, bs[0] % 16, bs[2 + ext..2 + ext + n]), bs[2 + ext + n..]))
  }

  /** Every complete frame of a byte stream, in order. */
  function ParseAll(bs: seq<byte>): seq<Frame>
    decreases |bs|
  {
    match ParseFrame(bs)
    case None => []
    case Some((f, rest)) => [f] + ParseAll(rest)
  }

  /** The message under assembly: its opcode, once a first fragment came, and its fragments. */
  datatype Assembly = Assembly(first: Option<Opcode>, parts: seq<seq<byte>>) {
    function Absorb(f: Frame): Assembly {
      if f.op == 1 || f.op == 2 then Assembly(Some(f.op), [f.data])
      else if f.op == CONTINUATION then Assembly(first, parts + [f.data])
      else this
    }
  }

  const NOTHING := Assembly(None, [])

  /** What the reader makes of a list of frames, with `asm` already received. */
  function Read(fs: seq<Frame>, asm: Assembly): Reading {
    if fs == [] then Reading([], [], ConnectionError) else
    var f, rest := fs[0], fs[1..];
    if f.op == PING then
      if |f.data| >= 256 then Reading([], [], ValueError)
      else Read(rest, asm).After([], [f.data])
    else if f.op == CLOSE then Reading([Message(CLOSE, f.data)], [], Closed)
    else
      var asm' := asm.Absorb(f);
      if f.fin && asm'.first.Some? then
        Read(rest, NOTHING).After([Message(asm'.first.value, Concat(asm'.parts))], [])
      else Read(rest, asm')
  }

  // ---------------------------------------------------------------- client frames

  /** Exclusive or of the `k` low bits. */
  function XorBits(a: nat, b: nat, k: nat): (r: nat)
    requires a < Pow2(k) && b < Pow2(k)
    ensures r < Pow2(k)
  {
    if k == 0 then 0 else (if a % 2 == b % 2 then 0 else 1) + 2 * XorBits(a / 2, b / 2, k - 1)
  }

  lemma {:induction false} XorBitsTwice(a: nat, b: nat, k: nat)
    requires a < Pow2(k) && b < Pow2(k)
    ensures XorBits(XorBits(a, b, k), b, k) == a
  {
    if k > 0 {
      XorBitsTwice(a / 2, b / 2, k - 1);
      var r := XorBits(a, b, k);
      assert r / 2 == XorBits(a / 2, b / 2, k - 1);
    }
  }

  lemma {:induction false} BytesAreEightBits()
    ensures Pow2(8) == 256
  {
    assert Pow2(4) == 16;
  }

  function Xor(a: byte, b: byte): byte {
    BytesAreEightBits();
    XorBits(a, b, 8)
  }

  function Masked(payload: seq<byte>, mask: Mask): (r: seq<byte>)
    ensures |r| == |payload|
  {
    if payload == [] then [] else
    var n := |payload| - 1;
    Masked(payload[..n], mask) + [Xor(payload[n], mask[n % 4])]
  }

  /** Byte i is combined with byte i modulo 4 of the mask. */
  lemma {:induction false} MaskedAt(payload: seq<byte>, mask: Mask, i: nat)
    requires i < |payload|
    ensures Masked(payload, mask)[i] == Xor(payload[i], mask[i % 4])
  {
    if i < |payload| - 1 {
      MaskedAt(payload[..|payload| - 1], mask, i);
    }
  }

  lemma {:induction false} XorTwice(a: byte, b: byte)
    ensures Xor(Xor(a, b), b) == a
  {
    BytesAreEightBits();
    XorBitsTwice(a, b, 8);
  }

  /** Masking is its own inverse, which is what lets the server read a client frame. */
  lemma {:induction false} MaskedTwice(payload: seq<byte>, mask: Mask)
    ensures Masked(Masked(payload, mask), mask) == payload
  {
    forall i | 0 <= i < |payload|
      ensures Masked(Masked(payload, mask), mask)[i] == payload[i]
    {
      MaskedAt(payload, mask, i);
      MaskedAt(Masked(payload, mask), mask, i);
      XorTwice(payload[i], mask[i % 4]);
    }
  }

  /** A client frame; the second byte is `0x80 | length`, so a length of 128 or more keeps its own top bit. */
  function ClientFrame(op: Opcode, payload: seq<byte>, mask: Mask): seq<byte>
    requires |payload| < 256
  {
    [128 + op, if |payload| < 128 then 128 + |payload| else |payload|] + mask + Masked(payload, mask)
  }

  /** The pong frames answering `pongs`, each with its own mask. */
  function PongBytes(pongs: seq<seq<byte>>, masks: seq<Mask>): seq<byte>
    requires |masks| == |pongs|
    requires forall p <- pongs :: |p| < 256
  {
    if pongs == [] then [] else ClientFrame(PONG, pongs[0], masks[0]) + PongBytes(pongs[1..], masks[1..])
  }

  /** A server's reading of one client frame, sections 5.2 and 5.3 of RFC 6455; None if it is malformed. */
  function ParseClientFrame(w: seq<byte>): (r: Option<(Message, seq<byte>)>)
    ensures r.Some? ==> |r.value.1| < |w|
  {
    if |w| < 6 || w[1] < 128 then None else
    var n7 := w[1] - 128;
    var ext := if n7 == 126 then 2 else if n7 == 127 then 8 else 0;
    if |w| < 6 + ext then None else
    var n := if ext == 0 then n7 else BigEndian(w[2..2 + ext]);
    if |w| < 6 + ext + n then None else
    Some((Message(w[0] % 16, Masked(w[6 + ext..6 + ext + n], w[2 + ext..6 + ext])), w[6 + ext + n..]))
  }

  /** A server's reading of all the client's bytes; None if any frame is malformed. */
  function ServerDecode(w: seq<byte>): Option<seq<Message>>
    decreases |w|
  {
    if w == [] then Some([]) else
    match ParseClientFrame(w)
    case None => None
    case Some((m, tail)) =>
      match ServerDecode(tail)
      case None => None
      case Some(rest) => Some([m] + rest)
  }

  // ---------------------------------------------------------------- the code

  class Socket {
    var incoming: seq<byte>  // what the peer has sent and is still to be received
    var sent: seq<byte>

    /** Some bytes, at most `n`, cut wherever the network chose; none only when the peer has closed. */
    method Recv(n: nat) returns (chunk: seq<byte>)
      requires n > 0
      modifies this`incoming
      ensures old(incoming) == chunk + incoming
      ensures |chunk| <= n
      ensures chunk == [] <==> old(incoming) == []
    {
      if incoming == [] {
        return [];
      }
      var k: nat :| 1 <= k <= n && k <= |incoming|;
      chunk, incoming := incoming[..k], incoming[k..];
    }
  }

  method RecvExact(s: Socket, n: nat) returns (r: Option<seq<byte>>)
    modifies s`incoming
    ensures r == if |old(s.incoming)| < n then None else Some(old(s.incoming)[..n])
    ensures r.Some? ==> s.incoming == old(s.incoming)[n..]
  {
    var buf: seq<byte> := [];
    while |buf| < n
      invariant |buf| <= n
      invariant old(s.incoming) == buf + s.incoming
      decreases n - |buf|
    {
      var chunk := s.Recv(n - |buf|);
      if chunk == [] {
        return None;
      }
      buf := buf + chunk;
    }
    r := Some(buf);
  }

  /** False stands for the ValueError that a payload of 256 bytes or more raises. */
  method SendFrame(s: Socket, op: Opcode, payload: seq<byte>, mask: Mask) returns (ok: bool)
    modifies s`sent
    ensures ok <==> |payload| < 256
    ensures s.sent == if |payload| < 256 then old(s.sent) + ClientFrame(op, payload, mask) else old(s.sent)
  {
    ok := |payload| < 256;
    if ok {
      s.sent := s.sent + ClientFrame(op, payload, mask);
    }
  }

  /** Lines 86 to 93: one frame off the socket. */
  method ReceiveFrame(s: Socket) returns (f: Option<Frame>)
    modifies s`incoming
    ensures f.None? <==> ParseFrame(old(s.incoming)).None?
    ensures f.Some? ==> ParseFrame(old(s.incoming)) == Some((f.value, s.incoming))
  {
    ghost var bs := s.incoming;
    var head := RecvExact(s, 2);
    if head.None? { return None; }
    var b1, b2 := head.value[0], head.value[1];
    var n: nat := b2 % 128;
    ghost var ext := if n == 126 then 2 else if n == 127 then 8 else 0;
    if n == 126 {
      var field := RecvExact(s, 2);
      if field.None? { return None; }
      assert field.value == bs[2..4];
      n := BigEndian(field.value);
    } else if n == 127 {
      var field := RecvExact(s, 8);
      if field.None? { return None; }
      assert field.value == bs[2..10];
      n := BigEndian(field.value);
    }
    assert s.incoming == bs[2 + ext..];
    var data := RecvExact(s, n);
    if data.None? { return None; }
    assert data.value == bs[2 + ext..2 + ext + n];
    f := Some(Frame(b1 >= 128, b1 % 16, data.value));
  }

  method Messages(s: Socket)
    returns (delivered: seq<Message>, ghost pongs: seq<seq<byte>>, ghost masks: seq<Mask>, end: End)
    modifies s
    ensures Reading(delivered, pongs, end) == Read(ParseAll(old(s.incoming)), NOTHING)
    ensures |masks| == |pongs| && forall p <- pongs :: |p| < 256
    ensures s.sent == old(s.sent) + PongBytes(pongs, masks)
  {
    var parts: seq<seq<byte>>, first: Option<Opcode> := [], None;
    delivered, pongs, masks := [], [], [];
    ghost var whole := Read(ParseAll(s.incoming), NOTHING);
    while true
      invariant Answered(s.sent, old(s.sent), pongs, masks)
      invariant whole == Read(ParseAll(s.incoming), Assembly(first, parts)).After(delivered, pongs)
      decreases |s.incoming|
    {
      ghost var fs := ParseAll(s.incoming);
      var f := ReceiveFrame(s);
      if f.None? {
        return delivered, pongs, masks, ConnectionError;
      }
      var op, data := f.value.op, f.value.data;
      assert fs == [f.value] + ParseAll(s.incoming);
      ReadStep(f.value, ParseAll(s.incoming), Assembly(first, parts), delivered, pongs);
      if op == PING {
        var mask: Mask := *;  // os.urandom(4)
        ghost var sent := s.sent;
        var ok := SendFrame(s, PONG, data, mask);
        if !ok {
          return delivered, pongs, masks, ValueError;
        }
        OneMoreAnswered(sent, old(s.sent), pongs, masks, data, mask);
        pongs, masks := pongs + [data], masks + [mask];
        continue;
      }
      if op == CLOSE {
        delivered := delivered + [Message(CLOSE, data)];
        return delivered, pongs, masks, Closed;
      }
      if op == 1 || op == 2 {
        first, parts := Some(op), [data];
      } else if op == CONTINUATION {
        parts := parts + [data];
      }
      if f.value.fin && first != None {
        delivered := delivered + [Message(first.value, Concat(parts))];
        parts, first := [], None;
      }
    }
  }

  /** One frame of `Read`, with what was already delivered and answered in front. */
  lemma {:induction false} ReadStep(f: Frame, rest: seq<Frame>, asm: Assembly, ys: seq<Message>, ps: seq<seq<byte>>)
    ensures var before, asm' := Read([f] + rest, asm).After(ys, ps), asm.Absorb(f);
            before == if f.op == PING && |f.data| >= 256 then Reading(ys, ps, ValueError)
                      else if f.op == PING then Read(rest, asm).After(ys, ps + [f.data])
                      else if f.op == CLOSE then Reading(ys + [Message(CLOSE, f.data)], ps, Closed)
                      else if f.fin && asm'.first.Some? then
                        Read(rest, NOTHING).After(ys + [Message(asm'.first.value, Concat(asm'.parts))], ps)
                      else Read(rest, asm').After(ys, ps)
  {
    assert ([f] + rest)[1..] == rest;
  }

  /** The pongs were sent after what had been sent before. */
  ghost predicate Answered(sent: seq<byte>, before: seq<byte>, pongs: seq<seq<byte>>, masks: seq<Mask>) {
    |masks| == |pongs| && (forall p <- pongs :: |p| < 256) && sent == before + PongBytes(pongs, masks)
  }

  lemma {:induction false} OneMoreAnswered(sent: seq<byte>, before: seq<byte>, pongs: seq<seq<byte>>,
                                           masks: seq<Mask>, last: seq<byte>, mask: Mask)
    requires Answered(sent, before, pongs, masks) && |last| < 256
    ensures Answered(sent + ClientFrame(PONG, last, mask), before, pongs + [last], masks + [mask])
  {
    PongBytesAppend(pongs, masks, last, mask);
    Associate(before, PongBytes(pongs, masks), ClientFrame(PONG, last, mask));
  }

  lemma {:induction false} PongBytesAppend(pongs: seq<seq<byte>>, masks: seq<Mask>, last: seq<byte>, mask: Mask)
    requires |masks| == |pongs| && |last| < 256
    requires forall p <- pongs :: |p| < 256
    ensures PongBytes(pongs + [last], masks + [mask]) == PongBytes(pongs, masks) + ClientFrame(PONG, last, mask)
    decreases |pongs|
  {
    if pongs == [] {
      assert pongs + [last] == [last] && masks + [mask] == [mask];
    } else {
      PongBytesAppend(pongs[1..], masks[1..], last, mask);
      assert (pongs + [last])[1..] == pongs[1..] + [last] && (masks + [mask])[1..] == masks[1..] + [mask];
      Associate(ClientFrame(PONG, pongs[0], masks[0]), PongBytes(pongs[1..], masks[1..]),
                ClientFrame(PONG, last, mask));
    }
  }
}
