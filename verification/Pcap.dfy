/**
  Decapsulation in experiments/network/pcap.py: from a captured frame to the IPv4 packet inside
  GTP-U, through the link header, the outer IPv4 and UDP headers, the optional GTP-U fields and
  the chain of extension headers (sections 5.1 and 5.2 of 3GPP TS 29.281).
  */
module Pcap {
  import opened Bytes

  const GTPU_PORT := 2152
  const ETHERNET := 1
  const COOKED := 113

  /** What a Python slice or index may come to: a value, None, or an exception for a short buffer. */
  datatype Outcome = Packet(bytes: seq<byte>) | NoPacket | TooShort

  function Word(hi: byte, lo: byte): nat {
    256 * hi + lo
  }

  /** A length counted in units of 4 bytes. */
  function Units(n: byte): nat {
    4 * n
  }

  /** Bytes from `at` on, empty past the end, as a slice is. */
  function From(b: seq<byte>, at: nat): seq<byte> {
    if at <= |b| then b[at..] else []
  }

  // ---------------------------------------------------------------- the code

  /** The IPv4 packet in a frame: Ethernet with an optional VLAN tag, or Linux cooked. */
  function IpPayload(frame: seq<byte>, link: nat): Outcome {
    if link == ETHERNET then
      if |frame| < 14 then TooShort else
      var etype := Word(frame[12], frame[13]);
      if etype != 0x8100 then
        if etype == 0x0800 then Packet(frame[14..]) else NoPacket
      else if |frame| < 18 then TooShort
      else if Word(frame[16], frame[17]) == 0x0800 then Packet(frame[18..]) else NoPacket
    else if link == COOKED then
      if |frame| < 16 then TooShort
      else if Word(frame[14], frame[15]) == 0x0800 then Packet(frame[16..]) else NoPacket
    else NoPacket
  }

  /** The extension headers from `off` on, the first of type `next`: where the chain ends, or how it fails. */
  datatype Chain = At(off: nat) | ZeroLength | Overrun

  function Walk(g: seq<byte>, off: nat, next: byte): (c: Chain)
    ensures c.At? ==> off <= c.off
    decreases |g| - off
  {
    if next == 0 then At(off)
    else if off >= |g| then Overrun
    else
      var ln := Units(g[off]);
      if ln == 0 then ZeroLength
      else if off + ln > |g| then Overrun
      else Walk(g, off + ln, g[off + ln - 1])
  }

  /** Lines 121 to 136, on the bytes after the UDP header. */
  function GtpuPayload(g: seq<byte>): Outcome
    requires |g| >= 8
  {
    if g[1] != 0xFF then NoPacket
    else if g[0] % 8 != 0 && |g| < 12 then TooShort
    else
      match if g[0] % 8 == 0 then At(8) else Walk(g, 12, g[11])
      case Overrun => TooShort
      case ZeroLength => NoPacket
      case At(off) =>
        var inner := From(g, off);
        if inner != [] && inner[0] / 16 == 4 then Packet(inner) else NoPacket
  }

  function InnerOf(frame: seq<byte>, link: nat): Outcome {
    match IpPayload(frame, link)
    case TooShort => TooShort
    case NoPacket => NoPacket
    case Packet(ip) =>
      if |ip| < 20 || ip[9] != 17 then NoPacket else
      var udp := From(ip, 4 * (ip[0] % 16));
      if |udp| < 16 then NoPacket
      else if Word(udp[0], udp[1]) != GTPU_PORT && Word(udp[2], udp[3]) != GTPU_PORT then NoPacket
      else GtpuPayload(udp[8..])
  }

  /** gtpu_inner, with its loop over the extension headers; each step moves `off` by 4 at least. */
  method GtpuInner(frame: seq<byte>, link: nat) returns (r: Outcome)
    ensures r == InnerOf(frame, link)
  {
    var ipr := IpPayload(frame, link);
    if !ipr.Packet? {
      return ipr;
    }
    var ip := ipr.bytes;
    if |ip| < 20 || ip[9] != 17 {
      return NoPacket;
    }
    var udp := From(ip, 4 * (ip[0] % 16));
    if |udp| < 16 {
      return NoPacket;
    }
    if Word(udp[0], udp[1]) != GTPU_PORT && Word(udp[2], udp[3]) != GTPU_PORT {
      return NoPacket;
    }
    var g := udp[8..];
    if g[1] != 0xFF {
      return NoPacket;
    }
    var off := 8;
    if g[0] % 8 != 0 {
      if |g| < 12 {
        return TooShort;
      }
      var next := g[11];
      off := 12;
      while next != 0
        invariant Walk(g, 12, g[11]) == Walk(g, off, next)
        decreases |g| - off, next
      {
        if off >= |g| {
          return TooShort;
        }
        var ln := Units(g[off]);
        if ln == 0 {
          return NoPacket;
        }
        if off + ln > |g| {
          return TooShort;
        }
        next := g[off + ln - 1];
        off := off + ln;
      }
    }
    var inner := From(g, off);
    r := if inner != [] && inner[0] / 16 == 4 then Packet(inner) else NoPacket;
  }

  /** ip_packet: the inner packet, else the plain one. */
  function IpPacket(frame: seq<byte>, link: nat): Outcome {
    match InnerOf(frame, link)
    case Packet(inner) => Packet(inner)
    case TooShort => TooShort
    case NoPacket =>
      match IpPayload(frame, link)
      case Packet(ip) => if |ip| >= 20 && ip[0] / 16 == 4 then Packet(ip) else NoPacket
      case other => other
  }

  // ---------------------------------------------------------------- encapsulation

  datatype Link = Ethernet(macs: seq<byte>) | Vlan(macs: seq<byte>, tag: seq<byte>) | Cooked(head: seq<byte>)

  function LinkType(l: Link): nat {
    if l.Cooked? then COOKED else ETHERNET
  }

  ghost predicate ValidLink(l: Link) {
    match l
    case Ethernet(macs) => |macs| == 12
    case Vlan(macs, tag) => |macs| == 12 && |tag| == 2
    case Cooked(head) => |head| == 14
  }

  function LinkBytes(l: Link): seq<byte> {
    match l
    case Ethernet(macs) => macs + [8, 0]
    case Vlan(macs, tag) => macs + [0x81, 0] + tag + [8, 0]
    case Cooked(head) => head + [8, 0]
  }

  /**
    An extension header: its type, its length in units of 4 bytes, and its content between the length and the next
    type.
    */
  datatype Extension = Extension(kind: byte, units: byte, content: seq<byte>)

  ghost predicate ValidExtension(e: Extension) {
    e.kind != 0 && e.units >= 1 && |e.content| + 2 == Units(e.units)
  }

  ghost predicate ValidChain(es: seq<Extension>) {
    forall i | 0 <= i < |es| :: ValidExtension(es[i])
  }

  function FirstKind(es: seq<Extension>): byte {
    if es == [] then 0 else es[0].kind
  }

  function OneExtension(e: Extension, next: byte): seq<byte> {
    [e.units] + e.content + [next]
  }

  function ChainBytes(es: seq<Extension>): seq<byte> {
    if es == [] then [] else OneExtension(es[0], FirstKind(es[1..])) + ChainBytes(es[1..])
  }

  /**
    A G-PDU header. Without the flags E, S and PN it has 8 bytes; with any of them four more, the last of
    which announces the extension headers when E is set and means nothing when it is not.
    */
  datatype Gtpu = Gtpu(flags: byte, fixed: seq<byte>, optional: seq<byte>, spare: byte, chain: seq<Extension>)

  predicate HasE(h: Gtpu) {
    h.flags / 4 % 2 == 1
  }

  ghost predicate ValidGtpu(h: Gtpu) {
    && |h.fixed| == 6 && |h.optional| == 3 && ValidChain(h.chain)
    && if HasE(h) then h.spare == FirstKind(h.chain) else h.chain == []
  }

  function GtpuHead(h: Gtpu): seq<byte> {
    [h.flags, 0xFF] + h.fixed
  }

  function GtpuBytes(h: Gtpu): seq<byte> {
    if h.flags % 8 == 0 then GtpuHead(h) else GtpuHead(h) + (h.optional + [h.spare]) + ChainBytes(h.chain)
  }

  /** The outer headers: `words` 32-bit words of IPv4 carrying UDP, and the UDP ports with its length and checksum. */
  datatype Outer = Outer(ip: seq<byte>, sport: (byte, byte), dport: (byte, byte), rest: seq<byte>)

  ghost predicate ValidOuter(o: Outer) {
    && 20 <= |o.ip| <= 60 && |o.ip| % 4 == 0
    && o.ip[0] == 64 + |o.ip| / 4 && o.ip[9] == 17
    && (Word(o.sport.0, o.sport.1) == GTPU_PORT || Word(o.dport.0, o.dport.1) == GTPU_PORT)
    && |o.rest| == 4
  }

  function OuterBytes(o: Outer): seq<byte> {
    o.ip + [o.sport.0, o.sport.1, o.dport.0, o.dport.1] + o.rest
  }

  function Encapsulate(l: Link, o: Outer, h: Gtpu, inner: seq<byte>): seq<byte> {
    LinkBytes(l) + (OuterBytes(o) + (GtpuBytes(h) + inner))
  }

  // ---------------------------------------------------------------- main results

  lemma {:induction false} LinkStripped(l: Link, ip: seq<byte>)
    requires ValidLink(l)
    ensures IpPayload(LinkBytes(l) + ip, LinkType(l)) == Packet(ip)
  {
    var frame, n := LinkBytes(l) + ip, |LinkBytes(l)|;
    assert frame[n..] == ip;
    assert frame[..n] == LinkBytes(l);
    match l
    case Ethernet(macs) =>
      assert frame[12] == LinkBytes(l)[12] == 8 && frame[13] == LinkBytes(l)[13] == 0;
    case Vlan(macs, tag) =>
      assert frame[12] == LinkBytes(l)[12] == 0x81 && frame[13] == LinkBytes(l)[13] == 0;
      assert frame[16] == LinkBytes(l)[16] == 8 && frame[17] == LinkBytes(l)[17] == 0;
    case Cooked(head) =>
      assert frame[14] == LinkBytes(l)[14] == 8 && frame[15] == LinkBytes(l)[15] == 0;
  }

  /** Walking a chain ends right after it, whatever comes before and after. */
  lemma {:induction false} WalkChain(before: seq<byte>, es: seq<Extension>, after: seq<byte>)
    requires ValidChain(es)
    ensures Walk(before + ChainBytes(es) + after, |before|, FirstKind(es)) == At(|before| + |ChainBytes(es)|)
    decreases |es|
  {
    if es != [] {
      var one, rest := OneExtension(es[0], FirstKind(es[1..])), ChainBytes(es[1..]);
      Regroup(before, one, rest, after);
      ExtensionEnds(es[0], FirstKind(es[1..]));
      WalkOne(before, one, es[0].kind, rest + after);
      WalkChain(before + one, es[1..], after);
    }
  }

  lemma {:induction false} Regroup(a: seq<byte>, b: seq<byte>, c: seq<byte>, d: seq<byte>)
    ensures a + (b + c) + d == a + b + (c + d) == (a + b) + c + d
  {
  }

  lemma {:induction false} Ends(before: seq<byte>, one: seq<byte>, after: seq<byte>)
    requires one != []
    ensures var g := before + one + after;
            |g| >= |before| + |one| && g[|before|] == one[0] && g[|before| + |one| - 1] == one[|one| - 1]
  {
  }

  lemma {:induction false} WalkAcross(g: seq<byte>, off: nat, kind: byte, n: nat, next: byte)
    requires kind != 0 && n > 0 && off + n <= |g| && n == Units(g[off]) && next == g[off + n - 1]
    ensures Walk(g, off, kind) == Walk(g, off + n, next)
  {
  }

  lemma {:induction false} WalkOne(before: seq<byte>, one: seq<byte>, kind: byte, after: seq<byte>)
    requires kind != 0 && one != [] && |one| == Units(one[0])
    ensures Walk(before + one + after, |before|, kind) == Walk(before + one + after, |before + one|, one[|one| - 1])
  {
    Ends(before, one, after);
    WalkAcross(before + one + after, |before|, kind, |one|, one[|one| - 1]);
  }

  lemma {:induction false} ExtensionEnds(e: Extension, next: byte)
    requires ValidExtension(e)
    ensures var one := OneExtension(e, next); one != [] && |one| == Units(one[0]) && one[|one| - 1] == next
  {
  }

  /** Reading a spare byte as an extension type can only lose bytes: the walk never ends where it began. */
  lemma {:induction false} WalkMovesOn(g: seq<byte>, off: nat, next: byte)
    requires next != 0
    ensures Walk(g, off, next).At? ==> Walk(g, off, next).off >= off + 4
  {
  }

  lemma {:induction false} GtpuStripped(h: Gtpu, inner: seq<byte>)
    requires ValidGtpu(h) && inner != [] && inner[0] / 16 == 4
    ensures GtpuPayload(GtpuBytes(h) + inner) == Packet(inner) <==> HasE(h) || h.flags % 8 == 0 || h.spare == 0
  {
    var g := GtpuBytes(h) + inner;
    var head := GtpuHead(h);
    assert g[0] == head[0] == h.flags && g[1] == head[1] == 0xFF;
    if h.flags % 8 == 0 {
      assert g[8..] == inner;
    } else {
      var before := head + (h.optional + [h.spare]);
      var n := |ChainBytes(h.chain)|;
      assert g == before + ChainBytes(h.chain) + inner;
      assert g[11] == before[11] == h.spare;
      if HasE(h) || h.spare == 0 {
        WalkChain(before, h.chain, inner);
        assert g[12 + n..] == inner;
      } else {
        WalkMovesOn(g, 12, h.spare);
        assert |g| == 12 + |inner|;
      }
    }
  }

  /**
    The round trip, for any link header, any IPv4 header length, any optional GTP-U fields and any chain of
    extension headers: the packet comes back exactly unless the fields are there without the E flag and the
    byte that then means nothing is not 0.
    */
  lemma {:induction false} DecapsulateEncapsulated(l: Link, o: Outer, h: Gtpu, inner: seq<byte>)
    requires ValidLink(l) && ValidOuter(o) && ValidGtpu(h) && inner != [] && inner[0] / 16 == 4
    ensures InnerOf(Encapsulate(l, o, h, inner), LinkType(l)) == Packet(inner)
            <==> HasE(h) || h.flags % 8 == 0 || h.spare == 0
  {
    var g := GtpuBytes(h) + inner;
    var ip := OuterBytes(o) + g;
    LinkStripped(l, ip);
    OuterStripped(o, g);
    GtpuStripped(h, inner);
  }

  /** The same for ip_packet, which falls back on the outer packet. */
  lemma {:induction false} IpPacketDecapsulates(l: Link, o: Outer, h: Gtpu, inner: seq<byte>)
    requires ValidLink(l) && ValidOuter(o) && ValidGtpu(h) && inner != [] && inner[0] / 16 == 4
    ensures IpPacket(Encapsulate(l, o, h, inner), LinkType(l)) == Packet(inner)
            <==> HasE(h) || h.flags % 8 == 0 || h.spare == 0
  {
    DecapsulateEncapsulated(l, o, h, inner);
    LinkStripped(l, OuterBytes(o) + (GtpuBytes(h) + inner));
  }

  /** A packet that is not UDP is no GTP-U: it is taken as it is. */
  lemma {:induction false} PlainPacketStays(l: Link, ip: seq<byte>)
    requires ValidLink(l) && |ip| >= 20 && ip[0] / 16 == 4 && ip[9] != 17
    ensures IpPacket(LinkBytes(l) + ip, LinkType(l)) == Packet(ip)
  {
    LinkStripped(l, ip);
  }

  lemma {:induction false} OuterStripped(o: Outer, g: seq<byte>)
    requires ValidOuter(o) && |g| >= 8
    ensures var ip := OuterBytes(o) + g;
            var udp := From(ip, 4 * (ip[0] % 16));
            && |ip| >= 20 && ip[9] == 17 && |udp| >= 16 && udp[8..] == g
            && (Word(udp[0], udp[1]) == GTPU_PORT || Word(udp[2], udp[3]) == GTPU_PORT)
  {
    var ip := OuterBytes(o) + g;
    assert ip[0] == o.ip[0] && ip[9] == o.ip[9] && 4 * (ip[0] % 16) == |o.ip|;
    var udp := ip[|o.ip|..];
    assert udp == [o.sport.0, o.sport.1, o.dport.0, o.dport.1] + o.rest + g;
  }

  /** A sequence number without E, and a non-zero byte where E would announce an extension: the packet is lost. */
  lemma {:induction false} SpareByteMisread()
    ensures var h := Gtpu(0x32, [0, 5, 0, 0, 0, 1], [0, 7, 0], 1, []);
            ValidGtpu(h) && GtpuPayload(GtpuBytes(h) + [0x45]) != Packet([0x45])
  {
    GtpuStripped(Gtpu(0x32, [0, 5, 0, 0, 0, 1], [0, 7, 0], 1, []), [0x45]);
  }

  lemma {:induction false} GtpuInnerIsSuffix(g: seq<byte>)
    requires |g| >= 8 && GtpuPayload(g).Packet?
    ensures var inner := GtpuPayload(g).bytes;
            inner != [] && inner[0] / 16 == 4 && |inner| + 8 <= |g| && inner == g[|g| - |inner|..]
  {
  }

  lemma {:induction false} IpIsSuffix(frame: seq<byte>, link: nat)
    requires IpPayload(frame, link).Packet?
    ensures var ip := IpPayload(frame, link).bytes; |ip| + 14 <= |frame| && ip == frame[|frame| - |ip|..]
  {
  }

  lemma {:induction false} UdpIsSuffix(ip: seq<byte>, at: nat)
    requires |From(ip, at)| >= 16
    ensures var g := From(ip, at)[8..]; |g| >= 8 && |g| + 8 <= |ip| && g == ip[|ip| - |g|..]
  {
  }

  /** The three layers of a packet found. */
  lemma {:induction false} InnerSplits(frame: seq<byte>, link: nat) returns (ip: seq<byte>, g: seq<byte>)
    requires InnerOf(frame, link).Packet?
    ensures IpPayload(frame, link) == Packet(ip)
    ensures |g| >= 8 && |g| + 8 <= |ip| && g == ip[|ip| - |g|..]
    ensures GtpuPayload(g) == InnerOf(frame, link)
  {
    ip := IpPayload(frame, link).bytes;
    var at := 4 * (ip[0] % 16);
    UdpIsSuffix(ip, at);
    g := From(ip, at)[8..];
  }

  lemma {:induction false} ThreeSuffixes(frame: seq<byte>, ip: seq<byte>, g: seq<byte>, inner: seq<byte>)
    requires |ip| + 14 <= |frame| && ip == frame[|frame| - |ip|..]
    requires |g| + 8 <= |ip| && g == ip[|ip| - |g|..]
    requires |inner| + 8 <= |g| && inner == g[|g| - |inner|..]
    ensures |inner| + 30 <= |frame| && inner == frame[|frame| - |inner|..]
  {
    assert inner == ip[|ip| - |inner|..];
  }

  /** A packet found is always the end of the frame: nothing is made up, and at least the headers are gone. */
  lemma {:induction false} InnerIsSuffix(frame: seq<byte>, link: nat)
    requires InnerOf(frame, link).Packet?
    ensures var inner := InnerOf(frame, link).bytes;
            && inner != [] && inner[0] / 16 == 4
            && |inner| + 30 <= |frame| && inner == frame[|frame| - |inner|..]
  {
    var ip, g := InnerSplits(frame, link);
    IpIsSuffix(frame, link);
    GtpuInnerIsSuffix(g);
    ThreeSuffixes(frame, ip, g, GtpuPayload(g).bytes);
  }
}
