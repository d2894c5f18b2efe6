/** Capture files as `read_pcap` of experiments/network/pcap.py, lines 21 to 42, reads them. */
module PcapFile {
  import opened Bytes

  const MICRO: nat := 0xA1B2C3D4
  const NANO: nat := 0xA1B23C4D

  datatype Captured = Captured(t: real, frame: seq<byte>, link: nat)

  function FromBytes(x3: nat, x2: nat, x1: nat, x0: nat): nat {
    x0 + 256 * (x1 + 256 * (x2 + 256 * x3))
  }

  /** An unsigned 32-bit field in either byte order. */
  function Int4(b: seq<byte>, little: bool): nat
    requires |b| == 4
  {
    if little then FromBytes(b[3], b[2], b[1], b[0]) else FromBytes(b[0], b[1], b[2], b[3])
  }

  function Bytes4(n: nat, little: bool): (b: seq<byte>)
    requires n < 0x1_0000_0000
    ensures |b| == 4 && Int4(b, little) == n
  {
    var q1 := n / 256;
    var q2 := q1 / 256;
    var q3 := q2 / 256;
    if little then [n % 256, q1 % 256, q2 % 256, q3] else [q3, q2 % 256, q1 % 256, n % 256]
  }

  /** Byte order and precision. */
  datatype Format = Format(little: bool, nano: bool)

  function FormatOf(magic: seq<byte>): Format
    requires |magic| == 4
  {
    var m := Int4(magic, true);
    if m == MICRO || m == NANO then Format(true, m == NANO) else Format(false, Int4(magic, false) == NANO)
  }

  function Time(sec: nat, frac: nat, nano: bool): real {
    sec as real + frac as real / if nano then 1000000000.0 else 1000000.0
  }

  /** The packet that a record header and its data make. */
  function Parsed(rec: seq<byte>, data: seq<byte>, f: Format, link: nat): Captured
    requires |rec| == 16
  {
    Captured(Time(Int4(rec[..4], f.little), Int4(rec[4..8], f.little), f.nano), data, link)
  }

  /** What is read past the file header. */
  function Records(b: seq<byte>, f: Format, link: nat): seq<Captured> {
    if |b| < 16 then [] else
    var incl := Int4(b[8..12], f.little);
    var rest := if 16 + incl <= |b| then 16 + incl else |b|;
    [Parsed(b[..16], b[16..rest], f, link)] + Records(b[rest..], f, link)
  }

  function Packets(file: seq<byte>): seq<Captured> {
    if |file| < 24 then [] else
    var f := FormatOf(file[..4]);
    Records(file[24..], f, Int4(file[20..24], f.little))
  }

  /** `fh.read(n)`: fewer bytes at the end of the file. */
  function Upto(file: seq<byte>, at: nat, n: nat): (e: nat)
    requires at <= |file|
    ensures at <= e <= |file| && e <= at + n
  {
    if at + n <= |file| then at + n else |file|
  }

  /** Lines 37 to 42: the record at `at`, None at the end. */
  method ReadRecord(file: seq<byte>, at: nat, f: Format, link: nat) returns (c: Option<Captured>, next: nat)
    requires at <= |file|
    ensures c.None? ==> Records(file[at..], f, link) == []
    ensures c.Some? ==> at < next <= |file|
    ensures c.Some? ==> Records(file[at..], f, link) == [c.value] + Records(file[next..], f, link)
  {
    var mid := Upto(file, at, 16);
    var rec := file[at..mid];
    if |rec| < 16 {
      return None, mid;
    }
    var incl := Int4(rec[8..12], f.little);
    next := Upto(file, mid, incl);
    var data := file[mid..next];
    ReadStep(file, at, mid, next);
    OneRecord(file[at..], rec, data, file[next..], f, link);
    c := Some(Parsed(rec, data, f, link));
  }

  method ReadPcap(file: seq<byte>) returns (out: seq<Captured>)
    ensures out == Packets(file)
  {
    out := [];
    var head := file[..Upto(file, 0, 24)];
    if |head| < 24 {
      return;
    }
    var at := 24;
    var f := FormatOf(head[..4]);
    var link := Int4(head[20..24], f.little);
    assert head[..4] == file[..4] && head[20..24] == file[20..24];
    while true
      invariant at <= |file|
      invariant Packets(file) == out + Records(file[at..], f, link)
      decreases |file| - at
    {
      var c, next := ReadRecord(file, at, f, link);
      if c.None? {
        return;
      }
      Associate(out, [c.value], Records(file[next..], f, link));
      out, at := out + [c.value], next;
    }
  }

  lemma {:induction false} ReadStep(file: seq<byte>, a: nat, b: nat, c: nat)
    requires a <= b <= c <= |file|
    ensures file[a..] == file[a..b] + file[b..c] + file[c..]
  {
  }

  /** A record header, its data (as much as there is) and what follows. */
  lemma {:induction false} OneRecord(b: seq<byte>, rec: seq<byte>, data: seq<byte>, rest: seq<byte>, f: Format,
                                     link: nat)
    requires |rec| == 16 && b == rec + data + rest
    requires |data| == Int4(rec[8..12], f.little) || (rest == [] && |data| < Int4(rec[8..12], f.little))
    ensures Records(b, f, link) == [Parsed(rec, data, f, link)] + Records(rest, f, link)
  {
    assert b[..16] == rec && b[8..12] == rec[8..12];
    assert b[16..16 + |data|] == data && b[16 + |data|..] == rest;
  }

  // ---------------------------------------------------------------- writing

  datatype Record = Record(sec: nat, frac: nat, data: seq<byte>, original: nat)

  ghost predicate Fits(r: Record) {
    r.sec < 0x1_0000_0000 && r.frac < 0x1_0000_0000 && |r.data| < 0x1_0000_0000 && r.original < 0x1_0000_0000
  }

  ghost predicate AllFit(rs: seq<Record>) {
    forall i | 0 <= i < |rs| :: Fits(rs[i])
  }

  function Header(r: Record, little: bool): (h: seq<byte>)
    requires Fits(r)
    ensures |h| == 16
    ensures Int4(h[..4], little) == r.sec && Int4(h[4..8], little) == r.frac && Int4(h[8..12], little) == |r.data|
  {
    var h := Bytes4(r.sec, little) + Bytes4(r.frac, little) + Bytes4(|r.data|, little) + Bytes4(r.original, little);
    assert h[..4] == Bytes4(r.sec, little) && h[4..8] == Bytes4(r.frac, little) && h[8..12] == Bytes4(|r.data|, little);
    h
  }

  function WriteRecords(rs: seq<Record>, little: bool): seq<byte>
    requires AllFit(rs)
  {
    if rs == [] then [] else Header(rs[0], little) + rs[0].data + WriteRecords(rs[1..], little)
  }

  /** A file: magic number, 16 bytes nobody reads, link type, records. */
  function Write(f: Format, unread: seq<byte>, link: nat, rs: seq<Record>): seq<byte>
    requires |unread| == 16 && link < 0x1_0000_0000 && AllFit(rs)
  {
    Bytes4(if f.nano then NANO else MICRO, f.little) + unread + Bytes4(link, f.little) + WriteRecords(rs, f.little)
  }

  function Meant(r: Record, f: Format, link: nat): Captured {
    Captured(Time(r.sec, r.frac, f.nano), r.data, link)
  }

  function AllMeant(rs: seq<Record>, f: Format, link: nat): (out: seq<Captured>)
    ensures |out| == |rs| && forall i | 0 <= i < |rs| :: out[i] == Meant(rs[i], f, link)
  {
    if rs == [] then [] else [Meant(rs[0], f, link)] + AllMeant(rs[1..], f, link)
  }

  lemma {:induction false} MagicTells(f: Format)
    ensures FormatOf(Bytes4(if f.nano then NANO else MICRO, f.little)) == f
  {
  }

  lemma {:induction false} RecordsRoundTrip(rs: seq<Record>, f: Format, link: nat)
    requires AllFit(rs)
    ensures Records(WriteRecords(rs, f.little), f, link) == AllMeant(rs, f, link)
  {
    if rs != [] {
      RecordsRoundTrip(rs[1..], f, link);
      OneRecord(WriteRecords(rs, f.little), Header(rs[0], f.little), rs[0].data,
                WriteRecords(rs[1..], f.little), f, link);
    }
  }

  /** Reading what was written gives the packets back, in either byte order and either precision. */
  lemma {:induction false} RoundTrip(f: Format, unread: seq<byte>, link: nat, rs: seq<Record>)
    requires |unread| == 16 && link < 0x1_0000_0000 && AllFit(rs)
    ensures Packets(Write(f, unread, link, rs)) == AllMeant(rs, f, link)
  {
    HeadRead(f, unread, link, rs, |Write(f, unread, link, rs)|);
    var file := Write(f, unread, link, rs);
    assert file[..|file|] == file;
    var body := WriteRecords(rs, f.little);
    assert body[..|body|] == body;
    RecordsRoundTrip(rs, f, link);
  }

  lemma {:induction false} HeadRead(f: Format, unread: seq<byte>, link: nat, rs: seq<Record>, n: nat)
    requires |unread| == 16 && link < 0x1_0000_0000 && AllFit(rs)
    requires 24 <= n <= |Write(f, unread, link, rs)|
    ensures n - 24 <= |WriteRecords(rs, f.little)|
    ensures Packets(Write(f, unread, link, rs)[..n]) == Records(WriteRecords(rs, f.little)[..n - 24], f, link)
  {
    var magic, body := Bytes4(if f.nano then NANO else MICRO, f.little), WriteRecords(rs, f.little);
    var file := Write(f, unread, link, rs)[..n];
    MagicTells(f);
    HeadParts(magic, unread, Bytes4(link, f.little), body, n);
  }

  lemma {:induction false} HeadParts(magic: seq<byte>, unread: seq<byte>, link: seq<byte>, body: seq<byte>, n: nat)
    requires |magic| == |link| == 4 && |unread| == 16 && 24 <= n <= 24 + |body|
    ensures var file := (magic + unread + link + body)[..n];
            file[..4] == magic && file[20..24] == link && file[24..] == body[..n - 24]
  {
  }

  // ---------------------------------------------------------------- a file cut short

  /** The bytes that records take in a file. */
  function Size(rs: seq<Record>): nat {
    if rs == [] then 0 else 16 + |rs[0].data| + Size(rs[1..])
  }

  /** What is read of record k when `left` bytes of it are there: its packet, cut, once the header is whole. */
  function Rest(rs: seq<Record>, k: nat, left: nat, f: Format, link: nat): seq<Captured> {
    if k < |rs| && 16 <= left < 16 + |rs[k].data| then
      [Meant(rs[k], f, link).(frame := rs[k].data[..left - 16])]
    else
      []
  }

  /** The first k records, and no more, end within the first n bytes. */
  ghost predicate EndWithin(rs: seq<Record>, k: nat, n: nat) {
    k <= |rs| && Size(rs[..k]) <= n && (k < |rs| ==> n < Size(rs[..k]) + 16 + |rs[k].data|)
  }

  lemma {:induction false} SizeWritten(rs: seq<Record>, little: bool)
    requires AllFit(rs)
    ensures |WriteRecords(rs, little)| == Size(rs)
  {
    if rs != [] {
      SizeWritten(rs[1..], little);
    }
  }

  lemma {:induction false} CutInData<T>(a: seq<T>, b: seq<T>, c: seq<T>, n: nat)
    requires |a| <= n < |a| + |b|
    ensures (a + b + c)[..n] == a + b[..n - |a|] + []
    ensures b[..n - |a|] < b
  {
  }

  lemma {:induction false} CutLater<T>(a: seq<T>, b: seq<T>, c: seq<T>, n: nat)
    requires |a| + |b| <= n <= |a| + |b| + |c|
    ensures (a + b + c)[..n] == a + b + c[..n - |a| - |b|]
  {
  }

  lemma {:induction false} CutInside(r: Record, rest: seq<byte>, f: Format, link: nat, n: nat)
    requires Fits(r) && 16 <= n < 16 + |r.data|
    ensures Records((Header(r, f.little) + r.data + rest)[..n], f, link)
            == [Meant(r, f, link).(frame := r.data[..n - 16])]
  {
    var head := Header(r, f.little);
    CutInData(head, r.data, rest, n);
    OneRecord((head + r.data + rest)[..n], head, r.data[..n - 16], [], f, link);
  }

  /** What the first n bytes of the records give. */
  function Kept(rs: seq<Record>, n: nat, f: Format, link: nat): seq<Captured> {
    if rs == [] || n < 16 + |rs[0].data| then Rest(rs, 0, n, f, link)
    else [Meant(rs[0], f, link)] + Kept(rs[1..], n - 16 - |rs[0].data|, f, link)
  }

  lemma {:induction false} NoneWithin(rs: seq<Record>, n: nat, f: Format, link: nat)
    requires rs == [] || n < 16 + |rs[0].data|
    ensures EndWithin(rs, 0, n) && Kept(rs, n, f, link) == AllMeant(rs[..0], f, link) + Rest(rs, 0, n, f, link)
  {
    assert AllMeant(rs[..0], f, link) == [];
  }

  lemma {:induction false} OneMoreWithin(rs: seq<Record>, k: nat, n: nat)
    requires rs != [] && EndWithin(rs[1..], k, n)
    ensures k < |rs| && Size(rs[..k + 1]) == 16 + |rs[0].data| + Size(rs[1..][..k])
    ensures EndWithin(rs, k + 1, n + 16 + |rs[0].data|)
  {
    assert rs[..k + 1][1..] == rs[1..][..k];
  }

  lemma {:induction false} OneMoreKept(rs: seq<Record>, k: nat, left: nat, f: Format, link: nat)
    requires k < |rs|
    ensures AllMeant(rs[..k + 1], f, link) + Rest(rs, k + 1, left, f, link)
         == [Meant(rs[0], f, link)] + (AllMeant(rs[1..][..k], f, link) + Rest(rs[1..], k, left, f, link))
  {
    assert rs[..k + 1][1..] == rs[1..][..k];
    Associate([Meant(rs[0], f, link)], AllMeant(rs[1..][..k], f, link), Rest(rs[1..], k, left, f, link));
  }

  /** These are the records that end within the n bytes, and the rest of one more. */
  lemma {:induction false} KeptAre(rs: seq<Record>, n: nat, f: Format, link: nat) returns (k: nat)
    ensures EndWithin(rs, k, n)
    ensures Kept(rs, n, f, link) == AllMeant(rs[..k], f, link) + Rest(rs, k, n - Size(rs[..k]), f, link)
  {
    if rs == [] || n < 16 + |rs[0].data| {
      k := 0;
      NoneWithin(rs, n, f, link);
    } else {
      var m := n - 16 - |rs[0].data|;
      var k' := KeptAre(rs[1..], m, f, link);
      OneMoreWithin(rs, k', m);
      OneMoreKept(rs, k', m - Size(rs[1..][..k']), f, link);
      k := k' + 1;
    }
  }

  lemma {:induction false} CutLaterRecord(rs: seq<Record>, f: Format, link: nat, n: nat)
    requires AllFit(rs) && rs != [] && 16 + |rs[0].data| <= n <= |WriteRecords(rs, f.little)|
    ensures n - 16 - |rs[0].data| <= |WriteRecords(rs[1..], f.little)|
    ensures Records(WriteRecords(rs, f.little)[..n], f, link)
         == [Meant(rs[0], f, link)] + Records(WriteRecords(rs[1..], f.little)[..n - 16 - |rs[0].data|], f, link)
  {
    var head, data, rest := Header(rs[0], f.little), rs[0].data, WriteRecords(rs[1..], f.little);
    var m := n - 16 - |rs[0].data|;
    CutLater(head, data, rest, n);
    OneRecord(head + data + rest[..m], head, data, rest[..m], f, link);
  }

  lemma {:induction false} CutFirstRecord(rs: seq<Record>, f: Format, link: nat, n: nat)
    requires AllFit(rs) && n <= |WriteRecords(rs, f.little)| && (rs == [] || n < 16 + |rs[0].data|)
    ensures Records(WriteRecords(rs, f.little)[..n], f, link) == Rest(rs, 0, n, f, link)
  {
    if n >= 16 {
      CutInside(rs[0], WriteRecords(rs[1..], f.little), f, link, n);
    }
  }

  lemma {:induction false} CutRecords(rs: seq<Record>, f: Format, link: nat, n: nat)
    requires AllFit(rs) && n <= |WriteRecords(rs, f.little)|
    ensures Records(WriteRecords(rs, f.little)[..n], f, link) == Kept(rs, n, f, link)
  {
    if rs == [] || n < 16 + |rs[0].data| {
      CutFirstRecord(rs, f, link, n);
    } else {
      CutLaterRecord(rs, f, link, n);
      CutRecords(rs[1..], f, link, n - 16 - |rs[0].data|);
    }
  }

  lemma {:induction false} FileSize(f: Format, unread: seq<byte>, link: nat, rs: seq<Record>)
    requires |unread| == 16 && link < 0x1_0000_0000 && AllFit(rs)
    ensures |Write(f, unread, link, rs)| == 24 + Size(rs)
  {
    SizeWritten(rs, f.little);
  }

  lemma {:induction false} CutIsKept(f: Format, unread: seq<byte>, link: nat, rs: seq<Record>, n: nat)
    requires |unread| == 16 && link < 0x1_0000_0000 && AllFit(rs) && 24 <= n <= 24 + Size(rs)
    ensures n <= |Write(f, unread, link, rs)|
    ensures Packets(Write(f, unread, link, rs)[..n]) == Kept(rs, n - 24, f, link)
  {
    FileSize(f, unread, link, rs);
    HeadRead(f, unread, link, rs, n);
    CutRecords(rs, f, link, n - 24);
  }

  /**
    A file cut after n bytes gives the packet of every record that ends within them, and one more, its frame
    cut with the file, exactly when the cut leaves a record's header whole and its data not.
    */
  lemma {:induction false} CutFile(f: Format, unread: seq<byte>, link: nat, rs: seq<Record>, n: nat) returns (k: nat)
    requires |unread| == 16 && link < 0x1_0000_0000 && AllFit(rs) && 24 <= n <= 24 + Size(rs)
    ensures EndWithin(rs, k, n - 24)
    ensures n <= |Write(f, unread, link, rs)|
    ensures Packets(Write(f, unread, link, rs)[..n])
         == AllMeant(rs[..k], f, link) + Rest(rs, k, n - 24 - Size(rs[..k]), f, link)
  {
    var m := n - 24;
    k := KeptAre(rs, m, f, link);
    CutIsKept(f, unread, link, rs, n);
    var file := Write(f, unread, link, rs);
    assert Packets(file[..n]) == Kept(rs, m, f, link);
  }
}
