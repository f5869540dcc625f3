/** The capture file of `mstpcap`: what it writes while watching the bus and what it reads
    when it scans the file again. */
module Capture {
  import opened Octets
  import opened Crc
  import opened FrameHistory

  // ----- words as the file holds them, least significant octet first -----

  function Bytes32(w: Word): (s: seq<Octet>)
    ensures |s| == 4
  {
    [w % 0x100, w / 0x100 % 0x100, w / 0x1_0000 % 0x100, w / 0x100_0000]
  }

  function Word32(s: seq<Octet>): Word
    requires |s| >= 4
  {
    (s[0] as int) + 0x100 * (s[1] as int) + 0x1_0000 * (s[2] as int) + 0x100_0000 * (s[3] as int)
  }

  lemma Digits(w: Word)
    ensures w == w % 0x100 + 0x100 * (w / 0x100 % 0x100)
              + 0x1_0000 * (w / 0x1_0000 % 0x100) + 0x100_0000 * (w / 0x100_0000)
  {
    assert w / 0x1_0000 == w / 0x100 / 0x100 && w / 0x100_0000 == w / 0x100 / 0x100 / 0x100;
  }

  lemma Word32Back(w: Word, rest: seq<Octet>)
    ensures Word32(Bytes32(w) + rest) == w && (Bytes32(w) + rest)[4..] == rest
  {
    Digits(w);
  }

  function Bytes16(w: Net): (s: seq<Octet>)
    ensures |s| == 2
  {
    [w % 0x100, w / 0x100]
  }

  function Word16(s: seq<Octet>): Net
    requires |s| >= 2
  {
    (s[0] as int) + 0x100 * (s[1] as int)
  }

  /** The octets as the CRC functions take them. */
  function Bits(s: seq<Octet>): seq<bv8> {
    seq(|s|, i requires 0 <= i < |s| => s[i] as bv8)
  }

  // ----- the file header -----

  /** `write_global_header`. */
  const GLOBAL_HEADER: seq<Octet> :=
    Bytes32(0xa1b2c3d4) + (Bytes16(2) + (Bytes16(4) + (Bytes32(0) + (Bytes32(0) + (Bytes32(65535) + Bytes32(165))))))

  /** `test_global_header`: every field but the capture length must be the one written. */
  predicate HeaderMatches(s: seq<Octet>) {
    && |s| >= 24
    && Word32(s) == 0xa1b2c3d4 && Word16(s[4..]) == 2 && Word16(s[6..]) == 4
    && Word32(s[8..]) == 0 && Word32(s[12..]) == 0 && Word32(s[20..]) == 165
  }

  lemma GlobalHeaderMatches(rest: seq<Octet>)
    ensures HeaderMatches(GLOBAL_HEADER + rest) && |GLOBAL_HEADER| == 24
  {
    var s := GLOBAL_HEADER + rest;
    assert s[0] == 0xd4 && s[1] == 0xc3 && s[2] == 0xb2 && s[3] == 0xa1;
    assert s[4..][0] == 2 && s[4..][1] == 0 && s[6..][0] == 4 && s[6..][1] == 0;
    assert s[8..][0] == s[8..][1] == s[8..][2] == s[8..][3] == 0;
    assert s[12..][0] == s[12..][1] == s[12..][2] == s[12..][3] == 0;
    assert s[20..][0] == 165 && s[20..][1] == s[20..][2] == s[20..][3] == 0;
  }

  // ----- one frame -----

  /** The receiver's registers for one frame; `buffer` is the whole input buffer. */
  datatype Port = Port(kind: Octet, dst: Octet, src: Octet, length: Net, headerCrc: Octet,
                       buffer: seq<Octet>, crcMsb: Octet, crcLsb: Octet)
  {
    /** How many octets of data are saved. */
    function Saved(): nat {
      if length < |buffer| then length else |buffer|
    }

    function Data(): seq<Octet> {
      buffer[..Saved()]
    }

    function Header(): (s: seq<Octet>)
      ensures |s| == 8
    {
      [0x55, 0xff, kind, dst, src, length / 0x100, length % 0x100, headerCrc]
    }

    /** Octets of the frame as recorded: the header and, when there are data, the data and two CRC octets. */
    function Size(): Word {
      if length != 0 then 10 + Saved() else 8
    }

    function Tail(): seq<Octet> {
      if Saved() != 0 then Data() + [crcMsb, crcLsb] else []
    }
  }

  /** `write_received_packet`, for a valid frame. */
  function Record(at: Stamp, p: Port): seq<Octet> {
    Bytes32(at.sec % WORD) + (Bytes32(at.usec % WORD) +
      (Bytes32(p.Size()) + (Bytes32(p.Size()) + (p.Header() + p.Tail()))))
  }

  /** What the scanner makes of one record. */
  datatype Read = End | Got(frame: Frame, data: seq<Octet>, valid: bool, rest: seq<Octet>)

  /** `read_received_packet`. The length that counts is the record's, not the header's, and the CRC
      of the data, when there are any, decides alone. */
  function ReadRecord(s: seq<Octet>): (r: Read)
    ensures r.Got? ==> |r.rest| < |s|
  {
    if |s| < 24 then End
    else ReadBody(Stamp(Word32(s), Word32(s[4..])), Word32(s[12..]), s[16..24], s[24..])
  }

  function ReadBody(at: Stamp, size: Word, header: seq<Octet>, body: seq<Octet>): (r: Read)
    requires |header| == 8
    ensures r.Got? ==> |r.rest| <= |body|
  {
    var frame := Frame(at, header[2], header[3], header[4]);
    if size > 8 then
      var length := (size - 10) % 0x1_0000;
      if length == 0 || |body| < length + 2 then End
      else Got(frame, body[..length], DataPasses(Bits(body[..length + 2])), body[length + 2..])
    else Got(frame, [], HeaderPasses(Bits(header[2..])), body)
  }

  /** The frame passed both tests of the receiver. */
  predicate CrcValid(p: Port) {
    && HeaderPasses(Bits(p.Header()[2..]))
    && (p.length != 0 ==> DataPasses(Bits(p.Data() + [p.crcMsb, p.crcLsb])))
  }

  lemma Regroup(a: seq<Octet>, b: seq<Octet>, c: seq<Octet>, d: seq<Octet>,
                h: seq<Octet>, t: seq<Octet>, rest: seq<Octet>)
    ensures (a + (b + (c + (d + (h + t))))) + rest == a + (b + (c + (d + (h + (t + rest)))))
  {
  }

  /** Six fields one after the other, taken apart. */
  lemma Fields(a: seq<Octet>, b: seq<Octet>, c: seq<Octet>, d: seq<Octet>, h: seq<Octet>, t: seq<Octet>)
    requires |a| == |b| == |c| == |d| == 4 && |h| == 8
    ensures var s := a + (b + (c + (d + (h + t))));
            s[..4] == a && s[4..][..4] == b && s[12..][..4] == d && s[16..24] == h && s[24..] == t
  {
  }

  lemma WordFirst(s: seq<Octet>, w: Word)
    requires |s| >= 4 && s[..4] == Bytes32(w)
    ensures Word32(s) == w
  {
    Word32Back(w, s[4..]);
    assert s == Bytes32(w) + s[4..];
  }

  lemma RecordLayout(at: Stamp, p: Port, rest: seq<Octet>)
    ensures var s := Record(at, p) + rest;
            && |s| >= 24 && Word32(s) == at.sec % WORD && Word32(s[4..]) == at.usec % WORD
            && Word32(s[12..]) == p.Size() && s[16..24] == p.Header() && s[24..] == p.Tail() + rest
  {
    var s := Record(at, p) + rest;
    var a, b, c := Bytes32(at.sec % WORD), Bytes32(at.usec % WORD), Bytes32(p.Size());
    Regroup(a, b, c, c, p.Header(), p.Tail(), rest);
    Fields(a, b, c, c, p.Header(), p.Tail() + rest);
    WordFirst(s, at.sec % WORD);
    WordFirst(s[4..], at.usec % WORD);
    WordFirst(s[12..], p.Size());
  }

  lemma BodyRoundTrip(at: Stamp, p: Port, rest: seq<Octet>)
    requires CrcValid(p) && p.length <= |p.buffer|
    ensures ReadBody(at, p.Size(), p.Header(), p.Tail() + rest)
            == Got(Frame(at, p.kind, p.dst, p.src), p.Data(), true, rest)
  {
    var body := p.Tail() + rest;
    if p.length != 0 {
      var n := p.length;
      assert body == p.Data() + ([p.crcMsb, p.crcLsb] + rest);
      assert body[..n] == p.Data() && body[..n + 2] == p.Data() + [p.crcMsb, p.crcLsb] && body[n + 2..] == rest;
    } else {
      assert body == rest;
    }
  }

  /** What is read back of a valid frame whose data fit the buffer is the frame, its time to 32 bits,
      and the file goes on behind it. */
  lemma RecordRoundTrip(at: Stamp, p: Port, rest: seq<Octet>)
    requires CrcValid(p) && p.length <= |p.buffer|
    ensures ReadRecord(Record(at, p) + rest)
            == Got(Frame(Stamp(at.sec % WORD, at.usec % WORD), p.kind, p.dst, p.src), p.Data(), true, rest)
  {
    RecordLayout(at, p, rest);
    BodyRoundTrip(Stamp(at.sec % WORD, at.usec % WORD), p, rest);
  }

  /** The length read back is the frame's if and only if the data fitted the buffer. */
  lemma LengthRoundTrip(at: Stamp, p: Port, rest: seq<Octet>)
    ensures var r := ReadRecord(Record(at, p) + rest);
            r.Got? && |r.data| == p.length <==> p.length <= |p.buffer|
  {
    RecordLayout(at, p, rest);
    BodyLength(Stamp(at.sec % WORD, at.usec % WORD), p, rest);
  }

  lemma BodyLength(at: Stamp, p: Port, rest: seq<Octet>)
    ensures var r := ReadBody(at, p.Size(), p.Header(), p.Tail() + rest);
            r.Got? && |r.data| == p.length <==> p.length <= |p.buffer|
  {
  }

  // ----- the octets of the file -----

  /** The header of a capture: the magic number of the format, version 2.4, and link type 165 for MS/TP. */
  lemma GlobalHeaderOctets()
    ensures GLOBAL_HEADER == [0xd4, 0xc3, 0xb2, 0xa1, 2, 0, 4, 0] + [0, 0, 0, 0, 0, 0, 0, 0]
                             + [0xff, 0xff, 0, 0, 165, 0, 0, 0]
  {
  }

  lemma WordIs(s: seq<Octet>, w: Word)
    requires |s| >= 4
    ensures Word32(s) == w <==> s[..4] == Bytes32(w)
  {
    Digits(w);
    if Word32(s) == w {
      var hi := s[1] as int + 0x100 * (s[2] as int + 0x100 * (s[3] as int));
      assert w == 0x100 * hi + s[0];
      assert w % 0x100 == s[0] && w / 0x100 == hi;
      var top := s[2] as int + 0x100 * (s[3] as int);
      assert hi == 0x100 * top + s[1];
      assert hi % 0x100 == s[1] && hi / 0x100 == top && top % 0x100 == s[2] && top / 0x100 == s[3];
      assert w / 0x1_0000 == hi / 0x100 && w / 0x100_0000 == top / 0x100;
    } else if s[..4] == Bytes32(w) {
      WordFirst(s, w);
    }
  }

  lemma NetIs(s: seq<Octet>, w: Net)
    requires |s| >= 2
    ensures Word16(s) == w <==> s[..2] == Bytes16(w)
  {
  }

  /** The scanner accepts a file exactly when it begins as one that is written, whatever capture length it gives. */
  lemma HeaderAccepted(s: seq<Octet>)
    ensures HeaderMatches(s)
            <==> |s| >= 24 && s[..16] == GLOBAL_HEADER[..16] && s[20..24] == GLOBAL_HEADER[20..]
  {
    if |s| >= 24 {
      HeaderFields(s);
      HeaderFields(GLOBAL_HEADER);
      GlobalHeaderMatches([]);
      assert GLOBAL_HEADER + [] == GLOBAL_HEADER && GLOBAL_HEADER[20..] == GLOBAL_HEADER[20..24];
      SixParts(s);
      SixParts(GLOBAL_HEADER);
    }
  }

  lemma HeaderFields(s: seq<Octet>)
    requires |s| >= 24
    ensures HeaderMatches(s)
            <==> && s[..4] == Bytes32(0xa1b2c3d4) && s[4..6] == Bytes16(2) && s[6..8] == Bytes16(4)
                 && s[8..12] == Bytes32(0) && s[12..16] == Bytes32(0) && s[20..24] == Bytes32(165)
  {
    WordIs(s, 0xa1b2c3d4);
    NetIs(s[4..], 2);
    NetIs(s[6..], 4);
    WordIs(s[8..], 0);
    WordIs(s[12..], 0);
    WordIs(s[20..], 165);
    Window(s, 4, 2);
    Window(s, 6, 2);
    Window(s, 8, 4);
    Window(s, 12, 4);
    Window(s, 20, 4);
  }

  lemma SixParts(s: seq<Octet>)
    requires |s| >= 24
    ensures s[..16] == s[..4] + (s[4..6] + (s[6..8] + (s[8..12] + s[12..16])))
    ensures s[..16][..4] == s[..4] && s[..16][4..6] == s[4..6] && s[..16][6..8] == s[6..8]
    ensures s[..16][8..12] == s[8..12] && s[..16][12..16] == s[12..16]
  {
    Cut(s, 0, 4, 6);
    Cut(s, 0, 6, 8);
    Cut(s, 0, 8, 12);
    Cut(s, 0, 12, 16);
    var a, b, c, d, e := s[..4], s[4..6], s[6..8], s[8..12], s[12..16];
    Associate(a + b + c, d, e);
    Associate(a + b, c, d + e);
    Associate(a, b, c + (d + e));
  }

  lemma Cut<T>(s: seq<T>, i: nat, j: nat, k: nat)
    requires i <= j <= k <= |s|
    ensures s[i..k] == s[i..j] + s[j..k]
  {
  }

  lemma Window<T>(s: seq<T>, i: nat, n: nat)
    requires i + n <= |s|
    ensures s[i..][..n] == s[i..i + n]
  {
  }

  /** A number of 32 bits at some place, least significant octet first. */
  predicate NumberAt(s: seq<Octet>, at: nat, w: Word) {
    at + 4 <= |s| && Word32(s[at..]) == w
  }

  lemma NumberIs(s: seq<Octet>)
    requires |s| >= 4
    ensures Word32(s) == s[0] as int + 256 * (s[1] as int + 256 * (s[2] as int + 256 * s[3] as int))
  {
  }

  /** A record: the time, the size twice, and the frame as it was on the wire: preamble, header and, if there are
      data, the data and their check octets. */
  lemma RecordOctets(at: Stamp, p: Port)
    ensures var s := Record(at, p);
            && NumberAt(s, 0, at.sec % WORD) && NumberAt(s, 4, at.usec % WORD)
            && NumberAt(s, 8, p.Size()) && NumberAt(s, 12, p.Size())
            && s[16..] == [0x55, 0xff, p.kind, p.dst, p.src, p.length / 0x100, p.length % 0x100, p.headerCrc]
                          + if p.Saved() != 0 then p.buffer[..p.Saved()] + [p.crcMsb, p.crcLsb] else []
  {
    RecordLayout(at, p, []);
    var a, b, c := Bytes32(at.sec % WORD), Bytes32(at.usec % WORD), Bytes32(p.Size());
    var s, frame := Record(at, p), p.Header() + p.Tail();
    assert s + [] == s && s[0..] == s;
    assert s == a + (b + (c + (c + frame)));
    assert s[8..] == c + (c + frame) && s[16..] == frame;
    Word32Back(p.Size(), c + frame);
  }
}
