/** Capture files that are not as they were written: what the scanner takes for valid, and that damaged records are
    counted as such and kept out of the statistics. */
module DamagedCapture {
  import opened Octets
  import opened Wrappers
  import opened EightBits
  import opened Crc
  import opened FrameHistory
  import opened FrameStatistics
  import opened Capture
  import opened Replay
  import opened CaptureTool

  // ----- any record -----

  /** What is read of any octets: the frame, and it is valid if and only if the check octets are the ones computed:
      for a record of data those behind the data, whatever its header holds, for any other the one in the header. */
  lemma ValidWhen(s: seq<Octet>)
    requires ReadRecord(s).Got?
    ensures var r, size := ReadRecord(s), Word32(s[12..]);
            var n := |r.data|;
            && r.frame == Frame(Stamp(Word32(s), Word32(s[4..])), s[18], s[19], s[20])
            && (size <= 8 ==>
                 && r.data == [] && r.rest == s[24..]
                 && (r.valid <==> s[16..24][7] as bv8 == HeaderCheck(Bits(s[16..24][2..7]))))
            && (size > 8 ==>
                 && n == (size - 10) % 0x1_0000 && n + 26 <= |s| && r.data == s[24..][..n] && r.rest == s[24..][n + 2..]
                 && (r.valid <==> [s[24..][n] as bv8, s[24..][n + 1] as bv8] == DataCheck(Bits(r.data))))
  {
    if Word32(s[12..]) <= 8 {
      HeaderDecides(s[16..24]);
    } else {
      DataDecide(s[24..], |ReadRecord(s).data|);
    }
  }

  lemma BitsBehind(a: seq<Octet>, b: seq<Octet>)
    ensures Bits(a + b) == Bits(a) + Bits(b)
    ensures |b| == 1 ==> Bits(b) == [b[0] as bv8]
    ensures |b| == 2 ==> Bits(b) == [b[0] as bv8, b[1] as bv8]
  {
  }

  lemma HeaderDecides(header: seq<Octet>)
    requires |header| == 8
    ensures HeaderPasses(Bits(header[2..])) <==> header[7] as bv8 == HeaderCheck(Bits(header[2..7]))
  {
    BitsBehind(header[2..7], [header[7]]);
    assert header[2..] == header[2..7] + [header[7]];
    OnlyStamp(Bits(header[2..7]), header[7] as bv8, 0);
  }

  lemma DataDecide(body: seq<Octet>, n: nat)
    requires n + 2 <= |body|
    ensures DataPasses(Bits(body[..n + 2]))
            <==> [body[n] as bv8, body[n + 1] as bv8] == DataCheck(Bits(body[..n]))
  {
    BitsBehind(body[..n], [body[n], body[n + 1]]);
    assert body[..n + 2] == body[..n] + [body[n], body[n + 1]];
    OnlyStamp(Bits(body[..n]), body[n] as bv8, body[n + 1] as bv8);
  }

  /** Nothing is read, and the scan ends, when the octets end before the record does or the record says it has data
      but no octet of them. */
  lemma NothingWhen(s: seq<Octet>)
    ensures ReadRecord(s) == End
            <==> || |s| < 24
                 || (Word32(s[12..]) > 8
                     && ((Word32(s[12..]) - 10) % 0x1_0000 == 0 || |s| < 26 + (Word32(s[12..]) - 10) % 0x1_0000))
  {
  }

  // ----- damage -----

  /** Octets number `i` and `i + 1` of the data and their check octets are changed, or, of a frame without data, the
      header's octet number `i` behind the preamble. */
  datatype Damage = InData(i: nat, x: Octet, y: Octet) | InHeader(i: nat, x: Octet)

  datatype Kept = Kept(seen: Seen, damage: Option<Damage>) {
    /** The damage is within the record and changes it. */
    predicate Damaged() {
      && damage.Some?
      && match damage.value
         case InData(i, x, y) =>
           && seen.port.length != 0 && i + 1 < |seen.port.Tail()|
           && (x != seen.port.Tail()[i] || y != seen.port.Tail()[i + 1])
         case InHeader(i, x) => seen.port.length == 0 && i < 6 && x != seen.port.Header()[2 + i]
    }

    predicate Fair() {
      seen.Good() && (damage == None || Damaged())
    }
  }

  /** The record as it is in the file now. */
  function Stored(k: Kept): seq<Octet> {
    var r := Record(k.seen.at, k.seen.port);
    match k.damage
    case None => r
    case Some(InData(i, x, y)) => if 25 + i < |r| then r[24 + i := x][25 + i := y] else r
    case Some(InHeader(i, x)) => if 18 + i < |r| then r[18 + i := x] else r
  }

  lemma BitsUpdate(s: seq<Octet>, i: nat, x: Octet)
    requires i < |s|
    ensures Bits(s[i := x]) == Bits(s)[i := x as bv8]
  {
  }

  lemma SameBits(a: Octet, b: Octet)
    requires a as bv8 == b as bv8
    ensures a == b
  {
    BitsBack(a);
    BitsBack(b);
  }

  lemma OtherBits(a: Octet, b: Octet)
    requires a != b
    ensures a as bv8 != b as bv8
  {
    if a as bv8 == b as bv8 { SameBits(a, b); }
  }

  /** A record with such damage is read, to its end, as invalid. */
  lemma DamageIsFound(k: Kept, rest: seq<Octet>) returns (r: Read)
    requires k.seen.Good() && k.Damaged()
    ensures r == ReadRecord(Stored(k) + rest) && r.Got? && !r.valid && r.rest == rest
  {
    r := ReadRecord(Stored(k) + rest);
    match k.damage.value
    case InData(i, x, y) => DataDamageIsFound(k.seen.at, k.seen.port, i, x, y, rest);
    case InHeader(i, x) => HeaderDamageIsFound(k.seen.at, k.seen.port, i, x, rest);
  }

  lemma DataDamageIsFound(at: Stamp, p: Port, i: nat, x: Octet, y: Octet, rest: seq<Octet>)
    requires CrcValid(p) && p.length <= |p.buffer| && p.length != 0
    requires i + 1 < |p.Tail()| && (x != p.Tail()[i] || y != p.Tail()[i + 1])
    ensures |Record(at, p)| == 24 + |p.Tail()|
    ensures var r := ReadRecord(Record(at, p)[24 + i := x][25 + i := y] + rest); r.Got? && !r.valid && r.rest == rest
  {
    var tail := p.Tail()[i := x][i + 1 := y];
    DataPart(at, p, i, x, y, rest);
    TailFails(p.Tail(), i, x, y);
    BadTailRead(Stamp(at.sec % WORD, at.usec % WORD), p, tail, rest);
  }

  /** Data with wrong check octets behind them. */
  lemma TailFails(tail: seq<Octet>, i: nat, x: Octet, y: Octet)
    requires DataPasses(Bits(tail)) && i + 1 < |tail| && (x != tail[i] || y != tail[i + 1])
    ensures !DataPasses(Bits(tail[i := x][i + 1 := y]))
  {
    BitsUpdate(tail, i, x);
    BitsUpdate(tail[i := x], i + 1, y);
    if x != tail[i] { OtherBits(x, tail[i]); } else { OtherBits(y, tail[i + 1]); }
    DataErrorDetected(Bits(tail), i, x as bv8, y as bv8);
  }

  lemma BadTailRead(at: Stamp, p: Port, tail: seq<Octet>, rest: seq<Octet>)
    requires 0 < p.length <= |p.buffer| && |tail| == p.length + 2 && !DataPasses(Bits(tail))
    ensures ReadBody(at, p.Size(), p.Header(), tail + rest)
            == Got(Frame(at, p.kind, p.dst, p.src), tail[..p.length], false, rest)
  {
    var body, n := tail + rest, p.length;
    assert body[..n + 2] == tail && body[n + 2..] == rest && body[..n] == tail[..n];
  }

  /** The altered record, taken apart. */
  lemma DataPart(at: Stamp, p: Port, i: nat, x: Octet, y: Octet, rest: seq<Octet>)
    requires i + 1 < |p.Tail()|
    ensures |Record(at, p)| == 24 + |p.Tail()|
    ensures var s := Record(at, p)[24 + i := x][25 + i := y] + rest;
            && |s| >= 24 && Word32(s) == at.sec % WORD && Word32(s[4..]) == at.usec % WORD
            && Word32(s[12..]) == p.Size() && s[16..24] == p.Header()
            && s[24..] == p.Tail()[i := x][i + 1 := y] + rest
  {
    var r := Record(at, p);
    RecordLayout(at, p, []);
    assert r + [] == r && p.Tail() + [] == p.Tail();
    var s := r[24 + i := x][25 + i := y] + rest;
    assert s[..24] == r[..24];
    assert s[..4] == r[..4] && s[4..][..4] == r[4..][..4] && s[12..][..4] == r[12..][..4];
    assert s[16..24] == r[16..24];
    assert r[24..] == p.Tail();
  }

  lemma HeaderDamageIsFound(at: Stamp, p: Port, i: nat, x: Octet, rest: seq<Octet>)
    requires CrcValid(p) && p.length == 0 && i < 6 && x != p.Header()[2 + i]
    ensures |Record(at, p)| == 24
    ensures var r := ReadRecord(Record(at, p)[18 + i := x] + rest); r.Got? && !r.valid && r.rest == rest
  {
    var r := Record(at, p);
    RecordLayout(at, p, []);
    assert r + [] == r && p.Tail() + [] == p.Tail();
    var s := r[18 + i := x] + rest;
    assert s[12..][..4] == r[12..][..4] && s[24..] == rest;
    assert s[16..24][2..] == p.Header()[2..][i := x];
    BitsUpdate(p.Header()[2..], i, x);
    OtherBits(x, p.Header()[2 + i]);
    HeaderErrorDetected(Bits(p.Header()[2..]), i, x as bv8);
  }

  /** Not every error is found: the header of a frame with data is not looked at, and with another source in it the
      frame goes to another station's account. */
  lemma HeaderDamagePasses(at: Stamp, p: Port, x: Octet, rest: seq<Octet>)
    requires CrcValid(p) && 0 < p.length <= |p.buffer|
    ensures |Record(at, p)| > 20
    ensures ReadRecord(Record(at, p)[20 := x] + rest)
            == Got(Frame(Stamp(at.sec % WORD, at.usec % WORD), p.kind, p.dst, x), p.Data(), true, rest)
  {
    var r := Record(at, p);
    RecordLayout(at, p, []);
    assert r + [] == r && p.Tail() + [] == p.Tail();
    HeaderPart(r, x, rest);
    BodyRoundTrip(Stamp(at.sec % WORD, at.usec % WORD), p, rest);
  }

  lemma HeaderPart(r: seq<Octet>, x: Octet, rest: seq<Octet>)
    requires |r| >= 24
    ensures var s := r[20 := x] + rest;
            && Word32(s) == Word32(r) && Word32(s[4..]) == Word32(r[4..]) && Word32(s[12..]) == Word32(r[12..])
            && s[16..24] == r[16..24][4 := x] && s[24..] == r[24..] + rest
  {
  }

  // ----- whole files -----

  function StoredAll(ks: seq<Kept>): seq<Octet> {
    if ks == [] then [] else Stored(ks[0]) + StoredAll(ks[1..])
  }

  /** The frames whose records are as they were written. */
  function Intact(ks: seq<Kept>): (seen: seq<Seen>)
    ensures |seen| <= |ks|
  {
    if ks == [] then [] else (if ks[0].damage == None then [ks[0].seen] else []) + Intact(ks[1..])
  }

  lemma {:induction false} IntactGood(ks: seq<Kept>)
    requires forall i :: 0 <= i < |ks| ==> ks[i].Fair()
    ensures forall i :: 0 <= i < |Intact(ks)| ==> Intact(ks)[i].Good()
  {
    if ks != [] { IntactGood(ks[1..]); }
  }

  /** One record more: a valid frame, or an invalid one. */
  lemma OneKept(k: Kept, rest: seq<Octet>, found: Findings) returns (f: Frame)
    requires k.Fair()
    ensures k.damage == None ==> f == Wrapped(k.seen.Frame())
    ensures ScanFrom(Stored(k) + rest, found) == ScanFrom(rest, Noted(found, f, k.damage == None))
  {
    if k.damage == None {
      f := Wrapped(k.seen.Frame());
      OneRecord(k.seen, rest, found);
    } else {
      var r := DamageIsFound(k, rest);
      f := r.frame;
      ScanStep(Stored(k) + rest, found, r);
    }
  }

  /** In a file of which some records are damaged, and which may end within a record, the scan finds all records;
      exactly the damaged ones are invalid, and the frames of the others reach the statistics, in order. */
  lemma {:induction false} DamageIsCounted(ks: seq<Kept>, part: seq<Octet>, found: Findings)
    requires (forall i :: 0 <= i < |ks| ==> ks[i].Fair()) && ReadRecord(part) == End
    ensures ScanFrom(StoredAll(ks) + part, found) == Counted(ks, found).(rest := part)
    decreases |ks|
  {
    if ks == [] {
      assert StoredAll(ks) + part == part && found.frames + [] == found.frames;
    } else {
      Associate(Stored(ks[0]), StoredAll(ks[1..]), part);
      var f := OneKept(ks[0], StoredAll(ks[1..]) + part, found);
      var next := Noted(found, f, ks[0].damage == None);
      OneMoreKept(ks, found, f);
      DamageIsCounted(ks[1..], part, next);
    }
  }

  /** What a scan that has found so much is to end with. */
  function Counted(ks: seq<Kept>, found: Findings): Findings {
    Findings(found.frames + AllWrapped(Frames(Intact(ks))), found.packets + |ks|,
             found.invalid + (|ks| - |Intact(ks)|), [])
  }

  lemma OneMoreKept(ks: seq<Kept>, found: Findings, f: Frame)
    requires ks != [] && (ks[0].damage == None ==> f == Wrapped(ks[0].seen.Frame()))
    ensures Counted(ks, found) == Counted(ks[1..], Noted(found, f, ks[0].damage == None))
  {
    if ks[0].damage == None {
      IntactFirst(ks);
      Associate(found.frames, [Wrapped(ks[0].seen.Frame())], AllWrapped(Frames(Intact(ks[1..]))));
    } else {
      DamagedFirst(ks);
    }
  }

  lemma IntactFirst(ks: seq<Kept>)
    requires ks != [] && ks[0].damage == None
    ensures |Intact(ks)| == 1 + |Intact(ks[1..])|
    ensures AllWrapped(Frames(Intact(ks)))
            == [Wrapped(ks[0].seen.Frame())] + AllWrapped(Frames(Intact(ks[1..])))
  {
    var a, b := Intact(ks), Intact(ks[1..]);
    assert a == [ks[0].seen] + b;
    assert Frames(a) == [ks[0].seen.Frame()] + Frames(b);
  }

  lemma DamagedFirst(ks: seq<Kept>)
    requires ks != [] && ks[0].damage != None
    ensures Intact(ks) == Intact(ks[1..])
  {
    assert [] + Intact(ks[1..]) == Intact(ks[1..]);
  }

  /** So the tool ends with the counts of packets and of damaged ones, and every station with the statistics of the
      frames that are not damaged. */
  method ScanDamaged(ks: seq<Kept>) returns (packets: nat, invalid: nat, monitor: Monitor)
    requires forall i :: 0 <= i < |ks| ==> ks[i].Fair()
    ensures packets == |ks| && invalid == |ks| - |Intact(ks)|
    ensures monitor.Valid() && forall m: Octet :: monitor.nodes[m] == Declared(Frames(Intact(ks)), 0, m)
  {
    var file := GLOBAL_HEADER + StoredAll(ks);
    GlobalHeaderMatches(StoredAll(ks));
    assert file[24..] == StoredAll(ks);
    DamageIsCounted(ks, [], NOTHING_FOUND);
    assert StoredAll(ks) + [] == StoredAll(ks);
    assert [] + AllWrapped(Frames(Intact(ks))) == AllWrapped(Frames(Intact(ks)));
    var ok, rest;
    ok, packets, invalid, monitor, rest := Scan(file);
    IntactGood(ks);
    GoodTimes(Intact(ks));
    forall m: Octet ensures monitor.nodes[m] == Declared(Frames(Intact(ks)), 0, m) {
      DeclaredWraps(Frames(Intact(ks)), 0, m);
    }
  }

  // ----- files cut short -----

  lemma SizeIs(p: Port)
    requires p.Tail() != []
    ensures p.Size() > 8 && (p.Size() - 10) % 0x1_0000 == |p.Tail()| - 2
  {
  }

  lemma CutRecord(at: Stamp, p: Port, part: seq<Octet>)
    requires |part| < |Record(at, p)| && part == Record(at, p)[..|part|]
    ensures ReadRecord(part) == End
  {
    var r := Record(at, p);
    RecordLayout(at, p, []);
    assert r + [] == r && p.Tail() + [] == p.Tail();
    if |part| >= 24 {
      assert part[12..][..4] == r[12..][..4];
      SizeIs(p);
    }
    NothingWhen(part);
  }

  /** Of a file that ends within a record the scan finds all records before it, and stops there. */
  lemma CutFile(ks: seq<Kept>, at: Stamp, p: Port, part: seq<Octet>)
    requires forall i :: 0 <= i < |ks| ==> ks[i].Fair()
    requires |part| < |Record(at, p)| && part == Record(at, p)[..|part|]
    ensures ScanFrom(StoredAll(ks) + part, NOTHING_FOUND) == Counted(ks, NOTHING_FOUND).(rest := part)
  {
    CutRecord(at, p, part);
    DamageIsCounted(ks, part, NOTHING_FOUND);
  }
}
