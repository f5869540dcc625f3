/** Watching the bus and scanning the recorded file afterwards give the same statistics. */
module Replay {
  import opened Octets
  import opened FrameHistory
  import opened FrameStatistics
  import opened Capture

  /** A valid frame as it was received: when, and the receiver's registers. */
  datatype Seen = Seen(at: Stamp, port: Port) {
    function Frame(): Frame {
      FrameHistory.Frame.Frame(at, port.kind, port.dst, port.src)
    }

    /** A time as the clock gives it, both CRCs right, all data in the buffer. */
    predicate Good() {
      0 <= at.usec < 1_000_000 && CrcValid(port) && port.length <= |port.buffer|
    }
  }

  function Frames(seen: seq<Seen>): (h: seq<Frame>)
    ensures |h| == |seen| && forall i :: 0 <= i < |seen| ==> h[i] == seen[i].Frame()
  {
    seq(|seen|, i requires 0 <= i < |seen| => seen[i].Frame())
  }

  function Records(seen: seq<Seen>): (rs: seq<seq<Octet>>)
    ensures |rs| == |seen|
  {
    seq(|seen|, i requires 0 <= i < |seen| => Record(seen[i].at, seen[i].port))
  }

  function Flatten<T>(parts: seq<seq<T>>): seq<T> {
    if parts == [] then [] else parts[0] + Flatten(parts[1..])
  }

  /** The file behind its header. */
  function Recorded(seen: seq<Seen>): seq<Octet> {
    Flatten(Records(seen))
  }

  /** Times as the file holds them, to 32 bits. */
  function Wrapped(f: Frame): Frame {
    f.(at := Stamp(f.at.sec % WORD, f.at.usec % WORD))
  }

  function AllWrapped(h: seq<Frame>): (g: seq<Frame>)
    ensures |g| == |h| && forall i :: 0 <= i < |h| ==> g[i] == Wrapped(h[i])
  {
    seq(|h|, i requires 0 <= i < |h| => Wrapped(h[i]))
  }

  // ----- what a scan finds -----

  datatype Findings = Findings(frames: seq<Frame>, packets: nat, invalid: nat, rest: seq<Octet>)

  /** Reads records to the end of the file; only valid frames reach the statistics. */
  function ScanFrom(s: seq<Octet>, found: Findings): Findings
    decreases |s|
  {
    match ReadRecord(s)
    case End => found.(rest := s)
    case Got(f, _, valid, rest) => ScanFrom(rest, Noted(found, f, valid))
  }

  const NOTHING_FOUND: Findings := Findings([], 0, 0, [])

  lemma {:induction false} FlattenSnoc<T>(parts: seq<seq<T>>, last: seq<T>)
    ensures Flatten(parts + [last]) == Flatten(parts) + last
  {
    if parts == [] {
      assert [last][1..] == [] && last + [] == last;
    } else {
      FlattenSnoc(parts[1..], last);
      assert (parts + [last])[1..] == parts[1..] + [last];
      assert parts[0] + (Flatten(parts[1..]) + last) == (parts[0] + Flatten(parts[1..])) + last;
    }
  }

  lemma RecordedSnoc(seen: seq<Seen>, x: Seen)
    ensures Recorded(seen + [x]) == Recorded(seen) + Record(x.at, x.port)
    ensures Frames(seen + [x]) == Frames(seen) + [x.Frame()]
  {
    assert Records(seen + [x]) == Records(seen) + [Record(x.at, x.port)];
    FlattenSnoc(Records(seen), Record(x.at, x.port));
  }

  lemma RecordedHead(seen: seq<Seen>)
    requires seen != []
    ensures Recorded(seen) == Record(seen[0].at, seen[0].port) + Recorded(seen[1..])
    ensures AllWrapped(Frames(seen)) == [Wrapped(seen[0].Frame())] + AllWrapped(Frames(seen[1..]))
  {
    assert Records(seen)[1..] == Records(seen[1..]);
  }

  function Noted(found: Findings, f: Frame, valid: bool): Findings {
    Findings(if valid then found.frames + [f] else found.frames,
             found.packets + 1, if valid then found.invalid else found.invalid + 1, [])
  }

  lemma ScanStep(s: seq<Octet>, found: Findings, r: Read)
    requires r == ReadRecord(s) && r.Got?
    ensures ScanFrom(s, found) == ScanFrom(r.rest, Noted(found, r.frame, r.valid))
  {
  }

  /** One good record is read as its frame, and the scan goes on behind it. */
  lemma OneRecord(x: Seen, rest: seq<Octet>, found: Findings)
    requires x.Good()
    ensures ScanFrom(Record(x.at, x.port) + rest, found) == ScanFrom(rest, Noted(found, Wrapped(x.Frame()), true))
  {
    RecordRoundTrip(x.at, x.port, rest);
    ScanStep(Record(x.at, x.port) + rest, found, Got(Wrapped(x.Frame()), x.port.Data(), true, rest));
  }

  lemma NotedThen(found: Findings, f: Frame, h: seq<Frame>)
    ensures var n := Noted(found, f, true);
            Findings(n.frames + h, n.packets + |h|, n.invalid, [])
            == Findings(found.frames + ([f] + h), found.packets + |[f] + h|, found.invalid, [])
  {
    assert found.frames + [f] + h == found.frames + ([f] + h);
  }

  /** A recorded capture scans back to the frames that were seen, in order, all valid, with
      nothing left over. */
  lemma {:induction false} ScanFindsAll(seen: seq<Seen>, found: Findings)
    requires forall i :: 0 <= i < |seen| ==> seen[i].Good()
    ensures ScanFrom(Recorded(seen), found)
            == Findings(found.frames + AllWrapped(Frames(seen)), found.packets + |seen|, found.invalid, [])
    decreases |seen|
  {
    if seen == [] {
      assert Recorded(seen) == [];
      assert found.frames + [] == found.frames;
    } else {
      var f := Wrapped(seen[0].Frame());
      RecordedHead(seen);
      OneRecord(seen[0], Recorded(seen[1..]), found);
      ScanFindsAll(seen[1..], Noted(found, f, true));
      NotedThen(found, f, AllWrapped(Frames(seen[1..])));
    }
  }

  // ----- the statistics do not notice the 32-bit times -----

  /** A difference of seconds, to 32 bits, is that of the seconds to 32 bits. */
  lemma SecondsWrap(a: int, b: int, t: int)
    ensures ((b % WORD - a % WORD) * 1000 + t) % WORD == ((b - a) * 1000 + t) % WORD
  {
    var q := (b / WORD - a / WORD) * 1000;
    assert b == b / WORD * WORD + b % WORD && a == a / WORD * WORD + a % WORD;
    ModPlusMultiple((b % WORD - a % WORD) * 1000 + t, q);
  }

  lemma DeltaWraps(a: Stamp, b: Stamp)
    requires 0 <= a.usec < WORD && 0 <= b.usec < WORD
    ensures Delta(Stamp(a.sec % WORD, a.usec % WORD), Stamp(b.sec % WORD, b.usec % WORD)) == Delta(a, b)
  {
    SecondsWrap(a.sec, b.sec, Truncated(b.usec - a.usec, 1000));
  }

  ghost predicate ClockTimes(h: seq<Frame>) {
    forall i :: 0 <= i < |h| ==> 0 <= h[i].at.usec < 1_000_000
  }

  lemma {:induction false} HolderWraps(h: seq<Frame>)
    ensures TokenHolder(AllWrapped(h)) == TokenHolder(h)
    decreases |h|
  {
    if h != [] {
      assert AllWrapped(h)[..|h| - 1] == AllWrapped(h[..|h| - 1]);
      HolderWraps(h[..|h| - 1]);
    }
  }

  lemma LastWraps(h: seq<Frame>, m: Octet)
    requires h != [] && ClockTimes(h)
    ensures forall e :: Occurs(e, AllWrapped(h), m) == Occurs(e, h, m)
    ensures forall d :: Ends(d, AllWrapped(h), m) == Ends(d, h, m)
    ensures LastDelta(AllWrapped(h)) == LastDelta(h)
  {
    var g := AllWrapped(h);
    assert g[..|h| - 1] == AllWrapped(h[..|h| - 1]);
    HolderWraps(h[..|h| - 1]);
    DeltaWraps(Before(h).at, h[|h| - 1].at);
    assert Before(g) == if |h| == 1 then Before(h) else Wrapped(Before(h));
  }

  lemma {:induction false} CountWraps(e: Event, h: seq<Frame>, from: nat, m: Octet)
    requires ClockTimes(h)
    ensures Count(e, AllWrapped(h), from, m) == Count(e, h, from, m)
    decreases |h|
  {
    if |h| > from {
      LastWraps(h, m);
      assert AllWrapped(h)[..|h| - 1] == AllWrapped(h[..|h| - 1]);
      CountWraps(e, h[..|h| - 1], from, m);
    }
  }

  lemma {:induction false} LongestWraps(d: Delay, h: seq<Frame>, from: nat, m: Octet)
    requires ClockTimes(h)
    ensures Longest(d, AllWrapped(h), from, m) == Longest(d, h, from, m)
    decreases |h|
  {
    if |h| > from {
      LastWraps(h, m);
      assert AllWrapped(h)[..|h| - 1] == AllWrapped(h[..|h| - 1]);
      LongestWraps(d, h[..|h| - 1], from, m);
    }
  }

  lemma {:induction false} PollsWrap(h: seq<Frame>, from: nat, m: Octet)
    requires ClockTimes(h)
    ensures HighestPolled(AllWrapped(h), from, m) == HighestPolled(h, from, m)
    ensures TokensAtPoll(AllWrapped(h), from, m) == TokensAtPoll(h, from, m)
    ensures MostTokens(AllWrapped(h), from, m) == MostTokens(h, from, m)
    decreases |h|
  {
    if |h| > from {
      LastWraps(h, m);
      CountWraps(GotToken, h, from, m);
      assert AllWrapped(h)[..|h| - 1] == AllWrapped(h[..|h| - 1]);
      PollsWrap(h[..|h| - 1], from, m);
    }
  }

  lemma DeclaredWraps(h: seq<Frame>, from: nat, m: Octet)
    requires ClockTimes(h)
    ensures Declared(AllWrapped(h), from, m) == Declared(h, from, m)
  {
    forall e ensures Count(e, AllWrapped(h), from, m) == Count(e, h, from, m) { CountWraps(e, h, from, m); }
    forall d ensures Longest(d, AllWrapped(h), from, m) == Longest(d, h, from, m) { LongestWraps(d, h, from, m); }
    PollsWrap(h, from, m);
  }

  lemma GoodTimes(seen: seq<Seen>)
    requires forall i :: 0 <= i < |seen| ==> seen[i].Good()
    ensures ClockTimes(Frames(seen))
  {
  }

  /** Replay: scanning the first file of a capture accepts it, finds every packet and no invalid one,
      leaves nothing over, and ends with exactly the statistics the capture showed. */
  lemma ReplayEquivalence(seen: seq<Seen>, m: Octet)
    requires forall i :: 0 <= i < |seen| ==> seen[i].Good()
    ensures var file := GLOBAL_HEADER + Recorded(seen);
            && HeaderMatches(file)
            && var found := ScanFrom(file[24..], NOTHING_FOUND);
               && found.packets == |seen| && found.invalid == 0 && found.rest == []
               && found.frames == AllWrapped(Frames(seen))
               && Declared(found.frames, 0, m) == Declared(Frames(seen), 0, m)
  {
    var file := GLOBAL_HEADER + Recorded(seen);
    GlobalHeaderMatches(Recorded(seen));
    assert file[24..] == Recorded(seen);
    ScanFindsAll(seen, NOTHING_FOUND);
    assert [] + AllWrapped(Frames(seen)) == AllWrapped(Frames(seen));
    GoodTimes(seen);
    DeclaredWraps(Frames(seen), 0, m);
  }
}
