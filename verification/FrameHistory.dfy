/** What the MS/TP statistics mean: counts and maxima over a whole history of frames. */
module FrameHistory {
  import opened Octets

  /** A time stamp, in seconds and microseconds. */
  datatype Stamp = Stamp(sec: int, usec: int)

  datatype Frame = Frame(at: Stamp, kind: Octet, dst: Octet, src: Octet)

  const TOKEN: Octet := 0
  const POLL_FOR_MASTER: Octet := 1
  const REPLY_TO_POLL: Octet := 2
  const TEST_REQUEST: Octet := 3
  const TEST_RESPONSE: Octet := 4
  const DATA_EXPECTING_REPLY: Octet := 5
  const DATA_NOT_EXPECTING_REPLY: Octet := 6
  const REPLY_POSTPONED: Octet := 7

  /** C's division, which truncates toward zero. */
  function Truncated(a: int, b: int): int
    requires b > 0
  {
    if a >= 0 then a / b else -((-a) / b)
  }

  /** `timeval_diff_ms`. */
  function Delta(old_: Stamp, now: Stamp): Word {
    ((now.sec - old_.sec) * 1000 + Truncated(now.usec - old_.usec, 1000)) % WORD
  }

  /** The frame before the last one of a history; before the first there is a frame of no kind. */
  function Before(h: seq<Frame>): Frame
    requires h != []
  {
    Latest(h[..|h| - 1])
  }

  function Latest(h: seq<Frame>): Frame {
    if h == [] then Frame(Stamp(0, 0), 255, 255, 255) else h[|h| - 1]
  }

  /** The station the most recent token was passed to; 255 when there has been none. */
  function TokenHolder(h: seq<Frame>): Octet {
    if h == [] then 255
    else if h[|h| - 1].kind == TOKEN then h[|h| - 1].dst
    else TokenHolder(h[..|h| - 1])
  }

  /** Things a station can be seen doing in a frame, given the frames before it. */
  datatype Event =
    | SentToken | GotToken | SentTokenToSelf | GotTokenAgain | SentTokenOutOfOrder
    | Polled | AnsweredPoll | SentTest | AnsweredTest | SentData | SentDataExpectingReply | Postponed

  /** The last frame of `h` shows station `m` doing `e`. */
  predicate Occurs(e: Event, h: seq<Frame>, m: Octet)
    requires h != []
  {
    var f, p := h[|h| - 1], Before(h);
    match e
    case SentToken => f.kind == TOKEN && f.src == m
    case GotToken => f.kind == TOKEN && f.dst == m
    case SentTokenToSelf => f.kind == TOKEN && f.src == f.dst == m
    case GotTokenAgain => f.kind == TOKEN == p.kind && f.dst == p.dst == m && f.src == p.src
    case SentTokenOutOfOrder => f.kind == TOKEN && f.src == m && TokenHolder(h[..|h| - 1]) != m
    case Polled => f.kind == POLL_FOR_MASTER && f.src == m
    case AnsweredPoll => f.kind == REPLY_TO_POLL && f.src == m
    case SentTest => f.kind == TEST_REQUEST && f.src == m
    case AnsweredTest => f.kind == TEST_RESPONSE && f.src == m
    case SentDataExpectingReply => f.kind == DATA_EXPECTING_REPLY && f.src == m
    case SentData => f.kind == DATA_NOT_EXPECTING_REPLY && f.src == m
    case Postponed => f.kind == REPLY_POSTPONED && f.src == m
  }

  /** How often station `m` did `e` since frame `from`. */
  function Count(e: Event, h: seq<Frame>, from: nat, m: Octet): nat
    decreases |h|
  {
    if |h| <= from then 0
    else Count(e, h[..|h| - 1], from, m) + if Occurs(e, h, m) then 1 else 0
  }

  /** Delays that are measured between a frame and the one just before it. */
  datatype Delay = Usage | TokenReply | PollReply | DataReply | PostponeReply

  /** The last frame of `h` ends a delay `d` of station `m`. */
  predicate Ends(d: Delay, h: seq<Frame>, m: Octet)
    requires h != []
  {
    var f, p := h[|h| - 1], Before(h);
    f.src == m &&
    match d
    case Usage =>
      || (f.kind == TOKEN == p.kind && f.dst == p.dst && p.src == m)
      || ((f.kind == TOKEN || f.kind == POLL_FOR_MASTER) && p.kind == POLL_FOR_MASTER && p.src == m)
    case TokenReply => f.kind == TOKEN == p.kind && !(f.dst == p.dst && p.src == m) && p.dst == m
    case PollReply => f.kind == REPLY_TO_POLL && p.kind == POLL_FOR_MASTER
    case DataReply => f.kind == DATA_NOT_EXPECTING_REPLY && p.kind == DATA_EXPECTING_REPLY && p.dst == m
    case PostponeReply => f.kind == REPLY_POSTPONED && p.kind == DATA_EXPECTING_REPLY && p.dst == m
  }

  function Max(a: int, b: int): int {
    if a >= b then a else b
  }

  function LastDelta(h: seq<Frame>): Word
    requires h != []
  {
    Delta(Before(h).at, h[|h| - 1].at)
  }

  /** The longest delay `d` of station `m` that ended since frame `from`; 0 when none did. */
  function Longest(d: Delay, h: seq<Frame>, from: nat, m: Octet): Word
    decreases |h|
  {
    if |h| <= from then 0
    else
      var w := Longest(d, h[..|h| - 1], from, m);
      if Ends(d, h, m) && LastDelta(h) > w then LastDelta(h) else w
  }

  /** The highest station that `m` polled since frame `from`. */
  function HighestPolled(h: seq<Frame>, from: nat, m: Octet): Octet
    decreases |h|
  {
    if |h| <= from then 0
    else
      var w := HighestPolled(h[..|h| - 1], from, m);
      if Occurs(Polled, h, m) && h[|h| - 1].dst > w then h[|h| - 1].dst else w
  }

  /** The received-token counter of `m` as it stood at its last poll, 0 before any. */
  function TokensAtPoll(h: seq<Frame>, from: nat, m: Octet): Word
    decreases |h|
  {
    if |h| <= from then 0
    else if Occurs(Polled, h, m) then Count(GotToken, h, from, m) % WORD
    else TokensAtPoll(h[..|h| - 1], from, m)
  }

  /** The most tokens received between one poll of `m` and its next. */
  function MostTokens(h: seq<Frame>, from: nat, m: Octet): Word
    decreases |h|
  {
    if |h| <= from then 0
    else
      var w := MostTokens(h[..|h| - 1], from, m);
      var last := TokensAtPoll(h[..|h| - 1], from, m);
      var n := (Count(GotToken, h, from, m) - last) % WORD;
      if Occurs(Polled, h, m) && last != 0 && n > w then n else w
  }

  // ----- what the recursive definitions say of all positions at once -----

  /** Frame number `i` of the history shows station `m` doing `e`. */
  predicate OccursAt(e: Event, h: seq<Frame>, i: nat, m: Octet) {
    i < |h| && Occurs(e, h[..i + 1], m)
  }

  /** Frame number `i` ends a delay `d` of station `m`, of `DeltaAt(h, i)`. */
  predicate EndsAt(d: Delay, h: seq<Frame>, i: nat, m: Octet) {
    i < |h| && Ends(d, h[..i + 1], m)
  }

  function DeltaAt(h: seq<Frame>, i: nat): Word {
    if i < |h| then LastDelta(h[..i + 1]) else 0
  }

  lemma AtFront(h: seq<Frame>, i: nat)
    requires i + 1 < |h|
    ensures forall e, m :: OccursAt(e, h, i, m) <==> OccursAt(e, h[..|h| - 1], i, m)
    ensures forall d, m :: EndsAt(d, h, i, m) <==> EndsAt(d, h[..|h| - 1], i, m)
    ensures DeltaAt(h, i) == DeltaAt(h[..|h| - 1], i)
  {
    assert h[..|h| - 1][..i + 1] == h[..i + 1];
  }

  lemma AtEnd(h: seq<Frame>)
    requires h != []
    ensures forall e, m :: OccursAt(e, h, |h| - 1, m) <==> Occurs(e, h, m)
    ensures forall d, m :: EndsAt(d, h, |h| - 1, m) <==> Ends(d, h, m)
    ensures DeltaAt(h, |h| - 1) == LastDelta(h)
  {
    assert h[..|h|] == h;
  }

  /** The frames, from number `from`, at which station `m` did `e`. */
  ghost function Positions(e: Event, h: seq<Frame>, from: nat, m: Octet): set<nat> {
    set i: nat | from <= i < |h| && OccursAt(e, h, i, m)
  }

  lemma PositionsStep(e: Event, h: seq<Frame>, from: nat, m: Octet)
    requires |h| > from
    ensures Positions(e, h, from, m)
            == Positions(e, h[..|h| - 1], from, m) + if OccursAt(e, h, |h| - 1, m) then {|h| - 1} else {}
    ensures OccursAt(e, h, |h| - 1, m) <==> Occurs(e, h, m)
  {
    AtEnd(h);
    forall i: nat | i < |h| - 1 ensures OccursAt(e, h, i, m) <==> OccursAt(e, h[..|h| - 1], i, m) { AtFront(h, i); }
  }

  /** `Count` is the number of frames that show the event. */
  lemma {:induction false} CountIsCardinality(e: Event, h: seq<Frame>, from: nat, m: Octet)
    ensures Count(e, h, from, m) == |Positions(e, h, from, m)|
    decreases |h|
  {
    if |h| <= from {
      assert Positions(e, h, from, m) == {};
    } else {
      var n := |h| - 1;
      CountIsCardinality(e, h[..n], from, m);
      var before := Positions(e, h[..n], from, m);
      PositionsStep(e, h, from, m);
      assert n !in before;
    }
  }

  /** `Longest` bounds every such delay and, unless it is 0, is one of them. */
  lemma {:induction false} LongestIsMaximum(d: Delay, h: seq<Frame>, from: nat, m: Octet)
    ensures forall i: nat :: from <= i && EndsAt(d, h, i, m) ==> DeltaAt(h, i) <= Longest(d, h, from, m)
    ensures Longest(d, h, from, m) == 0
            || exists i: nat :: from <= i && EndsAt(d, h, i, m) && DeltaAt(h, i) == Longest(d, h, from, m)
    decreases |h|
  {
    if |h| > from {
      var n := |h| - 1;
      LongestIsMaximum(d, h[..n], from, m);
      AtEnd(h);
      forall i: nat | i < n
        ensures (EndsAt(d, h, i, m) <==> EndsAt(d, h[..n], i, m)) && DeltaAt(h, i) == DeltaAt(h[..n], i)
      {
        AtFront(h, i);
      }
      if Longest(d, h, from, m) != 0 && Longest(d, h, from, m) == Longest(d, h[..n], from, m) {
        var i: nat :| from <= i && EndsAt(d, h[..n], i, m) && DeltaAt(h[..n], i) == Longest(d, h[..n], from, m);
        assert EndsAt(d, h, i, m);
      } else if Longest(d, h, from, m) != 0 {
        assert EndsAt(d, h, n, m);
      }
    }
  }

  /** `HighestPolled` bounds every station polled and, unless it is 0, is one of them. */
  lemma {:induction false} HighestPolledIsMaximum(h: seq<Frame>, from: nat, m: Octet)
    ensures forall i: nat :: from <= i && OccursAt(Polled, h, i, m) ==> h[i].dst <= HighestPolled(h, from, m)
    ensures HighestPolled(h, from, m) == 0
            || exists i: nat :: from <= i && OccursAt(Polled, h, i, m) && h[i].dst == HighestPolled(h, from, m)
    decreases |h|
  {
    if |h| > from {
      var n := |h| - 1;
      HighestPolledIsMaximum(h[..n], from, m);
      AtEnd(h);
      forall i: nat | i < n ensures OccursAt(Polled, h, i, m) <==> OccursAt(Polled, h[..n], i, m) { AtFront(h, i); }
      if HighestPolled(h, from, m) != 0 && HighestPolled(h, from, m) == HighestPolled(h[..n], from, m) {
        var i: nat :| from <= i && OccursAt(Polled, h[..n], i, m) && h[..n][i].dst == HighestPolled(h[..n], from, m);
        assert OccursAt(Polled, h, i, m);
      } else if HighestPolled(h, from, m) != 0 {
        assert OccursAt(Polled, h, n, m);
      }
    }
  }

  /** Between frame `i`, a poll of `m` after which its counter is not 0, and frame `j`, its next poll. */
  ghost predicate NextPolls(h: seq<Frame>, from: nat, m: Octet, i: nat, j: nat) {
    && from <= i < j && OccursAt(Polled, h, i, m) && OccursAt(Polled, h, j, m)
    && Count(GotToken, h[..i + 1], from, m) % WORD != 0
    && forall k: nat :: i < k < j ==> !OccursAt(Polled, h, k, m)
  }

  /** The tokens `m` received between frames `i` and `j`, as a 32-bit count. */
  ghost function TokensBetween(h: seq<Frame>, from: nat, m: Octet, i: nat, j: nat): Word
    requires i < |h| && j < |h|
  {
    (Count(GotToken, h[..j + 1], from, m) - Count(GotToken, h[..i + 1], from, m)) % WORD
  }

  lemma {:induction false} TokensAtPollIs(h: seq<Frame>, from: nat, m: Octet)
    ensures || (TokensAtPoll(h, from, m) == 0 && forall k: nat :: from <= k ==> !OccursAt(Polled, h, k, m))
            || (exists i: nat ::
                  && from <= i && OccursAt(Polled, h, i, m)
                  && TokensAtPoll(h, from, m) == Count(GotToken, h[..i + 1], from, m) % WORD
                  && forall k: nat :: i < k ==> !OccursAt(Polled, h, k, m))
    decreases |h|
  {
    if |h| > from {
      var n := |h| - 1;
      AtEnd(h);
      if Occurs(Polled, h, m) {
        assert h[..n + 1] == h && OccursAt(Polled, h, n, m);
      } else {
        TokensAtPollIs(h[..n], from, m);
        forall i: nat | i < n ensures OccursAt(Polled, h, i, m) <==> OccursAt(Polled, h[..n], i, m) { AtFront(h, i); }
        if i: nat :| from <= i && OccursAt(Polled, h[..n], i, m)
                     && TokensAtPoll(h[..n], from, m) == Count(GotToken, h[..n][..i + 1], from, m) % WORD
                     && forall k: nat :: i < k ==> !OccursAt(Polled, h[..n], k, m) {
          assert h[..n][..i + 1] == h[..i + 1];
          assert OccursAt(Polled, h, i, m);
        }
      }
    }
  }

  lemma ModDifference(a: int, b: int)
    ensures (a - b % WORD) % WORD == (a - b) % WORD
  {
    var q := b / WORD;
    assert b == q * WORD + b % WORD;
    assert a - b % WORD == (a - b) + q * WORD;
    ModPlusMultiple(a - b, q);
  }

  lemma ModPlusMultiple(a: int, q: int)
    ensures (a + q * WORD) % WORD == a % WORD
  {
    var r, k := a % WORD, a / WORD;
    assert a + q * WORD == (k + q) * WORD + r;
  }

  lemma NextPollsInFront(h: seq<Frame>, from: nat, m: Octet, i: nat, j: nat)
    requires j + 1 < |h|
    ensures NextPolls(h, from, m, i, j) <==> NextPolls(h[..|h| - 1], from, m, i, j)
    ensures i < j ==> TokensBetween(h, from, m, i, j) == TokensBetween(h[..|h| - 1], from, m, i, j)
  {
    var g := h[..|h| - 1];
    if i < j {
      assert g[..i + 1] == h[..i + 1] && g[..j + 1] == h[..j + 1];
      forall k: nat | k <= j ensures OccursAt(Polled, h, k, m) <==> OccursAt(Polled, g, k, m) { AtFront(h, k); }
    }
  }

  /** Seen from frame `j`, its next poll, the counter at the poll in frame `i` is the one remembered. */
  lemma RememberedAt(h: seq<Frame>, from: nat, m: Octet, i: nat)
    requires from < |h| && NextPolls(h, from, m, i, |h| - 1)
    ensures TokensAtPoll(h[..|h| - 1], from, m) == Count(GotToken, h[..i + 1], from, m) % WORD
  {
    var g := h[..|h| - 1];
    TokensAtPollIs(g, from, m);
    forall k: nat | k < |g| ensures OccursAt(Polled, h, k, m) <==> OccursAt(Polled, g, k, m) { AtFront(h, k); }
    assert g[..i + 1] == h[..i + 1];
    assert OccursAt(Polled, g, i, m);
    var k: nat :| from <= k && OccursAt(Polled, g, k, m)
                  && TokensAtPoll(g, from, m) == Count(GotToken, g[..k + 1], from, m) % WORD
                  && forall l: nat :: k < l ==> !OccursAt(Polled, g, l, m);
    assert k == i;
  }

  /** A poll raises `MostTokens` to the tokens since the counter remembered. */
  lemma MostTokensAtPoll(h: seq<Frame>, from: nat, m: Octet)
    requires from < |h| && Occurs(Polled, h, m) && TokensAtPoll(h[..|h| - 1], from, m) != 0
    ensures MostTokens(h, from, m)
            == Max(MostTokens(h[..|h| - 1], from, m),
                   (Count(GotToken, h, from, m) - TokensAtPoll(h[..|h| - 1], from, m)) % WORD)
  {
  }

  /** What the last frame adds to `MostTokens`: the tokens since the previous poll, if it is a poll. */
  lemma MostTokensStep(h: seq<Frame>, from: nat, m: Octet, i: nat)
    requires from < |h| && NextPolls(h, from, m, i, |h| - 1)
    ensures MostTokens(h, from, m)
            == Max(MostTokens(h[..|h| - 1], from, m), TokensBetween(h, from, m, i, |h| - 1))
  {
    AtEnd(h);
    RememberedAt(h, from, m, i);
    MostTokensAtPoll(h, from, m);
    assert h[..|h| - 1 + 1] == h;
    ModDifference(Count(GotToken, h, from, m), Count(GotToken, h[..i + 1], from, m));
  }

  lemma PollEndsInterval(h: seq<Frame>, from: nat, m: Octet, n: nat) returns (i: nat)
    requires from < |h| && n == |h| - 1 && Occurs(Polled, h, m) && TokensAtPoll(h[..n], from, m) != 0
    ensures NextPolls(h, from, m, i, n)
  {
    var g := h[..n];
    AtEnd(h);
    TokensAtPollIs(g, from, m);
    forall k: nat | k < n ensures OccursAt(Polled, h, k, m) <==> OccursAt(Polled, g, k, m) { AtFront(h, k); }
    i :| from <= i && OccursAt(Polled, g, i, m)
         && TokensAtPoll(g, from, m) == Count(GotToken, g[..i + 1], from, m) % WORD
         && forall l: nat :: i < l ==> !OccursAt(Polled, g, l, m);
    assert g[..i + 1] == h[..i + 1];
  }

  /** `MostTokens` bounds the tokens between every poll of a station and its next one and, unless it
      is 0, is attained; a poll at which the counter stood at 0 starts no interval. */
  lemma {:induction false} MostTokensIsMaximum(h: seq<Frame>, from: nat, m: Octet)
    ensures forall i, j :: NextPolls(h, from, m, i, j) ==> TokensBetween(h, from, m, i, j) <= MostTokens(h, from, m)
    ensures MostTokens(h, from, m) == 0
            || exists i, j :: NextPolls(h, from, m, i, j) && TokensBetween(h, from, m, i, j) == MostTokens(h, from, m)
    decreases |h|
  {
    if |h| > from {
      var n := |h| - 1;
      MostTokensIsMaximum(h[..n], from, m);
      forall i: nat, j: nat | j < n
        ensures NextPolls(h, from, m, i, j) <==> NextPolls(h[..n], from, m, i, j)
        ensures i < j ==> TokensBetween(h, from, m, i, j) == TokensBetween(h[..n], from, m, i, j)
      {
        NextPollsInFront(h, from, m, i, j);
      }
      forall i: nat | NextPolls(h, from, m, i, n)
        ensures Occurs(Polled, h, m) && TokensAtPoll(h[..n], from, m) != 0
        ensures TokensBetween(h, from, m, i, n) <= MostTokens(h, from, m)
      {
        AtEnd(h);
        RememberedAt(h, from, m, i);
        MostTokensStep(h, from, m, i);
      }
      if Occurs(Polled, h, m) && TokensAtPoll(h[..n], from, m) != 0 {
        var i := PollEndsInterval(h, from, m, n);
        MostTokensStep(h, from, m, i);
      }
      if MostTokens(h, from, m) != 0 && MostTokens(h, from, m) == MostTokens(h[..n], from, m) {
        var i, j :| NextPolls(h[..n], from, m, i, j)
                    && TokensBetween(h[..n], from, m, i, j) == MostTokens(h[..n], from, m);
        assert NextPolls(h, from, m, i, j);
      }
    }
  }

  // ----- what is timed -----

  /** Microseconds since the clock's zero. */
  function Micros(t: Stamp): int {
    t.sec * 1_000_000 + t.usec
  }

  /** Between two times of the clock, not in the wrong order nor 2^32 milliseconds apart, the difference in
      milliseconds is the time that passed, to the millisecond. */
  lemma DeltaMeans(a: Stamp, b: Stamp)
    requires 0 <= a.usec < 1_000_000 && 0 <= b.usec < 1_000_000
    requires 0 <= Micros(b) - Micros(a) < 1000 * (WORD - 1)
    ensures -1000 < 1000 * Delta(a, b) - (Micros(b) - Micros(a)) < 1000
  {
    var d := (b.sec - a.sec) * 1000 + Truncated(b.usec - a.usec, 1000);
    assert 1000 * d - 1000 < Micros(b) - Micros(a) < 1000 * d + 1000;
    assert 0 <= d < WORD;
  }

  /** Which delay of its sender frame `g`, right behind frame `f`, ends: a repeated token, or a token or poll after a
      poll of its own, the wait for a station that did not answer; another token after one it was given, the time it
      kept it; a reply to a poll; data, or a postponement, after data it was to reply to. */
  lemma WhatIsTimed(h: seq<Frame>, f: Frame, g: Frame, m: Octet)
    ensures var k := h + [f] + [g];
            && LastDelta(k) == Delta(f.at, g.at)
            && (Ends(Usage, k, m)
                <==> g.src == f.src == m && (|| (f.kind == 0 && g.kind == 0 && f.dst == g.dst)
                                             || (f.kind == 1 && g.kind <= 1)))
            && (Ends(TokenReply, k, m)
                <==> f.kind == 0 && g.kind == 0 && f.dst == g.src == m && (f.dst != g.dst || f.src != m))
            && (Ends(PollReply, k, m) <==> f.kind == 1 && g.kind == 2 && g.src == m)
            && (Ends(DataReply, k, m) <==> f.kind == 5 && g.kind == 6 && f.dst == g.src == m)
            && (Ends(PostponeReply, k, m) <==> f.kind == 5 && g.kind == 7 && f.dst == g.src == m)
  {
    var k := h + [f] + [g];
    assert k[..|k| - 1] == h + [f];
  }

  /** A token is repeated when it is passed on twice running from the same station to the same. */
  lemma WhatIsRepeated(h: seq<Frame>, f: Frame, g: Frame, m: Octet)
    ensures Occurs(GotTokenAgain, h + [f] + [g], m)
            <==> f.kind == 0 && g.kind == 0 && f.src == g.src && f.dst == g.dst == m
  {
    assert (h + [f] + [g])[..|h| + 1] == h + [f];
  }
}
