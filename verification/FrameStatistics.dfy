/** The MS/TP capture statistics, updated in place frame by frame. */
module FrameStatistics {
  import opened Octets
  import opened FrameHistory

  /** `struct mstp_statistics`; every counter is a `uint32_t`. */
  datatype NodeStats = NodeStats(
    tokenCount: Word, tokenReceived: Word, pfmCount: Word, rpfmCount: Word, postponedCount: Word,
    testRequests: Word, testResponses: Word, derCount: Word, dnerCount: Word,
    tokenRetries: Word, tusageTimeout: Word, maxMaster: Octet,
    tokenReply: Word, pfmReply: Word, derReply: Word, replyPostponed: Word,
    npoll: Word, lastPfmTokens: Word, selfTokens: Word, oooTokens: Word)

  const CLEARED: NodeStats := NodeStats(0, 0, 0, 0, 0, 0, 0, 0, 0, 0, 0, 0, 0, 0, 0, 0, 0, 0, 0, 0)

  /** What the statistics of station `m` are to be, given every frame seen and the number of those
      seen before the counters were last cleared. */
  ghost function Declared(h: seq<Frame>, from: nat, m: Octet): NodeStats {
    NodeStats(
      Count(SentToken, h, from, m) % WORD, Count(GotToken, h, from, m) % WORD,
      Count(Polled, h, from, m) % WORD, Count(AnsweredPoll, h, from, m) % WORD,
      Count(Postponed, h, from, m) % WORD,
      Count(SentTest, h, from, m) % WORD, Count(AnsweredTest, h, from, m) % WORD,
      Count(SentDataExpectingReply, h, from, m) % WORD, Count(SentData, h, from, m) % WORD,
      Count(GotTokenAgain, h, from, m) % WORD, Longest(Usage, h, from, m), HighestPolled(h, from, m),
      Longest(TokenReply, h, from, m), Longest(PollReply, h, from, m),
      Longest(DataReply, h, from, m), Longest(PostponeReply, h, from, m),
      MostTokens(h, from, m), TokensAtPoll(h, from, m),
      Count(SentTokenToSelf, h, from, m) % WORD, Count(SentTokenOutOfOrder, h, from, m) % WORD)
  }

  function Inc(x: Word): Word {
    (x + 1) % WORD
  }

  function Bump(x: Word, b: bool): Word {
    if b then Inc(x) else x
  }

  function Raise(x: Word, b: bool, d: Word): Word {
    if b && d > x then d else x
  }

  lemma IncMod(n: nat)
    ensures Inc(n % WORD) == (n + 1) % WORD
  {
  }

  lemma CountStep(e: Event, h: seq<Frame>, from: nat, m: Octet, f: Frame)
    requires from <= |h|
    ensures Count(e, h + [f], from, m) % WORD == Bump(Count(e, h, from, m) % WORD, Occurs(e, h + [f], m))
  {
    assert (h + [f])[..|h|] == h;
    IncMod(Count(e, h, from, m));
  }

  lemma LongestStep(d: Delay, h: seq<Frame>, from: nat, m: Octet, f: Frame)
    requires from <= |h|
    ensures Longest(d, h + [f], from, m)
            == Raise(Longest(d, h, from, m), Ends(d, h + [f], m), Delta(Latest(h).at, f.at))
  {
    assert (h + [f])[..|h|] == h;
  }

  lemma PollsStep(h: seq<Frame>, from: nat, m: Octet, f: Frame)
    requires from <= |h|
    ensures var s, polled := Declared(h, from, m), Occurs(Polled, h + [f], m);
            && HighestPolled(h + [f], from, m) == (if polled && f.dst > s.maxMaster then f.dst else s.maxMaster)
            && TokensAtPoll(h + [f], from, m) == (if polled then s.tokenReceived else s.lastPfmTokens)
            && MostTokens(h + [f], from, m)
               == Raise(s.npoll, polled && s.lastPfmTokens != 0, (s.tokenReceived - s.lastPfmTokens) % WORD)
  {
    assert (h + [f])[..|h|] == h;
    if Occurs(Polled, h + [f], m) {
      assert Count(GotToken, h + [f], from, m) == Count(GotToken, h, from, m);
      ModOfMod(Count(GotToken, h, from, m), TokensAtPoll(h, from, m));
    }
  }

  lemma ModOfMod(a: int, b: int)
    ensures (a % WORD - b) % WORD == (a - b) % WORD
  {
    var q := a / WORD;
    assert a - b == (a % WORD - b) + q * WORD;
    ModPlusMultiple(a % WORD - b, q);
  }

  /** What one frame `f` after the history `h` does to the statistics `s` of station `m`. */
  ghost function Advanced(s: NodeStats, h: seq<Frame>, f: Frame, m: Octet): NodeStats {
    var g := h + [f];
    var delta := Delta(Latest(h).at, f.at);
    var polled := Occurs(Polled, g, m);
    NodeStats(
      Bump(s.tokenCount, Occurs(SentToken, g, m)), Bump(s.tokenReceived, Occurs(GotToken, g, m)),
      Bump(s.pfmCount, polled), Bump(s.rpfmCount, Occurs(AnsweredPoll, g, m)),
      Bump(s.postponedCount, Occurs(Postponed, g, m)),
      Bump(s.testRequests, Occurs(SentTest, g, m)), Bump(s.testResponses, Occurs(AnsweredTest, g, m)),
      Bump(s.derCount, Occurs(SentDataExpectingReply, g, m)), Bump(s.dnerCount, Occurs(SentData, g, m)),
      Bump(s.tokenRetries, Occurs(GotTokenAgain, g, m)), Raise(s.tusageTimeout, Ends(Usage, g, m), delta),
      if polled && f.dst > s.maxMaster then f.dst else s.maxMaster,
      Raise(s.tokenReply, Ends(TokenReply, g, m), delta), Raise(s.pfmReply, Ends(PollReply, g, m), delta),
      Raise(s.derReply, Ends(DataReply, g, m), delta), Raise(s.replyPostponed, Ends(PostponeReply, g, m), delta),
      Raise(s.npoll, polled && s.lastPfmTokens != 0, (s.tokenReceived - s.lastPfmTokens) % WORD),
      if polled then s.tokenReceived else s.lastPfmTokens,
      Bump(s.selfTokens, Occurs(SentTokenToSelf, g, m)), Bump(s.oooTokens, Occurs(SentTokenOutOfOrder, g, m)))
  }

  /** Advancing the declared statistics gives the declared statistics of the longer history. */
  lemma DeclaredAdvances(h: seq<Frame>, from: nat, f: Frame, m: Octet)
    requires from <= |h|
    ensures Declared(h + [f], from, m) == Advanced(Declared(h, from, m), h, f, m)
  {
    CountStep(SentToken, h, from, m, f);
    CountStep(GotToken, h, from, m, f);
    CountStep(Polled, h, from, m, f);
    CountStep(AnsweredPoll, h, from, m, f);
    CountStep(Postponed, h, from, m, f);
    CountStep(SentTest, h, from, m, f);
    CountStep(AnsweredTest, h, from, m, f);
    CountStep(SentDataExpectingReply, h, from, m, f);
    CountStep(SentData, h, from, m, f);
    CountStep(GotTokenAgain, h, from, m, f);
    CountStep(SentTokenToSelf, h, from, m, f);
    CountStep(SentTokenOutOfOrder, h, from, m, f);
    LongestStep(Usage, h, from, m, f);
    LongestStep(TokenReply, h, from, m, f);
    LongestStep(PollReply, h, from, m, f);
    LongestStep(DataReply, h, from, m, f);
    LongestStep(PostponeReply, h, from, m, f);
    PollsStep(h, from, m, f);
  }

  /** The static state of `packet_statistics`: the table and the memory of the previous frame. */
  class Monitor {
    const nodes: array<NodeStats>
    var oldAt: Stamp
    var oldFrame: Octet
    var oldSrc: Octet
    var oldDst: Octet
    var oldTokenDst: Octet
    /** Every frame seen, and how many of them before the counters were last cleared. */
    ghost var history: seq<Frame>
    ghost var clearedAt: nat

    /** The memory is that of the history. */
    ghost predicate Remembers()
      reads this
    {
      && nodes.Length == 0x100
      && Frame(oldAt, oldFrame, oldDst, oldSrc) == Latest(history)
      && oldTokenDst == TokenHolder(history)
    }

    /** Streaming is declarative: every counter and maximum has its declared value. */
    ghost predicate Valid()
      reads this, nodes
    {
      && Remembers() && clearedAt <= |history|
      && forall m: Octet :: nodes[m] == Declared(history, clearedAt, m)
    }

    constructor ()
      ensures Valid() && fresh(nodes) && history == [] && clearedAt == 0
    {
      nodes := new NodeStats[0x100](_ => CLEARED);
      oldAt, oldFrame, oldSrc, oldDst, oldTokenDst := Stamp(0, 0), 255, 255, 255, 255;
      history, clearedAt := [], 0;
    }

    /** `packet_statistics_clear`: the counters restart, the memory of the last frame stays. */
    method Clear()
      requires Valid()
      modifies this`clearedAt, nodes
      ensures Valid() && clearedAt == |history|
    {
      for i := 0 to 0x100
        invariant forall m: Octet :: m < i ==> nodes[m] == CLEARED
      {
        nodes[i] := CLEARED;
      }
      clearedAt := |history|;
    }

    /** `packet_statistics`. */
    method Packet(f: Frame)
      requires Valid()
      modifies this, nodes
      ensures Valid() && history == old(history) + [f] && clearedAt == old(clearedAt)
    {
      ghost var h := history;
      Update(f);
      forall m: Octet ensures nodes[m] == Declared(h + [f], clearedAt, m) {
        DeclaredAdvances(h, clearedAt, f, m);
      }
      history := history + [f];
      oldDst, oldSrc, oldFrame, oldAt := f.dst, f.src, f.kind, f.at;
      if f.kind == TOKEN {
        oldTokenDst := f.dst;
      }
      assert history[..|history| - 1] == h;
    }

    method Update(f: Frame)
      requires Remembers()
      modifies nodes
      ensures forall m: Octet :: nodes[m] == Advanced(old(nodes[m]), history, f, m)
    {
      assert (history + [f])[..|history|] == history;
      if f.kind == TOKEN {
        Token(f);
      } else if f.kind == POLL_FOR_MASTER {
        Poll(f);
      } else {
        Other(f);
      }
    }

    method Token(f: Frame)
      requires Remembers() && f.kind == TOKEN
      modifies nodes
      ensures forall m: Octet :: nodes[m] == Advanced(old(nodes[m]), history, f, m)
    {
      TokenCounts(f.src, f.dst);
      TokenDelays(f);
      var src := f.src;
      if oldTokenDst != src {
        nodes[src] := nodes[src].(oooTokens := Inc(nodes[src].oooTokens));
      }
      forall m: Octet ensures nodes[m] == Advanced(old(nodes[m]), history, f, m) {
        TokenAdvances(old(nodes[m]), history, f, m);
      }
    }

    method TokenCounts(src: Octet, dst: Octet)
      requires nodes.Length == 0x100
      modifies nodes
      ensures forall m: Octet :: nodes[m] == Counted(old(nodes[m]), src, dst, m)
    {
      nodes[src] := nodes[src].(tokenCount := Inc(nodes[src].tokenCount));
      nodes[dst] := nodes[dst].(tokenReceived := Inc(nodes[dst].tokenReceived));
      if src == dst {
        nodes[src] := nodes[src].(selfTokens := Inc(nodes[src].selfTokens));
      }
    }

    method TokenDelays(f: Frame)
      requires nodes.Length == 0x100
      modifies nodes
      ensures forall m: Octet :: nodes[m] == Timed(old(nodes[m]), Frame(oldAt, oldFrame, oldDst, oldSrc), f, m)
    {
      var src, dst, delta := f.src, f.dst, Delta(oldAt, f.at);
      if oldFrame == TOKEN {
        if oldDst == dst && oldSrc == src {
          nodes[dst] := nodes[dst].(tokenRetries := Inc(nodes[dst].tokenRetries));
          if delta > nodes[src].tusageTimeout {
            nodes[src] := nodes[src].(tusageTimeout := delta);
          }
        } else if oldDst == src {
          if delta > nodes[src].tokenReply {
            nodes[src] := nodes[src].(tokenReply := delta);
          }
        }
      } else if oldFrame == POLL_FOR_MASTER && oldSrc == src {
        if delta > nodes[src].tusageTimeout {
          nodes[src] := nodes[src].(tusageTimeout := delta);
        }
      }
    }

    method Poll(f: Frame)
      requires Remembers() && f.kind == POLL_FOR_MASTER
      modifies nodes
      ensures forall m: Octet :: nodes[m] == Advanced(old(nodes[m]), history, f, m)
    {
      var src := f.src;
      PollCounts(src, f.dst);
      if oldFrame == POLL_FOR_MASTER && oldSrc == src {
        var delta := Delta(oldAt, f.at);
        if delta > nodes[src].tusageTimeout {
          nodes[src] := nodes[src].(tusageTimeout := delta);
        }
      }
      forall m: Octet ensures nodes[m] == Advanced(old(nodes[m]), history, f, m) {
        PollAdvances(old(nodes[m]), history, f, m);
      }
    }

    method PollCounts(src: Octet, dst: Octet)
      requires nodes.Length == 0x100
      modifies nodes
      ensures forall m: Octet :: nodes[m] == if m == src then PollCounted(old(nodes[m]), dst) else old(nodes[m])
    {
      if nodes[src].lastPfmTokens != 0 {
        var npoll := (nodes[src].tokenReceived - nodes[src].lastPfmTokens) % WORD;
        if npoll > nodes[src].npoll {
          nodes[src] := nodes[src].(npoll := npoll);
        }
      }
      nodes[src] := nodes[src].(lastPfmTokens := nodes[src].tokenReceived);
      nodes[src] := nodes[src].(pfmCount := Inc(nodes[src].pfmCount));
      if dst > nodes[src].maxMaster {
        nodes[src] := nodes[src].(maxMaster := dst);
      }
    }

    method Other(f: Frame)
      requires Remembers() && f.kind != TOKEN && f.kind != POLL_FOR_MASTER
      modifies nodes
      ensures forall m: Octet :: nodes[m] == Advanced(old(nodes[m]), history, f, m)
    {
      var src, delta := f.src, Delta(oldAt, f.at);
      nodes[src] := Answered(nodes[src], f.kind, oldFrame, oldDst == src, delta);
      forall m: Octet ensures nodes[m] == Advanced(old(nodes[m]), history, f, m) {
        OtherAdvances(old(nodes[m]), history, f, m);
      }
    }
  }

  // ----- the three kinds of step, station by station -----

  function Counted(s: NodeStats, src: Octet, dst: Octet, m: Octet): NodeStats {
    s.(tokenCount := Bump(s.tokenCount, src == m), tokenReceived := Bump(s.tokenReceived, dst == m),
       selfTokens := Bump(s.selfTokens, src == dst == m))
  }

  function Timed(s: NodeStats, p: Frame, f: Frame, m: Octet): NodeStats {
    var delta := Delta(p.at, f.at);
    var again := p.kind == TOKEN && p.dst == f.dst && p.src == f.src;
    s.(tokenRetries := Bump(s.tokenRetries, again && f.dst == m),
       tusageTimeout := Raise(s.tusageTimeout,
                              f.src == m && (again || (p.kind == POLL_FOR_MASTER && p.src == m)), delta),
       tokenReply := Raise(s.tokenReply, f.src == m && p.kind == TOKEN && !again && p.dst == m, delta))
  }

  lemma TokenAdvances(s: NodeStats, h: seq<Frame>, f: Frame, m: Octet)
    requires f.kind == TOKEN
    ensures Advanced(s, h, f, m)
            == var t := Timed(Counted(s, f.src, f.dst, m), Latest(h), f, m);
               t.(oooTokens := Bump(t.oooTokens, f.src == m && TokenHolder(h) != m))
  {
    assert (h + [f])[..|h|] == h;
  }

  /** What a poll of station `dst` does to the counters of the polling station. */
  function PollCounted(s: NodeStats, dst: Octet): NodeStats {
    s.(npoll := Raise(s.npoll, s.lastPfmTokens != 0, (s.tokenReceived - s.lastPfmTokens) % WORD),
       lastPfmTokens := s.tokenReceived, pfmCount := Inc(s.pfmCount),
       maxMaster := if dst > s.maxMaster then dst else s.maxMaster)
  }

  lemma PollAdvances(s: NodeStats, h: seq<Frame>, f: Frame, m: Octet)
    requires f.kind == POLL_FOR_MASTER
    ensures var p, t := Latest(h), PollCounted(s, f.dst);
            Advanced(s, h, f, m)
            == if f.src != m then s
               else t.(tusageTimeout :=
                         Raise(t.tusageTimeout, p.kind == POLL_FOR_MASTER && p.src == m, Delta(p.at, f.at)))
  {
    assert (h + [f])[..|h|] == h;
  }

  /** The branches of the switch that touch only the sender. */
  function Answered(s: NodeStats, kind: Octet, oldFrame: Octet, toUs: bool, delta: Word): NodeStats {
    if kind == REPLY_TO_POLL then
      s.(rpfmCount := Inc(s.rpfmCount), pfmReply := Raise(s.pfmReply, oldFrame == POLL_FOR_MASTER, delta))
    else if kind == TEST_REQUEST then s.(testRequests := Inc(s.testRequests))
    else if kind == TEST_RESPONSE then s.(testResponses := Inc(s.testResponses))
    else if kind == DATA_EXPECTING_REPLY then s.(derCount := Inc(s.derCount))
    else if kind == DATA_NOT_EXPECTING_REPLY then
      s.(dnerCount := Inc(s.dnerCount), derReply := Raise(s.derReply, oldFrame == DATA_EXPECTING_REPLY && toUs, delta))
    else if kind == REPLY_POSTPONED then
      s.(postponedCount := Inc(s.postponedCount),
         replyPostponed := Raise(s.replyPostponed, oldFrame == DATA_EXPECTING_REPLY && toUs, delta))
    else s
  }

  lemma OtherAdvances(s: NodeStats, h: seq<Frame>, f: Frame, m: Octet)
    requires f.kind != TOKEN && f.kind != POLL_FOR_MASTER
    ensures Advanced(s, h, f, m)
            == if f.src != m then s
               else Answered(s, f.kind, Latest(h).kind, Latest(h).dst == m, Delta(Latest(h).at, f.at))
  {
    assert (h + [f])[..|h|] == h;
  }

  function One(b: bool): Word {
    if b then 1 else 0
  }

  /** What one frame alone leaves in the table of each station: the counter of its kind at its source. */
  lemma OneFrame(f: Frame, m: Octet)
    ensures var s, mine, k := Declared([f], 0, m), f.src == m, f.kind;
            && s.tokenCount == One(mine && k == 0) && s.pfmCount == One(mine && k == 1)
            && s.rpfmCount == One(mine && k == 2) && s.testRequests == One(mine && k == 3)
            && s.testResponses == One(mine && k == 4) && s.derCount == One(mine && k == 5)
            && s.dnerCount == One(mine && k == 6) && s.postponedCount == One(mine && k == 7)
  {
    forall e ensures Count(e, [f], 0, m) % WORD == One(Occurs(e, [f], m)) { CountAlone(e, f, m); }
  }

  /** And of a token also that it was received, and whether by its sender or out of order; of a poll the station
      polled; and nothing else. */
  lemma OneFrameMore(f: Frame, m: Octet)
    ensures var s, mine, k := Declared([f], 0, m), f.src == m, f.kind;
            && s.tokenReceived == One(f.dst == m && k == 0) && s.selfTokens == One(mine && f.dst == m && k == 0)
            && s.oooTokens == One(mine && k == 0 && m != 255) && s.tokenRetries == 0
            && s.maxMaster == (if mine && k == 1 then f.dst else 0) && s.npoll == s.lastPfmTokens == 0
            && s.tusageTimeout == s.tokenReply == s.pfmReply == s.derReply == s.replyPostponed == 0
  {
    forall e ensures Count(e, [f], 0, m) % WORD == One(Occurs(e, [f], m)) { CountAlone(e, f, m); }
    CountAlone(SentToken, f, m);
    forall d ensures Longest(d, [f], 0, m) == 0 { NoDelayAlone(d, f, m); }
    PollAlone(f, m);
  }

  lemma CountAlone(e: Event, f: Frame, m: Octet)
    ensures Count(e, [f], 0, m) % WORD == One(Occurs(e, [f], m))
    ensures Before([f]).kind == 255 && TokenHolder([f][..0]) == 255
  {
    assert [f][..0] == [];
  }

  lemma NoDelayAlone(d: Delay, f: Frame, m: Octet)
    ensures Longest(d, [f], 0, m) == 0
  {
    assert [f][..0] == [] && Before([f]).kind == 255;
  }

  lemma PollAlone(f: Frame, m: Octet)
    ensures HighestPolled([f], 0, m) == if Occurs(Polled, [f], m) then f.dst else 0
    ensures TokensAtPoll([f], 0, m) == 0 && MostTokens([f], 0, m) == 0
  {
    assert [f][..0] == [];
    CountAlone(GotToken, f, m);
    assert Occurs(Polled, [f], m) ==> !Occurs(GotToken, [f], m);
  }
}
