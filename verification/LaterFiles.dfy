/** Files of a capture after the first. They are begun with the memory of the frames before, which their
    scan does not have: which statistics notice, and exactly when. */
module LaterFiles {
  import opened Octets
  import opened Wrappers
  import opened FrameHistory
  import opened FrameStatistics
  import opened Replay

  /** The counters that look at one frame only agree. */
  lemma {:induction false} CountsAgree(e: Event, before: seq<Frame>, h: seq<Frame>, m: Octet)
    requires e != GotTokenAgain && e != SentTokenOutOfOrder
    ensures Count(e, before + h, |before|, m) == Count(e, h, 0, m)
    decreases |h|
  {
    if h != [] {
      assert (before + h)[..|before + h| - 1] == before + h[..|h| - 1];
      CountsAgree(e, before, h[..|h| - 1], m);
    }
  }

  /** So do the highest station polled, the tokens remembered at the last poll, and the most tokens between polls. */
  lemma {:induction false} PollsAgree(before: seq<Frame>, h: seq<Frame>, m: Octet)
    ensures HighestPolled(before + h, |before|, m) == HighestPolled(h, 0, m)
    ensures TokensAtPoll(before + h, |before|, m) == TokensAtPoll(h, 0, m)
    ensures MostTokens(before + h, |before|, m) == MostTokens(h, 0, m)
    decreases |h|
  {
    if h != [] {
      assert (before + h)[..|before + h| - 1] == before + h[..|h| - 1];
      CountsAgree(GotToken, before, h, m);
      PollsAgree(before, h[..|h| - 1], m);
    }
  }

  /** The first frame alone can repeat a token, or end a delay, together with the frame before the file. */
  lemma FirstFrame(before: seq<Frame>, h: seq<Frame>)
    requires |h| == 1
    ensures before + h == before + [h[0]] && (before + h)[..|before|] == before && h[..0] == []
  {
  }

  lemma LaterFrame(before: seq<Frame>, h: seq<Frame>)
    requires |h| > 1
    ensures (before + h)[..|before + h| - 1] == before + h[..|h| - 1] && h[..|h| - 1][0] == h[0]
    ensures Before(before + h) == Before(h)
  {
  }

  /** The count of repeated tokens is one more if the file begins with such a repeat, which the scan cannot see. */
  lemma {:induction false} RetriesDiffer(before: seq<Frame>, h: seq<Frame>, m: Octet)
    requires h != []
    ensures Count(GotTokenAgain, before + h, |before|, m)
            == Count(GotTokenAgain, h, 0, m) + if Occurs(GotTokenAgain, before + [h[0]], m) then 1 else 0
    decreases |h|
  {
    if |h| == 1 {
      FirstFrame(before, h);
    } else {
      LaterFrame(before, h);
      RetriesDiffer(before, h[..|h| - 1], m);
    }
  }

  /** The delay that the first frame of the file ends, as the live capture measures it; 0 if it ends none. */
  function FirstDelay(d: Delay, before: seq<Frame>, h: seq<Frame>, m: Octet): Word
    requires h != []
  {
    if Ends(d, before + [h[0]], m) then LastDelta(before + [h[0]]) else 0
  }

  /** A longest delay is the longest of that one and those the scan sees. */
  lemma {:induction false} DelaysDiffer(d: Delay, before: seq<Frame>, h: seq<Frame>, m: Octet)
    requires h != []
    ensures Longest(d, before + h, |before|, m) == Max(Longest(d, h, 0, m), FirstDelay(d, before, h, m))
    decreases |h|
  {
    if |h| == 1 {
      FirstFrame(before, h);
    } else {
      LaterFrame(before, h);
      DelaysDiffer(d, before, h[..|h| - 1], m);
    }
  }

  /** The station that sends the first token of the file. */
  function FirstSender(h: seq<Frame>): Option<Octet> {
    if h == [] then None
    else
      var s := FirstSender(h[..|h| - 1]);
      if s.Some? then s else if h[|h| - 1].kind == TOKEN then Some(h[|h| - 1].src) else None
  }

  lemma {:induction false} HolderAgrees(before: seq<Frame>, h: seq<Frame>)
    ensures TokenHolder(before + h) == if FirstSender(h) == None then TokenHolder(before) else TokenHolder(h)
    ensures FirstSender(h) == None ==> TokenHolder(h) == 255
    decreases |h|
  {
    if h == [] {
      assert before + h == before;
    } else {
      assert (before + h)[..|before + h| - 1] == before + h[..|h| - 1];
      HolderAgrees(before, h[..|h| - 1]);
    }
  }

  function One(b: bool): nat {
    if b then 1 else 0
  }

  /** The counts of tokens sent out of order differ by the first token of the file: the live capture knows who
      held the token, the scan takes station 255 for the holder. */
  lemma {:induction false} OutOfOrderDiffers(before: seq<Frame>, h: seq<Frame>, m: Octet)
    ensures Count(SentTokenOutOfOrder, before + h, |before|, m) + One(FirstSender(h) == Some(m) && m != 255)
            == Count(SentTokenOutOfOrder, h, 0, m) + One(FirstSender(h) == Some(m) && m != TokenHolder(before))
    decreases |h|
  {
    if h != [] {
      assert (before + h)[..|before + h| - 1] == before + h[..|h| - 1];
      OutOfOrderDiffers(before, h[..|h| - 1], m);
      HolderAgrees(before, h[..|h| - 1]);
    }
  }

  /** Nothing at the beginning of the file concerns station `m`: no repeated token, no delay longer than all in
      the file, and no first token of its own over which holder and scan disagree. */
  predicate Unaffected(before: seq<Frame>, h: seq<Frame>, m: Octet) {
    h != [] ==>
      && !Occurs(GotTokenAgain, before + [h[0]], m)
      && FirstDelay(Usage, before, h, m) <= Longest(Usage, h, 0, m)
      && FirstDelay(TokenReply, before, h, m) <= Longest(TokenReply, h, 0, m)
      && FirstDelay(PollReply, before, h, m) <= Longest(PollReply, h, 0, m)
      && FirstDelay(DataReply, before, h, m) <= Longest(DataReply, h, 0, m)
      && FirstDelay(PostponeReply, before, h, m) <= Longest(PostponeReply, h, 0, m)
      && (FirstSender(h) == Some(m) ==> (TokenHolder(before) == m <==> m == 255))
  }

  lemma OneMore(x: nat)
    ensures (x + 1) % WORD != x % WORD
  {
  }

  lemma RetriesAgreeWhen(before: seq<Frame>, h: seq<Frame>, m: Octet)
    requires h != []
    ensures Count(GotTokenAgain, before + h, |before|, m) % WORD == Count(GotTokenAgain, h, 0, m) % WORD
            <==> !Occurs(GotTokenAgain, before + [h[0]], m)
  {
    RetriesDiffer(before, h, m);
    OneMore(Count(GotTokenAgain, h, 0, m));
  }

  lemma OutOfOrderAgreesWhen(before: seq<Frame>, h: seq<Frame>, m: Octet)
    ensures Count(SentTokenOutOfOrder, before + h, |before|, m) % WORD == Count(SentTokenOutOfOrder, h, 0, m) % WORD
            <==> (FirstSender(h) == Some(m) ==> (TokenHolder(before) == m <==> m == 255))
  {
    OutOfOrderDiffers(before, h, m);
    OneMore(Count(SentTokenOutOfOrder, h, 0, m));
    OneMore(Count(SentTokenOutOfOrder, before + h, |before|, m));
  }

  lemma DelaysAgreeWhen(d: Delay, before: seq<Frame>, h: seq<Frame>, m: Octet)
    requires h != []
    ensures Longest(d, before + h, |before|, m) == Longest(d, h, 0, m)
            <==> FirstDelay(d, before, h, m) <= Longest(d, h, 0, m)
  {
    DelaysDiffer(d, before, h, m);
  }

  /** For a station the statistics of a later file are those of its scan if and only if nothing at the beginning
      of the file concerns it. */
  lemma StatisticsAgreeWhen(before: seq<Frame>, h: seq<Frame>, m: Octet)
    ensures Declared(before + h, |before|, m) == Declared(h, 0, m) <==> Unaffected(before, h, m)
  {
    if h == [] {
      assert before + h == before;
      NothingDeclared(before, m);
    } else {
      CountsAgree(SentToken, before, h, m);
      CountsAgree(GotToken, before, h, m);
      CountsAgree(Polled, before, h, m);
      CountsAgree(AnsweredPoll, before, h, m);
      CountsAgree(Postponed, before, h, m);
      CountsAgree(SentTest, before, h, m);
      CountsAgree(AnsweredTest, before, h, m);
      CountsAgree(SentDataExpectingReply, before, h, m);
      CountsAgree(SentData, before, h, m);
      CountsAgree(SentTokenToSelf, before, h, m);
      PollsAgree(before, h, m);
      RetriesAgreeWhen(before, h, m);
      OutOfOrderAgreesWhen(before, h, m);
      DelaysAgreeWhen(Usage, before, h, m);
      DelaysAgreeWhen(TokenReply, before, h, m);
      DelaysAgreeWhen(PollReply, before, h, m);
      DelaysAgreeWhen(DataReply, before, h, m);
      DelaysAgreeWhen(PostponeReply, before, h, m);
    }
  }

  lemma NothingDeclared(before: seq<Frame>, m: Octet)
    ensures Declared(before, |before|, m) == Declared([], 0, m)
  {
  }

  /** It happens: a token repeated across the change of files is not counted by the scan. */
  lemma RepeatIsMissed(at: Stamp, later: Stamp)
    ensures var before, h := [Frame(at, TOKEN, 2, 1)], [Frame(later, TOKEN, 2, 1)];
            Declared(before + h, |before|, 2) != Declared(h, 0, 2)
  {
    var before, h := [Frame(at, TOKEN, 2, 1)], [Frame(later, TOKEN, 2, 1)];
    assert (before + h)[..1] == before;
    StatisticsAgreeWhen(before, h, 2);
  }

  /** Replay of any file: the scan of a file begun after the frames `before` gives station `m` the statistics the
      capture showed if and only if nothing at the beginning of the file concerns it. */
  lemma LaterReplay(before: seq<Frame>, seen: seq<Seen>, m: Octet)
    requires forall i :: 0 <= i < |seen| ==> seen[i].Good()
    ensures var found := ScanFrom(Recorded(seen), NOTHING_FOUND);
            && found.frames == AllWrapped(Frames(seen)) && found.packets == |seen| && found.invalid == 0
            && (Declared(found.frames, 0, m) == Declared(before + Frames(seen), |before|, m)
                <==> Unaffected(before, Frames(seen), m))
  {
    ScanFindsAll(seen, NOTHING_FOUND);
    assert [] + AllWrapped(Frames(seen)) == AllWrapped(Frames(seen));
    GoodTimes(seen);
    DeclaredWraps(Frames(seen), 0, m);
    StatisticsAgreeWhen(before, Frames(seen), m);
  }
}
