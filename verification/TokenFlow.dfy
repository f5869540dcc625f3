/** Conservation of tokens in a frame history. */
module TokenFlow {
  import opened Octets
  import opened FrameHistory

  /** The frames of a kind since frame `from`. */
  function OfKind(kind: Octet, h: seq<Frame>, from: nat): nat
    decreases |h|
  {
    if |h| <= from then 0
    else OfKind(kind, h[..|h| - 1], from) + if h[|h| - 1].kind == kind then 1 else 0
  }

  /** The sum of a counter over stations 0 to `n` - 1. */
  function Total(e: Event, h: seq<Frame>, from: nat, n: nat): nat
    requires n <= 0x100
  {
    if n == 0 then 0 else Total(e, h, from, n - 1) + Count(e, h, from, n - 1)
  }

  /** The kind of frame that shows its source, or of a token its destination, doing this. */
  predicate Shows(kind: Octet, e: Event) {
    match e
    case SentToken => kind == 0
    case GotToken => kind == 0
    case Polled => kind == 1
    case AnsweredPoll => kind == 2
    case SentTest => kind == 3
    case AnsweredTest => kind == 4
    case SentDataExpectingReply => kind == 5
    case SentData => kind == 6
    case Postponed => kind == 7
    case _ => false
  }

  lemma {:induction false} TotalStep(e: Event, kind: Octet, h: seq<Frame>, from: nat, n: nat)
    requires n <= 0x100 && |h| > from && Shows(kind, e)
    ensures var f := h[|h| - 1];
            Total(e, h, from, n)
            == Total(e, h[..|h| - 1], from, n)
               + if f.kind == kind && (if e == GotToken then f.dst else f.src) < n then 1 else 0
  {
    if n > 0 { TotalStep(e, kind, h, from, n - 1); }
  }

  lemma {:induction false} TotalOfNothing(e: Event, h: seq<Frame>, from: nat, n: nat)
    requires n <= 0x100 && |h| <= from
    ensures Total(e, h, from, n) == 0
  {
    if n > 0 { TotalOfNothing(e, h, from, n - 1); }
  }

  /** Every frame of the eight kinds is counted for one station: the total of its counter is the number of frames. */
  lemma {:induction false} FramesAreCounted(e: Event, kind: Octet, h: seq<Frame>, from: nat)
    requires Shows(kind, e)
    ensures Total(e, h, from, 0x100) == OfKind(kind, h, from)
    decreases |h|
  {
    if |h| <= from {
      TotalOfNothing(e, h, from, 0x100);
    } else {
      FramesAreCounted(e, kind, h[..|h| - 1], from);
      TotalStep(e, kind, h, from, 0x100);
    }
  }

  /** Every token frame is sent by one station and received by one: both totals are the number of token frames. */
  lemma TokensAreConserved(h: seq<Frame>, from: nat)
    ensures Total(SentToken, h, from, 0x100) == OfKind(TOKEN, h, from) == Total(GotToken, h, from, 0x100)
  {
    FramesAreCounted(SentToken, TOKEN, h, from);
    FramesAreCounted(GotToken, TOKEN, h, from);
  }

  /** The tokens passed to `m` after which some other station sent the next token. */
  function Lost(h: seq<Frame>, from: nat, m: Octet): nat
    decreases |h|
  {
    if |h| <= from then 0
    else
      var f := h[|h| - 1];
      Lost(h[..|h| - 1], from, m)
      + if f.kind == TOKEN && TokenHolder(h[..|h| - 1]) == m && f.src != m then 1 else 0
  }

  function One(b: bool): nat {
    if b then 1 else 0
  }

  /** The token account of a station, exactly: what it passed on, still holds or lost is what it
      received, sent out of order or held when the counting began. */
  lemma {:induction false} TokenAccount(h: seq<Frame>, from: nat, m: Octet)
    requires from <= |h|
    ensures Count(SentToken, h, from, m) + One(TokenHolder(h) == m) + Lost(h, from, m)
            == Count(GotToken, h, from, m) + Count(SentTokenOutOfOrder, h, from, m) + One(TokenHolder(h[..from]) == m)
    decreases |h|
  {
    if |h| > from {
      TokenAccount(h[..|h| - 1], from, m);
      assert h[..|h| - 1][..from] == h[..from];
    } else {
      assert h[..from] == h;
    }
  }

  /** No station passes on more tokens than it received, sent out of order, or held at the start. */
  lemma TokensSentBounded(h: seq<Frame>, from: nat, m: Octet)
    requires from <= |h|
    ensures Count(SentToken, h, from, m)
            <= Count(GotToken, h, from, m) + Count(SentTokenOutOfOrder, h, from, m) + One(TokenHolder(h[..from]) == m)
  {
    TokenAccount(h, from, m);
  }

  lemma {:induction false} CountBounded(e: Event, h: seq<Frame>, from: nat, m: Octet)
    ensures Count(e, h, from, m) <= if |h| <= from then 0 else |h| - from
    decreases |h|
  {
    if |h| > from { CountBounded(e, h[..|h| - 1], from, m); }
  }

  /** With fewer than 2^32 frames the counter remembered at the last poll never exceeds the current
      one, so their difference never wraps. */
  lemma {:induction false} NoUnderflow(h: seq<Frame>, from: nat, m: Octet)
    requires |h| - from < WORD
    ensures TokensAtPoll(h, from, m) <= Count(GotToken, h, from, m) < WORD
    decreases |h|
  {
    CountBounded(GotToken, h, from, m);
    if |h| > from { NoUnderflow(h[..|h| - 1], from, m); }
  }
}
