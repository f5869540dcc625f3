/** Whole transfers of `readfile` against an honest file server, with acknowledgements repeated at will. */
module FileTransfer {
  import opened Octets
  import opened Wrappers
  import opened FileReader

  /** The reader, and of the request under way its position, the server's answer to it, whether a copy of that
      answer has come, and whether an Error, Abort or Reject has; `sent` counts the requests. */
  datatype World = World(s: State, remote: seq<Octet>, position: nat, answer: Option<Ack>, answered: bool,
                         refused: bool, sent: nat)

  datatype Event =
    | Acked(fromTarget: bool, id: Octet, decoded: Option<Ack>)
    | Refused(fromTarget: bool, id: Octet)
    | Polled(apdu: Word, free: bool, failed: bool, sentId: Octet, answer: Ack)

  /** What a file server may answer: octets of the file from the position on, no more than asked for, none
      only at the end of the file, and End Of File only with the last octet. */
  ghost predicate HonestAnswer(remote: seq<Octet>, position: nat, count: nat, a: Ack) {
    && a.stream && a.position == position && position + |a.data| <= |remote|
    && a.data == remote[position..position + |a.data|] && |a.data| <= count
    && (a.data == [] ==> position == |remote|)
    && (a.endOfFile ==> position + |a.data| == |remote|)
  }

  /** Acknowledgements with the current invoke ID are copies of the answer to the current request, all
      others are arbitrary; an invoke ID is released when its answer or a refusal has come. */
  ghost predicate Allowed(w: World, e: Event) {
    match e
    case Acked(fromTarget, id, decoded) =>
      fromTarget && id == w.s.requestId ==> w.answer.Some? && decoded == w.answer
    case Refused(fromTarget, id) => true
    case Polled(apdu, free, failed, sentId, answer) =>
      && apdu >= 21
      && (free ==> w.answered || w.refused)
      && (Sends(w.s, free) && w.s.start >= 0 ==> HonestAnswer(w.remote, w.s.start, RequestedCount(apdu), answer))
  }

  function After(w: World, e: Event): World {
    match e
    case Acked(fromTarget, id, decoded) =>
      w.(s := AckStep(w.s, fromTarget, id, decoded),
         answered := w.answered || (fromTarget && id == w.s.requestId))
    case Refused(fromTarget, id) =>
      w.(s := ErrorStep(w.s, fromTarget, id), refused := w.refused || (fromTarget && id == w.s.requestId))
    case Polled(apdu, free, failed, sentId, answer) =>
      if Sends(w.s, free) && w.s.start >= 0 then
        World(PollStep(w.s, free, failed, sentId), w.remote, w.s.start,
              if sentId == 0 then None else Some(answer), false, false,
              if sentId == 0 then w.sent else w.sent + 1)
      else w.(s := PollStep(w.s, free, failed, sentId))
  }

  function Start(file: Option<seq<Octet>>, remote: seq<Octet>): World {
    World(State(0, false, false, 0, 0, false, file), remote, 0, None, false, false, 0)
  }

  ghost predicate Prefix(w: World, n: nat) {
    n <= |w.remote| && w.s.file == Some(w.remote[..n])
  }

  ghost predicate Inv(w: World) {
    && 0 <= w.s.start <= |w.remote|
    && w.s.requestId == w.s.invokeId && (w.answer.Some? ==> w.s.invokeId != 0)
    && (w.s.start > 0 || w.answered ==> Prefix(w, w.s.start))
    && (w.s.endOfFile ==> w.s.start == |w.remote| && Prefix(w, w.s.start) && w.answered)
    && (w.refused ==> w.s.error) && (w.answered ==> w.answer.Some?) && (w.s.done ==> w.s.endOfFile || w.s.error)
    && (w.answer.Some? ==>
         && HonestAnswer(w.remote, w.position, |w.answer.value.data|, w.answer.value)
         && w.s.start == w.position + (if w.answered then |w.answer.value.data| else 0)
         && (w.answered && w.answer.value.data == [] ==> w.s.endOfFile))
    && w.sent <= w.s.start + (if w.answered && !w.s.endOfFile then 0 else if w.answer.Some? then 1 else 0)
  }

  /** Writing a chunk where the file so far reaches it leaves a longer prefix, also a second time. */
  lemma ChunkExtends(remote: seq<Octet>, n: nat, at: nat, k: nat)
    requires at <= n <= at + k <= |remote| && (n == at || n == at + k)
    ensures WriteAt(remote[..n], at, remote[at..at + k]) == remote[..at + k]
  {
  }

  lemma AckKeeps(w: World, e: Event)
    requires Inv(w) && e.Acked? && Allowed(w, e)
    ensures Inv(After(w, e))
    ensures e.fromTarget && e.id == w.s.requestId ==> Prefix(After(w, e), After(w, e).s.start)
  {
    if e.fromTarget && e.id == w.s.requestId {
      var a := w.answer.value;
      var p := w.position;
      if p == 0 {
        ChunkExtends(w.remote, 0, 0, |a.data|);
        assert w.remote[..0] == [];
      } else {
        ChunkExtends(w.remote, w.s.start, p, |a.data|);
      }
    }
  }

  lemma RequestKeeps(w: World, free: bool, failed: bool, sentId: Octet, a: Ack, count: nat)
    requires Inv(w) && Sends(w.s, free) && (free ==> w.answered) && HonestAnswer(w.remote, w.s.start, count, a)
    ensures Inv(World(PollStep(w.s, free, failed, sentId), w.remote, w.s.start,
                      if sentId == 0 then None else Some(a), false, false,
                      if sentId == 0 then w.sent else w.sent + 1))
  {
  }

  lemma OtherKeeps(w: World, e: Event)
    requires Inv(w) && !e.Acked? && Allowed(w, e)
    ensures Inv(After(w, e))
  {
    if e.Polled? && Sends(w.s, e.free) {
      RequestKeeps(w, e.free, e.failed, e.sentId, e.answer, RequestedCount(e.apdu));
    }
  }

  function Run(w: World, es: seq<Event>): World
    decreases |es|
  {
    if es == [] then w else Run(After(w, es[0]), es[1..])
  }

  ghost predicate AllowedRun(w: World, es: seq<Event>)
    decreases |es|
  {
    es != [] ==> Allowed(w, es[0]) && AllowedRun(After(w, es[0]), es[1..])
  }

  lemma {:induction false} RunKeeps(w: World, es: seq<Event>)
    requires Inv(w) && AllowedRun(w, es)
    ensures Inv(Run(w, es)) && Run(w, es).remote == w.remote
    decreases |es|
  {
    if es != [] {
      if es[0].Acked? { AckKeeps(w, es[0]); } else { OtherKeeps(w, es[0]); }
      RunKeeps(After(w, es[0]), es[1..]);
    }
  }

  /** In every run, whatever local file there was before: once an answer to the current request has come the
      local file is the prefix of the remote one up to the next position; when the end of file was seen, or
      the transfer ended without error, it is the remote file; and no more requests were made than the file
      has octets, plus one. */
  lemma TransferIsFaithful(file: Option<seq<Octet>>, remote: seq<Octet>, es: seq<Event>)
    requires AllowedRun(Start(file, remote), es)
    ensures var w := Run(Start(file, remote), es);
            && 0 <= w.s.start && (w.answered || w.s.start > 0 ==> Prefix(w, w.s.start))
            && (w.s.endOfFile || (w.s.done && !w.s.error) ==> w.s.file == Some(remote))
            && w.sent <= |remote| + 1
  {
    var w0 := Start(file, remote);
    RunKeeps(w0, es);
    var w := Run(w0, es);
    assert remote[..|remote|] == remote;
  }

  // ----- errors -----

  /** An Error, Abort or Reject from another station, or for another request, changes nothing. */
  lemma StrayRefusal(w: World, fromTarget: bool, id: Octet)
    requires !fromTarget || id != w.s.requestId
    ensures After(w, Refused(fromTarget, id)) == w
  {
  }

  /** Nor does an acknowledgement from another station, for another request, or of another kind. */
  lemma StrayAck(w: World, fromTarget: bool, id: Octet, decoded: Option<Ack>)
    requires !fromTarget || id != w.s.requestId || decoded == None || !decoded.value.stream
    ensures After(w, Acked(fromTarget, id, decoded)).s == w.s
  {
  }

  /** A turn of the loop that finds the invoke ID free. */
  predicate Frees(e: Event) {
    e.Polled? && e.free
  }

  /** Once there was an error, or the end of the file, no request is sent, whatever comes, and a turn with the invoke
      ID free is the last. */
  lemma {:induction false} Stops(w: World, es: seq<Event>)
    requires w.s.error || w.s.endOfFile
    ensures var u := Run(w, es);
            && (w.s.error ==> u.s.error) && (w.s.endOfFile ==> u.s.endOfFile)
            && u.sent == w.sent && u.s.requestId == w.s.requestId
            && (w.s.done || (exists i :: 0 <= i < |es| && Frees(es[i])) ==> u.s.done)
    decreases |es|
  {
    if es != [] {
      Stops(After(w, es[0]), es[1..]);
      if i :| 0 <= i < |es| && Frees(es[i]) {
        assert i > 0 ==> es[1..][i - 1] == es[i];
      }
    }
  }

  /** In every run a refusal of the request under way is the end of the transfer: no request is sent any more, the
      next turn with the invoke ID free ends it, and it ends with the error set. */
  lemma RefusalEnds(w: World, es: seq<Event>)
    requires AllowedRun(w, [Refused(true, w.s.requestId)] + es)
    ensures var u := Run(w, [Refused(true, w.s.requestId)] + es);
            && u.s.error && u.sent == w.sent
            && ((exists i :: 0 <= i < |es| && Frees(es[i])) ==> u.s.done)
  {
    assert ([Refused(true, w.s.requestId)] + es)[1..] == es;
    Stops(After(w, Refused(true, w.s.requestId)), es);
  }

  /** The event is a refusal of the request under way, or a turn of the loop that finds the request failed. */
  predicate Errs(w: World, e: Event) {
    || (e.Refused? && e.fromTarget && e.id == w.s.requestId)
    || (e.Polled? && e.failed && !e.free && !w.s.done && w.s.invokeId != 0)
  }

  ghost predicate ErrsIn(w: World, es: seq<Event>)
    decreases |es|
  {
    es != [] && (Errs(w, es[0]) || ErrsIn(After(w, es[0]), es[1..]))
  }

  /** The transfer is in error if and only if there was such an event. */
  lemma {:induction false} ErrorWhen(w: World, es: seq<Event>)
    requires !w.s.error
    ensures Run(w, es).s.error <==> ErrsIn(w, es)
    decreases |es|
  {
    if es != [] {
      if After(w, es[0]).s.error {
        Stops(After(w, es[0]), es[1..]);
      } else {
        ErrorWhen(After(w, es[0]), es[1..]);
      }
    }
  }

  // ----- the transfer completes -----

  /** A server, as a choice of how much to give at each position. */
  type Server = (nat, nat) -> nat

  ghost predicate Serves(f: Server, remote: seq<Octet>) {
    forall p: nat, n: nat {:trigger f(p, n)} :: p <= |remote| && n > 0 ==>
      f(p, n) <= n && p + f(p, n) <= |remote| && (f(p, n) == 0 ==> p == |remote|)
  }

  function AnswerOf(remote: seq<Octet>, p: nat, k: nat): Ack
    requires p + k <= |remote|
  {
    Ack(true, p, remote[p..p + k], p + k == |remote|)
  }

  ghost predicate Idle(w: World) {
    Inv(w) && !w.s.done && !w.s.error && (w.s.invokeId == 0 || w.answered)
  }

  /** One request and its answer. */
  lemma Round(w: World, apdu: Word, id: Octet, k: nat) returns (es: seq<Event>)
    requires Idle(w) && !w.s.endOfFile && apdu >= 21 && id != 0 && k <= RequestedCount(apdu)
    requires w.s.start + k <= |w.remote| && (k == 0 ==> w.s.start == |w.remote|)
    ensures |es| == 2 && AllowedRun(w, es)
    ensures var v := Run(w, es);
            && Idle(v) && v.remote == w.remote && v.s.start == w.s.start + k
            && (v.s.endOfFile <==> w.s.start + k == |w.remote|)
  {
    var a := AnswerOf(w.remote, w.s.start, k);
    var e1, e2 := Polled(apdu, w.answered, false, id, a), Acked(true, id, Some(a));
    var u := After(w, e1);
    OtherKeeps(w, e1);
    AckKeeps(u, e2);
    es := [e1, e2];
    assert es[1..] == [e2] && [e2][1..] == [];
    assert Run(u, [e2]) == Run(After(u, e2), []);
    assert AllowedRun(u, [e2]);
  }

  lemma {:induction false} RunAppend(w: World, a: seq<Event>, b: seq<Event>)
    requires AllowedRun(w, a) && AllowedRun(Run(w, a), b)
    ensures AllowedRun(w, a + b) && Run(w, a + b) == Run(Run(w, a), b)
    decreases |a|
  {
    if a == [] {
      assert a + b == b;
    } else {
      assert (a + b)[1..] == a[1..] + b;
      RunAppend(After(w, a[0]), a[1..], b);
    }
  }

  /** Against any server that gives something while there is something left, asking on reaches the end of
      the file, with the remote file copied. */
  lemma {:induction false} TransferCompletes(w: World, apdu: Word, f: Server) returns (es: seq<Event>)
    requires Idle(w) && !w.s.endOfFile && apdu >= 21 && Serves(f, w.remote)
    ensures AllowedRun(w, es) && |es| <= 2 * (|w.remote| - w.s.start + 1)
    ensures Run(w, es).s.endOfFile && Run(w, es).s.file == Some(w.remote)
    decreases |w.remote| - w.s.start
  {
    CountFits(apdu);
    var k := f(w.s.start, RequestedCount(apdu));
    es := Round(w, apdu, 1, k);
    var v := Run(w, es);
    if v.s.endOfFile {
      assert w.remote[..|w.remote|] == w.remote;
    } else {
      var rest := TransferCompletes(v, apdu, f);
      RunAppend(w, es, rest);
      es := es + rest;
    }
  }
}
