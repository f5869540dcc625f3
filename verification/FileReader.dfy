/** `readfile`: a remote file fetched in chunks by request and acknowledgement. */
module FileReader {
  import opened Octets
  import opened Wrappers

  /** An AtomicReadFile acknowledgement as it decodes. */
  datatype Ack = Ack(stream: bool, position: int, data: seq<Octet>, endOfFile: bool)

  /** The variables of the program; `file` is the local file, if there is one. */
  datatype State = State(start: int, endOfFile: bool, error: bool, requestId: Octet, invokeId: Octet, done: bool,
                         file: Option<seq<Octet>>)

  /** The octets to ask for: the APDU less its overhead, in 32-bit arithmetic. */
  function RequestedCount(apdu: Word): Word {
    if apdu <= 50 then (if apdu >= 20 then apdu - 20 else apdu - 20 + WORD)
    else if apdu <= 480 then apdu - 32
    else if apdu <= 1476 then apdu - 64
    else apdu / 2
  }

  /** A request asks for at least one octet and no more than the APDU if and only if the APDU is at least 21 octets. */
  lemma CountFits(apdu: Word)
    ensures 1 <= RequestedCount(apdu) <= apdu <==> apdu >= 21
  {
    if apdu < 20 { assert RequestedCount(apdu) > apdu; }
  }

  /** The typical APDU sizes, and what is asked for at each. */
  lemma TypicalCounts()
    ensures RequestedCount(50) == 30 && RequestedCount(128) == 96 && RequestedCount(206) == 174
    ensures RequestedCount(480) == 448 && RequestedCount(1024) == 960 && RequestedCount(1476) == 1412
  {
  }

  /** A file after a write at a position; a gap reads as zeros. */
  function WriteAt(f: seq<Octet>, at: nat, data: seq<Octet>): seq<Octet> {
    if at > |f| then f + seq(at - |f|, _ => 0) + data
    else f[..at] + data + (if at + |data| <= |f| then f[at + |data|..] else [])
  }

  /** `AtomicReadFileAckHandler`. */
  function AckStep(s: State, fromTarget: bool, id: Octet, decoded: Option<Ack>): State {
    if fromTarget && id == s.requestId && decoded.Some? && decoded.value.stream then Accept(s, decoded.value) else s
  }

  /** Position 0 makes the file anew, any other opens the one there is. */
  function Opened(s: State, a: Ack): Option<seq<Octet>> {
    if a.position == 0 then Some([]) else s.file
  }

  function Accept(s: State, a: Ack): State {
    match Opened(s, a)
    case None => s.(endOfFile := s.endOfFile || a.endOfFile)
    case Some(f) =>
      if a.data == [] then s.(file := Some(f), endOfFile := true)
      else if a.position < 0 then s.(file := Some(f), endOfFile := s.endOfFile || a.endOfFile)
      else s.(file := Some(WriteAt(f, a.position, a.data)), start := a.position + |a.data|,
              endOfFile := s.endOfFile || a.endOfFile)
  }

  /** The error, abort and reject handlers. */
  function ErrorStep(s: State, fromTarget: bool, id: Octet): State {
    if fromTarget && id == s.requestId then s.(error := true) else s
  }

  predicate Sends(s: State, free: bool) {
    !s.done && (s.invokeId == 0 || free) && !s.endOfFile && !s.error
  }

  /** One turn of the request loop once the device is bound; `sentId` is the invoke ID the transaction
      machine gives out, 0 for none. */
  function PollStep(s: State, free: bool, failed: bool, sentId: Octet): State {
    if s.done then s
    else if s.invokeId == 0 || free then
      if s.endOfFile || s.error then s.(done := true)
      else s.(invokeId := sentId, requestId := sentId)
    else if failed then s.(error := true, done := true)
    else s
  }

  datatype Waiting = Waiting(found: bool, elapsed: nat)

  /** The wait for the device in one turn, in which so many seconds passed. */
  function Waited(w: Waiting, bound: bool, seconds: nat): Waiting {
    if w.found || bound then w.(found := true) else w.(elapsed := w.elapsed + seconds)
  }

  /** A turn of the wait: whether the device has bound, and the seconds that passed. */
  datatype Pause = Pause(bound: bool, seconds: nat)

  /** The reader gives the device up in one of these turns. */
  predicate GivesUp(w: Waiting, turns: seq<Pause>, timeout: nat)
    decreases |turns|
  {
    turns != [] &&
    var u := Waited(w, turns[0].bound, turns[0].seconds);
    !u.found && (u.elapsed > timeout || GivesUp(u, turns[1..], timeout))
  }

  function Seconds(turns: seq<Pause>): nat {
    if turns == [] then 0 else turns[0].seconds + Seconds(turns[1..])
  }

  /** Those before the device binds. */
  function Unbound(turns: seq<Pause>): (u: seq<Pause>)
    ensures u <= turns
  {
    if turns == [] || turns[0].bound then [] else [turns[0]] + Unbound(turns[1..])
  }

  /** It does if and only if the turns before the device binds take more than the timeout. */
  lemma {:induction false} GivesUpWhen(w: Waiting, turns: seq<Pause>, timeout: nat)
    requires !w.found && w.elapsed <= timeout
    ensures GivesUp(w, turns, timeout) <==> w.elapsed + Seconds(Unbound(turns)) > timeout
    decreases |turns|
  {
    if turns != [] && !turns[0].bound {
      var u := Waited(w, false, turns[0].seconds);
      assert Unbound(turns)[1..] == Unbound(turns[1..]);
      if u.elapsed <= timeout { GivesUpWhen(u, turns[1..], timeout); }
    }
  }

  class Reader {
    var start: int
    var endOfFile: bool
    var error: bool
    var requestId: Octet
    var invokeId: Octet
    var done: bool
    var file: Option<seq<Octet>>
    /** Whether the device is bound, and the seconds waited for it. */
    var found: bool
    var elapsed: nat
    const timeout: nat

    ghost function Contents(): State
      reads this
    {
      State(start, endOfFile, error, requestId, invokeId, done, file)
    }

    constructor (file: Option<seq<Octet>>, found: bool, timeout: nat)
      ensures Contents() == State(0, false, false, 0, 0, false, file)
      ensures this.found == found && elapsed == 0 && this.timeout == timeout
    {
      this.found, elapsed, this.timeout := found, 0, timeout;
      start, endOfFile, error, requestId, invokeId, done := 0, false, false, 0, 0, false;
      this.file := file;
    }

    method AckHandler(fromTarget: bool, id: Octet, decoded: Option<Ack>)
      modifies this
      ensures Contents() == AckStep(old(Contents()), fromTarget, id, decoded)
    {
      if fromTarget && id == requestId {
        if decoded.Some? && decoded.value.stream {
          var data := decoded.value;
          if data.position == 0 {
            file := Some([]);
          }
          if file.Some? {
            if |data.data| == 0 {
              if !data.endOfFile {
                data := data.(endOfFile := true);
              }
            } else if data.position >= 0 {
              file := Some(WriteAt(file.value, data.position, data.data));
              start := data.position + |data.data|;
            }
          }
          if data.endOfFile {
            endOfFile := true;
          }
        }
      }
    }

    method ErrorHandler(fromTarget: bool, id: Octet)
      modifies this
      ensures Contents() == ErrorStep(old(Contents()), fromTarget, id)
    {
      if fromTarget && id == requestId {
        error := true;
      }
    }

    /** One turn of the loop: until the device is bound it only waits, and gives up after the timeout. */
    method Turn(bound: bool, seconds: nat, apdu: Word, free: bool, failed: bool, sentId: Octet)
      returns (request: Option<(int, Word)>)
      modifies this
      ensures !old(done) ==> Waiting(found, elapsed) == Waited(old(Waiting(found, elapsed)), bound, seconds)
      ensures Contents() == if old(done) then old(Contents())
                            else if found then PollStep(old(Contents()), free, failed, sentId)
                            else if elapsed > timeout then old(Contents()).(error := true, done := true)
                            else old(Contents())
      ensures request == if found && Sends(old(Contents()), free) then Some((start, RequestedCount(apdu))) else None
    {
      request := None;
      if !done {
        if !found {
          found := bound;
        }
        if found {
          request := Poll(apdu, free, failed, sentId);
        } else {
          elapsed := elapsed + seconds;
          if elapsed > timeout {
            error, done := true, true;
          }
        }
      }
    }

    /** A turn once the device is bound; a request carries the position and the count. */
    method Poll(apdu: Word, free: bool, failed: bool, sentId: Octet) returns (request: Option<(int, Word)>)
      modifies this
      ensures found == old(found) && elapsed == old(elapsed)
      ensures Contents() == PollStep(old(Contents()), free, failed, sentId)
      ensures request == if Sends(old(Contents()), free) then Some((start, RequestedCount(apdu))) else None
    {
      request := None;
      if !done {
        if invokeId == 0 || free {
          if endOfFile || error {
            done := true;
          } else {
            request := Some((start, RequestedCount(apdu)));
            invokeId := sentId;
            requestId := sentId;
          }
        } else if failed {
          error := true;
          done := true;
        }
      }
    }
  }
}
