/** `mstpcap` as it runs: the live capture and the scan, both feeding the streaming statistics. */
module CaptureTool {
  import opened Octets
  import opened Crc
  import opened FrameHistory
  import opened FrameStatistics
  import opened Capture
  import opened Replay

  // ----- the tool watching the bus -----

  lemma Longer<T>(before: seq<T>, more: seq<T>, i: nat)
    requires i <= |more|
    ensures i < |more| ==> before + more[..i + 1] == before + more[..i] + [more[i]]
    ensures i == |more| ==> before + more[..i] == before + more
  {
  }

  class Recorder {
    const monitor: Monitor
    /** The file being written. */
    var file: seq<Octet>
    /** The frames seen since the file was begun. */
    ghost var seen: seq<Seen>

    ghost predicate Valid()
      reads this, monitor, monitor.nodes
    {
      && monitor.Valid()
      && file == GLOBAL_HEADER + Recorded(seen)
      && monitor.history[monitor.clearedAt..] == Frames(seen)
    }

    constructor ()
      ensures Valid() && fresh(monitor) && fresh(monitor.nodes) && seen == [] && monitor.history == []
    {
      monitor := new Monitor();
      file := GLOBAL_HEADER;
      seen := [];
    }

    /** `write_received_packet` for a valid frame: count it, then append its record. */
    method Watch(at: Stamp, port: Port)
      requires Valid()
      modifies this, monitor, monitor.nodes
      ensures Valid() && seen == old(seen) + [Seen(at, port)]
      ensures monitor.clearedAt == old(monitor.clearedAt)
      ensures monitor.history == old(monitor.history) + [Seen(at, port).Frame()]
    {
      monitor.Packet(Frame(at, port.kind, port.dst, port.src));
      Append(at, port);
    }

    /** The capture of several frames in turn. */
    method WatchAll(more: seq<Seen>)
      requires Valid()
      modifies this, monitor, monitor.nodes
      ensures Valid() && seen == old(seen) + more
      ensures monitor.clearedAt == old(monitor.clearedAt)
    {
      ghost var before := seen;
      for i := 0 to |more|
        invariant Valid() && seen == before + more[..i]
        invariant monitor.clearedAt == old(monitor.clearedAt)
      {
        Watch(more[i].at, more[i].port);
        Longer(before, more, i);
      }
      Longer(before, more, |more|);
    }

    method Append(at: Stamp, port: Port)
      requires file == GLOBAL_HEADER + Recorded(seen)
      modifies `file, `seen
      ensures file == GLOBAL_HEADER + Recorded(seen) && seen == old(seen) + [Seen(at, port)]
      ensures Frames(seen) == old(Frames(seen)) + [Seen(at, port).Frame()]
    {
      RecordedSnoc(seen, Seen(at, port));
      Associate(GLOBAL_HEADER, Recorded(seen), Record(at, port));
      file := file + Record(at, port);
      seen := seen + [Seen(at, port)];
    }

    /** After 65535 packets: the counters are cleared and a file begun, the memory of the last frame stays. */
    method NewFile()
      requires Valid()
      modifies this, monitor`clearedAt, monitor.nodes
      ensures Valid() && seen == [] && monitor.clearedAt == |monitor.history|
    {
      monitor.Clear();
      file := GLOBAL_HEADER;
      seen := [];
      assert monitor.history[monitor.clearedAt..] == [];
    }
  }

  // ----- the tool scanning a file -----

  /** The tests of one packet, by the loops of `read_received_packet`. */
  method ReadPacket(s: seq<Octet>) returns (r: Read)
    ensures r == ReadRecord(s)
  {
    if |s| < 24 {
      return End;
    }
    var header, body := s[16..24], s[24..];
    var at := Stamp(Word32(s), Word32(s[4..]));
    var size: int := Word32(s[12..]);
    var frame := Frame(at, header[2], header[3], header[4]);
    var headerCrc := HeaderRegister(Bits(header[2..]));
    var valid := headerCrc == HEADER_RESIDUE;
    var length := 0;
    if size > 8 {
      length := (size - 10) % 0x1_0000;
      if length == 0 || |body| < length + 2 {
        return End;
      }
      var dataCrc := DataRegister(Bits(body[..length + 2]));
      valid := dataCrc == DATA_RESIDUE;
      return Got(frame, body[..length], valid, body[length + 2..]);
    }
    return Got(frame, [], valid, body);
  }

  /** The loop of `--scan` over the records behind the file header. */
  method ScanRecords(records: seq<Octet>, monitor: Monitor) returns (packets: nat, invalid: nat, rest: seq<Octet>)
    requires monitor.Valid() && monitor.clearedAt == 0
    modifies monitor, monitor.nodes
    ensures monitor.Valid() && monitor.clearedAt == 0
    ensures Findings(monitor.history, packets, invalid, rest)
            == ScanFrom(records, Findings(old(monitor.history), 0, 0, []))
  {
    packets, invalid, rest := 0, 0, records;
    ghost var found := Findings(monitor.history, 0, 0, []);
    ghost var goal := ScanFrom(records, found);
    var r := ReadPacket(rest);
    while r.Got?
      invariant monitor.Valid() && monitor.clearedAt == 0
      invariant r == ReadRecord(rest)
      invariant found == Findings(monitor.history, packets, invalid, []) && ScanFrom(rest, found) == goal
      decreases |rest|
    {
      ScanStep(rest, found, r);
      found := Noted(found, r.frame, r.valid);
      packets := packets + 1;
      if r.valid {
        monitor.Packet(r.frame);
      } else {
        invalid := invalid + 1;
      }
      rest := r.rest;
      r := ReadPacket(rest);
    }
  }

  /** `--scan`: nothing is counted unless the file header matches. */
  method Scan(file: seq<Octet>) returns (ok: bool, packets: nat, invalid: nat, monitor: Monitor, rest: seq<Octet>)
    ensures fresh(monitor) && fresh(monitor.nodes) && monitor.Valid() && monitor.clearedAt == 0
    ensures ok <==> HeaderMatches(file)
    ensures Findings(monitor.history, packets, invalid, rest)
            == if ok then ScanFrom(file[24..], NOTHING_FOUND) else Findings([], 0, 0, file)
  {
    monitor := new Monitor();
    ok, packets, invalid, rest := HeaderMatches(file), 0, 0, file;
    if ok {
      packets, invalid, rest := ScanRecords(file[24..], monitor);
    }
  }

  /** A monitor that saw what was scanned and one that was fed by the scan agree on every station. */
  lemma NodesAgree(live: Monitor, later: Monitor, seen: seq<Seen>)
    requires forall i :: 0 <= i < |seen| ==> seen[i].Good()
    requires live.Valid() && live.history == Frames(seen) && live.clearedAt == 0
    requires later.Valid() && later.history == AllWrapped(Frames(seen)) && later.clearedAt == 0
    ensures live.nodes[..] == later.nodes[..]
  {
    forall m: Octet ensures live.nodes[m] == later.nodes[m] {
      ReplayEquivalence(seen, m);
    }
    assert forall i :: 0 <= i < 0x100 ==> live.nodes[i] == later.nodes[i];
  }

  /** A capture of these frames, from the start of the tool. */
  method CaptureAll(seen: seq<Seen>) returns (live: Monitor, file: seq<Octet>)
    ensures live.Valid() && live.history == Frames(seen) && live.clearedAt == 0
    ensures file == GLOBAL_HEADER + Recorded(seen)
  {
    var tool := new Recorder();
    tool.WatchAll(seen);
    assert [] + seen == seen;
    live, file := tool.monitor, tool.file;
    assert live.history == live.history[0..];
  }

  /** The two runs of the tool side by side: all packets are found again, and all 256 stations end with
      the statistics they had. */
  method WatchThenScan(seen: seq<Seen>) returns (live: Monitor, later: Monitor, packets: nat)
    requires forall i :: 0 <= i < |seen| ==> seen[i].Good()
    ensures live.Valid() && live.history == Frames(seen) && packets == |seen|
    ensures live.nodes[..] == later.nodes[..]
  {
    var file;
    live, file := CaptureAll(seen);
    var ok, invalid, rest;
    ok, packets, invalid, later, rest := Scan(file);
    ReplayEquivalence(seen, 0);
    NodesAgree(live, later, seen);
  }
}
