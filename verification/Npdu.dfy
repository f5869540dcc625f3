/** The network-layer header codec (`npdu.c`): what a router puts on the wire and
    what the next router reads from it. */
module NpduCodec {
  import opened Octets

  type Priority = x: int | 0 <= x < 4

  datatype Content =
    | Apdu(apdu: seq<Octet>)
    | Control(kind: Octet, vendor: Net, payload: seq<Octet>)

  /** A decoded NPDU. `dnet == 0` means no destination specifier, `snet == 0` no
      source specifier. */
  datatype Npdu = Npdu(expectingReply: bool, priority: Priority,
                       dnet: Net, dadr: Mac, snet: Net, sadr: Mac,
                       hop: Octet, content: Content)
  {
    function ControlOctet(): Octet {
      (if content.Control? then 0x80 else 0)
      + (if dnet != 0 then 0x20 else 0)
      + (if HasSource() then 0x08 else 0)
      + (if expectingReply then 0x04 else 0)
      + priority
    }

    /** The encoder writes the source fields only when both are present. */
    predicate HasSource() {
      snet != 0 && sadr != []
    }

    /** Nothing is set that the wire format cannot carry. */
    predicate Canonical() {
      && (dnet == 0 ==> dadr == [] && hop == 0)
      && (snet == 0 <==> sadr == [])
      && (content.Control? && content.kind < 0x80 ==> content.vendor == 0)
    }

    /** What survives a trip over the wire. */
    function Normal(): Npdu {
      this.(dadr := if dnet == 0 then [] else dadr,
            hop := if dnet == 0 then 0 else hop,
            snet := if HasSource() then snet else 0,
            sadr := if HasSource() then sadr else [],
            content := if content.Control? && content.kind < 0x80 then content.(vendor := 0) else content)
    }
  }

  function EncodeAddress(net: Net, adr: Mac): seq<Octet> {
    EncodeNet(net) + [|adr|] + adr
  }

  function EncodeContentHeader(c: Content): seq<Octet> {
    match c
    case Apdu(_) => []
    case Control(kind, vendor, _) => [kind] + (if kind >= 0x80 then EncodeNet(vendor) else [])
  }

  function Payload(c: Content): seq<Octet> {
    match c
    case Apdu(apdu) => apdu
    case Control(_, _, payload) => payload
  }

  function EncodeDestination(m: Npdu): seq<Octet> {
    if m.dnet != 0 then EncodeAddress(m.dnet, m.dadr) else []
  }

  function EncodeSource(m: Npdu): seq<Octet> {
    if m.HasSource() then EncodeAddress(m.snet, m.sadr) else []
  }

  function EncodeHop(m: Npdu): seq<Octet> {
    if m.dnet != 0 then [m.hop] else []
  }

  /** Everything `npdu_encode_pdu` writes. */
  function EncodeHeader(m: Npdu): seq<Octet> {
    [1, m.ControlOctet()] + EncodeDestination(m) + EncodeSource(m) + EncodeHop(m) + EncodeContentHeader(m.content)
  }

  /** The whole frame: the header followed by the APDU or message payload. */
  function Encode(m: Npdu): seq<Octet> {
    EncodeHeader(m) + Payload(m.content)
  }

  /** One address specifier: absent or cut short (nothing consumed), malformed, or read. */
  datatype Specifier = Malformed | Specifier(net: Net, adr: Mac, rest: seq<Octet>)

  function DecodeAddress(present: bool, s: seq<Octet>): Specifier {
    if !present || |s| < 3 then Specifier(0, [], s)
    else
      var len := s[2];
      if len > MAX_MAC_LEN || |s| - 3 < len then Malformed
      else Specifier(DecodeNet(s), s[3..3 + len], s[3 + len..])
  }

  function DecodeContent(control: bool, s: seq<Octet>): Content {
    if !control then Apdu(s)
    else if s == [] then Control(0, 0, [])
    else if s[0] >= 0x80 && |s| >= 3 then Control(s[0], DecodeNet(s[1..]), s[3..])
    else Control(s[0], 0, s[1..])
  }

  datatype Decoded = Discarded | Decoded(npdu: Npdu)

  /** `bacnet_npdu_decode` as the routers call it: destination and source start out zero. */
  function Decode(s: seq<Octet>): Decoded {
    if |s| < 2 then Discarded else DecodeDestination(s[1], s[2..])
  }

  function DecodeDestination(ctl: Octet, s: seq<Octet>): Decoded {
    match DecodeAddress((ctl / 0x20) % 2 == 1, s)
    case Malformed => Discarded
    case Specifier(dnet, dadr, rest) => DecodeSource(ctl, dnet, dadr, rest)
  }

  function DecodeSource(ctl: Octet, dnet: Net, dadr: Mac, s: seq<Octet>): Decoded {
    match DecodeAddress((ctl / 0x08) % 2 == 1, s)
    case Malformed => Discarded
    case Specifier(snet, sadr, rest) =>
      var hasHop := dnet != 0 && rest != [];
      Decoded(Npdu((ctl / 0x04) % 2 == 1, ctl % 4, dnet, dadr, snet, sadr,
                   if hasHop then rest[0] else 0,
                   DecodeContent(ctl / 0x80 == 1, if hasHop then rest[1..] else rest)))
  }

  lemma AddressRoundTrip(net: Net, adr: Mac, rest: seq<Octet>)
    ensures DecodeAddress(true, EncodeAddress(net, adr) + rest) == Specifier(net, adr, rest)
  {
    var s := EncodeAddress(net, adr) + rest;
    assert s == EncodeNet(net) + ([|adr|] + adr + rest);
    NetRoundTrip(net, [|adr|] + adr + rest);
    assert s[3..3 + |adr|] == adr && s[3 + |adr|..] == rest;
  }

  lemma ContentRoundTrip(c: Content)
    ensures DecodeContent(c.Control?, EncodeContentHeader(c) + Payload(c))
            == if c.Control? && c.kind < 0x80 then c.(vendor := 0) else c
  {
    var s := EncodeContentHeader(c) + Payload(c);
    match c
    case Apdu(apdu) =>
      assert s == apdu;
    case Control(kind, vendor, payload) =>
      if kind >= 0x80 {
        assert s[1..] == EncodeNet(vendor) + payload;
        NetRoundTrip(vendor, payload);
        assert s[3..] == payload;
      } else {
        assert s[1..] == payload;
      }
  }

  lemma ControlOctetBits(m: Npdu)
    ensures var c := m.ControlOctet();
            && (c / 0x80 == 1) == m.content.Control?
            && ((c / 0x20) % 2 == 1) == (m.dnet != 0)
            && ((c / 0x08) % 2 == 1) == m.HasSource()
            && ((c / 0x04) % 2 == 1) == m.expectingReply
            && c % 4 == m.priority
  {
  }

  lemma SourceRoundTrip(m: Npdu, content: seq<Octet>)
    requires content == EncodeContentHeader(m.content) + Payload(m.content)
    ensures DecodeSource(m.ControlOctet(), m.dnet, if m.dnet != 0 then m.dadr else [],
                         EncodeSource(m) + (EncodeHop(m) + content))
            == Decoded(m.Normal())
  {
    ControlOctetBits(m);
    var tail := EncodeHop(m) + content;
    if m.HasSource() {
      AddressRoundTrip(m.snet, m.sadr, tail);
    } else {
      assert EncodeSource(m) + tail == tail;
    }
    if m.dnet != 0 {
      assert tail[1..] == content;
    } else {
      assert tail == content;
    }
    ContentRoundTrip(m.content);
  }

  lemma Regroup(a: seq<Octet>, b: seq<Octet>, c: seq<Octet>, d: seq<Octet>, e: seq<Octet>, f: seq<Octet>)
    ensures (a + b + c + d + e + f)[|a|..] == b + (c + (d + (e + f)))
  {
  }

  lemma DestinationRoundTrip(m: Npdu, rest: seq<Octet>)
    ensures DecodeDestination(m.ControlOctet(), EncodeDestination(m) + rest)
            == DecodeSource(m.ControlOctet(), m.dnet, if m.dnet != 0 then m.dadr else [], rest)
  {
    ControlOctetBits(m);
    if m.dnet != 0 {
      AddressRoundTrip(m.dnet, m.dadr, rest);
    } else {
      assert EncodeDestination(m) + rest == rest;
    }
  }

  /** Decoding what was encoded loses exactly what the wire cannot carry. */
  lemma WireRoundTrip(m: Npdu)
    ensures Decode(Encode(m)) == Decoded(m.Normal())
  {
    var content := EncodeContentHeader(m.content) + Payload(m.content);
    var source := EncodeSource(m) + (EncodeHop(m) + content);
    Regroup([1, m.ControlOctet()], EncodeDestination(m), EncodeSource(m), EncodeHop(m),
            EncodeContentHeader(m.content), Payload(m.content));
    DestinationRoundTrip(m, source);
    SourceRoundTrip(m, content);
  }

  /** The round trip is the identity on canonical headers and on no others. */
  lemma WireIdentity(m: Npdu)
    ensures Decode(Encode(m)) == Decoded(m) <==> m.Canonical()
  {
    WireRoundTrip(m);
  }

  /** What is alike behind `i` is alike behind anything further. */
  lemma Further(a: seq<Octet>, b: seq<Octet>, i: nat, j: nat)
    requires |a| == |b| && i <= j <= |a| && a[i..] == b[i..]
    ensures a[j..] == b[j..]
  {
    assert a[j..] == a[i..][j - i..] && b[j..] == b[i..][j - i..];
  }

  /** `npdu_encode_pdu`: fills the front of the transmit buffer and returns how much it used; what lies behind
      stays as it was. */
  method EncodePdu(tx: array<Octet>, m: Npdu) returns (len: nat)
    requires tx.Length >= |EncodeHeader(m)|
    modifies tx
    ensures len == |EncodeHeader(m)|
    ensures tx[..len] == EncodeHeader(m) && tx[len..] == old(tx[..])[len..]
  {
    ghost var was := tx[..];
    tx[0], tx[1] := 1, m.ControlOctet();
    ghost var front := [1, m.ControlOctet()];
    assert tx[..2] == front && tx[2..] == was[2..];
    len := PutAddressIf(tx, 2, m.dnet != 0, m.dnet, m.dadr, was);
    assert tx[..len] == front + EncodeDestination(m);
    len := PutAddressIf(tx, len, m.HasSource(), m.snet, m.sadr, was);
    assert tx[..len] == front + EncodeDestination(m) + EncodeSource(m);
    len := PutHop(tx, len, m, was);
    len := PutContentHeader(tx, len, m.content, was);
  }

  method PutAddressIf(tx: array<Octet>, at: nat, present: bool, net: Net, adr: Mac, ghost was: seq<Octet>)
    returns (len: nat)
    requires |was| == tx.Length && at <= tx.Length && tx[at..] == was[at..]
    requires present ==> at + |EncodeAddress(net, adr)| <= tx.Length
    modifies tx
    ensures len == at + (if present then |EncodeAddress(net, adr)| else 0) && tx[len..] == was[len..]
    ensures tx[..len] == old(tx[..at]) + if present then EncodeAddress(net, adr) else []
  {
    len := at;
    if present {
      len := PutAddress(tx, at, net, adr);
      Further(old(tx[..]), was, at, len);
    }
  }

  method PutHop(tx: array<Octet>, at: nat, m: Npdu, ghost was: seq<Octet>) returns (len: nat)
    requires |was| == tx.Length && at + |EncodeHop(m)| <= tx.Length && tx[at..] == was[at..]
    modifies tx
    ensures len == at + |EncodeHop(m)| && tx[len..] == was[len..]
    ensures tx[..len] == old(tx[..at]) + EncodeHop(m)
  {
    len := at;
    if m.dnet != 0 {
      len := PutOctet(tx, at, m.hop);
      Further(old(tx[..]), was, at, len);
    }
  }

  method PutContentHeader(tx: array<Octet>, at: nat, c: Content, ghost was: seq<Octet>) returns (len: nat)
    requires |was| == tx.Length && at + |EncodeContentHeader(c)| <= tx.Length && tx[at..] == was[at..]
    modifies tx
    ensures len == at + |EncodeContentHeader(c)| && tx[len..] == was[len..]
    ensures tx[..len] == old(tx[..at]) + EncodeContentHeader(c)
  {
    len := at;
    if c.Control? {
      len := PutOctet(tx, at, c.kind);
      Further(old(tx[..]), was, at, len);
      if c.kind >= 0x80 {
        ghost var first := tx[..];
        len := PutNet(tx, len, c.vendor);
        Further(first, was, at + 1, len);
      }
    }
  }

  method PutOctet(tx: array<Octet>, at: nat, x: Octet) returns (len: nat)
    requires at < tx.Length
    modifies tx
    ensures len == at + 1 && tx[..len] == old(tx[..at]) + [x] && tx[len..] == old(tx[..])[len..]
  {
    tx[at] := x;
    len := at + 1;
  }

  method PutNet(tx: array<Octet>, at: nat, net: Net) returns (len: nat)
    requires at + 2 <= tx.Length
    modifies tx
    ensures len == at + 2 && tx[..len] == old(tx[..at]) + EncodeNet(net) && tx[len..] == old(tx[..])[len..]
  {
    tx[at], tx[at + 1] := net / 0x100, net % 0x100;
    len := at + 2;
  }

  method PutAddress(tx: array<Octet>, at: nat, net: Net, adr: Mac) returns (len: nat)
    requires at + |EncodeAddress(net, adr)| <= tx.Length
    modifies tx
    ensures len == at + |EncodeAddress(net, adr)|
    ensures tx[..len] == old(tx[..at]) + EncodeAddress(net, adr) && tx[len..] == old(tx[..])[len..]
  {
    ghost var was := tx[..];
    len := PutNet(tx, at, net);
    ghost var first := tx[..];
    len := PutOctet(tx, len, |adr|);
    Further(first, was, at + 2, len);
    ghost var front := tx[..len];
    for i := 0 to |adr|
      invariant len == |front| + i
      invariant tx[..len] == front + adr[..i] && tx[len..] == was[len..]
    {
      ghost var before := tx[..];
      len := PutOctet(tx, len, adr[i]);
      Further(before, was, len - 1, len);
      assert adr[..i + 1] == adr[..i] + [adr[i]];
    }
    assert adr[..|adr|] == adr;
  }
}
