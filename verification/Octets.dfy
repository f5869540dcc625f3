/** Octets, words, network numbers and MAC addresses, with the big-endian 16-bit
    encoding every network-layer field uses. */
module Octets {

  type Octet = x: int | 0 <= x < 0x100

  /** A `uint32_t`. */
  type Word = x: int | 0 <= x < 0x1_0000_0000

  const WORD: int := 0x1_0000_0000

  /** A BACnet network number (`uint16_t`). */
  type Net = x: int | 0 <= x < 0x1_0000

  /** A MAC address: at most MAX_MAC_LEN octets, the empty address meaning
      "broadcast on the local network". */
  type Mac = s: seq<Octet> | |s| <= 7

  const MAX_MAC_LEN: nat := 7

  /** BACNET_BROADCAST_NETWORK. */
  const BROADCAST: Net := 0xFFFF

  function EncodeNet(n: Net): (s: seq<Octet>)
    ensures |s| == 2
  {
    [n / 0x100, n % 0x100]
  }

  function DecodeNet(s: seq<Octet>): (n: Net)
    requires |s| >= 2
    ensures EncodeNet(n) == s[..2]
  {
    (s[0] as int) * 0x100 + s[1]
  }

  lemma NetRoundTrip(n: Net, rest: seq<Octet>)
    ensures DecodeNet(EncodeNet(n) + rest) == n
  {
    var s := EncodeNet(n) + rest;
    assert s[0] == n / 0x100 && s[1] == n % 0x100;
  }

  function EncodeNets(ns: seq<Net>): (s: seq<Octet>)
    ensures |s| == 2 * |ns|
  {
    if ns == [] then [] else EncodeNet(ns[0]) + EncodeNets(ns[1..])
  }

  /** The list of network numbers a payload carries; a trailing odd octet is ignored. */
  function DecodeNets(s: seq<Octet>): (ns: seq<Net>)
    ensures |ns| == |s| / 2
  {
    if |s| < 2 then [] else [DecodeNet(s)] + DecodeNets(s[2..])
  }

  lemma {:induction false} NetsRoundTrip(ns: seq<Net>)
    ensures DecodeNets(EncodeNets(ns)) == ns
  {
    if ns != [] {
      var rest := EncodeNets(ns[1..]);
      NetRoundTrip(ns[0], rest);
      assert (EncodeNet(ns[0]) + rest)[2..] == rest;
      NetsRoundTrip(ns[1..]);
      assert [ns[0]] + ns[1..] == ns;
    }
  }

  lemma Associate<T>(a: seq<T>, b: seq<T>, c: seq<T>)
    ensures a + (b + c) == (a + b) + c
  {
  }

  lemma {:induction false} EncodeNetsConcat(a: seq<Net>, b: seq<Net>)
    ensures EncodeNets(a + b) == EncodeNets(a) + EncodeNets(b)
  {
    if a == [] {
      assert a + b == b;
    } else {
      EncodeNetsConcat(a[1..], b);
      assert (a + b)[1..] == a[1..] + b && (a + b)[0] == a[0];
      Associate(EncodeNet(a[0]), EncodeNets(a[1..]), EncodeNets(b));
    }
  }
}
