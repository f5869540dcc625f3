/** The two CRCs of MS/TP frames (Annex G of ANSI/ASHRAE 135), as `crc.c` computes them. */
module Crc {

  /** `CRC_Calc_Header`, the bitwise form. */
  function HeaderStep(data: bv8, crc: bv8): bv8 {
    HeaderMix(crc ^ data)
  }

  function HeaderMix(octet: bv8): bv8 {
    var c := octet as bv16;
    var d := c ^ (c << 1) ^ (c << 2) ^ (c << 3) ^ (c << 4) ^ (c << 5) ^ (c << 6) ^ (c << 7);
    ((d & 0xfe) ^ ((d >> 8) & 1)) as bv8
  }

  /** `CRC_Calc_Data`, the bitwise form. */
  function DataStep(data: bv8, crc: bv16): bv16 {
    DataJoin(crc, (crc & 0xff) ^ (data as bv16))
  }

  function DataJoin(crc: bv16, low: bv16): bv16 {
    (crc >> 8) ^ DataMix(low)
  }

  function DataMix(low: bv16): bv16 {
    (low << 8) ^ (low << 3) ^ (low << 12) ^ (low >> 4) ^ (low & 0x0f) ^ ((low & 0x0f) << 7)
  }

  function HeaderCrc(s: seq<bv8>, crc: bv8): bv8
    decreases |s|
  {
    if s == [] then crc else HeaderCrc(s[1..], HeaderStep(s[0], crc))
  }

  function DataCrc(s: seq<bv8>, crc: bv16): bv16
    decreases |s|
  {
    if s == [] then crc else DataCrc(s[1..], DataStep(s[0], crc))
  }

  const HEADER_RESIDUE: bv8 := 0x55
  const DATA_RESIDUE: bv16 := 0xF0B8

  lemma HeaderComplement(crc: bv8)
    ensures HeaderStep(!crc, crc) == HEADER_RESIDUE
  {
    assert crc ^ !crc == 0xff;
  }

  lemma DataComplement(crc: bv16)
    ensures DataStep(((!crc) >> 8) as bv8, DataStep(((!crc) & 0xff) as bv8, crc)) == DATA_RESIDUE
  {
  }

  // ----- both steps can be undone -----

  /** What was fed into a header step: the octet combined with the old CRC. */
  function HeaderUndo(crc: bv8): bv8 {
    crc ^ (crc << 1) ^ (if crc >> 7 == 1 then 3 else 0)
  }

  lemma HeaderUndoes(octet: bv8)
    ensures HeaderUndo(HeaderMix(octet)) == octet
  {
  }

  /** The low octet that was fed into a data step; it depends on the high octet of the result only. */
  function DataUndo(high: bv16): bv16 {
    var n := (high ^ (high >> 5)) & 0x0f;
    n ^ ((((high >> 4) ^ n) & 0x0f) << 4)
  }

  lemma DataUndoes(low: bv16, carried: bv16)
    requires low <= 0xff && carried <= 0xff
    ensures DataUndo((carried ^ DataMix(low)) >> 8) == low
  {
  }

  lemma XorCancels(a: bv16, b: bv16)
    ensures (a ^ b) ^ b == a
  {
  }

  lemma Parts(crc: bv16, data: bv8)
    ensures crc >> 8 <= 0xff && (crc & 0xff) ^ (data as bv16) <= 0xff
    ensures ((crc >> 8) << 8) ^ ((crc & 0xff) ^ (data as bv16)) ^ (data as bv16) == crc
  {
  }

  /** The octet carried over in a data step, and the one fed in, from the result. */
  function Carried(crc: bv16): bv16 {
    crc ^ DataMix(DataUndo(crc >> 8))
  }

  lemma StepParts(data: bv8, crc: bv16)
    ensures DataUndo(DataStep(data, crc) >> 8) == (crc & 0xff) ^ (data as bv16)
    ensures Carried(DataStep(data, crc)) == crc >> 8
  {
    Parts(crc, data);
    CarriedIs((crc & 0xff) ^ (data as bv16), crc >> 8);
  }

  lemma CarriedIs(low: bv16, carried: bv16)
    requires low <= 0xff && carried <= 0xff
    ensures DataUndo((carried ^ DataMix(low)) >> 8) == low && Carried(carried ^ DataMix(low)) == carried
  {
    DataUndoes(low, carried);
    XorCancels(carried, DataMix(low));
  }

  /** The CRC before a data step, from the octet and the result. */
  function DataBack(data: bv8, crc: bv16): bv16 {
    (Carried(crc) << 8) ^ DataUndo(crc >> 8) ^ (data as bv16)
  }

  lemma DataBackIs(data: bv8, crc: bv16)
    ensures DataBack(data, DataStep(data, crc)) == crc
  {
    StepParts(data, crc);
    Parts(crc, data);
  }

  lemma HeaderStepInjective(a: bv8, b: bv8, c: bv8, d: bv8)
    requires HeaderStep(a, c) == HeaderStep(b, d)
    ensures c ^ a == d ^ b
  {
    HeaderUndoes(c ^ a);
    HeaderUndoes(d ^ b);
  }

  lemma HeaderStepSame(a: bv8, c: bv8, d: bv8)
    requires HeaderStep(a, c) == HeaderStep(a, d)
    ensures c == d
  {
    HeaderStepInjective(a, a, c, d);
    OctetCancels(c, d, a);
  }

  lemma HeaderStepOther(a: bv8, b: bv8, c: bv8)
    requires HeaderStep(a, c) == HeaderStep(b, c)
    ensures a == b
  {
    HeaderStepInjective(a, b, c, c);
    OctetCancels(a, b, c);
  }

  lemma OctetCancels(a: bv8, b: bv8, c: bv8)
    ensures a ^ c == b ^ c ==> a == b
    ensures c ^ a == c ^ b ==> a == b
  {
  }

  lemma DataStepInjective(a: bv8, c: bv16, d: bv16)
    requires DataStep(a, c) == DataStep(a, d)
    ensures c == d
  {
    DataBackIs(a, c);
    DataBackIs(a, d);
  }

  /** The octet that took one CRC to another. */
  function DataOctet(before: bv16, after: bv16): bv8 {
    ((DataUndo(after >> 8) ^ before) & 0xff) as bv8
  }

  lemma OctetBack(data: bv8, crc: bv16)
    ensures ((((crc & 0xff) ^ (data as bv16)) ^ crc) & 0xff) as bv8 == data
  {
  }

  lemma DataOctetIs(data: bv8, crc: bv16)
    ensures DataOctet(crc, DataStep(data, crc)) == data
  {
    StepParts(data, crc);
    OctetBack(data, crc);
  }

  /** The CRC between two octets that took one CRC to another. */
  function Between(before: bv16, after: bv16): bv16 {
    DataJoin(before, DataUndo(Carried(after)))
  }

  lemma BetweenIs(a: bv8, b: bv8, crc: bv16)
    ensures Between(crc, DataStep(b, DataStep(a, crc))) == DataStep(a, crc)
  {
    StepParts(b, DataStep(a, crc));
    RebuiltFrom(a, crc, Carried(DataStep(b, DataStep(a, crc))));
  }

  lemma RebuiltFrom(a: bv8, crc: bv16, high: bv16)
    requires high == DataStep(a, crc) >> 8
    ensures DataJoin(crc, DataUndo(high)) == DataStep(a, crc)
  {
    StepParts(a, crc);
  }

  /** Two octets in a row are fixed by the CRCs before and after them. */
  lemma TwoDataSteps(a: bv8, a': bv8, b: bv8, b': bv8, crc: bv16)
    requires DataStep(a', DataStep(a, crc)) == DataStep(b', DataStep(b, crc))
    ensures a == b && a' == b'
  {
    BetweenIs(a, a', crc);
    BetweenIs(b, b', crc);
    DataOctetIs(a, crc);
    DataOctetIs(b, crc);
    DataOctetIs(a', DataStep(a, crc));
    DataOctetIs(b', DataStep(b, crc));
  }

  // ----- whole fields -----

  lemma {:induction false} HeaderCrcConcat(s: seq<bv8>, t: seq<bv8>, crc: bv8)
    ensures HeaderCrc(s + t, crc) == HeaderCrc(t, HeaderCrc(s, crc))
    decreases |s|
  {
    if s == [] {
      assert s + t == t;
    } else {
      assert (s + t)[1..] == s[1..] + t;
      HeaderCrcConcat(s[1..], t, HeaderStep(s[0], crc));
    }
  }

  lemma {:induction false} DataCrcConcat(s: seq<bv8>, t: seq<bv8>, crc: bv16)
    ensures DataCrc(s + t, crc) == DataCrc(t, DataCrc(s, crc))
    decreases |s|
  {
    if s == [] {
      assert s + t == t;
    } else {
      assert (s + t)[1..] == s[1..] + t;
      DataCrcConcat(s[1..], t, DataStep(s[0], crc));
    }
  }

  /** What `mstpcrc` computes for a header, and for data: the complement of the running CRC. */
  function HeaderCheck(s: seq<bv8>): bv8 {
    !HeaderCrc(s, 0xff)
  }

  function DataCheck(s: seq<bv8>): seq<bv8> {
    CheckOctets(DataCrc(s, 0xffff))
  }

  function CheckOctets(crc: bv16): seq<bv8> {
    [((!crc) & 0xff) as bv8, ((!crc) >> 8) as bv8]
  }

  lemma TwoOctets(x: bv8, y: bv8, crc: bv16)
    ensures DataCrc([x, y], crc) == DataStep(y, DataStep(x, crc))
  {
    assert [x, y][1..] == [y] && [y][1..] == [];
    assert DataCrc([y], DataStep(x, crc)) == DataCrc([], DataStep(y, DataStep(x, crc)));
  }

  lemma CheckOctetsPass(crc: bv16)
    ensures DataCrc(CheckOctets(crc), crc) == DATA_RESIDUE
  {
    TwoOctets(((!crc) & 0xff) as bv8, ((!crc) >> 8) as bv8, crc);
    DataComplement(crc);
  }

  /** The tests of the capture scanner. */
  predicate HeaderPasses(s: seq<bv8>) {
    HeaderCrc(s, 0xff) == HEADER_RESIDUE
  }

  predicate DataPasses(s: seq<bv8>) {
    DataCrc(s, 0xffff) == DATA_RESIDUE
  }

  /** Headers of any length, stamped with the computed check octet, pass the scanner's test. */
  lemma StampedHeaderPasses(s: seq<bv8>)
    ensures HeaderPasses(s + [HeaderCheck(s)])
  {
    HeaderCrcConcat(s, [HeaderCheck(s)], 0xff);
    HeaderComplement(HeaderCrc(s, 0xff));
    assert [HeaderCheck(s)][1..] == [];
  }

  /** Data of any length, stamped low octet first, pass the scanner's test. */
  lemma StampedDataPasses(s: seq<bv8>)
    ensures DataPasses(s + DataCheck(s))
  {
    DataCrcConcat(s, DataCheck(s), 0xffff);
    CheckOctetsPass(DataCrc(s, 0xffff));
  }

  lemma {:induction false} HeaderCrcInjective(s: seq<bv8>, c: bv8, d: bv8)
    requires HeaderCrc(s, c) == HeaderCrc(s, d)
    ensures c == d
    decreases |s|
  {
    if s != [] {
      HeaderCrcInjective(s[1..], HeaderStep(s[0], c), HeaderStep(s[0], d));
      HeaderStepSame(s[0], c, d);
    }
  }

  lemma {:induction false} DataCrcInjective(s: seq<bv8>, c: bv16, d: bv16)
    requires DataCrc(s, c) == DataCrc(s, d)
    ensures c == d
    decreases |s|
  {
    if s != [] {
      DataCrcInjective(s[1..], DataStep(s[0], c), DataStep(s[0], d));
      DataStepInjective(s[0], c, d);
    }
  }

  /** Changing exactly one octet of a header that passes makes it fail. */
  lemma HeaderErrorDetected(s: seq<bv8>, i: nat, x: bv8)
    requires i < |s| && x != s[i] && HeaderPasses(s)
    ensures !HeaderPasses(s[i := x])
  {
    var a, z := s[..i], s[i + 1..];
    var c := HeaderCrc(a, 0xff);
    HeaderSplit(s, i);
    HeaderSplit(s[i := x], i);
    assert s[i := x][..i] == a && s[i := x][i + 1..] == z;
    if HeaderPasses(s[i := x]) {
      HeaderCrcInjective(z, HeaderStep(s[i], c), HeaderStep(x, c));
      HeaderStepOther(s[i], x, c);
    }
  }

  lemma HeaderSplit(s: seq<bv8>, i: nat)
    requires i < |s|
    ensures HeaderCrc(s, 0xff) == HeaderCrc(s[i + 1..], HeaderStep(s[i], HeaderCrc(s[..i], 0xff)))
  {
    assert s == s[..i] + s[i..] && s[i..][1..] == s[i + 1..];
    HeaderCrcConcat(s[..i], s[i..], 0xff);
  }

  lemma DataSplit(s: seq<bv8>, i: nat)
    requires i + 1 < |s|
    ensures DataCrc(s, 0xffff)
            == DataCrc(s[i + 2..], DataStep(s[i + 1], DataStep(s[i], DataCrc(s[..i], 0xffff))))
  {
    assert s == s[..i] + s[i..] && s[i..][1..] == s[i + 1..] && s[i + 1..][1..] == s[i + 2..];
    DataCrcConcat(s[..i], s[i..], 0xffff);
  }

  /** Changing one octet, or two neighbouring ones, of data that pass makes them fail: every burst
      of errors within two octets is detected. */
  lemma DataErrorDetected(s: seq<bv8>, i: nat, x: bv8, y: bv8)
    requires i + 1 < |s| && (x != s[i] || y != s[i + 1]) && DataPasses(s)
    ensures !DataPasses(s[i := x][i + 1 := y])
  {
    var t := s[i := x][i + 1 := y];
    var c := DataCrc(s[..i], 0xffff);
    DataSplit(s, i);
    DataSplit(t, i);
    assert t[..i] == s[..i] && t[i + 2..] == s[i + 2..];
    if DataPasses(t) {
      DataCrcInjective(s[i + 2..], DataStep(s[i + 1], DataStep(s[i], c)), DataStep(y, DataStep(x, c)));
      TwoDataSteps(s[i], s[i + 1], x, y, c);
    }
  }

  /** The stamp is the only one that passes. */
  lemma OnlyStamp(s: seq<bv8>, x: bv8, y: bv8)
    ensures HeaderPasses(s + [x]) <==> x == HeaderCheck(s)
    ensures DataPasses(s + [x, y]) <==> [x, y] == DataCheck(s)
  {
    StampedHeaderPasses(s);
    StampedDataPasses(s);
    var h, d := s + [HeaderCheck(s)], s + DataCheck(s);
    if x != HeaderCheck(s) {
      HeaderErrorDetected(h, |s|, x);
      assert h[|s| := x] == s + [x];
    }
    if [x, y] != DataCheck(s) {
      DataErrorDetected(d, |s|, x, y);
      assert d[|s| := x][|s| + 1 := y] == s + [x, y];
    }
  }

  // ----- the examples of the standard -----

  lemma HeaderNext(x: bv8, rest: seq<bv8>, crc: bv8)
    ensures HeaderCrc([x] + rest, crc) == HeaderCrc(rest, HeaderStep(x, crc))
  {
  }

  /** The header 00 10 05 00 00 of section G.1 of ANSI/ASHRAE 135 has the check octet 8C. */
  lemma StandardHeader()
    ensures HeaderCheck([0x00, 0x10, 0x05, 0x00, 0x00]) == 0x8C
  {
    HeaderNext(0x00, [0x10, 0x05, 0x00, 0x00], 0xff);
    HeaderNext(0x10, [0x05, 0x00, 0x00], 0x55);
    HeaderNext(0x05, [0x00, 0x00], 0xC2);
    HeaderNext(0x00, [0x00], 0xBC);
    HeaderNext(0x00, [], 0x95);
    assert HeaderStep(0x00, 0xff) == 0x55 && HeaderStep(0x10, 0x55) == 0xC2 && HeaderStep(0x05, 0xC2) == 0xBC;
    assert HeaderStep(0x00, 0xBC) == 0x95 && HeaderStep(0x00, 0x95) == 0x73;
    assert [0x00 as bv8, 0x10, 0x05, 0x00, 0x00] == [0x00] + [0x10, 0x05, 0x00, 0x00];
    assert [0x10 as bv8, 0x05, 0x00, 0x00] == [0x10] + [0x05, 0x00, 0x00];
    assert [0x05 as bv8, 0x00, 0x00] == [0x05] + [0x00, 0x00] && [0x00 as bv8, 0x00] == [0x00] + [0x00];
    assert [0x00 as bv8] + [] == [0x00];
  }

  lemma DataNext(x: bv8, rest: seq<bv8>, crc: bv16)
    ensures DataCrc([x] + rest, crc) == DataCrc(rest, DataStep(x, crc))
  {
  }

  /** The data 01 22 30 of section G.2 have the check octets 10 BD. */
  lemma StandardData()
    ensures DataCheck([0x01, 0x22, 0x30]) == [0x10, 0xBD]
  {
    DataNext(0x01, [0x22, 0x30], 0xffff);
    DataNext(0x22, [0x30], 0x1E0E);
    DataNext(0x30, [], 0xEB70);
    assert DataStep(0x01, 0xffff) == 0x1E0E && DataStep(0x22, 0x1E0E) == 0xEB70 && DataStep(0x30, 0xEB70) == 0x42EF;
    assert [0x01 as bv8, 0x22, 0x30] == [0x01] + [0x22, 0x30] && [0x22 as bv8, 0x30] == [0x22] + [0x30];
    assert [0x30 as bv8] + [] == [0x30];
  }

  // ----- the loops -----

  /** The running header CRC over a field, as the scanner and `mstpcrc` accumulate it. */
  method HeaderRegister(s: seq<bv8>) returns (crc: bv8)
    ensures crc == HeaderCrc(s, 0xff)
  {
    crc := 0xff;
    for i := 0 to |s|
      invariant crc == HeaderCrc(s[..i], 0xff)
    {
      HeaderCrcConcat(s[..i], [s[i]], 0xff);
      assert s[..i + 1] == s[..i] + [s[i]] && [s[i]][1..] == [];
      crc := HeaderStep(s[i], crc);
    }
    assert s[..|s|] == s;
  }

  method DataRegister(s: seq<bv8>) returns (crc: bv16)
    ensures crc == DataCrc(s, 0xffff)
  {
    crc := 0xffff;
    for i := 0 to |s|
      invariant crc == DataCrc(s[..i], 0xffff)
    {
      DataCrcConcat(s[..i], [s[i]], 0xffff);
      assert s[..i + 1] == s[..i] + [s[i]] && [s[i]][1..] == [];
      crc := DataStep(s[i], crc);
    }
    assert s[..|s|] == s;
  }

  /** `mstpcrc`: the octets it prints make the scanner accept the field. */
  method Stamp(s: seq<bv8>) returns (header: bv8, low: bv8, high: bv8)
    ensures HeaderPasses(s + [header])
    ensures DataPasses(s + [low, high])
  {
    var crc8 := HeaderRegister(s);
    var crc16 := DataRegister(s);
    header := !crc8;
    crc16 := !crc16;
    low, high := (crc16 & 0xff) as bv8, (crc16 >> 8) as bv8;
    StampedHeaderPasses(s);
    StampedDataPasses(s);
  }
}
