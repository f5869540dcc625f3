/** Application-tagged data (section 20.2 of ANSI/ASHRAE 135) as `bacdcode.c` encodes and decodes them. */
module ApplicationTags {
  import opened Octets

  const UNSIGNED_INT: Octet := 2
  const REAL: Octet := 4
  const CHARACTER_STRING: Octet := 7

  // ----- numbers, most significant octet first -----

  function BigEndian(v: nat, n: nat): (s: seq<Octet>)
    ensures |s| == n
    decreases n
  {
    if n == 0 then [] else BigEndian(v / 0x100, n - 1) + [v % 0x100]
  }

  function FromBigEndian(s: seq<Octet>): nat {
    if s == [] then 0 else FromBigEndian(s[..|s| - 1]) * 0x100 + s[|s| - 1]
  }

  function Power(n: nat): nat {
    if n == 0 then 1 else 0x100 * Power(n - 1)
  }

  lemma {:induction false} BigEndianBack(v: nat, n: nat)
    requires v < Power(n)
    ensures FromBigEndian(BigEndian(v, n)) == v
  {
    if n > 0 {
      BigEndianBack(v / 0x100, n - 1);
      assert BigEndian(v, n)[..n - 1] == BigEndian(v / 0x100, n - 1);
    }
  }

  // ----- tags -----

  function Head(number: Octet, low: Octet): (s: seq<Octet>)
    requires low < 8
    ensures 1 <= |s| <= 2
  {
    if number <= 14 then [number * 0x10 + low] else [0xF0 + low, number]
  }

  function LengthOctets(length: Word): seq<Octet> {
    if length <= 4 then []
    else if length <= 253 then [length]
    else if length <= 65535 then [254] + BigEndian(length, 2)
    else [255] + BigEndian(length, 4)
  }

  /** `encode_tag`, application class. */
  function EncodeTag(number: Octet, length: Word): (s: seq<Octet>)
    ensures |s| >= 1
  {
    Head(number, if length <= 4 then length else 5) + LengthOctets(length)
  }

  datatype Tag = Short | Tag(number: Octet, length: Word, size: nat)

  /** `decode_tag_number_and_value`; Short when the octets end before the tag does. */
  function DecodeTag(s: seq<Octet>): (t: Tag)
    ensures t.Tag? ==> 1 <= t.size <= |s|
  {
    if s == [] then Short
    else
      var n := if s[0] / 0x10 == 15 then 2 else 1;
      if |s| < n then Short
      else
        var number := if n == 2 then s[1] else s[0] / 0x10;
        if s[0] % 8 == 5 then DecodeLength(number, n, s[n..])
        else Tag(number, if s[0] % 8 >= 6 then 0 else s[0] % 8, n)
  }

  /** The length octets, behind `n` octets of the tag. */
  function DecodeLength(number: Octet, n: nat, s: seq<Octet>): (t: Tag)
    ensures t.Tag? ==> n < t.size <= n + |s|
  {
    if s == [] then Short
    else if s[0] == 255 then if |s| < 5 then Short else Tag(number, FourOctets(s[1..5]), n + 5)
    else if s[0] == 254 then if |s| < 3 then Short else Tag(number, TwoOctets(s[1..3]), n + 3)
    else Tag(number, s[0], n + 1)
  }

  lemma {:induction false} FromBigEndianBound(s: seq<Octet>)
    ensures FromBigEndian(s) < Power(|s|)
  {
    if s != [] { FromBigEndianBound(s[..|s| - 1]); }
  }

  lemma Powers()
    ensures Power(1) == 0x100 && Power(2) == 0x1_0000 && Power(3) == 0x100_0000 && Power(4) == WORD
  {
    assert Power(2) == 0x100 * Power(1) && Power(3) == 0x100 * Power(2) && Power(4) == 0x100 * Power(3);
  }

  function TwoOctets(s: seq<Octet>): (w: Word)
    requires |s| == 2
    ensures w == FromBigEndian(s)
  {
    FromBigEndianBound(s);
    Powers();
    FromBigEndian(s)
  }

  function FourOctets(s: seq<Octet>): (w: Word)
    requires |s| == 4
    ensures w == FromBigEndian(s)
  {
    FromBigEndianBound(s);
    Powers();
    FromBigEndian(s)
  }

  lemma LengthRoundTrip(number: Octet, n: nat, length: Word, rest: seq<Octet>)
    requires length > 4
    ensures DecodeLength(number, n, LengthOctets(length) + rest) == Tag(number, length, n + |LengthOctets(length)|)
  {
    var s := LengthOctets(length) + rest;
    Powers();
    if 253 < length <= 65535 {
      assert s[1..3] == BigEndian(length, 2);
      BigEndianBack(length, 2);
    } else if length > 65535 {
      assert s[1..5] == BigEndian(length, 4);
      BigEndianBack(length, 4);
    }
  }

  lemma HeadRoundTrip(number: Octet, low: Octet, tail: seq<Octet>)
    requires low <= 5
    ensures var n := |Head(number, low)|;
            DecodeTag(Head(number, low) + tail)
            == if low == 5 then DecodeLength(number, n, tail) else Tag(number, low, n)
  {
    var s := Head(number, low) + tail;
    var n := |Head(number, low)|;
    assert s[n..] == tail && s[0] == Head(number, low)[0];
    if n == 2 { assert s[1] == number; }
  }

  /** Every tag reads back as it was written, and the octets behind it are left. */
  lemma TagRoundTrip(number: Octet, length: Word, rest: seq<Octet>)
    ensures DecodeTag(EncodeTag(number, length) + rest) == Tag(number, length, |EncodeTag(number, length)|)
    ensures (EncodeTag(number, length) + rest)[|EncodeTag(number, length)|..] == rest
  {
    var head := Head(number, if length <= 4 then length else 5);
    HeadRoundTrip(number, if length <= 4 then length else 5, LengthOctets(length) + rest);
    assert EncodeTag(number, length) + rest == head + (LengthOctets(length) + rest);
    if length > 4 {
      LengthRoundTrip(number, |head|, length, rest);
    }
  }

  // ----- unsigned values -----

  function UnsignedSize(v: Word): nat {
    if v <= 0xFF then 1 else if v <= 0xFFFF then 2 else if v <= 0xFF_FFFF then 3 else 4
  }

  /** `encode_application_unsigned`. */
  function EncodeUnsigned(v: Word): (s: seq<Octet>)
    ensures s != []
  {
    EncodeTag(UNSIGNED_INT, UnsignedSize(v)) + BigEndian(v, UnsignedSize(v))
  }

  /** A value that was read and the octets behind it; Bad when the tag is another or the octets end. */
  datatype Field<T> = Bad | Good(value: T, rest: seq<Octet>)

  /** Reading an unsigned value: a length of 0 or of more than 8 octets reads as 0 and takes no octets. */
  function DecodeUnsigned(s: seq<Octet>): (f: Field<nat>) {
    var t := DecodeTag(s);
    if t.Short? || t.number != UNSIGNED_INT then Bad
    else if t.length == 0 || t.length > 8 then Good(0, s[t.size..])
    else if |s| < t.size + t.length then Bad
    else Good(FromBigEndian(s[t.size..][..t.length]), s[t.size..][t.length..])
  }

  lemma UnsignedRoundTrip(v: Word, rest: seq<Octet>)
    ensures DecodeUnsigned(EncodeUnsigned(v) + rest) == Good(v, rest)
  {
    var n := UnsignedSize(v);
    var tag, body := EncodeTag(UNSIGNED_INT, n), BigEndian(v, n);
    assert EncodeUnsigned(v) + rest == tag + (body + rest);
    TagRoundTrip(UNSIGNED_INT, n, body + rest);
    assert (body + rest)[..n] == body && (body + rest)[n..] == rest;
    Powers();
    BigEndianBack(v, n);
  }

  // ----- reals, as their 32 bits -----

  /** `encode_application_real`. */
  function EncodeReal(bits: Word): seq<Octet> {
    EncodeTag(REAL, 4) + BigEndian(bits, 4)
  }

  /** Reading a real takes four octets, whatever length the tag says. */
  function DecodeReal(s: seq<Octet>): Field<Word> {
    var t := DecodeTag(s);
    if t.Short? || t.number != REAL || |s| < t.size + 4 then Bad
    else Good(FourOctets(s[t.size..][..4]), s[t.size..][4..])
  }

  lemma RealRoundTrip(bits: Word, rest: seq<Octet>)
    ensures DecodeReal(EncodeReal(bits) + rest) == Good(bits, rest)
  {
    var tag, body := EncodeTag(REAL, 4), BigEndian(bits, 4);
    assert EncodeReal(bits) + rest == tag + (body + rest);
    TagRoundTrip(REAL, 4, body + rest);
    assert (body + rest)[..4] == body && (body + rest)[4..] == rest;
    Powers();
    BigEndianBack(bits, 4);
  }

  // ----- character strings -----

  /** MAX_APDU, and the octets a decoded character string can hold. */
  const MAX_APDU: nat := 1476
  const CAPACITY: nat := MAX_APDU - 7

  /** `encode_application_character_string`: the ANSI character set, then the characters. */
  function EncodeText(text: seq<Octet>): seq<Octet>
    requires |text| <= CAPACITY
  {
    EncodeTag(CHARACTER_STRING, |text| + 1) + ([0] + text)
  }

  /** Reading a character string. A string that is absent or does not fit leaves the variable as it was,
      `before`; one that says it is longer than any APDU takes no octets. */
  function DecodeText(s: seq<Octet>, before: seq<Octet>): Field<seq<Octet>> {
    var t := DecodeTag(s);
    if t.Short? || t.number != CHARACTER_STRING then Bad
    else if t.length == 0 || t.length > MAX_APDU then Good(before, s[t.size..])
    else if |s| < t.size + t.length then Bad
    else
      var body := s[t.size..];
      Good(if t.length - 1 <= CAPACITY then body[1..t.length] else before, body[t.length..])
  }

  lemma TextRoundTrip(text: seq<Octet>, before: seq<Octet>, rest: seq<Octet>)
    requires |text| <= CAPACITY
    ensures DecodeText(EncodeText(text) + rest, before) == Good(text, rest)
  {
    var n := |text| + 1;
    var tag, body := EncodeTag(CHARACTER_STRING, n), [0] + text;
    assert EncodeText(text) + rest == tag + (body + rest);
    TagRoundTrip(CHARACTER_STRING, n, body + rest);
    assert (body + rest)[1..n] == text && (body + rest)[n..] == rest;
  }

  lemma Digits(v: nat, n: nat)
    ensures BigEndian(v, 1) == [v % 0x100] && BigEndian(v, n + 1) == BigEndian(v / 0x100, n) + [v % 0x100]
  {
    assert BigEndian(v / 0x100, 0) == [];
  }

  /** Encodings that section 20.2 and annex F of ANSI/ASHRAE 135 show: unsigned 72, real 72.0, the beginning of a
      string of 25 octets. */
  lemma StandardEncodings()
    ensures EncodeUnsigned(72) == [0x21, 72] && EncodeReal(0x4290_0000) == [0x44, 0x42, 0x90, 0, 0]
    ensures EncodeTag(CHARACTER_STRING, 25) == [0x75, 25]
  {
    Digits(72, 0);
    Digits(0x4290_0000, 3);
    Digits(0x42_9000, 2);
    Digits(0x4290, 1);
    Digits(0x42, 0);
  }

  /** Unsigned values of two to four octets, most significant first. */
  lemma UnsignedOctets()
    ensures EncodeUnsigned(0x100) == [0x22, 1, 0]
    ensures EncodeUnsigned(0x1_0203) == [0x23, 1, 2, 3] && EncodeUnsigned(0x0102_0304) == [0x24, 1, 2, 3, 4]
  {
    Digits(0x100, 1);
    Digits(0x0102_0304, 3);
    Digits(0x1_0203, 2);
    Digits(0x102, 1);
    Digits(1, 0);
  }
}
