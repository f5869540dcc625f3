/** The private transfer of data blocks: the server of `h_pt.c` and the client of `h_pt_a.c`. */
module PrivateTransfer {
  import opened Octets
  import opened ApplicationTags

  const BLOCKS: nat := 8
  const READ: nat := 0
  const WRITE: nat := 1
  const ERR_OK: Word := 0
  const ERR_BAD_INDEX: Word := 1

  /** What fits a block's string: 31 characters and no NUL. */
  type Text = s: seq<Octet> | |s| <= 31 && 0 !in s

  /** A data block; the real by its 32 bits. */
  datatype Block = Block(byte1: Octet, byte2: Octet, number: Word, text: Text)

  /** A C string ends before its first NUL. */
  function CString(s: seq<Octet>): (c: seq<Octet>)
    ensures c <= s && 0 !in c && (|c| < |s| ==> s[|c|] == 0)
  {
    if s == [] || s[0] == 0 then [] else [s[0]] + CString(s[1..])
  }

  /** What `snprintf` keeps of a string in 32 characters. */
  function Cut(s: seq<Octet>): Text {
    var c := CString(s);
    if |c| <= 31 then c else c[..31]
  }

  lemma {:induction false} CStringOfText(t: seq<Octet>)
    requires 0 !in t
    ensures CString(t) == t
  {
    if t != [] {
      CStringOfText(t[1..]);
      assert t == [t[0]] + t[1..];
    }
  }

  /** A number cut to an octet. */
  function Low(v: nat): (o: Octet)
    ensures v < 0x100 ==> o == v
  {
    v % 0x100
  }

  /** A number cut to a `char`, which is signed on some machines and not on others. */
  function Index(v: nat, signed: bool): (n: int)
    ensures -0x80 <= n < 0x100 && n % 0x100 == v % 0x100
    ensures v < 0x80 ==> n == v
  {
    if signed && v % 0x100 >= 0x80 then v % 0x100 - 0x100 else v % 0x100
  }

  // ----- the server -----

  datatype Written = Written(block: Block, ok: bool)

  /** The fields of a block, stored one after the other; what was stored before a wrong tag stays. */
  function WriteFields(b: Block, s: seq<Octet>, before: seq<Octet>): Written {
    match DecodeUnsigned(s)
    case Bad => Written(b, false)
    case Good(v, rest) => WriteByte2(b.(byte1 := Low(v)), rest, before)
  }

  function WriteByte2(b: Block, s: seq<Octet>, before: seq<Octet>): Written {
    match DecodeUnsigned(s)
    case Bad => Written(b, false)
    case Good(v, rest) => WriteNumber(b.(byte2 := Low(v)), rest, before)
  }

  function WriteNumber(b: Block, s: seq<Octet>, before: seq<Octet>): Written {
    match DecodeReal(s)
    case Bad => Written(b, false)
    case Good(v, rest) => WriteText(b.(number := v), rest, before)
  }

  function WriteText(b: Block, s: seq<Octet>, before: seq<Octet>): Written {
    match DecodeText(s, before)
    case Bad => Written(b, false)
    case Good(text, _) => Written(b.(text := Cut(text)), true)
  }

  function EncodeFields(byte1: Octet, byte2: Octet, number: Word, text: seq<Octet>): seq<Octet>
    requires |text| <= CAPACITY
  {
    EncodeUnsigned(byte1) + (EncodeUnsigned(byte2) + (EncodeReal(number) + EncodeText(text)))
  }

  function ReadReply(n: Octet, b: Block): (s: seq<Octet>)
    ensures s != []
  {
    EncodeUnsigned(ERR_OK) + (EncodeUnsigned(n) + EncodeFields(b.byte1, b.byte2, b.number, b.text))
  }

  /** What a request comes to: the blocks and the reply, or an index in front of the blocks, with which C does not
      say what happens. */
  datatype Served = Served(blocks: seq<Block>, reply: seq<Octet>) | Outside(index: int)

  /** `ProcessPT` on the octets of a request and what follows them in the receive buffer; an empty reply is
      an error. `signed` is the machine's `char`, `before` what the string variable held. */
  function Process(signed: bool, blocks: seq<Block>, service: nat, s: seq<Octet>, before: seq<Octet>): (r: Served)
    requires |blocks| == BLOCKS
    ensures r.Served? ==> |r.blocks| == BLOCKS
  {
    Act(signed, blocks, service, DecodeUnsigned(s), before)
  }

  /** The operation, once the block number is decoded. */
  function Act(signed: bool, blocks: seq<Block>, service: nat, index: Field<nat>, before: seq<Octet>): (r: Served)
    requires |blocks| == BLOCKS
    ensures r.Served? ==> |r.blocks| == BLOCKS
  {
    match index
    case Bad => Served(blocks, [])
    case Good(v, rest) =>
      var n := Index(v, signed);
      if n >= BLOCKS then Served(blocks, EncodeUnsigned(ERR_BAD_INDEX))
      else if n < 0 then Outside(n)
      else if service == READ then Served(blocks, ReadReply(n, blocks[n]))
      else
        var w := WriteFields(blocks[n], rest, before);
        Served(blocks[n := w.block], if w.ok then EncodeUnsigned(ERR_OK) else [])
  }

  class BlockServer {
    const blocks: array<Block>
    /** Whether `char` is signed. */
    const signed: bool

    constructor (signed: bool)
      ensures fresh(blocks) && blocks.Length == BLOCKS && this.signed == signed
      ensures forall i :: 0 <= i < BLOCKS ==> blocks[i] == Block(0, 0, 0, [])
    {
      blocks := new Block[BLOCKS](_ => Block(0, 0, 0, []));
      this.signed := signed;
    }

    /** Stops where the source would go on in front of the blocks. */
    method ProcessPT(service: nat, s: seq<Octet>, before: seq<Octet>) returns (outside: bool, reply: seq<Octet>)
      requires blocks.Length == BLOCKS
      modifies blocks
      ensures outside <==> Process(signed, old(blocks[..]), service, s, before).Outside?
      ensures outside ==> blocks[..] == old(blocks[..])
      ensures !outside ==> Served(blocks[..], reply) == Process(signed, old(blocks[..]), service, s, before)
    {
      outside := false;
      var index := DecodeUnsigned(s);
      if index.Bad? {
        return false, [];
      }
      var n := Index(index.value, signed);
      if n >= BLOCKS {
        return false, EncodeUnsigned(ERR_BAD_INDEX);
      }
      if n < 0 {
        return true, [];
      }
      if service == READ {
        return false, ReadReply(n, blocks[n]);
      }
      var ok := WriteBlock(n, index.rest, before);
      reply := if ok then EncodeUnsigned(ERR_OK) else [];
    }

    /** The write operation, field by field in place. */
    method WriteBlock(n: nat, s: seq<Octet>, before: seq<Octet>) returns (ok: bool)
      requires blocks.Length == BLOCKS && n < BLOCKS
      modifies blocks
      ensures var w := WriteFields(old(blocks[n]), s, before);
              ok == w.ok && blocks[..] == old(blocks[..])[n := w.block]
    {
      var rest := s;
      var byte1 := DecodeUnsigned(rest);
      if byte1.Bad? {
        return false;
      }
      blocks[n] := blocks[n].(byte1 := Low(byte1.value));
      rest := byte1.rest;
      var byte2 := DecodeUnsigned(rest);
      if byte2.Bad? {
        return false;
      }
      blocks[n] := blocks[n].(byte2 := Low(byte2.value));
      rest := byte2.rest;
      var real_ := DecodeReal(rest);
      if real_.Bad? {
        return false;
      }
      blocks[n] := blocks[n].(number := real_.value);
      rest := real_.rest;
      var text := DecodeText(rest, before);
      if text.Bad? {
        return false;
      }
      blocks[n] := blocks[n].(text := Cut(text.value));
      return true;
    }
  }

  lemma FailureKeepsText(b: Block, s: seq<Octet>, before: seq<Octet>)
    ensures !WriteFields(b, s, before).ok ==> WriteFields(b, s, before).block.text == b.text
  {
  }

  /** What a write to block `n` changes. */
  lemma WriteChanges(blocks: seq<Block>, n: nat, w: Written, r: seq<Block>, j: nat)
    requires n < |blocks| && j < |blocks| && r == blocks[n := w.block]
    requires !w.ok ==> w.block.text == blocks[n].text
    ensures (r[j] != blocks[j] ==> j == n) && (!w.ok ==> r[j].text == blocks[j].text)
  {
  }

  /** No request changes a block other than the one it names, a read changes none, and a write that fails
      part-way leaves the block's string as it was. */
  lemma OtherBlocksKept(signed: bool, blocks: seq<Block>, service: nat, s: seq<Octet>, before: seq<Octet>, j: nat)
    requires |blocks| == BLOCKS && j < BLOCKS
    ensures var r := Process(signed, blocks, service, s, before);
            r.Served? ==>
              && (r.blocks[j] != blocks[j] ==>
                   && service != READ && DecodeUnsigned(s).Good? && Low(DecodeUnsigned(s).value) == j)
              && (r.reply == [] ==> r.blocks[j].text == blocks[j].text)
  {
    var index := DecodeUnsigned(s);
    if index.Good? && 0 <= Index(index.value, signed) < BLOCKS && service != READ {
      var n := Low(index.value);
      var w := WriteFields(blocks[n], index.rest, before);
      FailureKeepsText(blocks[n], index.rest, before);
      WriteChanges(blocks, n, w, blocks[n := w.block], j);
    }
  }

  /** The index test keeps every request within the blocks if and only if `char` is unsigned or the block number,
      in eight bits, is below 128. */
  lemma StaysInside(signed: bool, blocks: seq<Block>, service: nat, s: seq<Octet>, before: seq<Octet>)
    requires |blocks| == BLOCKS
    ensures Process(signed, blocks, service, s, before).Served?
            <==> (signed && DecodeUnsigned(s).Good? ==> Low(DecodeUnsigned(s).value) < 0x80)
  {
  }

  /** It happens: on a machine whose `char` is signed the block number 255 passes the test. */
  lemma NumberPasses(blocks: seq<Block>, service: nat, rest: seq<Octet>, before: seq<Octet>)
    requires |blocks| == BLOCKS
    ensures Process(true, blocks, service, EncodeUnsigned(255) + rest, before) == Outside(-1)
  {
    UnsignedRoundTrip(255, rest);
  }

  // ----- the client -----

  datatype Answer = BadEncoding | Code(code: nat) | NoBlock | Contents(index: int, block: Block)

  /** `ProcessPTA` and `DecodeBlock`: what the client shows. */
  function ReadAnswer(signed: bool, service: nat, s: seq<Octet>, before: seq<Octet>): Answer {
    match DecodeUnsigned(s)
    case Bad => BadEncoding
    case Good(code, rest) => if service != READ || code != ERR_OK then Code(code) else ReadBlock(signed, rest, before)
  }

  function ReadBlock(signed: bool, s: seq<Octet>, before: seq<Octet>): Answer {
    match DecodeUnsigned(s)
    case Bad => BadEncoding
    case Good(v, rest) =>
      if Index(v, signed) >= BLOCKS then NoBlock else ReadFields(Index(v, signed), rest, before)
  }

  function ReadFields(n: int, s: seq<Octet>, before: seq<Octet>): Answer {
    var w := WriteFields(Block(0, 0, 0, []), s, before);
    if w.ok then Contents(n, w.block) else NoBlock
  }

  /** A client's write request. */
  function WriteRequest(n: Octet, byte1: Octet, byte2: Octet, number: Word, text: seq<Octet>): seq<Octet>
    requires |text| <= CAPACITY
  {
    EncodeUnsigned(n) + EncodeFields(byte1, byte2, number, text)
  }

  lemma FieldsRegroup(a: seq<Octet>, b: seq<Octet>, c: seq<Octet>, d: seq<Octet>, rest: seq<Octet>)
    ensures (a + (b + (c + d))) + rest == a + (b + (c + (d + rest)))
  {
  }

  lemma Byte1Written(b: Block, v: Octet, rest: seq<Octet>, before: seq<Octet>)
    ensures WriteFields(b, EncodeUnsigned(v) + rest, before) == WriteByte2(b.(byte1 := v), rest, before)
  {
    UnsignedRoundTrip(v, rest);
  }

  lemma Byte2Written(b: Block, v: Octet, rest: seq<Octet>, before: seq<Octet>)
    ensures WriteByte2(b, EncodeUnsigned(v) + rest, before) == WriteNumber(b.(byte2 := v), rest, before)
  {
    UnsignedRoundTrip(v, rest);
  }

  lemma NumberWritten(b: Block, v: Word, rest: seq<Octet>, before: seq<Octet>)
    ensures WriteNumber(b, EncodeReal(v) + rest, before) == WriteText(b.(number := v), rest, before)
  {
    RealRoundTrip(v, rest);
  }

  lemma TextWritten(b: Block, text: seq<Octet>, rest: seq<Octet>, before: seq<Octet>)
    requires |text| <= CAPACITY
    ensures WriteText(b, EncodeText(text) + rest, before) == Written(b.(text := Cut(text)), true)
  {
    TextRoundTrip(text, before, rest);
  }

  lemma FieldsRoundTrip(b: Block, byte1: Octet, byte2: Octet, number: Word, text: seq<Octet>,
                       before: seq<Octet>, rest: seq<Octet>)
    requires |text| <= CAPACITY
    ensures WriteFields(b, EncodeFields(byte1, byte2, number, text) + rest, before)
            == Written(Block(byte1, byte2, number, Cut(text)), true)
  {
    var s3 := EncodeText(text) + rest;
    var s2 := EncodeReal(number) + s3;
    var s1 := EncodeUnsigned(byte2) + s2;
    FieldsRegroup(EncodeUnsigned(byte1), EncodeUnsigned(byte2), EncodeReal(number), EncodeText(text), rest);
    Byte1Written(b, byte1, s1, before);
    Byte2Written(b.(byte1 := byte1), byte2, s2, before);
    NumberWritten(b.(byte1 := byte1, byte2 := byte2), number, s3, before);
    TextWritten(b.(byte1 := byte1, byte2 := byte2, number := number), text, rest, before);
  }

  lemma IndexServed(signed: bool, blocks: seq<Block>, service: nat, n: Octet, rest: seq<Octet>, before: seq<Octet>)
    requires |blocks| == BLOCKS
    ensures Process(signed, blocks, service, EncodeUnsigned(n) + rest, before)
            == Act(signed, blocks, service, Good(n, rest), before)
  {
    UnsignedRoundTrip(n, rest);
  }

  lemma ActWrites(signed: bool, blocks: seq<Block>, n: Octet, s: seq<Octet>, before: seq<Octet>, w: Written)
    requires |blocks| == BLOCKS && n < BLOCKS && w == WriteFields(blocks[n], s, before) && w.ok
    ensures Act(signed, blocks, WRITE, Good(n, s), before) == Served(blocks[n := w.block], EncodeUnsigned(ERR_OK))
  {
  }

  lemma ActReads(signed: bool, blocks: seq<Block>, n: Octet, s: seq<Octet>, before: seq<Octet>)
    requires |blocks| == BLOCKS && n < BLOCKS
    ensures Act(signed, blocks, READ, Good(n, s), before) == Served(blocks, ReadReply(n, blocks[n]))
  {
  }

  lemma CodeRead(signed: bool, rest: seq<Octet>, before: seq<Octet>)
    ensures ReadAnswer(signed, READ, EncodeUnsigned(ERR_OK) + rest, before) == ReadBlock(signed, rest, before)
    ensures ReadAnswer(signed, WRITE, EncodeUnsigned(ERR_OK) + rest, before) == Code(ERR_OK)
  {
    UnsignedRoundTrip(ERR_OK, rest);
  }

  lemma IndexRead(signed: bool, n: Octet, rest: seq<Octet>, before: seq<Octet>)
    requires n < BLOCKS
    ensures ReadBlock(signed, EncodeUnsigned(n) + rest, before) == ReadFields(n, rest, before)
  {
    UnsignedRoundTrip(n, rest);
  }

  lemma FieldsRead(n: int, b: Block, rest: seq<Octet>, before: seq<Octet>)
    ensures ReadFields(n, EncodeFields(b.byte1, b.byte2, b.number, b.text) + rest, before) == Contents(n, b)
  {
    FieldsRoundTrip(Block(0, 0, 0, []), b.byte1, b.byte2, b.number, b.text, before, rest);
    CStringOfText(b.text);
  }

  /** The server takes a write request whole. */
  lemma WriteServed(signed: bool, blocks: seq<Block>, n: Octet, byte1: Octet, byte2: Octet, number: Word,
                    text: seq<Octet>, before: seq<Octet>, tail: seq<Octet>)
    requires |blocks| == BLOCKS && n < BLOCKS && |text| <= CAPACITY
    ensures Process(signed, blocks, WRITE, WriteRequest(n, byte1, byte2, number, text) + tail, before)
            == Served(blocks[n := Block(byte1, byte2, number, Cut(text))], EncodeUnsigned(ERR_OK))
  {
    var fields := EncodeFields(byte1, byte2, number, text);
    Associate(EncodeUnsigned(n), fields, tail);
    IndexServed(signed, blocks, WRITE, n, fields + tail, before);
    FieldsRoundTrip(blocks[n], byte1, byte2, number, text, before, tail);
    ActWrites(signed, blocks, n, fields + tail, before, Written(Block(byte1, byte2, number, Cut(text)), true));
  }

  /** The client reads a block out of the server's reply. */
  lemma ReplyRead(signed: bool, n: Octet, b: Block, before: seq<Octet>, tail: seq<Octet>)
    requires n < BLOCKS
    ensures ReadAnswer(signed, READ, ReadReply(n, b) + tail, before) == Contents(n, b)
  {
    var fields := EncodeFields(b.byte1, b.byte2, b.number, b.text);
    Associate(EncodeUnsigned(ERR_OK), EncodeUnsigned(n) + fields, tail);
    Associate(EncodeUnsigned(n), fields, tail);
    CodeRead(signed, EncodeUnsigned(n) + (fields + tail), before);
    IndexRead(signed, n, fields + tail, before);
    FieldsRead(n, b, tail, before);
  }

  lemma ReadServed(signed: bool, blocks: seq<Block>, n: Octet, before: seq<Octet>, tail: seq<Octet>)
    requires |blocks| == BLOCKS && n < BLOCKS
    ensures Process(signed, blocks, READ, EncodeUnsigned(n) + tail, before) == Served(blocks, ReadReply(n, blocks[n]))
  {
    IndexServed(signed, blocks, READ, n, tail, before);
    ActReads(signed, blocks, n, tail, before);
  }

  /** What a client writes to a block it reads back: the two bytes, the real, and the string up to its first
      NUL and 31 characters; the write is answered with success. */
  lemma WriteThenRead(signed: bool, blocks: seq<Block>, n: Octet, byte1: Octet, byte2: Octet, number: Word,
                      text: seq<Octet>, before: seq<Octet>, tail: seq<Octet>)
    requires |blocks| == BLOCKS && n < BLOCKS && |text| <= CAPACITY
    ensures var w := Process(signed, blocks, WRITE, WriteRequest(n, byte1, byte2, number, text) + tail, before);
            && w.Served? && ReadAnswer(signed, WRITE, w.reply + tail, before) == Code(ERR_OK)
            && var r := Process(signed, w.blocks, READ, EncodeUnsigned(n) + tail, before);
               && r.Served?
               && ReadAnswer(signed, READ, r.reply + tail, before)
                  == Contents(n, Block(byte1, byte2, number, Cut(text)))
  {
    var b := Block(byte1, byte2, number, Cut(text));
    WriteServed(signed, blocks, n, byte1, byte2, number, text, before, tail);
    CodeRead(signed, tail, before);
    var w := blocks[n := b];
    ReadServed(signed, w, n, before, tail);
    assert w[n] == b;
    ReplyRead(signed, n, b, before, tail);
  }

  // ----- requests that fail -----

  /** A write that breaks off behind some of its fields, with octets that are no such field, leaves in the block the
      fields it got to: the first byte, both bytes, or both bytes and the real. */
  lemma WriteBreaksOff(b: Block, byte1: Octet, byte2: Octet, number: Word, rest: seq<Octet>, before: seq<Octet>)
    ensures DecodeUnsigned(rest).Bad? ==>
              && WriteFields(b, rest, before) == Written(b, false)
              && WriteFields(b, EncodeUnsigned(byte1) + rest, before) == Written(b.(byte1 := byte1), false)
    ensures DecodeReal(rest).Bad? ==>
              WriteFields(b, EncodeUnsigned(byte1) + (EncodeUnsigned(byte2) + rest), before)
              == Written(b.(byte1 := byte1, byte2 := byte2), false)
    ensures DecodeText(rest, before).Bad? ==>
              WriteFields(b, EncodeUnsigned(byte1) + (EncodeUnsigned(byte2) + (EncodeReal(number) + rest)), before)
              == Written(b.(byte1 := byte1, byte2 := byte2, number := number), false)
  {
    var b1, b2 := b.(byte1 := byte1), b.(byte1 := byte1, byte2 := byte2);
    Byte1Written(b, byte1, rest, before);
    Byte1Written(b, byte1, EncodeUnsigned(byte2) + rest, before);
    Byte2Written(b1, byte2, rest, before);
    Byte1Written(b, byte1, EncodeUnsigned(byte2) + (EncodeReal(number) + rest), before);
    Byte2Written(b1, byte2, EncodeReal(number) + rest, before);
    NumberWritten(b2, number, rest, before);
  }

  /** The request is answered with an error then, and the block it names holds what was written. */
  lemma FailedWriteServed(signed: bool, blocks: seq<Block>, n: Octet, s: seq<Octet>, before: seq<Octet>, b: Block)
    requires |blocks| == BLOCKS && n < BLOCKS && WriteFields(blocks[n], s, before) == Written(b, false)
    ensures Process(signed, blocks, WRITE, EncodeUnsigned(n) + s, before) == Served(blocks[n := b], [])
  {
    IndexServed(signed, blocks, WRITE, n, s, before);
  }

  /** A block number from 8 to 127 is answered with a bad-index code, which the client shows; nothing is changed. */
  lemma BadIndexServed(signed: bool, blocks: seq<Block>, service: nat, n: Octet, rest: seq<Octet>, before: seq<Octet>)
    requires |blocks| == BLOCKS && BLOCKS <= n < 0x80
    ensures Process(signed, blocks, service, EncodeUnsigned(n) + rest, before)
            == Served(blocks, EncodeUnsigned(ERR_BAD_INDEX))
    ensures ReadAnswer(signed, service, EncodeUnsigned(ERR_BAD_INDEX), before) == Code(1)
  {
    IndexServed(signed, blocks, service, n, rest, before);
    UnsignedRoundTrip(ERR_BAD_INDEX, []);
    assert EncodeUnsigned(ERR_BAD_INDEX) + [] == EncodeUnsigned(ERR_BAD_INDEX);
  }
}
