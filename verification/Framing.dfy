/** Packets: the 12-byte header, the responses of the gateway, the push packet of the logic server, and the
    streams they form. */
module Framing {
  import opened Wrappers
  import opened Types

  newtype byte = x: int | 0 <= x < 0x100
  newtype uint16 = x: int | 0 <= x < 0x1_0000
  newtype uint32 = x: int | 0 <= x < 0x1_0000_0000

  const HEADER_LEN := 12

  datatype PacketHeader = PacketHeader(length: uint32, version: uint16, cmdId: uint16, seqId: uint32)

  /** Big-endian (network order) bytes. */
  function Bytes16(n: uint16): (b: seq<byte>)
    ensures |b| == 2
  {
    [(n / 0x100) as byte, (n % 0x100) as byte]
  }

  function Bytes32(n: uint32): (b: seq<byte>)
    ensures |b| == 4
  {
    [(n / 0x100_0000) as byte, (n / 0x1_0000 % 0x100) as byte, (n / 0x100 % 0x100) as byte, (n % 0x100) as byte]
  }

  function Value16(b: seq<byte>): uint16
    requires |b| == 2
  {
    b[0] as uint16 * 0x100 + b[1] as uint16
  }

  function Value32(b: seq<byte>): uint32
    requires |b| == 4
  {
    b[0] as uint32 * 0x100_0000 + b[1] as uint32 * 0x1_0000 + b[2] as uint32 * 0x100 + b[3] as uint32
  }

  lemma Value16Inverse(n: uint16, b: seq<byte>)
    requires |b| == 2
    ensures Value16(Bytes16(n)) == n && Bytes16(Value16(b)) == b
  {
  }

  lemma Value32Inverse(n: uint32, b: seq<byte>)
    requires |b| == 4
    ensures Value32(Bytes32(n)) == n && Bytes32(Value32(b)) == b
  {
    FromDigits(n as int);
    DigitsOf(b[0] as int, b[1] as int, b[2] as int, b[3] as int);
    hide Bytes32;
    Bytes32At(n);
    Bytes32At(Value32(b));
  }

  lemma Bytes32At(n: uint32)
    ensures var b, k := Bytes32(n), n as int;
            && b[0] as int == k / 0x100_0000 && b[1] as int == k / 0x1_0000 % 0x100
            && b[2] as int == k / 0x100 % 0x100 && b[3] as int == k % 0x100
  {
  }

  lemma FromDigits(n: nat)
    ensures n / 0x100_0000 * 0x100_0000 + n / 0x1_0000 % 0x100 * 0x1_0000 + n / 0x100 % 0x100 * 0x100 + n % 0x100 == n
  {
    assert n / 0x1_0000 == n / 0x100 / 0x100 && n / 0x100_0000 == n / 0x1_0000 / 0x100;
  }

  lemma DigitsOf(a: nat, b: nat, c: nat, d: nat)
    requires a < 0x100 && b < 0x100 && c < 0x100 && d < 0x100
    ensures var n := a * 0x100_0000 + b * 0x1_0000 + c * 0x100 + d;
            n / 0x100_0000 == a && n / 0x1_0000 % 0x100 == b && n / 0x100 % 0x100 == c && n % 0x100 == d
  {
    var n := a * 0x100_0000 + b * 0x1_0000 + c * 0x100 + d;
    assert n / 0x100 == a * 0x1_0000 + b * 0x100 + c;
    assert n / 0x1_0000 == a * 0x100 + b;
  }

  /** The header as it stands in a packet. */
  function HeaderBytes(h: PacketHeader): (b: seq<byte>)
    ensures |b| == HEADER_LEN
  {
    Bytes32(h.length) + Bytes16(h.version) + Bytes16(h.cmdId) + Bytes32(h.seqId)
  }

  function ParseHeader(b: seq<byte>): PacketHeader
    requires |b| >= HEADER_LEN
  {
    PacketHeader(Value32(b[..4]), Value16(b[4..6]), Value16(b[6..8]), Value32(b[8..12]))
  }

  method Copy(buffer: array<byte>, from: nat, b: seq<byte>)
    requires from + |b| <= buffer.Length
    modifies buffer
    ensures buffer[..] == old(buffer[..from]) + b + old(buffer[from + |b|..])
  {
    for i := 0 to |b|
      invariant buffer[..] == old(buffer[..from]) + b[..i] + old(buffer[from + i..])
    {
      buffer[from + i] := b[i];
    }
  }

  method EncodeHeader(header: PacketHeader, buffer: array<byte>)
    requires buffer.Length >= HEADER_LEN
    modifies buffer
    ensures buffer[..] == HeaderBytes(header) + old(buffer[HEADER_LEN..])
  {
    Copy(buffer, 0, Bytes32(header.length));
    Copy(buffer, 4, Bytes16(header.version));
    Copy(buffer, 6, Bytes16(header.cmdId));
    Copy(buffer, 8, Bytes32(header.seqId));
  }

  /** The number that bytes `i` to `i + k` stand for when the highest comes first. */
  function BigEndian(b: seq<byte>, i: nat, k: nat): nat
    requires i + k <= |b|
  {
    if k == 0 then 0 else 0x100 * BigEndian(b, i, k - 1) + b[i + k - 1] as int
  }

  /** The order on the wire: length, version, command id and sequence number, each with its highest byte first. */
  lemma WireOrder(h: PacketHeader)
    ensures var b := HeaderBytes(h);
            && BigEndian(b, 0, 4) == h.length as int && BigEndian(b, 4, 2) == h.version as int
            && BigEndian(b, 6, 2) == h.cmdId as int && BigEndian(b, 8, 4) == h.seqId as int
  {
    hide HeaderBytes, Bytes16, Bytes32, BigEndian;
    var b := HeaderBytes(h);
    HeaderSlices(h);
    FourBytes(b, 0, h.length);
    TwoBytes(b, 4, h.version);
    TwoBytes(b, 6, h.cmdId);
    FourBytes(b, 8, h.seqId);
  }

  lemma HeaderSlices(h: PacketHeader)
    ensures var b := HeaderBytes(h);
            && b[0..4] == Bytes32(h.length) && b[4..6] == Bytes16(h.version)
            && b[6..8] == Bytes16(h.cmdId) && b[8..12] == Bytes32(h.seqId)
  {
    hide Bytes16, Bytes32;
  }

  lemma FourBytes(b: seq<byte>, i: nat, n: uint32)
    requires i + 4 <= |b| && b[i..i + 4] == Bytes32(n)
    ensures BigEndian(b, i, 4) == n as int
  {
    var c, k := b[i..i + 4], n as int;
    Bytes32At(n);
    FromDigits(k);
    assert c[0] == b[i] && c[1] == b[i + 1] && c[2] == b[i + 2] && c[3] == b[i + 3];
    assert BigEndian(b, i, 1) == c[0] as int;
    assert BigEndian(b, i, 2) == 0x100 * BigEndian(b, i, 1) + c[1] as int;
    assert BigEndian(b, i, 3) == 0x100 * BigEndian(b, i, 2) + c[2] as int;
    assert BigEndian(b, i, 4) == 0x100 * BigEndian(b, i, 3) + c[3] as int;
  }

  lemma TwoBytes(b: seq<byte>, i: nat, n: uint16)
    requires i + 2 <= |b| && b[i..i + 2] == Bytes16(n)
    ensures BigEndian(b, i, 2) == n as int
  {
    var c := b[i..i + 2];
    assert c[0] == b[i] && c[1] == b[i + 1];
    assert BigEndian(b, i, 1) == c[0] as int;
  }

  /** DecodeHeader undoes EncodeHeader, whatever follows the header. */
  lemma DecodeUndoesEncode(h: PacketHeader, rest: seq<byte>)
    ensures ParseHeader(HeaderBytes(h) + rest) == h
  {
    var c, b := HeaderBytes(h), HeaderBytes(h) + rest;
    hide HeaderBytes, Bytes16, Bytes32, Value16, Value32;
    Value32Inverse(h.length, b[..4]);
    Value16Inverse(h.version, b[4..6]);
    Value16Inverse(h.cmdId, b[6..8]);
    Value32Inverse(h.seqId, b[8..12]);
    HeaderSlices(h);
    assert b[..4] == c[0..4] && b[4..6] == c[4..6] && b[6..8] == c[6..8] && b[8..12] == c[8..12];
  }

  /** EncodeHeader undoes DecodeHeader: every 12 bytes are the header they decode to. */
  lemma EncodeUndoesDecode(b: seq<byte>)
    requires |b| >= HEADER_LEN
    ensures HeaderBytes(ParseHeader(b)) == b[..HEADER_LEN]
  {
    Value32Inverse(0, b[..4]);
    Value16Inverse(0, b[4..6]);
    Value16Inverse(0, b[6..8]);
    Value32Inverse(0, b[8..12]);
    assert b[..12] == b[..4] + b[4..6] + b[6..8] + b[8..12];
  }

  // Packets.

  /** The 32-bit length field of a packet: it wraps around for bodies that are too long for it. */
  function LengthField(bodySize: nat): uint32
  {
    ((HEADER_LEN + bodySize) % 0x1_0000_0000) as uint32
  }

  function Packet(version: uint16, cmdId: uint16, seqId: uint32, body: seq<byte>): seq<byte>
  {
    HeaderBytes(PacketHeader(LengthField(|body|), version, cmdId, seqId)) + body
  }

  /** The length field is the size of the packet, modulo 2^32. */
  lemma LengthIsSize(version: uint16, cmdId: uint16, seqId: uint32, body: seq<byte>)
    ensures var p := Packet(version, cmdId, seqId, body);
            && |p| == 12 + |body| && p[12..] == body
            && ParseHeader(p) == PacketHeader((|p| % 0x1_0000_0000) as uint32, version, cmdId, seqId)
  {
    hide ParseHeader, HeaderBytes;
    var h := PacketHeader(LengthField(|body|), version, cmdId, seqId);
    assert Packet(version, cmdId, seqId, body) == HeaderBytes(h) + body;
    DecodeUndoesEncode(h, body);
  }

  /** The command id each of the dispatcher's four arms answers with. */
  function ReplyCmd(cmdId: uint16): Option<uint16>
  {
    if cmdId == 0x1001 then Some(0x1002)
    else if cmdId == 0x1003 then Some(0x1004)
    else if cmdId == 0x1006 then Some(0x1007)
    else if cmdId == 0x1008 then Some(0x1009)
    else None
  }

  /** Login, send, sync and upload are answered, each with the next command id, and nothing else is. */
  lemma AnsweredCommands(cmdId: uint16)
    ensures ReplyCmd(cmdId).Some? <==> cmdId in {0x1001, 0x1003, 0x1006, 0x1008}
    ensures ReplyCmd(cmdId).Some? ==> ReplyCmd(cmdId).value == cmdId + 1
  {
  }

  /** The response to a request: the request's version and sequence number, and the command id after its own. */
  method BuildResponse(header: PacketHeader, body: seq<byte>) returns (data: seq<byte>)
    requires ReplyCmd(header.cmdId).Some?
    ensures data == Packet(header.version, header.cmdId + 1, header.seqId, body)
  {
    var resHeader := PacketHeader(LengthField(|body|), header.version, ReplyCmd(header.cmdId).value, header.seqId);
    var headBuffer := new byte[HEADER_LEN];
    EncodeHeader(resHeader, headBuffer);
    data := [];
    data := data + headBuffer[..];
    data := data + body;
  }

  method PackPushMsg(body: seq<byte>) returns (packet: seq<byte>)
    ensures packet == Packet(1, 0x1005, 0, body)
  {
    packet := [];
    packet := packet + Bytes32(LengthField(|body|));
    packet := packet + Bytes16(1);
    packet := packet + Bytes16(0x1005);
    packet := packet + Bytes32(0);
    packet := packet + body;
  }

  // Streams of packets.

  datatype Frame = Frame(version: uint16, cmdId: uint16, seqId: uint32, body: seq<byte>)
  {
    function Bytes(): seq<byte> { Packet(version, cmdId, seqId, body) }

    /** The length field can hold the size of the packet. */
    predicate Fits() { HEADER_LEN + |body| < 0x1_0000_0000 }
  }

  function Join(frames: seq<Frame>): seq<byte>
  {
    if frames == [] then [] else frames[0].Bytes() + Join(frames[1..])
  }

  /** Cuts a stream by the decoded length fields. */
  function ReadStream(s: seq<byte>): Option<seq<Frame>>
  {
    if s == [] then Some([])
    else if |s| < HEADER_LEN then None
    else
      var h := ParseHeader(s);
      if HEADER_LEN <= h.length as int <= |s| then
        var rest := ReadStream(s[h.length as int..]);
        if rest.None? then None
        else Some([Frame(h.version, h.cmdId, h.seqId, s[HEADER_LEN..h.length as int])] + rest.value)
      else None
  }

  lemma FrontFrame(f: Frame, rest: seq<byte>)
    requires f.Fits()
    ensures var s, n := f.Bytes() + rest, HEADER_LEN + |f.body|;
            && |s| >= n
            && ParseHeader(s) == PacketHeader(n as uint32, f.version, f.cmdId, f.seqId)
            && s[n..] == rest && s[HEADER_LEN..n] == f.body
  {
    hide HeaderBytes, ParseHeader;
    var h := PacketHeader(LengthField(|f.body|), f.version, f.cmdId, f.seqId);
    assert f.Bytes() + rest == HeaderBytes(h) + (f.body + rest);
    DecodeUndoesEncode(h, f.body + rest);
  }

  lemma {:induction false} ReadUndoesJoin(frames: seq<Frame>)
    requires forall f :: f in frames ==> f.Fits()
    ensures ReadStream(Join(frames)) == Some(frames)
  {
    if frames != [] {
      hide ParseHeader, Packet;
      assert frames[0] in frames;
      var s := Join(frames);
      FrontFrame(frames[0], Join(frames[1..]));
      ReadUndoesJoin(frames[1..]);
      var h := ParseHeader(s);
      assert Frame(h.version, h.cmdId, h.seqId, s[HEADER_LEN..h.length as int]) == frames[0];
      assert [frames[0]] + frames[1..] == frames;
    }
  }

  /** The first packet of a readable stream is the bytes it was read from. */
  lemma FrontBytes(s: seq<byte>)
    requires |s| >= HEADER_LEN && HEADER_LEN <= ParseHeader(s).length as int <= |s|
    ensures var h := ParseHeader(s);
            var f := Frame(h.version, h.cmdId, h.seqId, s[HEADER_LEN..h.length as int]);
            f.Fits() && f.Bytes() == s[..h.length as int]
  {
    var h := ParseHeader(s);
    EncodeUndoesDecode(s);
    hide ParseHeader, HeaderBytes;
    assert s[..h.length as int] == s[..HEADER_LEN] + s[HEADER_LEN..h.length as int];
  }

  lemma {:induction false} JoinUndoesRead(s: seq<byte>)
    requires ReadStream(s).Some?
    ensures Join(ReadStream(s).value) == s
    ensures forall f :: f in ReadStream(s).value ==> f.Fits()
    decreases |s|
  {
    if s != [] {
      hide ParseHeader, Packet;
      var n := ParseHeader(s).length as int;
      JoinUndoesRead(s[n..]);
      FrontBytes(s);
      assert ReadStream(s).value[1..] == ReadStream(s[n..]).value;
    }
  }

  /** A stream of packets is read back exactly when every length field can hold its packet's size. */
  lemma StreamIsReadableIff(frames: seq<Frame>)
    ensures ReadStream(Join(frames)) == Some(frames) <==> forall f :: f in frames ==> f.Fits()
  {
    if forall f :: f in frames ==> f.Fits() {
      ReadUndoesJoin(frames);
    } else if ReadStream(Join(frames)).Some? {
      JoinUndoesRead(Join(frames));
    }
  }

  /** Two lists of packets that fit and give the same bytes are the same list. */
  lemma JoinInjective(a: seq<Frame>, b: seq<Frame>)
    requires Join(a) == Join(b) && (forall f :: f in a + b ==> f.Fits())
    ensures a == b
  {
    ReadUndoesJoin(a);
    ReadUndoesJoin(b);
  }

  // The dispatcher.

  /** The length test of the send, sync and upload arms, in the machine's 64-bit unsigned arithmetic. */
  predicate LongEnough(messageSize: nat, length: uint32)
  {
    messageSize >= (HEADER_LEN + (length as int - HEADER_LEN) % SIZE_RANGE) % SIZE_RANGE
  }

  /** The bytes that the send, sync and upload arms parse as the body of their request. */
  function RequestBody(message: seq<byte>): Option<seq<byte>>
  {
    if |message| < HEADER_LEN || !LongEnough(|message|, ParseHeader(message).length) then None
    else Some(message[HEADER_LEN..])
  }

  /** The test compares with the declared length, also when that is shorter than a header and the
      subtraction wraps around. */
  lemma LengthTest(message: seq<byte>)
    ensures RequestBody(message).Some? <==>
            |message| >= HEADER_LEN && |message| >= ParseHeader(message).length as int
    ensures RequestBody(message).Some? ==> RequestBody(message).value == message[12..]
  {
  }

  /** A whole packet in one message is parsed as sent. When one message holds more, the declared length does
      not cut it: the rest of the message is taken as part of the first packet's body. */
  lemma MessageHoldsOnePacket(f: Frame, rest: seq<byte>)
    requires f.Fits()
    ensures RequestBody(f.Bytes() + rest) == Some(f.body + rest)
  {
    FrontFrame(f, rest);
    LengthTest(f.Bytes() + rest);
    assert (f.Bytes() + rest)[HEADER_LEN..] == f.body + rest;
  }
}
