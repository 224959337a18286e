/**
 The nine-byte public header in front of every datagram: an Adler-32 checksum
 of what follows it, the packet type and the session id.
 */
module Envelope {
  import opened SerialArith
  import opened Codec
  import opened Engine
  import opened EngineInvariant
  import opened ByteRuns

  const SYN_PACKET: byte := 0
  const ACK_PACKET: byte := 1
  const RST_PACKET: byte := 2
  const PING_PACKET: byte := 3
  const PONG_PACKET: byte := 4
  const DATA_PACKET: byte := 5

  const HEADER_LENGTH: int := 9

  // ---------------------------------------------------------------------
  // Adler-32 (section 2.2 of RFC 1950)
  // ---------------------------------------------------------------------

  const BASE: int := 65521

  /** One more than the sum of the bytes. */
  function Sum1(s: seq<byte>): (n: nat) {
    if s == [] then 1 else Sum1(s[..|s| - 1]) + s[|s| - 1]
  }

  /** The sum of Sum1 over all non-empty prefixes. */
  function Sum2(s: seq<byte>): nat {
    if s == [] then 0 else Sum2(s[..|s| - 1]) + Sum1(s)
  }

  function Adler32(s: seq<byte>): (c: u32) {
    Sum2(s) % BASE * 65536 + Sum1(s) % BASE
  }

  lemma EmptySums()
    ensures Sum1([]) == 1 && Sum2([]) == 0
  {
  }

  lemma OneMoreByte(buf: seq<byte>, i: nat)
    requires i < |buf|
    ensures Sum1(buf[..i + 1]) == Sum1(buf[..i]) + buf[i]
    ensures Sum2(buf[..i + 1]) == Sum2(buf[..i]) + Sum1(buf[..i + 1])
  {
    assert buf[..i + 1][..i] == buf[..i];
  }

  lemma ModAdd(x: nat, d: nat)
    ensures (x % BASE + d) % BASE == (x + d) % BASE
  {
  }

  lemma ModAddMod(x: nat, y: nat)
    ensures (x % BASE + y % BASE) % BASE == (x + y) % BASE
  {
    ModAdd(x, y % BASE);
    ModAdd(y, x);
  }

  /** adler32(1, buf, len): reduces as it goes. */
  method ComputeAdler32(buf: seq<byte>) returns (sum: u32)
    ensures sum == Adler32(buf)
  {
    hide Sum1, Sum2;
    EmptySums();
    var a, b := 1, 0;
    for i := 0 to |buf|
      invariant a == Sum1(buf[..i]) % BASE && b == Sum2(buf[..i]) % BASE
    {
      OneMoreByte(buf, i);
      ModAdd(Sum1(buf[..i]), buf[i]);
      a := (a + buf[i]) % BASE;
      ModAddMod(Sum2(buf[..i]), Sum1(buf[..i + 1]));
      b := (b + a) % BASE;
    }
    assert buf[..|buf|] == buf;
    return b * 65536 + a;
  }

  /** The sums of a text in which one byte has been replaced. */
  lemma {:induction false} SumAfterChange(s: seq<byte>, i: nat, v: byte)
    requires i < |s|
    ensures Sum1(s[i := v]) == Sum1(s) - s[i] + v
  {
    var n := |s| - 1;
    if i < n {
      SumAfterChange(s[..n], i, v);
      assert s[i := v][..n] == s[..n][i := v];
    } else {
      assert s[i := v][..n] == s[..n];
    }
  }

  /** Replacing one byte by another always changes the checksum. */
  lemma ChecksumSeesOneByte(s: seq<byte>, i: nat, v: byte)
    requires i < |s| && v != s[i]
    ensures Adler32(s[i := v]) != Adler32(s)
  {
    hide Sum1, Sum2;
    SumAfterChange(s, i, v);
    var x, y := Sum1(s), Sum1(s[i := v]);
    if x % BASE == y % BASE {
      assert x - y == BASE * (x / BASE - y / BASE);
      SmallMultiple(x - y, x / BASE - y / BASE);
    }
  }

  lemma SmallMultiple(d: int, k: int)
    requires d == BASE * k && -BASE < d < BASE
    ensures d == 0
  {
  }

  // ---------------------------------------------------------------------
  // Packets as values
  // ---------------------------------------------------------------------

  datatype Header = Header(checksum: u32, packetType: byte, sessionId: u32)

  datatype ErrorCode =
    | Success
    | InvalidLength
    | UnableReadChecksum
    | UnableReadPacketType
    | UnableReadSessionId
    | InvalidChecksum
    | UnableWritePublicHeader
    | UnableWriteChecksum

  /** What the checksum covers. */
  function Covered(packetType: byte, sessionId: u32, body: seq<byte>): (s: seq<byte>)
    ensures |s| == |body| + 5
  {
    [packetType] + Encode32(sessionId) + body
  }

  /** The packet for a body. */
  function Seal(packetType: byte, sessionId: u32, body: seq<byte>): (s: seq<byte>)
    ensures |s| == |body| + HEADER_LENGTH
  {
    Encode32(Adler32(Covered(packetType, sessionId, body))) + Covered(packetType, sessionId, body)
  }

  /** ReadPublicHeader on a whole packet: the code, the header and what remains to be read. */
  datatype ReadResult = ReadResult(code: ErrorCode, header: Header, rest: seq<byte>)

  function Read(s: seq<byte>, header: Header): ReadResult {
    if |s| < HEADER_LENGTH then ReadResult(InvalidLength, header, s)
    else if Decode32(s) != Adler32(s[4..]) then ReadResult(InvalidChecksum, header, s[HEADER_LENGTH..])
    else ReadResult(Success, Header(Decode32(s), s[4], Decode32(s[5..])), s[HEADER_LENGTH..])
  }

  lemma SealLayout(packetType: byte, sessionId: u32, body: seq<byte>)
    ensures var s := Seal(packetType, sessionId, body);
      && s[..4] == Encode32(Adler32(Covered(packetType, sessionId, body)))
      && s[4..] == Covered(packetType, sessionId, body)
      && s[4] == packetType && s[5..9] == Encode32(sessionId) && s[9..] == body
  {
    hide Adler32, Encode32;
  }

  /** Reading a sealed packet gives back its type, its id and exactly its body. */
  lemma SealRoundTrip(packetType: byte, sessionId: u32, body: seq<byte>, header: Header)
    ensures var s := Seal(packetType, sessionId, body);
      Read(s, header) == ReadResult(Success, Header(Adler32(s[4..]), packetType, sessionId), body)
  {
    hide Adler32, Encode32, Decode32;
    var s := Seal(packetType, sessionId, body);
    SealLayout(packetType, sessionId, body);
    assert s[0..4] == s[..4] && s[0..] == s;
    Decode32Prefix(s, 0, Adler32(Covered(packetType, sessionId, body)));
    Decode32Prefix(s, 5, sessionId);
  }

  /** What is accepted is exactly what Seal makes. */
  lemma OnlySealedIsRead(s: seq<byte>, header: Header)
    ensures Read(s, header).code.Success? <==>
      exists packetType: byte, sessionId: u32, body: seq<byte> :: s == Seal(packetType, sessionId, body)
  {
    hide Adler32, Encode32, Decode32;
    if Read(s, header).code.Success? {
      var sid: u32 := Decode32(s[5..]);
      Encode32Decode32(s);
      Encode32Decode32(s[5..]);
      assert s[5..][..4] == s[5..9];
      assert s[4..] == [s[4]] + s[5..9] + s[9..];
      assert s == s[..4] + s[4..];
      assert s == Seal(s[4], sid, s[9..]);
    }
    if packetType: byte, sessionId: u32, body: seq<byte> :| s == Seal(packetType, sessionId, body) {
      SealRoundTrip(packetType, sessionId, body, header);
    }
  }

  lemma Encode32Decode32(s: seq<byte>)
    requires |s| >= 4
    ensures Encode32(Decode32(s)) == s[..4]
  {
    var x := Decode32(s);
    var a: int, b: int, c: int := s[1] as int + 0x100 * (s[2] as int) + 0x1_0000 * (s[3] as int), s[2] as int + 0x100 * (s[3] as int), s[3];
    assert x == s[0] as int + 256 * a && a == s[1] as int + 256 * b && b == s[2] as int + 256 * c;
    assert x / 256 == a && a / 256 == b && b / 256 == c;
    assert x / 0x1_0000 == b && x / 0x100_0000 == c;
  }

  /** Changing any single byte of a packet makes it unreadable. */
  lemma OneByteChangeIsCaught(packetType: byte, sessionId: u32, body: seq<byte>, i: nat, v: byte, header: Header)
    requires i < HEADER_LENGTH + |body|
    requires v != Seal(packetType, sessionId, body)[i]
    ensures Read(Seal(packetType, sessionId, body)[i := v], header).code == InvalidChecksum
  {
    hide Adler32, Encode32, Decode32, Seal;
    var s := Seal(packetType, sessionId, body);
    var t := s[i := v];
    SealRoundTrip(packetType, sessionId, body, header);
    if i < 4 {
      assert t[4..] == s[4..];
      Encode32Decode32(s);
      Encode32Decode32(t);
      assert s[..4][i] == s[i] && t[..4][i] == v;
    } else {
      assert t[4..] == s[4..][i - 4 := v];
      ChecksumSeesOneByte(s[4..], i - 4, v);
      SameFirstFour(s, t);
    }
  }

  lemma SameFirstFour(s: seq<byte>, t: seq<byte>)
    requires |s| >= 4 && |t| >= 4 && forall j :: 0 <= j < 4 ==> s[j] == t[j]
    ensures Decode32(s) == Decode32(t)
  {
  }

  /** With nine bytes of head room, sealing fills it exactly: the datagram is no longer than the mtu. */
  lemma HeadRoomIsFilled(cfg: Config, k: Kcb, current: u32, i: nat)
    requires BlockOk(cfg, k) && cfg.headRoom == HEADER_LENGTH
    requires i < |Datagrams(cfg, Flush(Ring32, cfg, k, current).wires)|
    ensures var body := EncodeGrams(cfg.conv, Datagrams(cfg, Flush(Ring32, cfg, k, current).wires))[i];
      && HEADER_LENGTH < |Seal(DATA_PACKET, cfg.conv, body)| <= cfg.mtu
      && (var read := Read(Seal(DATA_PACKET, cfg.conv, body), Header(0, 0, 0));
          read.code == Success && read.header.packetType == DATA_PACKET && read.header.sessionId == cfg.conv && read.rest == body)
  {
    hide Engine.Flush, BlockOk, Adler32, EncodeAll, DecodeGrams, Seal, Read, Pack;
    FlushDecodes(cfg, k, current);
    SealRoundTrip(DATA_PACKET, cfg.conv, EncodeGrams(cfg.conv, Datagrams(cfg, Engine.Flush(Ring32, cfg, k, current).wires))[i],
                  Header(0, 0, 0));
  }

  // ---------------------------------------------------------------------
  // Packets as objects
  // ---------------------------------------------------------------------

  /** KCPPendingSendPacket: a view of a caller's buffer. */
  class PendingSendPacket {
    const data: array<byte>
    const length: nat

    predicate Valid() {
      length <= data.Length
    }

    constructor (data: array<byte>, length: nat)
      requires length <= data.Length
      ensures Valid() && this.data == data && this.length == length
    {
      this.data, this.length := data, length;
    }

    /** memcpy of a few bytes at an offset. */
    method Put(offset: nat, bytes: seq<byte>)
      requires Valid() && offset + |bytes| <= length
      modifies data
      ensures data[..] == old(data[..offset]) + bytes + old(data[offset + |bytes|..])
    {
      for i := 0 to |bytes|
        invariant data[..offset] == old(data[..offset])
        invariant data[offset..offset + i] == bytes[..i]
        invariant data[offset + i..] == old(data[offset + i..])
        modifies data
      {
        data[offset + i] := bytes[i];
        assert data[offset + i + 1..] == old(data[offset + i..])[1..];
      }
      assert data[..] == data[..offset] + data[offset..offset + |bytes|] + data[offset + |bytes|..];
    }

    /** KCPPublicHeader::WriteTo. */
    method WriteTo(header: Header) returns (ok: bool)
      requires Valid()
      modifies data
      ensures ok <==> length >= HEADER_LENGTH
      ensures !ok ==> data[..] == old(data[..])
      ensures ok ==> data[..] == Encode32(header.checksum) + [header.packetType] + Encode32(header.sessionId) + old(data[9..])
    {
      hide Encode32;
      if length < HEADER_LENGTH {
        return false;
      }
      Put(0, Encode32(header.checksum));
      Put(4, [header.packetType]);
      Put(5, Encode32(header.sessionId));
      return true;
    }

    /** KCPPublicHeader::WriteChecksum. */
    method WriteChecksum(checksum: u32) returns (ok: bool)
      requires Valid()
      modifies data
      ensures ok <==> length >= 4
      ensures !ok ==> data[..] == old(data[..])
      ensures ok ==> data[..] == Encode32(checksum) + old(data[4..])
    {
      hide Encode32;
      if length < 4 {
        return false;
      }
      Put(0, Encode32(checksum));
      return true;
    }

    /** WritePublicHeader: seals what follows the first nine bytes, which it leaves alone. */
    method WritePublicHeader(packetType: byte, sessionId: u32) returns (code: ErrorCode)
      requires Valid()
      modifies data
      ensures length < HEADER_LENGTH ==> code == UnableWritePublicHeader && data[..] == old(data[..])
      ensures length >= HEADER_LENGTH ==>
        && code == Success
        && data[..length] == Seal(packetType, sessionId, old(data[9..length]))
        && data[9..] == old(data[9..])
    {
      hide Encode32, Adler32;
      ghost var was := data[..];
      var ok := WriteTo(Header(0, packetType, sessionId));
      if !ok {
        return UnableWritePublicHeader;
      }
      assert data[4..length] == Covered(packetType, sessionId, was[9..length]);
      var checksum := ComputeAdler32(data[4..length]);
      ghost var mid := data[..];
      ok := WriteChecksum(checksum);
      if !ok {
        return UnableWriteChecksum;
      }
      assert data[..length] == Encode32(checksum) + mid[4..length];
      assert mid[9..] == was[9..];
      assert data[9..] == mid[9..];
      return Success;
    }
  }

  /** KCPReceivedPacket: a position in received bytes. */
  class ReceivedPacket {
    const data: seq<byte>
    var pos: nat

    predicate Valid()
      reads this
    {
      pos <= |data|
    }

    function Remaining(): (s: seq<byte>)
      reads this
      requires Valid()
      ensures |s| == |data| - pos
    {
      data[pos..]
    }

    constructor (data: seq<byte>)
      ensures Valid() && this.data == data && Remaining() == data && pos == 0
    {
      this.data, pos := data, 0;
    }

    /** ReadBytes: all of the bytes asked for or none. */
    method ReadBytes(size: nat) returns (ok: bool, bytes: seq<byte>)
      requires Valid()
      modifies this
      ensures Valid()
      ensures ok <==> size <= |old(Remaining())|
      ensures ok ==> bytes == old(Remaining())[..size] && Remaining() == old(Remaining())[size..]
      ensures ok ==> pos == old(pos) + size
      ensures !ok ==> pos == old(pos)
    {
      if size > |data| - pos {
        return false, [];
      }
      bytes := data[pos..pos + size];
      pos := pos + size;
      return true, bytes;
    }

    method ReadUInt8() returns (ok: bool, x: byte)
      requires Valid()
      modifies this
      ensures Valid()
      ensures ok <==> |old(Remaining())| >= 1
      ensures ok ==> x == old(Remaining())[0] && pos == old(pos) + 1
      ensures !ok ==> pos == old(pos)
    {
      var bytes;
      ok, bytes := ReadBytes(1);
      x := if ok then bytes[0] else 0;
    }

    method ReadUInt32() returns (ok: bool, x: u32)
      requires Valid()
      modifies this
      ensures Valid()
      ensures ok <==> |old(Remaining())| >= 4
      ensures ok ==> x == Decode32(old(Remaining())) && pos == old(pos) + 4
      ensures !ok ==> pos == old(pos)
    {
      var bytes;
      ok, bytes := ReadBytes(4);
      if ok {
        SameFirstFour(bytes, old(Remaining()));
      }
      x := if ok then Decode32(bytes) else 0;
    }

    /** ReadPublicHeader, at the start of a packet. */
    method ReadPublicHeader(header: Header) returns (code: ErrorCode, read: Header)
      requires Valid() && pos == 0
      modifies this
      ensures Valid()
      ensures ReadResult(code, read, Remaining()) == Read(data, header)
    {
      hide Adler32, Decode32;
      read := header;
      if HEADER_LENGTH > |data| - pos {
        return InvalidLength, read;
      }
      var ok, checksum := ReadUInt32();
      if !ok {
        return UnableReadChecksum, read;
      }
      var packetType;
      ok, packetType := ReadUInt8();
      if !ok {
        return UnableReadPacketType, read;
      }
      var sessionId;
      ok, sessionId := ReadUInt32();
      if !ok {
        return UnableReadSessionId, read;
      }
      var expected := ComputeAdler32(data[4..]);
      if checksum != expected {
        return InvalidChecksum, read;
      }
      return Success, Header(checksum, packetType, sessionId);
    }
  }
}
