/**
 The wire format of a KCP segment: a 24-byte little-endian header followed by
 the payload, and the greedy packing of segments into datagrams.
 */
module Codec {
  import opened SerialArith

  const CMD_PUSH: int := 81
  const CMD_ACK: int := 82
  const CMD_WASK: int := 83
  const CMD_WINS: int := 84
  const OVERHEAD: int := 24

  /** A segment as it travels; conv is a property of the connection. */
  datatype Wire = Wire(cmd: int, frg: int, wnd: int, ts: int, sn: int, una: int, data: seq<byte>)

  predicate KnownCmd(cmd: int) {
    cmd == CMD_PUSH || cmd == CMD_ACK || cmd == CMD_WASK || cmd == CMD_WINS
  }

  /** Every field fits the width the header gives it. */
  predicate Fits(w: Wire) {
    && KnownCmd(w.cmd) && 0 <= w.frg < 256 && 0 <= w.wnd < 65536
    && 0 <= w.ts < 0x1_0000_0000 && 0 <= w.sn < 0x1_0000_0000 && 0 <= w.una < 0x1_0000_0000
    && |w.data| < 0x8000_0000
  }

  // ---------------------------------------------------------------------
  // Integers
  // ---------------------------------------------------------------------

  function Encode16(x: int): (b: seq<byte>)
    ensures |b| == 2
  {
    [x % 256, x / 256 % 256]
  }

  function Encode32(x: int): (b: seq<byte>)
    ensures |b| == 4
  {
    [x % 256, x / 0x100 % 256, x / 0x1_0000 % 256, x / 0x100_0000 % 256]
  }

  function Decode16(b: seq<byte>): (x: int)
    requires |b| >= 2
    ensures 0 <= x < 65536
  {
    b[0] as int + 256 * (b[1] as int)
  }

  function Decode32(b: seq<byte>): (x: int)
    requires |b| >= 4
    ensures 0 <= x < 0x1_0000_0000
  {
    b[0] as int + 0x100 * (b[1] as int) + 0x1_0000 * (b[2] as int) + 0x100_0000 * (b[3] as int)
  }

  lemma RoundTrip16(x: int)
    requires 0 <= x < 65536
    ensures Decode16(Encode16(x)) == x
  {
  }

  lemma RoundTrip32(x: int)
    requires 0 <= x < 0x1_0000_0000
    ensures Decode32(Encode32(x)) == x
  {
    var a, b, c := x / 0x100, x / 0x1_0000, x / 0x100_0000;
    assert a / 0x100 == b && b / 0x100 == c;
    assert x == x % 256 + 0x100 * a && a == a % 256 + 0x100 * b && b == b % 256 + 0x100 * c && c == c % 256;
  }

  // ---------------------------------------------------------------------
  // Segments
  // ---------------------------------------------------------------------

  /** ikcp_encode_seg: the fields are truncated to their widths. */
  function Header(conv: int, w: Wire): (b: seq<byte>)
    ensures |b| == OVERHEAD
  {
    Encode32(conv) + [w.cmd % 256, w.frg % 256] + Encode16(w.wnd)
    + Encode32(w.ts) + Encode32(w.sn) + Encode32(w.una) + Encode32(|w.data|)
  }

  function Encode(conv: int, w: Wire): seq<byte> {
    Header(conv, w) + w.data
  }

  function EncodeAll(conv: int, ws: seq<Wire>): seq<byte> {
    if ws == [] then [] else Encode(conv, ws[0]) + EncodeAll(conv, ws[1..])
  }

  /** What one turn of ikcp_input's loop reads from the front of the input. */
  datatype Parsed =
    | End
    | BadConv
    | BadLength
    | BadCommand
    | Segment(w: Wire, rest: seq<byte>)

  function Parse(conv: int, b: seq<byte>): (p: Parsed)
    ensures p.Segment? ==> |p.rest| < |b| && KnownCmd(p.w.cmd)
  {
    if |b| < OVERHEAD then End
    else if Decode32(b) != conv then BadConv
    else
      var len := Decode32(b[20..]);
      if |b| - OVERHEAD < len || len >= 0x8000_0000 then BadLength
      else if !KnownCmd(b[4]) then BadCommand
      else
        Segment(Wire(b[4], b[5], Decode16(b[6..]), Decode32(b[8..]), Decode32(b[12..]), Decode32(b[16..]),
                     b[OVERHEAD..OVERHEAD + len]),
                b[OVERHEAD + len..])
  }

  /** Where each field of the header sits. */
  lemma HeaderLayout(conv: int, w: Wire, tail: seq<byte>)
    ensures var b := Header(conv, w) + tail;
      && b[..4] == Encode32(conv) && b[4] == w.cmd % 256 && b[5] == w.frg % 256
      && b[6..8] == Encode16(w.wnd) && b[8..12] == Encode32(w.ts) && b[12..16] == Encode32(w.sn)
      && b[16..20] == Encode32(w.una) && b[20..24] == Encode32(|w.data|) && b[24..] == tail
  {
  }

  lemma Decode32Prefix(b: seq<byte>, i: nat, x: int)
    requires i + 4 <= |b| && b[i..i + 4] == Encode32(x) && 0 <= x < 0x1_0000_0000
    ensures Decode32(b[i..]) == x
  {
    RoundTrip32(x);
    assert forall j :: 0 <= j < 4 ==> b[i..][j] == b[i..i + 4][j];
  }

  /** Parsing what was encoded gives the segment back, and leaves what followed it. */
  lemma ParseEncode(conv: int, w: Wire, tail: seq<byte>)
    requires Fits(w) && 0 <= conv < 0x1_0000_0000
    ensures Parse(conv, Encode(conv, w) + tail) == Segment(w, tail)
  {
    var b := Encode(conv, w) + tail;
    assert b == Header(conv, w) + (w.data + tail);
    HeaderLayout(conv, w, w.data + tail);
    assert b[0..4] == b[..4] && b[0..] == b;
    Decode32Prefix(b, 0, conv);
    Decode32Prefix(b, 8, w.ts);
    Decode32Prefix(b, 12, w.sn);
    Decode32Prefix(b, 16, w.una);
    Decode32Prefix(b, 20, |w.data|);
    RoundTrip16(w.wnd);
    assert Decode16(b[6..]) == Decode16(b[6..8]) by {
      assert forall j :: 0 <= j < 2 ==> b[6..][j] == b[6..8][j];
    }
    assert b[24..24 + |w.data|] == b[24..][..|w.data|] == w.data;
    assert b[24 + |w.data|..] == b[24..][|w.data|..] == tail;
  }

  lemma EncodeAllAppend(conv: int, a: seq<Wire>, w: Wire)
    ensures EncodeAll(conv, a + [w]) == EncodeAll(conv, a) + Encode(conv, w)
  {
    if a == [] {
      assert a + [w] == [w];
    } else {
      assert (a + [w])[1..] == a[1..] + [w];
    }
  }

  // ---------------------------------------------------------------------
  // Datagrams
  // ---------------------------------------------------------------------

  function Need(w: Wire): int {
    OVERHEAD + |w.data|
  }

  function Size(ws: seq<Wire>): (n: int)
    ensures n >= 0
  {
    if ws == [] then 0 else Need(ws[0]) + Size(ws[1..])
  }

  function Flatten<T>(xss: seq<seq<T>>): seq<T> {
    if xss == [] then [] else xss[0] + Flatten(xss[1..])
  }

  /** Finished datagrams, and the one being filled. */
  datatype Packing = Packing(done: seq<seq<Wire>>, open: seq<Wire>)

  /** Adds a segment to the open datagram, sending that first when the segment does not fit. */
  function Put(room: int, p: Packing, w: Wire): Packing {
    if Size(p.open) + Need(w) > room
    then Packing(p.done + [p.open], [w])
    else Packing(p.done, p.open + [w])
  }

  function PutAll(room: int, p: Packing, ws: seq<Wire>): Packing
    decreases |ws|
  {
    if ws == [] then p else PutAll(room, Put(room, p, ws[0]), ws[1..])
  }

  function Finish(p: Packing): seq<seq<Wire>> {
    if p.open == [] then p.done else p.done + [p.open]
  }

  /** The datagrams ikcp_flush sends for a list of segments, room bytes each at most. */
  function Pack(room: int, ws: seq<Wire>): seq<seq<Wire>> {
    Finish(PutAll(room, Packing([], []), ws))
  }

  /** Every finished datagram is non-empty and within the room, and so is the open one. */
  ghost predicate PackingOk(room: int, p: Packing) {
    && (forall i :: 0 <= i < |p.done| ==> p.done[i] != [] && Size(p.done[i]) <= room)
    && Size(p.open) <= room
  }

  lemma SizeAppend(a: seq<Wire>, w: Wire)
    ensures Size(a + [w]) == Size(a) + Need(w)
  {
    if a == [] {
      assert a + [w] == [w];
    } else {
      assert (a + [w])[1..] == a[1..] + [w];
    }
  }

  lemma {:induction false} FlattenAppend<T>(a: seq<seq<T>>, x: seq<T>)
    ensures Flatten(a + [x]) == Flatten(a) + x
  {
    if a == [] {
      assert a + [x] == [x];
    } else {
      FlattenAppend(a[1..], x);
      assert (a + [x])[1..] == a[1..] + [x];
    }
  }

  lemma PutOk(room: int, p: Packing, w: Wire)
    requires PackingOk(room, p) && Need(w) <= room
    ensures PackingOk(room, Put(room, p, w))
    ensures var q := Put(room, p, w);
      Flatten(q.done) + q.open == Flatten(p.done) + p.open + [w]
  {
    SizeAppend(p.open, w);
    FlattenAppend(p.done, p.open);
    assert Size([w]) == Need(w);
  }

  lemma {:induction false} PutAllOk(room: int, p: Packing, ws: seq<Wire>)
    requires PackingOk(room, p) && forall i :: 0 <= i < |ws| ==> Need(ws[i]) <= room
    ensures PackingOk(room, PutAll(room, p, ws))
    ensures var q := PutAll(room, p, ws);
      Flatten(q.done) + q.open == Flatten(p.done) + p.open + ws
    decreases |ws|
  {
    if ws != [] {
      PutOk(room, p, ws[0]);
      PutAllOk(room, Put(room, p, ws[0]), ws[1..]);
      assert p.open + [ws[0]] + ws[1..] == p.open + ws;
    }
  }

  /**
   Packing neither splits, drops nor reorders a segment, and every datagram is
   non-empty and within the room.
   */
  lemma PackSpec(room: int, ws: seq<Wire>)
    requires forall i :: 0 <= i < |ws| ==> Need(ws[i]) <= room
    requires room >= 0
    ensures Flatten(Pack(room, ws)) == ws
    ensures forall i :: 0 <= i < |Pack(room, ws)| ==> 0 < Size(Pack(room, ws)[i]) <= room
  {
    PutAllOk(room, Packing([], []), ws);
    var q := PutAll(room, Packing([], []), ws);
    FlattenAppend(q.done, q.open);
    assert Flatten(q.done) + q.open == ws;
    if q.open == [] {
      assert Flatten(q.done) + [] == Flatten(q.done);
    }
    forall i | 0 <= i < |Pack(room, ws)|
      ensures 0 < Size(Pack(room, ws)[i]) <= room
    {
      assert Size(Pack(room, ws)[i]) >= Need(Pack(room, ws)[i][0]);
    }
  }

  lemma {:induction false} EncodeAllSize(conv: int, ws: seq<Wire>)
    ensures |EncodeAll(conv, ws)| == Size(ws)
  {
    if ws != [] {
      EncodeAllSize(conv, ws[1..]);
    }
  }
}
