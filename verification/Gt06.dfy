/**
  The GT06 framer: it looks for 0x7878 and 0x7979 frames in a byte buffer, skips what is neither, and says how
  many bytes it is done with. A CRC mismatch only makes the service log a warning, so it has no place here.
*/
module Gt06 {
  import opened Prelude

  type Bytes = seq<bv8>

  datatype Packet = Packet(
    startBytes: nat, packetLength: nat, protocolNumber: bv8, data: Bytes,
    serialNumber: nat, crc: nat, stopBytes: nat)

  /** A big-endian 16-bit number. */
  function U16(hi: bv8, lo: bv8): (n: nat)
    ensures n < 0x1_0000
  {
    (hi as int) * 256 + (lo as int)
  }

  /** readUInt16BE, which throws outside the buffer. */
  function ReadU16(b: Bytes, at: int): Option<nat> {
    if 0 <= at && at + 2 <= |b| then Some(U16(b[at], b[at + 1])) else None
  }

  /** subarray for a non-negative start: empty when the end does not come after the start. */
  function Subarray(b: Bytes, start: nat, end: int): Bytes {
    if start < end <= |b| then b[start..end] else []
  }

  /** The three numbers behind the data, unless one of them lies outside the buffer. */
  function ReadPacket(b: Bytes, startBytes: nat, packetLength: nat, protocolAt: nat, dataEndIndex: int): Option<Packet>
    requires protocolAt < |b|
  {
    var serial, crc, stop := ReadU16(b, dataEndIndex), ReadU16(b, dataEndIndex + 2), ReadU16(b, dataEndIndex + 4);
    if serial.Some? && crc.Some? && stop.Some? then
      Some(Packet(startBytes, packetLength, b[protocolAt], Subarray(b, protocolAt + 1, dataEndIndex),
                  serial.value, crc.value, stop.value))
    else None
  }

  function ParseShortPacket(b: Bytes): Option<Packet> {
    if |b| < 5 then None
    else
      var packetLength := b[2] as int;
      ReadPacket(b, U16(b[0], b[1]), packetLength, 3, 2 + packetLength - 4)
  }

  function ParseLongPacket(b: Bytes): Option<Packet> {
    if |b| < 6 then None
    else
      var packetLength := U16(b[2], b[3]);
      ReadPacket(b, U16(b[0], b[1]), packetLength, 4, 4 + packetLength - 4)
  }

  // The framer.

  /** What the front of the buffer is. */
  datatype Front = Incomplete | Frame(total: nat) | Junk

  predicate ShortStart(b: Bytes)
    requires |b| >= 2
  {
    b[0] == 0x78 && b[1] == 0x78
  }

  predicate LongStart(b: Bytes)
    requires |b| >= 2
  {
    b[0] == 0x79 && b[1] == 0x79
  }

  function FrontOf(b: Bytes): (f: Front)
    ensures f.Frame? ==> 5 <= f.total <= |b|
    ensures f.Junk? ==> |b| >= 2
  {
    if |b| < 2 then Incomplete
    else if ShortStart(b) then
      if |b| < 3 || |b| < b[2] as int + 5 then Incomplete else Frame(b[2] as int + 5)
    else if LongStart(b) then
      if |b| < 4 || |b| < U16(b[2], b[3]) + 6 then Incomplete else Frame(U16(b[2], b[3]) + 6)
    else Junk
  }

  predicate IsFrame(f: Bytes) {
    FrontOf(f) == Frame(|f|)
  }

  /** The packet of a frame, if parsing it does not fail. */
  function PacketOf(f: Bytes): seq<Packet>
    requires |f| >= 2
  {
    var p := if ShortStart(f) then ParseShortPacket(f) else ParseLongPacket(f);
    if p.Some? then [p.value] else []
  }

  datatype Parsed = Parsed(packets: seq<Packet>, consumed: nat)

  function Parse(b: Bytes): (r: Parsed)
    ensures r.consumed <= |b|
    decreases |b|
  {
    match FrontOf(b)
    case Incomplete => Parsed([], 0)
    case Frame(total) =>
      var rest := Parse(b[total..]);
      Parsed(PacketOf(b[..total]) + rest.packets, total + rest.consumed)
    case Junk =>
      var rest := Parse(b[1..]);
      Parsed(rest.packets, 1 + rest.consumed)
  }

  /** The loop stands at offset and has found `packets`; the rest of the buffer gives the rest. */
  ghost predicate At(buffer: Bytes, packets: seq<Packet>, offset: nat) {
    && offset <= |buffer|
    && packets + Parse(buffer[offset..]).packets == Parse(buffer).packets
    && offset + Parse(buffer[offset..]).consumed == Parse(buffer).consumed
  }

  lemma AtStart(buffer: Bytes)
    ensures At(buffer, [], 0)
  {
    assert buffer[0..] == buffer;
  }

  lemma AtFrame(buffer: Bytes, packets: seq<Packet>, offset: nat, total: nat)
    requires At(buffer, packets, offset) && FrontOf(buffer[offset..]) == Frame(total)
    ensures At(buffer, packets + PacketOf(buffer[offset..offset + total]), offset + total)
  {
    hide PacketOf;
    hide FrontOf;
    var b := buffer[offset..];
    assert b[..total] == buffer[offset..offset + total] && b[total..] == buffer[offset + total..];
    var p, rest := PacketOf(b[..total]), Parse(b[total..]).packets;
    assert Parse(b) == Parsed(p + rest, total + Parse(b[total..]).consumed);
    assert packets + (p + rest) == packets + p + rest;
  }

  lemma AtJunk(buffer: Bytes, packets: seq<Packet>, offset: nat)
    requires At(buffer, packets, offset) && FrontOf(buffer[offset..]) == Junk
    ensures At(buffer, packets, offset + 1)
  {
    assert buffer[offset..][1..] == buffer[offset + 1..];
  }

  lemma AtEnd(buffer: Bytes, packets: seq<Packet>, offset: nat)
    requires At(buffer, packets, offset) && FrontOf(buffer[offset..]) == Incomplete
    ensures Parse(buffer) == Parsed(packets, offset)
  {
  }

  /** The tests of the loop body, as written. */
  lemma FrontAt(buffer: Bytes, offset: nat)
    requires offset + 2 <= |buffer|
    ensures FrontOf(buffer[offset..]) ==
            if buffer[offset] == 0x78 && buffer[offset + 1] == 0x78 then
              if offset + 3 > |buffer| || offset + (buffer[offset + 2] as int + 5) > |buffer| then Incomplete
              else Frame(buffer[offset + 2] as int + 5)
            else if buffer[offset] == 0x79 && buffer[offset + 1] == 0x79 then
              if offset + 4 > |buffer| || offset + (U16(buffer[offset + 2], buffer[offset + 3]) + 6) > |buffer| then
                Incomplete
              else Frame(U16(buffer[offset + 2], buffer[offset + 3]) + 6)
            else Junk
  {
    hide U16;
  }

  lemma FrontOfShortBuffer(b: Bytes)
    requires |b| < 2
    ensures FrontOf(b) == Incomplete
  {
  }

  method ParsePackets(buffer: Bytes) returns (packets: seq<Packet>, consumed: nat)
    ensures Parsed(packets, consumed) == Parse(buffer)
  {
    hide At;
    hide Parse;
    hide ParseShortPacket;
    hide ParseLongPacket;
    hide FrontOf;
    hide U16;
    packets := [];
    var offset := 0;
    AtStart(buffer);
    while offset < |buffer| - 1
      invariant At(buffer, packets, offset) && 0 <= offset <= |buffer|
    {
      FrontAt(buffer, offset);
      var startByte1, startByte2 := buffer[offset], buffer[offset + 1];
      if startByte1 == 0x78 && startByte2 == 0x78 {
        if offset + 3 > |buffer| {
          break;
        }
        var packetLength := buffer[offset + 2] as int;
        var totalLength := packetLength + 5;
        if offset + totalLength > |buffer| {
          break;
        }
        AtFrame(buffer, packets, offset, totalLength);
        ghost var found := packets;
        assert found + [] == found;
        var packet := ParseShortPacket(buffer[offset..offset + totalLength]);
        if packet.Some? {
          packets := packets + [packet.value];
        }
        offset := offset + totalLength;
      } else if startByte1 == 0x79 && startByte2 == 0x79 {
        if offset + 4 > |buffer| {
          break;
        }
        var packetLength := U16(buffer[offset + 2], buffer[offset + 3]);
        var totalLength := packetLength + 6;
        if offset + totalLength > |buffer| {
          break;
        }
        AtFrame(buffer, packets, offset, totalLength);
        ghost var found := packets;
        assert found + [] == found;
        var packet := ParseLongPacket(buffer[offset..offset + totalLength]);
        if packet.Some? {
          packets := packets + [packet.value];
        }
        offset := offset + totalLength;
      } else {
        AtJunk(buffer, packets, offset);
        offset := offset + 1;
      }
    }
    if offset >= |buffer| - 1 {
      FrontOfShortBuffer(buffer[offset..]);
    }
    AtEnd(buffer, packets, offset);
    consumed := offset;
  }
}
