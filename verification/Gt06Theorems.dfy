/** What the framer guarantees: it is a stream homomorphism, long frames round-trip, and short ones do not. */
module Gt06Theorems {
  import opened Prelude
  import opened Gt06

  // Parsing a stream in pieces.

  lemma FrontStable(a: Bytes, b: Bytes)
    requires !FrontOf(a).Incomplete?
    ensures FrontOf(a + b) == FrontOf(a)
  {
  }

  /** r, after n bytes that gave packets ps. */
  function After(ps: seq<Packet>, n: nat, r: Parsed): Parsed {
    Parsed(ps + r.packets, n + r.consumed)
  }

  lemma AfterAfter(ps: seq<Packet>, n: nat, qs: seq<Packet>, m: nat, r: Parsed)
    ensures After(ps, n, After(qs, m, r)) == After(ps + qs, n + m, r)
  {
  }

  /** The bytes and packets of one turn of the framer. */
  function TurnBytes(f: Front): nat {
    match f
    case Incomplete => 0
    case Frame(total) => total
    case Junk => 1
  }

  function TurnPackets(b: Bytes): seq<Packet> {
    var f := FrontOf(b);
    if f.Frame? then PacketOf(b[..f.total]) else []
  }

  lemma ParseTurn(b: Bytes)
    ensures TurnBytes(FrontOf(b)) <= |b|
    ensures if FrontOf(b).Incomplete? then Parse(b) == Parsed([], 0)
            else Parse(b) == After(TurnPackets(b), TurnBytes(FrontOf(b)), Parse(b[TurnBytes(FrontOf(b))..]))
  {
    hide PacketOf;
  }

  /** What is left of a after parsing it. */
  function Left(a: Bytes): Bytes {
    a[Parse(a).consumed..]
  }

  lemma LeftTurn(a: Bytes)
    ensures if FrontOf(a).Incomplete? then Left(a) == a
            else TurnBytes(FrontOf(a)) <= |a| && Left(a) == Left(a[TurnBytes(FrontOf(a))..])
  {
    hide PacketOf;
    ParseTurn(a);
  }

  lemma TurnStable(a: Bytes, b: Bytes)
    requires !FrontOf(a).Incomplete?
    ensures FrontOf(a + b) == FrontOf(a) && TurnPackets(a + b) == TurnPackets(a)
    ensures 0 < TurnBytes(FrontOf(a)) <= |a|
    ensures (a + b)[TurnBytes(FrontOf(a))..] == a[TurnBytes(FrontOf(a))..] + b
  {
    FrontStable(a, b);
    hide PacketOf;
    hide ShortStart;
    hide LongStart;
    var f := FrontOf(a);
    if f.Frame? {
      assert (a + b)[..f.total] == a[..f.total];
    }
  }

  /** parse(a ++ b) is parse(a), then the parse of what a left over followed by b. */
  lemma {:induction false} ParseAppend(a: Bytes, b: Bytes)
    ensures Parse(a + b) == After(Parse(a).packets, Parse(a).consumed, Parse(Left(a) + b))
    decreases |a|
  {
    ParseTurn(a);
    LeftTurn(a);
    hide *;
    var f := FrontOf(a);
    if f.Incomplete? {
      AfterNothing(Parse(a + b));
    } else {
      TurnStable(a, b);
      var n := TurnBytes(f);
      var rest := a[n..];
      ParseAppend(rest, b);
      ParseTurn(a + b);
      AfterAfter(TurnPackets(a), n, Parse(rest).packets, Parse(rest).consumed, Parse(Left(rest) + b));
      AfterFields(TurnPackets(a), n, Parse(rest));
    }
  }

  lemma AfterNothing(r: Parsed)
    ensures After([], 0, r) == r
  {
  }

  lemma AfterFields(ps: seq<Packet>, n: nat, r: Parsed)
    ensures After(ps, n, r).packets == ps + r.packets && After(ps, n, r).consumed == n + r.consumed
  {
  }

  /** What parsing leaves over is the start of a frame that is not complete yet: parsing it again yields nothing. */
  lemma {:induction false} ParseLeavesIncomplete(a: Bytes)
    ensures FrontOf(Left(a)) == Incomplete && Parse(Left(a)) == Parsed([], 0)
    decreases |a|
  {
    ParseTurn(a);
    LeftTurn(a);
    if !FrontOf(a).Incomplete? {
      ParseLeavesIncomplete(a[TurnBytes(FrontOf(a))..]);
    }
  }

  // Concatenated frames.

  function Flatten(frames: seq<Bytes>): Bytes {
    if frames == [] then [] else frames[0] + Flatten(frames[1..])
  }

  ghost predicate AllFrames(frames: seq<Bytes>) {
    forall i | 0 <= i < |frames| :: IsFrame(frames[i])
  }

  function PacketsOf(frames: seq<Bytes>): seq<Packet>
    requires forall i | 0 <= i < |frames| :: |frames[i]| >= 2
  {
    if frames == [] then [] else PacketOf(frames[0]) + PacketsOf(frames[1..])
  }

  lemma ParseFrame(f: Bytes, rest: Bytes)
    requires IsFrame(f)
    ensures Parse(f + rest) == After(PacketOf(f), |f|, Parse(rest))
  {
    hide PacketOf;
    FrontStable(f, rest);
    assert (f + rest)[..|f|] == f && (f + rest)[|f|..] == rest;
  }

  lemma {:induction false} ParseFrames(frames: seq<Bytes>)
    requires AllFrames(frames)
    ensures Parse(Flatten(frames)) == Parsed(PacketsOf(frames), |Flatten(frames)|)
    decreases |frames|
  {
    hide PacketOf;
    hide FrontOf;
    if frames == [] {
      assert FrontOf([]) == Incomplete by { FrontOfNothing(); }
    } else {
      assert forall i | 0 <= i < |frames[1..]| :: frames[1..][i] == frames[i + 1];
      ParseFrames(frames[1..]);
      ParseFrame(frames[0], Flatten(frames[1..]));
    }
  }

  lemma FrontOfNothing()
    ensures FrontOf([]) == Incomplete
  {
  }

  // Resynchronisation.

  /** Neither byte that can start a frame. */
  predicate StartsNoFrame(b: bv8) {
    b != 0x78 && b != 0x79
  }

  lemma JunkTurn(b: Bytes)
    requires |b| >= 2 && StartsNoFrame(b[0])
    ensures Parse(b) == After([], 1, Parse(b[1..]))
  {
    assert FrontOf(b) == Junk;
  }

  /** Bytes that can start no frame are skipped one by one, as long as one byte follows. */
  lemma {:induction false} JunkThrough(b: Bytes, n: nat)
    requires n < |b| && forall i | 0 <= i < n :: StartsNoFrame(b[i])
    ensures Parse(b) == After([], n, Parse(b[n..]))
    decreases n
  {
    hide Parse;
    if n == 0 {
      assert b[0..] == b;
      AfterNothing(Parse(b));
    } else {
      assert b[1..][n - 1..] == b[n..];
      JunkTurn(b);
      JunkThrough(b[1..], n - 1);
      AfterAfter([], 1, [], n - 1, Parse(b[n..]));
    }
  }

  /** The framer finds the frames that follow any amount of such junk, and consumes everything. */
  lemma JunkIsSkipped(junk: Bytes, frames: seq<Bytes>)
    requires AllFrames(frames) && frames != [] && forall i | 0 <= i < |junk| :: StartsNoFrame(junk[i])
    ensures Parse(junk + Flatten(frames)) == Parsed(PacketsOf(frames), |junk| + |Flatten(frames)|)
  {
    var b := junk + Flatten(frames);
    assert IsFrame(frames[0]);
    assert |Flatten(frames)| > 0;
    JunkThrough(b, |junk|);
    assert b[|junk|..] == Flatten(frames);
    ParseFrames(frames);
  }

  // The layouts.

  lemma {:induction false} ByteWithValue(n: int) returns (b: bv8)
    requires 0 <= n < 256
    ensures b as int == n
    decreases n
  {
    if n == 0 {
      b := 0;
    } else {
      var c := ByteWithValue(n - 1);
      b := c + 1;
    }
  }

  lemma ByteConversion(n: int)
    requires 0 <= n < 256
    ensures (n as bv8) as int == n
  {
    var b := ByteWithValue(n);
    assert n as bv8 == b;
  }

  function ByteOf(n: int): (b: bv8)
    requires 0 <= n < 256
    ensures b as int == n
  {
    ByteConversion(n);
    n as bv8
  }

  function Be16(n: nat): (b: Bytes)
    requires n < 0x1_0000
    ensures |b| == 2
  {
    [ByteOf(n / 256), ByteOf(n % 256)]
  }

  lemma U16Be16(n: nat)
    requires n < 0x1_0000
    ensures U16(Be16(n)[0], Be16(n)[1]) == n
  {
    hide ByteOf;
  }

  /** A packet that has an encoding with the given start bytes, and a length field of at most maxLength. */
  predicate Encodable(p: Packet, startBytes: nat, maxLength: nat) {
    && p.startBytes == startBytes && p.packetLength == |p.data| + 5 <= maxLength
    && p.serialNumber < 0x1_0000 && p.crc < 0x1_0000 && p.stopBytes < 0x1_0000
  }

  /** 79 79, length (2), protocol, data, serial number (2), CRC (2), stop (2). */
  function EncodeLong(p: Packet): Bytes
    requires Encodable(p, 0x7979, 0xffff)
  {
    [0x79, 0x79] + Be16(p.packetLength) + [p.protocolNumber] + p.data
    + Be16(p.serialNumber) + Be16(p.crc) + Be16(p.stopBytes)
  }

  /** 78 78, length (1), protocol, data, serial number (2), CRC (2), stop (2). */
  function EncodeShort(p: Packet): Bytes
    requires Encodable(p, 0x7878, 0xff)
  {
    [0x78, 0x78, ByteOf(p.packetLength), p.protocolNumber] + p.data
    + Be16(p.serialNumber) + Be16(p.crc) + Be16(p.stopBytes)
  }

  /** Reading back the three numbers at the end of a frame. */
  lemma ReadBack(front: Bytes, serial: nat, crc: nat, stop: nat)
    requires serial < 0x1_0000 && crc < 0x1_0000 && stop < 0x1_0000
    ensures var b := front + Be16(serial) + Be16(crc) + Be16(stop);
            && ReadU16(b, |front|) == Some(serial)
            && ReadU16(b, |front| + 2) == Some(crc)
            && ReadU16(b, |front| + 4) == Some(stop)
  {
    U16Be16(serial);
    U16Be16(crc);
    U16Be16(stop);
    hide Be16;
    hide U16;
  }

  lemma LongLayout(p: Packet)
    requires Encodable(p, 0x7979, 0xffff)
    ensures var b := EncodeLong(p);
            && |b| == p.packetLength + 6 && b[0] == 0x79 && b[1] == 0x79 && U16(b[2], b[3]) == p.packetLength
            && b[4] == p.protocolNumber && Subarray(b, 5, p.packetLength) == p.data
            && ReadU16(b, p.packetLength) == Some(p.serialNumber)
            && ReadU16(b, p.packetLength + 2) == Some(p.crc)
            && ReadU16(b, p.packetLength + 4) == Some(p.stopBytes)
  {
    hide Be16;
    hide U16;
    hide ReadU16;
    var front := [0x79, 0x79] + Be16(p.packetLength) + [p.protocolNumber] + p.data;
    U16Be16(p.packetLength);
    ReadBack(front, p.serialNumber, p.crc, p.stopBytes);
  }

  lemma StartNumbers()
    ensures U16(0x78, 0x78) == 0x7878 && U16(0x79, 0x79) == 0x7979
  {
  }

  /** A long frame is parsed back exactly. */
  lemma LongRoundTrip(p: Packet)
    requires Encodable(p, 0x7979, 0xffff)
    ensures ParseLongPacket(EncodeLong(p)) == Some(p)
    ensures IsFrame(EncodeLong(p)) && PacketOf(EncodeLong(p)) == [p]
  {
    LongLayout(p);
    StartNumbers();
    hide EncodeLong;
    hide U16;
    hide ReadU16;
    hide Subarray;
  }

  function EncodeAll(ps: seq<Packet>): (frames: seq<Bytes>)
    requires forall i | 0 <= i < |ps| :: Encodable(ps[i], 0x7979, 0xffff)
    ensures |frames| == |ps| && forall i | 0 <= i < |ps| :: frames[i] == EncodeLong(ps[i])
  {
    seq(|ps|, i requires 0 <= i < |ps| => EncodeLong(ps[i]))
  }

  /** So is any stream of them. */
  lemma {:induction false} LongStreamRoundTrip(ps: seq<Packet>)
    requires forall i | 0 <= i < |ps| :: Encodable(ps[i], 0x7979, 0xffff)
    ensures Parse(Flatten(EncodeAll(ps))) == Parsed(ps, |Flatten(EncodeAll(ps))|)
  {
    hide Parse;
    hide PacketOf;
    hide EncodeLong;
    hide IsFrame;
    if ps == [] {
      FrontOfNothing();
      ParseTurn([]);
    } else {
      assert EncodeAll(ps)[1..] == EncodeAll(ps[1..]);
      LongStreamRoundTrip(ps[1..]);
      LongRoundTrip(ps[0]);
      ParseFrame(EncodeLong(ps[0]), Flatten(EncodeAll(ps[1..])));
    }
  }

  // Short frames.

  /** The byte in front of the serial number: the last data byte, or the protocol number. */
  function LastByte(p: Packet): bv8 {
    if p.data == [] then p.protocolNumber else p.data[|p.data| - 1]
  }

  /** What the code makes of a short frame: every field behind the protocol number is read one byte early. */
  function Misread(p: Packet): Packet
    requires Encodable(p, 0x7878, 0xff)
  {
    p.(data := p.data[..if p.data == [] then 0 else |p.data| - 1],
       serialNumber := U16(LastByte(p), Be16(p.serialNumber)[0]),
       crc := U16(Be16(p.serialNumber)[1], Be16(p.crc)[0]),
       stopBytes := U16(Be16(p.crc)[1], Be16(p.stopBytes)[0]))
  }

  lemma ShortLayout(p: Packet)
    requires Encodable(p, 0x7878, 0xff)
    ensures var b, n := EncodeShort(p), p.packetLength;
            && |b| == n + 5 && b[0] == 0x78 && b[1] == 0x78 && b[2] as int == n && b[3] == p.protocolNumber
            && b[4..n - 1] == p.data
            && [b[n - 1], b[n]] == Be16(p.serialNumber)
            && [b[n + 1], b[n + 2]] == Be16(p.crc)
            && [b[n + 3], b[n + 4]] == Be16(p.stopBytes)
  {
    hide Be16;
  }

  lemma ShortData(p: Packet)
    requires Encodable(p, 0x7878, 0xff)
    ensures var b, n := EncodeShort(p), p.packetLength;
            |b| == n + 5 && b[n - 2] == LastByte(p) && Subarray(b, 4, n - 2) == Misread(p).data
  {
    ShortLayout(p);
    hide EncodeShort;
    hide U16;
    hide Be16;
    var b, n := EncodeShort(p), p.packetLength;
    var d := b[4..n - 1];
    if p.data != [] {
      assert d[..|d| - 1] == b[4..n - 2] && d[|d| - 1] == b[n - 2];
    }
  }

  lemma ShortReads(p: Packet)
    requires Encodable(p, 0x7878, 0xff)
    ensures var b, n, m := EncodeShort(p), p.packetLength, Misread(p);
            && Subarray(b, 4, n - 2) == m.data && ReadU16(b, n - 2) == Some(m.serialNumber)
            && ReadU16(b, n) == Some(m.crc) && ReadU16(b, n + 2) == Some(m.stopBytes)
  {
    ShortLayout(p);
    ShortData(p);
    hide EncodeShort;
    hide Subarray;
    hide U16;
    hide Be16;
    hide LastByte;
    var b, n := EncodeShort(p), p.packetLength;
    assert [b[n - 1], b[n]][0] == b[n - 1] && [b[n - 1], b[n]][1] == b[n];
    assert [b[n + 1], b[n + 2]][0] == b[n + 1] && [b[n + 1], b[n + 2]][1] == b[n + 2];
    assert [b[n + 3], b[n + 4]][0] == b[n + 3];
  }

  lemma ShortIsMisread(p: Packet)
    requires Encodable(p, 0x7878, 0xff)
    ensures ParseShortPacket(EncodeShort(p)) == Some(Misread(p))
  {
    ShortLayout(p);
    ShortReads(p);
    StartNumbers();
    hide EncodeShort;
    hide U16;
    hide Subarray;
    hide ReadU16;
  }

  lemma U16Injective(a: bv8, b: bv8, n: nat)
    requires n < 0x1_0000 && U16(a, b) == n
    ensures Be16(n) == [a, b]
  {
    hide ByteOf;
    assert n / 256 == a as int && n % 256 == b as int;
    assert ByteOf(n / 256) as int == a as int && ByteOf(n % 256) as int == b as int;
    SameByte(ByteOf(n / 256), a);
    SameByte(ByteOf(n % 256), b);
  }

  lemma SameByte(a: bv8, b: bv8)
    requires a as int == b as int
    ensures a == b
  {
  }

  predicate AllAlike(p: Packet) {
    p.data == [] && p.serialNumber == p.crc == p.stopBytes == U16(p.protocolNumber, p.protocolNumber)
  }

  lemma MisreadAlike(p: Packet)
    requires Encodable(p, 0x7878, 0xff) && AllAlike(p)
    ensures Misread(p) == p
  {
    var x := p.protocolNumber;
    U16Injective(x, x, U16(x, x));
    hide Be16;
    hide U16;
  }

  lemma MisreadOnlyAlike(p: Packet)
    requires Encodable(p, 0x7878, 0xff) && Misread(p) == p
    ensures AllAlike(p)
  {
    hide Be16;
    hide U16;
    var m := Misread(p);
    assert m.data == p.data && m.serialNumber == p.serialNumber && m.crc == p.crc && m.stopBytes == p.stopBytes;
    assert p.data == [];
    U16Injective(p.protocolNumber, Be16(p.serialNumber)[0], p.serialNumber);
    U16Injective(Be16(p.serialNumber)[1], Be16(p.crc)[0], p.crc);
    U16Injective(Be16(p.crc)[1], Be16(p.stopBytes)[0], p.stopBytes);
    U16Be16(p.stopBytes);
  }

  /** A short frame survives only if it has no data and every byte from its protocol number on is the same. */
  lemma ShortRoundTripExactly(p: Packet)
    requires Encodable(p, 0x7878, 0xff)
    ensures ParseShortPacket(EncodeShort(p)) == Some(p) <==> AllAlike(p)
  {
    ShortIsMisread(p);
    hide *;
    if AllAlike(p) {
      MisreadAlike(p);
    }
    if Misread(p) == p {
      MisreadOnlyAlike(p);
    }
  }

  /** In particular, with the protocol's stop bytes 0D 0A no short frame survives. */
  lemma NoShortRoundTrip(p: Packet)
    requires Encodable(p, 0x7878, 0xff) && p.stopBytes == 0x0d0a
    ensures ParseShortPacket(EncodeShort(p)) != Some(p)
  {
    ShortRoundTripExactly(p);
  }

  /** Long frames always give a packet, short ones exactly from packet length 2 on. */
  lemma WhichFramesGivePackets(f: Bytes)
    requires IsFrame(f)
    ensures |PacketOf(f)| == if ShortStart(f) && f[2] as int < 2 then 0 else 1
  {
    hide U16;
  }
}
