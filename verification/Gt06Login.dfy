/** IMEIs in login packets, packed two decimal digits to the byte, and the acknowledgement packets. */
module Gt06Login {
  import opened Prelude
  import opened Crc
  import opened Gt06
  import opened Gt06Theorems

  const HEX_DIGITS := "0123456789abcdef"

  function High(b: bv8): (n: nat)
    ensures n < 16
  {
    b as int / 16
  }

  function Low(b: bv8): (n: nat)
    ensures n < 16
  {
    b as int % 16
  }

  function HexDigits(data: Bytes): (s: string)
    ensures |s| == 2 * |data|
  {
    if data == [] then ""
    else
      var last := data[|data| - 1];
      HexDigits(data[..|data| - 1]) + [HEX_DIGITS[High(last)], HEX_DIGITS[Low(last)]]
  }

  /** replace(/^0+/, '') */
  function StripZeros(s: string): (t: string)
    ensures |t| <= |s|
  {
    if s != "" && s[0] == '0' then StripZeros(s[1..]) else s
  }

  /** padStart(n, '0') */
  function PadStart(s: string, n: nat): (t: string)
    ensures |t| >= n && |t| >= |s|
    decreases n - |s|
  {
    if |s| >= n then s else PadStart("0" + s, n)
  }

  function LoginImei(data: Bytes): Option<string> {
    if |data| < 8 then None else Some(PadStart(StripZeros(HexDigits(data[..8])), 15))
  }

  method ParseLoginPacket(data: Bytes) returns (r: Option<string>)
    ensures r == LoginImei(data)
    ensures r.Some? ==> 15 <= |r.value| <= 16
  {
    if |data| < 8 {
      return None;
    }
    var imeiBytes := data[..8];
    var imei := "";
    var i := 0;
    while i < 8
      invariant 0 <= i <= 8 && imei == HexDigits(imeiBytes[..i])
    {
      assert imeiBytes[..i + 1][..i] == imeiBytes[..i];
      var byte := imeiBytes[i];
      var high, low := byte as int / 16, byte as int % 16;
      imei := imei + [HEX_DIGITS[high]] + [HEX_DIGITS[low]];
      i := i + 1;
    }
    assert imeiBytes[..8] == imeiBytes;
    imei := StripZeros(imei);
    if |imei| < 15 {
      PadLength(imei, 15);
      imei := PadStart(imei, 15);
    }
    return Some(imei);
  }

  lemma {:induction false} PadLength(s: string, n: nat)
    ensures |PadStart(s, n)| == if |s| >= n then |s| else n
    decreases n - |s|
  {
    if |s| < n {
      PadLength("0" + s, n);
    }
  }

  // Packing decimal digits and parsing them back.

  predicate IsDecimal(s: string) {
    forall i | 0 <= i < |s| :: '0' <= s[i] <= '9'
  }

  function DigitValue(c: char): (n: nat)
    requires '0' <= c <= '9'
    ensures n < 10 && HEX_DIGITS[n] == c
  {
    (c - '0') as int
  }

  function Pack(s: string): (data: Bytes)
    requires |s| % 2 == 0 && IsDecimal(s)
    ensures |data| == |s| / 2
  {
    if s == "" then []
    else
      var n := |s|;
      Pack(s[..n - 2]) + [ByteOf(16 * DigitValue(s[n - 2]) + DigitValue(s[n - 1]))]
  }

  lemma Nibbles(c: char, d: char)
    requires '0' <= c <= '9' && '0' <= d <= '9'
    ensures var b := ByteOf(16 * DigitValue(c) + DigitValue(d));
            HEX_DIGITS[High(b)] == c && HEX_DIGITS[Low(b)] == d
  {
    var b := ByteOf(16 * DigitValue(c) + DigitValue(d));
    assert High(b) == DigitValue(c) && Low(b) == DigitValue(d);
  }

  lemma HexDigitsMore(front: Bytes, b: bv8)
    ensures HexDigits(front + [b]) == HexDigits(front) + [HEX_DIGITS[High(b)], HEX_DIGITS[Low(b)]]
  {
    hide High;
    hide Low;
    assert (front + [b])[..|front|] == front;
  }

  lemma {:induction false} UnpackPacked(s: string)
    requires |s| % 2 == 0 && IsDecimal(s)
    ensures HexDigits(Pack(s)) == s
    decreases |s|
  {
    hide HexDigits;
    hide ByteOf;
    hide High;
    hide Low;
    hide DigitValue;
    if s == "" {
      NoHexDigits();
    } else {
      var n := |s|;
      var c, d := s[n - 2], s[n - 1];
      UnpackPacked(s[..n - 2]);
      Nibbles(c, d);
      HexDigitsMore(Pack(s[..n - 2]), ByteOf(16 * DigitValue(c) + DigitValue(d)));
      assert s == s[..n - 2] + [c, d];
    }
  }

  lemma NoHexDigits()
    ensures HexDigits([]) == ""
  {
  }

  lemma {:induction false} StripThenPad(s: string)
    ensures PadStart(StripZeros(s), |s|) == s
    decreases |s|
  {
    if s != "" && s[0] == '0' {
      StripThenPad(s[1..]);
      PadOneMore(StripZeros(s[1..]), |s| - 1);
      assert "0" + s[1..] == s;
    }
  }

  lemma {:induction false} PadOneMore(s: string, n: nat)
    requires |s| <= n
    ensures PadStart(s, n + 1) == "0" + PadStart(s, n)
    decreases n - |s|
  {
    if |s| < n {
      PadOneMore("0" + s, n);
    } else {
      assert PadStart("0" + s, n + 1) == "0" + s;
    }
  }

  /** Sixteen packed digits come back, without the filler zero that makes a 15-digit IMEI even. */
  lemma LoginRoundTrip(s: string)
    requires |s| == 16 && IsDecimal(s)
    ensures LoginImei(Pack(s)) == Some(if s[0] == '0' then s[1..] else s)
  {
    UnpackPacked(s);
    assert Pack(s)[..8] == Pack(s);
    if s[0] == '0' {
      StripThenPad(s[1..]);
    }
  }

  /** The usual login frame, with 8 bytes of IMEI as its data, gives no IMEI at all. */
  lemma ShortLoginFails(p: Packet)
    requires Encodable(p, 0x7878, 0xff) && |p.data| == 8
    ensures var r := ParseShortPacket(EncodeShort(p)); r.Some? && LoginImei(r.value.data) == None
  {
    ShortIsMisread(p);
    hide EncodeShort;
    hide ParseShortPacket;
  }

  lemma LoginImeiOfPrefix(data: Bytes, n: nat)
    requires 8 <= n <= |data|
    ensures LoginImei(data[..n]) == LoginImei(data)
  {
    assert data[..n][..8] == data[..8];
  }

  /** The byte that is missing matters exactly when the data are the 8 bytes of the IMEI and nothing more. */
  lemma ShortLoginExactly(p: Packet)
    requires Encodable(p, 0x7878, 0xff)
    ensures var r := ParseShortPacket(EncodeShort(p));
            r.Some? && (LoginImei(r.value.data) == LoginImei(p.data) <==> |p.data| != 8)
  {
    ShortIsMisread(p);
    hide EncodeShort, ParseShortPacket;
    var n := |p.data|;
    if n > 8 {
      LoginImeiOfPrefix(p.data, n - 1);
    }
    hide HexDigits, StripZeros, PadStart;
  }

  // Acknowledgements.

  /** The bytes of an acknowledgement with the given CRC. */
  function AckBytes(protocolNumber: bv8, serialNumber: nat, crc: bv32): Bytes
    requires serialNumber < 0x1_0000 && crc <= 0xffff
  {
    [0x78, 0x78, 5, protocolNumber] + Be16(serialNumber) + [HighByte(crc), LowByte(crc), 0x0d, 0x0a]
  }

  /** An acknowledgement is a frame of ten bytes, and carries the CRC of its bytes 2 to 5. */
  lemma AckIsFrame(protocolNumber: bv8, serialNumber: nat, crc: bv32)
    requires serialNumber < 0x1_0000 && crc <= 0xffff
    ensures var f := AckBytes(protocolNumber, serialNumber, crc);
            && |f| == 10 && IsFrame(f) && f[2..6] == [5, protocolNumber] + Be16(serialNumber)
            && ByteBits(f[6]) + ByteBits(f[7]) == WordBits(crc)
  {
    BytesAreWord(crc);
    hide Be16;
    hide ByteBits;
    hide WordBits;
    hide HighByte;
    hide LowByte;
  }

  /** The packet that an acknowledgement is laid out as. */
  function AckPacket(protocolNumber: bv8, serialNumber: nat, crc: nat): Packet {
    Packet(0x7878, 5, protocolNumber, [], serialNumber, crc, 0x0d0a)
  }

  /**
    An acknowledgement has the layout of a short packet without data, so the parser of the same service misreads it.
  */
  lemma AckIsMisread(protocolNumber: bv8, serialNumber: nat, crc: bv32)
    requires serialNumber < 0x1_0000 && crc <= 0xffff
    ensures var p := AckPacket(protocolNumber, serialNumber, U16(HighByte(crc), LowByte(crc)));
            && Encodable(p, 0x7878, 0xff) && AckBytes(protocolNumber, serialNumber, crc) == EncodeShort(p)
            && ParseShortPacket(AckBytes(protocolNumber, serialNumber, crc)) != Some(p)
  {
    var n := U16(HighByte(crc), LowByte(crc));
    var p := AckPacket(protocolNumber, serialNumber, n);
    U16Injective(HighByte(crc), LowByte(crc), n);
    U16Injective(0x0d, 0x0a, 0x0d0a);
    SameByte(ByteOf(5), 5);
    assert AckBytes(protocolNumber, serialNumber, crc) == EncodeShort(p);
    NoShortRoundTrip(p);
    hide ParseShortPacket, EncodeShort, HighByte, LowByte;
  }

  method BuildAckPacket(table: seq<bv32>, protocolNumber: bv8, serialNumber: nat) returns (packet: array<bv8>)
    requires IsCrcTable(table, 256)
    requires serialNumber < 0x1_0000
    ensures fresh(packet)
    ensures exists crc: bv32 :: && crc <= 0xffff && packet[..] == AckBytes(protocolNumber, serialNumber, crc)
                                && WordBits(crc) == CrcBits([5, protocolNumber] + Be16(serialNumber))
  {
    hide *;
    var crcData := new bv8[4];
    crcData[0] := 0x05;
    crcData[1] := protocolNumber;
    crcData[2] := Be16(serialNumber)[0];
    crcData[3] := Be16(serialNumber)[1];
    assert crcData[..] == [5, protocolNumber] + Be16(serialNumber);
    var crc := CalculateCrc(table, crcData[..]);
    packet := new bv8[10];
    packet[0] := 0x78;
    packet[1] := 0x78;
    packet[2] := 0x05;
    packet[3] := protocolNumber;
    packet[4] := Be16(serialNumber)[0];
    packet[5] := Be16(serialNumber)[1];
    packet[6] := HighByte(crc);
    packet[7] := LowByte(crc);
    packet[8] := 0x0d;
    packet[9] := 0x0a;
    AckFields(packet[..], protocolNumber, serialNumber, crc);
  }

  lemma AckFields(f: Bytes, protocolNumber: bv8, serialNumber: nat, crc: bv32)
    requires serialNumber < 0x1_0000 && crc <= 0xffff && |f| == 10
    requires f[0] == 0x78 && f[1] == 0x78 && f[2] == 5 && f[3] == protocolNumber
    requires f[4] == Be16(serialNumber)[0] && f[5] == Be16(serialNumber)[1]
    requires f[6] == HighByte(crc) && f[7] == LowByte(crc) && f[8] == 0x0d && f[9] == 0x0a
    ensures f == AckBytes(protocolNumber, serialNumber, crc)
  {
    hide Be16;
    hide HighByte;
    hide LowByte;
  }

  /** The value of a hexadecimal digit, in lower case. */
  function HexValue(c: char): nat {
    if '0' <= c <= '9' then (c - '0') as nat else if 'a' <= c <= 'f' then (c - 'a') as nat + 10 else 16
  }

  /** Two digits for each byte give it back. */
  lemma {:induction false} HexDigitsExactly(data: Bytes, i: nat)
    requires i < |data|
    ensures HexValue(HexDigits(data)[2 * i]) < 16 && HexValue(HexDigits(data)[2 * i + 1]) < 16
    ensures 16 * HexValue(HexDigits(data)[2 * i]) + HexValue(HexDigits(data)[2 * i + 1]) == data[i] as int
  {
    if i < |data| - 1 {
      HexDigitsExactly(data[..|data| - 1], i);
    } else {
      HexDigit(High(data[i]));
      HexDigit(Low(data[i]));
    }
  }

  lemma HexDigit(n: nat)
    requires n < 16
    ensures HexValue(HEX_DIGITS[n]) == n
  {
  }
}
