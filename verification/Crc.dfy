/**
  The CRC of the GT06 protocol: table-driven, register preset to 0xFFFF, no reflection, no final inversion.
  JavaScript's bit operations work on 32-bit words, so the code is modelled on bv32 with its masks, and proved
  against division of polynomials.
*/
module Crc {
  import opened Polynomials

  const CRC_POLYNOMIAL: bv32 := 0x1021

  // Words as bit sequences.

  const MASKS: seq<bv32> := [
    0x8000, 0x4000, 0x2000, 0x1000, 0x800, 0x400, 0x200, 0x100,
    0x80, 0x40, 0x20, 0x10, 8, 4, 2, 1]

  predicate Test(w: bv32, m: bv32) {
    w & m != 0
  }

  /** The low 16 bits of a word, highest first. */
  function WordBits(w: bv32): Register {
    seq(16, k requires 0 <= k < 16 => Test(w, MASKS[k]))
  }

  /** The low 8 bits of a word, highest first. */
  function LowBits(w: bv32): (s: seq<bool>)
    ensures |s| == 8
  {
    seq(8, k requires 0 <= k < 8 => Test(w, MASKS[k + 8]))
  }

  function ByteBits(b: bv8): (s: seq<bool>)
    ensures |s| == 8
  {
    LowBits(b as bv32)
  }

  function MessageBits(data: seq<bv8>): (m: seq<bool>)
    ensures |m| == 8 * |data|
  {
    if data == [] then [] else MessageBits(data[..|data| - 1]) + ByteBits(data[|data| - 1])
  }

  predicate IsMask(m: bv32) {
    || m == 0x8000 || m == 0x4000 || m == 0x2000 || m == 0x1000 || m == 0x800 || m == 0x400 || m == 0x200
    || m == 0x100 || m == 0x80 || m == 0x40 || m == 0x20 || m == 0x10 || m == 8 || m == 4 || m == 2 || m == 1
  }

  lemma MasksAre(k: nat)
    requires k < 16
    ensures IsMask(MASKS[k])
    ensures MASKS[k] == 1 <==> k == 15
    ensures k < 15 ==> MASKS[k] >> 1 == MASKS[k + 1]
    ensures if k < 8 then MASKS[k] >= 0x100 && MASKS[k] >> 8 == MASKS[k + 8] else MASKS[k] < 0x100
    ensures Test(CRC_POLYNOMIAL, MASKS[k]) == GENERATOR[k]
  {
  }

  // The bit operations of the code, and what each does to a single bit.

  function XorWords(a: bv32, b: bv32): bv32 { a ^ b }
  function Left1(a: bv32): bv32 { a << 1 }
  function Left8(a: bv32): bv32 { a << 8 }
  function Right8(a: bv32): bv32 { a >> 8 }
  function Low16(a: bv32): bv32 { a & 0xffff }
  function Low8(a: bv32): bv32 { a & 0xff }

  lemma XorBitRaw(a: bv32, b: bv32, m: bv32)
    requires IsMask(m)
    ensures Test(a ^ b, m) == (Test(a, m) != Test(b, m))
  {
  }

  lemma XorBit(a: bv32, b: bv32, m: bv32)
    requires IsMask(m)
    ensures Test(XorWords(a, b), m) == (Test(a, m) != Test(b, m))
  {
    hide Test;
    XorBitRaw(a, b, m);
  }

  lemma Low16Bit(a: bv32, m: bv32)
    requires IsMask(m)
    ensures Test(Low16(a), m) == Test(a, m)
  {
  }

  lemma Low8Bit(a: bv32, m: bv32)
    requires IsMask(m) && m < 0x100
    ensures Test(Low8(a), m) == Test(a, m)
  {
  }

  lemma Left1Bit(a: bv32, m: bv32)
    requires IsMask(m)
    ensures Test(Left1(a), m) == if m == 1 then false else Test(a, m >> 1)
  {
  }

  lemma Left8Bit(a: bv32, m: bv32)
    requires IsMask(m)
    ensures Test(Left8(a), m) == if m < 0x100 then false else Test(a, m >> 8)
  {
  }

  lemma Right8Bit(a: bv32, m: bv32)
    requires IsMask(m) && m >= 0x100
    ensures Test(Right8(a), m >> 8) == Test(a, m)
  {
  }

  lemma ZeroBit(m: bv32)
    ensures !Test(0, m)
  {
  }

  lemma Low16Bound(w: bv32)
    ensures Low16(w) <= 0xffff
  {
  }

  lemma Low8Bound(w: bv32)
    ensures Low8(w) <= 0xff
  {
  }

  // The table.

  function FeedbackWord(crc: bv32): bv32 {
    if Test(crc, 0x8000) then CRC_POLYNOMIAL else 0
  }

  /** One round of the inner table loop. */
  function Round(crc: bv32): bv32 {
    Low16(XorWords(Left1(crc), FeedbackWord(crc)))
  }

  function Rounds(crc: bv32, n: nat): bv32 {
    if n == 0 then crc else Round(Rounds(crc, n - 1))
  }

  lemma RoundBit(crc: bv32, k: nat)
    requires k < 16
    ensures WordBits(Round(crc))[k] == Shift(WordBits(crc))[k]
  {
    hide Test;
    hide Low16;
    hide XorWords;
    hide Left1;
    MasksAre(k);
    MasksAre(0);
    var m := MASKS[k];
    var s, f := Left1(crc), FeedbackWord(crc);
    Low16Bit(XorWords(s, f), m);
    XorBit(s, f, m);
    Left1Bit(crc, m);
    ZeroBit(m);
  }

  lemma RoundIsShift(crc: bv32)
    ensures WordBits(Round(crc)) == Shift(WordBits(crc))
  {
    hide Round;
    forall k | 0 <= k < 16 ensures WordBits(Round(crc))[k] == Shift(WordBits(crc))[k] {
      RoundBit(crc, k);
    }
  }

  ghost predicate IsCrcTable(table: seq<bv32>, n: nat) {
    n <= 256 && |table| == n && forall k | 0 <= k < n :: table[k] == Rounds(Left8(k as bv32), 8)
  }

  lemma XorZero(w: bv32)
    ensures XorWords(w, 0) == w
  {
  }

  lemma RoundCases(crc: bv32)
    ensures Round(crc) == if Test(crc, 0x8000) then Low16(XorWords(Left1(crc), CRC_POLYNOMIAL)) else Low16(Left1(crc))
  {
    hide Test;
    hide Low16;
    hide Left1;
    hide XorWords;
    XorZero(Left1(crc));
  }

  lemma CrcTableStart()
    ensures IsCrcTable([], 0)
  {
  }

  lemma CrcTableMore(table: seq<bv32>, i: nat, crc: bv32)
    requires i < 256 && IsCrcTable(table, i) && crc == Rounds(Left8(i as bv32), 8)
    ensures IsCrcTable(table + [crc], i + 1)
  {
    hide Rounds;
    hide Left8;
  }

  lemma RoundsStart(w: bv32)
    ensures w << 8 == Rounds(Left8(w), 0)
  {
  }

  lemma RoundsStep(crc: bv32, n: nat)
    ensures Rounds(crc, n + 1) == Round(Rounds(crc, n))
  {
    hide Round;
  }

  /** The branches of the loop body, as written. */
  lemma RoundCode(crc: bv32)
    ensures crc & 0x8000 != 0 ==> ((crc << 1) ^ CRC_POLYNOMIAL) & 0xffff == Round(crc)
    ensures crc & 0x8000 == 0 ==> (crc << 1) & 0xffff == Round(crc)
  {
    hide Round;
    RoundCases(crc);
  }

  method GenerateCrcTable() returns (table: seq<bv32>)
    ensures IsCrcTable(table, 256)
  {
    hide *;
    CrcTableStart();
    table := [];
    var i := 0;
    while i < 256
      invariant 0 <= i <= 256 && IsCrcTable(table, i)
    {
      var crc := (i as bv32) << 8;
      RoundsStart(i as bv32);
      var j := 0;
      while j < 8
        invariant 0 <= j <= 8
        invariant crc == Rounds(Left8(i as bv32), j)
      {
        RoundCode(crc);
        RoundsStep(Left8(i as bv32), j);
        if crc & 0x8000 != 0 {
          crc := ((crc << 1) ^ CRC_POLYNOMIAL) & 0xffff;
        } else {
          crc := (crc << 1) & 0xffff;
        }
        j := j + 1;
      }
      CrcTableMore(table, i, crc);
      table := table + [crc];
      i := i + 1;
    }
  }

  lemma {:induction false} RoundsAreShifts(crc: bv32, n: nat)
    ensures WordBits(Rounds(crc, n)) == Shifts(WordBits(crc), n)
  {
    hide Round;
    hide Shift;
    if n > 0 {
      RoundsAreShifts(crc, n - 1);
      RoundIsShift(Rounds(crc, n - 1));
      ShiftLast(WordBits(crc), n - 1);
    }
  }

  // One byte of the message.

  /** The table index for byte b. */
  function Index(crc: bv32, b: bv8): bv32 {
    Low8(XorWords(Right8(crc), b as bv32))
  }

  function NextCrc(crc: bv32, t: bv32): bv32 {
    Low16(XorWords(Left8(crc), t))
  }

  lemma IndexBit(crc: bv32, b: bv8, k: nat)
    requires k < 16
    ensures WordBits(Left8(Index(crc, b)))[k] == (Xor(WordBits(crc)[..8], ByteBits(b)) + Zeros(8))[k]
  {
    hide Test;
    hide Low8;
    hide Left8;
    hide Right8;
    hide XorWords;
    MasksAre(k);
    var m := MASKS[k];
    Left8Bit(Index(crc, b), m);
    if k < 8 {
      MasksAre(k + 8);
      Low8Bit(XorWords(Right8(crc), b as bv32), m >> 8);
      XorBit(Right8(crc), b as bv32, m >> 8);
      Right8Bit(crc, m);
    }
  }

  lemma NextCrcBit(crc: bv32, t: bv32, k: nat)
    requires k < 16
    ensures WordBits(NextCrc(crc, t))[k] == Xor(WordBits(crc)[8..] + Zeros(8), WordBits(t))[k]
  {
    hide Test;
    hide Low16;
    hide Left8;
    hide XorWords;
    MasksAre(k);
    var m := MASKS[k];
    Low16Bit(XorWords(Left8(crc), t), m);
    XorBit(Left8(crc), t, m);
    Left8Bit(crc, m);
  }

  lemma IndexBits(crc: bv32, b: bv8)
    ensures WordBits(Left8(Index(crc, b))) == Xor(WordBits(crc)[..8], ByteBits(b)) + Zeros(8)
  {
    hide *;
    forall k | 0 <= k < 16
      ensures WordBits(Left8(Index(crc, b)))[k] == (Xor(WordBits(crc)[..8], ByteBits(b)) + Zeros(8))[k]
    {
      IndexBit(crc, b, k);
    }
  }

  lemma NextCrcBits(crc: bv32, t: bv32)
    ensures WordBits(NextCrc(crc, t)) == Xor(WordBits(crc)[8..] + Zeros(8), WordBits(t))
  {
    hide *;
    forall k | 0 <= k < 16
      ensures WordBits(NextCrc(crc, t))[k] == Xor(WordBits(crc)[8..] + Zeros(8), WordBits(t))[k]
    {
      NextCrcBit(crc, t, k);
    }
  }

  /** Looking up one table entry does the work of eight steps of the register. */
  lemma TableStep(crc: bv32, b: bv8, t: bv32)
    requires t == Rounds(Left8(Index(crc, b)), 8)
    ensures WordBits(NextCrc(crc, t)) == Feed(WordBits(crc), ByteBits(b))
  {
    hide *;
    IndexBits(crc, b);
    RoundsAreShifts(Left8(Index(crc, b)), 8);
    NextCrcBits(crc, t);
    FeedByte(WordBits(crc), ByteBits(b));
  }

  // The CRC of a message.

  const PRESET: Register := WordBits(0xffff)

  /** The register after the message. */
  function CrcBits(data: seq<bv8>): Register {
    Feed(PRESET, MessageBits(data))
  }

  lemma IndexInTable(j: bv32)
    requires j <= 0xff
    ensures 0 <= j as int < 256 && (j as int) as bv32 == j
  {
  }

  lemma IndexFits(table: seq<bv32>, crc: bv32, b: bv8)
    requires IsCrcTable(table, 256)
    ensures Index(crc, b) <= 0xff && 0 <= Index(crc, b) as int < 256 == |table|
  {
    hide XorWords;
    Low8Bound(XorWords(Right8(crc), b as bv32));
    IndexInTable(Index(crc, b));
  }

  lemma NextCrcFits(crc: bv32, t: bv32)
    ensures NextCrc(crc, t) <= 0xffff
  {
    hide XorWords;
    Low16Bound(XorWords(Left8(crc), t));
  }

  lemma TableLookup(table: seq<bv32>, crc: bv32, b: bv8)
    requires IsCrcTable(table, 256) && Index(crc, b) <= 0xff
    ensures 0 <= Index(crc, b) as int < 256
    ensures WordBits(NextCrc(crc, table[Index(crc, b) as int])) == Feed(WordBits(crc), ByteBits(b))
  {
    hide Rounds;
    hide Index;
    hide NextCrc;
    hide Left8;
    IndexInTable(Index(crc, b));
    TableStep(crc, b, table[Index(crc, b) as int]);
  }

  lemma CrcBitsMore(data: seq<bv8>, i: nat)
    requires i < |data|
    ensures CrcBits(data[..i + 1]) == Feed(CrcBits(data[..i]), ByteBits(data[i]))
  {
    hide Feed;
    assert data[..i + 1][..i] == data[..i];
    FeedConcat(PRESET, MessageBits(data[..i]), ByteBits(data[i]));
  }

  lemma CrcBitsOfNothing()
    ensures CrcBits([]) == WordBits(0xffff)
  {
  }

  method CalculateCrc(table: seq<bv32>, data: seq<bv8>) returns (crc: bv32)
    requires IsCrcTable(table, 256)
    ensures crc <= 0xffff && WordBits(crc) == CrcBits(data)
  {
    hide *;
    CrcBitsOfNothing();
    crc := 0xffff;
    assert data[..0] == [];
    var i := 0;
    while i < |data|
      invariant 0 <= i <= |data|
      invariant crc <= 0xffff && WordBits(crc) == CrcBits(data[..i])
    {
      IndexFits(table, crc, data[i]);
      TableLookup(table, crc, data[i]);
      CrcBitsMore(data, i);
      var index := Index(crc, data[i]);
      NextCrcFits(crc, table[index as int]);
      crc := NextCrc(crc, table[index as int]);
      i := i + 1;
    }
    assert data[..|data|] == data;
  }

  /** The CRC is the remainder, by the generator, of the message times x^16 with its first 16 bits inverted. */
  lemma CrcIsRemainder(data: seq<bv8>)
    ensures CrcBits(data) == Remainder(XorPrefix(MessageBits(data) + Zeros(16), PRESET))
  {
    FeedIsRemainder(PRESET, MessageBits(data));
  }

  /** The CRC is affine over Xor: for equal lengths, the CRCs of a and b differ by a linear map of a Xor b. */
  lemma CrcAffine(a: seq<bv8>, b: seq<bv8>)
    requires |a| == |b|
    ensures Xor(CrcBits(a), CrcBits(b)) == Feed(Zeros(16), Xor(MessageBits(a), MessageBits(b)))
  {
    hide Feed;
    FeedLinear(PRESET, PRESET, MessageBits(a), MessageBits(b));
    assert Xor(PRESET, PRESET) == Zeros(16);
  }

  /** Messages that differ in at most 16 consecutive bits have different CRCs. */
  lemma BurstChangesCrc(a: seq<bv8>, b: seq<bv8>)
    requires |a| == |b| && IsBurst(Xor(MessageBits(a), MessageBits(b)))
    ensures CrcBits(a) != CrcBits(b)
  {
    hide Feed;
    CrcAffine(a, b);
    var i, w, j :| |w| <= 16 && true in w && Xor(MessageBits(a), MessageBits(b)) == Zeros(i) + w + Zeros(j);
    BurstIsSeen(i, w, j);
    assert Xor(CrcBits(a), CrcBits(a)) == Zeros(16);
  }

  /** Messages of one length that differ in an odd number of bits, anywhere, have different CRCs. */
  lemma OddErrorChangesCrc(a: seq<bv8>, b: seq<bv8>)
    requires |a| == |b| && Parity(Xor(MessageBits(a), MessageBits(b)))
    ensures CrcBits(a) != CrcBits(b)
  {
    hide Feed, Parity;
    CrcAffine(a, b);
    ParityFeed(Zeros(16), Xor(MessageBits(a), MessageBits(b)));
    ParityZeros(16);
    ParityXor(CrcBits(a), CrcBits(b));
  }

  // Checking and appending.

  lemma NoBitsNoWord(w: bv32)
    requires w <= 0xffff
    requires w & 0x8000 == 0 && w & 0x4000 == 0 && w & 0x2000 == 0 && w & 0x1000 == 0
    requires w & 0x800 == 0 && w & 0x400 == 0 && w & 0x200 == 0 && w & 0x100 == 0
    requires w & 0x80 == 0 && w & 0x40 == 0 && w & 0x20 == 0 && w & 0x10 == 0
    requires w & 8 == 0 && w & 4 == 0 && w & 2 == 0 && w & 1 == 0
    ensures w == 0
  {
  }

  lemma XorIsZero(a: bv32, b: bv32)
    requires a <= 0xffff && b <= 0xffff
    ensures XorWords(a, b) <= 0xffff && (XorWords(a, b) == 0 ==> a == b)
  {
  }

  lemma XorBitZero(a: bv32, b: bv32, k: nat)
    requires k < 16 && WordBits(a) == WordBits(b)
    ensures XorWords(a, b) & MASKS[k] == 0
  {
    hide XorWords;
    MasksAre(k);
    XorBit(a, b, MASKS[k]);
    assert WordBits(a)[k] == Test(a, MASKS[k]) && WordBits(b)[k] == Test(b, MASKS[k]);
  }

  /** A 16-bit word is determined by its bits. */
  lemma WordBitsInjective(a: bv32, b: bv32)
    requires a <= 0xffff && b <= 0xffff && WordBits(a) == WordBits(b)
    ensures a == b
  {
    hide WordBits;
    hide XorWords;
    forall k: nat | k < 16 ensures XorWords(a, b) & MASKS[k] == 0 {
      XorBitZero(a, b, k);
    }
    XorIsZero(a, b);
    var w := XorWords(a, b);
    assert w & MASKS[0] == 0 && w & MASKS[1] == 0 && w & MASKS[2] == 0 && w & MASKS[3] == 0;
    assert w & MASKS[4] == 0 && w & MASKS[5] == 0 && w & MASKS[6] == 0 && w & MASKS[7] == 0;
    assert w & MASKS[8] == 0 && w & MASKS[9] == 0 && w & MASKS[10] == 0 && w & MASKS[11] == 0;
    assert w & MASKS[12] == 0 && w & MASKS[13] == 0 && w & MASKS[14] == 0 && w & MASKS[15] == 0;
    NoBitsNoWord(w);
  }

  method ValidateCrc(table: seq<bv32>, data: seq<bv8>, expectedCrc: bv32) returns (ok: bool)
    requires IsCrcTable(table, 256)
    ensures ok <==> expectedCrc <= 0xffff && WordBits(expectedCrc) == CrcBits(data)
  {
    hide *;
    var calculatedCrc := CalculateCrc(table, data);
    if expectedCrc <= 0xffff && WordBits(expectedCrc) == CrcBits(data) {
      WordBitsInjective(calculatedCrc, expectedCrc);
    }
    ok := calculatedCrc == expectedCrc;
  }

  /** The two bytes of a 16-bit word, high byte first, as writeUInt16BE stores them. */
  function HighByte(w: bv32): bv8
    requires w <= 0xffff
  {
    (w >> 8) as bv8
  }

  function LowByte(w: bv32): bv8 {
    (w & 0xff) as bv8
  }

  lemma BytesOfWord(w: bv32)
    requires w <= 0xffff
    ensures HighByte(w) as bv32 == Right8(w) && LowByte(w) as bv32 == Low8(w)
  {
  }

  lemma RightBits(w: bv32, k: nat)
    requires k < 8
    ensures LowBits(Right8(w))[k] == WordBits(w)[k] && LowBits(Low8(w))[k] == WordBits(w)[k + 8]
  {
    hide Right8;
    hide Low8;
    hide Test;
    MasksAre(k);
    MasksAre(k + 8);
    Right8Bit(w, MASKS[k]);
    Low8Bit(w, MASKS[k + 8]);
  }

  lemma BytesAsLowBits(w: bv32)
    requires w <= 0xffff
    ensures ByteBits(HighByte(w)) == LowBits(Right8(w)) && ByteBits(LowByte(w)) == LowBits(Low8(w))
  {
    hide HighByte;
    hide LowByte;
    hide LowBits;
    hide Right8;
    hide Low8;
    BytesOfWord(w);
  }

  lemma BytesAreWord(w: bv32)
    requires w <= 0xffff
    ensures ByteBits(HighByte(w)) + ByteBits(LowByte(w)) == WordBits(w)
  {
    hide *;
    BytesAsLowBits(w);
    forall k | 0 <= k < 8
      ensures LowBits(Right8(w))[k] == WordBits(w)[k] && LowBits(Low8(w))[k] == WordBits(w)[k + 8]
    {
      RightBits(w, k);
    }
  }

  /** A message followed by its own CRC has CRC zero. */
  lemma AppendedCrcIsZero(data: seq<bv8>, crc: bv32)
    requires crc <= 0xffff && WordBits(crc) == CrcBits(data)
    ensures CrcBits(data + [HighByte(crc), LowByte(crc)]) == Zeros(16)
  {
    hide *;
    var n := |data|;
    var r := data + [HighByte(crc), LowByte(crc)];
    CrcBitsMore(r, n);
    CrcBitsMore(r, n + 1);
    assert r[..n] == data && r[..n + 2] == r;
    FeedConcat(WordBits(crc), ByteBits(HighByte(crc)), ByteBits(LowByte(crc)));
    BytesAreWord(crc);
    FeedItself(WordBits(crc));
  }

  method AppendCrc(table: seq<bv32>, data: seq<bv8>) returns (result: array<bv8>)
    requires IsCrcTable(table, 256)
    ensures fresh(result) && result.Length == |data| + 2
    ensures result[..|data|] == data
    ensures ByteBits(result[|data|]) + ByteBits(result[|data| + 1]) == CrcBits(data)
    ensures CrcBits(result[..]) == Zeros(16)
  {
    hide *;
    var crc := CalculateCrc(table, data);
    result := new bv8[|data| + 2];
    forall i | 0 <= i < |data| {
      result[i] := data[i];
    }
    Low8Bound(crc);
    result[|data|] := HighByte(crc);
    result[|data| + 1] := LowByte(crc);
    BytesAreWord(crc);
    AppendedCrcIsZero(data, crc);
    assert result[..|data|] == data;
    assert result[..] == data + [HighByte(crc), LowByte(crc)];
  }
}
