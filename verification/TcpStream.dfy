/**
  How the TCP server turns the chunks of one socket into packets: a buffer per connection, a test for the text
  protocol, and a cap of 10240 bytes. Decoding and encoding UTF-8 are function parameters. The packet handlers
  are a trace of what reached them, and do not throw.
*/
module TcpStream {
  import opened Gt06

  const MAX_BUFFER := 10240

  /** Buffer.toString('utf8') and Buffer.from(_, 'utf8'). */
  datatype Utf8 = Utf8(decode: Bytes -> string, encode: string -> Bytes)

  /** What reached handleTextPacket or processPacket. */
  datatype Delivery = Text(line: string) | Binary(packet: Packet)

  datatype Conn = Conn(buffer: Bytes, delivered: seq<Delivery>)

  predicate IsTextProtocol(buffer: Bytes) {
    && |buffer| >= 2
    && !(buffer[0] == 0x78 && buffer[1] == 0x78)
    && !(buffer[0] == 0x79 && buffer[1] == 0x79)
    && 0x20 <= buffer[0] as int <= 0x7e
  }

  // JavaScript string operations.

  /** First position of c in s, or |s|. */
  function IndexOf(s: string, c: char): (i: nat)
    ensures i <= |s| && c !in s[..i] && (i < |s| ==> s[i] == c)
  {
    if s == "" || s[0] == c then 0
    else
      assert s[..1 + IndexOf(s[1..], c)] == [s[0]] + s[1..][..IndexOf(s[1..], c)];
      1 + IndexOf(s[1..], c)
  }

  /** The part of s behind the last '#', all of it if there is none. */
  function AfterLastHash(s: string): (t: string)
    ensures '#' !in t && |t| <= |s| && t == s[|s| - |t|..]
    ensures '#' !in s ==> t == s
  {
    if s == "" then ""
    else if '#' in s[1..] || s[0] == '#' then AfterLastHash(s[1..])
    else s
  }

  /** The matches of /\*[^#]*#/g. */
  function HqMatches(s: string): seq<string>
    decreases |s|
  {
    var i := IndexOf(s, '*');
    var j := IndexOf(s[i..], '#');
    if i + j < |s| then [s[i..i + j + 1]] + HqMatches(s[i + j + 1..]) else []
  }

  /** split(/\r?\n/) */
  function SplitLines(s: string): (lines: seq<string>)
    ensures lines != []
    decreases |s|
  {
    var i := IndexOf(s, '\n');
    if i == |s| then [s]
    else [if i > 0 && s[i - 1] == '\r' then s[..i - 1] else s[..i]] + SplitLines(s[i + 1..])
  }

  predicate IsWhite(c: char) {
    || c == ' ' || '\t' <= c <= '\r' || c == '\U{00A0}' || c == '\U{FEFF}' || c == '\U{1680}'
    || '\U{2000}' <= c <= '\U{200A}' || c == '\U{2028}' || c == '\U{2029}' || c == '\U{202F}'
    || c == '\U{205F}' || c == '\U{3000}'
  }

  function TrimStart(s: string): string {
    if s != "" && IsWhite(s[0]) then TrimStart(s[1..]) else s
  }

  function TrimEnd(s: string): string {
    if s != "" && IsWhite(s[|s| - 1]) then TrimEnd(s[..|s| - 1]) else s
  }

  function Trim(s: string): string {
    TrimEnd(TrimStart(s))
  }

  // One delivery.

  function Trimmed(lines: seq<string>): seq<Delivery> {
    if lines == [] then [] else Trimmed(lines[..|lines| - 1]) + [Text(Trim(lines[|lines| - 1]))]
  }

  /** As Trimmed, without blank lines. */
  function NonBlank(lines: seq<string>): seq<Delivery> {
    if lines == [] then []
    else
      var line := Trim(lines[|lines| - 1]);
      NonBlank(lines[..|lines| - 1]) + (if |line| > 0 then [Text(line)] else [])
  }

  function Binaries(packets: seq<Packet>): seq<Delivery> {
    if packets == [] then [] else Binaries(packets[..|packets| - 1]) + [Binary(packets[|packets| - 1])]
  }

  function Capped(c: Conn): Conn {
    if |c.buffer| > MAX_BUFFER then c.(buffer := []) else c
  }

  function TextPass(u: Utf8, c: Conn): Conn {
    var rawStr := u.decode(c.buffer);
    var hqPackets := HqMatches(rawStr);
    if |hqPackets| > 0 then
      var trailing := Trim(AfterLastHash(rawStr));
      Conn(if |trailing| > 0 then u.encode(trailing) else [], c.delivered + Trimmed(hqPackets))
    else
      var lines := SplitLines(rawStr);
      if |lines| > 1 then
        Conn(u.encode(lines[|lines| - 1]), c.delivered + NonBlank(lines[..|lines| - 1]))
      else
        var trimmed := Trim(rawStr);
        if (|trimmed| > 0 && trimmed[|trimmed| - 1] == ';') || |trimmed| > 20 then
          Conn([], c.delivered + [Text(trimmed)])
        else c
  }

  function BinaryPass(c: Conn): Conn {
    var r := Parse(c.buffer);
    Conn(c.buffer[r.consumed..], c.delivered + Binaries(r.packets))
  }

  function Received(u: Utf8, c: Conn, data: Bytes): Conn {
    var c' := c.(buffer := c.buffer + data);
    Capped(if IsTextProtocol(c'.buffer) then TextPass(u, c') else BinaryPass(c'))
  }

  function ReceivedAll(u: Utf8, c: Conn, chunks: seq<Bytes>): Conn
    decreases |chunks|
  {
    if chunks == [] then c else ReceivedAll(u, Received(u, c, chunks[0]), chunks[1..])
  }

  lemma TrimmedMore(lines: seq<string>, i: nat)
    requires i < |lines|
    ensures Trimmed(lines[..i + 1]) == Trimmed(lines[..i]) + [Text(Trim(lines[i]))]
  {
    assert lines[..i + 1][..i] == lines[..i];
  }

  lemma NonBlankMore(lines: seq<string>, i: nat)
    requires i < |lines|
    ensures NonBlank(lines[..i + 1]) == NonBlank(lines[..i]) + if |Trim(lines[i])| > 0 then [Text(Trim(lines[i]))]
            else []
  {
    assert lines[..i + 1][..i] == lines[..i];
  }

  lemma BinariesMore(packets: seq<Packet>, i: nat)
    requires i < |packets|
    ensures Binaries(packets[..i + 1]) == Binaries(packets[..i]) + [Binary(packets[i])]
  {
    assert packets[..i + 1][..i] == packets[..i];
  }

  lemma NothingYet(lines: seq<string>, packets: seq<Packet>)
    ensures Trimmed(lines[..0]) == [] && NonBlank(lines[..0]) == [] && Binaries(packets[..0]) == []
  {
  }

  class DeviceConnection {
    const utf8: Utf8
    var buffer: Bytes
    var delivered: seq<Delivery>

    constructor (utf8: Utf8)
      ensures this.utf8 == utf8 && State() == Conn([], [])
    {
      this.utf8 := utf8;
      buffer, delivered := [], [];
    }

    function State(): Conn
      reads this
    {
      Conn(buffer, delivered)
    }

    method HandleData(data: Bytes)
      modifies this
      ensures State() == Received(utf8, old(State()), data)
    {
      hide Trim;
      hide Parse;
      hide HqMatches;
      hide SplitLines;
      hide AfterLastHash;
      hide IsTextProtocol;
      hide Trimmed;
      hide NonBlank;
      hide Binaries;
      buffer := buffer + data;
      ghost var before := delivered;
      var rawStr := utf8.decode(buffer);
      if IsTextProtocol(buffer) {
        var hqPackets := HqMatches(rawStr);
        if |hqPackets| > 0 {
          var i := 0;
          NothingYet(hqPackets, []);
          while i < |hqPackets|
            invariant 0 <= i <= |hqPackets|
            invariant delivered == before + Trimmed(hqPackets[..i])
            invariant buffer == old(buffer) + data
          {
            TrimmedMore(hqPackets, i);
            delivered := delivered + [Text(Trim(hqPackets[i]))];
            i := i + 1;
          }
          assert hqPackets[..i] == hqPackets;
          var trailing := Trim(AfterLastHash(rawStr));
          buffer := if |trailing| > 0 then utf8.encode(trailing) else [];
        } else {
          var lines := SplitLines(rawStr);
          if |lines| > 1 {
            var i := 0;
            NothingYet(lines, []);
            while i < |lines| - 1
              invariant 0 <= i <= |lines| - 1
              invariant delivered == before + NonBlank(lines[..i])
              invariant buffer == old(buffer) + data
            {
              NonBlankMore(lines, i);
              var line := Trim(lines[i]);
              if |line| > 0 {
                delivered := delivered + [Text(line)];
              }
              i := i + 1;
            }
            buffer := utf8.encode(lines[|lines| - 1]);
          } else {
            var trimmed := Trim(rawStr);
            if (|trimmed| > 0 && trimmed[|trimmed| - 1] == ';') || |trimmed| > 20 {
              delivered := delivered + [Text(trimmed)];
              buffer := [];
            }
          }
        }
        if |buffer| > MAX_BUFFER {
          buffer := [];
        }
        return;
      }
      var packets, consumed := ParsePackets(buffer);
      var i := 0;
      NothingYet([], packets);
      while i < |packets|
        invariant 0 <= i <= |packets|
        invariant delivered == before + Binaries(packets[..i])
        invariant buffer == old(buffer) + data
      {
        BinariesMore(packets, i);
        delivered := delivered + [Binary(packets[i])];
        i := i + 1;
      }
      assert packets[..i] == packets;
      ParsedFields(buffer, packets, consumed);
      if consumed > 0 {
        buffer := buffer[consumed..];
      }
      if |buffer| > MAX_BUFFER {
        buffer := [];
      }
    }
  }

  lemma ParsedFields(b: Bytes, packets: seq<Packet>, consumed: nat)
    requires Parsed(packets, consumed) == Parse(b)
    ensures Parse(b).packets == packets && Parse(b).consumed == consumed <= |b| && b[0..] == b
  {
  }

  /** Whatever arrives, at most 10240 bytes are kept. */
  lemma KeptBufferBounded(u: Utf8, c: Conn, data: Bytes)
    ensures |Received(u, c, data).buffer| <= 10240
  {
  }
}
