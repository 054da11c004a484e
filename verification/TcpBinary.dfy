/** Binary reassembly does not depend on how TCP cuts the stream. */
module TcpBinary {
  import opened Gt06
  import opened Gt06Theorems
  import opened TcpStream

  ghost predicate SmallFrames(frames: seq<Bytes>) {
    AllFrames(frames) && forall i | 0 <= i < |frames| :: |frames[i]| <= 10241
  }

  /** Less than a whole frame is recognised as incomplete. */
  lemma ProperPrefixIncomplete(f: Bytes, b: Bytes)
    requires IsFrame(f) && b <= f && b != f
    ensures FrontOf(b) == Incomplete
  {
  }

  /** No buffer that starts like a frame is taken for text. */
  lemma FrameStartIsBinary(f: Bytes, b: Bytes)
    requires IsFrame(f) && (b <= f || f <= b)
    ensures !IsTextProtocol(b)
  {
  }

  lemma {:induction false} BinariesConcat(a: seq<Packet>, b: seq<Packet>)
    ensures Binaries(a + b) == Binaries(a) + Binaries(b)
    decreases |b|
  {
    if b == [] {
      assert a + b == a;
    } else {
      assert (a + b)[..|a + b| - 1] == a + b[..|b| - 1];
      BinariesConcat(a, b[..|b| - 1]);
    }
  }

  lemma SmallTail(frames: seq<Bytes>)
    requires frames != [] && SmallFrames(frames)
    ensures SmallFrames(frames[1..]) && IsFrame(frames[0]) && |frames[0]| <= 10241
  {
    assert forall i | 0 <= i < |frames[1..]| :: frames[1..][i] == frames[i + 1];
  }

  /** Parsing b gives the first k frames of the stream and leaves less than one frame. */
  ghost predicate SplitsAt(frames: seq<Bytes>, b: Bytes, k: nat) {
    && AllFrames(frames) && k <= |frames| && AllFrames(frames[..k]) && SmallFrames(frames[k..])
    && Parse(b).packets == PacketsOf(frames[..k])
    && PacketsOf(frames) == PacketsOf(frames[..k]) + PacketsOf(frames[k..])
    && b == Flatten(frames[..k]) + Left(b)
    && Flatten(frames) == Flatten(frames[..k]) + Flatten(frames[k..])
    && |Left(b)| <= 10240
  }

  lemma SplitsAtStart(frames: seq<Bytes>, b: Bytes)
    requires SmallFrames(frames) && FrontOf(b) == Incomplete && |b| <= 10240
    ensures SplitsAt(frames, b, 0)
  {
    hide FrontOf;
    hide PacketOf;
    ParseTurn(b);
    LeftTurn(b);
    assert frames[..0] == [] && frames[0..] == frames;
  }

  lemma ConsSlices<T>(x: T, s: seq<T>, k: nat)
    requires k <= |s|
    ensures ([x] + s)[..k + 1] == [x] + s[..k]
    ensures ([x] + s)[k + 1..] == s[k..]
  {
    var all := [x] + s;
    assert |all| == |s| + 1 && all[0] == x && forall i | 0 <= i < |s| :: all[i + 1] == s[i];
  }

  lemma FlattenCons(f: Bytes, frames: seq<Bytes>, k: nat)
    requires k <= |frames|
    ensures ([f] + frames)[..k + 1] == [f] + frames[..k] && ([f] + frames)[k + 1..] == frames[k..]
    ensures Flatten([f] + frames) == f + Flatten(frames) && Flatten([f] + frames[..k]) == f + Flatten(frames[..k])
  {
    hide Flatten;
    ConsSlices(f, frames, k);
    FlattenFirst(f, frames);
    FlattenFirst(f, frames[..k]);
  }

  lemma FlattenFirst(f: Bytes, frames: seq<Bytes>)
    ensures Flatten([f] + frames) == f + Flatten(frames)
  {
    assert ([f] + frames)[1..] == frames;
  }

  lemma PacketsCons(f: Bytes, frames: seq<Bytes>)
    requires IsFrame(f) && AllFrames([f] + frames)
    ensures AllFrames(frames) && PacketsOf([f] + frames) == PacketOf(f) + PacketsOf(frames)
  {
    hide PacketOf;
    var all := [f] + frames;
    assert all[0] == f && all[1..] == frames;
    assert forall i | 0 <= i < |frames| :: frames[i] == all[i + 1];
  }

  lemma AllFramesCons(f: Bytes, frames: seq<Bytes>, k: nat)
    requires IsFrame(f) && AllFrames(frames) && k <= |frames|
    ensures AllFrames([f] + frames) && AllFrames([f] + frames[..k]) && AllFrames(frames[..k]) && AllFrames(frames[k..])
  {
    hide IsFrame;
  }

  lemma SplitsAfterFrame(f: Bytes, frames: seq<Bytes>, b: Bytes, k: nat)
    requires IsFrame(f) && SplitsAt(frames, b, k)
    ensures SplitsAt([f] + frames, f + b, k + 1)
  {
    hide Parse;
    hide PacketOf;
    hide PacketsOf;
    hide IsFrame;
    hide SmallFrames;
    hide Flatten;
    hide AllFrames;
    hide Left;
    ParseFrame(f, b);
    LeftFrame(f, b);
    FlattenCons(f, frames, k);
    AllFramesCons(f, frames, k);
    PacketsCons(f, frames);
    PacketsCons(f, frames[..k]);
  }

  /** Parsing a prefix of a stream of frames. */
  lemma {:induction false} ParsePrefix(frames: seq<Bytes>, b: Bytes) returns (k: nat)
    requires SmallFrames(frames) && b <= Flatten(frames)
    ensures SplitsAt(frames, b, k)
    decreases |frames|
  {
    hide SplitsAt;
    hide IsFrame;
    if frames == [] {
      FrontOfNothing();
      SplitsAtStart(frames, b);
      k := 0;
    } else {
      var f := frames[0];
      SmallTail(frames);
      if |b| < |f| {
        assert b == f[..|b|];
        ProperPrefixIncomplete(f, b);
        SplitsAtStart(frames, b);
        k := 0;
      } else {
        var rest := b[|f|..];
        assert b == f + rest && frames == [f] + frames[1..];
        k := ParsePrefix(frames[1..], rest);
        SplitsAfterFrame(f, frames[1..], rest, k);
        k := k + 1;
      }
    }
  }

  lemma LeftFrame(f: Bytes, rest: Bytes)
    requires IsFrame(f)
    ensures Left(f + rest) == Left(rest)
  {
    ParseFrame(f, rest);
    assert (f + rest)[|f| + Parse(rest).consumed..] == rest[Parse(rest).consumed..];
  }

  /** A buffer that is a prefix of a stream of frames is not taken for text. */
  lemma StreamIsBinary(frames: seq<Bytes>, b: Bytes)
    requires SmallFrames(frames) && b <= Flatten(frames)
    ensures !IsTextProtocol(b)
  {
    if frames != [] {
      SmallTail(frames);
      var f := frames[0];
      if |b| < |f| {
        assert b == f[..|b|];
      } else {
        assert b[..|f|] == f;
      }
      FrameStartIsBinary(f, b);
    }
  }

  lemma {:induction false} Delivery(u: Utf8, c: Conn, data: Bytes, frames: seq<Bytes>) returns (k: nat)
    requires SmallFrames(frames) && c.buffer + data <= Flatten(frames)
    ensures k <= |frames| && SmallFrames(frames[k..])
    ensures Received(u, c, data) == Conn(Left(c.buffer + data), c.delivered + Binaries(PacketsOf(frames[..k])))
    ensures Binaries(PacketsOf(frames)) == Binaries(PacketsOf(frames[..k])) + Binaries(PacketsOf(frames[k..]))
    ensures c.buffer + data == Flatten(frames[..k]) + Left(c.buffer + data)
    ensures Flatten(frames) == Flatten(frames[..k]) + Flatten(frames[k..])
    ensures FrontOf(Left(c.buffer + data)) == Incomplete
  {
    var b := c.buffer + data;
    StreamIsBinary(frames, b);
    k := ParsePrefix(frames, b);
    ParseLeavesIncomplete(b);
    BinariesConcat(PacketsOf(frames[..k]), PacketsOf(frames[k..]));
    hide Parse;
    hide TextPass;
    hide IsTextProtocol;
    hide PacketsOf;
  }

  lemma NoIncompleteStream(frames: seq<Bytes>)
    requires SmallFrames(frames) && FrontOf(Flatten(frames)) == Incomplete
    ensures frames == []
  {
    if frames != [] {
      SmallTail(frames);
      FrontStable(frames[0], Flatten(frames[1..]));
    }
  }

  /** The connection holds the start of the stream of frames whose rest is still to come in chunks. */
  lemma {:induction false} Reassembly(u: Utf8, c: Conn, chunks: seq<Bytes>, frames: seq<Bytes>)
    requires SmallFrames(frames) && c.buffer + Flatten(chunks) == Flatten(frames)
    requires FrontOf(c.buffer) == Incomplete
    ensures ReceivedAll(u, c, chunks) == Conn([], c.delivered + Binaries(PacketsOf(frames)))
    decreases |chunks|
  {
    hide FrontOf;
    hide Received;
    hide SmallFrames;
    hide PacketsOf;
    hide Binaries;
    if chunks == [] {
      assert c.buffer == Flatten(frames);
      NoIncompleteStream(frames);
      NoFramesNoPackets();
    } else {
      var b, rest := c.buffer + chunks[0], Flatten(chunks[1..]);
      assert b + rest == Flatten(frames);
      var k := Delivery(u, c, chunks[0], frames);
      var c' := Received(u, c, chunks[0]);
      var later := Flatten(frames[k..]);
      assert Flatten(frames[..k]) + (c'.buffer + rest) == Flatten(frames[..k]) + later;
      SamePrefix(Flatten(frames[..k]), c'.buffer + rest, later);
      Reassembly(u, c', chunks[1..], frames[k..]);
    }
  }

  lemma NoFramesNoPackets()
    ensures Binaries(PacketsOf([])) == []
  {
  }

  lemma SamePrefix(a: Bytes, x: Bytes, y: Bytes)
    requires a + x == a + y
    ensures x == y
  {
    assert x == (a + x)[|a|..] && y == (a + y)[|a|..];
  }

  /**
    For any concatenation of frames of at most 10241 bytes and any split into chunks, the same packets reach the
    handlers in the same order, whatever UTF-8 decoding does, and the buffer ends up empty.
  */
  lemma ChunkingIndependent(u: Utf8, chunks: seq<Bytes>, frames: seq<Bytes>)
    requires SmallFrames(frames) && Flatten(chunks) == Flatten(frames)
    ensures ReceivedAll(u, Conn([], []), chunks) == Conn([], Binaries(PacketsOf(frames)))
    ensures ReceivedAll(u, Conn([], []), chunks) == ReceivedAll(u, Conn([], []), [Flatten(frames)])
  {
    FrontOfNothing();
    Reassembly(u, Conn([], []), chunks, frames);
    assert Flatten([Flatten(frames)]) == Flatten(frames);
    Reassembly(u, Conn([], []), [Flatten(frames)], frames);
  }

  /** A frame of more bytes is lost when it is cut after the first 10241 of them. */
  lemma LongerFrameIsLost(u: Utf8, f: Bytes)
    requires IsFrame(f) && |f| > 10241
    ensures ReceivedAll(u, Conn([], []), [f[..10241]]) == Conn([], [])
  {
    var b := f[..10241];
    ProperPrefixIncomplete(f, b);
    FrameStartIsBinary(f, b);
    assert [] + b == b && b[0..] == b;
    assert Parse(b) == Parsed([], 0);
    assert Received(u, Conn([], []), b) == Conn([], []);
    hide Received;
    var rest := [b][1..];
    assert rest == [];
    assert ReceivedAll(u, Conn([], []), [b]) == ReceivedAll(u, Received(u, Conn([], []), b), rest);
  }
}
