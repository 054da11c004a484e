/** When HQ packets survive reassembly: an exact condition on where the stream of packets and gaps is cut. */
module TcpTextTheorem {
  import opened Gt06
  import opened Gt06Theorems
  import opened TcpStream
  import opened TcpText
  import opened TcpStars

  function Join(parts: seq<string>): string {
    if parts == [] then "" else parts[0] + Join(parts[1..])
  }

  function Encoded(u: Utf8, chunks: seq<string>): seq<Bytes> {
    if chunks == [] then [] else [u.encode(chunks[0])] + Encoded(u, chunks[1..])
  }

  // The condition.

  /**
    What a delivery finds in the buffer does no harm: if it begins with a line ending, no '*' comes before the last
    character; otherwise it completes a packet or a line, or holds at most 20 characters that do not end in ';', not
    counting blanks.
  */
  predicate Fine(s: string) {
    if s != "" && IsControl(s[0]) then '*' !in s[..|s| - 1]
    else '#' in s || '\n' in s || Patient(Trim(s))
  }

  /** What it leaves in the buffer then. */
  function Kept(s: string): string {
    if s != "" && IsControl(s[0]) then [s[|s| - 1]]
    else if '#' in s then Trim(AfterLastHash(s))
    else AfterLastFeed(s)
  }

  /** Starting with b in the buffer, every delivery finds something fine. */
  predicate CutsAreFine(b: string, chunks: seq<string>)
    decreases |chunks|
  {
    chunks == [] || (Fine(b + chunks[0]) && CutsAreFine(Kept(b + chunks[0]), chunks[1..]))
  }

  // One delivery of a stream.

  function Passed(u: Utf8, c: Conn): Conn {
    Capped(if IsTextProtocol(c.buffer) then TextPass(u, c) else BinaryPass(c))
  }

  lemma ShortIsKept(c: Conn)
    requires |c.buffer| < 2
    ensures Capped(BinaryPass(c)) == c
  {
    assert FrontOf(c.buffer) == Incomplete;
    assert Parse(c.buffer) == Parsed([], 0);
    assert c.buffer[0..] == c.buffer;
  }

  lemma NoFrameIn(u: Utf8, s: string, n: nat)
    requires AsciiExact(u) && Ascii(s) && n <= |s| && forall i | 0 <= i < n :: IsBlank(s[i]) || s[i] == '*'
    ensures |u.encode(s)| == |s| && forall i | 0 <= i < n :: StartsNoFrame(u.encode(s)[i])
  {
    forall i | 0 <= i < n ensures StartsNoFrame(u.encode(s)[i]) {
      assert u.encode(s)[i] as int == s[i] as int;
    }
  }

  /** Junk up to character n is consumed at least. */
  lemma JunkPass(u: Utf8, c: Conn, s: string, n: nat) returns (j: nat)
    requires AsciiExact(u) && Ascii(s) && c.buffer == u.encode(s) && n < |s|
    requires forall i | 0 <= i < n :: IsBlank(s[i]) || s[i] == '*'
    ensures n <= j <= |s| && BinaryPass(c).buffer == u.encode(s[j..])
    ensures BinaryPass(c).delivered == c.delivered + Binaries(Parse(c.buffer).packets)
    ensures n == |s| - 1 ==> j == n && BinaryPass(c).delivered == c.delivered
  {
    NoFrameIn(u, s, n);
    JunkThrough(c.buffer, n);
    j := Parse(c.buffer).consumed;
    EncodeFrom(u, s, j);
    if n == |s| - 1 {
      assert FrontOf(c.buffer[n..]) == Incomplete;
      assert Parse(c.buffer).packets == [];
      assert c.delivered + [] == c.delivered;
    }
    hide IsTextProtocol;
  }

  lemma PrintableStart(g: string, ps: seq<string>, gs: seq<string>, s: string)
    requires IsStream(g, ps, gs) && s <= g + Spaced(ps, gs) && s != "" && !IsControl(s[0])
    ensures s[0] == '*' || s[0] == ' '
  {
    if g == "" {
      assert ps != [] && s[0] == ps[0][0];
    } else {
      assert s[0] == g[0];
    }
  }

  /** A fine delivery that begins with a line ending holds no packet: gap, and at most the '*' of the next one. */
  lemma FineControl(g: string, ps: seq<string>, gs: seq<string>, s: string, cut: Cut)
    requires CutsAt(g, ps, gs, s, cut) && IsStream(g, ps, gs) && s != "" && IsControl(s[0]) && '*' !in s[..|s| - 1]
    ensures cut.k == 0 && s == cut.h + cut.t && cut.h != "" && (cut.t == "" || cut.t == "*")
    ensures forall i | 0 <= i < |s| - 1 :: IsBlank(s[i])
  {
    hide HqMatches, Spaced, IsStream;
    CutHashes(g, ps, gs, s, cut);
    if cut.k > 0 {
      CutHasStar(g, ps, gs, s, cut);
      assert false;
    }
    var h, t := cut.h, cut.t;
    assert s == h + t;
    if t != "" {
      assert s[|h|] == '*';
    }
  }

  /** A packet found lies before the last character, or ends there: its '*' does. */
  lemma CutHasStar(g: string, ps: seq<string>, gs: seq<string>, s: string, cut: Cut)
    requires CutsAt(g, ps, gs, s, cut) && cut.k > 0
    ensures s != "" && '*' in s[..|s| - 1]
  {
    CutHashes(g, ps, gs, s, cut);
    MatchStar(s);
    hide IsStream, Spaced, HqMatches;
  }

  lemma MatchStar(s: string)
    requires HqMatches(s) != []
    ensures s != "" && '*' in s[..|s| - 1]
  {
    var i := IndexOf(s, '*');
    var j := IndexOf(s[i..], '#');
    assert i + j < |s|;
    assert s[i..][j] == '#' && s[i] == '*';
    assert s[..|s| - 1][i] == '*';
  }

  /** What a connection holds back fits its buffer. */
  lemma CutFits(g: string, ps: seq<string>, gs: seq<string>, s: string, cut: Cut)
    requires CutsAt(g, ps, gs, s, cut)
    ensures |cut.h + cut.t| <= 10240
    ensures cut.k == 0 ==> s == cut.h + cut.t && Texts(ps[..cut.k]) == []
  {
    hide HqMatches, Spaced, IsTail;
    if cut.t != "" {
      assert ps[cut.k..][0] == ps[cut.k];
    }
  }

  lemma NotCapped(u: Utf8, s: string, c: Conn)
    requires AsciiExact(u) && Ascii(s) && |s| <= 10240 && c.buffer == u.encode(s)
    ensures Capped(c) == c && |c.buffer| == |s|
  {
  }

  lemma FineControlDelivery(u: Utf8, c: Conn, g: string, ps: seq<string>, gs: seq<string>, s: string, cut: Cut)
      returns (j: nat)
    requires AsciiExact(u) && IsStream(g, ps, gs) && Ascii(s) && c.buffer == u.encode(s) && CutsAt(g, ps, gs, s, cut)
    requires s != "" && IsControl(s[0]) && Fine(s)
    ensures j <= |cut.h| && cut.k == 0 && Kept(s) == (cut.h + cut.t)[j..]
    ensures Passed(u, c) == Conn(u.encode(Kept(s)), c.delivered)
  {
    hide CutsAt, IsStream, IsTextProtocol, Trim, Parse, BinaryPass, TextPass, AsciiExact;
    FineControl(g, ps, gs, s, cut);
    TextStart(u, s);
    j := JunkPass(u, c, s, |s| - 1);
    assert s[|s| - 1..] == [s[|s| - 1]];
    NotCapped(u, Kept(s), BinaryPass(c));
  }

  lemma FinePacketsDelivery(u: Utf8, c: Conn, g: string, ps: seq<string>, gs: seq<string>, s: string, cut: Cut)
    requires AsciiExact(u) && IsStream(g, ps, gs) && Ascii(s) && c.buffer == u.encode(s) && CutsAt(g, ps, gs, s, cut)
    requires s != "" && !IsControl(s[0]) && (s[0] == '*' || s[0] == ' ') && cut.k > 0
    ensures Kept(s) == (cut.h + cut.t)[|cut.h|..]
    ensures Passed(u, c) == Conn(u.encode(Kept(s)), c.delivered + Texts(ps[..cut.k]))
  {
    CutHashes(g, ps, gs, s, cut);
    CutFits(g, ps, gs, s, cut);
    CutHasStar(g, ps, gs, s, cut);
    TrimTail(cut.h, cut.t);
    TailIsAscii(cut.t);
    PassWithPackets(u, c, g, ps, gs, s, cut);
    TextStart(u, s);
    hide CutsAt, IsStream, IsTextProtocol, Trim, Parse, AsciiExact, TextPass;
    NotCapped(u, cut.t, TextPass(u, c));
  }

  lemma FeedInGap(h: string, t: string)
    requires Gap(h) && IsTail(t)
    ensures var x := AfterLastFeed(h + t); |h + t| - |x| <= |h| && x == (h + t)[|h + t| - |x|..]
  {
    TailIsAscii(t);
    var s, x := h + t, AfterLastFeed(h + t);
    hide AfterLastFeed;
    if '\n' in s {
      assert s[|s| - |x| - 1] == '\n';
    }
  }

  lemma WaitingVerdict(h: string, t: string)
    requires Gap(h) && IsTail(t) && h + t != "" && !IsControl((h + t)[0])
    ensures var s := h + t;
            && (s[0] == '*' || s[0] == ' ') && Kept(s) == AfterLastFeed(s)
            && (Fine(s) <==> '\n' in s || Patient(t)) && ('\n' !in s ==> AfterLastFeed(s) == s)
  {
    hide AfterLastFeed, Trim, Patient;
    HeldTail(h, h, t);
    TrimTail(h, t);
    assert h == "" ==> h + t == t;
    hide Ascii;
  }

  /** A delivery of printable start without a whole packet. */
  lemma WaitingDelivery(u: Utf8, c: Conn, h: string, t: string)
    requires AsciiExact(u) && Gap(h) && IsTail(t) && c.buffer == u.encode(h + t) && |h + t| <= 10240
    requires h + t != "" && !IsControl((h + t)[0])
    ensures Trim(h + t) == t
    ensures Passed(u, c) ==
            if Fine(h + t) then Conn(u.encode(Kept(h + t)), c.delivered) else Conn([], c.delivered + [Text(t)])
  {
    hide IsTextProtocol, Trim, TextPass, BinaryPass, AfterLastFeed, AsciiExact, Fine, Kept, Patient, IsControl;
    hide Gap, IsTail, Ascii;
    var s := h + t;
    HeldTail(h, h, t);
    TrimTail(h, t);
    WaitingVerdict(h, t);
    TextStart(u, s);
    PassWithoutPackets(u, c, h, t);
    SmallPass(u, c, h, t);
    if |s| < 2 {
      ShortIsKept(c);
    }
  }

  lemma SmallPass(u: Utf8, c: Conn, h: string, t: string)
    requires AsciiExact(u) && Gap(h) && IsTail(t) && c.buffer == u.encode(h + t) && |h + t| <= 10240
    ensures Capped(c) == c && Capped(Conn([], c.delivered + [Text(t)])) == Conn([], c.delivered + [Text(t)])
    ensures var d := Conn(u.encode(AfterLastFeed(h + t)), c.delivered); Capped(d) == d
    ensures |h + t| == 1 ==> Patient(t) || IsControl((h + t)[0])
    ensures '#' !in h + t && ('\n' !in h + t ==> AfterLastFeed(h + t) == h + t) && |c.buffer| == |h + t|
  {
    HeldTail(h, h, t);
    OneCharacter(h, t);
    var s := h + t;
    var x := AfterLastFeed(s);
    hide Gap, IsTail, IsControl, Patient, AfterLastFeed;
    AsciiFrom(s, |s| - |x|);
    hide Ascii;
    NotCapped(u, s, c);
    NotCapped(u, x, Conn(u.encode(x), c.delivered));
  }

  lemma AsciiFrom(s: string, n: nat)
    requires Ascii(s) && n <= |s|
    ensures Ascii(s[n..])
  {
  }

  lemma OneCharacter(h: string, t: string)
    requires Gap(h) && IsTail(t)
    ensures |h + t| == 1 ==> Patient(t) || IsControl((h + t)[0])
  {
    if |h + t| == 1 && h == "" {
      assert h + t == t;
    }
  }

  /** A fine delivery hands over the packets it completes, and keeps a part of what is behind them. */
  lemma FineDelivery(u: Utf8, c: Conn, g: string, ps: seq<string>, gs: seq<string>, s: string, cut: Cut)
      returns (j: nat)
    requires AsciiExact(u) && IsStream(g, ps, gs) && Ascii(s) && c.buffer == u.encode(s) && CutsAt(g, ps, gs, s, cut)
    requires s <= g + Spaced(ps, gs) && Fine(s)
    ensures j <= |cut.h| && Kept(s) == (cut.h + cut.t)[j..]
    ensures Passed(u, c) == Conn(u.encode(Kept(s)), c.delivered + Texts(ps[..cut.k]))
  {
    CutHashes(g, ps, gs, s, cut);
    CutFits(g, ps, gs, s, cut);
    assert IsTail(cut.t);
    hide CutsAt, IsStream, IsTextProtocol, Trim, Parse, AsciiExact, TextPass, Texts, Ascii, Gap, IsTail, Fine;
    assert c.delivered + [] == c.delivered;
    if s == "" {
      j := 0;
      NothingReceived(u, c);
    } else if IsControl(s[0]) {
      j := FineControlDelivery(u, c, g, ps, gs, s, cut);
    } else {
      PrintableStart(g, ps, gs, s);
      if cut.k > 0 {
        j := |cut.h|;
        FinePacketsDelivery(u, c, g, ps, gs, s, cut);
      } else {
        WaitingDelivery(u, c, cut.h, cut.t);
        FeedInGap(cut.h, cut.t);
        j := |s| - |AfterLastFeed(s)|;
      }
    }
  }

  lemma NothingReceived(u: Utf8, c: Conn)
    requires AsciiExact(u) && c.buffer == u.encode("")
    ensures Passed(u, c) == c && Kept("") == ""
  {
    EncodeNothing(u);
    ShortIsKept(c);
  }

  /** Of a stream cut at s, what is kept and what is still to come are a stream again. */
  lemma RestOfStream(g: string, ps: seq<string>, gs: seq<string>, s: string, cut: Cut, j: nat, rest: string)
    requires CutsAt(g, ps, gs, s, cut) && s + rest == g + Spaced(ps, gs) && j <= |cut.h|
    ensures |ps| == |gs| && cut.k <= |ps| && IsStream(cut.gap[j..], ps[cut.k..], gs[cut.k..])
    ensures (cut.h + cut.t)[j..] + rest == cut.gap[j..] + Spaced(ps[cut.k..], gs[cut.k..])
  {
    CutStrings(g, ps, gs, s, cut);
    hide CutsAt, Spaced, IsStream, Gap;
    var later, ht := Spaced(ps[cut.k..], gs[cut.k..]), cut.h + cut.t;
    GapFrom(cut.gap, j);
    StreamGap(cut.gap, ps[cut.k..], gs[cut.k..], cut.gap[j..]);
    SameRest(cut.done, ht, rest, cut.gap, later);
    DropBoth(ht, rest, cut.gap, later, j);
  }

  lemma CutStrings(g: string, ps: seq<string>, gs: seq<string>, s: string, cut: Cut)
    requires CutsAt(g, ps, gs, s, cut)
    ensures |ps| == |gs| && cut.k <= |ps| && IsStream(cut.gap, ps[cut.k..], gs[cut.k..]) && |cut.h| <= |cut.gap|
    ensures s == cut.done + (cut.h + cut.t)
    ensures g + Spaced(ps, gs) == cut.done + cut.gap + Spaced(ps[cut.k..], gs[cut.k..])
  {
    hide HqMatches, Spaced, IsTail, IsStream;
    assert cut.done + cut.h + cut.t == cut.done + (cut.h + cut.t);
  }

  lemma DropBoth(x: string, x': string, y: string, y': string, j: nat)
    requires x + x' == y + y' && j <= |x| && j <= |y|
    ensures x[j..] + x' == y[j..] + y'
  {
    assert x[j..] + x' == (x + x')[j..] && y[j..] + y' == (y + y')[j..];
  }

  lemma SameRest(done: string, x: string, x': string, y: string, y': string)
    requires done + x + x' == done + y + y'
    ensures x + x' == y + y'
  {
    assert (done + x + x')[|done|..] == x + x' && (done + y + y')[|done|..] == y + y';
  }

  lemma GapFrom(g: string, j: nat)
    requires j <= |g|
    ensures Gap(g) ==> Gap(g[j..])
  {
  }

  lemma StreamGap(g: string, ps: seq<string>, gs: seq<string>, h: string)
    requires IsStream(g, ps, gs) && |h| <= |g|
    ensures Gap(g) && (Gap(h) ==> IsStream(h, ps, gs))
  {
    if Gap(h) {
      StreamFrom(g, ps, gs, h);
    }
  }

  /** The connection holds b, and the stream goes on with the chunks. */
  ghost predicate Holds(u: Utf8, c: Conn, b: string, chunks: seq<string>, g: string, ps: seq<string>, gs: seq<string>) {
    && IsStream(g, ps, gs) && b + Join(chunks) == g + Spaced(ps, gs) && '#' !in b && c.buffer == u.encode(b)
  }

  lemma StreamParts(b: string, chunks: seq<string>, g: string, ps: seq<string>, gs: seq<string>)
    requires IsStream(g, ps, gs) && b + Join(chunks) == g + Spaced(ps, gs)
    ensures Ascii(b) && Ascii(Join(chunks)) && (chunks != [] ==> Ascii(chunks[0]))
    ensures chunks != [] ==> (b + chunks[0]) + Join(chunks[1..]) == g + Spaced(ps, gs) && Ascii(b + chunks[0])
    ensures chunks != [] ==> b + chunks[0] <= g + Spaced(ps, gs)
  {
    SpacedIsAscii(g, ps, gs);
    hide IsStream, Spaced;
    var all := b + Join(chunks);
    assert forall i | 0 <= i < |b| :: b[i] == all[i];
    assert forall i | 0 <= i < |Join(chunks)| :: Join(chunks)[i] == all[|b| + i];
    if chunks != [] {
      var s := b + chunks[0];
      assert s + Join(chunks[1..]) == all;
      assert forall i | 0 <= i < |s| :: s[i] == all[i];
      assert chunks[0] == s[|b|..];
    }
  }

  /** The next delivery, up to what it finds in the buffer. */
  lemma NextDelivery(u: Utf8, c: Conn, b: string, chunks: seq<string>, g: string, ps: seq<string>, gs: seq<string>)
      returns (cut: Cut)
    requires AsciiExact(u) && Holds(u, c, b, chunks, g, ps, gs) && chunks != []
    ensures var s := b + chunks[0];
            && Ascii(s) && s <= g + Spaced(ps, gs) && CutsAt(g, ps, gs, s, cut)
            && Received(u, c, u.encode(chunks[0])) == Passed(u, Conn(u.encode(s), c.delivered))
  {
    StreamParts(b, chunks, g, ps, gs);
    cut := CutPrefix(g, ps, gs, b + chunks[0]);
    EncodeConcat(u, b, chunks[0]);
    hide CutsAt, IsStream, Ascii, AsciiExact, TextPass, BinaryPass, IsTextProtocol;
  }

  lemma FineNext(u: Utf8, c: Conn, b: string, chunks: seq<string>, g: string, ps: seq<string>, gs: seq<string>)
      returns (k: nat, g': string)
    requires AsciiExact(u) && Holds(u, c, b, chunks, g, ps, gs) && chunks != [] && Fine(b + chunks[0])
    ensures |ps| == |gs| && k <= |ps|
    ensures var c' := Received(u, c, u.encode(chunks[0]));
            && c'.delivered == c.delivered + Texts(ps[..k])
            && Holds(u, c', Kept(b + chunks[0]), chunks[1..], g', ps[k..], gs[k..])
  {
    var s := b + chunks[0];
    var cut := NextDelivery(u, c, b, chunks, g, ps, gs);
    StreamParts(b, chunks, g, ps, gs);
    hide Ascii, AsciiExact, Passed, Received, Fine, Kept, IsStream;
    var j := FineDelivery(u, Conn(u.encode(s), c.delivered), g, ps, gs, s, cut);
    CutHashes(g, ps, gs, s, cut);
    hide CutsAt;
    RestOfStream(g, ps, gs, s, cut, j, Join(chunks[1..]));
    k, g' := cut.k, cut.gap[j..];
  }

  lemma NothingHeld(u: Utf8, c: Conn, b: string, g: string, ps: seq<string>, gs: seq<string>)
    requires Holds(u, c, b, [], g, ps, gs)
    ensures ps == [] && Gap(b) && c.buffer == u.encode(b)
  {
    assert b + "" == b;
    HashInStream(g, ps, gs);
    assert ps == [] ==> g + Spaced(ps, gs) == g;
  }

  lemma HashInStream(g: string, ps: seq<string>, gs: seq<string>)
    requires IsStream(g, ps, gs)
    ensures ps != [] ==> '#' in g + Spaced(ps, gs)
  {
    if ps != [] {
      assert (g + Spaced(ps, gs))[|g| + |ps[0]| - 1] == '#';
    }
  }

  /** What is left in the buffer when all chunks have come. */
  function Rest(b: string, chunks: seq<string>): string
    decreases |chunks|
  {
    if chunks == [] then b else Rest(Kept(b + chunks[0]), chunks[1..])
  }

  /** Fine cuts: every packet arrives, in order, and no part of a packet is left. */
  lemma {:induction false} FineCutsDeliver(
      u: Utf8, c: Conn, b: string, chunks: seq<string>, g: string, ps: seq<string>, gs: seq<string>)
    requires AsciiExact(u) && Holds(u, c, b, chunks, g, ps, gs) && CutsAreFine(b, chunks)
    ensures ReceivedAll(u, c, Encoded(u, chunks)) == Conn(u.encode(Rest(b, chunks)), c.delivered + Texts(ps))
    ensures Gap(Rest(b, chunks))
    decreases |chunks|
  {
    hide AsciiExact, Holds, Received, Fine, Kept, Gap, ReceivedAll;
    if chunks == [] {
      NothingHeld(u, c, b, g, ps, gs);
      NoChunks(u, c);
      assert c.delivered + [] == c.delivered;
    } else {
      var k, g' := FineNext(u, c, b, chunks, g, ps, gs);
      var c' := Received(u, c, u.encode(chunks[0]));
      FineCutsDeliver(u, c', Kept(b + chunks[0]), chunks[1..], g', ps[k..], gs[k..]);
      NextChunk(u, c, chunks);
      TextsConcat(c.delivered, ps, k);
    }
  }

  lemma TextsConcat(before: seq<Delivery>, ps: seq<string>, k: nat)
    requires k <= |ps|
    ensures before + Texts(ps[..k]) + Texts(ps[k..]) == before + Texts(ps)
  {
  }

  // What goes wrong otherwise.

  lemma {:induction false} StreamStars(g: string, ps: seq<string>, gs: seq<string>)
    requires IsStream(g, ps, gs)
    ensures Stars(g + Spaced(ps, gs)) == |ps|
    decreases |ps|
  {
    GapIsAscii(g);
    StarsNone(g);
    StarsConcat(g, Spaced(ps, gs));
    if ps != [] {
      var p := ps[0];
      PacketStars(p);
      StreamStars(gs[0], ps[1..], gs[1..]);
      hide Stars;
      assert Spaced(ps, gs) == p + (gs[0] + Spaced(ps[1..], gs[1..]));
      StarsConcat(p, gs[0] + Spaced(ps[1..], gs[1..]));
    }
  }

  lemma PacketStars(p: string)
    requires IsHqPacket(p)
    ensures Stars(p) == 1
  {
    assert p == [p[0]] + p[1..];
    assert '*' !in p[1..];
    StarsNone(p[1..]);
  }

  lemma {:induction false} StarredTexts(ps: seq<string>)
    requires forall i | 0 <= i < |ps| :: '*' in ps[i]
    ensures Starred(Texts(ps)) == |ps|
    decreases |ps|
  {
    if ps != [] {
      StarredTexts(ps[1..]);
      OneStarred(Text(ps[0]));
      StarredConcat([Text(ps[0])], Texts(ps[1..]));
      assert Texts(ps) == [Text(ps[0])] + Texts(ps[1..]);
    }
  }

  lemma {:induction false} PacketsHaveStars(g: string, ps: seq<string>, gs: seq<string>)
    requires IsStream(g, ps, gs)
    ensures Starred(Texts(ps)) == |ps|
  {
    forall i | 0 <= i < |ps| ensures '*' in ps[i] {
      PacketsOfStream(g, ps, gs, i);
      assert ps[i][0] == '*';
    }
    StarredTexts(ps);
  }

  /** However the rest arrives, no more packets are handed over than stars are left. */
  lemma {:induction false} RunUses(u: Utf8, c: Conn, s: string, chunks: seq<string>)
    requires AsciiExact(u) && Ascii(s) && Ascii(Join(chunks)) && c.buffer == u.encode(s)
    ensures Starred(ReceivedAll(u, c, Encoded(u, chunks)).delivered) <= Starred(c.delivered) + Stars(s + Join(chunks))
    decreases |chunks|
  {
    hide AsciiExact, Ascii, Starred, Stars, Received, ReceivedAll;
    StarsConcat(s, Join(chunks));
    if chunks == [] {
      NoChunks(u, c);
    } else {
      var rest := Join(chunks[1..]);
      JoinIsAscii(chunks);
      var s' := DeliveryUses(u, c, s, chunks[0]);
      var c' := Received(u, c, u.encode(chunks[0]));
      RunUses(u, c', s', chunks[1..]);
      NextChunk(u, c, chunks);
      StarsConcat(s', rest);
      StarsConcat(s + chunks[0], rest);
      assert s + chunks[0] + rest == s + Join(chunks);
    }
  }

  lemma NoChunks(u: Utf8, c: Conn)
    ensures ReceivedAll(u, c, Encoded(u, [])) == c
  {
  }

  lemma NextChunk(u: Utf8, c: Conn, chunks: seq<string>)
    requires chunks != []
    ensures ReceivedAll(u, c, Encoded(u, chunks))
            == ReceivedAll(u, Received(u, c, u.encode(chunks[0])), Encoded(u, chunks[1..]))
  {
    hide Received;
    assert Encoded(u, chunks)[1..] == Encoded(u, chunks[1..]);
  }

  lemma JoinIsAscii(chunks: seq<string>)
    requires chunks != [] && Ascii(Join(chunks))
    ensures Ascii(chunks[0]) && Ascii(Join(chunks[1..]))
  {
    var all, first := Join(chunks), chunks[0];
    assert forall i | 0 <= i < |first| :: first[i] == all[i];
    assert forall i | 0 <= i < |Join(chunks[1..])| :: Join(chunks[1..])[i] == all[|first| + i];
  }

  /** A buffer that begins with a line ending and holds a '*' before its last character loses that '*' as junk. */
  lemma JunkLosesStar(u: Utf8, c: Conn, s: string, n: nat) returns (s': string)
    requires AsciiExact(u) && Ascii(s) && c.buffer == u.encode(s) && n + 1 < |s| && IsControl(s[0]) && s[n] == '*'
    requires forall i | 0 <= i < n :: IsBlank(s[i])
    ensures Ascii(s') && Passed(u, c).buffer == u.encode(s')
    ensures Starred(Passed(u, c).delivered) == Starred(c.delivered) && Stars(s') < Stars(s)
  {
    hide Stars, Starred, Parse, AsciiExact, IsTextProtocol, TextPass, BinaryPass;
    var j := JunkPass(u, c, s, n + 1);
    TextStart(u, s);
    AsciiFrom(s, j);
    hide Ascii, IsBlank, IsControl;
    StarsConcat(s[..j], s[j..]);
    StarsNone(s[..j]);
    assert s == s[..j] + s[j..] && s[..j][n] == '*';
    NoTextInBinaries(Parse(c.buffer).packets);
    StarredConcat(c.delivered, Binaries(Parse(c.buffer).packets));
    EncodeNothing(u);
    StarsNone("");
    s' := if Passed(u, c).buffer == [] then "" else s[j..];
  }

  /** In a prefix of a stream that holds a '*', only gap comes before the first one. */
  lemma GapBeforeStar(g: string, ps: seq<string>, gs: seq<string>, s: string)
    requires IsStream(g, ps, gs) && s <= g + Spaced(ps, gs) && s != "" && '*' in s[..|s| - 1]
    ensures |g| + 1 < |s| && s[|g|] == '*' && forall i | 0 <= i < |g| :: IsBlank(s[i])
  {
    var i :| 0 <= i < |s| - 1 && s[i] == '*';
    assert s[i] == (g + Spaced(ps, gs))[i];
    assert forall k | 0 <= k < |g| && k < |s| :: s[k] == g[k];
    assert ps != [];
    assert (g + Spaced(ps, gs))[|g|] == ps[0][0];
  }

  /** A delivery that is not fine costs a packet: it hands over what is none, or loses a '*'. */
  lemma StrayDelivery(u: Utf8, c: Conn, g: string, ps: seq<string>, gs: seq<string>, s: string, cut: Cut)
      returns (s': string)
    requires AsciiExact(u) && IsStream(g, ps, gs) && Ascii(s) && c.buffer == u.encode(s) && CutsAt(g, ps, gs, s, cut)
    requires s <= g + Spaced(ps, gs) && !Fine(s)
    ensures s != ""
    ensures IsControl(s[0]) ==>
              && Ascii(s') && Passed(u, c).buffer == u.encode(s')
              && Starred(Passed(u, c).delivered) == Starred(c.delivered) && Stars(s') < Stars(s)
    ensures !IsControl(s[0]) ==>
              Passed(u, c).delivered == c.delivered + [Text(cut.t)] && '#' !in cut.t
  {
    CutHashes(g, ps, gs, s, cut);
    CutFits(g, ps, gs, s, cut);
    EmptyIsFine();
    if IsControl(s[0]) {
      GapBeforeStar(g, ps, gs, s);
      hide CutsAt, IsStream;
      s' := JunkLosesStar(u, c, s, |g|);
    } else {
      TailIsAscii(cut.t);
      hide IsStream, Trim, AfterLastFeed;
      WaitingDelivery(u, c, cut.h, cut.t);
      s' := "";
    }
  }

  lemma EmptyIsFine()
    ensures Fine("")
  {
  }

  lemma {:induction false} StrayCutsDoNot(
      u: Utf8, c: Conn, b: string, chunks: seq<string>, g: string, ps: seq<string>, gs: seq<string>)
    requires AsciiExact(u) && Holds(u, c, b, chunks, g, ps, gs) && !CutsAreFine(b, chunks)
    ensures ReceivedAll(u, c, Encoded(u, chunks)).delivered != c.delivered + Texts(ps)
    decreases |chunks|
  {
    hide AsciiExact, Holds, Received, Fine, Kept, ReceivedAll;
    NextChunk(u, c, chunks);
    var s := b + chunks[0];
    if Fine(s) {
      var k, g' := FineNext(u, c, b, chunks, g, ps, gs);
      var c' := Received(u, c, u.encode(chunks[0]));
      StrayCutsDoNot(u, c', Kept(s), chunks[1..], g', ps[k..], gs[k..]);
      TextsConcat(c.delivered, ps, k);
    } else {
      StrayNext(u, c, b, chunks, g, ps, gs);
    }
  }

  lemma StrayNext(u: Utf8, c: Conn, b: string, chunks: seq<string>, g: string, ps: seq<string>, gs: seq<string>)
    requires AsciiExact(u) && Holds(u, c, b, chunks, g, ps, gs) && chunks != [] && !Fine(b + chunks[0])
    ensures ReceivedAll(u, c, Encoded(u, chunks)).delivered != c.delivered + Texts(ps)
  {
    var s := b + chunks[0];
    var cut := NextDelivery(u, c, b, chunks, g, ps, gs);
    var c' := Received(u, c, u.encode(chunks[0]));
    NextChunk(u, c, chunks);
    StreamParts(b, chunks, g, ps, gs);
    hide Fine, CutsAt, Received, AsciiExact, Passed, ReceivedAll, Stars, Starred;
    var s' := StrayDelivery(u, Conn(u.encode(s), c.delivered), g, ps, gs, s, cut);
    if IsControl(s[0]) {
      JoinIsAscii(chunks);
      hide Ascii, IsStream;
      var rest := Join(chunks[1..]);
      RunUses(u, c', s', chunks[1..]);
      StarsConcat(s', rest);
      StarsConcat(s, rest);
      StreamStars(g, ps, gs);
      PacketsHaveStars(g, ps, gs);
      StarredConcat(c.delivered, Texts(ps));
    } else {
      DeliveriesOnlyGrow(u, c', Encoded(u, chunks[1..]));
      NotThatPacket(c.delivered, cut.t, g, ps, gs);
    }
  }

  lemma {:induction false} DeliveriesOnlyGrow(u: Utf8, c: Conn, chunks: seq<Bytes>)
    ensures c.delivered <= ReceivedAll(u, c, chunks).delivered
    decreases |chunks|
  {
    hide HqMatches, SplitLines, Trim, Parse;
    if chunks != [] {
      DeliveriesOnlyGrow(u, Received(u, c, chunks[0]), chunks[1..]);
    }
  }

  lemma NotThatPacket(before: seq<Delivery>, t: string, g: string, ps: seq<string>, gs: seq<string>)
    requires IsStream(g, ps, gs) && '#' !in t
    ensures !(before + [Text(t)] <= before + Texts(ps))
  {
    var n := |before|;
    assert (before + [Text(t)])[n] == Text(t);
    if ps != [] {
      assert ps[0][|ps[0]| - 1] == '#';
      assert (before + Texts(ps))[n] == Text(ps[0]);
    }
  }

  /**
    For every stream of HQ packets with blanks and line endings around them, and every split into chunks, exactly the
    original packets reach the handler, in order, if and only if every delivery finds something fine.
  */
  lemma SpacedHqExactly(u: Utf8, chunks: seq<string>, g: string, ps: seq<string>, gs: seq<string>)
    requires AsciiExact(u) && IsStream(g, ps, gs) && Join(chunks) == g + Spaced(ps, gs)
    ensures ReceivedAll(u, Conn([], []), Encoded(u, chunks)).delivered == Texts(ps) <==> CutsAreFine("", chunks)
  {
    EncodeNothing(u);
    assert "" + Join(chunks) == Join(chunks);
    var none: seq<Delivery> := [];
    assert none + Texts(ps) == Texts(ps);
    assert Holds(u, Conn([], none), "", chunks, g, ps, gs);
    hide Holds, IsStream, AsciiExact;
    if CutsAreFine("", chunks) {
      FineCutsDeliver(u, Conn([], none), "", chunks, g, ps, gs);
    } else {
      StrayCutsDoNot(u, Conn([], none), "", chunks, g, ps, gs);
    }
  }
}
