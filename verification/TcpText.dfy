/**
  One delivery of the HQ text protocol: packets `*...#` with blanks or line endings behind them, cut anywhere. A tail
  without '#' that is longer than 20 characters, or ends in ';', is handed over as if it were a packet; and a buffer
  that begins with a line ending is taken for binary junk.
*/
module TcpText {
  import opened Gt06
  import opened Gt06Theorems
  import opened TcpStream

  predicate IsHqChar(c: char) {
    '!' <= c <= '~' && c != '*' && c != '#'
  }

  /** `*...#` with printable characters and no inner '*', '#' or blank. */
  ghost predicate IsHqPacket(p: string) {
    2 <= |p| && p[0] == '*' && p[|p| - 1] == '#' && forall i | 0 < i < |p| - 1 :: IsHqChar(p[i])
  }

  predicate IsControl(c: char) {
    '\t' <= c <= '\r'
  }

  predicate IsBlank(c: char) {
    c == ' ' || IsControl(c)
  }

  /** What may stand between packets. */
  ghost predicate Gap(g: string) {
    forall i | 0 <= i < |g| :: IsBlank(g[i])
  }

  ghost predicate Ascii(s: string) {
    forall i | 0 <= i < |s| :: IsBlank(s[i]) || '!' <= s[i] <= '~'
  }

  /** On such characters UTF-8 is one byte each, the character's own code. */
  ghost predicate AsciiExact(u: Utf8) {
    forall s {:trigger u.encode(s)} | Ascii(s) ::
      && |u.encode(s)| == |s| && u.decode(u.encode(s)) == s
      && forall i | 0 <= i < |s| :: u.encode(s)[i] as int == s[i] as int
  }

  /** The start of a packet, without its '#'. */
  ghost predicate IsTail(t: string) {
    (t != "" ==> t[0] == '*') && forall i | 0 < i < |t| :: IsHqChar(t[i])
  }

  /** Packets ps, each with the gap gs behind it. */
  function Spaced(ps: seq<string>, gs: seq<string>): string
    requires |ps| == |gs|
  {
    if ps == [] then "" else ps[0] + gs[0] + Spaced(ps[1..], gs[1..])
  }

  /** After gap g come these packets and gaps; a gap and the packet behind it fit the buffer of 10240 bytes. */
  ghost predicate IsStream(g: string, ps: seq<string>, gs: seq<string>)
    decreases |ps|
  {
    && |ps| == |gs| && Gap(g) && |g| <= 10240
    && (ps != [] ==> IsHqPacket(ps[0]) && |g| + |ps[0]| <= 10240 && IsStream(gs[0], ps[1..], gs[1..]))
  }

  lemma {:induction false} StreamFrom(g: string, ps: seq<string>, gs: seq<string>, h: string)
    requires IsStream(g, ps, gs) && Gap(h) && |h| <= |g|
    ensures IsStream(h, ps, gs)
  {
  }

  // Encoding.

  lemma EncodeConcat(u: Utf8, s: string, t: string)
    requires AsciiExact(u) && Ascii(s) && Ascii(t)
    ensures u.encode(s) + u.encode(t) == u.encode(s + t)
  {
    var a, b := u.encode(s) + u.encode(t), u.encode(s + t);
    forall i | 0 <= i < |a| ensures a[i] == b[i] {
      SameByte(a[i], b[i]);
    }
  }

  lemma EncodeFrom(u: Utf8, s: string, n: nat)
    requires AsciiExact(u) && Ascii(s) && n <= |s|
    ensures u.encode(s)[n..] == u.encode(s[n..]) && |u.encode(s)| == |s|
  {
    var a, b := u.encode(s)[n..], u.encode(s[n..]);
    forall i | 0 <= i < |a| ensures a[i] == b[i] {
      SameByte(a[i], b[i]);
    }
  }

  /** A buffer of printable start that is no frame is text; one that begins with a line ending is not. */
  lemma TextStart(u: Utf8, s: string)
    requires AsciiExact(u) && Ascii(s) && s != ""
    ensures s[0] == '*' || s[0] == ' ' ==> (IsTextProtocol(u.encode(s)) <==> |s| >= 2)
    ensures IsControl(s[0]) ==> !IsTextProtocol(u.encode(s))
  {
    var b := u.encode(s);
    assert |b| == |s| && b[0] as int == s[0] as int;
  }

  // Finding packets.

  lemma {:induction false} IndexOfFirst(s: string, c: char, i: nat)
    requires i < |s| && s[i] == c && forall k | 0 <= k < i :: s[k] != c
    ensures IndexOf(s, c) == i
    decreases i
  {
    if i > 0 {
      IndexOfFirst(s[1..], c, i - 1);
    }
  }

  lemma IndexOfNone(s: string, c: char)
    requires c !in s
    ensures IndexOf(s, c) == |s|
  {
  }

  /** Behind text without '*', the first packet is found. */
  lemma MatchPacket(g: string, p: string, rest: string)
    requires '*' !in g && IsHqPacket(p)
    ensures HqMatches(g + p + rest) == [p] + HqMatches(rest)
  {
    var s := g + p + rest;
    IndexOfFirst(s, '*', |g|);
    assert s[|g|..] == p + rest;
    IndexOfFirst(p + rest, '#', |p| - 1);
    assert s[|g|..|g| + |p|] == p && s[|g| + |p|..] == rest;
  }

  lemma MatchNone(t: string)
    requires '#' !in t
    ensures HqMatches(t) == []
  {
    var i := IndexOf(t, '*');
    var u := t[i..];
    assert forall k | 0 <= k < |u| :: u[k] == t[i + k];
    IndexOfNone(u, '#');
  }

  /** What comes before and ends in '#' does not matter. */
  lemma {:induction false} AfterLastHashAppend(s: string, t: string)
    requires s != "" && s[|s| - 1] == '#'
    ensures AfterLastHash(s + t) == AfterLastHash(t)
    decreases |s|
  {
    var st := s + t;
    assert st[1..] == s[1..] + t;
    if |s| == 1 {
      assert st[1..] == t;
    } else {
      AfterLastHashAppend(s[1..], t);
      assert st[1..][|s| - 2] == '#';
    }
  }

  // Trimming.

  lemma {:induction false} TrimStartGap(h: string, t: string)
    requires Gap(h) && IsTail(t)
    ensures TrimStart(h + t) == t
    decreases |h|
  {
    if h != "" {
      assert (h + t)[1..] == h[1..] + t;
      TrimStartGap(h[1..], t);
    } else {
      assert h + t == t;
    }
  }

  lemma TrimTail(h: string, t: string)
    requires Gap(h) && IsTail(t)
    ensures Trim(h + t) == t
  {
    TrimStartGap(h, t);
    if t != "" {
      assert t[|t| - 1] == '*' || IsHqChar(t[|t| - 1]);
    }
  }

  lemma TrimPacket(p: string)
    requires IsHqPacket(p)
    ensures Trim(p) == p
  {
  }

  lemma TailIsAscii(t: string)
    requires IsTail(t)
    ensures Ascii(t) && '#' !in t && '\n' !in t
  {
    assert forall i | 0 <= i < |t| :: t[i] == '*' || IsHqChar(t[i]);
  }

  lemma GapIsAscii(g: string)
    requires Gap(g)
    ensures Ascii(g) && '#' !in g && '*' !in g
  {
  }

  lemma {:induction false} SpacedIsAscii(g: string, ps: seq<string>, gs: seq<string>)
    requires IsStream(g, ps, gs)
    ensures Ascii(g + Spaced(ps, gs))
    decreases |ps|
  {
    if ps != [] {
      var p := ps[0];
      SpacedIsAscii(gs[0], ps[1..], gs[1..]);
      PacketIsAscii(p);
      hide IsHqPacket, IsStream, Gap;
      assert g + Spaced(ps, gs) == g + p + (gs[0] + Spaced(ps[1..], gs[1..]));
    }
  }

  lemma PacketIsAscii(p: string)
    requires IsHqPacket(p)
    ensures Ascii(p)
  {
  }

  lemma GapOfStream(g: string, ps: seq<string>, gs: seq<string>)
    requires IsStream(g, ps, gs)
    ensures Gap(g)
  {
  }

  lemma HeldTail(g: string, h: string, t: string)
    requires Gap(g) && h <= g && IsTail(t)
    ensures Gap(h) && Ascii(h + t) && '#' !in h + t
  {
    TailIsAscii(t);
    GapIsAscii(g);
  }

  // A prefix of a stream.

  /**
    s, the start of the stream g + Spaced(ps, gs): it holds the first k packets, the last of them at the end of `done`,
    and then the start h of the gap that comes next and, when all of that gap is there, the start t of a packet.
  */
  datatype Cut = Cut(k: nat, done: string, h: string, gap: string, t: string)

  ghost predicate CutsAt(g: string, ps: seq<string>, gs: seq<string>, s: string, c: Cut) {
    && |ps| == |gs| && c.k <= |ps| && IsStream(c.gap, ps[c.k..], gs[c.k..])
    && s == c.done + c.h + c.t && g + Spaced(ps, gs) == c.done + c.gap + Spaced(ps[c.k..], gs[c.k..])
    && c.h <= c.gap && IsTail(c.t) && (c.t != "" ==> c.h == c.gap && c.k < |ps| && c.t <= ps[c.k] && c.t != ps[c.k])
    && HqMatches(s) == ps[..c.k]
    && (if c.k == 0 then c.done == "" && c.gap == g else c.done != "" && c.done[|c.done| - 1] == '#')
  }

  lemma TailOfPacket(p: string, t: string)
    requires IsHqPacket(p) && t <= p && t != p
    ensures IsTail(t)
  {
    assert forall i | 0 <= i < |t| :: t[i] == p[i];
  }

  lemma CutInGap(g: string, ps: seq<string>, gs: seq<string>, s: string)
    requires IsStream(g, ps, gs) && s <= g
    ensures CutsAt(g, ps, gs, s, Cut(0, "", s, g, ""))
  {
    GapIsAscii(g);
    MatchNone(s);
    hide IsStream;
    assert ps[0..] == ps && gs[0..] == gs && ps[..0] == [];
  }

  lemma CutInPacket(g: string, ps: seq<string>, gs: seq<string>, t: string)
    requires IsStream(g, ps, gs) && ps != [] && t <= ps[0] && t != ps[0]
    ensures CutsAt(g, ps, gs, g + t, Cut(0, "", g, g, t))
  {
    hide HqMatches;
    TailOfPacket(ps[0], t);
    GapOfStream(g, ps, gs);
    hide IsStream, IsHqPacket;
    HeldTail(g, g, t);
    hide Gap, IsTail, Ascii;
    MatchNone(g + t);
    assert ps[0..] == ps && gs[0..] == gs && ps[..0] == [];
  }

  lemma Regroup(before: string, done: string, h: string, t: string, gap: string, rest: string)
    ensures before + (done + h + t) == before + done + h + t
    ensures before + (done + gap + rest) == before + done + gap + rest
  {
  }

  lemma StreamCons(g: string, ps: seq<string>, gs: seq<string>, k: nat)
    requires |ps| == |gs| && ps != [] && k < |ps|
    ensures g + Spaced(ps, gs) == g + ps[0] + (gs[0] + Spaced(ps[1..], gs[1..]))
    ensures ps[1..][k..] == ps[k + 1..] && gs[1..][k..] == gs[k + 1..] && [ps[0]] + ps[1..][..k] == ps[..k + 1]
  {
    var rest := Spaced(ps[1..], gs[1..]);
    assert Spaced(ps, gs) == ps[0] + gs[0] + rest;
    hide Spaced;
    FourParts(g, ps[0], gs[0], rest);
  }

  lemma FourParts(a: string, b: string, c: string, d: string)
    ensures a + (b + c + d) == a + b + (c + d)
  {
  }

  lemma CutLater(g: string, ps: seq<string>, gs: seq<string>, s: string, c: Cut)
    requires IsStream(g, ps, gs) && ps != [] && CutsAt(gs[0], ps[1..], gs[1..], s, c)
    ensures CutsAt(g, ps, gs, g + ps[0] + s, Cut(c.k + 1, g + ps[0] + c.done, c.h, c.gap, c.t))
  {
    hide HqMatches, IsTail, Spaced;
    var p := ps[0];
    StreamStarts(g, ps, gs);
    MatchPacket(g, p, s);
    StreamCons(g, ps, gs, c.k);
    Regroup(g + p, c.done, c.h, c.t, c.gap, Spaced(ps[c.k + 1..], gs[c.k + 1..]));
    hide IsStream, IsHqPacket;
  }

  lemma StreamStarts(g: string, ps: seq<string>, gs: seq<string>)
    requires IsStream(g, ps, gs) && ps != []
    ensures '*' !in g && IsHqPacket(ps[0]) && ps[0] != "" && (g + ps[0])[|g + ps[0]| - 1] == '#'
  {
    GapIsAscii(g);
  }

  /** Every prefix of a stream is cut somewhere. */
  lemma {:induction false} CutPrefix(g: string, ps: seq<string>, gs: seq<string>, s: string) returns (c: Cut)
    requires IsStream(g, ps, gs) && s <= g + Spaced(ps, gs)
    ensures CutsAt(g, ps, gs, s, c)
    decreases |ps|
  {
    hide CutsAt;
    if |s| <= |g| {
      CutInGap(g, ps, gs, s);
      return Cut(0, "", s, g, "");
    }
    assert ps != [];
    var p := ps[0];
    var s1 := s[|g|..];
    assert s == g + s1 && s1 <= p + (gs[0] + Spaced(ps[1..], gs[1..]));
    if |s1| < |p| {
      assert s1 == p[..|s1|];
      CutInPacket(g, ps, gs, s1);
      return Cut(0, "", g, g, s1);
    }
    var s2 := s1[|p|..];
    assert s1 == p + s2 && s == g + p + s2;
    var d := CutPrefix(gs[0], ps[1..], gs[1..], s2);
    CutLater(g, ps, gs, s2, d);
    c := Cut(d.k + 1, g + p + d.done, d.h, d.gap, d.t);
  }

  lemma HashesOf(done: string, x: string)
    requires '#' !in x && (done == "" || done[|done| - 1] == '#')
    ensures '#' in done + x <==> done != ""
    ensures AfterLastHash(done + x) == x
  {
    if done != "" {
      AfterLastHashAppend(done, x);
      assert (done + x)[|done| - 1] == '#';
    } else {
      assert done + x == x;
    }
  }

  /** Where the '#' are, and what follows the last of them. */
  lemma CutHashes(g: string, ps: seq<string>, gs: seq<string>, s: string, c: Cut)
    requires CutsAt(g, ps, gs, s, c)
    ensures '#' in s <==> c.k > 0
    ensures AfterLastHash(s) == c.h + c.t && Gap(c.h) && '#' !in c.h + c.t
  {
    hide HqMatches, Spaced, AfterLastHash;
    GapOfStream(c.gap, ps[c.k..], gs[c.k..]);
    hide IsStream;
    HeldTail(c.gap, c.h, c.t);
    hide IsTail, Gap, Ascii;
    assert s == c.done + (c.h + c.t);
    HashesOf(c.done, c.h + c.t);
  }

  // One pass over the buffer.

  function Texts(ps: seq<string>): seq<Delivery> {
    seq(|ps|, i requires 0 <= i < |ps| => Text(ps[i]))
  }

  lemma {:induction false} TrimmedPackets(ps: seq<string>)
    requires forall i | 0 <= i < |ps| :: IsHqPacket(ps[i])
    ensures Trimmed(ps) == Texts(ps)
    decreases |ps|
  {
    if ps != [] {
      var front, p := ps[..|ps| - 1], ps[|ps| - 1];
      TrimPacket(p);
      hide Trim, IsHqPacket;
      TrimmedPackets(front);
      assert Texts(ps) == Texts(front) + [Text(p)];
    }
  }

  lemma {:induction false} PacketsOfStream(g: string, ps: seq<string>, gs: seq<string>, k: nat)
    requires IsStream(g, ps, gs) && k < |ps|
    ensures IsHqPacket(ps[k])
    decreases k
  {
    if k > 0 {
      PacketsOfStream(gs[0], ps[1..], gs[1..], k - 1);
    }
  }

  /** The tail is short enough, and does not end in ';', so that the code waits for the rest of it. */
  predicate Patient(s: string) {
    |s| <= 20 && (s == "" || s[|s| - 1] != ';')
  }

  /**
    A buffer of the text protocol with k > 0 whole packets: they are handed over in order, the gaps between them are
    not, and the start of the next packet is kept without the gap in front of it.
  */
  lemma PassWithPackets(u: Utf8, c: Conn, g: string, ps: seq<string>, gs: seq<string>, s: string, cut: Cut)
    requires AsciiExact(u) && IsStream(g, ps, gs) && Ascii(s) && c.buffer == u.encode(s) && CutsAt(g, ps, gs, s, cut)
    requires cut.k > 0
    ensures TextPass(u, c) == Conn(u.encode(cut.t), c.delivered + Texts(ps[..cut.k]))
  {
    CutHashes(g, ps, gs, s, cut);
    TrimTail(cut.h, cut.t);
    forall i | 0 <= i < cut.k ensures IsHqPacket(ps[..cut.k][i]) {
      PacketsOfStream(g, ps, gs, i);
    }
    TrimmedPackets(ps[..cut.k]);
    EncodeNothing(u);
    hide HqMatches, Trim, AfterLastHash, SplitLines, IsStream, IsHqPacket, Gap;
  }

  lemma EncodeNothing(u: Utf8)
    requires AsciiExact(u)
    ensures u.encode("") == []
  {
    assert Ascii("");
    assert |u.encode("")| == 0;
  }

  /** The part of s behind the last line feed, all of it if there is none. */
  function AfterLastFeed(s: string): (t: string)
    ensures |t| <= |s| && t == s[|s| - |t|..] && '\n' !in t
    ensures '\n' !in s ==> t == s
    ensures '\n' in s ==> |t| < |s| && s[|s| - |t| - 1] == '\n'
  {
    if '\n' !in s then s
    else
      assert s == [s[0]] + s[1..];
      AfterLastFeed(s[1..])
  }

  lemma OneLine(s: string)
    requires '\n' !in s
    ensures SplitLines(s) == [s]
  {
    IndexOfNone(s, '\n');
  }

  lemma BlankLineEnd(g: string)
    requires Gap(g)
    ensures Trim(g) == ""
  {
    TrimTail(g, "");
    assert g + "" == g;
  }

  lemma FirstFeed(h: string, t: string) returns (i: nat)
    requires Gap(h) && IsTail(t) && '\n' in h + t
    ensures i < |h| && h[i] == '\n' && '\n' !in h[..i] && Gap(h[..i]) && Gap(h[i + 1..])
    ensures IndexOf(h + t, '\n') == i && (h + t)[..i] == h[..i] && (h + t)[i + 1..] == h[i + 1..] + t
  {
    TailIsAscii(t);
    i := IndexOf(h + t, '\n');
    assert (h + t)[i] == '\n';
    assert i < |h|;
    assert (h + t)[..i] == h[..i] && (h + t)[i + 1..] == h[i + 1..] + t;
  }

  lemma FirstLine(s: string, i: nat)
    requires i < |s| && IndexOf(s, '\n') == i
    ensures SplitLines(s) == [if i > 0 && s[i - 1] == '\r' then s[..i - 1] else s[..i]] + SplitLines(s[i + 1..])
  {
  }

  lemma ShorterGap(h: string, i: nat)
    requires Gap(h) && i <= |h|
    ensures Gap(h[..i])
  {
  }

  /** All lines but the last are blank. */
  ghost predicate BlankButLast(lines: seq<string>) {
    lines != [] && forall i | 0 <= i < |lines| - 1 :: Gap(lines[i])
  }

  lemma BlankFirst(line: string, lines: seq<string>)
    requires Gap(line) && BlankButLast(lines)
    ensures BlankButLast([line] + lines) && |[line] + lines| > 1
    ensures ([line] + lines)[|[line] + lines| - 1] == lines[|lines| - 1]
  {
    hide Gap;
    var all := [line] + lines;
    assert forall i | 0 < i < |all| :: all[i] == lines[i - 1];
  }

  /** A gap and a tail split into blank lines and the last line. */
  lemma {:induction false} BlankLines(h: string, t: string)
    requires Gap(h) && IsTail(t)
    ensures var lines := SplitLines(h + t);
            && BlankButLast(lines) && lines[|lines| - 1] == AfterLastFeed(h + t)
            && (|lines| > 1 <==> '\n' in h + t)
    decreases |h|
  {
    hide SplitLines, AfterLastFeed, IsTail, Gap, IndexOf, BlankButLast;
    var s := h + t;
    if '\n' in s {
      var i := FirstFeed(h, t);
      FirstLine(s, i);
      var line := if i > 0 && s[i - 1] == '\r' then s[..i - 1] else s[..i];
      if i > 0 {
        ShorterGap(h[..i], i - 1);
        assert h[..i][..i - 1] == s[..i - 1];
      }
      BlankLines(h[i + 1..], t);
      FeedAtEnd(s, i);
      BlankFirst(line, SplitLines(s[i + 1..]));
    } else {
      OneLine(s);
      LastFeedNone(s);
      assert BlankButLast([s]) by { OneIsBlankButLast(s); }
    }
  }

  lemma OneIsBlankButLast(line: string)
    ensures BlankButLast([line])
  {
  }

  lemma LastFeedNone(s: string)
    requires '\n' !in s
    ensures AfterLastFeed(s) == s
  {
  }

  lemma {:induction false} FeedAtEnd(s: string, i: nat)
    requires i < |s| && s[i] == '\n' && '\n' !in s[..i]
    ensures AfterLastFeed(s) == AfterLastFeed(s[i + 1..])
    decreases i
  {
    if i > 0 {
      assert s[1..][i - 1] == '\n' && s[1..][..i - 1] == s[..i][1..] && s[1..][i..] == s[i + 1..];
      FeedAtEnd(s[1..], i - 1);
    }
  }

  lemma {:induction false} NoTextInBlanks(lines: seq<string>)
    requires forall i | 0 <= i < |lines| :: Gap(lines[i])
    ensures NonBlank(lines) == []
    decreases |lines|
  {
    if lines != [] {
      BlankLineEnd(lines[|lines| - 1]);
      hide Trim, Gap;
      NoTextInBlanks(lines[..|lines| - 1]);
    }
  }

  /** A buffer of the text protocol that holds no whole packet. */
  lemma PassWithoutPackets(u: Utf8, c: Conn, h: string, t: string)
    requires AsciiExact(u) && Gap(h) && IsTail(t) && c.buffer == u.encode(h + t)
    ensures TextPass(u, c) ==
            if '\n' in h + t then Conn(u.encode(AfterLastFeed(h + t)), c.delivered)
            else if Patient(t) then c else Conn([], c.delivered + [Text(t)])
  {
    hide HqMatches, Trim, AfterLastHash, SplitLines, AfterLastFeed, IsTail, NonBlank, Trimmed;
    HeldTail(h, h, t);
    assert u.decode(c.buffer) == h + t;
    hide Gap, AsciiExact, Ascii;
    MatchNone(h + t);
    TrimTail(h, t);
    BlankLines(h, t);
    var lines := SplitLines(h + t);
    NoTextInBlanks(lines[..|lines| - 1]);
    assert c.delivered + [] == c.delivered;
  }
}
