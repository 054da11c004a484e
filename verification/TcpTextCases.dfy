/** Special cases of text reassembly: whole packets, packets without gaps, and lines of other text. */
module TcpTextCases {
  import opened Gt06
  import opened TcpStream
  import opened TcpText
  import opened TcpTextTheorem

  // Deliveries that are whole packets.

  function Deliveries(ps: seq<string>, gs: seq<string>): (chunks: seq<string>)
    requires |ps| == |gs|
    ensures |chunks| == |ps|
  {
    seq(|ps|, i requires 0 <= i < |ps| => ps[i] + gs[i])
  }

  lemma {:induction false} JoinDeliveries(ps: seq<string>, gs: seq<string>)
    requires |ps| == |gs|
    ensures Join(Deliveries(ps, gs)) == Spaced(ps, gs)
    decreases |ps|
  {
    if ps != [] {
      JoinDeliveries(ps[1..], gs[1..]);
      assert Deliveries(ps, gs)[1..] == Deliveries(ps[1..], gs[1..]);
    }
  }

  lemma WholePacketIsFine(p: string, g: string)
    requires IsHqPacket(p) && Gap(g)
    ensures Fine(p + g) && Kept(p + g) == ""
  {
    GapIsAscii(g);
    assert (p + g)[|p| - 1] == '#' && (p + g)[0] == '*';
    AfterLastHashAppend(p, g);
    BlankLineEnd(g);
    hide Trim, AfterLastHash;
  }

  lemma StreamHead(g: string, ps: seq<string>, gs: seq<string>)
    requires IsStream(g, ps, gs) && ps != []
    ensures IsHqPacket(ps[0]) && Gap(gs[0]) && IsStream(gs[0], ps[1..], gs[1..])
  {
  }

  lemma {:induction false} WholePacketsAreFine(g: string, ps: seq<string>, gs: seq<string>)
    requires IsStream(g, ps, gs)
    ensures CutsAreFine("", Deliveries(ps, gs)) && Rest("", Deliveries(ps, gs)) == ""
    decreases |ps|
  {
    if ps != [] {
      StreamHead(g, ps, gs);
      hide Fine, Kept, IsStream, IsHqPacket, Gap;
      WholePacketIsFine(ps[0], gs[0]);
      WholePacketsAreFine(gs[0], ps[1..], gs[1..]);
      assert Deliveries(ps, gs)[1..] == Deliveries(ps[1..], gs[1..]);
      assert "" + Deliveries(ps, gs)[0] == ps[0] + gs[0];
    }
  }

  /** Packets that come one by one, each with its line ending or blanks: all arrive, and nothing is kept. */
  lemma WholePacketsArrive(u: Utf8, ps: seq<string>, gs: seq<string>)
    requires AsciiExact(u) && IsStream("", ps, gs)
    ensures ReceivedAll(u, Conn([], []), Encoded(u, Deliveries(ps, gs))) == Conn([], Texts(ps))
  {
    EncodeNothing(u);
    JoinDeliveries(ps, gs);
    WholePacketsAreFine("", ps, gs);
    assert "" + Join(Deliveries(ps, gs)) == "" + Spaced(ps, gs);
    var none: seq<Delivery> := [];
    assert none + Texts(ps) == Texts(ps);
    assert Holds(u, Conn([], none), "", Deliveries(ps, gs), "", ps, gs);
    FineCutsDeliver(u, Conn([], none), "", Deliveries(ps, gs), "", ps, gs);
  }

  lemma TwoPackets(p: string, q: string, g: string)
    requires IsHqPacket(p) && IsHqPacket(q) && |p| <= 10240 && Gap(g) && |g| + |q| <= 10240
    ensures IsStream("", [p, q], [g, ""]) && "" + Spaced([p, q], [g, ""]) == p + g + q
  {
    assert IsStream("", [], []);
    assert [q][1..] == [] && [""][1..] == [] && [p, q][1..] == [q] && [g, ""][1..] == [""];
    assert IsStream(g, [q], [""]);
    assert Spaced([q], [""]) == q + "" + Spaced([], []);
    hide IsHqPacket, Gap;
  }

  lemma JoinTwo(x: string, y: string)
    ensures Join([x, y]) == x + y
  {
    assert [x, y][1..] == [y] && [y][1..] == [];
    assert Join([y]) == y + Join([]);
  }

  /** The second of two deliveries is not fine, the first having left nothing. */
  lemma SecondIsStray(x: string, y: string)
    requires Kept(x) == "" && !Fine(y)
    ensures !CutsAreFine("", [x, y])
  {
    hide Fine, Kept;
    assert [x, y][1..] == [y] && "" + x == x && "" + y == y;
  }

  /** A line ending that is cut in two costs the packet behind it. */
  lemma CutLineEndingLosesPacket(u: Utf8, p: string, q: string)
    requires AsciiExact(u) && IsHqPacket(p) && IsHqPacket(q) && |p| <= 10000 && |q| <= 10000
    ensures ReceivedAll(u, Conn([], []), Encoded(u, [p + "\r", "\n" + q])).delivered != Texts([p, q])
  {
    hide ReceivedAll, IsStream, Kept, CutsAreFine, Spaced, AsciiExact, Join, Encoded;
    TwoPackets(p, q, "\r\n");
    WholePacketIsFine(p, "\r");
    var y := "\n" + q;
    assert y[..|y| - 1][1] == '*';
    SecondIsStray(p + "\r", y);
    hide Fine, IsHqPacket;
    JoinTwo(p + "\r", y);
    assert p + "\r" + y == p + "\r\n" + q;
    SpacedHqExactly(u, [p + "\r", y], "", [p, q], ["\r\n", ""]);
  }

  // Streams without gaps.

  ghost predicate Plain(s: string) {
    forall i | 0 <= i < |s| :: '!' <= s[i] <= '~'
  }

  /** Every delivery completes a packet, or leaves at most 20 characters that do not end in ';'. */
  predicate CutsArePatient(b: string, chunks: seq<string>)
    decreases |chunks|
  {
    if chunks == [] then true
    else
      var s := b + chunks[0];
      ('#' in s || Patient(s)) && CutsArePatient(AfterLastHash(s), chunks[1..])
  }

  lemma PlainIsFine(s: string)
    requires Plain(s)
    ensures Fine(s) <==> '#' in s || Patient(s)
    ensures Kept(s) == AfterLastHash(s) && Plain(Kept(s))
  {
    hide AfterLastHash, AfterLastFeed, Trim, Plain, Patient, IsControl;
    PlainFacts(s);
    TrimPlain(s);
    TrimPlain(AfterLastHash(s));
    LastFeedNone(s);
  }

  lemma PlainFacts(s: string)
    requires Plain(s)
    ensures (s != "" ==> !IsControl(s[0])) && '\n' !in s && Plain(AfterLastHash(s))
    ensures '#' !in s ==> AfterLastHash(s) == s
  {
    hide AfterLastHash;
  }

  lemma TrimPlain(s: string)
    requires Plain(s)
    ensures Trim(s) == s
  {
  }

  lemma {:induction false} PlainCuts(b: string, chunks: seq<string>)
    requires Plain(b + Join(chunks))
    ensures CutsAreFine(b, chunks) <==> CutsArePatient(b, chunks)
    ensures Plain(Rest(b, chunks))
    decreases |chunks|
  {
    if chunks == [] {
      assert b + "" == b;
    } else {
      var s, rest := b + chunks[0], Join(chunks[1..]);
      assert s + rest == b + Join(chunks);
      PlainParts(s, rest);
      PlainIsFine(s);
      PlainConcat(Kept(s), rest);
      hide Fine, Kept, AfterLastHash, Plain, Patient;
      PlainCuts(Kept(s), chunks[1..]);
    }
  }

  lemma PlainParts(s: string, t: string)
    requires Plain(s + t)
    ensures Plain(s) && Plain(t)
  {
    assert forall i | 0 <= i < |s| :: s[i] == (s + t)[i];
    assert forall i | 0 <= i < |t| :: t[i] == (s + t)[|s| + i];
  }

  lemma PlainConcat(s: string, t: string)
    requires Plain(s) && Plain(t)
    ensures Plain(s + t)
  {
  }

  /** Packets of at most 10240 characters. */
  ghost predicate AllHq(ps: seq<string>) {
    forall i | 0 <= i < |ps| :: IsHqPacket(ps[i]) && |ps[i]| <= 10240
  }

  function NoGaps(n: nat): (gs: seq<string>)
    ensures |gs| == n && forall i | 0 <= i < n :: gs[i] == ""
  {
    seq(n, i => "")
  }

  lemma {:induction false} GaplessStream(ps: seq<string>)
    requires AllHq(ps)
    ensures IsStream("", ps, NoGaps(|ps|)) && Spaced(ps, NoGaps(|ps|)) == Join(ps) && Plain(Join(ps))
    decreases |ps|
  {
    if ps != [] {
      GaplessStream(ps[1..]);
      assert NoGaps(|ps|)[1..] == NoGaps(|ps| - 1);
      assert IsHqPacket(ps[0]);
      assert Plain(ps[0]);
      PlainConcat(ps[0], Join(ps[1..]));
      assert ps[0] + "" == ps[0];
      hide IsHqPacket, Plain;
    }
  }

  /**
    Without gaps: exactly the original packets reach the handler if and only if every delivery that completes no packet
    leaves at most 20 characters that do not end in ';'; and then nothing is left.
  */
  lemma HqExactly(u: Utf8, chunks: seq<string>, ps: seq<string>)
    requires AsciiExact(u) && AllHq(ps) && Join(chunks) == Join(ps)
    ensures ReceivedAll(u, Conn([], []), Encoded(u, chunks)).delivered == Texts(ps) <==> CutsArePatient("", chunks)
    ensures CutsArePatient("", chunks) ==> ReceivedAll(u, Conn([], []), Encoded(u, chunks)).buffer == []
  {
    GaplessStream(ps);
    var gs := NoGaps(|ps|);
    assert "" + Join(chunks) == Join(chunks) && "" + Spaced(ps, gs) == Join(ps);
    PlainCuts("", chunks);
    EncodeNothing(u);
    SpacedHqExactly(u, chunks, "", ps, gs);
    if CutsArePatient("", chunks) {
      var none: seq<Delivery> := [];
      assert Holds(u, Conn([], none), "", chunks, "", ps, gs);
      FineCutsDeliver(u, Conn([], none), "", chunks, "", ps, gs);
      PlainGap(Rest("", chunks));
    }
  }

  lemma PlainGap(s: string)
    ensures Plain(s) && Gap(s) ==> s == ""
  {
    assert s != "" && '!' <= s[0] ==> !IsBlank(s[0]);
    assert s != "" && !IsBlank(s[0]) ==> !Gap(s);
  }

  // Lines of other text.

  /** Text without '#' or line feed that begins and ends with a printable character. */
  ghost predicate IsLine(l: string) {
    && l != "" && Ascii(l) && '#' !in l && '\n' !in l && '!' <= l[0] <= '~' && '!' <= l[|l| - 1] <= '~'
  }

  predicate IsLineEnd(e: string) {
    e == "\n" || e == "\r\n"
  }

  /** Each line with its end. */
  function Lines(ls: seq<string>, ends: seq<string>): string
    requires |ls| == |ends|
  {
    if ls == [] then "" else ls[0] + ends[0] + Lines(ls[1..], ends[1..])
  }

  ghost predicate AreLines(ls: seq<string>, ends: seq<string>) {
    |ls| == |ends| && forall i | 0 <= i < |ls| :: IsLine(ls[i]) && IsLineEnd(ends[i])
  }

  lemma LineFound(l: string, e: string, rest: string)
    requires IsLine(l) && IsLineEnd(e)
    ensures SplitLines(l + e + rest) == [l] + SplitLines(rest)
  {
    var s, i := l + e + rest, |l| + |e| - 1;
    assert s[i] == '\n' && s[..i] == (l + e)[..i] && s[i + 1..] == rest;
    assert forall k | 0 <= k < i :: s[k] != '\n';
    IndexOfFirst(s, '\n', i);
    FirstLine(s, i);
    hide SplitLines, IndexOf;
    assert e == "\r\n" ==> s[i - 1] == '\r' && s[..i - 1] == l;
    assert e == "\n" ==> s[i - 1] == l[|l| - 1] && s[..i] == l;
  }

  lemma {:induction false} SplitIntoLines(ls: seq<string>, ends: seq<string>, t: string)
    requires AreLines(ls, ends) && '\n' !in t
    ensures SplitLines(Lines(ls, ends) + t) == ls + [t]
    decreases |ls|
  {
    hide SplitLines, IsLine;
    if ls == [] {
      assert Lines(ls, ends) + t == t;
      OneLine(t);
    } else {
      var rest := Lines(ls[1..], ends[1..]) + t;
      assert Lines(ls, ends) + t == ls[0] + ends[0] + rest;
      LineFound(ls[0], ends[0], rest);
      SplitIntoLines(ls[1..], ends[1..], t);
    }
  }

  lemma TrimLine(l: string)
    requires IsLine(l)
    ensures Trim(l) == l
  {
  }

  lemma {:induction false} NonBlankLines(ls: seq<string>)
    requires forall i | 0 <= i < |ls| :: IsLine(ls[i])
    ensures NonBlank(ls) == Texts(ls)
    decreases |ls|
  {
    if ls != [] {
      var front, l := ls[..|ls| - 1], ls[|ls| - 1];
      TrimLine(l);
      assert l != "";
      hide Trim, IsLine;
      NonBlankLines(front);
      assert Texts(ls) == Texts(front) + [Text(l)];
    }
  }

  lemma {:induction false} LinesHaveNoHash(ls: seq<string>, ends: seq<string>, t: string)
    requires AreLines(ls, ends) && Ascii(t) && '#' !in t
    ensures Ascii(Lines(ls, ends) + t) && '#' !in Lines(ls, ends) + t
    decreases |ls|
  {
    if ls != [] {
      var rest := Lines(ls[1..], ends[1..]) + t;
      LinesHaveNoHash(ls[1..], ends[1..], t);
      LineHasNoHash(ls[0], ends[0], rest);
      assert Lines(ls, ends) + t == ls[0] + ends[0] + rest;
    } else {
      assert Lines(ls, ends) + t == t;
    }
  }

  lemma LineHasNoHash(l: string, e: string, rest: string)
    requires IsLine(l) && IsLineEnd(e) && Ascii(rest) && '#' !in rest
    ensures Ascii(l + e + rest) && '#' !in l + e + rest
  {
  }

  lemma StartIsText(u: Utf8, s: string)
    requires AsciiExact(u) && Ascii(s) && |s| >= 2 && '!' <= s[0] <= '~' && s[..2] != "xx" && s[..2] != "yy"
    ensures IsTextProtocol(u.encode(s))
  {
    var b := u.encode(s);
    assert b[0] as int == s[0] as int && b[1] as int == s[1] as int;
  }

  /**
    Lines that hold no '#': each is handed over without its end, in order, and what follows the last line feed is kept
    as it is, however short or long.
  */
  lemma LinesArrive(u: Utf8, c: Conn, ls: seq<string>, ends: seq<string>, t: string)
    requires AsciiExact(u) && AreLines(ls, ends) && ls != [] && Ascii(t) && '#' !in t && '\n' !in t && |t| <= 10240
    requires (Lines(ls, ends) + t)[..2] != "xx" && (Lines(ls, ends) + t)[..2] != "yy"
    requires c.buffer == []
    ensures Received(u, c, u.encode(Lines(ls, ends) + t)) == Conn(u.encode(t), c.delivered + Texts(ls))
  {
    var s := Lines(ls, ends) + t;
    LinesHaveNoHash(ls, ends, t);
    StartIsText(u, s);
    MatchNone(s);
    SplitIntoLines(ls, ends, t);
    NonBlankLines(ls);
    assert (ls + [t])[..|ls|] == ls;
    assert [] + u.encode(s) == u.encode(s);
    var after := Conn(u.encode(t), c.delivered + Texts(ls));
    LinesPass(u, c.(buffer := u.encode(s)), s, ls, t);
    NotCapped(u, t, after);
    hide TextPass, IsTextProtocol, Capped, AsciiExact, HqMatches, SplitLines;
  }

  lemma LinesPass(u: Utf8, c: Conn, s: string, ls: seq<string>, t: string)
    requires u.decode(c.buffer) == s && HqMatches(s) == [] && ls != []
    requires SplitLines(s) == ls + [t] && NonBlank(ls) == Texts(ls)
    ensures TextPass(u, c) == Conn(u.encode(t), c.delivered + Texts(ls))
  {
    hide HqMatches, SplitLines, Trim, NonBlank, Texts;
    assert (ls + [t])[..|ls|] == ls;
  }
}
