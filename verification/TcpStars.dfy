/** No delivery makes up packets: every text handed over that holds a '*' uses up one that was received. */
module TcpStars {
  import opened Prelude
  import opened Gt06
  import opened TcpStream
  import opened TcpText

  predicate IsStar(c: char) {
    c == '*'
  }

  function Stars(s: string): nat {
    Count(s, IsStar)
  }

  /** How many of the texts hold a '*'. */
  function Starred(ds: seq<Delivery>): nat {
    Count(ds, HasStar)
  }

  predicate HasStar(d: Delivery) {
    d.Text? && '*' in d.line
  }

  lemma StarsConcat(a: string, b: string)
    ensures Stars(a + b) == Stars(a) + Stars(b)
  {
    CountConcat(a, b, IsStar);
  }

  lemma StarsNone(s: string)
    ensures Stars(s) == 0 <==> '*' !in s
  {
    CountNone(s, IsStar);
    hide Count;
    assert (forall i | 0 <= i < |s| :: !IsStar(s[i])) ==> '*' !in s;
  }

  /** A part of s has no more of them. */
  lemma StarsWithin(s: string, from: nat, to: nat)
    requires from <= to <= |s|
    ensures Stars(s[from..to]) <= Stars(s)
  {
    StarsConcat(s[..from], s[from..]);
    StarsConcat(s[from..to], s[to..]);
    assert s == s[..from] + s[from..] && s[from..] == s[from..to] + s[to..];
  }

  lemma StarredConcat(a: seq<Delivery>, b: seq<Delivery>)
    ensures Starred(a + b) == Starred(a) + Starred(b)
  {
    CountConcat(a, b, HasStar);
  }

  // Trimming keeps a part.

  lemma {:induction false} TrimStartPart(s: string) returns (i: nat)
    ensures i <= |s| && TrimStart(s) == s[i..]
  {
    if s != "" && IsWhite(s[0]) {
      var j := TrimStartPart(s[1..]);
      i := j + 1;
    } else {
      i := 0;
    }
  }

  lemma {:induction false} TrimEndPart(s: string) returns (i: nat)
    ensures i <= |s| && TrimEnd(s) == s[..i]
  {
    if s != "" && IsWhite(s[|s| - 1]) {
      i := TrimEndPart(s[..|s| - 1]);
    } else {
      i := |s|;
    }
  }

  lemma TrimPart(s: string)
    ensures Stars(Trim(s)) <= Stars(s) && (Ascii(s) ==> Ascii(Trim(s))) && |Trim(s)| <= |s|
  {
    var i := TrimStartPart(s);
    var k := TrimEndPart(s[i..]);
    StarsWithin(s, i, i + k);
    assert Trim(s) == s[i..i + k];
    hide Trim;
  }

  lemma TextStars(line: string)
    ensures HasStar(Text(line)) ==> Stars(line) >= 1
    ensures HasStar(Text(Trim(line))) ==> Stars(line) >= 1
  {
    TrimPart(line);
    StarsNone(line);
    StarsNone(Trim(line));
    hide Trim;
  }

  // What each way of reading the buffer uses up.

  lemma AfterHashPart(s: string)
    ensures Stars(AfterLastHash(s)) <= Stars(s)
  {
    StarsWithin(s, |s| - |AfterLastHash(s)|, |s|);
  }

  lemma NoMatch(s: string, i: nat, j: nat)
    requires i <= |s| && i == IndexOf(s, '*') && j == IndexOf(s[i..], '#') && i + j >= |s|
    ensures HqMatches(s) == []
  {
    hide IndexOf;
  }

  lemma MatchAt(s: string, i: nat, j: nat)
    requires i <= |s| && i == IndexOf(s, '*') && j == IndexOf(s[i..], '#') && i + j < |s|
    ensures HqMatches(s) == [s[i..i + j + 1]] + HqMatches(s[i + j + 1..])
  {
    hide IndexOf;
  }

  lemma FirstMatch(s: string) returns (n: nat)
    requires HqMatches(s) != []
    ensures 0 < n <= |s| && s[n - 1] == '#' && '*' in s[..n] && |HqMatches(s)| == 1 + |HqMatches(s[n..])|
  {
    hide HqMatches, IndexOf;
    var i := IndexOf(s, '*');
    var j := IndexOf(s[i..], '#');
    n := i + j + 1;
    if i + j >= |s| {
      NoMatch(s, i, j);
    } else {
      MatchAt(s, i, j);
      assert s[i..][j] == '#' && s[..n][i] == '*';
    }
  }

  /** Each match holds a '*' before what follows the last '#'. */
  lemma {:induction false} MatchesUseStars(s: string)
    ensures |HqMatches(s)| + Stars(AfterLastHash(s)) <= Stars(s)
    decreases |s|
  {
    hide *;
    AfterHashPart(s);
    if HqMatches(s) != [] {
      var n := FirstMatch(s);
      MatchesUseStars(s[n..]);
      assert s == s[..n] + s[n..] && s[..n][n - 1] == '#';
      AfterLastHashAppend(s[..n], s[n..]);
      StarsConcat(s[..n], s[n..]);
      StarsNone(s[..n]);
    }
  }

  lemma {:induction false} TrimmedStars(ms: seq<string>)
    ensures Starred(Trimmed(ms)) <= |ms|
  {
    hide Trim;
    if ms != [] {
      TrimmedStars(ms[..|ms| - 1]);
      StarredConcat(Trimmed(ms[..|ms| - 1]), [Text(Trim(ms[|ms| - 1]))]);
      OneStarred(Text(Trim(ms[|ms| - 1])));
    }
  }

  lemma OneStarred(d: Delivery)
    ensures Starred([d]) == (if HasStar(d) then 1 else 0) && Starred([]) == 0
  {
    CountOne(d, HasStar);
  }

  function StarsOf(lines: seq<string>): nat {
    if lines == [] then 0 else StarsOf(lines[..|lines| - 1]) + Stars(lines[|lines| - 1])
  }

  lemma {:induction false} StarsOfCons(line: string, lines: seq<string>)
    ensures StarsOf([line] + lines) == Stars(line) + StarsOf(lines)
  {
    var all := [line] + lines;
    if lines == [] {
      assert all == [line] && all[..0] == [];
    } else {
      assert all[..|all| - 1] == [line] + lines[..|lines| - 1];
      StarsOfCons(line, lines[..|lines| - 1]);
    }
  }

  lemma {:induction false} NonBlankStars(lines: seq<string>)
    ensures Starred(NonBlank(lines)) <= StarsOf(lines)
  {
    hide Trim;
    if lines != [] {
      var front, line := lines[..|lines| - 1], lines[|lines| - 1];
      NonBlankStars(front);
      TextStars(line);
      OneStarred(Text(Trim(line)));
      StarredConcat(NonBlank(front), [Text(Trim(line))]);
      StarredConcat(NonBlank(front), []);
    }
  }

  lemma OneLineStars(s: string)
    requires '\n' !in s
    ensures SplitLines(s) == [s] && StarsOf([s]) == Stars(s)
  {
    OneLine(s);
    assert [s][..0] == [] && StarsOf([]) == 0;
  }

  /** The line that ends at i, and its end. */
  lemma LineStars(s: string, i: nat, line: string)
    requires i < |s| && line == if i > 0 && s[i - 1] == '\r' then s[..i - 1] else s[..i]
    ensures Stars(line) + Stars(s[i + 1..]) <= Stars(s)
  {
    hide Stars;
    StarsWithin(s[..i + 1], 0, |line|);
    assert s[..i + 1][0..|line|] == line;
    StarsConcat(s[..i + 1], s[i + 1..]);
    assert s == s[..i + 1] + s[i + 1..];
  }

  lemma {:induction false} LinesUseStars(s: string)
    ensures StarsOf(SplitLines(s)) <= Stars(s)
    ensures var last := SplitLines(s)[|SplitLines(s)| - 1]; |last| <= |s| && last == s[|s| - |last|..]
    decreases |s|
  {
    hide *;
    var i := IndexOf(s, '\n');
    if i < |s| {
      FirstLine(s, i);
      var line := if i > 0 && s[i - 1] == '\r' then s[..i - 1] else s[..i];
      var lines := SplitLines(s[i + 1..]);
      LinesUseStars(s[i + 1..]);
      StarsOfCons(line, lines);
      LineStars(s, i, line);
      var last := lines[|lines| - 1];
      assert s[i + 1..][|s| - i - 1 - |last|..] == s[|s| - |last|..];
    } else {
      assert s[..|s|] == s;
      OneLineStars(s);
      assert s[0..] == s;
    }
  }

  /** The part of the buffer that is kept, and what was handed over, by their stars. */
  ghost predicate Uses(u: Utf8, c: Conn, s: string, c': Conn, s': string) {
    Ascii(s') && c'.buffer == u.encode(s') && Starred(c'.delivered) + Stars(s') <= Starred(c.delivered) + Stars(s)
  }

  lemma PacketsUse(u: Utf8, c: Conn, s: string) returns (s': string)
    requires AsciiExact(u) && Ascii(s) && c.buffer == u.encode(s) && HqMatches(s) != []
    ensures Uses(u, c, s, TextPass(u, c), s')
  {
    var ms, last := HqMatches(s), AfterLastHash(s);
    s' := Trim(last);
    MatchesUseStars(s);
    TrimmedStars(ms);
    assert Ascii(last);
    TrimPart(last);
    EncodeNothing(u);
    assert u.decode(c.buffer) == s;
    hide Trim, HqMatches, SplitLines, AfterLastHash, Ascii, AsciiExact;
    StarredConcat(c.delivered, Trimmed(ms));
  }

  lemma LinesUse(u: Utf8, c: Conn, s: string) returns (s': string)
    requires AsciiExact(u) && Ascii(s) && c.buffer == u.encode(s) && HqMatches(s) == []
    ensures Uses(u, c, s, TextPass(u, c), s')
  {
    var lines, trimmed := SplitLines(s), Trim(s);
    LinesUseStars(s);
    assert u.decode(c.buffer) == s;
    EncodeNothing(u);
    TextStars(s);
    hide Trim, HqMatches, SplitLines, AfterLastHash, AsciiExact;
    if |lines| > 1 {
      var front := lines[..|lines| - 1];
      s' := lines[|lines| - 1];
      assert lines == front + [s'] && Ascii(s');
      NonBlankStars(front);
      StarredConcat(c.delivered, NonBlank(front));
    } else {
      var out := TextPass(u, c);
      if out.delivered == c.delivered {
        s' := s;
      } else {
        s' := "";
        OneStarred(Text(trimmed));
        StarredConcat(c.delivered, [Text(trimmed)]);
      }
    }
  }

  lemma {:induction false} NoTextInBinaries(packets: seq<Packet>)
    ensures Starred(Binaries(packets)) == 0
  {
    if packets != [] {
      NoTextInBinaries(packets[..|packets| - 1]);
      StarredConcat(Binaries(packets[..|packets| - 1]), [Binary(packets[|packets| - 1])]);
      OneStarred(Binary(packets[|packets| - 1]));
    }
  }

  lemma BinaryUses(u: Utf8, c: Conn, s: string) returns (s': string)
    requires AsciiExact(u) && Ascii(s) && c.buffer == u.encode(s)
    ensures Uses(u, c, s, BinaryPass(c), s')
  {
    hide Parse, Stars, Starred;
    EncodeFrom(u, s, 0);
    var n := Parse(c.buffer).consumed;
    EncodeFrom(u, s, n);
    s' := s[n..];
    AsciiPart(s, n);
    hide AsciiExact, Ascii;
    StarsWithin(s, n, |s|);
    NoTextInBinaries(Parse(c.buffer).packets);
    StarredConcat(c.delivered, Binaries(Parse(c.buffer).packets));
  }

  lemma AsciiPart(s: string, n: nat)
    requires Ascii(s) && n <= |s|
    ensures Ascii(s[n..]) && s[n..] == s[n..|s|]
  {
  }

  /** One delivery. */
  lemma DeliveryUses(u: Utf8, c: Conn, s: string, data: string) returns (s': string)
    requires AsciiExact(u) && Ascii(s) && Ascii(data) && c.buffer == u.encode(s)
    ensures Uses(u, c, s + data, Received(u, c, u.encode(data)), s')
  {
    var all := s + data;
    EncodeConcat(u, s, data);
    EncodeNothing(u);
    assert Ascii(all);
    var c1 := c.(buffer := u.encode(all));
    hide AsciiExact, TextPass, BinaryPass, HqMatches, IsTextProtocol;
    if !IsTextProtocol(c1.buffer) {
      s' := BinaryUses(u, c1, all);
    } else if HqMatches(all) != [] {
      s' := PacketsUse(u, c1, all);
    } else {
      s' := LinesUse(u, c1, all);
    }
    hide Starred;
    if |Received(u, c, u.encode(data)).buffer| == 0 {
      CappedUses(u, c1, all, if IsTextProtocol(c1.buffer) then TextPass(u, c1) else BinaryPass(c1), s');
      if Capped(if IsTextProtocol(c1.buffer) then TextPass(u, c1) else BinaryPass(c1)).buffer == [] {
        s' := "";
      }
    }
  }

  lemma CappedUses(u: Utf8, c: Conn, s: string, c': Conn, s': string)
    requires AsciiExact(u) && Uses(u, c, s, c', s')
    ensures Capped(c').buffer == [] ==> Uses(u, c, s, Capped(c'), "")
    ensures Capped(c').buffer != [] ==> Capped(c') == c'
  {
    EncodeNothing(u);
  }
}
