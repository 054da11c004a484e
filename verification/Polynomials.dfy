/**
  Polynomials over GF(2) as bit sequences, highest coefficient first, and division by the generator
  x^16 + x^12 + x^5 + 1 of section 2 of ITU-T V.41: by the schoolbook method, and bit by bit in a 16-bit register.
*/
module Polynomials {

  /** The generator without its leading coefficient: 0x1021. */
  const GENERATOR: seq<bool> := [
    false, false, false, true, false, false, false, false,
    false, false, true, false, false, false, false, true]

  function Zeros(n: nat): (z: seq<bool>)
    ensures |z| == n && forall i | 0 <= i < n :: !z[i]
  {
    seq(n, _ => false)
  }

  /** Sum, and difference, of two polynomials of the same length. */
  function Xor(a: seq<bool>, b: seq<bool>): (c: seq<bool>)
    requires |a| == |b|
    ensures |c| == |a| && forall i | 0 <= i < |c| :: c[i] == (a[i] != b[i])
  {
    seq(|a|, i requires 0 <= i < |a| => a[i] != b[i])
  }

  type Register = r: seq<bool> | |r| == 16 witness Zeros(16)

  // Schoolbook long division.

  /** Add g to the leading coefficients of s. */
  function XorPrefix(s: seq<bool>, g: Register): (t: seq<bool>)
    requires |s| >= 16
    ensures |t| == |s|
  {
    Xor(s[..16], g) + s[16..]
  }

  /** The remainder of s: cancel the leading coefficient with the generator until 16 are left. */
  function Remainder(s: seq<bool>): Register
    requires |s| >= 16
    decreases |s|
  {
    if |s| == 16 then s
    else if s[0] then Remainder(XorPrefix(s[1..], GENERATOR))
    else Remainder(s[1..])
  }

  // The shift register.

  function Shift(r: Register): Register {
    var t := r[1..] + [false];
    if r[0] then Xor(t, GENERATOR) else t
  }

  function Shifts(r: Register, n: nat): Register
    decreases n
  {
    if n == 0 then r else Shifts(Shift(r), n - 1)
  }

  lemma {:induction false} ShiftLast(r: Register, n: nat)
    ensures Shifts(r, n + 1) == Shift(Shifts(r, n))
    decreases n
  {
    hide Shift;
    if n > 0 {
      ShiftLast(Shift(r), n - 1);
    }
  }

  /** Feed message bits into the register, one at a time. */
  function Feed(r: Register, m: seq<bool>): Register
    decreases |m|
  {
    if m == [] then r else Feed(Shift(Xor(r, [m[0]] + Zeros(15))), m[1..])
  }

  /** The register computes the remainder of the message times x^16, with its start value added in front. */
  lemma {:induction false} FeedIsRemainder(r: Register, m: seq<bool>)
    ensures Remainder(XorPrefix(m + Zeros(16), r)) == Feed(r, m)
    decreases |m|
  {
    var s := XorPrefix(m + Zeros(16), r);
    if m == [] {
      assert s == r;
    } else {
      var r' := Shift(Xor(r, [m[0]] + Zeros(15)));
      var rest := m[1..] + Zeros(16);
      assert (m + Zeros(16))[1..] == rest;
      assert s[0] == (m[0] != r[0]);
      assert s[1..] == XorPrefix(rest, r[1..] + [false]);
      if s[0] {
        assert XorPrefix(s[1..], GENERATOR) == XorPrefix(rest, r');
      } else {
        assert s[1..] == XorPrefix(rest, r');
      }
      FeedIsRemainder(r', m[1..]);
    }
  }

  // Linearity.

  lemma XorSwap(x: Register, y: Register, u: Register, v: Register)
    ensures Xor(Xor(x, y), Xor(u, v)) == Xor(Xor(x, u), Xor(y, v))
  {
  }

  lemma ShiftLinear(a: Register, b: Register)
    ensures Shift(Xor(a, b)) == Xor(Shift(a), Shift(b))
  {
  }

  lemma {:induction false} ShiftsLinear(a: Register, b: Register, n: nat)
    ensures Shifts(Xor(a, b), n) == Xor(Shifts(a, n), Shifts(b, n))
    decreases n
  {
    hide Shift;
    if n > 0 {
      ShiftLinear(a, b);
      ShiftsLinear(Shift(a), Shift(b), n - 1);
    }
  }

  lemma {:induction false} FeedLinear(r: Register, s: Register, m: seq<bool>, n: seq<bool>)
    requires |m| == |n|
    ensures Feed(Xor(r, s), Xor(m, n)) == Xor(Feed(r, m), Feed(s, n))
    decreases |m|
  {
    hide Shift;
    if m != [] {
      var x, y := [m[0]] + Zeros(15), [n[0]] + Zeros(15);
      var z := [Xor(m, n)[0]] + Zeros(15);
      assert z == Xor(x, y);
      assert Xor(m, n)[1..] == Xor(m[1..], n[1..]);
      XorSwap(r, s, x, y);
      ShiftLinear(Xor(r, x), Xor(s, y));
      FeedLinear(Shift(Xor(r, x)), Shift(Xor(s, y)), m[1..], n[1..]);
    }
  }

  lemma {:induction false} FeedConcat(r: Register, a: seq<bool>, b: seq<bool>)
    ensures Feed(r, a + b) == Feed(Feed(r, a), b)
    decreases |a|
  {
    hide Shift;
    if a == [] {
      assert a + b == b;
    } else {
      assert (a + b)[1..] == a[1..] + b;
      FeedConcat(Shift(Xor(r, [a[0]] + Zeros(15))), a[1..], b);
    }
  }

  // At most 16 message bits enter the register as if they were added to its top at once.

  lemma ShiftZeroTop(x: seq<bool>)
    requires |x| == 15
    ensures Shift([false] + x) == x + [false]
  {
  }

  lemma {:induction false} FeedAtOnce(r: Register, w: seq<bool>)
    requires |w| <= 16
    ensures Feed(r, w) == Shifts(Xor(r, w + Zeros(16 - |w|)), |w|)
    decreases |w|
  {
    hide Shift;
    if w == [] {
      assert Xor(r, w + Zeros(16)) == r;
    } else {
      var x := w[1..] + Zeros(16 - |w|);
      var first := [w[0]] + Zeros(15);
      FeedAtOnce(Shift(Xor(r, first)), w[1..]);
      ShiftZeroTop(x);
      assert w[1..] + Zeros(17 - |w|) == x + [false];
      ShiftLinear(Xor(r, first), [false] + x);
      assert Xor(Xor(r, first), [false] + x) == Xor(r, w + Zeros(16 - |w|));
    }
  }

  lemma ShiftInjective(r: Register)
    requires Shift(r) == Zeros(16)
    ensures r == Zeros(16)
  {
    assert Shift(r)[15] == r[0];
    forall i | 0 < i < 16 ensures !r[i] {
      assert Shift(r)[i - 1] == r[i];
    }
  }

  lemma {:induction false} ShiftsInjective(r: Register, n: nat)
    requires Shifts(r, n) == Zeros(16)
    ensures r == Zeros(16)
    decreases n
  {
    if n > 0 {
      ShiftsInjective(Shift(r), n - 1);
      ShiftInjective(r);
    }
  }

  lemma {:induction false} ShiftsOfZero(n: nat)
    ensures Shifts(Zeros(16), n) == Zeros(16)
  {
    if n > 0 {
      assert Shift(Zeros(16)) == Zeros(16);
      ShiftsOfZero(n - 1);
    }
  }

  /** Feeding the register its own contents clears it. */
  lemma FeedItself(r: Register)
    ensures Feed(r, r) == Zeros(16)
  {
    FeedAtOnce(r, r);
    assert Xor(r, r + Zeros(0)) == Zeros(16);
    ShiftsOfZero(16);
  }

  lemma {:induction false} FeedZeros(r: Register, n: nat)
    ensures Feed(r, Zeros(n)) == Shifts(r, n)
    decreases n
  {
    hide Shift;
    if n > 0 {
      assert Xor(r, [false] + Zeros(15)) == r;
      assert Zeros(n)[1..] == Zeros(n - 1);
      FeedZeros(Shift(r), n - 1);
    }
  }

  /** A burst: at most 16 consecutive bits, not all zero. */
  ghost predicate IsBurst(e: seq<bool>) {
    exists i: nat, w: seq<bool>, j: nat :: |w| <= 16 && true in w && e == Zeros(i) + w + Zeros(j)
  }

  lemma BurstIsSeen(i: nat, w: seq<bool>, j: nat)
    requires |w| <= 16 && true in w
    ensures Feed(Zeros(16), Zeros(i) + w + Zeros(j)) != Zeros(16)
  {
    var top := w + Zeros(16 - |w|);
    FeedConcat(Zeros(16), Zeros(i) + w, Zeros(j));
    FeedConcat(Zeros(16), Zeros(i), w);
    FeedZeros(Zeros(16), i);
    ShiftsOfZero(i);
    FeedAtOnce(Zeros(16), w);
    assert Xor(Zeros(16), top) == top;
    FeedZeros(Shifts(top, |w|), j);
    if Feed(Zeros(16), Zeros(i) + w + Zeros(j)) == Zeros(16) {
      ShiftsInjective(Shifts(top, |w|), j);
      ShiftsInjective(top, |w|);
    }
    var k :| 0 <= k < |w| && w[k];
    assert top[k];
  }

  /** Bits at the bottom of the register move up untouched. */
  lemma {:induction false} ShiftsLow(x: seq<bool>, n: nat, m: nat)
    requires |x| + n + m == 16
    ensures Shifts(Zeros(n) + x + Zeros(m), n) == x + Zeros(n + m)
    decreases n
  {
    if n == 0 {
      assert Zeros(0) + x + Zeros(m) == x + Zeros(m);
    } else {
      var y := Zeros(n - 1) + x + Zeros(m);
      assert Zeros(n) + x + Zeros(m) == [false] + y;
      ShiftZeroTop(y);
      assert y + [false] == Zeros(n - 1) + x + Zeros(m + 1);
      ShiftsLow(x, n - 1, m + 1);
    }
  }

  // Parity: the generator has an even number of terms.

  /** The number of true bits is odd. */
  function Parity(s: seq<bool>): bool {
    if s == [] then false else s[0] != Parity(s[1..])
  }

  lemma {:induction false} ParityConcat(a: seq<bool>, b: seq<bool>)
    ensures Parity(a + b) == (Parity(a) != Parity(b))
  {
    if a == [] {
      assert a + b == b;
    } else {
      ParityConcat(a[1..], b);
      assert (a + b)[0] == a[0] && (a + b)[1..] == a[1..] + b;
    }
  }

  lemma {:induction false} ParityXor(a: seq<bool>, b: seq<bool>)
    requires |a| == |b|
    ensures Parity(Xor(a, b)) == (Parity(a) != Parity(b))
  {
    if a != [] {
      ParityXor(a[1..], b[1..]);
      assert Xor(a, b)[1..] == Xor(a[1..], b[1..]);
    }
  }

  lemma {:induction false} ParityZeros(n: nat)
    ensures !Parity(Zeros(n))
  {
    if n > 0 {
      ParityZeros(n - 1);
      assert Zeros(n)[1..] == Zeros(n - 1);
    }
  }

  lemma ParityOne(b: bool)
    ensures Parity([b]) == b
  {
    assert [b][1..] == [];
  }

  lemma ParityGenerator()
    ensures Parity(GENERATOR)
  {
    hide Parity;
    var a, b, c := Zeros(3) + [true], Zeros(6) + [true], Zeros(4) + [true];
    ParityZeros(3);
    ParityZeros(6);
    ParityZeros(4);
    ParityOne(true);
    ParityConcat(Zeros(3), [true]);
    ParityConcat(Zeros(6), [true]);
    ParityConcat(Zeros(4), [true]);
    ParityConcat(a, b);
    ParityConcat(a + b, c);
    assert GENERATOR == a + b + c;
  }

  lemma ParityShift(r: Register)
    ensures Parity(Shift(r)) == Parity(r)
  {
    var t := r[1..] + [false];
    assert Parity(r) == (r[0] != Parity(r[1..]));
    hide Parity;
    ParityConcat(r[1..], [false]);
    ParityOne(false);
    ParityXor(t, GENERATOR);
    ParityGenerator();
  }

  /** Feeding a message adds its parity to the register's. */
  lemma {:induction false} ParityFeed(r: Register, m: seq<bool>)
    ensures Parity(Feed(r, m)) == (Parity(r) != Parity(m))
    decreases |m|
  {
    if m == [] {
      assert Feed(r, m) == r;
    } else {
      var x := [m[0]] + Zeros(15);
      assert Feed(r, m) == Feed(Shift(Xor(r, x)), m[1..]);
      assert Parity(m) == (m[0] != Parity(m[1..]));
      hide Parity, Feed, Shift;
      ParityFeed(Shift(Xor(r, x)), m[1..]);
      ParityShift(Xor(r, x));
      ParityXor(r, x);
      ParityConcat([m[0]], Zeros(15));
      ParityOne(m[0]);
      ParityZeros(15);
    }
  }

  /** Eight steps at once, from a table of what eight steps make of the top half. */
  lemma FeedByte(r: Register, byte: seq<bool>)
    requires |byte| == 8
    ensures Feed(r, byte) == Xor(r[8..] + Zeros(8), Shifts(Xor(r[..8], byte) + Zeros(8), 8))
  {
    hide Shifts;
    var x, low := Xor(r[..8], byte) + Zeros(8), Zeros(8) + r[8..];
    FeedAtOnce(r, byte);
    assert Xor(r, byte + Zeros(8)) == Xor(low, x);
    ShiftsLinear(low, x, 8);
    ShiftsLow(r[8..], 8, 0);
    assert low + Zeros(0) == low;
  }
}
