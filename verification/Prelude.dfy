/** Small shared vocabulary: optional values, the rounding of ECMAScript's Math.round, mapping and counting. */
module Prelude {

  datatype Option<+T> = None | Some(value: T)

  /** Math.round: to the nearest integer, halves towards positive infinity. */
  function MathRound(x: real): int {
    (x + 0.5).Floor
  }

  function FlatMap<A, B>(f: A -> seq<B>, s: seq<A>): seq<B> {
    if s == [] then [] else f(s[0]) + FlatMap(f, s[1..])
  }

  lemma FlatMapOne<A, B>(f: A -> seq<B>, x: A)
    ensures FlatMap(f, [x]) == f(x)
  {
    assert [x][1..] == [];
    assert FlatMap(f, [x]) == f(x) + FlatMap(f, []);
  }

  lemma {:induction false} FlatMapConcat<A, B>(f: A -> seq<B>, a: seq<A>, b: seq<A>)
    ensures FlatMap(f, a + b) == FlatMap(f, a) + FlatMap(f, b)
  {
    if a == [] {
      assert a + b == b;
    } else {
      FlatMapConcat(f, a[1..], b);
      assert (a + b)[0] == a[0] && (a + b)[1..] == a[1..] + b;
      assert FlatMap(f, a + b) == f(a[0]) + FlatMap(f, a[1..] + b);
    }
  }

  // Counting.

  /** How many elements of s satisfy f. */
  function Count<T>(s: seq<T>, f: T -> bool): nat {
    if s == [] then 0 else (if f(s[0]) then 1 else 0) + Count(s[1..], f)
  }

  lemma {:induction false} CountConcat<T>(a: seq<T>, b: seq<T>, f: T -> bool)
    ensures Count(a + b, f) == Count(a, f) + Count(b, f)
  {
    if a == [] {
      assert a + b == b;
    } else {
      assert (a + b)[0] == a[0] && (a + b)[1..] == a[1..] + b;
      CountConcat(a[1..], b, f);
    }
  }

  lemma CountOne<T>(x: T, f: T -> bool)
    ensures Count([x], f) == if f(x) then 1 else 0
  {
    assert [x][1..] == [];
  }

  lemma CountUpdate<T>(s: seq<T>, i: nat, x: T, f: T -> bool)
    requires i < |s|
    ensures Count(s[i := x], f) == Count(s, f) - (if f(s[i]) then 1 else 0) + (if f(x) then 1 else 0)
  {
    assert s == s[..i] + ([s[i]] + s[i + 1..]);
    assert s[i := x] == s[..i] + ([x] + s[i + 1..]);
    CountConcat(s[..i], [s[i]] + s[i + 1..], f);
    CountConcat(s[..i], [x] + s[i + 1..], f);
    CountConcat([s[i]], s[i + 1..], f);
    CountConcat([x], s[i + 1..], f);
    CountOne(s[i], f);
    CountOne(x, f);
    hide Count;
  }

  lemma {:induction false} CountWeaker<T(!new)>(s: seq<T>, f: T -> bool, g: T -> bool)
    requires forall x :: f(x) ==> g(x)
    ensures Count(s, f) <= Count(s, g)
    ensures Count(s, f) == Count(s, g) <==> forall i | 0 <= i < |s| :: g(s[i]) ==> f(s[i])
  {
    if s != [] {
      CountWeaker(s[1..], f, g);
      assert s == [s[0]] + s[1..];
    }
  }

  lemma {:induction false} CountNone<T>(s: seq<T>, f: T -> bool)
    ensures Count(s, f) == 0 <==> forall i | 0 <= i < |s| :: !f(s[i])
  {
    if s != [] {
      CountNone(s[1..], f);
      assert forall i | 0 < i < |s| :: s[i] == s[1..][i - 1];
    }
  }
}
