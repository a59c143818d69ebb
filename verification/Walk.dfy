/** The probe order of the CLOCK cache: double hashing with an odd stride. */
module Walk {

  const WORD: nat := 0x1_0000_0000_0000_0000

  type Word64 = x: nat | x < WORD

  /** A 128-bit hashed key, kept as its two 64-bit halves. */
  datatype Key = Key(h0: Word64, h1: Word64)

  /** The stride `h0 | 1`. */
  function Stride(k: Key): (a: Word64)
    ensures a % 2 == 1
    ensures a == k.h0 || a == k.h0 + 1
  {
    if k.h0 % 2 == 0 then k.h0 + 1 else k.h0
  }

  function First(k: Key, length: nat): nat
    requires length > 0
  {
    k.h1 % length
  }

  /** One step of the walk, in 64-bit arithmetic as the program does it. */
  function Advance(current: nat, k: Key, length: nat): nat
    requires length > 0
  {
    (current + Stride(k)) % WORD % length
  }

  /** The slot reached after `n` steps. */
  function Visit(k: Key, length: nat, n: nat): (s: nat)
    requires length > 0
    ensures s < length
  {
    if n == 0 then First(k, length) else Advance(Visit(k, length, n - 1), k, length)
  }

  predicate IsPow2(n: nat): (r: bool)
    ensures r ==> n > 0
  {
    n == 1 || (n > 1 && n % 2 == 0 && IsPow2(n / 2))
  }

  // ---- Congruence ----

  /** `a` and `b` differ by a multiple of `m`. */
  ghost predicate Congruent(a: int, b: int, m: nat) {
    exists q: int :: a - b == m * q
  }

  lemma CongruentBy(a: int, b: int, m: nat, q: int)
    requires a - b == m * q
    ensures Congruent(a, b, m)
  {
  }

  lemma CongruentRefl(a: int, m: nat)
    ensures Congruent(a, a, m)
  {
    assert a - a == m * 0;
  }

  lemma CongruentSym(a: int, b: int, m: nat)
    requires Congruent(a, b, m)
    ensures Congruent(b, a, m)
  {
    var p :| a - b == m * p;
    assert b - a == m * (-p);
  }

  lemma CongruentTrans(a: int, b: int, c: int, m: nat)
    requires Congruent(a, b, m) && Congruent(b, c, m)
    ensures Congruent(a, c, m)
  {
    var p :| a - b == m * p;
    var q :| b - c == m * q;
    assert a - c == m * (p + q);
  }

  lemma CongruentAdd(a: int, b: int, c: int, m: nat)
    requires Congruent(a, b, m)
    ensures Congruent(a + c, b + c, m)
  {
    var p :| a - b == m * p;
    assert (a + c) - (b + c) == m * p;
  }

  lemma CongruentMul(a: int, b: int, c: int, m: nat)
    requires Congruent(a, b, m)
    ensures Congruent(c * a, c * b, m)
  {
    var p :| a - b == m * p;
    assert c * a - c * b == c * (a - b);
    assert c * (m * p) == m * (c * p);
  }

  lemma ModCongruent(a: int, m: nat)
    requires m > 0
    ensures Congruent(a % m, a, m)
  {
    assert a == m * (a / m) + a % m;
    assert m * (-(a / m)) == -(m * (a / m));
  }

  /** Congruent residues are equal. */
  lemma CongruentUnique(a: nat, b: nat, m: nat)
    requires Congruent(a, b, m) && a < m && b < m
    ensures a == b
  {
    var q :| a - b == m * q;
    AtLeastOnce(m, q);
    AtLeastOnce(m, -q);
    assert m * (-q) == -(m * q);
  }

  lemma AtLeastOnce(m: nat, q: int)
    ensures q >= 1 ==> m * q >= m
  {
  }

  /** Numbers congruent to `r < m` leave `r` on division by `m`. */
  lemma ResidueOf(x: int, r: nat, m: nat)
    requires Congruent(x, r, m) && r < m
    ensures x % m == r
  {
    hide Congruent;
    ModCongruent(x, m);
    CongruentTrans(x % m, x, r, m);
    CongruentUnique(x % m, r, m);
  }

  lemma CongruentCoarsen(a: int, b: int, m: nat, q: nat)
    requires Congruent(a, b, m * q)
    ensures Congruent(a, b, m)
  {
    var p :| a - b == (m * q) * p;
    assert (m * q) * p == m * (q * p);
  }

  // ---- Powers of two ----

  lemma {:induction false} Pow2Divides(a: nat, b: nat) returns (q: nat)
    requires IsPow2(a) && IsPow2(b) && a <= b
    ensures b == a * q
  {
    if a == 1 {
      q := b;
    } else {
      q := Pow2Divides(a / 2, b / 2);
      assert 2 * ((a / 2) * q) == (2 * (a / 2)) * q;
    }
  }

  lemma {:induction false} Pow2Product(a: nat, b: nat)
    requires IsPow2(a) && IsPow2(b)
    ensures IsPow2(a * b)
  {
    if a != 1 {
      Pow2Product(a / 2, b);
      DoublePow2((a / 2) * b);
      assert a * b == 2 * ((a / 2) * b);
    }
  }

  lemma DoublePow2(n: nat)
    requires IsPow2(n)
    ensures IsPow2(2 * n)
  {
    assert 2 * n / 2 == n;
  }

  lemma WordIsPow2()
    ensures IsPow2(WORD)
  {
    Pow2Product(4, 4);
    Pow2Product(16, 16);
    Pow2Product(256, 256);
    Pow2Product(0x1_0000, 0x1_0000);
    Pow2Product(0x1_0000_0000, 0x1_0000_0000);
  }

  /** The 64-bit wrap-around is invisible when the length is a power of two. */
  lemma WrapVanishes(x: nat, length: nat)
    requires IsPow2(length) && length <= WORD
    ensures Congruent(x % WORD, x, length)
  {
    hide Congruent;
    WordIsPow2();
    var q := Pow2Divides(length, WORD);
    ModCongruent(x, WORD);
    CongruentCoarsen(x % WORD, x, length, q);
  }

  /** One step of the walk adds the stride, modulo the length. */
  lemma AdvanceAdds(current: nat, k: Key, length: nat)
    requires IsPow2(length) && length <= WORD
    ensures Congruent(Advance(current, k, length), current + Stride(k), length)
  {
    hide Congruent;
    hide IsPow2;
    var sum := current + Stride(k);
    ModCongruent(sum % WORD, length);
    WrapVanishes(sum, length);
    CongruentTrans(Advance(current, k, length), sum % WORD, sum, length);
  }

  // ---- The walk in closed form ----

  lemma VisitStarts(k: Key, length: nat)
    requires length > 0
    ensures Congruent(Visit(k, length, 0), k.h1 + Stride(k) * 0, length)
  {
    hide Congruent;
    ModCongruent(k.h1, length);
    assert Stride(k) * 0 == 0;
  }

  lemma {:induction false} VisitAffine(k: Key, length: nat, n: nat)
    requires IsPow2(length) && length <= WORD
    ensures Congruent(Visit(k, length, n), k.h1 + Stride(k) * n, length)
  {
    hide Congruent;
    hide IsPow2;
    if n == 0 {
      VisitStarts(k, length);
    } else {
      var prev := Visit(k, length, n - 1);
      assert Visit(k, length, n) == Advance(prev, k, length);
      hide Stride;
      hide Advance;
      hide Visit;
      VisitAffine(k, length, n - 1);
      AdvanceAdds(prev, k, length);
      CongruentAdd(prev, k.h1 + Stride(k) * (n - 1), Stride(k), length);
      MulStep(Stride(k), n);
      CongruentTrans(Visit(k, length, n), prev + Stride(k), k.h1 + Stride(k) * n, length);
    }
  }

  lemma MulStep(a: int, n: int)
    ensures a * (n - 1) + a == a * n
  {
  }

  /** The inverse of an odd stride modulo a power of two. */
  function Inverse(a: nat, m: nat): (b: nat)
    requires a % 2 == 1 && IsPow2(m)
    ensures Congruent(a * b, 1, m)
  {
    if m == 1 then
      CongruentBy(a * 0, 1, 1, -1);
      0
    else
      var b := Inverse(a, m / 2);
      var lifted := b + m / 2;
      InverseLift(a, b, m / 2);
      if (a * b) % m == 1 then
        ResidueIsCongruent(a * b, 1, m);
        b
      else
        lifted
  }

  lemma ResidueIsCongruent(x: int, r: int, m: nat)
    requires m > 0 && x % m == r
    ensures Congruent(x, r, m)
  {
    ModCongruent(x, m);
    CongruentSym(x % m, x, m);
  }

  lemma InverseLift(a: nat, b: nat, m: nat)
    requires a % 2 == 1 && m > 0 && Congruent(a * b, 1, m)
    ensures (a * b) % (2 * m) == 1 || Congruent(a * (b + m), 1, 2 * m)
  {
    var q :| a * b - 1 == m * q;
    hide Congruent;
    if q % 2 == 0 {
      HalfMultiple(m, q);
      CongruentBy(a * b, 1, 2 * m, q / 2);
      ResidueOf(a * b, 1, 2 * m);
    } else {
      HalfMultiple(m, q + a);
      Spread(a, b, m);
      Spread(m, q, a);
      CongruentBy(a * (b + m), 1, 2 * m, (q + a) / 2);
    }
  }

  lemma Spread(x: int, y: int, z: int)
    ensures x * (y + z) == x * y + x * z && x * z == z * x
  {
  }

  lemma HalfMultiple(m: nat, q: int)
    requires q % 2 == 0
    ensures m * q == (2 * m) * (q / 2)
  {
    var h := q / 2;
    assert q == 2 * h;
    assert m * (2 * h) == (2 * m) * h;
  }

  /** The number of steps after which the walk of `k` stands on slot `s`. */
  function StepsTo(k: Key, length: nat, s: nat): nat
    requires IsPow2(length)
  {
    (Inverse(Stride(k), length) * (s - k.h1)) % length
  }

  lemma InverseCancels(a: nat, b: nat, x: int, m: nat)
    requires Congruent(a * b, 1, m)
    ensures Congruent(a * (b * x), x, m)
  {
    CongruentMul(a * b, 1, x, m);
    assert x * (a * b) == a * (b * x);
  }

  /** Every slot is reached: after `StepsTo` steps the walk is there. */
  lemma VisitStepsTo(k: Key, length: nat, s: nat)
    requires IsPow2(length) && length <= WORD && s < length
    ensures StepsTo(k, length, s) < length && Visit(k, length, StepsTo(k, length, s)) == s
  {
    hide Congruent;
    hide IsPow2;
    hide Stride;
    hide Visit;
    hide Inverse;
    var a, n := Stride(k), StepsTo(k, length, s);
    var b := Inverse(a, length);
    var d := s - k.h1;
    VisitAffine(k, length, n);
    ModCongruent(b * d, length);
    CongruentMul(n, b * d, a, length);
    InverseCancels(a, b, d, length);
    CongruentTrans(a * n, a * (b * d), d, length);
    CongruentAdd(a * n, d, k.h1, length);
    CongruentTrans(Visit(k, length, n), a * n + k.h1, s, length);
    CongruentUnique(Visit(k, length, n), s, length);
  }

  lemma CancelFactor(a: nat, b: nat, i: int, j: int, m: nat)
    requires Congruent(a * b, 1, m) && Congruent(a * i, a * j, m)
    ensures Congruent(i, j, m)
  {
    hide Congruent;
    CongruentMul(a * i, a * j, b, m);
    InverseCancels(a, b, i, m);
    InverseCancels(a, b, j, m);
    Swap(a, b, i);
    Swap(a, b, j);
    CongruentSym(b * (a * i), i, m);
    CongruentTrans(i, b * (a * i), b * (a * j), m);
    CongruentTrans(i, b * (a * j), j, m);
  }

  /** No slot is reached twice within `length` steps. */
  lemma VisitInjective(k: Key, length: nat, i: nat, j: nat)
    requires IsPow2(length) && length <= WORD && i < length && j < length
    requires Visit(k, length, i) == Visit(k, length, j)
    ensures i == j
  {
    hide Congruent;
    hide IsPow2;
    hide Stride;
    hide Visit;
    hide Inverse;
    var a := Stride(k);
    var b := Inverse(a, length);
    VisitAffine(k, length, i);
    VisitAffine(k, length, j);
    CongruentSym(Visit(k, length, i), k.h1 + a * i, length);
    CongruentTrans(k.h1 + a * i, Visit(k, length, i), k.h1 + a * j, length);
    CongruentAdd(k.h1 + a * i, k.h1 + a * j, 0 - k.h1, length);
    CancelFactor(a, b, i, j, length);
    CongruentUnique(i, j, length);
  }

  lemma Swap(a: int, b: int, x: int)
    ensures b * (a * x) == a * (b * x)
  {
  }

  /** After exactly `length` steps the walk is back at its first slot. */
  lemma VisitReturns(k: Key, length: nat)
    requires IsPow2(length) && length <= WORD
    ensures Visit(k, length, length) == First(k, length)
  {
    hide Congruent;
    hide IsPow2;
    hide Stride;
    var a := Stride(k);
    VisitAffine(k, length, length);
    hide Visit;
    TimesLength(a, length);
    CongruentAdd(a * length, 0, k.h1, length);
    CongruentTrans(Visit(k, length, length), a * length + k.h1, k.h1, length);
    ModCongruent(k.h1, length);
    CongruentSym(First(k, length), k.h1, length);
    CongruentTrans(Visit(k, length, length), k.h1, First(k, length), length);
    CongruentUnique(Visit(k, length, length), First(k, length), length);
  }

  lemma TimesLength(a: nat, length: nat)
    ensures Congruent(a * length, 0, length)
  {
    CongruentBy(a * length, 0, length, a);
  }

  // ---- Exactly the powers of two ----

  ghost predicate Reaches(k: Key, length: nat, s: nat)
    requires length > 0
  {
    exists n: nat :: n < length && Visit(k, length, n) == s
  }

  /** The walk of every key covers the whole table. */
  ghost predicate Covers(length: nat)
    requires length > 0
  {
    forall k: Key, s: nat | s < length :: Reaches(k, length, s)
  }

  lemma {:induction false} OddFactor(n: nat) returns (d: nat, e: nat)
    requires n > 0 && !IsPow2(n)
    ensures n == d * e && d % 2 == 1 && 1 < d <= n
  {
    if n % 2 == 1 {
      d, e := n, 1;
    } else {
      d, e := OddFactor(n / 2);
      assert 2 * (d * e) == d * (2 * e);
      e := 2 * e;
    }
  }

  /** From slot 0 with stride `d`, a divisor of the length, only multiples of `d` are visited. */
  lemma {:induction false} VisitMultiples(length: nat, d: nat, e: nat, n: nat)
    requires length == d * e && 0 < d <= length && 2 * length <= WORD && d % 2 == 1
    ensures Congruent(Visit(Key(d, 0), length, n), 0, d)
  {
    hide Congruent;
    var k := Key(d, 0);
    if n == 0 {
      CongruentRefl(0, d);
    } else {
      VisitMultiples(length, d, e, n - 1);
      var c := Visit(k, length, n - 1);
      MultipleStays(c, length, d, e);
      VisitNext(d, length, n);
    }
  }

  lemma MultipleStays(c: nat, length: nat, d: nat, e: nat)
    requires length == d * e && 0 < d && 0 < length && Congruent(c, 0, d)
    ensures Congruent((c + d) % length, 0, d)
  {
    hide Congruent;
    CongruentAdd(c, 0, d, d);
    CongruentBy(d, 0, d, 1);
    CongruentTrans(c + d, d, 0, d);
    ModCongruent(c + d, length);
    CongruentCoarsen((c + d) % length, c + d, d, e);
    CongruentTrans((c + d) % length, c + d, 0, d);
  }

  lemma VisitNext(d: nat, length: nat, n: nat)
    requires 0 < d <= length && 2 * length <= WORD && d % 2 == 1 && n > 0
    ensures Visit(Key(d, 0), length, n) == (Visit(Key(d, 0), length, n - 1) + d) % length
  {
    var k := Key(d, 0);
    var c := Visit(k, length, n - 1);
    assert Stride(k) == d;
    Unwrapped(c + d);
    assert Advance(c, k, length) == (c + d) % WORD % length;
  }

  lemma Unwrapped(x: nat)
    requires x < WORD
    ensures x % WORD == x
  {
  }

  /**
   The odd stride is good for exactly the power-of-two lengths: for any other length there is a
   key whose walk never leaves the multiples of an odd factor and so misses slot 1.
   */
  lemma CoversExactlyPow2(length: nat)
    requires 0 < length && 2 * length <= WORD
    ensures Covers(length) <==> IsPow2(length)
  {
    if IsPow2(length) {
      forall k: Key, s: nat | s < length
        ensures Reaches(k, length, s)
      {
        VisitStepsTo(k, length, s);
      }
    } else {
      var d, e := OddFactor(length);
      var k := Key(d, 0);
      if Reaches(k, length, 1) {
        var n: nat :| n < length && Visit(k, length, n) == 1;
        VisitMultiples(length, d, e, n);
        CongruentUnique(1, 0, d);
      }
    }
  }

  // ---- The probe order as an abstract permutation ----

  /**
   A probe order: `at(k, n)` is the n-th slot tried for `k`, `index(k, s)` the number of slots
   tried before `s`.
   */
  datatype Probe = Probe(length: nat, at: (Key, nat) -> nat, index: (Key, nat) -> nat)

  /** `at` and `index` are inverse permutations of the slots. */
  ghost predicate Permutes(p: Probe) {
    && p.length > 0
    && (forall k: Key, n: nat {:trigger p.at(k, n)} | n < p.length :: p.at(k, n) < p.length)
    && (forall k: Key, n: nat {:trigger p.index(k, p.at(k, n))} | n < p.length :: p.index(k, p.at(k, n)) == n)
    && (forall k: Key, s: nat {:trigger p.index(k, s)} | s < p.length :: p.index(k, s) < p.length && p.at(k, p.index(k, s)) == s)
  }

  /** The program's walk follows the probe order and closes after `length` steps. */
  ghost predicate Follows(p: Probe) {
    && p.length > 0
    && (forall k: Key {:trigger First(k, p.length)} :: First(k, p.length) == p.at(k, 0))
    && (forall k: Key, n: nat {:trigger Advance(p.at(k, n), k, p.length)} | n < p.length ::
          Advance(p.at(k, n), k, p.length) == p.at(k, if n + 1 == p.length then 0 else n + 1))
  }

  ghost function OddProbe(length: nat): (p: Probe)
    requires IsPow2(length) && length <= WORD
    ensures p.length == length
  {
    Probe(length, (k: Key, n: nat) => Visit(k, length, n), (k: Key, s: nat) => StepsTo(k, length, s))
  }

  /** For a power-of-two length the walk is a probe order that visits every slot exactly once. */
  lemma OddProbePermutes(length: nat)
    requires IsPow2(length) && length <= WORD
    ensures Permutes(OddProbe(length)) && Follows(OddProbe(length))
  {
    var p := OddProbe(length);
    assert length > 0 by {
      Pow2IsPositive(length);
    }
    forall k: Key, n: nat | n < length
      ensures p.at(k, n) < length && p.index(k, p.at(k, n)) == n
      ensures Advance(p.at(k, n), k, p.length) == p.at(k, if n + 1 == p.length then 0 else n + 1)
    {
      OddProbeAt(k, length, n);
    }
    forall k: Key
      ensures First(k, p.length) == p.at(k, 0)
    {
      OddProbeAt(k, length, 0);
    }
    hide Visit, StepsTo, First, Advance, IsPow2;
    forall k: Key, s: nat | s < length
      ensures p.index(k, s) < length && p.at(k, p.index(k, s)) == s
    {
      VisitStepsTo(k, length, s);
    }
  }

  lemma Pow2IsPositive(n: nat)
    requires IsPow2(n)
    ensures n > 0
  {
  }

  lemma OddProbeAt(k: Key, length: nat, n: nat)
    requires IsPow2(length) && length <= WORD && n < length
    ensures Visit(k, length, n) < length && StepsTo(k, length, Visit(k, length, n)) == n
    ensures Advance(Visit(k, length, n), k, length) == Visit(k, length, if n + 1 == length then 0 else n + 1)
    ensures First(k, length) == Visit(k, length, 0)
  {
    VisitStepsTo(k, length, Visit(k, length, n));
    VisitInjective(k, length, n, StepsTo(k, length, Visit(k, length, n)));
    VisitReturns(k, length);
    assert Visit(k, length, n + 1) == Advance(Visit(k, length, n), k, length);
  }
}
