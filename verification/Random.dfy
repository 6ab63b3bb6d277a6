/** The random scheduler of proc.c: its linear congruential generator visits every index
    exactly once per round whenever the number of runnable processes is a power of two. */
module Random {
  import opened Basics

  const A := 1664525
  const C := 1013904223

  /** rand(): unsigned 32-bit arithmetic wraps. */
  function Rand(seed: nat): (r: nat)
    ensures r < 0x1_0000_0000
  {
    (seed * A + C) % 0x1_0000_0000
  }

  /** The seed after n calls. */
  function Seed(seed: nat, n: nat): nat {
    if n == 0 then seed else Rand(Seed(seed, n - 1))
  }

  /** The index drawn by call number n, counting from 0, among count processes. */
  function Draw(seed: nat, n: nat, count: nat): (i: nat)
    requires count > 0
    ensures i < count
  {
    Seed(seed, n + 1) % count
  }

  // ----- the same sequence without wrap-around -----

  ghost function It(x: int, n: nat): int {
    if n == 0 then x else A * It(x, n - 1) + C
  }

  lemma {:induction false} ItAdd(x: int, m: nat, n: nat)
    ensures It(x, m + n) == It(It(x, m), n)
    decreases n
  {
    if n > 0 { ItAdd(x, m, n - 1); }
  }

  /** The maps that 2^k steps turn out to be, with m = 2^k. */
  ghost function Lin(m: int, p: int, q: int, x: int): int {
    (1 + 4 * m * p) * x + m * (2 * q + 1)
  }

  lemma LinTwice(m: int, p: int, q: int, x: int)
    ensures Lin(m, p, q, Lin(m, p, q, x)) == Lin(2 * m, p + 2 * m * p * p, q + m * p * (2 * q + 1), x)
  {
    var u := 4 * m * p;
    var c := m * (2 * q + 1);
    assert (1 + u) * ((1 + u) * x + c) + c == (1 + 2 * u + u * u) * x + (2 + u) * c;
    assert 4 * (2 * m) * (p + 2 * m * p * p) == 2 * u + u * u;
    assert (2 * m) * (2 * (q + m * p * (2 * q + 1)) + 1) == (2 + u) * c;
  }

  /** 2^k steps are one of those maps: the multiplier is 1 modulo 4 and the increment odd. */
  lemma {:induction false} Doubling(k: nat) returns (p: int, q: int)
    ensures forall x :: It(x, Pow2(k)) == Lin(Pow2(k), p, q, x)
  {
    if k == 0 {
      p, q := 416131, 506952111;
      forall x ensures It(x, Pow2(k)) == Lin(Pow2(k), p, q, x) {
        OneStep(x);
      }
    } else {
      hide Lin, It;
      var p0, q0 := Doubling(k - 1);
      var m := Pow2(k - 1);
      p, q := p0 + 2 * m * p0 * p0, q0 + m * p0 * (2 * q0 + 1);
      forall x ensures It(x, Pow2(k)) == Lin(Pow2(k), p, q, x) {
        ItAdd(x, m, m);
        LinTwice(m, p0, q0, x);
      }
    }
  }

  lemma OneStep(x: int)
    ensures It(x, Pow2(0)) == Lin(Pow2(0), 416131, 506952111, x)
  {
    assert It(x, 1) == A * It(x, 0) + C;
  }

  /** A product the solver is not asked to expand. */
  ghost function Mul(a: int, b: int): int {
    a * b
  }

  /** 2^k steps add an odd multiple of 2^k. */
  lemma Advance(x: int, k: nat) returns (t: int)
    ensures It(x, Pow2(k)) == x + Mul(Pow2(k), 2 * t + 1)
  {
    var p, q := Doubling(k);
    t := 2 * p * x + q;
    AdvanceAlgebra(Pow2(k), p, q, x);
  }

  lemma AdvanceAlgebra(m: int, p: int, q: int, x: int)
    ensures Lin(m, p, q, x) == x + Mul(m, 2 * (2 * p * x + q) + 1)
  {
  }

  ghost function Times(n: nat, m: nat): nat {
    if n == 0 then 0 else Times(n - 1, m) + m
  }

  lemma Factor(m: int, a: int, b: int)
    ensures Mul(m, a) + Mul(m, b) == Mul(m, a + b)
  {
  }

  /** n * 2^k steps add 2^k * s with s of the parity of n. */
  lemma {:induction false} AdvanceMany(x: int, k: nat, n: nat) returns (s: int)
    ensures It(x, Times(n, Pow2(k))) == x + Mul(Pow2(k), s) && s % 2 == n % 2
    decreases n
  {
    hide It, Pow2, Mul, Times;
    if n == 0 {
      s := 0;
      NoTimes(x, Pow2(k));
    } else {
      var s0 := AdvanceMany(x, k, n - 1);
      s := AdvanceOnce(x, k, n, s0);
    }
  }

  lemma NoTimes(x: int, m: nat)
    ensures It(x, Times(0, m)) == x + Mul(m, 0)
  {
  }

  lemma TimesStep(n: nat, m: nat)
    requires n > 0
    ensures Times(n, m) == Times(n - 1, m) + m
  {
  }

  lemma AdvanceOnce(x: int, k: nat, n: nat, s0: int) returns (s: int)
    requires n > 0 && It(x, Times(n - 1, Pow2(k))) == x + Mul(Pow2(k), s0) && s0 % 2 == (n - 1) % 2
    ensures It(x, Times(n, Pow2(k))) == x + Mul(Pow2(k), s) && s % 2 == n % 2
  {
    hide It, Pow2, Mul, Times;
    var m := Pow2(k);
    var before := Times(n - 1, m);
    TimesStep(n, m);
    ItAdd(x, before, m);
    var t := Advance(It(x, before), k);
    s := s0 + (2 * t + 1);
    Factor(m, s0, 2 * t + 1);
    Parity(s0, t, n);
  }

  lemma Parity(s: int, t: int, n: nat)
    requires n > 0 && s % 2 == (n - 1) % 2
    ensures (s + (2 * t + 1)) % 2 == n % 2
  {
  }

  // ----- no repetition within 2^k steps -----

  /** d = n * 2^j with n odd. */
  lemma {:induction false} OddPart(d: nat, k: nat) returns (n: nat, j: nat)
    requires 0 < d < Pow2(k)
    ensures n % 2 == 1 && j < k && d == Times(n, Pow2(j))
    decreases d
  {
    if d % 2 == 1 {
      n, j := d, 0;
      TimesOne(d);
    } else {
      n, j := OddPart(d / 2, k - 1);
      TimesDouble(n, Pow2(j));
      j := j + 1;
    }
  }

  lemma {:induction false} TimesOne(n: nat)
    ensures Times(n, 1) == n
  {
    if n > 0 { TimesOne(n - 1); }
  }

  lemma {:induction false} TimesDouble(n: nat, m: nat)
    ensures Times(n, 2 * m) == 2 * Times(n, m)
  {
    if n > 0 { TimesDouble(n - 1, m); }
  }

  lemma Halve(k: nat, t: int)
    requires k > 0
    ensures Mul(Pow2(k), t) == 2 * Mul(Pow2(k - 1), t)
  {
  }

  /** An odd multiple of 2^j is no multiple of 2^k for j < k. */
  lemma {:induction false} OddMultiple(j: nat, k: nat, s: int, t: int)
    requires j < k && s % 2 == 1
    ensures Mul(Pow2(j), s) != Mul(Pow2(k), t)
    decreases j
  {
    Halve(k, t);
    if j == 0 {
      assert Mul(Pow2(0), s) == s;
    } else {
      hide Mul, Pow2;
      Halve(j, s);
      OddMultiple(j - 1, k - 1, s, t);
    }
  }

  lemma SameRemainder(x: int, y: int, m: int) returns (t: int)
    requires m > 0 && x % m == y % m
    ensures y - x == Mul(m, t)
  {
    t := y / m - x / m;
    DivMod(y, m);
    DivMod(x, m);
    Factor(m, y / m, -(x / m));
    assert Mul(m, -(x / m)) == -Mul(m, x / m);
  }

  lemma DivMod(x: int, m: int)
    requires m > 0
    ensures x == Mul(m, x / m) + x % m
  {
  }

  lemma NoRepeat(x: int, k: nat, d: nat)
    requires 0 < d < Pow2(k)
    ensures It(x, d) % Pow2(k) != x % Pow2(k)
  {
    hide It, Pow2, Mul;
    var n, j := OddPart(d, k);
    var s := AdvanceMany(x, j, n);
    if It(x, d) % Pow2(k) == x % Pow2(k) {
      var t := SameRemainder(x, It(x, d), Pow2(k));
      OddMultiple(j, k, s, t);
    }
  }

  // ----- the wrapped sequence agrees modulo 2^k -----

  lemma {:induction false} Pow2Divides(k: nat, n: nat) returns (q: nat)
    requires k <= n
    ensures Pow2(n) == Mul(Pow2(k), q) && q >= 1
    decreases n - k
  {
    if k == n {
      q := 1;
    } else {
      var q0 := Pow2Divides(k, n - 1);
      q := 2 * q0;
      Factor(Pow2(k), q0, q0);
    }
  }

  lemma Pow2Of32() ensures Pow2(32) == 0x1_0000_0000
  {
    var n: nat := 0;
    Pow2Plus8(n);
    Pow2Plus8(n + 8);
    Pow2Plus8(n + 16);
    Pow2Plus8(n + 24);
  }

  /** Reducing modulo a multiple of m does not change the remainder modulo m. */
  lemma ModMod(x: int, m: int, q: int)
    requires m > 0 && q > 0
    ensures Mul(m, q) > 0 && x % Mul(m, q) % m == x % m
  {
    var n := Mul(m, q);
    assert n > 0;
    var t := Mul(q, x / n);
    assert x == Mul(m, t) + x % n by {
      DivMod(x, n);
      assert Mul(n, x / n) == Mul(m, t);
    }
    AddMultiple(x % n, m, t);
  }

  lemma AddMultiple(x: int, m: int, t: int)
    requires m > 0
    ensures (Mul(m, t) + x) % m == x % m
  {
    DivMod(x, m);
    var y := Mul(m, t) + x;
    assert y == Mul(m, t + x / m) + x % m by { Factor(m, t, x / m); }
    DivModUnique(y, m, t + x / m, x % m);
  }

  lemma NoMultiple(m: int, e: int)
    requires m > 0 && -m < Mul(m, e) < m
    ensures e == 0
  {
  }

  lemma DivModUnique(y: int, m: int, q: int, r: int)
    requires m > 0 && y == Mul(m, q) + r && 0 <= r < m
    ensures y % m == r
  {
    DivMod(y, m);
    var e := q - y / m;
    assert Mul(m, q) - Mul(m, y / m) == Mul(m, e) by { Factor(m, e, y / m); }
    assert y % m - r == Mul(m, e);
    NoMultiple(m, e);
  }

  /** The wrapped seed and the unbounded one agree modulo every 2^k with k <= 32. */
  lemma {:induction false} Wrapped(seed: nat, n: nat, k: nat)
    requires k <= 32
    ensures Seed(seed, n) % Pow2(k) == It(seed, n) % Pow2(k)
    decreases n
  {
    if n == 0 {
    } else {
      hide Pow2, Mul;
      Wrapped(seed, n - 1, k);
      var x, y, m := Seed(seed, n - 1), It(seed, n - 1), Pow2(k);
      var t := SameRemainder(x, y, m);
      Scaled(x, y, m, t);
      AddMultiple(x * A + C, m, A * t);
      RandMod(x, k);
    }
  }

  lemma Scaled(x: int, y: int, m: int, t: int)
    requires y - x == Mul(m, t)
    ensures A * y + C == Mul(m, A * t) + (x * A + C)
  {
  }

  lemma RandMod(x: nat, k: nat)
    requires k <= 32
    ensures Rand(x) % Pow2(k) == (x * A + C) % Pow2(k)
  {
    var q := Pow2Divides(k, 32);
    Pow2Of32();
    hide Mul, Pow2;
    ModMod(x * A + C, Pow2(k), q);
  }

  // ----- the full period -----

  /** Two draws less than 2^k calls apart differ. */
  lemma DrawsDiffer(seed: nat, i: nat, j: nat, k: nat)
    requires k <= 32 && i < j < i + Pow2(k)
    ensures Draw(seed, i, Pow2(k)) != Draw(seed, j, Pow2(k))
  {
    hide Pow2, It, Seed;
    Wrapped(seed, i + 1, k);
    Wrapped(seed, j + 1, k);
    ItAdd(seed, i + 1, j - i);
    NoRepeat(It(seed, i + 1), k, j - i);
  }

  ghost predicate Bounded(s: seq<nat>, m: nat) {
    forall i :: 0 <= i < |s| ==> s[i] < m
  }

  lemma {:induction false} Subset(a: set<nat>, b: set<nat>)
    requires a <= b && |a| >= |b|
    ensures a == b
  {
    if a == {} {
    } else {
      var x :| x in a;
      Subset(a - {x}, b - {x});
    }
  }

  /** m distinct numbers below m are all of them. */
  lemma Pigeonhole(s: seq<nat>, m: nat, i: nat)
    requires |s| == m && AllDifferent(s) && Bounded(s, m) && i < m
    ensures i in s
  {
    ElementsCount(s);
    assert Elements(s) <= Below(m);
    Subset(Elements(s), Below(m));
    assert i in Below(m);
  }

  /** 2^k consecutive draws. */
  ghost function Round(seed: nat, start: nat, k: nat): (s: seq<nat>)
    ensures |s| == Pow2(k)
    ensures forall n :: 0 <= n < Pow2(k) ==> s[n] == Draw(seed, start + n, Pow2(k))
  {
    seq<nat>(Pow2(k), (n: nat) => Draw(seed, start + n, Pow2(k)))
  }

  /** While the runnable count stays 2^k, any 2^k consecutive draws pick each index exactly once,
      whatever the seed and wherever the round starts. */
  lemma FullPeriod(seed: nat, start: nat, k: nat, i: nat)
    requires k <= 32 && i < Pow2(k)
    ensures multiset(Round(seed, start, k))[i] == 1
  {
    hide Pow2, Draw;
    var s := Round(seed, start, k);
    forall a, b | 0 <= a < b < |s| ensures s[a] != s[b] {
      DrawsDiffer(seed, start + a, start + b, k);
    }
    assert Bounded(s, Pow2(k));
    Pigeonhole(s, Pow2(k), i);
    CountOne(s, i);
  }

  lemma CountOne(s: seq<nat>, i: nat)
    requires AllDifferent(s) && i in s
    ensures multiset(s)[i] == 1
  {
    var n :| 0 <= n < |s| && s[n] == i;
    assert s == s[..n] + [i] + s[n + 1..];
    assert i !in s[..n] && i !in s[n + 1..];
  }
}
