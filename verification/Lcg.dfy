/** The linear congruential generator behind the cluster bootstrap, and its exact period. */
module Lcg {
  import opened Powers

  const MULTIPLIER: int := 1103515245
  const INCREMENT: int := 12345
  const MODULUS: int := 0x8000_0000

  /** The generator's state after `n` draws; the seed is masked to 31 bits first. */
  function Nth(seed: int, n: nat): (x: nat)
    ensures x < MODULUS
  {
    if n == 0 then seed % MODULUS else (MULTIPLIER * Nth(seed, n - 1) + INCREMENT) % MODULUS
  }

  /** The generator: each draw updates `x` and yields it. */
  class Generator {
    var x: nat
    ghost const seed: int
    ghost var drawn: nat

    ghost predicate Valid()
      reads this
    {
      x == Nth(seed, drawn)
    }

    constructor (seed: int)
      ensures Valid() && this.seed == seed && drawn == 0 && x == seed % 0x8000_0000
    {
      this.seed := seed;
      x := seed % MODULUS;
      drawn := 0;
    }

    method Draw() returns (r: nat)
      requires Valid()
      modifies this
      ensures Valid() && drawn == old(drawn) + 1 && r == Nth(seed, drawn)
      ensures x == r == (1103515245 * old(x) + 12345) % 0x8000_0000
    {
      x := (MULTIPLIER * x + INCREMENT) % MODULUS;
      drawn := drawn + 1;
      r := x;
    }
  }

  // ---------------------------------------------------------------- congruence

  /** The same sequence without the mask. */
  function Raw(seed: int, n: nat): int { if n == 0 then seed else MULTIPLIER * Raw(seed, n - 1) + INCREMENT }

  ghost predicate Cong(x: int, y: int, m: int) { exists q :: x == y + m * q }

  lemma CongIffMod(x: int, y: int, m: int)
    requires m > 0
    ensures Cong(x, y, m) <==> x % m == y % m
  {
    if x % m == y % m {
      assert x == y + m * (x / m - y / m);
    }
    if Cong(x, y, m) {
      var q :| x == y + m * q;
      assert x == m * (y / m + q) + y % m;
      Remainder(m, y / m + q, y % m, x);
    }
  }

  lemma NonzeroMultiple(m: int, d: int)
    requires m > 0 && d != 0
    ensures m * d >= m || m * d <= -m
  {
  }

  lemma Remainder(m: int, q: int, r: int, x: int)
    requires 0 <= r < m && x == m * q + r
    ensures x % m == r
  {
    var d := q - x / m;
    assert m * d == x % m - r;
    if d != 0 { NonzeroMultiple(m, d); }
  }

  lemma CongTrans(x: int, y: int, z: int, m: int)
    requires Cong(x, y, m) && Cong(y, z, m)
    ensures Cong(x, z, m)
  {
    var p :| x == y + m * p;
    var q :| y == z + m * q;
    assert x == z + m * (p + q);
  }

  lemma CongAffine(x: int, y: int, m: int, a: int, c: int)
    requires Cong(x, y, m)
    ensures Cong(a * x + c, a * y + c, m)
  {
    var q :| x == y + m * q;
    assert a * x + c == (a * y + c) + m * (a * q) by { assert a * (m * q) == m * (a * q); }
  }

  lemma CongStep(x: int, y: int, m: int, a: int, c: int)
    requires m > 0 && Cong(x, y, m)
    ensures Cong((a * x + c) % m, a * y + c, m)
  {
    CongAffine(x, y, m, a, c);
    CongMask(a * x + c, m);
    CongTrans((a * x + c) % m, a * x + c, a * y + c, m);
  }

  lemma CongMask(x: int, m: int)
    requires m > 0
    ensures Cong(x % m, x, m)
  {
    assert x % m == x + m * (-(x / m));
  }

  lemma {:induction false} NthIsRaw(seed: int, n: nat)
    ensures Cong(Nth(seed, n), Raw(seed, n), MODULUS)
  {
    if n == 0 {
      CongMask(seed, MODULUS);
    } else {
      NthIsRaw(seed, n - 1);
      CongStep(Nth(seed, n - 1), Raw(seed, n - 1), MODULUS, MULTIPLIER, INCREMENT);
    }
  }

  lemma {:induction false} Pow2Divides(k: nat, n: nat)
    requires k <= n
    ensures Cong(Pow2(n), 0, Pow2(k))
  {
    if k == n {
      assert Pow2(n) == 0 + Pow2(k) * 1;
    } else {
      Pow2Divides(k, n - 1);
      var q :| Pow2(n - 1) == 0 + Pow2(k) * q;
      assert Pow2(n) == 0 + Pow2(k) * (2 * q);
    }
  }

  lemma ModulusIsPow2()
    ensures Pow2(31) == MODULUS
  {
    assert Pow2(8) == 256;
    assert Pow2(16) == 65536;
    assert Pow2(24) == 0x100_0000;
  }

  lemma CongFactor(x: int, y: int, m: int, p: int)
    requires Cong(x, y, m) && Cong(m, 0, p)
    ensures Cong(x, y, p)
  {
    var a :| x == y + m * a;
    var b :| m == 0 + p * b;
    assert (p * b) * a == p * (b * a);
    assert x == y + p * (b * a);
  }

  /** The low bits of the generator are those of the unmasked sequence. */
  lemma LowBits(seed: int, n: nat, k: nat)
    requires k <= 31
    ensures Nth(seed, n) % Pow2(k) == Raw(seed, n) % Pow2(k)
  {
    NthIsRaw(seed, n);
    ModulusIsPow2();
    Pow2Divides(k, 31);
    CongFactor(Nth(seed, n), Raw(seed, n), MODULUS, Pow2(k));
    CongIffMod(Nth(seed, n), Raw(seed, n), Pow2(k));
  }

  // ---------------------------------------------------------------- jumps of 2^k draws

  /** 2^k draws are one affine step, with multiplier 1 + 4 * 2^k * u and increment 2^k * v. */
  datatype Jump = Jump(u: int, v: int)

  function JumpOf(k: nat): (j: Jump)
    ensures j.v % 2 == 1
  {
    if k == 0 then Jump(275878811, INCREMENT)
    else
      var j, p := JumpOf(k - 1), Pow2(k - 1);
      OddPlusEven(j.v, p * j.u * j.v);
      Jump(j.u + 2 * (p * j.u * j.u), j.v + 2 * (p * j.u * j.v))
  }

  lemma OddPlusEven(v: int, e: int)
    requires v % 2 == 1
    ensures (v + 2 * e) % 2 == 1
  {
  }

  /** Doing an affine step of that form twice gives one of that form for twice the draws. */
  lemma {:induction false} ComposeTwice(p: int, u: int, v: int, r: int)
    ensures (1 + 4 * (p * u)) * ((1 + 4 * (p * u)) * r + p * v) + p * v
            == (1 + 4 * (2 * p * (u + 2 * (p * u * u)))) * r + 2 * p * (v + 2 * (p * u * v))
  {
    var a := p * u;
    assert (1 + 4 * a) * (p * v) + p * v == 2 * (p * v) + 4 * (a * (p * v));
    assert a * (p * v) == p * (p * u * v);
    assert 2 * p * (v + 2 * (p * u * v)) == 2 * (p * v) + 4 * (p * (p * u * v));
    assert a * a == p * (p * u * u);
    assert 2 * p * (u + 2 * (p * u * u)) == 2 * a + 4 * (a * a);
    assert (1 + 4 * a) * (1 + 4 * a) == 1 + 4 * (2 * a + 4 * (a * a));
    Distribute(1 + 4 * a, r, p * v);
  }

  lemma Distribute(a: int, r: int, c: int)
    ensures a * (a * r + c) == (a * a) * r + a * c
  {
  }

  ghost predicate Jumped(p: int, j: Jump, r: int, r': int) { r' == (1 + 4 * (p * j.u)) * r + p * j.v }

  lemma {:induction false} JumpedTwice(p: int, j: Jump, p': int, j': Jump, r: int, r1: int, r2: int)
    requires Jumped(p, j, r, r1) && Jumped(p, j, r1, r2)
    requires p' == 2 * p && j' == Jump(j.u + 2 * (p * j.u * j.u), j.v + 2 * (p * j.u * j.v))
    ensures Jumped(p', j', r, r2)
  {
    ComposeTwice(p, j.u, j.v, r);
  }

  lemma {:induction false} JumpedOnce(r: int)
    ensures Jumped(1, Jump(275878811, INCREMENT), r, MULTIPLIER * r + INCREMENT)
  {
    assert 1 + 4 * (1 * 275878811) == MULTIPLIER;
  }

  lemma {:induction false} OneDraw(seed: int, n: nat)
    ensures Jumped(Pow2(0), JumpOf(0), Raw(seed, n), Raw(seed, n + 1))
  {
    JumpedOnce(Raw(seed, n));
  }

  lemma {:induction false} JumpRaw(seed: int, n: nat, k: nat)
    ensures Jumped(Pow2(k), JumpOf(k), Raw(seed, n), Raw(seed, n + Pow2(k)))
    decreases k
  {
    if k == 0 {
      OneDraw(seed, n);
    } else {
      var j, p := JumpOf(k - 1), Pow2(k - 1);
      var m, l := n + p, n + p + p;
      JumpRaw(seed, n, k - 1);
      JumpRaw(seed, m, k - 1);
      JumpedTwice(p, j, Pow2(k), JumpOf(k), Raw(seed, n), Raw(seed, m), Raw(seed, l));
      assert l == n + Pow2(k);
    }
  }

  /** One jump more, when `t - 1` jumps already changed the value as stated. */
  lemma JumpAgain(p: int, j: Jump, t: int, r0: int, q0: int, r: int, r': int) returns (q: int)
    requires Jumped(p, j, r, r') && r == r0 + p * (t - 1 + 2 * q0) && j.v % 2 == 1
    ensures r' == r0 + p * (t + 2 * q)
  {
    var h := j.v / 2;
    assert j.v == 1 + 2 * h;
    q := q0 + 2 * (j.u * r) + h;
    assert (p * j.u) * r == p * (j.u * r);
    assert r' == r + 4 * (p * (j.u * r)) + p * j.v;
    assert p * (t + 2 * q) == p * (t - 1 + 2 * q0) + 4 * (p * (j.u * r)) + p * (1 + 2 * h);
  }

  /** `t` jumps of 2^k draws change the value by 2^k times a number of the parity of `t`. */
  lemma {:induction false} Jumps(seed: int, n: nat, k: nat, t: nat) returns (q: int)
    ensures Raw(seed, n + Pow2(k) * t) == Raw(seed, n) + Pow2(k) * (t + 2 * q)
  {
    if t == 0 {
      q := 0;
    } else {
      var p := Pow2(k);
      var q0 := Jumps(seed, n, k, t - 1);
      var m := n + p * (t - 1);
      assert m + p == n + p * t;
      JumpRaw(seed, m, k);
      q := JumpAgain(p, JumpOf(k), t, Raw(seed, n), q0, Raw(seed, m), Raw(seed, m + p));
    }
  }

  // ---------------------------------------------------------------- the period

  /** What decides the next bit: positions that agree modulo p and values that moved accordingly. */
  lemma NextBit(x: int, y: int, j: int, i: int, p: int, t: int, q: int)
    requires p > 0 && x == y + p * (t + 2 * q) && j == i + p * t
    ensures Cong(x, y, 2 * p) <==> Cong(j, i, 2 * p)
  {
    EvenMultipleIff(x, y, p, t + 2 * q);
    EvenMultipleIff(j, i, p, t);
    assert (t + 2 * q) % 2 == t % 2;
  }

  lemma {:induction false} RawPeriod(seed: int, k: nat, i: nat, j: nat)
    requires i <= j
    ensures Cong(Raw(seed, j), Raw(seed, i), Pow2(k)) <==> Cong(j, i, Pow2(k))
    decreases k
  {
    var x, y := Raw(seed, j), Raw(seed, i);
    if k == 0 {
      assert x == y + 1 * (x - y) && j == i + 1 * (j - i);
    } else {
      var p := Pow2(k - 1);
      RawPeriod(seed, k - 1, i, j);
      HalfCong(x, y, p);
      HalfCong(j, i, p);
      if Cong(j, i, p) {
        var t :| j == i + p * t;
        NonNegativeQuotient(p, t, j - i);
        var q := Jumps(seed, i, k - 1, t);
        NextBit(x, y, j, i, p, t, q);
      }
    }
  }

  lemma HalfCong(x: int, y: int, p: int)
    ensures Cong(x, y, 2 * p) ==> Cong(x, y, p)
  {
    if Cong(x, y, 2 * p) {
      var q :| x == y + 2 * p * q;
      assert x == y + p * (2 * q);
    }
  }

  lemma NonNegativeQuotient(p: int, t: int, d: int)
    requires p > 0 && d >= 0 && d == p * t
    ensures t >= 0
  {
  }

  lemma EvenMultipleIff(x: int, y: int, p: int, t: int)
    requires p > 0 && x == y + p * t
    ensures Cong(x, y, 2 * p) <==> t % 2 == 0
  {
    if t % 2 == 0 { assert x == y + 2 * p * (t / 2); }
    if Cong(x, y, 2 * p) {
      var q :| x == y + 2 * p * q;
      CancelFactor(p, t, 2 * q);
    }
  }

  lemma {:induction false} CancelFactor(p: int, s: int, t: int)
    requires p > 0 && p * s == p * t
    ensures s == t
  {
    if s != t {
      assert p * (s - t) == 0;
      NonzeroMultiple(p, s - t);
    }
  }

  /** Full period, for every number of low bits: from any seed, two draws agree on their low k bits
      exactly when their positions differ by a multiple of 2^k. */
  lemma ExactPeriod(seed: int, k: nat, i: nat, j: nat)
    requires k <= 31
    ensures Nth(seed, i) % Pow2(k) == Nth(seed, j) % Pow2(k) <==> i % Pow2(k) == j % Pow2(k)
  {
    if j < i {
      ExactPeriod(seed, k, j, i);
    } else {
      LowBits(seed, i, k);
      LowBits(seed, j, k);
      RawPeriod(seed, k, i, j);
      CongIffMod(Raw(seed, j), Raw(seed, i), Pow2(k));
      CongIffMod(j, i, Pow2(k));
    }
  }

  lemma Quotient(x: int, y: int, m: int) returns (q: int)
    requires Cong(x, y, m)
    ensures x == y + m * q
  {
    q :| x == y + m * q;
  }

  lemma OneOfTwo(r: int, r': int, v: int, p: int, t: int, q: int)
    requires p > 0 && r == v + p * t && r' == r + p * (1 + 2 * q)
    ensures if t % 2 == 0 then Cong(r, v, 2 * p) else Cong(r', v, 2 * p)
  {
    if t % 2 == 0 {
      EvenMultipleIff(r, v, p, t);
    } else {
      assert r' == v + p * (t + 1 + 2 * q);
      EvenMultipleIff(r', v, p, t + 1 + 2 * q);
    }
  }

  lemma {:induction false} RawVisits(seed: int, k: nat, start: nat, v: int) returns (n: nat)
    ensures start <= n < start + Pow2(k) && Cong(Raw(seed, n), v, Pow2(k))
    decreases k
  {
    if k == 0 {
      n := start;
      var x := Raw(seed, n);
      assert x == v + 1 * (x - v);
    } else {
      var p := Pow2(k - 1);
      var m := RawVisits(seed, k - 1, start, v);
      var r, r' := Raw(seed, m), Raw(seed, m + p);
      var t := Quotient(r, v, p);
      var q := Jumps(seed, m, k - 1, 1);
      assert p * 1 == p;
      OneOfTwo(r, r', v, p, t, q);
      n := if t % 2 == 0 then m else m + p;
    }
  }

  /** Every value of the low k bits turns up among any 2^k consecutive draws; with k = 31, the generator
      visits all 2^31 values before it repeats one. */
  lemma VisitsEverything(seed: int, k: nat, start: nat, v: nat) returns (n: nat)
    requires k <= 31 && v < Pow2(k)
    ensures start <= n < start + Pow2(k) && Nth(seed, n) % Pow2(k) == v
  {
    n := RawVisits(seed, k, start, v);
    LowBits(seed, n, k);
    CongIffMod(Raw(seed, n), v, Pow2(k));
    Remainder(Pow2(k), 0, v, v);
  }

  /** The whole state, not only its low bits, repeats exactly every 2^31 draws. */
  lemma StatePeriod(seed: int, i: nat, j: nat)
    ensures Nth(seed, i) == Nth(seed, j) <==> i % MODULUS == j % MODULUS
  {
    ModulusIsPow2();
    ExactPeriod(seed, 31, i, j);
    Remainder(MODULUS, 0, Nth(seed, i), Nth(seed, i));
    Remainder(MODULUS, 0, Nth(seed, j), Nth(seed, j));
  }
}
