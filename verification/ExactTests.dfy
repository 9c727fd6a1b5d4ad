/** The exact two-sided McNemar test, in exact arithmetic: `b` and `c` count the discordant pairs won by
    either arm, and the p-value doubles the smaller binomial tail. */
module ExactTests {
  import opened Powers
  import opened Sequences

  function Choose(n: nat, i: int): nat {
    if i < 0 then 0 else if i == 0 then 1 else if n == 0 then 0 else Choose(n - 1, i - 1) + Choose(n - 1, i)
  }

  /** The binomial mass of at most `m` wins among `n`, in units of 2^-n. */
  function Tail(n: nat, m: int): nat
    decreases m
  {
    if m < 0 then 0 else Tail(n, m - 1) + Choose(n, m)
  }

  function Min(b: nat, c: nat): nat { if b <= c then b else c }

  /** `x` * 2^-n. */
  function Halved(x: real, n: nat): real { if n == 0 then x else Halved(x, n - 1) / 2.0 }

  /** The p-value as the repository-level analysis computes it: the tail, then the scaling. */
  function McNemar(b: nat, c: nat): real {
    var n := b + c;
    if n == 0 then 1.0
    else var p := Halved((2 * Tail(n, Min(b, c))) as real, n); if p <= 1.0 then p else 1.0
  }

  /** The scaled terms of the tail, summed one by one. */
  function ScaledTail(n: nat, m: int): real
    decreases m
  {
    if m < 0 then 0.0 else ScaledTail(n, m - 1) + Halved(Choose(n, m) as real, n)
  }

  /** The p-value as the paired analysis computes it: every term scaled before it is summed. */
  function McNemarTermwise(b: nat, c: nat): real {
    var n := b + c;
    if n == 0 then 1.0
    else var p := 2.0 * ScaledTail(n, Min(b, c)); if p <= 1.0 then p else 1.0
  }

  /** The test over two paired arms: it counts the pairs one arm passed and the other failed. */
  method PairedMcNemar(a: map<nat, int>, b: map<nat, int>, tids: seq<nat>) returns (wins: nat, losses: nat, p: real)
    ensures wins == |set i | 0 <= i < |tids| && tids[i] in a && tids[i] in b && a[tids[i]] == 1 && b[tids[i]] == 0|
    ensures losses == |set i | 0 <= i < |tids| && tids[i] in a && tids[i] in b && a[tids[i]] == 0 && b[tids[i]] == 1|
    ensures p == McNemar(wins, losses)
  {
    wins, losses := 0, 0;
    ghost var won := (t: nat) => t in a && t in b && a[t] == 1 && b[t] == 0;
    ghost var lost := (t: nat) => t in a && t in b && a[t] == 0 && b[t] == 1;
    for i := 0 to |tids|
      invariant wins == |Where(tids[..i], won)| && losses == |Where(tids[..i], lost)|
    {
      var t := tids[i];
      TakeOneMore(tids, i);
      WhereLast(tids[..i], t, won);
      WhereLast(tids[..i], t, lost);
      if t in a && a[t] == 1 && t in b && b[t] == 0 { wins := wins + 1; }
      if t in b && b[t] == 1 && t in a && a[t] == 0 { losses := losses + 1; }
    }
    TakeAll(tids);
    assert Where(tids, won)
        == set i | 0 <= i < |tids| && tids[i] in a && tids[i] in b && a[tids[i]] == 1 && b[tids[i]] == 0;
    assert Where(tids, lost)
        == set i | 0 <= i < |tids| && tids[i] in a && tids[i] in b && a[tids[i]] == 0 && b[tids[i]] == 1;
    p := McNemarTermwise(wins, losses);
    BothFormsAgree(wins, losses);
  }

  /** A pair both arms passed, both failed, or one arm lacks, counts for neither arm, wherever it stands; the p-value,
      a function of the two counts, does not see it. */
  lemma OnlyDiscordantPairsCount(a: map<nat, int>, b: map<nat, int>, before: seq<nat>, t: nat, after: seq<nat>)
    requires t in a && t in b ==> a[t] == b[t]
    ensures var all, rest := before + [t] + after, before + after;
            && |set i | 0 <= i < |all| && all[i] in a && all[i] in b && a[all[i]] == 1 && b[all[i]] == 0|
               == |set i | 0 <= i < |rest| && rest[i] in a && rest[i] in b && a[rest[i]] == 1 && b[rest[i]] == 0|
            && |set i | 0 <= i < |all| && all[i] in a && all[i] in b && a[all[i]] == 0 && b[all[i]] == 1|
               == |set i | 0 <= i < |rest| && rest[i] in a && rest[i] in b && a[rest[i]] == 0 && b[rest[i]] == 1|
  {
    var all, rest := before + [t] + after, before + after;
    var won := (t: nat) => t in a && t in b && a[t] == 1 && b[t] == 0;
    var lost := (t: nat) => t in a && t in b && a[t] == 0 && b[t] == 1;
    WithoutOne(before, t, after, won);
    WithoutOne(before, t, after, lost);
    assert forall xs: seq<nat> ::
             (Where(xs, won) == set i | 0 <= i < |xs| && xs[i] in a && xs[i] in b && a[xs[i]] == 1 && b[xs[i]] == 0);
    assert forall xs: seq<nat> ::
             (Where(xs, lost) == set i | 0 <= i < |xs| && xs[i] in a && xs[i] in b && a[xs[i]] == 0 && b[xs[i]] == 1);
  }

  lemma WithoutOne(before: seq<nat>, t: nat, after: seq<nat>, p: nat -> bool)
    requires !p(t)
    ensures |Where(before + [t] + after, p)| == |Where(before + after, p)|
  {
    WhereConcat(before + [t], after, p);
    WhereConcat(before, after, p);
    WhereLast(before, t, p);
  }

  lemma {:induction false} HalvedSum(x: real, y: real, n: nat)
    ensures Halved(x, n) + Halved(y, n) == Halved(x + y, n)
  {
    if n > 0 { HalvedSum(x, y, n - 1); }
  }

  lemma {:induction false} HalvedZero(n: nat)
    ensures Halved(0.0, n) == 0.0
  {
    if n > 0 { HalvedZero(n - 1); }
  }

  lemma {:induction false} ScaledTailIsTail(n: nat, m: int)
    ensures ScaledTail(n, m) == Halved(Tail(n, m) as real, n)
    decreases m
  {
    if m < 0 {
      HalvedZero(n);
    } else {
      ScaledTailIsTail(n, m - 1);
      HalvedSum(Tail(n, m - 1) as real, Choose(n, m) as real, n);
    }
  }

  /** The two analyses compute the same p-value. */
  lemma BothFormsAgree(b: nat, c: nat)
    ensures McNemarTermwise(b, c) == McNemar(b, c)
  {
    var n, x := b + c, Tail(b + c, Min(b, c)) as real;
    ScaledTailIsTail(n, Min(b, c));
    HalvedSum(x, x, n);
  }

  // ---------------------------------------------------------------- binomial coefficients

  lemma {:induction false} ChooseBeyond(n: nat, i: int)
    requires i > n
    ensures Choose(n, i) == 0
  {
    if n > 0 {
      ChooseBeyond(n - 1, i - 1);
      ChooseBeyond(n - 1, i);
    }
  }

  lemma {:induction false} ChooseSymmetric(n: nat, i: int)
    requires i <= n
    ensures Choose(n, i) == Choose(n, n - i)
  {
    if i < 0 {
      ChooseBeyond(n, n - i);
    } else if n > 0 {
      if i == n { ChooseBeyond(n - 1, n); }
      if i == 0 { ChooseBeyond(n - 1, n); }
      ChooseSymmetric(n - 1, i - 1);
      if i < n { ChooseSymmetric(n - 1, i); }
    }
  }

  lemma {:induction false} ChoosePositive(n: nat, i: int)
    requires 0 <= i <= n
    ensures Choose(n, i) > 0
  {
    if 0 < i { ChoosePositive(n - 1, i - 1); }
  }

  lemma {:induction false} TailPascal(n: nat, m: int)
    requires n > 0
    ensures Tail(n, m) == Tail(n - 1, m) + Tail(n - 1, m - 1)
    decreases m
  {
    if m >= 0 { TailPascal(n, m - 1); }
  }

  lemma {:induction false} WholeRow(n: nat)
    ensures Tail(n, n) == Pow2(n)
  {
    if n == 0 {
      assert Tail(0, 0) == Tail(0, -1) + Choose(0, 0);
    } else {
      WholeRow(n - 1);
      TailPascal(n, n);
      ChooseBeyond(n - 1, n);
    }
  }

  lemma {:induction false} TailMonotone(n: nat, l: int, m: int)
    requires l <= m
    ensures Tail(n, l) <= Tail(n, m)
    decreases m - l
  {
    if l < m { TailMonotone(n, l, m - 1); }
  }

  lemma {:induction false} TailComplement(n: nat, m: int)
    requires -1 <= m <= n
    ensures Tail(n, m) + Tail(n, n - m - 1) == Pow2(n)
    decreases m
  {
    if m == -1 {
      WholeRow(n);
    } else {
      TailComplement(n, m - 1);
      ChooseSymmetric(n, m);
    }
  }

  lemma {:induction false} HalvedOrder(x: real, y: real, n: nat)
    ensures Halved(x, n) <= Halved(y, n) <==> x <= y
  {
    if n > 0 { HalvedOrder(x, y, n - 1); }
  }

  lemma {:induction false} HalvedTwice(x: real, n: nat)
    ensures Halved(2.0 * x, n + 1) == Halved(x, n)
  {
    if n > 0 { HalvedTwice(x, n - 1); }
  }

  lemma {:induction false} HalvedUnit(n: nat)
    ensures Halved(Pow2(n) as real, n) == 1.0
  {
    if n > 0 {
      HalvedUnit(n - 1);
      HalvedTwice(Pow2(n - 1) as real, n - 1);
    }
  }

  /** The p-value in units of 2^-n. */
  function Cleared(b: nat, c: nat): nat { Min(2 * Tail(b + c, Min(b, c)), Pow2(b + c)) }

  lemma McNemarCleared(b: nat, c: nat)
    ensures McNemar(b, c) == Halved(Cleared(b, c) as real, b + c)
  {
    var n, x := b + c, 2 * Tail(b + c, Min(b, c));
    HalvedUnit(n);
    HalvedOrder(x as real, Pow2(n) as real, n);
    if n == 0 { assert Tail(0, 0) == Tail(0, -1) + Choose(0, 0); }
  }

  // ---------------------------------------------------------------- symmetry and the value 1

  /** Swapping the arms does not change the p-value. */
  lemma SwappingArms(b: nat, c: nat)
    ensures McNemar(b, c) == McNemar(c, b) && 0.0 < McNemar(b, c) <= 1.0
  {
    var n := b + c;
    McNemarCleared(b, c);
    TailMonotone(n, 0, Min(b, c));
    assert Tail(n, 0) == Tail(n, -1) + Choose(n, 0);
    HalvedZero(n);
    HalvedOrder(Cleared(b, c) as real, 0.0, n);
  }

  /** Which splits have half the mass in their smaller tail, doubled. */
  lemma WholeMassIffBalanced(b: nat, c: nat)
    ensures 2 * Tail(b + c, Min(b, c)) >= Pow2(b + c) <==> -1 <= b - c <= 1
  {
    var n, m := b + c, Min(b, c);
    TailComplement(n, m);
    if -1 <= b - c <= 1 {
      TailMonotone(n, n - m - 1, m);
    } else {
      TailMonotone(n, m, n - m - 2);
      ChoosePositive(n, n - m - 1);
    }
  }

  /** The p-value is 1 exactly when the arms win equally many pairs, give or take one. */
  lemma OneIffBalanced(b: nat, c: nat)
    ensures McNemar(b, c) == 1.0 <==> -1 <= b - c <= 1
  {
    McNemarCleared(b, c);
    HalvedUnit(b + c);
    HalvedOrder(Pow2(b + c) as real, Cleared(b, c) as real, b + c);
    WholeMassIffBalanced(b, c);
  }

  // ---------------------------------------------------------------- validity

  /** The test at level `alpha`. */
  function RejectsAt(alpha: real): (nat, nat) -> bool { (b: nat, c: nat) => McNemar(b, c) <= alpha }

  /** How many of the 2^j ways to award the remaining `j` pairs, after `b` wins and `c` losses, end in a
      rejection: under the null hypothesis all of them are equally likely. */
  function RejectingAwards(test: (nat, nat) -> bool, j: nat, b: nat, c: nat): nat {
    if j == 0 then (if test(b, c) then 1 else 0)
    else RejectingAwards(test, j - 1, b + 1, c) + RejectingAwards(test, j - 1, b, c + 1)
  }

  /** The number of ways to award `j` pairs after `b` wins that end in a win count the test rejects, by
      the number of further wins in [i, e). */
  function ByWins(rejects: nat -> bool, j: nat, b: nat, i: nat, e: nat): nat
    decreases e
  {
    if e <= i then 0
    else ByWins(rejects, j, b, i, e - 1) + (if rejects(b + e - 1) then Choose(j, e - 1) else 0)
  }

  lemma {:induction false} ByWinsFirst(rejects: nat -> bool, j: nat, b: nat, e: nat)
    requires e > 0
    ensures ByWins(rejects, j, b, 0, e) == (if rejects(b) then 1 else 0) + ByWins(rejects, j, b, 1, e)
  {
    if e == 1 {
      assert ByWins(rejects, j, b, 0, 0) == 0;
    } else {
      ByWinsFirst(rejects, j, b, e - 1);
    }
  }

  lemma {:induction false} ByWinsPascal(rejects: nat -> bool, j: nat, b: nat, e: nat)
    requires j > 0 && e > 0
    ensures ByWins(rejects, j, b, 1, e)
         == ByWins(rejects, j - 1, b + 1, 0, e - 1) + ByWins(rejects, j - 1, b, 1, e)
  {
    if e > 1 { ByWinsPascal(rejects, j, b, e - 1); }
  }

  /** Awarding one more pair either way. */
  lemma AwardsSplit(rejects: nat -> bool, j: nat, b: nat)
    requires j > 0
    ensures ByWins(rejects, j, b, 0, j + 1)
         == ByWins(rejects, j - 1, b + 1, 0, j) + ByWins(rejects, j - 1, b, 0, j)
  {
    ByWinsFirst(rejects, j, b, j + 1);
    ByWinsPascal(rejects, j, b, j + 1);
    ByWinsFirst(rejects, j - 1, b, j + 1);
    ChooseBeyond(j - 1, j);
  }

  /** Among the awards of `n` pairs, `test` rejects by win count as `rejects` does. */
  ghost predicate Decides(test: (nat, nat) -> bool, rejects: nat -> bool, n: nat) {
    forall b: nat, c: nat :: b + c == n ==> (test(b, c) <==> rejects(b))
  }

  lemma {:induction false} AwardsByWins(test: (nat, nat) -> bool, rejects: nat -> bool, j: nat, b: nat, c: nat)
    requires Decides(test, rejects, b + c + j)
    ensures RejectingAwards(test, j, b, c) == ByWins(rejects, j, b, 0, j + 1)
  {
    if j == 0 {
      assert ByWins(rejects, 0, b, 0, 0) == 0;
    } else {
      AwardsByWins(test, rejects, j - 1, b + 1, c);
      AwardsByWins(test, rejects, j - 1, b, c + 1);
      AwardsSplit(rejects, j, b);
    }
  }

  /** The win counts of `n` pairs whose p-value is at most `t` * 2^-n. */
  function SmallP(t: real, n: nat): nat -> bool { (x: nat) => x <= n && Cleared(x, n - x) as real <= t }

  lemma {:induction false} LevelInUnits(alpha: real, t: real, n: nat)
    requires t == alpha * Pow2(n) as real
    ensures Halved(t, n) == alpha
    decreases n
  {
    if n > 0 {
      var half := alpha * Pow2(n - 1) as real;
      LevelInUnits(alpha, half, n - 1);
      Doubled(alpha, Pow2(n - 1) as real, Pow2(n) as real, half, t);
      HalvedTwice(half, n - 1);
    }
  }

  lemma Doubled(alpha: real, p: real, q: real, x: real, y: real)
    requires q == 2.0 * p && x == alpha * p && y == alpha * q
    ensures y == 2.0 * x
  {
  }

  lemma LevelDecides(alpha: real, t: real, n: nat)
    requires Halved(t, n) == alpha
    ensures Decides(RejectsAt(alpha), SmallP(t, n), n)
  {
    forall b: nat, c: nat | b + c == n ensures RejectsAt(alpha)(b, c) <==> SmallP(t, n)(b) {
      McNemarCleared(b, c);
      HalvedOrder(Cleared(b, c) as real, t, n);
    }
  }

  /** The mass of the splits with fewer than `e` wins whose own lower tail is small. */
  function Lower(t: real, n: nat, e: nat): nat {
    if e == 0 then 0
    else Lower(t, n, e - 1) + (if (2 * Tail(n, e - 1)) as real <= t then Choose(n, e - 1) else 0)
  }

  /** The mass of the splits with fewer than `e` wins whose own upper tail is small. */
  function Upper(t: real, n: nat, e: nat): nat {
    if e == 0 then 0
    else Upper(t, n, e - 1) + (if (2 * Tail(n, n - e + 1)) as real <= t then Choose(n, e - 1) else 0)
  }

  lemma {:induction false} LowerBound(t: real, n: nat, e: nat)
    requires t >= 0.0
    ensures (2 * Lower(t, n, e)) as real <= t && Lower(t, n, e) <= Tail(n, e - 1)
  {
    if e > 0 { LowerBound(t, n, e - 1); }
  }

  lemma {:induction false} UpperZero(t: real, n: nat, e: nat)
    requires (2 * Tail(n, n - e)) as real > t
    ensures Upper(t, n, e) == 0
  {
    if e > 0 {
      TailMonotone(n, n - e, n - e + 1);
      UpperZero(t, n, e - 1);
    }
  }

  lemma {:induction false} UpperBound(t: real, n: nat, e: nat)
    requires t >= 0.0 && e <= n + 1
    ensures (2 * (Upper(t, n, e) + Tail(n, n - e))) as real <= t || Upper(t, n, e) == 0
  {
    if e > 0 {
      UpperBound(t, n, e - 1);
      if (2 * Tail(n, n - e + 1)) as real <= t {
        ChooseSymmetric(n, e - 1);
      } else {
        UpperZero(t, n, e - 1);
      }
    }
  }

  /** A rejected split has a small lower tail or a small upper tail, unless everything is rejected. */
  lemma {:induction false} RejectedIsExtreme(t: real, n: nat, e: nat)
    requires t < Pow2(n) as real && e <= n + 1
    ensures ByWins(SmallP(t, n), n, 0, 0, e) <= Lower(t, n, e) + Upper(t, n, e)
  {
    if e > 0 {
      var x := e - 1;
      RejectedIsExtreme(t, n, x);
      if SmallP(t, n)(x) {
        assert x + (n - x) == n;
        assert Cleared(x, n - x) == 2 * Tail(n, Min(x, n - x));
      }
    }
  }

  lemma TailsTogether(t: real, n: nat)
    requires t >= 0.0
    ensures (Lower(t, n, n + 1) + Upper(t, n, n + 1)) as real <= t
  {
    LowerBound(t, n, n + 1);
    UpperBound(t, n, n + 1);
    assert Tail(n, -1) == 0;
  }

  lemma {:induction false} AwardsAtMost(test: (nat, nat) -> bool, j: nat, b: nat, c: nat)
    ensures RejectingAwards(test, j, b, c) <= Pow2(j)
  {
    if j > 0 {
      AwardsAtMost(test, j - 1, b + 1, c);
      AwardsAtMost(test, j - 1, b, c + 1);
    }
  }

  /** A test that rejects the p-values of at most `t` * 2^-n rejects at most `t` of the 2^n awards. */
  lemma SmallPValid(test: (nat, nat) -> bool, t: real, n: nat)
    requires Decides(test, SmallP(t, n), n) && t >= 0.0
    ensures RejectingAwards(test, n, 0, 0) as real <= t
  {
    AwardsAtMost(test, n, 0, 0);
    if t < Pow2(n) as real {
      AwardsByWins(test, SmallP(t, n), n, 0, 0);
      RejectedIsExtreme(t, n, n + 1);
      TailsTogether(t, n);
    }
  }

  /** The splits no further from `m` : n - m than it, by their tails. */
  lemma {:induction false} ExtremeSplits(rejects: nat -> bool, n: nat, m: nat, e: nat)
    requires 2 * m <= n && e <= n + 1
    requires forall x: nat :: x <= n ==> (rejects(x) <==> x <= m || x >= n - m)
    ensures ByWins(rejects, n, 0, 0, e)
         == if e <= m + 1 || n - m <= m + 1 then Tail(n, e - 1)
            else if e <= n - m then Tail(n, m)
            else Tail(n, m) + Tail(n, e - 1) - Tail(n, n - m - 1)
  {
    if e > 0 { ExtremeSplits(rejects, n, m, e - 1); }
  }

  /** What the p-value is: the share of the 2^n equally likely awards of the `n` discordant pairs that are at least as
      far from even as the one observed. */
  lemma ShareOfExtremeAwards(b: nat, c: nat)
    ensures var distance := (x: nat, y: nat) => if x <= y then y - x else x - y;
            var extreme := (x: nat, y: nat) => distance(x, y) >= distance(b, c);
            McNemar(b, c) == Halved(RejectingAwards(extreme, b + c, 0, 0) as real, b + c)
  {
    var n, m := b + c, Min(b, c);
    var distance := (x: nat, y: nat) => if x <= y then y - x else x - y;
    var extreme := (x: nat, y: nat) => distance(x, y) >= distance(b, c);
    var rejects := (x: nat) => x <= m || x >= n - m;
    AwardsByWins(extreme, rejects, n, 0, 0);
    ExtremeSplits(rejects, n, m, n + 1);
    WholeRow(n);
    TailComplement(n, m);
    WholeMassIffBalanced(b, c);
    McNemarCleared(b, c);
  }

  lemma NonNegative(x: real, y: real)
    requires x >= 0.0 && y >= 0.0
    ensures x * y >= 0.0
  {
  }

  /** Exact McNemar is a valid test: for every number of discordant pairs and every level, at most the
      fraction `alpha` of the 2^n equally likely ways to award the pairs is rejected at that level. */
  lemma McNemarValid(n: nat, alpha: real, t: real)
    requires 0.0 <= alpha && t == alpha * Pow2(n) as real
    ensures RejectingAwards(RejectsAt(alpha), n, 0, 0) as real <= t
  {
    NonNegative(alpha, Pow2(n) as real);
    LevelInUnits(alpha, t, n);
    LevelDecides(alpha, t, n);
    SmallPValid(RejectsAt(alpha), t, n);
  }
}
