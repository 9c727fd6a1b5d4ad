/** Holm's step-down correction, its equivalence with closed Bonferroni testing, and the error rate it
    guarantees. */
module Holm {
  import opened Sequences

  type PValues = map<string, real>

  datatype Verdict = Verdict(p: real, threshold: real, reject: bool)

  function P(pv: PValues, m: string): real { if m in pv then pv[m] else 1.0 }

  /** `names` lists the hypotheses, each once. */
  ghost predicate Lists(pv: PValues, names: seq<string>) { Distinct(names) && forall m :: m in names <==> m in pv }

  /** ... in order of increasing p-value, ties in any order. */
  ghost predicate Ranked(pv: PValues, names: seq<string>) {
    Lists(pv, names) && forall i, j :: 0 <= i < j < |names| ==> P(pv, names[i]) <= P(pv, names[j])
  }

  /** The Bonferroni test of the hypothesis that all of `s` are null. */
  ghost predicate BonferroniRejects(pv: PValues, alpha: real, s: set<string>)
    requires s <= pv.Keys
  {
    exists m :: m in s && pv[m] <= alpha / |s| as real
  }

  /** Closed testing: a hypothesis is rejected when every set containing it is. */
  ghost predicate ClosedRejects(pv: PValues, alpha: real, name: string) {
    forall s: set<string> :: name in s && s <= pv.Keys ==> BonferroniRejects(pv, alpha, s)
  }

  /** The level is not negative, or at least no p-value is. */
  ghost predicate SignsFit(pv: PValues, alpha: real) { alpha >= 0.0 || forall m :: m in pv ==> pv[m] >= 0.0 }

  function Threshold(alpha: real, k: nat, i: nat): real
    requires i < k
  {
    alpha / (k - i) as real
  }

  /** Step-down: the hypothesis of rank `i` is rejected when it and all smaller ones meet their thresholds. */
  ghost predicate StepsDown(pv: PValues, names: seq<string>, alpha: real, i: nat)
    requires i < |names|
  {
    forall j :: 0 <= j <= i ==> P(pv, names[j]) <= Threshold(alpha, |names|, j)
  }

  function SortByP(pv: PValues, order: seq<string>): seq<string> { Sort(order, (x, y) => P(pv, x) <= P(pv, y)) }

  lemma SortRanks(pv: PValues, order: seq<string>)
    requires Lists(pv, order)
    ensures Ranked(pv, SortByP(pv, order)) && |SortByP(pv, order)| == |order|
  {
    var le := (x: string, y: string) => P(pv, x) <= P(pv, y);
    SortSorts(order, le);
    var names := SortByP(pv, order);
    SameElements(names, order);
    DistinctIffMultiset(order);
    DistinctIffMultiset(names);
    forall i, j | 0 <= i < j < |names| ensures P(pv, names[i]) <= P(pv, names[j]) { assert le(names[i], names[j]); }
  }

  /** The correction; `order` is the order in which the table lists its entries. Which hypotheses it
      rejects is what closed testing says, so it depends neither on that order nor on how ties sort. The
      thresholds reported are those of some ranking by p-value. */
  method HolmBonferroni(pv: PValues, order: seq<string>, alpha: real) returns (out: map<string, Verdict>)
    requires Lists(pv, order)
    ensures out.Keys == pv.Keys && forall m :: m in pv ==> out[m].p == pv[m]
    ensures SignsFit(pv, alpha) ==> forall m :: m in pv ==> (out[m].reject <==> ClosedRejects(pv, alpha, m))
    ensures exists names :: Ranked(pv, names) && forall j :: 0 <= j < |names| ==> Judged(pv, names, alpha, j, out)
  {
    SortRanks(pv, order);
    var names := SortByP(pv, order);
    out := StepDown(pv, names, alpha);
    forall m | m in pv
      ensures out[m].p == pv[m] && (SignsFit(pv, alpha) ==> (out[m].reject <==> ClosedRejects(pv, alpha, m)))
    {
      assert m in names;
      var j :| 0 <= j < |names| && names[j] == m;
      assert Judged(pv, names, alpha, j, out);
      if SignsFit(pv, alpha) { StepDownIsClosed(pv, names, alpha, j); }
    }
  }

  ghost predicate Judged(pv: PValues, names: seq<string>, alpha: real, j: nat, out: map<string, Verdict>)
    requires j < |names|
  {
    && names[j] in out
    && out[names[j]].p == P(pv, names[j])
    && out[names[j]].threshold == Threshold(alpha, |names|, j)
    && (out[names[j]].reject <==> StepsDown(pv, names, alpha, j))
  }

  /** The loop over the ranked hypotheses. */
  method StepDown(pv: PValues, names: seq<string>, alpha: real) returns (out: map<string, Verdict>)
    requires Lists(pv, names)
    ensures out.Keys == pv.Keys && forall j :: 0 <= j < |names| ==> Judged(pv, names, alpha, j, out)
  {
    var k := |names|;
    out := map[];
    var prevReject := true;
    for i := 0 to k
      invariant forall m :: m in out <==> m in names[..i]
      invariant prevReject <==> forall j :: 0 <= j < i ==> P(pv, names[j]) <= Threshold(alpha, k, j)
      invariant forall j :: 0 <= j < i ==> Judged(pv, names, alpha, j, out)
    {
      var name, p := names[i], P(pv, names[i]);
      var thresh := Threshold(alpha, k, i);
      var reject := prevReject && p <= thresh;
      prevReject := reject;
      ghost var before := out;
      out := out[name := Verdict(p, thresh, reject)];
      assert reject <==> StepsDown(pv, names, alpha, i);
      forall j | 0 <= j < i ensures Judged(pv, names, alpha, j, out) {
        assert Judged(pv, names, alpha, j, before) && names[j] != names[i];
      }
    }
  }

  // ---------------------------------------------------------------- the equivalence

  function NamesFrom(names: seq<string>, j: nat): set<string>
    requires j <= |names|
  {
    set i | j <= i < |names| :: names[i]
  }

  lemma {:induction false} NamesFromCount(names: seq<string>, j: nat)
    requires Distinct(names) && j <= |names|
    ensures |NamesFrom(names, j)| == |names| - j
    decreases |names| - j
  {
    if j < |names| {
      NamesFromCount(names, j + 1);
      assert NamesFrom(names, j) == {names[j]} + NamesFrom(names, j + 1);
    }
  }

  lemma {:induction false} SmallerDivisor(alpha: real, m: nat, n: nat)
    requires alpha >= 0.0 && 0 < m <= n
    ensures alpha / n as real <= alpha / m as real
  {
    var q := alpha / n as real;
    assert q >= 0.0;
    assert q * m as real <= q * n as real;
    assert q * n as real == alpha;
  }

  /** The smallest rank of a member. */
  lemma {:induction false} LowestRank(names: seq<string>, s: set<string>, i: nat) returns (j: nat)
    requires i < |names| && names[i] in s
    ensures j <= i && names[j] in s && forall l :: 0 <= l < j ==> names[l] !in s
  {
    if l :| 0 <= l < i && names[l] in s { j := LowestRank(names, s, l); } else { j := i; }
  }

  lemma CardinalityOfSubset<T>(s: set<T>, t: set<T>)
    requires s <= t
    ensures |s| <= |t|
  {
    assert t == s + (t - s);
  }

  /** A set whose lowest rank is `j` has at most the members from `j` on. */
  lemma MembersFrom(pv: PValues, names: seq<string>, s: set<string>, j: nat)
    requires Lists(pv, names) && s <= pv.Keys && j < |names| && forall l :: 0 <= l < j ==> names[l] !in s
    ensures |s| <= |names| - j
  {
    forall m | m in s ensures m in NamesFrom(names, j) {
      assert m in names;
      var l :| 0 <= l < |names| && names[l] == m;
    }
    NamesFromCount(names, j);
    CardinalityOfSubset(s, NamesFrom(names, j));
  }

  lemma StepDownImpliesClosed(pv: PValues, names: seq<string>, alpha: real, i: nat, s: set<string>)
    requires Ranked(pv, names) && alpha >= 0.0 && i < |names| && StepsDown(pv, names, alpha, i)
    requires names[i] in s && s <= pv.Keys
    ensures BonferroniRejects(pv, alpha, s)
  {
    var j := LowestRank(names, s, i);
    MembersFrom(pv, names, s, j);
    assert |s| > 0;
    SmallerDivisor(alpha, |s|, |names| - j);
    assert P(pv, names[j]) <= Threshold(alpha, |names|, j);
    assert names[j] in s && pv[names[j]] <= alpha / |s| as real;
  }

  lemma ClosedImpliesStep(pv: PValues, names: seq<string>, alpha: real, i: nat, j: nat)
    requires Ranked(pv, names) && j <= i < |names| && ClosedRejects(pv, alpha, names[i])
    ensures P(pv, names[j]) <= Threshold(alpha, |names|, j)
  {
    var s := NamesFrom(names, j);
    NamesFromCount(names, j);
    forall m | m in s ensures m in pv.Keys { var l :| j <= l < |names| && names[l] == m; assert m in names; }
    assert names[i] in s && BonferroniRejects(pv, alpha, s);
    SmallestFromRank(pv, names, alpha / |s| as real, j);
  }

  /** If some member from rank `j` on is at or below `x`, so is the one of rank `j`. */
  lemma {:induction false} SmallestFromRank(pv: PValues, names: seq<string>, x: real, j: nat)
    requires Ranked(pv, names) && j < |names|
    requires exists m :: m in NamesFrom(names, j) && P(pv, m) <= x
    ensures P(pv, names[j]) <= x
  {
    var m :| m in NamesFrom(names, j) && P(pv, m) <= x;
    var l :| j <= l < |names| && names[l] == m;
  }

  /** At a negative level neither rejects anything. */
  lemma NegativeLevel(pv: PValues, names: seq<string>, alpha: real, i: nat)
    requires Ranked(pv, names) && alpha < 0.0 && SignsFit(pv, alpha) && i < |names|
    ensures !StepsDown(pv, names, alpha, i) && !ClosedRejects(pv, alpha, names[i])
  {
    NegativeQuotient(alpha, |names| as real);
    assert P(pv, names[0]) > Threshold(alpha, |names|, 0);
    var alone := {names[i]};
    assert names[i] in names && alpha / |alone| as real == alpha;
    assert !BonferroniRejects(pv, alpha, alone);
  }

  lemma NegativeQuotient(x: real, d: real)
    requires x < 0.0 && d > 0.0
    ensures x / d < 0.0
  {
  }

  /** Step-down rejection is closed testing. */
  lemma StepDownIsClosed(pv: PValues, names: seq<string>, alpha: real, i: nat)
    requires Ranked(pv, names) && SignsFit(pv, alpha) && i < |names|
    ensures StepsDown(pv, names, alpha, i) <==> ClosedRejects(pv, alpha, names[i])
  {
    if alpha < 0.0 {
      NegativeLevel(pv, names, alpha, i);
    } else {
      NonNegativeLevel(pv, names, alpha, i);
    }
  }

  lemma NonNegativeLevel(pv: PValues, names: seq<string>, alpha: real, i: nat)
    requires Ranked(pv, names) && alpha >= 0.0 && i < |names|
    ensures StepsDown(pv, names, alpha, i) <==> ClosedRejects(pv, alpha, names[i])
  {
    if StepsDown(pv, names, alpha, i) {
      forall s: set<string> | names[i] in s && s <= pv.Keys ensures BonferroniRejects(pv, alpha, s) {
        StepDownImpliesClosed(pv, names, alpha, i, s);
      }
    }
    if ClosedRejects(pv, alpha, names[i]) {
      forall j | 0 <= j <= i ensures P(pv, names[j]) <= Threshold(alpha, |names|, j) {
        ClosedImpliesStep(pv, names, alpha, i, j);
      }
    }
  }

  /** With signs that do not fit, the two differ: at level -2 one of two hypotheses with p-value -1.5 is
      rejected, and closed testing rejects neither. */
  lemma MisfitSignsDiffer(pv: PValues)
    requires pv == map["a" := -1.5, "b" := -1.5]
    ensures Ranked(pv, ["a", "b"]) && StepsDown(pv, ["a", "b"], -2.0, 0) && !ClosedRejects(pv, -2.0, "a")
  {
    assert forall m :: m in pv <==> m == "a" || m == "b";
    assert Threshold(-2.0, 2, 0) == -1.0;
    var alone := {"a"};
    assert -2.0 / |alone| as real == -2.0 && !BonferroniRejects(pv, -2.0, alone);
  }

  // ---------------------------------------------------------------- the error rate

  /** One outcome of the experiment: how likely it is, as a weight, and the p-values it yields. */
  datatype Outcome = Outcome(weight: nat, pv: PValues)

  function Total(space: seq<Outcome>): nat { if space == [] then 0 else space[0].weight + Total(space[1..]) }

  /** The weight of the outcomes in which `m` has a p-value of at most `x`. */
  function Below(space: seq<Outcome>, m: string, x: real): nat {
    if space == [] then 0
    else Below(space[1..], m, x) + (if m in space[0].pv && space[0].pv[m] <= x then space[0].weight else 0)
  }

  /** The weight of the outcomes in which some member of `nulls` has a p-value of at most `x`. */
  ghost function SomeBelow(space: seq<Outcome>, nulls: set<string>, x: real): nat {
    if space == [] then 0
    else SomeBelow(space[1..], nulls, x)
         + (if exists m :: m in nulls && m in space[0].pv && space[0].pv[m] <= x then space[0].weight else 0)
  }

  /** The weight of the outcomes in which some member of `nulls` is rejected. */
  ghost function SomeRejected(space: seq<Outcome>, nulls: set<string>, alpha: real): nat {
    if space == [] then 0
    else SomeRejected(space[1..], nulls, alpha)
         + (if exists m :: m in nulls && m in space[0].pv && ClosedRejects(space[0].pv, alpha, m) then space[0].weight else 0)
  }

  /** The p-value of `m` is valid: at most the fraction x of the weight has it at or below x. */
  ghost predicate ValidP(space: seq<Outcome>, m: string) {
    forall x: real :: x >= 0.0 ==> Below(space, m, x) as real <= x * Total(space) as real
  }

  lemma {:induction false} RejectionNeedsSmallP(space: seq<Outcome>, nulls: set<string>, alpha: real)
    requires nulls != {} && forall o :: o in space ==> nulls <= o.pv.Keys
    ensures SomeRejected(space, nulls, alpha) <= SomeBelow(space, nulls, alpha / |nulls| as real)
  {
    if space != [] {
      RejectionNeedsSmallP(space[1..], nulls, alpha);
      assert space[0] in space;
      var pv := space[0].pv;
      if m :| m in nulls && m in pv && ClosedRejects(pv, alpha, m) {
        assert BonferroniRejects(pv, alpha, nulls);
      }
    }
  }

  lemma {:induction false} SplitOne(space: seq<Outcome>, nulls: set<string>, m: string, x: real)
    requires m in nulls
    ensures SomeBelow(space, nulls, x) <= Below(space, m, x) + SomeBelow(space, nulls - {m}, x)
  {
    if space != [] {
      SplitOne(space[1..], nulls, m, x);
      var pv := space[0].pv;
      if l :| l in nulls && l in pv && pv[l] <= x { assert l == m || l in nulls - {m}; }
    }
  }

  lemma {:induction false} NoneBelow(space: seq<Outcome>, x: real)
    ensures SomeBelow(space, {}, x) == 0
  {
    if space != [] { NoneBelow(space[1..], x); }
  }

  function Times(n: nat, y: real): real { if n == 0 then 0.0 else Times(n - 1, y) + y }

  lemma {:induction false} TimesIsProduct(n: nat, y: real)
    ensures Times(n, y) == n as real * y
  {
    if n > 0 {
      TimesIsProduct(n - 1, y);
      OneMore(n as real, (n - 1) as real, y);
    }
  }

  lemma OneMore(a: real, b: real, y: real)
    requires a == b + 1.0
    ensures a * y == b * y + y
  {
  }

  lemma {:induction false} UnionBound(space: seq<Outcome>, nulls: set<string>, x: real, y: real)
    requires forall m :: m in nulls ==> Below(space, m, x) as real <= y
    ensures SomeBelow(space, nulls, x) as real <= Times(|nulls|, y)
    decreases |nulls|
  {
    if nulls == {} {
      NoneBelow(space, x);
    } else {
      var m :| m in nulls;
      var rest := nulls - {m};
      SplitOne(space, nulls, m, x);
      UnionBound(space, rest, x, y);
      assert Times(|nulls|, y) == Times(|rest|, y) + y;
    }
  }

  /** Each of `n` tests gets the share `x` of the level, which costs `y` of the total weight. */
  lemma Share(n: real, alpha: real, total: real) returns (x: real, y: real)
    requires n > 0.0 && alpha >= 0.0
    ensures x == alpha / n && x >= 0.0 && y == x * total && n * y == alpha * total
  {
    x := alpha / n;
    y := x * total;
    assert n * x == alpha;
    assert n * (x * total) == (n * x) * total;
  }

  lemma {:induction false} ValidAt(space: seq<Outcome>, nulls: set<string>, x: real, y: real)
    requires x >= 0.0 && y == x * Total(space) as real && forall m :: m in nulls ==> ValidP(space, m)
    ensures forall m :: m in nulls ==> Below(space, m, x) as real <= y
  {
    forall m | m in nulls ensures Below(space, m, x) as real <= y { assert ValidP(space, m); }
  }

  /** The level shared out: every null is at or below `x` in at most `y` of the weight. */
  lemma Budget(space: seq<Outcome>, nulls: set<string>, alpha: real, total: real) returns (x: real, y: real)
    requires alpha >= 0.0 && nulls != {} && total == Total(space) as real
    requires forall m :: m in nulls ==> ValidP(space, m)
    ensures x == alpha / |nulls| as real && Times(|nulls|, y) == alpha * total
    ensures forall m :: m in nulls ==> Below(space, m, x) as real <= y
  {
    x, y := Share(|nulls| as real, alpha, total);
    ValidAt(space, nulls, x, y);
    TimesIsProduct(|nulls|, y);
  }

  lemma RejectionsWithin(space: seq<Outcome>, nulls: set<string>, alpha: real, x: real, y: real)
    requires nulls != {} && forall o :: o in space ==> nulls <= o.pv.Keys
    requires x == alpha / |nulls| as real && forall m :: m in nulls ==> Below(space, m, x) as real <= y
    ensures SomeRejected(space, nulls, alpha) as real <= Times(|nulls|, y)
  {
    RejectionNeedsSmallP(space, nulls, alpha);
    UnionBound(space, nulls, x, y);
  }

  /** Holm controls the family-wise error rate: whatever the dependence between the tests, if the
      p-value of every true null is valid, the outcomes in which any true null is rejected weigh at most
      the fraction `alpha` of the whole. */
  lemma FamilyWiseError(space: seq<Outcome>, nulls: set<string>, alpha: real, total: real)
    requires total == Total(space) as real
    requires alpha >= 0.0 && nulls != {} && forall o :: o in space ==> nulls <= o.pv.Keys
    requires forall m :: m in nulls ==> ValidP(space, m)
    ensures SomeRejected(space, nulls, alpha) as real <= alpha * total
  {
    var x, y := Budget(space, nulls, alpha, total);
    RejectionsWithin(space, nulls, alpha, x, y);
  }
}
