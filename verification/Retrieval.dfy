/** The abstention rule of the retrieval dev set, its quality measures, and the search for thresholds. The
    similarity of a candidate to its query is a given number; divisions are exact. */
module Retrieval {
  import opened Sequences

  datatype Candidate = Candidate(score: real, relevant: bool)

  datatype Query = Query(hasRelevant: bool, candidates: seq<Candidate>)

  type DevSet = seq<Query>

  datatype Error = EmptyPool | NoRelevantCandidate | EmptyDevSet

  datatype Result<T> = Ok(value: T) | Err(error: Error)

  // ---------------------------------------------------------------- one query

  function HigherFirst(): (Candidate, Candidate) -> bool { (c: Candidate, d: Candidate) => c.score >= d.score }

  /** The candidates, the best first. */
  function ScorePool(q: Query): (scored: seq<Candidate>)
    ensures |scored| == |q.candidates|
  {
    SortSorts(q.candidates, HigherFirst());
    Sort(q.candidates, HigherFirst())
  }

  function Top2(scored: seq<Candidate>): real { if |scored| > 1 then scored[1].score else 0.0 }

  function Margin(q: Query): real
    requires q.candidates != []
  {
    ScorePool(q)[0].score - Top2(ScorePool(q))
  }

  /** Whether the best candidate is injected rather than the system abstaining. */
  predicate Injects(q: Query, tauAbs: real, tauMargin: real) {
    q.candidates != [] && ScorePool(q)[0].score >= tauAbs && Margin(q) >= tauMargin
  }

  /** Candidate `i` reaches the absolute threshold and is ahead of every other one by the margin. */
  ghost predicate StandsOut(q: Query, i: nat, tauAbs: real, tauMargin: real) {
    && i < |q.candidates|
    && q.candidates[i].score >= tauAbs
    && forall j :: 0 <= j < |q.candidates| && j != i ==>
         q.candidates[j].score <= q.candidates[i].score
         && q.candidates[i].score - q.candidates[j].score >= tauMargin
  }

  /** The ranking holds the candidates, the best first. */
  lemma PoolSorted(q: Query)
    ensures multiset(ScorePool(q)) == multiset(q.candidates) && SortedBy(ScorePool(q), HigherFirst())
  {
    SortSorts(q.candidates, HigherFirst());
  }

  /** The best candidate is the earliest of those with the highest score. */
  lemma BestIs(q: Query, i: nat)
    requires i < |q.candidates|
    requires forall j :: 0 <= j < |q.candidates| ==> q.candidates[j].score <= q.candidates[i].score
    requires forall j :: 0 <= j < i ==> q.candidates[j].score < q.candidates[i].score
    ensures ScorePool(q)[0] == q.candidates[i]
  {
    FirstOfSort(q.candidates, HigherFirst(), i);
  }

  /** If one candidate stands out among several, the best is ahead of the second by the margin. */
  lemma StandingOutInjects(q: Query, i: nat, tauAbs: real, tauMargin: real)
    requires |q.candidates| > 1 && StandsOut(q, i, tauAbs, tauMargin)
    ensures Injects(q, tauAbs, tauMargin)
  {
    var scored, best := ScorePool(q), q.candidates[i];
    PoolSorted(q);
    SameElements(scored, q.candidates);
    assert HigherFirst()(scored[0], scored[1]);
    assert scored[0] in q.candidates && best in scored;
    var a :| 0 <= a < |scored| && scored[a] == best;
    if a > 0 { assert HigherFirst()(scored[0], scored[a]); }
    if scored[0] == best {
      SameRest(scored, q.candidates, 0, i);
      MultisetWithout(q.candidates, i);
      assert scored[1] in Without(scored, 0);
      var j :| 0 <= j < |q.candidates| && j != i && q.candidates[j] == scored[1];
    } else {
      var j :| 0 <= j < |q.candidates| && q.candidates[j] == scored[0];
      assert j != i;
    }
  }

  /** The best of several candidates stands out when it is injected. */
  lemma InjectedStandsOut(q: Query, tauAbs: real, tauMargin: real) returns (i: nat)
    requires |q.candidates| > 1 && Injects(q, tauAbs, tauMargin)
    ensures StandsOut(q, i, tauAbs, tauMargin)
  {
    var scored := ScorePool(q);
    PoolSorted(q);
    SameElements(scored, q.candidates);
    assert scored[0] in q.candidates;
    i :| 0 <= i < |q.candidates| && q.candidates[i] == scored[0];
    SameRest(scored, q.candidates, 0, i);
    MultisetWithout(scored, 0);
    MultisetWithout(q.candidates, i);
    forall j | 0 <= j < |q.candidates| && j != i
      ensures q.candidates[j].score <= q.candidates[i].score
              && q.candidates[i].score - q.candidates[j].score >= tauMargin
    {
      assert q.candidates[j] in Without(scored, 0);
      var b :| 0 <= b < |scored| && b != 0 && scored[b] == q.candidates[j];
      if b > 1 { assert HigherFirst()(scored[1], scored[b]); }
      assert HigherFirst()(scored[0], scored[1]);
    }
  }

  /** Something is injected exactly when one of the candidates stands out; a lone candidate is measured
      against 0. */
  lemma InjectsIffStandsOut(q: Query, tauAbs: real, tauMargin: real)
    requires q.candidates != []
    ensures Injects(q, tauAbs, tauMargin) <==>
            if |q.candidates| > 1 then exists i :: StandsOut(q, i, tauAbs, tauMargin)
            else q.candidates[0].score >= tauAbs && q.candidates[0].score >= tauMargin
  {
    if |q.candidates| > 1 {
      if Injects(q, tauAbs, tauMargin) { var i := InjectedStandsOut(q, tauAbs, tauMargin); }
      if i :| StandsOut(q, i, tauAbs, tauMargin) { StandingOutInjects(q, i, tauAbs, tauMargin); }
    } else {
      PoolSorted(q);
      SameElements(ScorePool(q), q.candidates);
      assert ScorePool(q)[0] in q.candidates;
    }
  }

  /** The rank of the first relevant candidate, 0 when there is none. */
  function RankOfRelevant(scored: seq<Candidate>): (r: nat)
    ensures r == 0 <==> forall c <- scored :: !c.relevant
    ensures r > 0 ==> r <= |scored| && scored[r - 1].relevant && forall i :: 0 <= i < r - 1 ==> !scored[i].relevant
  {
    if scored == [] then 0
    else if scored[0].relevant then 1
    else var r := RankOfRelevant(scored[1..]); if r == 0 then 0 else r + 1
  }

  datatype Outcome = TruePositive | WrongInjection | Missed | FalsePositive | TrueNegative

  function OutcomeOf(q: Query, tauAbs: real, tauMargin: real): Outcome {
    var injects := Injects(q, tauAbs, tauMargin);
    if q.hasRelevant then
      if injects && ScorePool(q)[0].relevant then TruePositive else if injects then WrongInjection else Missed
    else if injects then FalsePositive else TrueNegative
  }

  // ---------------------------------------------------------------- the dev set

  /** Every query has candidates, and a relevant one if it says so. */
  predicate QueryOk(q: Query) { q.candidates != [] && (q.hasRelevant ==> RankOfRelevant(ScorePool(q)) != 0) }

  predicate DevOk(dev: DevSet) { forall i :: 0 <= i < |dev| ==> QueryOk(dev[i]) }

  function FaultOf(q: Query): Error { if q.candidates == [] then EmptyPool else NoRelevantCandidate }

  function Count(dev: DevSet, tauAbs: real, tauMargin: real, o: Outcome): nat {
    if dev == [] then 0
    else var last := |dev| - 1;
         Count(dev[..last], tauAbs, tauMargin, o) + (if OutcomeOf(dev[last], tauAbs, tauMargin) == o then 1 else 0)
  }

  function Relevant(dev: DevSet): nat {
    if dev == [] then 0
    else var last := |dev| - 1; Relevant(dev[..last]) + (if dev[last].hasRelevant then 1 else 0)
  }

  /** For every query, the reciprocal rank of its first relevant candidate; 0 for a query that claims none. */
  function ReciprocalRanks(dev: DevSet): seq<real>
    requires DevOk(dev)
  {
    seq(|dev|, i requires 0 <= i < |dev| =>
      if dev[i].hasRelevant then 1.0 / RankOfRelevant(ScorePool(dev[i])) as real else 0.0)
  }

  /** For every query, how far its best candidate is ahead. */
  function Margins(dev: DevSet): seq<real>
    requires DevOk(dev)
  {
    seq(|dev|, i requires 0 <= i < |dev| => Margin(dev[i]))
  }

  /** What went well and badly, and how often a candidate was injected. */
  datatype Tally = Tally(tp: nat, fn: nat, fp: nat, tn: nat, injections: nat)

  function Ratio(n: nat, d: nat, otherwise: real): real { if d == 0 then otherwise else n as real / d as real }

  function F1(p: real, r: real): real { if p + r != 0.0 then 2.0 * p * r / (p + r) else 0.0 }

  function Precision(t: Tally): real { Ratio(t.tp, t.injections, 1.0) }

  function Recall(t: Tally): real { Ratio(t.tp, t.tp + t.fn, 0.0) }

  function Specificity(t: Tally): real { Ratio(t.tn, t.tn + t.fp, 1.0) }

  /** The mean of the F1 scores of injecting and of abstaining. */
  function MacroF1(t: Tally): real {
    (F1(Precision(t), Recall(t)) + F1(Ratio(t.tn, t.tn + t.fn, 1.0), Ratio(t.tn, t.tn + t.fp, 1.0))) / 2.0
  }

  /** An F1 score from its counts: twice the hits over all that were claimed and all there were. */
  lemma F1FromCounts(hits: nat, claimed: nat, there: nat)
    requires 0 < hits <= claimed && hits <= there
    ensures F1(Ratio(hits, claimed, 1.0), Ratio(hits, there, 0.0)) == 2.0 * hits as real / (claimed + there) as real
  {
    HarmonicMean(hits as real, claimed as real, there as real, hits as real / claimed as real, hits as real / there as real);
  }

  lemma {:induction false} HarmonicMean(t: real, i: real, r: real, p: real, q: real)
    requires t > 0.0 && i > 0.0 && r > 0.0 && p == t / i && q == t / r
    ensures p + q > 0.0 && 2.0 * p * q / (p + q) == 2.0 * t / (i + r)
  {
    assert p * i == t && q * r == t && p > 0.0 && q > 0.0;
    assert p * q * (i + r) == t * (p + q) by {
      assert p * q * (i + r) == (p * i) * q + p * (q * r);
    }
    var s := 2.0 * t / (i + r);
    assert s * (i + r) == 2.0 * t;
    assert (s * (p + q)) * (i + r) == (2.0 * p * q) * (i + r) by {
      assert (s * (p + q)) * (i + r) == (s * (i + r)) * (p + q);
      assert (2.0 * p * q) * (i + r) == 2.0 * (p * q * (i + r));
    }
    CancelScale(s * (p + q), 2.0 * p * q, i + r);
    QuotientIs(2.0 * p * q, p + q, s);
  }

  lemma {:induction false} CancelScale(x: real, y: real, k: real)
    requires k > 0.0 && x * k == y * k
    ensures x == y
  {
    assert (x - y) * k == 0.0;
  }

  lemma QuotientIs(x: real, d: real, s: real)
    requires d > 0.0 && s * d == x
    ensures x / d == s
  {
  }

  function TallyOf(dev: DevSet, tauAbs: real, tauMargin: real): Tally
    requires DevOk(dev)
  {
    var tp, wrong := Count(dev, tauAbs, tauMargin, TruePositive), Count(dev, tauAbs, tauMargin, WrongInjection);
    var fp, tn := Count(dev, tauAbs, tauMargin, FalsePositive), Count(dev, tauAbs, tauMargin, TrueNegative);
    Tally(tp, wrong + Count(dev, tauAbs, tauMargin, Missed), fp, tn, tp + wrong + fp)
  }

  datatype Metrics = Metrics(
    tally: Tally, precision: real, recall: real, specificity: real, falseInjectionRate: real, mrr: real,
    meanMargin: real, abstentionRate: real, macroF1: real)

  /** The measures that the counts decide, with the two averages. */
  function Measures(t: Tally, n: nat, mrr: real, meanMargin: real): Metrics {
    Metrics(t, Precision(t), Recall(t), Specificity(t), Ratio(t.fp, t.fp + t.tn, 0.0), mrr, meanMargin,
            if n == 0 then 0.0 else (n - t.injections) as real / n as real, MacroF1(t))
  }

  function Bump(t: Tally, o: Outcome): Tally {
    match o
    case TruePositive => t.(tp := t.tp + 1, injections := t.injections + 1)
    case WrongInjection => t.(fn := t.fn + 1, injections := t.injections + 1)
    case Missed => t.(fn := t.fn + 1)
    case FalsePositive => t.(fp := t.fp + 1, injections := t.injections + 1)
    case TrueNegative => t.(tn := t.tn + 1)
  }

  lemma TallyOneMore(dev: DevSet, i: nat, tauAbs: real, tauMargin: real)
    requires i < |dev| && DevOk(dev[..i]) && QueryOk(dev[i])
    ensures DevOk(dev[..i + 1])
    ensures TallyOf(dev[..i + 1], tauAbs, tauMargin)
         == Bump(TallyOf(dev[..i], tauAbs, tauMargin), OutcomeOf(dev[i], tauAbs, tauMargin))
  {
    assert dev[..i + 1][..i] == dev[..i];
  }

  lemma SumsOneMore(dev: DevSet, i: nat)
    requires i < |dev| && DevOk(dev[..i]) && QueryOk(dev[i]) && DevOk(dev[..i + 1])
    ensures RealSum(Margins(dev[..i + 1])) == RealSum(Margins(dev[..i])) + Margin(dev[i])
    ensures Relevant(dev[..i + 1]) == Relevant(dev[..i]) + (if dev[i].hasRelevant then 1 else 0)
    ensures RealSum(ReciprocalRanks(dev[..i + 1]))
         == RealSum(ReciprocalRanks(dev[..i]))
            + (if dev[i].hasRelevant then 1.0 / RankOfRelevant(ScorePool(dev[i])) as real else 0.0)
  {
    assert dev[..i + 1][..i] == dev[..i];
    assert Margins(dev[..i + 1])[..i] == Margins(dev[..i]);
    assert ReciprocalRanks(dev[..i + 1])[..i] == ReciprocalRanks(dev[..i]);
  }

  /** What the queries add up to. */
  datatype Totals = Totals(tally: Tally, ranks: real, relevant: nat, leads: real)

  function TotalsOf(dev: DevSet, tauAbs: real, tauMargin: real): Totals
    requires DevOk(dev)
  {
    Totals(TallyOf(dev, tauAbs, tauMargin), RealSum(ReciprocalRanks(dev)), Relevant(dev), RealSum(Margins(dev)))
  }

  /** Goes through the queries, up to the first without candidates, or that claims a relevant one and has none. */
  method AddUp(dev: DevSet, tauAbs: real, tauMargin: real) returns (r: Result<Totals>)
    ensures r.Ok? <==> DevOk(dev)
    ensures r.Ok? ==> r.value == TotalsOf(dev, tauAbs, tauMargin)
    ensures r.Err? ==> exists i :: 0 <= i < |dev| && DevOk(dev[..i]) && !QueryOk(dev[i]) && r.error == FaultOf(dev[i])
  {
    var t := Tally(0, 0, 0, 0, 0);
    var ranks, relevant, margins := 0.0, 0, 0.0;
    for i := 0 to |dev|
      invariant DevOk(dev[..i]) && t == TallyOf(dev[..i], tauAbs, tauMargin)
      invariant ranks == RealSum(ReciprocalRanks(dev[..i])) && relevant == Relevant(dev[..i])
      invariant margins == RealSum(Margins(dev[..i]))
    {
      var q := dev[i];
      if q.candidates == [] { return Err(EmptyPool); }
      var scored := ScorePool(q);
      var rank := RankOfRelevant(scored);
      if q.hasRelevant && rank == 0 { return Err(NoRelevantCandidate); }
      TallyOneMore(dev, i, tauAbs, tauMargin);
      SumsOneMore(dev, i);
      margins := margins + Margin(q);
      if q.hasRelevant { ranks, relevant := ranks + 1.0 / rank as real, relevant + 1; }
      t := Tallied(t, q, tauAbs, tauMargin);
    }
    assert dev[..|dev|] == dev;
    return Ok(Totals(t, ranks, relevant, margins));
  }

  /** The measures of the rule at given thresholds. Fails on the first query without candidates, or that
      claims a relevant candidate and has none, and on an empty dev set. */
  method Measure(dev: DevSet, tauAbs: real, tauMargin: real) returns (r: Result<Metrics>)
    ensures r.Ok? <==> DevOk(dev) && dev != []
    ensures r.Ok? ==> r.value == MetricsOf(dev, tauAbs, tauMargin)
    ensures r.Ok? ==>
              var t := r.value.tally;
              && t.tp == |set i | 0 <= i < |dev| && dev[i].hasRelevant
                                  && Injects(dev[i], tauAbs, tauMargin) && ScorePool(dev[i])[0].relevant|
              && t.fn == |set i | 0 <= i < |dev| && dev[i].hasRelevant
                                  && !(Injects(dev[i], tauAbs, tauMargin) && ScorePool(dev[i])[0].relevant)|
              && t.fp == |set i | 0 <= i < |dev| && !dev[i].hasRelevant && Injects(dev[i], tauAbs, tauMargin)|
              && t.tn == |set i | 0 <= i < |dev| && !dev[i].hasRelevant && !Injects(dev[i], tauAbs, tauMargin)|
              && t.injections == |set i | 0 <= i < |dev| && Injects(dev[i], tauAbs, tauMargin)|
    ensures r.Ok? ==>
              var t := r.value.tally;
              && r.value.precision == (if t.injections > 0 then t.tp as real / t.injections as real else 1.0)
              && r.value.recall == (if t.tp + t.fn > 0 then t.tp as real / (t.tp + t.fn) as real else 0.0)
              && r.value.specificity == (if t.tn + t.fp > 0 then t.tn as real / (t.tn + t.fp) as real else 1.0)
              && r.value.falseInjectionRate == (if t.tn + t.fp > 0 then t.fp as real / (t.tn + t.fp) as real else 0.0)
              && r.value.abstentionRate == (|dev| - t.injections) as real / |dev| as real
              && r.value.macroF1 == ((if t.tp > 0 then (2 * t.tp) as real / (t.injections + t.tp + t.fn) as real else 0.0)
                                     + (if t.tn > 0 then (2 * t.tn) as real / (2 * t.tn + t.fn + t.fp) as real
                                        else if t.fn + t.fp == 0 then 1.0 else 0.0)) / 2.0
    ensures r.Err? ==> (dev == [] && r.error == EmptyDevSet)
                       || exists i :: 0 <= i < |dev| && DevOk(dev[..i]) && !QueryOk(dev[i]) && r.error == FaultOf(dev[i])
  {
    var totals := AddUp(dev, tauAbs, tauMargin);
    if totals.Err? { return Err(totals.error); }
    if dev == [] { return Err(EmptyDevSet); }
    var t := totals.value.tally;
    TallyCounts(dev, tauAbs, tauMargin);
    MacroF1FromCounts(t);
    return Ok(Measures(t, |dev|, RealRatio(totals.value.ranks, totals.value.relevant),
                       RealRatio(totals.value.leads, |dev|)));
  }

  function Has(tauAbs: real, tauMargin: real, o: Outcome): Query -> bool {
    (q: Query) => OutcomeOf(q, tauAbs, tauMargin) == o
  }

  lemma {:induction false} CountIs(dev: DevSet, tauAbs: real, tauMargin: real, o: Outcome)
    ensures Count(dev, tauAbs, tauMargin, o) == |Where(dev, Has(tauAbs, tauMargin, o))|
  {
    if dev != [] {
      var last := |dev| - 1;
      CountIs(dev[..last], tauAbs, tauMargin, o);
      WhereLast(dev[..last], dev[last], Has(tauAbs, tauMargin, o));
      assert dev == dev[..last] + [dev[last]];
    }
  }

  lemma {:induction false} RelevantCount(dev: DevSet)
    ensures Relevant(dev) == |set i | 0 <= i < |dev| && dev[i].hasRelevant|
  {
    var relevant := (q: Query) => q.hasRelevant;
    if dev != [] {
      var last := |dev| - 1;
      RelevantCount(dev[..last]);
      WhereLast(dev[..last], dev[last], relevant);
      assert dev == dev[..last] + [dev[last]];
      assert Where(dev[..last], relevant) == set i | 0 <= i < last && dev[..last][i].hasRelevant;
    }
    assert Where(dev, relevant) == set i | 0 <= i < |dev| && dev[i].hasRelevant;
  }

  lemma MissCounts(dev: DevSet, a: real, m: real)
    ensures Count(dev, a, m, WrongInjection) + Count(dev, a, m, Missed)
         == |set i | 0 <= i < |dev| && dev[i].hasRelevant && !(Injects(dev[i], a, m) && ScorePool(dev[i])[0].relevant)|
  {
    var missed := (q: Query) => q.hasRelevant && !(Injects(q, a, m) && ScorePool(q)[0].relevant);
    CountIs(dev, a, m, WrongInjection);
    CountIs(dev, a, m, Missed);
    WhereOr(dev, Has(a, m, WrongInjection), Has(a, m, Missed), missed);
    assert Where(dev, missed) == set i | 0 <= i < |dev| && dev[i].hasRelevant
                                         && !(Injects(dev[i], a, m) && ScorePool(dev[i])[0].relevant);
  }

  lemma InjectionCounts(dev: DevSet, a: real, m: real)
    ensures Count(dev, a, m, TruePositive) + Count(dev, a, m, WrongInjection) + Count(dev, a, m, FalsePositive)
         == |set i | 0 <= i < |dev| && Injects(dev[i], a, m)|
  {
    var injects, relevant := (q: Query) => Injects(q, a, m), (q: Query) => Injects(q, a, m) && q.hasRelevant;
    CountIs(dev, a, m, TruePositive);
    CountIs(dev, a, m, WrongInjection);
    CountIs(dev, a, m, FalsePositive);
    WhereOr(dev, Has(a, m, TruePositive), Has(a, m, WrongInjection), relevant);
    WhereOr(dev, relevant, Has(a, m, FalsePositive), injects);
    assert Where(dev, injects) == set i | 0 <= i < |dev| && Injects(dev[i], a, m);
  }

  lemma HitCounts(dev: DevSet, a: real, m: real)
    ensures Count(dev, a, m, TruePositive)
         == |set i | 0 <= i < |dev| && dev[i].hasRelevant && Injects(dev[i], a, m) && ScorePool(dev[i])[0].relevant|
    ensures Count(dev, a, m, FalsePositive) == |set i | 0 <= i < |dev| && !dev[i].hasRelevant && Injects(dev[i], a, m)|
    ensures Count(dev, a, m, TrueNegative) == |set i | 0 <= i < |dev| && !dev[i].hasRelevant && !Injects(dev[i], a, m)|
  {
    CountIs(dev, a, m, TruePositive);
    CountIs(dev, a, m, FalsePositive);
    CountIs(dev, a, m, TrueNegative);
    assert Where(dev, Has(a, m, TruePositive))
        == set i | 0 <= i < |dev| && dev[i].hasRelevant && Injects(dev[i], a, m) && ScorePool(dev[i])[0].relevant;
    assert Where(dev, Has(a, m, FalsePositive)) == set i | 0 <= i < |dev| && !dev[i].hasRelevant && Injects(dev[i], a, m);
    assert Where(dev, Has(a, m, TrueNegative)) == set i | 0 <= i < |dev| && !dev[i].hasRelevant && !Injects(dev[i], a, m);
  }

  lemma TallyCounts(dev: DevSet, tauAbs: real, tauMargin: real)
    requires DevOk(dev)
    ensures var t := TallyOf(dev, tauAbs, tauMargin);
            && t.tp == |set i | 0 <= i < |dev| && dev[i].hasRelevant
                                && Injects(dev[i], tauAbs, tauMargin) && ScorePool(dev[i])[0].relevant|
            && t.fn == |set i | 0 <= i < |dev| && dev[i].hasRelevant
                                && !(Injects(dev[i], tauAbs, tauMargin) && ScorePool(dev[i])[0].relevant)|
            && t.fp == |set i | 0 <= i < |dev| && !dev[i].hasRelevant && Injects(dev[i], tauAbs, tauMargin)|
            && t.tn == |set i | 0 <= i < |dev| && !dev[i].hasRelevant && !Injects(dev[i], tauAbs, tauMargin)|
            && t.injections == |set i | 0 <= i < |dev| && Injects(dev[i], tauAbs, tauMargin)|
  {
    HitCounts(dev, tauAbs, tauMargin);
    MissCounts(dev, tauAbs, tauMargin);
    InjectionCounts(dev, tauAbs, tauMargin);
  }

  /** The two averages: of the reciprocal rank of the first relevant candidate, over the queries that claim one, and
      of the lead of the best candidate over the second, a missing second counting as 0. */
  lemma AveragesAre(dev: DevSet, a: real, m: real) returns (ranks: seq<real>, leads: seq<real>)
    requires DevOk(dev) && dev != []
    ensures |ranks| == |leads| == |dev|
    ensures forall i :: 0 <= i < |dev| ==>
              var scored := ScorePool(dev[i]);
              && scored != []
              && leads[i] == (if |scored| > 1 then scored[0].score - scored[1].score else scored[0].score)
              && if dev[i].hasRelevant
                 then exists k :: 0 <= k < |scored| && scored[k].relevant
                        && (forall l :: 0 <= l < k ==> !scored[l].relevant) && ranks[i] == 1.0 / (k + 1) as real
                 else ranks[i] == 0.0
    ensures MetricsOf(dev, a, m).meanMargin == RealSum(leads) / |dev| as real
    ensures var relevant := |set i | 0 <= i < |dev| && dev[i].hasRelevant|;
            MetricsOf(dev, a, m).mrr == if relevant > 0 then RealSum(ranks) / relevant as real else 0.0
  {
    ranks, leads := ReciprocalRanks(dev), Margins(dev);
    RelevantCount(dev);
    forall i | 0 <= i < |dev| && dev[i].hasRelevant
      ensures var scored, k := ScorePool(dev[i]), RankOfRelevant(ScorePool(dev[i]));
              1 <= k <= |scored| && scored[k - 1].relevant && ranks[i] == 1.0 / (k - 1 + 1) as real
    {
      assert QueryOk(dev[i]);
    }
  }

  /** Macro F1 from the counts, degenerate cases included. */
  lemma MacroF1FromCounts(t: Tally)
    requires t.tp <= t.injections
    ensures MacroF1(t) == ((if t.tp > 0 then (2 * t.tp) as real / (t.injections + t.tp + t.fn) as real else 0.0)
                           + (if t.tn > 0 then (2 * t.tn) as real / (2 * t.tn + t.fn + t.fp) as real
                              else if t.fn + t.fp == 0 then 1.0 else 0.0)) / 2.0
  {
    InjectionF1(t);
    AbstentionF1(t);
  }

  lemma {:induction false} InjectionF1(t: Tally)
    requires t.tp <= t.injections
    ensures F1(Precision(t), Recall(t))
         == if t.tp > 0 then (2 * t.tp) as real / (t.injections + t.tp + t.fn) as real else 0.0
  {
    if t.tp > 0 {
      F1FromCounts(t.tp, t.injections, t.tp + t.fn);
      Twice(t.tp);
      assert t.injections + (t.tp + t.fn) == t.injections + t.tp + t.fn;
    } else {
      NoHits(t.injections, 1.0);
      NoHits(t.tp + t.fn, 0.0);
    }
  }

  lemma {:induction false} AbstentionF1(t: Tally)
    ensures F1(Ratio(t.tn, t.tn + t.fn, 1.0), Ratio(t.tn, t.tn + t.fp, 1.0))
         == if t.tn > 0 then (2 * t.tn) as real / (2 * t.tn + t.fn + t.fp) as real
            else if t.fn + t.fp == 0 then 1.0 else 0.0
  {
    if t.tn > 0 {
      F1FromCounts(t.tn, t.tn + t.fn, t.tn + t.fp);
      Twice(t.tn);
      assert t.tn + t.fn + (t.tn + t.fp) == 2 * t.tn + t.fn + t.fp;
    } else {
      NoHits(t.tn + t.fn, 1.0);
      NoHits(t.tn + t.fp, 1.0);
    }
  }

  lemma Twice(n: nat)
    ensures 2.0 * n as real == (2 * n) as real
  {
  }

  lemma NoHits(d: nat, otherwise: real)
    ensures Ratio(0, d, otherwise) == if d == 0 then otherwise else 0.0
  {
  }

  /** Counts one query. */
  method Tallied(t: Tally, q: Query, tauAbs: real, tauMargin: real) returns (t': Tally)
    requires q.candidates != []
    ensures t' == Bump(t, OutcomeOf(q, tauAbs, tauMargin))
  {
    t' := t;
    var injects := Injects(q, tauAbs, tauMargin);
    if q.hasRelevant {
      if injects && ScorePool(q)[0].relevant {
        t' := t'.(tp := t'.tp + 1, injections := t'.injections + 1);
      } else if injects {
        t' := t'.(fn := t'.fn + 1, injections := t'.injections + 1);
      } else {
        t' := t'.(fn := t'.fn + 1);
      }
    } else if injects {
      t' := t'.(fp := t'.fp + 1, injections := t'.injections + 1);
    } else {
      t' := t'.(tn := t'.tn + 1);
    }
  }

  function MetricsOf(dev: DevSet, tauAbs: real, tauMargin: real): Metrics
    requires DevOk(dev)
  {
    Measures(TallyOf(dev, tauAbs, tauMargin), |dev|, RealRatio(RealSum(ReciprocalRanks(dev)), Relevant(dev)),
             RealRatio(RealSum(Margins(dev)), |dev|))
  }

  function RealRatio(x: real, n: nat): real { if n == 0 then 0.0 else x / n as real }

  // ---------------------------------------------------------------- monotonicity

  /** Higher thresholds never inject where lower ones abstain. */
  lemma InjectsAntitone(q: Query, a: real, m: real, a': real, m': real)
    requires q.candidates != [] && a <= a' && m <= m' && Injects(q, a', m')
    ensures Injects(q, a, m)
  {
  }

  /** What raising the thresholds can do to the outcome of one query. */
  lemma {:induction false} OutcomeMonotone(q: Query, a: real, m: real, a': real, m': real)
    requires q.candidates != [] && a <= a' && m <= m'
    ensures OutcomeOf(q, a', m').TruePositive? ==> OutcomeOf(q, a, m).TruePositive?
    ensures OutcomeOf(q, a, m).TrueNegative? ==> OutcomeOf(q, a', m').TrueNegative?
    ensures OutcomeOf(q, a, m).FalsePositive? || OutcomeOf(q, a, m).TrueNegative? <==> !q.hasRelevant
  {
    if Injects(q, a', m') { InjectsAntitone(q, a, m, a', m'); }
  }

  /** The relevant queries are true positives or false negatives, the others false positives or true
      negatives, at any thresholds. */
  lemma {:induction false} CountsComplete(dev: DevSet, a: real, m: real)
    requires DevOk(dev)
    ensures var t := TallyOf(dev, a, m); t.tp + t.fn == Relevant(dev) && t.tn + t.fp == |dev| - Relevant(dev)
  {
    if dev != [] { CountsComplete(dev[..|dev| - 1], a, m); }
  }

  /** Raising the thresholds loses true positives and gains true negatives. */
  lemma {:induction false} HitsMonotone(dev: DevSet, a: real, m: real, a': real, m': real)
    requires DevOk(dev) && a <= a' && m <= m'
    ensures Count(dev, a', m', TruePositive) <= Count(dev, a, m, TruePositive)
    ensures Count(dev, a', m', TrueNegative) >= Count(dev, a, m, TrueNegative)
  {
    if dev != [] {
      HitsMonotone(dev[..|dev| - 1], a, m, a', m');
      OutcomeMonotone(dev[|dev| - 1], a, m, a', m');
    }
  }

  /** Raising the thresholds loses true positives and gains true negatives, over the same relevant and
      irrelevant queries. */
  lemma CountsMonotone(dev: DevSet, a: real, m: real, a': real, m': real)
    requires DevOk(dev) && a <= a' && m <= m'
    ensures var t, t' := TallyOf(dev, a, m), TallyOf(dev, a', m');
            && t'.tp <= t.tp && t'.tn >= t.tn
            && t'.tp + t'.fn == t.tp + t.fn == Relevant(dev)
            && t'.tn + t'.fp == t.tn + t.fp == |dev| - Relevant(dev)
  {
    HitsMonotone(dev, a, m, a', m');
    CountsComplete(dev, a, m);
    CountsComplete(dev, a', m');
  }

  lemma {:induction false} RatioMonotone(n: nat, n': nat, d: nat, otherwise: real)
    requires n <= n'
    ensures Ratio(n, d, otherwise) <= Ratio(n', d, otherwise)
  {
    if d > 0 { QuotientMonotone(n as real, n' as real, d as real); }
  }

  lemma QuotientMonotone(x: real, y: real, d: real)
    requires x <= y && d > 0.0
    ensures x / d <= y / d
  {
  }

  /** Raising the thresholds never raises recall and never lowers no-match specificity. */
  lemma QualityMonotone(dev: DevSet, a: real, m: real, a': real, m': real)
    requires DevOk(dev) && a <= a' && m <= m'
    ensures Recall(TallyOf(dev, a', m')) <= Recall(TallyOf(dev, a, m))
    ensures Specificity(TallyOf(dev, a', m')) >= Specificity(TallyOf(dev, a, m))
  {
    var t, t' := TallyOf(dev, a, m), TallyOf(dev, a', m');
    CountsMonotone(dev, a, m, a', m');
    RatioMonotone(t'.tp, t.tp, t.tp + t.fn, 0.0);
    RatioMonotone(t.tn, t'.tn, t.tn + t.fp, 1.0);
  }

  predicate Feasible(t: Tally, recallMin: real, specMin: real) {
    Recall(t) >= recallMin && Specificity(t) >= specMin
  }

  /** Between two feasible points every point is feasible. */
  lemma FeasibleConvex(dev: DevSet, recallMin: real, specMin: real,
                       a: real, m: real, a': real, m': real, a'': real, m'': real)
    requires DevOk(dev) && a <= a' <= a'' && m <= m' <= m''
    requires Feasible(TallyOf(dev, a, m), recallMin, specMin) && Feasible(TallyOf(dev, a'', m''), recallMin, specMin)
    ensures Feasible(TallyOf(dev, a', m'), recallMin, specMin)
  {
    QualityMonotone(dev, a, m, a', m');
    QualityMonotone(dev, a', m', a'', m'');
  }

  // ---------------------------------------------------------------- threshold search

  /** A grid point with its measures. */
  datatype Row = Row(tauAbs: real, tauMargin: real, recall: real, specificity: real, macroF1: real,
                     falseInjectionRate: real)

  datatype Choice = NoneFeasible | Chosen(row: Row)

  const ABS_POINTS := 11
  const MARGIN_POINTS := 10

  function TauAbs(i: nat): real { (30 + 5 * i) as real / 100.0 }

  function TauMargin(j: nat): real { (5 + 5 * j) as real / 100.0 }

  function RowFor(tauAbs: real, tauMargin: real, m: Metrics): Row {
    Row(tauAbs, tauMargin, m.recall, m.specificity, m.macroF1, m.falseInjectionRate)
  }

  /** The row of grid point `k`, the margin varying faster. */
  function RowAt(dev: DevSet, k: nat): Row
    requires DevOk(dev)
  {
    var tauAbs, tauMargin := TauAbs(k / MARGIN_POINTS), TauMargin(k % MARGIN_POINTS);
    RowFor(tauAbs, tauMargin, MetricsOf(dev, tauAbs, tauMargin))
  }

  predicate Acceptable(row: Row, recallMin: real, specMin: real) {
    row.recall >= recallMin && row.specificity >= specMin
  }

  /** The order of preference: the larger macro F1, then the larger thresholds. */
  predicate AtLeast(r: Row, s: Row) {
    r.macroF1 > s.macroF1
    || (r.macroF1 == s.macroF1
        && (r.tauAbs > s.tauAbs || (r.tauAbs == s.tauAbs && r.tauMargin >= s.tauMargin)))
  }

  function Preferred(): (Row, Row) -> bool { (r: Row, s: Row) => AtLeast(r, s) }

  function Acceptables(rows: seq<Row>, recallMin: real, specMin: real): seq<Row> {
    if rows == [] then []
    else var last := |rows| - 1;
         Acceptables(rows[..last], recallMin, specMin)
         + (if Acceptable(rows[last], recallMin, specMin) then [rows[last]] else [])
  }

  lemma {:induction false} AcceptablesAre(rows: seq<Row>, recallMin: real, specMin: real, row: Row)
    ensures row in Acceptables(rows, recallMin, specMin) <==> row in rows && Acceptable(row, recallMin, specMin)
  {
    if rows != [] {
      AcceptablesAre(rows[..|rows| - 1], recallMin, specMin, row);
      assert rows == rows[..|rows| - 1] + [rows[|rows| - 1]];
    }
  }

  /** `grid` lists the first `n` grid points. */
  ghost predicate Swept(dev: DevSet, grid: seq<Row>, n: nat) {
    |grid| == n && (n > 0 ==> DevOk(dev) && dev != [] && forall k :: 0 <= k < n ==> grid[k] == RowAt(dev, k))
  }

  lemma SweepOne(dev: DevSet, grid: seq<Row>, i: nat, j: nat, row: Row, recallMin: real, specMin: real)
    requires j < MARGIN_POINTS && Swept(dev, grid, MARGIN_POINTS * i + j) && DevOk(dev) && dev != []
    requires row == RowFor(TauAbs(i), TauMargin(j), MetricsOf(dev, TauAbs(i), TauMargin(j)))
    ensures Swept(dev, grid + [row], MARGIN_POINTS * i + j + 1)
    ensures Acceptables(grid + [row], recallMin, specMin)
         == Acceptables(grid, recallMin, specMin) + (if Acceptable(row, recallMin, specMin) then [row] else [])
  {
    var k := MARGIN_POINTS * i + j;
    assert k / MARGIN_POINTS == i && k % MARGIN_POINTS == j;
    assert row == RowAt(dev, k);
    assert (grid + [row])[..|grid|] == grid;
  }

  /** The best of the acceptable rows, if there is one. */
  ghost predicate IsBest(grid: seq<Row>, recallMin: real, specMin: real, choice: Choice) {
    && (choice.NoneFeasible? <==> forall row :: row in grid ==> !Acceptable(row, recallMin, specMin))
    && (choice.Chosen? ==>
          && choice.row in grid
          && Acceptable(choice.row, recallMin, specMin)
          && forall row :: row in grid && Acceptable(row, recallMin, specMin) ==> AtLeast(choice.row, row))
  }

  /** Picks the first row in the order of preference. */
  method PickBest(grid: seq<Row>, feasible: seq<Row>, recallMin: real, specMin: real) returns (choice: Choice)
    requires feasible == Acceptables(grid, recallMin, specMin)
    ensures IsBest(grid, recallMin, specMin, choice)
  {
    forall row ensures row in feasible <==> row in grid && Acceptable(row, recallMin, specMin) {
      AcceptablesAre(grid, recallMin, specMin, row);
    }
    if feasible == [] { return NoneFeasible; }
    var sorted := Sort(feasible, Preferred());
    SortSorts(feasible, Preferred());
    SameElements(sorted, feasible);
    assert sorted[0] in feasible;
    forall row | row in feasible ensures AtLeast(sorted[0], row) {
      assert row in sorted;
      var i :| 0 <= i < |sorted| && sorted[i] == row;
      if i > 0 { assert Preferred()(sorted[0], sorted[i]); }
    }
    return Chosen(sorted[0]);
  }

  lemma GridIs(dev: DevSet, grid: seq<Row>)
    requires Swept(dev, grid, ABS_POINTS * MARGIN_POINTS)
    ensures forall k :: 0 <= k < 110 ==>
              && grid[k].tauAbs == 0.3 + 0.05 * (k / 10) as real && grid[k].tauMargin == 0.05 + 0.05 * (k % 10) as real
              && var m := MetricsOf(dev, grid[k].tauAbs, grid[k].tauMargin);
                 grid[k].recall == m.recall && grid[k].specificity == m.specificity && grid[k].macroF1 == m.macroF1
                 && grid[k].falseInjectionRate == m.falseInjectionRate
  {
  }

  /** Sweeps the grid and picks the best feasible thresholds. */
  method SelectThresholds(dev: DevSet, recallMin: real, specMin: real)
    returns (r: Result<Choice>, grid: seq<Row>)
    ensures r.Ok? <==> DevOk(dev) && dev != []
    ensures r.Ok? ==> |grid| == 110
    ensures r.Ok? ==> forall k :: 0 <= k < 110 ==>
              && grid[k].tauAbs == 0.3 + 0.05 * (k / 10) as real && grid[k].tauMargin == 0.05 + 0.05 * (k % 10) as real
              && var m := MetricsOf(dev, grid[k].tauAbs, grid[k].tauMargin);
                 grid[k].recall == m.recall && grid[k].specificity == m.specificity && grid[k].macroF1 == m.macroF1
                 && grid[k].falseInjectionRate == m.falseInjectionRate
    ensures r.Ok? ==> (r.value.NoneFeasible? <==> forall row <- grid :: row.recall < recallMin || row.specificity < specMin)
    ensures r.Ok? && r.value.Chosen? ==>
              var best := r.value.row;
              && best in grid && best.recall >= recallMin && best.specificity >= specMin
              && forall row <- grid :: row.recall >= recallMin && row.specificity >= specMin ==>
                   best.macroF1 > row.macroF1
                   || (best.macroF1 == row.macroF1
                       && (best.tauAbs > row.tauAbs || (best.tauAbs == row.tauAbs && best.tauMargin >= row.tauMargin)))
  {
    grid := [];
    var feasible: seq<Row> := [];
    for i := 0 to ABS_POINTS
      invariant Swept(dev, grid, MARGIN_POINTS * i) && feasible == Acceptables(grid, recallMin, specMin)
    {
      for j := 0 to MARGIN_POINTS
        invariant Swept(dev, grid, MARGIN_POINTS * i + j) && feasible == Acceptables(grid, recallMin, specMin)
      {
        var m := Measure(dev, TauAbs(i), TauMargin(j));
        if m.Err? { return Err(m.error), grid; }
        var row := RowFor(TauAbs(i), TauMargin(j), m.value);
        SweepOne(dev, grid, i, j, row, recallMin, specMin);
        grid := grid + [row];
        if Acceptable(row, recallMin, specMin) { feasible := feasible + [row]; }
      }
    }
    var choice := PickBest(grid, feasible, recallMin, specMin);
    GridIs(dev, grid);
    return Ok(choice), grid;
  }
}
