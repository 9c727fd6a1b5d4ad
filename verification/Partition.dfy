/** The frozen task partition: active representatives in digest order fill the five active sets, and
    everything else is held in reserve. */
module Partition {
  import opened NearDuplicates
  import opened Sequences

  datatype Name = Source | RetrievalDev | Discovery | Calibration | Main | Reserve

  type Sets = map<Name, seq<nat>>

  /** The sets and their sizes, in the order they are filled; the reserve takes what is left. */
  const SIZES: seq<(Name, nat)> :=
    [(Source, 300), (RetrievalDev, 80), (Discovery, 120), (Calibration, 80), (Main, 500), (Reserve, 60)]

  const ACTIVE: nat := 5

  function Clamp(i: nat, n: nat): nat { if i <= n then i else n }

  /** A slice whose bounds may lie beyond the end. */
  function Slice(xs: seq<nat>, lo: nat, hi: nat): seq<nat>
    requires lo <= hi
  {
    xs[Clamp(lo, |xs|)..Clamp(hi, |xs|)]
  }

  /** The tasks not in `extras`, in order. */
  function Remaining(ids: seq<nat>, extras: set<nat>): seq<nat> {
    if ids == [] then []
    else (if ids[0] in extras then [] else [ids[0]]) + Remaining(ids[1..], extras)
  }

  ghost predicate Complete(p: Sets) { forall n: Name :: n in p }

  /** What the first `k` sets hold. */
  ghost function Flat(p: Sets, k: nat): seq<nat>
    requires Complete(p) && k <= |SIZES|
  {
    if k == 0 then [] else Flat(p, k - 1) + p[SIZES[k - 1].0]
  }

  /** Every task is in exactly one set, once, and no two tasks outside the reserve are near-duplicates. */
  ghost predicate Sound(u: Universe, p: Sets) {
    && Complete(p)
    && multiset(Flat(p, |SIZES|)) == multiset(u.ids)
    && (forall x, y :: x in Flat(p, ACTIVE) && y in Flat(p, ACTIVE) && x != y ==> !Near(u, x, y))
  }

  lemma {:induction false} RemainingAre(ids: seq<nat>, extras: set<nat>)
    requires Distinct(ids)
    ensures Distinct(Remaining(ids, extras))
    ensures forall x :: x in Remaining(ids, extras) <==> x in ids && x !in extras
  {
    if ids != [] {
      RemainingAre(ids[1..], extras);
      assert ids == [ids[0]] + ids[1..];
      assert ids[0] !in ids[1..];
    }
  }

  lemma SameMultiset(xs: seq<nat>, ys: seq<nat>)
    requires Distinct(xs) && Distinct(ys) && forall x :: x in xs <==> x in ys
    ensures multiset(xs) == multiset(ys)
  {
    DistinctIffMultiset(xs);
    DistinctIffMultiset(ys);
    forall x ensures multiset(xs)[x] == multiset(ys)[x] {
      assert x in multiset(xs) <==> x in xs;
      assert x in multiset(ys) <==> x in ys;
    }
  }

  lemma DistinctConcat(xs: seq<nat>, ys: seq<nat>)
    requires Distinct(xs) && Distinct(ys) && forall x :: x in xs ==> x !in ys
    ensures Distinct(xs + ys)
  {
    forall i, j | 0 <= i < j < |xs + ys| ensures (xs + ys)[i] != (xs + ys)[j] {
      if i < |xs| <= j { assert xs[i] in xs && ys[j - |xs|] in ys; }
    }
  }

  /** Splitting the tasks into those left in and those quarantined loses none. */
  lemma SplitIsWhole(ids: seq<nat>, extras: set<nat>, forced: seq<nat>)
    requires Distinct(ids) && Distinct(forced) && extras <= (set x | x in ids) && forall x :: x in forced <==> x in extras
    ensures multiset(Remaining(ids, extras)) + multiset(forced) == multiset(ids)
  {
    var active := Remaining(ids, extras);
    RemainingAre(ids, extras);
    DistinctConcat(active, forced);
    SameMultiset(active + forced, ids);
  }

  /** In the order of the digests. */
  function Ordered(ids: seq<nat>): (ordered: seq<nat>)
    ensures multiset(ordered) == multiset(ids) && SortedBy(ordered, ByKey())
  {
    SortSorts(ids, ByKey());
    Sort(ids, ByKey())
  }

  /** Lists a set, in no particular order. */
  method Listed(s: set<nat>) returns (xs: seq<nat>)
    ensures Distinct(xs) && forall x :: x in xs <==> x in s
  {
    xs := [];
    var todo := s;
    while todo != {}
      invariant todo <= s && Distinct(xs) && forall x :: x in xs <==> x in s - todo
    {
      var x :| x in todo;
      DistinctConcat(xs, [x]);
      xs := xs + [x];
      todo := todo - {x};
    }
  }

  /** How many active tasks come before the set at position `k`. */
  function StartOf(k: nat): nat
    requires k <= |SIZES|
  {
    if k == 0 then 0 else StartOf(k - 1) + SIZES[k - 1].1
  }

  lemma {:induction false} FlatKept(p: Sets, k: nat, l: nat, xs: seq<nat>)
    requires Complete(p) && l <= k < |SIZES|
    ensures Flat(p[SIZES[k].0 := xs], l) == Flat(p, l)
  {
    if l > 0 { FlatKept(p, k, l - 1, xs); }
  }

  lemma SliceExtends(xs: seq<nat>, i: nat, n: nat)
    ensures xs[..Clamp(i, |xs|)] + Slice(xs, i, i + n) == xs[..Clamp(i + n, |xs|)]
  {
  }

  lemma SliceRest(xs: seq<nat>, i: nat, forced: seq<nat>)
    ensures xs[..Clamp(i, |xs|)] + (xs[Clamp(i, |xs|)..] + forced) == xs + forced
  {
  }

  function EmptySets(): Sets {
    map[Source := [], RetrievalDev := [], Discovery := [], Calibration := [], Main := [], Reserve := []]
  }

  lemma EmptyComplete()
    ensures Complete(EmptySets())
  {
    forall n: Name ensures n in EmptySets() {
      match n {
        case Source => case RetrievalDev => case Discovery => case Calibration => case Main => case Reserve =>
      }
    }
  }

  /** The first `k` sets are consecutive slices of the active tasks. */
  ghost predicate Filled(out: Sets, active: seq<nat>, k: nat)
    requires k <= |SIZES|
  {
    && Complete(out)
    && Flat(out, k) == active[..Clamp(StartOf(k), |active|)]
    && Sliced(out, active, k)
  }

  ghost predicate Sliced(out: Sets, active: seq<nat>, k: nat)
    requires Complete(out) && k <= |SIZES|
  {
    forall l :: 0 <= l < k ==> out[SIZES[l].0] == Slice(active, StartOf(l), StartOf(l + 1))
  }

  lemma {:induction false} NamesDiffer(l: nat, k: nat)
    requires l < k < |SIZES|
    ensures SIZES[l].0 != SIZES[k].0
  {
    assert Position(SIZES[l].0) == l && Position(SIZES[k].0) == k;
  }

  lemma {:induction false} SliceOne(out: Sets, active: seq<nat>, k: nat, cut: seq<nat>)
    requires Complete(out) && k < |SIZES| && Sliced(out, active, k) && cut == Slice(active, StartOf(k), StartOf(k + 1))
    ensures Sliced(out[SIZES[k].0 := cut], active, k + 1)
  {
    forall l | 0 <= l < k ensures SIZES[l].0 != SIZES[k].0 { NamesDiffer(l, k); }
  }

  lemma FillOne(out: Sets, active: seq<nat>, k: nat, cut: seq<nat>)
    requires k < ACTIVE && Filled(out, active, k) && cut == Slice(active, StartOf(k), StartOf(k + 1))
    ensures Filled(out[SIZES[k].0 := cut], active, k + 1)
  {
    FlatKept(out, k, k, cut);
    SliceExtends(active, StartOf(k), SIZES[k].1);
    assert Sliced(out[SIZES[k].0 := cut], active, k + 1) by { SliceOne(out, active, k, cut); }
  }

  /** Cuts the ordered active tasks into the active sets; what is left joins the reserve. */
  method Cut(active: seq<nat>, forced: seq<nat>) returns (out: Sets)
    ensures Complete(out) && Flat(out, |SIZES|) == active + forced
    ensures Filled(out, active, ACTIVE)
  {
    out := EmptySets();
    EmptyComplete();
    var i := 0;
    for k := 0 to ACTIVE
      invariant i == StartOf(k) && Filled(out, active, k)
    {
      var (name, n) := SIZES[k];
      FillOne(out, active, k, Slice(active, i, i + n));
      out := out[name := Slice(active, i, i + n)];
      i := i + n;
    }
    FillReserve(out, active, forced);
    out := out[Reserve := active[Clamp(i, |active|)..] + forced];
  }

  lemma FillReserve(out: Sets, active: seq<nat>, forced: seq<nat>)
    requires Filled(out, active, ACTIVE)
    ensures var full := out[Reserve := active[Clamp(StartOf(ACTIVE), |active|)..] + forced];
            Filled(full, active, ACTIVE) && Flat(full, |SIZES|) == active + forced
  {
    var rest := active[Clamp(StartOf(ACTIVE), |active|)..] + forced;
    FlatKept(out, ACTIVE, ACTIVE, rest);
    SliceRest(active, StartOf(ACTIVE), forced);
    assert Flat(out[Reserve := rest], |SIZES|) == Flat(out[Reserve := rest], ACTIVE) + rest;
  }

  /** The partition. */
  method BuildPartition(u: Universe) returns (out: Sets, ghost kept: nat)
    requires Distinct(u.ids)
    ensures Sound(u, out) && FilledInOrder(u, out)
    ensures var all := out[Source] + out[RetrievalDev] + out[Discovery] + out[Calibration] + out[Main] + out[Reserve];
            && KeptFirst(u, all, kept) && (|out[Main]| < 500 ==> |out[Reserve]| == |all| - kept)
    ensures var active := out[Source] + out[RetrievalDev] + out[Discovery] + out[Calibration] + out[Main];
            && multiset(active + out[Reserve]) == multiset(u.ids)
            && (forall i, j :: 0 <= i < j < |active| ==> !Near(u, active[i], active[j]))
            && (forall i, j :: 0 <= i < j < |active| ==> OrderKey(active[i]) <= OrderKey(active[j]))
            && (|out[Main]| < 500 ==> forall x <- out[Reserve] :: exists y :: y in active && Chained(u, x, y))
    ensures |out[Source]| <= 300 && |out[RetrievalDev]| <= 80 && |out[Discovery]| <= 120 && |out[Calibration]| <= 80
            && |out[Main]| <= 500
    ensures (|out[RetrievalDev]| > 0 ==> |out[Source]| == 300) && (|out[Discovery]| > 0 ==> |out[RetrievalDev]| == 80)
            && (|out[Calibration]| > 0 ==> |out[Discovery]| == 120) && (|out[Main]| > 0 ==> |out[Calibration]| == 80)
  {
    var extras := NearDupExtras(u);
    var active := Ordered(Remaining(u.ids, extras));
    var listed := Listed(extras);
    var forced := Ordered(listed);
    out := Cut(active, forced);
    BuiltSound(u, extras, active, listed, forced, out);
    SameElements(forced, listed);
    SortedPrefix(active, Clamp(StartOf(ACTIVE), |active|));
    BuiltSizes(active, out);
    BuiltReserve(u, extras, active, forced, out);
    InFigures(u, out);
    kept := |active|;
    WholeInOrder(u, extras, active, forced, out);
  }

  /** First the `kept` representatives, no two near-duplicates, in digest order; then the quarantined tasks, in digest
      order, each chained to a representative. */
  ghost predicate KeptFirst(u: Universe, all: seq<nat>, kept: nat) {
    && kept <= |all|
    && (forall i, j :: 0 <= i < j < kept ==> !Near(u, all[i], all[j]) && OrderKey(all[i]) <= OrderKey(all[j]))
    && (forall i, j :: kept <= i < j < |all| ==> OrderKey(all[i]) <= OrderKey(all[j]))
    && (forall x :: x in all[kept..] ==> exists y :: y in all[..kept] && Chained(u, x, y))
  }

  lemma WholeInOrder(u: Universe, extras: set<nat>, active: seq<nat>, forced: seq<nat>, out: Sets)
    requires OneOfEach(u, extras) && Distinct(u.ids) && multiset(active) == multiset(Remaining(u.ids, extras))
    requires (forall y :: y in forced ==> y in extras) && SortedBy(active, ByKey()) && SortedBy(forced, ByKey())
    requires Filled(out, active, ACTIVE) && Flat(out, |SIZES|) == active + forced
    ensures var all := out[Source] + out[RetrievalDev] + out[Discovery] + out[Calibration] + out[Main] + out[Reserve];
            KeptFirst(u, all, |active|) && (|out[Main]| < 500 ==> |out[Reserve]| == |all| - |active|)
  {
    FlatIs(out);
    if |out[Main]| < 500 { OnlyForcedReserved(out, active, forced); }
    ActiveApart(u, extras, active);
    DistinctActive(u, extras, active);
    forall x | x in forced { ReserveRepresented(u, extras, active, x); }
    KeptThenForced(u, active, forced);
  }

  lemma {:induction false} KeptThenForced(u: Universe, active: seq<nat>, forced: seq<nat>)
    requires SortedBy(active, ByKey()) && SortedBy(forced, ByKey()) && Distinct(active)
    requires forall x, y :: x in active && y in active && x != y ==> !Near(u, x, y)
    requires forall x :: x in forced ==> exists y :: y in active && Chained(u, x, y)
    ensures KeptFirst(u, active + forced, |active|)
  {
    var all, kept := active + forced, |active|;
    assert all[..kept] == active && all[kept..] == forced;
    forall i, j | 0 <= i < j < kept ensures !Near(u, all[i], all[j]) && OrderKey(all[i]) <= OrderKey(all[j]) {
      assert ByKey()(active[i], active[j]) && active[i] in active && active[j] in active;
    }
    forall i, j | kept <= i < j < |all| ensures OrderKey(all[i]) <= OrderKey(all[j]) {
      assert ByKey()(forced[i - kept], forced[j - kept]);
    }
  }

  lemma DistinctActive(u: Universe, extras: set<nat>, active: seq<nat>)
    requires Distinct(u.ids) && multiset(active) == multiset(Remaining(u.ids, extras))
    ensures Distinct(active)
  {
    RemainingAre(u.ids, extras);
    DistinctIffMultiset(Remaining(u.ids, extras));
    DistinctIffMultiset(active);
  }

  /** What a sound partition filled in order is, set by set. */
  lemma InFigures(u: Universe, out: Sets)
    requires Distinct(u.ids) && Sound(u, out) && FilledInOrder(u, out)
    ensures var active := out[Source] + out[RetrievalDev] + out[Discovery] + out[Calibration] + out[Main];
            && multiset(active + out[Reserve]) == multiset(u.ids)
            && (forall i, j :: 0 <= i < j < |active| ==> !Near(u, active[i], active[j]))
            && (forall i, j :: 0 <= i < j < |active| ==> OrderKey(active[i]) <= OrderKey(active[j]))
            && (|out[Main]| < 500 ==> forall x <- out[Reserve] :: exists y :: y in active && Chained(u, x, y))
    ensures |out[Source]| <= 300 && |out[RetrievalDev]| <= 80 && |out[Discovery]| <= 120 && |out[Calibration]| <= 80
            && |out[Main]| <= 500
    ensures (|out[RetrievalDev]| > 0 ==> |out[Source]| == 300) && (|out[Discovery]| > 0 ==> |out[RetrievalDev]| == 80)
            && (|out[Calibration]| > 0 ==> |out[Discovery]| == 120) && (|out[Main]| > 0 ==> |out[Calibration]| == 80)
  {
    FlatIs(out);
    ActiveDistinct(u, out);
    SizesAre(out);
    var active := Flat(out, ACTIVE);
    forall i, j | 0 <= i < j < |active|
      ensures !Near(u, active[i], active[j]) && OrderKey(active[i]) <= OrderKey(active[j])
    {
      assert ByKey()(active[i], active[j]);
      assert active[i] in active && active[j] in active;
    }
  }

  lemma FlatIs(p: Sets)
    requires Complete(p)
    ensures Flat(p, 5) == p[Source] + p[RetrievalDev] + p[Discovery] + p[Calibration] + p[Main]
    ensures Flat(p, 6) == Flat(p, 5) + p[Reserve]
  {
    assert Flat(p, 1) == p[Source];
    assert Flat(p, 2) == Flat(p, 1) + p[RetrievalDev];
    assert Flat(p, 3) == Flat(p, 2) + p[Discovery];
    assert Flat(p, 4) == Flat(p, 3) + p[Calibration];
  }

  lemma ActiveDistinct(u: Universe, p: Sets)
    requires Distinct(u.ids) && Sound(u, p)
    ensures Distinct(Flat(p, ACTIVE))
  {
    DistinctIffMultiset(u.ids);
    DistinctIffMultiset(Flat(p, |SIZES|));
    FlatPrefix(p, ACTIVE, |SIZES|);
  }

  lemma SizesAre(p: Sets)
    requires Complete(p) && SizesFilled(p)
    ensures |p[Source]| <= 300 && |p[RetrievalDev]| <= 80 && |p[Discovery]| <= 120 && |p[Calibration]| <= 80
            && |p[Main]| <= 500
    ensures (|p[RetrievalDev]| > 0 ==> |p[Source]| == 300) && (|p[Discovery]| > 0 ==> |p[RetrievalDev]| == 80)
            && (|p[Calibration]| > 0 ==> |p[Discovery]| == 120) && (|p[Main]| > 0 ==> |p[Calibration]| == 80)
  {
    assert SIZES[0] == (Source, 300) && SIZES[1] == (RetrievalDev, 80) && SIZES[2] == (Discovery, 120);
    assert SIZES[3] == (Calibration, 80) && SIZES[4] == (Main, 500);
  }

  lemma BuiltSound(u: Universe, extras: set<nat>, active: seq<nat>, listed: seq<nat>, forced: seq<nat>, out: Sets)
    requires Distinct(u.ids) && OneOfEach(u, extras)
    requires Distinct(listed) && forall x :: x in listed <==> x in extras
    requires multiset(active) == multiset(Remaining(u.ids, extras)) && multiset(forced) == multiset(listed)
    requires Complete(out) && Flat(out, |SIZES|) == active + forced
    requires Filled(out, active, ACTIVE)
    ensures Sound(u, out)
  {
    SplitIsWhole(u.ids, extras, listed);
    ActiveApart(u, extras, active);
  }

  /** Before the active sets are all full, the reserve only holds tasks that have a near-duplicate
      representative in an active set. */
  ghost predicate ReserveCovered(u: Universe, p: Sets)
    requires Complete(p)
  {
    |p[Main]| < 500 ==> forall x :: x in p[Reserve] ==> exists y :: y in Flat(p, ACTIVE) && Chained(u, x, y)
  }

  /** Each active set is filled to its size before the next one starts. */
  ghost predicate SizesFilled(p: Sets)
    requires Complete(p)
  {
    && (forall k :: 0 <= k < ACTIVE ==> |p[SIZES[k].0]| <= SIZES[k].1)
    && (forall k, l :: 0 <= k < l < ACTIVE && p[SIZES[l].0] != [] ==> |p[SIZES[k].0]| == SIZES[k].1)
  }

  /** The active sets hold tasks in the order of their digests, and are filled one after another. */
  ghost predicate FilledInOrder(u: Universe, p: Sets) {
    Complete(p) && SortedBy(Flat(p, ACTIVE), ByKey()) && SizesFilled(p) && ReserveCovered(u, p)
  }

  lemma {:induction false} StartsIncrease(k: nat, l: nat)
    requires k <= l <= |SIZES|
    ensures StartOf(k) <= StartOf(l)
  {
    if k < l { StartsIncrease(k, l - 1); }
  }

  lemma {:induction false} SlicesInOrder(out: Sets, active: seq<nat>, k: nat, l: nat)
    requires Filled(out, active, ACTIVE) && k < l < ACTIVE && out[SIZES[l].0] != []
    ensures |out[SIZES[k].0]| == SIZES[k].1
  {
    StartsIncrease(k + 1, l);
    assert out[SIZES[k].0] == Slice(active, StartOf(k), StartOf(k + 1));
    assert out[SIZES[l].0] == Slice(active, StartOf(l), StartOf(l + 1));
  }

  lemma CancelPrefix(xs: seq<nat>, ys: seq<nat>, zs: seq<nat>)
    requires xs + ys == xs + zs
    ensures ys == zs
  {
    assert ys == (xs + ys)[|xs|..] == (xs + zs)[|xs|..] == zs;
  }

  /** While the last active set is not full, the reserve holds the quarantined tasks only. */
  lemma OnlyForcedReserved(out: Sets, active: seq<nat>, forced: seq<nat>)
    requires Filled(out, active, ACTIVE) && Flat(out, |SIZES|) == active + forced && |out[Main]| < 500
    ensures Flat(out, ACTIVE) == active && out[Reserve] == forced
  {
    assert out[SIZES[4].0] == Slice(active, StartOf(4), StartOf(5));
    assert StartOf(4) == 580 && StartOf(5) == 1080 by { assert StartOf(2) == 380 && StartOf(3) == 500; }
    assert active[..|active|] == active;
    assert Flat(out, |SIZES|) == Flat(out, ACTIVE) + out[Reserve];
    CancelPrefix(active, out[Reserve], forced);
  }

  lemma ReserveRepresented(u: Universe, extras: set<nat>, active: seq<nat>, x: nat)
    requires OneOfEach(u, extras) && Distinct(u.ids) && multiset(active) == multiset(Remaining(u.ids, extras))
    requires x in extras
    ensures exists y :: y in active && Chained(u, x, y)
  {
    var y :| y in u.ids && y !in extras && Chained(u, x, y);
    RemainingAre(u.ids, extras);
    SameElements(active, Remaining(u.ids, extras));
  }

  lemma {:induction false} BuiltSizes(active: seq<nat>, out: Sets)
    requires Filled(out, active, ACTIVE)
    ensures SizesFilled(out)
  {
    forall k | 0 <= k < ACTIVE ensures |out[SIZES[k].0]| <= SIZES[k].1 {
      assert out[SIZES[k].0] == Slice(active, StartOf(k), StartOf(k + 1));
    }
    forall k, l | 0 <= k < l < ACTIVE && out[SIZES[l].0] != [] ensures |out[SIZES[k].0]| == SIZES[k].1 {
      SlicesInOrder(out, active, k, l);
    }
  }

  lemma BuiltReserve(u: Universe, extras: set<nat>, active: seq<nat>, forced: seq<nat>, out: Sets)
    requires OneOfEach(u, extras) && Distinct(u.ids) && multiset(active) == multiset(Remaining(u.ids, extras))
    requires (forall y :: y in forced ==> y in extras) && Filled(out, active, ACTIVE)
    requires Flat(out, |SIZES|) == active + forced
    ensures ReserveCovered(u, out)
  {
    if |out[Main]| < 500 {
      OnlyForcedReserved(out, active, forced);
      forall x | x in forced ensures exists y :: y in active && Chained(u, x, y) {
        ReserveRepresented(u, extras, active, x);
      }
    }
  }

  lemma SortedPrefix(active: seq<nat>, n: nat)
    requires n <= |active| && SortedBy(active, ByKey())
    ensures SortedBy(active[..n], ByKey())
  {
  }

  lemma ActiveApart(u: Universe, extras: set<nat>, active: seq<nat>)
    requires Distinct(u.ids) && OneOfEach(u, extras) && multiset(active) == multiset(Remaining(u.ids, extras))
    ensures forall x, y :: x in active && y in active && x != y ==> !Near(u, x, y)
  {
    SameElements(active, Remaining(u.ids, extras));
    RemainingAre(u.ids, extras);
    forall x, y | x in active && y in active && x != y ensures !Near(u, x, y) {
      NoNearDuplicatesLeft(u, extras, x, y);
    }
  }

  // ---------------------------------------------------------------- audit

  datatype Audit = Audit(overlaps: map<(Name, Name), nat>, allZero: bool, crossNearDup: nat)

  function Targets(p: Sets): set<nat>
    requires Discovery in p && Calibration in p && Main in p
  {
    Elements(p[Discovery]) + Elements(p[Calibration]) + Elements(p[Main])
  }

  /** The near-duplicate pairs across two sets. */
  ghost function Crossings(u: Universe, ss: set<nat>, ts: set<nat>): set<(nat, nat)> {
    set s, t | s in ss && t in ts && Near(u, s, t) :: (s, t)
  }

  /** Where a set stands in the order of the sets. */
  function Position(n: Name): nat {
    match n
    case Source => 0
    case RetrievalDev => 1
    case Discovery => 2
    case Calibration => 3
    case Main => 4
    case Reserve => 5
  }

  lemma {:induction false} PositionsDiffer(a: Name, b: Name)
    requires a != b
    ensures Position(a) != Position(b)
  {
    assert SIZES[Position(a)].0 == a && SIZES[Position(b)].0 == b;
  }

  function Overlap(p: Sets, key: (Name, Name)): nat
    requires key.0 in p && key.1 in p
  {
    |Elements(p[key.0]) * Elements(p[key.1])|
  }

  /** The pairs of sets compared before positions (a, b) of the loops. */
  predicate ComparedBefore(key: (Name, Name), a: nat, b: nat) {
    Position(key.0) < Position(key.1)
    && (Position(key.0) < a || (Position(key.0) == a && Position(key.1) < b))
  }

  /** Counts the shared tasks of every two sets. */
  method CountOverlaps(p: Sets) returns (overlaps: map<(Name, Name), nat>)
    requires Complete(p)
    ensures forall key :: key in overlaps <==> Position(key.0) < Position(key.1)
    ensures forall key <- overlaps :: overlaps[key] == Overlap(p, key)
  {
    overlaps := map[];
    for a := 0 to |SIZES|
      invariant forall key :: key in overlaps <==> ComparedBefore(key, a, 0)
      invariant forall key <- overlaps :: overlaps[key] == Overlap(p, key)
    {
      for b := a + 1 to |SIZES|
        invariant forall key :: key in overlaps <==> ComparedBefore(key, a, b)
        invariant forall key <- overlaps :: overlaps[key] == Overlap(p, key)
      {
        var key := (SIZES[a].0, SIZES[b].0);
        assert Position(key.0) == a && Position(key.1) == b;
        overlaps := overlaps[key := |Elements(p[key.0]) * Elements(p[key.1])|];
      }
    }
  }

  lemma CrossingsSplit(u: Universe, ss: set<nat>, s: nat, ts: set<nat>)
    requires s !in ss
    ensures |Crossings(u, ss + {s}, ts)| == |Crossings(u, ss, ts)| + |Crossings(u, {s}, ts)|
  {
    assert Crossings(u, ss + {s}, ts) == Crossings(u, ss, ts) + Crossings(u, {s}, ts);
    assert Crossings(u, ss, ts) !! Crossings(u, {s}, ts);
  }

  lemma CrossingsOne(u: Universe, s: nat, ts: set<nat>, t: nat)
    requires t !in ts
    ensures |Crossings(u, {s}, ts + {t})| == |Crossings(u, {s}, ts)| + (if Near(u, s, t) then 1 else 0)
  {
    var more: set<(nat, nat)> := if Near(u, s, t) then {(s, t)} else {};
    assert Crossings(u, {s}, ts + {t}) == Crossings(u, {s}, ts) + more;
    assert Crossings(u, {s}, ts) !! more;
  }

  method CountNear(u: Universe, s: nat, ts: set<nat>) returns (count: nat)
    ensures count == |Crossings(u, {s}, ts)|
  {
    count := 0;
    var left := ts;
    assert Crossings(u, {s}, ts - ts) == {};
    while left != {}
      invariant left <= ts && count == |Crossings(u, {s}, ts - left)|
    {
      var t :| t in left;
      CrossingsOne(u, s, ts - left, t);
      OneLess(ts, left, t);
      if Near(u, s, t) { count := count + 1; }
      left := left - {t};
    }
    assert ts - {} == ts;
  }

  /** Counts the near-duplicate pairs across two sets. */
  method CountCrossings(u: Universe, ss: set<nat>, ts: set<nat>) returns (count: nat)
    ensures count == |Crossings(u, ss, ts)|
  {
    count := 0;
    var left := ss;
    assert Crossings(u, ss - ss, ts) == {};
    while left != {}
      invariant left <= ss && count == |Crossings(u, ss - left, ts)|
    {
      var s :| s in left;
      var more := CountNear(u, s, ts);
      CrossingsSplit(u, ss - left, s, ts);
      OneLess(ss, left, s);
      count := count + more;
      left := left - {s};
    }
    assert ss - {} == ss;
  }

  ghost predicate Disjoint(p: Sets)
    requires Complete(p)
  {
    forall a: Name, b: Name :: a != b ==> Elements(p[a]) !! Elements(p[b])
  }

  /** The audit of any partition: all overlaps are zero exactly when the sets are disjoint, and the cross
      count is the number of near-duplicate pairs between the source set and the target sets. */
  method AuditPartition(u: Universe, p: Sets) returns (audit: Audit)
    requires Complete(p)
    ensures forall key :: key in audit.overlaps <==> Position(key.0) < Position(key.1)
    ensures forall key <- audit.overlaps :: audit.overlaps[key] == Overlap(p, key)
    ensures audit.allZero <==> Disjoint(p)
    ensures audit.crossNearDup == |Crossings(u, Elements(p[Source]), Targets(p))|
    ensures var names := [Source, RetrievalDev, Discovery, Calibration, Main, Reserve];
            forall a, b :: 0 <= a < 6 && 0 <= b < 6 ==>
              && ((names[a], names[b]) in audit.overlaps <==> a < b)
              && (a < b ==> audit.overlaps[(names[a], names[b])] == |set x | x in p[names[a]] && x in p[names[b]]|)
    ensures audit.allZero <==> forall a: Name, b: Name, x :: a != b && x in p[a] ==> x !in p[b]
    ensures audit.crossNearDup
         == |set s: nat, t: nat | s in p[Source] && t in p[Discovery] + p[Calibration] + p[Main] && Near(u, s, t) :: (s, t)|
  {
    var overlaps := CountOverlaps(p);
    var crossNearDup := CountCrossings(u, Elements(p[Source]), Targets(p));
    var allZero := forall key <- overlaps :: overlaps[key] == 0;
    ZeroOverlapsAreDisjoint(p, overlaps);
    OverlapsAre(p, overlaps);
    DisjointIff(p);
    CrossingsAre(u, p);
    audit := Audit(overlaps, allZero, crossNearDup);
  }

  lemma OverlapsAre(p: Sets, overlaps: map<(Name, Name), nat>)
    requires Complete(p) && forall key :: key in overlaps <==> Position(key.0) < Position(key.1)
    requires forall key <- overlaps :: overlaps[key] == Overlap(p, key)
    ensures var names := [Source, RetrievalDev, Discovery, Calibration, Main, Reserve];
            forall a, b :: 0 <= a < 6 && 0 <= b < 6 ==>
              && ((names[a], names[b]) in overlaps <==> a < b)
              && (a < b ==> overlaps[(names[a], names[b])] == |set x | x in p[names[a]] && x in p[names[b]]|)
  {
    var names := [Source, RetrievalDev, Discovery, Calibration, Main, Reserve];
    assert forall a :: 0 <= a < 6 ==> Position(names[a]) == a;
    forall a, b | 0 <= a < b < 6
      ensures overlaps[(names[a], names[b])] == |set x | x in p[names[a]] && x in p[names[b]]|
    {
      OverlapIs(p, names[a], names[b]);
    }
  }

  lemma OverlapIs(p: Sets, a: Name, b: Name)
    requires Complete(p)
    ensures Overlap(p, (a, b)) == |set x | x in p[a] && x in p[b]|
  {
    assert Elements(p[a]) * Elements(p[b]) == set x | x in p[a] && x in p[b];
  }

  lemma DisjointIff(p: Sets)
    requires Complete(p)
    ensures Disjoint(p) <==> forall a: Name, b: Name, x :: a != b && x in p[a] ==> x !in p[b]
  {
    if Disjoint(p) {
      forall a: Name, b: Name, x | a != b && x in p[a] ensures x !in p[b] {
        assert Elements(p[a]) !! Elements(p[b]) && x in Elements(p[a]);
      }
    }
  }

  lemma CrossingsAre(u: Universe, p: Sets)
    requires Complete(p)
    ensures |Crossings(u, Elements(p[Source]), Targets(p))|
         == |set s: nat, t: nat | s in p[Source] && t in p[Discovery] + p[Calibration] + p[Main] && Near(u, s, t) :: (s, t)|
  {
    assert Crossings(u, Elements(p[Source]), Targets(p))
        == set s: nat, t: nat | s in p[Source] && t in p[Discovery] + p[Calibration] + p[Main] && Near(u, s, t) :: (s, t);
  }

  lemma OverlapZero(p: Sets, a: Name, b: Name)
    requires Complete(p)
    ensures Overlap(p, (a, b)) == 0 <==> Elements(p[a]) !! Elements(p[b])
  {
    var shared := Elements(p[a]) * Elements(p[b]);
    assert shared == {} <==> Elements(p[a]) !! Elements(p[b]) by {
      if shared == {} {
        forall x | x in Elements(p[a]) ensures x !in Elements(p[b]) { assert x !in shared; }
      }
    }
  }

  lemma ZeroOverlapsAreDisjoint(p: Sets, overlaps: map<(Name, Name), nat>)
    requires Complete(p) && forall key :: key in overlaps <==> Position(key.0) < Position(key.1)
    requires forall key <- overlaps :: overlaps[key] == Overlap(p, key)
    ensures (forall key <- overlaps :: overlaps[key] == 0) <==> Disjoint(p)
  {
    forall a: Name, b: Name ensures Overlap(p, (a, b)) == 0 <==> Elements(p[a]) !! Elements(p[b]) {
      OverlapZero(p, a, b);
    }
    if forall key <- overlaps :: overlaps[key] == 0 {
      forall a: Name, b: Name | a != b ensures Elements(p[a]) !! Elements(p[b]) {
        PositionsDiffer(a, b);
        if Position(a) < Position(b) { assert (a, b) in overlaps; } else { assert (b, a) in overlaps; }
      }
    }
    if Disjoint(p) {
      forall key | key in overlaps ensures overlaps[key] == 0 {
        assert key.0 != key.1 && Overlap(p, (key.0, key.1)) == 0;
      }
    }
  }

  lemma {:induction false} FlatPrefix(p: Sets, l: nat, m: nat)
    requires Complete(p) && l <= m <= |SIZES|
    ensures Flat(p, l) <= Flat(p, m)
    decreases m
  {
    if l < m { FlatPrefix(p, l, m - 1); }
  }

  lemma {:induction false} FlatHolds(p: Sets, a: Name, m: nat, x: nat)
    requires Complete(p) && Position(a) < m <= |SIZES| && x in p[a]
    ensures x in Flat(p, m)
  {
    assert SIZES[Position(a)].0 == a;
    assert Flat(p, Position(a) + 1) == Flat(p, Position(a)) + p[a];
    FlatPrefix(p, Position(a) + 1, m);
    assert x in Flat(p, Position(a) + 1);
  }

  lemma SharedTwice(xs: seq<nat>, ys: seq<nat>, zs: seq<nat>, x: nat)
    requires Distinct(zs) && xs + ys <= zs && x in xs
    ensures x !in ys
  {
    var i :| 0 <= i < |xs| && xs[i] == x;
    forall j | 0 <= j < |ys| ensures ys[j] != x {
      assert zs[i] == (xs + ys)[i] && zs[|xs| + j] == (xs + ys)[|xs| + j];
    }
  }

  lemma SoundDisjoint(u: Universe, p: Sets, a: Name, b: Name)
    requires Distinct(u.ids) && Sound(u, p) && Position(a) < Position(b)
    ensures Elements(p[a]) !! Elements(p[b])
  {
    var all := Flat(p, |SIZES|);
    DistinctIffMultiset(u.ids);
    DistinctIffMultiset(all);
    assert SIZES[Position(b)].0 == b;
    FlatPrefix(p, Position(b) + 1, |SIZES|);
    forall x | x in p[a] ensures x !in p[b] {
      FlatHolds(p, a, Position(b), x);
      SharedTwice(Flat(p, Position(b)), p[b], all, x);
    }
  }

  /** The partition audits clean: no two of its sets share a task, and no near-duplicate pair spans the
      source set and a target set. */
  lemma SoundAuditsClean(u: Universe, p: Sets)
    requires Distinct(u.ids) && Sound(u, p)
    ensures Disjoint(p) && |Crossings(u, Elements(p[Source]), Targets(p))| == 0
  {
    forall a: Name, b: Name | a != b ensures Elements(p[a]) !! Elements(p[b]) {
      PositionsDiffer(a, b);
      if Position(a) < Position(b) { SoundDisjoint(u, p, a, b); } else { SoundDisjoint(u, p, b, a); }
    }
    forall s, t | s in Elements(p[Source]) && t in Targets(p) ensures !Near(u, s, t) {
      FlatHolds(p, Source, ACTIVE, s);
      TargetsActive(p, t);
      assert s != t;
    }
    assert Crossings(u, Elements(p[Source]), Targets(p)) == {};
  }

  lemma TargetsActive(p: Sets, t: nat)
    requires Complete(p) && t in Targets(p)
    ensures t in Flat(p, ACTIVE)
  {
    if t in p[Discovery] {
      FlatHolds(p, Discovery, ACTIVE, t);
    } else if t in p[Calibration] {
      FlatHolds(p, Calibration, ACTIVE, t);
    } else {
      FlatHolds(p, Main, ACTIVE, t);
    }
  }

  /** Building and auditing. */
  method BuildAndAudit(u: Universe) returns (p: Sets, audit: Audit)
    requires Distinct(u.ids)
    ensures Sound(u, p) && audit.allZero && audit.crossNearDup == 0
  {
    ghost var kept;
    p, kept := BuildPartition(u);
    audit := AuditPartition(u, p);
    SoundAuditsClean(u, p);
  }
}
