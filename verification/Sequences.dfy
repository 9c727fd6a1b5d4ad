/** Sums, distinctness, and the stable sort Python's `sorted` performs. */
module Sequences {

  function Sum(xs: seq<int>): int { if xs == [] then 0 else xs[0] + Sum(xs[1..]) }

  lemma {:induction false} SumConcat(xs: seq<int>, ys: seq<int>)
    ensures Sum(xs + ys) == Sum(xs) + Sum(ys)
  {
    if xs == [] {
      assert xs + ys == ys;
    } else {
      SumConcat(xs[1..], ys);
      assert (xs + ys)[1..] == xs[1..] + ys;
    }
  }

  function RealSum(xs: seq<real>): real {
    if xs == [] then 0.0 else RealSum(xs[..|xs| - 1]) + xs[|xs| - 1]
  }

  function Concat<T>(xss: seq<seq<T>>): seq<T> { if xss == [] then [] else xss[0] + Concat(xss[1..]) }

  function Elements<T(==)>(xs: seq<T>): set<T> { set x | x in xs }

  lemma TakeOneMore<T>(xs: seq<T>, i: nat)
    requires i < |xs|
    ensures xs[..i + 1] == xs[..i] + [xs[i]]
  {
  }

  lemma TakeAll<T>(xs: seq<T>)
    ensures xs[..|xs|] == xs
  {
  }

  /** Taking one element off what is left to do adds it to what is done. */
  lemma OneLess<T>(all: set<T>, left: set<T>, x: T)
    requires left <= all && x in left
    ensures all - (left - {x}) == (all - left) + {x} && x !in all - left
  {
  }

  ghost predicate Distinct<T>(xs: seq<T>) { forall i, j :: 0 <= i < j < |xs| ==> xs[i] != xs[j] }

  function Without<T>(xs: seq<T>, p: nat): seq<T>
    requires p < |xs|
  {
    xs[..p] + xs[p + 1..]
  }

  lemma {:induction false} DistinctWithout<T>(xs: seq<T>, p: nat)
    requires p < |xs| && Distinct(xs)
    ensures Distinct(Without(xs, p)) && xs[p] !in Without(xs, p)
    ensures forall x :: x in xs <==> x == xs[p] || x in Without(xs, p)
  {
    var ys := Without(xs, p);
    assert forall i :: 0 <= i < |ys| ==> ys[i] == if i < p then xs[i] else xs[i + 1];
    assert xs == xs[..p] + [xs[p]] + xs[p + 1..];
  }

  lemma MultisetWithout<T>(xs: seq<T>, p: nat)
    requires p < |xs|
    ensures multiset(xs) == multiset(Without(xs, p)) + multiset{xs[p]}
    ensures forall x :: x in Without(xs, p) <==> exists j :: 0 <= j < |xs| && j != p && xs[j] == x
  {
    assert xs == xs[..p] + [xs[p]] + xs[p + 1..];
    forall x ensures x in Without(xs, p) <==> exists j :: 0 <= j < |xs| && j != p && xs[j] == x {
      if x in Without(xs, p) {
        var t :| 0 <= t < |xs| - 1 && Without(xs, p)[t] == x;
        assert xs[if t < p then t else t + 1] == x;
      }
      if j :| 0 <= j < |xs| && j != p && xs[j] == x {
        assert Without(xs, p)[if j < p then j else j - 1] == x;
      }
    }
  }

  lemma CancelOne<T>(a: multiset<T>, b: multiset<T>, x: T)
    requires a + multiset{x} == b + multiset{x}
    ensures a == b
  {
    forall z ensures a[z] == b[z] { assert (a + multiset{x})[z] == (b + multiset{x})[z]; }
  }

  /** Taking the same element out of two arrangements of the same elements leaves the same elements. */
  lemma SameRest<T>(xs: seq<T>, ys: seq<T>, p: nat, q: nat)
    requires multiset(xs) == multiset(ys) && p < |xs| && q < |ys| && xs[p] == ys[q]
    ensures forall x :: x in Without(xs, p) <==> x in Without(ys, q)
  {
    MultisetWithout(xs, p);
    MultisetWithout(ys, q);
    CancelOne(multiset(Without(xs, p)), multiset(Without(ys, q)), xs[p]);
    SameElements(Without(xs, p), Without(ys, q));
  }

  lemma {:induction false} SumAround(before: seq<int>, x: int, after: seq<int>)
    ensures Sum(before + [x] + after) == x + Sum(before + after)
  {
    SumConcat(before + [x], after);
    SumConcat(before, [x]);
    SumConcat(before, after);
  }

  lemma {:induction false} SumWithout(xs: seq<int>, p: nat)
    requires p < |xs|
    ensures Sum(xs) == xs[p] + Sum(Without(xs, p))
  {
    assert xs == xs[..p] + [xs[p]] + xs[p + 1..];
    SumAround(xs[..p], xs[p], xs[p + 1..]);
  }

  // ---------------------------------------------------------------- counting

  /** The positions at which a property holds. */
  function Where<T>(xs: seq<T>, p: T -> bool): set<int> { set i | 0 <= i < |xs| && p(xs[i]) }

  lemma WhereLast<T>(xs: seq<T>, x: T, p: T -> bool)
    ensures |Where(xs + [x], p)| == |Where(xs, p)| + if p(x) then 1 else 0
  {
    var ys := xs + [x];
    assert forall i :: 0 <= i < |xs| ==> ys[i] == xs[i];
    assert Where(ys, p) == Where(xs, p) + if p(x) then {|xs|} else {};
  }

  lemma {:induction false} WhereConcat<T>(xs: seq<T>, ys: seq<T>, p: T -> bool)
    ensures |Where(xs + ys, p)| == |Where(xs, p)| + |Where(ys, p)|
  {
    if ys == [] {
      assert xs + ys == xs;
    } else {
      var n := |ys| - 1;
      WhereConcat(xs, ys[..n], p);
      WhereLast(xs + ys[..n], ys[n], p);
      WhereLast(ys[..n], ys[n], p);
      assert xs + ys == xs + ys[..n] + [ys[n]] && ys == ys[..n] + [ys[n]];
    }
  }

  lemma WhereFirst<T>(xs: seq<T>, p: T -> bool)
    requires xs != []
    ensures |Where(xs, p)| == |Where(xs[1..], p)| + if p(xs[0]) then 1 else 0
  {
    assert xs == [xs[0]] + xs[1..];
    WhereConcat([xs[0]], xs[1..], p);
    WhereLast([], xs[0], p);
    assert [] + [xs[0]] == [xs[0]];
  }

  /** Every element has exactly one of two properties of which each is the other's negation. */
  lemma {:induction false} WhereNot<T>(xs: seq<T>, p: T -> bool, q: T -> bool)
    requires forall x <- xs :: p(x) <==> !q(x)
    ensures |Where(xs, p)| + |Where(xs, q)| == |xs|
  {
    if xs != [] {
      WhereFirst(xs, p);
      WhereFirst(xs, q);
      assert xs[0] in xs && forall x <- xs[1..] :: x in xs;
      WhereNot(xs[1..], p, q);
    }
  }

  /** Two properties that exclude each other count together. */
  lemma {:induction false} WhereOr<T>(xs: seq<T>, p: T -> bool, q: T -> bool, r: T -> bool)
    requires forall x <- xs :: (r(x) <==> p(x) || q(x)) && !(p(x) && q(x))
    ensures |Where(xs, r)| == |Where(xs, p)| + |Where(xs, q)|
  {
    if xs == [] {
      assert Where(xs, p) == {} && Where(xs, q) == {} && Where(xs, r) == {};
    } else {
      WhereFirst(xs, p);
      WhereFirst(xs, q);
      WhereFirst(xs, r);
      assert xs[0] in xs && forall x <- xs[1..] :: x in xs;
      WhereOr(xs[1..], p, q, r);
    }
  }

  lemma WhereAll<T>(xs: seq<T>, p: T -> bool)
    requires forall x <- xs :: p(x)
    ensures |Where(xs, p)| == |xs|
  {
    var q := (x: T) => false;
    WhereNot(xs, p, q);
    assert Where(xs, q) == {};
  }

  /** The pigeonhole principle. */
  lemma {:induction false} Pigeonhole(xs: seq<nat>, m: nat)
    requires Distinct(xs) && forall x <- xs :: x < m
    ensures |xs| <= m
    decreases m, |xs|
  {
    if xs == [] {
    } else if p :| 0 <= p < |xs| && xs[p] == m - 1 {
      DistinctWithout(xs, p);
      Pigeonhole(Without(xs, p), m - 1);
    } else {
      assert xs[0] in xs;
      assert forall x <- xs :: x < m - 1 by {
        forall x | x in xs ensures x < m - 1 { var i :| 0 <= i < |xs| && xs[i] == x; }
      }
      Pigeonhole(xs, m - 1);
    }
  }

  function Pick(w: seq<int>, idx: seq<nat>): seq<int>
    requires forall t :: 0 <= t < |idx| ==> idx[t] < |w|
  {
    seq(|idx|, i requires 0 <= i < |idx| => w[idx[i]])
  }

  lemma {:induction false} PickWithout(w: seq<int>, idx: seq<nat>, p: nat)
    requires Distinct(idx) && p < |idx| && w != [] && idx[p] == |w| - 1
    requires forall t :: 0 <= t < |idx| ==> idx[t] < |w|
    ensures var rest := Without(idx, p);
            && Distinct(rest) && (forall t :: 0 <= t < |rest| ==> rest[t] < |w| - 1)
            && Without(Pick(w, idx), p) == Pick(w[..|w| - 1], rest)
  {
    var rest := Without(idx, p);
    DistinctWithout(idx, p);
    forall t | 0 <= t < |rest| ensures rest[t] < |w| - 1 && Without(Pick(w, idx), p)[t] == w[rest[t]] {
      var u := if t < p then t else t + 1;
      assert rest[t] == idx[u] && idx[u] != idx[p];
      assert Without(Pick(w, idx), p)[t] == Pick(w, idx)[u];
    }
    assert Without(Pick(w, idx), p) == Pick(w[..|w| - 1], rest);
  }

  /** Picking every position once, in any order, sums to the whole. */
  lemma {:induction false} SumOfPermutation(w: seq<int>, idx: seq<nat>)
    requires Distinct(idx) && |idx| == |w| && forall t :: 0 <= t < |idx| ==> idx[t] < |w|
    ensures Sum(Pick(w, idx)) == Sum(w)
    decreases |w|
  {
    if w != [] {
      var last := |w| - 1;
      if last !in idx { Pigeonhole(idx, last); }
      var p :| 0 <= p < |idx| && idx[p] == last;
      PickWithout(w, idx, p);
      SumOfPermutation(w[..last], Without(idx, p));
      SumWithout(Pick(w, idx), p);
      SumWithout(w, last);
      assert Without(w, last) == w[..last];
    }
  }

  // ---------------------------------------------------------------- sorting

  ghost predicate TotalPreorder<T(!new)>(le: (T, T) -> bool) {
    (forall x, y :: le(x, y) || le(y, x)) && (forall x, y, z :: le(x, y) && le(y, z) ==> le(x, z))
  }

  ghost predicate SortedBy<T>(xs: seq<T>, le: (T, T) -> bool) {
    forall i, j :: 0 <= i < j < |xs| ==> le(xs[i], xs[j])
  }

  function Insert<T>(x: T, xs: seq<T>, le: (T, T) -> bool): seq<T> {
    if xs == [] then [x] else if le(x, xs[0]) then [x] + xs else [xs[0]] + Insert(x, xs[1..], le)
  }

  /** A stable sort. */
  function Sort<T>(xs: seq<T>, le: (T, T) -> bool): seq<T> {
    if xs == [] then [] else Insert(xs[0], Sort(xs[1..], le), le)
  }

  lemma {:induction false} InsertElements<T>(x: T, xs: seq<T>, le: (T, T) -> bool)
    ensures multiset(Insert(x, xs, le)) == multiset{x} + multiset(xs)
  {
    if xs != [] && !le(x, xs[0]) {
      InsertElements(x, xs[1..], le);
      assert xs == [xs[0]] + xs[1..];
    }
  }

  lemma SortedCons<T>(x: T, xs: seq<T>, le: (T, T) -> bool)
    requires SortedBy(xs, le) && forall y <- xs :: le(x, y)
    ensures SortedBy([x] + xs, le)
  {
  }

  lemma {:induction false} InsertSorted<T(!new)>(x: T, xs: seq<T>, le: (T, T) -> bool)
    requires TotalPreorder(le) && SortedBy(xs, le)
    ensures SortedBy(Insert(x, xs, le), le)
  {
    if xs == [] {
    } else if le(x, xs[0]) {
      forall y | y in xs ensures le(x, y) {
        var i :| 0 <= i < |xs| && xs[i] == y;
        assert i == 0 || le(xs[0], xs[i]);
      }
      SortedCons(x, xs, le);
    } else {
      InsertSorted(x, xs[1..], le);
      InsertElements(x, xs[1..], le);
      var tail := Insert(x, xs[1..], le);
      forall y | y in tail ensures le(xs[0], y) {
        assert y in multiset(tail);
        assert y == x || y in xs[1..];
      }
      SortedCons(xs[0], tail, le);
    }
  }

  /** The sort returns its elements, each as often as before, in order. */
  lemma {:induction false} SortSorts<T(!new)>(xs: seq<T>, le: (T, T) -> bool)
    requires TotalPreorder(le)
    ensures SortedBy(Sort(xs, le), le) && multiset(Sort(xs, le)) == multiset(xs) && |Sort(xs, le)| == |xs|
  {
    if xs != [] {
      SortSorts(xs[1..], le);
      InsertSorted(xs[0], Sort(xs[1..], le), le);
      InsertElements(xs[0], Sort(xs[1..], le), le);
      assert xs == [xs[0]] + xs[1..];
      assert |multiset(Sort(xs, le))| == |multiset(xs)|;
    }
  }

  /** The sort is stable: the first of those that nothing precedes comes first. */
  lemma {:induction false} FirstOfSort<T(!new)>(xs: seq<T>, le: (T, T) -> bool, i: nat)
    requires TotalPreorder(le) && i < |xs|
    requires forall j :: 0 <= j < |xs| ==> le(xs[i], xs[j])
    requires forall j :: 0 <= j < i ==> !le(xs[j], xs[i])
    ensures |Sort(xs, le)| == |xs| && Sort(xs, le)[0] == xs[i]
  {
    SortSorts(xs, le);
    var rest := Sort(xs[1..], le);
    if i > 0 {
      FirstOfSort(xs[1..], le, i - 1);
      assert rest[0] == xs[i] && !le(xs[0], rest[0]);
    } else if |xs| > 1 {
      SortSorts(xs[1..], le);
      SameElements(rest, xs[1..]);
      assert rest[0] in xs[1..];
      var j :| 0 <= j < |xs| - 1 && xs[1..][j] == rest[0];
      assert le(xs[0], xs[j + 1]);
    }
  }

  /** `x` comes before `y`. */
  ghost predicate Before<T>(xs: seq<T>, x: T, y: T) { exists i, j :: 0 <= i < j < |xs| && xs[i] == x && xs[j] == y }

  lemma BeforeCons<T>(a: T, xs: seq<T>, x: T, y: T)
    ensures Before([a] + xs, x, y) <==> (a == x && y in xs) || Before(xs, x, y)
  {
    var ys := [a] + xs;
    if i, j :| 0 <= i < j < |ys| && ys[i] == x && ys[j] == y {
      assert ys[j] == xs[j - 1];
      if i > 0 { assert xs[i - 1] == x && xs[j - 1] == y; }
    }
    if a == x && y in xs {
      var j :| 0 <= j < |xs| && xs[j] == y;
      assert ys[0] == x && ys[j + 1] == y;
    }
    if i, j :| 0 <= i < j < |xs| && xs[i] == x && xs[j] == y { assert ys[i + 1] == x && ys[j + 1] == y; }
  }

  /** Inserting keeps the order of what is there, and puts an element before all that it is not after. */
  lemma {:induction false} InsertStable<T>(x: T, xs: seq<T>, le: (T, T) -> bool, y: T, z: T)
    requires le(y, z) && le(z, y) && (forall a, b, c :: le(a, b) && le(b, c) ==> le(a, c)) && Before(Insert(x, xs, le), y, z)
    ensures Before([x] + xs, y, z)
  {
    BeforeCons(x, xs, y, z);
    if xs != [] && !le(x, xs[0]) {
      assert xs == [xs[0]] + xs[1..];
      BeforeCons(xs[0], xs[1..], y, z);
      BeforeCons(xs[0], Insert(x, xs[1..], le), y, z);
      BeforeCons(x, xs[1..], y, z);
      InsertElements(x, xs[1..], le);
      assert z in Insert(x, xs[1..], le) <==> z in multiset(Insert(x, xs[1..], le));
      if Before(Insert(x, xs[1..], le), y, z) { InsertStable(x, xs[1..], le, y, z); }
    }
  }

  /** The sort is stable: of two elements that rank equal, the one that comes first came first. */
  lemma {:induction false} SortStable<T>(xs: seq<T>, le: (T, T) -> bool, y: T, z: T)
    requires le(y, z) && le(z, y) && (forall a, b, c :: le(a, b) && le(b, c) ==> le(a, c)) && Before(Sort(xs, le), y, z)
    ensures Before(xs, y, z)
  {
    if xs != [] {
      var rest := Sort(xs[1..], le);
      InsertStable(xs[0], rest, le, y, z);
      BeforeCons(xs[0], rest, y, z);
      BeforeCons(xs[0], xs[1..], y, z);
      assert xs == [xs[0]] + xs[1..];
      if Before(rest, y, z) {
        SortStable(xs[1..], le, y, z);
      } else {
        SortElements(xs[1..], le);
        SameElements(rest, xs[1..]);
      }
    }
  }

  lemma {:induction false} SortElements<T>(xs: seq<T>, le: (T, T) -> bool)
    ensures multiset(Sort(xs, le)) == multiset(xs)
  {
    if xs != [] {
      SortElements(xs[1..], le);
      InsertElements(xs[0], Sort(xs[1..], le), le);
      assert xs == [xs[0]] + xs[1..];
    }
  }

  lemma {:induction false} InsertCounts<T>(x: T, xs: seq<T>, le: (T, T) -> bool, p: T -> bool)
    ensures |Where(Insert(x, xs, le), p)| == |Where(xs, p)| + if p(x) then 1 else 0
  {
    var ys := Insert(x, xs, le);
    WhereFirst(ys, p);
    if xs == [] {
      assert ys[1..] == xs;
    } else if le(x, xs[0]) {
      assert ys[1..] == xs;
    } else {
      WhereFirst(xs, p);
      InsertCounts(x, xs[1..], le, p);
      assert ys[1..] == Insert(x, xs[1..], le);
    }
  }

  lemma {:induction false} SortCounts<T>(xs: seq<T>, le: (T, T) -> bool, p: T -> bool)
    ensures |Where(Sort(xs, le), p)| == |Where(xs, p)|
  {
    if xs != [] {
      SortCounts(xs[1..], le, p);
      InsertCounts(xs[0], Sort(xs[1..], le), le, p);
      WhereFirst(xs, p);
    }
  }

  lemma SameElements<T>(xs: seq<T>, ys: seq<T>)
    requires multiset(xs) == multiset(ys)
    ensures forall x :: x in xs <==> x in ys
  {
    assert forall x :: x in xs <==> x in multiset(xs);
    assert forall x :: x in ys <==> x in multiset(ys);
  }

  lemma DistinctIffMultiset<T>(xs: seq<T>)
    ensures Distinct(xs) <==> forall x :: multiset(xs)[x] <= 1
  {
    if Distinct(xs) {
      if xs != [] {
        assert xs == [xs[0]] + xs[1..];
        DistinctIffMultiset(xs[1..]);
        assert xs[0] !in xs[1..];
      }
    } else {
      var i, j :| 0 <= i < j < |xs| && xs[i] == xs[j];
      assert xs == xs[..i + 1] + xs[i + 1..];
      assert xs[i] in xs[..i + 1] && xs[i] in xs[i + 1..];
      assert multiset(xs)[xs[i]] == multiset(xs[..i + 1])[xs[i]] + multiset(xs[i + 1..])[xs[i]];
    }
  }
}
