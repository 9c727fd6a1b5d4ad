/** Near-duplicate task prompts: clustering by union-find with path halving, and the quarantine that
    leaves one representative of every cluster. Task ids are numbers, in the order of their names. */
module NearDuplicates {
  import opened Sequences

  /** The tasks in their listed order, and the word set of each prompt. */
  datatype Universe = Universe(ids: seq<nat>, tokens: map<nat, set<nat>>)

  /** The digest that orders tasks; nothing is assumed of it. */
  const OrderKey: nat -> nat

  function Tokens(u: Universe, x: nat): set<nat> { if x in u.tokens then u.tokens[x] else {} }

  /** Jaccard similarity of at least 0.7, cleared of the division; an empty prompt resembles nothing. */
  predicate Similar(a: set<nat>, b: set<nat>) { a != {} && b != {} && 10 * |a * b| >= 7 * |a + b| }

  /** Two prompts, neither of them empty, share at least 0.7 of the words they have together. */
  lemma {:induction false} SimilarIsJaccard(a: set<nat>, b: set<nat>)
    ensures Similar(a, b) <==> |a| > 0 && |b| > 0 && |a * b| as real / |a + b| as real >= 0.7
  {
    if a != {} && b != {} {
      assert a <= a + b && a + b != {};
      RatioAtLeast(|a * b| as real, |a + b| as real);
    }
  }

  lemma {:induction false} RatioAtLeast(x: real, y: real)
    requires y > 0.0
    ensures x / y >= 0.7 <==> 10.0 * x >= 7.0 * y
  {
    var q := x / y;
    assert q * y == x;
  }

  predicate Near(u: Universe, x: nat, y: nat) { Similar(Tokens(u, x), Tokens(u, y)) }

  lemma NearSymmetric(u: Universe, x: nat, y: nat)
    ensures Near(u, x, y) <==> Near(u, y, x)
  {
    var a, b := Tokens(u, x), Tokens(u, y);
    assert a * b == b * a && a + b == b + a;
  }

  // ---------------------------------------------------------------- chains

  /** A path through the universe along near-duplicate pairs. */
  predicate Walk(u: Universe, path: seq<nat>) {
    && path != []
    && path[0] in u.ids
    && (|path| > 1 ==> Near(u, path[0], path[1]) && Walk(u, path[1..]))
  }

  ghost predicate WalksTo(u: Universe, path: seq<nat>, x: nat, y: nat) {
    Walk(u, path) && path[0] == x && path[|path| - 1] == y
  }

  /** Two tasks are in the same cluster when a chain of near-duplicate pairs joins them. */
  ghost predicate Chained(u: Universe, x: nat, y: nat) { exists path :: WalksTo(u, path, x, y) }

  lemma ChainedSelf(u: Universe, x: nat)
    requires x in u.ids
    ensures Chained(u, x, x)
  {
    assert WalksTo(u, [x], x, x);
  }

  lemma ChainedPair(u: Universe, x: nat, y: nat)
    requires x in u.ids && y in u.ids && Near(u, x, y)
    ensures Chained(u, x, y)
  {
    assert Walk(u, [x, y][1..]);
    assert WalksTo(u, [x, y], x, y);
  }

  lemma {:induction false} WalkOn(u: Universe, p: seq<nat>, q: seq<nat>)
    requires Walk(u, p) && Walk(u, q) && p[|p| - 1] == q[0]
    ensures WalksTo(u, p + q[1..], p[0], q[|q| - 1])
  {
    if |p| == 1 {
      assert p + q[1..] == q;
    } else {
      WalkOn(u, p[1..], q);
      assert (p + q[1..])[1..] == p[1..] + q[1..];
    }
  }

  lemma ChainedTrans(u: Universe, x: nat, y: nat, z: nat)
    requires Chained(u, x, y) && Chained(u, y, z)
    ensures Chained(u, x, z)
  {
    var p :| WalksTo(u, p, x, y);
    var q :| WalksTo(u, q, y, z);
    WalkOn(u, p, q);
  }

  lemma {:induction false} WalkBack(u: Universe, p: seq<nat>)
    requires Walk(u, p)
    ensures Chained(u, p[|p| - 1], p[0])
  {
    if |p| == 1 {
      ChainedSelf(u, p[0]);
    } else {
      WalkBack(u, p[1..]);
      NearSymmetric(u, p[0], p[1]);
      ChainedPair(u, p[1], p[0]);
      ChainedTrans(u, p[|p| - 1], p[1], p[0]);
    }
  }

  lemma ChainedBack(u: Universe, x: nat, y: nat)
    requires Chained(u, x, y)
    ensures Chained(u, y, x)
  {
    var p :| WalksTo(u, p, x, y);
    WalkBack(u, p);
  }

  // ---------------------------------------------------------------- the forest

  ghost predicate Linked(p: map<nat, nat>, x: nat) { x in p ==> p[x] in p && p[x] <= x }

  /** Every parent is in the forest, and no larger than its child. */
  ghost predicate Forest(p: map<nat, nat>) { forall x {:trigger Linked(p, x)} :: Linked(p, x) }

  ghost function Climb(p: map<nat, nat>, x: nat): (r: nat)
    requires Forest(p) && x in p
    ensures r in p && p[r] == r && r <= x
    decreases x
  {
    assert Linked(p, x);
    if p[x] == x then x else Climb(p, p[x])
  }

  /** The root of the tree a task is in. */
  ghost function Root(p: map<nat, nat>, x: nat): nat
    requires Forest(p)
  {
    if x in p then Climb(p, x) else x
  }

  lemma HalvedForest(p: map<nat, nat>, x: nat)
    requires Forest(p) && x in p
    ensures p[x] in p && p[p[x]] in p && p[x] <= x && p[p[x]] <= p[x] && Forest(p[x := p[p[x]]])
  {
    assert Linked(p, x) && Linked(p, p[x]);
    var q := p[x := p[p[x]]];
    forall y ensures Linked(q, y) { assert Linked(p, y); }
  }

  lemma LinkedForest(p: map<nat, nat>, hi: nat, lo: nat)
    requires Forest(p) && hi in p && lo in p && lo < hi
    ensures Forest(p[hi := lo])
  {
    var q := p[hi := lo];
    forall y ensures Linked(q, y) { assert Linked(p, y); }
  }

  /** Path halving changes no root. */
  lemma {:induction false} HalvingKeepsRoot(p: map<nat, nat>, x: nat, y: nat)
    requires Forest(p) && x in p && y in p && p[x] in p
    ensures Forest(p[x := p[p[x]]]) && Root(p[x := p[p[x]]], y) == Root(p, y)
    decreases y
  {
    HalvedForest(p, x);
    assert Linked(p, y);
    if y == x {
      if p[x] != x {
        HalvingKeepsRoot(p, x, p[p[x]]);
        assert Climb(p, x) == Climb(p, p[x]) == Climb(p, p[p[x]]);
      }
    } else if p[y] != y {
      HalvingKeepsRoot(p, x, p[y]);
    }
  }

  /** Linking one root under a smaller one merges two trees and touches no other. */
  lemma {:induction false} LinkingMergesRoots(p: map<nat, nat>, hi: nat, lo: nat, y: nat)
    requires Forest(p) && y in p && hi in p && lo in p && p[hi] == hi && p[lo] == lo && lo < hi
    ensures Forest(p[hi := lo]) && Root(p[hi := lo], y) == if Root(p, y) == hi then lo else Root(p, y)
    decreases y
  {
    LinkedForest(p, hi, lo);
    assert Linked(p, y);
    var q := p[hi := lo];
    if y == hi {
      assert Climb(q, lo) == lo;
    } else if p[y] != y {
      LinkingMergesRoots(p, hi, lo, p[y]);
      assert Climb(p, y) == Climb(p, p[y]) && Climb(q, y) == Climb(q, q[y]);
    }
  }

  ghost predicate SameAt(p: map<nat, nat>, q: map<nat, nat>, y: nat)
    requires Forest(p) && Forest(q)
  {
    Root(q, y) == Root(p, y)
  }

  ghost predicate SameRoots(p: map<nat, nat>, q: map<nat, nat>)
    requires Forest(p) && Forest(q)
  {
    p.Keys == q.Keys && forall y {:trigger SameAt(p, q, y)} :: SameAt(p, q, y)
  }

  function Least(x: nat, y: nat): nat { if x <= y then x else y }

  ghost predicate MergedAt(p: map<nat, nat>, q: map<nat, nat>, rx: nat, ry: nat, z: nat)
    requires Forest(p) && Forest(q)
  {
    Root(q, z) == if Root(p, z) == rx || Root(p, z) == ry then Least(rx, ry) else Root(p, z)
  }

  /** `q` is `p` with the trees rooted at `rx` and `ry` made one, under the smaller root. */
  ghost predicate Merged(p: map<nat, nat>, q: map<nat, nat>, rx: nat, ry: nat)
    requires Forest(p) && Forest(q)
  {
    p.Keys == q.Keys && forall z {:trigger MergedAt(p, q, rx, ry, z)} :: MergedAt(p, q, rx, ry, z)
  }

  lemma HalvingKeepsRoots(p: map<nat, nat>, x: nat)
    requires Forest(p) && x in p && p[x] in p
    ensures var q := p[x := p[p[x]]]; Forest(q) && SameRoots(p, q)
  {
    var q := p[x := p[p[x]]];
    HalvedForest(p, x);
    forall y ensures SameAt(p, q, y) {
      if y in p { HalvingKeepsRoot(p, x, y); }
    }
  }

  lemma SameRootsTrans(p: map<nat, nat>, q: map<nat, nat>, s: map<nat, nat>)
    requires Forest(p) && Forest(q) && Forest(s) && SameRoots(p, q) && SameRoots(q, s)
    ensures SameRoots(p, s)
  {
    forall y ensures SameAt(p, s, y) { assert SameAt(p, q, y) && SameAt(q, s, y); }
  }

  lemma LinkingMerges(p: map<nat, nat>, hi: nat, lo: nat)
    requires Forest(p) && hi in p && lo in p && p[hi] == hi && p[lo] == lo && lo < hi
    ensures var q := p[hi := lo]; Forest(q) && Merged(p, q, hi, lo) && Merged(p, q, lo, hi)
  {
    var q := p[hi := lo];
    LinkedForest(p, hi, lo);
    forall z ensures MergedAt(p, q, hi, lo, z) && MergedAt(p, q, lo, hi, z) {
      if z in p { LinkingMergesRoots(p, hi, lo, z); } else { assert z != hi && z != lo; }
    }
  }

  lemma MergedAfterSame(p: map<nat, nat>, q: map<nat, nat>, s: map<nat, nat>, rx: nat, ry: nat)
    requires Forest(p) && Forest(q) && Forest(s) && SameRoots(p, q) && Merged(q, s, rx, ry)
    ensures Merged(p, s, rx, ry)
  {
    forall z ensures MergedAt(p, s, rx, ry, z) { assert SameAt(p, q, z) && MergedAt(q, s, rx, ry, z); }
  }

  lemma NothingToMerge(p: map<nat, nat>, q: map<nat, nat>, r: nat)
    requires Forest(p) && Forest(q) && SameRoots(p, q)
    ensures Merged(p, q, r, r)
  {
    forall z ensures MergedAt(p, q, r, r, z) { assert SameAt(p, q, z); }
  }

  lemma RootAbove(p: map<nat, nat>, x: nat)
    requires Forest(p) && x in p && p[x] in p && p[p[x]] in p
    ensures Root(p, p[p[x]]) == Root(p, x)
  {
    assert Climb(p, p[x]) == Climb(p, x);
  }

  lemma RootsAreTops(p: map<nat, nat>, x: nat, r: nat)
    requires Forest(p) && x in p && r == Root(p, x)
    ensures r in p && p[r] == r
  {
  }

  lemma RootAtTop(p: map<nat, nat>, x: nat)
    requires Forest(p) && x in p && p[x] == x
    ensures Root(p, x) == x
  {
  }

  /** One step of the walk to the root. */
  lemma HalveStep(p0: map<nat, nat>, p: map<nat, nat>, r: nat, x: nat)
    requires Forest(p0) && Forest(p) && SameRoots(p0, p) && r in p && p[r] != r && Root(p, r) == Root(p, x)
    ensures p[r] in p && p[p[r]] < r
    ensures var q := p[r := p[p[r]]]; Forest(q) && SameRoots(p0, q) && Root(q, p[p[r]]) == Root(q, x)
  {
    HalvedForest(p, r);
    var q, next := p[r := p[p[r]]], p[p[r]];
    HalvingKeepsRoots(p, r);
    RootAbove(p, r);
    assert SameAt(p, q, next) && SameAt(p, q, x);
    SameRootsTrans(p0, p, q);
  }

  class UnionFind {
    var parent: map<nat, nat>

    constructor (ids: seq<nat>)
      ensures Forest(parent) && (forall x :: x in parent <==> x in ids) && forall x :: Root(parent, x) == x
    {
      parent := map x | x in ids :: x;
      new;
      forall x ensures Linked(parent, x) {
      }
    }

    /** Walks to the root, pointing every other task on the way at its grandparent. */
    method Find(x: nat) returns (r: nat)
      requires Forest(parent) && x in parent
      modifies this
      ensures Forest(parent) && SameRoots(old(parent), parent)
      ensures r == Root(parent, x) && r in parent && parent[r] == r
    {
      r := x;
      forall y ensures SameAt(parent, parent, y) {
      }
      while parent[r] != r
        invariant Forest(parent) && SameRoots(old(parent), parent)
        invariant r in parent && Root(parent, r) == Root(parent, x)
        decreases r
      {
        HalveStep(old(parent), parent, r, x);
        parent := parent[r := parent[parent[r]]];
        r := parent[r];
      }
      RootAtTop(parent, r);
    }

    /** Makes two clusters one. */
    method Union(x: nat, y: nat)
      requires Forest(parent) && x in parent && y in parent
      modifies this
      ensures Forest(parent) && Merged(old(parent), parent, Root(old(parent), x), Root(old(parent), y))
    {
      var rx := Find(x);
      ghost var once := parent;
      var ry := Find(y);
      ghost var twice := parent;
      assert SameAt(once, twice, x) && SameAt(old(parent), once, x) && SameAt(old(parent), once, y);
      assert SameAt(once, twice, y);
      SameRootsTrans(old(parent), once, twice);
      if rx < ry {
        RootsAreTops(twice, x, rx);
        LinkingMerges(twice, ry, rx);
        parent := parent[ry := rx];
        MergedAfterSame(old(parent), twice, parent, rx, ry);
      } else if ry < rx {
        RootsAreTops(twice, x, rx);
        LinkingMerges(twice, rx, ry);
        parent := parent[rx := ry];
        MergedAfterSame(old(parent), twice, parent, rx, ry);
      } else {
        NothingToMerge(old(parent), twice, rx);
      }
    }
  }

  // ---------------------------------------------------------------- clustering

  ghost predicate Covers(u: Universe, p: map<nat, nat>) { forall x :: x in p <==> x in u.ids }

  /** Every task is joined to its root. */
  ghost predicate RootsChained(u: Universe, p: map<nat, nat>) {
    Forest(p) && forall x {:trigger Root(p, x)} :: x in u.ids ==> Chained(u, x, Root(p, x))
  }

  /** The near-duplicate pairs seen before position (i, j) of the pair loops are joined. */
  ghost predicate JoinedBefore(u: Universe, p: map<nat, nat>, i: nat, j: nat) {
    Forest(p)
    && forall a, b :: 0 <= a < b < |u.ids| && (a < i || (a == i && b < j)) && Near(u, u.ids[a], u.ids[b])
                      ==> Root(p, u.ids[a]) == Root(p, u.ids[b])
  }

  /** The trees are the clusters. */
  ghost predicate TreesAreClusters(u: Universe, p: map<nat, nat>) {
    Forest(p) && forall x, y :: x in u.ids && y in u.ids ==> (Root(p, x) == Root(p, y) <==> Chained(u, x, y))
  }

  lemma SingletonsChained(u: Universe, p: map<nat, nat>)
    requires Forest(p) && forall x :: Root(p, x) == x
    ensures RootsChained(u, p)
  {
    forall x {:trigger Root(p, x)} | x in u.ids ensures Chained(u, x, Root(p, x)) { ChainedSelf(u, x); }
  }

  lemma MergeJoins(u: Universe, p: map<nat, nat>, q: map<nat, nat>, x: nat, y: nat)
    requires RootsChained(u, p) && Forest(q) && x in u.ids && y in u.ids && Near(u, x, y)
    requires Merged(p, q, Root(p, x), Root(p, y))
    ensures RootsChained(u, q) && Root(q, x) == Root(q, y)
  {
    var rx, ry := Root(p, x), Root(p, y);
    RootsMeet(u, x, y, rx, ry);
    assert MergedAt(p, q, rx, ry, x) && MergedAt(p, q, rx, ry, y);
    forall z {:trigger Root(q, z)} | z in u.ids ensures Chained(u, z, Root(q, z)) {
      assert MergedAt(p, q, rx, ry, z) && Chained(u, z, Root(p, z));
      if Root(p, z) == rx { ChainedTrans(u, z, rx, Least(rx, ry)); }
      if Root(p, z) == ry { ChainedTrans(u, z, ry, Least(rx, ry)); }
    }
  }

  /** The roots of two joined tasks are joined to each other, and to the smaller of them. */
  lemma RootsMeet(u: Universe, x: nat, y: nat, rx: nat, ry: nat)
    requires x in u.ids && y in u.ids && Near(u, x, y) && Chained(u, x, rx) && Chained(u, y, ry)
    ensures Chained(u, rx, Least(rx, ry)) && Chained(u, ry, Least(rx, ry))
  {
    ChainedPair(u, x, y);
    ChainedBack(u, x, rx);
    ChainedBack(u, y, ry);
    ChainedTrans(u, rx, x, y);
    ChainedTrans(u, rx, y, ry);
    ChainedBack(u, rx, ry);
    ChainedTrans(u, rx, ry, rx);
    ChainedTrans(u, ry, rx, ry);
  }

  /** Merging never parts two tasks. */
  lemma MergeKeepsJoined(u: Universe, p: map<nat, nat>, q: map<nat, nat>, rx: nat, ry: nat, i: nat, j: nat)
    requires JoinedBefore(u, p, i, j) && Forest(q) && Merged(p, q, rx, ry)
    ensures JoinedBefore(u, q, i, j)
  {
    forall a, b | 0 <= a < b < |u.ids| && (a < i || (a == i && b < j)) && Near(u, u.ids[a], u.ids[b])
      ensures Root(q, u.ids[a]) == Root(q, u.ids[b])
    {
      assert MergedAt(p, q, rx, ry, u.ids[a]) && MergedAt(p, q, rx, ry, u.ids[b]);
    }
  }

  lemma PairSeen(u: Universe, p: map<nat, nat>, i: nat, j: nat)
    requires i < j < |u.ids| && JoinedBefore(u, p, i, j)
    requires Near(u, u.ids[i], u.ids[j]) ==> Root(p, u.ids[i]) == Root(p, u.ids[j])
    ensures JoinedBefore(u, p, i, j + 1)
  {
  }

  lemma {:induction false} WalkSameRoot(u: Universe, p: map<nat, nat>, path: seq<nat>)
    requires Forest(p) && Walk(u, path)
    requires forall x, y :: x in u.ids && y in u.ids && Near(u, x, y) ==> Root(p, x) == Root(p, y)
    ensures Root(p, path[0]) == Root(p, path[|path| - 1])
  {
    if |path| > 1 { WalkSameRoot(u, p, path[1..]); }
  }

  lemma AllJoined(u: Universe, p: map<nat, nat>, x: nat, y: nat)
    requires JoinedBefore(u, p, |u.ids|, 0) && x in u.ids && y in u.ids && Near(u, x, y)
    ensures Root(p, x) == Root(p, y)
  {
    var a :| 0 <= a < |u.ids| && u.ids[a] == x;
    var b :| 0 <= b < |u.ids| && u.ids[b] == y;
    NearSymmetric(u, x, y);
    if a > b { assert Near(u, u.ids[b], u.ids[a]); }
    if a < b { assert Near(u, u.ids[a], u.ids[b]); }
  }

  /** When every near-duplicate pair is joined and nothing else is, the trees are the clusters. */
  lemma JoinedTreesAreClusters(u: Universe, p: map<nat, nat>)
    requires RootsChained(u, p) && JoinedBefore(u, p, |u.ids|, 0)
    ensures TreesAreClusters(u, p)
  {
    forall x, y | x in u.ids && y in u.ids && Near(u, x, y) ensures Root(p, x) == Root(p, y) { AllJoined(u, p, x, y); }
    forall x, y | x in u.ids && y in u.ids ensures Root(p, x) == Root(p, y) <==> Chained(u, x, y) {
      if Root(p, x) == Root(p, y) {
        ChainedBack(u, y, Root(p, y));
        ChainedTrans(u, x, Root(p, x), y);
      }
      if Chained(u, x, y) {
        var path :| WalksTo(u, path, x, y);
        WalkSameRoot(u, p, path);
      }
    }
  }

  /** The pair loops: afterwards two tasks have the same root exactly when a chain of near-duplicate
      pairs joins them. */
  method Cluster(u: Universe) returns (uf: UnionFind)
    ensures fresh(uf) && TreesAreClusters(u, uf.parent) && Covers(u, uf.parent)
  {
    uf := new UnionFind(u.ids);
    SingletonsChained(u, uf.parent);
    for i := 0 to |u.ids|
      invariant RootsChained(u, uf.parent) && JoinedBefore(u, uf.parent, i, 0)
      invariant Covers(u, uf.parent)
    {
      for j := i + 1 to |u.ids|
        invariant RootsChained(u, uf.parent) && JoinedBefore(u, uf.parent, i, j)
        invariant Covers(u, uf.parent)
      {
        Compare(u, uf, i, j);
      }
    }
    JoinedTreesAreClusters(u, uf.parent);
  }

  /** One pair. */
  method Compare(u: Universe, uf: UnionFind, i: nat, j: nat)
    requires i < j < |u.ids| && RootsChained(u, uf.parent) && JoinedBefore(u, uf.parent, i, j)
    requires Covers(u, uf.parent)
    modifies uf
    ensures RootsChained(u, uf.parent) && JoinedBefore(u, uf.parent, i, j + 1)
    ensures Covers(u, uf.parent)
  {
    var x, y := u.ids[i], u.ids[j];
    if Near(u, x, y) {
      ghost var before := uf.parent;
      uf.Union(x, y);
      MergeJoins(u, before, uf.parent, x, y);
      MergeKeepsJoined(u, before, uf.parent, Root(before, x), Root(before, y), i, j);
    }
    PairSeen(u, uf.parent, i, j);
  }

  // ---------------------------------------------------------------- quarantine

  function ByKey(): (nat, nat) -> bool { (x: nat, y: nat) => OrderKey(x) <= OrderKey(y) }

  /** The representative of a cluster: the first by digest. */
  function Keep(members: seq<nat>): nat
    requires members != []
  {
    SortSorts(members, ByKey());
    Sort(members, ByKey())[0]
  }

  lemma KeepIsFirst(members: seq<nat>)
    requires members != []
    ensures Keep(members) in members && forall m :: m in members ==> OrderKey(Keep(members)) <= OrderKey(m)
  {
    var sorted := Sort(members, ByKey());
    SortSorts(members, ByKey());
    SameElements(sorted, members);
    forall m | m in members ensures OrderKey(sorted[0]) <= OrderKey(m) {
      assert m in sorted;
      var i :| 0 <= i < |sorted| && sorted[i] == m;
      if i > 0 { assert ByKey()(sorted[0], sorted[i]); }
    }
  }

  /** The tasks of the tree rooted at `r`, in listed order. */
  ghost function Members(p: map<nat, nat>, ids: seq<nat>, r: nat): seq<nat>
    requires Forest(p)
  {
    if ids == [] then []
    else var last := |ids| - 1; Members(p, ids[..last], r) + (if Root(p, ids[last]) == r then [ids[last]] else [])
  }

  lemma {:induction false} MembersAre(p: map<nat, nat>, ids: seq<nat>, r: nat, x: nat)
    requires Forest(p)
    ensures x in Members(p, ids, r) <==> x in ids && Root(p, x) == r
  {
    if ids != [] {
      MembersAre(p, ids[..|ids| - 1], r, x);
      assert ids == ids[..|ids| - 1] + [ids[|ids| - 1]];
    }
  }

  /** `extras` leaves one representative of every cluster, the one with the smallest digest. */
  ghost predicate OneOfEach(u: Universe, extras: set<nat>) {
    && (forall x <- extras :: x in u.ids)
    && (forall x <- u.ids :: exists k :: k in u.ids && k !in extras && Chained(u, x, k))
    && (forall x, y :: x in u.ids && y in u.ids && x !in extras && y !in extras && Chained(u, x, y) ==> x == y)
    && (forall x, y :: x in u.ids && y in u.ids && x !in extras && Chained(u, x, y) ==> OrderKey(x) <= OrderKey(y))
  }

  /** No two tasks left in are near-duplicates, although near-duplication is not transitive. */
  lemma NoNearDuplicatesLeft(u: Universe, extras: set<nat>, x: nat, y: nat)
    requires OneOfEach(u, extras) && x in u.ids && y in u.ids && x !in extras && y !in extras && x != y
    ensures !Near(u, x, y)
  {
    if Near(u, x, y) { ChainedPair(u, x, y); }
  }

  /** Near-duplication is not transitive. */
  lemma NotTransitive(u: Universe)
    requires u.tokens == map[1 := {0, 1, 2, 3}, 2 := {1, 2, 3}, 3 := {1, 2, 3, 4}]
    ensures Near(u, 1, 2) && Near(u, 2, 3) && !Near(u, 1, 3)
  {
    var a, b, c := {0, 1, 2, 3}, {1, 2, 3}, {1, 2, 3, 4};
    assert Tokens(u, 1) == a && Tokens(u, 2) == b && Tokens(u, 3) == c;
    assert a * b == b && a + b == a && b * c == b && b + c == c;
    assert a * c == b && a + c == {0, 1, 2, 3, 4};
  }

  lemma QuarantineLeavesOne(u: Universe, p: map<nat, nat>, extras: set<nat>)
    requires TreesAreClusters(u, p)
    requires forall x :: x in extras <==> x in u.ids && Surplus(u, p, x)
    ensures OneOfEach(u, extras)
  {
    forall x | x in u.ids ensures exists k :: k in u.ids && k !in extras && Chained(u, x, k) {
      var k := RepresentativeOf(u, p, x);
      RepresentativeKept(u, p, x, k);
    }
    forall x, y | x in u.ids && y in u.ids && x !in extras && Chained(u, x, y)
      ensures (y !in extras ==> x == y) && OrderKey(x) <= OrderKey(y)
    {
      OneKept(u, p, x, y);
    }
  }

  /** In a tree, a task that is not surplus is the representative. */
  lemma OneKept(u: Universe, p: map<nat, nat>, x: nat, y: nat)
    requires TreesAreClusters(u, p) && x in u.ids && y in u.ids && !Surplus(u, p, x) && Chained(u, x, y)
    ensures (!Surplus(u, p, y) ==> x == y) && OrderKey(x) <= OrderKey(y)
  {
    assert Root(p, x) == Root(p, y);
    var k := RepresentativeOf(u, p, x);
    MembersAre(p, u.ids, Root(p, x), y);
  }

  /** Whether a task is not the representative of its tree. */
  ghost predicate Surplus(u: Universe, p: map<nat, nat>, x: nat)
    requires Forest(p)
  {
    var members := Members(p, u.ids, Root(p, x));
    members != [] && x != Keep(members)
  }

  lemma RepresentativeOf(u: Universe, p: map<nat, nat>, x: nat) returns (k: nat)
    requires Forest(p) && x in u.ids
    ensures Members(p, u.ids, Root(p, x)) != [] && k == Keep(Members(p, u.ids, Root(p, x)))
    ensures k in u.ids && Root(p, k) == Root(p, x)
    ensures forall m :: m in Members(p, u.ids, Root(p, x)) ==> OrderKey(k) <= OrderKey(m)
  {
    var members := Members(p, u.ids, Root(p, x));
    MembersAre(p, u.ids, Root(p, x), x);
    k := Keep(members);
    KeepIsFirst(members);
    MembersAre(p, u.ids, Root(p, x), k);
  }

  lemma RepresentativeKept(u: Universe, p: map<nat, nat>, x: nat, k: nat)
    requires TreesAreClusters(u, p) && x in u.ids && k in u.ids && Root(p, k) == Root(p, x)
    requires Members(p, u.ids, Root(p, x)) != [] && k == Keep(Members(p, u.ids, Root(p, x)))
    ensures !Surplus(u, p, k) && Chained(u, x, k)
  {
  }

  /** `clusters` lists the members of every tree of the tasks `ids`. */
  ghost predicate Collected(p: map<nat, nat>, ids: seq<nat>, clusters: map<nat, seq<nat>>)
    requires Forest(p)
  {
    forall r :: (r in clusters <==> Members(p, ids, r) != [])
                && (r in clusters ==> clusters[r] == Members(p, ids, r))
  }

  lemma {:induction false} MembersOneMore(p: map<nat, nat>, ids: seq<nat>, t: nat, s: nat)
    requires Forest(p)
    ensures Members(p, ids + [t], s) == Members(p, ids, s) + (if Root(p, t) == s then [t] else [])
  {
    assert (ids + [t])[..|ids|] == ids;
  }

  lemma {:induction false} CollectOne(p: map<nat, nat>, ids: seq<nat>, clusters: map<nat, seq<nat>>, t: nat, r: nat)
    requires Forest(p) && Collected(p, ids, clusters) && r == Root(p, t)
    ensures Collected(p, ids + [t], clusters[r := (if r in clusters then clusters[r] else []) + [t]])
  {
    var next := clusters[r := (if r in clusters then clusters[r] else []) + [t]];
    forall s ensures (s in next <==> Members(p, ids + [t], s) != [])
                     && (s in next ==> next[s] == Members(p, ids + [t], s))
    {
      MembersOneMore(p, ids, t, s);
      assert s in clusters <==> Members(p, ids, s) != [];
    }
  }

  /** Sorts the tasks by root. */
  method Collect(u: Universe, uf: UnionFind) returns (clusters: map<nat, seq<nat>>)
    requires Forest(uf.parent) && Covers(u, uf.parent)
    modifies uf
    ensures Forest(uf.parent) && SameRoots(old(uf.parent), uf.parent)
    ensures Collected(old(uf.parent), u.ids, clusters)
  {
    clusters := map[];
    TakeAll(u.ids);
    forall y ensures SameAt(uf.parent, uf.parent, y) {
    }
    for i := 0 to |u.ids|
      invariant Forest(uf.parent) && SameRoots(old(uf.parent), uf.parent)
      invariant Collected(old(uf.parent), u.ids[..i], clusters)
    {
      var t := u.ids[i];
      TakeOneMore(u.ids, i);
      ghost var before := uf.parent;
      var r := uf.Find(t);
      SameRootsTrans(old(uf.parent), before, uf.parent);
      assert SameAt(old(uf.parent), uf.parent, t);
      CollectOne(old(uf.parent), u.ids[..i], clusters, t, r);
      clusters := clusters[r := (if r in clusters then clusters[r] else []) + [t]];
    }
  }

  function AllBut(members: seq<nat>, keep: nat): set<nat> { set m | m in members && m != keep }

  /** `extras` is what the trees rooted in `roots` quarantine. */
  ghost predicate Quarantined(u: Universe, p: map<nat, nat>, roots: set<nat>, extras: set<nat>)
    requires Forest(p)
  {
    forall x :: x in extras <==> x in u.ids && Root(p, x) in roots && Surplus(u, p, x)
  }

  lemma QuarantineOne(u: Universe, p: map<nat, nat>, roots: set<nat>, extras: set<nat>, r: nat, members: seq<nat>)
    requires Forest(p) && Quarantined(u, p, roots, extras) && members == Members(p, u.ids, r) && members != []
    ensures Quarantined(u, p, roots + {r}, extras + AllBut(members, Keep(members)))
  {
    forall x ensures x in AllBut(members, Keep(members)) <==> x in u.ids && Root(p, x) == r && Surplus(u, p, x) {
      MembersAre(p, u.ids, r, x);
    }
  }

  lemma NothingBesides(members: seq<nat>)
    requires |members| == 1
    ensures forall s: set<nat> :: s + AllBut(members, Keep(members)) == s
  {
    KeepIsFirst(members);
    assert AllBut(members, Keep(members)) == {};
  }

  /** The quarantined tasks: all but one of every cluster of near-duplicates. */
  method NearDupExtras(u: Universe) returns (extras: set<nat>)
    ensures OneOfEach(u, extras)
    ensures (forall x <- extras :: x in u.ids)
            && (forall x <- u.ids :: exists k :: k in u.ids && k !in extras && Chained(u, x, k))
            && (forall x, y :: x in u.ids && y in u.ids && x !in extras && Chained(u, x, y) ==>
                  (y !in extras ==> x == y) && OrderKey(x) <= OrderKey(y))
  {
    var uf := Cluster(u);
    ghost var p := uf.parent;
    var clusters := Collect(u, uf);
    extras := {};
    var todo := clusters.Keys;
    while todo != {}
      invariant todo <= clusters.Keys && Quarantined(u, p, clusters.Keys - todo, extras)
    {
      var r :| r in todo;
      var members := clusters[r];
      QuarantineOne(u, p, clusters.Keys - todo, extras, r, members);
      if |members| > 1 {
        extras := extras + AllBut(members, Keep(members));
      } else {
        NothingBesides(members);
      }
      OneLess(clusters.Keys, todo, r);
      todo := todo - {r};
    }
    forall x | x in u.ids ensures Root(p, x) in clusters { MembersAre(p, u.ids, Root(p, x), x); }
    QuarantineLeavesOne(u, p, extras);
  }
}
