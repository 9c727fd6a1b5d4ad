/** The repository-cluster bootstrap. Each replicate draws as many repositories as there are, with
    replacement, and pools their tasks; the interval is read off the sorted replicates. */
module ClusterBootstrap {
  import opened Lcg
  import opened Powers
  import opened Sequences

  /** A task with its repository and whether each of the two arms passed it. */
  datatype Task = Task(repo: nat, passedA: bool, passedB: bool)

  datatype Group = Group(repo: nat, members: seq<Task>)

  const SEED: int := 20260822

  function Diff(q: Task): int { (if q.passedA then 1 else 0) - (if q.passedB then 1 else 0) }

  function TotalDiff(qs: seq<Task>): int { if qs == [] then 0 else TotalDiff(qs[..|qs| - 1]) + Diff(qs[|qs| - 1]) }

  predicate OnlyA(q: Task) { q.passedA && !q.passedB }

  predicate OnlyB(q: Task) { q.passedB && !q.passedA }

  lemma {:induction false} DiffCounts(qs: seq<Task>)
    ensures TotalDiff(qs) == |Where(qs, OnlyA)| - |Where(qs, OnlyB)|
  {
    if qs != [] {
      var n := |qs| - 1;
      DiffCounts(qs[..n]);
      WhereLast(qs[..n], qs[n], OnlyA);
      WhereLast(qs[..n], qs[n], OnlyB);
      assert qs == qs[..n] + [qs[n]];
    }
  }

  /** The difference is the number of tasks only arm A passed less the number only arm B passed. */
  lemma TotalDiffCounts(qs: seq<Task>)
    ensures TotalDiff(qs) == |set i | 0 <= i < |qs| && qs[i].passedA && !qs[i].passedB|
                           - |set i | 0 <= i < |qs| && !qs[i].passedA && qs[i].passedB|
  {
    DiffCounts(qs);
    assert Where(qs, OnlyA) == set i | 0 <= i < |qs| && qs[i].passedA && !qs[i].passedB;
    assert Where(qs, OnlyB) == set i | 0 <= i < |qs| && !qs[i].passedA && qs[i].passedB;
  }

  /** Files a task under its repository; repositories keep the order in which they were first seen. */
  function File(groups: seq<Group>, q: Task): seq<Group> {
    if groups == [] then [Group(q.repo, [q])]
    else if groups[0].repo == q.repo then [Group(q.repo, groups[0].members + [q])] + groups[1..]
    else [groups[0]] + File(groups[1..], q)
  }

  function Grouped(qs: seq<Task>): seq<Group> {
    if qs == [] then [] else File(Grouped(qs[..|qs| - 1]), qs[|qs| - 1])
  }

  function Diffs(groups: seq<Group>): seq<int> { seq(|groups|, i requires 0 <= i < |groups| => TotalDiff(groups[i].members)) }

  function Sizes(groups: seq<Group>): seq<int> { seq(|groups|, i requires 0 <= i < |groups| => |groups[i].members|) }

  /** The `count` repositories drawn after the first `start` draws. */
  function Drawn(start: nat, count: nat, n: nat): (idx: seq<nat>)
    requires n > 0
    ensures |idx| == count && forall t :: 0 <= t < count ==> idx[t] < n
  {
    seq(count, t requires 0 <= t < count => Nth(SEED, start + t + 1) % n)
  }

  function Ratio(s: int, n: int): real { if n == 0 then 0.0 else s as real / n as real }

  /** The value of the replicate drawn after the first `start` draws. */
  function ReplicateAt(groups: seq<Group>, start: nat): real {
    var k := |groups|;
    if k == 0 then 0.0
    else var idx := Drawn(start, k, k); Ratio(Sum(Pick(Diffs(groups), idx)), Sum(Pick(Sizes(groups), idx)))
  }

  /** The value of replicate `r`. */
  function Replicate(groups: seq<Group>, r: nat): real { ReplicateAt(groups, r * |groups|) }

  function Leq(x: real, y: real): bool { x <= y }

  /** All replicates, sorted. */
  function Replicates(groups: seq<Group>, b: nat): (rs: seq<real>)
    ensures |rs| == b
  {
    SortSorts(Unsorted(groups, b), Leq);
    Sort(Unsorted(groups, b), Leq)
  }

  function Unsorted(groups: seq<Group>, b: nat): seq<real> { seq(b, r requires 0 <= r < b => Replicate(groups, r)) }

  lemma PickSnoc(w: seq<int>, start: nat, t: nat)
    requires w != []
    ensures Sum(Pick(w, Drawn(start, t + 1, |w|))) ==
            Sum(Pick(w, Drawn(start, t, |w|))) + w[Nth(SEED, start + t + 1) % |w|]
  {
    var x := w[Nth(SEED, start + t + 1) % |w|];
    assert Pick(w, Drawn(start, t + 1, |w|)) == Pick(w, Drawn(start, t, |w|)) + [x];
    SumConcat(Pick(w, Drawn(start, t, |w|)), [x]);
  }

  /** The next draw adds the tasks of one repository to a replicate. */
  lemma PoolsDrawn(groups: seq<Group>, start: nat, t: nat, members: seq<Task>)
    requires groups != [] && members == groups[Nth(SEED, start + t + 1) % |groups|].members
    ensures Sum(Pick(Diffs(groups), Drawn(start, t + 1, |groups|)))
         == Sum(Pick(Diffs(groups), Drawn(start, t, |groups|))) + TotalDiff(members)
    ensures Sum(Pick(Sizes(groups), Drawn(start, t + 1, |groups|)))
         == Sum(Pick(Sizes(groups), Drawn(start, t, |groups|))) + |members|
  {
    PickSnoc(Diffs(groups), start, t);
    PickSnoc(Sizes(groups), start, t);
  }

  method GroupByRepo(qs: seq<Task>) returns (groups: seq<Group>)
    ensures groups == Grouped(qs)
  {
    groups := [];
    for i := 0 to |qs|
      invariant groups == Grouped(qs[..i])
    {
      groups := File(groups, qs[i]);
      assert qs[..i + 1][..i] == qs[..i];
    }
    assert qs[..|qs|] == qs;
  }

  /** Pools the tasks of one drawn repository. */
  method Pool(members: seq<Task>, s0: int, n0: nat) returns (s: int, n: nat)
    ensures s == s0 + TotalDiff(members) && n == n0 + |members|
  {
    s, n := s0, n0;
    for i := 0 to |members|
      invariant s == s0 + TotalDiff(members[..i]) && n == n0 + i
    {
      s := s + Diff(members[i]);
      n := n + 1;
      assert members[..i + 1][..i] == members[..i];
    }
    assert members[..|members|] == members;
  }

  /** One replicate: draws a repository for each repository there is, pooling its tasks. */
  method DrawReplicate(groups: seq<Group>, g: Generator, ghost start: nat) returns (s: int, n: nat)
    requires g.Valid() && g.seed == SEED && g.drawn == start && groups != []
    modifies g
    ensures g.Valid() && g.drawn == start + |groups|
    ensures s == Sum(Pick(Diffs(groups), Drawn(start, |groups|, |groups|)))
    ensures n == Sum(Pick(Sizes(groups), Drawn(start, |groups|, |groups|)))
  {
    s, n := 0, 0;
    for t := 0 to |groups|
      invariant g.Valid() && g.drawn == start + t
      invariant s == Sum(Pick(Diffs(groups), Drawn(start, t, |groups|)))
      invariant n == Sum(Pick(Sizes(groups), Drawn(start, t, |groups|)))
    {
      var x := g.Draw();
      var members := groups[x % |groups|].members;
      PoolsDrawn(groups, start, t, members);
      s, n := Pool(members, s, n);
    }
  }

  lemma NextBlock(r: nat, k: nat)
    ensures (r + 1) * k == r * k + k
  {
  }

  /** What is pooled from a whole block of draws is the replicate's value. */
  lemma PooledIsReplicate(groups: seq<Group>, r: nat, start: nat, s: int, n: nat)
    requires groups != [] && start == r * |groups|
    requires s == Sum(Pick(Diffs(groups), Drawn(start, |groups|, |groups|)))
    requires n == Sum(Pick(Sizes(groups), Drawn(start, |groups|, |groups|)))
    ensures Ratio(s, n) == Replicate(groups, r)
  {
  }

  /** The values of `b` replicates, in the order they are drawn. */
  method DrawReplicates(groups: seq<Group>, b: nat) returns (diffs: seq<real>)
    ensures |diffs| == b && forall r :: 0 <= r < b ==> diffs[r] == Replicate(groups, r)
  {
    var g := new Generator(SEED);
    diffs := [];
    ghost var start := 0;
    for r := 0 to b
      invariant g.Valid() && g.seed == SEED && g.drawn == start && start == r * |groups|
      invariant |diffs| == r && forall i :: 0 <= i < r ==> diffs[i] == Replicate(groups, i)
    {
      var s, n := 0, 0;
      if groups != [] {
        s, n := DrawReplicate(groups, g, start);
        PooledIsReplicate(groups, r, start, s, n);
      }
      NextBlock(r, |groups|);
      start := start + |groups|;
      diffs := diffs + [Ratio(s, n)];
    }
  }

  // ---------------------------------------------------------------- what a replicate pools

  function Of(qs: seq<Task>, repo: nat): seq<Task> {
    if qs == [] then []
    else var q := qs[|qs| - 1]; Of(qs[..|qs| - 1], repo) + if q.repo == repo then [q] else []
  }

  lemma {:induction false} OfCounts(qs: seq<Task>, repo: nat, p: Task -> bool, here: Task -> bool)
    requires forall q :: here(q) <==> q.repo == repo && p(q)
    ensures |Where(Of(qs, repo), p)| == |Where(qs, here)|
  {
    if qs == [] {
      assert Where(Of(qs, repo), p) == {};
    } else {
      var n := |qs| - 1;
      OfCounts(qs[..n], repo, p, here);
      assert qs == qs[..n] + [qs[n]];
      WhereLast(qs[..n], qs[n], here);
      if qs[n].repo == repo {
        WhereLast(Of(qs[..n], repo), qs[n], p);
      } else {
        assert Of(qs, repo) == Of(qs[..n], repo);
      }
    }
  }

  function Repos(groups: seq<Group>): seq<nat> { seq(|groups|, i requires 0 <= i < |groups| => groups[i].repo) }

  lemma {:induction false} FileRepos(groups: seq<Group>, q: Task)
    ensures Repos(File(groups, q)) == Repos(groups) + (if q.repo in Repos(groups) then [] else [q.repo])
  {
    if groups != [] {
      assert Repos(groups) == [groups[0].repo] + Repos(groups[1..]);
      if groups[0].repo != q.repo {
        FileRepos(groups[1..], q);
        assert Repos(File(groups, q)) == [groups[0].repo] + Repos(File(groups[1..], q));
      }
    }
  }

  /** Filing adds the task to its repository's group alone. */
  lemma {:induction false} FileMembers(groups: seq<Group>, q: Task, i: nat)
    requires Distinct(Repos(groups)) && i < |File(groups, q)|
    ensures i <= |groups|
    ensures File(groups, q)[i].members == (if i < |groups| then groups[i].members else [])
                                          + if File(groups, q)[i].repo == q.repo then [q] else []
  {
    if groups != [] {
      assert Repos(groups) == [groups[0].repo] + Repos(groups[1..]);
      if groups[0].repo == q.repo {
        if i > 0 { assert Repos(groups)[i] == groups[i].repo && Repos(groups)[0] == q.repo; }
      } else if i > 0 {
        assert Repos(groups[1..]) == Repos(groups)[1..];
        FileMembers(groups[1..], q, i - 1);
      }
    }
  }

  /** `repos[j]` appears among the tasks before any of those after it does. */
  ghost predicate Seen(qs: seq<Task>, repos: seq<nat>, j: int)
    requires 0 <= j < |repos|
  {
    exists x :: 0 <= x < |qs| && qs[x].repo == repos[j] && NotYet(qs[..x + 1], repos[j + 1..])
  }

  ghost predicate NotYet(qs: seq<Task>, repos: seq<nat>) { forall i :: 0 <= i < |qs| ==> qs[i].repo !in repos }

  /** `repos` lists the repositories of the tasks, each once, in the order in which they first appear. */
  ghost predicate ListsRepos(qs: seq<Task>, repos: seq<nat>) {
    && Distinct(repos) && (forall i :: 0 <= i < |qs| ==> qs[i].repo in repos)
    && (forall j :: 0 <= j < |repos| ==> Seen(qs, repos, j))
  }

  lemma SeenStill(qs: seq<Task>, q: Task, repos: seq<nat>, new_: seq<nat>, j: nat)
    requires ListsRepos(qs, repos) && j < |repos| && forall r <- new_ :: r !in repos
    ensures Seen(qs + [q], repos + new_, j)
  {
    assert Seen(qs, repos, j);
    var x :| 0 <= x < |qs| && qs[x].repo == repos[j] && NotYet(qs[..x + 1], repos[j + 1..]);
    var upTo, later := qs[..x + 1], repos[j + 1..] + new_;
    assert (qs + [q])[..x + 1] == upTo && (repos + new_)[j + 1..] == later;
    forall i | 0 <= i < |upTo| ensures upTo[i].repo !in later {
      assert qs[i].repo in repos;
    }
    assert (qs + [q])[x] == qs[x] && (repos + new_)[j] == repos[j];
  }

  lemma ListsOneMore(qs: seq<Task>, q: Task, repos: seq<nat>)
    requires ListsRepos(qs, repos)
    ensures ListsRepos(qs + [q], repos + if q.repo in repos then [] else [q.repo])
  {
    var new_ := if q.repo in repos then [] else [q.repo];
    var qs', repos' := qs + [q], repos + new_;
    forall j | 0 <= j < |repos'| ensures Seen(qs', repos', j) {
      if j < |repos| {
        SeenStill(qs, q, repos, new_, j);
      } else {
        assert repos'[j + 1..] == [] && qs'[|qs|].repo == repos'[j];
      }
    }
  }

  lemma {:induction false} NoneOf(qs: seq<Task>, repo: nat)
    requires forall i :: 0 <= i < |qs| ==> qs[i].repo != repo
    ensures Of(qs, repo) == []
  {
    if qs != [] { NoneOf(qs[..|qs| - 1], repo); }
  }

  /** Grouping files the tasks by repository, in order. */
  lemma {:induction false} GroupedRepos(qs: seq<Task>)
    ensures var groups := Grouped(qs);
            && ListsRepos(qs, Repos(groups))
            && forall i :: 0 <= i < |groups| ==> groups[i].members == Of(qs, groups[i].repo)
  {
    if qs != [] {
      var n := |qs| - 1;
      var groups, before, q := Grouped(qs), Grouped(qs[..n]), qs[n];
      GroupedRepos(qs[..n]);
      FileRepos(before, q);
      ListsOneMore(qs[..n], q, Repos(before));
      assert qs == qs[..n] + [q];
      forall i | 0 <= i < |groups| ensures groups[i].members == Of(qs, groups[i].repo) {
        FileMembers(before, q, i);
        assert groups[i].repo == Repos(groups)[i];
        if i < |before| {
          assert before[i].repo == Repos(before)[i];
        } else {
          NoneOf(qs[..n], q.repo);
        }
      }
    }
  }

  function OnlyAIn(qs: seq<Task>, repo: nat): (n: int)
    ensures n == |Where(Of(qs, repo), OnlyA)|
  {
    var here := (q: Task) => q.repo == repo && q.passedA && !q.passedB;
    OfCounts(qs, repo, OnlyA, here);
    var at := set i | 0 <= i < |qs| && qs[i].repo == repo && qs[i].passedA && !qs[i].passedB;
    assert Where(qs, here) == at;
    |at|
  }

  function OnlyBIn(qs: seq<Task>, repo: nat): (n: int)
    ensures n == |Where(Of(qs, repo), OnlyB)|
  {
    var here := (q: Task) => q.repo == repo && !q.passedA && q.passedB;
    OfCounts(qs, repo, OnlyB, here);
    var at := set i | 0 <= i < |qs| && qs[i].repo == repo && !qs[i].passedA && qs[i].passedB;
    assert Where(qs, here) == at;
    |at|
  }

  function SizeOf(qs: seq<Task>, repo: nat): (n: int)
    ensures n == |Of(qs, repo)|
  {
    var any, here := (q: Task) => true, (q: Task) => q.repo == repo;
    OfCounts(qs, repo, any, here);
    WhereAll(Of(qs, repo), any);
    var at := set i | 0 <= i < |qs| && qs[i].repo == repo;
    assert Where(qs, here) == at;
    |at|
  }

  lemma {:induction false} SomeOf(qs: seq<Task>, x: int)
    requires 0 <= x < |qs|
    ensures |Of(qs, qs[x].repo)| > 0
  {
    if x < |qs| - 1 { SomeOf(qs[..|qs| - 1], x); }
  }

  lemma GroupCounts(qs: seq<Task>, d: nat)
    requires d < |Grouped(qs)|
    ensures var repo := Repos(Grouped(qs))[d];
            && Diffs(Grouped(qs))[d] == OnlyAIn(qs, repo) - OnlyBIn(qs, repo)
            && Sizes(Grouped(qs))[d] == SizeOf(qs, repo) > 0
  {
    var repo := Repos(Grouped(qs))[d];
    GroupedRepos(qs);
    assert Seen(qs, Repos(Grouped(qs)), d);
    var x :| 0 <= x < |qs| && qs[x].repo == repo;
    SomeOf(qs, x);
    DiffCounts(Of(qs, repo));
  }

  lemma {:induction false} PickMinus(xs: seq<int>, ys: seq<int>, zs: seq<int>, idx: seq<nat>)
    requires |xs| == |ys| == |zs| && (forall t :: 0 <= t < |idx| ==> idx[t] < |xs|)
    requires forall i :: 0 <= i < |xs| ==> zs[i] == xs[i] - ys[i]
    ensures Sum(Pick(zs, idx)) == Sum(Pick(xs, idx)) - Sum(Pick(ys, idx))
  {
    if idx == [] {
      assert Pick(xs, idx) == [] && Pick(ys, idx) == [] && Pick(zs, idx) == [];
    } else {
      PickMinus(xs, ys, zs, idx[1..]);
      assert Pick(xs, idx)[1..] == Pick(xs, idx[1..]);
      assert Pick(ys, idx)[1..] == Pick(ys, idx[1..]);
      assert Pick(zs, idx)[1..] == Pick(zs, idx[1..]);
    }
  }

  lemma {:induction false} PickPositive(xs: seq<int>, idx: seq<nat>)
    requires idx != [] && (forall t :: 0 <= t < |idx| ==> idx[t] < |xs|) && forall i :: 0 <= i < |xs| ==> xs[i] > 0
    ensures Sum(Pick(xs, idx)) > 0
  {
    if |idx| == 1 {
      assert Pick(xs, idx) == [xs[idx[0]]];
    } else {
      PickPositive(xs, idx[1..]);
      assert Pick(xs, idx)[1..] == Pick(xs, idx[1..]);
    }
  }

  /** What a replicate is, over the tasks themselves. With `a[d]` tasks of repository `repos[d]` that only arm A passed,
      `b[d]` that only arm B passed and `n[d]` in all, each draw adds those of the repository it names, and the value is
      the quotient of the sums. */
  lemma {:induction false} ReplicateIs(qs: seq<Task>, start: nat)
    returns (repos: seq<nat>, a: seq<int>, b: seq<int>, n: seq<int>, idx: seq<nat>)
    requires qs != []
    ensures ListsRepos(qs, repos) && |repos| == |a| == |b| == |n| == |idx| > 0
    ensures forall d :: 0 <= d < |repos| ==>
              && a[d] == |set i | 0 <= i < |qs| && qs[i].repo == repos[d] && qs[i].passedA && !qs[i].passedB|
              && b[d] == |set i | 0 <= i < |qs| && qs[i].repo == repos[d] && !qs[i].passedA && qs[i].passedB|
              && n[d] == |set i | 0 <= i < |qs| && qs[i].repo == repos[d]|
    ensures forall t :: 0 <= t < |idx| ==> idx[t] < |repos| && idx[t] == Nth(SEED, start + t + 1) % |repos|
    ensures Sum(Pick(n, idx)) > 0
    ensures ReplicateAt(Grouped(qs), start)
         == (Sum(Pick(a, idx)) - Sum(Pick(b, idx))) as real / Sum(Pick(n, idx)) as real
  {
    SomeRepo(qs);
    idx := ReplicateDraws(Grouped(qs), start);
    repos, a, b, n := PooledIs(qs, idx);
  }

  lemma {:induction false} SomeRepo(qs: seq<Task>)
    requires qs != []
    ensures Grouped(qs) != []
  {
    GroupedRepos(qs);
    assert qs[0].repo in Repos(Grouped(qs));
  }

  lemma ReplicateDraws(groups: seq<Group>, start: nat) returns (idx: seq<nat>)
    requires groups != []
    ensures |idx| == |groups|
    ensures forall t :: 0 <= t < |idx| ==> idx[t] < |groups| && idx[t] == Nth(SEED, start + t + 1) % |groups|
    ensures ReplicateAt(groups, start) == Ratio(Sum(Pick(Diffs(groups), idx)), Sum(Pick(Sizes(groups), idx)))
  {
    idx := Drawn(start, |groups|, |groups|);
  }

  /** ... whatever repositories are drawn. */
  lemma {:induction false} PooledIs(qs: seq<Task>, idx: seq<nat>)
    returns (repos: seq<nat>, a: seq<int>, b: seq<int>, n: seq<int>)
    requires idx != [] && forall t :: 0 <= t < |idx| ==> idx[t] < |Grouped(qs)|
    ensures ListsRepos(qs, repos) && |repos| == |a| == |b| == |n| == |Grouped(qs)|
    ensures forall d :: 0 <= d < |repos| ==>
              && a[d] == |set i | 0 <= i < |qs| && qs[i].repo == repos[d] && qs[i].passedA && !qs[i].passedB|
              && b[d] == |set i | 0 <= i < |qs| && qs[i].repo == repos[d] && !qs[i].passedA && qs[i].passedB|
              && n[d] == |set i | 0 <= i < |qs| && qs[i].repo == repos[d]|
    ensures Sum(Pick(Diffs(Grouped(qs)), idx)) == Sum(Pick(a, idx)) - Sum(Pick(b, idx))
    ensures Sum(Pick(Sizes(Grouped(qs)), idx)) == Sum(Pick(n, idx)) > 0
  {
    GroupedRepos(qs);
    repos := Repos(Grouped(qs));
    a, b, n := Counts(qs, repos);
    PooledCounts(qs, Grouped(qs), a, b, n, idx);
  }

  lemma PooledCounts(qs: seq<Task>, groups: seq<Group>, a: seq<int>, b: seq<int>, n: seq<int>, idx: seq<nat>)
    requires groups == Grouped(qs) && |groups| == |a| == |b| == |n| && idx != []
    requires forall t :: 0 <= t < |idx| ==> idx[t] < |groups|
    requires forall d :: 0 <= d < |groups| ==>
               var repo := Repos(groups)[d];
               a[d] == OnlyAIn(qs, repo) && b[d] == OnlyBIn(qs, repo) && n[d] == SizeOf(qs, repo)
    ensures Sum(Pick(Diffs(groups), idx)) == Sum(Pick(a, idx)) - Sum(Pick(b, idx))
    ensures Sum(Pick(Sizes(groups), idx)) == Sum(Pick(n, idx)) > 0
  {
    forall d | 0 <= d < |groups| ensures Diffs(groups)[d] == a[d] - b[d] && Sizes(groups)[d] == n[d] > 0 {
      GroupCounts(qs, d);
    }
    PickMinus(a, b, Diffs(groups), idx);
    assert Sizes(groups) == n;
    PickPositive(n, idx);
  }

  lemma Counts(qs: seq<Task>, repos: seq<nat>) returns (a: seq<int>, b: seq<int>, n: seq<int>)
    ensures |repos| == |a| == |b| == |n|
    ensures forall d :: 0 <= d < |repos| ==>
              && a[d] == |set i | 0 <= i < |qs| && qs[i].repo == repos[d] && qs[i].passedA && !qs[i].passedB|
              && b[d] == |set i | 0 <= i < |qs| && qs[i].repo == repos[d] && !qs[i].passedA && qs[i].passedB|
              && n[d] == |set i | 0 <= i < |qs| && qs[i].repo == repos[d]|
    ensures forall d :: 0 <= d < |repos| ==>
              a[d] == OnlyAIn(qs, repos[d]) && b[d] == OnlyBIn(qs, repos[d]) && n[d] == SizeOf(qs, repos[d])
  {
    a := seq(|repos|, d requires 0 <= d < |repos| => OnlyAIn(qs, repos[d]));
    b := seq(|repos|, d requires 0 <= d < |repos| => OnlyBIn(qs, repos[d]));
    n := seq(|repos|, d requires 0 <= d < |repos| => SizeOf(qs, repos[d]));
  }

  // ---------------------------------------------------------------- the interval

  /** The element at position `i` of a sorted arrangement: at most `i` are less, more than `i` are not greater. */
  lemma {:induction false} OrderStatistic(xs: seq<real>, i: nat)
    requires i < |xs|
    ensures |Sort(xs, Leq)| == |xs|
    ensures var x := Sort(xs, Leq)[i];
            |Where(xs, (y: real) => y < x)| <= i < |Where(xs, (y: real) => y <= x)|
  {
    SortSorts(xs, Leq);
    var sorted := Sort(xs, Leq);
    var x := sorted[i];
    var less, atMost := (y: real) => y < x, (y: real) => y <= x;
    SortCounts(xs, Leq, less);
    SortCounts(xs, Leq, atMost);
    forall j | 0 <= j < |sorted| ensures j <= i ==> atMost(sorted[j]) ensures j >= i ==> !less(sorted[j]) {
      assert j < i ==> Leq(sorted[j], x);
      assert j > i ==> Leq(x, sorted[j]);
    }
    assert sorted == sorted[..i] + sorted[i..] && sorted == sorted[..i + 1] + sorted[i + 1..];
    WhereConcat(sorted[..i], sorted[i..], less);
    assert Where(sorted[i..], less) == {};
    WhereNot(sorted[..i], less, (y: real) => !less(y));
    WhereConcat(sorted[..i + 1], sorted[i + 1..], atMost);
    WhereAll(sorted[..i + 1], atMost);
  }

  /** Only one value has that rank. */
  lemma {:induction false} OneOfRank(xs: seq<real>, i: nat, x: real, y: real)
    requires |Where(xs, (z: real) => z < x)| <= i < |Where(xs, (z: real) => z <= x)|
    requires |Where(xs, (z: real) => z < y)| <= i < |Where(xs, (z: real) => z <= y)|
    ensures x == y
  {
    if x < y { Ranked(xs, i, x, y); }
    if y < x { Ranked(xs, i, y, x); }
  }

  lemma {:induction false} Ranked(xs: seq<real>, i: nat, x: real, y: real)
    requires x < y
    ensures |Where(xs, (z: real) => z <= x)| <= |Where(xs, (z: real) => z < y)|
  {
    Subset(Where(xs, (z: real) => z <= x), Where(xs, (z: real) => z < y));
  }

  lemma {:induction false} Subset<T>(s: set<T>, t: set<T>)
    requires s <= t
    ensures |s| <= |t|
  {
    if x :| x in s { Subset(s - {x}, t - {x}); }
  }

  lemma {:induction false} AgreementAt(qs: seq<Task>, start: nat)
    requires forall q <- qs :: q.passedA == q.passedB
    ensures ReplicateAt(Grouped(qs), start) == 0.0
  {
    if qs != [] {
      var repos, a, b, n, idx := ReplicateIs(qs, start);
      assert a == b;
    }
  }

  /** When the arms agree on every task, every replicate is 0. */
  lemma {:induction false} AgreementIsZero(qs: seq<Task>, r: nat)
    requires forall q <- qs :: q.passedA == q.passedB
    ensures Replicate(Grouped(qs), r) == 0.0
  {
    AgreementAt(qs, r * |Grouped(qs)|);
  }

  lemma {:induction false} SwapKeepsRepos(qs: seq<Task>, qs': seq<Task>)
    requires |qs'| == |qs| && forall i :: 0 <= i < |qs| ==> qs'[i] == Task(qs[i].repo, qs[i].passedB, qs[i].passedA)
    ensures Repos(Grouped(qs')) == Repos(Grouped(qs))
  {
    if qs != [] {
      var n := |qs| - 1;
      SwapKeepsRepos(qs[..n], qs'[..n]);
      FileRepos(Grouped(qs[..n]), qs[n]);
      FileRepos(Grouped(qs'[..n]), qs'[n]);
    }
  }

  lemma SwapCounts(qs: seq<Task>, qs': seq<Task>, repo: nat)
    requires |qs'| == |qs| && forall i :: 0 <= i < |qs| ==> qs'[i] == Task(qs[i].repo, qs[i].passedB, qs[i].passedA)
    ensures OnlyAIn(qs', repo) == OnlyBIn(qs, repo) && OnlyBIn(qs', repo) == OnlyAIn(qs, repo)
    ensures SizeOf(qs', repo) == SizeOf(qs, repo)
  {
    assert (set i | 0 <= i < |qs| && qs[i].repo == repo && qs[i].passedA && !qs[i].passedB)
        == (set i | 0 <= i < |qs'| && qs'[i].repo == repo && !qs'[i].passedA && qs'[i].passedB);
    assert (set i | 0 <= i < |qs| && qs[i].repo == repo && !qs[i].passedA && qs[i].passedB)
        == (set i | 0 <= i < |qs'| && qs'[i].repo == repo && qs'[i].passedA && !qs'[i].passedB);
    assert (set i | 0 <= i < |qs| && qs[i].repo == repo) == (set i | 0 <= i < |qs'| && qs'[i].repo == repo);
  }

  lemma SwapGroups(qs: seq<Task>, qs': seq<Task>)
    requires |qs'| == |qs| && forall i :: 0 <= i < |qs| ==> qs'[i] == Task(qs[i].repo, qs[i].passedB, qs[i].passedA)
    ensures |Grouped(qs')| == |Grouped(qs)|
    ensures forall d :: 0 <= d < |Grouped(qs)| ==>
              Diffs(Grouped(qs'))[d] == -Diffs(Grouped(qs))[d] && Sizes(Grouped(qs'))[d] == Sizes(Grouped(qs))[d]
  {
    var groups, groups' := Grouped(qs), Grouped(qs');
    SwapKeepsRepos(qs, qs');
    assert |Repos(groups)| == |groups| && |Repos(groups')| == |groups'|;
    forall d | 0 <= d < |groups|
      ensures Diffs(groups')[d] == -Diffs(groups)[d] && Sizes(groups')[d] == Sizes(groups)[d]
    {
      GroupCounts(qs, d);
      GroupCounts(qs', d);
      SwapCounts(qs, qs', Repos(groups)[d]);
    }
  }

  /** Swapping the arms in every task negates every replicate. */
  lemma {:induction false} SwappingNegates(qs: seq<Task>, qs': seq<Task>, r: nat)
    requires |qs'| == |qs| && forall i :: 0 <= i < |qs| ==> qs'[i] == Task(qs[i].repo, qs[i].passedB, qs[i].passedA)
    ensures Replicate(Grouped(qs'), r) == -Replicate(Grouped(qs), r)
  {
    SwapGroups(qs, qs');
    NegatedReplicate(Grouped(qs), Grouped(qs'), r * |Grouped(qs)|);
  }

  lemma NegatedReplicate(groups: seq<Group>, groups': seq<Group>, start: nat)
    requires |groups'| == |groups|
    requires forall d :: 0 <= d < |groups| ==>
               Diffs(groups')[d] == -Diffs(groups)[d] && Sizes(groups')[d] == Sizes(groups)[d]
    ensures ReplicateAt(groups', start) == -ReplicateAt(groups, start)
  {
    var k := |groups|;
    if k > 0 {
      var idx, zero := Drawn(start, k, k), seq(k, i => 0);
      PickMinus(zero, Diffs(groups), Diffs(groups'), idx);
      SumConstant(Pick(zero, idx), 0);
      assert Sizes(groups') == Sizes(groups);
      NegatedRatio(Sum(Pick(Diffs(groups), idx)), Sum(Pick(Sizes(groups), idx)));
    }
  }

  lemma NegatedRatio(s: int, n: int)
    ensures Ratio(-s, n) == -Ratio(s, n)
  {
  }

  lemma {:induction false} NegationTurnsRound(xs: seq<real>, ys: seq<real>, i: nat)
    requires |xs| == |ys| && i < |xs| && forall j :: 0 <= j < |xs| ==> ys[j] == -xs[j]
    ensures |Sort(xs, Leq)| == |Sort(ys, Leq)| == |xs| && Sort(ys, Leq)[i] == -Sort(xs, Leq)[|xs| - 1 - i]
  {
    var j := |xs| - 1 - i;
    OrderStatistic(xs, j);
    OrderStatistic(ys, i);
    MirroredRank(xs, ys, j, Sort(xs, Leq)[j]);
    OneOfRank(ys, i, Sort(ys, Leq)[i], -Sort(xs, Leq)[j]);
  }

  /** ... and turns the sorted replicates round: the interval of the swapped arms is the mirror image. */
  lemma {:induction false} SwappingMirrors(qs: seq<Task>, qs': seq<Task>, b: nat, i: nat)
    requires |qs'| == |qs| && forall j :: 0 <= j < |qs| ==> qs'[j] == Task(qs[j].repo, qs[j].passedB, qs[j].passedA)
    requires i < b
    ensures Replicates(Grouped(qs'), b)[i] == -Replicates(Grouped(qs), b)[b - 1 - i]
  {
    forall r: nat { SwappingNegates(qs, qs', r); }
    Mirrored(Grouped(qs), Grouped(qs'), b, i);
  }

  lemma {:induction false} Mirrored(groups: seq<Group>, groups': seq<Group>, b: nat, i: nat)
    requires i < b && forall r: nat :: Replicate(groups', r) == -Replicate(groups, r)
    ensures Replicates(groups', b)[i] == -Replicates(groups, b)[b - 1 - i]
  {
    NegationTurnsRound(Unsorted(groups, b), Unsorted(groups', b), i);
  }

  lemma {:induction false} MirroredRank(xs: seq<real>, ys: seq<real>, i: nat, x: real)
    requires |xs| == |ys| && i < |xs| && forall j :: 0 <= j < |xs| ==> ys[j] == -xs[j]
    requires |Where(xs, (z: real) => z < x)| <= i < |Where(xs, (z: real) => z <= x)|
    ensures |Where(ys, (z: real) => z < -x)| <= |xs| - 1 - i < |Where(ys, (z: real) => z <= -x)|
  {
    WhereNot(xs, (z: real) => z < x, (z: real) => z >= x);
    WhereNot(xs, (z: real) => z <= x, (z: real) => z > x);
    assert Where(ys, (z: real) => z < -x) == Where(xs, (z: real) => z > x);
    assert Where(ys, (z: real) => z <= -x) == Where(xs, (z: real) => z >= x);
  }

  /** The 95% interval of the difference between the arms, from `b` replicates: the replicates of rank b / 40 and
      39 * b / 40. It is (0, 0) when the arms agree. */
  method ClusterBoot(qs: seq<Task>, b: nat) returns (lo: real, hi: real)
    requires b > 0
    ensures lo == Replicates(Grouped(qs), b)[b / 40] && hi == Replicates(Grouped(qs), b)[39 * b / 40]
    ensures |set r: nat | r < b && Replicate(Grouped(qs), r) < lo| <= b / 40
    ensures |set r: nat | r < b && Replicate(Grouped(qs), r) <= lo| > b / 40
    ensures |set r: nat | r < b && Replicate(Grouped(qs), r) < hi| <= 39 * b / 40
    ensures |set r: nat | r < b && Replicate(Grouped(qs), r) <= hi| > 39 * b / 40
    ensures lo <= hi
    ensures (forall q <- qs :: q.passedA == q.passedB) ==> lo == hi == 0.0
  {
    var groups := GroupByRepo(qs);
    var diffs := DrawReplicates(groups, b);
    assert diffs == Unsorted(groups, b);
    SortSorts(diffs, Leq);
    var sorted := Sort(diffs, Leq);
    lo, hi := sorted[b / 40], sorted[39 * b / 40];
    assert b / 40 < 39 * b / 40 ==> Leq(lo, hi);
    RanksOfReplicates(groups, b, diffs, b / 40, lo);
    RanksOfReplicates(groups, b, diffs, 39 * b / 40, hi);
    if forall q <- qs :: q.passedA == q.passedB {
      forall r: nat { AgreementIsZero(qs, r); }
      SortedReplicatesEqualIff(groups, b, 0.0);
    }
  }

  lemma {:induction false} RanksOfReplicates(groups: seq<Group>, b: nat, diffs: seq<real>, i: nat, x: real)
    requires |diffs| == b && (forall r :: 0 <= r < b ==> diffs[r] == Replicate(groups, r))
    requires i < b && |Sort(diffs, Leq)| == b && x == Sort(diffs, Leq)[i]
    ensures |set r: nat | r < b && Replicate(groups, r) < x| <= i < |set r: nat | r < b && Replicate(groups, r) <= x|
  {
    OrderStatistic(diffs, i);
    assert Where(diffs, (y: real) => y < x) == set r: nat | r < b && Replicate(groups, r) < x;
    assert Where(diffs, (y: real) => y <= x) == set r: nat | r < b && Replicate(groups, r) <= x;
  }

  // ---------------------------------------------------------------- a power of two of repositories

  lemma {:induction false} FileTotals(groups: seq<Group>, q: Task)
    ensures Sum(Diffs(File(groups, q))) == Sum(Diffs(groups)) + Diff(q)
    ensures Sum(Sizes(File(groups, q))) == Sum(Sizes(groups)) + 1
  {
    var filed := File(groups, q);
    if groups == [] {
      assert [q][..0] == [] && TotalDiff([q]) == Diff(q);
      assert Diffs(filed) == [Diff(q)] && Sizes(filed) == [1];
      assert Diffs(groups) == [] && Sizes(groups) == [];
    } else {
      assert Diffs(filed)[1..] == Diffs(filed[1..]) && Sizes(filed)[1..] == Sizes(filed[1..]);
      assert Diffs(groups)[1..] == Diffs(groups[1..]) && Sizes(groups)[1..] == Sizes(groups[1..]);
      if groups[0].repo == q.repo {
        assert filed[1..] == groups[1..];
        assert (groups[0].members + [q])[..|groups[0].members|] == groups[0].members;
      } else {
        FileTotals(groups[1..], q);
        assert filed[1..] == File(groups[1..], q);
      }
    }
  }

  /** Grouping loses no task. */
  lemma {:induction false} GroupedTotals(qs: seq<Task>)
    ensures Sum(Diffs(Grouped(qs))) == TotalDiff(qs) && Sum(Sizes(Grouped(qs))) == |qs|
  {
    if qs != [] {
      GroupedTotals(qs[..|qs| - 1]);
      FileTotals(Grouped(qs[..|qs| - 1]), qs[|qs| - 1]);
    }
  }

  lemma DrawsDistinct(start: nat, k: nat)
    requires k <= 31
    ensures Distinct(Drawn(start, Pow2(k), Pow2(k)))
  {
    var n := Pow2(k);
    var idx := Drawn(start, n, n);
    forall i, j | 0 <= i < j < n ensures idx[i] != idx[j] {
      ExactPeriod(SEED, k, start + i + 1, start + j + 1);
      if (start + i + 1) % n == (start + j + 1) % n {
        CongIffMod(start + j + 1, start + i + 1, n);
        var q := Quotient(start + j + 1, start + i + 1, n);
        if q != 0 { NonzeroMultiple(n, q); }
      }
    }
  }

  /** With a power of two of repositories, the generator's full period makes every replicate draw every
      repository exactly once: each replicate is the observed difference. */
  lemma PowerOfTwoReplicate(qs: seq<Task>, k: nat, r: nat)
    requires k <= 31 && |Grouped(qs)| == Pow2(k)
    ensures Replicate(Grouped(qs), r) == Ratio(TotalDiff(qs), |qs|)
  {
    var groups, n := Grouped(qs), Pow2(k);
    DrawsDistinct(r * n, k);
    SumOfPermutation(Diffs(groups), Drawn(r * n, n, n));
    SumOfPermutation(Sizes(groups), Drawn(r * n, n, n));
    GroupedTotals(qs);
  }

  /** The sorted replicates are all equal to `x` when all replicates are, and only then. */
  lemma SortedReplicatesEqualIff(groups: seq<Group>, b: nat, x: real)
    ensures (forall i :: 0 <= i < b ==> Replicates(groups, b)[i] == x)
       <==> (forall r :: 0 <= r < b ==> Replicate(groups, r) == x)
  {
    var unsorted := Unsorted(groups, b);
    var sorted := Sort(unsorted, Leq);
    SortSorts(unsorted, Leq);
    SameElements(sorted, unsorted);
    assert sorted == Replicates(groups, b);
    if forall r :: 0 <= r < b ==> Replicate(groups, r) == x {
      forall i | 0 <= i < b ensures sorted[i] == x { assert sorted[i] in unsorted; }
    }
    if forall i :: 0 <= i < b ==> sorted[i] == x {
      forall r | 0 <= r < b ensures Replicate(groups, r) == x {
        assert unsorted[r] in sorted && unsorted[r] == Replicate(groups, r);
      }
    }
  }

  /** So the interval then has no width: both ends are the observed difference, whatever the data and
      however many replicates. */
  lemma PowerOfTwoIntervalCollapses(qs: seq<Task>, k: nat, b: nat)
    requires k <= 31 && |Grouped(qs)| == Pow2(k)
    ensures forall i :: 0 <= i < b ==> Replicates(Grouped(qs), b)[i] == Ratio(TotalDiff(qs), |qs|)
  {
    var x := Ratio(TotalDiff(qs), |qs|);
    forall r | 0 <= r < b ensures Replicate(Grouped(qs), r) == x { PowerOfTwoReplicate(qs, k, r); }
    SortedReplicatesEqualIff(Grouped(qs), b, x);
  }

  // ---------------------------------------------------------------- and only a power of two

  /** `n` repositories with one task each, of which the first alone tells the arms apart. */
  function Singles(n: nat): seq<Task> { seq(n, i requires 0 <= i < n => Task(i, i == 0, false)) }

  function SingleGroups(n: nat): seq<Group> { seq(n, i requires 0 <= i < n => Group(i, [Task(i, i == 0, false)])) }

  lemma {:induction false} FileNew(groups: seq<Group>, q: Task)
    requires forall i :: 0 <= i < |groups| ==> groups[i].repo != q.repo
    ensures File(groups, q) == groups + [Group(q.repo, [q])]
  {
    if groups != [] { FileNew(groups[1..], q); }
  }

  lemma {:induction false} GroupedSingles(n: nat)
    ensures Grouped(Singles(n)) == SingleGroups(n)
  {
    if n > 0 {
      GroupedSingles(n - 1);
      assert Singles(n)[..n - 1] == Singles(n - 1);
      FileNew(SingleGroups(n - 1), Singles(n)[n - 1]);
    }
  }

  lemma {:induction false} SumConstant(xs: seq<int>, c: int)
    requires forall i :: 0 <= i < |xs| ==> xs[i] == c
    ensures c == 0 ==> Sum(xs) == 0
    ensures c == 1 ==> Sum(xs) == |xs|
  {
    if xs != [] { SumConstant(xs[1..], c); }
  }

  /** The differences of the single tasks. */
  function Unit(n: nat): seq<int> { seq(n, i => if i == 0 then 1 else 0) }

  lemma SinglesPooled(n: nat, idx: seq<nat>)
    requires n > 0 && forall t :: 0 <= t < |idx| ==> idx[t] < n
    ensures Diffs(SingleGroups(n)) == Unit(n) && |Sizes(SingleGroups(n))| == n
    ensures Sum(Pick(Sizes(SingleGroups(n)), idx)) == |idx|
  {
    forall i | 0 <= i < n ensures Diffs(SingleGroups(n))[i] == Unit(n)[i] && Sizes(SingleGroups(n))[i] == 1 {
      var q := Task(i, i == 0, false);
      assert [q][..0] == [] && TotalDiff([q]) == Diff(q);
    }
    SumConstant(Pick(Sizes(SingleGroups(n)), idx), 1);
  }

  lemma SinglesTotal(n: nat)
    requires n > 0
    ensures TotalDiff(Singles(n)) == 1
  {
    GroupedSingles(n);
    GroupedTotals(Singles(n));
    SinglesPooled(n, []);
    assert Unit(n) == [1] + Unit(n)[1..];
    SumConstant(Unit(n)[1..], 0);
  }

  /** How often the first repository is drawn in the `count` draws after the first `start`. */
  function Hits(n: nat, start: nat, count: nat): int
    requires n > 0
  {
    Sum(Pick(Unit(n), Drawn(start, count, n)))
  }

  lemma HitsSplit(n: nat, start: nat, a: nat, b: nat)
    requires n > 0
    ensures Hits(n, start, a + b) == Hits(n, start, a) + Hits(n, start + a, b)
  {
    var w, xs, ys := Unit(n), Drawn(start, a, n), Drawn(start + a, b, n);
    assert Pick(w, Drawn(start, a + b, n)) == Pick(w, xs) + Pick(w, ys);
    SumConcat(Pick(w, xs), Pick(w, ys));
  }

  lemma DrawsRepeat(n: nat, start: nat, p: nat)
    requires n > 0 && start == p * MODULUS
    ensures Hits(n, start, MODULUS) == Hits(n, 0, MODULUS)
  {
    forall t | 0 <= t < MODULUS ensures Drawn(start, MODULUS, n)[t] == Drawn(0, MODULUS, n)[t] {
      SamePhase(start, p, t + 1);
      StatePeriod(SEED, start + (t + 1), t + 1);
    }
    assert Drawn(start, MODULUS, n) == Drawn(0, MODULUS, n);
  }

  lemma {:induction false} SamePhase(start: nat, p: nat, t: nat)
    requires start == p * MODULUS
    ensures (start + t) % MODULUS == t % MODULUS
  {
    Remainder(MODULUS, p + t / MODULUS, t % MODULUS, start + t);
  }

  /** Counted by periods: every period draws the first repository equally often. */
  lemma {:induction false} HitsByPeriods(n: nat, m: nat)
    requires n > 0
    ensures Hits(n, 0, m * MODULUS) == m * Hits(n, 0, MODULUS)
  {
    if m == 0 {
      assert Pick(Unit(n), Drawn(0, 0, n)) == [];
    } else {
      HitsByPeriods(n, m - 1);
      DrawsRepeat(n, (m - 1) * MODULUS, m - 1);
      HitsSplit(n, 0, (m - 1) * MODULUS, MODULUS);
      OneMoreTime(m - 1, Hits(n, 0, MODULUS));
    }
  }

  lemma OneMoreTime(m: nat, h: int)
    ensures m * h + h == (m + 1) * h
  {
  }

  /** Counted by replicates: when every replicate draws the first repository once. */
  lemma {:induction false} HitsByReplicates(n: nat, r: nat)
    requires n > 0 && forall i: nat :: Hits(n, i * n, n) == 1
    ensures Hits(n, 0, r * n) == r
  {
    if r == 0 {
      assert Pick(Unit(n), Drawn(0, 0, n)) == [];
    } else {
      HitsByReplicates(n, r - 1);
      NextBlock(r - 1, n);
      assert Hits(n, (r - 1) * n, n) == 1;
      HitsSplit(n, 0, (r - 1) * n, n);
    }
  }

  lemma SameProduct(a: nat, b: nat)
    ensures a * b == b * a
  {
  }

  lemma {:induction false} CancelDivisor(h: int, n: int)
    requires n > 0 && h as real / n as real == 1.0 / n as real
    ensures h == 1
  {
    var q := 1.0 / n as real;
    assert q * n as real == 1.0 && q * n as real == h as real;
  }

  /** A replicate of the single tasks is the share of the draws that hit the first repository. */
  lemma SinglesReplicate(n: nat, r: nat)
    requires n > 0 && Replicate(Grouped(Singles(n)), r) == Ratio(TotalDiff(Singles(n)), |Singles(n)|)
    ensures Hits(n, r * n, n) == 1
  {
    GroupedSingles(n);
    SinglesTotal(n);
    SinglesPooled(n, Drawn(r * n, n, n));
    CancelDivisor(Hits(n, r * n, n), n);
  }

  lemma {:induction false} DivisorOfPow2(n: nat, c: nat, e: nat) returns (k: nat)
    requires n * c == Pow2(e)
    ensures k <= e && n == Pow2(k)
  {
    if n == 1 {
      k := 0;
    } else {
      assert n > 0 && c > 0 by { NoZeroFactor(n, c); }
      if e == 0 { FactorsOfOne(n, c); }
      HalveProduct(n, c, Pow2(e - 1));
      if n % 2 == 0 {
        k := DivisorOfPow2(n / 2, c, e - 1);
        k := k + 1;
      } else {
        k := DivisorOfPow2(n, c / 2, e - 1);
      }
    }
  }

  lemma NoZeroFactor(n: nat, c: nat)
    requires n * c > 0
    ensures n > 0 && c > 0
  {
  }

  lemma {:induction false} FactorsOfOne(n: nat, c: nat)
    requires n * c == 1
    ensures n == 1
  {
    NoZeroFactor(n, c);
    assert n * c >= n * 1;
  }

  /** One of the factors of an even product is even. */
  lemma HalveProduct(n: nat, c: nat, h: nat)
    requires n * c == 2 * h
    ensures if n % 2 == 0 then n / 2 * c == h else c % 2 == 0 && n * (c / 2) == h
  {
    if n % 2 == 0 {
      var m := n / 2;
      assert n == 2 * m && 2 * (m * c) == n * c;
    } else {
      var m, d := n / 2, c / 2;
      assert n == 2 * m + 1 && c == 2 * d + c % 2;
      assert n * c == 2 * (m * c) + c;
      assert 2 * (n * d) == n * (2 * d);
    }
  }

  /** Without spread at `n` repositories: whatever the tasks, every replicate is the observed difference. */
  ghost predicate NoSpread(n: nat) {
    forall qs: seq<Task>, r: nat :: |Grouped(qs)| == n ==> Replicate(Grouped(qs), r) == Ratio(TotalDiff(qs), |qs|)
  }

  lemma EveryReplicateHitsOnce(n: nat, r: nat)
    requires n > 0 && NoSpread(n)
    ensures Hits(n, r * n, n) == 1
  {
    GroupedSingles(n);
    assert |Grouped(Singles(n))| == n;
    SinglesReplicate(n, r);
  }

  /** If the first repository is drawn once in every replicate, counting its draws over 2^31 replicates and
      over the same n periods shows that n divides 2^31. */
  lemma CountedBothWays(n: nat)
    requires n > 0 && forall r: nat :: Hits(n, r * n, n) == 1
    ensures n * Hits(n, 0, MODULUS) == MODULUS
  {
    HitsByReplicates(n, MODULUS);
    HitsByPeriods(n, n);
    SameProduct(n, MODULUS);
  }

  lemma NoSpreadDivides(n: nat) returns (k: nat)
    requires n > 0 && NoSpread(n)
    ensures k <= 31 && n == Pow2(k)
  {
    forall r: nat ensures Hits(n, r * n, n) == 1 { EveryReplicateHitsOnce(n, r); }
    CountedBothWays(n);
    k := DivisorOfModulus(n, Hits(n, 0, MODULUS));
  }

  lemma DivisorOfModulus(n: nat, c: int) returns (k: nat)
    requires n > 0 && n * c == MODULUS
    ensures k <= 31 && n == Pow2(k)
  {
    ModulusIsPow2();
    if c < 0 { NegativeProduct(n, c); }
    k := DivisorOfPow2(n, c, 31);
  }

  lemma NegativeProduct(n: int, c: int)
    requires n > 0 && c < 0
    ensures n * c < 0
  {
  }

  lemma {:induction false} NoRepositories(qs: seq<Task>)
    requires Grouped(qs) == []
    ensures qs == []
  {
    GroupedTotals(qs);
    assert Sizes(Grouped(qs)) == [];
  }

  /** The bootstrap is without spread at exactly these numbers of repositories: none, and the powers of two up
      to 2^31. */
  lemma NoSpreadIff(n: nat)
    ensures NoSpread(n) <==> n == 0 || exists k :: k <= 31 && n == Pow2(k)
  {
    if n > 0 && NoSpread(n) { var k := NoSpreadDivides(n); }
    if n == 0 || exists k :: k <= 31 && n == Pow2(k) {
      forall qs: seq<Task>, r: nat | |Grouped(qs)| == n
        ensures Replicate(Grouped(qs), r) == Ratio(TotalDiff(qs), |qs|)
      {
        if n == 0 {
          NoRepositories(qs);
        } else {
          var k :| k <= 31 && n == Pow2(k);
          PowerOfTwoReplicate(qs, k, r);
        }
      }
    }
  }

  /** At `n` repositories the interval says nothing: whatever the tasks and however many replicates, every entry
      it could be read from is the observed difference. */
  ghost predicate FlatInterval(n: nat) {
    forall qs: seq<Task>, b: nat :: |Grouped(qs)| == n ==>
      forall i :: 0 <= i < b ==> Replicates(Grouped(qs), b)[i] == Ratio(TotalDiff(qs), |qs|)
  }

  lemma FlatIntervalIff(n: nat)
    ensures FlatInterval(n) <==> n == 0 || exists k :: k <= 31 && n == Pow2(k)
  {
    forall qs: seq<Task>, b: nat
      ensures (forall i :: 0 <= i < b ==> Replicates(Grouped(qs), b)[i] == Ratio(TotalDiff(qs), |qs|))
         <==> (forall r :: 0 <= r < b ==> Replicate(Grouped(qs), r) == Ratio(TotalDiff(qs), |qs|))
    {
      SortedReplicatesEqualIff(Grouped(qs), b, Ratio(TotalDiff(qs), |qs|));
    }
    if FlatInterval(n) {
      forall qs: seq<Task>, r: nat | |Grouped(qs)| == n
        ensures Replicate(Grouped(qs), r) == Ratio(TotalDiff(qs), |qs|)
      {
        var b := r + 1;
        assert forall i :: 0 <= i < b ==> Replicates(Grouped(qs), b)[i] == Ratio(TotalDiff(qs), |qs|);
      }
    }
    NoSpreadIff(n);
  }
}
